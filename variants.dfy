/** How the two variants of the type/date summary differ on the same store. */
module Variants {
  import opened Orders
  import OrderDatabase
  import Server

  /** On the same matches both variants count the same, list the same
      customers and echo a type: the class always echoes the query type, the
      single-file variant the last match's type, which is the query type when
      there is a match and `''` when there is none. With `YYYY-MM-DD` dates in
      the store both list the same ten ids, since the class's date sort then
      changes nothing. */
  lemma VariantsCompared(store: seq<Order>, kind: string, date: string, dateValue: string -> int)
    requires forall i :: 0 <= i < |store| ==> IsCalendarDate(store[i].date)
    ensures
      var matches := FilterByTypeDate(store, kind, date);
      var sorted := OrderDatabase.Summarise(matches, kind, dateValue);
      var unsorted := Server.TotalOrdersByTypeDate(matches);
      sorted.count == unsorted.count &&
      sorted.orders == unsorted.orders &&
      sorted.relatedCustomers == unsorted.relatedCustomers &&
      sorted.kind == kind &&
      unsorted.kind == if matches == [] then "" else kind
  {
    var matches := FilterByTypeDate(store, kind, date);
    OrderDatabase.SummariseSpec(matches, kind, dateValue);
    OrderDatabase.CalendarDatesKeepStoreOrder(store, kind, date, dateValue);
    Server.TotalOrdersByTypeDateSpec(matches);
  }
}
