/** The `Database` class of src/database.ts: an order store with a checked
    insert, a lookup by id, and the type/date summary that sorts the matches
    by date before keeping the last ten. */
module OrderDatabase {
  import opened Orders
  import Sorting

  datatype Error = IdAlreadyExists

  datatype Outcome = Pass | Fail(error: Error)

  // ---------------------------------------------------------------------------
  // The lodash pipeline for the ten most recent ids

  /** `reverse()` on an array. */
  function Reverse<T>(s: seq<T>): (r: seq<T>)
    ensures |r| == |s|
    ensures forall i :: 0 <= i < |s| ==> r[i] == s[|s| - 1 - i]
  {
    if s == [] then [] else [s[|s| - 1]] + Reverse(s[..|s| - 1])
  }

  /** `take(n)`: the first `n` elements, or all of them when there are fewer. */
  function Take<T>(s: seq<T>, n: nat): (r: seq<T>)
    ensures |r| == Min(n, |s|)
    ensures r == s[..|r|]
  {
    s[..Min(n, |s|)]
  }

  /** `.reverse().take(10).value().map(order => order.id).reverse()` applied
      to the date-sorted matches: reversing, taking ten and reversing back
      keeps the ids of the last ten in ascending order. */
  function LastTenIds(sorted: seq<Order>): (r: seq<string>)
    ensures r == Ids(LastTen(sorted))
    ensures |r| == Min(|sorted|, 10)
  {
    var n, m := |sorted|, Min(|sorted|, 10);
    var taken := Take(Reverse(sorted), 10);
    var r := Reverse(Ids(taken));
    assert r == Ids(LastTen(sorted)) by {
      forall j | 0 <= j < m ensures r[j] == Ids(LastTen(sorted))[j] {
        assert taken[m - 1 - j] == sorted[n - 1 - (m - 1 - j)];
      }
    }
    r
  }

  /** The date key: `new Date(o.date).valueOf()`, with the date parser given
      as `dateValue`. Orders with the same date string get the same key. */
  function DateKey(dateValue: string -> int): (key: Order -> int)
    ensures forall a: Order, b: Order :: a.date == b.date ==> key(a) == key(b)
  {
    (o: Order) => dateValue(o.date)
  }

  // ---------------------------------------------------------------------------
  // The reduce that builds the summary

  /** One step of the reduce: `type`, `count` and `orders` are overwritten with
      the query type, the number of matches and the ten ids; the customer is
      added through `[...new Set([...acc.related_customers, order.customer])]`,
      which on a duplicate-free accumulator appends it exactly when it is new. */
  function SummaryStep(acc: Summary, o: Order, kind: string, count: int, lastTen: seq<string>): (r: Summary)
    ensures r.kind == kind && r.count == count && r.orders == lastTen
    ensures NoDuplicates(acc.relatedCustomers) ==>
      r.relatedCustomers == if o.customer in acc.relatedCustomers then acc.relatedCustomers
                            else acc.relatedCustomers + [o.customer]
  {
    assert NoDuplicates(acc.relatedCustomers) ==>
      SetSpread(acc.relatedCustomers + [o.customer])
        == if o.customer in acc.relatedCustomers then acc.relatedCustomers else acc.relatedCustomers + [o.customer]
    by {
      if NoDuplicates(acc.relatedCustomers) {
        SetSpreadAddsIfAbsent(acc.relatedCustomers, o.customer);
      }
    }
    acc.(kind := kind, count := count, orders := lastTen,
         relatedCustomers := SetSpread(acc.relatedCustomers + [o.customer]))
  }

  /** `orders.reduce(step, {type, count: 0, orders: [], related_customers: []})`:
      the type is echoed whatever the number of steps, and once an order has
      been folded the count and ids are the closed-over ones. */
  function ReduceSummary(matches: seq<Order>, kind: string, count: int, lastTen: seq<string>): (r: Summary)
    ensures r.kind == kind
    ensures r.count == if matches == [] then 0 else count
    ensures r.orders == if matches == [] then [] else lastTen
  {
    if matches == [] then Summary(kind, 0, [], [])
    else SummaryStep(ReduceSummary(matches[..|matches| - 1], kind, count, lastTen), matches[|matches| - 1], kind, count, lastTen)
  }

  /** The reduce's customer list is the deduplicated customers of everything
      folded, in order of first appearance. */
  lemma {:induction false} ReduceSummaryFields(matches: seq<Order>, kind: string, count: int, lastTen: seq<string>)
    ensures ReduceSummary(matches, kind, count, lastTen).relatedCustomers == SetSpread(Customers(matches))
  {
    if matches != [] {
      var n := |matches| - 1;
      var pre, o := matches[..n], matches[n];
      assert matches == pre + [o];
      var acc := ReduceSummary(pre, kind, count, lastTen);
      assert ReduceSummary(matches, kind, count, lastTen) == SummaryStep(acc, o, kind, count, lastTen);
      ReduceSummaryFields(pre, kind, count, lastTen);
      SetSpreadStep(Customers(pre), o.customer);
      CustomersAppend(pre, o);
    }
  }

  /** The body of `getOrdersByTypeDate` after the filter: the type is echoed,
      every match is counted, and at most ten ids are listed. */
  function Summarise(matches: seq<Order>, kind: string, dateValue: string -> int): (r: Summary)
    ensures r.kind == kind && r.count == |matches|
    ensures |r.orders| == Min(|matches|, 10)
  {
    var sorted := Sorting.SortBy(matches, DateKey(dateValue));
    assert |sorted| == |matches| by {
      assert |multiset(sorted)| == |multiset(matches)|;
    }
    var lastTen := LastTenIds(sorted);
    ReduceSummary(matches, kind, |matches|, lastTen)
  }

  /** The summary echoes the type, counts every match, lists the ids of the
      last ten matches of the stable date sort in ascending order, and lists
      the customers of all matches once each, in order of first appearance. */
  lemma SummariseSpec(matches: seq<Order>, kind: string, dateValue: string -> int)
    ensures Summarise(matches, kind, dateValue).kind == kind
    ensures Summarise(matches, kind, dateValue).count == |matches|
    ensures Summarise(matches, kind, dateValue).orders == Ids(LastTen(Sorting.SortBy(matches, DateKey(dateValue))))
    ensures |Summarise(matches, kind, dateValue).orders| == Min(|matches|, 10)
    ensures Summarise(matches, kind, dateValue).relatedCustomers == SetSpread(Customers(matches))
  {
    var sorted := Sorting.SortBy(matches, DateKey(dateValue));
    ReduceSummaryFields(matches, kind, |matches|, LastTenIds(sorted));
  }

  /** With no match the summary is `{type, count: 0, orders: [], related_customers: []}`. */
  lemma SummariseNoMatches(kind: string, dateValue: string -> int)
    ensures Summarise([], kind, dateValue) == Summary(kind, 0, [], [])
  {
  }

  /** Every match shares the queried digit string, so when the stored dates are
      `YYYY-MM-DD` dates every match has the same date, the stable sort leaves
      the matches as they are, and `orders` is the ids of the last ten matches
      in store order. */
  lemma CalendarDatesKeepStoreOrder(store: seq<Order>, kind: string, date: string, dateValue: string -> int)
    requires forall i :: 0 <= i < |store| ==> IsCalendarDate(store[i].date)
    ensures Summarise(FilterByTypeDate(store, kind, date), kind, dateValue).orders
         == Ids(LastTen(FilterByTypeDate(store, kind, date)))
  {
    var matches := FilterByTypeDate(store, kind, date);
    FilterCounts(store, kind, date);
    forall i | 0 <= i < |matches| ensures IsCalendarDate(matches[i].date) {
      assert matches[i] in multiset(store);
    }
    forall i, j | 0 <= i < |matches| && 0 <= j < |matches|
      ensures DateKey(dateValue)(matches[i]) == DateKey(dateValue)(matches[j])
    {
      CalendarDateDeterminedByDigits(matches[i].date, matches[j].date);
    }
    Sorting.SortByEqualKeys(matches, DateKey(dateValue));
    SummariseSpec(matches, kind, dateValue);
  }

  /** `addOrder` checks its `id` argument but stores `order`: when the two
      disagree and `order.id` is already stored, the append creates a
      duplicate id. */
  lemma MismatchedIdBreaksUniqueness(orders: seq<Order>, order: Order, id: string)
    requires !HasId(orders, id) && HasId(orders, order.id)
    ensures !UniqueIds(orders + [order])
  {
    var i :| 0 <= i < |orders| && orders[i].id == order.id;
    assert (orders + [order])[i].id == (orders + [order])[|orders|].id;
  }

  // ---------------------------------------------------------------------------
  // The store

  class Database {
    /** The `orders` collection of the JSON document, in memory. */
    var orders: seq<Order>

    /** No two stored orders share an id. */
    ghost predicate Valid()
      reads this
    {
      UniqueIds(orders)
    }

    /** `defaults({ orders: [] })` over the document read from disk: the stored
        orders when the document has an `orders` field, an empty collection
        when there is no document or it has no such field (`None`). */
    constructor (stored: Option<seq<Order>>)
      ensures orders == if stored.Some? then stored.value else []
      ensures stored.None? ==> Valid()
    {
      orders := if stored.Some? then stored.value else [];
    }

    /** `addOrder(order, id)`: fails and changes nothing when an order with
        `id` is stored; otherwise appends `order`. The check uses `id`, the
        append uses `order`, so uniqueness is kept only when they agree. */
    method AddOrder(order: Order, id: string) returns (r: Outcome)
      modifies this
      ensures HasId(old(orders), id) ==> r == Fail(IdAlreadyExists) && orders == old(orders)
      ensures !HasId(old(orders), id) ==> r == Pass && orders == old(orders) + [order]
      ensures old(Valid()) && order.id == id ==> Valid()
    {
      var existing := FindById(orders, id);
      if existing.Some? {
        return Fail(IdAlreadyExists);
      }
      orders := orders + [order];
      r := Pass;
    }

    /** `getOrderById(id)`: the first stored order with that id, if any. */
    method GetOrderById(id: string) returns (r: Option<Order>)
      ensures r.None? <==> !HasId(orders, id)
      ensures r.Some? ==> exists i :: IsFirstWithId(orders, id, i) && orders[i] == r.value
    {
      r := FindById(orders, id);
    }

    /** `getOrdersByTypeDate(type, date)`: the summary of the stored orders of
        that type whose date, hyphens stripped, is `date`. */
    method GetOrdersByTypeDate(kind: string, date: string, dateValue: string -> int) returns (r: Summary)
      ensures r.kind == kind
      ensures r.count == |FilterByTypeDate(orders, kind, date)|
      ensures r.orders == Ids(LastTen(Sorting.SortBy(FilterByTypeDate(orders, kind, date), DateKey(dateValue))))
      ensures r.relatedCustomers == SetSpread(Customers(FilterByTypeDate(orders, kind, date)))
    {
      var matches := FilterByTypeDate(orders, kind, date);
      r := Summarise(matches, kind, dateValue);
      SummariseSpec(matches, kind, dateValue);
    }
  }
}
