/** The single-file variant, server.ts: the same store as a module-level
    `orders` array with insert-if-absent in the POST handler, and a summary
    that folds the matches in store order without sorting them. */
module Server {
  import opened Orders

  // ---------------------------------------------------------------------------
  // lastTenOrders

  /** `_.drop(xs, n)`: everything after the first `n` elements (all of them
      when `n` is negative, none when `n` is at least the length). */
  function Drop<T>(xs: seq<T>, n: int): (r: seq<T>)
    ensures |r| == if n <= 0 then |xs| else if n >= |xs| then 0 else |xs| - n
    ensures r == xs[|xs| - |r|..]
  {
    if n <= 0 then xs else if n >= |xs| then [] else xs[n..]
  }

  /** `lastTenOrders(orderCount, orders)`: with more than ten orders counted,
      drops the first `orderCount - 10`; otherwise returns the list as it is.
      The result is always a suffix of the list. */
  function LastTenOrders(orderCount: int, ids: seq<string>): (r: seq<string>)
    ensures orderCount <= 10 ==> r == ids
    ensures |r| <= |ids| && r == ids[|ids| - |r|..]
    ensures orderCount > 10 ==> |r| == if orderCount - 10 >= |ids| then 0 else |ids| - (orderCount - 10)
  {
    if orderCount > 10 then
      var difference := orderCount - 10;
      Drop(ids, difference)
    else
      ids
  }

  /** Called with the list's own length, `lastTenOrders` keeps its last
      `min(|ids|, 10)` elements. */
  lemma LastTenOrdersOfLength(ids: seq<string>)
    ensures LastTenOrders(|ids|, ids) == LastTen(ids)
    ensures |LastTenOrders(|ids|, ids)| == Min(|ids|, 10)
  {
  }

  // ---------------------------------------------------------------------------
  // totalOrdersByTypeDate

  /** One step of the reduce: `type` becomes the order's type, `count` the
      closed-over length, the id is appended to `orders`, and the customer is
      added through `[...new Set([...acc.related_customers, order.customer])]`,
      which on a duplicate-free accumulator appends it exactly when it is new. */
  function TotalStep(acc: Summary, o: Order, count: int): (r: Summary)
    ensures r.kind == o.kind && r.count == count
    ensures r.orders == acc.orders + [o.id]
    ensures NoDuplicates(acc.relatedCustomers) ==>
      r.relatedCustomers == if o.customer in acc.relatedCustomers then acc.relatedCustomers
                            else acc.relatedCustomers + [o.customer]
  {
    assert NoDuplicates(acc.relatedCustomers) ==>
      SetSpread(acc.relatedCustomers + [o.customer])
        == if o.customer in acc.relatedCustomers then acc.relatedCustomers else acc.relatedCustomers + [o.customer]
    by {
      if NoDuplicates(acc.relatedCustomers) {
        SetSpreadAddsIfAbsent(acc.relatedCustomers, o.customer);
      }
    }
    acc.(kind := o.kind, count := count, orders := acc.orders + [o.id],
         relatedCustomers := SetSpread(acc.relatedCustomers + [o.customer]))
  }

  /** `orders.reduce(step, {type: '', count: 0, orders: [], related_customers: []})`:
      one id per order folded, the type of the last one (`''` when none), and
      the closed-over count once an order has been folded. */
  function ReduceTotals(xs: seq<Order>, count: int): (r: Summary)
    ensures |r.orders| == |xs|
    ensures r.kind == if xs == [] then "" else xs[|xs| - 1].kind
    ensures r.count == if xs == [] then 0 else count
  {
    if xs == [] then Summary("", 0, [], [])
    else TotalStep(ReduceTotals(xs[..|xs| - 1], count), xs[|xs| - 1], count)
  }

  /** The reduce keeps every id in input order and deduplicates the
      customers of all orders folded. */
  lemma {:induction false} ReduceTotalsFields(xs: seq<Order>, count: int)
    ensures ReduceTotals(xs, count).orders == Ids(xs)
    ensures ReduceTotals(xs, count).relatedCustomers == SetSpread(Customers(xs))
  {
    if xs != [] {
      var n := |xs| - 1;
      var pre, o := xs[..n], xs[n];
      assert xs == pre + [o];
      var acc := ReduceTotals(pre, count);
      assert ReduceTotals(xs, count) == TotalStep(acc, o, count);
      ReduceTotalsFields(pre, count);
      IdsAppend(pre, o);
      CustomersAppend(pre, o);
      SetSpreadStep(Customers(pre), o.customer);
    }
  }

  /** `totalOrdersByTypeDate(orders)`: the reduce, with `orders` cut down by
      `lastTenOrders(count, ...)`. */
  function TotalOrdersByTypeDate(xs: seq<Order>): (r: Summary)
    ensures r.count == |xs|
    ensures |r.orders| == Min(|xs|, 10)
  {
    var count := |xs|;
    var totals := ReduceTotals(xs, count);
    totals.(orders := LastTenOrders(count, totals.orders))
  }

  /** The count is the input length; `orders` is the ids of the last ten
      inputs in input order, unsorted; `type` is the last input's type, or
      `''` when there is none; the customers of all inputs appear once each,
      in order of first appearance. */
  lemma TotalOrdersByTypeDateSpec(xs: seq<Order>)
    ensures TotalOrdersByTypeDate(xs).count == |xs|
    ensures TotalOrdersByTypeDate(xs).orders == Ids(LastTen(xs))
    ensures |TotalOrdersByTypeDate(xs).orders| == Min(|xs|, 10)
    ensures TotalOrdersByTypeDate(xs).kind == if xs == [] then "" else xs[|xs| - 1].kind
    ensures TotalOrdersByTypeDate(xs).relatedCustomers == SetSpread(Customers(xs))
  {
    ReduceTotalsFields(xs, |xs|);
    LastTenOrdersOfLength(Ids(xs));
  }

  // ---------------------------------------------------------------------------
  // The module-level store

  class OrderStore {
    /** The module-level `orders` array taken from the JSON document. */
    var orders: seq<Order>

    /** No two stored orders share an id. */
    ghost predicate Valid()
      reads this
    {
      UniqueIds(orders)
    }

    /** `db.data ||= { orders: [] }`: the document's `orders` array, or an
        empty array when no document was read (`None`). */
    constructor (stored: Option<seq<Order>>)
      ensures orders == if stored.Some? then stored.value else []
      ensures stored.None? ==> Valid()
    {
      orders := if stored.Some? then stored.value else [];
    }

    /** `getOrderById(id)`: the first order with that id, or `undefined`. */
    method GetOrderById(id: string) returns (r: Option<Order>)
      ensures r.None? <==> !HasId(orders, id)
      ensures r.Some? ==> exists i :: IsFirstWithId(orders, id, i) && orders[i] == r.value
    {
      r := FindById(orders, id);
    }

    /** `getOrderByTypeDate(type, date)`: the orders of that type whose date,
        hyphens stripped, is `date`, in array order. */
    method GetOrderByTypeDate(kind: string, date: string) returns (r: seq<Order>)
      ensures r == FilterByTypeDate(orders, kind, date)
      ensures forall i :: 0 <= i < |r| ==> Matches(r[i], kind, date)
      ensures forall o :: multiset(r)[o] == if Matches(o, kind, date) then multiset(orders)[o] else 0
    {
      r := FilterByTypeDate(orders, kind, date);
      FilterCounts(orders, kind, date);
    }

    /** The insert step of the POST handler: `orders.push(body)` only when no
        order with `body.id` is found. Reports whether it pushed. */
    method PostOrder(body: Order) returns (added: bool)
      modifies this
      ensures added <==> !HasId(old(orders), body.id)
      ensures orders == if added then old(orders) + [body] else old(orders)
      ensures old(Valid()) ==> Valid()
      ensures FindById(orders, body.id).Some?
    {
      var existing := FindById(orders, body.id);
      added := existing.None?;
      if added {
        FindAppendedOrder(orders, body);
        orders := orders + [body];
      }
    }
  }
}
