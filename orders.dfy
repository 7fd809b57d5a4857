/** The order record, the summary returned by the type/date query, and the
    list operations both variants of the service share: the hyphen stripping
    of dates, lookup by id, the type/date filter and the order-preserving
    deduplication performed by spreading a JavaScript `Set`. */
module Orders {

  /** An order as stored. The source's `type` field is called `kind` here,
      since `type` is a keyword in Dafny. */
  datatype Order = Order(id: string, title: string, date: string, kind: string, customer: string)

  /** The result of the type/date query. */
  datatype Summary = Summary(kind: string, count: int, orders: seq<string>, relatedCustomers: seq<string>)

  /** A value or its absence (JavaScript's `undefined`). */
  datatype Option<T> = None | Some(value: T)

  function Min(a: int, b: int): int { if a <= b then a else b }

  /** The last `min(|s|, 10)` elements of `s`. */
  function LastTen<T>(s: seq<T>): seq<T>
  {
    s[|s| - Min(|s|, 10)..]
  }

  // ---------------------------------------------------------------------------
  // Dates

  /** `date.replaceAll('-', '')`: every hyphen removed, every other character
      kept with its multiplicity. */
  function Undasherise(date: string): (r: string)
    ensures '-' !in r
    ensures forall c :: c != '-' ==> multiset(r)[c] == multiset(date)[c]
    ensures |r| <= |date|
  {
    if date == [] then []
    else
      assert date == [date[0]] + date[1..];
      (if date[0] == '-' then [] else [date[0]]) + Undasherise(date[1..])
  }

  /** Stripping hyphens works piecewise, so the characters that remain keep
      their relative order. */
  lemma {:induction false} UndasheriseAppend(a: string, b: string)
    ensures Undasherise(a + b) == Undasherise(a) + Undasherise(b)
  {
    if a == [] {
      assert a + b == b;
    } else {
      var head := if a[0] == '-' then [] else [a[0]];
      calc {
        Undasherise(a + b);
        { assert (a + b)[0] == a[0]; assert (a + b)[1..] == a[1..] + b; }
        head + Undasherise(a[1..] + b);
        { UndasheriseAppend(a[1..], b); }
        head + (Undasherise(a[1..]) + Undasherise(b));
        Undasherise(a) + Undasherise(b);
      }
    }
  }

  /** A string without hyphens is left as it is. */
  lemma {:induction false} UndasheriseKeepsHyphenFree(s: string)
    requires '-' !in s
    ensures Undasherise(s) == s
  {
    if s != [] {
      assert s[0] in s;
      assert forall c :: c in s[1..] ==> c in s;
      UndasheriseKeepsHyphenFree(s[1..]);
    }
  }

  /** Stripping hyphens twice is the same as stripping them once. */
  lemma UndasheriseIdempotent(s: string)
    ensures Undasherise(Undasherise(s)) == Undasherise(s)
  {
    UndasheriseKeepsHyphenFree(Undasherise(s));
  }

  predicate IsDigit(c: char) { '0' <= c <= '9' }

  /** A calendar date written `YYYY-MM-DD` (ISO 8601), as the orders carry it. */
  predicate IsCalendarDate(d: string)
  {
    |d| == 10 && d[4] == '-' && d[7] == '-' &&
    forall i :: 0 <= i < 10 && i != 4 && i != 7 ==> IsDigit(d[i])
  }

  lemma DigitsHyphenFree(s: string)
    requires forall i :: 0 <= i < |s| ==> IsDigit(s[i])
    ensures Undasherise(s) == s
  {
    UndasheriseKeepsHyphenFree(s);
  }

  /** A hyphen between two pieces disappears, and each piece is stripped on its own. */
  lemma UndasheriseAroundHyphen(a: string, b: string)
    ensures Undasherise(a + ['-'] + b) == Undasherise(a) + Undasherise(b)
  {
    UndasheriseAppend(a + ['-'], b);
    UndasheriseAppend(a, ['-']);
  }

  /** A stretch of a `YYYY-MM-DD` date clear of both hyphens is left as it is. */
  lemma CalendarDatePiece(d: string, lo: int, hi: int)
    requires IsCalendarDate(d)
    requires 0 <= lo <= hi <= 10
    requires hi <= 4 || (5 <= lo && hi <= 7) || 8 <= lo
    ensures Undasherise(d[lo..hi]) == d[lo..hi]
  {
    var piece := d[lo..hi];
    assert forall i :: 0 <= i < |piece| ==> piece[i] == d[lo + i];
    DigitsHyphenFree(piece);
  }

  /** Stripping the hyphens of a `YYYY-MM-DD` date leaves its eight digits. */
  lemma UndasheriseCalendarDate(d: string)
    requires IsCalendarDate(d)
    ensures Undasherise(d) == d[..4] + d[5..7] + d[8..]
  {
    var year, month, day := d[0..4], d[5..7], d[8..10];
    CalendarDatePiece(d, 0, 4);
    CalendarDatePiece(d, 5, 7);
    CalendarDatePiece(d, 8, 10);
    assert d == (year + ['-'] + month) + ['-'] + day;
    UndasheriseAroundHyphen(year + ['-'] + month, day);
    UndasheriseAroundHyphen(year, month);
  }

  /** Two `YYYY-MM-DD` dates with the same digit string are the same date. */
  lemma CalendarDateDeterminedByDigits(a: string, b: string)
    requires IsCalendarDate(a) && IsCalendarDate(b)
    requires Undasherise(a) == Undasherise(b)
    ensures a == b
  {
    UndasheriseCalendarDate(a);
    UndasheriseCalendarDate(b);
    var da, db := Undasherise(a), Undasherise(b);
    assert a[..4] == da[..4] == db[..4] == b[..4];
    assert a[5..7] == da[4..6] == db[4..6] == b[5..7];
    assert a[8..] == da[6..] == db[6..] == b[8..];
    assert a == a[..4] + [a[4]] + a[5..7] + [a[7]] + a[8..];
    assert b == b[..4] + [b[4]] + b[5..7] + [b[7]] + b[8..];
  }

  // ---------------------------------------------------------------------------
  // Lookup by id

  predicate HasId(orders: seq<Order>, id: string)
  {
    exists i :: 0 <= i < |orders| && orders[i].id == id
  }

  /** Position `i` holds the first order whose id is `id`. */
  predicate IsFirstWithId(orders: seq<Order>, id: string, i: int)
  {
    0 <= i < |orders| && orders[i].id == id &&
    forall j :: 0 <= j < i ==> orders[j].id != id
  }

  /** An id found past a first order with another id is found past it in the tail. */
  lemma HasIdTail(orders: seq<Order>, id: string)
    requires orders != [] && orders[0].id != id
    ensures HasId(orders, id) <==> HasId(orders[1..], id)
  {
    if HasId(orders, id) {
      var i :| 0 <= i < |orders| && orders[i].id == id;
      assert orders[1..][i - 1].id == id;
    }
    if HasId(orders[1..], id) {
      var i :| 0 <= i < |orders| - 1 && orders[1..][i].id == id;
      assert orders[i + 1].id == id;
    }
  }

  /** The first position of `id` in the tail is one less than in the list. */
  lemma FirstWithIdTail(orders: seq<Order>, id: string, r: Order)
    requires orders != [] && orders[0].id != id
    requires exists i :: IsFirstWithId(orders[1..], id, i) && orders[1..][i] == r
    ensures exists i :: IsFirstWithId(orders, id, i) && orders[i] == r
  {
    var i :| IsFirstWithId(orders[1..], id, i) && orders[1..][i] == r;
    assert IsFirstWithId(orders, id, i + 1);
  }

  /** `orders.find(order => order.id === id)`: the first order with that id,
      or nothing when no order has it. */
  function FindById(orders: seq<Order>, id: string): (r: Option<Order>)
    ensures r.None? <==> !HasId(orders, id)
    ensures r.Some? ==> exists i :: IsFirstWithId(orders, id, i) && orders[i] == r.value
  {
    if orders == [] then None
    else if orders[0].id == id then
      assert IsFirstWithId(orders, id, 0);
      Some(orders[0])
    else
      var r := FindById(orders[1..], id);
      HasIdTail(orders, id);
      if r.Some? then
        FirstWithIdTail(orders, id, r.value);
        r
      else
        r
  }

  /** Appending an order with a fresh id makes it findable by that id. */
  lemma {:induction false} FindAppendedOrder(orders: seq<Order>, o: Order)
    requires !HasId(orders, o.id)
    ensures FindById(orders + [o], o.id) == Some(o)
  {
    var r := FindById(orders + [o], o.id);
    assert (orders + [o])[|orders|].id == o.id;
    assert forall j :: 0 <= j < |orders| ==> (orders + [o])[j].id != o.id;
    var i :| IsFirstWithId(orders + [o], o.id, i) && (orders + [o])[i] == r.value;
    assert i == |orders|;
  }

  /** Appending an order leaves the answer for an id already present unchanged. */
  lemma {:induction false} FindUnaffectedByAppend(orders: seq<Order>, o: Order, id: string)
    requires HasId(orders, id)
    ensures FindById(orders + [o], id) == FindById(orders, id)
  {
    assert (orders + [o])[0] == orders[0];
    if orders[0].id != id {
      var i :| 0 <= i < |orders| && orders[i].id == id;
      assert orders[1..][i - 1].id == id;
      assert (orders + [o])[1..] == orders[1..] + [o];
      FindUnaffectedByAppend(orders[1..], o, id);
    }
  }

  predicate UniqueIds(orders: seq<Order>)
  {
    forall i, j :: 0 <= i < j < |orders| ==> orders[i].id != orders[j].id
  }

  /** With unique ids, every stored order is what a lookup of its id returns. */
  lemma FindStoredOrder(orders: seq<Order>, k: int)
    requires UniqueIds(orders)
    requires 0 <= k < |orders|
    ensures FindById(orders, orders[k].id) == Some(orders[k])
  {
    var r := FindById(orders, orders[k].id);
    var i :| IsFirstWithId(orders, orders[k].id, i) && orders[i] == r.value;
    assert !(i < k) && !(k < i);
  }

  // ---------------------------------------------------------------------------
  // Filter by type and date

  /** The type/date filter's test: same type, and the date with its hyphens
      stripped equals the queried digit string. */
  predicate Matches(o: Order, kind: string, date: string)
    ensures Matches(o, kind, date) ==> o.kind == kind && '-' !in date && |date| <= |o.date|
  {
    o.kind == kind && Undasherise(o.date) == date
  }

  /** `orders.filter(order => order.type === type && undasheriseDate(order.date) === date)`. */
  function FilterByTypeDate(orders: seq<Order>, kind: string, date: string): (r: seq<Order>)
    ensures |r| <= |orders|
    ensures forall i :: 0 <= i < |r| ==> Matches(r[i], kind, date)
  {
    if orders == [] then []
    else
      (if Matches(orders[0], kind, date) then [orders[0]] else []) + FilterByTypeDate(orders[1..], kind, date)
  }

  /** Each matching order is kept as often as it is stored, every other order
      is dropped. */
  lemma {:induction false} FilterCounts(orders: seq<Order>, kind: string, date: string)
    ensures forall o :: multiset(FilterByTypeDate(orders, kind, date))[o]
                     == if Matches(o, kind, date) then multiset(orders)[o] else 0
  {
    if orders != [] {
      FilterCounts(orders[1..], kind, date);
      assert orders == [orders[0]] + orders[1..];
    }
  }

  /** Filtering works piecewise, so the matches keep their store order. */
  lemma {:induction false} FilterAppend(a: seq<Order>, b: seq<Order>, kind: string, date: string)
    ensures FilterByTypeDate(a + b, kind, date) == FilterByTypeDate(a, kind, date) + FilterByTypeDate(b, kind, date)
  {
    if a == [] {
      assert a + b == b;
    } else {
      var head := if Matches(a[0], kind, date) then [a[0]] else [];
      calc {
        FilterByTypeDate(a + b, kind, date);
        { assert (a + b)[0] == a[0]; assert (a + b)[1..] == a[1..] + b; }
        head + FilterByTypeDate(a[1..] + b, kind, date);
        { FilterAppend(a[1..], b, kind, date); }
        head + (FilterByTypeDate(a[1..], kind, date) + FilterByTypeDate(b, kind, date));
        FilterByTypeDate(a, kind, date) + FilterByTypeDate(b, kind, date);
      }
    }
  }

  /** A list whose every element matches is returned whole. */
  lemma {:induction false} FilterKeepsMatching(orders: seq<Order>, kind: string, date: string)
    requires forall i :: 0 <= i < |orders| ==> Matches(orders[i], kind, date)
    ensures FilterByTypeDate(orders, kind, date) == orders
  {
    if orders != [] {
      FilterKeepsMatching(orders[1..], kind, date);
    }
  }

  /** A list none of whose elements match gives no matches. */
  lemma {:induction false} FilterDropsNonMatching(orders: seq<Order>, kind: string, date: string)
    requires forall i :: 0 <= i < |orders| ==> !Matches(orders[i], kind, date)
    ensures FilterByTypeDate(orders, kind, date) == []
  {
    if orders != [] {
      FilterDropsNonMatching(orders[1..], kind, date);
    }
  }

  // ---------------------------------------------------------------------------
  // Projections

  function Ids(orders: seq<Order>): seq<string>
  {
    seq(|orders|, i requires 0 <= i < |orders| => orders[i].id)
  }

  function Customers(orders: seq<Order>): seq<string>
  {
    seq(|orders|, i requires 0 <= i < |orders| => orders[i].customer)
  }

  lemma CustomersAppend(a: seq<Order>, o: Order)
    ensures Customers(a + [o]) == Customers(a) + [o.customer]
  {
  }

  lemma IdsAppend(a: seq<Order>, o: Order)
    ensures Ids(a + [o]) == Ids(a) + [o.id]
  {
  }

  // ---------------------------------------------------------------------------
  // Set spreading

  predicate NoDuplicates<T(==)>(s: seq<T>)
  {
    forall i, j :: 0 <= i < j < |s| ==> s[i] != s[j]
  }

  /** `[...new Set(xs)]`: a JavaScript `Set` keeps its elements in insertion
      order and ignores an element it already holds, so spreading it back gives
      each element of `xs` once, where it first appears. */
  function SetSpread(xs: seq<string>): (r: seq<string>)
    ensures NoDuplicates(r)
    ensures forall x :: x in r <==> x in xs
    ensures |r| <= |xs|
  {
    if xs == [] then []
    else
      var p, x := SetSpread(xs[..|xs| - 1]), xs[|xs| - 1];
      assert xs == xs[..|xs| - 1] + [x];
      if x in p then p else p + [x]
  }

  /** Spreading a list that has no duplicates gives it back. */
  lemma {:induction false} SetSpreadOfDistinct(xs: seq<string>)
    requires NoDuplicates(xs)
    ensures SetSpread(xs) == xs
  {
    if xs != [] {
      var n := |xs| - 1;
      SetSpreadOfDistinct(xs[..n]);
      assert forall i :: 0 <= i < n ==> xs[..n][i] != xs[n];
      assert xs == xs[..n] + [xs[n]];
    }
  }

  /** The reduce step `[...new Set([...acc, x])]` on a spread accumulator is
      one more step of spreading. */
  lemma SetSpreadStep(xs: seq<string>, x: string)
    ensures SetSpread(SetSpread(xs) + [x]) == SetSpread(xs + [x])
  {
    var p := SetSpread(xs);
    SetSpreadOfDistinct(p);
    assert (p + [x])[..|p|] == p;
    assert (xs + [x])[..|xs|] == xs;
  }

  /** On a spread accumulator the reduce step appends `x` exactly when it is new. */
  lemma SetSpreadAddsIfAbsent(acc: seq<string>, x: string)
    requires NoDuplicates(acc)
    ensures SetSpread(acc + [x]) == if x in acc then acc else acc + [x]
  {
    SetSpreadOfDistinct(acc);
    assert (acc + [x])[..|acc|] == acc;
  }

  /** The index of the first occurrence of `x` in `xs`. */
  function FirstIndex<T(==)>(xs: seq<T>, x: T): (k: nat)
    requires x in xs
    ensures k < |xs| && xs[k] == x
    ensures forall j :: 0 <= j < k ==> xs[j] != x
  {
    if xs[0] == x then 0 else 1 + FirstIndex(xs[1..], x)
  }

  /** Appending to a list does not move the first occurrence of anything already in it. */
  lemma FirstIndexAppend<T>(xs: seq<T>, y: T, x: T)
    requires x in xs
    ensures FirstIndex(xs + [y], x) == FirstIndex(xs, x)
  {
    var k, m := FirstIndex(xs + [y], x), FirstIndex(xs, x);
    assert (xs + [y])[m] == x;
    assert !(k < m) && !(m < k);
  }

  /** The spread lists its elements in the order they first appear in `xs`. */
  lemma {:induction false} SetSpreadFirstAppearanceOrder(xs: seq<string>, i: int, j: int)
    requires 0 <= i < j < |SetSpread(xs)|
    ensures FirstIndex(xs, SetSpread(xs)[i]) < FirstIndex(xs, SetSpread(xs)[j])
  {
    var n := |xs| - 1;
    var pre, x := xs[..n], xs[n];
    assert xs == pre + [x];
    var p := SetSpread(pre);
    var r := SetSpread(xs);
    assert r[i] in p by {
      if x in p { } else { assert r == p + [x]; assert i < |p|; }
    }
    FirstIndexAppend(pre, x, r[i]);
    if x in p || j < |p| {
      assert r[j] == p[j];
      FirstIndexAppend(pre, x, r[j]);
      SetSpreadFirstAppearanceOrder(pre, i, j);
    } else {
      assert r[j] == x && x !in pre;
      assert FirstIndex(xs, x) == n;
    }
  }
}
