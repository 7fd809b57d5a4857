/** lodash's `sortBy` with a single integer-valued key: a stable sort into
    ascending key order. */
module Sorting {

  predicate SortedBy<T>(s: seq<T>, key: T -> int)
  {
    forall i, j :: 0 <= i < j < |s| ==> key(s[i]) <= key(s[j])
  }

  /** The elements of `s` whose key is `k`, in their order in `s`. */
  function WithKey<T>(s: seq<T>, key: T -> int, k: int): seq<T>
  {
    if s == [] then []
    else (if key(s[0]) == k then [s[0]] else []) + WithKey(s[1..], key, k)
  }

  lemma {:induction false} WithKeyAppend<T>(a: seq<T>, b: seq<T>, key: T -> int, k: int)
    ensures WithKey(a + b, key, k) == WithKey(a, key, k) + WithKey(b, key, k)
  {
    if a == [] {
      assert a + b == b;
    } else {
      var head := if key(a[0]) == k then [a[0]] else [];
      calc {
        WithKey(a + b, key, k);
        { assert (a + b)[0] == a[0]; assert (a + b)[1..] == a[1..] + b; }
        head + WithKey(a[1..] + b, key, k);
        { WithKeyAppend(a[1..], b, key, k); }
        head + (WithKey(a[1..], key, k) + WithKey(b, key, k));
        WithKey(a, key, k) + WithKey(b, key, k);
      }
    }
  }

  /** Puts `x` in front of the first element of `s` whose key is not smaller
      than its own, so it stays ahead of the elements with an equal key. */
  function Insert<T(==)>(x: T, s: seq<T>, key: T -> int): (r: seq<T>)
    ensures multiset(r) == multiset(s) + multiset{x}
  {
    if s == [] || key(x) <= key(s[0]) then
      [x] + s
    else
      assert s == [s[0]] + s[1..];
      [s[0]] + Insert(x, s[1..], key)
  }

  /** Inserting above a lower bound of `s` keeps everything above it. */
  lemma {:induction false} InsertAbove<T>(x: T, s: seq<T>, key: T -> int, b: int)
    requires b <= key(x)
    requires forall i :: 0 <= i < |s| ==> b <= key(s[i])
    ensures forall i :: 0 <= i < |Insert(x, s, key)| ==> b <= key(Insert(x, s, key)[i])
  {
    if s != [] && key(x) > key(s[0]) {
      InsertAbove(x, s[1..], key, b);
    }
  }

  /** Inserting into a key-sorted list keeps it sorted. */
  lemma {:induction false} InsertSorted<T>(x: T, s: seq<T>, key: T -> int)
    requires SortedBy(s, key)
    ensures SortedBy(Insert(x, s, key), key)
  {
    if s != [] && key(x) > key(s[0]) {
      InsertSorted(x, s[1..], key);
      InsertAbove(x, s[1..], key, key(s[0]));
    }
  }

  /** Inserting `x` puts it ahead of every element with its key. */
  lemma {:induction false} InsertWithKey<T>(x: T, s: seq<T>, key: T -> int, k: int)
    ensures WithKey(Insert(x, s, key), key, k) == WithKey([x], key, k) + WithKey(s, key, k)
  {
    if s == [] || key(x) <= key(s[0]) {
      WithKeyAppend([x], s, key, k);
    } else {
      var y, rest := s[0], s[1..];
      // y's key is below x's, so at most one of the two is kept for key k
      assert WithKey([y], key, k) == [] || WithKey([x], key, k) == [];
      calc {
        WithKey(Insert(x, s, key), key, k);
        WithKey([y] + Insert(x, rest, key), key, k);
        { WithKeyAppend([y], Insert(x, rest, key), key, k); }
        WithKey([y], key, k) + WithKey(Insert(x, rest, key), key, k);
        { InsertWithKey(x, rest, key, k); }
        WithKey([y], key, k) + (WithKey([x], key, k) + WithKey(rest, key, k));
        WithKey([x], key, k) + (WithKey([y], key, k) + WithKey(rest, key, k));
        { WithKeyAppend([y], rest, key, k); assert [y] + rest == s; }
        WithKey([x], key, k) + WithKey(s, key, k);
      }
    }
  }

  /** `_.sortBy(xs, key)`: ascending by key, stable. */
  function SortBy<T(==)>(xs: seq<T>, key: T -> int): (r: seq<T>)
    ensures multiset(r) == multiset(xs)
  {
    if xs == [] then []
    else
      assert xs == [xs[0]] + xs[1..];
      Insert(xs[0], SortBy(xs[1..], key), key)
  }

  /** The result of `sortBy` is in ascending key order. */
  lemma {:induction false} SortBySorted<T>(xs: seq<T>, key: T -> int)
    ensures SortedBy(SortBy(xs, key), key)
  {
    if xs != [] {
      SortBySorted(xs[1..], key);
      InsertSorted(xs[0], SortBy(xs[1..], key), key);
    }
  }

  /** Stability: for every key, the elements with that key come out in the
      order they went in. */
  lemma {:induction false} SortByStable<T>(xs: seq<T>, key: T -> int, k: int)
    ensures WithKey(SortBy(xs, key), key, k) == WithKey(xs, key, k)
  {
    if xs != [] {
      var x, rest := xs[0], xs[1..];
      calc {
        WithKey(SortBy(xs, key), key, k);
        WithKey(Insert(x, SortBy(rest, key), key), key, k);
        { InsertWithKey(x, SortBy(rest, key), key, k); }
        WithKey([x], key, k) + WithKey(SortBy(rest, key), key, k);
        { SortByStable(rest, key, k); }
        WithKey([x], key, k) + WithKey(rest, key, k);
        { WithKeyAppend([x], rest, key, k); assert [x] + rest == xs; }
        WithKey(xs, key, k);
      }
    }
  }

  lemma {:induction false} WithKeyAll<T>(s: seq<T>, key: T -> int, k: int)
    requires forall i :: 0 <= i < |s| ==> key(s[i]) == k
    ensures WithKey(s, key, k) == s
  {
    if s != [] {
      WithKeyAll(s[1..], key, k);
    }
  }

  /** When every element has the same key, sorting changes nothing. */
  lemma SortByEqualKeys<T>(xs: seq<T>, key: T -> int)
    requires forall i, j :: 0 <= i < |xs| && 0 <= j < |xs| ==> key(xs[i]) == key(xs[j])
    ensures SortBy(xs, key) == xs
  {
    if xs != [] {
      var k := key(xs[0]);
      var r := SortBy(xs, key);
      forall i | 0 <= i < |r| ensures key(r[i]) == k {
        assert r[i] in multiset(xs);
      }
      SortByStable(xs, key, k);
      WithKeyAll(xs, key, k);
      WithKeyAll(r, key, k);
    }
  }
}
