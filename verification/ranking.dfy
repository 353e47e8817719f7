/** Ranking (id, value) pairs by value, as the top-N queries do with Python's
    stable `sorted`/`list.sort`, and Python's prefix slice `s[:n]`. */
module Ranking {

  datatype Order = Ascending | Descending

  predicate InOrder(x: real, y: real, order: Order)
  {
    if order == Ascending then x <= y else y <= x
  }

  /** Every pair comes no later, in `order`, than every pair after it. */
  ghost predicate Sorted<K>(s: seq<(K, real)>, order: Order)
  {
    forall i, j :: 0 <= i < j < |s| ==> InOrder(s[i].1, s[j].1, order)
  }

  /** Inserts `x` in front of the first pair it may precede; pairs with an
      equal value stay behind it, which keeps the sort stable. */
  function Insert<K(==)>(x: (K, real), s: seq<(K, real)>, order: Order): (r: seq<(K, real)>)
    ensures multiset(r) == multiset(s) + multiset{x}
  {
    if s == [] || InOrder(x.1, s[0].1, order) then
      [x] + s
    else
      assert s == [s[0]] + s[1..];
      [s[0]] + Insert(x, s[1..], order)
  }

  /** Insert adds `x` and nothing else. */
  lemma InsertMembers<K>(x: (K, real), s: seq<(K, real)>, order: Order)
    ensures forall e :: e in Insert(x, s, order) ==> e == x || e in s
  {
    forall e | e in Insert(x, s, order)
      ensures e == x || e in s
    {
      assert e in multiset(Insert(x, s, order));
    }
  }

  /** A pair no later than the head of an ordered sequence can go in front. */
  lemma ConsSorted<K>(x: (K, real), s: seq<(K, real)>, order: Order)
    requires Sorted(s, order) && (s == [] || InOrder(x.1, s[0].1, order))
    ensures Sorted([x] + s, order)
  {
    var r := [x] + s;
    forall i, j | 0 <= i < j < |r|
      ensures InOrder(r[i].1, r[j].1, order)
    {
      if i == 0 && j > 1 {
        assert r[j] == s[j - 1];
      }
    }
  }

  /** Inserting into an ordered sequence keeps it ordered. */
  lemma {:induction false} InsertSorted<K>(x: (K, real), s: seq<(K, real)>, order: Order)
    requires Sorted(s, order)
    ensures Sorted(Insert(x, s, order), order)
  {
    var r := Insert(x, s, order);
    if s == [] || InOrder(x.1, s[0].1, order) {
      ConsSorted(x, s, order);
    } else {
      var tail := s[1..];
      var rest := Insert(x, tail, order);
      assert r == [s[0]] + rest;
      InsertSorted(x, tail, order);
      InsertMembers(x, tail, order);
      forall e | e in rest
        ensures InOrder(s[0].1, e.1, order)
      {
        if e != x {
          var k :| 0 <= k < |tail| && tail[k] == e;
          assert s[k + 1] == e;
        }
      }
      forall i, j | 0 <= i < j < |r|
        ensures InOrder(r[i].1, r[j].1, order)
      {
        if i == 0 {
          assert r[j] == rest[j - 1];
          assert r[j] in rest;
        } else {
          assert r[i] == rest[i - 1] && r[j] == rest[j - 1];
        }
      }
    }
  }

  /** Insertion sort: the result is ordered and a permutation of the input. */
  function SortBy<K(==)>(s: seq<(K, real)>, order: Order): (r: seq<(K, real)>)
    ensures Sorted(r, order)
    ensures multiset(r) == multiset(s)
    ensures |r| == |s|
  {
    if s == [] then []
    else
      assert s == [s[0]] + s[1..];
      var sortedRest := SortBy(s[1..], order);
      InsertSorted(s[0], sortedRest, order);
      var r := Insert(s[0], sortedRest, order);
      assert |r| == |multiset(r)|;
      r
  }

  /** Python's `s[:n]`, negative `n` counting from the end. */
  function Prefix<T>(s: seq<T>, n: int): (r: seq<T>)
    ensures r <= s
    ensures 0 <= n <= |s| ==> |r| == n
    ensures n >= |s| ==> r == s
    ensures n < 0 ==> |r| == if |s| + n > 0 then |s| + n else 0
  {
    if n >= 0 then (if n <= |s| then s[..n] else s)
    else if |s| + n > 0 then s[..|s| + n]
    else []
  }

  /** A non-negative slice of a sequence with an element in front is that
      element followed by the slice of the rest, one shorter. */
  lemma PrefixCons<T>(x: T, s: seq<T>, n: int)
    requires n >= 0
    ensures Prefix([x] + s, n + 1) == [x] + Prefix(s, n)
  {
    if n <= |s| {
      assert ([x] + s)[..n + 1] == [x] + s[..n];
    }
  }

  /** In an ordered sequence every pair kept by a prefix comes no later than
      every pair dropped. */
  lemma KeptBeforeDropped<K>(s: seq<(K, real)>, k: int, order: Order)
    requires Sorted(s, order) && 0 <= k <= |s|
    ensures forall a, b :: a in s[..k] && b in s[k..] ==> InOrder(a.1, b.1, order)
  {
    forall a, b | a in s[..k] && b in s[k..]
      ensures InOrder(a.1, b.1, order)
    {
      var i :| 0 <= i < k && s[i] == a;
      var j :| 0 <= j < |s| - k && s[k..][j] == b;
      assert s[k + j] == b;
    }
  }
}
