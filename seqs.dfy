/**
 * The two sequence operations the pandas chains reduce to: keeping the
 * elements a boolean mask selects, and sorting descending by one key.
 */
module Seqs {

  /** The elements of `s` that satisfy `p`, in their original order (a boolean mask). */
  function Filter<T(==)>(s: seq<T>, p: T -> bool): (r: seq<T>)
    ensures |r| <= |s|
    ensures forall x :: x in r ==> x in s && p(x)
    ensures forall x :: x in s && p(x) ==> x in r
  {
    if s == [] then []
    else
      var rest := Filter(s[..|s| - 1], p);
      assert forall x :: x in s[..|s| - 1] ==> x in s;
      assert forall x :: x in s ==> x in s[..|s| - 1] || x == s[|s| - 1];
      if p(s[|s| - 1]) then rest + [s[|s| - 1]] else rest
  }

  /** The positions of `s` whose elements satisfy `p`, ascending. */
  function Positions<T>(s: seq<T>, p: T -> bool): seq<nat> {
    if s == [] then []
    else
      var rest := Positions(s[..|s| - 1], p);
      if p(s[|s| - 1]) then rest + [|s| - 1] else rest
  }

  predicate Increasing(s: seq<nat>) {
    forall k, l :: 0 <= k < l < |s| ==> s[k] < s[l]
  }

  /** Every recorded position is in range, and they ascend. */
  lemma {:induction false} PositionsAscend<T>(s: seq<T>, p: T -> bool)
    ensures forall k :: 0 <= k < |Positions(s, p)| ==> Positions(s, p)[k] < |s|
    ensures Increasing(Positions(s, p))
  {
    if s != [] {
      PositionsAscend(s[..|s| - 1], p);
    }
  }

  /** A position is recorded exactly when its element satisfies `p`. */
  lemma {:induction false} PositionsExact<T>(s: seq<T>, p: T -> bool)
    ensures forall i :: 0 <= i < |s| ==> (p(s[i]) <==> i in Positions(s, p))
  {
    if s != [] {
      var n := |s| - 1;
      var init := s[..n];
      PositionsExact(init, p);
      PositionsAscend(init, p);
      var pos := Positions(init, p);
      assert n !in pos;
      forall i | 0 <= i < n
        ensures p(s[i]) <==> i in Positions(s, p)
      {
        assert s[i] == init[i];
      }
    }
  }

  /** The element Filter keeps at each index is the one at the matching recorded position. */
  lemma {:induction false} FilterPicksPositions<T>(s: seq<T>, p: T -> bool)
    ensures |Filter(s, p)| == |Positions(s, p)|
    ensures forall k :: 0 <= k < |Positions(s, p)| ==>
              Positions(s, p)[k] < |s| && Filter(s, p)[k] == s[Positions(s, p)[k]]
  {
    PositionsAscend(s, p);
    if s != [] {
      var n := |s| - 1;
      var init := s[..n];
      FilterPicksPositions(init, p);
      var kept, pos := Filter(init, p), Positions(init, p);
      forall k | 0 <= k < |pos|
        ensures kept[k] == s[pos[k]]
      {
        assert init[pos[k]] == s[pos[k]];
      }
    }
  }

  /**
   * Filter keeps exactly the satisfying positions, in ascending order, and
   * the element at each kept position unchanged.
   */
  lemma FilterSelectsInOrder<T>(s: seq<T>, p: T -> bool)
    ensures |Filter(s, p)| == |Positions(s, p)|
    ensures Increasing(Positions(s, p))
    ensures forall k :: 0 <= k < |Positions(s, p)| ==>
              Positions(s, p)[k] < |s| && Filter(s, p)[k] == s[Positions(s, p)[k]]
    ensures forall i :: 0 <= i < |s| ==> (p(s[i]) <==> i in Positions(s, p))
  {
    PositionsAscend(s, p);
    PositionsExact(s, p);
    FilterPicksPositions(s, p);
  }

  /** `f` applied to every element, in order. */
  function Map<A, B>(f: A -> B, s: seq<A>): (r: seq<B>)
    ensures |r| == |s| && forall i :: 0 <= i < |s| ==> r[i] == f(s[i])
  {
    seq(|s|, i requires 0 <= i < |s| => f(s[i]))
  }

  /** No two elements of `s` share a key. */
  predicate DistinctBy<T, K(==)>(s: seq<T>, key: T -> K) {
    forall i, j :: 0 <= i < j < |s| ==> key(s[i]) != key(s[j])
  }

  /** Filtering never creates two elements with the same key. */
  lemma {:induction false} FilterKeepsDistinctBy<T, K>(s: seq<T>, p: T -> bool, key: T -> K)
    requires DistinctBy(s, key)
    ensures DistinctBy(Filter(s, p), key)
  {
    FilterSelectsInOrder(s, p);
    var r, pos := Filter(s, p), Positions(s, p);
    forall k, l | 0 <= k < l < |r|
      ensures key(r[k]) != key(r[l])
    {
      assert pos[k] < pos[l];
    }
  }

  /** With distinct keys, an element occurs at most once. */
  lemma {:induction false} DistinctByCountsOnce<T, K>(s: seq<T>, key: T -> K, x: T)
    requires DistinctBy(s, key)
    ensures multiset(s)[x] <= 1
  {
    if s != [] {
      var n := |s| - 1;
      assert s == s[..n] + [s[n]];
      DistinctByCountsOnce(s[..n], key, x);
      if x == s[n] {
        assert x !in s[..n] by {
          forall i | 0 <= i < n ensures s[..n][i] != x {
            assert key(s[i]) != key(s[n]);
          }
        }
      }
    }
  }

  /** Reordering keeps keys distinct. */
  lemma PermutationKeepsDistinctBy<T, K>(a: seq<T>, b: seq<T>, key: T -> K)
    requires multiset(a) == multiset(b) && DistinctBy(a, key)
    ensures DistinctBy(b, key)
  {
    forall i, j | 0 <= i < j < |b|
      ensures key(b[i]) != key(b[j])
    {
      assert b[i] in multiset(a) && b[j] in multiset(a);
      if b[i] == b[j] {
        assert b == b[..j] + b[j..];
        assert b[i] in b[..j] && b[j] in b[j..];
        assert multiset(b)[b[i]] >= 2;
        DistinctByCountsOnce(a, key, b[i]);
      } else {
        var p :| 0 <= p < |a| && a[p] == b[i];
        var q :| 0 <= q < |a| && a[q] == b[j];
        assert p != q;
      }
    }
  }

  /** Masking the images is masking the originals, when the two masks agree. */
  lemma {:induction false} FilterMap<A, B>(s: seq<A>, f: A -> B, p: A -> bool, q: B -> bool)
    requires forall x :: q(f(x)) == p(x)
    ensures Filter(Map(f, s), q) == Map(f, Filter(s, p))
  {
    if s != [] {
      var n := |s| - 1;
      FilterMap(s[..n], f, p, q);
      assert Map(f, s)[..n] == Map(f, s[..n]);
    }
  }

  /** `s` is in non-increasing order of `key`. */
  predicate SortedDesc<T>(s: seq<T>, key: T -> real) {
    forall i, j :: 0 <= i < j < |s| ==> key(s[i]) >= key(s[j])
  }

  /** Filtering a sorted sequence leaves it sorted. */
  lemma {:induction false} FilterKeepsSortedDesc<T>(s: seq<T>, p: T -> bool, key: T -> real)
    requires SortedDesc(s, key)
    ensures SortedDesc(Filter(s, p), key)
  {
    FilterSelectsInOrder(s, p);
    var r, pos := Filter(s, p), Positions(s, p);
    forall k, l | 0 <= k < l < |r|
      ensures key(r[k]) >= key(r[l])
    {
      assert pos[k] < pos[l];
    }
  }

  /** Places `x` in front of the first element whose key does not exceed its own. */
  function Insert<T>(x: T, s: seq<T>, key: T -> real): (r: seq<T>)
    requires SortedDesc(s, key)
    ensures SortedDesc(r, key)
    ensures multiset(r) == multiset(s) + multiset{x}
    ensures |r| == |s| + 1 && (r[0] == x || (s != [] && r[0] == s[0]))
  {
    if s == [] || key(s[0]) <= key(x) then [x] + s
    else
      var rest := Insert(x, s[1..], key);
      assert s == [s[0]] + s[1..];
      assert key(s[0]) >= key(rest[0]);
      [s[0]] + rest
  }

  /** `s` reordered by `key`, largest first: `sort_values(ascending=False)`. */
  function SortDesc<T>(s: seq<T>, key: T -> real): (r: seq<T>)
    ensures SortedDesc(r, key)
    ensures multiset(r) == multiset(s)
  {
    if s == [] then []
    else
      assert s == [s[0]] + s[1..];
      Insert(s[0], SortDesc(s[1..], key), key)
  }
}
