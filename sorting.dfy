/**
 * The stable sort the store applies with a comparator (`Array.prototype.sort`),
 * written as insertion sort over a total preorder `le` (`le(a, b)` when the
 * comparator puts `a` no later than `b`).
 */
module Sorting {

  ghost predicate IsTotalPreorder<T(!new)>(le: (T, T) -> bool) {
    && (forall a, b :: le(a, b) || le(b, a))
    && (forall a, b, c :: le(a, b) && le(b, c) ==> le(a, c))
  }

  predicate SortedBy<T>(le: (T, T) -> bool, s: seq<T>) {
    forall i, j :: 0 <= i < j < |s| ==> le(s[i], s[j])
  }

  lemma SortedCons<T>(le: (T, T) -> bool, a: T, s: seq<T>)
    requires SortedBy(le, s)
    requires forall j :: 0 <= j < |s| ==> le(a, s[j])
    ensures SortedBy(le, [a] + s)
  {
    var r := [a] + s;
    forall i, j | 0 <= i < j < |r|
      ensures le(r[i], r[j])
    {
      assert r[j] == s[j - 1];
      if i > 0 {
        assert r[i] == s[i - 1];
      }
    }
  }

  lemma SortedTail<T>(le: (T, T) -> bool, s: seq<T>)
    requires SortedBy(le, s) && s != []
    ensures SortedBy(le, s[1..])
    ensures forall j :: 0 <= j < |s| - 1 ==> le(s[0], s[1..][j])
  {
    var tail := s[1..];
    forall i, j | 0 <= i < j < |tail|
      ensures le(tail[i], tail[j])
    {
      assert tail[i] == s[i + 1] && tail[j] == s[j + 1];
    }
  }

  /** A lower bound of `x` and of every element of `s` bounds every element of a permutation of `[x] + s`. */
  lemma BoundPermutation<T>(le: (T, T) -> bool, a: T, x: T, s: seq<T>, r: seq<T>)
    requires le(a, x) && forall k :: 0 <= k < |s| ==> le(a, s[k])
    requires multiset(r) == multiset(s) + multiset{x}
    ensures forall j :: 0 <= j < |r| ==> le(a, r[j])
  {
    forall j | 0 <= j < |r|
      ensures le(a, r[j])
    {
      assert r[j] in multiset(r);
      if r[j] != x {
        assert r[j] in multiset(s);
        var k :| 0 <= k < |s| && s[k] == r[j];
      }
    }
  }

  /** The first element of `a` occurs in its permutation `b`; taking it out of both leaves permutations. */
  lemma PermutationRemove<T>(a: seq<T>, b: seq<T>) returns (k: nat)
    requires multiset(a) == multiset(b) && a != []
    ensures k < |b| && b[k] == a[0]
    ensures multiset(a[1..]) == multiset(b[..k] + b[k + 1..])
  {
    assert a == [a[0]] + a[1..];
    assert a[0] in multiset(b) by {
      assert a[0] in multiset(a);
    }
    k :| 0 <= k < |b| && b[k] == a[0];
    assert b == b[..k] + [b[k]] + b[k + 1..];
    assert multiset(a[1..]) == multiset(a) - multiset{a[0]};
    assert multiset(b[..k] + b[k + 1..]) == multiset(b) - multiset{a[0]};
  }

  /** Inserts `x` before the first element it may precede. */
  function Insert<T(!new)>(le: (T, T) -> bool, x: T, s: seq<T>): (r: seq<T>)
    requires IsTotalPreorder(le) && SortedBy(le, s)
    ensures |r| == |s| + 1
    ensures multiset(r) == multiset(s) + multiset{x}
    ensures SortedBy(le, r)
  {
    if s == [] then [x]
    else if le(x, s[0]) then [x] + s
    else
      var tail := s[1..];
      SortedTail(le, s);
      var rest := Insert(le, x, tail);
      assert s == [s[0]] + tail;
      BoundPermutation(le, s[0], x, tail, rest);
      SortedCons(le, s[0], rest);
      [s[0]] + rest
  }

  /** A sorted permutation of `s`. */
  function SortBy<T(!new)>(le: (T, T) -> bool, s: seq<T>): (r: seq<T>)
    requires IsTotalPreorder(le)
    ensures |r| == |s|
    ensures multiset(r) == multiset(s)
    ensures SortedBy(le, r)
  {
    if s == [] then []
    else
      assert s == [s[0]] + s[1..];
      Insert(le, s[0], SortBy(le, s[1..]))
  }
}
