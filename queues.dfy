/** Double-ended queues as sequences: the search-and-remove loop the voice
    arrays share, and permutations of voice indices. */
module Queues {
  /** No element occurs twice. */
  predicate Distinct<T(==)>(s: seq<T>)
  {
    forall j, k :: 0 <= j < k < |s| ==> s[j] != s[k]
  }

  /** The first index holding `x`, or `|s|` when there is none. */
  function IndexOf<T(==)>(s: seq<T>, x: T): (i: nat)
    ensures i <= |s|
    ensures i < |s| ==> s[i] == x
    ensures forall k :: 0 <= k < i ==> s[k] != x
    ensures i == |s| <==> x !in s
  {
    if s == [] then 0
    else if s[0] == x then 0
    else 1 + IndexOf(s[1..], x)
  }

  /** `s` without its first `x` (the queue's `remove(i)` at the first
      matching index); `s` itself when `x` does not occur. */
  function Remove<T(==)>(s: seq<T>, x: T): (r: seq<T>)
  {
    var i := IndexOf(s, x);
    if i < |s| then s[..i] + s[i + 1..] else s
  }

  /** Removing `x` from a queue without repeats drops exactly `x` and keeps
      the queue free of repeats. */
  lemma RemoveMembers<T>(s: seq<T>, x: T)
    requires Distinct(s)
    ensures var r := Remove(s, x);
      && Distinct(r) && x !in r
      && (forall y :: y in r <==> y in s && y != x)
      && |r| == (if x in s then |s| - 1 else |s|)
  {
    var i := IndexOf(s, x);
    if i < |s| {
      var r := s[..i] + s[i + 1..];
      assert forall k :: 0 <= k < |r| ==> r[k] == (if k < i then s[k] else s[k + 1]);
      forall y | y in s && y != x
        ensures y in r
      {
        var k :| 0 <= k < |s| && s[k] == y;
        assert k != i;
        if k < i { assert r[k] == y; } else { assert r[k - 1] == y; }
      }
    }
  }

  /** Adding an element that is not yet there, at either end, keeps a queue
      free of repeats. */
  lemma AddDistinct<T>(s: seq<T>, x: T)
    requires Distinct(s) && x !in s
    ensures Distinct(s + [x]) && Distinct([x] + s)
  {
    assert forall k :: 0 <= k < |s| ==> (s + [x])[k] == s[k] && ([x] + s)[k + 1] == s[k];
  }

  /** Rotating the front element to the back keeps the elements and keeps a
      queue free of repeats. */
  lemma RotateMembers<T>(s: seq<T>)
    requires Distinct(s) && |s| >= 1
    ensures Distinct(s[1..] + [s[0]])
    ensures forall y :: y in s[1..] + [s[0]] <==> y in s
  {
    var r := s[1..] + [s[0]];
    assert forall k :: 0 <= k < |s| - 1 ==> r[k] == s[k + 1];
    forall y | y in s
      ensures y in r
    {
      var k :| 0 <= k < |s| && s[k] == y;
      if k == 0 { assert r[|s| - 1] == y; } else { assert r[k - 1] == y; }
    }
  }

  /** `s` holds each of `0 .. n-1` exactly once. */
  predicate IsPermutation(s: seq<nat>, n: nat)
  {
    && |s| == n && Distinct(s)
    && (forall v :: v in s ==> v < n)
    && (forall v :: 0 <= v < n ==> v in s)
  }

  /** `0, 1, .., n-1`, the order in which the voice queues are filled. */
  function Range(n: nat): (r: seq<nat>)
    ensures |r| == n && forall i :: 0 <= i < n ==> r[i] == i
    ensures IsPermutation(r, n)
  {
    var r := seq(n, i requires 0 <= i < n => i);
    forall v | 0 <= v < n
      ensures v in r
    {
      assert r[v] == v;
    }
    r
  }

  /** Moving one element of a permutation to either end, after removing it,
      gives a permutation again. */
  lemma MoveKeepsPermutation(s: seq<nat>, n: nat, x: nat)
    requires IsPermutation(s, n) && x in s
    ensures IsPermutation(Remove(s, x) + [x], n)
    ensures IsPermutation([x] + Remove(s, x), n)
  {
    RemoveMembers(s, x);
    AddDistinct(Remove(s, x), x);
  }

  /** Rotating the front element to the back keeps a permutation. */
  lemma RotateKeepsPermutation(s: seq<nat>, n: nat)
    requires IsPermutation(s, n) && |s| >= 1
    ensures IsPermutation(s[1..] + [s[0]], n)
  {
    RotateMembers(s);
  }
}
