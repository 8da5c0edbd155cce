/** Sequences without repetitions, and the sets they list. */
module Sequences {

  ghost predicate Distinct<T(!new)>(s: seq<T>) { forall i, j :: 0 <= i < j < |s| ==> s[i] != s[j] }

  function Head(s: seq<int>, z: int): int { if s == [] then z else s[0] }
  function Last(s: seq<int>, z: int): int { if s == [] then z else s[|s| - 1] }

  /** A sequence without repetitions is as long as the set of its elements is large. */
  lemma {:induction false} SeqCount<T(!new)>(c: seq<T>, s: set<T>)
    requires Distinct(c) && forall x :: x in s <==> x in c
    ensures |s| == |c|
  {
    if c == [] {
      assert forall x :: x in s ==> x in c;
      assert s == {};
    } else {
      var k := |c| - 1;
      assert forall x :: x in c[..k] <==> x in s - {c[k]};
      SeqCount(c[..k], s - {c[k]});
    }
  }

  /** An element of such a sequence, and what is before and after it. */
  lemma CutAt<T(!new)>(list: seq<T>, c: T) returns (s: seq<T>, u: seq<T>)
    requires Distinct(list) && c in list
    ensures list == s + [c] + u && c !in s && c !in u && Distinct(s + u)
    ensures forall p :: p in list <==> p in s || p == c || p in u
  {
    var i :| 0 <= i < |list| && list[i] == c;
    s, u := list[..i], list[i + 1..];
    assert list == s + [c] + u;
    assert forall k :: 0 <= k < |s + u| ==> (s + u)[k] == list[if k < i then k else k + 1];
  }

  /** Distinct numbers below `n` are `n` in number just when they are all of them. */
  lemma DistinctLength(c: seq<int>, n: nat)
    requires Distinct(c) && forall i :: i in c ==> 0 <= i < n
    ensures |c| <= n
    ensures |c| == n ==> forall i :: 0 <= i < n ==> i in c
  {
    var cs := set i | i in c;
    SeqCount(c, cs);
    RangeCount(n);
    SubsetCount(cs, Range(n));
  }

  lemma DistinctAll(c: seq<int>, n: nat)
    requires Distinct(c) && (forall i :: i in c ==> 0 <= i < n) && forall i :: 0 <= i < n ==> i in c
    ensures |c| == n
  {
    SeqCount(c, Range(n));
    RangeCount(n);
  }

  function Range(n: nat): (s: set<int>)
    ensures forall i :: i in s <==> 0 <= i < n
  {
    if n == 0 then {} else Range(n - 1) + {n - 1}
  }

  lemma {:induction false} RangeCount(n: nat)
    ensures |Range(n)| == n
  {
    if n > 0 { RangeCount(n - 1); }
  }

  lemma SubsetCount(a: set<int>, b: set<int>)
    requires a <= b
    ensures |a| <= |b| && (|a| == |b| ==> a == b)
  {
    assert |b - a| == |b| - |a|;
    if |a| == |b| { assert b - a == {}; }
  }
}
