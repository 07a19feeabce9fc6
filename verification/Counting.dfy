/** Small facts about the sizes of finite sets of slot numbers. */
module Counting {

  ghost function Indices(n: nat): (s: set<int>)
    ensures |s| == n && forall i :: i in s <==> 0 <= i < n
  {
    if n == 0 then {} else Indices(n - 1) + {n - 1}
  }

  lemma SubsetSize(a: set<int>, b: set<int>)
    requires a <= b
    ensures |a| <= |b|
  {
    assert a + (b - a) == b;
  }

  ghost predicate NoDup(c: seq<int>) {
    forall i, j :: 0 <= i < j < |c| ==> c[i] != c[j]
  }

  ghost function Elements(c: seq<int>): (s: set<int>)
    ensures forall x :: x in s <==> x in c
  {
    if c == [] then {} else Elements(c[1..]) + {c[0]}
  }

  lemma {:induction false} DistinctSize(c: seq<int>)
    requires NoDup(c)
    ensures |Elements(c)| == |c|
  {
    if c != [] {
      DistinctSize(c[1..]);
      assert c[0] !in c[1..];
    }
  }

  /** Distinct numbers below `n` are at most `n` many. */
  lemma AtMost(c: seq<int>, n: nat)
    requires NoDup(c) && forall k :: 0 <= k < |c| ==> 0 <= c[k] < n
    ensures |c| <= n
  {
    DistinctSize(c);
    SubsetSize(Elements(c), Indices(n));
  }
}
