// The pigeonhole principle for lists of numbers.
module Pigeonholes {
  lemma {:induction false} DistinctAtMost(s: seq<int>)
    ensures |set x | x in s| <= |s|
  {
    if s != [] {
      DistinctAtMost(s[1..]);
      assert (set x | x in s) == {s[0]} + (set x | x in s[1..]);
    }
  }

  lemma {:induction false} DistinctSize(s: seq<int>)
    requires forall i, j :: 0 <= i < j < |s| ==> s[i] != s[j]
    ensures |set x | x in s| == |s|
  {
    if s != [] {
      DistinctSize(s[1..]);
      assert s[0] !in s[1..];
      assert (set x | x in s) == {s[0]} + (set x | x in s[1..]);
    }
  }

  function Below(n: nat): (r: set<int>)
    ensures |r| == n && forall i :: i in r <==> 0 <= i < n
  {
    if n == 0 then {} else Below(n - 1) + {n - 1}
  }

  // n values that cover 0..n-1 are nothing else.
  lemma Pigeonhole(s: seq<int>)
    requires forall i :: 0 <= i < |s| ==> i in s
    ensures forall i :: 0 <= i < |s| ==> 0 <= s[i] < |s|
  {
    var all := set x | x in s;
    var range := Below(|s|);
    DistinctAtMost(s);
    assert all == range + (all - range);
    assert |all - range| == 0;
    assert all == range;
    assert forall i :: 0 <= i < |s| ==> s[i] in all;
  }

  // Different numbers below n are at most n.
  lemma AtMostBelow(s: seq<int>, n: nat)
    requires forall i :: 0 <= i < |s| ==> 0 <= s[i] < n
    requires forall i, j :: 0 <= i < j < |s| ==> s[i] != s[j]
    ensures |s| <= n
  {
    DistinctSize(s);
    var all := set x | x in s;
    assert Below(n) == all + (Below(n) - all);
  }
}
