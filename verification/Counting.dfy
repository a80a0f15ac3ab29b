/** Different numbers below a bound: there are not many of them. */
module Counting {
  /** `n` different numbers below `n` are all of them. */
  lemma AllSeen(xs: seq<nat>, n: nat, b: nat)
    requires |xs| == n && b < n
    requires forall i :: 0 <= i < n ==> xs[i] < n
    requires forall i, j :: 0 <= i < j < n ==> xs[i] != xs[j]
    ensures exists i :: 0 <= i < n && xs[i] == b
  {
    ElementsCount(xs);
    if forall i :: 0 <= i < n ==> xs[i] != b {
      Smaller(Elements(xs), Interval(0, n) - {b});
    }
  }

  function Elements(xs: seq<nat>): set<nat> { set b | b in xs }

  /** `n` numbers from `lo` on. */
  function Interval(lo: nat, n: nat): (s: set<nat>)
    ensures |s| == n && forall b: nat :: b in s <==> lo <= b < lo + n
  {
    if n == 0 then {} else Interval(lo, n - 1) + {lo + n - 1}
  }

  lemma {:induction false} ElementsCount(xs: seq<nat>)
    requires forall i, j :: 0 <= i < j < |xs| ==> xs[i] != xs[j]
    ensures |Elements(xs)| == |xs|
  {
    if xs != [] {
      var init := xs[..|xs| - 1];
      ElementsCount(init);
      assert Elements(xs) == Elements(init) + {xs[|xs| - 1]};
    } else {
      assert Elements(xs) == {};
    }
  }

  lemma {:induction false} Smaller(a: set<nat>, b: set<nat>)
    requires a <= b
    ensures |a| <= |b|
  {
    if a != {} {
      var x :| x in a;
      Smaller(a - {x}, b - {x});
    }
  }
}
