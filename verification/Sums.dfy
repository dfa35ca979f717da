/** Sums over a sequence of weights, one weight per warp. */
module Sums {

  ghost function Sum(a: seq<nat>): nat {
    if a == [] then 0 else Sum(a[..|a| - 1]) + a[|a| - 1]
  }

  /** Changing one weight changes the sum by the difference. */
  lemma {:induction false} SumChange(a: seq<nat>, b: seq<nat>, w: nat)
    requires |a| == |b| && w < |a|
    requires forall i | 0 <= i < |a| && i != w :: a[i] == b[i]
    ensures Sum(a) + b[w] == Sum(b) + a[w]
  {
    var n := |a| - 1;
    if w == n {
      assert a[..n] == b[..n];
    } else {
      SumChange(a[..n], b[..n], w);
    }
  }

  lemma {:induction false} SumAtLeast(a: seq<nat>, w: nat)
    requires w < |a|
    ensures a[w] <= Sum(a)
  {
    var n := |a| - 1;
    if w < n {
      SumAtLeast(a[..n], w);
    }
  }

  lemma {:induction false} SumAtMost(a: seq<nat>, most: nat)
    requires forall i | 0 <= i < |a| :: a[i] <= most
    ensures Sum(a) <= |a| * most
  {
    if a != [] {
      SumAtMost(a[..|a| - 1], most);
    }
  }

  lemma {:induction false} SumZero(a: seq<nat>)
    requires forall i | 0 <= i < |a| :: a[i] == 0
    ensures Sum(a) == 0
  {
    SumAtMost(a, 0);
  }

  /** A positive sum has a positive weight. */
  lemma {:induction false} SumWitness(a: seq<nat>) returns (w: nat)
    requires Sum(a) > 0
    ensures w < |a| && a[w] > 0
  {
    var n := |a| - 1;
    if a[n] > 0 {
      w := n;
    } else {
      w := SumWitness(a[..n]);
    }
  }
}
