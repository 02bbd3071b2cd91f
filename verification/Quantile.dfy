/** Gas-weighted percentiles of a tip distribution. */
module Quantile {
  import opened Arithmetic
  import opened Samples
  import opened Sequences

  function Gas(): TipSample -> int {
    (x: TipSample) => x.gas
  }

  function GasIfAtMost(t: nat): TipSample -> int {
    (x: TipSample) => if x.tip <= t then x.gas else 0
  }

  ghost function TotalGas(s: seq<TipSample>): int {
    Sum(s, Gas())
  }

  /** Gas of the samples whose tip is at most `t`; says nothing about their order. */
  ghost function GasAtOrBelow(s: seq<TipSample>, t: nat): int {
    Sum(s, GasIfAtMost(t))
  }

  ghost predicate HasTip(s: seq<TipSample>, t: nat) {
    exists x | x in s :: x.tip == t
  }

  /** `t` is the least sample tip whose at-or-below gas reaches `target`. */
  ghost predicate IsQuantile(s: seq<TipSample>, target: int, t: nat) {
    && HasTip(s, t)
    && GasAtOrBelow(s, t) >= target
    && forall x | x in s && x.tip < t :: GasAtOrBelow(s, x.tip) < target
  }

  ghost predicate IsLargestTip(s: seq<TipSample>, t: nat) {
    HasTip(s, t) && forall x | x in s :: x.tip <= t
  }

  ghost function GasTarget(s: seq<TipSample>, p: nat): int {
    TotalGas(s) * p / 100
  }

  /** What `gasWeightedPercentiles` owes its caller for percentile `p`. */
  ghost predicate IsPercentile(s: seq<TipSample>, p: nat, t: nat) {
    if TotalGas(s) == 0 then t == 0
    else if GasTarget(s, p) <= TotalGas(s) then IsQuantile(s, GasTarget(s, p), t)
    else IsLargestTip(s, t)
  }

  // ----- sums over tip-ordered lists -----

  lemma {:induction false} GasNonNegative(s: seq<TipSample>)
    ensures TotalGas(s) >= 0
  {
    if s == [] {
    } else {
      GasNonNegative(s[1..]);
    }
  }

  lemma {:induction false} NoneAtMost(s: seq<TipSample>, t: nat)
    requires forall i | 0 <= i < |s| :: s[i].tip > t
    ensures GasAtOrBelow(s, t) == 0
  {
    if s == [] {
    } else {
      NoneAtMost(s[1..], t);
    }
  }

  lemma {:induction false} SomeAtMost(s: seq<TipSample>, t: nat)
    ensures 0 <= GasAtOrBelow(s, t) <= TotalGas(s)
  {
    if s == [] {
    } else {
      SomeAtMost(s[1..], t);
    }
  }

  lemma {:induction false} AllAtMost(s: seq<TipSample>, t: nat)
    requires forall i | 0 <= i < |s| :: s[i].tip <= t
    ensures GasAtOrBelow(s, t) == TotalGas(s)
  {
    if s == [] {
    } else {
      AllAtMost(s[1..], t);
    }
  }

  /** The walk stopped at `i`: its prefix reaches the target and the prefix before it does not. */
  lemma WalkFindsQuantile(r: seq<TipSample>, i: nat, target: int)
    requires i < |r| && Ordered(r, TipAscending)
    requires TotalGas(r[..i + 1]) >= target
    requires i > 0 ==> TotalGas(r[..i]) < target
    ensures IsQuantile(r, target, r[i].tip)
  {
    var t := r[i].tip;
    Split(r, i + 1, t);
    AllAtMost(r[..i + 1], t);
    SomeAtMost(r[i + 1..], t);
    assert r[i] in r;
    forall x | x in r && x.tip < t
      ensures GasAtOrBelow(r, x.tip) < target
    {
      Split(r, i, x.tip);
      SomeAtMost(r[..i], x.tip);
      forall k | 0 <= k < |r[i..]|
        ensures r[i..][k].tip > x.tip
      {
        assert k == 0 || TipAscending(r[i], r[i + k]);
      }
      NoneAtMost(r[i..], x.tip);
    }
  }

  lemma Split(r: seq<TipSample>, i: nat, t: nat)
    requires i <= |r|
    ensures GasAtOrBelow(r, t) == GasAtOrBelow(r[..i], t) + GasAtOrBelow(r[i..], t)
  {
    assert r == r[..i] + r[i..];
    SumConcat(r[..i], r[i..], GasIfAtMost(t));
  }

  lemma LastIsLargest(r: seq<TipSample>)
    requires r != [] && Ordered(r, TipAscending)
    ensures IsLargestTip(r, r[|r| - 1].tip)
  {
    assert r[|r| - 1] in r;
    forall x | x in r
      ensures x.tip <= r[|r| - 1].tip
    {
      var j :| 0 <= j < |r| && r[j] == x;
      assert j == |r| - 1 || TipAscending(r[j], r[|r| - 1]);
    }
  }

  // ----- the order of the samples does not matter -----

  lemma SameElements(a: seq<TipSample>, b: seq<TipSample>)
    requires multiset(a) == multiset(b)
    ensures forall x :: x in a <==> x in b
  {
    forall x
      ensures x in a <==> x in b
    {
      assert x in multiset(a) <==> x in multiset(b);
    }
  }

  /** Any rearrangement of the samples has the same percentiles. */
  lemma PercentileOrderFree(a: seq<TipSample>, b: seq<TipSample>, p: nat, t: nat)
    requires multiset(a) == multiset(b)
    requires IsPercentile(a, p, t)
    ensures IsPercentile(b, p, t)
  {
    SameElements(a, b);
    SumPermutation(a, b, Gas());
    forall u: nat
      ensures GasAtOrBelow(a, u) == GasAtOrBelow(b, u)
    {
      SumPermutation(a, b, GasIfAtMost(u));
    }
  }

  /** And there is only one answer, whatever the sort did with ties. */
  lemma PercentileUnique(s: seq<TipSample>, p: nat, t: nat, u: nat)
    requires IsPercentile(s, p, t) && IsPercentile(s, p, u)
    ensures t == u
  {
    if TotalGas(s) != 0 {
      var x :| x in s && x.tip == t;
      var y :| y in s && y.tip == u;
    }
  }

  /** A higher percentile never reads a lower tip. */
  lemma PercentileMonotone(s: seq<TipSample>, p: nat, q: nat, t: nat, u: nat)
    requires p <= q
    requires IsPercentile(s, p, t) && IsPercentile(s, q, u)
    ensures t <= u
  {
    if TotalGas(s) != 0 {
      GasNonNegative(s);
      MulMonotone(p, q, TotalGas(s));
      DivMonotone(TotalGas(s) * p, TotalGas(s) * q, 100);
      var x :| x in s && x.tip == t;
      var y :| y in s && y.tip == u;
    }
  }

  // ----- the algorithm -----

  method SortAscending(samples: seq<TipSample>) returns (sorted: seq<TipSample>)
    ensures OrderedPermutation(samples, sorted, TipAscending)
  {
    sorted := Sort(samples, TipAscending);
  }

  method SumGas(s: seq<TipSample>) returns (total: int)
    ensures total == TotalGas(s)
  {
    total := 0;
    for i := 0 to |s|
      invariant total == TotalGas(s[..i])
    {
      SumSnoc(s, i, Gas());
      total := total + s[i].gas;
    }
    assert s[..|s|] == s;
  }

  method WalkTo(sorted: seq<TipSample>, target: int) returns (chosen: nat)
    requires sorted != [] && Ordered(sorted, TipAscending)
    ensures if target <= TotalGas(sorted) then IsQuantile(sorted, target, chosen)
            else IsLargestTip(sorted, chosen)
  {
    var cumulative := 0;
    for i := 0 to |sorted|
      invariant cumulative == TotalGas(sorted[..i])
      invariant i > 0 ==> cumulative < target
    {
      SumSnoc(sorted, i, Gas());
      cumulative := cumulative + sorted[i].gas;
      if cumulative >= target {
        if target > TotalGas(sorted) {
          assert sorted == sorted[..i + 1] + sorted[i + 1..];
          SumConcat(sorted[..i + 1], sorted[i + 1..], Gas());
          GasNonNegative(sorted[i + 1..]);
          assert false;
        }
        WalkFindsQuantile(sorted, i, target);
        return sorted[i].tip;
      }
    }
    assert sorted[..|sorted|] == sorted;
    LastIsLargest(sorted);
    chosen := sorted[|sorted| - 1].tip;
  }

  method GasWeightedPercentiles(samples: seq<TipSample>, percentiles: seq<nat>)
    returns (out: map<nat, nat>)
    ensures forall p :: p in out <==> p in percentiles
    ensures forall p | p in out :: IsPercentile(samples, p, out[p])
  {
    out := map[];
    if |samples| == 0 {
      for i := 0 to |percentiles|
        invariant forall p :: p in out <==> p in percentiles[..i]
        invariant forall p | p in out :: out[p] == 0
      {
        out := out[percentiles[i] := 0];
      }
      return;
    }
    var sorted := SortAscending(samples);
    var totalGas := SumGas(sorted);
    SumPermutation(sorted, samples, Gas());
    if totalGas == 0 {
      for i := 0 to |percentiles|
        invariant forall p :: p in out <==> p in percentiles[..i]
        invariant forall p | p in out :: out[p] == 0
      {
        out := out[percentiles[i] := 0];
      }
      return;
    }
    assert sorted != [] by {
      assert sorted == [] ==> TotalGas(sorted) == 0;
    }
    for i := 0 to |percentiles|
      invariant forall p :: p in out <==> p in percentiles[..i]
      invariant forall p | p in out :: IsPercentile(samples, p, out[p])
    {
      var p := percentiles[i];
      var target := (totalGas * p) / 100;
      var chosen := WalkTo(sorted, target);
      assert IsPercentile(sorted, p, chosen);
      PercentileOrderFree(sorted, samples, p, chosen);
      out := out[p := chosen];
    }
  }

  /** The percentile in gas, without the target: enough gas at or below it, too little at or below any lower tip. */
  lemma PercentileSpelled(s: seq<TipSample>, p: nat, t: nat)
    requires IsPercentile(s, p, t)
    ensures TotalGas(s) == 0 ==> t == 0
    ensures TotalGas(s) > 0 ==> exists x :: x in s && x.tip == t
    ensures TotalGas(s) > 0 && p <= 100 ==>
              && 100 * (GasAtOrBelow(s, t) + 1) > p * TotalGas(s)
              && forall x | x in s && x.tip < t :: 100 * (GasAtOrBelow(s, x.tip) + 1) <= p * TotalGas(s)
    ensures TotalGas(s) > 0 && p * TotalGas(s) >= 100 * (TotalGas(s) + 1) ==> forall x | x in s :: x.tip <= t
  {
    var total := TotalGas(s);
    if total > 0 {
      DivBounds(total * p, 100);
      if p <= 100 {
        MulMonotone(p, 100, total);
      }
    }
  }
}
