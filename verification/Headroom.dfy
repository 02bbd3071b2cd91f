/**
 How far ahead of the base fee the published `maxFeePerGas` stays, against the base-fee rule of
 EIP-1559, section "Specification" (elasticity 2, change denominator 8).
 */
module Headroom {
  import opened Arithmetic

  datatype Trend = Rising | Falling | Stable

  const TREND_RISING_THRESHOLD_PCT := 10
  const TREND_FALLING_THRESHOLD_PCT := -10

  function DetectTrend(history: seq<nat>): Trend {
    if |history| < 2 then Stable
    else
      var first: int, last: int := history[0], history[|history| - 1];
      if first == 0 then if last > 0 then Rising else Stable
      else
        var change := TruncDiv((last - first) * 100, first);
        if change > TREND_RISING_THRESHOLD_PCT then Rising
        else if change < TREND_FALLING_THRESHOLD_PCT then Falling
        else Stable
  }

  /**
   Because the percentage is truncated before the comparison, the documented 10% threshold is
   really 11%: a trend needs a move of at least eleven hundredths of the first value.
   */
  lemma TrendThresholdIsEleven(history: seq<nat>)
    requires |history| >= 2 && history[0] > 0
    ensures var first, last := history[0], history[|history| - 1];
            && (DetectTrend(history) == Rising <==> 100 * last >= 111 * first)
            && (DetectTrend(history) == Falling <==> 100 * last <= 89 * first)
  {
    var first: int, last: int := history[0], history[|history| - 1];
    var d := (last - first) * 100;
    ElevenParts(d, first);
    ElevenParts(-d, first);
  }

  lemma ElevenParts(d: int, first: nat)
    requires first > 0
    ensures TruncDiv(d, first) > 10 <==> d >= 11 * first
    ensures TruncDiv(-d, first) == -TruncDiv(d, first)
  {
    if d >= 0 {
      DivLeast(d, first, 11);
    } else {
      DivNonNegative(-d, first);
    }
  }

  // ----- the buffer -----

  /** Numerator and denominator of the factor on the base fee. */
  function Buffer(trend: Trend, livenessBlocks: nat): (r: (nat, nat))
    ensures r.1 > 0
  {
    PowPositive(8, livenessBlocks);
    match trend
    case Falling => (1, 1)
    case Stable => (Pow(9, livenessBlocks), Pow(8, livenessBlocks))
    case Rising => (Pow(9, livenessBlocks) * 10, Pow(8, livenessBlocks) * 9)
  }

  /** A liveness of zero or less leaves the factor without a single eighth. */
  method BaseFeeBufferMultiplier(trend: Trend, livenessBlocks: int) returns (num: nat, den: nat)
    ensures (num, den) == Buffer(trend, Max(0, livenessBlocks))
    ensures den > 0
  {
    if trend == Falling {
      return 1, 1;
    }
    num, den := 1, 1;
    var i := 0;
    while i < livenessBlocks
      invariant 0 <= i <= Max(0, livenessBlocks)
      invariant num == Pow(9, i) && den == Pow(8, i)
    {
      num := num * 9;
      den := den * 8;
      i := i + 1;
    }
    PowPositive(8, i);
    if trend == Rising {
      num := num * 10;
      den := den * 9;
    }
  }

  function Buffered(baseFee: nat, trend: Trend, livenessBlocks: nat): nat {
    var (num, den) := Buffer(trend, livenessBlocks);
    DivNonNegative(baseFee * num, den);
    baseFee * num / den
  }

  /** Without two values or with nothing to compare against there is no percentage. */
  lemma TrendWithoutBase(history: seq<nat>)
    ensures |history| < 2 ==> DetectTrend(history) == Stable
    ensures |history| >= 2 && history[0] == 0 ==>
              DetectTrend(history) == if history[|history| - 1] > 0 then Rising else Stable
  {
  }

  // ----- the buffer, spelled out -----

  /** `q` is `fee` times (9/8)^n and the trend's factor, rounded down. */
  ghost predicate IsBuffered(fee: nat, trend: Trend, n: nat, q: int) {
    match trend
    case Falling => q == fee
    case Stable => q * Pow(8, n) <= fee * Pow(9, n) < (q + 1) * Pow(8, n)
    case Rising => q * (9 * Pow(8, n)) <= fee * (10 * Pow(9, n)) < (q + 1) * (9 * Pow(8, n))
  }

  lemma BufferedSpelled(fee: nat, trend: Trend, n: nat)
    ensures IsBuffered(fee, trend, n, Buffered(fee, trend, n))
  {
    hide Pow;
    var (num, den) := Buffer(trend, n);
    var q := Buffered(fee, trend, n);
    DivBounds(fee * num, den);
    assert q * den <= fee * num < (q + 1) * den by {
      assert (q + 1) * den == q * den + den && den * q == q * den;
    }
  }

  // ----- the base-fee rule -----

  /** A block as the rule sees it: what it used of what limit. */
  datatype Usage = Usage(gasUsed: nat, gasLimit: nat)

  predicate Valid(u: Usage) {
    u.gasLimit >= 2 && u.gasUsed <= u.gasLimit
  }

  function NextBaseFee(baseFee: nat, u: Usage): nat
    requires Valid(u)
  {
    var target := u.gasLimit / 2;
    if u.gasUsed == target then baseFee
    else if u.gasUsed > target then
      var delta := baseFee * (u.gasUsed - target) / target / 8;
      baseFee + if delta > 1 then delta else 1
    else
      FallBounded(baseFee, u.gasUsed, target);
      baseFee - baseFee * (target - u.gasUsed) / target / 8
  }

  lemma FallBounded(baseFee: nat, used: nat, target: nat)
    requires used < target
    ensures 0 <= baseFee * (target - used) / target / 8 <= baseFee
  {
    PartAtMost(baseFee, target - used, target);
  }

  function BaseFeeAfter(baseFee: nat, usages: seq<Usage>): nat
    requires forall i | 0 <= i < |usages| :: Valid(usages[i])
  {
    if usages == [] then baseFee
    else NextBaseFee(BaseFeeAfter(baseFee, usages[..|usages| - 1]), usages[|usages| - 1])
  }

  /** No block uses more than twice its target; only an exactly full one with an odd limit does. */
  predicate Tame(u: Usage) {
    u.gasUsed <= 2 * (u.gasLimit / 2)
  }

  predicate AllTame(usages: seq<Usage>) {
    forall i | 0 <= i < |usages| :: Valid(usages[i]) && Tame(usages[i])
  }

  /** The largest next base fee: an eighth more, or one wei more below 8. */
  function Rise(baseFee: nat): nat {
    baseFee + if baseFee >= 8 then baseFee / 8 else 1
  }

  lemma RiseBounded(baseFee: nat, u: Usage)
    requires Valid(u) && Tame(u)
    ensures NextBaseFee(baseFee, u) <= Rise(baseFee)
  {
    var target := u.gasLimit / 2;
    if u.gasUsed > target {
      var extra := u.gasUsed - target;
      PartAtMost(baseFee, extra, target);
      DivMonotone(baseFee * extra / target, baseFee, 8);
    } else if u.gasUsed < target {
      FallBounded(baseFee, u.gasUsed, target);
    }
  }

  // ----- the worst trajectory -----

  function Worst(baseFee: nat, n: nat): nat {
    if n == 0 then baseFee else Rise(Worst(baseFee, n - 1))
  }

  const FULL: Usage := Usage(2, 2)

  function FullBlocks(n: nat): (us: seq<Usage>)
    ensures |us| == n && AllTame(us)
  {
    seq(n, _ => FULL)
  }

  /** Dividing twice is dividing by the product. */
  lemma DivTwice(x: nat, a: nat, b: nat)
    requires a > 0 && b > 0
    ensures var q := x / a / b;
            q * (a * b) <= x < (q + 1) * (a * b)
  {
    var p := x / a;
    var q := p / b;
    DivBounds(x, a);
    DivBounds(p, b);
    MulMonotone(q * b, p, a);
    MulMonotone(p + 1, (q + 1) * b, a);
    assert q * b * a == q * (a * b) && (q + 1) * b * a == (q + 1) * (a * b);
    assert (p + 1) * a == a * p + a;
  }

  /**
   The rule itself: the change is the fee times the distance from the target, over eight targets, rounded
   down, and never less than one wei on the way up.
   */
  ghost predicate IsChange(change: int, fee: nat, distance: nat, target: nat, least: nat) {
    var x := fee * distance;
    if x < target * 8 then change == least else change * (target * 8) <= x < (change + 1) * (target * 8)
  }

  lemma RuleSpelled(baseFee: nat, u: Usage)
    requires Valid(u)
    ensures var next, target := NextBaseFee(baseFee, u), u.gasLimit / 2;
            && (u.gasUsed == target ==> next == baseFee)
            && (u.gasUsed > target ==> IsChange(next - baseFee, baseFee, u.gasUsed - target, target, 1))
            && (u.gasUsed < target ==> IsChange(baseFee - next, baseFee, target - u.gasUsed, target, 0))
  {
    hide IsChange;
    var target := u.gasLimit / 2;
    if u.gasUsed > target {
      UpSpelled(baseFee, u.gasUsed - target, target);
    } else if u.gasUsed < target {
      DownSpelled(baseFee, target - u.gasUsed, target);
    }
  }

  lemma UpSpelled(fee: nat, distance: nat, target: nat)
    requires target > 0
    ensures var delta := fee * distance / target / 8;
            IsChange(if delta > 1 then delta else 1, fee, distance, target, 1)
  {
    DivTwice(fee * distance, target, 8);
    UpFromTarget(fee * distance, target);
  }

  lemma DownSpelled(fee: nat, distance: nat, target: nat)
    requires target > 0
    ensures IsChange(fee * distance / target / 8, fee, distance, target, 0)
  {
    DivTwice(fee * distance, target, 8);
    UpFromTarget(fee * distance, target);
    DivNonNegative(fee * distance, target);
  }

  lemma UpFromTarget(x: nat, target: nat)
    requires target > 0
    ensures x / target / 8 >= 1 <==> x >= target * 8
  {
    DivLeast(x, target, 8);
    DivLeast(x / target, 8, 1);
  }

  /** Dips below 8 wei and recoveries included, no blocks do worse than the same number of full ones. */
  lemma {:induction false} WorstIsWorst(baseFee: nat, usages: seq<Usage>)
    requires AllTame(usages)
    ensures BaseFeeAfter(baseFee, usages) <= Worst(baseFee, |usages|)
  {
    if usages == [] {
    } else {
      var before, last := usages[..|usages| - 1], usages[|usages| - 1];
      WorstIsWorst(baseFee, before);
      RiseBounded(BaseFeeAfter(baseFee, before), last);
    }
  }

  lemma {:induction false} WorstIsReached(baseFee: nat, n: nat)
    ensures BaseFeeAfter(baseFee, FullBlocks(n)) == Worst(baseFee, n)
  {
    if n == 0 {
      assert BaseFeeAfter(baseFee, []) == baseFee;
    } else {
      WorstIsReached(baseFee, n - 1);
      assert FullBlocks(n)[..n - 1] == FullBlocks(n - 1);
      assert FullBlocks(n)[n - 1] == FULL;
      FullRaises(Worst(baseFee, n - 1));
      hide NextBaseFee, Rise;
    }
  }

  lemma FullRaises(baseFee: nat)
    ensures NextBaseFee(baseFee, FULL) == Rise(baseFee)
  {
  }

  lemma {:induction false} WorstGrows(baseFee: nat, m: nat, n: nat)
    requires m <= n
    ensures Worst(baseFee, m) + (n - m) <= Worst(baseFee, n)
  {
    if m == n {
    } else {
      WorstGrows(baseFee, m, n - 1);
    }
  }

  /** A rise of at most an eighth keeps `fee * c <= d * (9/8)^n`. */
  lemma RiseStep(fee: nat, next: nat, c: nat, d: nat, p8: nat, p9: nat)
    requires 8 * next <= 9 * fee && fee * c * p8 <= d * p9
    ensures next * c * (p8 * 8) <= d * (p9 * 9)
  {
    MulMonotone(8 * next, 9 * fee, c * p8);
    assert 8 * next * (c * p8) == next * c * (p8 * 8);
    assert 9 * fee * (c * p8) == 9 * (fee * c * p8);
    assert d * (p9 * 9) == 9 * (d * p9);
  }

  /** From 8 wei up the worst case is (9/8)^n. */
  lemma {:induction false} WorstFromEight(baseFee: nat, n: nat)
    requires baseFee >= 8
    ensures Worst(baseFee, n) * 1 * Pow(8, n) <= baseFee * Pow(9, n)
  {
    if n == 0 {
    } else {
      WorstFromEight(baseFee, n - 1);
      WorstGrows(baseFee, 0, n - 1);
      RiseStep(Worst(baseFee, n - 1), Worst(baseFee, n), 1, baseFee, Pow(8, n - 1), Pow(9, n - 1));
    }
  }

  /** From 6 wei up it is within ten ninths of that: one wei is too much at first, but never for long. */
  lemma {:induction false} WorstFromSix(baseFee: nat, n: nat)
    requires baseFee >= 6
    ensures Worst(baseFee, n) * 9 * Pow(8, n) <= baseFee * 10 * Pow(9, n)
  {
    if n == 0 {
      assert Pow(8, 0) == 1 && Pow(9, 0) == 1;
    } else if baseFee < 8 && n <= 2 {
      assert Pow(8, 1) == Pow(8, 0) * 8 == 8 && Pow(9, 1) == Pow(9, 0) * 9 == 9;
      assert Pow(8, 2) == Pow(8, 1) * 8 == 64 && Pow(9, 2) == Pow(9, 1) * 9 == 81;
      assert Worst(baseFee, 0) == baseFee && Worst(baseFee, 1) == baseFee + 1;
      assert Worst(baseFee, 2) == baseFee + 2;
    } else {
      WorstFromSix(baseFee, n - 1);
      WorstGrows(baseFee, if n > 2 then 2 else 0, n - 1);
      assert Worst(baseFee, 1) == Rise(Worst(baseFee, 0)) >= baseFee + 1;
      assert Worst(baseFee, 2) == Rise(Worst(baseFee, 1)) >= baseFee + 2;
      RiseStep(Worst(baseFee, n - 1), Worst(baseFee, n), 9, baseFee * 10, Pow(8, n - 1), Pow(9, n - 1));
    }
  }

  /** From 8 wei up, `n` blocks never outrun (9/8)^n, dips below 8 wei and recoveries included. */
  lemma TrajectoryBounded(baseFee: nat, usages: seq<Usage>)
    requires baseFee >= 8 && AllTame(usages)
    ensures BaseFeeAfter(baseFee, usages) * Pow(8, |usages|) <= baseFee * Pow(9, |usages|)
  {
    WorstIsWorst(baseFee, usages);
    WorstFromEight(baseFee, |usages|);
    MulMonotone(BaseFeeAfter(baseFee, usages), Worst(baseFee, |usages|), Pow(8, |usages|));
  }

  // ----- what the buffer covers -----

  /** Enough for every number of blocks up to `n`, whatever gas they use. */
  ghost predicate Covered(baseFee: nat, trend: Trend, n: nat) {
    forall usages | |usages| <= n && AllTame(usages) ::
      BaseFeeAfter(baseFee, usages) <= Buffered(baseFee, trend, n)
  }

  /** Whether `n` blocks are covered can be checked on the one trajectory of full blocks. */
  lemma CoveredIff(baseFee: nat, trend: Trend, n: nat)
    ensures Covered(baseFee, trend, n) <==> Worst(baseFee, n) <= Buffered(baseFee, trend, n)
  {
    hide Buffered;
    WorstIsReached(baseFee, n);
    forall usages | |usages| <= n && AllTame(usages)
      ensures BaseFeeAfter(baseFee, usages) <= Worst(baseFee, n)
    {
      WorstIsWorst(baseFee, usages);
      WorstGrows(baseFee, |usages|, n);
    }
  }

  /** The base fee from which a trend's buffer holds for any number of blocks. */
  function Threshold(trend: Trend): nat {
    if trend == Rising then 6 else 8
  }

  lemma WorstIsCovered(baseFee: nat, trend: Trend, n: nat)
    requires trend != Falling && baseFee >= Threshold(trend)
    ensures Worst(baseFee, n) <= Buffered(baseFee, trend, n)
  {
    hide Worst, Pow;
    var w, p8, p9 := Worst(baseFee, n), Pow(8, n), Pow(9, n);
    PowPositive(8, n);
    if trend == Stable {
      WorstFromEight(baseFee, n);
      DivLeast(baseFee * p9, p8, w);
    } else {
      WorstFromSix(baseFee, n);
      assert w * (p8 * 9) == w * 9 * p8;
      assert baseFee * (p9 * 10) == baseFee * 10 * p9;
      DivLeast(baseFee * (p9 * 10), p8 * 9, w);
    }
  }

  lemma SmallPowers()
    ensures Pow(8, 1) == 8 && Pow(8, 2) == 64 && Pow(8, 3) == 512
    ensures Pow(9, 1) == 9 && Pow(9, 2) == 81 && Pow(9, 3) == 729
  {
    assert Pow(8, 0) == 1 && Pow(9, 0) == 1;
    assert Pow(8, 1) == Pow(8, 0) * 8 && Pow(9, 1) == Pow(9, 0) * 9;
    assert Pow(8, 2) == Pow(8, 1) * 8 && Pow(9, 2) == Pow(9, 1) * 9;
    assert Pow(8, 3) == Pow(8, 2) * 8 && Pow(9, 3) == Pow(9, 2) * 9;
  }

  /** Below the threshold three blocks are enough to outrun the buffer. */
  lemma BelowThreshold(baseFee: nat, trend: Trend)
    requires trend == Falling || baseFee < Threshold(trend)
    ensures exists n :: n <= 3 && Worst(baseFee, n) > Buffered(baseFee, trend, n)
  {
    SmallPowers();
    assert Worst(baseFee, 1) == Rise(Worst(baseFee, 0)) == Rise(baseFee);
    assert Worst(baseFee, 2) == Rise(Worst(baseFee, 1));
    assert Worst(baseFee, 3) == Rise(Worst(baseFee, 2));
    if trend == Rising && baseFee == 5 {
      assert Worst(baseFee, 3) == 8 && Buffered(baseFee, trend, 3) == 5 * 7290 / 4608;
    } else if trend == Rising && baseFee == 4 {
      assert Worst(baseFee, 2) == 6 && Buffered(baseFee, trend, 2) == 4 * 810 / 576;
    } else if trend == Rising {
      assert Buffered(baseFee, trend, 1) == baseFee * 90 / 72;
    } else if trend == Stable {
      assert Buffered(baseFee, trend, 1) == baseFee * 9 / 8;
    } else {
      assert Buffered(baseFee, trend, 1) == baseFee;
    }
  }

  /**
   Main result. For any number of blocks the published buffer covers every reachable base fee if and
   only if the trend is not falling and the base fee is at least 8 wei, or 6 in a rising market.
   */
  lemma AlwaysCoveredIff(baseFee: nat, trend: Trend)
    ensures (forall n: nat :: Covered(baseFee, trend, n))
        <==> trend != Falling && baseFee >= Threshold(trend)
  {
    hide Covered, Worst, Buffered;
    if trend != Falling && baseFee >= Threshold(trend) {
      forall n: nat
        ensures Covered(baseFee, trend, n)
      {
        WorstIsCovered(baseFee, trend, n);
        CoveredIff(baseFee, trend, n);
      }
    } else {
      BelowThreshold(baseFee, trend);
      var n :| n <= 3 && Worst(baseFee, n) > Buffered(baseFee, trend, n);
      CoveredIff(baseFee, trend, n);
    }
  }

  /** The half that callers rely on: up to `livenessBlocks` blocks, whatever gas they used. */
  lemma HeadroomHolds(baseFee: nat, trend: Trend, livenessBlocks: nat, usages: seq<Usage>)
    requires trend != Falling && baseFee >= Threshold(trend)
    requires |usages| <= livenessBlocks && AllTame(usages)
    ensures BaseFeeAfter(baseFee, usages) <= Buffered(baseFee, trend, livenessBlocks)
  {
    WorstIsCovered(baseFee, trend, livenessBlocks);
    CoveredIff(baseFee, trend, livenessBlocks);
  }

  // ----- one block ahead -----

  function DefaultBuffered(baseFee: nat): nat {
    Buffered(baseFee, Stable, 1)
  }

  lemma DefaultBufferedIs(baseFee: nat)
    ensures DefaultBuffered(baseFee) == baseFee * 9 / 8
  {
    assert Pow(9, 0) == 1 && Pow(8, 0) == 1;
    assert Pow(9, 1) == 9 && Pow(8, 1) == 8;
  }

  /** One stable block ahead, for even limits: the cap is enough for every usage exactly from 8 wei up. */
  lemma EightWeiIsExact(baseFee: nat, gasLimit: nat)
    requires gasLimit >= 2 && gasLimit % 2 == 0
    ensures (forall used: nat | used <= gasLimit ::
               NextBaseFee(baseFee, Usage(used, gasLimit)) <= DefaultBuffered(baseFee))
        <==> baseFee >= 8
  {
    DefaultBufferedIs(baseFee);
    if baseFee >= 8 {
      forall used: nat | used <= gasLimit
        ensures NextBaseFee(baseFee, Usage(used, gasLimit)) <= DefaultBuffered(baseFee)
      {
        RiseBounded(baseFee, Usage(used, gasLimit));
      }
    } else {
      assert NextBaseFee(baseFee, Usage(gasLimit, gasLimit)) >= baseFee + 1;
    }
  }

  /**
   An odd limit lets an exactly full block use one gas more than twice the target, and then the rise
   can pass an eighth: a block stays within the cap for every base fee from 8 wei up exactly when it
   uses no more than twice its target.
   */
  lemma TameIsExact(u: Usage)
    requires Valid(u)
    ensures (forall baseFee: nat | baseFee >= 8 :: NextBaseFee(baseFee, u) <= DefaultBuffered(baseFee))
        <==> Tame(u)
  {
    if Tame(u) {
      forall baseFee: nat | baseFee >= 8
        ensures NextBaseFee(baseFee, u) <= DefaultBuffered(baseFee)
      {
        RiseBounded(baseFee, u);
        DefaultBufferedIs(baseFee);
      }
    } else {
      var target := u.gasLimit / 2;
      var baseFee := 8 * target;
      DefaultBufferedIs(baseFee);
      OddLimitRise(target);
      assert u.gasUsed - target == target + 1;
      assert NextBaseFee(baseFee, u) > DefaultBuffered(baseFee);
    }
  }

  /** So from 8 wei up the cap is enough for every base fee and usage exactly when the limit is even. */
  lemma EvenLimitIsExact(gasLimit: nat)
    requires gasLimit >= 2
    ensures (forall baseFee: nat, used: nat | baseFee >= 8 && used <= gasLimit ::
               NextBaseFee(baseFee, Usage(used, gasLimit)) <= DefaultBuffered(baseFee))
        <==> gasLimit % 2 == 0
  {
    hide NextBaseFee, DefaultBuffered;
    forall used: nat | used <= gasLimit
      ensures (forall baseFee: nat | baseFee >= 8 ::
                 NextBaseFee(baseFee, Usage(used, gasLimit)) <= DefaultBuffered(baseFee))
          <==> Tame(Usage(used, gasLimit))
    {
      TameIsExact(Usage(used, gasLimit));
    }
    assert gasLimit % 2 == 0 <==> Tame(Usage(gasLimit, gasLimit));
  }

  lemma OddLimitRise(target: nat)
    requires target > 0
    ensures 8 * target * (target + 1) / target / 8 == target + 1
  {
    var x := 8 * target * (target + 1);
    assert x == 8 * (target + 1) * target;
    DivLeast(x, target, 8 * (target + 1));
    DivLeast(x, target, 8 * (target + 1) + 1);
  }
}
