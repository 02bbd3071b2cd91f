/** The decay cap: a published tip may fall only so fast per block. */
module Decay {
  import opened Arithmetic
  import opened Wrappers

  const WAD: nat := 1_000_000_000_000_000_000
  const DEFAULT_PRIORITY_FEE_DECAY_CAP: nat := WAD / 8

  /** WAD-scaled retention over `n` blocks, floored at every block. */
  function Factor(retain: nat, n: nat): nat {
    if n == 0 then WAD else Factor(retain, n - 1) * retain / WAD
  }

  /** The same for any cap: past WAD the retention is negative and the factor changes sign. */
  function SignedFactor(retain: int, n: nat): int {
    if n == 0 then WAD else TruncDiv(SignedFactor(retain, n - 1) * retain, WAD)
  }

  lemma {:induction false} SignedFactorIs(retain: nat, n: nat)
    ensures SignedFactor(retain, n) == Factor(retain, n)
  {
    if n == 0 {
      assert SignedFactor(retain, 0) == WAD == Factor(retain, 0);
    } else {
      SignedFactorIs(retain, n - 1);
      MulMonotone(0, retain, Factor(retain, n - 1));
    }
  }

  function Capped(
      rawTip: nat, now: int, lastPublished: Option<nat>, lastBlock: Option<int>, decayCap: Option<int>)
    : nat
  {
    if decayCap.None? || lastPublished.None? || lastBlock.None? then rawTip
    else
      var n := now - lastBlock.value;
      if n <= 0 then Max(rawTip, lastPublished.value)
      else Max(rawTip, TruncDiv(lastPublished.value * SignedFactor(WAD - decayCap.value, n), WAD))
  }

  method CappedTip(
      rawTip: nat, nowBlockNumber: int, lastPublished: Option<nat>,
      lastPublishedBlockNumber: Option<int>, decayCap: Option<int>)
    returns (tip: nat)
    ensures tip == Capped(rawTip, nowBlockNumber, lastPublished, lastPublishedBlockNumber, decayCap)
  {
    if decayCap.None? {
      return rawTip;
    }
    if lastPublished.None? || lastPublishedBlockNumber.None? {
      return rawTip;
    }
    var nBlocks := nowBlockNumber - lastPublishedBlockNumber.value;
    if nBlocks <= 0 {
      return if rawTip > lastPublished.value then rawTip else lastPublished.value;
    }
    var retain := WAD - decayCap.value;
    var factor: int := WAD;
    for i := 0 to nBlocks
      invariant factor == SignedFactor(retain, i)
    {
      factor := TruncDiv(factor * retain, WAD);
    }
    var downsideFloor := TruncDiv(lastPublished.value * factor, WAD);
    tip := if rawTip > downsideFloor then rawTip else downsideFloor;
  }

  // ----- order -----

  /**
   A larger raw tip or a larger anchor never lowers the published tip. This needs nothing of the
   cap: outside 0..WAD the factor may grow or turn negative, and a negative floor floors nothing.
   */
  lemma CappedMonotone(
      raw: nat, raw': nat, now: int, last: Option<nat>, last': Option<nat>, lastBlock: Option<int>,
      decayCap: Option<int>)
    requires raw <= raw'
    requires last.Some? == last'.Some? && (last.Some? ==> last.value <= last'.value)
    ensures Capped(raw, now, last, lastBlock, decayCap) <= Capped(raw', now, last', lastBlock, decayCap)
  {
    hide SignedFactor;
    if decayCap.Some? && last.Some? && lastBlock.Some? && now > lastBlock.value {
      var f := SignedFactor(WAD - decayCap.value, now - lastBlock.value);
      FloorOrder(last.value, last'.value, f);
    }
  }

  lemma FloorOrder(v: nat, w: nat, f: int)
    requires v <= w
    ensures TruncDiv(v * f, WAD) <= Max(0, TruncDiv(w * f, WAD))
  {
    if f >= 0 {
      MulMonotone(v, w, f);
      TruncDivMonotone(v * f, w * f, WAD);
    } else {
      MulMonotone(f, 0, v);
      TruncDivMonotone(v * f, 0, WAD);
    }
  }

  // ----- exact decay -----

  ghost function Pow(r: real, n: nat): real {
    if n == 0 then 1.0 else Pow(r, n - 1) * r
  }

  lemma {:induction false} PowRange(r: real, n: nat)
    requires 0.0 <= r <= 1.0
    ensures 0.0 <= Pow(r, n) <= 1.0
  {
    if n == 0 {
      assert Pow(r, n) == 1.0;
    } else {
      PowRange(r, n - 1);
      var q := Pow(r, n - 1);
      RealShrink(q, r);
      assert Pow(r, n) == q * r;
      hide Pow;
    }
  }

  lemma {:induction false} PowAdd(r: real, m: nat, n: nat)
    ensures Pow(r, m + n) == Pow(r, m) * Pow(r, n)
  {
    if n == 0 {
      assert Pow(r, 0) == 1.0;
    } else {
      PowAdd(r, m, n - 1);
      Regroup(Pow(r, m), Pow(r, n - 1), r);
    }
  }

  lemma Regroup(a: real, b: real, c: real)
    ensures a * b * c == a * (b * c)
  {
  }

  ghost function Retention(retain: nat): (r: real)
    requires retain <= WAD
    ensures 0.0 <= r <= 1.0
  {
    retain as real / WAD as real
  }

  /** `x` after `n` blocks of exact decay: x * (retain / WAD)^n. */
  ghost function Exact(x: real, retain: nat, n: nat): real
    requires retain <= WAD
  {
    x * Pow(Retention(retain), n)
  }

  lemma ExactMonotone(x: real, y: real, retain: nat, n: nat)
    requires retain <= WAD && x <= y
    ensures Exact(x, retain, n) <= Exact(y, retain, n)
  {
    PowRange(Retention(retain), n);
    RealMulMonotone(x, y, Pow(Retention(retain), n));
  }

  lemma ExactMinus(x: real, y: real, retain: nat, n: nat)
    requires retain <= WAD
    ensures Exact(x - y, retain, n) == Exact(x, retain, n) - Exact(y, retain, n)
  {
    var p := Pow(Retention(retain), n);
    assert (x - y) * p == x * p - y * p;
  }

  lemma ExactShrinks(x: real, retain: nat, n: nat)
    requires retain <= WAD && x >= 0.0
    ensures 0.0 <= Exact(x, retain, n) <= x
  {
    var p := Pow(Retention(retain), n);
    PowRange(Retention(retain), n);
    RealShrink(x, p);
    assert 0.0 <= x * p && x * p <= x;
  }

  lemma ExactTwice(x: real, retain: nat, m: nat, n: nat)
    requires retain <= WAD
    ensures Exact(Exact(x, retain, m), retain, n) == Exact(x, retain, m + n)
  {
    var r := Retention(retain);
    PowAdd(r, m, n);
    assert x * Pow(r, m) * Pow(r, n) == x * (Pow(r, m) * Pow(r, n));
  }

  lemma ExactNone(x: real, retain: nat)
    requires retain <= WAD
    ensures Exact(x, retain, 0) == x
  {
    assert Pow(Retention(retain), 0) == 1.0;
  }

  /** Decaying a value known up to a one-sided error keeps the error. */
  lemma ExactError(f: real, p: real, e: real, retain: nat, n: nat)
    requires retain <= WAD && e >= 0.0
    requires p - e <= f <= p
    ensures Exact(p, retain, n) - e <= Exact(f, retain, n) <= Exact(p, retain, n)
  {
    hide Exact;
    ExactMonotone(f, p, retain, n);
    ExactMonotone(p - e, f, retain, n);
    ExactMinus(p, e, retain, n);
    ExactShrinks(e, retain, n);
  }

  // ----- rounding of the factor -----

  /** One floored multiplication by `retain / WAD`. */
  lemma FloorStep(a: nat, retain: nat)
    requires retain <= WAD
    ensures Exact(a as real, retain, 1) - 1.0 <= (a * retain / WAD) as real <= Exact(a as real, retain, 1)
  {
    FloorReal(a * retain, WAD);
    var r := Retention(retain);
    assert Pow(r, 1) == Pow(r, 0) * r == r;
    assert (a * retain) as real == a as real * retain as real;
    assert a as real * retain as real / WAD as real == a as real * r;
  }

  lemma FactorOne(retain: nat)
    requires retain <= WAD
    ensures Factor(retain, 1) as real == Exact(WAD as real, retain, 1)
  {
    var r := Retention(retain);
    assert Factor(retain, 0) == WAD;
    DivLeast(WAD * retain, WAD, retain);
    DivLeast(WAD * retain, WAD, retain + 1);
    assert Pow(r, 1) == Pow(r, 0) * r == r;
    assert WAD as real * r == retain as real;
  }

  /** The factor never exceeds the exact one and trails it by at most one unit a block after the first. */
  lemma {:induction false} FactorBounds(retain: nat, n: nat)
    requires retain <= WAD && n > 0
    ensures var exact := Exact(WAD as real, retain, n);
            exact - (n - 1) as real <= Factor(retain, n) as real <= exact
  {
    hide Exact;
    if n == 1 {
      FactorOne(retain);
    } else {
      FactorBounds(retain, n - 1);
      var f, p := Factor(retain, n - 1), Exact(WAD as real, retain, n - 1);
      FloorStep(f, retain);
      ExactError(f as real, p, (n - 2) as real, retain, 1);
      ExactTwice(WAD as real, retain, n - 1, 1);
      assert Factor(retain, n) == f * retain / WAD;
    }
  }

  // ----- one poll -----

  /** One poll after `n` blocks, from anchor `v`, with nothing in the market to hold it up. */
  function Decayed(v: nat, retain: nat, n: nat): nat {
    v * Factor(retain, n) / WAD
  }

  /** What the floored factor of an `n`-block poll may cost an anchor `v`: (n - 1) * v / WAD. */
  ghost function Err(v: nat, n: nat): real {
    (n - 1) as real * v as real / WAD as real
  }

  lemma ErrGrows(c: nat, v: nat, n: nat)
    requires c <= v && n > 0
    ensures 0.0 <= Err(c, n) <= Err(v, n)
  {
    var e, w := (n - 1) as real, WAD as real;
    RealMulMonotone(c as real, v as real, e);
    RealMulMonotone(0.0, c as real, e);
    var s := Err(v, n);
    assert s * w == e * v as real;
    RealDivUpper(s, e * c as real, w);
    RealDivLower(0.0, e * c as real, w);
  }

  lemma Normalize(x: real, f: real, p: real, w: real, e: real)
    requires w > 0.0 && x >= 0.0 && w * p - e <= f <= w * p
    ensures x * p - e * x / w <= x * f / w <= x * p
  {
    RealMulMonotone(f, w * p, x);
    assert w * p * x == x * p * w;
    RealDivUpper(x * p, x * f, w);
    var q := e * x / w;
    assert q * w == e * x;
    RealMulMonotone(w * p - e, f, x);
    assert (w * p - e) * x == x * p * w - q * w == (x * p - q) * w;
    RealDivLower(x * p - q, x * f, w);
  }

  lemma DecayedBounds(v: nat, retain: nat, n: nat)
    requires retain <= WAD && n > 0
    ensures var exact := Exact(v as real, retain, n);
            exact - Err(v, n) - 1.0 <= Decayed(v, retain, n) as real <= exact
  {
    var f := Factor(retain, n);
    var scaled := v as real * f as real / WAD as real;
    assert Exact(v as real, retain, n) - Err(v, n) <= scaled <= Exact(v as real, retain, n) by {
      FactorBounds(retain, n);
      Normalize(v as real, f as real, Pow(Retention(retain), n), WAD as real, (n - 1) as real);
    }
    assert scaled - 1.0 <= Decayed(v, retain, n) as real <= scaled by {
      FloorReal(v * f, WAD);
      assert (v * f) as real == v as real * f as real;
    }
  }

  // ----- any polling cadence -----

  function Blocks(gaps: seq<nat>): nat {
    if gaps == [] then 0 else Blocks(gaps[..|gaps| - 1]) + gaps[|gaps| - 1]
  }

  /** The published tip after polls spaced `gaps` blocks apart, all with raw tip zero. */
  function Cadence(v: nat, retain: nat, gaps: seq<nat>): nat {
    if gaps == [] then v
    else Decayed(Cadence(v, retain, gaps[..|gaps| - 1]), retain, gaps[|gaps| - 1])
  }

  /** What `m` polls over `k` blocks may lose to rounding, from anchor `v`: m + (k - m) * v / WAD. */
  ghost function Loss(v: nat, m: nat, k: nat): real {
    m as real + (k - m) as real * v as real / WAD as real
  }

  lemma LossAdds(v: nat, m: nat, k: nat, g: nat)
    requires m <= k && g > 0
    ensures Loss(v, m + 1, k + g) == Loss(v, m, k) + 1.0 + Err(v, g)
    ensures Loss(v, m, k) >= 0.0
  {
    var x, w := v as real, WAD as real;
    var a, b := (k - m) as real, (g - 1) as real;
    assert (k + g - (m + 1)) as real == a + b;
    assert (a + b) * x == a * x + b * x;
    RealMulMonotone(0.0, a, x);
    RealDivLower(0.0, a * x, w);
  }

  lemma CadenceStep(v: nat, retain: nat, c: nat, k: nat, m: nat, g: nat)
    requires retain <= WAD && g > 0 && m <= k && c <= v
    requires Exact(v as real, retain, k) - Loss(v, m, k) <= c as real <= Exact(v as real, retain, k)
    ensures Exact(v as real, retain, k + g) - Loss(v, m + 1, k + g) <= Decayed(c, retain, g) as real
    ensures Decayed(c, retain, g) as real <= Exact(v as real, retain, k + g)
    ensures Decayed(c, retain, g) <= v
  {
    hide Exact, Loss, Err, Decayed;
    DecayedBounds(c, retain, g);
    ErrGrows(c, v, g);
    LossAdds(v, m, k, g);
    ExactError(c as real, Exact(v as real, retain, k), Loss(v, m, k), retain, g);
    ExactTwice(v as real, retain, k, g);
    ExactShrinks(v as real, retain, k + g);
  }

  /**
   The floor hardly depends on how often one polls: after `m` polls over `k` blocks it is at most
   the exact decay of the anchor `v`, and at least that minus m + (k - m) * v / WAD. Polling every
   block (m = k) loses at most k; one poll (m = 1) loses at most 1 + (k - 1) * v / WAD.
   */
  lemma {:induction false} CadenceBounds(v: nat, retain: nat, gaps: seq<nat>)
    requires retain <= WAD
    requires forall i | 0 <= i < |gaps| :: gaps[i] > 0
    ensures |gaps| <= Blocks(gaps)
    ensures var exact := Exact(v as real, retain, Blocks(gaps));
            exact - Loss(v, |gaps|, Blocks(gaps)) <= Cadence(v, retain, gaps) as real <= exact
    ensures Cadence(v, retain, gaps) <= v
  {
    hide Exact, Loss, Decayed;
    if gaps == [] {
      ExactNone(v as real, retain);
      LossNone(v);
    } else {
      var before, g := gaps[..|gaps| - 1], gaps[|gaps| - 1];
      CadenceBounds(v, retain, before);
      CadenceStep(v, retain, Cadence(v, retain, before), Blocks(before), |before|, g);
    }
  }

  lemma LossNone(v: nat)
    ensures Loss(v, 0, 0) == 0.0
  {
  }

  // ----- runs with a market -----

  /**
   A poll that reads raw tip `raw`, at a block `gap` above that of the previous poll: zero when the
   same head is polled again, negative when a reorg has left a lower one.
   */
  datatype Reading = Reading(gap: int, raw: nat)

  function BlockAfter(start: int, readings: seq<Reading>): int {
    if readings == [] then start
    else BlockAfter(start, readings[..|readings| - 1]) + readings[|readings| - 1].gap
  }

  /** The gaps of the polls that moved forward; only these let the anchor decay. */
  function Advances(readings: seq<Reading>): (gaps: seq<nat>)
    ensures forall i | 0 <= i < |gaps| :: gaps[i] > 0
  {
    if readings == [] then []
    else
      var before, gap := Advances(readings[..|readings| - 1]), readings[|readings| - 1].gap;
      if gap > 0 then before + [gap] else before
  }

  /** The tip published after `readings`, each poll anchored on the one before it. */
  function Published(v: nat, start: int, decayCap: int, readings: seq<Reading>): nat {
    if readings == [] then v
    else
      var before := readings[..|readings| - 1];
      Capped(
        readings[|readings| - 1].raw,
        BlockAfter(start, readings),
        Some(Published(v, start, decayCap, before)),
        Some(BlockAfter(start, before)),
        Some(decayCap))
  }

  /** No market and no cadence can push the published tip below the decay of the first anchor. */
  lemma PublishedAboveDecay(v: nat, start: int, decayCap: nat, readings: seq<Reading>)
    requires decayCap <= WAD
    ensures var g := Advances(readings);
            Published(v, start, decayCap, readings) as real
              >= Exact(v as real, WAD - decayCap, Blocks(g)) - Loss(v, |g|, Blocks(g))
  {
    hide Exact, Loss;
    CadenceBounds(v, WAD - decayCap, Advances(readings));
    PublishedAboveCadence(v, start, decayCap, readings);
  }

  lemma {:induction false} PublishedAboveCadence(v: nat, start: int, decayCap: nat, readings: seq<Reading>)
    requires decayCap <= WAD
    ensures Published(v, start, decayCap, readings) >= Cadence(v, WAD - decayCap, Advances(readings))
    ensures (forall i | 0 <= i < |readings| :: readings[i].raw == 0) ==>
              Published(v, start, decayCap, readings) == Cadence(v, WAD - decayCap, Advances(readings))
  {
    hide Capped, Decayed, Cadence, Advances;
    if readings == [] {
      NoReadings(v, WAD - decayCap);
    } else {
      var before, last := readings[..|readings| - 1], readings[|readings| - 1];
      PublishedAboveCadence(v, start, decayCap, before);
      var p := Published(v, start, decayCap, before);
      CadenceGrows(v, WAD - decayCap, readings);
      if last.gap > 0 {
        PollDecays(last.raw, BlockAfter(start, before), p, decayCap, last.gap);
        DecayedMonotone(Cadence(v, WAD - decayCap, Advances(before)), p, WAD - decayCap, last.gap);
      } else {
        PollHolds(last.raw, BlockAfter(start, before), p, decayCap, last.gap);
      }
    }
  }

  lemma NoReadings(v: nat, retain: nat)
    ensures Cadence(v, retain, Advances([])) == v
  {
  }

  lemma CadenceGrows(v: nat, retain: nat, readings: seq<Reading>)
    requires readings != []
    ensures var before, gap := Advances(readings[..|readings| - 1]), readings[|readings| - 1].gap;
            Cadence(v, retain, Advances(readings))
              == if gap > 0 then Decayed(Cadence(v, retain, before), retain, gap) else Cadence(v, retain, before)
  {
    hide Decayed;
    var before, gap := Advances(readings[..|readings| - 1]), readings[|readings| - 1].gap;
    if gap > 0 {
      assert (before + [gap])[..|before|] == before;
    }
  }

  /** A poll further up publishes the decayed anchor or the raw tip, whichever is larger. */
  lemma PollDecays(raw: nat, block: int, p: nat, decayCap: nat, gap: nat)
    requires decayCap <= WAD && gap > 0
    ensures Capped(raw, block + gap, Some(p), Some(block), Some(decayCap))
         == Max(raw, Decayed(p, WAD - decayCap, gap))
  {
    SignedFactorIs(WAD - decayCap, gap);
    MulMonotone(0, p, Factor(WAD - decayCap, gap));
  }

  /** A poll at the same block or below holds the anchor. */
  lemma PollHolds(raw: nat, block: int, p: nat, decayCap: nat, gap: int)
    requires gap <= 0
    ensures Capped(raw, block + gap, Some(p), Some(block), Some(decayCap)) == Max(raw, p)
  {
  }

  lemma DecayedMonotone(c: nat, p: nat, retain: nat, n: nat)
    requires c <= p
    ensures Decayed(c, retain, n) <= Decayed(p, retain, n)
  {
    var f := Factor(retain, n);
    MulMonotone(c, p, f);
    DivMonotone(c * f, p * f, WAD);
  }

  /** With nothing in the market the published tip is the exact decay but for the rounding, from below. */
  lemma QuietMarketBounds(v: nat, start: int, decayCap: nat, readings: seq<Reading>)
    requires decayCap <= WAD
    requires forall i | 0 <= i < |readings| :: readings[i].raw == 0
    ensures var g := Advances(readings);
            var exact := Exact(v as real, WAD - decayCap, Blocks(g));
            exact - Loss(v, |g|, Blocks(g)) <= Published(v, start, decayCap, readings) as real <= exact
  {
    hide Exact, Loss;
    CadenceBounds(v, WAD - decayCap, Advances(readings));
    PublishedAboveCadence(v, start, decayCap, readings);
  }

  // ----- the cap, spelled out -----

  /** `q` is `a / WAD` without its fraction, towards zero. */
  ghost predicate Truncates(a: int, q: int) {
    if a >= 0 then q * 1_000_000_000_000_000_000 <= a < (q + 1) * 1_000_000_000_000_000_000
    else (q - 1) * 1_000_000_000_000_000_000 < a <= q * 1_000_000_000_000_000_000
  }

  lemma TruncDivSpelled(a: int)
    ensures Truncates(a, TruncDiv(a, WAD))
  {
    DivBounds(if a >= 0 then a else -a, WAD);
  }

  /** Without a cap or without history the tip passes; at or below the anchor's block the anchor holds. */
  lemma CappedAtRest(raw: nat, now: int, last: Option<nat>, lastBlock: Option<int>, cap: Option<int>)
    ensures cap == None || last == None || lastBlock == None ==> Capped(raw, now, last, lastBlock, cap) == raw
    ensures cap.Some? && last.Some? && lastBlock.Some? && now <= lastBlock.value ==>
              Capped(raw, now, last, lastBlock, cap) == if raw > last.value then raw else last.value
  {
  }

  /** The factor block by block from one WAD: each is the one before times `WAD - cap`, truncated. */
  lemma {:induction false} FactorSpelled(retain: int, n: nat) returns (fs: seq<int>)
    ensures |fs| == n + 1 && fs[0] == 1_000_000_000_000_000_000 && fs[n] == SignedFactor(retain, n)
    ensures forall i | 0 < i <= n :: Truncates(fs[i - 1] * retain, fs[i])
  {
    if n == 0 {
      fs := [1_000_000_000_000_000_000];
    } else {
      fs := FactorSpelled(retain, n - 1);
      TruncDivSpelled(fs[n - 1] * retain);
      fs := fs + [SignedFactor(retain, n)];
    }
  }

  /** Further up, the anchor times the last factor is the floor under the raw tip. */
  lemma CappedSpelled(raw: nat, now: int, last: nat, lastBlock: int, cap: int) returns (fs: seq<int>, floor: int)
    requires now > lastBlock
    ensures |fs| == now - lastBlock + 1 && fs[0] == 1_000_000_000_000_000_000
    ensures forall i | 0 < i < |fs| :: Truncates(fs[i - 1] * (1_000_000_000_000_000_000 - cap), fs[i])
    ensures Truncates(last * fs[|fs| - 1], floor)
    ensures Capped(raw, now, Some(last), Some(lastBlock), Some(cap)) == if raw > floor then raw else floor
  {
    hide SignedFactor, Truncates;
    fs := FactorSpelled(WAD - cap, now - lastBlock);
    floor := TruncDiv(last * fs[|fs| - 1], WAD);
    TruncDivSpelled(last * fs[|fs| - 1]);
  }
}
