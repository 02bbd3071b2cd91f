/** Blob base fee: `fake_exponential` of EIP-4844, section "Helpers". */
module BlobFee {
  import opened Arithmetic

  const BLOB_BASE_FEE_UPDATE_FRACTION: nat := 3338477

  /** The accumulator of `fake_exponential` before iteration `i + 1`. */
  function Term(factor: nat, num: nat, den: nat, i: nat): nat
    requires den > 0
  {
    if i == 0 then factor * den
    else Next(Term(factor, num, den, i - 1), num, den, i)
  }

  function Next(accum: nat, num: nat, den: nat, i: nat): nat
    requires den > 0 && i > 0
  {
    MulPositive(den, i);
    (accum * num) / (den * i)
  }

  function Partial(factor: nat, num: nat, den: nat, n: nat): nat
    requires den > 0
  {
    if n == 0 then 0 else Partial(factor, num, den, n - 1) + Term(factor, num, den, n - 1)
  }

  predicate Vanishes(factor: nat, num: nat, den: nat, n: nat)
    requires den > 0
  {
    Term(factor, num, den, n) == 0
  }

  /** `r` is what the standard's loop returns: the sum up to a vanishing term, over the denominator. */
  ghost predicate FakeExponential(factor: nat, num: nat, den: nat, r: nat)
    requires den > 0
  {
    exists n :: Vanishes(factor, num, den, n) && r == Partial(factor, num, den, n) / den
  }

  lemma NextShrinks(accum: nat, num: nat, den: nat, i: nat)
    requires den > 0 && i > 0 && accum > 0
    requires num < den * i
    ensures Next(accum, num, den, i) < accum
  {
    var d := den * i;
    ProductBelow(accum, num, d);
    DivLeast(accum * num, d, accum);
  }

  lemma ProductBelow(a: nat, x: nat, y: nat)
    requires a > 0 && x < y
    ensures a * x < a * y
  {
  }

  /** Terms grow while `i <= x / fraction` and shrink after, so the loop measure is lexicographic. */
  method ComputeBlobBaseFee(excessBlobGas: nat) returns (fee: nat)
    ensures FakeExponential(1, excessBlobGas, BLOB_BASE_FEE_UPDATE_FRACTION, fee)
  {
    ghost var den := BLOB_BASE_FEE_UPDATE_FRACTION;
    if excessBlobGas == 0 {
      assert Term(1, 0, den, 0) == den;
      assert Vanishes(1, 0, den, 1);
      assert Partial(1, 0, den, 1) == den by { assert Partial(1, 0, den, 0) == 0; }
      return 1;
    }
    var output := 0;
    var accum := BLOB_BASE_FEE_UPDATE_FRACTION;
    var i := 1;
    while accum > 0
      invariant i >= 1
      invariant accum == Term(1, excessBlobGas, den, i - 1)
      invariant output == Partial(1, excessBlobGas, den, i - 1)
      decreases if den * i <= excessBlobGas then excessBlobGas - den * i + 1 else 0, accum
    {
      output := output + accum;
      if excessBlobGas < den * i {
        NextShrinks(accum, excessBlobGas, den, i);
      }
      accum := (accum * excessBlobGas) / (BLOB_BASE_FEE_UPDATE_FRACTION * i);
      i := i + 1;
    }
    assert Vanishes(1, excessBlobGas, den, i - 1);
    fee := output / BLOB_BASE_FEE_UPDATE_FRACTION;
  }

  // ----- the sum does not depend on which vanishing term it stops at -----

  lemma {:induction false} StaysVanished(factor: nat, num: nat, den: nat, n: nat, m: nat)
    requires den > 0 && n <= m && Vanishes(factor, num, den, n)
    ensures Vanishes(factor, num, den, m)
    ensures Partial(factor, num, den, m) == Partial(factor, num, den, n)
  {
    if n == m {
    } else {
      StaysVanished(factor, num, den, n, m - 1);
      ZeroNext(num, den, m);
    }
  }

  lemma ZeroNext(num: nat, den: nat, i: nat)
    requires den > 0 && i > 0
    ensures Next(0, num, den, i) == 0
  {
  }

  lemma FakeExponentialUnique(factor: nat, num: nat, den: nat, r: nat, s: nat)
    requires den > 0
    requires FakeExponential(factor, num, den, r) && FakeExponential(factor, num, den, s)
    ensures r == s
  {
    var n :| Vanishes(factor, num, den, n) && r == Partial(factor, num, den, n) / den;
    var m :| Vanishes(factor, num, den, m) && s == Partial(factor, num, den, m) / den;
    if n <= m {
      StaysVanished(factor, num, den, n, m);
    } else {
      StaysVanished(factor, num, den, m, n);
    }
  }

  lemma FakeExponentialAt(factor: nat, num: nat, den: nat, n: nat, r: nat)
    requires den > 0 && Vanishes(factor, num, den, n) && FakeExponential(factor, num, den, r)
    ensures r == Partial(factor, num, den, n) / den
  {
    var p := Partial(factor, num, den, n);
    DivLeast(p, den, 0);
    FakeExponentialUnique(factor, num, den, r, p / den);
  }

  // ----- monotone in the excess -----

  lemma NextMonotone(a: nat, b: nat, x: nat, y: nat, den: nat, i: nat)
    requires den > 0 && i > 0 && a <= b && x <= y
    ensures Next(a, x, den, i) <= Next(b, y, den, i)
  {
    var d := den * i;
    assert a * x <= b * y by {
      assert a * x <= b * x <= b * y;
    }
    DivMonotone(a * x, b * y, d);
  }

  lemma {:induction false} TermMonotone(factor: nat, x: nat, y: nat, den: nat, i: nat)
    requires den > 0 && x <= y
    ensures Term(factor, x, den, i) <= Term(factor, y, den, i)
  {
    if i == 0 {
    } else {
      TermMonotone(factor, x, y, den, i - 1);
      NextMonotone(Term(factor, x, den, i - 1), Term(factor, y, den, i - 1), x, y, den, i);
    }
  }

  lemma {:induction false} PartialMonotone(factor: nat, x: nat, y: nat, den: nat, n: nat)
    requires den > 0 && x <= y
    ensures Partial(factor, x, den, n) <= Partial(factor, y, den, n)
  {
    if n == 0 {
    } else {
      PartialMonotone(factor, x, y, den, n - 1);
      TermMonotone(factor, x, y, den, n - 1);
    }
  }

  /** More excess blob gas never lowers the fee. */
  lemma FeeMonotone(factor: nat, x: nat, y: nat, den: nat, r: nat, s: nat)
    requires den > 0 && x <= y
    requires FakeExponential(factor, x, den, r) && FakeExponential(factor, y, den, s)
    ensures r <= s
  {
    var m :| Vanishes(factor, y, den, m) && s == Partial(factor, y, den, m) / den;
    TermMonotone(factor, x, y, den, m);
    PartialMonotone(factor, x, y, den, m);
    var p, q := Partial(factor, x, den, m), Partial(factor, y, den, m);
    FakeExponentialAt(factor, x, den, m, r);
    DivMonotone(p, q, den);
  }

  // ----- between the tangent line and the Taylor series -----

  /** The fee is at least one wei plus the whole fractions of excess. */
  lemma FeeAboveTangent(x: nat, r: nat)
    requires FakeExponential(1, x, BLOB_BASE_FEE_UPDATE_FRACTION, r)
    ensures r >= 1 + x / BLOB_BASE_FEE_UPDATE_FRACTION
  {
    var den := BLOB_BASE_FEE_UPDATE_FRACTION;
    var n: nat :| Vanishes(1, x, den, n) && r == Partial(1, x, den, n) / den;
    StaysVanished(1, x, den, n, n + 2);
    assert Term(1, x, den, 0) == den;
    assert Term(1, x, den, 1) == Next(den, x, den, 1) == x;
    PartialGrows(1, x, den, 2, n + 2);
    assert Partial(1, x, den, 1) == Partial(1, x, den, 0) + den;
    assert Partial(1, x, den, 2) == den + x;
    DivMonotone(den + x, Partial(1, x, den, n), den);
  }

  lemma {:induction false} PartialGrows(factor: nat, num: nat, den: nat, n: nat, m: nat)
    requires den > 0 && n <= m
    ensures Partial(factor, num, den, n) <= Partial(factor, num, den, m)
  {
    if n == m {
    } else {
      PartialGrows(factor, num, den, n, m - 1);
    }
  }

  /** z^i / i! */
  ghost function TaylorTerm(z: real, i: nat): real {
    if i == 0 then 1.0 else TaylorTerm(z, i - 1) * z / i as real
  }

  /** The first `n` terms of the exponential series at `z`. */
  ghost function TaylorSum(z: real, n: nat): real {
    if n == 0 then 0.0 else TaylorSum(z, n - 1) + TaylorTerm(z, n - 1)
  }

  /** What a term is measured against: factor * den * z^i / i!, for z = x / den. */
  ghost function TermBound(factor: nat, x: nat, den: nat, i: nat): real
    requires den > 0
  {
    (factor * den) as real * TaylorTerm(x as real / den as real, i)
  }

  lemma {:induction false} TermBelowTaylor(factor: nat, x: nat, den: nat, i: nat)
    requires den > 0
    ensures Term(factor, x, den, i) as real <= TermBound(factor, x, den, i)
  {
    if i == 0 {
      assert TaylorTerm(x as real / den as real, 0) == 1.0;
    } else {
      hide TermBound, Next;
      TermBelowTaylor(factor, x, den, i - 1);
      BoundStep(factor, x, den, i, Term(factor, x, den, i - 1));
    }
  }

  lemma BoundStep(factor: nat, x: nat, den: nat, i: nat, t: nat)
    requires den > 0 && i > 0 && t as real <= TermBound(factor, x, den, i - 1)
    ensures Next(t, x, den, i) as real <= TermBound(factor, x, den, i)
  {
    hide Next, TaylorTerm;
    var z := x as real / den as real;
    NextBelow(t, x, den, i, (factor * den) as real, TaylorTerm(z, i - 1));
    TaylorUnfolds(z, i);
  }

  lemma TaylorUnfolds(z: real, i: nat)
    requires i > 0
    ensures TaylorTerm(z, i) == TaylorTerm(z, i - 1) * z / i as real
  {
  }

  lemma NextBelow(t: nat, x: nat, den: nat, i: nat, c: real, b: real)
    requires den > 0 && i > 0 && t as real <= c * b
    ensures Next(t, x, den, i) as real <= c * (b * (x as real / den as real) / i as real)
  {
    MulPositive(den, i);
    FloorReal(t * x, den * i);
    assert (t * x) as real == t as real * x as real;
    assert (den * i) as real == den as real * i as real;
    TaylorStep(t as real, c * b, x as real, den as real, i as real);
    Scale(c, b, x as real / den as real, i as real);
  }

  lemma TaylorStep(t: real, b: real, x: real, den: real, i: real)
    requires t <= b && x >= 0.0 && den > 0.0 && i > 0.0
    ensures t * x / (den * i) <= b * (x / den) / i
  {
    var z := x / den;
    assert z * den == x;
    var y := b * z / i;
    assert y * i == b * z;
    RealMulMonotone(t, b, x);
    assert y * (den * i) == b * x by {
      assert y * (den * i) == y * i * den == b * z * den == b * (z * den);
    }
    RealDivUpper(y, t * x, den * i);
  }

  lemma Scale(c: real, a: real, z: real, i: real)
    requires i > 0.0
    ensures c * a * z / i == c * (a * z / i)
  {
    var q := a * z / i;
    assert q * i == a * z;
    assert c * q * i == c * a * z;
  }

  /** What a partial sum is measured against. */
  ghost function PartialBound(factor: nat, x: nat, den: nat, n: nat): real
    requires den > 0
  {
    (factor * den) as real * TaylorSum(x as real / den as real, n)
  }

  lemma PartialBoundGrows(factor: nat, x: nat, den: nat, n: nat)
    requires den > 0 && n > 0
    ensures PartialBound(factor, x, den, n)
         == PartialBound(factor, x, den, n - 1) + TermBound(factor, x, den, n - 1)
  {
    hide TaylorTerm;
    var z := x as real / den as real;
    Distribute((factor * den) as real, TaylorSum(z, n - 1), TaylorTerm(z, n - 1));
    assert TaylorSum(z, n) == TaylorSum(z, n - 1) + TaylorTerm(z, n - 1);
  }

  lemma {:induction false} PartialBelowTaylor(factor: nat, x: nat, den: nat, n: nat)
    requires den > 0
    ensures Partial(factor, x, den, n) as real <= PartialBound(factor, x, den, n)
  {
    hide TermBound, Term;
    if n == 0 {
      assert TaylorSum(x as real / den as real, 0) == 0.0;
    } else {
      hide PartialBound;
      PartialBelowTaylor(factor, x, den, n - 1);
      TermBelowTaylor(factor, x, den, n - 1);
      PartialBoundGrows(factor, x, den, n);
    }
  }

  lemma Distribute(c: real, a: real, b: real)
    ensures c * (a + b) == c * a + c * b
  {
  }

  /** Truncation only loses: the fee never exceeds the exact series it approximates. */
  lemma FeeBelowTaylor(x: nat, r: nat, n: nat)
    requires FakeExponential(1, x, BLOB_BASE_FEE_UPDATE_FRACTION, r)
    requires Vanishes(1, x, BLOB_BASE_FEE_UPDATE_FRACTION, n)
    ensures r as real <= TaylorSum(x as real / BLOB_BASE_FEE_UPDATE_FRACTION as real, n)
  {
    var den := BLOB_BASE_FEE_UPDATE_FRACTION;
    var p := Partial(1, x, den, n);
    FakeExponentialUnique(1, x, den, r, p / den);
    PartialBelowTaylor(1, x, den, n);
    FloorReal(p, den);
    var d := den as real;
    var t := TaylorSum(x as real / d, n);
    assert p as real <= d * t;
    assert p as real / d <= t by {
      RealDivUpper(t, p as real, d);
    }
  }

  // ----- the loop, spelled out -----

  function Total(a: seq<nat>): nat {
    if a == [] then 0 else Total(a[..|a| - 1]) + a[|a| - 1]
  }

  /** The terms of the standard's loop: each is the one before times `num` over `den * i`, rounded down. */
  ghost predicate AreTerms(a: seq<nat>, factor: nat, num: nat, den: nat) {
    && a != [] && a[0] == factor * den
    && forall i | 0 < i < |a| :: a[i] * (den * i) <= a[i - 1] * num < (a[i] + 1) * (den * i)
  }

  lemma TermSpelled(accum: nat, num: nat, den: nat, i: nat)
    requires den > 0 && i > 0
    ensures var t := Next(accum, num, den, i);
            t * (den * i) <= accum * num < (t + 1) * (den * i)
  {
    var d := den * i;
    MulPositive(den, i);
    DivBounds(accum * num, d);
    var t := accum * num / d;
    assert (t + 1) * d == t * d + d && d * t == t * d;
  }

  lemma {:induction false} TermsListed(factor: nat, num: nat, den: nat, n: nat) returns (a: seq<nat>)
    requires den > 0
    ensures |a| == n + 1 && AreTerms(a, factor, num, den)
    ensures a[n] == Term(factor, num, den, n) && Total(a[..n]) == Partial(factor, num, den, n)
  {
    hide Next;
    if n == 0 {
      a := [factor * den];
    } else {
      var before := TermsListed(factor, num, den, n - 1);
      TermSpelled(before[n - 1], num, den, n);
      a := before + [Term(factor, num, den, n)];
      TermsSnoc(before, a[n], factor, num, den);
      assert a[..n] == before && before[..n - 1] + [before[n - 1]] == before;
    }
  }

  lemma TermsSnoc(a: seq<nat>, t: nat, factor: nat, num: nat, den: nat)
    requires AreTerms(a, factor, num, den)
    requires t * (den * |a|) <= a[|a| - 1] * num < (t + 1) * (den * |a|)
    ensures AreTerms(a + [t], factor, num, den)
  {
    var b := a + [t];
    forall i | 0 < i < |b|
      ensures b[i] * (den * i) <= b[i - 1] * num < (b[i] + 1) * (den * i)
    {
      if i < |a| {
        assert b[i] == a[i] && b[i - 1] == a[i - 1];
      }
    }
  }

  /** A blob fee is the sum of those terms up to one that vanishes, over the fraction, rounded down. */
  lemma FeeSpelled(excess: nat, fee: nat) returns (a: seq<nat>)
    requires FakeExponential(1, excess, BLOB_BASE_FEE_UPDATE_FRACTION, fee)
    ensures AreTerms(a, 1, excess, 3338477) && a[|a| - 1] == 0
    ensures fee * 3338477 <= Total(a) < (fee + 1) * 3338477
  {
    hide Term, Partial, AreTerms;
    var n: nat :| Vanishes(1, excess, BLOB_BASE_FEE_UPDATE_FRACTION, n)
               && fee == Partial(1, excess, BLOB_BASE_FEE_UPDATE_FRACTION, n) / BLOB_BASE_FEE_UPDATE_FRACTION;
    a := TermsListed(1, excess, BLOB_BASE_FEE_UPDATE_FRACTION, n);
    assert a == a[..n] + [a[n]];
  }
}
