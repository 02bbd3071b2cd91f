/** Facts about floor division and products that the fee proofs lean on. */
module Arithmetic {

  function Max(a: int, b: int): (m: int)
    ensures m >= a && m >= b && (m == a || m == b)
  {
    if a > b then a else b
  }

  /** JavaScript bigint division drops the fraction towards zero. */
  function TruncDiv(a: int, b: int): int
    requires b > 0
  {
    if a >= 0 then a / b else -((-a) / b)
  }

  lemma TruncDivMonotone(a: int, b: int, d: int)
    requires d > 0 && a <= b
    ensures TruncDiv(a, d) <= TruncDiv(b, d)
  {
    if a >= 0 {
      DivMonotone(a, b, d);
    } else if b < 0 {
      DivMonotone(-b, -a, d);
    } else {
      DivNonNegative(-a, d);
      DivNonNegative(b, d);
    }
  }

  lemma MulMonotone(a: int, b: int, c: int)
    requires a <= b && 0 <= c
    ensures a * c <= b * c
  {
  }

  lemma MulPositive(a: int, b: int)
    requires a > 0 && b > 0
    ensures a * b > 0
  {
  }

  lemma DivBounds(a: int, d: int)
    requires d > 0
    ensures d * (a / d) <= a < d * (a / d) + d
  {
  }

  /** `a / d` is the largest `q` with `q * d <= a`. */
  lemma DivLeast(a: int, d: int, q: int)
    requires d > 0
    ensures q <= a / d <==> q * d <= a
  {
    var p := a / d;
    DivBounds(a, d);
    if q <= p {
      MulMonotone(q, p, d);
    } else {
      MulMonotone(p + 1, q, d);
    }
  }

  lemma DivMonotone(a: int, b: int, d: int)
    requires d > 0 && a <= b
    ensures a / d <= b / d
  {
    DivBounds(a, d);
    DivLeast(b, d, a / d);
  }

  lemma DivNonNegative(a: int, d: int)
    requires d > 0 && a >= 0
    ensures a / d >= 0
  {
  }

  /** Taking `e` parts of `t` out of `b` leaves at most `b`. */
  lemma PartAtMost(b: nat, e: nat, t: nat)
    requires t > 0 && e <= t
    ensures 0 <= b * e / t <= b
  {
    MulMonotone(e, t, b);
    assert b * e <= b * t;
    DivLeast(b * e, t, b + 1);
    assert (b + 1) * t == b * t + t;
    DivNonNegative(b * e, t);
  }

  // ----- powers -----

  function Pow(b: nat, n: nat): nat {
    if n == 0 then 1 else Pow(b, n - 1) * b
  }

  lemma {:induction false} PowPositive(b: nat, n: nat)
    requires b > 0
    ensures Pow(b, n) > 0
  {
    if n == 0 {
    } else {
      PowPositive(b, n - 1);
      MulPositive(Pow(b, n - 1), b);
    }
  }

  // ----- reals -----

  lemma RealMulMonotone(a: real, b: real, c: real)
    requires a <= b && 0.0 <= c
    ensures a * c <= b * c
  {
  }

  /** A factor between zero and one only shrinks. */
  lemma RealShrink(q: real, r: real)
    requires 0.0 <= q && 0.0 <= r <= 1.0
    ensures 0.0 <= q * r <= q
  {
    RealMulMonotone(0.0, q, r);
    assert 0.0 <= q * r;
    RealMulMonotone(r, 1.0, q);
    assert q * r <= q;
  }

  lemma RealMulOrder(q: real, p: real, d: real)
    requires d > 0.0 && q * d <= p * d
    ensures q <= p
  {
  }

  lemma RealDivLower(q: real, a: real, d: real)
    requires d > 0.0 && q * d <= a
    ensures q <= a / d
  {
    var p := a / d;
    assert p * d == a;
    RealMulOrder(q, p, d);
  }

  lemma RealDivUpper(q: real, a: real, d: real)
    requires d > 0.0 && a <= q * d
    ensures a / d <= q
  {
    var p := a / d;
    assert p * d == a;
    RealMulOrder(p, q, d);
  }

  /** Floor division loses less than one. */
  lemma FloorReal(a: int, d: int)
    requires d > 0
    ensures a as real / d as real - 1.0 <= (a / d) as real <= a as real / d as real
  {
    var q := a / d;
    DivBounds(a, d);
    assert q as real * d as real == (q * d) as real;
    RealDivLower(q as real, a as real, d as real);
    assert (q + 1) as real * d as real == ((q + 1) * d) as real;
    RealDivUpper((q + 1) as real, a as real, d as real);
  }
}
