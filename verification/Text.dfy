/** Decimal renderings and ASCII case folding, as far as keys and identifiers need them. */
module Text {

  function Digit(d: nat): char
    requires d < 10
  {
    "0123456789"[d]
  }

  function DecimalNat(n: nat): (s: string)
    ensures s != [] && '0' <= s[0] <= '9' && (|s| == 1 <==> n < 10)
    ensures forall c | c in s :: '0' <= c <= '9'
  {
    if n < 10 then [Digit(n)] else DecimalNat(n / 10) + [Digit(n % 10)]
  }

  /** `toString()` of a bigint. */
  function Decimal(n: int): (s: string)
    ensures s != []
  {
    if n < 0 then "-" + DecimalNat(-n) else DecimalNat(n)
  }

  lemma {:induction false} DecimalNatInjective(m: nat, n: nat)
    requires DecimalNat(m) == DecimalNat(n)
    ensures m == n
  {
    var s, t := DecimalNat(m), DecimalNat(n);
    if m >= 10 && n >= 10 {
      assert s[..|s| - 1] == DecimalNat(m / 10) && t[..|t| - 1] == DecimalNat(n / 10);
      assert s[|s| - 1] == Digit(m % 10) && t[|t| - 1] == Digit(n % 10);
      DecimalNatInjective(m / 10, n / 10);
    } else if m < 10 && n < 10 {
      assert s[0] == Digit(m) && t[0] == Digit(n);
    }
  }

  /** A decimal as `toString()` writes it: digits, no leading zero. */
  predicate IsDecimal(s: string) {
    && s != []
    && (forall i | 0 <= i < |s| :: '0' <= s[i] <= '9')
    && (s[0] == '0' ==> |s| == 1)
  }

  lemma {:induction false} DecimalNatIsDecimal(n: nat)
    ensures IsDecimal(DecimalNat(n))
    ensures n > 0 ==> DecimalNat(n)[0] != '0'
  {
    if n < 10 {
    } else {
      DecimalNatIsDecimal(n / 10);
    }
  }

  lemma DecimalSnoc(m: nat, d: nat)
    requires m > 0 && d < 10
    ensures DecimalNat(m * 10 + d) == DecimalNat(m) + [Digit(d)]
  {
    assert (m * 10 + d) / 10 == m && (m * 10 + d) % 10 == d;
  }

  lemma DigitOf(c: char) returns (d: nat)
    requires '0' <= c <= '9'
    ensures d < 10 && Digit(d) == c && (d == 0 <==> c == '0')
  {
    d := (c - '0') as int;
  }

  /** And every such text is written for some number. */
  lemma {:induction false} DecimalNatOnto(s: string) returns (n: nat)
    requires IsDecimal(s)
    ensures DecimalNat(n) == s
    ensures n == 0 ==> s == "0"
  {
    hide Digit;
    var last := s[|s| - 1];
    var d := DigitOf(last);
    if |s| == 1 {
      n := d;
    } else {
      var m := DecimalNatOnto(s[..|s| - 1]);
      n := m * 10 + d;
      DecimalSnoc(m, d);
      assert s == s[..|s| - 1] + [last];
    }
  }

  function LowerChar(c: char): char {
    if 'A' <= c <= 'Z' then (c - 'A') + 'a' else c
  }

  function Lower(s: string): string {
    seq(|s|, i requires 0 <= i < |s| => LowerChar(s[i]))
  }

  /** The same text but for the case of ASCII letters. */
  predicate SameIgnoringCase(a: string, b: string) {
    && |a| == |b|
    && forall i | 0 <= i < |a| ::
         || a[i] == b[i]
         || ('A' <= a[i] <= 'Z' && b[i] as int == a[i] as int + 32)
         || ('A' <= b[i] <= 'Z' && a[i] as int == b[i] as int + 32)
  }

  lemma LowerFoldsCase(a: string, b: string)
    ensures Lower(a) == Lower(b) <==> SameIgnoringCase(a, b)
  {
    if Lower(a) == Lower(b) {
      forall i | 0 <= i < |a|
        ensures LowerChar(a[i]) == LowerChar(b[i])
      {
        assert Lower(a)[i] == Lower(b)[i];
      }
    }
  }

  /** The number a text of digits writes. */
  function DigitsValue(s: string): int {
    if s == [] then 0 else 10 * DigitsValue(s[..|s| - 1]) + (s[|s| - 1] as int - '0' as int)
  }

  lemma {:induction false} DigitsRead(n: nat)
    ensures DigitsValue(DecimalNat(n)) == n
  {
    var s := DecimalNat(n);
    if n < 10 {
      assert s == [Digit(n)] && s[..0] == [];
      assert Digit(n) as int == '0' as int + n;
    } else {
      DigitsRead(n / 10);
      assert s[..|s| - 1] == DecimalNat(n / 10) && s[|s| - 1] == Digit(n % 10);
      assert Digit(n % 10) as int == '0' as int + n % 10;
    }
  }

  /** A decimal is the digits of its number, after a minus sign if there is one. */
  lemma DecimalReads(n: int)
    ensures n >= 0 ==> IsDecimal(Decimal(n)) && DigitsValue(Decimal(n)) == n
    ensures n < 0 ==> Decimal(n)[0] == '-' && IsDecimal(Decimal(n)[1..]) && DigitsValue(Decimal(n)[1..]) == -n
  {
    hide DigitsValue, IsDecimal;
    var m := if n < 0 then -n else n;
    DigitsRead(m);
    DecimalNatIsDecimal(m);
    if n < 0 {
      assert Decimal(n)[1..] == DecimalNat(m);
    }
  }

  /** The folded text: the same letters, none of them a capital. */
  lemma LowerSpelled(s: string)
    ensures SameIgnoringCase(Lower(s), s) && forall c | c in Lower(s) :: !('A' <= c <= 'Z')
  {
  }
}
