/**
 The parts of Go's strconv that the query builder relies on: decimal formatting and parsing
 of 64-bit signed integers. Atoi saturates on overflow (its error is discarded by the caller),
 and machine addition wraps around.
 */
module Strconv {

  const MAX_INT: int := 0x7FFF_FFFF_FFFF_FFFF

  predicate IsDigit(c: char) {
    '0' <= c <= '9'
  }

  predicate AllDigits(s: string) {
    forall i :: 0 <= i < |s| ==> IsDigit(s[i])
  }

  function DigitValue(c: char): nat
    requires IsDigit(c)
  {
    (c as int) - ('0' as int)
  }

  function DigitChar(d: nat): (c: char)
    requires d < 10
    ensures IsDigit(c) && DigitValue(c) == d
  {
    ('0' as int + d) as char
  }

  /** The exact value of the first n digits of s; leading zeros do not matter. */
  function DecValue(s: string, n: nat): nat
    requires AllDigits(s) && n <= |s|
  {
    if n == 0 then 0 else 10 * DecValue(s, n - 1) + DigitValue(s[n - 1])
  }

  function FormatNat(n: nat): (s: string)
    ensures AllDigits(s) && s != ""
  {
    if n < 10 then [DigitChar(n)] else FormatNat(n / 10) + [DigitChar(n % 10)]
  }

  /** strconv.Itoa */
  function Itoa(n: int): (s: string)
    ensures s != ""
  {
    if n < 0 then "-" + FormatNat(-n) else FormatNat(n)
  }

  /** The value strconv.Atoi returns for a digit string, its range error being ignored. */
  function Atoi(s: string): (n: nat)
    requires AllDigits(s)
    ensures n <= MAX_INT
  {
    if DecValue(s, |s|) > MAX_INT then MAX_INT else DecValue(s, |s|)
  }

  /** Addition on Go's 64-bit int: wraps around. */
  function AddInt(a: int, b: int): (r: int)
    ensures -MAX_INT - 1 <= r <= MAX_INT
    ensures -MAX_INT - 1 <= a + b <= MAX_INT ==> r == a + b
  {
    (a + b + MAX_INT + 1) % (2 * (MAX_INT + 1)) - MAX_INT - 1
  }

  lemma {:induction false} DecValuePrefix(s: string, t: string, n: nat)
    requires AllDigits(s) && AllDigits(s + t) && n <= |s|
    ensures DecValue(s + t, n) == DecValue(s, n)
  {
    if n > 0 { DecValuePrefix(s, t, n - 1); }
  }

  lemma {:induction false} DecValueOfFormat(n: nat)
    ensures DecValue(FormatNat(n), |FormatNat(n)|) == n
  {
    if n >= 10 {
      var s, t := FormatNat(n / 10), [DigitChar(n % 10)];
      DecValueOfFormat(n / 10);
      DecValuePrefix(s, t, |s|);
      assert (s + t)[|s|] == DigitChar(n % 10);
    } else {
      assert DecValue([DigitChar(n)], 0) == 0;
    }
  }

  /** Formatting then parsing gives the number back, and so formatting is injective. */
  lemma AtoiOfItoa(n: nat)
    requires n < 0x8000_0000_0000_0000
    ensures AllDigits(Itoa(n)) && Atoi(Itoa(n)) == n
  {
    DecValueOfFormat(n);
  }

  lemma DigitIs(c: char)
    requires IsDigit(c)
    ensures "0123456789"[DigitValue(c)] == c
  {
  }

  /** What a digit string denotes: base ten, most significant digit first, cut off at the largest int. */
  lemma AtoiIsDecimal(s: string, c: char, d: nat)
    requires AllDigits(s) && d < 10 && c == "0123456789"[d]
    ensures Atoi("") == 0 && AllDigits(s + [c])
    ensures Atoi(s + [c]) == if 10 * Atoi(s) + d < 0x8000_0000_0000_0000 then 10 * Atoi(s) + d else 0x7FFF_FFFF_FFFF_FFFF
  {
    assert IsDigit(c) && DigitValue(c) == d;
    DecValuePrefix(s, [c], |s|);
    assert (s + [c])[|s|] == c;
  }

  /** Past the largest int addition continues at the smallest. */
  lemma AddIntWraps(a: nat, b: nat)
    requires a < 0x8000_0000_0000_0000 && b < 0x8000_0000_0000_0000
    ensures AddInt(a, b) == if a + b < 0x8000_0000_0000_0000 then a + b else a + b - 0x1_0000_0000_0000_0000
  {
  }

  lemma FormatNatInjective(m: nat, n: nat)
    requires FormatNat(m) == FormatNat(n)
    ensures m == n
  {
    DecValueOfFormat(m);
    DecValueOfFormat(n);
  }
}
