/**
  `Number(text)` of ECMA-262, section 7.1.4.1, for texts without whitespace, as
  far as the parser can tell results apart: the value, if it is a non-negative
  integer. The value of a text is exact until it is rounded to a double.
*/
module Numerals {
  import opened Prelude
  import opened Text
  import opened Division

  function Pow(base: nat, n: nat): (r: nat)
    requires base > 0
    ensures r > 0
  {
    if n == 0 then 1 else base * Pow(base, n - 1)
  }

  // The largest power of two up to `n` is 2 to the power of this.
  function Log2(n: nat): (e: nat)
    requires n > 0
    ensures Pow(2, e) <= n < 2 * Pow(2, e)
  {
    if n == 1 then 0 else 1 + Log2(n / 2)
  }

  // ---- rounding to a double -------------------------------------------------

  // 2^53: integers below it are doubles.
  const MANTISSA_LIMIT := 0x20_0000_0000_0000

  function RoundHalfEven(num: nat, den: nat): nat
    requires den > 0
  {
    var q, r := num / den, num % den;
    if 2 * r < den then q else if 2 * r > den then q + 1 else q + q % 2
  }

  // The double nearest to num / den, ties to even, if it is an integer. Below
  // one only zero and one are integers; from 2^53 on every finite double is one.
  function IntegerDouble(num: nat, den: nat): Option<nat>
    requires den > 0
  {
    if num < den then
      if num == 0 || Log2(den / num) >= 1075 then Some(0)
      else if 2 * num * MANTISSA_LIMIT >= den * (2 * MANTISSA_LIMIT - 1) then Some(1)
      else None
    else
      var e := Log2(num / den);
      if e <= 52 then
        var ulps := Pow(2, 52 - e);
        NonNegativeProduct(num, ulps);
        var m := RoundHalfEven(num * ulps, den);
        if m % ulps == 0 then Some(m / ulps) else None
      else
        var ulp := Pow(2, e - 52);
        PositiveProduct(den, ulp);
        var m := RoundHalfEven(num, den * ulp);
        NonNegativeProduct(m, ulp);
        if e > 1023 || (e == 1023 && m == MANTISSA_LIMIT) then None else Some(m * ulp)
  }

  // The integer has a finite double.
  predicate IsFinite(n: nat) {
    IntegerDouble(n, 1).Some?
  }

  // ---- reading a text -------------------------------------------------------

  function RadixDigit(c: char): Option<nat> {
    if '0' <= c <= '9' then Some(c as int - '0' as int)
    else if 'a' <= c <= 'f' then Some(c as int - 'a' as int + 10)
    else if 'A' <= c <= 'F' then Some(c as int - 'A' as int + 10)
    else None
  }

  function RadixValue(s: string, radix: nat): Option<nat>
    requires radix in {2, 8, 16}
  {
    if s == "" then Some(0) else
    var front, last := RadixValue(s[..|s| - 1], radix), RadixDigit(s[|s| - 1]);
    if front.None? || last.None? || last.value >= radix then None
    else
      NonNegativeProduct(radix, front.value);
      Some(radix * front.value + last.value)
  }

  function RadixOf(s: string): (r: Option<nat>)
    ensures r.Some? ==> |s| >= 2 && r.value in {2, 8, 16}
  {
    if |s| < 2 || s[0] != '0' then None
    else if s[1] in {'x', 'X'} then Some(16)
    else if s[1] in {'o', 'O'} then Some(8)
    else if s[1] in {'b', 'B'} then Some(2)
    else None
  }

  function Digits(s: string): Option<nat> {
    if s != "" && AllDigits(s) then Some(DecimalValue(s)) else None
  }

  // Digits with an optional sign.
  function SignedDigits(s: string): Option<int> {
    var signed := s != "" && s[0] in {'+', '-'};
    var d := Digits(if signed then s[1..] else s);
    if d.None? then None
    else
      var value: int := d.value;
      Some(if signed && s[0] == '-' then -value else value)
  }

  // Where the exponent part starts, or the length of the text.
  function ExponentAt(s: string): (i: nat)
    ensures i <= |s|
  {
    if s == "" || s[0] in {'e', 'E'} then 0 else 1 + ExponentAt(s[1..])
  }

  // Integer digits, or digits around a point of which one side may be empty;
  // the value is the first number, scaled down by as many tens as the second says.
  function Mantissa(s: string): Option<(nat, nat)> {
    var dot := IndexOf(s, '.');
    var whole, fraction := if dot < 0 then s else s[..dot], if dot < 0 then "" else s[dot + 1..];
    var d := Digits(whole + fraction);
    if d.None? then None else Some((d.value, |fraction|))
  }

  // The double nearest to the digits times ten to the power `shift`, if it is an integer.
  function Shifted(digits: nat, shift: int): Option<nat> {
    if shift < 0 then IntegerDouble(digits, Pow(10, -shift))
    else
      NonNegativeProduct(digits, Pow(10, shift));
      IntegerDouble(digits * Pow(10, shift), 1)
  }

  function UnsignedDecimal(s: string): Option<nat> {
    var e := ExponentAt(s);
    var mantissa := Mantissa(s[..e]);
    var exponent := if e == |s| then Some(0) else SignedDigits(s[e + 1..]);
    if mantissa.None? || exponent.None? then None
    else Shifted(mantissa.value.0, exponent.value - mantissa.value.1)
  }

  // The number, if it is a non-negative integer; the empty text is zero. Not a
  // number, infinities, fractions and negative numbers are all `None`.
  function Number(s: string): Option<nat> {
    if s == "" then Some(0)
    else if RadixOf(s).Some? then
      var n := if |s| == 2 then None else RadixValue(s[2..], RadixOf(s).value);
      if n.None? then None else IntegerDouble(n.value, 1)
    else if s[0] == '-' then None
    else UnsignedDecimal(if s[0] == '+' then s[1..] else s)
  }

  // ---- printed numbers ------------------------------------------------------

  lemma PowSum(a: nat, b: nat)
    ensures Pow(2, a + b) == Pow(2, a) * Pow(2, b)
  {
    if a == 0 {
    } else {
      PowSum(a - 1, b);
      assert Pow(2, a + b) == 2 * Pow(2, a - 1 + b);
    }
  }

  lemma PowMonotone(a: nat, b: nat)
    requires a <= b
    ensures Pow(2, a) <= Pow(2, b)
  {
    if a < b {
      PowMonotone(a, b - 1);
    }
  }

  lemma MantissaPower()
    ensures Pow(2, 53) == MANTISSA_LIMIT
  {
    assert Pow(2, 13) == 0x2000;
    PowSum(13, 13);
    PowSum(26, 26);
    PowSum(52, 1);
  }

  /** Integers below 2^53 are doubles. */
  lemma SmallIsExact(n: nat)
    requires n < MANTISSA_LIMIT
    ensures IntegerDouble(n, 1) == Some(n)
  {
    if n > 0 {
      var e := Log2(n);
      MantissaPower();
      if e > 52 {
        PowMonotone(53, e);
      }
      MultipleOf(n, Pow(2, 52 - e));
      assert n / 1 == n;
    }
  }

  /** A larger integer is rounded, or infinite, but never below 2^53. */
  lemma LargeStaysLarge(n: nat)
    requires n >= MANTISSA_LIMIT
    ensures IsFinite(n) ==> IntegerDouble(n, 1).value >= MANTISSA_LIMIT
  {
    var e := Log2(n);
    MantissaPower();
    if e <= 52 {
      PowMonotone(e + 1, 53);
      assert false;
    }
    PowMonotone(53, e);
    PowSum(52, e - 52);
    var d := Pow(2, e - 52);
    QuotientAtLeast(n, d, Pow(2, 52));
    MulMonotone(Pow(2, 52), RoundHalfEven(n, d), d);
  }

  lemma {:induction false} NoExponent(s: string)
    requires forall i :: 0 <= i < |s| ==> s[i] !in {'e', 'E'}
    ensures ExponentAt(s) == |s|
  {
    if s != "" {
      NoExponent(s[1..]);
    }
  }

  lemma DigitsOnly(s: string)
    requires s != "" && AllDigits(s)
    ensures ExponentAt(s) == |s| && Mantissa(s) == Some((DecimalValue(s), 0))
    ensures RadixOf(s).None? && s[0] !in {'+', '-'}
  {
    assert forall i :: 0 <= i < |s| ==> s[i] !in {'e', 'E', '.', 'x', 'X', 'o', 'O', 'b', 'B', '+', '-'};
    NoExponent(s);
    assert IndexOf(s, '.') == -1;
    assert s + "" == s;
  }

  lemma TimesOne(n: nat, k: nat)
    requires k == 0
    ensures n * Pow(10, k) == n
  {
  }

  lemma UnsignedDigits(s: string)
    requires s != "" && AllDigits(s)
    ensures UnsignedDecimal(s) == IntegerDouble(DecimalValue(s), 1)
  {
    DigitsOnly(s);
    assert s[..|s|] == s;
    TimesOne(DecimalValue(s), 0);
  }

  /** A printed number reads back as the double nearest to it. */
  lemma NumberOfDecimal(n: nat)
    ensures Number(Decimal(n)) == IntegerDouble(n, 1)
  {
    DigitsOnly(Decimal(n));
    UnsignedDigits(Decimal(n));
  }

  // ---- texts that are no number ---------------------------------------------

  // The characters that numerals are made of.
  predicate IsNumeralChar(c: char) {
    '0' <= c <= '9' || 'a' <= c <= 'f' || 'A' <= c <= 'F' || c in {'x', 'X', 'o', 'O', 'b', 'B', '+', '-', '.'}
  }

  lemma {:induction false} RadixRejects(s: string, radix: nat, i: nat)
    requires radix in {2, 8, 16} && i < |s| && !IsNumeralChar(s[i])
    ensures RadixValue(s, radix).None?
    decreases |s|
  {
    if i < |s| - 1 {
      RadixRejects(s[..|s| - 1], radix, i);
    }
  }

  lemma DigitsReject(s: string, i: nat)
    requires i < |s| && !IsDigit(s[i])
    ensures Digits(s).None?
  {
  }

  // Taking the point out of a text moves the characters behind it by one.
  lemma CharKept(s: string, dot: int, i: nat, whole: string, fraction: string, k: nat)
    requires -1 <= dot < |s| && i < |s| && i != dot
    requires whole == (if dot < 0 then s else s[..dot]) && fraction == if dot < 0 then "" else s[dot + 1..]
    requires k == if dot < 0 || i < dot then i else i - 1
    ensures k < |whole + fraction| && (whole + fraction)[k] == s[i]
  {
  }

  lemma MantissaRejects(s: string, i: nat)
    requires i < |s| && !IsNumeralChar(s[i])
    ensures Mantissa(s).None?
  {
    var dot := IndexOf(s, '.');
    var whole, fraction := if dot < 0 then s else s[..dot], if dot < 0 then "" else s[dot + 1..];
    var k := if dot < 0 || i < dot then i else i - 1;
    CharKept(s, dot, i, whole, fraction, k);
    DigitsReject(whole + fraction, k);
  }

  lemma SignedDigitsReject(s: string, i: nat)
    requires i < |s| && !IsNumeralChar(s[i])
    ensures SignedDigits(s).None?
  {
    if s[0] in {'+', '-'} {
      DigitsReject(s[1..], i - 1);
    } else {
      DigitsReject(s, i);
    }
  }

  lemma {:induction false} ExponentChar(s: string)
    ensures ExponentAt(s) < |s| ==> s[ExponentAt(s)] in {'e', 'E'}
  {
    if s != "" && s[0] !in {'e', 'E'} {
      ExponentChar(s[1..]);
    }
  }

  lemma DecimalRejects(s: string, i: nat)
    requires i < |s| && !IsNumeralChar(s[i])
    ensures UnsignedDecimal(s).None?
  {
    var e := ExponentAt(s);
    if i < e {
      MantissaRejects(s[..e], i);
    } else if e < i {
      SignedDigitsReject(s[e + 1..], i - e - 1);
    } else {
      ExponentChar(s);
    }
  }

  /** A text with a character that no numeral has, such as the name of a month, is not a number. */
  lemma NotANumber(s: string, i: nat)
    requires i < |s| && !IsNumeralChar(s[i])
    ensures Number(s).None?
  {
    if RadixOf(s).Some? {
      if |s| > 2 && i >= 2 {
        RadixRejects(s[2..], RadixOf(s).value, i - 2);
      }
    } else if s[0] == '+' {
      DecimalRejects(s[1..], i - 1);
    } else {
      DecimalRejects(s, i);
    }
  }
}
