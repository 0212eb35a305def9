/**
 Positional numerals, as `format!` writes them: plain decimal and zero-padded
 hexadecimal. What identifiers built from them need is that the text determines
 the number and contains none of the separators used around it.
 */
module Numerals {

  datatype Radix = Dec | Hex {
    function Quotient(n: nat): nat { if Dec? then n / 10 else n / 16 }
    function Remainder(n: nat): nat { if Dec? then n % 10 else n % 16 }
    function Times(n: nat): (product: nat)
      ensures this == Dec ==> product == 10 * n
      ensures this == Hex ==> product == 16 * n
    {
      if Dec? then n * 10 else n * 16
    }
  }

  function Digit(d: nat): (c: char)
    requires d < 16
    ensures c != ':' && c != '-'
  {
    if d < 10 then '0' + d as char else 'a' + (d - 10) as char
  }

  function DigitValue(c: char): nat {
    if '0' <= c <= '9' then (c - '0') as nat
    else if 'a' <= c <= 'f' then (c - 'a') as nat + 10
    else 0
  }

  /** The digits of `n`, most significant first. */
  function Digits(n: nat, radix: Radix): (s: string)
    ensures |s| > 0
    ensures ':' !in s && '-' !in s
  {
    if radix.Quotient(n) == 0 then [Digit(radix.Remainder(n))]
    else Digits(radix.Quotient(n), radix) + [Digit(radix.Remainder(n))]
  }

  function Zeros(n: nat): (s: string)
    ensures |s| == n && forall i :: 0 <= i < n ==> s[i] == '0'
  {
    seq(n, _ => '0')
  }

  /** `{:0<width>}` formatting: zeros are added up to the width, never dropped. */
  function Padded(n: nat, width: nat, radix: Radix): (s: string)
    ensures ':' !in s && '-' !in s
  {
    var digits := Digits(n, radix);
    Zeros(if |digits| < width then width - |digits| else 0) + digits
  }

  function Value(s: string, radix: Radix): nat {
    if s == [] then 0 else radix.Times(Value(s[..|s| - 1], radix)) + DigitValue(s[|s| - 1])
  }

  lemma {:induction false} ValueOfDigits(n: nat, radix: Radix)
    ensures Value(Digits(n, radix), radix) == n
  {
    var q, last := radix.Quotient(n), Digit(radix.Remainder(n));
    assert DigitValue(last) == radix.Remainder(n);
    if q == 0 {
      assert [last][..0] == [];
    } else {
      ValueOfDigits(q, radix);
      assert (Digits(q, radix) + [last])[..|Digits(q, radix)|] == Digits(q, radix);
    }
  }

  lemma {:induction false} ValueOfPadding(k: nat, s: string, radix: Radix)
    ensures Value(Zeros(k) + s, radix) == Value(s, radix)
    decreases |s|, k
  {
    var t := Zeros(k) + s;
    if s == [] {
      if k > 0 {
        assert t[..|t| - 1] == Zeros(k - 1) + s;
        ValueOfPadding(k - 1, s, radix);
      }
    } else {
      assert t[..|t| - 1] == Zeros(k) + s[..|s| - 1];
      ValueOfPadding(k, s[..|s| - 1], radix);
    }
  }

  const DIGITS := "0123456789abcdef"

  lemma DigitIs(d: nat)
    requires d < 16
    ensures Digit(d) == DIGITS[d] && DigitValue(DIGITS[d]) == d
  {
  }

  /** Only digits of the radix. */
  predicate AreDigits(s: string, base: nat)
    requires base <= 16
  {
    forall i | 0 <= i < |s| :: s[i] in DIGITS[..base]
  }

  /** A numeral has the value of its number, in its own digits, and no zero in front but that of zero itself. */
  lemma {:induction false} NumeralReads(n: nat, radix: Radix)
    ensures Value(Digits(n, radix), radix) == n && AreDigits(Digits(n, radix), if radix == Dec then 10 else 16)
    ensures Digits(n, radix)[0] == '0' ==> n == 0 && Digits(n, radix) == "0"
  {
    ValueOfDigits(n, radix);
    var q, r, base := radix.Quotient(n), radix.Remainder(n), if radix == Dec then 10 else 16;
    DigitIs(r);
    assert DIGITS[r] == DIGITS[..base][r];
    if q != 0 { NumeralReads(q, radix); }
  }

  /** Padding keeps the value and adds zeros up to the width only. */
  lemma PaddedReads(n: nat, width: nat, radix: Radix)
    ensures Value(Padded(n, width, radix), radix) == n
    ensures AreDigits(Padded(n, width, radix), if radix == Dec then 10 else 16)
    ensures |Padded(n, width, radix)| >= width
    ensures |Padded(n, width, radix)| > width && n > 0 ==> Padded(n, width, radix)[0] != '0'
  {
    var digits := Digits(n, radix);
    NumeralReads(n, radix);
    ValueOfPadding(if |digits| < width then width - |digits| else 0, digits, radix);
    assert DIGITS[..10][0] == '0' && DIGITS[..16][0] == '0';
  }

  /** A padded numeral determines its number. */
  lemma PaddedInjective(m: nat, n: nat, width: nat, radix: Radix)
    requires Padded(m, width, radix) == Padded(n, width, radix)
    ensures m == n
  {
    hide *;
    PaddedReads(m, width, radix);
    PaddedReads(n, width, radix);
  }

  function Decimal(n: nat): string {
    Digits(n, Dec)
  }

  lemma DecimalInjective(m: nat, n: nat)
    requires Decimal(m) == Decimal(n)
    ensures m == n
  {
    ValueOfDigits(m, Dec);
    ValueOfDigits(n, Dec);
  }

  /** A signed decimal, for the protocol's numeric request ids. */
  function SignedDecimal(n: int): string {
    if n < 0 then "-" + Decimal(-n) else Decimal(n)
  }
}
