/**
 * Text primitives the C library supplies to the diagnostics code: the C
 * integer types that reach printf, C-string truncation at the first NUL, and
 * the decimal rendering of numbers.
 */
module Text {

  datatype Option<T> = None | Some(value: T)

  /** The ranges of the C integer types whose values are formatted. */
  type SizeT = n: nat | n < 0x1_0000_0000_0000_0000
  type UInt32 = n: nat | n < 0x1_0000_0000
  type Int32 = i: int | -0x8000_0000 <= i < 0x8000_0000

  /**
   * What `s.c_str()` shows to a C function that reads it as a
   * NUL-terminated string: everything before the first NUL character.
   */
  function CStr(s: string): string
  {
    if s == [] || s[0] == '\0' then [] else [s[0]] + CStr(s[1..])
  }

  /**
   * The shown text is the part of `s` before its first NUL: a prefix of
   * `s` without NUL, followed in `s` by a NUL unless it is all of `s`.
   */
  lemma {:induction false} CStrPrefix(s: string)
    ensures CStr(s) <= s
    ensures '\0' !in CStr(s)
    ensures |CStr(s)| < |s| ==> s[|CStr(s)|] == '\0'
  {
    if s != [] && s[0] != '\0' {
      CStrPrefix(s[1..]);
    }
  }

  /** A character absent from `s` is absent from what `s.c_str()` shows. */
  lemma CStrOmits(s: string, c: char)
    requires c !in s
    ensures c !in CStr(s)
  {
    CStrPrefix(s);
  }

  /** A string without NUL characters is shown unchanged. */
  lemma {:induction false} CStrOfPlain(s: string)
    requires '\0' !in s
    ensures CStr(s) == s
  {
    if s != [] {
      CStrOfPlain(s[1..]);
    }
  }

  predicate IsDigit(c: char) {
    '0' <= c <= '9'
  }

  predicate AllDigits(s: string) {
    forall i :: 0 <= i < |s| ==> IsDigit(s[i])
  }

  /** A decimal numeral as printf writes one: no leading zero except in "0". */
  predicate Canonical(s: string) {
    |s| >= 1 && AllDigits(s) && (s[0] == '0' ==> |s| == 1)
  }

  function DigitValue(c: char): (d: nat)
    requires IsDigit(c)
    ensures d < 10
  {
    (c as int) - ('0' as int)
  }

  function DigitChar(d: nat): (c: char)
    requires d < 10
    ensures IsDigit(c) && DigitValue(c) == d
  {
    (('0' as int) + d) as char
  }

  /** The number a string of decimal digits denotes (most significant first). */
  function DecimalValue(s: string): nat
    requires AllDigits(s)
  {
    if s == [] then 0 else 10 * DecimalValue(s[..|s| - 1]) + DigitValue(s[|s| - 1])
  }

  function Pow10(k: nat): (p: nat)
    ensures p >= 1
  {
    if k == 0 then 1 else 10 * Pow10(k - 1)
  }

  /** printf's `%u` / `%zu`: the shortest decimal numeral of n. */
  function NatToDecimal(n: nat): (s: string)
    ensures Canonical(s)
    ensures s == "0" <==> n == 0
  {
    if n < 10 then [DigitChar(n)] else NatToDecimal(n / 10) + [DigitChar(n % 10)]
  }

  /** printf's `%d`: a minus sign for negative numbers, then the magnitude. */
  function IntToDecimal(i: int): (s: string)
    ensures |s| >= 1
    ensures (s[0] == '-') <==> i < 0
  {
    if i < 0 then "-" + NatToDecimal(-i) else NatToDecimal(i)
  }

  /** printf's `%0<width>u`: n in decimal, left-padded with zeros to at least width digits. */
  function ZeroPadded(n: nat, width: nat): (s: string)
    ensures AllDigits(s) && |s| >= width
  {
    var digits := NatToDecimal(n);
    if |digits| >= width then digits else seq(width - |digits|, _ => '0') + digits
  }

  /** The value of a digit string ending in a known digit. */
  lemma DecimalValueSnoc(p: string, c: char)
    requires AllDigits(p) && IsDigit(c)
    ensures AllDigits(p + [c]) && DecimalValue(p + [c]) == 10 * DecimalValue(p) + DigitValue(c)
  {
    assert (p + [c])[..|p|] == p;
  }

  /** Leading zeros do not change a numeral's value. */
  lemma {:induction false} DecimalValueZeros(k: nat, s: string)
    requires AllDigits(s)
    ensures AllDigits(seq(k, _ => '0') + s)
    ensures DecimalValue(seq(k, _ => '0') + s) == DecimalValue(s)
  {
    var z := seq(k, _ => '0');
    if s == [] {
      ZerosValue(k);
      assert z + s == z;
    } else {
      var p := s[..|s| - 1];
      var c := s[|s| - 1];
      assert s == p + [c];
      assert z + s == (z + p) + [c];
      DecimalValueZeros(k, p);
      DecimalValueSnoc(z + p, c);
      DecimalValueSnoc(p, c);
    }
  }

  lemma {:induction false} ZerosValue(k: nat)
    ensures AllDigits(seq(k, _ => '0')) && DecimalValue(seq(k, _ => '0')) == 0
  {
    if k > 0 {
      var z := seq(k, _ => '0');
      assert z == seq(k - 1, _ => '0') + ['0'];
      ZerosValue(k - 1);
      DecimalValueSnoc(seq(k - 1, _ => '0'), '0');
    }
  }

  /** Reading the numeral printf writes gives back the number. */
  lemma {:induction false} DecimalRoundTrip(n: nat)
    ensures DecimalValue(NatToDecimal(n)) == n
  {
    if n >= 10 {
      DecimalRoundTrip(n / 10);
      DecimalValueSnoc(NatToDecimal(n / 10), DigitChar(n % 10));
    }
  }

  /** Conversely every canonical numeral is the one printf writes for its value. */
  lemma {:induction false} CanonicalRoundTrip(s: string)
    requires Canonical(s)
    ensures NatToDecimal(DecimalValue(s)) == s
  {
    if |s| == 1 {
      assert s == [s[0]];
      SingleDigit(s[0]);
    } else {
      var p := s[..|s| - 1];
      var c := s[|s| - 1];
      assert AllDigits(p) && p[0] == s[0] by {
        assert forall i :: 0 <= i < |p| ==> p[i] == s[i];
      }
      assert s == p + [c];
      CanonicalRoundTrip(p);
      CanonicalSnoc(p, c);
    }
  }

  lemma SingleDigit(c: char)
    requires IsDigit(c)
    ensures NatToDecimal(DecimalValue([c])) == [c]
  {
    assert [c][..0] == [];
    assert DigitChar(DigitValue(c)) == c;
  }

  /** One more digit after a canonical numeral printf writes for its value. */
  lemma {:induction false} CanonicalSnoc(p: string, c: char)
    requires Canonical(p) && p[0] != '0' && IsDigit(c)
    requires NatToDecimal(DecimalValue(p)) == p
    ensures NatToDecimal(DecimalValue(p + [c])) == p + [c]
  {
    var d := DigitValue(c);
    var v := DecimalValue(p);
    assert v != 0 by {
      assert NatToDecimal(v)[0] != '0';
    }
    DecimalValueSnoc(p, c);
    assert DecimalValue(p + [c]) == 10 * v + d;
    LastDigit(v, d);
    assert DigitChar(d) == c;
  }

  /** Printing 10 v + d, for v > 0, is printing v and then the digit d. */
  lemma {:induction false} LastDigit(v: nat, d: nat)
    requires 0 < v && d < 10
    ensures NatToDecimal(10 * v + d) == NatToDecimal(v) + [DigitChar(d)]
  {
    var n := 10 * v + d;
    assert n / 10 == v && n % 10 == d;
  }

  /** Distinct numbers print distinctly. */
  lemma DecimalInjective(a: nat, b: nat)
    requires NatToDecimal(a) == NatToDecimal(b)
    ensures a == b
  {
    DecimalRoundTrip(a);
    DecimalRoundTrip(b);
  }

  /** The numeral of n has at most k digits exactly when n < 10^k. */
  lemma {:induction false} DecimalLength(n: nat, k: nat)
    requires k >= 1
    ensures |NatToDecimal(n)| <= k <==> n < Pow10(k)
  {
    if n >= 10 {
      if k == 1 {
        DecimalLengthAtLeastTwo(n);
      } else {
        DecimalLength(n / 10, k - 1);
      }
    }
  }

  lemma DecimalLengthAtLeastTwo(n: nat)
    requires n >= 10
    ensures |NatToDecimal(n)| >= 2 && Pow10(1) == 10
  {
    assert Pow10(1) == 10 * Pow10(0);
  }

  /** `%03u` of a number below 1000 is exactly three digits that read back as the number. */
  lemma ZeroPadded3(n: nat)
    ensures |ZeroPadded(n, 3)| == 3 <==> n < 1000
    ensures n < 1000 ==> DecimalValue(ZeroPadded(n, 3)) == n
  {
    assert Pow10(3) == 1000 by {
      assert Pow10(1) == 10 * Pow10(0);
      assert Pow10(2) == 10 * Pow10(1);
    }
    DecimalLength(n, 3);
    DecimalRoundTrip(n);
    var digits := NatToDecimal(n);
    if |digits| < 3 {
      DecimalValueZeros(3 - |digits|, digits);
    }
  }

  /** A numeral as `%d` writes one: an optional minus sign and a canonical magnitude. */
  predicate IsSignedDecimal(s: string) {
    if |s| >= 1 && s[0] == '-' then Canonical(s[1..]) && s[1..] != "0" else Canonical(s)
  }

  function SignedDecimalValue(s: string): int
    requires IsSignedDecimal(s)
  {
    if |s| >= 1 && s[0] == '-' then -(DecimalValue(s[1..]) as int) else DecimalValue(s)
  }

  /** Reading the numeral `%d` writes gives back the number. */
  lemma SignedRoundTrip(i: int)
    ensures IsSignedDecimal(IntToDecimal(i))
    ensures SignedDecimalValue(IntToDecimal(i)) == i
  {
    if i < 0 {
      var s := IntToDecimal(i);
      assert s[1..] == NatToDecimal(-i);
      DecimalRoundTrip(-i);
    } else {
      DecimalRoundTrip(i);
    }
  }
}
