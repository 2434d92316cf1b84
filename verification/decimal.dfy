/** Decimal text for non-negative integers, as JavaScript's `Number.prototype.toString()`
    and `String.prototype.padStart(width, "0")` produce it, and the reading back. */
module Decimal {

  predicate IsDigit(c: char) {
    '0' <= c <= '9'
  }

  predicate AllDigits(s: string) {
    forall k :: 0 <= k < |s| ==> IsDigit(s[k])
  }

  function DigitChar(d: nat): (c: char)
    requires d < 10
    ensures IsDigit(c)
  {
    ('0' as int + d) as char
  }

  function DigitValue(c: char): (d: nat)
    requires IsDigit(c)
    ensures d < 10 && DigitChar(d) == c
  {
    (c as int - '0' as int) as nat
  }

  lemma DigitRoundTrip(d: nat)
    requires d < 10
    ensures DigitValue(DigitChar(d)) == d
  {
  }

  /** The shortest decimal spelling of `n`: digits only, no leading zero except for `0` itself. */
  function ToDecimal(n: nat): (r: string)
    ensures |r| >= 1 && AllDigits(r)
    ensures r[0] == '0' ==> n == 0
    ensures |r| == 1 <==> n < 10
    decreases n
  {
    if n < 10 then [DigitChar(n)] else ToDecimal(n / 10) + [DigitChar(n % 10)]
  }

  /** The value of a string of decimal digits; the empty string reads as 0. */
  function ParseDecimal(s: string): nat
    requires AllDigits(s)
    decreases |s|
  {
    if |s| == 0 then 0 else ParseDecimal(s[..|s| - 1]) * 10 + DigitValue(s[|s| - 1])
  }

  lemma {:induction false} ParseToDecimal(n: nat)
    ensures ParseDecimal(ToDecimal(n)) == n
    decreases n
  {
    var r := ToDecimal(n);
    if n < 10 {
      assert r[..0] == [];
    } else {
      assert r[..|r| - 1] == ToDecimal(n / 10);
      ParseToDecimal(n / 10);
    }
  }

  /** Different numbers are spelt differently. */
  lemma ToDecimalInjective(m: nat, n: nat)
    ensures ToDecimal(m) == ToDecimal(n) ==> m == n
  {
    ParseToDecimal(m);
    ParseToDecimal(n);
  }

  /** `padStart(width, "0")`: `s` preceded by enough `'0'`s to be `width` long. */
  function PadStart(s: string, width: nat): (r: string)
    ensures |r| == if |s| >= width then |s| else width
    ensures r[|r| - |s|..] == s
    ensures forall k :: 0 <= k < |r| - |s| ==> r[k] == '0'
    decreases width
  {
    if |s| >= width then s else "0" + PadStart(s, width - 1)
  }

  /** `n.toString().padStart(2, "0")`. */
  function TwoDigits(n: nat): string {
    PadStart(ToDecimal(n), 2)
  }

  /** Below 100 the padded spelling is exactly the tens digit followed by the units digit. */
  lemma TwoDigitsOf(n: nat)
    requires n < 100
    ensures TwoDigits(n) == [DigitChar(n / 10), DigitChar(n % 10)]
  {
    var d := ToDecimal(n);
    if n < 10 {
      assert TwoDigits(n) == PadStart("0" + d, 2);
    } else {
      assert d == ToDecimal(n / 10) + [DigitChar(n % 10)];
    }
  }

  /** Reading two padded digits back gives the number again. */
  lemma ParseTwoDigits(n: nat)
    requires n < 100
    ensures AllDigits(TwoDigits(n)) && ParseDecimal(TwoDigits(n)) == n
  {
    TwoDigitsOf(n);
    ParseDigitPair(n / 10, n % 10);
  }

  lemma ParseDigitPair(q: nat, r: nat)
    requires q < 10 && r < 10
    ensures AllDigits([DigitChar(q), DigitChar(r)])
    ensures ParseDecimal([DigitChar(q), DigitChar(r)]) == q * 10 + r
  {
    var hi, lo := DigitChar(q), DigitChar(r);
    DigitRoundTrip(q);
    DigitRoundTrip(r);
    assert [hi][..0] == [];
    assert ParseDecimal([hi]) == q;
    assert [hi, lo][..1] == [hi];
  }
}
