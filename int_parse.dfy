/**
 * Decimal parsing of a 32-bit signed integer, as the bill-number field uses
 * it: an optional sign followed by at least one ASCII digit, whose value must
 * lie in the 32-bit range. Any other text is an error.
 */
module IntParse {
  import opened Results

  const I32_MIN: int := -0x8000_0000
  const I32_MAX: int := 0x7FFF_FFFF

  newtype int32 = x: int | -0x8000_0000 <= x < 0x8000_0000

  predicate IsAsciiDigit(c: char) { '0' <= c <= '9' }

  predicate AllDigits(s: string) { forall i | 0 <= i < |s| :: IsAsciiDigit(s[i]) }

  function DigitValue(c: char): (d: nat)
    requires IsAsciiDigit(c)
    ensures d < 10
  {
    c as int - '0' as int
  }

  function Pow10(n: nat): (p: nat)
    ensures p >= 1
  {
    if n == 0 then 1 else 10 * Pow10(n - 1)
  }

  /** The value of a run of decimal digits, most significant first. */
  function DigitsValue(s: string): (v: nat)
    requires AllDigits(s)
    ensures v < Pow10(|s|)
  {
    if s == [] then 0 else 10 * DigitsValue(s[..|s| - 1]) + DigitValue(s[|s| - 1])
  }

  /**
   * Parses `s` as a 32-bit signed decimal integer: an optional '+' or '-'
   * followed by one or more ASCII digits, with the value in range.
   */
  function ParseI32(s: string): (r: Option<int32>)
    ensures r.Some? ==> |s| > 0 && (AllDigits(s) || (|s| > 1 && (s[0] == '+' || s[0] == '-') && AllDigits(s[1..])))
    ensures |s| > 0 && AllDigits(s) ==> (r.Some? <==> DigitsValue(s) <= I32_MAX)
    ensures |s| > 0 && AllDigits(s) && r.Some? ==> r.value as int == DigitsValue(s)
    ensures |s| > 1 && s[0] == '-' && AllDigits(s[1..]) ==>
      (r.Some? <==> DigitsValue(s[1..]) <= -I32_MIN) && (r.Some? ==> r.value as int == -(DigitsValue(s[1..]) as int))
  {
    if |s| == 0 then None
    else
      var negative := s[0] == '-';
      var digits := if s[0] == '+' || s[0] == '-' then s[1..] else s;
      if |digits| == 0 || !AllDigits(digits) then None
      else
        var magnitude: int := DigitsValue(digits);
        var v := if negative then -magnitude else magnitude;
        if I32_MIN <= v <= I32_MAX then Some(v as int32) else None
  }

  /** The canonical decimal spelling of a natural number. */
  function DecimalString(n: nat): (s: string)
    ensures |s| > 0 && AllDigits(s)
  {
    if n < 10 then [('0' as int + n) as char]
    else DecimalString(n / 10) + [('0' as int + n % 10) as char]
  }

  lemma {:induction false} DecimalStringValue(n: nat)
    ensures DigitsValue(DecimalString(n)) == n
  {
    var s := DecimalString(n);
    if n < 10 {
      assert s[..|s| - 1] == [];
    } else {
      DecimalStringValue(n / 10);
      assert s[..|s| - 1] == DecimalString(n / 10);
    }
  }

  /** Printing a non-negative 32-bit value and parsing it back gives the value. */
  lemma DecimalRoundTrip(n: nat)
    requires n <= I32_MAX
    ensures ParseI32(DecimalString(n)) == Some(n as int32)
  {
    DecimalStringValue(n);
  }

  /** Every run of at most nine digits is in range. */
  lemma ShortRunParses(s: string)
    requires 0 < |s| <= 9 && AllDigits(s)
    ensures ParseI32(s).Some? && ParseI32(s).value as int == DigitsValue(s)
  {
    Pow10Monotone(|s|, 9);
  }

  lemma {:induction false} Pow10Monotone(m: nat, n: nat)
    requires m <= n
    ensures Pow10(m) <= Pow10(n)
  {
    if m < n {
      Pow10Monotone(m, n - 1);
    }
  }

  /** Leading zeros do not change the value. */
  lemma {:induction false} LeadingZeroValue(s: string)
    requires AllDigits(s)
    ensures AllDigits("0" + s) && DigitsValue("0" + s) == DigitsValue(s)
  {
    var z := "0" + s;
    if s != [] {
      assert z[..|z| - 1] == "0" + s[..|s| - 1];
      LeadingZeroValue(s[..|s| - 1]);
    }
  }

  lemma LeadingZeroParse(s: string)
    requires |s| > 0 && AllDigits(s)
    ensures ParseI32("0" + s) == ParseI32(s)
  {
    LeadingZeroValue(s);
  }
}
