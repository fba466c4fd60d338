/**
 * Decimal formatting and parsing of integers as Python does them:
 * `f"{n:0Wd}"` (zero padding to a minimum width, the sign counted in the width)
 * and `int(s)` on text made of an optional sign and ASCII digits.
 */
module Numbers {
  import opened Wrappers
  import opened Text

  predicate IsDigit(c: char) {
    '0' <= c <= '9'
  }

  predicate AllDigits(s: string) {
    forall i :: 0 <= i < |s| ==> IsDigit(s[i])
  }

  function DigitChar(d: nat): (c: char)
    requires d < 10
    ensures IsDigit(c)
  {
    (48 + d) as char
  }

  function DigitValue(c: char): nat
    requires IsDigit(c)
  {
    (c as int) - 48
  }

  /** The value of a digit string, most significant digit first. */
  function DigitsValue(s: string): nat
    requires AllDigits(s)
    decreases |s|
  {
    if |s| == 0 then 0 else DigitsValue(s[..|s| - 1]) * 10 + DigitValue(s[|s| - 1])
  }

  /** The shortest decimal spelling of `n` (`str(n)` for a non-negative `n`). */
  function NatToDigits(n: nat): (s: string)
    ensures |s| > 0 && AllDigits(s)
    decreases n
  {
    if n < 10 then [DigitChar(n)] else NatToDigits(n / 10) + [DigitChar(n % 10)]
  }

  function Zeros(k: nat): (s: string)
    ensures |s| == k && AllDigits(s)
  {
    seq(k, _ => '0')
  }

  /** `f"{n:0Wd}"` for a non-negative `n`: the digits, left-padded with zeros to `width`. */
  function Pad(n: nat, width: nat): (s: string)
    ensures AllDigits(s) && |s| >= width && |s| > 0
  {
    var d := NatToDigits(n);
    if |d| >= width then d else Zeros(width - |d|) + d
  }

  /** `f"{n:0Wd}"` for any integer: a minus sign counts towards the width. */
  function FormatInt(n: int, width: nat): string {
    if n < 0 then "-" + Pad(-n, if width > 0 then width - 1 else 0) else Pad(n, width)
  }

  /** `str(n)`. */
  function IntToString(n: int): string {
    FormatInt(n, 0)
  }

  /**
   * Python's `int(s)` on text: surrounding whitespace is ignored, then an optional
   * sign and at least one ASCII digit; anything else raises (`None` here).
   */
  function ParseInt(s: string): (r: Option<int>)
    ensures r.Some? ==> |Strip(s)| > 0
  {
    var t := Strip(s);
    if |t| == 0 then None
    else
      var neg := t[0] == '-';
      var body := if t[0] == '-' || t[0] == '+' then t[1..] else t;
      if |body| == 0 || !AllDigits(body) then None
      else
        var v: int := DigitsValue(body);
        Some(if neg then -v else v)
  }

  // ---------------------------------------------------------------------------

  lemma {:induction false} DigitsValueOf(n: nat)
    ensures DigitsValue(NatToDigits(n)) == n
    decreases n
  {
    if n >= 10 {
      DigitsValueOf(n / 10);
      var d := NatToDigits(n);
      assert d[..|d| - 1] == NatToDigits(n / 10);
    }
  }

  lemma {:induction false} ZerosValue(k: nat)
    ensures DigitsValue(Zeros(k)) == 0
    decreases k
  {
    if k > 0 {
      ZerosValue(k - 1);
      assert Zeros(k)[..k - 1] == Zeros(k - 1);
    }
  }

  /** Leading zeros do not change the value of a digit string. */
  lemma {:induction false} LeadingZerosValue(k: nat, s: string)
    requires AllDigits(s)
    ensures DigitsValue(Zeros(k) + s) == DigitsValue(s)
    decreases |s|
  {
    if |s| == 0 {
      assert Zeros(k) + s == Zeros(k);
      ZerosValue(k);
    } else {
      var s' := s[..|s| - 1];
      LeadingZerosValue(k, s');
      var z := Zeros(k) + s;
      assert z[..|z| - 1] == Zeros(k) + s';
    }
  }

  /** Zero-padded digits read back as the number they spell. */
  lemma PadValue(n: nat, width: nat)
    ensures DigitsValue(Pad(n, width)) == n
  {
    DigitsValueOf(n);
    var d := NatToDigits(n);
    if |d| < width {
      LeadingZerosValue(width - |d|, d);
    }
  }

  lemma DigitsNoSpace(s: string)
    requires AllDigits(s)
    ensures Strip(s) == s
  {
    if |s| > 0 {
      assert IsDigit(s[0]) && IsDigit(s[|s| - 1]);
    }
    StripNoEdges(s);
  }

  lemma ParseNegative(m: nat, width: nat)
    requires m > 0
    ensures ParseInt("-" + Pad(m, width)) == Some(-(m as int))
  {
    var p := Pad(m, width);
    var s := "-" + p;
    PadValue(m, width);
    assert IsDigit(p[|p| - 1]);
    assert s[|s| - 1] == p[|p| - 1];
    assert !IsSpace(s[0]) && !IsSpace(s[|s| - 1]);
    StripNoEdges(s);
    assert s[1..] == p;
  }

  lemma ParsePad(n: nat, width: nat)
    ensures ParseInt(Pad(n, width)) == Some(n)
  {
    var s := Pad(n, width);
    PadValue(n, width);
    DigitsNoSpace(s);
    assert IsDigit(s[0]);
  }

  /** `int(f"{n:0Wd}") == n`: formatting an integer and parsing it back is the identity. */
  lemma ParseFormatInt(n: int, width: nat)
    ensures ParseInt(FormatInt(n, width)) == Some(n)
  {
    if n < 0 {
      var w := if width > 0 then width - 1 else 0;
      var m: nat := -n;
      var f := "-" + Pad(m, w);
      assert FormatInt(n, width) == f;
      ParseNegative(m, w);
    } else {
      assert FormatInt(n, width) == Pad(n, width);
      ParsePad(n, width);
    }
  }
}
