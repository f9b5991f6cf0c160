/** Python's `int(text)` on base-10 text, and the decimal rendering it inverts. */
module Decimal {
  import opened Wrappers
  import opened Text

  predicate IsDigit(c: char) {
    '0' <= c <= '9'
  }

  predicate AllDigits(s: string) {
    forall k :: 0 <= k < |s| ==> IsDigit(s[k])
  }

  /** The text `int()` accepts, after the surrounding white space is stripped: an
      optional `+` or `-` followed by at least one ASCII digit. */
  predicate IntegerSyntax(t: string) {
    && |t| > 0
    && (IsDigit(t[0]) || ((t[0] == '+' || t[0] == '-') && |t| > 1))
    && forall k :: 1 <= k < |t| ==> IsDigit(t[k])
  }

  function DigitValue(c: char): nat
    requires IsDigit(c)
  {
    c as int - '0' as int
  }

  function Digit(d: nat): (c: char)
    requires d < 10
    ensures IsDigit(c) && DigitValue(c) == d
  {
    ('0' as int + d) as char
  }

  /** The value of a string of decimal digits, most significant first. */
  function DigitsValue(ds: string): nat
    requires AllDigits(ds)
    decreases |ds|
  {
    if |ds| == 0 then 0 else DigitsValue(ds[..|ds| - 1]) * 10 + DigitValue(ds[|ds| - 1])
  }

  /** `int(field)`: `None` stands for the `ValueError` the source catches. The field is
      trimmed of the white space `int()` skips, which is narrower than what `strip()`
      skips. */
  function ParseInt(field: string): (r: Option<int>)
    ensures r.Some? <==> IntegerSyntax(Strip(field, IsIntSpace))
    ensures r.Some? && r.value < 0 ==> Strip(field, IsIntSpace)[0] == '-'
  {
    ParseStripped(Strip(field, IsIntSpace))
  }

  /** Reads a sign and digits that no longer carry white space around them. */
  function ParseStripped(t: string): (r: Option<int>)
    ensures r.Some? <==> IntegerSyntax(t)
    ensures r.Some? && r.value < 0 ==> t[0] == '-'
  {
    if |t| > 0 && (t[0] == '+' || t[0] == '-') then
      var ds := t[1..];
      if |ds| > 0 && AllDigits(ds) then
        var v: int := if t[0] == '-' then -(DigitsValue(ds) as int) else DigitsValue(ds);
        Some(v)
      else
        None
    else if |t| > 0 && AllDigits(t) then
      Some(DigitsValue(t))
    else
      None
  }

  /** The shortest decimal digits of `n`: no leading zero unless `n` is zero. */
  function NatToDigits(n: nat): (ds: string)
    ensures |ds| > 0 && AllDigits(ds)
    ensures DigitsValue(ds) == n
    ensures ds[0] == '0' ==> n == 0
    decreases n
  {
    if n < 10 then [Digit(n)]
    else
      var ds := NatToDigits(n / 10) + [Digit(n % 10)];
      assert ds[..|ds| - 1] == NatToDigits(n / 10);
      ds
  }

  /** `str(n)` for an integer `n`. */
  function IntToString(n: int): (s: string)
    ensures |s| > 0 && !IsSpace(s[0]) && !IsSpace(s[|s| - 1])
    ensures forall k :: 0 <= k < |s| ==> IsDigit(s[k]) || (k == 0 && s[k] == '-')
  {
    if n < 0 then "-" + NatToDigits(-n) else NatToDigits(n)
  }

  /** `int(str(n)) == n`. */
  lemma ParseIntToString(n: int)
    ensures ParseInt(IntToString(n)) == Some(n)
  {
    var s := IntToString(n);
    StripNoPadding(s, IsIntSpace);
    if n < 0 {
      assert s[1..] == NatToDigits(-n);
    }
  }

  /** `int()` ignores the white space it skips around the number. */
  lemma ParseIntPadded(pre: string, field: string, post: string)
    requires AllSpace(pre, IsIntSpace) && AllSpace(post, IsIntSpace)
    ensures ParseInt(pre + field + post) == ParseInt(field)
  {
    StripPadded(pre, field, post, IsIntSpace);
  }

  /** An information separator, which `strip()` would skip, makes `int()` fail. */
  lemma ParseIntRejectsSeparator()
    ensures ParseInt("\U{1C}5") == None
    ensures ParseInt("5\U{1F}") == None
  {
    StripNoPadding("\U{1C}5", IsIntSpace);
    StripNoPadding("5\U{1F}", IsIntSpace);
  }

  /** A decimal point, a letter or a bare sign makes `int()` fail. */
  lemma ParseIntRejects()
    ensures ParseInt("1.5") == None
    ensures ParseInt("abc") == None
    ensures ParseInt("-") == None
  {
    StripNoPadding("1.5", IsIntSpace);
    StripNoPadding("abc", IsIntSpace);
    StripNoPadding("-", IsIntSpace);
  }

  /** A signed number surrounded by white space parses. */
  lemma ParseIntSignedPadded()
    ensures ParseInt(" -12\t") == Some(-12)
  {
    ParseIntNegative();
    assert " -12\t" == " " + "-12" + "\t";
    ParseIntPadded(" ", "-12", "\t");
  }

  lemma ParseIntNegative()
    ensures ParseInt("-12") == Some(-12)
  {
    StripNoPadding("-12", IsIntSpace);
    assert "-12"[1..] == "12";
    assert DigitsValue("12") == 12 by {
      assert "12"[..1] == "1";
      assert DigitsValue("1") == 1 by {
        assert "1"[..0] == "";
      }
    }
  }

  /** `k` zero digits. */
  function Zeros(k: nat): (z: string)
    ensures |z| == k && AllDigits(z)
  {
    seq(k, _ => '0')
  }

  /** Leading zeros add nothing to the value of a string of digits. */
  lemma {:induction false} ZerosValue(k: nat, ds: string)
    requires AllDigits(ds)
    ensures AllDigits(Zeros(k) + ds) && DigitsValue(Zeros(k) + ds) == DigitsValue(ds)
    decreases |ds|
  {
    var t := Zeros(k) + ds;
    if |ds| == 0 {
      assert t == Zeros(k);
      ZerosOnly(k);
    } else {
      assert t[..|t| - 1] == Zeros(k) + ds[..|ds| - 1];
      ZerosValue(k, ds[..|ds| - 1]);
    }
  }

  lemma {:induction false} ZerosOnly(k: nat)
    ensures DigitsValue(Zeros(k)) == 0
    decreases k
  {
    if k > 0 {
      assert Zeros(k)[..k - 1] == Zeros(k - 1);
      ZerosOnly(k - 1);
    }
  }

  /** `int()` reads a numeral with leading zeros, as in `"0090"`, at its value. */
  lemma ParseIntLeadingZeros(k: nat, n: nat)
    ensures ParseInt(Zeros(k) + IntToString(n)) == Some(n)
  {
    var t := Zeros(k) + IntToString(n);
    assert AllDigits(t) && DigitsValue(t) == n by {
      ZerosValue(k, NatToDigits(n));
    }
    UnpaddedNumeral(t);
  }

  /** An explicit sign and leading zeros, as in `"+0090"`, `"-007"` or `"-0"`: the sign
      gives the value its sign and the zeros add nothing. */
  lemma ParseIntSignedZeros(k: nat, n: nat)
    ensures ParseInt("+" + Zeros(k) + IntToString(n)) == Some(n)
    ensures ParseInt("-" + Zeros(k) + IntToString(n)) == Some(-(n as int))
  {
    ParseIntZerosAfter('+', k, n);
    ParseIntZerosAfter('-', k, n);
  }

  lemma ParseIntZerosAfter(sign: char, k: nat, n: nat)
    requires sign == '+' || sign == '-'
    ensures ParseInt([sign] + Zeros(k) + IntToString(n)) == Some(if sign == '-' then -(n as int) else n)
  {
    var ds := Zeros(k) + IntToString(n);
    assert AllDigits(ds) && DigitsValue(ds) == n by {
      ZerosValue(k, NatToDigits(n));
    }
    assert [sign] + Zeros(k) + IntToString(n) == [sign] + ds;
    ParseIntSign(sign, ds);
  }

  lemma ParseIntSign(sign: char, ds: string)
    requires sign == '+' || sign == '-'
    requires |ds| > 0 && AllDigits(ds)
    ensures ParseInt([sign] + ds) == Some(if sign == '-' then -(DigitsValue(ds) as int) else DigitsValue(ds))
  {
    var t := [sign] + ds;
    assert IntegerSyntax(t) by {
      assert forall k :: 1 <= k < |t| ==> t[k] == ds[k - 1];
    }
    UnpaddedNumeral(t);
    StrippedSign(sign, ds);
  }

  /** A sign in front of the digits: the sign decides, the digits give the magnitude. */
  lemma StrippedSign(sign: char, ds: string)
    requires sign == '+' || sign == '-'
    requires |ds| > 0 && AllDigits(ds)
    ensures ParseStripped([sign] + ds) == Some(if sign == '-' then -(DigitsValue(ds) as int) else DigitsValue(ds))
  {
    assert ([sign] + ds)[0] == sign && ([sign] + ds)[1..] == ds;
  }

  /** A numeral `int()` accepts has no white space to trim. */
  lemma UnpaddedNumeral(t: string)
    requires IntegerSyntax(t) || (|t| > 0 && AllDigits(t))
    ensures Strip(t, IsIntSpace) == t && ParseInt(t) == ParseStripped(t)
  {
    assert !IsSpace(t[|t| - 1]);
    StripNoPadding(t, IsIntSpace);
  }
}
