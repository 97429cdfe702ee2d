/**
 * The two conversions the webhook relies on: `int.Parse` of the NumMedia form
 * field (default NumberStyles.Integer: optional surrounding white space, an
 * optional sign, decimal digits, 32-bit range) and the decimal rendering of
 * the loop index in the "MediaUrl{i}" / "MediaContentType{i}" keys.
 */
module Numerals {
  import opened Interfaces

  const Int32Min: int := -0x8000_0000
  const Int32Max: int := 0x7FFF_FFFF

  predicate IsDigit(c: char) {
    '0' <= c <= '9'
  }

  /** White space int.Parse skips: U+0009..U+000D and U+0020. */
  predicate IsWhite(c: char) {
    c == ' ' || ('\t' <= c <= '\r')
  }

  function DigitValue(c: char): (d: nat)
    requires IsDigit(c)
    ensures d < 10
  {
    c as int - '0' as int
  }

  function DigitChar(d: nat): (c: char)
    requires d < 10
    ensures IsDigit(c) && DigitValue(c) == d
  {
    (d + '0' as int) as char
  }

  predicate AllDigits(s: string) {
    forall k :: 0 <= k < |s| ==> IsDigit(s[k])
  }

  /** The value of a string of decimal digits, most significant first. */
  function DigitsValue(s: string): nat
    requires AllDigits(s)
  {
    if s == [] then 0 else DigitsValue(s[..|s| - 1]) * 10 + DigitValue(s[|s| - 1])
  }

  /** Decimal digits of `n`, no leading zeros. */
  function NatToString(n: nat): (s: string)
    ensures AllDigits(s) && |s| > 0
    ensures |s| > 1 ==> s[0] != '0'
  {
    if n < 10 then [DigitChar(n)] else NatToString(n / 10) + [DigitChar(n % 10)]
  }

  /** `i.ToString()` for the current culture: a '-' before the digits of a
      negative number. */
  function IntToString(n: int): string {
    if n < 0 then "-" + NatToString(-n) else NatToString(n)
  }

  function TrimStart(s: string): (r: string)
    ensures |r| <= |s| && (r != [] ==> !IsWhite(r[0]))
  {
    if s != [] && IsWhite(s[0]) then TrimStart(s[1..]) else s
  }

  function TrimEnd(s: string): (r: string)
    ensures |r| <= |s| && (r != [] ==> !IsWhite(r[|r| - 1]))
  {
    if s != [] && IsWhite(s[|s| - 1]) then TrimEnd(s[..|s| - 1]) else s
  }

  /** `int.Parse(s)`: None where it throws (bad format or overflow). */
  function ParseInt32(s: string): (r: Option<int>)
    ensures r.Some? ==> Int32Min <= r.value <= Int32Max
  {
    ParseTrimmed(TrimEnd(TrimStart(s)))
  }

  /** int.Parse on the text with its surrounding white space removed. */
  function ParseTrimmed(t: string): (r: Option<int>)
    ensures r.Some? ==> Int32Min <= r.value <= Int32Max
  {
    var negative := |t| > 0 && t[0] == '-';
    var digits := if |t| > 0 && (t[0] == '-' || t[0] == '+') then t[1..] else t;
    if |digits| == 0 || !AllDigits(digits) then None
    else
      var magnitude: int := DigitsValue(digits);
      var v := if negative then -magnitude else magnitude;
      if Int32Min <= v <= Int32Max then Some(v) else None
  }

  predicate AllWhite(s: string) {
    forall k :: 0 <= k < |s| ==> IsWhite(s[k])
  }

  /** `s` read as the parts NumberStyles.Integer allows: leading white space,
      an optional sign, one or more decimal digits and trailing white space,
      with `v` the signed value of the digits, which must fit in 32 bits. */
  ghost predicate Int32Parts(s: string, v: int, lead: string, sign: string, digits: string, trail: string) {
    && s == lead + sign + digits + trail
    && AllWhite(lead) && AllWhite(trail)
    && (sign == "" || sign == "+" || sign == "-")
    && digits != "" && AllDigits(digits)
    && v == (if sign == "-" then -(DigitsValue(digits) as int) else DigitsValue(digits))
    && Int32Min <= v <= Int32Max
  }

  /** `s` is a 32-bit integer literal with value `v`, as int.Parse reads it. */
  ghost predicate Int32Text(s: string, v: int) {
    exists lead, sign, digits, trail :: Int32Parts(s, v, lead, sign, digits, trail)
  }

  /** What TrimStart removes is white space. */
  lemma {:induction false} TrimStartSplits(s: string) returns (lead: string)
    ensures AllWhite(lead) && s == lead + TrimStart(s)
  {
    if s != [] && IsWhite(s[0]) {
      var rest := TrimStartSplits(s[1..]);
      lead := [s[0]] + rest;
      assert s == [s[0]] + s[1..];
    } else {
      lead := [];
    }
  }

  /** What TrimEnd removes is white space. */
  lemma {:induction false} TrimEndSplits(s: string) returns (trail: string)
    ensures AllWhite(trail) && s == TrimEnd(s) + trail
  {
    if s != [] && IsWhite(s[|s| - 1]) {
      var rest := TrimEndSplits(s[..|s| - 1]);
      trail := rest + [s[|s| - 1]];
      assert s == s[..|s| - 1] + [s[|s| - 1]];
    } else {
      trail := [];
    }
  }

  /** TrimStart removes exactly a white prefix before a non-white character. */
  lemma {:induction false} TrimStartOfWhite(lead: string, r: string)
    requires AllWhite(lead) && r != [] && !IsWhite(r[0])
    ensures TrimStart(lead + r) == r
  {
    if lead != [] {
      assert (lead + r)[1..] == lead[1..] + r;
      TrimStartOfWhite(lead[1..], r);
    } else {
      assert lead + r == r;
    }
  }

  /** TrimEnd removes exactly a white suffix after a non-white character. */
  lemma {:induction false} TrimEndOfWhite(r: string, trail: string)
    requires AllWhite(trail) && r != [] && !IsWhite(r[|r| - 1])
    ensures TrimEnd(r + trail) == r
  {
    if trail != [] {
      assert (r + trail)[..|r + trail| - 1] == r + trail[..|trail| - 1];
      TrimEndOfWhite(r, trail[..|trail| - 1]);
    } else {
      assert r + trail == r;
    }
  }

  /** A trimmed text that parses is an optional sign followed by digits. */
  lemma ParseTrimmedParts(t: string, v: int) returns (sign: string, digits: string)
    requires ParseTrimmed(t) == Some(v)
    ensures t == sign + digits
    ensures sign == "" || sign == "+" || sign == "-"
    ensures digits != "" && AllDigits(digits)
    ensures v == (if sign == "-" then -(DigitsValue(digits) as int) else DigitsValue(digits))
  {
    sign := if |t| > 0 && (t[0] == '-' || t[0] == '+') then t[..1] else [];
    digits := t[|sign|..];
    assert t == sign + digits;
    assert sign == "" || sign == [t[0]];
  }

  lemma Regroup(s: string, lead: string, u: string, t: string, trail: string, sign: string, digits: string)
    requires s == lead + u && u == t + trail && t == sign + digits
    ensures s == lead + sign + digits + trail
  {
    calc {
      s;
      lead + ((sign + digits) + trail);
      { assert (sign + digits) + trail == sign + (digits + trail); }
      lead + (sign + (digits + trail));
      { assert lead + (sign + (digits + trail)) == (lead + sign) + (digits + trail); }
      (lead + sign) + (digits + trail);
    }
  }

  /** Every value int.Parse produces comes from a well-formed literal. */
  lemma ParseInt32Sound(s: string, v: int)
    requires ParseInt32(s) == Some(v)
    ensures Int32Text(s, v)
  {
    var lead := TrimStartSplits(s);
    var u := TrimStart(s);
    var trail := TrimEndSplits(u);
    var t := TrimEnd(u);
    var sign, digits := ParseTrimmedParts(t, v);
    Regroup(s, lead, u, t, trail, sign, digits);
    assert Int32Parts(s, v, lead, sign, digits, trail);
  }

  /** Every well-formed literal in the 32-bit range is parsed to its value. */
  lemma ParseInt32Complete(s: string, v: int)
    requires Int32Text(s, v)
    ensures ParseInt32(s) == Some(v)
  {
    var lead, sign, digits, trail :| Int32Parts(s, v, lead, sign, digits, trail);
    var t := sign + digits;
    assert s == lead + (t + trail);
    assert (t + trail)[0] == t[0];
    TrimStartOfWhite(lead, t + trail);
    assert t[|t| - 1] == digits[|digits| - 1];
    TrimEndOfWhite(t, trail);
    if sign == [] {
      assert t == digits;
    } else {
      assert t[1..] == digits;
    }
  }

  /** int.Parse succeeds exactly on the 32-bit integer literals. */
  lemma ParseInt32Correct(s: string, v: int)
    ensures ParseInt32(s) == Some(v) <==> Int32Text(s, v)
  {
    if ParseInt32(s) == Some(v) {
      ParseInt32Sound(s, v);
    }
    if Int32Text(s, v) {
      ParseInt32Complete(s, v);
    }
  }

  /** A text with any character other than white space, a sign or a digit is
      rejected. */
  lemma ParseInt32Alphabet(s: string)
    ensures ParseInt32(s).Some? ==>
      forall k :: 0 <= k < |s| ==> IsWhite(s[k]) || IsDigit(s[k]) || s[k] == '+' || s[k] == '-'
  {
    if ParseInt32(s).Some? {
      ParseInt32Sound(s, ParseInt32(s).value);
      var lead, sign, digits, trail :| Int32Parts(s, ParseInt32(s).value, lead, sign, digits, trail);
      forall k | 0 <= k < |s|
        ensures IsWhite(s[k]) || IsDigit(s[k]) || s[k] == '+' || s[k] == '-'
      {
        if k < |lead| {
          assert s[k] == lead[k];
        } else if k < |lead| + |sign| {
          assert s[k] == sign[k - |lead|];
        } else if k < |lead| + |sign| + |digits| {
          assert s[k] == digits[k - |lead| - |sign|];
        } else {
          assert s[k] == trail[k - |lead| - |sign| - |digits|];
        }
      }
    }
  }

  lemma {:induction false} NatToStringValue(n: nat)
    ensures DigitsValue(NatToString(n)) == n
  {
    if n >= 10 {
      var s := NatToString(n);
      assert s[..|s| - 1] == NatToString(n / 10);
      NatToStringValue(n / 10);
    }
  }

  /** Rendering a 32-bit integer and parsing it back gives the integer. */
  lemma ParseIntToString(n: int)
    requires Int32Min <= n <= Int32Max
    ensures ParseInt32(IntToString(n)) == Some(n)
  {
    var s := IntToString(n);
    assert TrimStart(s) == s;
    assert TrimEnd(s) == s;
    if n < 0 {
      assert s[1..] == NatToString(-n);
      NatToStringValue(-n);
    } else {
      NatToStringValue(n);
    }
  }

  /** Different numbers give different keys. */
  lemma NatToStringInjective(m: nat, n: nat)
    requires NatToString(m) == NatToString(n)
    ensures m == n
  {
    NatToStringValue(m);
    NatToStringValue(n);
  }
}
