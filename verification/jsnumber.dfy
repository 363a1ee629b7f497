/** JavaScript's integer text conversions as the application uses them:
    `parseInt(text)` with no radix (section 19.2.5 of ECMA-262) and the decimal
    rendering of an integral Number (`n.toString()` and template literals).
    NaN is `None`; Numbers are modelled as mathematical integers. */
module JsNumber {
  import opened Common
  import JsString

  /** The value of `c` as a digit in radix up to 36, or -1. */
  function DigitValue(c: char): int {
    if '0' <= c <= '9' then c as int - '0' as int
    else if 'a' <= c <= 'z' then c as int - 'a' as int + 10
    else if 'A' <= c <= 'Z' then c as int - 'A' as int + 10
    else -1
  }

  predicate IsDigitIn(c: char, radix: nat) {
    0 <= DigitValue(c) < radix
  }

  /** Length of the longest prefix of `s` made of radix-`radix` digits. */
  function DigitRun(s: string, radix: nat): (n: nat)
    ensures n <= |s|
    ensures forall k :: 0 <= k < n ==> IsDigitIn(s[k], radix)
    ensures n < |s| ==> !IsDigitIn(s[n], radix)
    decreases |s|
  {
    if |s| == 0 || !IsDigitIn(s[0], radix) then 0
    else
      var n := 1 + DigitRun(s[1..], radix);
      assert forall k :: 1 <= k < n ==> s[k] == s[1..][k - 1];
      n
  }

  /** The value of a digit string, most significant digit first. */
  function DigitsValue(ds: string, radix: nat): nat
    decreases |ds|
  {
    if |ds| == 0 then 0
    else
      var last: nat := if IsDigitIn(ds[|ds| - 1], radix) then DigitValue(ds[|ds| - 1]) else 0;
      var high: nat := DigitsValue(ds[..|ds| - 1], radix);
      high * radix + last
  }

  /** `parseInt(s)`: skip leading whitespace, read an optional sign, then an
      unsigned number; no digits gives NaN. */
  function ParseInt(s: string): (r: Option<int>)
    ensures JsString.IsBlank(s) ==> r.None?
    ensures r.Some? ==> JsString.LeadingSpace(s) < |s|
    ensures r.Some? && r.value < 0 ==> s[JsString.LeadingSpace(s)] == '-'
  {
    var t := s[JsString.LeadingSpace(s)..];
    var negative := |t| > 0 && t[0] == '-';
    var u := if |t| > 0 && (t[0] == '-' || t[0] == '+') then t[1..] else t;
    match ParseUnsigned(u)
    case None => None
    case Some(m) => Some(if negative then -m else m)
  }

  /** The unsigned part of `parseInt`: radix 16 after a `0x`/`0X` prefix,
      radix 10 otherwise, then the longest run of digits of that radix. */
  function ParseUnsigned(u: string): Option<int> {
    var hex := |u| >= 2 && u[0] == '0' && (u[1] == 'x' || u[1] == 'X');
    var radix := if hex then 16 else 10;
    var v := if hex then u[2..] else u;
    var n := DigitRun(v, radix);
    if n == 0 then None else Some(DigitsValue(v[..n], radix))
  }

  function DigitChar(d: nat): (c: char)
    requires d < 10
    ensures DigitValue(c) == d
  {
    ('0' as int + d) as char
  }

  /** Decimal digits of a natural number, without leading zeros. */
  function NatToString(n: nat): (s: string)
    ensures |s| >= 1
    ensures forall k :: 0 <= k < |s| ==> '0' <= s[k] <= '9'
    ensures s[0] == '0' <==> n == 0
    ensures |s| > 1 ==> s[0] != '0'
    decreases n
  {
    if n < 10 then [DigitChar(n)]
    else
      var high := NatToString(n / 10);
      assert (high + [DigitChar(n % 10)])[0] == high[0];
      high + [DigitChar(n % 10)]
  }

  /** The decimal rendering of an integral Number: a `-` sign, then digits. */
  function IntToString(n: int): (s: string)
    ensures |s| >= 1
    ensures s[0] == '-' <==> n < 0
    ensures forall k :: 1 <= k < |s| ==> '0' <= s[k] <= '9'
  {
    if n < 0 then "-" + NatToString(-n) else NatToString(n)
  }

  /** The digits of `n` read back as `n`. */
  lemma {:induction false} NatToStringValue(n: nat)
    ensures DigitsValue(NatToString(n), 10) == n
    decreases n
  {
    var s := NatToString(n);
    if n >= 10 {
      NatToStringValue(n / 10);
      assert s[..|s| - 1] == NatToString(n / 10);
    }
  }

  /** A string that starts with the rendering of `n` and then something that
      cannot continue a decimal number parses back to `n`. */
  lemma ParseIntPrefix(n: int, tail: string)
    requires tail == [] || (!IsDigitIn(tail[0], 10) && tail[0] != 'x' && tail[0] != 'X')
    ensures ParseInt(IntToString(n) + tail) == Some(n)
  {
    if n < 0 {
      ParseNegativePrefix(n, tail);
    } else {
      ParseNonNegativePrefix(n, tail);
    }
  }

  lemma ParseNegativePrefix(n: int, tail: string)
    requires n < 0
    requires tail == [] || (!IsDigitIn(tail[0], 10) && tail[0] != 'x' && tail[0] != 'X')
    ensures ParseInt(IntToString(n) + tail) == Some(n)
  {
    var u := NatToString(-n) + tail;
    ParseUnsignedDigits(-n, tail);
    NegativeRendering(n, tail);
    ParseNegative(IntToString(n) + tail, u, -n);
  }

  lemma NegativeRendering(n: int, tail: string)
    requires n < 0
    ensures var u := NatToString(-n) + tail;
      IntToString(n) + tail == ['-'] + u && u != [] && '0' <= u[0] <= '9'
  {
    var digits := NatToString(-n);
    assert (digits + tail)[0] == digits[0];
  }

  lemma ParseNegative(s: string, u: string, m: int)
    requires s == ['-'] + u
    requires u != [] && '0' <= u[0] <= '9'
    requires ParseUnsigned(u) == Some(m)
    ensures ParseInt(s) == Some(-m)
  {
    assert s != u by { assert |s| == |u| + 1; }
    ParseSigned(s, u);
  }

  lemma ParseNonNegativePrefix(m: nat, tail: string)
    requires tail == [] || (!IsDigitIn(tail[0], 10) && tail[0] != 'x' && tail[0] != 'X')
    ensures ParseInt(IntToString(m) + tail) == Some(m)
  {
    var u := NatToString(m) + tail;
    ParseUnsignedDigits(m, tail);
    assert IntToString(m) + tail == u;
    assert '0' <= u[0] <= '9';
    ParseSigned(u, u);
  }

  /** A number embedded after a prefix and before a non-digit reads back:
      cutting the prefix off leaves text that parses to the number. */
  lemma ParseAfterPrefix(prefix: string, n: int, tail: string)
    requires tail == [] || (!IsDigitIn(tail[0], 10) && tail[0] != 'x' && tail[0] != 'X')
    ensures (prefix + IntToString(n) + tail)[..|prefix|] == prefix
    ensures ParseInt((prefix + IntToString(n) + tail)[|prefix|..]) == Some(n)
  {
    var s := prefix + IntToString(n) + tail;
    assert s[|prefix|..] == IntToString(n) + tail;
    assert s[..|prefix|] == prefix;
    ParseIntPrefix(n, tail);
  }

  /** `parseInt` of a string that starts with `-` or a digit: the sign, then
      the unsigned part. */
  lemma ParseSigned(s: string, u: string)
    requires s == u || s == ['-'] + u
    requires u != [] && '0' <= u[0] <= '9'
    ensures ParseInt(s) == match ParseUnsigned(u)
      case None => None
      case Some(m) => Some(if s == u then m else -m)
  {
    NoLeadingSpace(s);
    if s != u {
      assert s[1..] == u;
    }
  }

  lemma NoLeadingSpace(s: string)
    requires s != [] && (s[0] == '-' || '0' <= s[0] <= '9')
    ensures s[JsString.LeadingSpace(s)..] == s
  {
    assert !JsString.IsWhitespace(s[0]);
  }

  /** The unsigned parse of a rendering followed by a non-digit. */
  lemma ParseUnsignedDigits(m: nat, tail: string)
    requires tail == [] || (!IsDigitIn(tail[0], 10) && tail[0] != 'x' && tail[0] != 'X')
    ensures ParseUnsigned(NatToString(m) + tail) == Some(m)
  {
    var digits := NatToString(m);
    var u := digits + tail;
    assert !(|u| >= 2 && u[0] == '0' && (u[1] == 'x' || u[1] == 'X')) by {
      if |digits| >= 2 { assert u[1] == digits[1]; } else { assert u[0] == digits[0]; }
    }
    DigitRunOfDigits(digits, tail);
    assert u[..|digits|] == digits;
    NatToStringValue(m);
  }

  lemma DigitRunOfDigits(digits: string, tail: string)
    requires forall k :: 0 <= k < |digits| ==> '0' <= digits[k] <= '9'
    requires tail == [] || !IsDigitIn(tail[0], 10)
    ensures DigitRun(digits + tail, 10) == |digits|
  {
    var s := digits + tail;
    assert forall k :: 0 <= k < |digits| ==> s[k] == digits[k];
    if |tail| > 0 {
      assert s[|digits|] == tail[0];
    }
  }

  /** Rendering an integer and parsing it back is the identity. */
  lemma ParseIntToString(n: int)
    ensures ParseInt(IntToString(n)) == Some(n)
  {
    ParseIntPrefix(n, []);
    assert IntToString(n) + [] == IntToString(n);
  }

  /** Different integers render differently. */
  lemma IntToStringInjective(a: int, b: int)
    requires IntToString(a) == IntToString(b)
    ensures a == b
  {
    ParseIntToString(a);
    ParseIntToString(b);
  }
}
