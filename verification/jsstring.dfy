/** The parts of JavaScript's string library the application relies on:
    `trim` (and the leading-whitespace skip of `parseInt`), `split` on one
    character, and `endsWith`. Strings are sequences of characters; UTF-16
    surrogate pairs are not modelled. */
module JsString {

  /** ECMAScript WhiteSpace and LineTerminator code points (sections 12.2 and
      12.3 of ECMA-262): TAB, VT, FF, ZWNBSP, the space separators (Zs) and
      LF, CR, LS, PS. */
  predicate IsWhitespace(c: char) {
    || c == '\t' || c == '\n' || c == '\U{000B}' || c == '\U{000C}' || c == '\r'
    || c == ' ' || c == '\U{00A0}' || c == '\U{1680}'
    || ('\U{2000}' <= c <= '\U{200A}')
    || c == '\U{2028}' || c == '\U{2029}' || c == '\U{202F}' || c == '\U{205F}'
    || c == '\U{3000}' || c == '\U{FEFF}'
  }

  /** Every character of `s` is whitespace (so `s.trim()` is falsy). */
  predicate IsBlank(s: string) {
    forall k :: 0 <= k < |s| ==> IsWhitespace(s[k])
  }

  /** Number of leading whitespace characters. */
  function LeadingSpace(s: string): (n: nat)
    ensures n <= |s|
    ensures IsBlank(s[..n])
    ensures n < |s| ==> !IsWhitespace(s[n])
    decreases |s|
  {
    if |s| == 0 || !IsWhitespace(s[0]) then 0
    else
      var n := 1 + LeadingSpace(s[1..]);
      assert forall k :: 1 <= k < n ==> s[k] == s[1..][k - 1];
      n
  }

  /** Number of trailing whitespace characters. */
  function TrailingSpace(s: string): (n: nat)
    ensures n <= |s|
    ensures IsBlank(s[|s| - n..])
    ensures n < |s| ==> !IsWhitespace(s[|s| - n - 1])
    decreases |s|
  {
    if |s| == 0 || !IsWhitespace(s[|s| - 1]) then 0
    else
      var n := 1 + TrailingSpace(s[..|s| - 1]);
      assert forall k :: |s| - n <= k < |s| - 1 ==> s[k] == s[..|s| - 1][k];
      n
  }

  /** `s.trim()`: `s` without its leading and trailing whitespace. */
  function Trim(s: string): (r: string)
    ensures |r| <= |s|
    ensures exists a, b :: 0 <= a <= b <= |s| && r == s[a..b] && IsBlank(s[..a]) && IsBlank(s[b..])
    ensures r == [] <==> IsBlank(s)
    ensures r != [] ==> !IsWhitespace(r[0]) && !IsWhitespace(r[|r| - 1])
  {
    var a := LeadingSpace(s);
    var t := s[a..];
    var m := TrailingSpace(t);
    TrimBounds(s, a, m);
    t[..|t| - m]
  }

  /** The facts behind `Trim`'s contract, for the cut points it uses. */
  lemma TrimBounds(s: string, a: nat, m: nat)
    requires a == LeadingSpace(s)
    requires m == TrailingSpace(s[a..])
    ensures var t := s[a..]; var r := t[..|t| - m];
      && r == s[a..|s| - m] && IsBlank(s[|s| - m..])
      && (r == [] <==> IsBlank(s))
      && (r != [] ==> !IsWhitespace(r[0]) && !IsWhitespace(r[|r| - 1]))
  {
    TrimSlice(s, a, m);
    TrimEnds(s, a, m);
  }

  lemma TrimSlice(s: string, a: nat, m: nat)
    requires a == LeadingSpace(s)
    requires m == TrailingSpace(s[a..])
    ensures var t := s[a..]; t[..|t| - m] == s[a..|s| - m] && IsBlank(s[|s| - m..])
  {
    var t := s[a..];
    assert s[|s| - m..] == t[|t| - m..];
  }

  lemma TrimEnds(s: string, a: nat, m: nat)
    requires a == LeadingSpace(s)
    requires m == TrailingSpace(s[a..])
    ensures var t := s[a..]; var r := t[..|t| - m];
      && (r == [] <==> IsBlank(s))
      && (r != [] ==> !IsWhitespace(r[0]) && !IsWhitespace(r[|r| - 1]))
  {
    TrimCore(s, a, s[a..], m);
  }

  /** `Trim`'s emptiness and border facts from the properties of its two
      cut points alone. */
  lemma TrimCore(s: string, a: nat, t: string, m: nat)
    requires a <= |s| && IsBlank(s[..a]) && (a < |s| ==> !IsWhitespace(s[a]))
    requires t == s[a..]
    requires m <= |t| && IsBlank(t[|t| - m..]) && (m < |t| ==> !IsWhitespace(t[|t| - m - 1]))
    ensures var r := t[..|t| - m];
      && (r == [] <==> IsBlank(s))
      && (r != [] ==> !IsWhitespace(r[0]) && !IsWhitespace(r[|r| - 1]))
  {
    var r := t[..|t| - m];
    if a < |s| {
      assert t[0] == s[a];
      assert m < |t|;
      assert r[0] == s[a];
      assert !IsBlank(s);
    } else {
      assert s[..a] == s;
    }
  }

  /** Trimming is idempotent. */
  lemma TrimIdempotent(s: string)
    ensures Trim(Trim(s)) == Trim(s)
  {
    var r := Trim(s);
    TrimOfBordered(r);
  }

  /** A string without whitespace at either end is its own trim. */
  lemma TrimOfBordered(s: string)
    requires s != [] ==> !IsWhitespace(s[0]) && !IsWhitespace(s[|s| - 1])
    ensures Trim(s) == s
  {
    assert LeadingSpace(s) == 0;
    assert s[0..] == s;
    assert TrailingSpace(s) == 0;
    assert s[..|s|] == s;
  }

  /** `s.split(sep)`: the pieces between occurrences of `sep`; a string with
      `k` separators gives `k + 1` pieces, the empty string gives `[""]`. */
  function Split(s: string, sep: char): (r: seq<string>)
    ensures |r| >= 1
    ensures forall i :: 0 <= i < |r| ==> sep !in r[i]
    ensures Join(r, sep) == s
    decreases |s|
  {
    if |s| == 0 then [""]
    else
      var rest := Split(s[1..], sep);
      if s[0] == sep then
        assert Join([""] + rest, sep) == [sep] + Join(rest, sep) by {
          assert ([""] + rest)[1..] == rest;
        }
        [""] + rest
      else
        var r := [[s[0]] + rest[0]] + rest[1..];
        assert Join(r, sep) == s by {
          if |rest| > 1 {
            assert r[1..] == rest[1..];
            assert Join(rest, sep) == rest[0] + [sep] + Join(rest[1..], sep);
          }
          assert s == [s[0]] + s[1..];
        }
        r
  }

  /** `parts.join(sep)`. */
  function Join(parts: seq<string>, sep: char): string
    requires |parts| >= 1
    decreases |parts|
  {
    if |parts| == 1 then parts[0] else parts[0] + [sep] + Join(parts[1..], sep)
  }

  /** Splitting a join of separator-free pieces gives the pieces back. */
  lemma {:induction false} SplitJoin(parts: seq<string>, sep: char)
    requires |parts| >= 1
    requires forall i :: 0 <= i < |parts| ==> sep !in parts[i]
    ensures Split(Join(parts, sep), sep) == parts
    decreases |parts|, |parts[0]|
  {
    var p := parts[0];
    if |p| == 0 {
      if |parts| > 1 {
        var s := Join(parts, sep);
        assert s == [sep] + Join(parts[1..], sep);
        assert s[1..] == Join(parts[1..], sep);
        SplitJoin(parts[1..], sep);
        assert parts == [""] + parts[1..];
      }
    } else {
      var tail := [p[1..]] + parts[1..];
      assert forall i :: 1 <= i < |tail| ==> tail[i] == parts[i];
      SplitJoin(tail, sep);
      var s := Join(parts, sep);
      assert tail[1..] == parts[1..];
      assert s == [p[0]] + Join(tail, sep);
      assert s[1..] == Join(tail, sep);
      assert s[0] == p[0] && p[0] != sep;
      assert p == [p[0]] + p[1..];
      assert Split(s, sep) == [[p[0]] + p[1..]] + parts[1..];
      assert parts == [parts[0]] + parts[1..];
    }
  }

  /** A join over a whitespace separator is blank iff every piece is. */
  lemma {:induction false} JoinBlank(parts: seq<string>, sep: char)
    requires |parts| >= 1
    requires IsWhitespace(sep)
    ensures IsBlank(Join(parts, sep)) <==> forall i :: 0 <= i < |parts| ==> IsBlank(parts[i])
    decreases |parts|
  {
    if |parts| > 1 {
      JoinBlank(parts[1..], sep);
      var rest := Join(parts[1..], sep);
      var j := parts[0] + [sep] + rest;
      assert forall k :: 0 <= k < |parts[0]| ==> j[k] == parts[0][k];
      assert forall k :: 0 <= k < |rest| ==> j[|parts[0]| + 1 + k] == rest[k];
      assert forall i :: 1 <= i < |parts| ==> parts[i] == parts[1..][i - 1];
      if IsBlank(j) {
        assert IsBlank(parts[0]);
        assert IsBlank(rest);
      }
    }
  }

  /** `s.endsWith(suffix)`, case-sensitive. */
  predicate EndsWith(s: string, suffix: string) {
    |suffix| <= |s| && s[|s| - |suffix|..] == suffix
  }
}
