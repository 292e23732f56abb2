/**
 * The few `java.lang.String` operations the checker relies on, on `seq<char>`.
 * Case mapping is restricted to ASCII letters.
 */
module JavaStrings {
  import opened Wrappers

  /** `String.valueOf` of a possibly-null string, as string concatenation renders it. */
  function OrNull(s: Option<string>): string {
    if s.Some? then s.value else "null"
  }

  /** The characters `String.trim()` removes: every code point up to U+0020. */
  predicate IsTrimmed(c: char) { c <= ' ' }

  /** A string with no trimmable character at either end. */
  predicate NoOuterSpace(s: string) {
    |s| == 0 || (!IsTrimmed(s[0]) && !IsTrimmed(s[|s| - 1]))
  }

  /** The number of trimmable characters at the start of `s`. */
  function LeadingTrimmed(s: string): (n: nat)
    ensures n <= |s|
  {
    if |s| > 0 && IsTrimmed(s[0]) then 1 + LeadingTrimmed(s[1..]) else 0
  }

  /** The number of trimmable characters at the end of `s`. */
  function TrailingTrimmed(s: string): (n: nat)
    ensures n <= |s|
  {
    if |s| > 0 && IsTrimmed(s[|s| - 1]) then 1 + TrailingTrimmed(s[..|s| - 1]) else 0
  }

  /** `String.trim()`. */
  function Trim(s: string): string {
    var t := s[LeadingTrimmed(s)..];
    t[..|t| - TrailingTrimmed(t)]
  }

  lemma {:induction false} LeadingTrimmedStops(s: string)
    ensures LeadingTrimmed(s) < |s| ==> !IsTrimmed(s[LeadingTrimmed(s)])
  {
    if |s| > 0 && IsTrimmed(s[0]) {
      LeadingTrimmedStops(s[1..]);
    }
  }

  lemma {:induction false} TrailingTrimmedStops(s: string)
    ensures TrailingTrimmed(s) < |s| ==> !IsTrimmed(s[|s| - 1 - TrailingTrimmed(s)])
  {
    if |s| > 0 && IsTrimmed(s[|s| - 1]) {
      TrailingTrimmedStops(s[..|s| - 1]);
    }
  }

  /** A trimmed string has no trimmable character at either end. */
  lemma TrimResult(s: string)
    ensures NoOuterSpace(Trim(s)) && |Trim(s)| <= |s|
  {
    var t := s[LeadingTrimmed(s)..];
    LeadingTrimmedStops(s);
    TrailingTrimmedStops(t);
  }

  /** A string already free of outer spaces is its own trim. */
  lemma TrimNoop(s: string)
    requires NoOuterSpace(s)
    ensures Trim(s) == s
  {
    assert LeadingTrimmed(s) == 0;
    assert TrailingTrimmed(s) == 0;
  }

  /** Trimming twice is trimming once. */
  lemma TrimIdempotent(s: string)
    ensures Trim(Trim(s)) == Trim(s)
  {
    TrimResult(s);
    TrimNoop(Trim(s));
  }

  /** `Character.isWhitespace`. */
  predicate IsWhitespace(c: char) {
    c == ' ' || c == '\t' || c == '\n' || c == '\U{000B}' || c == '\U{000C}' || c == '\r'
    || ('\U{001C}' <= c <= '\U{001F}') || c == '\U{1680}'
    || ('\U{2000}' <= c <= '\U{2006}') || ('\U{2008}' <= c <= '\U{200A}')
    || c == '\U{2028}' || c == '\U{2029}' || c == '\U{205F}' || c == '\U{3000}'
  }

  /** `String.isBlank()`: empty or whitespace only. */
  predicate IsBlank(s: string) {
    forall i :: 0 <= i < |s| ==> IsWhitespace(s[i])
  }

  /** A possibly-null string that is null or blank, the `x == null || x.isBlank()` test. */
  predicate NullOrBlank(s: Option<string>) {
    s.None? || IsBlank(s.value)
  }

  function UpperChar(c: char): char {
    if 'a' <= c <= 'z' then (c as int - 32) as char else c
  }

  /** `String.toUpperCase()`, for ASCII letters. */
  function Upper(s: string): (r: string)
    ensures |r| == |s|
    ensures forall i :: 0 <= i < |s| ==> r[i] == UpperChar(s[i])
  {
    if s == [] then [] else [UpperChar(s[0])] + Upper(s[1..])
  }

  /** `String.equalsIgnoreCase`, for ASCII letters. */
  predicate EqualsIgnoreCase(a: string, b: string) {
    Upper(a) == Upper(b)
  }

  predicate StartsWith(s: string, prefix: string) {
    |prefix| <= |s| && s[..|prefix|] == prefix
  }

  predicate EndsWith(s: string, suffix: string) {
    |suffix| <= |s| && s[|s| - |suffix|..] == suffix
  }

  /** `String.contains`. */
  predicate Contains(s: string, part: string)
    decreases |s|
  {
    StartsWith(s, part) || (|s| > 0 && Contains(s[1..], part))
  }

  /** `String.join(sep, parts)`. */
  function Join(sep: string, parts: seq<string>): string {
    if |parts| == 0 then ""
    else if |parts| == 1 then parts[0]
    else parts[0] + sep + Join(sep, parts[1..])
  }

  function DigitChar(d: nat): char
    requires d < 10
  {
    ('0' as int + d) as char
  }

  /** The decimal text of a non-negative `long` or `int`, as `String.valueOf` renders it. */
  function NatToString(n: nat): (r: string)
    ensures |r| > 0
    ensures forall i :: 0 <= i < |r| ==> '0' <= r[i] <= '9'
  {
    if n < 10 then [DigitChar(n)] else NatToString(n / 10) + [DigitChar(n % 10)]
  }

  /** A run of `n` spaces. */
  function Spaces(n: nat): (r: string)
    ensures |r| == n && forall i :: 0 <= i < n ==> r[i] == ' '
  {
    if n == 0 then "" else " " + Spaces(n - 1)
  }
}
