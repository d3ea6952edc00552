/**
 The string operations the repository takes from its standard library: white
 space, trimming and ASCII classes.
 */
module Text {
  import opened JsonValues

  /** The Unicode White_Space characters. */
  predicate IsWhitespace(c: char) {
    || '\U{0009}' <= c <= '\U{000D}'
    || c == ' ' || c == '\U{0085}' || c == '\U{00A0}' || c == '\U{1680}'
    || '\U{2000}' <= c <= '\U{200A}'
    || c == '\U{2028}' || c == '\U{2029}' || c == '\U{202F}' || c == '\U{205F}' || c == '\U{3000}'
  }

  predicate IsDigit(c: char) { '0' <= c <= '9' }

  predicate IsUpper(c: char) { 'A' <= c <= 'Z' }

  predicate IsLower(c: char) { 'a' <= c <= 'z' }

  predicate IsAlphanumeric(c: char) { IsDigit(c) || IsUpper(c) || IsLower(c) }

  function ToLower(c: char): char {
    if IsUpper(c) then c + 32 as char else c
  }

  function Lowercase(s: string): (r: string)
    ensures |r| == |s| && forall i :: 0 <= i < |s| ==> r[i] == ToLower(s[i])
  {
    seq(|s|, i requires 0 <= i < |s| => ToLower(s[i]))
  }

  function ToUpper(c: char): char {
    if IsLower(c) then c - 32 as char else c
  }

  function Uppercase(s: string): (r: string)
    ensures |r| == |s| && forall i :: 0 <= i < |s| ==> r[i] == ToUpper(s[i])
  {
    seq(|s|, i requires 0 <= i < |s| => ToUpper(s[i]))
  }

  /** Without the white space at its ends. */
  function Trim(s: string): (r: string)
    ensures Trimmed(r) && |r| <= |s|
  {
    if s == "" then ""
    else if IsWhitespace(s[0]) then Trim(s[1..])
    else if IsWhitespace(s[|s| - 1]) then Trim(s[..|s| - 1])
    else s
  }

  /** No white space at either end. */
  predicate Trimmed(s: string) {
    s == "" || (!IsWhitespace(s[0]) && !IsWhitespace(s[|s| - 1]))
  }

  lemma TrimmedStays(s: string)
    requires Trimmed(s)
    ensures Trim(s) == s
  {}

  /** The part before the first `stop`, or all of it. */
  function Upto(s: string, stop: char): (r: string)
    ensures r <= s && (forall i :: 0 <= i < |r| ==> r[i] != stop)
    ensures |r| < |s| ==> s[|r|] == stop
  {
    if s == "" || s[0] == stop then "" else [s[0]] + Upto(s[1..], stop)
  }

  /** Cuts at every separator: one part more than there are separators. */
  function Split(s: string, separator: char): (r: seq<string>)
    ensures r != []
  {
    if s == "" then [""]
    else if s[0] == separator then [""] + Split(s[1..], separator)
    else
      var rest := Split(s[1..], separator);
      [[s[0]] + rest[0]] + rest[1..]
  }

  function NonEmpty(parts: seq<string>): (r: seq<string>)
    ensures forall t :: t in r <==> t in parts && t != ""
  {
    if parts == [] then [] else (if parts[0] == "" then [] else [parts[0]]) + NonEmpty(parts[1..])
  }

  /** At most the first `n` characters. */
  function Take(s: string, n: nat): string {
    if |s| <= n then s else s[..n]
  }

  // ---- decimal numbers ----------------------------------------------------

  function DigitOf(c: char): nat
    requires IsDigit(c)
  {
    c as nat - '0' as nat
  }

  predicate AllDigits(s: string) {
    forall i :: 0 <= i < |s| ==> IsDigit(s[i])
  }

  /** Decimal digits as a number. */
  function Decimal(digits: string): nat
    requires AllDigits(digits)
  {
    if digits == "" then 0 else 10 * Decimal(digits[..|digits| - 1]) + DigitOf(digits[|digits| - 1])
  }

  function DigitChar(n: nat): (c: char)
    requires n < 10
    ensures IsDigit(c) && DigitOf(c) == n
  {
    '0' + n as char
  }

  /** A number in decimal, without leading zeros. */
  function Digits(n: nat): (s: string)
    ensures s != "" && AllDigits(s) && Decimal(s) == n
  {
    if n < 10 then [DigitChar(n)] else
      var s := Digits(n / 10) + [DigitChar(n % 10)];
      assert s[..|s| - 1] == Digits(n / 10);
      s
  }

  const USIZE_LIMIT := 0x1_0000_0000_0000_0000

  /** An unsigned machine integer, with an optional plus sign. */
  function ParseUsize(s: string): Option<nat> {
    var digits := if s != "" && s[0] == '+' then s[1..] else s;
    if digits != "" && AllDigits(digits) && Decimal(digits) < USIZE_LIMIT then Some(Decimal(digits)) else None
  }

  lemma PrintedNumberParses(n: nat)
    requires n < USIZE_LIMIT
    ensures ParseUsize(Digits(n)) == Some(n)
  {}
}
