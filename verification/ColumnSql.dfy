/**
 Columns as they are declared: canonical names, kinds, types and defaults, and
 what a second canonicalisation leaves unchanged.
 */
module ColumnSql {
  import opened Basics
  import opened JsonValues
  import opened Text

  // ---- names --------------------------------------------------------------

  predicate IsSlugChar(c: char) {
    IsDigit(c) || IsLower(c) || c == '-' || c == '_'
  }

  function Dashed(s: string): (r: string)
    ensures |r| == |s| && forall i :: 0 <= i < |s| ==> r[i] == if IsAlphanumeric(s[i]) || s[i] == '_' then s[i] else '-'
  {
    seq(|s|, i requires 0 <= i < |s| => if IsAlphanumeric(s[i]) || s[i] == '_' then s[i] else '-')
  }

  function TrimDashesLeft(s: string): (r: string)
    ensures |r| <= |s| && r == s[|s| - |r|..] && (r == "" || r[0] != '-')
  {
    if s != "" && s[0] == '-' then
      var r := TrimDashesLeft(s[1..]);
      assert s[1..][|s| - 1 - |r|..] == s[|s| - |r|..];
      r
    else s
  }

  function TrimDashesRight(s: string): (r: string)
    ensures r <= s && (r == "" || r[|r| - 1] != '-')
  {
    if s != "" && s[|s| - 1] == '-' then TrimDashesRight(s[..|s| - 1]) else s
  }

  predicate SlugChars(s: string) {
    forall i :: 0 <= i < |s| ==> IsSlugChar(s[i])
  }

  /** A name in canonical form: lower-case letters, digits, `-` and `_`, no dash at either end. */
  predicate IsSlug(s: string) {
    && SlugChars(s)
    && (s == "" || (s[0] != '-' && s[|s| - 1] != '-'))
  }

  function SlugSegment(raw: string): string {
    TrimDashesRight(TrimDashesLeft(Dashed(Lowercase(Trim(raw)))))
  }

  lemma DashedLowercase(s: string)
    ensures SlugChars(Dashed(Lowercase(s)))
  {
    forall i | 0 <= i < |s| ensures IsSlugChar(Dashed(Lowercase(s))[i]) {
      assert Lowercase(s)[i] == ToLower(s[i]);
    }
  }

  lemma SlugCharsStay(s: string)
    requires SlugChars(s)
    ensures Dashed(Lowercase(s)) == s
  {
    forall i | 0 <= i < |s| ensures Dashed(Lowercase(s))[i] == s[i] {
      assert IsSlugChar(s[i]);
      assert Lowercase(s)[i] == ToLower(s[i]);
    }
  }

  lemma SlugIsTrimmed(s: string)
    requires IsSlug(s)
    ensures Trimmed(s)
  {
    if s != "" {
      assert IsSlugChar(s[0]) && IsSlugChar(s[|s| - 1]);
    }
  }

  lemma TrimmedLeftStaysSlug(s: string)
    requires SlugChars(s)
    ensures SlugChars(TrimDashesLeft(s))
  {}

  lemma TrimmedRightStaysSlug(s: string)
    requires SlugChars(s)
    ensures SlugChars(TrimDashesRight(s))
  {}

  lemma SlugIsSlug(raw: string)
    ensures IsSlug(SlugSegment(raw))
  {
    hide Trim, SlugChars, Dashed, Lowercase, TrimDashesLeft, TrimDashesRight;
    var text := Trim(raw);
    DashedLowercase(text);
    var left := TrimDashesLeft(Dashed(Lowercase(text)));
    TrimmedLeftStaysSlug(Dashed(Lowercase(text)));
    TrimmedRightStaysSlug(left);
  }

  /** Canonical names stay as they are. */
  lemma SlugStays(s: string)
    requires IsSlug(s)
    ensures SlugSegment(s) == s
  {
    hide Trim, IsSlugChar, Dashed, Lowercase, Trimmed;
    SlugIsTrimmed(s);
    TrimmedStays(s);
    SlugCharsStay(s);
  }

  function SlugParts(parts: seq<string>): seq<string> {
    if parts == [] then [] else [SlugSegment(parts[0])] + SlugParts(parts[1..])
  }

  /** A table name, bare or in a schema, in canonical form; a bare name stands in `public`. */
  function QualifiedSlug(raw: string): string {
    var parts := NonEmpty(SlugParts(Split(raw, '.')));
    if |parts| == 1 then parts[0]
    else if |parts| == 2 then if parts[0] == "public" then parts[1] else parts[0] + "." + parts[1]
    else ""
  }

  // ---- defaults -----------------------------------------------------------

  function AllDigitsUpTo(s: string): (n: nat)
    ensures n <= |s| && AllDigits(s[..n]) && (n < |s| ==> !IsDigit(s[n]))
  {
    if s == "" || !IsDigit(s[0]) then 0 else
      var n := 1 + AllDigitsUpTo(s[1..]);
      assert s[..n] == [s[0]] + s[1..][..n - 1];
      n
  }

  predicate IsExponent(s: string) {
    s == "" || (
      (s[0] == 'e' || s[0] == 'E')
      && var rest := if |s| > 1 && (s[1] == '+' || s[1] == '-') then s[2..] else s[1..];
         rest != "" && AllDigits(rest))
  }

  /** Digits with at most one point among them, at least one digit, and an exponent. */
  predicate IsNumber(s: string) {
    var whole := AllDigitsUpTo(s);
    var point := whole < |s| && s[whole] == '.';
    var fraction := if point then AllDigitsUpTo(s[whole + 1..]) else 0;
    var end := if point then whole + 1 + fraction else whole;
    whole + fraction > 0 && IsExponent(s[end..])
  }

  /** What reads as a floating-point number. */
  predicate IsFloat(s: string) {
    var body := if s != "" && (s[0] == '+' || s[0] == '-') then s[1..] else s;
    Lowercase(body) in {"inf", "infinity", "nan"} || IsNumber(body)
  }

  const KEYWORDS := {"true", "false", "null", "now()", "ulid()", "uuid4()"}

  /** `''` removed, from left to right. */
  function WithoutPairs(s: string): string
    decreases |s|
  {
    if s == "" then ""
    else if |s| >= 2 && s[0] == '\'' && s[1] == '\'' then WithoutPairs(s[2..])
    else [s[0]] + WithoutPairs(s[1..])
  }

  function Doubled(s: string): string {
    if s == "" then "" else (if s[0] == '\'' then "''" else [s[0]]) + Doubled(s[1..])
  }

  predicate IsQuoted(s: string) {
    |s| >= 2 && s[0] == '\'' && s[|s| - 1] == '\'' && '\'' !in WithoutPairs(s[1..|s| - 1])
  }

  predicate HasWhitespace(s: string) {
    exists i :: 0 <= i < |s| && IsWhitespace(s[i])
  }

  predicate StaysAsWritten(value: string) {
    (IsFloat(value) && !HasWhitespace(value)) || Lowercase(value) in KEYWORDS || IsQuoted(value)
  }

  function DefaultSql(raw: string): string {
    var value := Trim(raw);
    if value == "" then ""
    else if StaysAsWritten(value) then value
    else "'" + Doubled(value) + "'"
  }

  /** The text a literal's body stands for: a doubled quote is a quote, a single one ends the literal. */
  function Unescape(body: string): Option<string>
    decreases |body|
  {
    if body == "" then Some("")
    else if body[0] != '\'' then
      var rest := Unescape(body[1..]);
      if rest.Some? then Some([body[0]] + rest.value) else None
    else if |body| >= 2 && body[1] == '\'' then
      var rest := Unescape(body[2..]);
      if rest.Some? then Some("'" + rest.value) else None
    else None
  }

  /** The text of a string that is exactly one SQL string literal. */
  function LiteralText(s: string): Option<string> {
    if |s| >= 2 && s[0] == '\'' && s[|s| - 1] == '\'' then Unescape(s[1..|s| - 1]) else None
  }

  lemma {:induction false} PairsGoneMeansOneLiteral(body: string)
    ensures '\'' !in WithoutPairs(body) <==> Unescape(body).Some?
    decreases |body|
  {
    if body == "" {
    } else if |body| >= 2 && body[0] == '\'' && body[1] == '\'' {
      PairsGoneMeansOneLiteral(body[2..]);
    } else {
      PairsGoneMeansOneLiteral(body[1..]);
    }
  }

  lemma {:induction false} DoubledDecodes(s: string)
    ensures Unescape(Doubled(s)) == Some(s)
  {
    if s != "" {
      DoubledDecodes(s[1..]);
      var rest := Doubled(s[1..]);
      assert s == [s[0]] + s[1..];
      if s[0] == '\'' {
        assert Doubled(s)[2..] == rest;
      } else {
        assert Doubled(s)[1..] == rest;
      }
    }
  }

  lemma QuotingDecodes(value: string)
    ensures LiteralText("'" + Doubled(value) + "'") == Some(value)
  {
    var s := "'" + Doubled(value) + "'";
    assert s[1..|s| - 1] == Doubled(value);
    DoubledDecodes(value);
  }

  lemma QuotedIsLiteral(value: string)
    requires IsQuoted(value)
    ensures LiteralText(value).Some?
  {
    PairsGoneMeansOneLiteral(value[1..|value| - 1]);
  }

  /** A default is empty, a number, one of six keywords, or exactly one string literal. */
  lemma DefaultIsOneOf(raw: string)
    ensures var sql := DefaultSql(raw);
      sql == "" || IsFloat(sql) || Lowercase(sql) in KEYWORDS || LiteralText(sql).Some?
    ensures var value := Trim(raw);
      value != "" && !StaysAsWritten(value) ==> LiteralText(DefaultSql(raw)) == Some(value)
  {
    hide IsFloat, HasWhitespace, IsQuoted, LiteralText, Trim, Lowercase, Doubled;
    var value := Trim(raw);
    if value != "" {
      if IsQuoted(value) {
        QuotedIsLiteral(value);
      }
      QuotingDecodes(value);
    }
  }

  lemma QuotingIsQuoted(value: string)
    ensures var s := "'" + Doubled(value) + "'"; IsQuoted(s) && Trimmed(s)
  {
    var s := "'" + Doubled(value) + "'";
    assert s[1..|s| - 1] == Doubled(value);
    DoubledDecodes(value);
    PairsGoneMeansOneLiteral(Doubled(value));
  }

  /** Written twice, a default is what it was written once. */
  lemma DefaultTwice(raw: string)
    ensures DefaultSql(DefaultSql(raw)) == DefaultSql(raw)
  {
    hide IsFloat, HasWhitespace, IsQuoted, Trim, Trimmed, Lowercase, Doubled;
    var value := Trim(raw);
    TrimmedStays(value);
    QuotingIsQuoted(value);
    TrimmedStays("'" + Doubled(value) + "'");
  }

  // ---- kinds --------------------------------------------------------------

  function TrimParensRight(s: string): (r: string)
    ensures r <= s && (r == "" || r[|r| - 1] != ')')
  {
    if s != "" && s[|s| - 1] == ')' then TrimParensRight(s[..|s| - 1]) else s
  }

  function Positive(n: Option<nat>): Option<nat> {
    if n.Some? && n.value == 0 then None else n
  }

  datatype Kind = Kind(base: string, dims: Option<nat>)

  /** A kind and the one parameter it can carry. */
  function ParseKind(raw: string): Kind {
    var kind := Lowercase(Trim(raw));
    var before := Upto(kind, '(');
    if |before| == |kind| then Kind(kind, None) else
      Kind(Trim(before), Positive(ParseUsize(Trim(TrimParensRight(kind[|before| + 1..])))))
  }

  const NUMBER_KINDS := {"number", "real", "integer", "int", "float"}
  const WIDE_KINDS := {"bigint", "smallint", "double precision"}

  /** A name, and something in parentheses after it. */
  function Applied(name: string, inner: string): string {
    name + "(" + inner + ")"
  }

  function VectorText(name: string, n: nat): string {
    Applied(name, Digits(n))
  }

  function MapDeclaredKind(raw: string): string {
    var kind := ParseKind(raw);
    if kind.base in NUMBER_KINDS || kind.base in WIDE_KINDS then "number"
    else if kind.base in {"boolean", "bool"} then "boolean"
    else if kind.base in {"json", "jsonb"} then "json"
    else if kind.base == "vector" then
      if kind.dims.Some? then VectorText("vector", kind.dims.value) else "vector"
    else if kind.base in {"geo", "geometry", "point"} then "geo"
    else "string"
  }

  /** The SQL type of a kind; nothing for a vector whose length is not given. */
  function MapFieldType(raw: string): Option<string> {
    var kind := ParseKind(raw);
    if kind.base in NUMBER_KINDS then Some("REAL")
    else if kind.base in {"boolean", "bool"} then Some("BOOLEAN")
    else if kind.base in {"json", "jsonb"} then Some("JSONB")
    else if kind.base == "vector" then
      if kind.dims.Some? then Some(VectorText("VECTOR", kind.dims.value)) else None
    else if kind.base in {"geo", "geometry"} then Some("GEOMETRY")
    else if kind.base == "point" then Some("GEOMETRY(Point,4326)")
    else Some("TEXT")
  }

  const KNOWN_TYPES := {
    "TEXT", "INT", "INTEGER", "BIGINT", "SMALLINT", "REAL", "DOUBLE PRECISION", "BOOLEAN",
    "JSONB", "TIMESTAMPTZ", "DATE", "GEOMETRY", "VECTOR"
  }

  const U32_LIMIT := 0x1_0000_0000

  predicate AllLetters(s: string) {
    forall i :: 0 <= i < |s| ==> IsUpper(s[i]) || IsLower(s[i])
  }

  /** `shape` or `shape,srid`, nothing more, rebuilt from its two pieces. */
  function GeometryType(inner: string): Option<string> {
    var first := Upto(inner, ',');
    var shape := Trim(first);
    if shape == "" || !AllLetters(shape) then None
    else if |first| == |inner| then Some(Applied("GEOMETRY", shape))
    else
      var rest := inner[|first| + 1..];
      var srid := Trim(rest);
      if ',' in rest || srid == "" || !AllDigits(srid) || Decimal(srid) >= U32_LIMIT then None
      else Some(Applied("GEOMETRY", shape + "," + Digits(Decimal(srid))))
  }

  /** What stands between the first `(` and the next. */
  function SecondPart(s: string): Option<string> {
    var before := Upto(s, '(');
    if |before| == |s| then None else Some(Upto(s[|before| + 1..], '('))
  }

  function VectorType(upper: string): Option<string> {
    var part := SecondPart(upper);
    if part.None? then None else
      var dims := Positive(ParseUsize(Trim(TrimParensRight(part.value))));
      if dims.Some? then Some(VectorText("VECTOR", dims.value)) else None
  }

  /** The type between the first `(` and the `)` that has to end the text. */
  function GeometryOf(raw: string): Option<string> {
    var before := Upto(raw, '(');
    if |before| == |raw| then Some("GEOMETRY") else
      var inner := raw[|before| + 1..];
      if inner == "" || inner[|inner| - 1] != ')' then None else GeometryType(inner[..|inner| - 1])
  }

  function TypeOfBase(base: string, raw: string): Option<string> {
    if base !in KNOWN_TYPES then None
    else if base == "GEOMETRY" then GeometryOf(raw)
    else if base == "VECTOR" then VectorType(Uppercase(raw))
    else Some(base)
  }

  /** A kind that is already an SQL type, the way the catalog writes it. */
  function SqlTypeOf(kind: string): Option<string> {
    var raw := Trim(kind);
    TypeOfBase(Trim(Upto(Uppercase(raw), '(')), raw)
  }

  // ---- a type read back ---------------------------------------------------

  lemma LettersOrDigitsTrimmed(s: string)
    requires AllLetters(s) || AllDigits(s)
    ensures Trim(s) == s
  {
    if s != "" {
      assert (IsAlphanumeric(s[0])) && IsAlphanumeric(s[|s| - 1]);
    }
    TrimmedStays(s);
  }

  lemma {:induction false} UptoStops(before: string, stop: char, rest: string)
    requires stop !in before
    ensures Upto(before + [stop] + rest, stop) == before
    ensures Upto(before, stop) == before
  {
    var s := before + [stop] + rest;
    if before != "" {
      UptoStops(before[1..], stop, rest);
      assert s[1..] == before[1..] + [stop] + rest;
      assert s[0] == before[0];
    }
  }

  lemma ParenTrimmed(s: string)
    requires s != "" && s[|s| - 1] != ')'
    ensures TrimParensRight(s + ")") == s
  {
    assert (s + ")")[..|s|] == s;
  }

  lemma UppercaseAppended(a: string, b: string)
    ensures Uppercase(a + b) == Uppercase(a) + Uppercase(b)
  {
    hide Uppercase, ToUpper;
    forall i | 0 <= i < |a + b| ensures Uppercase(a + b)[i] == (Uppercase(a) + Uppercase(b))[i] {}
  }

  lemma LowercaseAppended(a: string, b: string)
    ensures Lowercase(a + b) == Lowercase(a) + Lowercase(b)
  {
    hide Lowercase, ToLower;
    forall i | 0 <= i < |a + b| ensures Lowercase(a + b)[i] == (Lowercase(a) + Lowercase(b))[i] {}
  }

  lemma {:induction false} DigitsKeepCase(s: string)
    requires AllDigits(s)
    ensures Uppercase(s) == s && Lowercase(s) == s
  {
    if s != "" {
      assert IsDigit(s[0]) && AllDigits(s[1..]);
      DigitsKeepCase(s[1..]);
    }
  }

  /** Upper-case letters and inner spaces. */
  predicate PlainType(t: string) {
    && t != "" && IsUpper(t[0]) && IsUpper(t[|t| - 1])
    && forall i :: 0 <= i < |t| ==> IsUpper(t[i]) || t[i] == ' '
  }

  lemma KnownTypesArePlain(t: string)
    requires t in KNOWN_TYPES
    ensures PlainType(t)
  {}

  lemma PlainUppercase(t: string)
    requires forall i :: 0 <= i < |t| ==> IsUpper(t[i]) || t[i] == ' '
    ensures Uppercase(t) == t
  {}

  lemma PlainTypeTrimmed(t: string)
    requires PlainType(t)
    ensures Trim(t) == t && '(' !in t
  {
    assert '(' !in t;
    assert Trimmed(t);
    hide PlainType, Trimmed;
    TrimmedStays(t);
  }

  lemma PlainTypeStays(t: string)
    requires PlainType(t)
    ensures Trim(t) == t && Uppercase(t) == t && Upto(t, '(') == t && '(' !in t
  {
    hide Uppercase, Upto, Trim, IsUpper;
    PlainUppercase(t);
    hide PlainType;
    PlainTypeTrimmed(t);
    UptoStops(t, '(', "");
  }

  lemma KnownTypeStays(t: string)
    requires t in KNOWN_TYPES && t != "VECTOR"
    ensures SqlTypeOf(t) == Some(t)
  {
    hide KNOWN_TYPES;
    KnownTypesArePlain(t);
    hide PlainType;
    PlainTypeStays(t);
    assert '(' !in t;
  }

  lemma AppliedReads(name: string, inner: string)
    requires name != "" && Trimmed(name) && '(' !in name
    ensures var t := Applied(name, inner);
      && Trim(t) == t && Upto(t, '(') == name && t[|name| + 1..] == inner + ")" && Trim(name) == name
  {
    hide Trim, Upto;
    var t := Applied(name, inner);
    assert t[0] == name[0] && t[|t| - 1] == ')';
    assert Trimmed(t);
    hide Trimmed;
    TrimmedStays(t);
    TrimmedStays(name);
    assert t == name + "(" + (inner + ")");
    UptoStops(name, '(', inner + ")");
  }

  lemma AppliedUppercase(name: string, inner: string)
    ensures Uppercase(Applied(name, inner)) == Applied(Uppercase(name), Uppercase(inner))
  {
    hide Uppercase;
    assert Uppercase("(") == "(" && Uppercase(")") == ")";
    UppercaseAppended(name + "(" + inner, ")");
    UppercaseAppended(name + "(", inner);
    UppercaseAppended(name, "(");
  }

  lemma AppliedLowercase(name: string, inner: string)
    ensures Lowercase(Applied(name, inner)) == Applied(Lowercase(name), Lowercase(inner))
  {
    hide Lowercase;
    assert Lowercase("(") == "(" && Lowercase(")") == ")";
    LowercaseAppended(name + "(" + inner, ")");
    LowercaseAppended(name + "(", inner);
    LowercaseAppended(name, "(");
  }

  lemma NoParenInDigits(n: nat)
    ensures Upto(Digits(n) + ")", '(') == Digits(n) + ")"
    ensures TrimParensRight(Digits(n) + ")") == Digits(n)
  {
    hide Upto, TrimParensRight;
    var digits := Digits(n);
    assert IsDigit(digits[|digits| - 1]);
    ParenTrimmed(digits);
    assert '(' !in digits + ")";
    UptoStops(digits + ")", '(', "");
  }

  /** The number between the parentheses of a vector type comes back. */
  lemma DimensionReads(n: nat)
    requires 0 < n < USIZE_LIMIT
    ensures Positive(ParseUsize(Trim(TrimParensRight(Digits(n) + ")")))) == Some(n)
  {
    hide ParseUsize, Trim, TrimParensRight;
    NoParenInDigits(n);
    LettersOrDigitsTrimmed(Digits(n));
    PrintedNumberParses(n);
  }

  lemma DimensionPart(name: string, n: nat)
    requires name != "" && Trimmed(name) && '(' !in name
    ensures SecondPart(VectorText(name, n)) == Some(Digits(n) + ")")
  {
    hide Trim, Upto, Digits, Trimmed;
    AppliedReads(name, Digits(n));
    NoParenInDigits(n);
  }

  lemma VectorTypeOfText(n: nat)
    requires 0 < n < USIZE_LIMIT
    ensures VectorType(VectorText("VECTOR", n)) == Some(VectorText("VECTOR", n))
  {
    hide Trim, TrimParensRight, ParseUsize, Digits, Positive, SecondPart, VectorText;
    DimensionPart("VECTOR", n);
    DimensionReads(n);
  }

  lemma VectorTypeStays(n: nat)
    requires 0 < n < USIZE_LIMIT
    ensures SqlTypeOf(VectorText("VECTOR", n)) == Some(VectorText("VECTOR", n))
  {
    hide Trim, Upto, Uppercase, VectorType, GeometryOf, Digits;
    var t := VectorText("VECTOR", n);
    DigitsKeepCase(Digits(n));
    PlainTypeStays("VECTOR");
    AppliedUppercase("VECTOR", Digits(n));
    AppliedReads("VECTOR", Digits(n));
    VectorTypeOfText(n);
  }

  lemma GeometryWithoutSrid(shape: string)
    requires shape != "" && AllLetters(shape)
    ensures GeometryType(shape) == Some(Applied("GEOMETRY", shape))
  {
    assert ',' !in shape;
    UptoStops(shape, ',', "");
    LettersOrDigitsTrimmed(shape);
  }

  lemma GeometryWithSrid(shape: string, srid: nat)
    requires shape != "" && AllLetters(shape) && srid < U32_LIMIT
    ensures GeometryType(shape + "," + Digits(srid)) == Some(Applied("GEOMETRY", shape + "," + Digits(srid)))
  {
    hide Trim, Upto;
    assert ',' !in shape;
    UptoStops(shape, ',', Digits(srid));
    LettersOrDigitsTrimmed(shape);
    LettersOrDigitsTrimmed(Digits(srid));
    var inner := shape + "," + Digits(srid);
    assert inner[|shape| + 1..] == Digits(srid);
    assert ',' !in Digits(srid);
  }

  lemma GeometryTypeStays(inner: string)
    requires GeometryType(inner) == Some(Applied("GEOMETRY", inner))
    ensures SqlTypeOf(Applied("GEOMETRY", inner)) == Some(Applied("GEOMETRY", inner))
  {
    hide Trim, Upto, Uppercase, GeometryType, VectorType;
    var t := Applied("GEOMETRY", inner);
    PlainTypeStays("GEOMETRY");
    AppliedUppercase("GEOMETRY", inner);
    AppliedReads("GEOMETRY", inner);
    AppliedReads("GEOMETRY", Uppercase(inner));
    assert (inner + ")")[..|inner|] == inner;
    assert GeometryOf(t) == Some(t);
  }

  /** A type text that reads back as itself. */
  predicate ReadsBack(t: string) {
    t != "" && SqlTypeOf(t) == Some(t)
  }

  lemma GeometryReadsBack(inner: string)
    requires GeometryType(inner).Some?
    ensures ReadsBack(GeometryType(inner).value)
  {
    hide Trim, Upto, SqlTypeOf, Digits;
    var first := Upto(inner, ',');
    var shape := Trim(first);
    if |first| == |inner| {
      GeometryWithoutSrid(shape);
      GeometryTypeStays(shape);
    } else {
      var n := Decimal(Trim(inner[|first| + 1..]));
      GeometryWithSrid(shape, n);
      GeometryTypeStays(shape + "," + Digits(n));
      assert GeometryType(inner).value == Applied("GEOMETRY", shape + "," + Digits(n));
    }
  }

  lemma VectorReadsBack(upper: string)
    requires VectorType(upper).Some?
    ensures ReadsBack(VectorType(upper).value)
  {
    hide Trim, TrimParensRight, SecondPart, SqlTypeOf, Digits;
    var n := Positive(ParseUsize(Trim(TrimParensRight(SecondPart(upper).value)))).value;
    VectorTypeStays(n);
  }

  lemma KnownTypeReadsBack(t: string)
    requires t in KNOWN_TYPES && t != "VECTOR"
    ensures ReadsBack(t)
  {
    KnownTypesArePlain(t);
    assert t != "";
    hide SqlTypeOf, KNOWN_TYPES, PlainType;
    KnownTypeStays(t);
  }

  lemma TypeOfBaseReadsBack(base: string, raw: string)
    requires TypeOfBase(base, raw).Some?
    ensures ReadsBack(TypeOfBase(base, raw).value)
  {
    hide ReadsBack, GeometryType, VectorType, Upto, Uppercase, Digits;
    if base == "GEOMETRY" {
      var before := Upto(raw, '(');
      if |before| == |raw| {
        KnownTypeReadsBack("GEOMETRY");
      } else {
        var inner := raw[|before| + 1..];
        GeometryReadsBack(inner[..|inner| - 1]);
      }
    } else if base == "VECTOR" {
      VectorReadsBack(Uppercase(raw));
    } else {
      KnownTypeReadsBack(base);
    }
  }

  /** Every type the grammar writes, it reads back as the same type. */
  lemma SqlTypeStays(kind: string)
    requires SqlTypeOf(kind).Some?
    ensures ReadsBack(SqlTypeOf(kind).value)
  {
    hide ReadsBack, TypeOfBase, Trim, Uppercase, Upto;
    var raw := Trim(kind);
    TypeOfBaseReadsBack(Trim(Upto(Uppercase(raw), '(')), raw);
  }

  // ---- a kind read back ---------------------------------------------------

  const PLAIN_KINDS := {"number", "boolean", "json", "vector", "geo", "string"}

  predicate VectorKind(kind: string) {
    exists n: nat :: 0 < n < USIZE_LIMIT && kind == VectorText("vector", n)
  }

  predicate LowercaseWord(s: string) {
    s != "" && forall i :: 0 <= i < |s| ==> IsLower(s[i])
  }

  lemma PlainKindsAreWords(kind: string)
    requires kind in PLAIN_KINDS
    ensures LowercaseWord(kind)
  {}

  lemma WordParses(kind: string)
    requires LowercaseWord(kind)
    ensures ParseKind(kind) == Kind(kind, None)
  {
    assert Trimmed(kind) && '(' !in kind;
    assert Lowercase(kind) == kind;
    hide LowercaseWord, Trimmed, Lowercase, Trim, Upto;
    TrimmedStays(kind);
    UptoStops(kind, '(', "");
  }

  lemma LowercaseWordKind(kind: string)
    requires kind in PLAIN_KINDS
    ensures ParseKind(kind) == Kind(kind, None)
  {
    hide PLAIN_KINDS, LowercaseWord, ParseKind;
    PlainKindsAreWords(kind);
    WordParses(kind);
  }

  lemma VectorKindParses(n: nat)
    requires 0 < n < USIZE_LIMIT
    ensures ParseKind(VectorText("vector", n)) == Kind("vector", Some(n))
  {
    assert Lowercase("vector") == "vector" && Trimmed("vector");
    hide Trim, Upto, Lowercase, Trimmed, TrimParensRight, Digits, ParseUsize, Positive;
    var t := VectorText("vector", n);
    DigitsKeepCase(Digits(n));
    AppliedLowercase("vector", Digits(n));
    AppliedReads("vector", Digits(n));
    DimensionReads(n);
    assert t[6] == '(';
  }

  lemma DimensionsInRange(raw: string)
    ensures var kind := ParseKind(raw); kind.dims.Some? ==> 0 < kind.dims.value < USIZE_LIMIT
  {
    hide Trim, Upto, Lowercase, TrimParensRight;
  }

  lemma MappedKindIsCanonical(raw: string)
    ensures MapDeclaredKind(raw) in PLAIN_KINDS || VectorKind(MapDeclaredKind(raw))
  {
    hide ParseKind, VectorText;
    DimensionsInRange(raw);
  }

  /** Kinds in canonical form stay as they are. */
  lemma MapDeclaredKindTwice(raw: string)
    ensures MapDeclaredKind(MapDeclaredKind(raw)) == MapDeclaredKind(raw)
  {
    MappedKindIsCanonical(raw);
    var kind := MapDeclaredKind(raw);
    CanonicalKindStays(kind);
  }

  lemma CanonicalKindStays(kind: string)
    requires kind in PLAIN_KINDS || VectorKind(kind)
    ensures MapDeclaredKind(kind) == kind
  {
    hide ParseKind, VectorText;
    if kind in PLAIN_KINDS {
      LowercaseWordKind(kind);
    } else {
      var n: nat :| 0 < n < USIZE_LIMIT && kind == VectorText("vector", n);
      VectorKindParses(n);
    }
  }

  lemma WordType(kind: string, upper: string)
    requires PlainType(upper) && Trimmed(kind)
    requires |kind| == |upper| && forall i :: 0 <= i < |kind| ==> upper[i] == ToUpper(kind[i])
    ensures SqlTypeOf(kind) == TypeOfBase(upper, kind)
  {
    assert Uppercase(kind) == upper;
    hide Uppercase, Upto, TypeOfBase, Trim, Trimmed;
    TrimmedStays(kind);
    PlainTypeStays(upper);
  }

  /** Of the canonical kinds, `boolean` and the sized vectors are types already. */
  lemma WordTypes(kind: string)
    requires kind in PLAIN_KINDS
    ensures SqlTypeOf(kind) == if kind == "boolean" then Some("BOOLEAN") else None
  {
    hide SqlTypeOf, TypeOfBase;
    NumberType();
    BooleanType();
    JsonType();
    VectorHasNoType();
    GeoType();
    StringType();
  }

  lemma NumberType()
    ensures SqlTypeOf("number") == None
  {
    hide SqlTypeOf, GeometryOf, VectorType, Uppercase;
    WordType("number", "NUMBER");
  }

  lemma BooleanType()
    ensures SqlTypeOf("boolean") == Some("BOOLEAN")
  {
    hide SqlTypeOf, GeometryOf, VectorType, Uppercase;
    WordType("boolean", "BOOLEAN");
  }

  lemma JsonType()
    ensures SqlTypeOf("json") == None
  {
    hide SqlTypeOf, GeometryOf, VectorType, Uppercase;
    WordType("json", "JSON");
  }

  lemma VectorHasNoType()
    ensures SqlTypeOf("vector") == None
  {
    hide SqlTypeOf, GeometryOf;
    WordType("vector", "VECTOR");
    assert Uppercase("vector") == "VECTOR";
    hide Uppercase;
    UptoStops("VECTOR", '(', "");
  }

  lemma GeoType()
    ensures SqlTypeOf("geo") == None
  {
    hide SqlTypeOf, GeometryOf, VectorType, Uppercase;
    WordType("geo", "GEO");
  }

  lemma StringType()
    ensures SqlTypeOf("string") == None
  {
    hide SqlTypeOf, GeometryOf, VectorType, Uppercase;
    WordType("string", "STRING");
  }

  lemma VectorKindUppercase(n: nat)
    ensures Uppercase(VectorText("vector", n)) == VectorText("VECTOR", n)
  {
    assert Uppercase("vector") == "VECTOR";
    hide Uppercase, Digits, Applied;
    DigitsKeepCase(Digits(n));
    AppliedUppercase("vector", Digits(n));
  }

  lemma VectorNameReads(name: string, n: nat)
    requires name != "" && Trimmed(name) && '(' !in name
    ensures var t := VectorText(name, n); Trim(t) == t && Trim(Upto(t, '(')) == name
  {
    hide Trim, Upto, Digits, Trimmed;
    AppliedReads(name, Digits(n));
  }

  lemma VectorKindType(n: nat)
    requires 0 < n < USIZE_LIMIT
    ensures SqlTypeOf(VectorText("vector", n)) == Some(VectorText("VECTOR", n))
  {
    hide Trim, Upto, Uppercase, TypeOfBase, VectorText;
    VectorNameReads("vector", n);
    VectorNameReads("VECTOR", n);
    VectorKindUppercase(n);
    VectorBase(VectorText("vector", n), n);
  }

  lemma VectorBase(raw: string, n: nat)
    requires 0 < n < USIZE_LIMIT && Uppercase(raw) == VectorText("VECTOR", n)
    ensures TypeOfBase("VECTOR", raw) == Some(VectorText("VECTOR", n))
  {
    hide Uppercase, VectorType, GeometryOf, VectorText;
    VectorTypeOfText(n);
  }

  // ---- attributes ---------------------------------------------------------

  datatype Attribute = Attribute(
    name: string, kind: string, indexTypes: seq<string>, unique: bool, declared: string,
    default: string, notNull: bool, primaryKey: bool)

  /** The exact type: as declared, or the kind itself when it is a type. */
  function DeclaredType(declared: string, kind: string): string {
    if SqlTypeOf(declared).Some? then SqlTypeOf(declared).value
    else if SqlTypeOf(kind).Some? then SqlTypeOf(kind).value
    else ""
  }

  /** Canonical names of the index kinds, each once, in order of first mention. */
  function IndexTypes(items: seq<string>): seq<string> {
    if items == [] then [] else
      var before := IndexTypes(items[..|items| - 1]);
      var key := SlugSegment(items[|items| - 1]);
      if key == "" || key in before then before else before + [key]
  }

  function NormalAttribute(a: Attribute): Attribute {
    Attribute(
      SlugSegment(a.name), MapDeclaredKind(a.kind), IndexTypes(a.indexTypes), a.unique,
      DeclaredType(a.declared, a.kind), DefaultSql(a.default), a.notNull, a.primaryKey)
  }

  /** The type a column is declared with: its own, or its kind's. */
  function ColumnType(a: Attribute): Option<string> {
    if a.declared == "" then MapFieldType(a.kind) else Some(a.declared)
  }

  /** A column definition; nothing for a vector whose length is not given. */
  function ColumnSql(a: Attribute): Option<string> {
    var kind := ColumnType(a);
    if kind.None? then None else
      Some(a.name + " " + kind.value
        + (if a.primaryKey then " PRIMARY KEY" else "")
        + (if a.notNull then " NOT NULL" else "")
        + (if a.default != "" then " DEFAULT " + a.default else "")
        + (if a.unique then " UNIQUE" else ""))
  }

  predicate Slugs(items: seq<string>) {
    forall i :: 0 <= i < |items| ==> items[i] != "" && IsSlug(items[i])
  }

  lemma {:induction false} IndexTypesAreCanonical(items: seq<string>)
    ensures Slugs(IndexTypes(items)) && Distinct(IndexTypes(items))
  {
    hide IsSlug, SlugSegment;
    if items != [] {
      IndexTypesAreCanonical(items[..|items| - 1]);
      SlugIsSlug(items[|items| - 1]);
    }
  }

  lemma {:induction false} CanonicalIndexTypesStay(items: seq<string>)
    requires Slugs(items) && Distinct(items)
    ensures IndexTypes(items) == items
  {
    hide IsSlug, SlugSegment;
    if items != [] {
      var n := |items| - 1;
      CanonicalIndexTypesStay(items[..n]);
      SlugStays(items[n]);
      assert items[..n] + [items[n]] == items;
    }
  }

  lemma IndexTypesTwice(items: seq<string>)
    ensures IndexTypes(IndexTypes(items)) == IndexTypes(items)
  {
    hide Slugs, Distinct, IndexTypes;
    IndexTypesAreCanonical(items);
    CanonicalIndexTypesStay(IndexTypes(items));
  }

  /** A kind that is a type although nothing was declared. */
  predicate KindIsType(kind: string) {
    kind == "boolean" || VectorKind(kind)
  }

  lemma VectorKindIsNotPlain(kind: string)
    requires VectorKind(kind)
    ensures kind !in PLAIN_KINDS
  {
    hide ParseKind, VectorText, PLAIN_KINDS;
    var n: nat :| 0 < n < USIZE_LIMIT && kind == VectorText("vector", n);
    VectorKindParses(n);
    if kind in PLAIN_KINDS {
      LowercaseWordKind(kind);
    }
  }

  lemma CanonicalKindTypes(kind: string)
    requires kind in PLAIN_KINDS || VectorKind(kind)
    ensures SqlTypeOf(kind).Some? <==> KindIsType(kind)
    ensures SqlTypeOf(kind).Some? ==> MapFieldType(kind) == SqlTypeOf(kind)
  {
    hide SqlTypeOf, ParseKind, VectorText;
    if VectorKind(kind) {
      VectorKindIsNotPlain(kind);
      var n: nat :| 0 < n < USIZE_LIMIT && kind == VectorText("vector", n);
      VectorKindType(n);
      VectorKindParses(n);
    } else {
      WordTypes(kind);
      LowercaseWordKind(kind);
    }
  }

  lemma EmptyIsNoType()
    ensures SqlTypeOf("") == None
  {}

  lemma DeclaredTypeReadsBack(declared: string, kind: string)
    ensures var t := DeclaredType(declared, kind); t == "" || ReadsBack(t)
  {
    hide SqlTypeOf, ReadsBack;
    if SqlTypeOf(declared).Some? {
      SqlTypeStays(declared);
    } else if SqlTypeOf(kind).Some? {
      SqlTypeStays(kind);
    }
  }

  /** A record that canonicalisation has been through. */
  ghost predicate Canonical(a: Attribute) {
    && a.name != "" && a.name != "_key" && IsSlug(a.name)
    && (a.kind in PLAIN_KINDS || VectorKind(a.kind))
    && Slugs(a.indexTypes) && Distinct(a.indexTypes)
    && (a.declared == "" || ReadsBack(a.declared))
    && DefaultSql(a.default) == a.default
  }

  predicate Admissible(name: string) {
    name != "" && name != "_key"
  }

  lemma NormalIsCanonical(a: Attribute)
    requires Admissible(SlugSegment(a.name))
    ensures Canonical(NormalAttribute(a))
  {
    hide SlugSegment, IsSlug, MapDeclaredKind, IndexTypes, DeclaredType, DefaultSql, PLAIN_KINDS, VectorKind,
        ReadsBack, Slugs, Distinct;
    SlugIsSlug(a.name);
    MappedKindIsCanonical(a.kind);
    IndexTypesAreCanonical(a.indexTypes);
    DeclaredTypeReadsBack(a.declared, a.kind);
    DefaultTwice(a.default);
  }

  /** Nothing was declared, and the kind is a type. */
  predicate GainsType(a: Attribute) {
    a.declared == "" && KindIsType(a.kind)
  }

  lemma CanonicalDeclaredType(a: Attribute)
    requires Canonical(a)
    ensures DeclaredType(a.declared, a.kind) != a.declared <==> GainsType(a)
    ensures GainsType(a) ==> MapFieldType(a.kind) == Some(DeclaredType(a.declared, a.kind))
  {
    hide SqlTypeOf, IsSlug, PLAIN_KINDS, VectorKind, KindIsType, Slugs, Distinct, DefaultSql, MapFieldType;
    EmptyIsNoType();
    CanonicalKindTypes(a.kind);
    if SqlTypeOf(a.kind).Some? {
      SqlTypeStays(a.kind);
    }
  }

  /** On a canonical record a second pass touches the declared type only, and only where a kind is a type. */
  lemma CanonicalOnceMore(a: Attribute)
    requires Canonical(a)
    ensures var b := NormalAttribute(a);
      && b == a.(declared := DeclaredType(a.declared, a.kind))
      && (b == a <==> !GainsType(a))
      && ColumnSql(b) == ColumnSql(a) && !GainsType(b)
  {
    hide SlugSegment, IsSlug, MapDeclaredKind, IndexTypes, DeclaredType, DefaultSql, PLAIN_KINDS, VectorKind,
      ReadsBack, Slugs, Distinct, KindIsType, MapFieldType;
    SlugStays(a.name);
    CanonicalKindStays(a.kind);
    CanonicalIndexTypesStay(a.indexTypes);
    CanonicalDeclaredType(a);
  }

  // ---- lists of attributes --------------------------------------------------

  function NamesOf(attributes: seq<Attribute>): set<string> {
    set a | a in attributes :: a.name
  }

  /** The first record with each admissible name. */
  function FirstNamed(attributes: seq<Attribute>): seq<Attribute> {
    if attributes == [] then [] else
      var n := |attributes| - 1;
      var before := FirstNamed(attributes[..n]);
      var a := attributes[n];
      if !Admissible(a.name) || a.name in NamesOf(before) then before else before + [a]
  }

  /** Every record in canonical form. */
  function EachNormal(attributes: seq<Attribute>): (r: seq<Attribute>)
    ensures |r| == |attributes|
  {
    if attributes == [] then [] else
      EachNormal(attributes[..|attributes| - 1]) + [NormalAttribute(attributes[|attributes| - 1])]
  }

  lemma {:induction false} EachNormalAt(attributes: seq<Attribute>, i: nat)
    requires i < |attributes|
    ensures EachNormal(attributes)[i] == NormalAttribute(attributes[i])
  {
    hide NormalAttribute;
    if i < |attributes| - 1 {
      EachNormalAt(attributes[..|attributes| - 1], i);
    }
  }

  function NormalAttributes(attributes: seq<Attribute>): seq<Attribute> {
    FirstNamed(EachNormal(attributes))
  }

  predicate AdmissibleNames(attributes: seq<Attribute>) {
    forall i :: 0 <= i < |attributes| ==> Admissible(attributes[i].name)
  }

  predicate DistinctNames(attributes: seq<Attribute>) {
    forall i, j :: 0 <= i < j < |attributes| ==> attributes[i].name != attributes[j].name
  }

  lemma DistinctSnoc(attributes: seq<Attribute>, a: Attribute)
    requires DistinctNames(attributes) && a.name !in NamesOf(attributes)
    ensures DistinctNames(attributes + [a])
  {
    forall i | 0 <= i < |attributes| ensures attributes[i].name != a.name {
      assert attributes[i] in attributes;
    }
  }

  lemma {:induction false} FirstNamedIsDistinct(attributes: seq<Attribute>)
    ensures DistinctNames(FirstNamed(attributes)) && AdmissibleNames(FirstNamed(attributes))
    ensures forall a :: a in FirstNamed(attributes) ==> a in attributes
  {
    hide Admissible, DistinctNames, NamesOf;
    if attributes == [] {
      NothingIsDistinct();
    } else {
      var n := |attributes| - 1;
      FirstNamedIsDistinct(attributes[..n]);
      var before := FirstNamed(attributes[..n]);
      if Admissible(attributes[n].name) && attributes[n].name !in NamesOf(before) {
        DistinctSnoc(before, attributes[n]);
      }
    }
  }

  lemma NothingIsDistinct()
    ensures DistinctNames([])
  {}

  lemma {:induction false} FirstNamedStays(attributes: seq<Attribute>)
    requires DistinctNames(attributes) && AdmissibleNames(attributes)
    ensures FirstNamed(attributes) == attributes
  {
    hide Admissible;
    if attributes != [] {
      var n := |attributes| - 1;
      FirstNamedStays(attributes[..n]);
      assert attributes == attributes[..n] + [attributes[n]];
    }
  }

  ghost predicate AllCanonical(attributes: seq<Attribute>) {
    forall i :: 0 <= i < |attributes| ==> Canonical(attributes[i])
  }

  lemma NormalName(a: Attribute)
    ensures NormalAttribute(a).name == SlugSegment(a.name)
  {}

  lemma NormalAttributesAreCanonical(attributes: seq<Attribute>)
    ensures AllCanonical(NormalAttributes(attributes)) && DistinctNames(NormalAttributes(attributes))
  {
    hide Canonical, NormalAttribute, FirstNamed, DistinctNames, Admissible;
    var all := EachNormal(attributes);
    FirstNamedIsDistinct(all);
    var kept := FirstNamed(all);
    forall i | 0 <= i < |kept| ensures Canonical(kept[i]) {
      assert kept[i] in all;
      var j :| 0 <= j < |all| && all[j] == kept[i];
      EachNormalAt(attributes, j);
      NormalName(attributes[j]);
      NormalIsCanonical(attributes[j]);
    }
  }

  lemma CanonicalName(a: Attribute)
    requires Canonical(a)
    ensures Admissible(a.name) && NormalAttribute(a).name == a.name
  {
    hide NormalAttribute;
    CanonicalOnceMore(a);
  }

  /** A canonical list stays record for record. */
  lemma CanonicalListOnceMore(attributes: seq<Attribute>)
    requires AllCanonical(attributes) && DistinctNames(attributes)
    ensures NormalAttributes(attributes) == EachNormal(attributes)
  {
    hide Canonical, NormalAttribute, Admissible;
    var all := EachNormal(attributes);
    forall i | 0 <= i < |all| ensures Admissible(all[i].name) && all[i].name == attributes[i].name {
      CanonicalName(attributes[i]);
      EachNormalAt(attributes, i);
    }
    FirstNamedStays(all);
  }

  /**
   Canonicalising again changes no column: the same columns in the same order, each with the
   same definition. A record changes exactly when it has no declared type although its kind is
   a type, and a third pass changes nothing.
   */
  lemma Renormalising(attributes: seq<Attribute>)
    ensures var once := NormalAttributes(attributes);
      var twice := NormalAttributes(once);
      && |twice| == |once|
      && (forall i :: 0 <= i < |once| ==>
            ColumnSql(twice[i]) == ColumnSql(once[i]) && (twice[i] == once[i] <==> !GainsType(once[i])))
      && NormalAttributes(twice) == twice
  {
    hide Canonical, NormalAttribute, GainsType, ColumnSql, NormalAttributes, DistinctNames;
    var once := NormalAttributes(attributes);
    NormalAttributesAreCanonical(attributes);
    CanonicalListOnceMore(once);
    var twice := NormalAttributes(once);
    NormalAttributesAreCanonical(once);
    forall i | 0 <= i < |once|
      ensures ColumnSql(twice[i]) == ColumnSql(once[i]) && (twice[i] == once[i] <==> !GainsType(once[i]))
      ensures NormalAttribute(twice[i]) == twice[i]
    {
      EachNormalAt(once, i);
      CanonicalOnceMore(once[i]);
      CanonicalOnceMore(twice[i]);
    }
    CanonicalListOnceMore(twice);
    forall i | 0 <= i < |twice| ensures EachNormal(twice)[i] == twice[i] {
      EachNormalAt(twice, i);
    }
  }

  /** A `bool` column with nothing declared: its record gains `BOOLEAN` on the second pass. */
  lemma BoolGainsType()
    ensures MapDeclaredKind("bool") == "boolean"
    ensures DeclaredType("", "bool") == "" && DeclaredType("", "boolean") == "BOOLEAN"
  {
    hide SqlTypeOf, MapDeclaredKind;
    EmptyIsNoType();
    BoolKind("bool");
    BoolType();
    WordTypes("boolean");
  }

  lemma BoolIsWord()
    ensures LowercaseWord("bool")
  {}

  lemma BoolIsNoNumber()
    ensures "bool" !in NUMBER_KINDS && "bool" !in WIDE_KINDS
  {}

  lemma BoolKind(kind: string)
    requires kind == "bool"
    ensures MapDeclaredKind(kind) == "boolean"
  {
    hide ParseKind, LowercaseWord, NUMBER_KINDS, WIDE_KINDS;
    BoolIsWord();
    WordParses(kind);
    BoolIsNoNumber();
  }

  lemma BoolType()
    ensures SqlTypeOf("bool") == None
  {
    hide SqlTypeOf, GeometryOf, VectorType;
    WordType("bool", "BOOL");
  }

  // ---- which records are kept ---------------------------------------------

  /** The first record with its canonical name. */
  predicate FirstOfName(attributes: seq<Attribute>, i: nat)
    requires i < |attributes|
  {
    && Admissible(attributes[i].name)
    && forall j :: 0 <= j < i ==> attributes[j].name != attributes[i].name
  }

  /** The records that are the first with their name, among the first `n`. */
  function Firsts(attributes: seq<Attribute>, n: nat): seq<Attribute>
    requires n <= |attributes|
  {
    if n == 0 then [] else
      Firsts(attributes, n - 1) + if FirstOfName(attributes, n - 1) then [attributes[n - 1]] else []
  }

  lemma NamesOfSnoc(attributes: seq<Attribute>, a: Attribute)
    ensures NamesOf(attributes + [a]) == NamesOf(attributes) + {a.name}
  {}

  lemma {:induction false} NamesOfFirsts(attributes: seq<Attribute>, n: nat)
    requires n <= |attributes|
    ensures FirstNamed(attributes[..n]) == Firsts(attributes, n)
    ensures forall name :: name in NamesOf(Firsts(attributes, n)) <==>
      Admissible(name) && exists j :: 0 <= j < n && attributes[j].name == name
  {
    hide Admissible, NamesOf;
    if n == 0 {
      assert NamesOf([]) == {} by { NoNames(); }
    } else {
      NamesOfFirsts(attributes, n - 1);
      assert attributes[..n][..n - 1] == attributes[..n - 1];
      NamesOfSnoc(Firsts(attributes, n - 1), attributes[n - 1]);
    }
  }

  lemma NoNames()
    ensures NamesOf([]) == {}
  {}

  /** Of the records in canonical form each admissible name keeps its first, in order of first mention. */
  lemma KeepsFirsts(attributes: seq<Attribute>)
    ensures FirstNamed(attributes) == Firsts(attributes, |attributes|)
  {
    NamesOfFirsts(attributes, |attributes|);
    assert attributes[..|attributes|] == attributes;
  }

  // ---- the loops ----------------------------------------------------------

  method CollectIndexTypes(items: seq<string>) returns (keys: seq<string>)
    ensures keys == IndexTypes(items)
  {
    keys := [];
    for i := 0 to |items|
      invariant keys == IndexTypes(items[..i])
    {
      assert items[..i + 1][..i] == items[..i];
      var key := SlugSegment(items[i]);
      if key != "" && key !in keys {
        keys := keys + [key];
      }
    }
    assert items[..|items|] == items;
  }

  method Normalize(attributes: seq<Attribute>) returns (kept: seq<Attribute>)
    ensures kept == NormalAttributes(attributes)
    ensures kept == Firsts(EachNormal(attributes), |attributes|)
  {
    hide SlugSegment, MapDeclaredKind, IndexTypes, DeclaredType, DefaultSql, Canonical;
    kept := [];
    var seen: set<string> := {};
    ghost var all := EachNormal(attributes);
    for i := 0 to |attributes|
      invariant kept == FirstNamed(all[..i]) && seen == NamesOf(kept)
    {
      assert all[..i + 1][..i] == all[..i];
      EachNormalAt(attributes, i);
      var name := SlugSegment(attributes[i].name);
      if Admissible(name) && name !in seen {
        seen := seen + {name};
        var indexTypes := CollectIndexTypes(attributes[i].indexTypes);
        NamesOfSnoc(kept, all[i]);
        kept := kept + [Attribute(
          name, MapDeclaredKind(attributes[i].kind), indexTypes, attributes[i].unique,
          DeclaredType(attributes[i].declared, attributes[i].kind), DefaultSql(attributes[i].default),
          attributes[i].notNull, attributes[i].primaryKey)];
      }
    }
    assert all[..|all|] == all;
    KeepsFirsts(all);
  }
}
