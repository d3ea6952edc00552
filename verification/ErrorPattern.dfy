/**
 What makes two error messages the same error: the message with each number and
 each quoted value reduced to a placeholder, cut to a fixed length.
 */
module ErrorPattern {
  import opened JsonValues
  import opened Text

  const PATTERN_LENGTH := 200

  predicate IsQuote(c: char) {
    c == '"' || c == '\'' || c == '`'
  }

  /** Inside which quote the scan is, and whether the output so far ends with `#`. */
  datatype Scanner = Scanner(quote: Option<char>, hash: bool)

  const START := Scanner(None, false)

  function Emit(st: Scanner, c: char): string {
    if st.quote.Some? then (if c == st.quote.value then [c] else "")
    else if IsQuote(c) then [c, '?']
    else if IsDigit(c) then (if st.hash then "" else "#")
    else [c]
  }

  function Next(st: Scanner, c: char): Scanner {
    if st.quote.Some? then (if c == st.quote.value then Scanner(None, false) else st)
    else if IsQuote(c) then Scanner(Some(c), false)
    else Scanner(None, IsDigit(c) || c == '#')
  }

  function Scan(s: string, st: Scanner): string {
    if s == "" then "" else Emit(st, s[0]) + Scan(s[1..], Next(st, s[0]))
  }

  function After(s: string, st: Scanner): Scanner {
    if s == "" then st else After(s[1..], Next(st, s[0]))
  }

  function Pattern(message: string): string {
    Take(Scan(message, START), PATTERN_LENGTH)
  }

  /** A scanner met while scanning: a quote is a quote character, and then the output ends with something else. */
  predicate Proper(st: Scanner) {
    st.quote.Some? ==> IsQuote(st.quote.value)
  }

  lemma ScanHead(s: string, st: Scanner)
    requires s != ""
    ensures Scan(s, st) == Emit(st, s[0]) + Scan(s[1..], Next(st, s[0]))
  {}

  /** One character read: what it emits moves from what is to come to what is done. */
  lemma ScanStep(done: string, s: string, st: Scanner)
    requires s != ""
    ensures done + Scan(s, st) == (done + Emit(st, s[0])) + Scan(s[1..], Next(st, s[0]))
  {
    hide Scan, Emit, Next;
    ScanHead(s, st);
  }

  method ErrorMessagePattern(message: string) returns (pattern: string)
    ensures pattern == Pattern(message)
  {
    hide Scan;
    var out, i := "", 0;
    var inQuote: Option<char> := None;
    assert message[0..] == message && "" + Scan(message, START) == Scan(message, START);
    while i < |message|
      invariant i <= |message|
      invariant inQuote.Some? ==> IsQuote(inQuote.value) && out != "" && out[|out| - 1] != '#'
      invariant out + Scan(message[i..], Scanner(inQuote, EndsWithHash(out))) == Scan(message, START)
    {
      var c := message[i];
      assert message[i..][1..] == message[i + 1..];
      ScanStep(out, message[i..], Scanner(inQuote, EndsWithHash(out)));
      i := i + 1;
      if inQuote.Some? {
        if c == inQuote.value {
          inQuote := None;
          out := out + [c];
        } else {
          assert out + "" == out;
        }
      } else if IsQuote(c) {
        inQuote := Some(c);
        out := out + [c, '?'];
      } else if IsDigit(c) {
        assert out + "" == out;
        if !EndsWithHash(out) {
          out := out + ['#'];
        }
        i := SkipDigits(message, out, i);
      } else {
        out := out + [c];
      }
    }
    assert message[i..] == "";
    NothingToScan(out, Scanner(inQuote, EndsWithHash(out)));
    pattern := Take(out, PATTERN_LENGTH);
  }

  lemma NothingToScan(done: string, st: Scanner)
    ensures done + Scan("", st) == done
  {}

  /** The rest of a digit run adds nothing. */
  method SkipDigits(message: string, ghost out: string, i0: nat) returns (i: nat)
    requires i0 <= |message|
    ensures i0 <= i <= |message|
    ensures out + Scan(message[i..], Scanner(None, true)) == out + Scan(message[i0..], Scanner(None, true))
  {
    hide Scan;
    i := i0;
    while i < |message| && IsDigit(message[i])
      invariant i0 <= i <= |message|
      invariant Scan(message[i..], Scanner(None, true)) == Scan(message[i0..], Scanner(None, true))
    {
      assert message[i..][1..] == message[i + 1..];
      ScanHead(message[i..], Scanner(None, true));
      i := i + 1;
    }
  }

  predicate EndsWithHash(s: string) {
    s != "" && s[|s| - 1] == '#'
  }

  // ---- what does not show -------------------------------------------------

  lemma {:induction false} ScanTwo(a: string, b: string, st: Scanner)
    ensures Scan(a + b, st) == Scan(a, st) + Scan(b, After(a, st))
    ensures After(a + b, st) == After(b, After(a, st))
    decreases |a|
  {
    if a == "" {
      assert a + b == b;
    } else {
      assert (a + b)[1..] == a[1..] + b;
      ScanTwo(a[1..], b, Next(st, a[0]));
    }
  }

  /** A run of digits outside quotes leaves one `#`, unless one is there already, however long it is. */
  lemma {:induction false} DigitRun(d: string, hash: bool)
    requires d != "" && AllDigits(d)
    ensures Scan(d, Scanner(None, hash)) == if hash then "" else "#"
    ensures After(d, Scanner(None, hash)) == Scanner(None, true)
  {
    if |d| > 1 {
      DigitRun(d[1..], true);
    } else {
      assert d[1..] == "";
    }
  }

  lemma {:induction false} QuotedRun(v: string, st: Scanner)
    requires st.quote.Some? && st.quote.value !in v
    ensures Scan(v, st) == "" && After(v, st) == st
  {
    if v != "" { QuotedRun(v[1..], st); }
  }

  /** Messages that differ in a digit run outside quotes have one pattern. */
  lemma DigitsDoNotShow(a: string, d: string, e: string, b: string)
    requires After(a, START).quote.None? && d != "" && e != "" && AllDigits(d) && AllDigits(e)
    ensures Pattern(a + d + b) == Pattern(a + e + b)
  {
    var hash := After(a, START).hash;
    ScanTwo(a, d, START);
    ScanTwo(a, e, START);
    ScanTwo(a + d, b, START);
    ScanTwo(a + e, b, START);
    DigitRun(d, hash);
    DigitRun(e, hash);
  }

  lemma QuotedValue(q: char, v: string, st: Scanner)
    requires st.quote.None? && IsQuote(q) && q !in v
    ensures Scan([q] + v + [q], st) == [q, '?', q] && After([q] + v + [q], st) == Scanner(None, false)
  {
    var inside := Scanner(Some(q), false);
    ScanTwo([q] + v, [q], st);
    ScanTwo([q], v, st);
    QuotedRun(v, inside);
    assert Scan([q], st) == [q, '?'] && After([q], st) == inside by { assert [q][1..] == ""; }
    assert Scan([q], inside) == [q] && After([q], inside) == Scanner(None, false) by { assert [q][1..] == ""; }
  }

  /** Messages that differ in a quoted value have one pattern. */
  lemma QuotedValuesDoNotShow(a: string, q: char, v: string, w: string, b: string)
    requires After(a, START).quote.None? && IsQuote(q) && q !in v && q !in w
    ensures Pattern(a + ([q] + v + [q]) + b) == Pattern(a + ([q] + w + [q]) + b)
  {
    var st := After(a, START);
    QuotedValue(q, v, st);
    QuotedValue(q, w, st);
    ScanTwo(a, [q] + v + [q], START);
    ScanTwo(a, [q] + w + [q], START);
    ScanTwo(a + ([q] + v + [q]), b, START);
    ScanTwo(a + ([q] + w + [q]), b, START);
  }

  // ---- a pattern is its own pattern ---------------------------------------

  lemma ScanFirst(c: char, s: string, st: Scanner)
    ensures Scan([c] + s, st) == Emit(st, c) + Scan(s, Next(st, c))
  {
    assert ([c] + s)[1..] == s;
  }

  /** What a character emits, scanned again in the same state, emits itself and leads to the same state. */
  lemma EmitAgain(st: Scanner, c: char, s: string)
    requires Proper(st)
    ensures Scan(Emit(st, c) + s, st) == Emit(st, c) + Scan(s, Next(st, c))
  {
    hide Scan;
    var e := Emit(st, c);
    if e == "" {
      assert e + s == s;
    } else if |e| == 1 {
      ScanFirst(e[0], s, st);
      assert [e[0]] == e;
    } else {
      assert e + s == [c] + (['?'] + s);
      ScanFirst(c, ['?'] + s, st);
      ScanFirst('?', s, Next(st, c));
      assert "" + Scan(s, Next(st, c)) == Scan(s, Next(st, c));
    }
  }

  lemma {:induction false} ScanOfScan(s: string, st: Scanner)
    requires Proper(st)
    ensures Scan(Scan(s, st), st) == Scan(s, st)
  {
    if s != "" {
      ScanOfScan(s[1..], Next(st, s[0]));
      EmitAgain(st, s[0], Scan(s[1..], Next(st, s[0])));
    }
  }

  ghost predicate SelfOrAsked(s: string, st: Scanner) {
    Scan(s, st) == s || Scan(s, st) == s + "?"
  }

  /** A pattern cut short scans to itself, or to itself and the `?` its last quote asks for. */
  lemma {:induction false} ScanOfCut(s: string, st: Scanner, n: nat)
    requires Proper(st)
    ensures SelfOrAsked(Take(Scan(s, st), n), st)
    decreases |s|
  {
    if s != "" {
      var e, rest := Emit(st, s[0]), Scan(s[1..], Next(st, s[0]));
      if n >= |e| {
        ScanOfCut(s[1..], Next(st, s[0]), n - |e|);
        CutAfter(st, s[0], rest, n);
      } else {
        CutInside(st, s[0], rest, n);
      }
    }
  }

  lemma CutAfter(st: Scanner, c: char, rest: string, n: nat)
    requires Proper(st) && n >= |Emit(st, c)| && SelfOrAsked(Take(rest, n - |Emit(st, c)|), Next(st, c))
    ensures SelfOrAsked(Take(Emit(st, c) + rest, n), st)
  {
    hide Scan, Emit;
    var e := Emit(st, c);
    var cut := Take(rest, n - |e|);
    assert Take(e + rest, n) == e + cut;
    EmitAgain(st, c, cut);
    assert e + (cut + "?") == (e + cut) + "?";
  }

  lemma CutInside(st: Scanner, c: char, rest: string, n: nat)
    requires n < |Emit(st, c)|
    ensures SelfOrAsked(Take(Emit(st, c) + rest, n), st)
  {
    var cut := Take(Emit(st, c) + rest, n);
    if n == 0 {
      assert cut == "";
    } else {
      assert cut == [c] + "";
      ScanFirst(c, "", st);
      assert [c, '?'] == [c] + "?";
    }
  }

  /** A pattern is its own pattern, wherever the length limit cut it. */
  lemma PatternOfPattern(message: string)
    ensures Pattern(Pattern(message)) == Pattern(message)
  {
    ScanOfScan(message, START);
    ScanOfCut(message, START, PATTERN_LENGTH);
  }
}
