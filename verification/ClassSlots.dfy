/**
 Typed class slots, `@{path|option|option|...}`: finding where a slot ends,
 splitting its body, and reading its options.
 */
module ClassSlots {
  import opened JsonValues
  import opened Text

  // ---- brackets -----------------------------------------------------------

  function StepDepth(depth: nat, c: char): nat {
    if c == '[' then depth + 1
    else if c == ']' && depth > 0 then depth - 1
    else depth
  }

  /** How many brackets are open after a text; a stray closing bracket counts for nothing. */
  function Depth(s: string): nat {
    if s == "" then 0 else StepDepth(Depth(s[..|s| - 1]), s[|s| - 1])
  }

  function BodyEnd(s: string, depth: nat): (k: Option<nat>)
    ensures k.Some? ==> k.value < |s| && s[k.value] == '}'
  {
    if s == "" then None
    else if s[0] == '}' && depth == 0 then Some(0)
    else
      var rest := BodyEnd(s[1..], StepDepth(depth, s[0]));
      if rest.Some? then Some(rest.value + 1) else None
  }

  predicate Closes(s: string, k: nat) {
    k < |s| && s[k] == '}' && Depth(s[..k]) == 0
  }

  /** The first `}` outside brackets is where the body ends. */
  lemma {:induction false} BodyEndIsFirst(s: string, before: string)
    ensures var k := BodyEnd(s, Depth(before));
      && (k.Some? ==> Depth(before + s[..k.value]) == 0)
      && (forall j :: 0 <= j < |s| && (k.Some? ==> j < k.value) ==> !(s[j] == '}' && Depth(before + s[..j]) == 0))
    decreases |s|
  {
    if s == "" {
    } else if s[0] == '}' && Depth(before) == 0 {
      assert before + s[..0] == before;
    } else {
      DepthSteps(before, s[0]);
      BodyEndIsFirst(s[1..], before + [s[0]]);
      forall j | 0 < j <= |s| ensures before + s[..j] == before + [s[0]] + s[1..][..j - 1] {}
      assert before + s[..0] == before;
    }
  }

  lemma DepthSteps(before: string, c: char)
    ensures Depth(before + [c]) == StepDepth(Depth(before), c)
  {
    assert (before + [c])[..|before|] == before;
  }

  /** So a slot's body ends at its first closing brace with no bracket open. */
  lemma BodyEndMeaning(s: string, j: nat)
    ensures BodyEnd(s, 0) == Some(j) <==> Closes(s, j) && forall i :: 0 <= i < j ==> !Closes(s, i)
  {
    hide Depth, StepDepth;
    BodyEndCloses(s);
    hide BodyEnd, Closes;
  }

  lemma BodyEndCloses(s: string)
    ensures var k := BodyEnd(s, 0);
      && (k.Some? ==> Closes(s, k.value))
      && (forall j: nat | k.Some? ==> j < k.value :: !Closes(s, j))
  {
    BodyEndIsFirst(s, "");
    assert Depth("") == 0;
    hide Depth, BodyEnd;
    forall i | 0 <= i <= |s| ensures "" + s[..i] == s[..i] {}
  }

  /** A place in the rest of a text, seen from the start of the text. */
  function Shifted(start: nat, k: Option<nat>): Option<nat> {
    if k.Some? then Some(start + k.value) else None
  }

  lemma BodyEndStep(input: string, idx: nat, depth: nat)
    requires idx < |input|
    ensures Shifted(idx, BodyEnd(input[idx..], depth)) ==
      if input[idx] == '}' && depth == 0 then Some(idx)
      else Shifted(idx + 1, BodyEnd(input[idx + 1..], StepDepth(depth, input[idx])))
  {
    hide StepDepth;
    assert input[idx..][1..] == input[idx + 1..];
  }

  method FindSlotBodyEnd(input: string, bodyStart: nat) returns (end: Option<nat>)
    requires bodyStart <= |input|
    ensures end == Shifted(bodyStart, BodyEnd(input[bodyStart..], 0))
  {
    var idx, depth := bodyStart, 0;
    while idx < |input|
      invariant bodyStart <= idx <= |input|
      invariant Shifted(bodyStart, BodyEnd(input[bodyStart..], 0)) == Shifted(idx, BodyEnd(input[idx..], depth))
    {
      hide BodyEnd, Shifted, StepDepth;
      var c := input[idx];
      BodyEndStep(input, idx, depth);
      if c == '}' && depth == 0 {
        return Some(idx);
      }
      depth := StepDepth(depth, c);
      idx := idx + 1;
    }
    end := None;
  }

  /** Where a body ends depends on nothing after its end. */
  lemma {:induction false} BodyEndLocal(u: string, t: string, depth: nat)
    ensures BodyEnd(u, depth).Some? ==> BodyEnd(u + t, depth) == BodyEnd(u, depth)
    ensures BodyEnd(u + t, depth).Some? && BodyEnd(u + t, depth).value < |u| ==>
        BodyEnd(u, depth) == BodyEnd(u + t, depth)
  {
    if u != "" {
      assert (u + t)[1..] == u[1..] + t;
      BodyEndLocal(u[1..], t, StepDepth(depth, u[0]));
    }
  }

  // ---- segments -----------------------------------------------------------

  /** The body cut at every `|` outside brackets. */
  function RawSegments(body: string, depth: nat): (r: seq<string>)
    ensures r != []
  {
    if body == "" then [""]
    else if body[0] == '|' && depth == 0 then [""] + RawSegments(body[1..], 0)
    else
      var rest := RawSegments(body[1..], StepDepth(depth, body[0]));
      [[body[0]] + rest[0]] + rest[1..]
  }

  function Join(parts: seq<string>): string
    requires parts != []
  {
    if |parts| == 1 then parts[0] else parts[0] + "|" + Join(parts[1..])
  }

  /** Nothing of the body is lost between the cuts. */
  lemma {:induction false} SegmentsJoin(body: string, depth: nat)
    ensures Join(RawSegments(body, depth)) == body
  {
    if body != "" {
      if body[0] == '|' && depth == 0 {
        SegmentsJoin(body[1..], 0);
        assert RawSegments(body, depth)[1..] == RawSegments(body[1..], 0);
      } else {
        var rest := RawSegments(body[1..], StepDepth(depth, body[0]));
        SegmentsJoin(body[1..], StepDepth(depth, body[0]));
        assert RawSegments(body, depth)[1..] == rest[1..];
      }
    }
  }

  /** And no segment has a cut left in it. */
  lemma {:induction false} SegmentsAreUncut(body: string, depth: nat)
    ensures var parts := RawSegments(body, depth);
      && RawSegments(parts[0], depth) == [parts[0]]
      && forall k :: 1 <= k < |parts| ==> RawSegments(parts[k], 0) == [parts[k]]
  {
    if body != "" {
      var next := if body[0] == '|' && depth == 0 then 0 else StepDepth(depth, body[0]);
      var rest := RawSegments(body[1..], next);
      SegmentsAreUncut(body[1..], next);
      if !(body[0] == '|' && depth == 0) {
        assert ([body[0]] + rest[0])[1..] == rest[0];
      }
    }
  }

  function TrimAll(parts: seq<string>): (r: seq<string>)
    ensures |r| == |parts|
  {
    if parts == [] then [] else TrimAll(parts[..|parts| - 1]) + [Trim(parts[|parts| - 1])]
  }

  /** Every segment trimmed; a blank last one is dropped. */
  function Segments(body: string): seq<string> {
    var raw := RawSegments(body, 0);
    var all := TrimAll(raw);
    if all[|all| - 1] == "" then all[..|all| - 1] else all
  }

  function Prepend(buf: string, parts: seq<string>): seq<string>
    requires parts != []
  {
    [buf + parts[0]] + parts[1..]
  }

  lemma PrependNothing(parts: seq<string>)
    requires parts != []
    ensures Prepend("", parts) == parts
  {
    assert "" + parts[0] == parts[0];
  }

  lemma PrependCut(cuts: seq<string>, buf: string, rest: seq<string>)
    requires rest != []
    ensures cuts + Prepend(buf, [""] + rest) == (cuts + [buf]) + Prepend("", rest)
  {
    PrependNothing(rest);
    assert buf + "" == buf;
  }

  lemma PrependCharacter(buf: string, c: char, rest: seq<string>)
    requires rest != []
    ensures Prepend(buf, [[c] + rest[0]] + rest[1..]) == Prepend(buf + [c], rest)
  {
    assert buf + ([c] + rest[0]) == (buf + [c]) + rest[0];
  }

  method SplitSlotSegments(body: string) returns (out: seq<string>)
    ensures out == Segments(body)
  {
    hide Prepend, TrimAll;
    out := [];
    var buf, depth, idx := "", 0, 0;
    ghost var cuts := [];
    PrependNothing(RawSegments(body, 0));
    assert body[0..] == body;
    assert TrimAll([]) == [] by { TrimAllNone(); }
    while idx < |body|
      invariant idx <= |body| && out == TrimAll(cuts)
      invariant cuts + Prepend(buf, RawSegments(body[idx..], depth)) == RawSegments(body, 0)
    {
      var c := body[idx];
      assert body[idx..][1..] == body[idx + 1..];
      if c == '|' && depth == 0 {
        AppendTrimmed(cuts, buf);
        PrependCut(cuts, buf, RawSegments(body[idx + 1..], 0));
        cuts := cuts + [buf];
        out := out + [Trim(buf)];
        buf := "";
      } else {
        PrependCharacter(buf, c, RawSegments(body[idx + 1..], StepDepth(depth, c)));
        depth := StepDepth(depth, c);
        buf := buf + [c];
      }
      idx := idx + 1;
    }
    LastSegment(buf, depth);
    AppendTrimmed(cuts, buf);
    if Trim(buf) != "" {
      out := out + [Trim(buf)];
    }
  }

  lemma TrimAllNone()
    ensures TrimAll([]) == []
  {}

  lemma LastSegment(buf: string, depth: nat)
    ensures Prepend(buf, RawSegments("", depth)) == [buf]
  {
    assert buf + "" == buf;
  }

  lemma AppendTrimmed(cuts: seq<string>, buf: string)
    ensures TrimAll(cuts + [buf]) == TrimAll(cuts) + [Trim(buf)]
  {
    assert (cuts + [buf])[..|cuts|] == cuts;
  }

  // ---- options ------------------------------------------------------------

  const DEFAULT_PREFIX := "default="

  function ParseSlotOption(raw: string): (r: Option<string>)
    ensures r.Some? ==> r.value != ""
  {
    var bracketed := |raw| >= 2 && raw[0] == '[' && raw[|raw| - 1] == ']';
    var token := if bracketed then Trim(raw[1..|raw| - 1]) else Trim(raw);
    if token == "" then None else Some(token)
  }

  /** Words joined by single spaces. */
  function NormalizeValue(value: string): string {
    JoinWords(Words(value))
  }

  function JoinWords(words: seq<string>): string {
    if words == [] then "" else if |words| == 1 then words[0] else words[0] + " " + JoinWords(words[1..])
  }

  /** Where the first word of a text ends. */
  function WordLength(s: string): (n: nat)
    ensures n <= |s|
    ensures forall i :: 0 <= i < n ==> !IsWhitespace(s[i])
    ensures n < |s| ==> IsWhitespace(s[n])
  {
    if s == "" || IsWhitespace(s[0]) then 0 else 1 + WordLength(s[1..])
  }

  /** The maximal runs without white space. */
  function Words(s: string): seq<string>
    decreases |s|
  {
    if s == "" then []
    else if IsWhitespace(s[0]) then Words(s[1..])
    else [s[..WordLength(s)]] + Words(s[WordLength(s)..])
  }

  predicate Listed(options: seq<string>, value: string) {
    exists o :: o in options && NormalizeValue(o) == NormalizeValue(value)
  }

  /** One more segment read: a plain option is added, a default only if it is new. */
  function AddOption(options: seq<string>, segment: string): Option<seq<string>> {
    var seg := Trim(segment);
    if seg == "" then None
    else if DEFAULT_PREFIX <= seg then
      var value := ParseSlotOption(Trim(seg[|DEFAULT_PREFIX|..]));
      if value.None? then None else Some(if Listed(options, value.value) then options else options + [value.value])
    else
      var value := ParseSlotOption(seg);
      if value.None? then None else Some(options + [value.value])
  }

  function ReadOptions(segments: seq<string>): Option<seq<string>> {
    if segments == [] then Some([]) else
      var before := ReadOptions(segments[..|segments| - 1]);
      if before.None? then None else AddOption(before.value, segments[|segments| - 1])
  }

  // ---- slots --------------------------------------------------------------

  /** A slot at the start of a text: how long it is and what it may stand for. */
  datatype Slot = Slot(length: nat, options: seq<string>)

  predicate Opens(s: string) {
    |s| >= 2 && s[0] == '@' && s[1] == '{'
  }

  function SlotOptions(body: string): (r: Option<seq<string>>)
    ensures r.Some? ==> r.value != []
  {
    var parts := Segments(body);
    if |parts| < 2 || Trim(parts[0]) == "" then None else
      var options := ReadOptions(parts[1..]);
      if options.None? || options.value == [] then None else options
  }

  /** The slot whose body starts a text, if the body ends and reads. */
  function SlotFrom(rest: string): (r: Option<Slot>)
    ensures r.Some? ==> 0 < r.value.length <= |rest| && rest[r.value.length - 1] == '}' && r.value.options != []
  {
    hide SlotOptions, BodyEnd;
    var end := BodyEnd(rest, 0);
    if end.None? then None else
      var options := SlotOptions(rest[..end.value]);
      if options.None? then None else Some(Slot(end.value + 1, options.value))
  }

  function ParseSlot(s: string): (r: Option<Slot>)
    ensures r.Some? ==> Opens(s) && 3 <= r.value.length <= |s| && r.value.options != []
    ensures r.Some? ==> s[r.value.length - 1] == '}'
  {
    if !Opens(s) then None else
      hide SlotFrom;
      var slot := SlotFrom(s[2..]);
      if slot.None? then None else Some(Slot(slot.value.length + 2, slot.value.options))
  }

  /** Whether a slot starts a text, and which, depends on nothing after the slot. */
  lemma SlotLocal(u: string, t: string)
    ensures ParseSlot(u).Some? ==> ParseSlot(u + t) == ParseSlot(u)
    ensures ParseSlot(u + t).Some? && ParseSlot(u + t).value.length <= |u| ==> ParseSlot(u) == ParseSlot(u + t)
  {
    hide SlotFrom;
    if |u| >= 2 {
      assert (u + t)[2..] == u[2..] + t;
      BodyLocal(u[2..], t);
    }
  }

  lemma BodyLocal(u: string, t: string)
    ensures SlotFrom(u).Some? ==> SlotFrom(u + t) == SlotFrom(u)
    ensures SlotFrom(u + t).Some? && SlotFrom(u + t).value.length <= |u| ==> SlotFrom(u) == SlotFrom(u + t)
  {
    hide SlotOptions;
    BodyEndLocal(u, t, 0);
    var k := BodyEnd(u, 0);
    if k.Some? {
      assert (u + t)[..k.value] == u[..k.value];
    }
  }

  method ParseTypedClassSlot(input: string, start: nat) returns (slot: Option<Slot>)
    requires start <= |input|
    ensures slot == ParseSlot(input[start..])
  {
    hide BodyEnd, Segments, ReadOptions, Trim;
    ghost var s := input[start..];
    if start >= |input| || !Opens(input[start..]) {
      return None;
    }
    var bodyStart := start + 2;
    assert s[2..] == input[bodyStart..];
    var found := FindSlotBodyEnd(input, bodyStart);
    if found.None? {
      return None;
    }
    var bodyEnd := found.value;
    assert s[2..][..bodyEnd - bodyStart] == input[bodyStart..bodyEnd];
    var parts := SplitSlotSegments(input[bodyStart..bodyEnd]);
    if |parts| < 2 || Trim(parts[0]) == "" {
      return None;
    }
    var options := ReadSegments(parts[1..]);
    if options.None? || options.value == [] {
      return None;
    }
    slot := Some(Slot(bodyEnd + 1 - start, options.value));
  }

  lemma {:induction false} ReadStops(segments: seq<string>, n: nat)
    requires n <= |segments| && ReadOptions(segments[..n]) == None
    ensures ReadOptions(segments) == None
  {
    if n == |segments| {
      assert segments[..n] == segments;
    } else {
      assert segments[..|segments| - 1][..n] == segments[..n];
      ReadStops(segments[..|segments| - 1], n);
    }
  }

  method ReadSegments(segments: seq<string>) returns (options: Option<seq<string>>)
    ensures options == ReadOptions(segments)
  {
    var found: seq<string> := [];
    for i := 0 to |segments|
      invariant ReadOptions(segments[..i]) == Some(found)
    {
      assert segments[..i + 1][..i] == segments[..i];
      var next := AddOption(found, segments[i]);
      if next.None? {
        ReadStops(segments, i + 1);
        return None;
      }
      found := next.value;
    }
    assert segments[..|segments|] == segments;
    options := Some(found);
  }
}
