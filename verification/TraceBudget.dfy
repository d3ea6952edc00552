/**
 The byte budget of a run's trace: one allowance for the run, one for the node
 that is executing, both charged by every capture.
 */
module TraceBudget {
  import opened JsonValues
  import opened SecretScan
  import opened TraceView
  import opened TraceSecrecy

  newtype Byte = x: int | 0 <= x < 256

  // ---- the budget over a run ----------------------------------------------

  datatype Budget = Budget(runLeft: nat, nodeLeft: nat)

  /** A node begins, or a capture of `size` serialized bytes is asked for. */
  datatype Call = Begin | Keep(size: nat)

  function Allowance(b: Budget): nat {
    if b.nodeLeft < b.runLeft then b.nodeLeft else b.runLeft
  }

  /** A capture is recorded when some allowance is left and the bytes fit in it. */
  predicate Accepts(b: Budget, size: nat) {
    0 < Allowance(b) && size <= Allowance(b)
  }

  function After(b: Budget, call: Call, maxNode: nat): Budget {
    match call
    case Begin => b.(nodeLeft := maxNode)
    case Keep(size) =>
      var charged := if size <= Allowance(b) then size else Allowance(b);
      if Allowance(b) == 0 then b else Budget(b.runLeft - charged, b.nodeLeft - charged)
  }

  function Replay(limits: Limits, calls: seq<Call>): Budget {
    if calls == [] then Budget(limits.maxRunBytes, 0) else
      After(Replay(limits, calls[..|calls| - 1]), calls[|calls| - 1], limits.maxNodeBytes)
  }

  function Recorded(limits: Limits, calls: seq<Call>): nat
    requires calls != []
  {
    var last := calls[|calls| - 1];
    if last.Keep? && Accepts(Replay(limits, calls[..|calls| - 1]), last.size) then last.size else 0
  }

  /** The bytes recorded since the run began. */
  function KeptInRun(limits: Limits, calls: seq<Call>): nat {
    if calls == [] then 0 else KeptInRun(limits, calls[..|calls| - 1]) + Recorded(limits, calls)
  }

  /** The bytes recorded since the last node began. */
  function KeptInNode(limits: Limits, calls: seq<Call>): nat {
    if calls == [] || calls[|calls| - 1].Begin? then 0 else
      KeptInNode(limits, calls[..|calls| - 1]) + Recorded(limits, calls)
  }

  /** Whatever the calls, what is recorded and what is left stay within both limits. */
  lemma {:induction false} BudgetsHold(limits: Limits, calls: seq<Call>)
    ensures KeptInRun(limits, calls) + Replay(limits, calls).runLeft <= limits.maxRunBytes
    ensures KeptInNode(limits, calls) + Replay(limits, calls).nodeLeft <= limits.maxNodeBytes
  {
    if calls != [] { BudgetsHold(limits, calls[..|calls| - 1]); }
  }

  /** Once a capture has overflowed, nothing is recorded until the next node begins. */
  lemma {:induction false} OverflowSticks(limits: Limits, calls: seq<Call>, size: nat, more: seq<Call>)
    requires size > Allowance(Replay(limits, calls)) && Begin !in more
    ensures Allowance(Replay(limits, calls + [Keep(size)] + more)) == 0
    ensures KeptInNode(limits, calls + [Keep(size)] + more) == KeptInNode(limits, calls)
    decreases |more|
  {
    var all := calls + [Keep(size)] + more;
    if more == [] {
      assert all[..|all| - 1] == calls;
    } else {
      var rest := more[..|more| - 1];
      assert all[..|all| - 1] == calls + [Keep(size)] + rest;
      assert all[|all| - 1] == more[|more| - 1] && more[|more| - 1] in more;
      OverflowSticks(limits, calls, size, rest);
    }
  }

  /** A run whose allowance is gone records nothing more, whatever nodes begin. */
  lemma {:induction false} RunStaysSpent(limits: Limits, calls: seq<Call>, more: seq<Call>)
    requires Replay(limits, calls).runLeft == 0
    ensures KeptInRun(limits, calls + more) == KeptInRun(limits, calls)
    ensures Replay(limits, calls + more).runLeft == 0
    decreases |more|
  {
    if more == [] {
      assert calls + more == calls;
    } else {
      var rest := more[..|more| - 1];
      assert (calls + more)[..|calls + more| - 1] == calls + rest;
      RunStaysSpent(limits, calls, rest);
    }
  }

  // ---- proper trees ---------------------------------------------------------

  ghost predicate DistinctKeys(members: seq<Member>) {
    forall i, j :: 0 <= i < j < |members| ==> members[i].key != members[j].key
  }

  /** What a JSON library can hold: objects with distinct keys, and numbers it prints. */
  ghost predicate Proper(value: Json, prints: string -> bool)
    decreases value
  {
    match value
    case Obj(members) => DistinctKeys(members) && forall i :: 0 <= i < |members| ==> Proper(members[i].value, prints)
    case Arr(items) => forall i :: 0 <= i < |items| ==> Proper(items[i], prints)
    case Float(digits) => prints(digits)
    case _ => true
  }

  ghost predicate AllProper(items: seq<Out>, prints: string -> bool) {
    forall i :: 0 <= i < |items| ==> Proper(Erase(items[i]), prints)
  }

  lemma ItemsAreProper(items: seq<Out>, prints: string -> bool)
    requires AllProper(items, prints)
    ensures Proper(Arr(EraseItems(items)), prints)
  {
    hide Erase;
    ErasedItems(items);
  }

  lemma SampledIsProper(len: nat, omitted: nat, preview: seq<Out>, prints: string -> bool)
    requires AllProper(preview, prints)
    ensures Proper(Erase(Sampled(len, omitted, preview)), prints)
  {
    ItemsAreProper(preview, prints);
  }

  ghost predicate ProperFields(fields: seq<Field>, prints: string -> bool) {
    && (forall i, j :: 0 <= i < j < |fields| ==> fields[i].key != fields[j].key)
    && (forall i :: 0 <= i < |fields| ==> Proper(Erase(fields[i].value), prints))
  }

  lemma FieldsAreProper(fields: seq<Field>, prints: string -> bool)
    requires ProperFields(fields, prints)
    ensures Proper(Erase(Record(fields)), prints)
  {
    hide Proper;
    ErasedFields(fields);
    var members := EraseFields(fields);
    assert Erase(Record(fields)) == Obj(members);
    hide Erase;
    MembersAreProper(members, prints);
  }

  lemma MembersAreProper(members: seq<Member>, prints: string -> bool)
    requires DistinctKeys(members) && forall i :: 0 <= i < |members| ==> Proper(members[i].value, prints)
    ensures Proper(Obj(members), prints)
  {}

  lemma FlatIsProper(out: Out, prints: string -> bool)
    requires out.Mask? || out.Word? || out.Clipped? || out.Shape?
    ensures Proper(Erase(out), prints)
  {}

  lemma TextIsProper(text: string, c: Context, prints: string -> bool)
    ensures Proper(Erase(TextView(text, c)), prints)
  {
    FlatIsProper(TextView(text, c), prints);
  }

  lemma ArrayIsProper(items: seq<Json>, c: Context, prints: string -> bool)
    requires var count := SampleCount(|items|, c.limits);
      AllProper(ViewItems(items, count, ChildOf(c, count < |items|, None)), prints)
    ensures Proper(Erase(View(Arr(items), c)), prints)
  {
    hide Proper, AllProper, Erase, ViewItems, ChildOf;
    var count := SampleCount(|items|, c.limits);
    var preview := ViewItems(items, count, ChildOf(c, count < |items|, None));
    FlatIsProper(Mask, prints);
    FlatIsProper(Shape(true, |items|), prints);
    SampledIsProper(|items|, |items| - count, preview, prints);
    ListedIsProper(preview, prints);
  }

  lemma ListedIsProper(preview: seq<Out>, prints: string -> bool)
    requires AllProper(preview, prints)
    ensures Proper(Erase(Listed(preview)), prints)
  {
    hide Proper, AllProper, Erase;
    ItemsAreProper(preview, prints);
    ListedErased(preview);
  }

  lemma ObjectIsProper(members: seq<Member>, c: Context, prints: string -> bool)
    requires ProperFields(ViewMembers(members, |members|, c), prints)
    ensures Proper(Erase(View(Obj(members), c)), prints)
  {
    hide Proper, ProperFields, Erase, ViewMembers;
    FlatIsProper(Mask, prints);
    FlatIsProper(Shape(false, |members|), prints);
    FieldsAreProper(ViewMembers(members, |members|, c), prints);
  }

  lemma ScalarIsProper(value: Json, c: Context, prints: string -> bool)
    requires !value.Arr? && !value.Obj? && !value.Str? && Proper(value, prints)
    ensures Proper(Erase(View(value, c)), prints)
  {}

  /** The view of a proper payload is written as a proper tree. */
  lemma {:induction false} ViewIsProper(value: Json, c: Context, prints: string -> bool)
    requires Proper(value, prints)
    ensures Proper(Erase(View(value, c)), prints)
    decreases value, 1
  {
    match value {
      case Arr(items) =>
        var count := SampleCount(|items|, c.limits);
        ViewItemsAreProper(items, count, ChildOf(c, count < |items|, None), prints);
        ArrayIsProper(items, c, prints);
      case Obj(members) =>
        ViewMembersAreProper(members, |members|, c, prints);
        ObjectIsProper(members, c, prints);
      case Str(text) =>
        FlatIsProper(Mask, prints);
        TextIsProper(text, c, prints);
      case _ => ScalarIsProper(value, c, prints);
    }
  }

  lemma {:induction false} ViewItemsAreProper(items: seq<Json>, n: nat, c: Context, prints: string -> bool)
    requires n <= |items| && forall i :: 0 <= i < |items| ==> Proper(items[i], prints)
    ensures AllProper(ViewItems(items, n, c), prints)
    decreases items, n
  {
    hide View, Erase, Proper;
    if n > 0 {
      ViewItemsAreProper(items, n - 1, c, prints);
      ViewIsProper(items[n - 1], c, prints);
    }
  }

  /** Each key of the view is the key of one of the first `n` members. */
  ghost predicate KeysAmong(fields: seq<Field>, members: seq<Member>, n: nat)
    requires n <= |members|
  {
    forall i :: 0 <= i < |fields| ==> exists j :: 0 <= j < n && fields[i].key == members[j].key
  }

  lemma {:induction false} ViewMembersAreProper(members: seq<Member>, n: nat, c: Context, prints: string -> bool)
    requires n <= |members| && DistinctKeys(members)
    requires forall i :: 0 <= i < |members| ==> Proper(members[i].value, prints)
    ensures ProperFields(ViewMembers(members, n, c), prints) && KeysAmong(ViewMembers(members, n, c), members, n)
    decreases members, n
  {
    hide View, ViewMembers, Erase, Proper, Skipped, ChildOf;
    NoMemberView(members, c);
    if n > 0 {
      ViewMembersAreProper(members, n - 1, c, prints);
      var rest, member := ViewMembers(members, n - 1, c), members[n - 1];
      MemberView(members, n, c);
      if !Skipped(member.key, c) {
        ViewIsProper(member.value, ChildOf(c, false, Some(member.key)), prints);
        OneMoreField(rest, members, n, View(member.value, ChildOf(c, false, Some(member.key))), prints);
      }
    }
  }

  lemma OneMoreField(rest: seq<Field>, members: seq<Member>, n: nat, value: Out, prints: string -> bool)
    requires 0 < n <= |members| && DistinctKeys(members) && Proper(Erase(value), prints)
    requires ProperFields(rest, prints) && KeysAmong(rest, members, n - 1)
    ensures ProperFields(rest + [Field(members[n - 1].key, value)], prints)
    ensures KeysAmong(rest + [Field(members[n - 1].key, value)], members, n)
  {
    hide Erase, Proper;
    forall i | 0 <= i < |rest| ensures rest[i].key != members[n - 1].key {
      var j :| 0 <= j < n - 1 && rest[i].key == members[j].key;
    }
  }

  lemma {:induction false} EmissionItemsAreProper(outputs: seq<Json>, n: nat, limits: Limits, prints: string -> bool)
    requires n <= |outputs| && forall i :: 0 <= i < |outputs| ==> Proper(outputs[i], prints)
    ensures AllProper(EmissionItems(outputs, n, limits), prints)
  {
    hide View, Erase, Proper, Root;
    if n > 0 {
      EmissionItemsAreProper(outputs, n - 1, limits, prints);
      ViewIsProper(outputs[n - 1], Root(outputs[n - 1], limits, [], false), prints);
    }
  }

  lemma EmissionsAreProper(outputs: seq<Json>, limits: Limits, prints: string -> bool)
    requires forall i :: 0 <= i < |outputs| ==> Proper(outputs[i], prints)
    ensures Proper(Erase(EmissionsView(outputs, limits)), prints)
  {
    hide AllProper, EmissionItems, Proper, Erase, ProperFields;
    var count := SampleCount(|outputs|, limits);
    var items := EmissionItems(outputs, count, limits);
    EmissionItemsAreProper(outputs, count, limits, prints);
    ListedIsProper(items, prints);
    SampledIsProper(|outputs|, |outputs| - count, items, prints);
    CountedIsProper(|outputs|,
      if count == |outputs| then Listed(items) else Sampled(|outputs|, |outputs| - count, items), prints);
  }

  lemma CountedIsProper(n: nat, emissions: Out, prints: string -> bool)
    requires Proper(Erase(emissions), prints)
    ensures Proper(Erase(Record([Field("count", Plain(Int(n))), Field("emissions", emissions)])), prints)
  {
    FlatNumberIsProper(n, prints);
    hide Proper, Erase;
    FieldsAreProper([Field("count", Plain(Int(n))), Field("emissions", emissions)], prints);
  }

  lemma FlatNumberIsProper(n: nat, prints: string -> bool)
    ensures Proper(Erase(Plain(Int(n))), prints)
  {}

  // ---- serialization ------------------------------------------------------

  /**
   The JSON library: the chunks a serializer writes for a tree, what a parser reads back, and the
   numbers with a fraction or an exponent that it prints.
   */
  datatype Library = Library(
    writes: Json -> seq<seq<Byte>>, parse: seq<Byte> -> Option<Json>, prints: string -> bool)

  function Flatten(chunks: seq<seq<Byte>>): seq<Byte> {
    if chunks == [] then [] else Flatten(chunks[..|chunks| - 1]) + chunks[|chunks| - 1]
  }

  function Bytes(lib: Library, value: Json): seq<Byte> {
    Flatten(lib.writes(value))
  }

  const BYTE_MARKER := Obj([Summary("bytes"), Member("reason", Str("capture budget exhausted"))])

  function Reread(lib: Library, bytes: seq<Byte>): Json {
    var value := lib.parse(bytes);
    if value.Some? then value.value else BYTE_MARKER
  }

  /** Reads back every proper tree it wrote, as long as fewer than 128 containers nest. */
  ghost predicate ReadsBackShallow(lib: Library) {
    forall value :: Nesting(value) < 128 && Proper(value, lib.prints) ==> lib.parse(Bytes(lib, value)) == Some(value)
  }

  /** No capture of a proper payload is ever too deep for the parser: what is kept is the view itself. */
  lemma CapturesReadBack(lib: Library, limits: Limits, confidential: seq<string>, value: Json, config: bool)
    requires ReadsBackShallow(lib) && Proper(value, lib.prints)
    ensures var view := Captured(value, limits, confidential, config);
      Reread(lib, Bytes(lib, Erase(view))) == Erase(view)
  {
    hide View, Erase, Nesting, Proper;
    CapturedNesting(value, limits, confidential, config);
    ViewIsProper(value, Root(value, limits, confidential, config), lib.prints);
  }

  /** Nor are recorded outputs. */
  lemma OutputsReadBack(lib: Library, limits: Limits, confidential: seq<string>, outputs: seq<Json>)
    requires ReadsBackShallow(lib) && forall i :: 0 <= i < |outputs| ==> Proper(outputs[i], lib.prints)
    ensures var view := OutputsView(outputs, limits, confidential);
      Reread(lib, Bytes(lib, Erase(view))) == Erase(view)
  {
    hide View, Erase, Nesting, Proper, EmissionsView;
    OutputsNesting(outputs, limits, confidential);
    if |outputs| == 1 {
      ViewIsProper(outputs[0], Root(outputs[0], limits, confidential, false), lib.prints);
    } else {
      EmissionsAreProper(outputs, limits, lib.prints);
    }
  }

  lemma {:induction false} FlattenGrows(chunks: seq<seq<Byte>>, n: nat)
    requires n <= |chunks|
    ensures |Flatten(chunks[..n])| <= |Flatten(chunks)|
  {
    if n == |chunks| {
      assert chunks[..n] == chunks;
    } else {
      assert chunks[..|chunks| - 1][..n] == chunks[..n];
      FlattenGrows(chunks[..|chunks| - 1], n);
    }
  }

  class CappedBuffer {
    var bytes: seq<Byte>
    const limit: nat

    constructor (limit: nat)
      ensures bytes == [] && this.limit == limit
    {
      bytes := [];
      this.limit := limit;
    }

    /** Takes the whole chunk or refuses it. */
    method Write(chunk: seq<Byte>) returns (ok: bool)
      modifies this
      ensures ok <==> |chunk| <= (if |old(bytes)| <= limit then limit - |old(bytes)| else 0)
      ensures bytes == if ok then old(bytes) + chunk else old(bytes)
    {
      ok := |chunk| <= if |bytes| <= limit then limit - |bytes| else 0;
      if ok {
        bytes := bytes + chunk;
      }
    }
  }

  lemma NoChunks()
    ensures Flatten([]) == []
  {}

  lemma OneMoreChunk(chunks: seq<seq<Byte>>, i: nat)
    requires i < |chunks|
    ensures Flatten(chunks[..i + 1]) == Flatten(chunks[..i]) + chunks[i]
  {
    assert chunks[..i + 1][..i] == chunks[..i];
  }

  /** Serializes until a chunk does not fit. */
  method WriteAll(lib: Library, value: Json, buffer: CappedBuffer) returns (ok: bool)
    requires buffer.bytes == []
    modifies buffer
    ensures ok <==> |Bytes(lib, value)| <= buffer.limit
    ensures ok ==> buffer.bytes == Bytes(lib, value)
  {
    hide Flatten;
    var chunks := lib.writes(value);
    NoChunks();
    for i := 0 to |chunks|
      invariant buffer.bytes == Flatten(chunks[..i]) && |buffer.bytes| <= buffer.limit
    {
      OneMoreChunk(chunks, i);
      var fits := buffer.Write(chunks[i]);
      if !fits {
        FlattenGrows(chunks, i + 1);
        return false;
      }
    }
    assert chunks[..|chunks|] == chunks;
    ok := true;
  }

  // ---- the capture --------------------------------------------------------

  class TraceCapture {
    const limits: Limits
    const lib: Library
    var runLeft: nat
    var nodeLeft: nat
    var confidential: seq<string>
    /** Everything asked of this capture since the run began. */
    ghost var history: seq<Call>

    ghost predicate Valid()
      reads this
    {
      Budget(runLeft, nodeLeft) == Replay(limits, history) && "" !in confidential
    }

    constructor (limits: Limits, lib: Library, confidential: seq<string>)
      requires "" !in confidential
      ensures Valid() && history == [] && this.limits == limits && this.lib == lib && this.confidential == confidential
    {
      this.limits, this.lib := limits, lib;
      runLeft, nodeLeft := limits.maxRunBytes, 0;
      this.confidential := confidential;
      history := [];
    }

    method BeginNode()
      requires Valid()
      modifies this
      ensures Valid() && history == old(history) + [Begin] && confidential == old(confidential)
    {
      nodeLeft := limits.maxNodeBytes;
      history := history + [Begin];
    }

    /** What a capture of `out` answers in the present state. */
    ghost function Answer(out: Out): Json
      reads this
    {
      var bytes := Bytes(lib, Erase(out));
      if Accepts(Budget(runLeft, nodeLeft), |bytes|) then Reread(lib, bytes) else BYTE_MARKER
    }

    method Encode(out: Out) returns (captured: Json)
      requires Valid() && 0 < Allowance(Budget(runLeft, nodeLeft))
      modifies this
      ensures Valid() && history == old(history) + [Keep(|Bytes(lib, Erase(out))|)]
      ensures confidential == old(confidential)
      ensures captured == old(Answer(out))
    {
      var allowance := if nodeLeft < runLeft then nodeLeft else runLeft;
      var buffer := new CappedBuffer(allowance);
      var ok := WriteAll(lib, Erase(out), buffer);
      var charged := if ok then |buffer.bytes| else allowance;
      nodeLeft := nodeLeft - charged;
      runLeft := runLeft - charged;
      history := history + [Keep(|Bytes(lib, Erase(out))|)];
      assert history[..|history| - 1] == old(history);
      if !ok {
        return BYTE_MARKER;
      }
      captured := Reread(lib, buffer.bytes);
    }

    method CaptureMode(value: Json, config: bool) returns (captured: Json)
      requires Valid()
      modifies this
      ensures Valid() && confidential == old(confidential)
      ensures history == old(history) + [Keep(|Bytes(lib, Erase(Captured(value, limits, old(confidential), config)))|)]
      ensures captured == old(Answer(Captured(value, limits, confidential, config)))
    {
      hide AllTokens, Collect, Declared, Bytes, Reread, View, Erase;
      ghost var view := Captured(value, limits, confidential, config);
      if Allowance(Budget(runLeft, nodeLeft)) == 0 {
        history := history + [Keep(|Bytes(lib, Erase(view))|)];
        assert history[..|history| - 1] == old(history);
        return BYTE_MARKER;
      }
      var borrowed := confidential;
      confidential := [];
      ghost var visited;
      var tokens;
      tokens, visited := Discover(value);
      DiscoveredTokens(value, "");
      for i := 0 to |borrowed|
        invariant tokens == Collect([], AllTokens(value)) + borrowed[..i]
      {
        tokens := tokens + [borrowed[i]];
      }
      assert borrowed[..|borrowed|] == borrowed;
      var out := Render(value, Context(Secrets(tokens, Exceptions(value)), limits, 0, 0, [], false, false, config));
      captured := Encode(out);
      confidential := borrowed;
    }

    method Capture(value: Json) returns (captured: Json)
      requires Valid()
      modifies this
      ensures Valid() && confidential == old(confidential)
      ensures history == old(history) + [Keep(|Bytes(lib, Erase(Captured(value, limits, old(confidential), false)))|)]
      ensures captured == old(Answer(Captured(value, limits, confidential, false)))
    {
      captured := CaptureMode(value, false);
    }

    /** A node's resolved configuration; nothing for an empty one. */
    method Config(value: Json) returns (captured: Option<Json>)
      requires Valid()
      modifies this
      ensures Valid() && confidential == old(confidential)
      ensures value == Null || value == Obj([]) ==> captured == None && history == old(history)
      ensures value != Null && value != Obj([]) ==>
        && captured == Some(old(Answer(Captured(value, limits, confidential, true))))
        && history == old(history) + [Keep(|Bytes(lib, Erase(Captured(value, limits, old(confidential), true)))|)]
    {
      if value.Null? || (value.Obj? && value.members == []) {
        return None;
      }
      var answer := CaptureMode(value, true);
      captured := Some(answer);
    }

    /** A node's outputs: a single payload as itself, any other number as a list. */
    method Outputs(outputs: seq<Json>) returns (captured: Json)
      requires Valid()
      modifies this
      ensures Valid() && confidential == old(confidential)
      ensures history == old(history) + [Keep(|Bytes(lib, Erase(OutputsView(outputs, limits, old(confidential))))|)]
      ensures captured == old(Answer(OutputsView(outputs, limits, confidential)))
    {
      if |outputs| == 1 {
        captured := Capture(outputs[0]);
        return;
      }
      if Allowance(Budget(runLeft, nodeLeft)) == 0 {
        history := history + [Keep(|Bytes(lib, Erase(EmissionsView(outputs, limits)))|)];
        assert history[..|history| - 1] == old(history);
        return BYTE_MARKER;
      }
      var out := RenderEmissions(outputs, limits);
      captured := Encode(out);
    }
  }
}
