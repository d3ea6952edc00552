/**
 Masking by position what was recorded: the paths are declared for a payload,
 but followed in the record of it, which is shaped differently where an array was
 sampled and where there is not exactly one emission.
 */
module RecordMasks {
  import opened JsonValues
  import opened Text
  import opened Redactor
  import opened SecretScan
  import opened TraceView
  import opened TraceSecrecy
  import opened SecretPaths

  /** What is written of a view shows nothing of a position of the payload that a path leads to. */
  ghost predicate DeclaredMasked(out: Out, paths: set<seq<string>>, written: Json)
    decreases out, 1
  {
    written == MASK || (
      && [] !in paths
      && match out
         case Listed(items) => ElementsMasked(items, paths, written)
         case Sampled(_, _, preview) =>
           var shown := Get(written, "preview");
           shown.Some? && (shown.value == MASK || ElementsMasked(preview, paths, shown.value))
         case Record(fields) =>
           && written.Obj? && |written.members| == |fields|
           && forall i :: 0 <= i < |fields| ==>
                && written.members[i].key == fields[i].key
                && DeclaredMasked(fields[i].value, MemberTails(paths, fields[i].key), written.members[i].value)
         case _ => true)
  }

  ghost predicate ElementsMasked(items: seq<Out>, paths: set<seq<string>>, written: Json)
    decreases items
  {
    && written.Arr? && |written.items| == |items|
    && forall i :: 0 <= i < |items| ==> DeclaredMasked(items[i], ItemTails(paths, i), written.items[i])
  }

  /** No path has to go through an array that was sampled. */
  ghost predicate MeetsNoSample(out: Out, paths: set<seq<string>>)
    decreases out
  {
    paths == {} || [] in paths ||
      match out
      case Listed(items) => forall i :: 0 <= i < |items| ==> MeetsNoSample(items[i], ItemTails(paths, i))
      case Sampled(_, _, _) => false
      case Record(fields) => forall i :: 0 <= i < |fields| ==>
          MeetsNoSample(fields[i].value, MemberTails(paths, fields[i].key))
      case _ => true
  }

  // ---- where no sample is met -----------------------------------------------

  lemma NoTails(key: string, index: nat)
    ensures MemberTails({}, key) == {} && ItemTails({}, index) == {}
  {}

  lemma FourthFound(a: Member, b: Member, c: Member, d: Member)
    requires a.key != d.key && b.key != d.key && c.key != d.key
    ensures Find([a, b, c, d], d.key) == Some(d.value)
  {
    assert [a, b, c, d][1..] == [b, c, d] && [b, c, d][1..] == [c, d] && [c, d][1..] == [d];
    assert Find([d], d.key) == Some(d.value);
    assert Find([c, d], d.key) == Some(d.value);
    assert Find([b, c, d], d.key) == Some(d.value);
  }

  lemma SampledShows(len: nat, omitted: nat, preview: seq<Out>)
    ensures Get(Erase(Sampled(len, omitted, preview)), "preview") == Some(Arr(EraseItems(preview)))
  {
    hide EraseItems, Find;
    FourthFound(Summary("array"), Member("len", Int(len)), Member("omitted", Int(omitted)),
      Member("preview", Arr(EraseItems(preview))));
  }

  lemma {:induction false} NothingDeclared(out: Out)
    ensures DeclaredMasked(out, {}, Erase(out))
    decreases out, 1
  {
    match out {
      case Listed(items) => NothingDeclaredInItems(items);
      case Sampled(len, omitted, preview) =>
        SampledShows(len, omitted, preview);
        NothingDeclaredInItems(preview);
      case Record(fields) =>
        ErasedFields(fields);
        forall i | 0 <= i < |fields|
          ensures DeclaredMasked(fields[i].value, MemberTails({}, fields[i].key), Erase(fields[i].value))
        {
          NoTails(fields[i].key, 0);
          NothingDeclared(fields[i].value);
        }
      case _ =>
    }
  }

  lemma {:induction false} NothingDeclaredInItems(items: seq<Out>)
    ensures ElementsMasked(items, {}, Arr(EraseItems(items)))
    decreases items
  {
    ErasedItems(items);
    forall i | 0 <= i < |items| ensures DeclaredMasked(items[i], ItemTails({}, i), Erase(items[i])) {
      NoTails("", i);
      NothingDeclared(items[i]);
    }
  }

  lemma MaskedElements(items: seq<Out>, paths: set<seq<string>>)
    requires [] !in paths
    requires forall i :: 0 <= i < |items| ==>
      DeclaredMasked(items[i], ItemTails(paths, i), MaskAll(Erase(items[i]), ItemTails(paths, i)))
    ensures ElementsMasked(items, paths, MaskAll(Arr(EraseItems(items)), paths))
  {
    hide DeclaredMasked, Erase, ItemTails;
    var erased := EraseItems(items);
    ErasedItems(items);
    forall i | 0 <= i < |items|
      ensures MaskAllItems(erased, |erased|, paths)[i] == MaskAll(Erase(items[i]), ItemTails(paths, i))
    {
      MaskAllItemAt(erased, |erased|, paths, i);
    }
  }

  lemma MaskedFields(fields: seq<Field>, paths: set<seq<string>>)
    requires [] !in paths
    requires forall i :: 0 <= i < |fields| ==> DeclaredMasked(fields[i].value, MemberTails(paths, fields[i].key),
      MaskAll(Erase(fields[i].value), MemberTails(paths, fields[i].key)))
    ensures DeclaredMasked(Record(fields), paths, MaskAll(Erase(Record(fields)), paths))
  {
    hide MemberTails;
    var erased := EraseFields(fields);
    ErasedFields(fields);
    assert Erase(Record(fields)) == Obj(erased);
    forall i | 0 <= i < |fields|
      ensures MaskAllMembers(erased, |erased|, paths)[i]
           == Member(fields[i].key, MaskAll(Erase(fields[i].value), MemberTails(paths, fields[i].key)))
    {
      MaskAllMemberAt(erased, |erased|, paths, i);
    }
  }

  /** Where no path has to go through a sampled array, masking the record masks every declared position. */
  lemma {:induction false} MasksDeclared(out: Out, paths: set<seq<string>>)
    requires MeetsNoSample(out, paths)
    ensures DeclaredMasked(out, paths, MaskAll(Erase(out), paths))
    decreases out
  {
    hide Erase, MemberTails, ItemTails;
    if paths == {} {
      NoPaths(Erase(out));
      NothingDeclared(out);
    } else if [] !in paths {
      match out {
        case Listed(items) =>
          forall i | 0 <= i < |items|
            ensures DeclaredMasked(items[i], ItemTails(paths, i), MaskAll(Erase(items[i]), ItemTails(paths, i)))
          {
            MasksDeclared(items[i], ItemTails(paths, i));
          }
          MaskedElements(items, paths);
          ListedErased(items);
        case Record(fields) =>
          forall i | 0 <= i < |fields|
            ensures DeclaredMasked(fields[i].value, MemberTails(paths, fields[i].key),
              MaskAll(Erase(fields[i].value), MemberTails(paths, fields[i].key)))
          {
            MasksDeclared(fields[i].value, MemberTails(paths, fields[i].key));
          }
          MaskedFields(fields, paths);
        case _ =>
      }
    }
  }

  // ---- without sampling -------------------------------------------------------

  lemma {:induction false} UnsampledMeetsNone(value: Json, c: Context, paths: set<seq<string>>)
    requires c.limits.arraySampleCount == 0
    ensures MeetsNoSample(View(value, c), paths)
    decreases value, 1
  {
    hide ItemTails, MemberTails;
    if !Hidden(value, c) && !TooDeep(c) {
      match value {
        case Arr(items) =>
          forall i | 0 <= i < |items|
            ensures MeetsNoSample(ViewItems(items, |items|, ChildOf(c, false, None))[i], ItemTails(paths, i))
          {
            UnsampledItems(items, |items|, ChildOf(c, false, None), i, ItemTails(paths, i));
          }
        case Obj(members) =>
          var fields := ViewMembers(members, |members|, c);
          forall i | 0 <= i < |fields| ensures MeetsNoSample(fields[i].value, MemberTails(paths, fields[i].key)) {
            UnsampledMembers(members, |members|, c, i, MemberTails(paths, fields[i].key));
          }
        case _ =>
      }
    }
  }

  lemma {:induction false} UnsampledItems(items: seq<Json>, n: nat, c: Context, i: nat, paths: set<seq<string>>)
    requires i < n <= |items| && c.limits.arraySampleCount == 0
    ensures MeetsNoSample(ViewItems(items, n, c)[i], paths)
    decreases items, n
  {
    hide View, MeetsNoSample;
    if i < n - 1 {
      UnsampledItems(items, n - 1, c, i, paths);
    } else {
      UnsampledMeetsNone(items[i], c, paths);
    }
  }

  lemma {:induction false} UnsampledMembers(members: seq<Member>, n: nat, c: Context, i: nat, paths: set<seq<string>>)
    requires n <= |members| && i < |ViewMembers(members, n, c)| && c.limits.arraySampleCount == 0
    ensures MeetsNoSample(ViewMembers(members, n, c)[i].value, paths)
    decreases members, n
  {
    hide View, ViewMembers, MeetsNoSample, Skipped;
    if n == 0 {
      NoMemberView(members, c);
    } else {
      MemberView(members, n, c);
      if i < |ViewMembers(members, n - 1, c)| {
        UnsampledMembers(members, n - 1, c, i, paths);
      } else {
        UnsampledMeetsNone(members[n - 1].value, ChildOf(c, false, Some(members[n - 1].key)), paths);
      }
    }
  }

  // ---- recorded outputs -------------------------------------------------------

  /** Every element of a list of emissions is the payload the paths are declared for. */
  ghost predicate PayloadsMasked(items: seq<Out>, paths: set<seq<string>>, written: Json) {
    && written.Arr? && |written.items| == |items|
    && forall i :: 0 <= i < |items| ==> DeclaredMasked(items[i], paths, written.items[i])
  }

  ghost predicate EmissionsMasked(items: seq<Out>, paths: set<seq<string>>, written: Json) {
    written == MASK || (
      var emissions := Get(written, "emissions");
      && emissions.Some?
      && (emissions.value == MASK || PayloadsMasked(items, paths, emissions.value) || (
            var preview := Get(emissions.value, "preview");
            preview.Some? && (preview.value == MASK || PayloadsMasked(items, paths, preview.value)))))
  }

  /** The record of a node's outputs shows nothing of a declared position of any of their payloads. */
  ghost predicate OutputsMasked(outputs: seq<Json>, limits: Limits, confidential: seq<string>,
      paths: set<seq<string>>) {
    var written := MaskAll(Erase(OutputsView(outputs, limits, confidential)), paths);
    if |outputs| == 1 then DeclaredMasked(Captured(outputs[0], limits, confidential, false), paths, written)
    else EmissionsMasked(EmissionItems(outputs, SampleCount(|outputs|, limits), limits), paths, written)
  }

  ghost predicate AlwaysMasked(n: nat, limits: Limits) {
    forall outputs, confidential, paths: set<seq<string>> | |outputs| == n && [] !in paths ::
      OutputsMasked(outputs, limits, confidential, paths)
  }

  /** What is recorded as the list of emissions, before and after masking. */
  function EmissionsPart(outputs: seq<Json>, items: seq<Out>): Out
    requires |items| <= |outputs|
  {
    if |items| == |outputs| then Listed(items) else Sampled(|outputs|, |outputs| - |items|, items)
  }

  lemma RecordErased(fields: seq<Field>)
    ensures Erase(Record(fields)) == Obj(EraseFields(fields))
  {}

  lemma EmissionsErased(outputs: seq<Json>, limits: Limits)
    ensures var items := EmissionItems(outputs, SampleCount(|outputs|, limits), limits);
      && |items| <= |outputs|
      && Erase(EmissionsView(outputs, limits))
           == Obj([Member("count", Int(|outputs|)), Member("emissions", Erase(EmissionsPart(outputs, items)))])
  {
    hide EmissionItems, Erase;
    var count := SampleCount(|outputs|, limits);
    EmissionCount(outputs, count, limits);
    CountedErased(|outputs|, EmissionsPart(outputs, EmissionItems(outputs, count, limits)));
  }

  lemma CountedErased(n: nat, emissions: Out)
    ensures Erase(Record([Field("count", Plain(Int(n))), Field("emissions", emissions)]))
      == Obj([Member("count", Int(n)), Member("emissions", Erase(emissions))])
  {
    var fields := [Field("count", Plain(Int(n))), Field("emissions", emissions)];
    NumberErased(n);
    hide Erase, EraseFields;
    ErasedFields(fields);
    RecordErased(fields);
    var erased := EraseFields(fields);
    assert erased == [erased[0], erased[1]];
  }

  lemma NumberErased(n: nat)
    ensures Erase(Plain(Int(n))) == Int(n)
  {}

  lemma {:induction false} EmissionCount(outputs: seq<Json>, n: nat, limits: Limits)
    requires n <= |outputs|
    ensures |EmissionItems(outputs, n, limits)| == n
  {
    hide Captured;
    if n > 0 {
      EmissionCount(outputs, n - 1, limits);
    }
  }

  lemma SecondFound(a: Member, b: Member)
    requires a.key != b.key
    ensures Find([a, b], b.key) == Some(b.value)
  {
    assert [a, b][1..] == [b];
  }

  /** Without emissions there is nothing to mask. */
  lemma NothingRecorded(limits: Limits, confidential: seq<string>, paths: set<seq<string>>)
    requires [] !in paths
    ensures OutputsMasked([], limits, confidential, paths)
  {
    hide Erase, Captured;
    var count, emissions := Member("count", Int(0)), Member("emissions", Arr([]));
    EmissionsErased([], limits);
    assert EmissionItems([], 0, limits) == [];
    ListedErased([]);
    assert EraseItems([]) == [];
    var tails := MemberTails(paths, "emissions");
    MaskAllMemberAt([count, emissions], 2, paths, 0);
    MaskAllMemberAt([count, emissions], 2, paths, 1);
    var masked := MaskAllMembers([count, emissions], 2, paths);
    assert masked == [masked[0], masked[1]];
    SecondFound(masked[0], masked[1]);
    assert MaskAll(Arr([]), tails) == MASK || MaskAll(Arr([]), tails) == Arr([]);
  }

  // ---- what is missed ---------------------------------------------------------

  /** Masking leaves an object alone when no path names one of its members. */
  lemma NoneNamed(members: seq<Member>, paths: set<seq<string>>)
    requires [] !in paths && forall i :: 0 <= i < |members| ==> MemberTails(paths, members[i].key) == {}
    ensures MaskAll(Obj(members), paths) == Obj(members)
  {
    hide MemberTails;
    var masked := MaskAllMembers(members, |members|, paths);
    forall i | 0 <= i < |members| ensures masked[i] == members[i] {
      MaskAllMemberAt(members, |members|, paths, i);
      NoPaths(members[i].value);
    }
    assert masked == members;
  }

  lemma OnePathNames(segment: string, key: string)
    requires segment != "*"
    ensures MemberTails({[segment]}, key) == if segment == key then {[]} else {}
  {
    assert [segment][1..] == [];
  }

  lemma {:induction false} ViewItemAt(items: seq<Json>, n: nat, c: Context, i: nat)
    requires i < n <= |items|
    ensures ViewItems(items, n, c)[i] == View(items[i], c)
  {
    hide View;
    if i < n - 1 {
      ViewItemAt(items, n - 1, c, i);
    }
  }

  const VALUE := "v"

  /** A text seen where nothing is secret is written as it is. */
  lemma ValueSeen(c: Context)
    requires c.secrets.tokens == [] && !c.masked && c.limits.maxStringChars >= 1
    ensures View(Str(VALUE), c) == Word(VALUE, c.path)
  {
    assert TokensFor(c) == [];
    NothingToRedact(VALUE, []);
    PlainLeftOver(VALUE, [], c.limits.maxStringChars);
  }

  function Values(n: nat): (r: seq<Json>)
    ensures |r| == n && forall i :: 0 <= i < n ==> r[i] == Str(VALUE)
  {
    seq(n, i => Str(VALUE))
  }

  lemma {:induction false} ValuesDeclareNothing(items: seq<Json>)
    requires forall i :: 0 <= i < |items| ==> items[i] == Str(VALUE)
    ensures ItemTokens(items) == []
  {
    if items != [] {
      ValuesDeclareNothing(items[1..]);
    }
  }

  lemma SampledValues(limits: Limits)
    requires limits.arraySampleCount > 0 && limits.maxDepth >= 1 && limits.maxStringChars >= 1
    ensures var n := limits.arraySampleCount;
      var out := Captured(Arr(Values(n + 1)), limits, [], false);
      out.Sampled? && |out.preview| == n && out.preview[0] == Word(VALUE, [])
  {
    var n := limits.arraySampleCount;
    var items := Values(n + 1);
    var c := Root(Arr(items), limits, [], false);
    ValuesDeclareNothing(items);
    assert c.secrets.tokens == [];
    var d := ChildOf(c, true, None);
    ViewItemAt(items, n, d, 0);
    ValueSeen(d);
    hide View, ViewItems;
    assert View(Arr(items), c) == Sampled(n + 1, 1, ViewItems(items, n, d)) by {
      ArraySampled(items, c);
    }
  }

  lemma ArraySampled(items: seq<Json>, c: Context)
    requires !Hidden(Arr(items), c) && !TooDeep(c) && SampleCount(|items|, c.limits) < |items|
    ensures var count := SampleCount(|items|, c.limits);
      View(Arr(items), c) == Sampled(|items|, |items| - count, ViewItems(items, count, ChildOf(c, true, None)))
  {
    hide ViewItems, ViewMembers, TextView, ChildOf, SampleCount;
  }

  lemma ZeroIsFirst()
    ensures ItemTails({["0"]}, 0) == {[]}
  {
    assert AllDigits("0") && Decimal("0") == 0 && "0"[..0] == "";
    assert ParseUsize("0") == Some(0);
    assert ["0"][1..] == [];
  }

  /** The first element of an array that was sampled is written although the path leads to it. */
  lemma SampleIsMissed(limits: Limits)
    requires limits.arraySampleCount > 0 && limits.maxDepth >= 1 && limits.maxStringChars >= 1
    ensures !OutputsMasked([Arr(Values(limits.arraySampleCount + 1))], limits, [], {["0"]})
  {
    hide Captured, Erase, MaskAll, ItemTails;
    var value := Arr(Values(limits.arraySampleCount + 1));
    var out := Captured(value, limits, [], false);
    SampledValues(limits);
    SampleUnmasked(out.len, out.omitted, out.preview);
    assert OutputsView([value], limits, []) == out;
  }

  lemma ValueUnmasked(path: seq<string>)
    ensures !DeclaredMasked(Word(VALUE, path), {[]}, Str(VALUE))
  {
    assert VALUE != REDACTED;
  }

  lemma FirstElementUnmasked(preview: seq<Out>)
    requires preview != [] && preview[0] == Word(VALUE, [])
    ensures !ElementsMasked(preview, {["0"]}, Arr(EraseItems(preview)))
  {
    hide DeclaredMasked, ItemTails;
    ErasedItems(preview);
    ZeroIsFirst();
    ValueUnmasked([]);
    assert Erase(preview[0]) == Str(VALUE);
  }

  lemma SampleUnmasked(len: nat, omitted: nat, preview: seq<Out>)
    requires preview != [] && preview[0] == Word(VALUE, [])
    ensures var out := Sampled(len, omitted, preview);
      !DeclaredMasked(out, {["0"]}, MaskAll(Erase(out), {["0"]}))
  {
    hide MaskAll, ElementsMasked;
    var out := Sampled(len, omitted, preview);
    SampleNamesNone(len, omitted, preview);
    SampledShows(len, omitted, preview);
    SampledIsObject(len, omitted, preview);
    FirstElementUnmasked(preview);
    hide Erase, EraseItems;
    assert MaskAll(Erase(out), {["0"]}) == Erase(out);
  }

  lemma SampleNamesNone(len: nat, omitted: nat, preview: seq<Out>)
    ensures MaskAll(Erase(Sampled(len, omitted, preview)), {["0"]}) == Erase(Sampled(len, omitted, preview))
  {
    hide MaskAll, MemberTails, EraseItems;
    var members := Erase(Sampled(len, omitted, preview)).members;
    assert Erase(Sampled(len, omitted, preview)) == Obj(members) && |members| == 4;
    forall i | 0 <= i < |members| ensures MemberTails({["0"]}, members[i].key) == {} {
      assert |members[i].key| > |"0"|;
      OnePathNames("0", members[i].key);
    }
    NoneNamed(members, {["0"]});
  }

  // ---- more than one emission -------------------------------------------------

  function Single(): Json {
    Obj([Member("x", Str(VALUE))])
  }

  lemma SingleSeen(limits: Limits)
    requires limits.maxDepth >= 1 && limits.maxStringChars >= 1
    ensures Captured(Single(), limits, [], false) == Record([Field("x", Word(VALUE, ["x"]))])
  {
    SingleDeclaresNothing();
    var c := Root(Single(), limits, [], false);
    assert c.secrets == Secrets([], []);
    hide AllTokens, Exceptions, Collect;
    MemberSeen(c);
    hide View, ViewMembers;
    ObjectSeen([Member("x", Str(VALUE))], c);
  }

  lemma MemberSeen(c: Context)
    requires c.secrets == Secrets([], []) && c.path == [] && !c.masked && !c.config && c.limits.maxStringChars >= 1
    ensures ViewMembers([Member("x", Str(VALUE))], 1, c) == [Field("x", Word(VALUE, ["x"]))]
  {
    hide View, ViewMembers, SensitivePayloadKey, SensitiveConfigKey, PrivateKey;
    var members := [Member("x", Str(VALUE))];
    var d := ChildOf(c, false, Some("x"));
    XIsPlain();
    assert [] + ["x"] == ["x"];
    assert d.path == ["x"] && !d.masked && d.secrets == c.secrets && d.limits == c.limits;
    assert !Skipped("x", c);
    hide ChildOf, Skipped;
    ValueSeen(d);
    NoMemberView(members, c);
    MemberView(members, 1, c);
  }

  lemma XIsPlain()
    ensures !SensitivePayloadKey("x") && !PrivateKey("x")
  {
    assert "x"[1..] == "" && AlphanumericsOf("") == "";
    assert AlphanumericsOf("x") == "x";
    assert |"x"| == 1;
  }

  lemma ObjectSeen(members: seq<Member>, c: Context)
    requires !Hidden(Obj(members), c) && !TooDeep(c)
    ensures View(Obj(members), c) == Record(ViewMembers(members, |members|, c))
  {
    hide ViewItems, ViewMembers, TextView, ChildOf, SampleCount;
  }

  lemma SingleDeclaresNothing()
    ensures AllTokens(Single()) == [] && Exceptions(Single()) == [] && Collect([], []) == []
  {
    var members := [Member("x", Str(VALUE))];
    assert members[1..] == [];
    assert Find(members, TRACE_REDACT) == None && Find(members, REDACT) == None && Find(members, EXCEPT_PATHS) == None;
    assert Declared(members) == [];
    XIsPlain();
    assert MemberTokens(members) == [];
  }

  function Singles(n: nat): (r: seq<Json>)
    ensures |r| == n && forall i :: 0 <= i < n ==> r[i] == Single()
  {
    seq(n, i => Single())
  }

  lemma {:induction false} EmissionItemAt(outputs: seq<Json>, n: nat, limits: Limits, i: nat)
    requires i < n <= |outputs|
    ensures |EmissionItems(outputs, n, limits)| == n
    ensures EmissionItems(outputs, n, limits)[i] == Captured(outputs[i], limits, [], false)
  {
    hide Captured;
    EmissionCount(outputs, n, limits);
    if i < n - 1 {
      EmissionItemAt(outputs, n - 1, limits, i);
    }
  }

  /** A member of a payload is written as it is when the record is a list: the path does not lead there. */
  lemma EmissionsAreMissed(n: nat, limits: Limits)
    requires n >= 2 && limits.maxDepth >= 1 && limits.maxStringChars >= 1
    ensures !OutputsMasked(Singles(n), limits, [], {["x"]})
  {
    hide Captured, Erase, MaskAll, EmissionItems, EmissionsMasked;
    var outputs := Singles(n);
    var count := SampleCount(n, limits);
    var items := EmissionItems(outputs, count, limits);
    EmissionItemAt(outputs, count, limits, 0);
    SingleSeen(limits);
    EmissionsErased(outputs, limits);
    var members := [Member("count", Int(n)), Member("emissions", Erase(EmissionsPart(outputs, items)))];
    CountNamesNone(members);
    PartUnmasked(outputs, items, members[0]);
  }

  lemma CountNamesNone(members: seq<Member>)
    requires |members| == 2 && members[0].key == "count" && members[1].key == "emissions"
    ensures MaskAll(Obj(members), {["x"]}) == Obj(members)
  {
    hide MaskAll, MemberTails;
    assert |"x"| == 1 && |"count"| == 5 && |"emissions"| == 9;
    OnePathNames("x", "count");
    OnePathNames("x", "emissions");
    NoneNamed(members, {["x"]});
  }

  lemma PartUnmasked(outputs: seq<Json>, items: seq<Out>, count: Member)
    requires 0 < |items| <= |outputs| && items[0] == Record([Field("x", Word(VALUE, ["x"]))]) && count.key == "count"
    ensures !EmissionsMasked(items, {["x"]}, Obj([count, Member("emissions", Erase(EmissionsPart(outputs, items)))]))
  {
    hide DeclaredMasked, Erase;
    SecondFound(count, Member("emissions", Erase(EmissionsPart(outputs, items))));
    ListedErased(items);
    SampledShows(|outputs|, |outputs| - |items|, items);
    SampledIsObject(|outputs|, |outputs| - |items|, items);
    ErasedItems(items);
    FirstUnmasked();
  }

  lemma SampledIsObject(len: nat, omitted: nat, preview: seq<Out>)
    ensures Erase(Sampled(len, omitted, preview)).Obj?
  {}

  lemma FirstUnmasked()
    ensures var out := Record([Field("x", Word(VALUE, ["x"]))]); !DeclaredMasked(out, {["x"]}, Erase(out))
  {
    var fields := [Field("x", Word(VALUE, ["x"]))];
    ErasedFields(fields);
    OnePathNames("x", "x");
    hide MemberTails;
    ValueUnmasked(["x"]);
    var written := Erase(Record(fields));
    assert written == Obj(EraseFields(fields)) && written.members[0] == Member("x", Str(VALUE));
  }

  /**
   Whatever the payloads and the declared paths, masking the record hides every declared position
   exactly when there is no emission, or one and arrays are not sampled. The limits are those
   that settings allow.
   */
  lemma MasksExactlyWhen(n: nat, limits: Limits)
    requires limits.maxDepth >= 1 && limits.maxStringChars >= 1
    ensures AlwaysMasked(n, limits) <==> n == 0 || (n == 1 && limits.arraySampleCount == 0)
  {
    hide OutputsMasked;
    if n == 0 {
      forall outputs, confidential, paths: set<seq<string>> | |outputs| == n && [] !in paths
        ensures OutputsMasked(outputs, limits, confidential, paths)
      {
        assert outputs == [];
        NothingRecorded(limits, confidential, paths);
      }
    } else if n == 1 && limits.arraySampleCount == 0 {
      forall outputs, confidential, paths: set<seq<string>> | |outputs| == n && [] !in paths
        ensures OutputsMasked(outputs, limits, confidential, paths)
      {
        OneUnsampledMasked(outputs, limits, confidential, paths);
      }
    } else if n == 1 {
      SampleIsMissed(limits);
      assert [] !in {["0"]};
    } else {
      EmissionsAreMissed(n, limits);
      assert [] !in {["x"]};
    }
  }

  lemma OneUnsampledMasked(outputs: seq<Json>, limits: Limits, confidential: seq<string>, paths: set<seq<string>>)
    requires |outputs| == 1 && limits.arraySampleCount == 0
    ensures OutputsMasked(outputs, limits, confidential, paths)
  {
    hide View, MeetsNoSample, DeclaredMasked;
    UnsampledMeetsNone(outputs[0], Root(outputs[0], limits, confidential, false), paths);
    MasksDeclared(Captured(outputs[0], limits, confidential, false), paths);
  }
}
