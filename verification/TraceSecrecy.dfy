/**
 What a captured payload can and cannot show: no declared secret in any text of
 the payload, nothing readable under a sensitive key, honest sample counts, and
 the one kind of capture that does not look at the project's own secrets.
 */
module TraceSecrecy {
  import opened Basics
  import opened JsonValues
  import opened Text
  import opened Redactor
  import opened SecretScan
  import opened TraceView

  // ---- reading a view -----------------------------------------------------

  /** A text, and the keys it stands under. */
  datatype Spoken = Spoken(path: seq<string>, text: string)

  /** The texts of the payload anywhere in a view. */
  function Said(out: Out): seq<Spoken>
    decreases out
  {
    match out
    case Word(text, path) => [Spoken(path, text)]
    case Clipped(_, text, path) => [Spoken(path, text)]
    case Listed(items) => SaidItems(items)
    case Sampled(_, _, preview) => SaidItems(preview)
    case Record(fields) => SaidFields(fields)
    case _ => []
  }

  function SaidItems(items: seq<Out>): seq<Spoken>
    decreases items
  {
    if items == [] then [] else SaidItems(items[..|items| - 1]) + Said(items[|items| - 1])
  }

  function SaidFields(fields: seq<Field>): seq<Spoken>
    decreases fields
  {
    if fields == [] then [] else SaidFields(fields[..|fields| - 1]) + Said(fields[|fields| - 1].value)
  }

  lemma AppendSaidItem(items: seq<Out>, item: Out)
    ensures SaidItems(items + [item]) == SaidItems(items) + Said(item)
  {
    assert (items + [item])[..|items|] == items;
  }

  lemma AppendSaidField(fields: seq<Field>, f: Field)
    ensures SaidFields(fields + [f]) == SaidFields(fields) + Said(f.value)
  {
    assert (fields + [f])[..|fields|] == fields;
  }

  /** Every text in a tree that is not a key. */
  function Strings(value: Json): seq<string>
    decreases value
  {
    match value
    case Str(text) => [text]
    case Arr(items) => ItemStrings(items)
    case Obj(members) => MemberStrings(members)
    case _ => []
  }

  function ItemStrings(items: seq<Json>): seq<string>
    decreases items
  {
    if items == [] then [] else ItemStrings(items[..|items| - 1]) + Strings(items[|items| - 1])
  }

  function MemberStrings(members: seq<Member>): seq<string>
    decreases members
  {
    if members == [] then [] else MemberStrings(members[..|members| - 1]) + Strings(members[|members| - 1].value)
  }

  /** The texts a view writes of its own. */
  const OWN_WORDS := {REDACTED, "string", "array", "object", "depth"}

  ghost predicate OwnOrSaid(out: Out, text: string) {
    text in OWN_WORDS || exists s :: s in Said(out) && s.text == text
  }

  /** What is written of a view holds no text but the view's own words and what it says of the payload. */
  lemma {:induction false} WrittenTexts(out: Out, text: string)
    requires text in Strings(Erase(out))
    ensures OwnOrSaid(out, text)
    decreases out
  {
    match out {
      case Listed(items) => WrittenItems(items, text);
      case Sampled(len, omitted, preview) =>
        SampledStrings(len, omitted, preview);
        if text != "array" { WrittenItems(preview, text); }
      case Record(fields) => WrittenFields(fields, text);
      case Word(word, path) => assert Spoken(path, word) in Said(out);
      case Clipped(chars, word, path) => WrittenClipped(chars, word, path, text);
      case Shape(isArray, count) => WrittenShape(isArray, count, text);
      case _ =>
    }
  }

  lemma WrittenClipped(chars: nat, word: string, path: seq<string>, text: string)
    requires text in Strings(Erase(Clipped(chars, word, path)))
    ensures OwnOrSaid(Clipped(chars, word, path), text)
  {
    ThreeStrings(Summary("string"), Member("chars", Int(chars)), Member("preview", Str(word)));
    assert Spoken(path, word) in Said(Clipped(chars, word, path));
  }

  lemma WrittenShape(isArray: bool, count: nat, text: string)
    requires text in Strings(Erase(Shape(isArray, count)))
    ensures text in OWN_WORDS
  {
    ThreeStrings(Summary(if isArray then "array" else "object"),
        Member(if isArray then "len" else "keys", Int(count)), Member("reason", Str("depth")));
  }

  lemma AppendStrings(members: seq<Member>, m: Member)
    ensures MemberStrings(members + [m]) == MemberStrings(members) + Strings(m.value)
  {
    assert (members + [m])[..|members|] == members;
  }

  lemma ThreeStrings(a: Member, b: Member, c: Member)
    ensures MemberStrings([a, b, c]) == Strings(a.value) + Strings(b.value) + Strings(c.value)
  {
    hide Strings;
    assert [] + [a] == [a] && [a] + [b] == [a, b] && [a, b] + [c] == [a, b, c];
    AppendStrings([], a);
    AppendStrings([a], b);
    AppendStrings([a, b], c);
  }

  lemma SampledStrings(len: nat, omitted: nat, preview: seq<Out>)
    ensures Strings(Erase(Sampled(len, omitted, preview))) == ["array"] + ItemStrings(EraseItems(preview))
  {
    var flat := [Summary("array"), Member("len", Int(len)), Member("omitted", Int(omitted))];
    var last := Member("preview", Arr(EraseItems(preview)));
    ThreeStrings(flat[0], flat[1], flat[2]);
    AppendStrings(flat, last);
    assert Erase(Sampled(len, omitted, preview)) == Obj(flat + [last]);
  }

  lemma {:induction false} WrittenItems(items: seq<Out>, text: string)
    requires text in ItemStrings(EraseItems(items))
    ensures text in OWN_WORDS || exists s :: s in SaidItems(items) && s.text == text
    decreases items
  {
    hide Erase, Strings, Said;
    var n := |items| - 1;
    var rest := EraseItems(items[..n]);
    assert EraseItems(items) == rest + [Erase(items[n])];
    assert EraseItems(items)[..|rest|] == rest;
    if text in ItemStrings(rest) {
      WrittenItems(items[..n], text);
    } else {
      WrittenTexts(items[n], text);
    }
  }

  lemma {:induction false} WrittenFields(fields: seq<Field>, text: string)
    requires text in MemberStrings(EraseFields(fields))
    ensures text in OWN_WORDS || exists s :: s in SaidFields(fields) && s.text == text
    decreases fields
  {
    hide Erase, Strings, Said;
    var n := |fields| - 1;
    AppendStrings(EraseFields(fields[..n]), Member(fields[n].key, Erase(fields[n].value)));
    if text in MemberStrings(EraseFields(fields[..n])) {
      WrittenFields(fields[..n], text);
    } else {
      WrittenTexts(fields[n].value, text);
    }
  }

  // ---- keys -----------------------------------------------------------------

  /** Every key in a tree. */
  function Keys(value: Json): seq<string>
    decreases value
  {
    match value
    case Arr(items) => ItemKeys(items)
    case Obj(members) => MemberKeys(members)
    case _ => []
  }

  function ItemKeys(items: seq<Json>): seq<string>
    decreases items
  {
    if items == [] then [] else ItemKeys(items[..|items| - 1]) + Keys(items[|items| - 1])
  }

  function MemberKeys(members: seq<Member>): seq<string>
    decreases members
  {
    if members == [] then [] else
      var last := members[|members| - 1];
      MemberKeys(members[..|members| - 1]) + [last.key] + Keys(last.value)
  }

  /** The keys of the records anywhere in a view. */
  function FieldKeys(out: Out): seq<string>
    decreases out
  {
    match out
    case Listed(items) => OutKeys(items)
    case Sampled(_, _, preview) => OutKeys(preview)
    case Record(fields) => RecordKeys(fields)
    case _ => []
  }

  function OutKeys(items: seq<Out>): seq<string>
    decreases items
  {
    if items == [] then [] else OutKeys(items[..|items| - 1]) + FieldKeys(items[|items| - 1])
  }

  function RecordKeys(fields: seq<Field>): seq<string>
    decreases fields
  {
    if fields == [] then [] else
      var last := fields[|fields| - 1];
      RecordKeys(fields[..|fields| - 1]) + [last.key] + FieldKeys(last.value)
  }

  /** The keys a view writes of its own. */
  const OWN_KEYS := {"__zf_trace_summary", "chars", "preview", "len", "omitted", "keys", "reason"}

  lemma AppendKeys(members: seq<Member>, m: Member)
    ensures MemberKeys(members + [m]) == MemberKeys(members) + [m.key] + Keys(m.value)
  {
    assert (members + [m])[..|members|] == members;
  }

  lemma ThreeKeys(a: Member, b: Member, c: Member)
    ensures MemberKeys([a, b, c]) == [a.key] + Keys(a.value) + [b.key] + Keys(b.value) + [c.key] + Keys(c.value)
  {
    hide Keys, MemberKeys;
    TwoKeys(a, b);
    AppendKeys([a, b], c);
    assert [a, b] + [c] == [a, b, c];
  }

  lemma TwoKeys(a: Member, b: Member)
    ensures MemberKeys([a, b]) == [a.key] + Keys(a.value) + [b.key] + Keys(b.value)
  {
    hide Keys, MemberKeys;
    OneKey(a);
    AppendKeys([a], b);
    assert [a] + [b] == [a, b];
  }

  lemma OneKey(a: Member)
    ensures MemberKeys([a]) == [a.key] + Keys(a.value)
  {
    hide Keys;
    assert [a][..0] == [] && MemberKeys([]) == [];
  }

  lemma SampledKeys(len: nat, omitted: nat, preview: seq<Out>)
    ensures Keys(Erase(Sampled(len, omitted, preview)))
         == ["__zf_trace_summary", "len", "omitted", "preview"] + ItemKeys(EraseItems(preview))
  {
    var flat := [Summary("array"), Member("len", Int(len)), Member("omitted", Int(omitted))];
    var last := Member("preview", Arr(EraseItems(preview)));
    ThreeKeys(flat[0], flat[1], flat[2]);
    AppendKeys(flat, last);
    assert Erase(Sampled(len, omitted, preview)) == Obj(flat + [last]);
  }

  /** The keys that are written are those of the view's records, and its own. */
  lemma {:induction false} KeysWritten(out: Out, key: string)
    ensures key in FieldKeys(out) ==> key in Keys(Erase(out))
    ensures key in Keys(Erase(out)) ==> key in FieldKeys(out) || key in OWN_KEYS
    decreases out
  {
    match out {
      case Listed(items) => ItemKeysWritten(items, key);
      case Sampled(len, omitted, preview) =>
        SampledKeys(len, omitted, preview);
        ItemKeysWritten(preview, key);
      case Record(fields) => RecordKeysWritten(fields, key);
      case Clipped(chars, word, path) =>
        ThreeKeys(Summary("string"), Member("chars", Int(chars)), Member("preview", Str(word)));
      case Shape(isArray, count) => ShapeKeys(isArray, count);
      case _ =>
    }
  }

  lemma ShapeKeys(isArray: bool, count: nat)
    ensures Keys(Erase(Shape(isArray, count))) == ["__zf_trace_summary", if isArray then "len" else "keys", "reason"]
  {
    ThreeKeys(
      Summary(if isArray then "array" else "object"),
      Member(if isArray then "len" else "keys", Int(count)),
      Member("reason", Str("depth")));
  }

  lemma {:induction false} ItemKeysWritten(items: seq<Out>, key: string)
    ensures key in OutKeys(items) ==> key in ItemKeys(EraseItems(items))
    ensures key in ItemKeys(EraseItems(items)) ==> key in OutKeys(items) || key in OWN_KEYS
    decreases items
  {
    hide Erase, Keys, FieldKeys;
    if items != [] {
      var n := |items| - 1;
      var rest := EraseItems(items[..n]);
      assert EraseItems(items)[..|rest|] == rest;
      ItemKeysWritten(items[..n], key);
      KeysWritten(items[n], key);
    }
  }

  lemma {:induction false} RecordKeysWritten(fields: seq<Field>, key: string)
    ensures key in RecordKeys(fields) ==> key in MemberKeys(EraseFields(fields))
    ensures key in MemberKeys(EraseFields(fields)) ==> key in RecordKeys(fields) || key in OWN_KEYS
    decreases fields
  {
    hide Erase, Keys, FieldKeys;
    if fields != [] {
      var n := |fields| - 1;
      AppendKeys(EraseFields(fields[..n]), Member(fields[n].key, Erase(fields[n].value)));
      RecordKeysWritten(fields[..n], key);
      KeysWritten(fields[n].value, key);
    }
  }

  // ---- reading a payload ----------------------------------------------------

  /** Every text of a payload outside its private members; array elements stand under the array's keys. */
  function TextsIn(value: Json, path: seq<string>): seq<Spoken>
    decreases value
  {
    match value
    case Str(text) => [Spoken(path, text)]
    case Arr(items) => ItemTexts(items, path)
    case Obj(members) => MemberTexts(members, path)
    case _ => []
  }

  function ItemTexts(items: seq<Json>, path: seq<string>): seq<Spoken>
    decreases items
  {
    if items == [] then [] else TextsIn(items[0], path) + ItemTexts(items[1..], path)
  }

  function MemberTexts(members: seq<Member>, path: seq<string>): seq<Spoken>
    decreases members
  {
    if members == [] then [] else
      (if PrivateKey(members[0].key) then [] else TextsIn(members[0].value, path + [members[0].key]))
      + MemberTexts(members[1..], path)
  }

  lemma {:induction false} ItemTextsHold(items: seq<Json>, path: seq<string>, i: nat, s: Spoken)
    requires i < |items| && s in TextsIn(items[i], path)
    ensures s in ItemTexts(items, path)
  {
    if i > 0 {
      ItemTextsHold(items[1..], path, i - 1, s);
    }
  }

  lemma {:induction false} MemberTextsHold(members: seq<Member>, path: seq<string>, i: nat, s: Spoken)
    requires i < |members| && !PrivateKey(members[i].key) && s in TextsIn(members[i].value, path + [members[i].key])
    ensures s in MemberTexts(members, path)
  {
    if i > 0 {
      MemberTextsHold(members[1..], path, i - 1, s);
    }
  }

  // ---- every text and where it stands -----------------------------------------

  /** Declared exceptions open a path and everything below it; a configuration has none. */
  ghost predicate Readable(path: seq<string>, exceptions: seq<seq<string>>, config: bool) {
    !config && exists n :: 0 <= n <= |path| && path[..n] in exceptions
  }

  /** What a text at a path reads as: itself where it is readable, redacted elsewhere, up to the limit. */
  ghost function Reading(c: Context, path: seq<string>, original: string): string {
    Take(Redacted(original, if Readable(path, c.secrets.exceptions, c.config) then [] else c.secrets.tokens),
      c.limits.maxStringChars)
  }

  /** A captured text is the reading of a text that stands at its path. */
  ghost predicate Accounted(c: Context, texts: seq<Spoken>, s: Spoken) {
    exists original :: Spoken(s.path, original) in texts && s.text == Reading(c, s.path, original)
  }

  ghost predicate AllAccounted(c: Context, texts: seq<Spoken>, said: seq<Spoken>) {
    forall s :: s in said ==> Accounted(c, texts, s)
  }

  /** A context is excepted exactly when a declared exception is a prefix of its keys. */
  ghost predicate ExceptedByPath(c: Context) {
    c.excepted <==> Readable(c.path, c.secrets.exceptions, c.config)
  }

  lemma ExceptionsFollowPaths(c: Context, sampled: bool, key: Option<string>)
    requires ExceptedByPath(c)
    ensures ExceptedByPath(ChildOf(c, sampled, key))
  {
    var child := ChildOf(c, sampled, key);
    assert child.path[..|child.path|] == child.path;
    forall n | 0 <= n <= |c.path| ensures child.path[..n] == c.path[..n] {}
  }

  lemma AccountedAmongMore(c: Context, d: Context, some: seq<Spoken>, texts: seq<Spoken>, said: seq<Spoken>)
    requires AllAccounted(d, some, said) && forall s :: s in some ==> s in texts
    requires c.secrets == d.secrets && c.limits == d.limits && c.config == d.config
    ensures AllAccounted(c, texts, said)
  {
    forall s | s in said ensures Accounted(c, texts, s) {
      assert Accounted(d, some, s);
      var original :| Spoken(s.path, original) in some && s.text == Reading(d, s.path, original);
      assert Reading(c, s.path, original) == Reading(d, s.path, original);
    }
  }

  lemma AccountedTogether(c: Context, texts: seq<Spoken>, a: seq<Spoken>, b: seq<Spoken>)
    requires AllAccounted(c, texts, a) && AllAccounted(c, texts, b)
    ensures AllAccounted(c, texts, a + b)
  {
    hide Accounted;
  }

  lemma TextAccounted(text: string, c: Context)
    requires ExceptedByPath(c)
    ensures AllAccounted(c, TextsIn(Str(text), c.path), Said(TextView(text, c)))
  {
    hide Redacted, LeftOver, Readable;
    forall s | s in Said(TextView(text, c)) ensures Accounted(c, TextsIn(Str(text), c.path), s) {
      assert s.path == c.path && s.text == Reading(c, c.path, text);
      assert Spoken(s.path, text) in TextsIn(Str(text), c.path);
    }
  }

  /** Every text of a view stands in the payload at its path, and reads as that path allows. */
  lemma {:induction false} ViewAccounted(value: Json, c: Context)
    requires ExceptedByPath(c)
    ensures AllAccounted(c, TextsIn(value, c.path), Said(View(value, c)))
    decreases value, 1
  {
    hide Accounted, ExceptedByPath, TextView, ViewItems, ViewMembers, SaidItems, SaidFields;
    if !Hidden(value, c) && !TooDeep(c) {
      match value {
        case Arr(items) =>
          var count := SampleCount(|items|, c.limits);
          ItemsAccounted(items, count, c, count < |items|);
        case Obj(members) => MembersAccounted(members, |members|, c);
        case Str(text) => TextAccounted(text, c);
        case _ =>
      }
    } else if value.Str? && !Hidden(value, c) {
      TextAccounted(value.text, c);
    }
  }

  lemma ChildKeeps(c: Context, sampled: bool, key: Option<string>)
    ensures var d := ChildOf(c, sampled, key);
      && d.secrets == c.secrets && d.limits == c.limits && d.config == c.config
      && d.path == if key.Some? then c.path + [key.value] else c.path
  {}

  lemma {:induction false} ItemsAccounted(items: seq<Json>, n: nat, c: Context, sampled: bool)
    requires n <= |items| && ExceptedByPath(c)
    ensures AllAccounted(c, ItemTexts(items, c.path), SaidItems(ViewItems(items, n, ChildOf(c, sampled, None))))
    decreases items, n
  {
    hide Accounted, AllAccounted, ExceptedByPath, View, Said, TextsIn, ItemTexts, ChildOf;
    var d := ChildOf(c, sampled, None);
    if n == 0 {
      assert AllAccounted(c, ItemTexts(items, c.path), []) by { NothingAccounted(c, ItemTexts(items, c.path)); }
    } else {
      var rest, last := ViewItems(items, n - 1, d), View(items[n - 1], d);
      ItemsAccounted(items, n - 1, c, sampled);
      ExceptionsFollowPaths(c, sampled, None);
      ChildKeeps(c, sampled, None);
      ViewAccounted(items[n - 1], d);
      forall s | s in TextsIn(items[n - 1], c.path) ensures s in ItemTexts(items, c.path) {
        ItemTextsHold(items, c.path, n - 1, s);
      }
      AccountedAmongMore(c, d, TextsIn(items[n - 1], c.path), ItemTexts(items, c.path), Said(last));
      AppendSaidItem(rest, last);
      AccountedTogether(c, ItemTexts(items, c.path), SaidItems(rest), Said(last));
    }
  }

  lemma NothingAccounted(c: Context, texts: seq<Spoken>)
    ensures AllAccounted(c, texts, [])
  {}

  lemma MemberWithin(members: seq<Member>, i: nat, c: Context, d: Context, said: seq<Spoken>)
    requires i < |members| && !PrivateKey(members[i].key) && d == ChildOf(c, false, Some(members[i].key))
    requires AllAccounted(d, TextsIn(members[i].value, d.path), said)
    ensures AllAccounted(c, MemberTexts(members, c.path), said)
  {
    hide Accounted, AllAccounted, ExceptedByPath, View, Said, TextsIn, MemberTexts, ChildOf;
    var member, texts := members[i], MemberTexts(members, c.path);
    ChildKeeps(c, false, Some(member.key));
    forall s | s in TextsIn(member.value, d.path) ensures s in texts {
      MemberTextsHold(members, c.path, i, s);
    }
    AccountedAmongMore(c, d, TextsIn(member.value, d.path), texts, said);
  }

  lemma {:induction false} MembersAccounted(members: seq<Member>, n: nat, c: Context)
    requires n <= |members| && ExceptedByPath(c)
    ensures AllAccounted(c, MemberTexts(members, c.path), SaidFields(ViewMembers(members, n, c)))
    decreases members, n
  {
    hide Accounted, AllAccounted, ExceptedByPath, View, ViewMembers, Said, TextsIn, MemberTexts, ChildOf, PrivateKey;
    var texts := MemberTexts(members, c.path);
    if n == 0 {
      NoMemberView(members, c);
      NothingAccounted(c, texts);
    } else {
      MembersAccounted(members, n - 1, c);
      var rest, member := ViewMembers(members, n - 1, c), members[n - 1];
      MemberView(members, n, c);
      if !Skipped(member.key, c) {
        var d := ChildOf(c, false, Some(member.key));
        var field := Field(member.key, View(member.value, d));
        ExceptionsFollowPaths(c, false, Some(member.key));
        ViewAccounted(member.value, d);
        MemberWithin(members, n - 1, c, d, Said(field.value));
        AppendSaidField(rest, field);
        AccountedTogether(c, texts, SaidFields(rest), Said(field.value));
      }
    }
  }

  /** The context a whole payload is captured in. */
  function Root(value: Json, limits: Limits, confidential: seq<string>, config: bool): Context {
    Context(Secrets(Collect([], AllTokens(value)) + confidential, Exceptions(value)), limits, 0, 0, [],
      false, false, config)
  }

  ghost function Captured(value: Json, limits: Limits, confidential: seq<string>, config: bool): Out {
    View(value, Root(value, limits, confidential, config))
  }

  lemma RootExceptsNothing(value: Json, limits: Limits, confidential: seq<string>, config: bool)
    ensures ExceptedByPath(Root(value, limits, confidential, config))
  {
    var path: seq<string> := [];
    assert path[..0] == path && path !in Exceptions(value);
  }

  /**
   Every captured text stands in the payload at its path. Where a declared exception is a prefix
   of the path it reads as itself, everywhere else with all the secrets struck out; in both cases
   as far as the limit goes.
   */
  lemma CapturedTexts(value: Json, limits: Limits, confidential: seq<string>, config: bool, s: Spoken)
    requires s in Said(Captured(value, limits, confidential, config))
    ensures exists original ::
      && Spoken(s.path, original) in TextsIn(value, [])
      && s.text == Take(
                     if Readable(s.path, Exceptions(value), config) then original
                     else Redacted(original, Collect([], AllTokens(value)) + confidential),
                     limits.maxStringChars)
  {
    hide Readable, Exceptions, Captured;
    var c := Root(value, limits, confidential, config);
    RootExceptsNothing(value, limits, confidential, config);
    CapturedIsView(value, limits, confidential, config);
    ViewAccounted(value, c);
    assert Accounted(c, TextsIn(value, []), s);
    var original :| Spoken(s.path, original) in TextsIn(value, []) && s.text == Reading(c, s.path, original);
    NothingToRedact(original, []);
  }

  lemma CapturedIsView(value: Json, limits: Limits, confidential: seq<string>, config: bool)
    ensures Captured(value, limits, confidential, config) == View(value, Root(value, limits, confidential, config))
  {}

  ghost predicate Holds(text: string, token: string) {
    exists k: nat :: OccursAt(text, k, token)
  }

  /** The token is a confidential value of the project or declared by some object of the payload. */
  ghost predicate IsSecret(value: Json, confidential: seq<string>, token: string) {
    token in confidential || exists node :: node in Nodes(value) && node.Obj? && token in Declared(node.members)
  }

  /**
   No captured text shows a secret declared by any object of the payload, sampled away or not, or
   a confidential value of the project, unless it stands at or below a declared exception of a
   payload that is not a configuration.
   */
  lemma CaptureHidesSecrets(value: Json, limits: Limits, confidential: seq<string>, config: bool, token: string,
      s: Spoken)
    requires token != "" && !MaskLike(token)
    requires IsSecret(value, confidential, token)
    requires s in Said(Captured(value, limits, confidential, config)) && Holds(s.text, token)
    ensures Readable(s.path, Exceptions(value), config)
  {
    hide Readable, Exceptions, Captured, MaskLike;
    DiscoveredTokens(value, token);
    CapturedTexts(value, limits, confidential, config, s);
    var tokens := Collect([], AllTokens(value)) + confidential;
    assert token in tokens;
    forall original, k: nat ensures !OccursAt(Take(Redacted(original, tokens), limits.maxStringChars), k, token) {
      NoTokenSurvives(original, tokens, limits.maxStringChars, token, k);
    }
  }

  /** A payload that declares no exception, and every configuration, shows no secret at all. */
  lemma NothingExcepted(value: Json, limits: Limits, confidential: seq<string>, config: bool, token: string, s: Spoken)
    requires config || Exceptions(value) == []
    requires token != "" && !MaskLike(token)
    requires IsSecret(value, confidential, token)
    requires s in Said(Captured(value, limits, confidential, config))
    ensures !Holds(s.text, token)
  {
    hide Captured, MaskLike, Holds;
    if Holds(s.text, token) {
      CaptureHidesSecrets(value, limits, confidential, config, token, s);
    }
  }

  /** So of the texts that are written, only the view's own words can hold such a secret. */
  lemma WrittenHidesSecrets(value: Json, limits: Limits, confidential: seq<string>, config: bool, token: string,
      text: string)
    requires config || Exceptions(value) == []
    requires token != "" && !MaskLike(token)
    requires IsSecret(value, confidential, token)
    requires text in Strings(Erase(Captured(value, limits, confidential, config))) && text !in OWN_WORDS
    ensures !Holds(text, token)
  {
    hide Captured, MaskLike, Erase, Strings, Said;
    WrittenTexts(Captured(value, limits, confidential, config), text);
    var s :| s in Said(Captured(value, limits, confidential, config)) && s.text == text;
    NothingExcepted(value, limits, confidential, config, token, s);
  }

  /** Some text or key that is written, other than the view's own, holds the token. */
  ghost predicate ShownAnywhere(written: Json, token: string) {
    exists text :: (text in Strings(written) || text in Keys(written))
                   && text !in OWN_WORDS + OWN_KEYS && Holds(text, token)
  }

  ghost predicate ShownInKey(out: Out, token: string) {
    exists key :: key in FieldKeys(out) && key !in OWN_WORDS + OWN_KEYS && Holds(key, token)
  }

  /**
   Of such a capture, what is written shows the secret, the view's own words and keys aside,
   exactly when the key of a member that is written holds it.
   */
  lemma ShownExactlyInKeys(value: Json, limits: Limits, confidential: seq<string>, config: bool, token: string)
    requires config || Exceptions(value) == []
    requires token != "" && !MaskLike(token)
    requires IsSecret(value, confidential, token)
    ensures var out := Captured(value, limits, confidential, config);
      ShownAnywhere(Erase(out), token) <==> ShownInKey(out, token)
  {
    hide Captured, MaskLike, Erase, Strings, Keys, FieldKeys, Said, OWN_WORDS, OWN_KEYS;
    var out := Captured(value, limits, confidential, config);
    if ShownAnywhere(Erase(out), token) {
      var text :| (text in Strings(Erase(out)) || text in Keys(Erase(out)))
        && text !in OWN_WORDS + OWN_KEYS && Holds(text, token);
      if text in Strings(Erase(out)) {
        WrittenHidesSecrets(value, limits, confidential, config, token, text);
      }
      KeysWritten(out, text);
    }
    if ShownInKey(out, token) {
      var key :| key in FieldKeys(out) && key !in OWN_WORDS + OWN_KEYS && Holds(key, token);
      KeysWritten(out, key);
    }
  }

  // ---- token order --------------------------------------------------------

  function WithTokens(c: Context, tokens: seq<string>): Context {
    c.(secrets := Secrets(tokens, c.secrets.exceptions))
  }

  /** The order in which secrets are listed, longest first or not, never shows. */
  lemma {:induction false} TokenOrderIrrelevant(value: Json, c: Context, tokens: seq<string>)
    requires SameTokens(c.secrets.tokens, tokens)
    ensures View(value, c) == View(value, WithTokens(c, tokens))
    decreases value, 1
  {
    if !Hidden(value, c) && !TooDeep(c) {
      match value {
        case Arr(items) =>
          var count := SampleCount(|items|, c.limits);
          ItemOrderIrrelevant(items, count, ChildOf(c, count < |items|, None), tokens);
        case Obj(members) => MemberOrderIrrelevant(members, |members|, c, tokens);
        case Str(text) => OrderIrrelevant(text, TokensFor(c), TokensFor(WithTokens(c, tokens)));
        case _ =>
      }
    } else if value.Str? {
      OrderIrrelevant(value.text, TokensFor(c), TokensFor(WithTokens(c, tokens)));
    }
  }

  lemma {:induction false} ItemOrderIrrelevant(items: seq<Json>, n: nat, c: Context, tokens: seq<string>)
    requires n <= |items| && SameTokens(c.secrets.tokens, tokens)
    ensures ViewItems(items, n, c) == ViewItems(items, n, WithTokens(c, tokens))
    decreases items, n
  {
    if n > 0 {
      ItemOrderIrrelevant(items, n - 1, c, tokens);
      TokenOrderIrrelevant(items[n - 1], c, tokens);
    }
  }

  lemma ChildWithTokens(c: Context, key: string, tokens: seq<string>)
    ensures ChildOf(WithTokens(c, tokens), false, Some(key)) == WithTokens(ChildOf(c, false, Some(key)), tokens)
    ensures ChildOf(c, false, Some(key)).secrets == c.secrets
    ensures Skipped(key, WithTokens(c, tokens)) <==> Skipped(key, c)
  {}

  lemma {:induction false} MemberOrderIrrelevant(members: seq<Member>, n: nat, c: Context, tokens: seq<string>)
    requires n <= |members| && SameTokens(c.secrets.tokens, tokens)
    ensures ViewMembers(members, n, c) == ViewMembers(members, n, WithTokens(c, tokens))
    decreases members, n
  {
    hide View, ViewMembers, SameTokens, ChildOf, Skipped, WithTokens;
    if n == 0 {
      NoMemberView(members, c);
      NoMemberView(members, WithTokens(c, tokens));
    } else {
      var member := members[n - 1];
      MemberOrderIrrelevant(members, n - 1, c, tokens);
      MemberView(members, n, c);
      MemberView(members, n, WithTokens(c, tokens));
      ChildWithTokens(c, member.key, tokens);
      TokenOrderIrrelevant(member.value, ChildOf(c, false, Some(member.key)), tokens);
    }
  }

  // ---- nothing under a sensitive key --------------------------------------

  /** The numbers anywhere in a view. */
  function Numbers(out: Out): seq<Json>
    decreases out
  {
    match out
    case Plain(value) => if value.Int? || value.Float? then [value] else []
    case Listed(items) => ItemNumbers(items)
    case Sampled(_, _, preview) => ItemNumbers(preview)
    case Record(fields) => FieldNumbers(fields)
    case _ => []
  }

  function ItemNumbers(items: seq<Out>): seq<Json>
    decreases items
  {
    if items == [] then [] else ItemNumbers(items[..|items| - 1]) + Numbers(items[|items| - 1])
  }

  function FieldNumbers(fields: seq<Field>): seq<Json>
    decreases fields
  {
    if fields == [] then [] else FieldNumbers(fields[..|fields| - 1]) + Numbers(fields[|fields| - 1].value)
  }

  ghost predicate Blank(out: Out) {
    Said(out) == [] && Numbers(out) == []
  }

  /** Below a masked value no text and no number of the payload is left, exceptions notwithstanding. */
  lemma {:induction false} MaskedIsBlank(value: Json, c: Context)
    requires c.masked
    ensures Blank(View(value, c))
    decreases value, 1
  {
    if !Hidden(value, c) && !TooDeep(c) {
      match value {
        case Arr(items) =>
          var count := SampleCount(|items|, c.limits);
          MaskedItemsBlank(items, count, ChildOf(c, count < |items|, None));
        case Obj(members) => MaskedMembersBlank(members, |members|, c);
        case _ =>
      }
    }
  }

  lemma {:induction false} MaskedItemsBlank(items: seq<Json>, n: nat, c: Context)
    requires n <= |items| && c.masked
    ensures Blank(Listed(ViewItems(items, n, c)))
    decreases items, n
  {
    if n > 0 {
      var rest, last := ViewItems(items, n - 1, c), View(items[n - 1], c);
      MaskedItemsBlank(items, n - 1, c);
      MaskedIsBlank(items[n - 1], c);
      assert (rest + [last])[..|rest|] == rest;
    }
  }

  lemma BlankField(rest: seq<Field>, f: Field)
    requires Blank(Record(rest)) && Blank(f.value)
    ensures Blank(Record(rest + [f]))
  {
    assert (rest + [f])[..|rest|] == rest;
  }

  lemma {:induction false} MaskedMembersBlank(members: seq<Member>, n: nat, c: Context)
    requires n <= |members| && c.masked
    ensures Blank(Record(ViewMembers(members, n, c)))
    decreases members, n
  {
    hide View, ViewMembers, Blank, Skipped, ChildOf;
    if n == 0 {
      NoMemberView(members, c);
      NothingIsBlank();
    } else {
      var member := members[n - 1];
      var child := ChildOf(c, false, Some(member.key));
      MaskedMembersBlank(members, n - 1, c);
      MemberView(members, n, c);
      if !Skipped(member.key, c) {
        MaskedStays(c, member.key);
        MaskedIsBlank(member.value, child);
        BlankField(ViewMembers(members, n - 1, c), Field(member.key, View(member.value, child)));
      }
    }
  }

  lemma MaskedStays(c: Context, key: string)
    requires c.masked
    ensures ChildOf(c, false, Some(key)).masked
  {}

  lemma NothingIsBlank()
    ensures Blank(Record([]))
  {}

  /** What a sensitive key holds is blank, unless its own path is excepted. */
  lemma SensitiveMemberIsBlank(value: Json, key: string, c: Context)
    requires if c.config then SensitiveConfigKey(key) else SensitivePayloadKey(key)
    requires !ChildOf(c, false, Some(key)).excepted
    ensures Blank(View(value, ChildOf(c, false, Some(key))))
  {
    MaskedIsBlank(value, ChildOf(c, false, Some(key)));
  }

  // ---- sampling -----------------------------------------------------------

  /** In every sampled array what is shown and what is omitted add up. */
  ghost predicate Honest(out: Out)
    decreases out
  {
    match out
    case Listed(items) => forall i :: 0 <= i < |items| ==> Honest(items[i])
    case Sampled(len, omitted, preview) =>
      |preview| + omitted == len && 0 < omitted && forall i :: 0 <= i < |preview| ==> Honest(preview[i])
    case Record(fields) => forall i :: 0 <= i < |fields| ==> Honest(fields[i].value)
    case _ => true
  }

  lemma {:induction false} ViewIsHonest(value: Json, c: Context)
    ensures Honest(View(value, c))
    decreases value, 1
  {
    if !Hidden(value, c) && !TooDeep(c) {
      match value {
        case Arr(items) =>
          var count := SampleCount(|items|, c.limits);
          ItemsAreHonest(items, count, ChildOf(c, count < |items|, None));
        case Obj(members) => MembersAreHonest(members, |members|, c);
        case _ =>
      }
    }
  }

  lemma {:induction false} ItemsAreHonest(items: seq<Json>, n: nat, c: Context)
    requires n <= |items|
    ensures forall i :: 0 <= i < n ==> Honest(ViewItems(items, n, c)[i])
    decreases items, n
  {
    if n > 0 {
      ItemsAreHonest(items, n - 1, c);
      ViewIsHonest(items[n - 1], c);
    }
  }

  lemma {:induction false} MembersAreHonest(members: seq<Member>, n: nat, c: Context)
    requires n <= |members|
    ensures forall i :: 0 <= i < |ViewMembers(members, n, c)| ==> Honest(ViewMembers(members, n, c)[i].value)
    decreases members, n
  {
    hide View, Honest, Skipped;
    if n > 0 {
      MembersAreHonest(members, n - 1, c);
      if !Skipped(members[n - 1].key, c) {
        ViewIsHonest(members[n - 1].value, ChildOf(c, false, Some(members[n - 1].key)));
      }
    }
  }

  // ---- several emissions --------------------------------------------------

  lemma NoItems()
    ensures ItemNesting(EraseItems([])) == 0
  {}

  /** Each emission is captured with the secrets it declares itself, and no others. */
  ghost function EmissionItems(outputs: seq<Json>, n: nat, limits: Limits): seq<Out>
    requires n <= |outputs|
  {
    if n == 0 then [] else EmissionItems(outputs, n - 1, limits) + [Captured(outputs[n - 1], limits, [], false)]
  }

  ghost function EmissionsView(outputs: seq<Json>, limits: Limits): Out {
    var count := SampleCount(|outputs|, limits);
    var items := EmissionItems(outputs, count, limits);
    Record([
      Field("count", Plain(Int(|outputs|))),
      Field("emissions", if count == |outputs| then Listed(items) else Sampled(|outputs|, |outputs| - count, items))])
  }

  /** What `outputs` records: one emission as itself, any other number as a list. */
  ghost function OutputsView(outputs: seq<Json>, limits: Limits, confidential: seq<string>): Out {
    if |outputs| == 1 then Captured(outputs[0], limits, confidential, false) else EmissionsView(outputs, limits)
  }

  method RenderEmissions(outputs: seq<Json>, limits: Limits) returns (out: Out)
    ensures out == EmissionsView(outputs, limits)
  {
    var count := SampleCount(|outputs|, limits);
    var items := [];
    for i := 0 to count
      invariant items == EmissionItems(outputs, i, limits)
    {
      ghost var visited;
      var tokens;
      tokens, visited := Discover(outputs[i]);
      DiscoveredTokens(outputs[i], "");
      assert tokens + [] == tokens;
      var item := Render(outputs[i],
        Context(Secrets(tokens, Exceptions(outputs[i])), limits, 0, 0, [], false, false, false));
      items := items + [item];
    }
    out := Record([
      Field("count", Plain(Int(|outputs|))),
      Field("emissions", if count == |outputs| then Listed(items) else Sampled(|outputs|, |outputs| - count, items))]);
  }

  /** Whatever the payload and the configured depth, a captured payload nests at most 114 containers. */
  lemma CapturedNesting(value: Json, limits: Limits, confidential: seq<string>, config: bool)
    ensures Nesting(Erase(Captured(value, limits, confidential, config))) <= WIRE_CEILING + 2
  {
    ViewNesting(value, Root(value, limits, confidential, config));
  }

  lemma {:induction false} EmissionItemsNesting(outputs: seq<Json>, n: nat, limits: Limits)
    requires n <= |outputs|
    ensures ItemNesting(EraseItems(EmissionItems(outputs, n, limits))) <= WIRE_CEILING + 2
  {
    hide Erase, EraseItems, ItemNesting, Nesting, Captured;
    if n == 0 {
      NoItems();
    } else {
      var rest := EmissionItems(outputs, n - 1, limits);
      var last := Captured(outputs[n - 1], limits, [], false);
      EmissionItemsNesting(outputs, n - 1, limits);
      CapturedNesting(outputs[n - 1], limits, [], false);
      AppendItem(rest, last);
    }
  }

  lemma TwoFieldsNesting(first: Field, second: Field)
    ensures Nesting(Erase(Record([first, second])))
         == 1 + Max(Nesting(Erase(first.value)), Nesting(Erase(second.value)))
  {
    hide Nesting;
    assert Nesting(Erase(Record([first, second]))) == 1 + MemberNesting(EraseFields([first, second])) by {
      RecordNesting([first, second]);
    }
    assert [] + [first] == [first] && [first] + [second] == [first, second];
    AppendField([], first);
    AppendField([first], second);
  }

  lemma RecordNesting(fields: seq<Field>)
    ensures Nesting(Erase(Record(fields))) == 1 + MemberNesting(EraseFields(fields))
  {}

  lemma EmissionsNesting(outputs: seq<Json>, limits: Limits)
    ensures Nesting(Erase(EmissionsView(outputs, limits))) <= WIRE_CEILING + 5
  {
    hide MemberNesting, ItemNesting, EmissionItems;
    var count := SampleCount(|outputs|, limits);
    var items := EmissionItems(outputs, count, limits);
    var fields := EmissionsView(outputs, limits).fields;
    EmissionItemsNesting(outputs, count, limits);
    SampledNesting(|outputs|, |outputs| - count, items);
    TwoFieldsNesting(fields[0], fields[1]);
  }

  /** At most 114 levels for one payload, 117 for a list of emissions. */
  lemma OutputsNesting(outputs: seq<Json>, limits: Limits, confidential: seq<string>)
    ensures Nesting(Erase(OutputsView(outputs, limits, confidential))) <= if |outputs| == 1 then 114 else 117
  {
    if |outputs| == 1 {
      CapturedNesting(outputs[0], limits, confidential, false);
    } else {
      EmissionsNesting(outputs, limits);
    }
  }

  /** A lone confidential text followed by anything else. */
  function Pair(token: string, n: nat): (r: seq<Json>)
    requires n >= 2
    ensures |r| == n && r[0] == Str(token)
  {
    [Str(token)] + seq(n - 1, i => Null)
  }

  lemma {:induction false} FirstEmissionSaid(outputs: seq<Json>, n: nat, limits: Limits, s: Spoken)
    requires 0 < n <= |outputs| && s in Said(Captured(outputs[0], limits, [], false))
    ensures s in SaidItems(EmissionItems(outputs, n, limits))
  {
    hide Captured, Said;
    var rest := EmissionItems(outputs, n - 1, limits);
    AppendSaidItem(rest, Captured(outputs[n - 1], limits, [], false));
    if n > 1 {
      FirstEmissionSaid(outputs, n - 1, limits, s);
    }
  }

  lemma LoneTextSaid(token: string, limits: Limits)
    requires token != "" && |token| <= limits.maxStringChars
    ensures Said(Captured(Str(token), limits, [], false)) == [Spoken([], token)]
  {
    var c := Root(Str(token), limits, [], false);
    assert c.secrets.tokens == [];
    NothingToRedact(token, []);
    PlainLeftOver(token, [], limits.maxStringChars);
    assert View(Str(token), c) == Word(token, []);
  }

  lemma EmissionsShowConfidential(token: string, n: nat, limits: Limits)
    requires n >= 2 && token != "" && |token| <= limits.maxStringChars
    ensures Spoken([], token) in Said(EmissionsView(Pair(token, n), limits))
  {
    hide Captured;
    var outputs := Pair(token, n);
    LoneTextSaid(token, limits);
    FirstEmissionSaid(outputs, SampleCount(n, limits), limits, Spoken([], token));
    EmissionsSay(outputs, limits);
  }

  lemma EmissionsSay(outputs: seq<Json>, limits: Limits)
    ensures Said(EmissionsView(outputs, limits))
         == SaidItems(EmissionItems(outputs, SampleCount(|outputs|, limits), limits))
  {
    hide EmissionItems, SaidItems;
    var fields := EmissionsView(outputs, limits).fields;
    AppendSaidField([fields[0]], fields[1]);
    AppendSaidField([], fields[0]);
    assert [] + [fields[0]] == [fields[0]] && fields == [fields[0]] + [fields[1]];
  }

  ghost predicate AllShort(said: seq<Spoken>, n: nat) {
    forall s :: s in said ==> |s.text| <= n
  }

  lemma CapturedIsShort(value: Json, limits: Limits, confidential: seq<string>)
    ensures AllShort(Said(Captured(value, limits, confidential, false)), limits.maxStringChars)
  {
    hide Captured, Said, Readable, Exceptions;
    forall s | s in Said(Captured(value, limits, confidential, false)) ensures |s.text| <= limits.maxStringChars {
      CapturedTexts(value, limits, confidential, false, s);
    }
  }

  lemma {:induction false} EmissionItemsAreShort(outputs: seq<Json>, n: nat, limits: Limits)
    requires n <= |outputs|
    ensures AllShort(SaidItems(EmissionItems(outputs, n, limits)), limits.maxStringChars)
  {
    hide Captured, Said;
    if n > 0 {
      var rest := EmissionItems(outputs, n - 1, limits);
      EmissionItemsAreShort(outputs, n - 1, limits);
      CapturedIsShort(outputs[n - 1], limits, []);
      AppendSaidItem(rest, Captured(outputs[n - 1], limits, [], false));
    }
  }

  /** No text of recorded outputs is longer than the limit. */
  lemma OutputsAreShort(outputs: seq<Json>, limits: Limits, confidential: seq<string>)
    ensures AllShort(Said(OutputsView(outputs, limits, confidential)), limits.maxStringChars)
  {
    hide Captured, Said, EmissionsView;
    if |outputs| == 1 {
      CapturedIsShort(outputs[0], limits, confidential);
    } else {
      EmissionsSay(outputs, limits);
      EmissionItemsAreShort(outputs, SampleCount(|outputs|, limits), limits);
    }
  }

  /** No text of the outputs shows `token`, except where an emission declares an exception. */
  ghost predicate Hides(outputs: seq<Json>, said: seq<Spoken>, token: string) {
    forall s :: s in said && Holds(s.text, token) ==>
      exists i :: 0 <= i < |outputs| && Readable(s.path, Exceptions(outputs[i]), false)
  }

  ghost predicate AlwaysHidden(token: string, n: nat, limits: Limits) {
    forall outputs :: |outputs| == n ==> Hides(outputs, Said(OutputsView(outputs, limits, [token])), token)
  }

  /**
   The project's confidential values are struck out of a node's outputs, whatever those are,
   exactly when there is at most one emission or the value is too long to be recorded: a list of
   emissions is captured without them.
   */
  lemma OutputsHideConfidentialIff(token: string, n: nat, limits: Limits)
    requires token != "" && !MaskLike(token)
    ensures AlwaysHidden(token, n, limits) <==> n <= 1 || |token| > limits.maxStringChars
  {
    hide Captured, Said, MaskLike, EmissionsView, Hides;
    if n >= 2 && |token| <= limits.maxStringChars {
      PairShows(token, n, limits);
    } else {
      forall outputs | |outputs| == n ensures Hides(outputs, Said(OutputsView(outputs, limits, [token])), token) {
        OutputsHide(outputs, limits, token);
      }
    }
  }

  lemma PairShows(token: string, n: nat, limits: Limits)
    requires n >= 2 && token != "" && |token| <= limits.maxStringChars
    ensures |Pair(token, n)| == n && !Hides(Pair(token, n), Said(OutputsView(Pair(token, n), limits, [token])), token)
  {
    hide Captured, Said, EmissionsView;
    var outputs := Pair(token, n);
    EmissionsShowConfidential(token, n, limits);
    assert OccursAt(Spoken([], token).text, 0, token);
    forall i | 0 <= i < |outputs| ensures Exceptions(outputs[i]) == [] {
      assert outputs[i] == Str(token) || outputs[i] == Null;
    }
  }

  lemma OutputsHide(outputs: seq<Json>, limits: Limits, token: string)
    requires token != "" && !MaskLike(token) && (|outputs| <= 1 || |token| > limits.maxStringChars)
    ensures Hides(outputs, Said(OutputsView(outputs, limits, [token])), token)
  {
    hide Captured, Said, MaskLike, EmissionsView, Exceptions, Readable;
    var said := Said(OutputsView(outputs, limits, [token]));
    OutputsAreShort(outputs, limits, [token]);
    forall s | s in said && Holds(s.text, token)
      ensures exists i :: 0 <= i < |outputs| && Readable(s.path, Exceptions(outputs[i]), false)
    {
      if |outputs| == 1 {
        CaptureHidesSecrets(outputs[0], limits, [token], false, token, s);
      } else if outputs == [] {
        NoEmissionsSaid(outputs, limits);
      }
    }
  }

  lemma NoEmissionsSaid(outputs: seq<Json>, limits: Limits)
    requires outputs == []
    ensures Said(EmissionsView(outputs, limits)) == []
  {
    EmissionsSay(outputs, limits);
  }
}
