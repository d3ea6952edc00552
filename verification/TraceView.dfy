/**
 The sampling, masking and depth-limiting view of a payload that a trace
 records. Text in the view remembers where it came from, so that what may leak
 can be stated; `Erase` gives the JSON that is written.
 */
module TraceView {
  import opened Basics
  import opened JsonValues
  import opened Text
  import opened Redactor
  import opened SecretScan

  /** An encoded-depth ceiling below the usual 128-level limit of JSON parsers. */
  const WIRE_CEILING := 112

  datatype Limits = Limits(arraySampleCount: nat, maxStringChars: nat, maxDepth: nat, maxNodeBytes: nat,
      maxRunBytes: nat)

  datatype Secrets = Secrets(tokens: seq<string>, exceptions: seq<seq<string>>)

  datatype Context = Context(
    secrets: Secrets, limits: Limits, depth: nat, wireDepth: nat, path: seq<string>,
    masked: bool, excepted: bool, config: bool)

  /** A value without a text in it. */
  type Scalar = value: Json | value.Null? || value.Bool? || value.Int? || value.Float? witness Null

  datatype Out =
    | Plain(value: Scalar)
    | Mask
    | Word(text: string, path: seq<string>)
    | Clipped(chars: nat, text: string, path: seq<string>)
    | Shape(isArray: bool, count: nat)
    | Listed(items: seq<Out>)
    | Sampled(len: nat, omitted: nat, preview: seq<Out>)
    | Record(fields: seq<Field>)

  datatype Field = Field(key: string, value: Out)

  // ---- names that are secret by themselves ---------------------------------

  function AlphanumericsOf(key: string): string {
    if key == "" then "" else
      (if IsAlphanumeric(key[0]) then [ToLower(key[0])] else "") + AlphanumericsOf(key[1..])
  }

  const CONFIG_KEYS := {
    "password", "passwd", "passphrase", "secret", "clientsecret", "accesstoken", "refreshtoken",
    "idtoken", "authorization", "apikey", "xapikey", "token", "apitoken", "authtoken", "sessiontoken",
    "bearertoken", "privatekey", "signingkey", "jwtsecret", "cookiesecret", "webhooksecret"
  }

  const PAYLOAD_KEYS := {
    "password", "passwd", "pwd", "passphrase", "secret", "clientsecret", "token", "accesstoken",
    "refreshtoken", "idtoken", "sessiontoken", "apikey", "privatekey", "authorization", "creditcard",
    "cardnumber", "cvv", "otp"
  }

  const KEY_ROOM := 32

  predicate SensitiveConfigKey(key: string) {
    AlphanumericsOf(key) in CONFIG_KEYS
  }

  predicate SensitivePayloadKey(key: string) {
    var name := AlphanumericsOf(key);
    |name| <= KEY_ROOM
    && (name in PAYLOAD_KEYS || (name != "" && name[|name| - 1] == 's' && name[..|name| - 1] in PAYLOAD_KEYS))
  }

  // ---- the view -----------------------------------------------------------

  function SampleCount(len: nat, limits: Limits): (n: nat)
    ensures n <= len
  {
    if limits.arraySampleCount == 0 || len <= limits.arraySampleCount then len else limits.arraySampleCount
  }

  /** The context of a child. Below a sampled array the encoding is two levels deeper, not one. */
  function ChildOf(c: Context, sampled: bool, key: Option<string>): Context {
    var path := if key.Some? then c.path + [key.value] else c.path;
    var excepted := c.excepted || (!c.config && path in c.secrets.exceptions);
    var sensitive := key.Some? && if c.config then SensitiveConfigKey(key.value) else SensitivePayloadKey(key.value);
    c.(depth := c.depth + 1, wireDepth := c.wireDepth + (if sampled then 2 else 1), path := path,
       masked := c.masked || (!excepted && sensitive), excepted := excepted)
  }

  predicate TooDeep(c: Context) {
    c.depth >= c.limits.maxDepth || c.wireDepth >= WIRE_CEILING
  }

  predicate Hidden(value: Json, c: Context) {
    c.masked && (c.config || !(value.Null? || value.Bool? || value.Arr? || value.Obj?))
  }

  predicate Skipped(key: string, c: Context) {
    PrivateKey(key) || (c.config && (key == "ui" || key == "preview"))
  }

  function TokensFor(c: Context): seq<string> {
    if c.excepted then [] else c.secrets.tokens
  }

  ghost function TextView(text: string, c: Context): Out {
    var preview := Take(Redacted(text, TokensFor(c)), c.limits.maxStringChars);
    if LeftOver(text, TokensFor(c), c.limits.maxStringChars) then Clipped(|text|, preview, c.path)
    else Word(preview, c.path)
  }

  ghost function View(value: Json, c: Context): Out
    decreases value, 1
  {
    if Hidden(value, c) then Mask else
      match value
      case Arr(items) =>
        var count := SampleCount(|items|, c.limits);
        if TooDeep(c) then Shape(true, |items|)
        else if count < |items| then Sampled(|items|, |items| - count, ViewItems(items, count, ChildOf(c, true, None)))
        else Listed(ViewItems(items, |items|, ChildOf(c, false, None)))
      case Obj(members) =>
        if TooDeep(c) then Shape(false, |members|) else Record(ViewMembers(members, |members|, c))
      case Str(text) => TextView(text, c)
      case _ => Plain(value)
  }

  /** The first `n` items, all seen in the context `c`. */
  ghost function ViewItems(items: seq<Json>, n: nat, c: Context): (r: seq<Out>)
    requires n <= |items|
    ensures |r| == n
    decreases items, n
  {
    if n == 0 then [] else ViewItems(items, n - 1, c) + [View(items[n - 1], c)]
  }

  /** The first `n` members of an object seen in the context `c`. */
  ghost function ViewMembers(members: seq<Member>, n: nat, c: Context): seq<Field>
    requires n <= |members|
    decreases members, n
  {
    if n == 0 then [] else
      ViewMembers(members, n - 1, c)
      + if Skipped(members[n - 1].key, c) then [] else
          [Field(members[n - 1].key, View(members[n - 1].value, ChildOf(c, false, Some(members[n - 1].key))))]
  }

  lemma NoMemberView(members: seq<Member>, c: Context)
    ensures ViewMembers(members, 0, c) == []
  {}

  lemma MemberView(members: seq<Member>, n: nat, c: Context)
    requires 0 < n <= |members|
    ensures var member, rest := members[n - 1], ViewMembers(members, n - 1, c);
      ViewMembers(members, n, c) ==
        if Skipped(member.key, c) then rest
        else rest + [Field(member.key, View(member.value, ChildOf(c, false, Some(member.key))))]
  {
    hide View, ChildOf, Skipped;
  }

  method RenderText(text: string, c: Context) returns (out: Out)
    requires "" !in c.secrets.tokens
    ensures out == TextView(text, c)
  {
    var preview, truncated := RedactedPreview(text, TokensFor(c), c.limits.maxStringChars);
    out := if truncated then Clipped(|text|, preview, c.path) else Word(preview, c.path);
  }

  /** Walks the payload once, never looking below the depth limits. */
  method Render(value: Json, c: Context) returns (out: Out)
    requires "" !in c.secrets.tokens
    ensures out == View(value, c)
    decreases value, 1
  {
    if Hidden(value, c) {
      return Mask;
    }
    match value {
      case Arr(items) =>
        var count := SampleCount(|items|, c.limits);
        if TooDeep(c) {
          out := Shape(true, |items|);
        } else if count < |items| {
          var preview := RenderItems(items, count, ChildOf(c, true, None));
          out := Sampled(|items|, |items| - count, preview);
        } else {
          var all := RenderItems(items, |items|, ChildOf(c, false, None));
          out := Listed(all);
        }
      case Obj(members) =>
        if TooDeep(c) {
          out := Shape(false, |members|);
        } else {
          var fields := RenderMembers(members, |members|, c);
          out := Record(fields);
        }
      case Str(text) => out := RenderText(text, c);
      case _ => out := Plain(value);
    }
  }

  method RenderItems(items: seq<Json>, count: nat, c: Context) returns (out: seq<Out>)
    requires count <= |items| && "" !in c.secrets.tokens
    ensures out == ViewItems(items, count, c)
    decreases items, 0
  {
    out := [];
    for i := 0 to count
      invariant out == ViewItems(items, i, c)
    {
      var item := Render(items[i], c);
      out := out + [item];
    }
  }

  method RenderMembers(members: seq<Member>, count: nat, c: Context) returns (fields: seq<Field>)
    requires count <= |members| && "" !in c.secrets.tokens
    ensures fields == ViewMembers(members, count, c)
    decreases members, 0
  {
    hide ViewMembers, View;
    NoMemberView(members, c);
    fields := [];
    for i := 0 to count
      invariant fields == ViewMembers(members, i, c)
    {
      MemberView(members, i + 1, c);
      if !Skipped(members[i].key, c) {
        var value := Render(members[i].value, ChildOf(c, false, Some(members[i].key)));
        fields := fields + [Field(members[i].key, value)];
      }
    }
  }

  // ---- what is written ----------------------------------------------------

  function Summary(kind: string): Member {
    Member("__zf_trace_summary", Str(kind))
  }

  function Erase(out: Out): Json
    decreases out
  {
    match out
    case Plain(value) => value
    case Mask => Str(REDACTED)
    case Word(text, _) => Str(text)
    case Clipped(chars, preview, _) => Obj([Summary("string"), Member("chars", Int(chars)),
        Member("preview", Str(preview))])
    case Shape(isArray, count) =>
      Obj([Summary(if isArray then "array" else "object"),
          Member(if isArray then "len" else "keys", Int(count)), Member("reason", Str("depth"))])
    case Listed(items) => Arr(EraseItems(items))
    case Sampled(len, omitted, preview) =>
      Obj([Summary("array"), Member("len", Int(len)), Member("omitted", Int(omitted)),
          Member("preview", Arr(EraseItems(preview)))])
    case Record(fields) => Obj(EraseFields(fields))
  }

  function EraseItems(items: seq<Out>): seq<Json>
    decreases items
  {
    if items == [] then [] else EraseItems(items[..|items| - 1]) + [Erase(items[|items| - 1])]
  }

  function EraseFields(fields: seq<Field>): seq<Member>
    decreases fields
  {
    if fields == [] then [] else
      var last := fields[|fields| - 1];
      EraseFields(fields[..|fields| - 1]) + [Member(last.key, Erase(last.value))]
  }

  lemma {:induction false} ErasedItems(items: seq<Out>)
    ensures |EraseItems(items)| == |items|
    ensures forall i :: 0 <= i < |items| ==> EraseItems(items)[i] == Erase(items[i])
  {
    hide Erase;
    if items != [] {
      ErasedItems(items[..|items| - 1]);
    }
  }

  lemma {:induction false} ErasedFields(fields: seq<Field>)
    ensures |EraseFields(fields)| == |fields|
    ensures forall i :: 0 <= i < |fields| ==> EraseFields(fields)[i] == Member(fields[i].key, Erase(fields[i].value))
  {
    hide Erase;
    if fields != [] {
      ErasedFields(fields[..|fields| - 1]);
    }
  }

  lemma ListedErased(items: seq<Out>)
    ensures Erase(Listed(items)) == Arr(EraseItems(items))
  {}

  // ---- depth --------------------------------------------------------------

  /** How many containers stand inside one another. */
  function Nesting(value: Json): nat
    decreases value
  {
    match value
    case Arr(items) => 1 + ItemNesting(items)
    case Obj(members) => 1 + MemberNesting(members)
    case _ => 0
  }

  function ItemNesting(items: seq<Json>): nat
    decreases items
  {
    if items == [] then 0 else Max(ItemNesting(items[..|items| - 1]), Nesting(items[|items| - 1]))
  }

  function MemberNesting(members: seq<Member>): nat
    decreases members
  {
    if members == [] then 0 else Max(MemberNesting(members[..|members| - 1]), Nesting(members[|members| - 1].value))
  }

  /** Nothing nests deeper than two levels past the ceiling, whatever the payload and the configured depth. */
  lemma {:induction false} ViewNesting(value: Json, c: Context)
    requires c.wireDepth <= WIRE_CEILING + 1
    ensures c.wireDepth + Nesting(Erase(View(value, c))) <= WIRE_CEILING + 2
    decreases value, 1
  {
    var out := View(value, c);
    if !Hidden(value, c) && !TooDeep(c) {
      match value {
        case Arr(items) =>
          var count := SampleCount(|items|, c.limits);
          ItemsNesting(items, count, ChildOf(c, count < |items|, None));
          if count < |items| { SampledNesting(out.len, out.omitted, out.preview); }
        case Obj(members) => MembersNesting(members, |members|, c);
        case Str(text) => ClippedNesting(out);
        case _ =>
      }
    } else {
      ClippedNesting(out);
    }
  }

  lemma ClippedNesting(out: Out)
    requires out.Mask? || out.Word? || out.Clipped? || out.Shape? || out.Plain?
    ensures Nesting(Erase(out)) <= 1
  {
    if out.Clipped? || out.Shape? {
      FlatNesting(Erase(out).members);
    }
  }

  lemma {:induction false} FlatNesting(members: seq<Member>)
    requires forall m :: m in members ==> !m.value.Arr? && !m.value.Obj?
    ensures MemberNesting(members) == 0
  {
    if members != [] { FlatNesting(members[..|members| - 1]); }
  }

  lemma AppendNesting(members: seq<Member>, m: Member)
    ensures MemberNesting(members + [m]) == Max(MemberNesting(members), Nesting(m.value))
  {
    assert (members + [m])[..|members|] == members;
  }

  lemma AppendField(fields: seq<Field>, f: Field)
    ensures MemberNesting(EraseFields(fields + [f])) == Max(MemberNesting(EraseFields(fields)), Nesting(Erase(f.value)))
  {
    assert (fields + [f])[..|fields|] == fields;
    AppendNesting(EraseFields(fields), Member(f.key, Erase(f.value)));
  }

  lemma AppendItem(items: seq<Out>, item: Out)
    ensures ItemNesting(EraseItems(items + [item])) == Max(ItemNesting(EraseItems(items)), Nesting(Erase(item)))
  {
    assert (items + [item])[..|items|] == items;
    assert EraseItems(items + [item])[..|EraseItems(items)|] == EraseItems(items);
  }

  lemma SampledNesting(len: nat, omitted: nat, preview: seq<Out>)
    ensures Nesting(Erase(Sampled(len, omitted, preview))) == 2 + ItemNesting(EraseItems(preview))
  {
    var flat := [Summary("array"), Member("len", Int(len)), Member("omitted", Int(omitted))];
    var last := Member("preview", Arr(EraseItems(preview)));
    FlatNesting(flat);
    AppendNesting(flat, last);
    assert Erase(Sampled(len, omitted, preview)) == Obj(flat + [last]);
  }

  lemma {:induction false} ItemsNesting(items: seq<Json>, n: nat, c: Context)
    requires n <= |items| && c.wireDepth <= WIRE_CEILING + 1
    ensures c.wireDepth + ItemNesting(EraseItems(ViewItems(items, n, c))) <= WIRE_CEILING + 2
    decreases items, n
  {
    hide View, Erase, Nesting;
    if n > 0 {
      ItemsNesting(items, n - 1, c);
      ViewNesting(items[n - 1], c);
      AppendItem(ViewItems(items, n - 1, c), View(items[n - 1], c));
    }
  }

  lemma ChildDepth(c: Context, sampled: bool, key: Option<string>)
    ensures ChildOf(c, sampled, key).wireDepth == c.wireDepth + if sampled then 2 else 1
  {}

  lemma {:induction false} MembersNesting(members: seq<Member>, n: nat, c: Context)
    requires n <= |members| && c.wireDepth < WIRE_CEILING
    ensures c.wireDepth + 1 + MemberNesting(EraseFields(ViewMembers(members, n, c))) <= WIRE_CEILING + 2
    decreases members, n
  {
    hide View, Erase, Nesting, Skipped, ChildOf, EraseFields, MemberNesting;
    if n == 0 {
      NoFields();
    } else {
      MembersNesting(members, n - 1, c);
      var rest, last := ViewMembers(members, n - 1, c), members[n - 1];
      if Skipped(last.key, c) {
        assert ViewMembers(members, n, c) == rest;
      } else {
        var child := ChildOf(c, false, Some(last.key));
        ChildDepth(c, false, Some(last.key));
        ViewNesting(last.value, child);
        AppendField(rest, Field(last.key, View(last.value, child)));
      }
    }
  }

  lemma NoFields()
    ensures MemberNesting(EraseFields([])) == 0
  {}
}
