/**
 Finding the secrets a payload declares. The scan walks the whole tree with an
 explicit stack of borrowed positions; the definition it is proved against is
 the plain recursion.
 */
module SecretScan {
  import opened Basics
  import opened JsonValues
  import opened Text

  const TRACE_REDACT := "__zf_private_trace_redact"
  const REDACT := "__zf_private_redact"
  const EXCEPT_PATHS := "__zf_private_redact_except_paths"

  predicate PrivateKey(key: string) {
    key == REDACT || key == TRACE_REDACT || key == EXCEPT_PATHS
  }

  /** The trimmed non-empty strings of a list. */
  function Texts(items: seq<Json>): (r: seq<string>)
    ensures "" !in r
  {
    if items == [] then [] else
      (if items[0].Str? && Trim(items[0].text) != "" then [Trim(items[0].text)] else []) + Texts(items[1..])
  }

  function ListAt(members: seq<Member>, key: string): seq<Json> {
    var list := Find(members, key);
    if list.Some? && list.value.Arr? then list.value.items else []
  }

  /** The tokens one object declares. */
  function Declared(members: seq<Member>): (r: seq<string>)
    ensures "" !in r
  {
    Texts(ListAt(members, TRACE_REDACT)) + Texts(ListAt(members, REDACT))
  }

  /** Every declaration in the tree, outermost first, not looking inside private members. */
  function AllTokens(value: Json): (r: seq<string>)
    ensures "" !in r
    decreases value
  {
    match value
    case Obj(members) => Declared(members) + MemberTokens(members)
    case Arr(items) => ItemTokens(items)
    case _ => []
  }

  function MemberTokens(members: seq<Member>): (r: seq<string>)
    ensures "" !in r
    decreases members
  {
    if members == [] then [] else
      (if PrivateKey(members[0].key) then [] else AllTokens(members[0].value)) + MemberTokens(members[1..])
  }

  function ItemTokens(items: seq<Json>): (r: seq<string>)
    ensures "" !in r
    decreases items
  {
    if items == [] then [] else AllTokens(items[0]) + ItemTokens(items[1..])
  }

  /** Every non-private node of the tree, once, parents before children. */
  function Nodes(value: Json): seq<Json>
    decreases value
  {
    [value] + match value
              case Obj(members) => MemberNodes(members)
              case Arr(items) => ItemNodes(items)
              case _ => []
  }

  function MemberNodes(members: seq<Member>): seq<Json>
    decreases members
  {
    if members == [] then [] else
      (if PrivateKey(members[0].key) then [] else Nodes(members[0].value)) + MemberNodes(members[1..])
  }

  function ItemNodes(items: seq<Json>): seq<Json>
    decreases items
  {
    if items == [] then [] else Nodes(items[0]) + ItemNodes(items[1..])
  }

  /** The scan sees exactly what the objects among the visited nodes declare. */
  lemma {:induction false} TokensAreDeclared(value: Json, token: string)
    ensures token in AllTokens(value) <==>
      exists node :: node in Nodes(value) && node.Obj? && token in Declared(node.members)
    decreases value
  {
    match value {
      case Obj(members) => MemberTokensAreDeclared(members, token);
      case Arr(items) => ItemTokensAreDeclared(items, token);
      case _ =>
    }
  }

  lemma {:induction false} MemberTokensAreDeclared(members: seq<Member>, token: string)
    ensures token in MemberTokens(members) <==>
      exists node :: node in MemberNodes(members) && node.Obj? && token in Declared(node.members)
    decreases members
  {
    if members != [] {
      TokensAreDeclared(members[0].value, token);
      MemberTokensAreDeclared(members[1..], token);
    }
  }

  lemma {:induction false} ItemTokensAreDeclared(items: seq<Json>, token: string)
    ensures token in ItemTokens(items) <==>
      exists node :: node in ItemNodes(items) && node.Obj? && token in Declared(node.members)
    decreases items
  {
    if items != [] {
      TokensAreDeclared(items[0], token);
      ItemTokensAreDeclared(items[1..], token);
    }
  }

  /** Appends what is not there yet. */
  function Collect(seen: seq<string>, tokens: seq<string>): seq<string>
    decreases |tokens|
  {
    if tokens == [] then seen else
      Collect(if tokens[0] in seen then seen else seen + [tokens[0]], tokens[1..])
  }

  lemma {:induction false} CollectAll(seen: seq<string>, tokens: seq<string>)
    ensures forall t :: t in Collect(seen, tokens) <==> t in seen || t in tokens
    decreases |tokens|
  {
    if tokens != [] {
      CollectAll(if tokens[0] in seen then seen else seen + [tokens[0]], tokens[1..]);
    }
  }

  lemma {:induction false} CollectInTwo(seen: seq<string>, a: seq<string>, b: seq<string>)
    ensures Collect(seen, a + b) == Collect(Collect(seen, a), b)
    decreases |a|
  {
    if a == [] {
      assert a + b == b;
    } else {
      assert (a + b)[1..] == a[1..] + b;
      CollectInTwo(if a[0] in seen then seen else seen + [a[0]], a[1..], b);
    }
  }

  // ---- the explicit stack -------------------------------------------------

  datatype ScanFrame = One(item: Option<Json>) | Array(items: seq<Json>) | Object(members: seq<Member>)

  /** The next item of a frame and what is left of it. */
  function Next(frame: ScanFrame): (Option<Json>, ScanFrame)
    decreases if frame.Object? then |frame.members| else 0
  {
    match frame
    case One(item) => (item, One(None))
    case Array(items) => if items == [] then (None, frame) else (Some(items[0]), Array(items[1..]))
    case Object(members) =>
      if members == [] then (None, frame)
      else if PrivateKey(members[0].key) then Next(Object(members[1..]))
      else (Some(members[0].value), Object(members[1..]))
  }

  function FrameTokens(frame: ScanFrame): seq<string> {
    match frame
    case One(item) => if item.Some? then AllTokens(item.value) else []
    case Array(items) => ItemTokens(items)
    case Object(members) => MemberTokens(members)
  }

  function FrameNodes(frame: ScanFrame): seq<Json> {
    match frame
    case One(item) => if item.Some? then Nodes(item.value) else []
    case Array(items) => ItemNodes(items)
    case Object(members) => MemberNodes(members)
  }

  /** What the stack still has to deliver, top frame first. */
  function StackTokens(stack: seq<ScanFrame>): seq<string> {
    if stack == [] then [] else FrameTokens(stack[|stack| - 1]) + StackTokens(stack[..|stack| - 1])
  }

  function StackNodes(stack: seq<ScanFrame>): seq<Json> {
    if stack == [] then [] else FrameNodes(stack[|stack| - 1]) + StackNodes(stack[..|stack| - 1])
  }

  function StackWork(stack: seq<ScanFrame>): nat {
    if stack == [] then 0 else 1 + 2 * |FrameNodes(stack[|stack| - 1])| + StackWork(stack[..|stack| - 1])
  }

  lemma {:induction false} NextDelivers(frame: ScanFrame)
    ensures var (item, rest) := Next(frame);
      && FrameTokens(frame) == (if item.Some? then AllTokens(item.value) else []) + FrameTokens(rest)
      && FrameNodes(frame) == (if item.Some? then Nodes(item.value) else []) + FrameNodes(rest)
    decreases if frame.Object? then |frame.members| else 0
  {
    if frame.Object? && frame.members != [] && PrivateKey(frame.members[0].key) {
      NextDelivers(Object(frame.members[1..]));
    }
  }

  /** The frame that delivers the children of a node, if it has any. */
  function ChildFrames(item: Json): seq<ScanFrame> {
    match item
    case Obj(members) => [Object(members)]
    case Arr(items) => [Array(items)]
    case _ => []
  }

  lemma OnTop(stack: seq<ScanFrame>, frame: ScanFrame)
    ensures StackTokens(stack + [frame]) == FrameTokens(frame) + StackTokens(stack)
    ensures StackNodes(stack + [frame]) == FrameNodes(frame) + StackNodes(stack)
    ensures StackWork(stack + [frame]) == 1 + 2 * |FrameNodes(frame)| + StackWork(stack)
  {
    assert (stack + [frame])[..|stack|] == stack;
  }

  function DeclaredBy(item: Json): seq<string> {
    if item.Obj? then Declared(item.members) else []
  }

  lemma PushDelivers(stack: seq<ScanFrame>, item: Json)
    ensures AllTokens(item) + StackTokens(stack) == DeclaredBy(item) + StackTokens(stack + ChildFrames(item))
    ensures Nodes(item) + StackNodes(stack) == [item] + StackNodes(stack + ChildFrames(item))
    ensures StackWork(stack + ChildFrames(item)) < 2 * |Nodes(item)| + StackWork(stack)
  {
    hide StackTokens, StackNodes, StackWork;
    match item {
      case Obj(members) =>
        OnTop(stack, Object(members));
        Regroup(Declared(members), MemberTokens(members), StackTokens(stack));
        Regroup([item], MemberNodes(members), StackNodes(stack));
      case Arr(items) =>
        OnTop(stack, Array(items));
        Regroup([item], ItemNodes(items), StackNodes(stack));
        assert [] + (ItemTokens(items) + StackTokens(stack)) == ItemTokens(items) + StackTokens(stack);
      case _ =>
        assert stack + [] == stack;
    }
  }

  /** Taking one item off the stack and pushing its children delivers that item next. */
  lemma StepDelivers(stack: seq<ScanFrame>, below: seq<ScanFrame>, item: Json, rest: ScanFrame)
    requires stack != [] && below == stack[..|stack| - 1] && Next(stack[|stack| - 1]) == (Some(item), rest)
    ensures var pushed := below + [rest] + ChildFrames(item);
      && StackTokens(stack) == DeclaredBy(item) + StackTokens(pushed)
      && StackNodes(stack) == [item] + StackNodes(pushed)
      && StackWork(pushed) < StackWork(stack)
  {
    hide AllTokens, Nodes, FrameTokens, FrameNodes, StackTokens, StackNodes, StackWork, DeclaredBy, Next, ChildFrames;
    var top := stack[|stack| - 1];
    assert stack == below + [top];
    OnTop(below, top);
    OnTop(below, rest);
    NextDelivers(top);
    PushDelivers(below + [rest], item);
    Regroup(AllTokens(item), FrameTokens(rest), StackTokens(below));
    Regroup(Nodes(item), FrameNodes(rest), StackNodes(below));
  }

  method CollectTexts(seen: seq<string>, items: seq<Json>) returns (tokens: seq<string>)
    ensures tokens == Collect(seen, Texts(items))
  {
    tokens := seen;
    var rest := items;
    while rest != []
      invariant Collect(tokens, Texts(rest)) == Collect(seen, Texts(items))
      decreases |rest|
    {
      ghost var head := if rest[0].Str? && Trim(rest[0].text) != "" then [Trim(rest[0].text)] else [];
      CollectInTwo(tokens, head, Texts(rest[1..]));
      assert Collect(tokens, head) == if head == [] || head[0] in tokens then tokens else tokens + head;
      if rest[0].Str? {
        var token := Trim(rest[0].text);
        if token != "" && token !in tokens {
          tokens := tokens + [token];
        }
      }
      rest := rest[1..];
    }
  }

  method CollectDeclared(seen: seq<string>, item: Json) returns (tokens: seq<string>)
    ensures tokens == Collect(seen, DeclaredBy(item))
  {
    tokens := seen;
    if item.Obj? {
      CollectInTwo(seen, Texts(ListAt(item.members, TRACE_REDACT)), Texts(ListAt(item.members, REDACT)));
      tokens := CollectTexts(tokens, ListAt(item.members, TRACE_REDACT));
      tokens := CollectTexts(tokens, ListAt(item.members, REDACT));
    }
  }

  /** Scans the tree; `visited` records the nodes in the order the stack delivers them. */
  method Discover(value: Json) returns (tokens: seq<string>, ghost visited: seq<Json>)
    ensures tokens == Collect([], AllTokens(value))
    ensures visited == Nodes(value)
  {
    hide AllTokens, Nodes, DeclaredBy, Collect, ChildFrames;
    tokens, visited := [], [];
    var stack := [One(Some(value))];
    assert stack == [] + stack;
    OnTop([], stack[0]);
    assert StackTokens(stack) == AllTokens(value) && StackNodes(stack) == Nodes(value);
    while stack != []
      invariant Collect(tokens, StackTokens(stack)) == Collect([], AllTokens(value))
      invariant visited + StackNodes(stack) == Nodes(value)
      decreases StackWork(stack)
    {
      var below := stack[..|stack| - 1];
      var (item, rest) := Next(stack[|stack| - 1]);
      if item.None? {
        EmptyFrame(stack);
        stack := below;
      } else {
        StepDelivers(stack, below, item.value, rest);
        CollectInTwo(tokens, DeclaredBy(item.value), StackTokens(below + [rest] + ChildFrames(item.value)));
        tokens := CollectDeclared(tokens, item.value);
        visited := visited + [item.value];
        stack := below + [rest] + ChildFrames(item.value);
      }
    }
    CollectNothing(tokens);
  }

  lemma CollectNothing(seen: seq<string>)
    ensures Collect(seen, []) == seen
  {}

  lemma EmptyFrame(stack: seq<ScanFrame>)
    requires stack != [] && Next(stack[|stack| - 1]).0.None?
    ensures StackTokens(stack) == StackTokens(stack[..|stack| - 1])
    ensures StackNodes(stack) == StackNodes(stack[..|stack| - 1])
    ensures StackWork(stack) > StackWork(stack[..|stack| - 1])
  {
    NothingLeft(stack[|stack| - 1]);
  }

  lemma {:induction false} NothingLeft(frame: ScanFrame)
    requires Next(frame).0.None?
    ensures FrameTokens(frame) == [] && FrameNodes(frame) == []
    decreases if frame.Object? then |frame.members| else 0
  {
    if frame.Object? && frame.members != [] {
      NothingLeft(Object(frame.members[1..]));
    }
  }

  /** The tokens found are those the visited objects declare, each once, none empty. */
  lemma DiscoveredTokens(value: Json, token: string)
    ensures token in Collect([], AllTokens(value)) <==>
      exists node :: node in Nodes(value) && node.Obj? && token in Declared(node.members)
    ensures "" !in Collect([], AllTokens(value))
  {
    CollectAll([], AllTokens(value));
    TokensAreDeclared(value, token);
  }

  // ---- exception paths ----------------------------------------------------

  function TrimmedParts(parts: seq<string>): seq<string> {
    if parts == [] then [] else
      (if Trim(parts[0]) != "" then [Trim(parts[0])] else []) + TrimmedParts(parts[1..])
  }

  function PathParts(path: Json): seq<string> {
    match path
    case Str(text) => TrimmedParts(Split(text, '.'))
    case Arr(items) => Texts(items)
    case _ => []
  }

  function Paths(items: seq<Json>): (r: seq<seq<string>>)
    ensures [] !in r
  {
    if items == [] then [] else
      (if PathParts(items[0]) != [] then [PathParts(items[0])] else []) + Paths(items[1..])
  }

  /** Only the root of a payload names paths that stay readable. */
  function Exceptions(value: Json): (r: seq<seq<string>>)
    ensures [] !in r
  {
    if value.Obj? then Paths(ListAt(value.members, EXCEPT_PATHS)) else []
  }
}
