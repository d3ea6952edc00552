/**
 The strict YAML gate: a check over the event stream of a document, then a
 conversion of the composed tree. Both have limits, in different units.
 */
module YamlGate {
  import opened Basics
  import opened JsonValues

  const MAX_YAML_EVENTS := 100_000
  const MAX_YAML_DEPTH := 128

  datatype GateError = BadSyntax | TooManyEvents | NotOneDocument | AnchorOrAlias | ExplicitTag | TooDeep
                     | TooComplex | KeyNotString

  datatype Result<+T> = Ok(value: T) | Err(error: GateError)

  // ---- documents ----------------------------------------------------------

  datatype Atom = ANull | ABool(flag: bool) | ANumber(digits: string) | AString(text: string)

  /** A node of the serialization tree, with the properties written on it. */
  datatype Node =
    | ScalarNode(atom: Atom, anchor: nat, tagged: bool)
    | AliasNode(id: nat)
    | SequenceNode(items: seq<Node>, anchor: nat, tagged: bool)
    | MappingNode(entries: NodePairs, anchor: nat, tagged: bool)

  datatype NodePairs = NoPairs | NodePair(key: Node, value: Node, rest: NodePairs)

  /** What the parser reports, one at a time. */
  datatype Event =
    | Malformed
    | StreamStart | StreamEnd | DocumentStart | DocumentEnd
    | Alias(id: nat)
    | Scalar(anchor: nat, tagged: bool)
    | SequenceStart(anchor: nat, tagged: bool) | SequenceEnd
    | MappingStart(anchor: nat, tagged: bool) | MappingEnd

  function Events(node: Node): (r: seq<Event>)
    ensures |r| >= 1
    decreases node
  {
    match node
    case ScalarNode(_, anchor, tagged) => [Scalar(anchor, tagged)]
    case AliasNode(id) => [Alias(id)]
    case SequenceNode(items, anchor, tagged) => [SequenceStart(anchor, tagged)] + ItemEvents(items) + [SequenceEnd]
    case MappingNode(entries, anchor, tagged) => [MappingStart(anchor, tagged)] + PairEvents(entries) + [MappingEnd]
  }

  function ItemEvents(items: seq<Node>): seq<Event>
    decreases items
  {
    if items == [] then [] else Events(items[0]) + ItemEvents(items[1..])
  }

  function PairEvents(entries: NodePairs): seq<Event>
    decreases entries
  {
    match entries
    case NoPairs => []
    case NodePair(key, value, rest) => Events(key) + Events(value) + PairEvents(rest)
  }

  /** The stream of a file that holds one document. */
  function Stream(root: Node): seq<Event> {
    [StreamStart, DocumentStart] + Events(root) + [DocumentEnd, StreamEnd]
  }

  // ---- the event check ----------------------------------------------------

  datatype Gate = Gate(documents: nat, depth: nat, events: nat)

  function RejectProperties(anchor: nat, tagged: bool): Option<GateError> {
    if anchor != 0 then Some(AnchorOrAlias) else if tagged then Some(ExplicitTag) else None
  }

  function Admit(g: Gate, e: Event): Result<Gate> {
    if e.Malformed? then Err(BadSyntax) else
      var counted := g.(events := g.events + 1);
      if counted.events > MAX_YAML_EVENTS then Err(TooManyEvents) else
        match e
        case DocumentStart =>
          if g.documents + 1 > 1 then Err(NotOneDocument) else Ok(counted.(documents := g.documents + 1))
        case Alias(_) => Err(AnchorOrAlias)
        case Scalar(anchor, tagged) =>
          var bad := RejectProperties(anchor, tagged);
          if bad.Some? then Err(bad.value) else Ok(counted)
        case SequenceStart(anchor, tagged) => Enter(counted, RejectProperties(anchor, tagged))
        case MappingStart(anchor, tagged) => Enter(counted, RejectProperties(anchor, tagged))
        case SequenceEnd => Ok(counted.(depth := if g.depth == 0 then 0 else g.depth - 1))
        case MappingEnd => Ok(counted.(depth := if g.depth == 0 then 0 else g.depth - 1))
        case _ => Ok(counted)
  }

  function Enter(g: Gate, bad: Option<GateError>): Result<Gate> {
    if bad.Some? then Err(bad.value)
    else if g.depth + 1 > MAX_YAML_DEPTH then Err(TooDeep)
    else Ok(g.(depth := g.depth + 1))
  }

  function AdmitAll(g: Gate, events: seq<Event>): Result<Gate>
    decreases |events|
  {
    if events == [] then Ok(g) else
      var next := Admit(g, events[0]);
      if next.Err? then next else AdmitAll(next.value, events[1..])
  }

  function Verdict(events: seq<Event>): Option<GateError> {
    var end := AdmitAll(Gate(0, 0, 0), events);
    if end.Err? then Some(end.error) else if end.value.documents != 1 then Some(NotOneDocument) else None
  }

  method ValidateYamlEvents(source: seq<Event>) returns (error: Option<GateError>)
    ensures error == Verdict(source)
  {
    var documents: nat, depth: nat, events: nat := 0, 0, 0;
    for i := 0 to |source|
      invariant AdmitAll(Gate(0, 0, 0), source) == AdmitAll(Gate(documents, depth, events), source[i..])
    {
      var event := source[i];
      assert source[i..][1..] == source[i + 1..];
      if event.Malformed? {
        return Some(BadSyntax);
      }
      events := events + 1;
      if events > MAX_YAML_EVENTS {
        return Some(TooManyEvents);
      }
      match event {
        case DocumentStart =>
          documents := documents + 1;
          if documents > 1 {
            return Some(NotOneDocument);
          }
        case Alias(_) => return Some(AnchorOrAlias);
        case Scalar(anchor, tagged) =>
          var bad := RejectProperties(anchor, tagged);
          if bad.Some? {
            return bad;
          }
        case SequenceStart(anchor, tagged) =>
          var bad := RejectProperties(anchor, tagged);
          if bad.Some? {
            return bad;
          }
          depth := depth + 1;
          if depth > MAX_YAML_DEPTH {
            return Some(TooDeep);
          }
        case MappingStart(anchor, tagged) =>
          var bad := RejectProperties(anchor, tagged);
          if bad.Some? {
            return bad;
          }
          depth := depth + 1;
          if depth > MAX_YAML_DEPTH {
            return Some(TooDeep);
          }
        case SequenceEnd => depth := if depth == 0 then 0 else depth - 1;
        case MappingEnd => depth := if depth == 0 then 0 else depth - 1;
        case _ =>
      }
    }
    error := if documents != 1 then Some(NotOneDocument) else None;
  }

  // ---- what the check admits ----------------------------------------------

  /** No anchor, alias or tag anywhere. */
  predicate Plain(node: Node)
    decreases node
  {
    match node
    case ScalarNode(_, anchor, tagged) => anchor == 0 && !tagged
    case AliasNode(_) => false
    case SequenceNode(items, anchor, tagged) => anchor == 0 && !tagged && PlainItems(items)
    case MappingNode(entries, anchor, tagged) => anchor == 0 && !tagged && PlainPairs(entries)
  }

  predicate PlainItems(items: seq<Node>)
    decreases items
  {
    items == [] || (Plain(items[0]) && PlainItems(items[1..]))
  }

  predicate PlainPairs(entries: NodePairs)
    decreases entries
  {
    match entries
    case NoPairs => true
    case NodePair(key, value, rest) => Plain(key) && Plain(value) && PlainPairs(rest)
  }

  /** How many containers stand inside one another, keys included. */
  function Height(node: Node): nat
    decreases node
  {
    match node
    case SequenceNode(items, _, _) => 1 + ItemHeight(items)
    case MappingNode(entries, _, _) => 1 + PairHeight(entries)
    case _ => 0
  }

  function ItemHeight(items: seq<Node>): nat
    decreases items
  {
    if items == [] then 0 else Max(Height(items[0]), ItemHeight(items[1..]))
  }

  function PairHeight(entries: NodePairs): nat
    decreases entries
  {
    match entries
    case NoPairs => 0
    case NodePair(key, value, rest) => Max(Max(Height(key), Height(value)), PairHeight(rest))
  }

  lemma {:induction false} AdmitTwo(g: Gate, a: seq<Event>, b: seq<Event>)
    ensures AdmitAll(g, a + b) == var mid := AdmitAll(g, a); if mid.Err? then mid else AdmitAll(mid.value, b)
    decreases |a|
  {
    if a == [] {
      assert a + b == b;
    } else {
      assert (a + b)[1..] == a[1..] + b;
      var next := Admit(g, a[0]);
      if next.Ok? { AdmitTwo(next.value, a[1..], b); }
    }
  }

  /** `events` passes from `g` exactly when `fits`, and then only the event count has moved. */
  ghost predicate Passes(g: Gate, events: seq<Event>, fits: bool) {
    && (AdmitAll(g, events).Ok? <==> fits && g.events + |events| <= MAX_YAML_EVENTS)
    && (AdmitAll(g, events).Ok? ==> AdmitAll(g, events).value == g.(events := g.events + |events|))
  }

  lemma PassTwo(g: Gate, a: seq<Event>, b: seq<Event>, aFits: bool, bFits: bool)
    requires g.events <= MAX_YAML_EVENTS && Passes(g, a, aFits)
    requires AdmitAll(g, a).Ok? ==> Passes(g.(events := g.events + |a|), b, bFits)
    ensures Passes(g, a + b, aFits && bFits)
  {
    AdmitTwo(g, a, b);
  }

  lemma AdmitOne(g: Gate, e: Event)
    ensures AdmitAll(g, [e]) == Admit(g, e)
  {
    assert AdmitAll(g, [e][1..]) == Ok(g);
  }

  /** A container passes when its own properties and depth do and its contents pass one level down. */
  lemma PassContainer(g: Gate, start: Event, inner: seq<Event>, end: Event, fits: bool)
    requires g.events <= MAX_YAML_EVENTS && g.depth <= MAX_YAML_DEPTH
    requires (start.SequenceStart? && end.SequenceEnd?) || (start.MappingStart? && end.MappingEnd?)
    requires g.depth < MAX_YAML_DEPTH && g.events < MAX_YAML_EVENTS ==>
      Passes(Gate(g.documents, g.depth + 1, g.events + 1), inner, fits)
    ensures Passes(g, [start] + inner + [end], start.anchor == 0 && !start.tagged && g.depth < MAX_YAML_DEPTH && fits)
  {
    AdmitOne(g, start);
    AdmitTwo(g, [start], inner);
    AdmitTwo(g, [start] + inner, [end]);
    var inside := AdmitAll(g, [start] + inner);
    if inside.Ok? {
      AdmitOne(inside.value, end);
    }
  }

  /** A node passes exactly when it is plain and both its events and its height still fit. */
  lemma {:induction false} NodePasses(g: Gate, node: Node)
    requires g.events <= MAX_YAML_EVENTS && g.depth <= MAX_YAML_DEPTH
    ensures Passes(g, Events(node), Plain(node) && g.depth + Height(node) <= MAX_YAML_DEPTH)
    decreases node
  {
    match node {
      case ScalarNode(_, anchor, tagged) => AdmitOne(g, Scalar(anchor, tagged));
      case AliasNode(id) => AdmitOne(g, Alias(id));
      case SequenceNode(items, anchor, tagged) =>
        var inner := Gate(g.documents, g.depth + 1, g.events + 1);
        if g.depth < MAX_YAML_DEPTH && g.events < MAX_YAML_EVENTS { ItemsPass(inner, items); }
        PassContainer(g, SequenceStart(anchor, tagged), ItemEvents(items), SequenceEnd,
          PlainItems(items) && inner.depth + ItemHeight(items) <= MAX_YAML_DEPTH);
      case MappingNode(entries, anchor, tagged) =>
        var inner := Gate(g.documents, g.depth + 1, g.events + 1);
        if g.depth < MAX_YAML_DEPTH && g.events < MAX_YAML_EVENTS { PairsPass(inner, entries); }
        PassContainer(g, MappingStart(anchor, tagged), PairEvents(entries), MappingEnd,
          PlainPairs(entries) && inner.depth + PairHeight(entries) <= MAX_YAML_DEPTH);
    }
  }

  lemma {:induction false} ItemsPass(g: Gate, items: seq<Node>)
    requires g.events <= MAX_YAML_EVENTS && g.depth <= MAX_YAML_DEPTH
    ensures Passes(g, ItemEvents(items), PlainItems(items) && g.depth + ItemHeight(items) <= MAX_YAML_DEPTH)
    decreases items
  {
    if items != [] {
      NodePasses(g, items[0]);
      var next := g.(events := g.events + |Events(items[0])|);
      if next.events <= MAX_YAML_EVENTS { ItemsPass(next, items[1..]); }
      PassTwo(g, Events(items[0]), ItemEvents(items[1..]),
        Plain(items[0]) && g.depth + Height(items[0]) <= MAX_YAML_DEPTH,
        PlainItems(items[1..]) && g.depth + ItemHeight(items[1..]) <= MAX_YAML_DEPTH);
    }
  }

  lemma {:induction false} PairsPass(g: Gate, entries: NodePairs)
    requires g.events <= MAX_YAML_EVENTS && g.depth <= MAX_YAML_DEPTH
    ensures Passes(g, PairEvents(entries), PlainPairs(entries) && g.depth + PairHeight(entries) <= MAX_YAML_DEPTH)
    decreases entries
  {
    if entries.NodePair? {
      var NodePair(key, value, rest) := entries;
      NodePasses(g, key);
      var second := g.(events := g.events + |Events(key)|);
      if second.events <= MAX_YAML_EVENTS { NodePasses(second, value); }
      PassTwo(g, Events(key), Events(value),
        Plain(key) && g.depth + Height(key) <= MAX_YAML_DEPTH,
        Plain(value) && g.depth + Height(value) <= MAX_YAML_DEPTH);
      var third := g.(events := g.events + |Events(key) + Events(value)|);
      if third.events <= MAX_YAML_EVENTS { PairsPass(third, rest); }
      PassTwo(g, Events(key) + Events(value), PairEvents(rest),
        Plain(key) && Plain(value) && g.depth + Max(Height(key), Height(value)) <= MAX_YAML_DEPTH,
        PlainPairs(rest) && g.depth + PairHeight(rest) <= MAX_YAML_DEPTH);
    }
  }

  lemma StreamOpens()
    ensures AdmitAll(Gate(0, 0, 0), [StreamStart, DocumentStart]) == Ok(Gate(1, 0, 2))
  {
    hide AdmitAll;
    assert [StreamStart, DocumentStart] == [StreamStart] + [DocumentStart];
    AdmitTwo(Gate(0, 0, 0), [StreamStart], [DocumentStart]);
    AdmitOne(Gate(0, 0, 0), StreamStart);
    AdmitOne(Gate(0, 0, 1), DocumentStart);
  }

  lemma StreamCloses(g: Gate)
    ensures AdmitAll(g, [DocumentEnd, StreamEnd])
         == if g.events + 2 <= MAX_YAML_EVENTS then Ok(g.(events := g.events + 2)) else Err(TooManyEvents)
  {
    hide AdmitAll;
    assert [DocumentEnd, StreamEnd] == [DocumentEnd] + [StreamEnd];
    AdmitTwo(g, [DocumentEnd], [StreamEnd]);
    AdmitOne(g, DocumentEnd);
    AdmitOne(g.(events := g.events + 1), StreamEnd);
  }

  /** A one-document stream is admitted exactly when its tree is plain, small enough and shallow enough. */
  lemma AdmittedExactlyWhen(root: Node)
    ensures Verdict(Stream(root)) == None <==>
      Plain(root) && |Events(root)| + 4 <= MAX_YAML_EVENTS && Height(root) <= MAX_YAML_DEPTH
  {
    hide AdmitAll, Events, Plain, Height;
    var g0, g := Gate(0, 0, 0), Gate(1, 0, 2);
    StreamOpens();
    AdmitTwo(g0, [StreamStart, DocumentStart], Events(root));
    AdmitTwo(g0, [StreamStart, DocumentStart] + Events(root), [DocumentEnd, StreamEnd]);
    NodePasses(g, root);
    if AdmitAll(g, Events(root)).Ok? {
      StreamCloses(AdmitAll(g, Events(root)).value);
    }
  }

  // ---- balance ------------------------------------------------------------

  /** Containers opened minus containers closed, as an integer. */
  function Net(events: seq<Event>): int {
    if events == [] then 0 else
      Net(events[..|events| - 1]) + Change(events[|events| - 1])
  }

  function Change(e: Event): int {
    if e.SequenceStart? || e.MappingStart? then 1 else if e.SequenceEnd? || e.MappingEnd? then -1 else 0
  }

  /** Never below zero on the way, and zero at the end. */
  ghost predicate Balanced(events: seq<Event>) {
    && Net(events) == 0
    && forall k :: 0 <= k <= |events| ==> Net(events[..k]) >= 0
  }

  lemma {:induction false} NetTwo(a: seq<Event>, b: seq<Event>)
    ensures Net(a + b) == Net(a) + Net(b)
  {
    if b == [] {
      assert a + b == a;
    } else {
      assert (a + b)[..|a + b| - 1] == a + b[..|b| - 1];
      NetTwo(a, b[..|b| - 1]);
    }
  }

  lemma BalancedTwo(a: seq<Event>, b: seq<Event>)
    requires Balanced(a) && Balanced(b)
    ensures Balanced(a + b)
  {
    NetTwo(a, b);
    forall k | 0 <= k <= |a + b| ensures Net((a + b)[..k]) >= 0 {
      if k <= |a| {
        assert (a + b)[..k] == a[..k];
      } else {
        assert (a + b)[..k] == a + b[..k - |a|];
        NetTwo(a, b[..k - |a|]);
      }
    }
  }

  lemma BalancedContainer(start: Event, inner: seq<Event>, end: Event)
    requires Balanced(inner) && Change(start) == 1 && Change(end) == -1
    ensures Balanced([start] + inner + [end])
  {
    var all := [start] + inner + [end];
    assert Net([start]) == 1 by { assert [start][..0] == []; }
    assert Net([end]) == -1 by { assert [end][..0] == []; }
    NetTwo([start], inner);
    NetTwo([start] + inner, [end]);
    forall k | 0 <= k <= |all| ensures Net(all[..k]) >= 0 {
      if k == 0 {
        assert all[..0] == [];
      } else if k == |all| {
        assert all[..k] == all;
      } else {
        assert all[..k] == [start] + inner[..k - 1];
        NetTwo([start], inner[..k - 1]);
      }
    }
  }

  lemma BalancedFlat(e: Event)
    requires Change(e) == 0
    ensures Balanced([e])
  {
    assert [e][..0] == [] && [e][..1] == [e];
  }

  lemma {:induction false} NodeBalanced(node: Node)
    ensures Balanced(Events(node))
    decreases node
  {
    match node {
      case ScalarNode(_, anchor, tagged) => BalancedFlat(Scalar(anchor, tagged));
      case AliasNode(id) => BalancedFlat(Alias(id));
      case SequenceNode(items, anchor, tagged) =>
        ItemsBalanced(items);
        BalancedContainer(SequenceStart(anchor, tagged), ItemEvents(items), SequenceEnd);
      case MappingNode(entries, anchor, tagged) =>
        PairsBalanced(entries);
        BalancedContainer(MappingStart(anchor, tagged), PairEvents(entries), MappingEnd);
    }
  }

  lemma {:induction false} ItemsBalanced(items: seq<Node>)
    ensures Balanced(ItemEvents(items))
    decreases items
  {
    if items != [] {
      NodeBalanced(items[0]);
      ItemsBalanced(items[1..]);
      BalancedTwo(Events(items[0]), ItemEvents(items[1..]));
    }
  }

  lemma {:induction false} PairsBalanced(entries: NodePairs)
    ensures Balanced(PairEvents(entries))
    decreases entries
  {
    if entries.NodePair? {
      var NodePair(key, value, rest) := entries;
      NodeBalanced(key);
      NodeBalanced(value);
      PairsBalanced(rest);
      BalancedTwo(Events(key), Events(value));
      BalancedTwo(Events(key) + Events(value), PairEvents(rest));
    }
  }

  lemma {:induction false} DepthIsNet(events: seq<Event>, k: nat)
    requires k <= |events| && AdmitAll(Gate(0, 0, 0), events[..k]).Ok?
    requires forall j :: 0 <= j <= k ==> Net(events[..j]) >= 0
    ensures AdmitAll(Gate(0, 0, 0), events[..k]).value.depth == Net(events[..k])
  {
    if k > 0 {
      assert events[..k] == events[..k - 1] + [events[k - 1]];
      AdmitTwo(Gate(0, 0, 0), events[..k - 1], [events[k - 1]]);
      NetTwo(events[..k - 1], [events[k - 1]]);
      assert Net([events[k - 1]]) == Change(events[k - 1]) by { assert [events[k - 1]][..0] == []; }
      DepthIsNet(events, k - 1);
      AdmitOne(AdmitAll(Gate(0, 0, 0), events[..k - 1]).value, events[k - 1]);
    }
  }

  /** On the stream of a document a closing event always finds an open container: the decrement never saturates. */
  lemma DecrementNeverSaturates(root: Node, k: nat)
    requires k < |Stream(root)| && Change(Stream(root)[k]) == -1
    requires AdmitAll(Gate(0, 0, 0), Stream(root)[..k]).Ok?
    ensures AdmitAll(Gate(0, 0, 0), Stream(root)[..k]).value.depth > 0
  {
    StreamBalanced(root);
    var events := Stream(root);
    DepthIsNet(events, k);
    assert events[..k + 1] == events[..k] + [events[k]];
    NetTwo(events[..k], [events[k]]);
    assert Net([events[k]]) == -1 by { assert [events[k]][..0] == []; }
  }

  lemma StreamBalanced(root: Node)
    ensures Balanced(Stream(root))
  {
    BalancedFlat(StreamStart);
    BalancedFlat(DocumentStart);
    BalancedFlat(DocumentEnd);
    BalancedFlat(StreamEnd);
    NodeBalanced(root);
    BalancedTwo([StreamStart], [DocumentStart]);
    BalancedTwo([DocumentEnd], [StreamEnd]);
    assert [StreamStart] + [DocumentStart] == [StreamStart, DocumentStart];
    assert [DocumentEnd] + [StreamEnd] == [DocumentEnd, StreamEnd];
    BalancedTwo([StreamStart, DocumentStart], Events(root));
    BalancedTwo([StreamStart, DocumentStart] + Events(root), [DocumentEnd, StreamEnd]);
  }

  // ---- the conversion -----------------------------------------------------

  /** The composed tree the YAML library hands over. */
  datatype Yaml = Leaf(atom: Atom) | Sequence(items: seq<Yaml>) | Mapping(entries: Pairs) | TaggedValue

  datatype Pairs = End | Pair(key: Yaml, value: Yaml, rest: Pairs)

  /** A node without properties, composed. */
  function Compose(node: Node): Yaml
    decreases node
  {
    match node
    case ScalarNode(atom, _, _) => Leaf(atom)
    case AliasNode(_) => TaggedValue
    case SequenceNode(items, _, _) => Sequence(ComposeItems(items))
    case MappingNode(entries, _, _) => Mapping(ComposePairs(entries))
  }

  function ComposeItems(items: seq<Node>): seq<Yaml>
    decreases items
  {
    if items == [] then [] else [Compose(items[0])] + ComposeItems(items[1..])
  }

  function ComposePairs(entries: NodePairs): Pairs
    decreases entries
  {
    match entries
    case NoPairs => End
    case NodePair(key, value, rest) => Pair(Compose(key), Compose(value), ComposePairs(rest))
  }

  function AtomJson(atom: Atom): Json {
    match atom
    case ANull => Null
    case ABool(flag) => Bool(flag)
    case ANumber(digits) => Float(digits)
    case AString(text) => Str(text)
  }

  /** A converted part and the node count after it. */
  datatype Converted<+T> = Converted(value: T, nodes: nat)

  function Convert(value: Yaml, depth: nat, nodes: nat): Result<Converted<Json>>
    decreases value
  {
    if nodes + 1 > MAX_YAML_EVENTS || depth > MAX_YAML_DEPTH then Err(TooComplex) else
      match value
      case Leaf(atom) => Ok(Converted(AtomJson(atom), nodes + 1))
      case Sequence(items) =>
        var inner := ConvertItems(items, depth + 1, nodes + 1, []);
        if inner.Err? then Err(inner.error) else Ok(Converted(Arr(inner.value.value), inner.value.nodes))
      case Mapping(entries) =>
        var inner := ConvertPairs(entries, depth + 1, nodes + 1, []);
        if inner.Err? then Err(inner.error) else Ok(Converted(Obj(inner.value.value), inner.value.nodes))
      case TaggedValue => Err(ExplicitTag)
  }

  function ConvertItems(items: seq<Yaml>, depth: nat, nodes: nat, done: seq<Json>): Result<Converted<seq<Json>>>
    decreases items
  {
    if items == [] then Ok(Converted(done, nodes)) else
      var first := Convert(items[0], depth, nodes);
      if first.Err? then Err(first.error)
      else ConvertItems(items[1..], depth, first.value.nodes, done + [first.value.value])
  }

  function ConvertPairs(entries: Pairs, depth: nat, nodes: nat, done: seq<Member>): Result<Converted<seq<Member>>>
    decreases entries
  {
    match entries
    case End => Ok(Converted(done, nodes))
    case Pair(key, value, rest) =>
      if !(key.Leaf? && key.atom.AString?) then Err(KeyNotString) else
        var first := Convert(value, depth, nodes);
        if first.Err? then Err(first.error) else
          ConvertPairs(rest, depth, first.value.nodes, Put(done, key.atom.text, first.value.value))
  }

  lemma ItemStep(items: seq<Yaml>, i: nat, depth: nat, nodes: nat, done: seq<Json>)
    requires i < |items|
    ensures ConvertItems(items[i..], depth, nodes, done) ==
      var first := Convert(items[i], depth, nodes);
      if first.Err? then Err(first.error)
      else ConvertItems(items[i + 1..], depth, first.value.nodes, done + [first.value.value])
  {
    hide Convert;
    assert items[i..][1..] == items[i + 1..];
  }

  lemma NoItems(depth: nat, nodes: nat, done: seq<Json>)
    ensures ConvertItems([], depth, nodes, done) == Ok(Converted(done, nodes))
  {}

  lemma PairStep(entries: Pairs, depth: nat, nodes: nat, done: seq<Member>)
    requires entries.Pair?
    ensures ConvertPairs(entries, depth, nodes, done) ==
      if !(entries.key.Leaf? && entries.key.atom.AString?) then Err(KeyNotString) else
        var first := Convert(entries.value, depth, nodes);
        if first.Err? then Err(first.error) else
          ConvertPairs(entries.rest, depth, first.value.nodes, Put(done, entries.key.atom.text, first.value.value))
  {
    hide Convert, Put;
  }

  lemma NoPairs(depth: nat, nodes: nat, done: seq<Member>)
    ensures ConvertPairs(End, depth, nodes, done) == Ok(Converted(done, nodes))
  {}

  /** The recursion, with its counter threaded through. */
  method YamlToJson(value: Yaml, depth: nat, nodes0: nat) returns (json: Result<Json>, nodes: nat)
    ensures json.Ok? ==> Convert(value, depth, nodes0) == Ok(Converted(json.value, nodes))
    ensures json.Err? ==> Convert(value, depth, nodes0) == Err(json.error)
    decreases value
  {
    hide ConvertItems, ConvertPairs, Put;
    nodes := nodes0 + 1;
    if nodes > MAX_YAML_EVENTS || depth > MAX_YAML_DEPTH {
      return Err(TooComplex), nodes;
    }
    match value {
      case Leaf(atom) => json := Ok(AtomJson(atom));
      case Sequence(items) =>
        var done := [];
        assert items[0..] == items;
        for i := 0 to |items|
          invariant ConvertItems(items, depth + 1, nodes0 + 1, []) == ConvertItems(items[i..], depth + 1, nodes, done)
        {
          ItemStep(items, i, depth + 1, nodes, done);
          var item;
          item, nodes := YamlToJson(items[i], depth + 1, nodes);
          if item.Err? {
            return Err(item.error), nodes;
          }
          done := done + [item.value];
        }
        assert items[|items|..] == [];
        NoItems(depth + 1, nodes, done);
        json := Ok(Arr(done));
      case Mapping(entries) =>
        var done := [];
        var rest := entries;
        while rest.Pair?
          invariant rest == entries || rest < entries
          invariant ConvertPairs(entries, depth + 1, nodes0 + 1, []) == ConvertPairs(rest, depth + 1, nodes, done)
          decreases rest
        {
          PairStep(rest, depth + 1, nodes, done);
          var Pair(key, child, more) := rest;
          if !(key.Leaf? && key.atom.AString?) {
            return Err(KeyNotString), nodes;
          }
          var entry;
          entry, nodes := YamlToJson(child, depth + 1, nodes);
          if entry.Err? {
            return Err(entry.error), nodes;
          }
          done := Put(done, key.atom.text, entry.value);
          rest := more;
        }
        NoPairs(depth + 1, nodes, done);
        json := Ok(Obj(done));
      case TaggedValue => json := Err(ExplicitTag);
    }
  }

  // ---- the two limits -----------------------------------------------------

  /** The nodes the conversion counts: every node except mapping keys and what is in them. */
  function Values(node: Node): nat
    decreases node
  {
    match node
    case SequenceNode(items, _, _) => 1 + ItemValues(items)
    case MappingNode(entries, _, _) => 1 + PairValues(entries)
    case _ => 1
  }

  function ItemValues(items: seq<Node>): nat
    decreases items
  {
    if items == [] then 0 else Values(items[0]) + ItemValues(items[1..])
  }

  function PairValues(entries: NodePairs): nat
    decreases entries
  {
    match entries
    case NoPairs => 0
    case NodePair(_, value, rest) => Values(value) + PairValues(rest)
  }

  /** Every mapping key outside other keys is a string. */
  predicate StringKeys(node: Node)
    decreases node
  {
    match node
    case SequenceNode(items, _, _) => StringKeyItems(items)
    case MappingNode(entries, _, _) => StringKeyPairs(entries)
    case _ => true
  }

  predicate StringKeyItems(items: seq<Node>)
    decreases items
  {
    items == [] || (StringKeys(items[0]) && StringKeyItems(items[1..]))
  }

  predicate StringKeyPairs(entries: NodePairs)
    decreases entries
  {
    match entries
    case NoPairs => true
    case NodePair(key, value, rest) =>
      key.ScalarNode? && key.atom.AString? && StringKeys(value) && StringKeyPairs(rest)
  }

  lemma {:induction false} ValuesAreEvents(node: Node)
    ensures Values(node) <= |Events(node)|
    decreases node
  {
    match node {
      case SequenceNode(items, _, _) => ItemValuesAreEvents(items);
      case MappingNode(entries, _, _) => PairValuesAreEvents(entries);
      case _ =>
    }
  }

  lemma {:induction false} ItemValuesAreEvents(items: seq<Node>)
    ensures ItemValues(items) <= |ItemEvents(items)|
    decreases items
  {
    if items != [] {
      ValuesAreEvents(items[0]);
      ItemValuesAreEvents(items[1..]);
    }
  }

  lemma {:induction false} PairValuesAreEvents(entries: NodePairs)
    ensures PairValues(entries) <= |PairEvents(entries)|
    decreases entries
  {
    if entries.NodePair? {
      var NodePair(_, value, rest) := entries;
      ValuesAreEvents(value);
      PairValuesAreEvents(rest);
    }
  }

  /** Within the limits a conversion succeeds exactly for string keys, and the counter moves by the node count. */
  ghost predicate Counts<T>(r: Result<Converted<T>>, stringKeys: bool, nodes: nat) {
    && (stringKeys <==> r.Ok?)
    && (r.Ok? ==> r.value.nodes == nodes)
    && (r.Err? ==> r.error == KeyNotString)
  }

  lemma {:induction false} NodeConverts(node: Node, depth: nat, nodes: nat)
    requires Plain(node) && depth + Height(node) <= MAX_YAML_DEPTH && nodes + Values(node) <= MAX_YAML_EVENTS
    ensures Counts(Convert(Compose(node), depth, nodes), StringKeys(node), nodes + Values(node))
    decreases node
  {
    match node {
      case SequenceNode(items, _, _) => ItemsConvert(items, depth + 1, nodes + 1, []);
      case MappingNode(entries, _, _) => PairsConvert(entries, depth + 1, nodes + 1, []);
      case _ =>
    }
  }

  lemma {:induction false} ItemsConvert(items: seq<Node>, depth: nat, nodes: nat, done: seq<Json>)
    requires PlainItems(items) && depth + ItemHeight(items) <= MAX_YAML_DEPTH
      && nodes + ItemValues(items) <= MAX_YAML_EVENTS
    ensures Counts(ConvertItems(ComposeItems(items), depth, nodes, done), StringKeyItems(items),
      nodes + ItemValues(items))
    decreases items
  {
    if items != [] {
      NodeConverts(items[0], depth, nodes);
      var all := ComposeItems(items);
      assert all[1..] == ComposeItems(items[1..]);
      var first := Convert(all[0], depth, nodes);
      if first.Ok? {
        ItemsConvert(items[1..], depth, first.value.nodes, done + [first.value.value]);
      }
    }
  }

  lemma {:induction false} PairsConvert(entries: NodePairs, depth: nat, nodes: nat, done: seq<Member>)
    requires PlainPairs(entries) && depth + PairHeight(entries) <= MAX_YAML_DEPTH
      && nodes + PairValues(entries) <= MAX_YAML_EVENTS
    ensures Counts(ConvertPairs(ComposePairs(entries), depth, nodes, done), StringKeyPairs(entries),
      nodes + PairValues(entries))
    decreases entries
  {
    if entries.NodePair? {
      var NodePair(key, value, rest) := entries;
      NodeConverts(value, depth, nodes);
      var first := Convert(Compose(value), depth, nodes);
      if first.Ok? && key.ScalarNode? && key.atom.AString? {
        PairsConvert(rest, depth, first.value.nodes, Put(done, key.atom.text, first.value.value));
      }
    }
  }

  /**
   What the event check admits the conversion never finds too complex: it fails only
   on a key that is not a string, and otherwise has counted every value once.
   */
  lemma AdmittedIsNeverTooComplex(root: Node)
    requires Verdict(Stream(root)) == None
    ensures Convert(Compose(root), 0, 0) != Err(TooComplex)
    ensures StringKeys(root) <==> Convert(Compose(root), 0, 0).Ok?
    ensures StringKeys(root) ==> Convert(Compose(root), 0, 0).value.nodes == Values(root)
  {
    AdmittedExactlyWhen(root);
    ValuesAreEvents(root);
    NodeConverts(root, 0, 0);
  }
}
