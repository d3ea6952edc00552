/**
 The automatic layout of a pipeline graph: ranks give columns, sweeps give rows,
 and the result is written into each node's `config.ui`.
 */
module Layout {
  import opened Basics
  import opened Graphs
  import opened RankQueue
  import opened RankTheorems
  import opened RankCycles
  import opened RankLeast
  import opened LayoutRanks
  import opened LevelSweeps
  import opened PipelineModel
  import opened JsonValues

  const BASE_X := 120
  const BASE_Y := 120
  const RANK_GAP_X := 360
  const NODE_GAP_Y := 180

  // ---- reading the graph --------------------------------------------------

  predicate Joins(ids: seq<string>, e: PipelineEdge) {
    e.fromNode in ids && e.toNode in ids
  }

  /** The edges between known nodes, in source order. */
  function KnownArcs(ids: seq<string>, edges: seq<PipelineEdge>): (r: seq<Arc>)
    ensures forall a :: a in r <==> exists e :: e in edges && Joins(ids, e) && a == Arc(e.fromNode, e.toNode)
    ensures EndsIn(r, ids)
  {
    if edges == [] then [] else
      var last := edges[|edges| - 1];
      assert edges == edges[..|edges| - 1] + [last];
      KnownArcs(ids, edges[..|edges| - 1]) + if Joins(ids, last) then [Arc(last.fromNode, last.toNode)] else []
  }

  function PinIndex(pins: seq<string>, pin: string): nat {
    if pins == [] then 0
    else if pins[0] == pin then 0
    else if pin in pins[1..] then 1 + PinIndex(pins[1..], pin)
    else 0
  }

  /** The pins of the last node of that name, as a map built in order keeps them. */
  function PinsOf(nodes: seq<PipelineNode>, id: string): seq<string> {
    if nodes == [] then [] else
      var last := nodes[|nodes| - 1];
      if last.id == id then last.outputPins else PinsOf(nodes[..|nodes| - 1], id)
  }

  function SlotOf(nodes: seq<PipelineNode>, e: PipelineEdge): nat {
    PinIndex(PinsOf(nodes, e.fromNode), e.fromPin)
  }

  /** The output slot of each joined pair; a later edge between the same pair wins. */
  function Slots(nodes: seq<PipelineNode>, edges: seq<PipelineEdge>): map<(string, string), nat> {
    if edges == [] then map[] else
      var last := edges[|edges| - 1];
      var before := Slots(nodes, edges[..|edges| - 1]);
      if Joins(NodeIds(nodes), last) then before[(last.fromNode, last.toNode) := SlotOf(nodes, last)] else before
  }

  lemma NeighboursStep(ids: seq<string>, arcs: seq<Arc>, incoming: map<string, seq<string>>,
      outgoing: map<string, seq<string>>, a: Arc)
    requires Neighbours(ids, arcs, incoming, outgoing) && a.from in ids && a.to in ids
    ensures Neighbours(ids, arcs + [a],
      incoming[a.to := incoming[a.to] + [a.from]], outgoing[a.from := outgoing[a.from] + [a.to]])
  {
    assert (arcs + [a])[..|arcs|] == arcs;
  }

  method BuildNeighbours(nodes: seq<PipelineNode>, edges: seq<PipelineEdge>)
    returns (incoming: map<string, seq<string>>, outgoing: map<string, seq<string>>, slots: map<(string, string), nat>)
    ensures Neighbours(NodeIds(nodes), KnownArcs(NodeIds(nodes), edges), incoming, outgoing)
    ensures slots == Slots(nodes, edges)
  {
    hide Neighbours;
    var ids := NodeIds(nodes);
    incoming, outgoing, slots := NoNeighbours(ids);
    for i := 0 to |edges|
      invariant Neighbours(ids, KnownArcs(ids, edges[..i]), incoming, outgoing)
      invariant slots == Slots(nodes, edges[..i])
    {
      var e := edges[i];
      ghost var arcs := KnownArcs(ids, edges[..i]);
      assert edges[..i + 1][..i] == edges[..i];
      assert KnownArcs(ids, edges[..i + 1]) == if Joins(ids, e) then arcs + [Arc(e.fromNode, e.toNode)] else arcs;
      if Joins(ids, e) {
        NeighboursKnown(ids, arcs, incoming, outgoing);
        NeighboursStep(ids, arcs, incoming, outgoing, Arc(e.fromNode, e.toNode));
        outgoing := outgoing[e.fromNode := outgoing[e.fromNode] + [e.toNode]];
        incoming := incoming[e.toNode := incoming[e.toNode] + [e.fromNode]];
        slots := slots[(e.fromNode, e.toNode) := SlotOf(nodes, e)];
      }
    }
    assert edges[..|edges|] == edges;
  }

  lemma NeighboursKnown(ids: seq<string>, arcs: seq<Arc>, incoming: map<string, seq<string>>,
      outgoing: map<string, seq<string>>)
    requires Neighbours(ids, arcs, incoming, outgoing)
    ensures forall v :: v in ids ==> v in incoming && v in outgoing && incoming[v] == Parents(arcs, v)
  {}

  method NoNeighbours(ids: seq<string>)
    returns (incoming: map<string, seq<string>>, outgoing: map<string, seq<string>>, slots: map<(string, string), nat>)
    ensures Neighbours(ids, [], incoming, outgoing) && slots == map[]
  {
    incoming := map v | v in ids :: [];
    outgoing := map v | v in ids :: [];
    slots := map[];
  }

  // ---- seeds --------------------------------------------------------------

  function Keep(xs: seq<string>, pool: set<string>): (r: seq<string>)
    ensures forall v :: v in r <==> v in xs && v in pool
  {
    if xs == [] then [] else (if xs[0] in pool then [xs[0]] else []) + Keep(xs[1..], pool)
  }

  function Triggers(nodes: seq<PipelineNode>): (r: seq<string>)
    ensures forall v :: v in r ==> v in NodeIds(nodes)
  {
    if nodes == [] then [] else
      assert NodeIds(nodes) == [nodes[0].id] + NodeIds(nodes[1..]);
      (if "trigger." <= nodes[0].kind then [nodes[0].id] else []) + Triggers(nodes[1..])
  }

  /** Drops an element equal to the one before it. */
  function Dedup(xs: seq<string>): (r: seq<string>)
    ensures forall v :: v in r <==> v in xs
  {
    if |xs| < 2 then xs
    else if xs[0] == xs[1] then assert xs == [xs[0]] + xs[1..]; Dedup(xs[1..])
    else assert xs == [xs[0]] + xs[1..]; [xs[0]] + Dedup(xs[1..])
  }

  function FirstSeen(xs: seq<string>): (r: seq<string>)
    ensures Distinct(r) && forall v :: v in r <==> v in xs
  {
    if xs == [] then [] else
      var last := xs[|xs| - 1];
      var before := FirstSeen(xs[..|xs| - 1]);
      assert xs == xs[..|xs| - 1] + [last];
      if last in before then before else before + [last]
  }

  function Origins(ids: seq<string>): map<string, nat> {
    Renumber(map[], ids)
  }

  function Roots(entryNodes: seq<string>, nodes: seq<PipelineNode>, arcs: seq<Arc>): (r: seq<string>)
    ensures forall v :: v in r ==> v in NodeIds(nodes)
    ensures forall v :: v in NodeIds(nodes) && Parents(arcs, v) == [] ==> v in r
  {
    var ids := NodeIds(nodes);
    Keep(entryNodes, Elements(ids)) + Keep(ids, set v | v in ids && Parents(arcs, v) == []) + Triggers(nodes)
  }

  /** The roots in source order, without immediate repetitions. */
  function SortedRoots(entryNodes: seq<string>, nodes: seq<PipelineNode>, arcs: seq<Arc>): (r: seq<string>)
    ensures forall v :: v in r <==> v in Roots(entryNodes, nodes, arcs)
  {
    var roots := Roots(entryNodes, nodes, arcs);
    var origins := Origins(NodeIds(nodes));
    var keys := map v | v in roots :: Key(0.0, 0, if v in origins then origins[v] else 0);
    SameMembers(SortBy(roots, keys), roots);
    Dedup(SortBy(roots, keys))
  }

  function SeedQueue(entryNodes: seq<string>, nodes: seq<PipelineNode>, arcs: seq<Arc>): (r: seq<string>)
    ensures Distinct(r)
    ensures forall v :: v in r <==> v in Roots(entryNodes, nodes, arcs)
  {
    FirstSeen(SortedRoots(entryNodes, nodes, arcs))
  }

  function FlowOf(entryNodes: seq<string>, nodes: seq<PipelineNode>, edges: seq<PipelineEdge>): Flow {
    var ids := NodeIds(nodes);
    Flow(ids, KnownArcs(ids, edges), SeedQueue(entryNodes, nodes, KnownArcs(ids, edges)))
  }

  lemma FlowWellFormed(entryNodes: seq<string>, nodes: seq<PipelineNode>, edges: seq<PipelineEdge>)
    ensures WellFormed(FlowOf(entryNodes, nodes, edges))
  {}

  /** The guarded insertion loop over the sorted roots. */
  method CollectSeeds(roots: seq<string>) returns (queue: seq<string>)
    ensures queue == FirstSeen(roots)
  {
    queue := [];
    for i := 0 to |roots|
      invariant queue == FirstSeen(roots[..i])
    {
      assert roots[..i + 1][..i] == roots[..i];
      if roots[i] !in queue {
        queue := queue + [roots[i]];
      }
    }
    assert roots[..|roots|] == roots;
  }

  // ---- levels -------------------------------------------------------------

  function LevelAt(ids: seq<string>, ranks: map<string, nat>, r: nat): (level: seq<string>)
    ensures forall v :: v in level <==> v in ids && RankOf(ranks, v) == r
  {
    if ids == [] then [] else
      var last := ids[|ids| - 1];
      assert ids == ids[..|ids| - 1] + [last];
      LevelAt(ids[..|ids| - 1], ranks, r) + if RankOf(ranks, last) == r then [last] else []
  }

  function Height(ids: seq<string>, ranks: map<string, nat>): nat {
    if ids == [] then 0 else
      var last := ids[|ids| - 1];
      var rest := Height(ids[..|ids| - 1], ranks);
      if RankOf(ranks, last) + 1 > rest then RankOf(ranks, last) + 1 else rest
  }

  function Levels(ids: seq<string>, ranks: map<string, nat>): seq<seq<string>> {
    seq(Height(ids, ranks), r requires 0 <= r => LevelAt(ids, ranks, r))
  }

  /** Empty levels up to and including `rank`. */
  method Grow(levels0: seq<seq<string>>, rank: nat) returns (levels: seq<seq<string>>)
    ensures levels0 <= levels && |levels| == (if rank < |levels0| then |levels0| else rank + 1)
    ensures forall r :: |levels0| <= r < |levels| ==> levels[r] == []
  {
    levels := levels0;
    while |levels| <= rank
      invariant levels0 <= levels && (|levels| <= rank + 1 || levels == levels0)
      invariant forall r :: |levels0| <= r < |levels| ==> levels[r] == []
      decreases rank + 1 - |levels|
    {
      levels := levels + [[]];
    }
  }

  lemma OneMoreLeveled(ids: seq<string>, id: string, ranks: map<string, nat>, grown: seq<seq<string>>)
    requires Levels(ids, ranks) <= grown
    requires |grown| == if RankOf(ranks, id) < Height(ids, ranks) then Height(ids, ranks) else RankOf(ranks, id) + 1
    requires forall r :: Height(ids, ranks) <= r < |grown| ==> grown[r] == []
    ensures Levels(ids + [id], ranks) == grown[RankOf(ranks, id) := grown[RankOf(ranks, id)] + [id]]
  {
    hide LevelAt, Height, RankOf;
    var rank := RankOf(ranks, id);
    var all, result := Levels(ids + [id], ranks), grown[rank := grown[rank] + [id]];
    HeightSnoc(ids, id, ranks);
    BeyondHeight(ids, ranks);
    forall r | 0 <= r < |result| ensures all[r] == result[r] {
      LevelSnoc(ids, id, ranks, r);
      if r < Height(ids, ranks) {
        assert grown[r] == Levels(ids, ranks)[r];
      }
    }
  }

  lemma HeightSnoc(ids: seq<string>, id: string, ranks: map<string, nat>)
    ensures Height(ids + [id], ranks)
         == if RankOf(ranks, id) < Height(ids, ranks) then Height(ids, ranks) else RankOf(ranks, id) + 1
  {
    assert (ids + [id])[..|ids|] == ids;
  }

  lemma LevelSnoc(ids: seq<string>, id: string, ranks: map<string, nat>, r: nat)
    ensures LevelAt(ids + [id], ranks, r) == LevelAt(ids, ranks, r) + if RankOf(ranks, id) == r then [id] else []
  {
    assert (ids + [id])[..|ids|] == ids;
  }

  method BuildLevels(ids: seq<string>, ranks: map<string, nat>) returns (levels: seq<seq<string>>)
    ensures levels == Levels(ids, ranks)
  {
    hide LevelAt;
    levels := [];
    for i := 0 to |ids|
      invariant levels == Levels(ids[..i], ranks)
    {
      var rank := RankOf(ranks, ids[i]);
      assert ids[..i] + [ids[i]] == ids[..i + 1];
      var grown := Grow(levels, rank);
      OneMoreLeveled(ids[..i], ids[i], ranks, grown);
      levels := grown[rank := grown[rank] + [ids[i]]];
    }
    assert ids[..|ids|] == ids;
  }

  lemma {:induction false} BeyondHeight(ids: seq<string>, ranks: map<string, nat>)
    ensures forall r :: r >= Height(ids, ranks) ==> LevelAt(ids, ranks, r) == []
    ensures forall v :: v in ids ==> RankOf(ranks, v) < Height(ids, ranks)
  {
    if ids != [] {
      assert ids == ids[..|ids| - 1] + [ids[|ids| - 1]];
      BeyondHeight(ids[..|ids| - 1], ranks);
    }
  }

  lemma {:induction false} LevelDistinct(ids: seq<string>, ranks: map<string, nat>, r: nat)
    requires Distinct(ids)
    ensures Distinct(LevelAt(ids, ranks, r))
  {
    if ids != [] {
      var rest, last := ids[..|ids| - 1], ids[|ids| - 1];
      LevelDistinct(rest, ranks, r);
      assert last !in rest;
    }
  }

  lemma LevelsLeveled(ids: seq<string>, ranks: map<string, nat>)
    requires Distinct(ids) && ranks.Keys == Elements(ids)
    ensures Leveled(Levels(ids, ranks), ranks)
  {
    BeyondHeight(ids, ranks);
    forall r | 0 <= r < Height(ids, ranks) ensures Distinct(LevelAt(ids, ranks, r)) {
      LevelDistinct(ids, ranks, r);
    }
  }

  // ---- coordinates --------------------------------------------------------

  function MembersOf(value: Json): seq<Member> {
    if value.Obj? then value.members else []
  }

  /** `config.ui.x` and `config.ui.y` set, whatever stood there before. */
  function Positioned(node: PipelineNode, x: int, y: int): PipelineNode {
    var config := MembersOf(node.config);
    var ui := Find(config, "ui");
    var fields := if ui.Some? then MembersOf(ui.value) else [];
    node.(config := Obj(Put(config, "ui", Obj(Put(Put(fields, "x", Int(x)), "y", Int(y))))))
  }

  function UiField(node: PipelineNode, key: string): Option<Json> {
    var ui := Get(node.config, "ui");
    if ui.Some? then Get(ui.value, key) else None
  }

  function UiX(node: PipelineNode): Option<int> {
    var x := UiField(node, "x");
    if x.Some? && x.value.Int? then Some(x.value.number) else None
  }

  ghost predicate StandsAt(node: PipelineNode, x: int, y: int) {
    UiField(node, "x") == Some(Int(x)) && UiField(node, "y") == Some(Int(y))
  }

  /** Everything except `config.ui.x` and `config.ui.y` reads the same. */
  ghost predicate SameButPosition(a: PipelineNode, b: PipelineNode) {
    && a.id == b.id && a.kind == b.kind && a.inputPins == b.inputPins && a.outputPins == b.outputPins
    && (forall k :: k != "ui" ==> Get(a.config, k) == Get(b.config, k))
    && (forall k :: k != "x" && k != "y" ==> UiField(a, k) == UiField(b, k))
  }

  lemma PositionedReads(node: PipelineNode, x: int, y: int)
    ensures StandsAt(Positioned(node, x, y), x, y)
    ensures SameButPosition(Positioned(node, x, y), node)
  {
    var config := MembersOf(node.config);
    var ui := Find(config, "ui");
    var fields := if ui.Some? then MembersOf(ui.value) else [];
    var out := Positioned(node, x, y);
    var inner := Put(Put(fields, "x", Int(x)), "y", Int(y));
    forall k ensures Get(out.config, k) == if k == "ui" then Some(Obj(inner)) else Get(node.config, k) {
      PutFinds(config, "ui", Obj(inner), k);
    }
    forall k
      ensures Find(inner, k)
        == (if k == "y" then Some(Int(y)) else if k == "x" then Some(Int(x)) else Find(fields, k))
    {
      PutFinds(fields, "x", Int(x), k);
      PutFinds(Put(fields, "x", Int(x)), "y", Int(y), k);
    }
  }

  /** Positions the first node called `id`. */
  function Assign(nodes: seq<PipelineNode>, id: string, x: int, y: int): (r: seq<PipelineNode>)
    ensures |r| == |nodes|
  {
    if nodes == [] then []
    else if nodes[0].id == id then [Positioned(nodes[0], x, y)] + nodes[1..]
    else [nodes[0]] + Assign(nodes[1..], id, x, y)
  }

  function ColumnX(rank: nat): int { BASE_X + rank * RANK_GAP_X }

  function RowY(row: nat): int { BASE_Y + row * NODE_GAP_Y }

  /** The first `n` rows of level `rank` written. */
  function WriteRows(nodes: seq<PipelineNode>, level: seq<string>, rank: nat, n: nat): (r: seq<PipelineNode>)
    requires n <= |level|
    ensures |r| == |nodes|
  {
    if n == 0 then nodes else
      Assign(WriteRows(nodes, level, rank, n - 1), level[n - 1], ColumnX(rank), RowY(n - 1))
  }

  function WriteLevels(nodes: seq<PipelineNode>, levels: seq<seq<string>>, n: nat): (r: seq<PipelineNode>)
    requires n <= |levels|
    ensures |r| == |nodes|
  {
    if n == 0 then nodes else
      WriteRows(WriteLevels(nodes, levels, n - 1), levels[n - 1], n - 1, |levels[n - 1]|)
  }

  lemma {:induction false} AssignSkips(nodes: seq<PipelineNode>, id: string, x: int, y: int, i: nat)
    requires i <= |nodes| && forall k :: 0 <= k < i ==> nodes[k].id != id
    requires i < |nodes| ==> nodes[i].id == id
    ensures Assign(nodes, id, x, y) == if i < |nodes| then nodes[i := Positioned(nodes[i], x, y)] else nodes
  {
    hide Positioned;
    if i > 0 {
      AssignSkips(nodes[1..], id, x, y, i - 1);
      assert nodes == [nodes[0]] + nodes[1..];
    }
  }

  method AssignFirst(nodes0: seq<PipelineNode>, id: string, x: int, y: int) returns (nodes: seq<PipelineNode>)
    ensures nodes == Assign(nodes0, id, x, y)
  {
    var i := 0;
    while i < |nodes0| && nodes0[i].id != id
      invariant i <= |nodes0| && forall k :: 0 <= k < i ==> nodes0[k].id != id
    {
      i := i + 1;
    }
    AssignSkips(nodes0, id, x, y, i);
    nodes := if i < |nodes0| then nodes0[i := Positioned(nodes0[i], x, y)] else nodes0;
  }

  method WritePositions(nodes0: seq<PipelineNode>, levels: seq<seq<string>>) returns (nodes: seq<PipelineNode>)
    ensures nodes == WriteLevels(nodes0, levels, |levels|)
  {
    nodes := nodes0;
    for rank := 0 to |levels|
      invariant nodes == WriteLevels(nodes0, levels, rank)
    {
      ghost var before := nodes;
      for row := 0 to |levels[rank]|
        invariant nodes == WriteRows(before, levels[rank], rank, row)
      {
        nodes := AssignFirst(nodes, levels[rank][row], ColumnX(rank), RowY(row));
      }
    }
  }

  // ---- what the writes leave ----------------------------------------------

  lemma {:induction false} AssignAt(nodes: seq<PipelineNode>, id: string, x: int, y: int, i: nat)
    requires Distinct(NodeIds(nodes)) && i < |nodes|
    ensures Assign(nodes, id, x, y)[i] == if nodes[i].id == id then Positioned(nodes[i], x, y) else nodes[i]
  {
    if nodes[0].id == id {
      assert i > 0 ==> NodeIds(nodes)[0] != NodeIds(nodes)[i];
    } else if i > 0 {
      assert NodeIds(nodes[1..]) == NodeIds(nodes)[1..];
      AssignAt(nodes[1..], id, x, y, i - 1);
    }
  }

  lemma {:induction false} AssignKeeps(nodes: seq<PipelineNode>, id: string, x: int, y: int, i: nat)
    requires i < |nodes|
    ensures SameButPosition(Assign(nodes, id, x, y)[i], nodes[i])
  {
    if nodes[0].id == id {
      PositionedReads(nodes[0], x, y);
    } else if i > 0 {
      AssignKeeps(nodes[1..], id, x, y, i - 1);
    }
  }

  lemma {:induction false} WriteRowsKeeps(nodes: seq<PipelineNode>, level: seq<string>, rank: nat, n: nat)
    requires n <= |level|
    ensures forall i :: 0 <= i < |nodes| ==> SameButPosition(WriteRows(nodes, level, rank, n)[i], nodes[i])
  {
    if n > 0 {
      WriteRowsKeeps(nodes, level, rank, n - 1);
      forall i | 0 <= i < |nodes| ensures SameButPosition(WriteRows(nodes, level, rank, n)[i], nodes[i]) {
        AssignKeeps(WriteRows(nodes, level, rank, n - 1), level[n - 1], ColumnX(rank), RowY(n - 1), i);
      }
    }
  }

  /** Whatever is written, only positions change. */
  lemma {:induction false} WriteLevelsKeeps(nodes: seq<PipelineNode>, levels: seq<seq<string>>, n: nat)
    requires n <= |levels|
    ensures forall i :: 0 <= i < |nodes| ==> SameButPosition(WriteLevels(nodes, levels, n)[i], nodes[i])
    ensures NodeIds(WriteLevels(nodes, levels, n)) == NodeIds(nodes)
  {
    if n > 0 {
      WriteLevelsKeeps(nodes, levels, n - 1);
      WriteRowsKeeps(WriteLevels(nodes, levels, n - 1), levels[n - 1], n - 1, |levels[n - 1]|);
    }
  }

  lemma WriteRowsIds(nodes: seq<PipelineNode>, level: seq<string>, rank: nat, n: nat)
    requires n <= |level|
    ensures NodeIds(WriteRows(nodes, level, rank, n)) == NodeIds(nodes)
  {
    WriteRowsKeeps(nodes, level, rank, n);
  }

  /** What the first `n` rows make of a node: the last row that names it decides. */
  lemma {:induction false} WriteRowAt(nodes: seq<PipelineNode>, level: seq<string>, rank: nat, n: nat, i: nat)
    requires 0 < n <= |level| && i < |nodes| && Distinct(NodeIds(nodes))
    ensures WriteRows(nodes, level, rank, n)[i] ==
      if level[n - 1] == nodes[i].id
      then Positioned(WriteRows(nodes, level, rank, n - 1)[i], ColumnX(rank), RowY(n - 1))
      else WriteRows(nodes, level, rank, n - 1)[i]
  {
    hide Positioned, ColumnX, RowY, Assign;
    var before := WriteRows(nodes, level, rank, n - 1);
    WriteRowsIds(nodes, level, rank, n - 1);
    assert NodeIds(before)[i] == NodeIds(nodes)[i];
    AssignAt(before, level[n - 1], ColumnX(rank), RowY(n - 1), i);
  }

  lemma {:induction false} WriteRowsAt(nodes: seq<PipelineNode>, level: seq<string>, rank: nat, n: nat, i: nat)
    requires n <= |level| && i < |nodes| && Distinct(NodeIds(nodes)) && Distinct(level)
    ensures nodes[i].id !in level[..n] ==> WriteRows(nodes, level, rank, n)[i] == nodes[i]
    ensures forall k :: 0 <= k < n && level[k] == nodes[i].id ==>
      WriteRows(nodes, level, rank, n)[i] == Positioned(nodes[i], ColumnX(rank), RowY(k))
  {
    if n > 0 {
      hide WriteRows, Positioned, ColumnX, RowY, Distinct, NodeIds;
      WriteRowsAt(nodes, level, rank, n - 1, i);
      WriteRowAt(nodes, level, rank, n, i);
      NotBefore(level, n - 1);
      assert level[..n] == level[..n - 1] + [level[n - 1]];
      assert forall k :: 0 <= k < n - 1 ==> level[k] == level[..n - 1][k];
    }
  }

  lemma NotBefore(level: seq<string>, k: nat)
    requires Distinct(level) && k < |level|
    ensures level[k] !in level[..k]
  {}

  lemma WriteLevelAt(nodes: seq<PipelineNode>, level: seq<string>, order: map<string, nat>, rank: nat, i: nat)
    requires i < |nodes| && Distinct(NodeIds(nodes)) && Distinct(level) && nodes[i].id in order
    requires forall k :: 0 <= k < |level| ==> level[k] in order && order[level[k]] == k
    ensures WriteRows(nodes, level, rank, |level|)[i] ==
      if nodes[i].id in level then Positioned(nodes[i], ColumnX(rank), RowY(order[nodes[i].id])) else nodes[i]
  {
    WriteRowsAt(nodes, level, rank, |level|, i);
    assert level[..|level|] == level;
  }

  lemma {:induction false} WriteLevelsAt(nodes: seq<PipelineNode>, rows: Rows, ranks: map<string, nat>, n: nat, i: nat)
    requires n <= |rows.levels| && i < |nodes| && Distinct(NodeIds(nodes))
    requires Leveled(rows.levels, ranks) && Numbered(rows, 0)
    requires nodes[i].id in ranks && nodes[i].id in rows.order
    ensures WriteLevels(nodes, rows.levels, n)[i] ==
      if ranks[nodes[i].id] < n
      then Positioned(nodes[i], ColumnX(ranks[nodes[i].id]), RowY(rows.order[nodes[i].id]))
      else nodes[i]
  {
    hide WriteRows, Positioned, ColumnX, RowY;
    if n > 0 {
      var before := WriteLevels(nodes, rows.levels, n - 1);
      WriteLevelsAt(nodes, rows, ranks, n - 1, i);
      WriteLevelsIds(nodes, rows.levels, n - 1);
      assert NodeIds(before)[i] == NodeIds(nodes)[i];
      WriteLevelAt(before, rows.levels[n - 1], rows.order, n - 1, i);
    }
  }

  lemma WriteLevelsIds(nodes: seq<PipelineNode>, levels: seq<seq<string>>, n: nat)
    requires n <= |levels|
    ensures NodeIds(WriteLevels(nodes, levels, n)) == NodeIds(nodes)
  {
    WriteLevelsKeeps(nodes, levels, n);
  }

  // ---- the whole layout ---------------------------------------------------

  function WebOf(nodes: seq<PipelineNode>, edges: seq<PipelineEdge>): Web {
    Web(KnownArcs(NodeIds(nodes), edges), Slots(nodes, edges), Origins(NodeIds(nodes)))
  }

  /** The queue loop ends on this graph. */
  ghost predicate Finishes(entryNodes: seq<string>, nodes: seq<PipelineNode>, edges: seq<PipelineEdge>) {
    Halts(FlowOf(entryNodes, nodes, edges))
  }

  /**
   The layout of a graph ends exactly when the least firing counts of its nodes settle within one
   round per node, which is decided without running the loop; and exactly when no step of the
   loop leaves a cycle with every counter at zero. It ends whenever none of the seeds that have
   an incoming arc leads to a cycle.
   */
  lemma FinishesExactlyWhen(entryNodes: seq<string>, nodes: seq<PipelineNode>, edges: seq<PipelineEdge>)
    ensures var f := FlowOf(entryNodes, nodes, edges);
      && (Finishes(entryNodes, nodes, edges) <==> Settles(f))
      && (Finishes(entryNodes, nodes, edges) <==> !EverSpentCycle(f))
      && (SeedsAvoidCycles(f) ==> Finishes(entryNodes, nodes, edges))
  {
    hide WellFormed, Halts, EverSpentCycle, SeedsAvoidCycles, Settles;
    var f := FlowOf(entryNodes, nodes, edges);
    FlowWellFormed(entryNodes, nodes, edges);
    HaltsIffSettles(f);
    RunsForeverIffSpentCycle(f);
    if SeedsAvoidCycles(f) {
      HaltsWhenSeedsAvoidCycles(f);
    }
  }

  ghost function TidyRanks(entryNodes: seq<string>, nodes: seq<PipelineNode>,
      edges: seq<PipelineEdge>): map<string, nat>
    requires Finishes(entryNodes, nodes, edges)
  {
    LayoutRank(FlowOf(entryNodes, nodes, edges))
  }

  ghost function StartRows(entryNodes: seq<string>, nodes: seq<PipelineNode>, edges: seq<PipelineEdge>): Rows
    requires Finishes(entryNodes, nodes, edges)
  {
    Rows(Levels(NodeIds(nodes), TidyRanks(entryNodes, nodes, edges)), Origins(NodeIds(nodes)))
  }

  ghost function TidyRows(entryNodes: seq<string>, nodes: seq<PipelineNode>, edges: seq<PipelineEdge>): Rows
    requires Finishes(entryNodes, nodes, edges)
  {
    Rounds(WebOf(nodes, edges), StartRows(entryNodes, nodes, edges), 4)
  }

  ghost function Tidied(entryNodes: seq<string>, nodes: seq<PipelineNode>, edges: seq<PipelineEdge>): seq<PipelineNode>
    requires Finishes(entryNodes, nodes, edges)
  {
    var levels := TidyRows(entryNodes, nodes, edges).levels;
    WriteLevels(nodes, levels, |levels|)
  }

  method CollectFlow(entryNodes: seq<string>, nodes: seq<PipelineNode>, edges: seq<PipelineEdge>) returns (f: Flow)
    ensures f == FlowOf(entryNodes, nodes, edges)
  {
    hide SortedRoots, KnownArcs;
    var ids := NodeIds(nodes);
    var arcs := KnownArcs(ids, edges);
    var seeds := CollectSeeds(SortedRoots(entryNodes, nodes, arcs));
    f := Flow(ids, arcs, seeds);
  }

  method RankNodes(f: Flow, incoming: map<string, seq<string>>, outgoing: map<string, seq<string>>)
    returns (ranks: map<string, nat>)
    requires WellFormed(f) && Halts(f) && Neighbours(f.ids, f.arcs, incoming, outgoing)
    ensures ranks == LayoutRank(f)
  {
    hide WellFormed, Halts, Neighbours;
    NeighboursKnown(f.ids, f.arcs, incoming, outgoing);
    ranks := DrainQueue(f, incoming, outgoing);
    ranks := PlaceRemnants(f, incoming, ranks);
  }

  method TidyNodes(entryNodes: seq<string>, nodes: seq<PipelineNode>, edges: seq<PipelineEdge>)
    returns (out: seq<PipelineNode>)
    requires Finishes(entryNodes, nodes, edges)
    ensures out == Tidied(entryNodes, nodes, edges)
  {
    hide Halts, WellFormed, Neighbours, SeedQueue, KnownArcs, LayoutRank, Levels, Rounds, WriteLevels;
    var f := CollectFlow(entryNodes, nodes, edges);
    FlowWellFormed(entryNodes, nodes, edges);
    var incoming, outgoing, slots := BuildNeighbours(nodes, edges);
    var ranks := RankNodes(f, incoming, outgoing);
    var levels := BuildLevels(f.ids, ranks);
    var origins := Origins(f.ids);
    var rows := OrderLevels(Web(f.arcs, slots, origins), Rows(levels, origins));
    out := WritePositions(nodes, rows.levels);
  }

  /** Ranks, rows and levels fit together when node ids are unique. */
  lemma TidyRowsFit(entryNodes: seq<string>, nodes: seq<PipelineNode>, edges: seq<PipelineEdge>)
    requires Finishes(entryNodes, nodes, edges) && Distinct(NodeIds(nodes))
    ensures var ranks, rows := TidyRanks(entryNodes, nodes, edges), TidyRows(entryNodes, nodes, edges);
      ranks.Keys == Elements(NodeIds(nodes)) && Leveled(rows.levels, ranks) && Numbered(rows, 0)
    ensures Leveled(StartRows(entryNodes, nodes, edges).levels, TidyRanks(entryNodes, nodes, edges))
  {
    hide Halts, WellFormed;
    FlowWellFormed(entryNodes, nodes, edges);
    EveryNodeRanked(FlowOf(entryNodes, nodes, edges));
    LevelsLeveled(NodeIds(nodes), TidyRanks(entryNodes, nodes, edges));
    RoundsNumber(WebOf(nodes, edges), StartRows(entryNodes, nodes, edges), 4, TidyRanks(entryNodes, nodes, edges));
  }

  /** Every node is written at the column of its rank and the row of its place in the level. */
  lemma NodesStandInGrid(entryNodes: seq<string>, nodes: seq<PipelineNode>, edges: seq<PipelineEdge>, i: nat)
    requires Finishes(entryNodes, nodes, edges) && Distinct(NodeIds(nodes)) && i < |nodes|
    ensures |Tidied(entryNodes, nodes, edges)| == |nodes|
    ensures var ranks, rows := TidyRanks(entryNodes, nodes, edges), TidyRows(entryNodes, nodes, edges);
      && nodes[i].id in ranks && nodes[i].id in rows.order
      && ranks[nodes[i].id] < |rows.levels|
      && rows.order[nodes[i].id] < |rows.levels[ranks[nodes[i].id]]|
      && rows.levels[ranks[nodes[i].id]][rows.order[nodes[i].id]] == nodes[i].id
      && StandsAt(Tidied(entryNodes, nodes, edges)[i], ColumnX(ranks[nodes[i].id]), RowY(rows.order[nodes[i].id]))
  {
    hide Finishes, TidyRanks, TidyRows, StandsAt;
    var ranks, rows := TidyRanks(entryNodes, nodes, edges), TidyRows(entryNodes, nodes, edges);
    TidyRowsFit(entryNodes, nodes, edges);
    var id := nodes[i].id;
    assert NodeIds(nodes)[i] == id;
    assert id in rows.levels[ranks[id]];
    var k :| 0 <= k < |rows.levels[ranks[id]]| && rows.levels[ranks[id]][k] == id;
    WriteLevelsAt(nodes, rows, ranks, |rows.levels|, i);
    PositionedReads(nodes[i], ColumnX(ranks[id]), RowY(rows.order[id]));
  }

  /** No two nodes share a position. */
  lemma NoSharedPosition(entryNodes: seq<string>, nodes: seq<PipelineNode>, edges: seq<PipelineEdge>, i: nat,
      j: nat, x: int, y: int)
    requires Finishes(entryNodes, nodes, edges) && Distinct(NodeIds(nodes)) && i < j < |nodes|
    requires |Tidied(entryNodes, nodes, edges)| == |nodes| && StandsAt(Tidied(entryNodes, nodes, edges)[i], x, y)
    ensures !StandsAt(Tidied(entryNodes, nodes, edges)[j], x, y)
  {
    hide Finishes, TidyRanks, TidyRows, Tidied;
    NodesStandInGrid(entryNodes, nodes, edges, i);
    NodesStandInGrid(entryNodes, nodes, edges, j);
    assert NodeIds(nodes)[i] != NodeIds(nodes)[j];
  }

  lemma RanksRise(entryNodes: seq<string>, nodes: seq<PipelineNode>, edges: seq<PipelineEdge>, e: PipelineEdge)
    requires Acyclic(KnownArcs(NodeIds(nodes), edges)) && e in edges && Joins(NodeIds(nodes), e)
    ensures Finishes(entryNodes, nodes, edges)
    ensures var ranks := TidyRanks(entryNodes, nodes, edges);
      e.fromNode in ranks && e.toNode in ranks && ranks[e.fromNode] < ranks[e.toNode]
  {
    hide Acyclic, Halts, WellFormed, LongestTo, LayoutRank, KnownArcs, SeedQueue;
    var f := FlowOf(entryNodes, nodes, edges);
    FlowWellFormed(entryNodes, nodes, edges);
    AcyclicLayoutRanks(f);
    assert Arc(e.fromNode, e.toNode) in f.arcs;
  }

  /** On an acyclic graph every edge between known nodes runs left to right, by at least one column. */
  lemma EdgesRunLeftToRight(entryNodes: seq<string>, nodes: seq<PipelineNode>, edges: seq<PipelineEdge>, i: nat,
      j: nat, e: PipelineEdge)
    requires Acyclic(KnownArcs(NodeIds(nodes), edges)) && Distinct(NodeIds(nodes))
    requires i < |nodes| && j < |nodes| && e in edges && e.fromNode == nodes[i].id && e.toNode == nodes[j].id
    ensures Finishes(entryNodes, nodes, edges) && |Tidied(entryNodes, nodes, edges)| == |nodes|
    ensures var a, b := UiX(Tidied(entryNodes, nodes, edges)[i]), UiX(Tidied(entryNodes, nodes, edges)[j]);
      a.Some? && b.Some? && a.value + RANK_GAP_X <= b.value
  {
    hide Acyclic, Finishes, TidyRanks, TidyRows, Tidied;
    assert NodeIds(nodes)[i] == e.fromNode && NodeIds(nodes)[j] == e.toNode;
    RanksRise(entryNodes, nodes, edges, e);
    NodesStandInGrid(entryNodes, nodes, edges, i);
    NodesStandInGrid(entryNodes, nodes, edges, j);
  }

  lemma OriginsOwn(ids: seq<string>, ranks: map<string, nat>, w: Web)
    requires Distinct(ids) && ranks.Keys == Elements(ids) && w.origin == Origins(ids)
    ensures OwnOrigins(w, ranks)
  {
    RenumberAt(map[], ids);
    forall x, y | x in ranks && y in ranks && x != y ensures Origin(w, x) != Origin(w, y) {
      var i :| 0 <= i < |ids| && ids[i] == x;
      var j :| 0 <= j < |ids| && ids[j] == y;
    }
  }

  /**
   On an acyclic graph the rows are decided by one right-to-left sweep over source
   order, and each column ends up sorted by where the children of its nodes stand.
   */
  lemma ChildrenDecideRows(entryNodes: seq<string>, nodes: seq<PipelineNode>, edges: seq<PipelineEdge>)
    requires Acyclic(KnownArcs(NodeIds(nodes), edges)) && Distinct(NodeIds(nodes))
    ensures Finishes(entryNodes, nodes, edges)
    ensures TidyRows(entryNodes, nodes, edges).levels
         == Backward(WebOf(nodes, edges), StartRows(entryNodes, nodes, edges), 0).levels
    ensures SortedByChildren(WebOf(nodes, edges), TidyRows(entryNodes, nodes, edges), 0)
  {
    hide Acyclic, Halts, WellFormed, LongestTo, RisesAlongArcs, Leveled, OwnOrigins, SortedByChildren;
    var f := FlowOf(entryNodes, nodes, edges);
    FlowWellFormed(entryNodes, nodes, edges);
    AcyclicLayoutRanks(f);
    TidyRowsFit(entryNodes, nodes, edges);
    var ranks := TidyRanks(entryNodes, nodes, edges);
    OriginsOwn(NodeIds(nodes), ranks, WebOf(nodes, edges));
    LastSweepDecides(WebOf(nodes, edges), StartRows(entryNodes, nodes, edges), 4, ranks);
    RoundsSort(WebOf(nodes, edges), StartRows(entryNodes, nodes, edges), 4, ranks);
  }

  /** Assigns a position to every node of `graph`, in place. */
  method AutoTidyPipelineGraph(graph: PipelineGraph)
    requires Finishes(graph.entryNodes, graph.nodes, graph.edges)
    modifies graph
    ensures graph.entryNodes == old(graph.entryNodes) && graph.edges == old(graph.edges)
    ensures graph.nodes == Tidied(old(graph.entryNodes), old(graph.nodes), old(graph.edges))
    ensures |graph.nodes| == |old(graph.nodes)|
    ensures forall i :: 0 <= i < |graph.nodes| ==> SameButPosition(graph.nodes[i], old(graph.nodes)[i])
  {
    hide Finishes;
    ghost var levels := TidyRows(graph.entryNodes, graph.nodes, graph.edges).levels;
    WriteLevelsKeeps(graph.nodes, levels, |levels|);
    if graph.nodes == [] {
      return;
    }
    var nodes := TidyNodes(graph.entryNodes, graph.nodes, graph.edges);
    graph.nodes := nodes;
  }
}
