/**
 The pipeline graph as it is stored, and the rule that picks the nodes a run
 starts from.
 */
module PipelineModel {
  import opened Basics
  import opened Graphs
  import opened JsonValues

  datatype PipelineNode = PipelineNode(
    id: string, kind: string, inputPins: seq<string>, outputPins: seq<string>, config: Json)

  datatype PipelineEdge = PipelineEdge(fromNode: string, fromPin: string, toNode: string, toPin: string)

  class PipelineGraph {
    var entryNodes: seq<string>
    var nodes: seq<PipelineNode>
    var edges: seq<PipelineEdge>

    constructor (entryNodes: seq<string>, nodes: seq<PipelineNode>, edges: seq<PipelineEdge>)
      ensures this.entryNodes == entryNodes && this.nodes == nodes && this.edges == edges
    {
      this.entryNodes, this.nodes, this.edges := entryNodes, nodes, edges;
    }
  }

  function NodeIds(nodes: seq<PipelineNode>): (r: seq<string>)
    ensures |r| == |nodes| && forall i :: 0 <= i < |r| ==> r[i] == nodes[i].id
  {
    seq(|nodes|, i requires 0 <= i < |nodes| => nodes[i].id)
  }

  /** The edges as arcs, whatever nodes they name. */
  function EdgeArcs(edges: seq<PipelineEdge>): (r: seq<Arc>)
    ensures |r| == |edges| && forall i :: 0 <= i < |r| ==> r[i] == Arc(edges[i].fromNode, edges[i].toNode)
  {
    seq(|edges|, i requires 0 <= i < |edges| => Arc(edges[i].fromNode, edges[i].toNode))
  }

  function Targets(edges: seq<PipelineEdge>): set<string> {
    set e | e in edges :: e.toNode
  }

  function Untargeted(ids: seq<string>, targets: set<string>): (r: seq<string>)
    ensures forall v :: v in r <==> v in ids && v !in targets
  {
    if ids == [] then [] else (if ids[0] in targets then [] else [ids[0]]) + Untargeted(ids[1..], targets)
  }

  function EntryNodeIds(entryNodes: seq<string>, nodes: seq<PipelineNode>, edges: seq<PipelineEdge>): seq<string> {
    if entryNodes != [] then entryNodes else
      var roots := Untargeted(NodeIds(nodes), Targets(edges));
      if roots != [] then roots
      else if nodes == [] then [] else [nodes[0].id]
  }

  ghost predicate ReachedFrom(arcs: seq<Arc>, starts: set<string>, v: string) {
    exists p :: WalkTo(arcs, p, v) && p[0] in starts
  }

  lemma ReachedStep(arcs: seq<Arc>, starts: set<string>, u: string, v: string)
    requires ReachedFrom(arcs, starts, u) && Arc(u, v) in arcs
    ensures ReachedFrom(arcs, starts, v)
  {
    var p :| WalkTo(arcs, p, u) && p[0] in starts;
    WalkExtends(arcs, p, u, v);
    assert (p + [v])[0] == p[0];
  }

  lemma StartReached(arcs: seq<Arc>, starts: set<string>, v: string)
    requires v in starts
    ensures ReachedFrom(arcs, starts, v)
  {
    assert WalkTo(arcs, [v], v);
  }

  /** Without declared entries, what is returned has no incoming edge, unless every node has one. */
  lemma EntriesHaveNoIncoming(nodes: seq<PipelineNode>, edges: seq<PipelineEdge>)
    ensures nodes != [] ==> EntryNodeIds([], nodes, edges) != []
    ensures (exists v :: v in NodeIds(nodes) && v !in Targets(edges)) ==>
      forall v :: v in EntryNodeIds([], nodes, edges) <==> v in NodeIds(nodes) && v !in Targets(edges)
    ensures nodes != [] && (forall v :: v in NodeIds(nodes) ==> v in Targets(edges)) ==>
      EntryNodeIds([], nodes, edges) == [nodes[0].id]
  {
    var roots := Untargeted(NodeIds(nodes), Targets(edges));
    if roots != [] {
      assert roots[0] in roots;
    }
  }

  /** An acyclic graph whose edges join its own nodes is entirely reachable from the entries it derives. */
  lemma EntriesReachEverything(nodes: seq<PipelineNode>, edges: seq<PipelineEdge>, v: string)
    requires EndsIn(EdgeArcs(edges), NodeIds(nodes)) && Acyclic(EdgeArcs(edges)) && v in NodeIds(nodes)
    ensures ReachedFrom(EdgeArcs(edges), Elements(EntryNodeIds([], nodes, edges)), v)
    ensures forall e :: e in EntryNodeIds([], nodes, edges) ==> e !in Targets(edges)
  {
    var arcs, ids := EdgeArcs(edges), NodeIds(nodes);
    var roots := Elements(Untargeted(ids, Targets(edges)));
    var lost := set x | x in ids && !ReachedFrom(arcs, roots, x);
    forall x | x in lost ensures HasParentIn(arcs, lost, x) {
      LostHasLostParent(nodes, edges, roots, lost, x);
    }
    NoBackwardClosedSet(arcs, ids, lost);
    assert v !in lost;
    assert ReachedFrom(arcs, roots, v);
    var p :| WalkTo(arcs, p, v) && p[0] in roots;
    assert Untargeted(ids, Targets(edges)) != [];
  }

  lemma LostHasLostParent(nodes: seq<PipelineNode>, edges: seq<PipelineEdge>, roots: set<string>,
      lost: set<string>, x: string)
    requires EndsIn(EdgeArcs(edges), NodeIds(nodes)) && x in lost
    requires roots == Elements(Untargeted(NodeIds(nodes), Targets(edges)))
    requires lost == set y | y in NodeIds(nodes) && !ReachedFrom(EdgeArcs(edges), roots, y)
    ensures HasParentIn(EdgeArcs(edges), lost, x)
  {
    var arcs := EdgeArcs(edges);
    if x in roots { StartReached(arcs, roots, x); }
    assert x in Targets(edges);
    var e :| e in edges && e.toNode == x;
    var i :| 0 <= i < |edges| && edges[i] == e;
    var a := arcs[i];
    assert a in arcs && a == Arc(e.fromNode, x);
    if ReachedFrom(arcs, roots, a.from) {
      ReachedStep(arcs, roots, a.from, x);
    }
    assert a.from in lost;
  }
}
