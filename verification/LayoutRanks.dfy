/**
 The rank of every node: the queue's ranks, then a place for each node the
 queue never reached, after its ranked parents in source order.
 */
module LayoutRanks {
  import opened Basics
  import opened Graphs
  import opened RankQueue
  import opened RankTheorems

  /** The least rank above every ranked parent. */
  function Above(parents: seq<string>, ranks: map<string, nat>): nat {
    if parents == [] then 0 else
      var last := parents[|parents| - 1];
      var rest := Above(parents[..|parents| - 1], ranks);
      if last in ranks && ranks[last] + 1 > rest then ranks[last] + 1 else rest
  }

  function Place(ids: seq<string>, arcs: seq<Arc>, ranks: map<string, nat>): map<string, nat> {
    if ids == [] then ranks else
      var before := Place(ids[..|ids| - 1], arcs, ranks);
      var last := ids[|ids| - 1];
      if last in before then before else before[last := Above(Parents(arcs, last), before)]
  }

  ghost function LayoutRank(f: Flow): map<string, nat>
    requires Halts(f)
  {
    Place(f.ids, f.arcs, FinalRanks(f))
  }

  lemma {:induction false} AboveIsReached(parents: seq<string>, ranks: map<string, nat>)
    ensures Above(parents, ranks) == 0
         || exists u :: u in parents && u in ranks && Above(parents, ranks) == ranks[u] + 1
  {
    if parents != [] { AboveIsReached(parents[..|parents| - 1], ranks); }
  }

  /** Every rank is the length of a walk to its node; with `simple`, of one that repeats no node. */
  ghost predicate Grounded(arcs: seq<Arc>, ranks: map<string, nat>, simple: bool) {
    forall v :: v in ranks ==>
      HasWalk(arcs, v, ranks[v]) && (simple ==> HasTrail(arcs, ranks.Keys, ranks.Keys, v, ranks[v]))
  }

  lemma SeatGrounded(arcs: seq<Arc>, ranks: map<string, nat>, v: string, simple: bool)
    requires Grounded(arcs, ranks, simple) && v !in ranks
    ensures Grounded(arcs, ranks[v := Above(Parents(arcs, v), ranks)], simple)
  {
    var seat := Above(Parents(arcs, v), ranks);
    var placed := ranks[v := seat];
    AboveIsReached(Parents(arcs, v), ranks);
    if seat == 0 {
      assert WalkTo(arcs, [v], v);
      assert IsTrail(arcs, placed.Keys, placed.Keys, [v], v, 0);
    } else {
      var u :| u in Parents(arcs, v) && u in ranks && seat == ranks[u] + 1;
      ParentsAreArcs(arcs, v, u);
      HasWalkExtends(arcs, u, v, ranks[u]);
      if simple {
        TrailExtends(arcs, ranks.Keys, ranks.Keys, u, v, ranks[u]);
        TrailWidens(arcs, ranks.Keys + {v}, ranks.Keys, placed.Keys, placed.Keys, v, seat);
      }
    }
    OthersStayGrounded(arcs, ranks, placed, v, simple);
  }

  lemma OthersStayGrounded(arcs: seq<Arc>, ranks: map<string, nat>, placed: map<string, nat>, v: string, simple: bool)
    requires Grounded(arcs, ranks, simple)
    requires placed.Keys == ranks.Keys + {v} && forall x :: x in ranks ==> placed[x] == ranks[x]
    ensures forall x :: x in ranks ==>
      HasWalk(arcs, x, placed[x]) && (simple ==> HasTrail(arcs, placed.Keys, placed.Keys, x, placed[x]))
  {
    forall x | x in ranks
      ensures HasWalk(arcs, x, placed[x]) && (simple ==> HasTrail(arcs, placed.Keys, placed.Keys, x, placed[x]))
    {
      if simple {
        TrailWidens(arcs, ranks.Keys, ranks.Keys, placed.Keys, placed.Keys, x, ranks[x]);
      }
    }
  }

  lemma {:induction false} PlaceGrounded(ids: seq<string>, arcs: seq<Arc>, ranks: map<string, nat>, simple: bool)
    requires Grounded(arcs, ranks, simple)
    ensures Grounded(arcs, Place(ids, arcs, ranks), simple)
    ensures Place(ids, arcs, ranks).Keys == ranks.Keys + Elements(ids)
    ensures forall v :: v in ranks ==> Place(ids, arcs, ranks)[v] == ranks[v]
  {
    if ids != [] {
      var rest, last := ids[..|ids| - 1], ids[|ids| - 1];
      assert ids == rest + [last];
      PlaceGrounded(rest, arcs, ranks, simple);
      var before := Place(rest, arcs, ranks);
      if last !in before {
        SeatGrounded(arcs, before, last, simple);
      }
    }
  }

  lemma FinalIsRun(f: Flow) returns (n: nat)
    requires Halts(f)
    ensures Run(f, n).queue == [] && FinalRanks(f) == Run(f, n).ranks
  {
    n :| Run(f, n).queue == [] && FinalRanks(f) == Run(f, n).ranks;
  }

  lemma FinalGrounded(f: Flow)
    requires WellFormed(f) && Halts(f)
    ensures Grounded(f.arcs, FinalRanks(f), SeedsAvoidCycles(f))
    ensures FinalRanks(f).Keys <= Elements(f.ids)
  {
    var n := FinalIsRun(f);
    var s := Run(f, n);
    RunInvariant(f, n);
    if SeedsAvoidCycles(f) {
      RunTrails(f, n);
      forall v | v in s.ranks ensures HasTrail(f.arcs, s.ranks.Keys, s.ranks.Keys, v, s.ranks[v]) {
        TrailWidens(f.arcs, s.ranks.Keys, s.fired.Keys, s.ranks.Keys, s.ranks.Keys, v, s.ranks[v]);
      }
    }
  }

  /** After placement every node has a rank, and every rank is the length of a walk to its node. */
  lemma EveryNodeRanked(f: Flow)
    requires WellFormed(f) && Halts(f)
    ensures LayoutRank(f).Keys == Elements(f.ids)
    ensures forall v :: v in f.ids ==> HasWalk(f.arcs, v, LayoutRank(f)[v])
  {
    FinalGrounded(f);
    PlaceGrounded(f.ids, f.arcs, FinalRanks(f), SeedsAvoidCycles(f));
  }

  /** On an acyclic graph placement has nothing to do: ranks stay the longest-path depths. */
  lemma AcyclicLayoutRanks(f: Flow)
    requires WellFormed(f) && Acyclic(f.arcs)
    ensures Halts(f)
    ensures forall v :: v in f.ids ==> v in LayoutRank(f) && LongestTo(f.arcs, v, LayoutRank(f)[v])
    ensures RisesAlongArcs(f.arcs, LayoutRank(f))
  {
    hide WellFormed, Acyclic, LongestTo;
    RanksAreLongestPaths(f);
    FinalGrounded(f);
    PlaceGrounded(f.ids, f.arcs, FinalRanks(f), SeedsAvoidCycles(f));
  }

  /**
   When no seed with an incoming arc leads to a cycle, each rank is the length of a walk that
   repeats no node, and so is below the node count.
   */
  lemma RanksAlongSimpleWalks(f: Flow, v: string)
    requires WellFormed(f) && v in f.ids && SeedsAvoidCycles(f)
    ensures Halts(f) && v in LayoutRank(f)
    ensures exists p :: WalkTo(f.arcs, p, v) && |p| == LayoutRank(f)[v] + 1 && Distinct(p)
    ensures LayoutRank(f)[v] < |Elements(f.ids)|
  {
    hide WellFormed, SeedsAvoidCycles, Halts;
    HaltsWhenSeedsAvoidCycles(f);
    EveryNodeRanked(f);
    var p := SimpleWalk(f, v);
    InsideWalkFits(f, p, v);
  }

  lemma SimpleWalk(f: Flow, v: string) returns (p: seq<string>)
    requires WellFormed(f) && SeedsAvoidCycles(f) && Halts(f) && v in LayoutRank(f)
    ensures WalkTo(f.arcs, p, v) && |p| == LayoutRank(f)[v] + 1 && Distinct(p)
  {
    hide WellFormed, SeedsAvoidCycles;
    FinalGrounded(f);
    PlaceGrounded(f.ids, f.arcs, FinalRanks(f), true);
    var keys := LayoutRank(f).Keys;
    assert HasTrail(f.arcs, keys, keys, v, LayoutRank(f)[v]);
    p :| IsTrail(f.arcs, keys, keys, p, v, LayoutRank(f)[v]);
  }

  lemma InsideWalkFits(f: Flow, p: seq<string>, v: string)
    requires WellFormed(f) && WalkTo(f.arcs, p, v) && v in f.ids && Distinct(p)
    ensures |p| <= |Elements(f.ids)|
  {
    WalkStaysInside(f.arcs, f.ids, p);
    DistinctFits(p, Elements(f.ids));
  }

  // ---- the loops ----------------------------------------------------------

  /** What the layout looks up instead of scanning the edge list: parents and children, each in edge order. */
  ghost predicate Neighbours(ids: seq<string>, arcs: seq<Arc>, incoming: map<string, seq<string>>,
      outgoing: map<string, seq<string>>) {
    && incoming.Keys == outgoing.Keys == Elements(ids)
    && (forall v :: v in ids ==> incoming[v] == Parents(arcs, v) && outgoing[v] == Children(arcs, v))
  }

  method RelaxChildren(ghost f: Flow, ghost s: State, children: seq<string>, rank: nat,
                       ranks0: map<string, nat>, indegree0: map<string, nat>, queue0: seq<string>)
    returns (ranks: map<string, nat>, indegree: map<string, nat>, queue: seq<string>)
    requires State(ranks0, indegree0, queue0, s.fired) == s
    ensures State(ranks, indegree, queue, s.fired) == RelaxAll(s, children, rank)
  {
    ranks, indegree, queue := ranks0, indegree0, queue0;
    for i := 0 to |children|
      invariant State(ranks, indegree, queue, s.fired) == RelaxAll(s, children[..i], rank)
    {
      assert children[..i + 1][..i] == children[..i];
      var child := children[i];
      if child in ranks {
        ranks := ranks[child := if ranks[child] > rank + 1 then ranks[child] else rank + 1];
      } else {
        ranks := ranks[child := rank + 1];
      }
      if child in indegree {
        indegree := indegree[child := if indegree[child] == 0 then 0 else indegree[child] - 1];
        if indegree[child] == 0 {
          queue := queue + [child];
        }
      }
    }
    assert children[..|children|] == children;
  }

  /** One turn of the loop, seen from the step machine. */
  lemma NextRun(f: Flow, n: nat)
    requires WellFormed(f) && Run(f, n).queue != []
    ensures var s := Run(f, n);
      && s.queue[0] in f.ids
      && Run(f, n + 1) == RelaxAll(Dequeue(s), Children(f.arcs, s.queue[0]), RankOf(s.ranks, s.queue[0]))
      && Run(f, n + 1).fired == Dequeue(s).fired
  {
    hide WellFormed, Initial, Invariant, Children, RelaxAll;
    QueueHead(f, n);
    StepFired(f, Run(f, n));
  }

  lemma LookedUp(f: Flow, incoming: map<string, seq<string>>, outgoing: map<string, seq<string>>)
    requires Neighbours(f.ids, f.arcs, incoming, outgoing)
    ensures (map v | v in incoming :: |incoming[v]|) == Initial(f).waiting
    ensures forall v :: v in f.ids ==> v in outgoing && outgoing[v] == Children(f.arcs, v)
  {}

  /** The queue loop, for every graph on which it ends. */
  method DrainQueue(f: Flow, incoming: map<string, seq<string>>, outgoing: map<string, seq<string>>)
    returns (ranks: map<string, nat>)
    requires WellFormed(f) && Halts(f) && Neighbours(f.ids, f.arcs, incoming, outgoing)
    ensures ranks == FinalRanks(f)
  {
    hide WellFormed, Halts, Neighbours, Parents, Children, RelaxAll;
    LookedUp(f, incoming, outgoing);
    var indegree: map<string, nat> := map v | v in incoming :: |incoming[v]|;
    ranks := map v | v in f.seeds :: 0;
    var queue := f.seeds;
    ghost var last := FinalIsRun(f);
    ghost var n := 0;
    assert State(ranks, indegree, queue, map[]) == Run(f, 0);
    while queue != []
      invariant State(ranks, indegree, queue, Run(f, n).fired) == Run(f, n)
      invariant n <= last
      decreases last - n
    {
      hide Initial, Step, Run;
      if n == last { assert false; }
      NextRun(f, n);
      var id := queue[0];
      queue := queue[1..];
      var rank := if id in ranks then ranks[id] else 0;
      var children := if id in outgoing then outgoing[id] else [];
      ranks, indegree, queue := RelaxChildren(f, Dequeue(Run(f, n)), children, rank, ranks, indegree, queue);
      n := n + 1;
    }
    HaltsOnce(f, n, last);
  }

  method PlaceRemnants(f: Flow, incoming: map<string, seq<string>>, ranks0: map<string, nat>)
    returns (ranks: map<string, nat>)
    requires forall v :: v in f.ids ==> v in incoming && incoming[v] == Parents(f.arcs, v)
    ensures ranks == Place(f.ids, f.arcs, ranks0)
  {
    ranks := ranks0;
    for i := 0 to |f.ids|
      invariant ranks == Place(f.ids[..i], f.arcs, ranks0)
    {
      var id := f.ids[i];
      assert f.ids[..i + 1][..i] == f.ids[..i];
      assert id in f.ids;
      if id !in ranks {
        ranks := ranks[id := Above(incoming[id], ranks)];
      }
    }
    assert f.ids[..|f.ids|] == f.ids;
  }
}
