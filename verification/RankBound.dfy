/**
 Ranks can reach the number of nodes: a graph on which the rank loop ends,
 although a seed with an incoming arc leads to a cycle.
 */
module RankBound {
  import opened Basics
  import opened Graphs
  import opened RankQueue
  import opened RankTheorems
  import opened LayoutRanks

  /** A node that waits for itself, and two seeds that point at each other. */
  function Knot(a: string, b: string, c: string): Flow {
    Flow([a, b, c], [Arc(a, a), Arc(a, c), Arc(a, c), Arc(b, c), Arc(c, b), Arc(c, b)], [b, c])
  }

  ghost predicate Three(a: string, b: string, c: string) {
    a != b && b != c && a != c
  }

  lemma ArcSnoc(arcs: seq<Arc>, x: Arc, v: string)
    ensures Parents(arcs + [x], v) == Parents(arcs, v) + if x.to == v then [x.from] else []
    ensures Children(arcs + [x], v) == Children(arcs, v) + if x.from == v then [x.to] else []
  {
    assert (arcs + [x])[..|arcs|] == arcs;
  }

  lemma KnotNeighbours(a: string, b: string, c: string, v: string)
    requires Three(a, b, c)
    ensures var arcs := Knot(a, b, c).arcs;
      && Parents(arcs, v) == (if v == a then [a] else if v == b then [c, c] else if v == c then [a, a, b] else [])
      && Children(arcs, v) == (if v == a then [a, c, c] else if v == b then [c] else if v == c then [b, b] else [])
  {
    hide Parents, Children;
    var x1, x2, x3, x4 := Arc(a, a), Arc(a, c), Arc(b, c), Arc(c, b);
    assert Parents([], v) == [] && Children([], v) == [] by { NoArcs(v); }
    assert [] + [x1] == [x1] && [x1] + [x2] == [x1, x2] && [x1, x2] + [x2] == [x1, x2, x2];
    assert [x1, x2, x2] + [x3] == [x1, x2, x2, x3] && [x1, x2, x2, x3] + [x4] == [x1, x2, x2, x3, x4];
    assert [x1, x2, x2, x3, x4] + [x4] == Knot(a, b, c).arcs;
    ArcSnoc([], x1, v);
    ArcSnoc([x1], x2, v);
    ArcSnoc([x1, x2], x2, v);
    ArcSnoc([x1, x2, x2], x3, v);
    ArcSnoc([x1, x2, x2, x3], x4, v);
    ArcSnoc([x1, x2, x2, x3, x4], x4, v);
  }

  lemma NoArcs(v: string)
    ensures Parents([], v) == [] && Children([], v) == []
  {}

  lemma VisitOne(s: State, x: string, rank: nat)
    ensures RelaxAll(s, [x], rank) == Relax(s, x, rank)
  {
    assert [x][..0] == [];
  }

  lemma VisitTwice(s: State, x: string, rank: nat)
    ensures RelaxAll(s, [x, x], rank) == Relax(Relax(s, x, rank), x, rank)
  {
    assert [x, x][..1] == [x];
    VisitOne(s, x, rank);
  }

  /** What counts of a state, the firings aside. */
  ghost predicate Is(s: State, ranks: map<string, nat>, waiting: map<string, nat>, queue: seq<string>) {
    s.ranks == ranks && s.waiting == waiting && s.queue == queue
  }

  lemma DegreesOfKnot(a: string, b: string, c: string)
    requires Three(a, b, c)
    ensures var arcs := Knot(a, b, c).arcs;
      |Parents(arcs, a)| == 1 && |Parents(arcs, b)| == 2 && |Parents(arcs, c)| == 3
  {
    hide Parents;
    KnotNeighbours(a, b, c, a);
    KnotNeighbours(a, b, c, b);
    KnotNeighbours(a, b, c, c);
  }

  lemma KnotStart(a: string, b: string, c: string)
    requires Three(a, b, c)
    ensures Is(Run(Knot(a, b, c), 0), map[b := 0, c := 0], map[a := 1, b := 2, c := 3], [b, c])
  {
    DegreesOfKnot(a, b, c);
    hide Parents;
    var f := Knot(a, b, c);
    var s := Initial(f);
    assert forall v :: v in f.ids <==> v == a || v == b || v == c;
    assert s.waiting == map[a := 1, b := 2, c := 3];
    assert s.ranks == map[b := 0, c := 0];
  }

  /** The node at the head of the queue visits its children. */
  lemma KnotStep(a: string, b: string, c: string, n: nat)
    requires Three(a, b, c) && Run(Knot(a, b, c), n).queue != []
    ensures var s := Run(Knot(a, b, c), n);
      var u, rank := s.queue[0], RankOf(s.ranks, s.queue[0]);
      && (u == b ==> Run(Knot(a, b, c), n + 1) == Relax(Dequeue(s), c, rank))
      && (u == c ==> Run(Knot(a, b, c), n + 1) == Relax(Relax(Dequeue(s), b, rank), b, rank))
  {
    hide Relax, Dequeue, Children;
    var s := Run(Knot(a, b, c), n);
    KnotNeighbours(a, b, c, s.queue[0]);
    VisitOne(Dequeue(s), c, RankOf(s.ranks, s.queue[0]));
    VisitTwice(Dequeue(s), b, RankOf(s.ranks, s.queue[0]));
  }

  lemma KnotFirst(a: string, b: string, c: string)
    requires Three(a, b, c)
    ensures Is(Run(Knot(a, b, c), 1), map[b := 0, c := 1], map[a := 1, b := 2, c := 2], [c])
  {
    hide Run;
    KnotStart(a, b, c);
    KnotStep(a, b, c, 0);
    var s := Run(Knot(a, b, c), 0);
    assert s.ranks[c := 1] == map[b := 0, c := 1];
    assert s.waiting[c := 2] == map[a := 1, b := 2, c := 2];
  }

  lemma FirstVisit(s: State, a: string, b: string, c: string)
    requires Three(a, b, c) && Is(s, map[b := 0, c := 1], map[a := 1, b := 2, c := 2], [])
    ensures Is(Relax(s, b, 1), map[b := 2, c := 1], map[a := 1, b := 1, c := 2], [])
  {}

  lemma SecondVisit(s: State, a: string, b: string, c: string)
    requires Three(a, b, c) && Is(s, map[b := 2, c := 1], map[a := 1, b := 1, c := 2], [])
    ensures Is(Relax(s, b, 1), map[b := 2, c := 1], map[a := 1, b := 0, c := 2], [b])
  {}

  lemma KnotSecond(a: string, b: string, c: string)
    requires Three(a, b, c)
    ensures Is(Run(Knot(a, b, c), 2), map[b := 2, c := 1], map[a := 1, b := 0, c := 2], [b])
  {
    hide Run, Relax;
    KnotFirst(a, b, c);
    KnotStep(a, b, c, 1);
    var d := Dequeue(Run(Knot(a, b, c), 1));
    FirstVisit(d, a, b, c);
    SecondVisit(Relax(d, b, 1), a, b, c);
  }

  lemma LastVisit(s: State, a: string, b: string, c: string)
    requires Three(a, b, c) && Is(s, map[b := 2, c := 1], map[a := 1, b := 0, c := 2], [])
    ensures Is(Relax(s, c, 2), map[b := 2, c := 3], map[a := 1, b := 0, c := 1], [])
  {}

  lemma KnotThird(a: string, b: string, c: string)
    requires Three(a, b, c)
    ensures Is(Run(Knot(a, b, c), 3), map[b := 2, c := 3], map[a := 1, b := 0, c := 1], [])
  {
    hide Run, Relax;
    KnotSecond(a, b, c);
    KnotStep(a, b, c, 2);
    LastVisit(Dequeue(Run(Knot(a, b, c), 2)), a, b, c);
  }

  lemma KnotWellFormed(a: string, b: string, c: string)
    requires Three(a, b, c)
    ensures WellFormed(Knot(a, b, c))
  {
    DegreesOfKnot(a, b, c);
    hide Parents;
  }

  lemma KnotEnds(a: string, b: string, c: string)
    requires Three(a, b, c)
    ensures var f := Knot(a, b, c); Halts(f) && FinalRanks(f) == map[b := 2, c := 3]
  {
    hide Run;
    var f := Knot(a, b, c);
    KnotThird(a, b, c);
    var n := FinalIsRun(f);
    if n <= 3 { HaltsOnce(f, n, 3); } else { HaltsOnce(f, 3, n); }
  }

  /** The loop ends, and leaves a node with a rank as large as the number of nodes. */
  lemma RankBeyondNodes(a: string, b: string, c: string)
    requires Three(a, b, c)
    ensures var f := Knot(a, b, c);
      && WellFormed(f) && Halts(f) && !SeedsAvoidCycles(f)
      && c in LayoutRank(f) && LayoutRank(f)[c] == |Elements(f.ids)|
  {
    hide WellFormed, Halts, SeedsAvoidCycles, Grounded;
    var f := Knot(a, b, c);
    KnotWellFormed(a, b, c);
    KnotEnds(a, b, c);
    FinalGrounded(f);
    PlaceGrounded(f.ids, f.arcs, FinalRanks(f), SeedsAvoidCycles(f));
    assert Elements(f.ids) == {a, b, c};
    if SeedsAvoidCycles(f) {
      RanksAlongSimpleWalks(f, c);
    }
  }
}
