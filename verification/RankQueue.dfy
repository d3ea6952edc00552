/**
 The rank phase of the automatic layout: a queue of nodes, a counter of
 unanswered incoming arcs per node, and a rank that only grows. A seed may have
 incoming arcs, so a node can leave the queue more than once.
 */
module RankQueue {
  import opened Basics
  import opened Graphs

  /** What the rank phase reads: node ids, arcs between them, and the seeds in queue order. */
  datatype Flow = Flow(ids: seq<string>, arcs: seq<Arc>, seeds: seq<string>)

  /** `fired` is a history variable: how often each node has left the queue. */
  datatype State = State(ranks: map<string, nat>, waiting: map<string, nat>, queue: seq<string>,
      fired: map<string, nat>)

  ghost predicate WellFormed(f: Flow) {
    && EndsIn(f.arcs, f.ids)
    && Distinct(f.seeds)
    && (forall v :: v in f.seeds ==> v in f.ids)
    && (forall v :: v in f.ids && Parents(f.arcs, v) == [] ==> v in f.seeds)
  }

  function Parents(arcs: seq<Arc>, v: string): seq<string> {
    if arcs == [] then [] else
      var last := arcs[|arcs| - 1];
      Parents(arcs[..|arcs| - 1], v) + if last.to == v then [last.from] else []
  }

  function Children(arcs: seq<Arc>, u: string): seq<string> {
    if arcs == [] then [] else
      var last := arcs[|arcs| - 1];
      Children(arcs[..|arcs| - 1], u) + if last.from == u then [last.to] else []
  }

  // ---- the queue as a step machine ----------------------------------------

  function Initial(f: Flow): State {
    State(map v | v in f.seeds :: 0, map v | v in f.ids :: |Parents(f.arcs, v)|, f.seeds, map[])
  }

  function Relax(s: State, child: string, rank: nat): State {
    var raised := if child in s.ranks && s.ranks[child] > rank + 1 then s.ranks[child] else rank + 1;
    var ranked := s.(ranks := s.ranks[child := raised]);
    if child !in s.waiting then ranked else
      var left := if s.waiting[child] == 0 then 0 else s.waiting[child] - 1;
      ranked.(waiting := s.waiting[child := left], queue := if left == 0 then s.queue + [child] else s.queue)
  }

  function RelaxAll(s: State, children: seq<string>, rank: nat): State {
    if children == [] then s else
      Relax(RelaxAll(s, children[..|children| - 1], rank), children[|children| - 1], rank)
  }

  function Times(fired: map<string, nat>, v: string): nat {
    if v in fired then fired[v] else 0
  }

  function RankOf(ranks: map<string, nat>, v: string): nat {
    if v in ranks then ranks[v] else 0
  }

  function Dequeue(s: State): State
    requires s.queue != []
  {
    var u := s.queue[0];
    s.(queue := s.queue[1..], fired := s.fired[u := Times(s.fired, u) + 1])
  }

  function Step(f: Flow, s: State): State {
    if s.queue == [] then s else
      RelaxAll(Dequeue(s), Children(f.arcs, s.queue[0]), RankOf(s.ranks, s.queue[0]))
  }

  function Run(f: Flow, n: nat): State {
    if n == 0 then Initial(f) else Step(f, Run(f, n - 1))
  }

  /** The loop ends: some number of steps empties the queue. */
  ghost predicate Halts(f: Flow) {
    exists n :: Run(f, n).queue == []
  }

  // ---- counting -----------------------------------------------------------

  /** How often an arc into `v` has been followed, given how often each node fired. */
  function Hits(arcs: seq<Arc>, fired: map<string, nat>, v: string): nat {
    if arcs == [] then 0 else
      var last := arcs[|arcs| - 1];
      Hits(arcs[..|arcs| - 1], fired, v) + if last.to == v then Times(fired, last.from) else 0
  }

  lemma {:induction false} ParentsAreArcs(arcs: seq<Arc>, v: string, u: string)
    ensures u in Parents(arcs, v) <==> Arc(u, v) in arcs
  {
    if arcs != [] {
      var last := arcs[|arcs| - 1];
      ParentsAreArcs(arcs[..|arcs| - 1], v, u);
      assert arcs == arcs[..|arcs| - 1] + [last];
    }
  }

  lemma {:induction false} ChildrenAreArcs(arcs: seq<Arc>, u: string, v: string)
    ensures v in Children(arcs, u) <==> Arc(u, v) in arcs
  {
    if arcs != [] {
      var last := arcs[|arcs| - 1];
      ChildrenAreArcs(arcs[..|arcs| - 1], u, v);
      assert arcs == arcs[..|arcs| - 1] + [last];
    }
  }

  lemma {:induction false} HitsNone(arcs: seq<Arc>, v: string)
    ensures Hits(arcs, map[], v) == 0
  {
    if arcs != [] { HitsNone(arcs[..|arcs| - 1], v); }
  }

  lemma {:induction false} HitsBump(arcs: seq<Arc>, fired: map<string, nat>, u: string, v: string)
    ensures Hits(arcs, fired[u := Times(fired, u) + 1], v)
         == Hits(arcs, fired, v) + multiset(Children(arcs, u))[v]
  {
    if arcs != [] { HitsBump(arcs[..|arcs| - 1], fired, u, v); }
  }

  lemma {:induction false} HitsMonotone(arcs: seq<Arc>, a: map<string, nat>, b: map<string, nat>, v: string)
    requires forall x :: x in arcs && x.to == v ==> Times(a, x.from) <= Times(b, x.from)
    ensures Hits(arcs, a, v) <= Hits(arcs, b, v)
  {
    if arcs != [] {
      var rest := arcs[..|arcs| - 1];
      assert forall x :: x in rest ==> x in arcs;
      HitsMonotone(rest, a, b, v);
    }
  }

  lemma {:induction false} HitsAtLeast(arcs: seq<Arc>, fired: map<string, nat>, v: string)
    requires forall x :: x in arcs && x.to == v ==> Times(fired, x.from) >= 1
    ensures Hits(arcs, fired, v) >= |Parents(arcs, v)|
  {
    if arcs != [] {
      var rest := arcs[..|arcs| - 1];
      assert forall x :: x in rest ==> x in arcs;
      HitsAtLeast(rest, fired, v);
    }
  }

  lemma {:induction false} HitsAtMost(arcs: seq<Arc>, fired: map<string, nat>, v: string)
    requires forall x :: x in arcs && x.to == v ==> Times(fired, x.from) <= 1
    ensures Hits(arcs, fired, v) <= |Parents(arcs, v)|
  {
    if arcs != [] {
      var rest := arcs[..|arcs| - 1];
      assert forall x :: x in rest ==> x in arcs;
      HitsAtMost(rest, fired, v);
    }
  }

  /** How often `v` is queued once `hits` arcs into it have been followed. */
  function Demand(f: Flow, v: string, hits: nat): nat {
    var degree := |Parents(f.arcs, v)|;
    (if v in f.seeds then 1 else 0) + if degree > 0 && hits >= degree then hits - degree + 1 else 0
  }

  function Followed(f: Flow, base: map<string, nat>, done: seq<string>, v: string): nat {
    Hits(f.arcs, base, v) + multiset(done)[v]
  }

  /** The counters agree with what has been followed: whole firings in `base`, then `done`. */
  ghost predicate Counted(f: Flow, s: State, base: map<string, nat>, done: seq<string>) {
    forall v :: v in f.ids ==> CountedAt(f, s, Followed(f, base, done, v), v)
  }

  ghost predicate CountedAt(f: Flow, s: State, hits: nat, v: string) {
    var degree := |Parents(f.arcs, v)|;
    && v in s.waiting && s.waiting[v] == (if hits >= degree then 0 else degree - hits)
    && Times(s.fired, v) + multiset(s.queue)[v] == Demand(f, v, hits)
  }

  ghost predicate Inside(f: Flow, s: State) {
    && (forall v :: v in s.queue ==> v in s.ranks)
    && (forall v :: v in s.ranks ==> v in f.ids)
    && (forall v :: v in s.fired ==> v in s.ranks && s.fired[v] >= 1)
    && s.waiting.Keys == Elements(f.ids)
  }

  /** A node that has fired and is neither queued nor waiting has pushed its children past it. */
  ghost predicate Settled(f: Flow, s: State, u: string) {
    || u in s.queue
    || (u in s.waiting && s.waiting[u] > 0)
    || (forall v :: Arc(u, v) in f.arcs ==> v in s.ranks && s.ranks[v] > RankOf(s.ranks, u))
  }

  ghost predicate RanksAreWalks(f: Flow, s: State) {
    forall v :: v in s.ranks ==> HasWalk(f.arcs, v, s.ranks[v])
  }

  ghost predicate AllSettled(f: Flow, s: State, except: set<string>) {
    forall u :: u in s.fired && u !in except ==> Settled(f, s, u)
  }

  ghost predicate Invariant(f: Flow, s: State) {
    && Inside(f, s)
    && Counted(f, s, s.fired, [])
    && RanksAreWalks(f, s)
    && AllSettled(f, s, {})
  }

  /** The invariant while the children of `u`, which left the queue with rank `rank`, are visited. */
  ghost predicate Midway(f: Flow, s: State, base: map<string, nat>, u: string, rank: nat, done: seq<string>) {
    && Inside(f, s)
    && s.fired == base[u := Times(base, u) + 1]
    && Counted(f, s, base, done)
    && RanksAreWalks(f, s)
    && AllSettled(f, s, {u})
    && Raised(s, u, rank, done)
  }

  ghost predicate Raised(s: State, u: string, rank: nat, done: seq<string>) {
    && (u in s.queue || (u in s.waiting && s.waiting[u] > 0) || RankOf(s.ranks, u) == rank)
    && (forall c :: c in done ==> c in s.ranks && s.ranks[c] > rank)
  }

  lemma RelaxInside(f: Flow, s: State, c: string, rank: nat)
    requires Inside(f, s) && c in f.ids
    ensures Inside(f, Relax(s, c, rank))
  {}

  lemma RelaxCountedAt(f: Flow, s: State, c: string, rank: nat, hits: nat, v: string)
    requires CountedAt(f, s, hits, v) && c in s.waiting
    requires v == c ==> Parents(f.arcs, v) != []
    ensures CountedAt(f, Relax(s, c, rank), if v == c then hits + 1 else hits, v)
  {}

  lemma RelaxCounted(f: Flow, s: State, base: map<string, nat>, u: string, rank: nat, done: seq<string>, c: string)
    requires c in s.waiting && Counted(f, s, base, done) && Arc(u, c) in f.arcs
    ensures Counted(f, Relax(s, c, rank), base, done + [c])
  {
    hide Hits, Parents;
    ParentsAreArcs(f.arcs, c, u);
    forall v | v in f.ids
      ensures CountedAt(f, Relax(s, c, rank), Followed(f, base, done + [c], v), v)
    {
      RelaxCountedAt(f, s, c, rank, Followed(f, base, done, v), v);
    }
  }

  lemma RelaxSettled(f: Flow, s: State, c: string, rank: nat, u: string)
    requires Settled(f, s, u) && c in s.waiting
    ensures Settled(f, Relax(s, c, rank), u)
  {
    var t := Relax(s, c, rank);
    if u != c && u !in s.queue && !(u in s.waiting && s.waiting[u] > 0) {
      forall v | Arc(u, v) in f.arcs ensures v in t.ranks && t.ranks[v] > RankOf(t.ranks, u) {}
    }
  }

  lemma RelaxAllSettled(f: Flow, s: State, c: string, rank: nat, except: set<string>)
    requires AllSettled(f, s, except) && c in s.waiting
    ensures AllSettled(f, Relax(s, c, rank), except)
  {
    var t := Relax(s, c, rank);
    forall x | x in t.fired && x !in except ensures Settled(f, t, x) {
      RelaxSettled(f, s, c, rank, x);
    }
  }

  lemma RelaxWalks(f: Flow, s: State, u: string, c: string, rank: nat)
    requires RanksAreWalks(f, s) && Arc(u, c) in f.arcs && HasWalk(f.arcs, u, rank)
    ensures RanksAreWalks(f, Relax(s, c, rank))
  {
    HasWalkExtends(f.arcs, u, c, rank);
  }

  lemma RelaxMidway(f: Flow, s: State, base: map<string, nat>, u: string, rank: nat, done: seq<string>, c: string)
    requires WellFormed(f) && Midway(f, s, base, u, rank, done)
    requires Arc(u, c) in f.arcs && HasWalk(f.arcs, u, rank)
    ensures Midway(f, Relax(s, c, rank), base, u, rank, done + [c])
  {
    hide Counted, RanksAreWalks, AllSettled;
    assert c in f.ids;
    RelaxInside(f, s, c, rank);
    RelaxCounted(f, s, base, u, rank, done, c);
    RelaxWalks(f, s, u, c, rank);
    RelaxAllSettled(f, s, c, rank, {u});
    assert Raised(Relax(s, c, rank), u, rank, done + [c]);
  }

  lemma {:induction false} RelaxAllMidway(f: Flow, s: State, base: map<string, nat>, u: string, rank: nat,
      children: seq<string>)
    requires WellFormed(f) && Midway(f, s, base, u, rank, []) && HasWalk(f.arcs, u, rank)
    requires forall c :: c in children ==> Arc(u, c) in f.arcs
    ensures Midway(f, RelaxAll(s, children, rank), base, u, rank, children)
  {
    if children != [] {
      var rest, c := children[..|children| - 1], children[|children| - 1];
      assert rest + [c] == children;
      RelaxAllMidway(f, s, base, u, rank, rest);
      RelaxMidway(f, RelaxAll(s, rest, rank), base, u, rank, rest, c);
    }
  }

  lemma InitialInvariant(f: Flow)
    requires WellFormed(f)
    ensures Invariant(f, Initial(f))
  {
    var s := Initial(f);
    forall v | v in f.ids ensures CountedAt(f, s, Followed(f, s.fired, [], v), v) {
      HitsNone(f.arcs, v);
      DistinctCount(f.seeds, v);
    }
    forall v | v in s.ranks ensures HasWalk(f.arcs, v, s.ranks[v]) {
      assert WalkTo(f.arcs, [v], v);
    }
  }

  lemma {:induction false} DistinctCount(s: seq<string>, v: string)
    requires Distinct(s)
    ensures multiset(s)[v] == if v in s then 1 else 0
  {
    if s != [] {
      assert s == [s[0]] + s[1..];
      DistinctCount(s[1..], v);
    }
  }

  lemma StepInvariant(f: Flow, s: State)
    requires WellFormed(f) && Invariant(f, s)
    ensures Invariant(f, Step(f, s))
  {
    if s.queue != [] {
      var u, rank := s.queue[0], RankOf(s.ranks, s.queue[0]);
      var children := Children(f.arcs, u);
      forall c | c in children ensures Arc(u, c) in f.arcs { ChildrenAreArcs(f.arcs, u, c); }
      DequeueMidway(f, s);
      RelaxAllMidway(f, Dequeue(s), s.fired, u, rank, children);
      MidwayDone(f, RelaxAll(Dequeue(s), children, rank), s.fired, u, rank);
    }
  }

  lemma DequeueCounted(f: Flow, s: State)
    requires Counted(f, s, s.fired, []) && s.queue != []
    ensures Counted(f, Dequeue(s), s.fired, [])
  {
    var t := Dequeue(s);
    assert s.queue == [s.queue[0]] + t.queue;
    assert multiset(s.queue) == multiset{s.queue[0]} + multiset(t.queue);
    forall v | v in f.ids ensures CountedAt(f, t, Followed(f, s.fired, [], v), v) {
      assert CountedAt(f, s, Followed(f, s.fired, [], v), v);
    }
  }

  lemma DequeueInside(f: Flow, s: State)
    requires Inside(f, s) && s.queue != []
    ensures Inside(f, Dequeue(s))
  {}

  lemma DequeueSettled(f: Flow, s: State)
    requires AllSettled(f, s, {}) && s.queue != []
    ensures AllSettled(f, Dequeue(s), {s.queue[0]})
  {
    var u, t := s.queue[0], Dequeue(s);
    forall x | x in t.fired && x != u ensures Settled(f, t, x) {
      assert Settled(f, s, x);
      assert x in s.queue ==> x in t.queue;
    }
  }

  lemma DequeueMidway(f: Flow, s: State)
    requires Invariant(f, s) && s.queue != []
    ensures Midway(f, Dequeue(s), s.fired, s.queue[0], RankOf(s.ranks, s.queue[0]), [])
  {
    hide Inside, Counted, AllSettled, Times;
    DequeueInside(f, s);
    DequeueCounted(f, s);
    DequeueSettled(f, s);
    assert Raised(Dequeue(s), s.queue[0], RankOf(s.ranks, s.queue[0]), []);
  }

  /** Following all the arcs out of a node is one more firing of it. */
  lemma FollowedOnceMore(f: Flow, base: map<string, nat>, u: string, v: string)
    ensures Followed(f, base[u := Times(base, u) + 1], [], v) == Followed(f, base, Children(f.arcs, u), v)
  {
    hide Hits, Children, Times;
    HitsBump(f.arcs, base, u, v);
  }

  lemma CountedOnceMore(f: Flow, s: State, base: map<string, nat>, u: string)
    requires Counted(f, s, base, Children(f.arcs, u))
    ensures Counted(f, s, base[u := Times(base, u) + 1], [])
  {
    hide CountedAt, Followed;
    forall v | v in f.ids ensures CountedAt(f, s, Followed(f, base[u := Times(base, u) + 1], [], v), v) {
      FollowedOnceMore(f, base, u, v);
    }
  }

  lemma RaisedSettles(f: Flow, s: State, u: string, rank: nat)
    requires AllSettled(f, s, {u}) && Raised(s, u, rank, Children(f.arcs, u))
    ensures AllSettled(f, s, {})
  {
    hide Children;
    forall v | Arc(u, v) in f.arcs ensures v in s.ranks && s.ranks[v] > rank {
      ChildrenAreArcs(f.arcs, u, v);
    }
    assert Settled(f, s, u);
  }

  lemma MidwayDone(f: Flow, s: State, base: map<string, nat>, u: string, rank: nat)
    requires WellFormed(f) && Midway(f, s, base, u, rank, Children(f.arcs, u))
    ensures Invariant(f, s)
  {
    hide WellFormed, Inside, Counted, AllSettled, Raised, RanksAreWalks;
    CountedOnceMore(f, s, base, u);
    RaisedSettles(f, s, u, rank);
  }

  lemma {:induction false} RunInvariant(f: Flow, n: nat)
    requires WellFormed(f)
    ensures Invariant(f, Run(f, n))
  {
    if n == 0 {
      InitialInvariant(f);
    } else {
      RunInvariant(f, n - 1);
      StepInvariant(f, Run(f, n - 1));
    }
  }
}
