/**
 When the rank queue runs dry, and what the ranks mean when it has: the exact
 condition for termination, longest-path ranks on acyclic graphs, and ranks
 along simple paths when no seed has an incoming arc.
 */
module RankTheorems {
  import opened Basics
  import opened Graphs
  import opened RankQueue

  // ---- termination --------------------------------------------------------

  /**
   A budget gives every node a number of firings that its own demand never
   exceeds, as long as its parents keep to theirs. It is checked arc by arc.
   */
  ghost predicate IsBudget(f: Flow, b: map<string, nat>) {
    forall v :: v in f.ids ==> v in b && b[v] >= Demand(f, v, Hits(f.arcs, b, v))
  }

  ghost predicate Within(f: Flow, s: State, b: map<string, nat>) {
    forall v :: Times(s.fired, v) <= Times(b, v)
  }

  function Total(ids: seq<string>, m: map<string, nat>): nat {
    if ids == [] then 0 else Times(m, ids[0]) + Total(ids[1..], m)
  }

  lemma {:induction false} TotalMonotone(ids: seq<string>, a: map<string, nat>, b: map<string, nat>)
    requires forall v :: Times(a, v) <= Times(b, v)
    ensures Total(ids, a) <= Total(ids, b)
  {
    if ids != [] { TotalMonotone(ids[1..], a, b); }
  }

  lemma {:induction false} TotalGrows(ids: seq<string>, a: map<string, nat>, u: string)
    requires u in ids
    ensures Total(ids, a[u := Times(a, u) + 1]) >= Total(ids, a) + 1
  {
    if ids[0] == u {
      TotalMonotone(ids[1..], a, a[u := Times(a, u) + 1]);
    } else {
      TotalGrows(ids[1..], a, u);
    }
  }

  lemma DemandMonotone(f: Flow, v: string, h: nat, k: nat)
    requires h <= k
    ensures Demand(f, v, h) <= Demand(f, v, k)
  {}

  /** What has fired or is queued stays within a budget. */
  lemma QueueWithin(f: Flow, s: State, b: map<string, nat>, v: string)
    requires Invariant(f, s) && IsBudget(f, b) && Within(f, s, b) && v in f.ids
    ensures Times(s.fired, v) + multiset(s.queue)[v] <= b[v]
  {
    assert CountedAt(f, s, Followed(f, s.fired, [], v), v);
    HitsMonotone(f.arcs, s.fired, b, v);
    DemandMonotone(f, v, Followed(f, s.fired, [], v), Hits(f.arcs, b, v));
  }

  lemma {:induction false} RelaxAllFired(s: State, children: seq<string>, rank: nat)
    ensures RelaxAll(s, children, rank).fired == s.fired
  {
    if children != [] { RelaxAllFired(s, children[..|children| - 1], rank); }
  }

  lemma StepFired(f: Flow, s: State)
    requires s.queue != []
    ensures Step(f, s).fired == s.fired[s.queue[0] := Times(s.fired, s.queue[0]) + 1]
  {
    RelaxAllFired(Dequeue(s), Children(f.arcs, s.queue[0]), RankOf(s.ranks, s.queue[0]));
  }

  lemma NothingFired(f: Flow, b: map<string, nat>)
    ensures Within(f, Initial(f), b)
  {}

  lemma EmptyStep(f: Flow, s: State)
    requires s.queue == []
    ensures Step(f, s) == s
  {}

  lemma FiringWithin(f: Flow, s: State, t: State, b: map<string, nat>)
    requires Within(f, s, b) && s.queue != [] && t.fired == s.fired[s.queue[0] := Times(s.fired, s.queue[0]) + 1]
    requires Times(s.fired, s.queue[0]) + multiset(s.queue)[s.queue[0]] <= Times(b, s.queue[0])
    ensures Within(f, t, b)
  {
    assert s.queue[0] in s.queue;
  }

  lemma QueueHead(f: Flow, n: nat)
    requires WellFormed(f) && Run(f, n).queue != []
    ensures Run(f, n).queue[0] in f.ids && Invariant(f, Run(f, n))
  {
    hide WellFormed, Counted, RanksAreWalks, AllSettled;
    RunInvariant(f, n);
  }

  lemma {:induction false} RunWithin(f: Flow, b: map<string, nat>, n: nat)
    requires WellFormed(f) && IsBudget(f, b)
    ensures Within(f, Run(f, n), b)
  {
    hide WellFormed, Invariant, Step, Initial;
    if n == 0 {
      NothingFired(f, b);
    } else {
      var s := Run(f, n - 1);
      RunWithin(f, b, n - 1);
      if s.queue != [] {
        QueueHead(f, n - 1);
        StepFired(f, s);
        QueueWithin(f, s, b, s.queue[0]);
        FiringWithin(f, s, Step(f, s), b);
      } else {
        EmptyStep(f, s);
      }
    }
  }

  lemma StepAdvances(f: Flow, s: State)
    requires s.queue != [] && s.queue[0] in f.ids
    ensures Total(f.ids, Step(f, s).fired) >= Total(f.ids, s.fired) + 1
  {
    hide Step, Total, Times;
    StepFired(f, s);
    TotalGrows(f.ids, s.fired, s.queue[0]);
  }

  lemma RunAdvancesOnce(f: Flow, n: nat)
    requires WellFormed(f) && Run(f, n + 1).queue != []
    ensures Run(f, n).queue != []
    ensures Total(f.ids, Run(f, n + 1).fired) >= Total(f.ids, Run(f, n).fired) + 1
  {
    hide WellFormed, Total, Invariant, Step;
    if Run(f, n).queue == [] {
      EmptyStep(f, Run(f, n));
    }
    QueueHead(f, n);
    StepAdvances(f, Run(f, n));
  }

  lemma {:induction false} RunAdvances(f: Flow, n: nat)
    requires WellFormed(f) && Run(f, n).queue != []
    ensures Total(f.ids, Run(f, n).fired) >= n
  {
    hide WellFormed, Step, Total;
    if n > 0 {
      RunAdvancesOnce(f, n - 1);
      RunAdvances(f, n - 1);
    }
  }

  /** The rank loop ends exactly when the graph has a budget. */
  lemma HaltsIffBudget(f: Flow)
    requires WellFormed(f)
    ensures Halts(f) <==> exists b :: IsBudget(f, b)
  {
    if Halts(f) {
      var n :| Run(f, n).queue == [];
      RunInvariant(f, n);
      FiringsAreBudget(f, Run(f, n));
    }
    if b :| IsBudget(f, b) {
      var n := Total(f.ids, b) + 1;
      RunWithin(f, b, n);
      TotalMonotone(f.ids, Run(f, n).fired, b);
      if Run(f, n).queue != [] {
        RunAdvances(f, n);
      }
    }
  }

  /** How often each node has fired. */
  function Firings(f: Flow, s: State): map<string, nat> {
    map v | v in f.ids :: Times(s.fired, v)
  }

  lemma FiringsAreBudget(f: Flow, s: State)
    requires Invariant(f, s) && s.queue == []
    ensures IsBudget(f, Firings(f, s))
  {
    var b := Firings(f, s);
    forall v | v in f.ids ensures b[v] >= Demand(f, v, Hits(f.arcs, b, v)) {
      assert CountedAt(f, s, Followed(f, s.fired, [], v), v);
      HitsMonotone(f.arcs, b, s.fired, v);
      DemandMonotone(f, v, Hits(f.arcs, b, v), Followed(f, s.fired, [], v));
    }
  }

  /** However many steps it took, the loop ends in one state. */
  lemma {:induction false} HaltsOnce(f: Flow, m: nat, n: nat)
    requires m <= n && Run(f, m).queue == []
    ensures Run(f, n) == Run(f, m)
  {
    if m < n { HaltsOnce(f, m, n - 1); }
  }

  /** No seed has an incoming arc. */
  ghost predicate SeedsAreRoots(f: Flow) {
    forall v :: v in f.seeds ==> Parents(f.arcs, v) == []
  }

  function Ones(f: Flow): map<string, nat> {
    map v | v in f.ids :: 1
  }

  lemma OnesAreBudget(f: Flow)
    requires WellFormed(f) && SeedsAreRoots(f)
    ensures IsBudget(f, Ones(f))
  {
    forall v | v in f.ids ensures Ones(f)[v] >= Demand(f, v, Hits(f.arcs, Ones(f), v)) {
      HitsAtMost(f.arcs, Ones(f), v);
    }
  }

  /** The arcs that stay inside `zone`. */
  function Zone(arcs: seq<Arc>, zone: set<string>): (r: seq<Arc>)
    ensures forall x :: x in r <==> x in arcs && x.from in zone && x.to in zone
  {
    if arcs == [] then [] else
      var last := arcs[|arcs| - 1];
      assert arcs == arcs[..|arcs| - 1] + [last];
      Zone(arcs[..|arcs| - 1], zone) + if last.from in zone && last.to in zone then [last] else []
  }

  /** One firing outside `zone`; inside, one more than the arcs that are followed. */
  function Allowance(f: Flow, zone: set<string>, n: nat): (r: map<string, nat>)
    ensures r.Keys == Elements(f.ids)
  {
    map v | v in f.ids :: if n == 0 || v !in zone then 1 else 1 + Hits(f.arcs, Allowance(f, zone, n - 1), v)
  }

  ghost predicate Shallow(arcs: seq<Arc>, v: string, n: nat) {
    forall p :: WalkTo(arcs, p, v) ==> |p| <= n
  }

  lemma ShallowParent(arcs: seq<Arc>, u: string, v: string, n: nat)
    requires Shallow(arcs, v, n) && Arc(u, v) in arcs
    ensures n > 0 && Shallow(arcs, u, n - 1)
  {
    assert WalkTo(arcs, [v], v);
    forall p | WalkTo(arcs, p, u) ensures |p| <= n - 1 {
      WalkExtends(arcs, p, u, v);
    }
  }

  ghost predicate AgreeAt(f: Flow, zone: set<string>, n: nat, v: string) {
    Times(Allowance(f, zone, n), v) == Times(Allowance(f, zone, n + 1), v)
  }

  ghost predicate Agree(f: Flow, zone: set<string>, n: nat) {
    forall v :: v in f.ids && (v !in zone || Shallow(Zone(f.arcs, zone), v, n)) ==> AgreeAt(f, zone, n, v)
  }

  lemma NothingShallow(arcs: seq<Arc>)
    ensures forall v :: !Shallow(arcs, v, 0)
  {
    forall v ensures !Shallow(arcs, v, 0) {
      assert WalkTo(arcs, [v], v);
    }
  }

  lemma AgreeStep(f: Flow, zone: set<string>, n: nat, v: string)
    requires WellFormed(f) && Agree(f, zone, n) && v in f.ids && Shallow(Zone(f.arcs, zone), v, n + 1)
    ensures AgreeAt(f, zone, n + 1, v)
  {
    if v in zone {
      forall x | x in f.arcs && x.to == v ensures AgreeAt(f, zone, n, x.from) {
        if x.from in zone {
          ShallowParents(Zone(f.arcs, zone), v, n + 1);
        }
      }
      HitsAgree(f.arcs, Allowance(f, zone, n), Allowance(f, zone, n + 1), v);
    }
  }

  /** Allowances stop changing once every walk to the node has been accounted for. */
  lemma {:induction false} AllowanceSettles(f: Flow, zone: set<string>, n: nat)
    requires WellFormed(f)
    ensures Agree(f, zone, n)
  {
    hide WellFormed, Shallow;
    if n == 0 {
      NothingShallow(Zone(f.arcs, zone));
    } else {
      AllowanceSettles(f, zone, n - 1);
      forall v | v in f.ids && Shallow(Zone(f.arcs, zone), v, n) ensures AgreeAt(f, zone, n, v) {
        AgreeStep(f, zone, n - 1, v);
      }
    }
  }

  lemma ShallowParents(arcs: seq<Arc>, v: string, n: nat)
    requires Shallow(arcs, v, n)
    ensures n > 0 && forall x :: x in arcs && x.to == v ==> Shallow(arcs, x.from, n - 1)
  {
    assert WalkTo(arcs, [v], v);
    forall x | x in arcs && x.to == v ensures Shallow(arcs, x.from, n - 1) {
      assert Arc(x.from, v) == x;
      ShallowParent(arcs, x.from, v, n);
    }
  }

  lemma HitsAgree(arcs: seq<Arc>, a: map<string, nat>, b: map<string, nat>, v: string)
    requires forall x :: x in arcs && x.to == v ==> Times(a, x.from) == Times(b, x.from)
    ensures Hits(arcs, a, v) == Hits(arcs, b, v)
  {
    HitsMonotone(arcs, a, b, v);
    HitsMonotone(arcs, b, a, v);
  }

  ghost predicate Allows(f: Flow, zone: set<string>, b: map<string, nat>) {
    forall v :: v in f.ids ==> v in b && b[v] == if v in zone then 1 + Hits(f.arcs, b, v) else 1
  }

  /** A zone without cycles has an allowance. */
  lemma AcyclicZoneAllows(f: Flow, zone: set<string>)
    requires WellFormed(f) && Acyclic(Zone(f.arcs, zone))
    ensures Allows(f, zone, Allowance(f, zone, |Elements(f.ids)|))
  {
    var n := |Elements(f.ids)|;
    AllowanceSettles(f, zone, n);
    forall v | v in f.ids ensures AgreeAt(f, zone, n, v) {
      forall p | WalkTo(Zone(f.arcs, zone), p, v) ensures |p| <= n {
        WalkFits(Zone(f.arcs, zone), f.ids, p);
      }
      assert Shallow(Zone(f.arcs, zone), v, n);
    }
  }

  /** Some walk that starts at `s` ends in a node it has already been through. */
  ghost predicate LeadsToCycle(arcs: seq<Arc>, s: string) {
    exists p, i :: IsWalk(arcs, p) && p[0] == s && 0 <= i < |p| - 1 && p[i] == p[|p| - 1]
  }

  /** No seed with an incoming arc leads to a cycle. */
  ghost predicate SeedsAvoidCycles(f: Flow) {
    forall s :: s in f.seeds && Parents(f.arcs, s) != [] ==> !LeadsToCycle(f.arcs, s)
  }

  ghost predicate Reaches(arcs: seq<Arc>, s: string, v: string) {
    exists p :: WalkTo(arcs, p, v) && p[0] == s
  }

  lemma ReachesStep(arcs: seq<Arc>, s: string, u: string, v: string)
    requires Reaches(arcs, s, u) && Arc(u, v) in arcs
    ensures Reaches(arcs, s, v)
  {
    var p :| WalkTo(arcs, p, u) && p[0] == s;
    WalkExtends(arcs, p, u, v);
    assert (p + [v])[0] == s;
  }

  /** What the seeds with incoming arcs reach. */
  ghost predicate Fed(f: Flow, v: string) {
    exists s :: s in f.seeds && Parents(f.arcs, s) != [] && Reaches(f.arcs, s, v)
  }

  lemma {:induction false} JoinWalks(arcs: seq<Arc>, q: seq<string>, p: seq<string>)
    requires IsWalk(arcs, q) && IsWalk(arcs, p) && q[|q| - 1] == p[0]
    ensures IsWalk(arcs, q + p[1..])
  {
    var r := q + p[1..];
    forall i | 0 <= i < |r| - 1 ensures Arc(r[i], r[i + 1]) in arcs {
      if i < |q| - 1 {
        assert Arc(q[i], q[i + 1]) in arcs;
      } else {
        var j := i - |q| + 1;
        assert Arc(p[j], p[j + 1]) in arcs && r[i + 1] == p[j + 1];
        assert r[i] == p[j];
      }
    }
  }

  /** What a seed with an incoming arc reaches leads to no cycle either. */
  lemma FedLeadsNowhere(f: Flow, v: string)
    requires SeedsAvoidCycles(f) && Fed(f, v)
    ensures !LeadsToCycle(f.arcs, v)
  {
    var s :| s in f.seeds && Parents(f.arcs, s) != [] && Reaches(f.arcs, s, v);
    var q :| WalkTo(f.arcs, q, v) && q[0] == s;
    forall p, i: nat | IsWalk(f.arcs, p) && p[0] == v && i < |p| - 1 ensures p[i] != p[|p| - 1] {
      JoinWalks(f.arcs, q, p);
      var r := q + p[1..];
      assert r[|q| - 1 + i] == p[i] && r[|r| - 1] == p[|p| - 1] && r[0] == s;
    }
  }

  lemma FedZoneAcyclic(f: Flow, zone: set<string>)
    requires SeedsAvoidCycles(f) && forall v :: v in zone ==> Fed(f, v)
    ensures Acyclic(Zone(f.arcs, zone))
  {
    hide SeedsAvoidCycles, Fed;
    forall p | IsWalk(Zone(f.arcs, zone), p) && |p| > 1 ensures p[0] != p[|p| - 1] {
      assert Arc(p[0], p[0 + 1]) in Zone(f.arcs, zone);
      FedLeadsNowhere(f, p[0]);
      forall i | 0 <= i < |p| - 1 ensures Arc(p[i], p[i + 1]) in f.arcs {
        assert Arc(p[i], p[i + 1]) in Zone(f.arcs, zone);
      }
    }
  }

  lemma UnfedDemand(f: Flow, zone: set<string>, b: map<string, nat>, v: string)
    requires WellFormed(f) && Allows(f, zone, b) && v in f.ids && v !in zone
    requires forall x :: x in f.ids ==> (x in zone <==> Fed(f, x))
    ensures Demand(f, v, Hits(f.arcs, b, v)) <= 1
  {
    forall x | x in f.arcs && x.to == v ensures Times(b, x.from) <= 1 {
      assert x == Arc(x.from, v) && x.from in f.ids;
      if Fed(f, x.from) {
        var s :| s in f.seeds && Parents(f.arcs, s) != [] && Reaches(f.arcs, s, x.from);
        ReachesStep(f.arcs, s, x.from, v);
      }
    }
    HitsAtMost(f.arcs, b, v);
    if v in f.seeds {
      assert WalkTo(f.arcs, [v], v);
      assert Reaches(f.arcs, v, v);
    }
  }

  ghost function FedZone(f: Flow): set<string> {
    set v | v in f.ids && Fed(f, v)
  }

  /** One firing for a node that no seed with an incoming arc reaches, an allowance for the others. */
  ghost function FedAllowance(f: Flow): map<string, nat> {
    Allowance(f, FedZone(f), |Elements(f.ids)|)
  }

  lemma FedAllowanceIsBudget(f: Flow)
    requires WellFormed(f) && SeedsAvoidCycles(f)
    ensures Allows(f, FedZone(f), FedAllowance(f)) && IsBudget(f, FedAllowance(f))
  {
    hide SeedsAvoidCycles, Acyclic, Zone, Fed;
    var zone, b := FedZone(f), FedAllowance(f);
    FedZoneAcyclic(f, zone);
    AcyclicZoneAllows(f, zone);
    forall v | v in f.ids ensures v in b && b[v] >= Demand(f, v, Hits(f.arcs, b, v)) {
      if v !in zone {
        UnfedDemand(f, zone, b, v);
      }
    }
  }

  /** The loop ends whenever no seed with an incoming arc leads to a cycle. */
  lemma HaltsWhenSeedsAvoidCycles(f: Flow)
    requires WellFormed(f) && SeedsAvoidCycles(f)
    ensures Halts(f)
  {
    hide SeedsAvoidCycles, Halts, Allows, IsBudget;
    FedAllowanceIsBudget(f);
    HaltsIffBudget(f);
  }

  lemma AcyclicLeadsNowhere(arcs: seq<Arc>, s: string)
    requires Acyclic(arcs)
    ensures !LeadsToCycle(arcs, s)
  {
    forall p, i: nat | IsWalk(arcs, p) && i < |p| - 1 ensures p[i] != p[|p| - 1] {
      WalksAreSimple(arcs, p);
    }
  }

  lemma AcyclicOrRootedAvoids(f: Flow)
    requires Acyclic(f.arcs) || SeedsAreRoots(f)
    ensures SeedsAvoidCycles(f)
  {
    hide Acyclic, LeadsToCycle;
    forall s | s in f.seeds && Parents(f.arcs, s) != [] ensures !LeadsToCycle(f.arcs, s) {
      AcyclicLeadsNowhere(f.arcs, s);
    }
  }

  /** In particular on every acyclic graph, and on every graph whose seeds have no incoming arc. */
  lemma HaltsWhenAcyclicOrRooted(f: Flow)
    requires WellFormed(f) && (Acyclic(f.arcs) || SeedsAreRoots(f))
    ensures Halts(f)
  {
    hide Acyclic, WellFormed, SeedsAvoidCycles;
    AcyclicOrRootedAvoids(f);
    HaltsWhenSeedsAvoidCycles(f);
  }

  function TwoCycle(a: string, r: string): Flow {
    Flow([a, r], [Arc(a, r), Arc(r, a)], [a])
  }

  lemma TwoCycleParents(a: string, r: string, b: map<string, nat>)
    requires a != r
    ensures var arcs := TwoCycle(a, r).arcs;
      && Parents(arcs, a) == [r] && Parents(arcs, r) == [a]
      && Hits(arcs, b, a) == Times(b, r) && Hits(arcs, b, r) == Times(b, a)
  {
    var arcs, first := TwoCycle(a, r).arcs, [Arc(a, r)];
    assert arcs[..1] == first && first[..0] == [] && first[0] == Arc(a, r);
    assert Hits([], b, a) == 0 && Hits([], b, r) == 0 && Parents([], a) == [] && Parents([], r) == [];
    assert Parents(first, a) == [] && Parents(first, r) == [a];
    assert Hits(first, b, a) == 0 && Hits(first, b, r) == Times(b, a);
  }

  /** Two nodes that point at each other, entered at one that is declared: neither condition, and no end. */
  lemma EntryOnCycleNeverHalts(a: string, r: string)
    requires a != r
    ensures var f := TwoCycle(a, r);
      WellFormed(f) && !Acyclic(f.arcs) && !SeedsAreRoots(f) && !Halts(f)
  {
    var f := TwoCycle(a, r);
    TwoCycleParents(a, r, map[]);
    assert IsWalk(f.arcs, [a, r, a]);
    assert f.seeds[0] == a;
    forall b ensures !IsBudget(f, b) {
      TwoCycleParents(a, r, b);
      hide Hits, Parents;
      assert a in f.ids && r in f.ids;
    }
    HaltsIffBudget(f);
  }

  // ---- what the ranks mean ------------------------------------------------

  /** With every node fired and no counter left, ranks rise along every arc. */
  ghost predicate RisesAlongArcs(arcs: seq<Arc>, ranks: map<string, nat>) {
    forall u, v :: Arc(u, v) in arcs ==> u in ranks && v in ranks && ranks[u] < ranks[v]
  }

  lemma AllFire(f: Flow, s: State)
    requires WellFormed(f) && Acyclic(f.arcs) && Invariant(f, s) && s.queue == []
    ensures forall v :: v in f.ids ==> v in s.fired
  {
    var silent := set v | v in f.ids && v !in s.fired;
    forall v | v in silent ensures HasParentIn(f.arcs, silent, v) {
      assert CountedAt(f, s, Followed(f, s.fired, [], v), v);
      if !HasParentIn(f.arcs, silent, v) {
        forall x | x in f.arcs && x.to == v ensures Times(s.fired, x.from) >= 1 {
          assert x.from in f.ids;
        }
        HitsAtLeast(f.arcs, s.fired, v);
      }
    }
    NoBackwardClosedSet(f.arcs, f.ids, silent);
    forall v | v in f.ids ensures v in s.fired {
      assert v !in silent;
    }
  }

  lemma AcyclicRises(f: Flow, s: State)
    requires WellFormed(f) && Acyclic(f.arcs) && Invariant(f, s) && s.queue == []
    ensures RisesAlongArcs(f.arcs, s.ranks)
  {
    AllFire(f, s);
    forall u, v | Arc(u, v) in f.arcs ensures u in s.ranks && v in s.ranks && s.ranks[u] < s.ranks[v] {
      assert u in f.ids && Settled(f, s, u);
      assert CountedAt(f, s, Followed(f, s.fired, [], u), u);
      forall x | x in f.arcs && x.to == u ensures Times(s.fired, x.from) >= 1 {
        assert x.from in f.ids;
      }
      HitsAtLeast(f.arcs, s.fired, u);
    }
  }

  lemma {:induction false} RisingBoundsWalks(arcs: seq<Arc>, ranks: map<string, nat>, p: seq<string>)
    requires RisesAlongArcs(arcs, ranks) && IsWalk(arcs, p) && p[|p| - 1] in ranks
    ensures |p| <= ranks[p[|p| - 1]] + 1
  {
    if |p| > 1 {
      var q := p[..|p| - 1];
      assert IsWalk(arcs, q) by {
        forall i | 0 <= i < |q| - 1 ensures Arc(q[i], q[i + 1]) in arcs {
          assert q[i] == p[i] && q[i + 1] == p[i + 1];
        }
      }
      var i := |p| - 2;
      assert Arc(p[i], p[i + 1]) in arcs;
      assert q[|q| - 1] == p[i];
      RisingBoundsWalks(arcs, ranks, q);
    }
  }

  lemma LongestAtHalt(f: Flow, s: State, v: string)
    requires WellFormed(f) && Acyclic(f.arcs) && Invariant(f, s) && s.queue == [] && v in f.ids
    ensures v in s.ranks && LongestTo(f.arcs, v, s.ranks[v])
  {
    AllFire(f, s);
    AcyclicRises(f, s);
    forall p | WalkTo(f.arcs, p, v) ensures |p| <= s.ranks[v] + 1 {
      RisingBoundsWalks(f.arcs, s.ranks, p);
    }
  }

  /** The ranks the loop leaves behind. */
  ghost function FinalRanks(f: Flow): map<string, nat>
    requires Halts(f)
  {
    var n :| Run(f, n).queue == [];
    Run(f, n).ranks
  }

  /** On an acyclic graph the ranks are the longest-path depths, however often nodes were queued. */
  lemma RanksAreLongestPaths(f: Flow)
    requires WellFormed(f) && Acyclic(f.arcs)
    ensures Halts(f)
    ensures forall v :: v in f.ids ==> v in FinalRanks(f) && LongestTo(f.arcs, v, FinalRanks(f)[v])
    ensures RisesAlongArcs(f.arcs, FinalRanks(f))
  {
    hide WellFormed, Acyclic, Invariant, LongestTo, RisesAlongArcs;
    HaltsWhenAcyclicOrRooted(f);
    var n :| Run(f, n).queue == [] && FinalRanks(f) == Run(f, n).ranks;
    RunInvariant(f, n);
    AcyclicRises(f, Run(f, n));
    forall v | v in f.ids ensures v in FinalRanks(f) && LongestTo(f.arcs, v, FinalRanks(f)[v]) {
      LongestAtHalt(f, Run(f, n), v);
    }
  }

  // ---- ranks along simple paths -------------------------------------------

  /** A walk of `k` arcs to `v` that repeats no node, through nodes of `pool` that have fired. */
  ghost predicate IsTrail(arcs: seq<Arc>, pool: set<string>, fired: set<string>, p: seq<string>, v: string, k: nat) {
    && WalkTo(arcs, p, v) && |p| == k + 1 && Distinct(p)
    && (forall x :: x in p ==> x in pool)
    && (forall i :: 0 <= i < |p| - 1 ==> p[i] in fired)
  }

  ghost predicate HasTrail(arcs: seq<Arc>, pool: set<string>, fired: set<string>, v: string, k: nat) {
    exists p :: IsTrail(arcs, pool, fired, p, v, k)
  }

  ghost predicate RanksAreTrails(f: Flow, s: State) {
    forall v :: v in s.ranks ==> HasTrail(f.arcs, s.ranks.Keys, s.fired.Keys, v, s.ranks[v])
  }

  lemma TrailWidens(arcs: seq<Arc>, pool: set<string>, fired: set<string>, pool': set<string>,
      fired': set<string>, v: string, k: nat)
    requires HasTrail(arcs, pool, fired, v, k) && pool <= pool' && fired <= fired'
    ensures HasTrail(arcs, pool', fired', v, k)
  {
    var p :| IsTrail(arcs, pool, fired, p, v, k);
    assert IsTrail(arcs, pool', fired', p, v, k);
  }

  lemma NotOnTrail(arcs: seq<Arc>, p: seq<string>, u: string, c: string)
    requires WalkTo(arcs, p, u) && Arc(u, c) in arcs && !LeadsToCycle(arcs, c)
    ensures c !in p
  {
    forall j | 0 <= j < |p| ensures p[j] != c {
      var q := p[j..];
      forall i | 0 <= i < |q| - 1 ensures Arc(q[i], q[i + 1]) in arcs {
        assert q[i] == p[j + i] && q[i + 1] == p[j + i + 1];
      }
      assert WalkTo(arcs, q, u);
      WalkExtends(arcs, q, u, c);
      var r := q + [c];
      assert r[0] == p[j] && r[|r| - 1] == c && 0 < |r| - 1;
    }
  }

  lemma TrailExtends(arcs: seq<Arc>, pool: set<string>, fired: set<string>, u: string, c: string, k: nat)
    requires HasTrail(arcs, pool, fired, u, k) && Arc(u, c) in arcs && u in fired
    requires c !in fired || c !in pool || !LeadsToCycle(arcs, c)
    ensures HasTrail(arcs, pool + {c}, fired, c, k + 1)
  {
    hide LeadsToCycle;
    var p :| IsTrail(arcs, pool, fired, p, u, k);
    WalkExtends(arcs, p, u, c);
    if !LeadsToCycle(arcs, c) {
      NotOnTrail(arcs, p, u, c);
    }
    assert c !in p;
    assert IsTrail(arcs, pool + {c}, fired, p + [c], c, k + 1);
  }

  /** A child of the node just dequeued has not fired yet, unless it leads to no cycle. */
  lemma ChildNotFired(f: Flow, s: State, base: map<string, nat>, u: string, rank: nat, c: string)
    requires WellFormed(f) && SeedsAvoidCycles(f) && Midway(f, s, base, u, rank, [])
    requires Within(f, s, FedAllowance(f)) && Arc(u, c) in f.arcs
    ensures c !in s.fired || !LeadsToCycle(f.arcs, c)
  {
    hide SeedsAvoidCycles, LeadsToCycle;
    assert c in f.ids;
    if Fed(f, c) {
      FedLeadsNowhere(f, c);
    } else {
      UnfedParentsFireOnce(f, s, c);
      hide Fed;
      HitsBump(f.arcs, base, u, c);
      HitsAtMost(f.arcs, s.fired, c);
      ParentsAreArcs(f.arcs, c, u);
      ChildrenAreArcs(f.arcs, u, c);
      UnfedSeedIsRoot(f, c);
      assert CountedAt(f, s, Followed(f, base, [], c), c);
    }
  }

  lemma UnfedSeedIsRoot(f: Flow, c: string)
    requires !Fed(f, c)
    ensures c in f.seeds ==> Parents(f.arcs, c) == []
  {
    if c in f.seeds {
      assert WalkTo(f.arcs, [c], c);
      assert Reaches(f.arcs, c, c);
    }
  }

  lemma UnfedParentsFireOnce(f: Flow, s: State, c: string)
    requires WellFormed(f) && SeedsAvoidCycles(f) && Within(f, s, FedAllowance(f)) && !Fed(f, c)
    ensures forall x :: x in f.arcs && x.to == c ==> Times(s.fired, x.from) <= 1
  {
    hide SeedsAvoidCycles, Allowance;
    FedAllowanceIsBudget(f);
    var b := FedAllowance(f);
    forall x | x in f.arcs && x.to == c ensures Times(s.fired, x.from) <= 1 {
      assert x == Arc(x.from, c) && x.from in f.ids;
      if Fed(f, x.from) {
        var r :| r in f.seeds && Parents(f.arcs, r) != [] && Reaches(f.arcs, r, x.from);
        ReachesStep(f.arcs, r, x.from, c);
      }
      assert x.from !in FedZone(f) && b[x.from] == 1;
    }
  }

  lemma RelaxTrails(f: Flow, s: State, u: string, c: string, rank: nat)
    requires RanksAreTrails(f, s) && u in s.fired && Arc(u, c) in f.arcs
    requires c !in s.fired || !LeadsToCycle(f.arcs, c)
    requires HasTrail(f.arcs, s.ranks.Keys, s.fired.Keys, u, rank)
    ensures RanksAreTrails(f, Relax(s, c, rank))
    ensures HasTrail(f.arcs, Relax(s, c, rank).ranks.Keys, Relax(s, c, rank).fired.Keys, u, rank)
  {
    hide LeadsToCycle;
    var t := Relax(s, c, rank);
    var fired := s.fired.Keys;
    TrailExtends(f.arcs, s.ranks.Keys, fired, u, c, rank);
    assert t.ranks.Keys == s.ranks.Keys + {c};
    TrailWidens(f.arcs, s.ranks.Keys, fired, t.ranks.Keys, fired, u, rank);
    forall v | v in t.ranks ensures HasTrail(f.arcs, t.ranks.Keys, fired, v, t.ranks[v]) {
      if v in s.ranks && t.ranks[v] == s.ranks[v] {
        TrailWidens(f.arcs, s.ranks.Keys, fired, t.ranks.Keys, fired, v, s.ranks[v]);
      }
    }
  }

  lemma {:induction false} RelaxAllTrails(f: Flow, s: State, u: string, rank: nat, children: seq<string>)
    requires forall c :: c in children ==> Arc(u, c) in f.arcs && (c !in s.fired || !LeadsToCycle(f.arcs, c))
    requires RanksAreTrails(f, s) && u in s.fired && HasTrail(f.arcs, s.ranks.Keys, s.fired.Keys, u, rank)
    ensures RanksAreTrails(f, RelaxAll(s, children, rank))
    ensures HasTrail(f.arcs, RelaxAll(s, children, rank).ranks.Keys, s.fired.Keys, u, rank)
  {
    if children != [] {
      var most, c := children[..|children| - 1], children[|children| - 1];
      RelaxAllTrails(f, s, u, rank, most);
      RelaxAllFired(s, most, rank);
      RelaxTrails(f, RelaxAll(s, most, rank), u, c, rank);
    }
  }

  lemma DequeueTrails(f: Flow, s: State)
    requires Invariant(f, s) && s.queue != [] && RanksAreTrails(f, s)
    ensures var t := Dequeue(s);
      RanksAreTrails(f, t) && HasTrail(f.arcs, t.ranks.Keys, t.fired.Keys, s.queue[0], RankOf(s.ranks, s.queue[0]))
  {
    var t := Dequeue(s);
    assert s.fired.Keys <= t.fired.Keys;
    forall v | v in t.ranks ensures HasTrail(f.arcs, t.ranks.Keys, t.fired.Keys, v, t.ranks[v]) {
      TrailWidens(f.arcs, s.ranks.Keys, s.fired.Keys, t.ranks.Keys, t.fired.Keys, v, s.ranks[v]);
    }
    assert s.queue[0] in s.ranks;
  }

  lemma {:induction false} RunTrails(f: Flow, n: nat)
    requires WellFormed(f) && SeedsAvoidCycles(f)
    ensures RanksAreTrails(f, Run(f, n))
  {
    hide WellFormed, SeedsAvoidCycles, Step;
    if n == 0 {
      InitialTrails(f);
    } else {
      RunTrails(f, n - 1);
      if Run(f, n - 1).queue == [] {
        EmptyStep(f, Run(f, n - 1));
      } else {
        RunStepTrails(f, n - 1);
      }
    }
  }

  lemma InitialTrails(f: Flow)
    ensures RanksAreTrails(f, Initial(f))
  {
    var s := Initial(f);
    forall v | v in s.ranks ensures HasTrail(f.arcs, s.ranks.Keys, s.fired.Keys, v, s.ranks[v]) {
      assert IsTrail(f.arcs, s.ranks.Keys, s.fired.Keys, [v], v, 0);
    }
  }

  lemma RunStepTrails(f: Flow, n: nat)
    requires WellFormed(f) && SeedsAvoidCycles(f) && Run(f, n).queue != [] && RanksAreTrails(f, Run(f, n))
    ensures RanksAreTrails(f, Run(f, n + 1))
  {
    hide SeedsAvoidCycles, IsBudget, Allows, Invariant, RanksAreTrails;
    RunInvariant(f, n);
    FedAllowanceIsBudget(f);
    RunWithin(f, FedAllowance(f), n + 1);
    StepTrails(f, Run(f, n));
  }

  lemma StepTrails(f: Flow, s: State)
    requires WellFormed(f) && SeedsAvoidCycles(f) && Invariant(f, s) && s.queue != []
    requires RanksAreTrails(f, s) && Within(f, Step(f, s), FedAllowance(f))
    ensures RanksAreTrails(f, Step(f, s))
  {
    hide SeedsAvoidCycles, LeadsToCycle, FedAllowance, RanksAreTrails, Midway, Invariant;
    var u, rank := s.queue[0], RankOf(s.ranks, s.queue[0]);
    var children := Children(f.arcs, u);
    DequeueMidway(f, s);
    DequeueTrails(f, s);
    RelaxAllFired(Dequeue(s), children, rank);
    forall c | c in children
      ensures Arc(u, c) in f.arcs && (c !in Dequeue(s).fired || !LeadsToCycle(f.arcs, c))
    {
      ChildrenAreArcs(f.arcs, u, c);
      ChildNotFired(f, Dequeue(s), s.fired, u, rank, c);
    }
    RelaxAllTrails(f, Dequeue(s), u, rank, children);
  }

  /** When no seed has an incoming arc, each node leaves the queue at most once. */
  lemma RootedFiresOnce(f: Flow, n: nat, v: string)
    requires WellFormed(f) && SeedsAreRoots(f)
    ensures Times(Run(f, n).fired, v) <= 1
  {
    OnesAreBudget(f);
    RunWithin(f, Ones(f), n);
  }
}
