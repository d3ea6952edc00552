/**
 Deciding before the call whether the rank loop ends: the least firing counts,
 computed in as many rounds as there are nodes, either settle or never will.
 */
module RankLeast {
  import opened Basics
  import opened Graphs
  import opened RankQueue
  import opened RankTheorems
  import opened RankCycles

  /** How often each node has to fire, as far as `k` rounds tell. */
  function Least(f: Flow, k: nat): (r: map<string, nat>)
    ensures r.Keys == Elements(f.ids)
  {
    map v | v in f.ids :: if k == 0 then 0 else Demand(f, v, Hits(f.arcs, Least(f, k - 1), v))
  }

  /** One round more than there are nodes changes nothing. */
  predicate Settles(f: Flow) {
    Least(f, |Elements(f.ids)|) == Least(f, |Elements(f.ids)| + 1)
  }

  lemma {:induction false} LeastWithin(f: Flow, b: map<string, nat>, k: nat)
    requires IsBudget(f, b)
    ensures forall v :: Times(Least(f, k), v) <= Times(b, v)
  {
    if k > 0 {
      LeastWithin(f, b, k - 1);
      forall v | v in f.ids ensures Least(f, k)[v] <= b[v] {
        HitsMonotone(f.arcs, Least(f, k - 1), b, v);
        DemandMonotone(f, v, Hits(f.arcs, Least(f, k - 1), v), Hits(f.arcs, b, v));
      }
    }
  }

  lemma SettledIsBudget(f: Flow)
    requires Settles(f)
    ensures IsBudget(f, Least(f, |Elements(f.ids)|))
  {}

  // ---- when the loop ends, the counts settle --------------------------------

  ghost predicate EndsAt(f: Flow, n: nat) {
    Run(f, n).queue == []
  }

  /** A counter that never runs down, and a node without incoming arcs: the node fires as a seed or not at all. */
  lemma OutsideFires(f: Flow, n: nat, k: nat, v: string)
    requires WellFormed(f) && EndsAt(f, n) && k > 0 && v in f.ids && v !in SpentZone(f)
    ensures Least(f, k)[v] == if v in f.seeds then 1 else 0
  {
    hide WellFormed, Invariant, Parents, IsBudget;
    var s := Run(f, n);
    RunInvariant(f, n);
    CountedInRun(f, n, v);
    FiringsAreBudget(f, s);
    LeastWithin(f, Firings(f, s), k - 1);
    HitsMonotone(f.arcs, Least(f, k - 1), s.fired, v);
    if Parents(f.arcs, v) != [] {
      assert !Spent(Run(f, n), v);
    }
  }

  lemma CountedInRun(f: Flow, n: nat, v: string)
    requires WellFormed(f) && v in f.ids
    ensures CountedAt(f, Run(f, n), Hits(f.arcs, Run(f, n).fired, v), v)
  {
    hide WellFormed, Run, Inside, RanksAreWalks, AllSettled;
    var s := Run(f, n);
    RunInvariant(f, n);
    assert CountedAt(f, s, Followed(f, s.fired, [], v), v);
  }

  ghost predicate Steady(f: Flow, k: nat, v: string) {
    Times(Least(f, k), v) == Times(Least(f, k + 1), v)
  }

  /** By round `k` a node is steady if every walk to it inside the zone has fewer than `k` nodes. */
  ghost predicate SteadyBy(f: Flow, k: nat)
    requires k > 0
  {
    forall v :: v in f.ids && (v !in SpentZone(f) || Shallow(Zone(f.arcs, SpentZone(f)), v, k - 1)) ==> Steady(f, k, v)
  }

  lemma OutsideSteady(f: Flow, n: nat, k: nat, v: string)
    requires WellFormed(f) && EndsAt(f, n) && k > 0 && v in f.ids && v !in SpentZone(f)
    ensures Steady(f, k, v)
  {
    hide WellFormed, SpentZone;
    OutsideFires(f, n, k, v);
    OutsideFires(f, n, k + 1, v);
  }

  lemma InsideSteady(f: Flow, k: nat, v: string)
    requires WellFormed(f) && k > 0 && SteadyBy(f, k) && v in SpentZone(f)
    requires Shallow(Zone(f.arcs, SpentZone(f)), v, k)
    ensures Steady(f, k + 1, v)
  {
    var zone := SpentZone(f);
    ShallowParents(Zone(f.arcs, zone), v, k);
    hide SpentZone, Shallow;
    assert v in f.ids by { InZone(f, v); }
    forall x | x in f.arcs && x.to == v ensures Steady(f, k, x.from) {
      if x.from in zone {
        assert x in Zone(f.arcs, zone);
      }
    }
    HitsAgree(f.arcs, Least(f, k), Least(f, k + 1), v);
  }

  lemma InZone(f: Flow, v: string)
    requires v in SpentZone(f)
    ensures v in f.ids && Parents(f.arcs, v) != []
  {}

  lemma {:induction false} CountsSettleBy(f: Flow, n: nat, k: nat)
    requires WellFormed(f) && EndsAt(f, n) && k > 0
    ensures SteadyBy(f, k)
  {
    hide WellFormed, EndsAt, SpentZone, Steady, Shallow;
    if k == 1 {
      NothingShallow(Zone(f.arcs, SpentZone(f)));
    } else {
      CountsSettleBy(f, n, k - 1);
    }
    forall v | v in f.ids && (v !in SpentZone(f) || Shallow(Zone(f.arcs, SpentZone(f)), v, k - 1))
      ensures Steady(f, k, v)
    {
      if v !in SpentZone(f) {
        OutsideSteady(f, n, k, v);
      } else if k > 1 {
        InsideSteady(f, k - 1, v);
      }
    }
  }

  // ---- how deep the zone can be -----------------------------------------------

  /** Some node is outside the zone, unless there is none at all. */
  lemma ZoneIsNotAll(f: Flow)
    requires WellFormed(f) && Acyclic(Zone(f.arcs, SpentZone(f))) && SpentZone(f) == Elements(f.ids)
    ensures SpentZone(f) == {}
  {
    var zone := SpentZone(f);
    var arcs := Zone(f.arcs, zone);
    forall x | x in zone ensures HasParentIn(arcs, zone, x) {
      InZone(f, x);
      var u := Parents(f.arcs, x)[0];
      assert u in Parents(f.arcs, x);
      ParentsAreArcs(f.arcs, x, u);
      assert Arc(u, x) in arcs;
    }
    NoBackwardClosedSet(arcs, f.ids, zone);
  }

  lemma SmallerSet(a: set<string>, b: set<string>)
    requires a <= b
    ensures |a| <= |b| && (a != b ==> |a| < |b|)
  {
    assert b == a + (b - a);
    if a != b {
      var x :| x in b && x !in a;
      assert x in b - a;
    }
  }

  lemma ZoneIsShallow(f: Flow, v: string, n: nat)
    requires WellFormed(f) && Acyclic(Zone(f.arcs, SpentZone(f))) && v in SpentZone(f) && |Elements(f.ids)| == n + 1
    ensures Shallow(Zone(f.arcs, SpentZone(f)), v, n)
  {
    var zone := SpentZone(f);
    InZone(f, v);
    SmallerSet(zone, Elements(f.ids));
    if zone == Elements(f.ids) {
      ZoneIsNotAll(f);
    }
    hide SpentZone, Acyclic, Zone;
    forall p | WalkTo(Zone(f.arcs, zone), p, v) ensures |p| <= n {
      WalksAreSimple(Zone(f.arcs, zone), p);
      if |p| > 1 {
        ClosedWalkInZone(f.arcs, zone, p);
      }
      DistinctFits(p, zone);
    }
  }

  lemma EndedSettles(f: Flow, n: nat)
    requires WellFormed(f) && EndsAt(f, n)
    ensures Settles(f)
  {
    RunsForeverIffSpentCycle(f);
    SpentZoneAcyclic(f);
    hide WellFormed, EndsAt, SpentZone, Acyclic, Shallow, Least;
    var rounds := |Elements(f.ids)|;
    if rounds > 0 {
      CountsSettleBy(f, n, rounds);
      forall v | v in f.ids ensures Steady(f, rounds, v) {
        if v in SpentZone(f) {
          ZoneIsShallow(f, v, rounds - 1);
        }
      }
    }
  }

  // ---- the decision -----------------------------------------------------------

  /** The rank loop ends exactly when the least firing counts settle within one round per node. */
  lemma HaltsIffSettles(f: Flow)
    requires WellFormed(f)
    ensures Halts(f) <==> Settles(f)
  {
    hide WellFormed, Settles, IsBudget;
    if Halts(f) {
      var n :| Run(f, n).queue == [];
      EndedSettles(f, n);
    }
    if Settles(f) {
      SettledIsBudget(f);
      HaltsIffBudget(f);
    }
  }

  /** And then they are how often each node has left the queue. */
  lemma FiringsAreLeast(f: Flow, n: nat, v: string)
    requires WellFormed(f) && Run(f, n).queue == [] && v in f.ids
    ensures Times(Run(f, n).fired, v) == Least(f, |Elements(f.ids)|)[v]
  {
    hide WellFormed, Invariant, IsBudget, Run;
    var least := Least(f, |Elements(f.ids)|);
    RunInvariant(f, n);
    FiringsAreBudget(f, Run(f, n));
    LeastWithin(f, Firings(f, Run(f, n)), |Elements(f.ids)|);
    EndedSettles(f, n);
    SettledIsBudget(f);
    RunWithin(f, least, n);
  }
}
