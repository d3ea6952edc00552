/**
 The exact moment a rank loop that never ends gives itself away: a cycle whose
 counters have all run down to zero.
 */
module RankCycles {
  import opened Basics
  import opened Graphs
  import opened RankQueue
  import opened RankTheorems

  /** The counter of `v` has reached zero: every further visit queues `v` again. */
  predicate Spent(s: State, v: string) {
    v in s.waiting && s.waiting[v] == 0
  }

  ghost predicate IsSpentCycle(f: Flow, s: State, p: seq<string>) {
    && IsWalk(f.arcs, p) && |p| > 1 && p[0] == p[|p| - 1]
    && forall x :: x in p ==> Spent(s, x)
  }

  ghost predicate HasSpentCycle(f: Flow, s: State) {
    exists p :: IsSpentCycle(f, s, p)
  }

  ghost predicate EverSpentCycle(f: Flow) {
    exists n :: HasSpentCycle(f, Run(f, n))
  }

  // ---- what visiting children does to counters and queue --------------------

  lemma {:induction false} VisitsKeep(s: State, children: seq<string>, rank: nat)
    ensures var t := RelaxAll(s, children, rank);
      && s.queue <= t.queue && t.waiting.Keys == s.waiting.Keys
      && forall v :: Spent(s, v) ==> Spent(t, v)
  {
    if children != [] {
      VisitsKeep(s, children[..|children| - 1], rank);
    }
  }

  /** A counter that reaches zero, and one that is hit at zero, puts its node in the queue. */
  lemma {:induction false} VisitsQueue(s: State, children: seq<string>, rank: nat, v: string)
    requires v in s.waiting
    ensures var t := RelaxAll(s, children, rank);
      Spent(t, v) && (!Spent(s, v) || v in children) ==> v in t.queue
  {
    if children != [] {
      var most, c := children[..|children| - 1], children[|children| - 1];
      assert children == most + [c];
      VisitsQueue(s, most, rank, v);
      VisitsKeep(s, most, rank);
    }
  }

  lemma StepKeepsSpent(f: Flow, s: State, v: string)
    requires Spent(s, v)
    ensures Spent(Step(f, s), v)
  {
    if s.queue != [] {
      VisitsKeep(Dequeue(s), Children(f.arcs, s.queue[0]), RankOf(s.ranks, s.queue[0]));
    }
  }

  lemma {:induction false} SpentStays(f: Flow, m: nat, n: nat, v: string)
    requires m <= n && Spent(Run(f, m), v)
    ensures Spent(Run(f, n), v)
  {
    if m < n {
      SpentStays(f, m, n - 1, v);
      StepKeepsSpent(f, Run(f, n - 1), v);
    }
  }

  // ---- a spent cycle keeps the queue alive ----------------------------------

  ghost predicate QueuedIn(s: State, p: seq<string>) {
    exists x :: x in p && x in s.queue
  }

  lemma NotSpentAtStart(f: Flow, p: seq<string>)
    requires WellFormed(f) && IsWalk(f.arcs, p) && |p| > 1
    ensures !Spent(Initial(f), p[1])
  {
    assert Arc(p[0], p[0 + 1]) in f.arcs;
    ParentsAreArcs(f.arcs, p[1], p[0]);
  }

  /** The node after `p[i]` on a closed walk. */
  lemma NextOnCycle(f: Flow, p: seq<string>, x: string) returns (y: string)
    requires IsWalk(f.arcs, p) && |p| > 1 && p[0] == p[|p| - 1] && x in p
    ensures y in p && Arc(x, y) in f.arcs
  {
    var i :| 0 <= i < |p| && p[i] == x;
    var j := if i == |p| - 1 then 0 else i;
    assert Arc(p[j], p[j + 1]) in f.arcs;
    y := p[j + 1];
  }

  lemma CycleStep(f: Flow, s: State, p: seq<string>)
    requires WellFormed(f) && Inside(f, s) && s.queue != []
    requires IsSpentCycle(f, s, p) ==> QueuedIn(s, p)
    requires IsSpentCycle(f, Step(f, s), p)
    ensures QueuedIn(Step(f, s), p)
  {
    var u := s.queue[0];
    var d, children, rank := Dequeue(s), Children(f.arcs, u), RankOf(s.ranks, u);
    VisitsKeep(d, children, rank);
    if IsSpentCycle(f, s, p) {
      var x :| x in p && x in s.queue;
      if x in d.queue {
        assert x in Step(f, s).queue;
      } else {
        assert x == u;
        var y := NextOnCycle(f, p, x);
        ChildrenAreArcs(f.arcs, x, y);
        VisitsQueue(d, children, rank, y);
      }
    } else {
      var x :| x in p && !Spent(s, x);
      assert Spent(Step(f, s), x);
      VisitsQueue(d, children, rank, x);
    }
  }

  lemma RunInside(f: Flow, n: nat)
    requires WellFormed(f)
    ensures Inside(f, Run(f, n))
  {
    hide WellFormed, Inside, Counted, RanksAreWalks, AllSettled;
    RunInvariant(f, n);
  }

  lemma {:induction false} CycleIsQueued(f: Flow, p: seq<string>, n: nat)
    requires WellFormed(f) && IsSpentCycle(f, Run(f, n), p)
    ensures QueuedIn(Run(f, n), p)
  {
    hide WellFormed, Inside, Step, QueuedIn;
    if n == 0 {
      NotSpentAtStart(f, p);
    } else {
      var s := Run(f, n - 1);
      RunInside(f, n - 1);
      if IsSpentCycle(f, s, p) {
        CycleIsQueued(f, p, n - 1);
      }
      if s.queue != [] {
        CycleStep(f, s, p);
      } else {
        EmptyStep(f, s);
      }
    }
  }

  lemma SpentCycleNeverHalts(f: Flow, n: nat)
    requires WellFormed(f) && HasSpentCycle(f, Run(f, n))
    ensures !Halts(f)
  {
    var p :| IsSpentCycle(f, Run(f, n), p);
    forall m: nat ensures Run(f, m).queue != [] {
      var last := if m <= n then n else m;
      forall x | x in p ensures Spent(Run(f, last), x) {
        SpentStays(f, n, last, x);
      }
      CycleIsQueued(f, p, last);
      if Run(f, m).queue == [] {
        HaltsOnce(f, m, last);
      }
    }
  }

  // ---- without one the loop ends --------------------------------------------

  ghost predicate EverSpent(f: Flow, v: string) {
    exists n :: Spent(Run(f, n), v)
  }

  lemma {:induction false} SpentTogether(f: Flow, p: seq<string>) returns (n: nat)
    requires forall x :: x in p ==> EverSpent(f, x)
    ensures forall x :: x in p ==> Spent(Run(f, n), x)
  {
    if p == [] {
      n := 0;
    } else {
      var m := SpentTogether(f, p[1..]);
      assert EverSpent(f, p[0]);
      var k :| Spent(Run(f, k), p[0]);
      n := if m < k then k else m;
      forall x | x in p ensures Spent(Run(f, n), x) {
        if x == p[0] {
          SpentStays(f, k, n, x);
        } else {
          assert x in p[1..];
          SpentStays(f, m, n, x);
        }
      }
    }
  }

  ghost function SpentZone(f: Flow): set<string> {
    set v | v in f.ids && Parents(f.arcs, v) != [] && EverSpent(f, v)
  }

  lemma {:induction false} ClosedWalkInZone(arcs: seq<Arc>, zone: set<string>, p: seq<string>)
    requires IsWalk(Zone(arcs, zone), p) && |p| > 1
    ensures IsWalk(arcs, p) && forall x :: x in p ==> x in zone
  {
    forall i | 0 <= i < |p| - 1 ensures Arc(p[i], p[i + 1]) in arcs {
      assert Arc(p[i], p[i + 1]) in Zone(arcs, zone);
    }
    forall x | x in p ensures x in zone {
      var i :| 0 <= i < |p| && p[i] == x;
      var j := if i == |p| - 1 then i - 1 else i;
      assert Arc(p[j], p[j + 1]) in Zone(arcs, zone);
    }
  }

  lemma SpentZoneAcyclic(f: Flow)
    requires !EverSpentCycle(f)
    ensures Acyclic(Zone(f.arcs, SpentZone(f)))
  {
    var arcs := Zone(f.arcs, SpentZone(f));
    forall p | IsWalk(arcs, p) && |p| > 1 ensures p[0] != p[|p| - 1] {
      ClosedWalkInZone(f.arcs, SpentZone(f), p);
      hide Zone, IsWalk, Run, Spent;
      var n := SpentTogether(f, p);
      assert !HasSpentCycle(f, Run(f, n));
      assert !IsSpentCycle(f, Run(f, n), p);
    }
  }

  /** What has fired or is queued stays within what the zone allows. */
  lemma ZoneWithin(f: Flow, n: nat, b: map<string, nat>, v: string)
    requires WellFormed(f) && Allows(f, SpentZone(f), b) && Within(f, Run(f, n), b) && v in f.ids
    ensures Times(Run(f, n).fired, v) + multiset(Run(f, n).queue)[v] <= Times(b, v)
  {
    hide WellFormed, Run, Parents;
    var s := Run(f, n);
    RunInvariant(f, n);
    assert CountedAt(f, s, Followed(f, s.fired, [], v), v);
    if v in SpentZone(f) {
      HitsMonotone(f.arcs, s.fired, b, v);
    } else if Parents(f.arcs, v) != [] {
      assert !Spent(Run(f, n), v);
    }
  }

  lemma {:induction false} RunWithinZone(f: Flow, b: map<string, nat>, n: nat)
    requires WellFormed(f) && Allows(f, SpentZone(f), b)
    ensures Within(f, Run(f, n), b)
  {
    hide WellFormed, Allows, Invariant, SpentZone, Within, Step, Initial;
    if n == 0 {
      NothingFired(f, b);
    } else {
      RunWithinZone(f, b, n - 1);
      var s := Run(f, n - 1);
      if s.queue != [] {
        StepFired(f, s);
        QueueHead(f, n - 1);
        ZoneWithin(f, n - 1, b, s.queue[0]);
        FiringWithin(f, s, Step(f, s), b);
      } else {
        EmptyStep(f, s);
      }
    }
  }

  /** The rank loop runs forever exactly when some step leaves a cycle with every counter at zero. */
  lemma RunsForeverIffSpentCycle(f: Flow)
    requires WellFormed(f)
    ensures !Halts(f) <==> EverSpentCycle(f)
  {
    hide WellFormed, HasSpentCycle;
    if EverSpentCycle(f) {
      var n: nat :| HasSpentCycle(f, Run(f, n));
      SpentCycleNeverHalts(f, n);
    } else {
      SpentZoneAcyclic(f);
      AcyclicZoneAllows(f, SpentZone(f));
      var b := Allowance(f, SpentZone(f), |Elements(f.ids)|);
      var n := Total(f.ids, b) + 1;
      RunWithinZone(f, b, n);
      TotalMonotone(f.ids, Run(f, n).fired, b);
      if Run(f, n).queue != [] {
        RunAdvances(f, n);
      }
    }
  }
}
