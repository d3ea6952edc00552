/**
 Directed graphs as the layout and the entry-node rule see them: arcs between
 node ids, walks along arcs, and what the absence of cycles gives.
 */
module Graphs {
  import opened Basics

  datatype Arc = Arc(from: string, to: string)

  /** A walk is a non-empty sequence of nodes, each joined to the next by an arc. */
  ghost predicate IsWalk(arcs: seq<Arc>, p: seq<string>) {
    && p != []
    && forall i :: 0 <= i < |p| - 1 ==> Arc(p[i], p[i + 1]) in arcs
  }

  ghost predicate WalkTo(arcs: seq<Arc>, p: seq<string>, v: string) {
    IsWalk(arcs, p) && p[|p| - 1] == v
  }

  /** Some walk of exactly `k` arcs ends at `v`. */
  ghost predicate HasWalk(arcs: seq<Arc>, v: string, k: nat) {
    exists p :: WalkTo(arcs, p, v) && |p| == k + 1
  }

  /** No walk of more than one node comes back to where it started. */
  ghost predicate Acyclic(arcs: seq<Arc>) {
    forall p :: IsWalk(arcs, p) && |p| > 1 ==> p[0] != p[|p| - 1]
  }

  ghost predicate EndsIn(arcs: seq<Arc>, ids: seq<string>) {
    forall a :: a in arcs ==> a.from in ids && a.to in ids
  }

  /** `k` is the number of arcs on the longest walk that ends at `v`. */
  ghost predicate LongestTo(arcs: seq<Arc>, v: string, k: nat) {
    && HasWalk(arcs, v, k)
    && (forall p :: WalkTo(arcs, p, v) ==> |p| <= k + 1)
  }

  lemma WalkExtends(arcs: seq<Arc>, p: seq<string>, u: string, v: string)
    requires WalkTo(arcs, p, u) && Arc(u, v) in arcs
    ensures WalkTo(arcs, p + [v], v)
  {
    var q := p + [v];
    forall i | 0 <= i < |q| - 1 ensures Arc(q[i], q[i + 1]) in arcs {
      if i == |p| - 1 {
        assert q[i] == u && q[i + 1] == v;
      } else {
        assert q[i] == p[i] && q[i + 1] == p[i + 1];
      }
    }
  }

  lemma HasWalkExtends(arcs: seq<Arc>, u: string, v: string, k: nat)
    requires HasWalk(arcs, u, k) && Arc(u, v) in arcs
    ensures HasWalk(arcs, v, k + 1)
  {
    var p :| WalkTo(arcs, p, u) && |p| == k + 1;
    WalkExtends(arcs, p, u, v);
  }

  lemma WalkStaysInside(arcs: seq<Arc>, ids: seq<string>, p: seq<string>)
    requires EndsIn(arcs, ids) && IsWalk(arcs, p) && p[|p| - 1] in ids
    ensures forall i :: 0 <= i < |p| ==> p[i] in ids
  {
    forall i | 0 <= i < |p| ensures p[i] in ids {
      if i < |p| - 1 {
        assert Arc(p[i], p[i + 1]) in arcs;
      }
    }
  }

  /** In an acyclic graph no walk repeats a node. */
  lemma WalksAreSimple(arcs: seq<Arc>, p: seq<string>)
    requires Acyclic(arcs) && IsWalk(arcs, p)
    ensures Distinct(p)
  {
    forall i, j | 0 <= i < j < |p| ensures p[i] != p[j] {
      var q := p[i..j + 1];
      forall k | 0 <= k < |q| - 1 ensures Arc(q[k], q[k + 1]) in arcs {
        assert q[k] == p[i + k] && q[k + 1] == p[i + k + 1];
      }
      assert IsWalk(arcs, q) && q[0] == p[i] && q[|q| - 1] == p[j];
    }
  }

  /** A sequence without repetition is no longer than the set it draws from. */
  lemma {:induction false} DistinctFits<T>(s: seq<T>, pool: set<T>)
    requires Distinct(s) && forall x :: x in s ==> x in pool
    ensures |s| <= |pool|
  {
    if s != [] {
      var rest := s[1..];
      forall x | x in rest ensures x in pool - {s[0]} {}
      DistinctFits(rest, pool - {s[0]});
    }
  }

  lemma WalkFits(arcs: seq<Arc>, ids: seq<string>, p: seq<string>)
    requires EndsIn(arcs, ids) && Acyclic(arcs) && IsWalk(arcs, p) && p[|p| - 1] in ids
    ensures |p| <= |Elements(ids)|
  {
    WalksAreSimple(arcs, p);
    WalkStaysInside(arcs, ids, p);
    DistinctFits(p, Elements(ids));
  }

  ghost predicate HasParentIn(arcs: seq<Arc>, pool: set<string>, v: string) {
    exists a :: a in arcs && a.to == v && a.from in pool
  }

  /** Following parents that stay inside `pool` gives walks of any length. */
  lemma {:induction false} LongWalkInside(arcs: seq<Arc>, pool: set<string>, v: string, n: nat) returns (p: seq<string>)
    requires v in pool && forall x :: x in pool ==> HasParentIn(arcs, pool, x)
    ensures WalkTo(arcs, p, v) && |p| == n + 1
    decreases n
  {
    if n == 0 {
      p := [v];
    } else {
      assert HasParentIn(arcs, pool, v);
      var a :| a in arcs && a.to == v && a.from in pool;
      var q := LongWalkInside(arcs, pool, a.from, n - 1);
      assert Arc(a.from, v) == a;
      WalkExtends(arcs, q, a.from, v);
      p := q + [v];
    }
  }

  /** So in an acyclic graph a non-empty set of nodes has a member without a parent in the set. */
  lemma NoBackwardClosedSet(arcs: seq<Arc>, ids: seq<string>, pool: set<string>)
    requires EndsIn(arcs, ids) && Acyclic(arcs) && pool <= Elements(ids)
    requires forall x :: x in pool ==> HasParentIn(arcs, pool, x)
    ensures pool == {}
  {
    if pool != {} {
      var v :| v in pool;
      var p := LongWalkInside(arcs, pool, v, |Elements(ids)|);
      WalkFits(arcs, ids, p);
    }
  }
}
