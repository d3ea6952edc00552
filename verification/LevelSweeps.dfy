/**
 Ordering inside the levels: stable sorting by barycentre, renumbering, and the
 alternating sweeps. The barycentre is an exact rational here.
 */
module LevelSweeps {
  import opened Basics
  import opened JsonValues
  import opened Graphs
  import opened RankQueue
  import opened RankTheorems

  /** What a level is sorted by: barycentre first, then output slot, then source order. */
  datatype Key = Key(mean: real, slot: nat, origin: nat)

  predicate Before(a: Key, b: Key) {
    || a.mean < b.mean
    || (a.mean == b.mean && (a.slot < b.slot || (a.slot == b.slot && a.origin <= b.origin)))
  }

  ghost predicate Keyed(s: seq<string>, keys: map<string, Key>) {
    forall x :: x in s ==> x in keys
  }

  ghost predicate Ordered(s: seq<string>, keys: map<string, Key>)
    requires Keyed(s, keys)
  {
    s == [] || (Leads(s[0], s[1..], keys) && Ordered(s[1..], keys))
  }

  ghost predicate Leads(x: string, s: seq<string>, keys: map<string, Key>)
    requires Keyed(s, keys) && x in keys
  {
    forall y :: y in s ==> Before(keys[x], keys[y])
  }

  /** In an ordered list any earlier entry comes before any later one. */
  lemma {:induction false} OrderedPairs(s: seq<string>, keys: map<string, Key>, i: nat, j: nat)
    requires Keyed(s, keys) && Ordered(s, keys) && i < j < |s|
    ensures Before(keys[s[i]], keys[s[j]])
  {
    if i == 0 {
      assert s[j] == s[1..][j - 1];
      assert s[j] in s[1..];
    } else {
      OrderedPairs(s[1..], keys, i - 1, j - 1);
    }
  }

  function Insert(x: string, s: seq<string>, keys: map<string, Key>): seq<string>
    requires Keyed(s, keys) && x in keys
  {
    if s == [] then [x]
    else if Before(keys[x], keys[s[0]]) then [x] + s
    else [s[0]] + Insert(x, s[1..], keys)
  }

  /** Stable sorting by key. */
  function SortBy(s: seq<string>, keys: map<string, Key>): (r: seq<string>)
    requires Keyed(s, keys)
    ensures multiset(r) == multiset(s) && Keyed(r, keys)
  {
    if s == [] then [] else
      hide Insert;
      var rest := SortBy(s[1..], keys);
      InsertedIsAll(s, rest, keys);
      Insert(s[0], rest, keys)
  }

  lemma InsertedIsAll(s: seq<string>, rest: seq<string>, keys: map<string, Key>)
    requires s != [] && Keyed(s, keys) && Keyed(rest, keys) && multiset(rest) == multiset(s[1..])
    ensures multiset(Insert(s[0], rest, keys)) == multiset(s) && Keyed(Insert(s[0], rest, keys), keys)
  {
    hide Insert;
    InsertKeeps(s[0], rest, keys);
    assert s == [s[0]] + s[1..];
  }

  lemma {:induction false} InsertKeeps(x: string, s: seq<string>, keys: map<string, Key>)
    requires Keyed(s, keys) && x in keys
    ensures multiset(Insert(x, s, keys)) == multiset(s) + multiset{x}
    ensures Keyed(Insert(x, s, keys), keys)
  {
    if s != [] && !Before(keys[x], keys[s[0]]) {
      assert s == [s[0]] + s[1..];
      InsertKeeps(x, s[1..], keys);
    }
    SameMembers(Insert(x, s, keys), s + [x]);
  }

  lemma SameMembers(a: seq<string>, b: seq<string>)
    ensures multiset(a) == multiset(b) ==> forall x :: x in a <==> x in b
  {
    if multiset(a) == multiset(b) {
      forall x ensures x in a <==> x in b {
        assert x in a <==> x in multiset(a);
      }
    }
  }

  lemma {:induction false} InsertOrders(x: string, s: seq<string>, keys: map<string, Key>)
    requires Keyed(s, keys) && x in keys && Ordered(s, keys)
    ensures Keyed(Insert(x, s, keys), keys) && Ordered(Insert(x, s, keys), keys)
  {
    InsertKeeps(x, s, keys);
    if s == [] {
    } else if Before(keys[x], keys[s[0]]) {
      assert ([x] + s)[1..] == s;
      forall y | y in s ensures Before(keys[x], keys[y]) {
        assert y == s[0] || y in s[1..];
      }
    } else {
      var rest := Insert(x, s[1..], keys);
      InsertKeeps(x, s[1..], keys);
      InsertOrders(x, s[1..], keys);
      SameMembers(rest, s[1..] + [x]);
      assert ([s[0]] + rest)[1..] == rest;
    }
  }

  lemma {:induction false} SortOrders(s: seq<string>, keys: map<string, Key>)
    requires Keyed(s, keys)
    ensures Ordered(SortBy(s, keys), keys)
  {
    if s != [] {
      SortOrders(s[1..], keys);
      InsertOrders(s[0], SortBy(s[1..], keys), keys);
    }
  }

  ghost predicate DistinctKeys(s: seq<string>, keys: map<string, Key>)
    requires Keyed(s, keys)
  {
    forall x, y :: x in s && y in s && x != y ==> keys[x].origin != keys[y].origin
  }

  lemma SameHead(a: seq<string>, b: seq<string>, keys: map<string, Key>)
    requires Keyed(a, keys) && Keyed(b, keys) && DistinctKeys(a, keys)
    requires Ordered(a, keys) && Ordered(b, keys)
    requires a != [] && b != [] && forall x :: x in a <==> x in b
    ensures a[0] == b[0]
  {
    assert a[0] in b && b[0] in a;
  }

  lemma SameTails(a: seq<string>, b: seq<string>)
    requires a != [] && b != [] && a[0] == b[0] && multiset(a) == multiset(b)
    ensures multiset(a[1..]) == multiset(b[1..])
  {
    assert a == [a[0]] + a[1..] && b == [b[0]] + b[1..];
    assert multiset(a[1..]) == multiset(a) - multiset{a[0]};
    assert multiset(b[1..]) == multiset(b) - multiset{b[0]};
  }

  /** With distinct keys an ordered arrangement is unique, so sorting forgets where it started. */
  lemma {:induction false} OrderedUnique(a: seq<string>, b: seq<string>, keys: map<string, Key>)
    requires Keyed(a, keys) && Keyed(b, keys) && DistinctKeys(a, keys)
    requires Ordered(a, keys) && Ordered(b, keys) && multiset(a) == multiset(b)
    ensures a == b
  {
    SameMembers(a, b);
    assert |a| == |multiset(a)| == |multiset(b)| == |b|;
    if a != [] {
      SameHead(a, b, keys);
      SameTails(a, b);
      assert forall x :: x in a[1..] ==> x in a;
      OrderedUnique(a[1..], b[1..], keys);
    }
  }

  // ---- keys ---------------------------------------------------------------

  function Sum(neighbours: seq<string>, order: map<string, nat>): nat {
    if neighbours == [] then 0 else
      Sum(neighbours[1..], order) + if neighbours[0] in order then order[neighbours[0]] else 0
  }

  function Known(neighbours: seq<string>, order: map<string, nat>): nat {
    if neighbours == [] then 0 else
      Known(neighbours[1..], order) + if neighbours[0] in order then 1 else 0
  }

  /** The mean position of the neighbours that have one. */
  function AverageOrder(neighbours: seq<string>, order: map<string, nat>): Option<real> {
    var n := Known(neighbours, order);
    if n == 0 then None else Some(Sum(neighbours, order) as real / n as real)
  }

  function MinSlot(from: string, children: seq<string>, slots: map<(string, string), nat>): Option<nat> {
    if children == [] then None else
      var rest := MinSlot(from, children[1..], slots);
      if (from, children[0]) !in slots then rest else
        var slot := slots[(from, children[0])];
        if rest.Some? && rest.value < slot then rest else Some(slot)
  }

  function MinOutSlot(from: string, children: seq<string>, slots: map<(string, string), nat>): nat {
    var slot := MinSlot(from, children, slots);
    if slot.Some? then slot.value else 0
  }

  lemma {:induction false} AverageAgrees(neighbours: seq<string>, a: map<string, nat>, b: map<string, nat>)
    requires forall x :: x in neighbours ==> x in a && x in b && a[x] == b[x]
    ensures AverageOrder(neighbours, a) == AverageOrder(neighbours, b)
    ensures Sum(neighbours, a) == Sum(neighbours, b) && Known(neighbours, a) == Known(neighbours, b)
  {
    if neighbours != [] {
      assert forall x :: x in neighbours[1..] ==> x in neighbours;
      AverageAgrees(neighbours[1..], a, b);
    }
  }

  /** The parts of the graph the sweeps read; they do not change. */
  datatype Web = Web(arcs: seq<Arc>, slots: map<(string, string), nat>, origin: map<string, nat>)

  function Origin(w: Web, id: string): nat {
    if id in w.origin then w.origin[id] else 0
  }

  function Mean(w: Web, id: string, neighbours: seq<string>, order: map<string, nat>): real {
    var mean := AverageOrder(neighbours, order);
    if mean.Some? then mean.value else Origin(w, id) as real
  }

  function ParentKeys(w: Web, level: seq<string>, order: map<string, nat>): (r: map<string, Key>)
    ensures Keyed(level, r)
  {
    map id | id in level :: Key(Mean(w, id, Parents(w.arcs, id), order), 0, Origin(w, id))
  }

  function ChildKeys(w: Web, level: seq<string>, order: map<string, nat>): (r: map<string, Key>)
    ensures Keyed(level, r)
  {
    map id | id in level ::
      Key(Mean(w, id, Children(w.arcs, id), order), MinOutSlot(id, Children(w.arcs, id), w.slots), Origin(w, id))
  }

  // ---- sweeps -------------------------------------------------------------

  datatype Rows = Rows(levels: seq<seq<string>>, order: map<string, nat>)

  function Renumber(order: map<string, nat>, level: seq<string>): map<string, nat> {
    if level == [] then order else
      var n := |level| - 1;
      Renumber(order, level[..n])[level[n] := n]
  }

  function Resort(rows: Rows, r: nat, keys: map<string, Key>): (out: Rows)
    requires r < |rows.levels| && Keyed(rows.levels[r], keys)
    ensures |out.levels| == |rows.levels|
  {
    var level := SortBy(rows.levels[r], keys);
    Rows(rows.levels[r := level], Renumber(rows.order, level))
  }

  /** The left-to-right sweep over the first `n` levels. */
  function Forward(w: Web, rows: Rows, n: nat): (out: Rows)
    requires n <= |rows.levels|
    ensures |out.levels| == |rows.levels|
  {
    if n == 0 then rows else
      var before := Forward(w, rows, n - 1);
      Resort(before, n - 1, ParentKeys(w, before.levels[n - 1], before.order))
  }

  /** The right-to-left sweep down to level `r`. */
  function Backward(w: Web, rows: Rows, r: nat): (out: Rows)
    requires r <= |rows.levels|
    ensures |out.levels| == |rows.levels|
    decreases |rows.levels| - r
  {
    if r == |rows.levels| then rows else
      var before := Backward(w, rows, r + 1);
      Resort(before, r, ChildKeys(w, before.levels[r], before.order))
  }

  function Round(w: Web, rows: Rows): (out: Rows)
    ensures |out.levels| == |rows.levels|
  {
    Backward(w, Forward(w, rows, |rows.levels|), 0)
  }

  function Rounds(w: Web, rows: Rows, n: nat): (out: Rows)
    ensures |out.levels| == |rows.levels|
  {
    if n == 0 then rows else Round(w, Rounds(w, rows, n - 1))
  }

  method SweepForward(w: Web, rows0: Rows) returns (rows: Rows)
    ensures rows == Forward(w, rows0, |rows0.levels|)
  {
    hide Resort, ParentKeys;
    rows := rows0;
    for r := 0 to |rows0.levels|
      invariant rows == Forward(w, rows0, r)
    {
      rows := Resort(rows, r, ParentKeys(w, rows.levels[r], rows.order));
    }
  }

  method SweepBackward(w: Web, rows0: Rows) returns (rows: Rows)
    ensures rows == Backward(w, rows0, 0)
  {
    hide Resort, ChildKeys;
    rows := rows0;
    for r := |rows0.levels| downto 0
      invariant rows == Backward(w, rows0, r)
    {
      rows := Resort(rows, r, ChildKeys(w, rows.levels[r], rows.order));
    }
  }

  /** Four rounds, as the layout runs them. */
  method OrderLevels(w: Web, rows0: Rows) returns (rows: Rows)
    ensures rows == Rounds(w, rows0, 4)
  {
    hide Forward, Backward;
    rows := rows0;
    for k := 0 to 4
      invariant rows == Rounds(w, rows0, k)
    {
      rows := SweepForward(w, rows);
      rows := SweepBackward(w, rows);
    }
  }

  // ---- what every sweep keeps ---------------------------------------------

  /** Level for level, the same nodes. */
  ghost predicate SameNodes(a: Rows, b: Rows) {
    && |a.levels| == |b.levels|
    && forall r :: 0 <= r < |a.levels| ==> multiset(a.levels[r]) == multiset(b.levels[r])
  }

  /** From level `from` on, a node's order value is its place in its level. */
  ghost predicate Numbered(rows: Rows, from: nat) {
    forall r, i :: from <= r < |rows.levels| && 0 <= i < |rows.levels[r]| ==>
      rows.levels[r][i] in rows.order && rows.order[rows.levels[r][i]] == i
  }

  /** Every ranked node stands exactly once, in the level of its rank, and nothing else does. */
  ghost predicate Leveled(levels: seq<seq<string>>, ranks: map<string, nat>) {
    && (forall r :: 0 <= r < |levels| ==>
          Distinct(levels[r]) && forall x :: x in levels[r] ==> x in ranks && ranks[x] == r)
    && (forall x :: x in ranks ==> ranks[x] < |levels| && x in levels[ranks[x]])
  }

  lemma ResortKeepsNodes(rows: Rows, r: nat, keys: map<string, Key>, start: Rows)
    requires r < |rows.levels| && Keyed(rows.levels[r], keys) && SameNodes(rows, start)
    ensures SameNodes(Resort(rows, r, keys), start)
  {}

  lemma NothingForward(w: Web, rows: Rows)
    ensures SameNodes(Forward(w, rows, 0), rows)
  {}

  lemma ForwardStep(w: Web, rows: Rows, n: nat)
    requires 0 < n <= |rows.levels|
    ensures var before := Forward(w, rows, n - 1);
      Forward(w, rows, n) == Resort(before, n - 1, ParentKeys(w, before.levels[n - 1], before.order))
  {
    hide Resort, ParentKeys;
  }

  lemma {:induction false} ForwardKeepsNodes(w: Web, rows: Rows, n: nat)
    requires n <= |rows.levels|
    ensures SameNodes(Forward(w, rows, n), rows)
  {
    hide SameNodes, ParentKeys, Resort, Forward;
    if n == 0 {
      NothingForward(w, rows);
    } else {
      ForwardKeepsNodes(w, rows, n - 1);
      ForwardStep(w, rows, n);
      var before := Forward(w, rows, n - 1);
      ResortKeepsNodes(before, n - 1, ParentKeys(w, before.levels[n - 1], before.order), rows);
    }
  }

  lemma NothingBackward(w: Web, rows: Rows)
    ensures SameNodes(Backward(w, rows, |rows.levels|), rows)
  {}

  lemma BackwardStep(w: Web, rows: Rows, r: nat)
    requires r < |rows.levels|
    ensures var before := Backward(w, rows, r + 1);
      Backward(w, rows, r) == Resort(before, r, ChildKeys(w, before.levels[r], before.order))
  {
    hide Resort, ChildKeys;
  }

  lemma {:induction false} BackwardKeepsNodes(w: Web, rows: Rows, r: nat)
    requires r <= |rows.levels|
    ensures SameNodes(Backward(w, rows, r), rows)
    decreases |rows.levels| - r
  {
    hide SameNodes, ChildKeys, Resort, Backward;
    if r == |rows.levels| {
      NothingBackward(w, rows);
    } else {
      BackwardKeepsNodes(w, rows, r + 1);
      BackwardStep(w, rows, r);
      var before := Backward(w, rows, r + 1);
      ResortKeepsNodes(before, r, ChildKeys(w, before.levels[r], before.order), rows);
    }
  }

  lemma RoundKeepsNodes(w: Web, before: Rows, rows: Rows)
    requires SameNodes(before, rows)
    ensures SameNodes(Round(w, before), rows)
  {
    hide Forward, Backward;
    ForwardKeepsNodes(w, before, |before.levels|);
    BackwardKeepsNodes(w, Forward(w, before, |before.levels|), 0);
  }

  lemma SameAsItself(rows: Rows)
    ensures SameNodes(rows, rows)
  {}

  lemma {:induction false} RoundsKeepNodes(w: Web, rows: Rows, n: nat)
    ensures SameNodes(Rounds(w, rows, n), rows)
  {
    hide SameNodes, Round;
    if n == 0 {
      SameAsItself(rows);
    } else {
      RoundsKeepNodes(w, rows, n - 1);
      RoundKeepsNodes(w, Rounds(w, rows, n - 1), rows);
    }
  }

  lemma {:induction false} DistinctByCount(s: seq<string>)
    ensures Distinct(s) <==> forall x :: multiset(s)[x] <= 1
  {
    if s != [] {
      var rest := s[1..];
      assert s == [s[0]] + rest;
      DistinctByCount(rest);
      assert forall x :: multiset(s)[x] == multiset(rest)[x] + if x == s[0] then 1 else 0;
      if Distinct(s) {
        assert s[0] !in rest;
        assert Distinct(rest);
      } else if Distinct(rest) {
        assert s[0] in rest;
        assert multiset(s)[s[0]] >= 2;
      } else {
        var x :| multiset(rest)[x] > 1;
        assert multiset(s)[x] > 1;
      }
    }
  }

  lemma LeveledStays(a: Rows, b: Rows, ranks: map<string, nat>)
    requires SameNodes(a, b) && Leveled(b.levels, ranks)
    ensures Leveled(a.levels, ranks)
  {
    forall r | 0 <= r < |a.levels|
      ensures Distinct(a.levels[r]) && forall x :: x in a.levels[r] <==> x in b.levels[r]
    {
      DistinctByCount(a.levels[r]);
      DistinctByCount(b.levels[r]);
      SameMembers(a.levels[r], b.levels[r]);
    }
  }

  lemma {:induction false} RenumberAt(order: map<string, nat>, level: seq<string>)
    requires Distinct(level)
    ensures forall i :: 0 <= i < |level| ==> level[i] in Renumber(order, level) && Renumber(order, level)[level[i]] == i
    ensures forall x :: x !in level ==> (x in Renumber(order, level) <==> x in order)
    ensures forall x :: x !in level && x in order ==> Renumber(order, level)[x] == order[x]
  {
    if level != [] {
      var n := |level| - 1;
      var rest := level[..n];
      assert level == rest + [level[n]];
      RenumberAt(order, rest);
      forall i | 0 <= i < n ensures Renumber(order, level)[level[i]] == i {
        assert rest[i] == level[i];
      }
    }
  }

  ghost predicate LevelNumbered(rows: Rows, r: nat)
    requires r < |rows.levels|
  {
    forall i :: 0 <= i < |rows.levels[r]| ==>
      rows.levels[r][i] in rows.order && rows.order[rows.levels[r][i]] == i
  }

  /** Level `r` apart, the same levels, and the same numbers for what is ranked elsewhere. */
  ghost predicate SameElsewhere(a: Rows, b: Rows, r: nat, ranks: map<string, nat>) {
    && |a.levels| == |b.levels|
    && (forall s :: 0 <= s < |a.levels| && s != r ==> b.levels[s] == a.levels[s])
    && (forall x :: x in a.order && (x in ranks ==> ranks[x] != r) ==> x in b.order && b.order[x] == a.order[x])
  }

  /** Resorting one level numbers it and leaves the other levels and their numbers alone. */
  lemma ResortNumbers(rows: Rows, r: nat, keys: map<string, Key>, ranks: map<string, nat>)
    requires r < |rows.levels| && Keyed(rows.levels[r], keys) && Leveled(rows.levels, ranks)
    ensures var out := Resort(rows, r, keys);
      Leveled(out.levels, ranks) && LevelNumbered(out, r) && SameElsewhere(rows, out, r, ranks)
  {
    var out := Resort(rows, r, keys);
    assert SameNodes(out, rows);
    LeveledStays(out, rows, ranks);
    RenumberAt(rows.order, out.levels[r]);
  }

  lemma {:induction false} BackwardNumbers(w: Web, rows: Rows, r: nat, ranks: map<string, nat>)
    requires r <= |rows.levels| && Leveled(rows.levels, ranks)
    ensures Leveled(Backward(w, rows, r).levels, ranks) && Numbered(Backward(w, rows, r), r)
    decreases |rows.levels| - r
  {
    hide Leveled, Resort, ChildKeys, LevelNumbered, SameElsewhere;
    if r < |rows.levels| {
      hide Numbered, Backward;
      var before := Backward(w, rows, r + 1);
      var keys := ChildKeys(w, before.levels[r], before.order);
      BackwardNumbers(w, rows, r + 1, ranks);
      BackwardStep(w, rows, r);
      ResortNumbers(before, r, keys, ranks);
      NumberedDown(before, Resort(before, r, keys), r, ranks);
    }
  }

  lemma NumberedDown(before: Rows, out: Rows, r: nat, ranks: map<string, nat>)
    requires Leveled(before.levels, ranks) && Numbered(before, r + 1) && r < |before.levels| == |out.levels|
    requires LevelNumbered(out, r) && SameElsewhere(before, out, r, ranks)
    ensures Numbered(out, r)
  {
    forall s, i | r <= s < |out.levels| && 0 <= i < |out.levels[s]|
      ensures out.levels[s][i] in out.order && out.order[out.levels[s][i]] == i
    {
      if s > r {
        var x := before.levels[s][i];
        assert x in before.levels[s] && ranks[x] == s;
      }
    }
  }

  /** The rows the last right-to-left sweep of `n` rounds starts from. */
  function LastTurn(w: Web, rows: Rows, n: nat): (out: Rows)
    requires n > 0
    ensures |out.levels| == |rows.levels|
  {
    Forward(w, Rounds(w, rows, n - 1), |rows.levels|)
  }

  lemma RoundsEnd(w: Web, rows: Rows, n: nat)
    requires n > 0
    ensures Rounds(w, rows, n) == Backward(w, LastTurn(w, rows, n), 0)
  {
    hide Forward, Backward;
  }

  lemma LastTurnKeeps(w: Web, rows: Rows, n: nat, ranks: map<string, nat>)
    requires n > 0 && Leveled(rows.levels, ranks)
    ensures SameNodes(LastTurn(w, rows, n), rows) && Leveled(LastTurn(w, rows, n).levels, ranks)
  {
    hide Leveled, Forward, Rounds;
    RoundsKeepNodes(w, rows, n - 1);
    ForwardKeepsNodes(w, Rounds(w, rows, n - 1), |rows.levels|);
    assert SameNodes(LastTurn(w, rows, n), rows);
    LeveledStays(LastTurn(w, rows, n), rows, ranks);
  }

  /** After any positive number of rounds the order values of every level are exactly 0, 1, 2, ... */
  lemma RoundsNumber(w: Web, rows: Rows, n: nat, ranks: map<string, nat>)
    requires n > 0 && Leveled(rows.levels, ranks)
    ensures Leveled(Rounds(w, rows, n).levels, ranks) && Numbered(Rounds(w, rows, n), 0)
  {
    hide Leveled, Numbered, SameNodes, Rounds, Backward, LastTurn;
    LastTurnKeeps(w, rows, n, ranks);
    RoundsEnd(w, rows, n);
    BackwardNumbers(w, LastTurn(w, rows, n), 0, ranks);
  }

  // ---- the last sweep decides ---------------------------------------------

  ghost predicate OwnOrigins(w: Web, ranks: map<string, nat>) {
    forall x, y :: x in ranks && y in ranks && x != y ==> Origin(w, x) != Origin(w, y)
  }

  ghost predicate SameChildren(w: Web, level: seq<string>, a: map<string, nat>, b: map<string, nat>) {
    forall x, c :: x in level && Arc(x, c) in w.arcs ==> c in a && c in b && a[c] == b[c]
  }

  lemma ChildKeysAgree(w: Web, level: seq<string>, other: seq<string>, a: map<string, nat>, b: map<string, nat>)
    requires multiset(level) == multiset(other) && SameChildren(w, level, a, b)
    ensures ChildKeys(w, level, a) == ChildKeys(w, other, b)
  {
    SameMembers(level, other);
    forall x | x in level ensures Mean(w, x, Children(w.arcs, x), a) == Mean(w, x, Children(w.arcs, x), b) {
      forall c | c in Children(w.arcs, x) ensures c in a && c in b && a[c] == b[c] {
        ChildrenAreArcs(w.arcs, x, c);
      }
      AverageAgrees(Children(w.arcs, x), a, b);
    }
  }

  ghost predicate AgreeFrom(a: Rows, b: Rows, r: nat) {
    && |a.levels| == |b.levels|
    && forall s :: r <= s < |a.levels| ==> a.levels[s] == b.levels[s]
  }

  /** Both orders number level `s`, so they agree on everything ranked `r` or above. */
  lemma AgreeOnOrder(a: Rows, b: Rows, r: nat, ranks: map<string, nat>, x: string)
    requires AgreeFrom(a, b, r) && Numbered(a, r) && Numbered(b, r)
    requires Leveled(a.levels, ranks) && x in ranks && ranks[x] >= r
    ensures x in a.order && x in b.order && a.order[x] == b.order[x]
  {
    var level := a.levels[ranks[x]];
    assert x in level;
    var i :| 0 <= i < |level| && level[i] == x;
    assert b.levels[ranks[x]][i] == x;
  }

  lemma SortAgrees(a: seq<string>, b: seq<string>, keys: map<string, Key>)
    requires Keyed(a, keys) && Keyed(b, keys) && multiset(a) == multiset(b) && DistinctKeys(a, keys)
    ensures SortBy(a, keys) == SortBy(b, keys)
  {
    SortOrders(a, keys);
    SortOrders(b, keys);
    SameMembers(SortBy(a, keys), a);
    OrderedUnique(SortBy(a, keys), SortBy(b, keys), keys);
  }

  lemma HigherChildrenAgree(w: Web, a: Rows, b: Rows, r: nat, level: seq<string>, ranks: map<string, nat>)
    requires RisesAlongArcs(w.arcs, ranks) && Leveled(a.levels, ranks)
    requires AgreeFrom(a, b, r + 1) && Numbered(a, r + 1) && Numbered(b, r + 1)
    requires forall x :: x in level ==> x in ranks && ranks[x] >= r
    ensures SameChildren(w, level, a.order, b.order)
  {
    forall x, c | x in level && Arc(x, c) in w.arcs
      ensures c in a.order && c in b.order && a.order[c] == b.order[c]
    {
      AgreeOnOrder(a, b, r + 1, ranks, c);
    }
  }

  lemma ResortForgets(w: Web, x: Rows, y: Rows, r: nat, ranks: map<string, nat>)
    requires r < |x.levels| && SameNodes(x, y) && Leveled(x.levels, ranks)
    requires AgreeFrom(x, y, r + 1) && Numbered(x, r + 1) && Numbered(y, r + 1)
    requires RisesAlongArcs(w.arcs, ranks) && OwnOrigins(w, ranks)
    ensures AgreeFrom(Resort(x, r, ChildKeys(w, x.levels[r], x.order)),
        Resort(y, r, ChildKeys(w, y.levels[r], y.order)), r)
  {
    HigherChildrenAgree(w, x, y, r, x.levels[r], ranks);
    ChildKeysAgree(w, x.levels[r], y.levels[r], x.order, y.order);
    SortAgrees(x.levels[r], y.levels[r], ChildKeys(w, x.levels[r], x.order));
  }

  lemma BackwardFacts(w: Web, a: Rows, b: Rows, r: nat, ranks: map<string, nat>)
    requires r <= |a.levels| && SameNodes(a, b) && Leveled(a.levels, ranks)
    ensures SameNodes(Backward(w, a, r), Backward(w, b, r)) && Leveled(Backward(w, a, r).levels, ranks)
    ensures Numbered(Backward(w, a, r), r) && Numbered(Backward(w, b, r), r)
  {
    hide Leveled, Numbered, Backward;
    LeveledStays(b, a, ranks);
    BackwardNumbers(w, a, r, ranks);
    BackwardNumbers(w, b, r, ranks);
    BackwardKeepsNodes(w, a, r);
    BackwardKeepsNodes(w, b, r);
  }

  /** On rising ranks a backward sweep forgets where it started. */
  lemma {:induction false} BackwardForgets(w: Web, a: Rows, b: Rows, r: nat, ranks: map<string, nat>)
    requires r <= |a.levels| && SameNodes(a, b) && Leveled(a.levels, ranks)
    requires RisesAlongArcs(w.arcs, ranks) && OwnOrigins(w, ranks)
    ensures AgreeFrom(Backward(w, a, r), Backward(w, b, r), r)
    decreases |a.levels| - r
  {
    hide RisesAlongArcs, OwnOrigins, Leveled, Numbered, Resort, ChildKeys;
    if r < |a.levels| {
      BackwardForgets(w, a, b, r + 1, ranks);
      BackwardFacts(w, a, b, r + 1, ranks);
      ResortForgets(w, Backward(w, a, r + 1), Backward(w, b, r + 1), r, ranks);
    }
  }

  /**
   On rising ranks the outcome of all the rounds is that of one right-to-left sweep
   over the unsorted levels: parent sweeps leave no trace.
   */
  lemma LastSweepDecides(w: Web, rows: Rows, n: nat, ranks: map<string, nat>)
    requires n > 0 && Leveled(rows.levels, ranks)
    requires RisesAlongArcs(w.arcs, ranks) && OwnOrigins(w, ranks)
    ensures Rounds(w, rows, n).levels == Backward(w, rows, 0).levels
  {
    hide Leveled, RisesAlongArcs, OwnOrigins, SameNodes, Rounds, Backward, LastTurn;
    LastTurnKeeps(w, rows, n, ranks);
    RoundsEnd(w, rows, n);
    BackwardForgets(w, LastTurn(w, rows, n), rows, 0, ranks);
  }

  /** Each level from `from` on is sorted by where the children of its nodes stand. */
  ghost predicate SortedByChildren(w: Web, rows: Rows, from: nat) {
    forall s :: from <= s < |rows.levels| ==>
      Ordered(rows.levels[s], ChildKeys(w, rows.levels[s], rows.order))
  }

  lemma KeysSurviveResort(w: Web, rows: Rows, r: nat, keys: map<string, Key>, ranks: map<string, nat>, s: nat)
    requires r <= s < |rows.levels| && Keyed(rows.levels[r], keys)
    requires Leveled(rows.levels, ranks) && RisesAlongArcs(w.arcs, ranks) && Numbered(rows, r + 1)
    ensures var out := Resort(rows, r, keys);
      ChildKeys(w, out.levels[s], out.order) == ChildKeys(w, rows.levels[s], rows.order)
  {
    var out := Resort(rows, r, keys);
    ResortNumbers(rows, r, keys, ranks);
    forall x, c | x in rows.levels[s] && Arc(x, c) in w.arcs
      ensures c in rows.order && c in out.order && rows.order[c] == out.order[c]
    {
      var i :| 0 <= i < |rows.levels[ranks[c]]| && rows.levels[ranks[c]][i] == c;
    }
    ChildKeysAgree(w, rows.levels[s], out.levels[s], rows.order, out.order);
  }

  lemma ResortSorts(w: Web, rows: Rows, r: nat, ranks: map<string, nat>)
    requires r < |rows.levels| && Leveled(rows.levels, ranks) && RisesAlongArcs(w.arcs, ranks)
    requires Numbered(rows, r + 1) && SortedByChildren(w, rows, r + 1)
    ensures SortedByChildren(w, Resort(rows, r, ChildKeys(w, rows.levels[r], rows.order)), r)
  {
    hide Leveled, RisesAlongArcs, Numbered, ChildKeys, SortBy;
    var keys := ChildKeys(w, rows.levels[r], rows.order);
    SortOrders(rows.levels[r], keys);
    var out := Resort(rows, r, keys);
    forall s | r <= s < |out.levels|
      ensures Ordered(out.levels[s], ChildKeys(w, out.levels[s], out.order))
    {
      KeysSurviveResort(w, rows, r, keys, ranks, s);
    }
  }

  lemma {:induction false} BackwardSorts(w: Web, rows: Rows, r: nat, ranks: map<string, nat>)
    requires r <= |rows.levels| && Leveled(rows.levels, ranks) && RisesAlongArcs(w.arcs, ranks)
    ensures SortedByChildren(w, Backward(w, rows, r), r)
    decreases |rows.levels| - r
  {
    hide Leveled, RisesAlongArcs, Numbered, Resort, ChildKeys;
    if r < |rows.levels| {
      BackwardSorts(w, rows, r + 1, ranks);
      BackwardNumbers(w, rows, r + 1, ranks);
      ResortSorts(w, Backward(w, rows, r + 1), r, ranks);
    }
  }

  /** On rising ranks the final rows are sorted by the final rows of their children. */
  lemma RoundsSort(w: Web, rows: Rows, n: nat, ranks: map<string, nat>)
    requires n > 0 && Leveled(rows.levels, ranks) && RisesAlongArcs(w.arcs, ranks)
    ensures SortedByChildren(w, Rounds(w, rows, n), 0)
  {
    hide Leveled, RisesAlongArcs, SortedByChildren, SameNodes, Rounds, Backward, LastTurn;
    LastTurnKeeps(w, rows, n, ranks);
    RoundsEnd(w, rows, n);
    BackwardSorts(w, LastTurn(w, rows, n), 0, ranks);
  }
}
