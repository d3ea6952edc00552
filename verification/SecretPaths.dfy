/**
 Masking the values at declared paths of a tree. A path is a list of segments;
 `*` stands for any member or element.
 */
module SecretPaths {
  import opened JsonValues
  import opened Text
  import opened Redactor
  import opened SecretScan

  const MASK := Str(REDACTED)

  // ---- segments -----------------------------------------------------------

  function Segments(path: string): seq<string> {
    NonEmpty(Split(TrimSlashes(path), '/'))
  }

  function TrimSlashes(path: string): string {
    if path != "" && path[0] == '/' then TrimSlashes(path[1..]) else path
  }

  // ---- one path -----------------------------------------------------------

  predicate NamesMember(head: string, key: string) {
    head == "*" || head == key
  }

  predicate NamesItem(head: string, index: nat) {
    head == "*" || ParseUsize(head) == Some(index)
  }

  function MaskAt(value: Json, segments: seq<string>): Json
    decreases value, 1
  {
    if segments == [] then MASK else
      match value
      case Obj(members) => Obj(MaskMembers(members, |members|, segments[0], segments[1..]))
      case Arr(items) => Arr(MaskItems(items, |items|, segments[0], segments[1..]))
      case _ => value
  }

  /** The first `n` members, those the segment names masked further. */
  function MaskMembers(members: seq<Member>, n: nat, head: string, rest: seq<string>): (r: seq<Member>)
    requires n <= |members|
    ensures |r| == n
    decreases members, n
  {
    if n == 0 then [] else
      var m := members[n - 1];
      MaskMembers(members, n - 1, head, rest)
      + [Member(m.key, if NamesMember(head, m.key) then MaskAt(m.value, rest) else m.value)]
  }

  function MaskItems(items: seq<Json>, n: nat, head: string, rest: seq<string>): (r: seq<Json>)
    requires n <= |items|
    ensures |r| == n
    decreases items, n
  {
    if n == 0 then [] else
      MaskItems(items, n - 1, head, rest)
      + [if NamesItem(head, n - 1) then MaskAt(items[n - 1], rest) else items[n - 1]]
  }

  /** Visits the named children one by one; an index visits at most one. */
  method Mask(value: Json, segments: seq<string>) returns (out: Json)
    ensures out == MaskAt(value, segments)
    decreases value
  {
    if segments == [] {
      return MASK;
    }
    var head, rest := segments[0], segments[1..];
    match value {
      case Obj(members) =>
        var done := [];
        for i := 0 to |members|
          invariant done == MaskMembers(members, i, head, rest)
        {
          var child := members[i].value;
          if NamesMember(head, members[i].key) {
            child := Mask(child, rest);
          }
          done := done + [Member(members[i].key, child)];
        }
        out := Obj(done);
      case Arr(items) =>
        var done := [];
        for i := 0 to |items|
          invariant done == MaskItems(items, i, head, rest)
        {
          var child := items[i];
          if NamesItem(head, i) {
            child := Mask(child, rest);
          }
          done := done + [child];
        }
        out := Arr(done);
      case _ => out := value;
    }
  }

  // ---- all paths at once --------------------------------------------------

  function MemberTails(paths: set<seq<string>>, key: string): set<seq<string>> {
    set p | p in paths && p != [] && NamesMember(p[0], key) :: p[1..]
  }

  function ItemTails(paths: set<seq<string>>, index: nat): set<seq<string>> {
    set p | p in paths && p != [] && NamesItem(p[0], index) :: p[1..]
  }

  /** Every path followed in step: what one of them names whole is masked, the rest stays. */
  function MaskAll(value: Json, paths: set<seq<string>>): Json
    decreases value, 1
  {
    if [] in paths then MASK else
      match value
      case Obj(members) => Obj(MaskAllMembers(members, |members|, paths))
      case Arr(items) => Arr(MaskAllItems(items, |items|, paths))
      case _ => value
  }

  function MaskAllMembers(members: seq<Member>, n: nat, paths: set<seq<string>>): (r: seq<Member>)
    requires n <= |members|
    ensures |r| == n
    decreases members, n
  {
    if n == 0 then [] else
      var m := members[n - 1];
      MaskAllMembers(members, n - 1, paths) + [Member(m.key, MaskAll(m.value, MemberTails(paths, m.key)))]
  }

  function MaskAllItems(items: seq<Json>, n: nat, paths: set<seq<string>>): (r: seq<Json>)
    requires n <= |items|
    ensures |r| == n
    decreases items, n
  {
    if n == 0 then [] else
      MaskAllItems(items, n - 1, paths) + [MaskAll(items[n - 1], ItemTails(paths, n - 1))]
  }

  lemma TailsAdd(paths: set<seq<string>>, p: seq<string>, key: string, index: nat)
    requires p != []
    ensures MemberTails(paths + {p}, key)
      == if NamesMember(p[0], key) then MemberTails(paths, key) + {p[1..]} else MemberTails(paths, key)
    ensures ItemTails(paths + {p}, index)
      == if NamesItem(p[0], index) then ItemTails(paths, index) + {p[1..]} else ItemTails(paths, index)
  {
    forall t | t in MemberTails(paths, key) ensures t in MemberTails(paths + {p}, key) {
      var q :| q in paths && q != [] && NamesMember(q[0], key) && q[1..] == t;
      assert q in paths + {p};
    }
    forall t | t in ItemTails(paths, index) ensures t in ItemTails(paths + {p}, index) {
      var q :| q in paths && q != [] && NamesItem(q[0], index) && q[1..] == t;
      assert q in paths + {p};
    }
    assert p in paths + {p};
  }

  /** One more path, followed after the others, is one more path followed in step with them. */
  lemma {:induction false} OneMorePath(value: Json, paths: set<seq<string>>, p: seq<string>)
    ensures MaskAt(MaskAll(value, paths), p) == MaskAll(value, paths + {p})
    decreases value, 1
  {
    if [] !in paths && p != [] {
      match value {
        case Obj(members) => OneMoreInMembers(members, |members|, paths, p);
        case Arr(items) => OneMoreInItems(items, |items|, paths, p);
        case _ =>
      }
    }
  }

  lemma {:induction false} OneMoreInMembers(members: seq<Member>, n: nat, paths: set<seq<string>>, p: seq<string>)
    requires n <= |members| && p != []
    ensures MaskMembers(MaskAllMembers(members, |members|, paths), n, p[0], p[1..])
        == MaskAllMembers(members, n, paths + {p})
    decreases members, n
  {
    hide MemberTails, ItemTails, NamesMember, MaskAt, MaskAll;
    if n > 0 {
      var m := members[n - 1];
      OneMoreInMembers(members, n - 1, paths, p);
      MaskAllMemberAt(members, |members|, paths, n - 1);
      OneMorePath(m.value, MemberTails(paths, m.key), p[1..]);
      TailsAdd(paths, p, m.key, 0);
    }
  }

  lemma {:induction false} OneMoreInItems(items: seq<Json>, n: nat, paths: set<seq<string>>, p: seq<string>)
    requires n <= |items| && p != []
    ensures MaskItems(MaskAllItems(items, |items|, paths), n, p[0], p[1..]) == MaskAllItems(items, n, paths + {p})
    decreases items, n
  {
    hide MemberTails, ItemTails, NamesItem, MaskAt, MaskAll;
    if n > 0 {
      OneMoreInItems(items, n - 1, paths, p);
      MaskAllItemAt(items, |items|, paths, n - 1);
      OneMorePath(items[n - 1], ItemTails(paths, n - 1), p[1..]);
      TailsAdd(paths, p, "", n - 1);
    }
  }

  lemma {:induction false} MaskAllMemberAt(members: seq<Member>, n: nat, paths: set<seq<string>>, i: nat)
    requires i < n <= |members|
    ensures MaskAllMembers(members, n, paths)[i] == Member(members[i].key,
        MaskAll(members[i].value, MemberTails(paths, members[i].key)))
  {
    if i < n - 1 { MaskAllMemberAt(members, n - 1, paths, i); }
  }

  lemma {:induction false} MaskAllItemAt(items: seq<Json>, n: nat, paths: set<seq<string>>, i: nat)
    requires i < n <= |items|
    ensures MaskAllItems(items, n, paths)[i] == MaskAll(items[i], ItemTails(paths, i))
  {
    if i < n - 1 { MaskAllItemAt(items, n - 1, paths, i); }
  }

  lemma {:induction false} NoPaths(value: Json)
    ensures MaskAll(value, {}) == value
    decreases value, 1
  {
    match value {
      case Obj(members) =>
        NoPathsInMembers(members, |members|);
        assert members[..|members|] == members;
      case Arr(items) =>
        NoPathsInItems(items, |items|);
        assert items[..|items|] == items;
      case _ =>
    }
  }

  lemma {:induction false} NoPathsInMembers(members: seq<Member>, n: nat)
    requires n <= |members|
    ensures MaskAllMembers(members, n, {}) == members[..n]
    decreases members, n
  {
    if n > 0 {
      NoPathsInMembers(members, n - 1);
      assert MemberTails({}, members[n - 1].key) == {};
      NoPaths(members[n - 1].value);
    }
  }

  lemma {:induction false} NoPathsInItems(items: seq<Json>, n: nat)
    requires n <= |items|
    ensures MaskAllItems(items, n, {}) == items[..n]
    decreases items, n
  {
    if n > 0 {
      NoPathsInItems(items, n - 1);
      assert ItemTails({}, n - 1) == {};
      NoPaths(items[n - 1]);
    }
  }

  // ---- a list of paths ----------------------------------------------------

  /** The paths a list names; a path without segments names nothing. */
  function PathSet(paths: seq<string>): set<seq<string>> {
    set p | p in paths && Segments(p) != [] :: Segments(p)
  }

  function MaskPaths(value: Json, paths: seq<string>): Json {
    if paths == [] then value else
      var before := MaskPaths(value, paths[..|paths| - 1]);
      var segments := Segments(paths[|paths| - 1]);
      if segments == [] then before else MaskAt(before, segments)
  }

  method MaskSecretPaths(value: Json, paths: seq<string>) returns (out: Json)
    ensures out == MaskPaths(value, paths)
    ensures out == MaskAll(value, PathSet(paths))
  {
    out := value;
    for i := 0 to |paths|
      invariant out == MaskPaths(value, paths[..i])
    {
      assert paths[..i + 1][..i] == paths[..i];
      var segments := Segments(paths[i]);
      if segments != [] {
        out := Mask(out, segments);
      }
    }
    assert paths[..|paths|] == paths;
    NoPaths(value);
    MaskPathsInStep(value, {}, paths);
    assert {} + PathSet(paths) == PathSet(paths);
  }

  lemma {:induction false} MaskPathsInStep(value: Json, paths: set<seq<string>>, more: seq<string>)
    ensures MaskPaths(MaskAll(value, paths), more) == MaskAll(value, paths + PathSet(more))
  {
    if more == [] {
      assert paths + PathSet(more) == paths;
    } else {
      var rest, last := more[..|more| - 1], more[|more| - 1];
      assert more == rest + [last];
      MaskPathsInStep(value, paths, rest);
      OneMorePath(value, paths + PathSet(rest), Segments(last));
      PathSetAdd(rest, last);
      assert paths + PathSet(more) == paths + PathSet(rest) + if Segments(last) == [] then {} else {Segments(last)};
      assert paths + PathSet(rest) + {} == paths + PathSet(rest);
    }
  }

  lemma PathSetAdd(paths: seq<string>, p: string)
    ensures PathSet(paths + [p]) == PathSet(paths) + if Segments(p) == [] then {} else {Segments(p)}
  {
    assert forall q :: q in paths + [p] <==> q in paths || q == p;
  }

  /** Only which paths are listed matters: not their order, not how often. */
  lemma PathOrderIrrelevant(value: Json, a: seq<string>, b: seq<string>)
    requires PathSet(a) == PathSet(b)
    ensures MaskPaths(value, a) == MaskPaths(value, b)
  {
    NoPaths(value);
    MaskPathsInStep(value, {}, a);
    MaskPathsInStep(value, {}, b);
  }

  /** Masking again, with the same paths or fewer, changes nothing. */
  lemma MaskingTwice(value: Json, paths: seq<string>, again: seq<string>)
    requires PathSet(again) <= PathSet(paths)
    ensures MaskPaths(MaskPaths(value, paths), again) == MaskPaths(value, paths)
  {
    NoPaths(value);
    MaskPathsInStep(value, {}, paths);
    assert {} + PathSet(paths) == PathSet(paths);
    MaskPathsInStep(value, PathSet(paths), again);
    assert PathSet(paths) + PathSet(again) == PathSet(paths);
  }

  // ---- positions ----------------------------------------------------------

  /** The children of a value, by place. */
  function Children(value: Json): nat {
    match value
    case Obj(members) => |members|
    case Arr(items) => |items|
    case _ => 0
  }

  function Child(value: Json, i: nat): Json
    requires i < Children(value)
  {
    if value.Obj? then value.members[i].value else value.items[i]
  }

  predicate NamesChild(value: Json, i: nat, head: string)
    requires i < Children(value)
  {
    if value.Obj? then NamesMember(head, value.members[i].key) else NamesItem(head, i)
  }

  /** What stands at a position, if anything does. */
  function At(value: Json, position: seq<nat>): Option<Json>
    decreases |position|
  {
    if position == [] then Some(value)
    else if position[0] < Children(value) then At(Child(value, position[0]), position[1..])
    else None
  }

  /** The path leads exactly to the position. */
  predicate Leads(value: Json, position: seq<nat>, path: seq<string>)
    decreases |position|
  {
    if position == [] || path == [] then position == [] && path == [] else (
      && position[0] < Children(value)
      && NamesChild(value, position[0], path[0])
      && Leads(Child(value, position[0]), position[1..], path[1..]))
  }

  ghost predicate Hit(value: Json, position: seq<nat>, paths: set<seq<string>>) {
    exists p :: p in paths && Leads(value, position, p)
  }

  /** Some position strictly above is hit. */
  ghost predicate HitAbove(value: Json, position: seq<nat>, paths: set<seq<string>>) {
    exists n :: 0 <= n < |position| && Hit(value, position[..n], paths)
  }

  /** The same value, or a container with the same keys or length. */
  predicate SameShape(a: Json, b: Json) {
    match (a, b)
    case (Obj(m), Obj(k)) => |m| == |k| && forall i :: 0 <= i < |m| ==> m[i].key == k[i].key
    case (Arr(x), Arr(y)) => |x| == |y|
    case _ => a == b
  }

  function TailsAt(value: Json, i: nat, paths: set<seq<string>>): set<seq<string>>
    requires i < Children(value)
  {
    if value.Obj? then MemberTails(paths, value.members[i].key) else ItemTails(paths, i)
  }

  lemma HitBelow(value: Json, position: seq<nat>, paths: set<seq<string>>)
    requires position != [] && position[0] < Children(value)
    ensures Hit(value, position, paths) <==> Hit(Child(value, position[0]), position[1..],
        TailsAt(value, position[0], paths))
  {
    var child, tails := Child(value, position[0]), TailsAt(value, position[0], paths);
    if Hit(value, position, paths) {
      var p :| p in paths && Leads(value, position, p);
      assert p[1..] in tails && Leads(child, position[1..], p[1..]);
    }
    if Hit(child, position[1..], tails) {
      var t :| t in tails && Leads(child, position[1..], t);
      var p :| p in paths && p != [] && NamesChild(value, position[0], p[0]) && p[1..] == t;
      assert Leads(value, position, p);
    }
  }

  lemma HitAboveBelow(value: Json, position: seq<nat>, paths: set<seq<string>>)
    requires position != [] && position[0] < Children(value) && [] !in paths
    ensures HitAbove(value, position, paths)
       <==> HitAbove(Child(value, position[0]), position[1..], TailsAt(value, position[0], paths))
  {
    var child, tails := Child(value, position[0]), TailsAt(value, position[0], paths);
    if HitAbove(value, position, paths) {
      var n :| 0 <= n < |position| && Hit(value, position[..n], paths);
      assert n > 0;
      HitBelow(value, position[..n], paths);
      assert position[..n][1..] == position[1..][..n - 1];
    }
    if HitAbove(child, position[1..], tails) {
      var n :| 0 <= n < |position[1..]| && Hit(child, position[1..][..n], tails);
      assert position[..n + 1][1..] == position[1..][..n];
      HitBelow(value, position[..n + 1], paths);
    }
  }

  lemma MaskAllChild(value: Json, paths: set<seq<string>>, i: nat)
    requires [] !in paths && i < Children(value)
    ensures SameShape(value, MaskAll(value, paths)) && Children(MaskAll(value, paths)) == Children(value)
    ensures Child(MaskAll(value, paths), i) == MaskAll(Child(value, i), TailsAt(value, i, paths))
  {
    if value.Obj? {
      forall k | 0 <= k < |value.members|
        ensures MaskAllMembers(value.members, |value.members|, paths)[k].key == value.members[k].key
      {
        MaskAllMemberAt(value.members, |value.members|, paths, k);
      }
      MaskAllMemberAt(value.members, |value.members|, paths, i);
    } else {
      MaskAllItemAt(value.items, |value.items|, paths, i);
    }
  }

  /**
   Exactly the outermost positions that a path leads to are replaced; what stands
   below them is gone, and everything else keeps its value or its shape.
   */
  lemma {:induction false} MaskedPositions(value: Json, position: seq<nat>, paths: set<seq<string>>)
    ensures var before, after := At(value, position), At(MaskAll(value, paths), position);
      if before == None || HitAbove(value, position, paths) then after == None
      else if Hit(value, position, paths) then after == Some(MASK)
      else after.Some? && SameShape(before.value, after.value)
    decreases |position|
  {
    if [] in paths {
      assert Leads(value, [], []);
      assert Hit(value, [], paths);
      if position != [] {
        assert position[..0] == [];
        assert HitAbove(value, position, paths);
      }
    } else if position == [] {
      assert forall p :: p in paths ==> !Leads(value, [], p);
      ShapeKept(value, paths);
    } else if position[0] < Children(value) {
      MaskAllChild(value, paths, position[0]);
      HitBelow(value, position, paths);
      HitAboveBelow(value, position, paths);
      MaskedPositions(Child(value, position[0]), position[1..], TailsAt(value, position[0], paths));
    } else {
      ShapeKept(value, paths);
    }
  }

  lemma ShapeKept(value: Json, paths: set<seq<string>>)
    requires [] !in paths
    ensures SameShape(value, MaskAll(value, paths)) && Children(MaskAll(value, paths)) == Children(value)
  {
    if Children(value) > 0 {
      MaskAllChild(value, paths, 0);
    }
  }
}
