/**
 The utilities a class value may produce: splitting it into patterns, expanding
 every slot of a pattern, and collecting the words of every expansion.
 */
module ClassNotation {
  import opened Basics
  import opened JsonValues
  import opened Text
  import opened ClassSlots

  // ---- reading a class value ----------------------------------------------

  /** A class value is a list of characters and slots. */
  datatype Item = Ch(c: char) | Choice(source: string, options: seq<string>)

  function Items(s: string): seq<Item>
    decreases |s|
  {
    if s == "" then [] else
      var slot := ParseSlot(s);
      if slot.Some? then [Choice(s[..slot.value.length], slot.value.options)] + Items(s[slot.value.length..])
      else [Ch(s[0])] + Items(s[1..])
  }

  function ItemSource(item: Item): string {
    match item
    case Ch(c) => [c]
    case Choice(source, _) => source
  }

  function Source(items: seq<Item>): string {
    if items == [] then "" else ItemSource(items[0]) + Source(items[1..])
  }

  predicate IsSpace(item: Item) {
    item.Ch? && IsWhitespace(item.c)
  }

  /** How many items come before the next white space outside slots. */
  function RunLength(items: seq<Item>): (n: nat)
    ensures n <= |items|
    ensures forall i :: 0 <= i < n ==> !IsSpace(items[i])
    ensures n < |items| ==> IsSpace(items[n])
  {
    if items == [] || IsSpace(items[0]) then 0 else 1 + RunLength(items[1..])
  }

  /** The patterns: the source of every maximal run of items without white space. */
  function Patterns(items: seq<Item>): seq<string>
    decreases |items|
  {
    if items == [] then []
    else if IsSpace(items[0]) then Patterns(items[1..])
    else [Source(items[..RunLength(items)])] + Patterns(items[RunLength(items)..])
  }

  lemma {:induction false} SourceOfItems(s: string)
    ensures Source(Items(s)) == s
    decreases |s|
  {
    if s != "" {
      var slot := ParseSlot(s);
      var n := if slot.Some? then slot.value.length else 1;
      SourceOfItems(s[n..]);
      assert Items(s)[1..] == Items(s[n..]);
      assert s == s[..n] + s[n..];
    }
  }

  lemma {:induction false} SourceOfTwo(a: seq<Item>, b: seq<Item>)
    ensures Source(a + b) == Source(a) + Source(b)
  {
    if a == [] {
      assert a + b == b;
    } else {
      assert (a + b)[1..] == a[1..] + b;
      SourceOfTwo(a[1..], b);
    }
  }

  function Head(s: string): (r: Item)
    requires s != ""
    ensures 0 < |ItemSource(r)| <= |s| && s[..|ItemSource(r)|] == ItemSource(r)
  {
    var slot := ParseSlot(s);
    if slot.Some? then Choice(s[..slot.value.length], slot.value.options) else Ch(s[0])
  }

  lemma HeadFirst(s: string)
    requires s != ""
    ensures Items(s) == [Head(s)] + Items(s[|ItemSource(Head(s))|..])
  {}

  lemma HeadLocal(u: string, t: string)
    requires u != "" && |ItemSource(Head(u + t))| <= |u|
    ensures Head(u) == Head(u + t)
  {
    SlotLocal(u, t);
    var slot := ParseSlot(u + t);
    if slot.Some? {
      assert (u + t)[..slot.value.length] == u[..slot.value.length];
    }
  }

  lemma SourceFirst(a: seq<Item>)
    requires a != []
    ensures Source(a) == ItemSource(a[0]) + Source(a[1..])
  {}

  /** Reading a front part of a text starts with the item the whole text starts with. */
  lemma FrontReadsFirst(s: string, u: string, t: string, rest: string)
    requires s == u + t && s != "" && u == ItemSource(Head(s)) + rest
    ensures Items(u) == [Head(s)] + Items(rest)
  {
    hide Items, Head, ParseSlot;
    HeadLocal(u, t);
    HeadFirst(u);
    assert u[|ItemSource(Head(s))|..] == rest;
  }

  /** Any front part of what was read reads the same on its own. */
  lemma {:induction false} FrontReadsAlone(s: string, a: seq<Item>, b: seq<Item>)
    requires Items(s) == a + b
    ensures Items(Source(a)) == a && s == Source(a) + Source(b)
    decreases |s|
  {
    hide Items, Head, ParseSlot, Source, ItemSource;
    SourceOfItems(s);
    SourceOfTwo(a, b);
    NothingRead();
    if a != [] {
      assert s != "";
      HeadFirst(s);
      var rest := s[|ItemSource(Head(s))|..];
      assert a[0] == (a + b)[0] == Head(s) && a[1..] + b == (a + b)[1..] == Items(rest);
      FrontReadsAlone(rest, a[1..], b);
      SourceFirst(a);
      FrontReadsFirst(s, Source(a), Source(b), Source(a[1..]));
    }
  }

  lemma NothingRead()
    ensures Items("") == [] && Source([]) == ""
  {}

  // ---- choosing -----------------------------------------------------------

  function Slots(items: seq<Item>): nat {
    if items == [] then 0 else (if items[0].Choice? then 1 else 0) + Slots(items[1..])
  }

  /** One option picked for every slot, in order. */
  predicate ValidPick(items: seq<Item>, pick: seq<nat>)
    decreases |items|
  {
    if items == [] then pick == []
    else if items[0].Ch? then ValidPick(items[1..], pick)
    else pick != [] && pick[0] < |items[0].options| && ValidPick(items[1..], pick[1..])
  }

  function Instantiate(items: seq<Item>, pick: seq<nat>): string
    requires ValidPick(items, pick)
    decreases |items|
  {
    if items == [] then ""
    else if items[0].Ch? then [items[0].c] + Instantiate(items[1..], pick)
    else items[0].options[pick[0]] + Instantiate(items[1..], pick[1..])
  }

  /** Every pick, instantiated. */
  function Instances(items: seq<Item>): seq<string>
    decreases |items|
  {
    if items == [] then [""]
    else if items[0].Ch? then Before([items[0].c], Instances(items[1..]))
    else Cross(items[0].options, Instances(items[1..]))
  }

  ghost predicate Extends(prefix: string, tails: seq<string>, x: string) {
    exists t :: t in tails && x == prefix + t
  }

  ghost predicate Crosses(options: seq<string>, tails: seq<string>, x: string) {
    exists o :: o in options && Extends(o, tails, x)
  }

  function Before(prefix: string, tails: seq<string>): (r: seq<string>)
    ensures forall x :: x in r <==> Extends(prefix, tails, x)
  {
    if tails == [] then [] else
      assert tails == [tails[0]] + tails[1..];
      [prefix + tails[0]] + Before(prefix, tails[1..])
  }

  function Cross(options: seq<string>, tails: seq<string>): (r: seq<string>)
    ensures forall x :: x in r <==> Crosses(options, tails, x)
  {
    if options == [] then [] else
      hide Extends;
      assert options == [options[0]] + options[1..];
      Before(options[0], tails) + Cross(options[1..], tails)
  }

  ghost predicate IsInstance(items: seq<Item>, x: string) {
    exists pick :: ValidPick(items, pick) && Instantiate(items, pick) == x
  }

  lemma {:induction false} InstancesArePicks(items: seq<Item>, x: string)
    ensures x in Instances(items) <==> IsInstance(items, x)
    decreases |items|
  {
    if items == [] {
      assert ValidPick(items, []) && Instantiate(items, []) == "";
    } else if items[0].Ch? {
      CharacterInstances(items, x);
    } else {
      ChoiceInstances(items, x);
    }
  }

  lemma CharacterInstances(items: seq<Item>, x: string)
    requires items != [] && items[0].Ch?
    ensures x in Instances(items) <==> IsInstance(items, x)
    decreases |items|, 0
  {
    var rest := items[1..];
    if x in Instances(items) {
      var t :| t in Instances(rest) && x == [items[0].c] + t;
      InstancesArePicks(rest, t);
      var pick :| ValidPick(rest, pick) && Instantiate(rest, pick) == t;
      assert ValidPick(items, pick) && Instantiate(items, pick) == x;
    }
    if IsInstance(items, x) {
      var pick :| ValidPick(items, pick) && Instantiate(items, pick) == x;
      assert IsInstance(rest, Instantiate(rest, pick));
      InstancesArePicks(rest, Instantiate(rest, pick));
    }
  }

  lemma PickFirst(items: seq<Item>, k: nat, pick: seq<nat>)
    requires items != [] && items[0].Choice? && k < |items[0].options| && ValidPick(items[1..], pick)
    ensures ValidPick(items, [k] + pick)
    ensures Instantiate(items, [k] + pick) == items[0].options[k] + Instantiate(items[1..], pick)
  {
    assert ([k] + pick)[1..] == pick;
  }

  lemma ChoiceInstances(items: seq<Item>, x: string)
    requires items != [] && items[0].Choice?
    ensures x in Instances(items) <==> IsInstance(items, x)
    decreases |items|, 0
  {
    var options, rest := items[0].options, items[1..];
    assert x in Instances(items) <==> Crosses(options, Instances(rest), x);
    if Crosses(options, Instances(rest), x) {
      var o :| o in options && Extends(o, Instances(rest), x);
      var t :| t in Instances(rest) && x == o + t;
      InstancesArePicks(rest, t);
      OptionThenRest(items, o, t);
    }
    if IsInstance(items, x) {
      var pick :| ValidPick(items, pick) && Instantiate(items, pick) == x;
      var t := Instantiate(rest, pick[1..]);
      assert IsInstance(rest, t);
      InstancesArePicks(rest, t);
      assert options[pick[0]] in options && Extends(options[pick[0]], Instances(rest), x);
    }
  }

  lemma OptionThenRest(items: seq<Item>, o: string, t: string)
    requires items != [] && items[0].Choice? && o in items[0].options && IsInstance(items[1..], t)
    ensures IsInstance(items, o + t)
  {
    var pick :| ValidPick(items[1..], pick) && Instantiate(items[1..], pick) == t;
    var k :| 0 <= k < |items[0].options| && items[0].options[k] == o;
    PickFirst(items, k, pick);
  }

  // ---- expanding a pattern ------------------------------------------------

  /** Where the text `@{` first stands. */
  function FindOpen(s: string): (r: Option<nat>)
    ensures r.Some? ==> r.value < |s| && Opens(s[r.value..])
    ensures r.Some? ==> forall i :: 0 <= i < r.value ==> !Opens(s[i..])
    ensures r.None? ==> forall i :: 0 <= i < |s| ==> !Opens(s[i..])
  {
    hide Opens;
    if s == "" then None
    else if Opens(s) then assert s[0..] == s; Some(0)
    else
      var rest := FindOpen(s[1..]);
      assert forall i :: 1 <= i < |s| ==> s[i..] == s[1..][i - 1..];
      assert s[0..] == s;
      if rest.Some? then Some(rest.value + 1) else None
  }

  function Expand(pattern: string): seq<string>
    decreases |pattern|
  {
    var start := FindOpen(pattern);
    if start.None? then [pattern] else
      var slot := ParseSlot(pattern[start.value..]);
      if slot.None? then [pattern] else
        Before(pattern[..start.value], Cross(slot.value.options, Expand(pattern[start.value..][slot.value.length..])))
  }

  function Characters(s: string): seq<Item> {
    if s == "" then [] else [Ch(s[0])] + Characters(s[1..])
  }

  /** An `@{` that starts no slot. */
  predicate StrayAt(items: seq<Item>) {
    |items| >= 2 && items[0] == Ch('@') && items[1] == Ch('{')
  }

  /** What expansion sees: from the first stray `@{` on, slots are plain text. */
  function Frozen(items: seq<Item>): seq<Item> {
    if items == [] then []
    else if StrayAt(items) then Characters(Source(items))
    else [items[0]] + Frozen(items[1..])
  }

  lemma {:induction false} CharactersOnly(s: string)
    ensures Instances(Characters(s)) == [s]
  {
    if s != "" {
      CharactersOnly(s[1..]);
      assert Characters(s)[1..] == Characters(s[1..]);
      assert s == [s[0]] + s[1..];
      BeforeOne([s[0]], s[1..]);
    }
  }

  lemma BeforeOne(prefix: string, tail: string)
    ensures Before(prefix, [tail]) == [prefix + tail]
  {
    assert Before(prefix, [tail]) == [prefix + tail] + Before(prefix, [tail][1..]);
  }

  lemma {:induction false} BeforeBefore(a: string, b: string, tails: seq<string>)
    ensures Before(a, Before(b, tails)) == Before(a + b, tails)
  {
    if tails != [] {
      BeforeBefore(a, b, tails[1..]);
      assert Before(b, tails)[1..] == Before(b, tails[1..]);
      assert a + (b + tails[0]) == (a + b) + tails[0];
    }
  }

  lemma {:induction false} BeforeNothing(tails: seq<string>)
    ensures Before("", tails) == tails
  {
    if tails != [] {
      BeforeNothing(tails[1..]);
      assert "" + tails[0] == tails[0];
    }
  }

  /** Up to the first `@{`, and where there is none, a text is read character by character. */
  lemma ReadsCharacter(s: string)
    requires s != "" && !Opens(s)
    ensures Items(s) == [Ch(s[0])] + Items(s[1..])
    ensures !StrayAt(Items(s))
  {
    SourceOfItems(s);
    SourceOfItems(s[1..]);
    assert Items(s)[1..] == Items(s[1..]);
  }

  lemma ReadsStray(s: string)
    requires Opens(s) && ParseSlot(s).None?
    ensures StrayAt(Items(s))
  {
    var items := Items(s);
    assert !Opens(s[1..]);
    assert items == [Ch('@')] + Items(s[1..]) && Items(s[1..])[0] == Ch('{');
  }

  lemma FindSkips(s: string)
    requires s != "" && !Opens(s)
    ensures FindOpen(s) == var rest := FindOpen(s[1..]); if rest.Some? then Some(rest.value + 1) else None
  {}

  lemma PrefixSkips(s: string, k: nat, tails: seq<string>)
    requires k < |s|
    ensures Before(s[..k + 1], tails) == Before([s[0]], Before(s[1..][..k], tails))
  {
    BeforeBefore([s[0]], s[1..][..k], tails);
    assert s[..k + 1] == [s[0]] + s[1..][..k];
  }

  lemma ExpandSkips(s: string)
    requires s != "" && !Opens(s)
    ensures Expand(s) == Before([s[0]], Expand(s[1..]))
  {
    hide FindOpen, ParseSlot, Opens, Before, Cross;
    FindSkips(s);
    BeforeOne([s[0]], s[1..]);
    assert s == [s[0]] + s[1..];
    var rest := FindOpen(s[1..]);
    if rest.Some? {
      var k := rest.value;
      assert s[k + 1..] == s[1..][k..];
      var slot := ParseSlot(s[k + 1..]);
      if slot.Some? {
        PrefixSkips(s, k, Cross(slot.value.options, Expand(s[k + 1..][slot.value.length..])));
      }
    }
  }

  /** Expansion yields exactly the instances of what it sees. */
  lemma {:induction false} ExpandIsInstances(s: string)
    ensures Expand(s) == Instances(Frozen(Items(s)))
    decreases |s|
  {
    if s == "" {
    } else if !Opens(s) {
      ReadsCharacter(s);
      ExpandSkips(s);
      ExpandIsInstances(s[1..]);
      assert Items(s)[1..] == Items(s[1..]);
      var f := Frozen(Items(s));
      assert f == [Ch(s[0])] + Frozen(Items(s[1..])) && f[1..] == Frozen(Items(s[1..]));
    } else if ParseSlot(s).None? {
      ReadsStray(s);
      SourceOfItems(s);
      CharactersOnly(s);
      assert s[0..] == s;
    } else {
      ExpandSlot(s);
    }
  }

  lemma ExpandSlot(s: string)
    requires Opens(s) && ParseSlot(s).Some?
    ensures Expand(s) == Instances(Frozen(Items(s)))
    decreases |s|, 0
  {
    var slot := ParseSlot(s).value;
    var rest := s[slot.length..];
    assert s[0..] == s && s[..0] == "";
    assert FindOpen(s) == Some(0);
    ExpandIsInstances(rest);
    BeforeNothing(Cross(slot.options, Expand(rest)));
    var items := Items(s);
    assert items[1..] == Items(rest);
    assert !StrayAt(items);
    var f := Frozen(items);
    assert f == [items[0]] + Frozen(Items(rest)) && f[1..] == Frozen(Items(rest));
  }

  // ---- the words ----------------------------------------------------------

  lemma {:induction false} WordEnds(x: string, y: string)
    requires y == "" || IsWhitespace(y[0])
    ensures WordLength(x + y) == WordLength(x)
  {
    if x == "" {
      assert x + y == y;
    } else if !IsWhitespace(x[0]) {
      assert (x + y)[1..] == x[1..] + y;
      WordEnds(x[1..], y);
    }
  }

  lemma BlankFirst(x: string, y: string)
    requires x != "" && IsWhitespace(x[0])
    ensures Words(x) == Words(x[1..]) && Words(x + y) == Words(x[1..] + y)
  {
    assert (x + y)[1..] == x[1..] + y;
  }

  lemma WordFirst(x: string, y: string)
    requires x != "" && !IsWhitespace(x[0]) && (y == "" || IsWhitespace(y[0]))
    ensures WordLength(x) > 0
    ensures Words(x) == [x[..WordLength(x)]] + Words(x[WordLength(x)..])
    ensures Words(x + y) == [x[..WordLength(x)]] + Words(x[WordLength(x)..] + y)
  {
    hide Words, IsWhitespace;
    var n := WordLength(x);
    WordEnds(x, y);
    FirstWord(x);
    assert (x + y)[0] == x[0];
    FirstWord(x + y);
    CutInFirst(x, y, n);
  }

  lemma CutInFirst(x: string, y: string, n: nat)
    requires n <= |x|
    ensures (x + y)[..n] == x[..n] && (x + y)[n..] == x[n..] + y
  {}

  lemma FirstWord(s: string)
    requires s != "" && !IsWhitespace(s[0])
    ensures WordLength(s) > 0
    ensures Words(s) == [s[..WordLength(s)]] + Words(s[WordLength(s)..])
  {}

  /** White space separates words: what stands on either side of it reads alone. */
  lemma {:induction false} WordsOfTwo(x: string, y: string)
    requires y == "" || IsWhitespace(y[0])
    ensures Words(x + y) == Words(x) + Words(y)
    decreases |x|
  {
    if x == "" {
      NoWords();
      assert x + y == y;
    } else if IsWhitespace(x[0]) {
      hide IsWhitespace, Words;
      BlankFirst(x, y);
      WordsOfTwo(x[1..], y);
    } else {
      hide IsWhitespace, Words, WordLength;
      var n := WordLength(x);
      WordFirst(x, y);
      WordsOfTwo(x[n..], y);
      Regroup([x[..n]], Words(x[n..]), Words(y));
    }
  }

  lemma NoWords()
    ensures Words("") == []
  {}

  function AllWords(candidates: seq<string>): seq<string> {
    if candidates == [] then [] else
      AllWords(candidates[..|candidates| - 1]) + Words(candidates[|candidates| - 1])
  }

  ghost predicate WordOf(candidates: seq<string>, w: string) {
    exists x :: x in candidates && w in Words(x)
  }

  lemma {:induction false} AllWordsAre(candidates: seq<string>, w: string)
    ensures w in AllWords(candidates) <==> WordOf(candidates, w)
  {
    hide Words;
    if candidates != [] {
      var rest, last := candidates[..|candidates| - 1], candidates[|candidates| - 1];
      AllWordsAre(rest, w);
      assert forall x :: x in candidates <==> x in rest || x == last;
      assert AllWords(candidates) == AllWords(rest) + Words(last);
      if w in Words(last) { assert last in candidates && WordOf(candidates, w); }
    }
  }

  function PatternWords(patterns: seq<string>): seq<string> {
    if patterns == [] then [] else
      PatternWords(patterns[..|patterns| - 1]) + AllWords(Expand(patterns[|patterns| - 1]))
  }

  /** What expansion sees of a whole class value: each pattern freezes on its own. */
  function FrozenRuns(items: seq<Item>): seq<Item>
    decreases |items|
  {
    if items == [] then []
    else if IsSpace(items[0]) then [items[0]] + FrozenRuns(items[1..])
    else Frozen(items[..RunLength(items)]) + FrozenRuns(items[RunLength(items)..])
  }

  lemma {:induction false} PatternWordsOfTwo(a: seq<string>, b: seq<string>)
    ensures PatternWords(a + b) == PatternWords(a) + PatternWords(b)
  {
    hide AllWords, Expand;
    if b == [] {
      assert a + b == a;
    } else {
      assert (a + b)[..|a + b| - 1] == a + b[..|b| - 1];
      PatternWordsOfTwo(a, b[..|b| - 1]);
    }
  }

  lemma OnePattern(p: string)
    ensures PatternWords([p]) == AllWords(Expand(p))
  {
    assert [p][..0] == [];
    assert PatternWords([]) == [];
  }

  ghost predicate Choices(items: seq<Item>) {
    forall i :: 0 <= i < |items| && items[i].Choice? ==> items[i].options != []
  }

  lemma {:induction false} SomePick(items: seq<Item>) returns (pick: seq<nat>)
    requires Choices(items)
    ensures ValidPick(items, pick)
  {
    if items == [] {
      pick := [];
    } else {
      pick := SomePick(items[1..]);
      if items[0].Choice? {
        pick := [0] + pick;
        assert pick[1..] == [0][1..] + pick[1..];
      }
    }
  }

  /** Picks for two lists in a row are a pick for each. */
  lemma FirstOfTwo(a: seq<Item>, b: seq<Item>)
    requires a != []
    ensures (a + b)[0] == a[0] && (a + b)[1..] == a[1..] + b
  {}

  /** A pick for a list that starts with a choice picks for the choice first. */
  lemma ChoiceOfTwo(a: seq<Item>, b: seq<Item>, p: seq<nat>, q: seq<nat>)
    requires a != [] && a[0].Choice? && ValidPick(a, p) && ValidPick(b, q)
    requires ValidPick(a[1..] + b, p[1..] + q)
    requires Instantiate(a[1..] + b, p[1..] + q) == Instantiate(a[1..], p[1..]) + Instantiate(b, q)
    ensures ValidPick(a + b, p + q) && Instantiate(a + b, p + q) == Instantiate(a, p) + Instantiate(b, q)
  {
    assert p != [] && ValidPick(a[1..], p[1..]) && p[0] < |a[0].options|;
    hide ValidPick, Instantiate;
    FirstOfTwo(a, b);
    assert [p[0]] + (p[1..] + q) == p + q && [p[0]] + p[1..] == p;
    PickFirst(a, p[0], p[1..]);
    PickFirst(a + b, p[0], p[1..] + q);
  }

  lemma PickCharacter(items: seq<Item>, pick: seq<nat>)
    requires items != [] && items[0].Ch?
    ensures ValidPick(items, pick) <==> ValidPick(items[1..], pick)
    ensures ValidPick(items, pick) ==> Instantiate(items, pick) == [items[0].c] + Instantiate(items[1..], pick)
  {}

  lemma CharacterOfTwo(a: seq<Item>, b: seq<Item>, p: seq<nat>, q: seq<nat>)
    requires a != [] && a[0].Ch? && ValidPick(a, p) && ValidPick(b, q)
    requires ValidPick(a[1..], p) && ValidPick(a[1..] + b, p + q)
    requires Instantiate(a[1..] + b, p + q) == Instantiate(a[1..], p) + Instantiate(b, q)
    ensures ValidPick(a + b, p + q) && Instantiate(a + b, p + q) == Instantiate(a, p) + Instantiate(b, q)
  {
    hide ValidPick, Instantiate;
    FirstOfTwo(a, b);
    PickCharacter(a, p);
    PickCharacter(a + b, p + q);
  }

  lemma {:induction false} PicksOfTwo(a: seq<Item>, b: seq<Item>, p: seq<nat>, q: seq<nat>)
    requires ValidPick(a, p) && ValidPick(b, q)
    ensures ValidPick(a + b, p + q) && Instantiate(a + b, p + q) == Instantiate(a, p) + Instantiate(b, q)
    decreases |a|
  {
    if a == [] {
      assert a + b == b && p + q == q;
    } else if a[0].Ch? {
      PicksOfTwo(a[1..], b, p, q);
      CharacterOfTwo(a, b, p, q);
    } else {
      PicksOfTwo(a[1..], b, p[1..], q);
      ChoiceOfTwo(a, b, p, q);
    }
  }

  lemma {:induction false} PickSplits(a: seq<Item>, b: seq<Item>, pick: seq<nat>) returns (p: seq<nat>, q: seq<nat>)
    requires ValidPick(a + b, pick)
    ensures ValidPick(a, p) && ValidPick(b, q) && pick == p + q
    decreases |a|
  {
    if a == [] {
      assert a + b == b;
      p, q := [], pick;
    } else {
      assert (a + b)[1..] == a[1..] + b;
      if a[0].Ch? {
        p, q := PickSplits(a[1..], b, pick);
      } else {
        p, q := PickSplits(a[1..], b, pick[1..]);
        p := [pick[0]] + p;
        assert p[1..] + q == pick[1..];
      }
    }
  }

  ghost predicate Produces(items: seq<Item>, w: string) {
    exists pick :: ValidPick(items, pick) && w in Words(Instantiate(items, pick))
  }

  predicate StartsWithSpace(items: seq<Item>) {
    items == [] || IsSpace(items[0])
  }

  lemma SpaceFirst(items: seq<Item>, pick: seq<nat>)
    requires StartsWithSpace(items) && ValidPick(items, pick)
    ensures var x := Instantiate(items, pick); x == "" || IsWhitespace(x[0])
  {}

  /** The words of two stretches separated by white space are produced independently. */
  lemma ProducesOfTwo(a: seq<Item>, b: seq<Item>, w: string)
    requires StartsWithSpace(b) && Choices(a) && Choices(b)
    ensures Produces(a + b, w) <==> Produces(a, w) || Produces(b, w)
  {
    if Produces(a + b, w) {
      var pick :| ValidPick(a + b, pick) && w in Words(Instantiate(a + b, pick));
      var p, q := PickSplits(a, b, pick);
      JoinPicks(a, b, p, q);
    }
    if Produces(a, w) {
      var p :| ValidPick(a, p) && w in Words(Instantiate(a, p));
      var q := SomePick(b);
      JoinPicks(a, b, p, q);
    }
    if Produces(b, w) {
      var p := SomePick(a);
      var q :| ValidPick(b, q) && w in Words(Instantiate(b, q));
      JoinPicks(a, b, p, q);
    }
  }

  lemma JoinPicks(a: seq<Item>, b: seq<Item>, p: seq<nat>, q: seq<nat>)
    requires StartsWithSpace(b) && ValidPick(a, p) && ValidPick(b, q)
    ensures ValidPick(a + b, p + q)
    ensures Words(Instantiate(a + b, p + q)) == Words(Instantiate(a, p)) + Words(Instantiate(b, q))
  {
    PicksOfTwo(a, b, p, q);
    SpaceFirst(b, q);
    WordsOfTwo(Instantiate(a, p), Instantiate(b, q));
  }

  lemma WordsOfInstances(items: seq<Item>, w: string)
    ensures w in AllWords(Instances(items)) <==> Produces(items, w)
  {
    AllWordsAre(Instances(items), w);
    if w in AllWords(Instances(items)) {
      var x :| x in Instances(items) && w in Words(x);
      InstancesArePicks(items, x);
    }
    if Produces(items, w) {
      var pick :| ValidPick(items, pick) && w in Words(Instantiate(items, pick));
      assert IsInstance(items, Instantiate(items, pick));
      InstancesArePicks(items, Instantiate(items, pick));
    }
  }

  lemma {:induction false} FrozenChoices(items: seq<Item>)
    requires Choices(items)
    ensures Choices(Frozen(items))
  {
    if items != [] {
      if StrayAt(items) {
        OnlyCharacters(Source(items));
      } else {
        FrozenChoices(items[1..]);
      }
    }
  }

  lemma {:induction false} OnlyCharacters(s: string)
    ensures forall i :: 0 <= i < |Characters(s)| ==> Characters(s)[i].Ch?
  {
    if s != "" { OnlyCharacters(s[1..]); }
  }

  lemma {:induction false} FrozenRunsChoices(items: seq<Item>)
    requires Choices(items)
    ensures Choices(FrozenRuns(items))
    decreases |items|
  {
    if items == [] {
    } else if IsSpace(items[0]) {
      FrozenRunsChoices(items[1..]);
    } else {
      FrozenChoices(items[..RunLength(items)]);
      FrozenRunsChoices(items[RunLength(items)..]);
    }
  }

  lemma {:induction false} ReadChoices(s: string)
    ensures Choices(Items(s))
    decreases |s|
  {
    if s != "" {
      HeadFirst(s);
      ReadChoices(s[|ItemSource(Head(s))|..]);
    }
  }

  lemma FrozenRunsStart(items: seq<Item>)
    requires StartsWithSpace(items)
    ensures StartsWithSpace(FrozenRuns(items))
  {}

  /** A read list cut behind one of its items is read from the rest of the text. */
  lemma BackReads(s: string, a: seq<Item>, b: seq<Item>)
    requires Items(s) == a + b
    ensures Items(Source(b)) == b
    decreases |a|
  {
    hide Items, Head, ParseSlot, Source;
    if a == [] {
      assert a + b == b;
      SourceOfItems(s);
    } else {
      assert s != "" by { NothingRead(); }
      HeadFirst(s);
      assert a[1..] + b == (a + b)[1..];
      BackReads(s[|ItemSource(Head(s))|..], a[1..], b);
    }
  }

  lemma {:induction false} RunsProduce(s: string, items: seq<Item>, w: string)
    requires Items(s) == items
    ensures w in PatternWords(Patterns(items)) <==> Produces(FrozenRuns(items), w)
    decreases |items|
  {
    if items == [] {
      assert !Produces([], w);
    } else if IsSpace(items[0]) {
      SpaceProduces(s, items, w);
    } else {
      RunProduces(s, items, w);
    }
  }

  lemma SpaceProduces(s: string, items: seq<Item>, w: string)
    requires Items(s) == items && items != [] && IsSpace(items[0])
    ensures w in PatternWords(Patterns(items)) <==> Produces(FrozenRuns(items), w)
    decreases |items|, 0
  {
    var rest := items[1..];
    assert items == [items[0]] + rest;
    BackReads(s, [items[0]], rest);
    RunsProduce(Source(rest), rest, w);
    SpaceAddsNothing(items[0], FrozenRuns(rest), w);
  }

  lemma SpaceAddsNothing(space: Item, items: seq<Item>, w: string)
    requires IsSpace(space)
    ensures Produces([space] + items, w) <==> Produces(items, w)
  {
    var all := [space] + items;
    assert all[1..] == items;
    forall pick | ValidPick(items, pick)
      ensures ValidPick(all, pick) && Words(Instantiate(all, pick)) == Words(Instantiate(items, pick))
    {
      assert ([space.c] + Instantiate(items, pick))[1..] == Instantiate(items, pick);
    }
    if Produces(all, w) {
      var pick :| ValidPick(all, pick) && w in Words(Instantiate(all, pick));
      assert ValidPick(items, pick);
    }
  }

  lemma RunProduces(s: string, items: seq<Item>, w: string)
    requires Items(s) == items && items != [] && !IsSpace(items[0])
    ensures w in PatternWords(Patterns(items)) <==> Produces(FrozenRuns(items), w)
    decreases |items|, 0
  {
    hide PatternWords, AllWords, Expand, Produces, Choices, Frozen;
    var n := RunLength(items);
    var run, rest := items[..n], items[n..];
    assert items == run + rest;
    FrontReadsAlone(s, run, rest);
    BackReads(s, run, rest);
    RunsProduce(Source(rest), rest, w);
    PatternWordsOfTwo([Source(run)], Patterns(rest));
    OnePattern(Source(run));
    ExpandIsInstances(Source(run));
    WordsOfInstances(Frozen(run), w);
    RunChoices(s, run, rest);
    FrozenRunsStart(rest);
    ProducesOfTwo(Frozen(run), FrozenRuns(rest), w);
  }

  lemma RunChoices(s: string, run: seq<Item>, rest: seq<Item>)
    requires Items(s) == run + rest
    ensures Choices(Frozen(run)) && Choices(FrozenRuns(rest))
  {
    ReadChoices(s);
    assert forall i :: 0 <= i < |run| ==> run[i] == (run + rest)[i];
    assert forall i :: 0 <= i < |rest| ==> rest[i] == (run + rest)[|run| + i];
    FrozenChoices(run);
    FrozenRunsChoices(rest);
  }

  // ---- strays -------------------------------------------------------------

  /** An `@{` that starts no slot stands before a slot, with no white space in between. */
  ghost predicate StrayBeforeSlot(items: seq<Item>) {
    exists i, k :: 0 <= i && i + 1 < k < |items| && StrayAt(items[i..]) && items[k].Choice?
      && forall j :: i < j < k ==> !IsSpace(items[j])
  }

  /** The same, white space or not. */
  ghost predicate StrayThenSlot(items: seq<Item>) {
    exists i, k :: 0 <= i && i + 1 < k < |items| && StrayAt(items[i..]) && items[k].Choice?
  }

  lemma {:induction false} CharactersOfSource(items: seq<Item>)
    requires forall i :: 0 <= i < |items| ==> items[i].Ch?
    ensures Characters(Source(items)) == items
  {
    if items != [] {
      CharactersOfSource(items[1..]);
      assert Source(items)[1..] == Source(items[1..]);
    }
  }

  lemma StrayInTail(items: seq<Item>)
    requires items != [] && StrayThenSlot(items[1..])
    ensures StrayThenSlot(items)
  {
    var rest := items[1..];
    var i, k :| 0 <= i && i + 1 < k < |rest| && StrayAt(rest[i..]) && rest[k].Choice?;
    assert items[i + 1..] == rest[i..] && items[k + 1] == rest[k];
  }

  lemma {:induction false} NothingFrozen(items: seq<Item>)
    requires !StrayThenSlot(items)
    ensures Frozen(items) == items
  {
    if items != [] {
      assert items[0..] == items;
      if StrayAt(items) {
        forall k | 0 <= k < |items| ensures items[k].Ch? {}
        CharactersOfSource(items);
      } else {
        if StrayThenSlot(items[1..]) { StrayInTail(items); }
        NothingFrozen(items[1..]);
      }
    }
  }

  lemma StrayInPart(items: seq<Item>, from: nat, to: nat)
    requires from <= to <= |items| && StrayBeforeSlot(items[from..to])
    ensures StrayBeforeSlot(items)
  {
    var part := items[from..to];
    var i, k :| 0 <= i && i + 1 < k < |part| && StrayAt(part[i..]) && part[k].Choice? && forall j :: i < j < k ==>
        !IsSpace(part[j]);
    assert items[from + i..][0] == part[i..][0] && items[from + i..][1] == part[i..][1];
    assert StrayAt(items[from + i..]) && items[from + k].Choice?;
    assert forall j :: from + i < j < from + k ==> items[j] == part[j - from];
  }

  lemma {:induction false} NothingFrozenInRuns(items: seq<Item>)
    requires !StrayBeforeSlot(items)
    ensures FrozenRuns(items) == items
    decreases |items|
  {
    if items != [] {
      var n := if IsSpace(items[0]) then 1 else RunLength(items);
      var run, rest := items[..n], items[n..];
      assert items == run + rest && rest == items[n..|items|] && run == items[0..n];
      if StrayBeforeSlot(rest) { StrayInPart(items, n, |items|); }
      NothingFrozenInRuns(rest);
      if !IsSpace(items[0]) {
        if StrayBeforeSlot(run) { StrayInPart(items, 0, n); }
        RunWithoutFlaw(run);
        NothingFrozen(run);
      }
    }
  }

  lemma RunWithoutFlaw(run: seq<Item>)
    requires !StrayBeforeSlot(run) && forall j :: 0 <= j < |run| ==> !IsSpace(run[j])
    ensures !StrayThenSlot(run)
  {}

  // ---- the promise --------------------------------------------------------

  /** The words the extraction collects. */
  function Tokens(classValue: string): seq<string> {
    PatternWords(Patterns(Items(classValue)))
  }

  /** For every class value: the extracted words are those of all instances of what expansion sees. */
  lemma TokensOfFrozen(classValue: string, w: string)
    ensures w in Tokens(classValue) <==> Produces(FrozenRuns(Items(classValue)), w)
  {
    RunsProduce(classValue, Items(classValue), w);
  }

  /**
   Unless an `@{` that starts no slot stands before a slot in one pattern, the
   extracted words are exactly the words of the class value under every pick of one
   option per slot: none is missed, none invented.
   */
  lemma EveryCandidateVisible(classValue: string, w: string)
    requires !StrayBeforeSlot(Items(classValue))
    ensures w in Tokens(classValue) <==> Produces(Items(classValue), w)
  {
    hide Items, Tokens, StrayBeforeSlot, FrozenRuns;
    TokensOfFrozen(classValue, w);
    NothingFrozenInRuns(Items(classValue));
  }

  // ---- exactly when -------------------------------------------------------

  function Longest(options: seq<string>): (n: nat)
    ensures forall o :: o in options ==> |o| <= n
    ensures options != [] ==> exists o :: o in options && |o| == n
  {
    if options == [] then 0 else
      assert options == [options[0]] + options[1..];
      var rest := Longest(options[1..]);
      if |options[0]| >= rest then |options[0]| else rest
  }

  function MaxLength(items: seq<Item>): nat {
    if items == [] then 0 else
      MaxLength(items[1..]) + if items[0].Ch? then 1 else Longest(items[0].options)
  }

  /** Every slot is longer, as written, than anything it may stand for. */
  ghost predicate Wordy(items: seq<Item>) {
    forall i :: 0 <= i < |items| && items[i].Choice? ==>
      items[i].options != [] && Longest(items[i].options) < |items[i].source|
  }

  lemma {:induction false} InstancesFit(items: seq<Item>, pick: seq<nat>)
    requires ValidPick(items, pick)
    ensures |Instantiate(items, pick)| <= MaxLength(items)
    decreases |items|
  {
    if items != [] {
      InstancesFit(items[1..], if items[0].Ch? then pick else pick[1..]);
      if items[0].Choice? {
        assert items[0].options[pick[0]] in items[0].options;
      }
    }
  }

  lemma {:induction false} LongestInstance(items: seq<Item>) returns (pick: seq<nat>)
    requires Choices(items)
    ensures ValidPick(items, pick) && |Instantiate(items, pick)| == MaxLength(items)
    decreases |items|
  {
    if items == [] {
      pick := [];
    } else {
      var rest := LongestInstance(items[1..]);
      pick := rest;
      if items[0].Choice? {
        var o :| o in items[0].options && |o| == Longest(items[0].options);
        var k :| 0 <= k < |items[0].options| && items[0].options[k] == o;
        pick := [k] + rest;
        assert pick[1..] == rest;
      }
    }
  }

  lemma {:induction false} SourceIsLonger(items: seq<Item>)
    requires Wordy(items)
    ensures MaxLength(items) <= |Source(items)|
    ensures (exists k :: 0 <= k < |items| && items[k].Choice?) ==> MaxLength(items) < |Source(items)|
  {
    if items != [] {
      var rest := items[1..];
      assert forall i :: 0 <= i < |rest| ==> rest[i] == items[i + 1];
      SourceIsLonger(rest);
      if k :| 0 <= k < |items| && items[k].Choice? {
        if k > 0 { assert rest[k - 1].Choice?; }
      }
    }
  }

  lemma {:induction false} CharactersLength(s: string)
    ensures MaxLength(Characters(s)) == |s|
  {
    if s != "" {
      CharactersLength(s[1..]);
      assert Characters(s)[1..] == Characters(s[1..]);
    }
  }

  /** Freezing a slot leaves something longer than any instance. */
  lemma {:induction false} FrozenIsLonger(items: seq<Item>)
    requires Wordy(items) && StrayThenSlot(items)
    ensures MaxLength(items) < MaxLength(Frozen(items))
  {
    hide Longest;
    var i, k :| 0 <= i && i + 1 < k < |items| && StrayAt(items[i..]) && items[k].Choice?;
    if StrayAt(items) {
      SourceIsLonger(items);
      CharactersLength(Source(items));
    } else {
      StrayThenSlotBehind(items, i, k);
      assert forall j :: 0 <= j < |items| - 1 ==> items[1..][j] == items[j + 1];
      FrozenIsLonger(items[1..]);
      hide StrayAt, StrayThenSlot, Wordy;
      assert Frozen(items)[1..] == Frozen(items[1..]);
    }
  }

  lemma StrayThenSlotBehind(items: seq<Item>, i: nat, k: nat)
    requires i + 1 < k < |items| && StrayAt(items[i..]) && items[k].Choice? && !StrayAt(items)
    ensures StrayThenSlot(items[1..])
  {
    var rest := items[1..];
    assert items[0..] == items;
    assert i > 0 && rest[i - 1..] == items[i..] && rest[k - 1] == items[k];
  }

  lemma OptionLength(raw: string)
    ensures var r := ParseSlotOption(raw); r.Some? ==> |r.value| <= |raw|
  {}

  lemma OptionFits(segment: string, options: seq<string>, n: nat)
    requires |segment| <= n && forall o :: o in options ==> |o| <= n
    ensures var r := AddOption(options, segment); r.Some? ==> forall o :: o in r.value ==> |o| <= n
  {
    hide ParseSlotOption, NormalizeValue, Listed;
    var seg := Trim(segment);
    OptionLength(seg);
    if DEFAULT_PREFIX <= seg { OptionLength(Trim(seg[|DEFAULT_PREFIX|..])); }
  }

  lemma {:induction false} OptionsFit(segments: seq<string>, n: nat)
    requires forall i :: 0 <= i < |segments| ==> |segments[i]| <= n
    ensures var r := ReadOptions(segments); r.Some? ==> forall o :: o in r.value ==> |o| <= n
  {
    if segments != [] {
      OptionsFit(segments[..|segments| - 1], n);
      var before := ReadOptions(segments[..|segments| - 1]);
      if before.Some? {
        OptionFits(segments[|segments| - 1], before.value, n);
      }
    }
  }

  lemma {:induction false} PartsFit(parts: seq<string>)
    requires parts != []
    ensures forall i :: 0 <= i < |parts| ==> |parts[i]| <= |Join(parts)|
  {
    if |parts| > 1 {
      PartsFit(parts[1..]);
      assert forall i :: 1 <= i < |parts| ==> parts[i] == parts[1..][i - 1];
    }
  }

  lemma {:induction false} TrimmedFit(parts: seq<string>, n: nat)
    requires forall i :: 0 <= i < |parts| ==> |parts[i]| <= n
    ensures forall i :: 0 <= i < |parts| ==> |TrimAll(parts)[i]| <= n
  {
    if parts != [] { TrimmedFit(parts[..|parts| - 1], n); }
  }

  lemma BodyOptionsFit(body: string)
    ensures var options := SlotOptions(body); options.Some? ==> forall o :: o in options.value ==> |o| <= |body|
  {
    hide RawSegments, ReadOptions;
    SegmentsJoin(body, 0);
    PartsFit(RawSegments(body, 0));
    TrimmedFit(RawSegments(body, 0), |body|);
    if |Segments(body)| >= 2 {
      OptionsFit(Segments(body)[1..], |body|);
    }
  }

  lemma SlotIsWordy(s: string)
    ensures var slot := ParseSlot(s); slot.Some? ==> Longest(slot.value.options) < slot.value.length
  {
    hide SlotOptions;
    var slot := ParseSlot(s);
    if slot.Some? {
      BodyOptionsFit(s[2..][..slot.value.length - 3]);
    }
  }

  lemma {:induction false} ReadWordy(s: string)
    ensures Wordy(Items(s))
    decreases |s|
  {
    if s != "" {
      HeadFirst(s);
      SlotIsWordy(s);
      ReadWordy(s[|ItemSource(Head(s))|..]);
    }
  }

  lemma WordyChoices(items: seq<Item>)
    requires Wordy(items)
    ensures Choices(items)
  {}

  /** A pattern expands to exactly its instances if and only if no stray `@{` comes before one of its slots. */
  lemma PatternExpandsIff(pattern: string)
    ensures (forall x :: x in Expand(pattern) <==> IsInstance(Items(pattern), x))
       <==> !StrayThenSlot(Items(pattern))
  {
    var items := Items(pattern);
    ExpandIsInstances(pattern);
    if !StrayThenSlot(items) {
      NothingFrozen(items);
      forall x ensures x in Expand(pattern) <==> IsInstance(items, x) {
        InstancesArePicks(items, x);
      }
    } else {
      ReadWordy(pattern);
      WordyChoices(items);
      FrozenChoices(items);
      FrozenIsLonger(items);
      var pick := LongestInstance(Frozen(items));
      var x := Instantiate(Frozen(items), pick);
      assert IsInstance(Frozen(items), x);
      InstancesArePicks(Frozen(items), x);
      if IsInstance(items, x) {
        var other :| ValidPick(items, other) && Instantiate(items, other) == x;
        InstancesFit(items, other);
      }
    }
  }

  // ---- class values of one pattern --------------------------------------------

  /** A text without white space. */
  predicate Solid(s: string) {
    forall i :: 0 <= i < |s| ==> !IsWhitespace(s[i])
  }

  lemma SolidOfTwo(a: string, b: string)
    ensures Solid(a + b) <==> Solid(a) && Solid(b)
  {
    if Solid(a + b) {
      assert forall i :: 0 <= i < |a| ==> a[i] == (a + b)[i];
      assert forall i :: 0 <= i < |b| ==> b[i] == (a + b)[|a| + i];
    }
  }

  lemma SolidPart(s: string, i: nat, j: nat)
    requires Solid(s) && i <= j <= |s|
    ensures Solid(s[i..j])
  {}

  lemma SolidTrim(s: string)
    requires Solid(s)
    ensures Trim(s) == s
  {
    TrimmedStays(s);
  }

  ghost predicate AllSolid(parts: seq<string>) {
    forall i :: 0 <= i < |parts| ==> Solid(parts[i])
  }

  lemma {:induction false} PartsSolid(parts: seq<string>)
    requires parts != [] && Solid(Join(parts))
    ensures AllSolid(parts)
  {
    hide Solid;
    if |parts| > 1 {
      SolidOfTwo(parts[0] + "|", Join(parts[1..]));
      SolidOfTwo(parts[0], "|");
      PartsSolid(parts[1..]);
      assert forall i :: 1 <= i < |parts| ==> parts[i] == parts[1..][i - 1];
    }
  }

  lemma {:induction false} SolidTrimAll(parts: seq<string>)
    requires AllSolid(parts)
    ensures TrimAll(parts) == parts
  {
    hide Solid;
    if parts != [] {
      SolidTrimAll(parts[..|parts| - 1]);
      SolidTrim(parts[|parts| - 1]);
    }
  }

  lemma SolidOption(raw: string)
    requires Solid(raw)
    ensures var r := ParseSlotOption(raw); r.Some? ==> Solid(r.value)
  {
    hide Solid;
    SolidTrim(raw);
    if |raw| >= 2 {
      SolidPart(raw, 1, |raw| - 1);
      SolidTrim(raw[1..|raw| - 1]);
    }
  }

  lemma SolidAdded(options: seq<string>, segment: string)
    requires AllSolid(options) && Solid(segment)
    ensures var r := AddOption(options, segment); r.Some? ==> AllSolid(r.value)
  {
    hide ParseSlotOption, Listed, Solid;
    SolidTrim(segment);
    SolidOption(segment);
    if DEFAULT_PREFIX <= segment {
      var rest := segment[|DEFAULT_PREFIX|..];
      SolidPart(segment, |DEFAULT_PREFIX|, |segment|);
      assert segment[|DEFAULT_PREFIX|..|segment|] == rest;
      SolidTrim(rest);
      SolidOption(rest);
    }
  }

  lemma {:induction false} SolidOptions(segments: seq<string>)
    requires AllSolid(segments)
    ensures var r := ReadOptions(segments); r.Some? ==> AllSolid(r.value)
  {
    hide Solid, AddOption;
    if segments != [] {
      SolidOptions(segments[..|segments| - 1]);
      var before := ReadOptions(segments[..|segments| - 1]);
      if before.Some? {
        SolidAdded(before.value, segments[|segments| - 1]);
      }
    }
  }

  lemma SolidBody(body: string)
    requires Solid(body)
    ensures var r := SlotOptions(body); r.Some? ==> AllSolid(r.value)
  {
    hide RawSegments, ReadOptions, TrimAll, Solid;
    SegmentsJoin(body, 0);
    PartsSolid(RawSegments(body, 0));
    SolidTrimAll(RawSegments(body, 0));
    var parts := Segments(body);
    if |parts| >= 2 {
      assert forall i :: 0 <= i < |parts| - 1 ==> parts[1..][i] == RawSegments(body, 0)[i + 1];
      SolidOptions(parts[1..]);
    }
  }

  lemma SlotSolid(s: string)
    requires Solid(s)
    ensures var slot := ParseSlot(s); slot.Some? ==> AllSolid(slot.value.options)
  {
    hide SlotOptions, Solid, AllSolid;
    var slot := ParseSlot(s);
    if slot.Some? {
      var body := s[2..][..slot.value.length - 3];
      assert body == s[2..slot.value.length - 1];
      SolidPart(s, 2, slot.value.length - 1);
      SolidBody(body);
    }
  }

  ghost predicate SolidItem(item: Item) {
    Solid(ItemSource(item)) && (item.Choice? ==> AllSolid(item.options))
  }

  ghost predicate SolidItems(items: seq<Item>) {
    forall i :: 0 <= i < |items| ==> SolidItem(items[i])
  }

  lemma {:induction false} ReadSolid(s: string)
    requires Solid(s)
    ensures SolidItems(Items(s))
    decreases |s|
  {
    hide Solid, AllSolid, ParseSlot;
    if s != "" {
      HeadFirst(s);
      var n := |ItemSource(Head(s))|;
      SlotSolid(s);
      SolidPart(s, 0, n);
      assert s[0..n] == s[..n];
      SolidPart(s, n, |s|);
      assert s[n..|s|] == s[n..];
      ReadSolid(s[n..]);
    }
  }

  lemma {:induction false} SourceSolid(items: seq<Item>)
    requires SolidItems(items)
    ensures Solid(Source(items))
  {
    hide Solid;
    if items == [] {
      SolidEmpty();
    } else {
      assert forall i :: 0 <= i < |items| - 1 ==> items[1..][i] == items[i + 1];
      SourceSolid(items[1..]);
      SolidOfTwo(ItemSource(items[0]), Source(items[1..]));
    }
  }

  lemma SolidEmpty()
    ensures Solid("")
  {}

  lemma {:induction false} CharactersSolid(s: string)
    requires Solid(s)
    ensures SolidItems(Characters(s))
  {
    if s != "" {
      CharactersSolid(s[1..]);
    }
  }

  lemma {:induction false} FrozenSolid(items: seq<Item>)
    requires SolidItems(items)
    ensures SolidItems(Frozen(items))
  {
    hide SolidItem;
    if items != [] {
      if StrayAt(items) {
        SourceSolid(items);
        CharactersSolid(Source(items));
      } else {
        assert forall i :: 0 <= i < |items| - 1 ==> items[1..][i] == items[i + 1];
        FrozenSolid(items[1..]);
      }
    }
  }

  lemma {:induction false} InstanceSolid(items: seq<Item>, pick: seq<nat>)
    requires SolidItems(items) && ValidPick(items, pick)
    ensures Solid(Instantiate(items, pick))
    decreases |items|
  {
    hide Solid;
    if items == [] {
      SolidEmpty();
    } else {
      assert forall i :: 0 <= i < |items| - 1 ==> items[1..][i] == items[i + 1];
      assert SolidItem(items[0]);
      if items[0].Ch? {
        InstanceSolid(items[1..], pick);
        SolidOfTwo([items[0].c], Instantiate(items[1..], pick));
      } else {
        InstanceSolid(items[1..], pick[1..]);
        SolidOfTwo(items[0].options[pick[0]], Instantiate(items[1..], pick[1..]));
      }
    }
  }

  /** Where nothing produced has white space, what is produced are the instances. */
  lemma SolidProduces(items: seq<Item>, x: string)
    requires SolidItems(items) && Produces(items, x)
    ensures |x| <= MaxLength(items)
  {
    hide Solid, SolidItems, MaxLength;
    var pick :| ValidPick(items, pick) && x in Words(Instantiate(items, pick));
    InstanceSolid(items, pick);
    InstancesFit(items, pick);
    if Instantiate(items, pick) == "" {
      NoWords();
    } else {
      OneWord(Instantiate(items, pick));
    }
  }

  lemma LongestProduced(items: seq<Item>) returns (x: string)
    requires SolidItems(items) && Choices(items) && MaxLength(items) > 0
    ensures Produces(items, x) && |x| == MaxLength(items)
  {
    hide Solid, SolidItems, MaxLength, Choices;
    var pick := LongestInstance(items);
    InstanceSolid(items, pick);
    x := Instantiate(items, pick);
    OneWord(x);
    assert x in [x];
  }

  lemma SolidIsOneRun(items: seq<Item>)
    requires SolidItems(items)
    ensures FrozenRuns(items) == Frozen(items)
    ensures StrayBeforeSlot(items) <==> StrayThenSlot(items)
  {
    forall i | 0 <= i < |items| ensures !IsSpace(items[i]) {
      SolidIsNoSpace(items[i]);
    }
    hide SolidItems, IsSpace, Frozen, StrayAt;
    NoSpaceRunsOn(items);
    if items != [] {
      assert items[..|items|] == items && items[|items|..] == [];
      assert FrozenRuns([]) == [] && Frozen(items) + [] == Frozen(items);
    } else {
      NothingToFreeze();
    }
  }

  lemma SolidIsNoSpace(item: Item)
    requires SolidItem(item)
    ensures !IsSpace(item)
  {
    if item.Ch? {
      assert !IsWhitespace([item.c][0]);
    }
  }

  lemma NothingToFreeze()
    ensures FrozenRuns([]) == Frozen([]) == []
  {}

  /**
   The words extracted from a class value without white space are exactly its candidates
   if and only if no stray `@{` comes before one of its slots.
   */
  lemma SolidVisibleIff(classValue: string)
    requires Solid(classValue)
    ensures (forall w :: w in Tokens(classValue) <==> Produces(Items(classValue), w))
       <==> !StrayThenSlot(Items(classValue))
  {
    hide Solid, SolidItems, Items, Tokens, Produces, StrayThenSlot, StrayBeforeSlot, Frozen, FrozenRuns;
    hide MaxLength, Wordy, Choices;
    var items := Items(classValue);
    ReadSolid(classValue);
    SolidIsOneRun(items);
    if !StrayThenSlot(items) {
      forall w ensures w in Tokens(classValue) <==> Produces(items, w) {
        EveryCandidateVisible(classValue, w);
      }
    } else {
      ReadWordy(classValue);
      WordyChoices(items);
      FrozenChoices(items);
      FrozenIsLonger(items);
      FrozenSolid(items);
      var x := LongestProduced(Frozen(items));
      TokensOfFrozen(classValue, x);
      if Produces(items, x) {
        SolidProduces(items, x);
      }
    }
  }

  // ---- where expansion gives up ---------------------------------------------

  /** `@{}` starts no slot, and a slot may stand right behind it. */
  lemma StrayBeforeText(w: string)
    ensures var s := "@{}" + w;
      && Opens(s) && ParseSlot(s) == None
      && Items(s) == [Ch('@'), Ch('{'), Ch('}')] + Items(w)
  {
    hide Items, BodyEnd, SlotOptions;
    var s := "@{}" + w;
    assert s[2..] == "}" + w && s[1..] == "{}" + w && s[2..][1..] == w;
    EmptyBody(w);
    assert ParseSlot(s) == None;
    ReadsOne(s);
    ReadsOne(s[1..]);
    ReadsOne(s[2..]);
    assert s[1..][1..] == s[2..];
  }

  lemma ReadsOne(s: string)
    requires s != "" && ParseSlot(s).None?
    ensures Items(s) == [Ch(s[0])] + Items(s[1..])
  {}

  lemma EmptyBody(w: string)
    ensures SlotFrom("}" + w) == None
  {
    var rest := "}" + w;
    assert BodyEnd(rest, 0) == Some(0);
    assert rest[..0] == "";
    assert RawSegments("", 0) == [""];
    assert TrimAll([""]) == [""] by {
      assert [""][..0] == [] && TrimAll([]) == [];
    }
  }

  /** A slot that is a whole text reads as one choice. */
  lemma WholeSlot(w: string)
    requires ParseSlot(w).Some? && ParseSlot(w).value.length == |w|
    ensures Items(w) == [Choice(w, ParseSlot(w).value.options)]
  {
    hide ParseSlot;
    NothingRead();
    assert w[..|w|] == w && w[|w|..] == "";
  }

  /** Behind `@{}` a slot is not expanded: the first option is a candidate, but what is collected is the source. */
  lemma ExpansionGivesUp(w: string)
    requires ParseSlot(w).Some? && ParseSlot(w).value.length == |w|
    ensures var s := "@{}" + w;
      && ParseSlot(s) == None && StrayBeforeSlot(Items(s)) && StrayThenSlot(Items(s))
      && IsInstance(Items(s), "@{}" + ParseSlot(w).value.options[0])
      && (forall x :: x in Tokens(s) <==> x in Words(s))
  {
    hide ParseSlot, Items, Words, Tokens;
    var s := "@{}" + w;
    var options := ParseSlot(w).value.options;
    var items := [Ch('@'), Ch('{'), Ch('}'), Choice(w, options)];
    StrayBeforeText(w);
    WholeSlot(w);
    assert Items(s) == items;
    assert items[0..] == items && StrayAt(items[0..]) && items[3].Choice?;
    FirstOption(w, options);
    SourceOfItems(s);
    forall x ensures x in Tokens(s) <==> x in Words(s) {
      TokensOfFrozen(s, x);
      FrozenWhole(items, x);
    }
  }

  lemma FirstOption(w: string, options: seq<string>)
    requires options != []
    ensures IsInstance([Ch('@'), Ch('{'), Ch('}'), Choice(w, options)], "@{}" + options[0])
  {
    var items := [Ch('@'), Ch('{'), Ch('}'), Choice(w, options)];
    var choice := [Choice(w, options)];
    assert items[1..] == [Ch('{'), Ch('}')] + choice && items[1..][1..] == [Ch('}')] + choice;
    assert items[1..][1..][1..] == choice && choice[1..] == [];
    assert ValidPick([], []) && Instantiate([], []) == "" && options[0] + "" == options[0];
    PickFirst(choice, 0, []);
    assert [0] + [] == [0];
    PickCharacter(items[1..][1..], [0]);
    PickCharacter(items[1..], [0]);
    PickCharacter(items, [0]);
    assert "@" + ("{" + ("}" + options[0])) == "@{}" + options[0];
  }

  /** A run without white space that starts with a stray `@{` freezes as a whole. */
  lemma FrozenWhole(items: seq<Item>, x: string)
    requires StrayAt(items) && forall i :: 0 <= i < |items| ==> !IsSpace(items[i])
    ensures Produces(FrozenRuns(items), x) <==> x in Words(Source(items))
  {
    hide Words, Source, StrayAt;
    assert items != [] && !IsSpace(items[0]) by { StrayIsSome(items); }
    NoSpaceRunsOn(items);
    assert items[..|items|] == items && items[|items|..] == [];
    var frozen := Characters(Source(items));
    assert FrozenRuns([]) == [] && frozen + [] == frozen;
    assert Frozen(items) == frozen;
    CharactersOnly(Source(items));
    WordsOfInstances(frozen, x);
    OneCandidate(Source(items));
  }

  lemma StrayIsSome(items: seq<Item>)
    requires StrayAt(items)
    ensures items != []
  {}

  lemma {:induction false} NoSpaceRunsOn(items: seq<Item>)
    requires forall i :: 0 <= i < |items| ==> !IsSpace(items[i])
    ensures RunLength(items) == |items|
  {
    if items != [] {
      NoSpaceRunsOn(items[1..]);
    }
  }

  lemma OneCandidate(x: string)
    ensures AllWords([x]) == Words(x)
  {
    assert [x][..0] == [] && AllWords([]) == [];
  }

  lemma RawOfTwo()
    ensures RawSegments("p|a", 0) == ["p", "a"]
  {
    RawEnd("a", 'a');
    assert "|a"[1..] == "a";
    var tail := ["", "a"];
    assert RawSegments("|a", 0) == [""] + ["a"] == tail;
    assert "p|a" == ['p'] + "|a" && ['p'] + tail[0] == "p" && tail[1..] == ["a"];
    RawFirst("p|a", 'p', "|a");
    assert ["p"] + ["a"] == ["p", "a"];
  }

  lemma RawEnd(body: string, c: char)
    requires body == [c] && c != '|' && StepDepth(0, c) == 0
    ensures RawSegments(body, 0) == [body]
  {
    assert body[1..] == "" && RawSegments("", 0) == [""];
    assert [c] + "" == body;
  }

  lemma RawFirst(body: string, c: char, after: string)
    requires body == [c] + after && c != '|' && StepDepth(0, c) == 0
    ensures RawSegments(body, 0) == [[c] + RawSegments(after, 0)[0]] + RawSegments(after, 0)[1..]
  {
    assert body[1..] == after;
  }

  lemma SegmentsOfTwo()
    ensures Segments("p|a") == ["p", "a"]
  {
    hide RawSegments;
    RawOfTwo();
    assert TrimAll([]) == [] && ["p"][..0] == [] && ["p", "a"][..1] == ["p"];
    assert Trim("p") == "p" && Trim("a") == "a";
    assert TrimAll(["p"]) == ["p"];
    assert TrimAll(["p", "a"]) == ["p"] + ["a"];
  }

  lemma OneOption()
    ensures SlotOptions("p|a") == Some(["a"])
  {
    hide Segments;
    SegmentsOfTwo();
    assert Trim("p") == "p" && Trim("a") == "a";
    assert ["p", "a"][1..] == ["a"] && ["a"][..0] == [];
    assert ReadOptions([]) == Some([]);
    assert !(DEFAULT_PREFIX <= "a");
    assert ParseSlotOption("a") == Some("a");
    assert [] + ["a"] == ["a"];
    assert AddOption([], "a") == Some(["a"]);
  }

  lemma SmallSlot()
    ensures ParseSlot("@{p|a}") == Some(Slot(6, ["a"]))
  {
    hide SlotOptions;
    var rest := "p|a}";
    assert "@{p|a}"[2..] == rest;
    assert rest[1..] == "|a}" && "|a}"[1..] == "a}" && "a}"[1..] == "}";
    assert BodyEnd("}", 0) == Some(0) && BodyEnd("a}", 0) == Some(1) && BodyEnd("|a}", 0) == Some(2);
    assert BodyEnd(rest, 0) == Some(3);
    assert rest[..3] == "p|a";
    OneOption();
  }

  /** Behind `@{}` a slot without white space hides a candidate that is a shorter word. */
  lemma CandidateMissed(w: string)
    requires ParseSlot(w).Some? && ParseSlot(w).value.length == |w|
    requires Solid(w) && ParseSlot(w).value.options[0] != w
    ensures var s, x := "@{}" + w, "@{}" + ParseSlot(w).value.options[0];
      Produces(Items(s), x) && x !in Tokens(s)
  {
    hide ParseSlot, Items, Tokens, StrayBeforeSlot, StrayThenSlot, Solid;
    var s, x := "@{}" + w, "@{}" + ParseSlot(w).value.options[0];
    ExpansionGivesUp(w);
    SlotSolid(w);
    NoBlanks(w);
    NoBlanks(ParseSlot(w).value.options[0]);
    OneWord(s);
    OneWord(x);
    var pick :| ValidPick(Items(s), pick) && Instantiate(Items(s), pick) == x;
    assert Produces(Items(s), x);
    SamePrefix(w, ParseSlot(w).value.options[0]);
  }

  lemma SamePrefix(w: string, v: string)
    requires w != v
    ensures "@{}" + w != "@{}" + v
  {
    assert ("@{}" + w)[3..] == w && ("@{}" + v)[3..] == v;
  }

  lemma NoBlanks(w: string)
    requires Solid(w)
    ensures Solid("@{}" + w)
  {
    var s := "@{}" + w;
    forall i | 0 <= i < |s| ensures !IsWhitespace(s[i]) {
      if i >= 3 {
        assert s[i] == w[i - 3];
      }
    }
  }

  lemma SmallSlotIsSolid()
    ensures "@{p|a}" != "a" && Solid("@{p|a}")
  {
    assert |"a"| != |"@{p|a}"|;
  }

  /** In `@{}@{p|a}` the candidate `@{}a` is not among the words collected. */
  lemma SmallSlotIsMissed()
    ensures var s := "@{}@{p|a}";
      && ParseSlot(s) == None && StrayBeforeSlot(Items(s)) && StrayThenSlot(Items(s))
      && Produces(Items(s), "@{}a") && "@{}a" !in Tokens(s)
  {
    hide Items, Tokens, StrayBeforeSlot, StrayThenSlot, ParseSlot, Produces, Solid;
    SmallSlot();
    SmallSlotIsSolid();
    MissedAsWritten("@{p|a}", "a");
    assert "@{}" + "@{p|a}" == "@{}@{p|a}" && "@{}" + "a" == "@{}a";
  }

  lemma MissedAsWritten(w: string, option: string)
    requires ParseSlot(w) == Some(Slot(|w|, [option])) && option != w && Solid(w)
    ensures var s := "@{}" + w;
      && ParseSlot(s) == None && StrayBeforeSlot(Items(s)) && StrayThenSlot(Items(s))
      && Produces(Items(s), "@{}" + option) && "@{}" + option !in Tokens(s)
  {
    hide Items, Tokens, StrayBeforeSlot, StrayThenSlot, ParseSlot, Produces, Solid;
    ExpansionGivesUp(w);
    CandidateMissed(w);
  }

  lemma OneWord(x: string)
    requires x != "" && Solid(x)
    ensures Words(x) == [x]
  {
    assert WordLength(x) == |x|;
    assert x[..|x|] == x && x[|x|..] == "";
    NoWords();
  }

  // ---- the loops ----------------------------------------------------------

  /** The patterns of a text still to be read, with the part of a pattern already read. */
  function PatternsWith(buf: string, items: seq<Item>): seq<string> {
    if buf == "" then Patterns(items) else
      [buf + Source(items[..RunLength(items)])] + Patterns(items[RunLength(items)..])
  }

  lemma SpaceEndsPattern(buf: string, items: seq<Item>)
    requires items != [] && IsSpace(items[0])
    ensures PatternsWith(buf, items) == (if buf == "" then [] else [buf]) + PatternsWith("", items[1..])
  {
    if buf != "" {
      assert items[..0] == [] && items[0..] == items;
      assert buf + "" == buf;
    }
  }

  lemma ItemJoinsPattern(buf: string, items: seq<Item>)
    requires items != [] && !IsSpace(items[0]) && ItemSource(items[0]) != ""
    ensures PatternsWith(buf, items) == PatternsWith(buf + ItemSource(items[0]), items[1..])
  {
    var n := RunLength(items);
    assert items[..n][1..] == items[1..][..n - 1];
    assert items[n..] == items[1..][n - 1..];
    assert buf + (ItemSource(items[0]) + Source(items[..n][1..]))
        == (buf + ItemSource(items[0])) + Source(items[..n][1..]);
    if buf == "" {
      assert buf + ItemSource(items[0]) == ItemSource(items[0]);
    }
  }

  lemma NothingToJoin(buf: string)
    ensures PatternsWith(buf, []) == if buf == "" then [] else [buf]
  {
    var none: seq<Item> := [];
    assert none[..0] == [] && none[0..] == [] && buf + "" == buf;
  }

  lemma HeadEnds(s: string)
    requires s != "" && !IsSpace(Head(s))
    ensures Trimmed(ItemSource(Head(s)))
  {
    hide ParseSlot;
    var slot := ParseSlot(s);
    if slot.Some? {
      var source := s[..slot.value.length];
      assert source[0] == '@' && source[|source| - 1] == '}';
    }
  }

  /** A slot is read: it joins the pattern in hand. */
  lemma ReadSlot(buf: string, s: string, slot: Option<Slot>)
    requires s != "" && slot == ParseSlot(s) && slot.Some? && Trimmed(buf)
    ensures 0 < slot.value.length <= |s| && Trimmed(buf + s[..slot.value.length])
    ensures PatternsWith(buf, Items(s)) == PatternsWith(buf + s[..slot.value.length], Items(s[slot.value.length..]))
  {
    hide ParseSlot, PatternsWith, Items, IsWhitespace;
    HeadFirst(s);
    HeadEnds(s);
    ItemJoinsPattern(buf, Items(s));
    assert Items(s)[1..] == Items(s[slot.value.length..]);
    EndsOfTwo(buf, s[..slot.value.length]);
  }

  lemma EndsOfTwo(a: string, b: string)
    requires Trimmed(a) && Trimmed(b)
    ensures Trimmed(a + b)
  {}

  /** A character is read: white space ends the pattern, anything else joins it. */
  lemma ReadCharacter(buf: string, s: string)
    requires s != "" && ParseSlot(s).None? && Trimmed(buf)
    ensures IsWhitespace(s[0]) ==>
      PatternsWith(buf, Items(s)) == (if buf == "" then [] else [buf]) + PatternsWith("", Items(s[1..]))
    ensures !IsWhitespace(s[0]) ==>
      Trimmed(buf + [s[0]]) && PatternsWith(buf, Items(s)) == PatternsWith(buf + [s[0]], Items(s[1..]))
  {
    hide ParseSlot, PatternsWith;
    HeadFirst(s);
    assert Items(s)[1..] == Items(s[1..]);
    if IsWhitespace(s[0]) {
      SpaceEndsPattern(buf, Items(s));
    } else {
      ItemJoinsPattern(buf, Items(s));
    }
  }

  method SplitClassPatterns(classValue: string) returns (out: seq<string>)
    ensures out == Patterns(Items(classValue))
  {
    hide Items, ParseSlot, Patterns, PatternsWith, Trim, Trimmed;
    out := [];
    var buf, cursor := "", 0;
    assert classValue[0..] == classValue;
    StartsEmpty(Items(classValue));
    while cursor < |classValue|
      invariant cursor <= |classValue| && Trimmed(buf)
      invariant out + PatternsWith(buf, Items(classValue[cursor..])) == Patterns(Items(classValue))
    {
      ghost var rest := classValue[cursor..];
      var slot := ParseTypedClassSlot(classValue, cursor);
      TrimmedStays(buf);
      if slot.Some? {
        ReadSlot(buf, rest, slot);
        var end := cursor + slot.value.length;
        assert rest[..slot.value.length] == classValue[cursor..end] && rest[slot.value.length..] == classValue[end..];
        buf := buf + classValue[cursor..end];
        cursor := end;
      } else {
        ReadCharacter(buf, rest);
        assert rest[1..] == classValue[cursor + 1..];
        if IsWhitespace(classValue[cursor]) {
          Regroup(out, if buf == "" then [] else [buf], PatternsWith("", Items(rest[1..])));
          if Trim(buf) != "" {
            out := out + [Trim(buf)];
          }
          buf := "";
          StartsEmpty([]);
        } else {
          buf := buf + [classValue[cursor]];
        }
        cursor := cursor + 1;
      }
    }
    assert classValue[cursor..] == "";
    NothingRead();
    NothingToJoin(buf);
    TrimmedStays(buf);
    if Trim(buf) != "" {
      out := out + [Trim(buf)];
    }
  }

  lemma StartsEmpty(items: seq<Item>)
    ensures [] + PatternsWith("", items) == Patterns(items)
    ensures Trimmed("")
  {}

  method ExpandClassPattern(pattern: string) returns (out: seq<string>)
    ensures out == Expand(pattern)
    decreases |pattern|
  {
    var start := FindOpen(pattern);
    if start.None? {
      return [pattern];
    }
    var slot := ParseTypedClassSlot(pattern, start.value);
    if slot.None? {
      return [pattern];
    }
    var prefix, suffix := pattern[..start.value], pattern[start.value..][slot.value.length..];
    var tails := ExpandClassPattern(suffix);
    out := CrossWith(prefix, slot.value.options, tails);
  }

  lemma {:induction false} BeforeAppend(prefix: string, a: seq<string>, b: seq<string>)
    ensures Before(prefix, a + b) == Before(prefix, a) + Before(prefix, b)
  {
    if a == [] {
      assert a + b == b;
    } else {
      assert (a + b)[1..] == a[1..] + b;
      BeforeAppend(prefix, a[1..], b);
    }
  }

  method CrossWith(prefix: string, options: seq<string>, tails: seq<string>) returns (out: seq<string>)
    ensures out == Before(prefix, Cross(options, tails))
  {
    hide Cross, Before;
    out := [];
    assert options[0..] == options;
    for i := 0 to |options|
      invariant out + Before(prefix, Cross(options[i..], tails)) == Before(prefix, Cross(options, tails))
    {
      CrossStep(prefix, options[i..], tails);
      assert options[i..][1..] == options[i + 1..];
      var row := BeforeEach(prefix + options[i], tails);
      Regroup(out, row, Before(prefix, Cross(options[i + 1..], tails)));
      out := out + row;
    }
    assert options[|options|..] == [];
    CrossNone(prefix, tails);
  }

  lemma CrossNone(prefix: string, tails: seq<string>)
    ensures Before(prefix, Cross([], tails)) == []
  {}

  method BeforeEach(prefix: string, tails: seq<string>) returns (out: seq<string>)
    ensures out == Before(prefix, tails)
  {
    out := [];
    for j := 0 to |tails|
      invariant out == Before(prefix, tails[..j])
    {
      assert tails[..j + 1] == tails[..j] + [tails[j]];
      BeforeAppend(prefix, tails[..j], [tails[j]]);
      BeforeOne(prefix, tails[j]);
      out := out + [prefix + tails[j]];
    }
    assert tails[..|tails|] == tails;
  }

  lemma CrossStep(prefix: string, options: seq<string>, tails: seq<string>)
    requires options != []
    ensures Before(prefix, Cross(options, tails))
      == Before(prefix + options[0], tails) + Before(prefix, Cross(options[1..], tails))
  {
    BeforeAppend(prefix, Before(options[0], tails), Cross(options[1..], tails));
    BeforeBefore(prefix, options[0], tails);
  }

  method WordsOfAll(candidates: seq<string>) returns (out: seq<string>)
    ensures out == AllWords(candidates)
  {
    out := [];
    for j := 0 to |candidates|
      invariant out == AllWords(candidates[..j])
    {
      assert candidates[..j + 1][..j] == candidates[..j];
      out := out + Words(candidates[j]);
    }
    assert candidates[..|candidates|] == candidates;
  }

  method ExtractTailwindTokensFromClassValue(classValue: string) returns (out: seq<string>)
    ensures out == Tokens(classValue)
  {
    hide Expand, AllWords, Patterns, Items;
    out := [];
    var patterns := SplitClassPatterns(classValue);
    for i := 0 to |patterns|
      invariant out == PatternWords(patterns[..i])
    {
      assert patterns[..i + 1][..i] == patterns[..i];
      var expanded := ExpandClassPattern(patterns[i]);
      var words := WordsOfAll(expanded);
      out := out + words;
    }
    assert patterns[..|patterns|] == patterns;
  }
}
