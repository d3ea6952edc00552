/**
 Striking literal secrets out of a text. A position is a cut when no occurrence
 of a token straddles it; the text falls apart at its cuts, a piece where a
 token starts reads as one mask, and every other piece is a single character.
 */
module Redactor {
  import opened JsonValues
  import opened Text

  const BULLET: char := '\U{2022}'
  const REDACTED: string := [BULLET, BULLET, BULLET, BULLET, BULLET, BULLET]

  predicate OccursAt(text: string, s: nat, token: string) {
    s + |token| <= |text| && text[s..s + |token|] == token
  }

  ghost predicate Straddles(text: string, token: string, s: nat, i: nat) {
    OccursAt(text, s, token) && s < i < s + |token|
  }

  ghost predicate Crossed(text: string, tokens: seq<string>, i: nat) {
    exists t, s :: t in tokens && Straddles(text, t, s, i)
  }

  ghost predicate Cut(text: string, tokens: seq<string>, i: nat) {
    i <= |text| && !Crossed(text, tokens, i)
  }

  ghost predicate SecretStarts(text: string, tokens: seq<string>, i: nat) {
    exists t :: t in tokens && OccursAt(text, i, t)
  }

  /** The first cut after `i`. */
  ghost function NextCut(text: string, tokens: seq<string>, i: nat): (c: nat)
    requires i < |text|
    ensures i < c <= |text| && Cut(text, tokens, c)
    ensures forall k :: i < k < c ==> Crossed(text, tokens, k)
    decreases |text| - i
  {
    if i + 1 == |text| || !Crossed(text, tokens, i + 1) then i + 1 else NextCut(text, tokens, i + 1)
  }

  ghost function Piece(text: string, tokens: seq<string>, i: nat): string
    requires i < |text|
  {
    if SecretStarts(text, tokens, i) then REDACTED else [text[i]]
  }

  /** What the text from the cut `i` on reads as. */
  ghost function Masked(text: string, tokens: seq<string>, i: nat): string
    requires i <= |text|
    decreases |text| - i
  {
    if i == |text| then "" else Piece(text, tokens, i) + Masked(text, tokens, NextCut(text, tokens, i))
  }

  ghost function Redacted(text: string, tokens: seq<string>): string {
    Masked(text, tokens, 0)
  }

  // ---- cuts ---------------------------------------------------------------

  lemma CrossingGoesBack(text: string, tokens: seq<string>, i: nat)
    requires Crossed(text, tokens, i + 1)
    ensures Crossed(text, tokens, i) || SecretStarts(text, tokens, i)
  {
    var t, s: nat :| t in tokens && Straddles(text, t, s, i + 1);
    if s < i {
      assert Straddles(text, t, s, i);
    }
  }

  /** A piece in which no token starts is one character. */
  lemma PlainPiece(text: string, tokens: seq<string>, i: nat)
    requires i < |text| && Cut(text, tokens, i) && !SecretStarts(text, tokens, i)
    ensures NextCut(text, tokens, i) == i + 1
  {
    if Crossed(text, tokens, i + 1) {
      CrossingGoesBack(text, tokens, i);
    }
  }

  lemma SliceOfSlice<T>(s: seq<T>, lo: nat, hi: nat, i: nat, j: nat)
    requires lo <= hi <= |s| && i <= j <= hi - lo
    ensures s[lo..hi][i..j] == s[lo + i..lo + j]
  {
    var a, b := s[lo..hi][i..j], s[lo + i..lo + j];
    assert forall k :: 0 <= k < j - i ==> a[k] == b[k];
  }

  /** An occurrence in a window is one in the text that fits the window. */
  lemma WindowOccurs(text: string, start: nat, limit: nat, s: nat, token: string)
    requires start <= limit <= |text|
    ensures OccursAt(text[start..limit], s, token) <==> start + s + |token| <= limit && OccursAt(text, start + s, token)
  {
    if start + s + |token| <= limit {
      SliceOfSlice(text, start, limit, s, s + |token|);
    }
  }

  lemma OccursInRest(text: string, pos: nat, s: nat, token: string)
    requires pos <= |text|
    ensures OccursAt(text[pos..], s, token) <==> OccursAt(text, pos + s, token)
  {
    WindowOccurs(text, pos, |text|, s, token);
  }

  /** Seen from a cut, the cuts of the rest are the cuts of the text. */
  lemma CrossedInRest(text: string, tokens: seq<string>, pos: nat, i: nat)
    requires Cut(text, tokens, pos) && i > 0
    ensures Crossed(text[pos..], tokens, i) <==> Crossed(text, tokens, pos + i)
  {
    var rest := text[pos..];
    if Crossed(rest, tokens, i) {
      var t, s: nat :| t in tokens && Straddles(rest, t, s, i);
      OccursInRest(text, pos, s, t);
      assert Straddles(text, t, pos + s, pos + i);
    }
    if Crossed(text, tokens, pos + i) {
      var t, s: nat :| t in tokens && Straddles(text, t, s, pos + i);
      assert !Straddles(text, t, s, pos);
      OccursInRest(text, pos, s - pos, t);
      assert Straddles(rest, t, s - pos, i);
    }
  }

  ghost predicate CrossedUpTo(text: string, tokens: seq<string>, end: nat) {
    forall i :: 0 < i < end ==> Crossed(text, tokens, i)
  }

  /** What the extension loop finds in the rest of the text is the next cut of the whole text. */
  lemma RestEndIsNextCut(text: string, tokens: seq<string>, pos: nat, end: nat)
    requires pos < |text| && Cut(text, tokens, pos) && 0 < end
    requires Cut(text[pos..], tokens, end) && CrossedUpTo(text[pos..], tokens, end)
    ensures pos + end == NextCut(text, tokens, pos)
  {
    CrossedInRest(text, tokens, pos, end);
    var c := NextCut(text, tokens, pos);
    if c < pos + end {
      CrossedInRest(text, tokens, pos, c - pos);
    }
  }

  // ---- extending a match --------------------------------------------------

  /** The last occurrence of `token` in `window` at or before `from`. */
  function LastFrom(window: string, token: string, from: nat): (r: Option<nat>)
    ensures r.Some? ==> r.value <= from && OccursAt(window, r.value, token)
    ensures r.Some? ==> forall s :: r.value < s <= from ==> !OccursAt(window, s, token)
    ensures r.None? ==> forall s :: 0 <= s <= from ==> !OccursAt(window, s, token)
  {
    if OccursAt(window, from, token) then Some(from)
    else if from == 0 then None
    else LastFrom(window, token, from - 1)
  }

  function RFind(window: string, token: string): (r: Option<nat>)
    ensures r.Some? ==> OccursAt(window, r.value, token)
    ensures r.None? ==> forall s: nat :: !OccursAt(window, s, token)
  {
    LastFrom(window, token, |window|)
  }

  lemma Straddled(text: string, tokens: seq<string>, t: string, s: nat, end: nat)
    requires t in tokens && OccursAt(text, s, t) && s < end && CrossedUpTo(text, tokens, end)
    ensures CrossedUpTo(text, tokens, s + |t|)
  {
    forall i | 0 < i < s + |t| ensures Crossed(text, tokens, i) {
      if i >= end {
        assert Straddles(text, t, s, i);
      }
    }
  }

  ghost predicate NoneStraddles(text: string, token: string, i: nat) {
    forall s: nat :: !Straddles(text, token, s, i)
  }

  /** One look at one token: the last occurrence around `end`, if any, moves `end` past it. */
  method ExtendOnce(text: string, ghost tokens: seq<string>, token: string, end0: nat) returns (end: nat)
    requires token in tokens && 0 < end0 <= |text| && CrossedUpTo(text, tokens, end0)
    ensures end0 <= end <= |text| && CrossedUpTo(text, tokens, end)
    ensures end == end0 ==> NoneStraddles(text, token, end0)
  {
    end := end0;
    if |token| <= 1 {
      return;
    }
    var reach := |token| - 1;
    var start := if end >= reach then end - reach else 0;
    var limit := if end + reach <= |text| then end + reach else |text|;
    var offset := RFind(text[start..limit], token);
    if offset.Some? {
      WindowOccurs(text, start, limit, offset.value, token);
      Straddled(text, tokens, token, start + offset.value, end);
      if start + offset.value + |token| > end {
        end := start + offset.value + |token|;
      }
    } else {
      forall s: nat | s >= start ensures !Straddles(text, token, s, end) {
        WindowOccurs(text, start, limit, s - start, token);
      }
    }
  }

  lemma EveryTokenClear(text: string, tokens: seq<string>, end: nat)
    requires end <= |text| && forall j :: 0 <= j < |tokens| ==> NoneStraddles(text, tokens[j], end)
    ensures Cut(text, tokens, end)
  {
    forall t, s: nat | t in tokens ensures !Straddles(text, t, s, end) {
      var j :| 0 <= j < |tokens| && tokens[j] == t;
      assert NoneStraddles(text, tokens[j], end);
    }
  }

  /** Grows a match until no token straddles its end: the least cut past the start. */
  method OverlappingSecretEnd(text: string, tokens: seq<string>, end0: nat) returns (end: nat)
    requires 0 < end0 <= |text| && CrossedUpTo(text, tokens, end0)
    ensures end0 <= end <= |text|
    ensures Cut(text, tokens, end) && CrossedUpTo(text, tokens, end)
  {
    end := end0;
    while true
      invariant end0 <= end <= |text| && CrossedUpTo(text, tokens, end)
      decreases |text| - end
    {
      var previous := end;
      for k := 0 to |tokens|
        invariant previous <= end <= |text| && CrossedUpTo(text, tokens, end)
        invariant end == previous ==> forall j :: 0 <= j < k ==> NoneStraddles(text, tokens[j], end)
      {
        end := ExtendOnce(text, tokens, tokens[k], end);
      }
      if end == previous || end == |text| {
        if end == previous {
          EveryTokenClear(text, tokens, end);
        }
        return;
      }
    }
  }

  // ---- the walk -----------------------------------------------------------

  /** The longest token the text starts with; zero if none. */
  method LongestPrefix(text: string, tokens: seq<string>) returns (length: nat)
    requires "" !in tokens
    ensures length <= |text|
    ensures length > 0 <==> SecretStarts(text, tokens, 0)
    ensures length > 0 ==> exists t :: t in tokens && OccursAt(text, 0, t) && |t| == length
    ensures forall t :: t in tokens && OccursAt(text, 0, t) ==> |t| <= length
  {
    length := 0;
    for k := 0 to |tokens|
      invariant length <= |text|
      invariant length > 0 ==> exists t :: t in tokens && OccursAt(text, 0, t) && |t| == length
      invariant forall j :: 0 <= j < k && OccursAt(text, 0, tokens[j]) ==> |tokens[j]| <= length
    {
      if OccursAt(text, 0, tokens[k]) && |tokens[k]| >= length {
        length := |tokens[k]|;
      }
    }
  }

  lemma MatchIsCrossed(text: string, tokens: seq<string>, t: string)
    requires t in tokens && OccursAt(text, 0, t)
    ensures CrossedUpTo(text, tokens, |t|)
  {
    forall i | 0 < i < |t| ensures Crossed(text, tokens, i) {
      assert Straddles(text, t, 0, i);
    }
  }

  /** The end of the piece that starts a text, given whether a token starts there. */
  method PieceEnd(ghost text: string, rest: string, tokens: seq<string>, ghost pos: nat)
      returns (secret: bool, end: nat)
    requires "" !in tokens && pos < |text| && Cut(text, tokens, pos) && rest == text[pos..]
    ensures 0 < end <= |rest| && pos + end == NextCut(text, tokens, pos)
    ensures secret <==> SecretStarts(text, tokens, pos)
    ensures !secret ==> end == 1
  {
    var length := LongestPrefix(rest, tokens);
    StartsInRest(text, tokens, pos);
    secret := length > 0;
    if secret {
      ghost var t :| t in tokens && OccursAt(rest, 0, t) && |t| == length;
      MatchIsCrossed(rest, tokens, t);
      end := OverlappingSecretEnd(rest, tokens, length);
      RestEndIsNextCut(text, tokens, pos, end);
    } else {
      end := 1;
      PlainPiece(text, tokens, pos);
    }
  }

  lemma StartsInRest(text: string, tokens: seq<string>, pos: nat)
    requires pos <= |text|
    ensures SecretStarts(text[pos..], tokens, 0) <==> SecretStarts(text, tokens, pos)
  {
    forall t | t in tokens ensures OccursAt(text[pos..], 0, t) <==> OccursAt(text, pos, t) {
      OccursInRest(text, pos, 0, t);
    }
  }

  /** Some source text begins at or after the cap, so it was not looked at. */
  ghost predicate LeftOver(text: string, tokens: seq<string>, cap: nat) {
    exists i :: 0 <= i < |text| && Reached(text, tokens, i, cap)
  }

  ghost predicate Reached(text: string, tokens: seq<string>, i: nat, cap: nat)
    requires i <= |text|
  {
    Cut(text, tokens, i) && |Redacted(text, tokens)| >= cap + |Masked(text, tokens, i)|
  }

  /** Every piece before `pos` began below the cap. */
  ghost predicate NoneReachedBefore(text: string, tokens: seq<string>, pos: nat, cap: nat)
    requires pos <= |text|
  {
    forall i :: 0 <= i < pos ==> !Reached(text, tokens, i, cap)
  }

  /** Appends one piece, as far as the cap allows. */
  method AppendPiece(output0: string, ghost whole: string, secret: bool, ch: char, cap: nat) returns (output: string)
    requires output0 == Take(whole, cap) && |whole| < cap
    ensures output == Take(whole + if secret then REDACTED else [ch], cap)
  {
    output := output0;
    if secret {
      var bullets := if cap - |output| < 6 then cap - |output| else 6;
      for k := 0 to bullets
        invariant output == output0 + REDACTED[..k]
      {
        output := output + [BULLET];
      }
    } else {
      output := output + [ch];
    }
  }

  /** At most `cap` characters of the redacted text, and whether source text was left over. */
  method RedactedPreview(text: string, tokens: seq<string>, cap: nat) returns (output: string, truncated: bool)
    requires "" !in tokens
    ensures output == Take(Redacted(text, tokens), cap)
    ensures truncated <==> LeftOver(text, tokens, cap)
    ensures truncated ==> |output| == cap
  {
    hide Cut, LeftOver, Reached, SecretStarts;
    if tokens == [] {
      NothingToRedact(text, tokens);
      PlainLeftOver(text, tokens, cap);
      return Take(text, cap), cap < |text|;
    }
    output := "";
    var rest := text;
    ghost var pos, whole := 0, "";
    StartIsCut(text, tokens);
    while rest != "" && |output| < cap
      invariant pos <= |text| && rest == text[pos..] && Cut(text, tokens, pos)
      invariant Redacted(text, tokens) == whole + Masked(text, tokens, pos)
      invariant output == Take(whole, cap) && NoneReachedBefore(text, tokens, pos, cap)
      decreases |rest|
    {
      var secret, end := PieceEnd(text, rest, tokens, pos);
      output := AppendPiece(output, whole, secret, rest[0], cap);
      StepPiece(text, tokens, pos, whole, cap);
      whole := whole + Piece(text, tokens, pos);
      rest := rest[end..];
      pos := pos + end;
    }
    truncated := rest != "";
    Stopped(text, tokens, pos, whole, cap);
  }

  lemma StartIsCut(text: string, tokens: seq<string>)
    ensures Cut(text, tokens, 0)
  {}

  lemma StepPiece(text: string, tokens: seq<string>, pos: nat, whole: string, cap: nat)
    requires pos < |text| && Cut(text, tokens, pos) && NoneReachedBefore(text, tokens, pos, cap)
    requires Redacted(text, tokens) == whole + Masked(text, tokens, pos) && |whole| < cap
    ensures var next := NextCut(text, tokens, pos);
      && Redacted(text, tokens) == (whole + Piece(text, tokens, pos)) + Masked(text, tokens, next)
      && NoneReachedBefore(text, tokens, next, cap)
  {
    hide Crossed, Piece, NextCut;
    MaskedStep(text, tokens, pos);
    assert Redacted(text, tokens) == (whole + Piece(text, tokens, pos))
        + Masked(text, tokens, NextCut(text, tokens, pos));
    forall i | pos < i < NextCut(text, tokens, pos) ensures !Reached(text, tokens, i, cap) {
      assert Crossed(text, tokens, i);
    }
  }

  lemma MaskedStep(text: string, tokens: seq<string>, pos: nat)
    requires pos < |text|
    ensures Masked(text, tokens, pos) == Piece(text, tokens, pos) + Masked(text, tokens, NextCut(text, tokens, pos))
  {}

  lemma Stopped(text: string, tokens: seq<string>, pos: nat, whole: string, cap: nat)
    requires pos <= |text| && Cut(text, tokens, pos) && NoneReachedBefore(text, tokens, pos, cap)
    requires Redacted(text, tokens) == whole + Masked(text, tokens, pos)
    requires pos == |text| || |whole| >= cap
    ensures Take(whole, cap) == Take(Redacted(text, tokens), cap)
    ensures pos < |text| <==> LeftOver(text, tokens, cap)
  {
    hide Cut;
    if pos < |text| {
      assert Reached(text, tokens, pos, cap);
    } else {
      assert whole + "" == whole;
    }
  }

  lemma {:induction false} PlainMasked(text: string, tokens: seq<string>, i: nat)
    requires i <= |text| && forall t, s :: t in tokens ==> !OccursAt(text, s, t)
    ensures Masked(text, tokens, i) == text[i..]
    decreases |text| - i
  {
    if i < |text| {
      assert !Crossed(text, tokens, i) && !SecretStarts(text, tokens, i);
      PlainPiece(text, tokens, i);
      PlainMasked(text, tokens, i + 1);
    }
  }

  /** A text in which no token occurs reads as itself. */
  lemma NothingToRedact(text: string, tokens: seq<string>)
    requires forall t, s :: t in tokens ==> !OccursAt(text, s, t)
    ensures Redacted(text, tokens) == text
  {
    PlainMasked(text, tokens, 0);
  }

  lemma PlainLeftOver(text: string, tokens: seq<string>, cap: nat)
    requires tokens == []
    ensures LeftOver(text, tokens, cap) <==> cap < |text|
  {
    NothingToRedact(text, tokens);
    forall i | 0 <= i <= |text| ensures Masked(text, tokens, i) == text[i..] { PlainMasked(text, tokens, i); }
    if cap < |text| {
      assert Reached(text, tokens, cap, cap);
    }
  }

  // ---- what the spec promises ---------------------------------------------

  /** Some occurrence of a token contains the character at `j`. */
  ghost predicate Covered(text: string, tokens: seq<string>, j: nat) {
    exists t, s: nat :: t in tokens && OccursAt(text, s, t) && s <= j < s + |t|
  }

  /** A piece is masked exactly when its characters are covered: no more is hidden than must be. */
  lemma MaskedIffCovered(text: string, tokens: seq<string>, c: nat, j: nat)
    requires "" !in tokens && c < |text| && Cut(text, tokens, c)
    requires c <= j < NextCut(text, tokens, c)
    ensures SecretStarts(text, tokens, c) <==> Covered(text, tokens, j)
  {
    if SecretStarts(text, tokens, c) {
      if j == c {
        var t :| t in tokens && OccursAt(text, c, t);
      } else {
        assert Crossed(text, tokens, j);
        var t, s: nat :| t in tokens && Straddles(text, t, s, j);
      }
    }
    if Covered(text, tokens, j) {
      var t, s: nat :| t in tokens && OccursAt(text, s, t) && s <= j < s + |t|;
      assert !Straddles(text, t, s, c);
      if s > c {
        assert Crossed(text, tokens, c + 1);
        CrossingGoesBack(text, tokens, c);
      }
    }
  }

  ghost predicate SameTokens(a: seq<string>, b: seq<string>) {
    forall t :: t in a <==> t in b
  }

  lemma CrossedBySet(text: string, a: seq<string>, b: seq<string>, i: nat)
    requires SameTokens(a, b)
    ensures Crossed(text, a, i) <==> Crossed(text, b, i)
    ensures SecretStarts(text, a, i) <==> SecretStarts(text, b, i)
  {}

  lemma {:induction false} MaskedBySet(text: string, a: seq<string>, b: seq<string>, i: nat)
    requires SameTokens(a, b) && i <= |text|
    ensures Masked(text, a, i) == Masked(text, b, i)
    decreases |text| - i
  {
    if i < |text| {
      var c, d := NextCut(text, a, i), NextCut(text, b, i);
      CrossedBySet(text, a, b, i);
      CrossedBySet(text, a, b, c);
      CrossedBySet(text, a, b, d);
      assert c == d;
      MaskedBySet(text, a, b, c);
    }
  }

  /** Neither the order of the tokens nor their repetition matters. */
  lemma OrderIrrelevant(text: string, a: seq<string>, b: seq<string>)
    requires SameTokens(a, b)
    ensures Redacted(text, a) == Redacted(text, b)
    ensures forall cap :: LeftOver(text, a, cap) <==> LeftOver(text, b, cap)
  {
    MaskedBySet(text, a, b, 0);
    forall i | 0 <= i <= |text|
      ensures Masked(text, a, i) == Masked(text, b, i) && (Cut(text, a, i) <==> Cut(text, b, i))
    {
      MaskedBySet(text, a, b, i);
      CrossedBySet(text, a, b, i);
    }
    forall i, cap | 0 <= i <= |text| ensures Reached(text, a, i, cap) <==> Reached(text, b, i, cap) {}
  }

  ghost predicate HoldsMask(t: string) {
    exists k :: OccursAt(t, k, REDACTED)
  }

  /** What a mask can be read as a part of: it starts or ends with a bullet, or holds six in a row. */
  ghost predicate MaskLike(t: string) {
    t != "" && (t[0] == BULLET || t[|t| - 1] == BULLET || HoldsMask(t))
  }

  /** Neither the end of `t` nor anything inside it can come from a mask. */
  ghost predicate EndsPlainly(t: string) {
    (t == "" || t[|t| - 1] != BULLET) && !HoldsMask(t)
  }

  lemma TailEndsPlainly(t: string)
    requires t != "" && EndsPlainly(t)
    ensures EndsPlainly(t[1..])
  {
    forall k: nat ensures !OccursAt(t[1..], k, REDACTED) {
      OccursInRest(t, 1, k, REDACTED);
    }
  }

  /** What ends plainly does not begin where a mask does. */
  lemma MaskDoesNotStart(out: string, rest: string, t: string)
    requires out == REDACTED + rest && OccursAt(out, 0, t) && t != ""
    ensures !EndsPlainly(t)
  {
    if |t| >= |REDACTED| {
      assert t[..|REDACTED|] == out[..|t|][..|REDACTED|] == REDACTED;
      assert OccursAt(t, 0, REDACTED);
    } else {
      assert t[|t| - 1] == REDACTED[|t| - 1] == BULLET;
    }
  }

  lemma OccursBehindFirst(text: string, i: nat, t: string)
    requires t != ""
    ensures OccursAt(text, i, t) <==> i < |text| && text[i] == t[0] && OccursAt(text, i + 1, t[1..])
  {
    assert t == [t[0]] + t[1..];
    if i + |t| <= |text| {
      assert text[i..i + |t|] == [text[i]] + text[i + 1..i + |t|];
    }
  }

  /** A plain prefix of the output was in the source, at the same place. */
  lemma {:induction false} PrefixWasThere(text: string, tokens: seq<string>, i: nat, t: string)
    requires i <= |text| && Cut(text, tokens, i) && EndsPlainly(t)
    requires OccursAt(Masked(text, tokens, i), 0, t)
    ensures OccursAt(text, i, t)
    ensures t != "" ==> !SecretStarts(text, tokens, i)
    decreases |t|
  {
    hide EndsPlainly, Crossed, SecretStarts;
    if t == "" {
      assert text[i..i] == "";
    } else {
      var out := Masked(text, tokens, i);
      assert i < |text|;
      MaskedStep(text, tokens, i);
      if SecretStarts(text, tokens, i) {
        MaskDoesNotStart(out, Masked(text, tokens, NextCut(text, tokens, i)), t);
      }
      PlainPiece(text, tokens, i);
      hide Masked, NextCut, OccursAt;
      OccursBehindFirst(out, 0, t);
      assert out[1..] == Masked(text, tokens, i + 1);
      OccursInRest(out, 1, 0, t[1..]);
      TailEndsPlainly(t);
      PrefixWasThere(text, tokens, i + 1, t[1..]);
      OccursBehindFirst(text, i, t);
    }
  }

  lemma FirstCharacter(text: string, k: nat, t: string)
    requires OccursAt(text, k, t) && t != ""
    ensures k < |text| && text[k] == t[0]
  {
    assert text[k..k + |t|][0] == text[k];
  }

  lemma {:induction false} NoTokenFrom(text: string, tokens: seq<string>, i: nat, t: string, k: nat)
    requires i <= |text| && Cut(text, tokens, i) && t in tokens && t != "" && !MaskLike(t)
    ensures !OccursAt(Masked(text, tokens, i), k, t)
    decreases |text| - i
  {
    var out := Masked(text, tokens, i);
    if k == 0 {
      if OccursAt(out, 0, t) { PrefixWasThere(text, tokens, i, t); }
    } else if i < |text| {
      var piece, next := Piece(text, tokens, i), NextCut(text, tokens, i);
      if k < |piece| {
        assert out[k] == BULLET;
        if OccursAt(out, k, t) { FirstCharacter(out, k, t); }
      } else {
        OccursInRest(out, |piece|, k - |piece|, t);
        assert out[|piece|..] == Masked(text, tokens, next);
        NoTokenFrom(text, tokens, next, t, k - |piece|);
      }
    }
  }

  /** Whatever the cap, no token that a mask cannot be a part of is left anywhere in the output. */
  lemma NoTokenSurvives(text: string, tokens: seq<string>, cap: nat, t: string, k: nat)
    requires t in tokens && t != "" && !MaskLike(t)
    ensures !OccursAt(Take(Redacted(text, tokens), cap), k, t)
  {
    NoTokenFrom(text, tokens, 0, t, k);
    var whole := Redacted(text, tokens);
    if |whole| > cap {
      WindowOccurs(whole, 0, cap, k, t);
    }
  }

  ghost predicate NoneMaskLike(tokens: seq<string>) {
    forall t :: t in tokens ==> t != "" && !MaskLike(t)
  }

  /** Redacting the output again, whatever cap it was cut at, changes nothing. */
  lemma RedactingTwice(text: string, tokens: seq<string>, cap: nat)
    requires NoneMaskLike(tokens)
    ensures var once := Take(Redacted(text, tokens), cap); Redacted(once, tokens) == once
  {
    var once := Take(Redacted(text, tokens), cap);
    forall t, s | t in tokens ensures !OccursAt(once, s, t) {
      NoTokenSurvives(text, tokens, cap, t, s);
    }
    NothingToRedact(once, tokens);
  }

  // ---- which tokens a mask can give back ------------------------------------

  /** Some list that names `t`, and some text, leave `t` in the output. */
  ghost predicate CanSurvive(t: string) {
    exists text, tokens, k :: Leaves(t, text, tokens, k)
  }

  ghost predicate Leaves(t: string, text: string, tokens: seq<string>, k: nat) {
    t in tokens && "" !in tokens && OccursAt(Redacted(text, tokens), k, t)
  }

  /** A text with a mark in it, and a list of a token and the mark. */
  datatype Marked = Marked(before: string, mark: string, after: string, token: string)

  function TextOf(m: Marked): string {
    m.before + m.mark + m.after
  }

  function TokensOf(m: Marked): seq<string> {
    [m.token, m.mark]
  }

  /** Tokens occur only within the mark, and the mark is one of them. */
  ghost predicate Isolates(m: Marked) {
    && m.token != "" && m.mark != ""
    && forall u, s: nat :: u in TokensOf(m) && OccursAt(TextOf(m), s, u) ==>
         |m.before| <= s && s + |u| <= |m.before| + |m.mark|
  }

  /** Where nothing of the mark is strictly inside, nothing is crossed; only at the mark does a token start. */
  lemma OutsideMark(m: Marked, i: nat)
    requires Isolates(m) && (i <= |m.before| || |m.before| + |m.mark| <= i)
    ensures !Crossed(TextOf(m), TokensOf(m), i)
    ensures i != |m.before| ==> !SecretStarts(TextOf(m), TokensOf(m), i)
  {}

  lemma MarkOccurs(m: Marked)
    requires m.mark != ""
    ensures OccursAt(TextOf(m), |m.before|, m.mark) && SecretStarts(TextOf(m), TokensOf(m), |m.before|)
    ensures forall i :: |m.before| < i < |m.before| + |m.mark| ==> Crossed(TextOf(m), TokensOf(m), i)
  {
    var text := TextOf(m);
    assert text[|m.before|..|m.before| + |m.mark|] == m.mark;
    assert TokensOf(m)[1] == m.mark;
    forall i | |m.before| < i < |m.before| + |m.mark| ensures Crossed(text, TokensOf(m), i) {
      assert Straddles(text, m.mark, |m.before|, i);
    }
  }

  lemma PlainStep(text: string, tokens: seq<string>, i: nat)
    requires i < |text| && Cut(text, tokens, i) && !SecretStarts(text, tokens, i)
    ensures Masked(text, tokens, i) == [text[i]] + Masked(text, tokens, i + 1)
  {
    hide Crossed, SecretStarts;
    PlainPiece(text, tokens, i);
    MaskedStep(text, tokens, i);
  }

  lemma NothingMasked(text: string, tokens: seq<string>)
    ensures Masked(text, tokens, |text|) == "" && text[|text|..] == ""
  {}

  /** Behind the mark the text reads as it is. */
  lemma {:induction false} BehindMark(m: Marked, i: nat)
    requires Isolates(m) && |m.before| + |m.mark| <= i <= |TextOf(m)|
    ensures Masked(TextOf(m), TokensOf(m), i) == TextOf(m)[i..]
    decreases |TextOf(m)| - i
  {
    hide Masked, Crossed, SecretStarts, Isolates;
    var text := TextOf(m);
    if i == |text| {
      NothingMasked(text, TokensOf(m));
    } else {
      IsolatesMark(m);
      OutsideMark(m, i);
      PlainStep(text, TokensOf(m), i);
      BehindMark(m, i + 1);
      assert text[i..] == [text[i]] + text[i + 1..];
    }
  }

  lemma IsolatesMark(m: Marked)
    requires Isolates(m)
    ensures m.mark != ""
  {}

  /** The mark reads as one mask. */
  lemma AtMark(m: Marked)
    requires Isolates(m)
    ensures Masked(TextOf(m), TokensOf(m), |m.before|) == REDACTED + m.after
  {
    hide Crossed, SecretStarts, Isolates;
    var text, tokens, end := TextOf(m), TokensOf(m), |m.before| + |m.mark|;
    IsolatesMark(m);
    MarkOccurs(m);
    OutsideMark(m, end);
    assert NextCut(text, tokens, |m.before|) == end;
    BehindMark(m, end);
    assert text[end..] == m.after;
  }

  lemma {:induction false} BeforeMark(m: Marked, i: nat)
    requires Isolates(m) && i <= |m.before|
    ensures Masked(TextOf(m), TokensOf(m), i) == m.before[i..] + (REDACTED + m.after)
    decreases |m.before| - i
  {
    hide Masked, Crossed, SecretStarts, Isolates;
    var tail := REDACTED + m.after;
    if i == |m.before| {
      AtMark(m);
      assert m.before[i..] + tail == tail;
    } else {
      OutsideMark(m, i);
      PlainStep(TextOf(m), TokensOf(m), i);
      BeforeMark(m, i + 1);
      assert m.before[i..] + tail == [m.before[i]] + (m.before[i + 1..] + tail);
    }
  }

  lemma MarkedReads(m: Marked)
    requires Isolates(m)
    ensures Redacted(TextOf(m), TokensOf(m)) == m.before + REDACTED + m.after
  {
    hide Isolates;
    BeforeMark(m, 0);
    assert m.before[0..] == m.before;
  }

  function Row(c: char, n: nat): (r: string)
    ensures |r| == n && forall i :: 0 <= i < n ==> r[i] == c
  {
    seq(n, i => c)
  }

  /** Two rows as long as the token: one of a character it does not end with, one of another it does not start with. */
  ghost predicate GoodMark(m: Marked, c: char, d: char) {
    var n := |m.token|;
    && 0 < n && |m.before| < n && |m.after| < n
    && c != m.token[n - 1] && d != m.token[0] && c != d
    && m.mark == Row(c, n) + Row(d, n)
  }

  lemma RowsInText(m: Marked, c: char, d: char, i: nat)
    requires GoodMark(m, c, d)
    ensures |TextOf(m)| == |m.before| + 2 * |m.token| + |m.after|
    ensures |m.before| <= i < |m.before| + |m.token| ==> TextOf(m)[i] == c
    ensures |m.before| + |m.token| <= i < |m.before| + 2 * |m.token| ==> TextOf(m)[i] == d
  {}

  lemma TokenInMark(m: Marked, c: char, d: char, s: nat)
    requires GoodMark(m, c, d) && OccursAt(TextOf(m), s, m.token)
    ensures |m.before| <= s && s + |m.token| <= |m.before| + 2 * |m.token|
  {
    var text, n := TextOf(m), |m.token|;
    assert text[s..s + n][0] == text[s] && text[s..s + n][n - 1] == text[s + n - 1];
    RowsInText(m, c, d, s);
    RowsInText(m, c, d, s + n - 1);
  }

  lemma MarkInPlace(m: Marked, c: char, d: char, s: nat)
    requires GoodMark(m, c, d) && OccursAt(TextOf(m), s, m.mark)
    ensures s == |m.before|
  {
    var text, n := TextOf(m), |m.token|;
    assert |m.mark| == 2 * n && m.mark[n - 1] == c && m.mark[n] == d;
    CharacterOccurs(text, s, m.mark, n - 1);
    CharacterOccurs(text, s, m.mark, n);
    RowsInText(m, c, d, s + n - 1);
    RowsInText(m, c, d, s + n);
  }

  lemma CharacterOccurs(text: string, s: nat, token: string, i: nat)
    requires OccursAt(text, s, token) && i < |token|
    ensures s + |token| <= |text| && text[s + i] == token[i]
  {
    assert text[s..s + |token|][i] == text[s + i];
  }

  lemma GoodMarkIsolates(m: Marked, c: char, d: char)
    requires GoodMark(m, c, d)
    ensures Isolates(m)
  {
    hide OccursAt;
    forall u, s: nat | u in TokensOf(m) && OccursAt(TextOf(m), s, u)
      ensures |m.before| <= s && s + |u| <= |m.before| + |m.mark|
    {
      if u == m.token {
        TokenInMark(m, c, d, s);
      } else {
        MarkInPlace(m, c, d, s);
      }
    }
  }

  /** Two characters, other than each other, other than `x` and `y` in turn. */
  lemma TwoOthers(x: char, y: char) returns (c: char, d: char)
    ensures c != x && d != y && c != d
  {
    c := if x == 'a' then 'b' else 'a';
    d := if y == 'c' then 'd' else 'c';
  }

  lemma MarkedSurvives(t: string, before: string, after: string, k: nat)
    requires t != "" && |before| < |t| && |after| < |t| && OccursAt(before + REDACTED + after, k, t)
    ensures CanSurvive(t)
  {
    var c, d := TwoOthers(t[|t| - 1], t[0]);
    var m := Marked(before, Row(c, |t|) + Row(d, |t|), after, t);
    GoodMarkIsolates(m, c, d);
    MarkedReads(m);
    hide Isolates, Redacted;
    assert TokensOf(m)[0] == t;
    assert Leaves(t, TextOf(m), TokensOf(m), k);
  }

  /**
   Which tokens can be found again after redaction, when the list may name others: exactly those
   that start or end with the mask character or hold a whole mask.
   */
  lemma SurvivesExactlyWhen(t: string)
    requires t != ""
    ensures CanSurvive(t) <==> MaskLike(t)
  {
    if CanSurvive(t) && !MaskLike(t) {
      var text, tokens, k: nat :| Leaves(t, text, tokens, k);
      NoTokenFrom(text, tokens, 0, t, k);
    }
    if MaskLike(t) {
      MaskLikeSurvives(t);
    }
  }

  lemma MaskLikeSurvives(t: string)
    requires MaskLike(t)
    ensures CanSurvive(t)
  {
    hide CanSurvive;
    var n := |t|;
    if t[0] == BULLET {
      var out := "" + REDACTED + t[1..];
      assert t == [BULLET] + t[1..];
      assert out[5..5 + n] == t;
      MarkedSurvives(t, "", t[1..], 5);
    } else if t[n - 1] == BULLET {
      var out := t[..n - 1] + REDACTED + "";
      assert t == t[..n - 1] + [BULLET];
      assert out[0..n] == t;
      MarkedSurvives(t, t[..n - 1], "", 0);
    } else {
      var k: nat :| OccursAt(t, k, REDACTED);
      var out := t[..k] + REDACTED + t[k + 6..];
      assert t == out;
      assert out[0..n] == t;
      MarkedSurvives(t, t[..k], t[k + 6..], 0);
    }
  }

  /** The same policy for a text of the run itself: empty tokens ignored, no capture limit. */
  method RedactLiteralSecrets(text: string, tokens: seq<string>) returns (output: string)
    ensures output == Take(Redacted(text, NonEmpty(tokens)), USIZE_LIMIT - 1)
  {
    var truncated;
    output, truncated := RedactedPreview(text, NonEmpty(tokens), USIZE_LIMIT - 1);
  }
}
