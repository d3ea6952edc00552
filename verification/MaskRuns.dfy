/**
 Redaction when a run of bullets, which a mask is made of, is the only token:
 when a text can keep the token, and when redacting again changes nothing.
 */
module MaskRuns {
  import opened Text
  import opened Redactor

  // ---- a list of one run of bullets -------------------------------------------

  function Run(n: nat): (r: string)
    ensures |r| == n && forall i :: 0 <= i < n ==> r[i] == BULLET
  {
    seq(n, i => BULLET)
  }

  predicate BulletsFrom(text: string, i: nat, n: nat) {
    i + n <= |text| && forall j :: i <= j < i + n ==> text[j] == BULLET
  }

  lemma RunOccurs(text: string, i: nat, n: nat)
    ensures OccursAt(text, i, Run(n)) <==> BulletsFrom(text, i, n)
  {
    if i + n <= |text| && OccursAt(text, i, Run(n)) {
      forall j | i <= j < i + n ensures text[j] == BULLET {
        assert text[i..i + n][j - i] == Run(n)[j - i];
      }
    }
    if BulletsFrom(text, i, n) {
      assert text[i..i + n] == Run(n);
    }
  }

  lemma RunStarts(text: string, n: nat, i: nat)
    ensures SecretStarts(text, [Run(n)], i) <==> BulletsFrom(text, i, n)
  {
    RunOccurs(text, i, n);
    assert [Run(n)][0] == Run(n);
  }

  lemma RunGoesBack(text: string, n: nat, i: nat)
    requires 0 < n && i < |text| && text[i] == BULLET && !BulletsFrom(text, i, n)
    ensures !BulletsFrom(text, i + 1, n)
  {}

  /** A plain piece and bullets after it in the output are bullets in the text. */
  lemma {:induction false} PlainBullets(text: string, n: nat, i: nat, k: nat)
    requires 0 < n && i <= |text| && Cut(text, [Run(n)], i) && !SecretStarts(text, [Run(n)], i)
    requires BulletsFrom(Masked(text, [Run(n)], i), 0, k)
    ensures BulletsFrom(text, i, k) && k < n
    decreases k
  {
    hide Crossed, SecretStarts;
    var tokens := [Run(n)];
    RunStarts(text, n, i);
    if k > 0 {
      var out := Masked(text, tokens, i);
      PlainPiece(text, tokens, i);
      var rest := Masked(text, tokens, i + 1);
      assert out == [text[i]] + rest;
      assert forall j :: 0 <= j < k - 1 ==> rest[j] == out[j + 1];
      assert text[i] == out[0];
      RunStarts(text, n, i + 1);
      RunGoesBack(text, n, i);
      PlainBullets(text, n, i + 1, k - 1);
    }
  }

  /** Behind a mask for runs of at least two bullets the output does not go on with a bullet. */
  lemma NoBulletBehindMask(text: string, n: nat, i: nat)
    requires n > 1 && i < |text| && Cut(text, [Run(n)], i) && SecretStarts(text, [Run(n)], i)
    ensures !BulletsFrom(Masked(text, [Run(n)], NextCut(text, [Run(n)], i)), 0, 1)
  {
    var tokens := [Run(n)];
    var next := NextCut(text, tokens, i);
    if BulletsFrom(Masked(text, tokens, next), 0, 1) {
      BulletAtCut(text, n, next);
      RunStarts(text, n, i);
      forall j | i <= j < next ensures text[j] == BULLET {
        MaskedIffCovered(text, tokens, i, j);
        var t, s: nat :| t in tokens && OccursAt(text, s, t) && s <= j < s + |t|;
        RunOccurs(text, s, n);
      }
      RunReaches(text, n, i, next);
    }
  }

  lemma BulletAtCut(text: string, n: nat, i: nat)
    requires 0 < n && i <= |text| && Cut(text, [Run(n)], i) && BulletsFrom(Masked(text, [Run(n)], i), 0, 1)
    ensures i < |text| && text[i] == BULLET
  {
    hide Crossed, SecretStarts;
    RunStarts(text, n, i);
    if !SecretStarts(text, [Run(n)], i) {
      PlainBullets(text, n, i, 1);
    }
  }

  lemma RunReaches(text: string, n: nat, i: nat, next: nat)
    requires n > 1 && i < next < |text| && BulletsFrom(text, i, n) && next == NextCut(text, [Run(n)], i)
    ensures exists j :: i <= j <= next && text[j] != BULLET
  {
    if forall j :: i <= j <= next ==> text[j] == BULLET {
      var s := if next < i + n then i else next + 1 - n;
      assert BulletsFrom(text, s, n);
      RunOccurs(text, s, n);
      assert [Run(n)][0] == Run(n);
      if next < i + n {
        assert Straddles(text, Run(n), s, next);
      } else {
        assert Straddles(text, Run(n), s, next);
      }
    }
  }

  lemma {:induction false} NoLongRun(text: string, n: nat, i: nat, k: nat)
    requires n > |REDACTED| && i <= |text| && Cut(text, [Run(n)], i)
    ensures !BulletsFrom(Masked(text, [Run(n)], i), k, n)
    decreases |text| - i
  {
    hide Crossed, SecretStarts;
    var tokens := [Run(n)];
    var out := Masked(text, tokens, i);
    if i < |text| && BulletsFrom(out, k, n) {
      var piece, next := Piece(text, tokens, i), NextCut(text, tokens, i);
      var rest := Masked(text, tokens, next);
      assert out == piece + rest;
      if k >= |piece| {
        assert forall j :: k - |piece| <= j < k - |piece| + n ==> rest[j] == out[j + |piece|];
        NoLongRun(text, n, next, k - |piece|);
      } else if SecretStarts(text, tokens, i) {
        assert rest[0] == out[|piece|];
        NoBulletBehindMask(text, n, i);
      } else {
        assert k == 0;
        PlainBullets(text, n, i, n);
      }
    }
  }

  lemma {:induction false} RunIsOnePiece(n: nat)
    requires 0 < n
    ensures Redacted(Run(n), [Run(n)]) == REDACTED
  {
    var text, tokens := Run(n), [Run(n)];
    RunStarts(text, n, 0);
    var c := NextCut(text, tokens, 0);
    assert tokens[0] == text && text[0..0 + n] == text;
    if c < n {
      assert Straddles(text, text, 0, c);
    }
    assert Masked(text, tokens, n) == "";
    assert REDACTED + "" == REDACTED;
  }

  /** When a run of `n` bullets is the only token, some text keeps it exactly when it is no longer than a mask. */
  lemma RunSurvivesExactlyWhen(n: nat)
    requires 0 < n
    ensures (exists text, k :: OccursAt(Redacted(text, [Run(n)]), k, Run(n))) <==> n <= |REDACTED|
  {
    if n <= |REDACTED| {
      RunIsOnePiece(n);
      RunOccurs(REDACTED, 0, n);
      assert OccursAt(Redacted(Run(n), [Run(n)]), 0, Run(n));
    } else {
      forall text, k: nat ensures !OccursAt(Redacted(text, [Run(n)]), k, Run(n)) {
        NoLongRun(text, n, 0, k);
        RunOccurs(Redacted(text, [Run(n)]), k, n);
      }
    }
  }

  // ---- redacting runs again ---------------------------------------------------

  /** How many bullets a text starts with. */
  function Lead(s: string): (k: nat)
    ensures BulletsFrom(s, 0, k) && (k < |s| ==> s[k] != BULLET)
  {
    if s == "" || s[0] != BULLET then 0 else
      var k := Lead(s[1..]);
      assert forall j :: 1 <= j < k + 1 ==> s[j] == s[1..][j - 1];
      1 + k
  }

  /** Every maximal run of at least `n` bullets becomes one mask, everything else stays. */
  function Shrunk(s: string, n: nat): string
    requires n > 0
    decreases |s|
  {
    if s == "" then ""
    else if Lead(s) == 0 then [s[0]] + Shrunk(s[1..], n)
    else (if Lead(s) >= n then REDACTED else Run(Lead(s))) + Shrunk(s[Lead(s)..], n)
  }

  /** Behind a cut the masked text is that of the rest. */
  lemma {:induction false} MaskedBehindCut(text: string, tokens: seq<string>, i: nat, j: nat)
    requires i <= |text| && Cut(text, tokens, i) && j <= |text[i..]| && Cut(text[i..], tokens, j)
    ensures Masked(text[i..], tokens, j) == Masked(text, tokens, i + j)
    decreases |text| - i - j
  {
    hide Masked, Crossed, SecretStarts;
    var rest := text[i..];
    if j == |rest| {
      NothingMasked(rest, tokens);
      NothingMasked(text, tokens);
    } else {
      NextCutBehindCut(text, tokens, i, j);
      StartsBehindCut(text, tokens, i, j);
      MaskedStep(rest, tokens, j);
      MaskedStep(text, tokens, i + j);
      MaskedBehindCut(text, tokens, i, NextCut(rest, tokens, j));
    }
  }

  lemma NextCutBehindCut(text: string, tokens: seq<string>, i: nat, j: nat)
    requires Cut(text, tokens, i) && j < |text[i..]|
    ensures i + NextCut(text[i..], tokens, j) == NextCut(text, tokens, i + j)
  {
    hide Crossed;
    var rest := text[i..];
    var a, b := NextCut(rest, tokens, j), NextCut(text, tokens, i + j);
    CrossedInRest(text, tokens, i, a);
    CrossedInRest(text, tokens, i, b - i);
  }

  lemma StartsBehindCut(text: string, tokens: seq<string>, i: nat, j: nat)
    requires i <= |text|
    ensures SecretStarts(text[i..], tokens, j) <==> SecretStarts(text, tokens, i + j)
  {
    forall t | t in tokens ensures OccursAt(text[i..], j, t) <==> OccursAt(text, i + j, t) {
      OccursInRest(text, i, j, t);
    }
  }

  lemma BehindCut(text: string, tokens: seq<string>, i: nat)
    requires i <= |text| && Cut(text, tokens, i)
    ensures Masked(text, tokens, i) == Redacted(text[i..], tokens)
  {
    hide Masked, Crossed;
    StartIsCut(text[i..], tokens);
    MaskedBehindCut(text, tokens, i, 0);
  }

  /** Where a text does not start with a bullet, or starts with too few of them, it is read as it is. */
  lemma {:induction false} LeadStays(text: string, n: nat, j: nat)
    requires n > 1 && Lead(text) < n && j <= Lead(text)
    ensures Cut(text, [Run(n)], j)
    ensures Masked(text, [Run(n)], j) == Run(Lead(text) - j) + Redacted(text[Lead(text)..], [Run(n)])
    decreases Lead(text) - j
  {
    hide Masked, Crossed, SecretStarts;
    var k, tokens := Lead(text), [Run(n)];
    ShortLeadIsUncrossed(text, n, j);
    if j == k {
      BehindCut(text, tokens, k);
      assert Run(0) + Redacted(text[k..], tokens) == Redacted(text[k..], tokens);
    } else {
      ShortLeadStartsNothing(text, n, j);
      PlainStep(text, tokens, j);
      LeadStays(text, n, j + 1);
      assert Run(k - j) == [BULLET] + Run(k - j - 1);
    }
  }

  lemma ShortLeadIsUncrossed(text: string, n: nat, j: nat)
    requires n > 1 && Lead(text) < n && j <= Lead(text)
    ensures !Crossed(text, [Run(n)], j)
  {
    forall s: nat | s < j ensures !OccursAt(text, s, Run(n)) {
      RunOccurs(text, s, n);
    }
  }

  lemma ShortLeadStartsNothing(text: string, n: nat, j: nat)
    requires n > 1 && Lead(text) < n && j < Lead(text)
    ensures !SecretStarts(text, [Run(n)], j)
  {
    RunStarts(text, n, j);
  }

  /** A run that is long enough is one mask. */
  lemma LeadMasked(text: string, n: nat)
    requires n > 1 && Lead(text) >= n
    ensures Redacted(text, [Run(n)]) == REDACTED + Redacted(text[Lead(text)..], [Run(n)])
  {
    var k, tokens := Lead(text), [Run(n)];
    RunStarts(text, n, 0);
    LongLeadCrossed(text, n);
    hide Masked, Crossed, SecretStarts;
    assert NextCut(text, tokens, 0) == k;
    StartIsCut(text, tokens);
    MaskedStep(text, tokens, 0);
    BehindCut(text, tokens, k);
  }

  lemma LongLeadCrossed(text: string, n: nat)
    requires n > 1 && Lead(text) >= n
    ensures forall i :: 0 < i < Lead(text) ==> Crossed(text, [Run(n)], i)
    ensures !Crossed(text, [Run(n)], Lead(text))
  {
    var k := Lead(text);
    assert [Run(n)][0] == Run(n);
    forall i | 0 < i < k ensures Crossed(text, [Run(n)], i) {
      var s := if i < n then 0 else i + 1 - n;
      RunOccurs(text, s, n);
      assert Straddles(text, Run(n), s, i);
    }
    forall s: nat | s < k < s + n ensures !OccursAt(text, s, Run(n)) {
      RunOccurs(text, s, n);
    }
  }

  /** With one run of at least two bullets as the only token, redaction shrinks the runs that are long enough. */
  lemma {:induction false} RedactedIsShrunk(text: string, n: nat)
    requires n > 1
    ensures Redacted(text, [Run(n)]) == Shrunk(text, n)
    decreases |text|
  {
    hide Masked, Crossed, SecretStarts, Lead, Run, Redacted;
    var k := Lead(text);
    if text == "" {
      EmptyStays(n);
    } else if k == 0 {
      FirstStays(text, n);
      RedactedIsShrunk(text[1..], n);
    } else {
      RedactedIsShrunk(text[k..], n);
      if k >= n {
        LeadMasked(text, n);
      } else {
        ShortLeadStays(text, n);
      }
    }
  }

  lemma ShortLeadStays(text: string, n: nat)
    requires n > 1 && 0 < Lead(text) < n
    ensures Redacted(text, [Run(n)]) == Run(Lead(text)) + Redacted(text[Lead(text)..], [Run(n)])
  {
    hide Masked, Crossed, SecretStarts, Lead, Run;
    LeadStays(text, n, 0);
  }

  lemma EmptyStays(n: nat)
    ensures Redacted("", [Run(n)]) == ""
  {
    NothingMasked("", [Run(n)]);
  }

  /** A first character that is no bullet stays. */
  lemma FirstStays(text: string, n: nat)
    requires n > 1 && text != "" && Lead(text) == 0
    ensures Redacted(text, [Run(n)]) == [text[0]] + Redacted(text[1..], [Run(n)])
  {
    hide Masked, Crossed, SecretStarts;
    var tokens := [Run(n)];
    StartIsCut(text, tokens);
    RunStarts(text, n, 0);
    PlainStep(text, tokens, 0);
    NotCrossedBehindFirst(text, n);
    BehindCut(text, tokens, 1);
  }

  lemma NotCrossedBehindFirst(text: string, n: nat)
    requires n > 1 && text != "" && text[0] != BULLET
    ensures Cut(text, [Run(n)], 1)
  {
    RunOccurs(text, 0, n);
  }

  /** Every maximal run of at least `n` bullets is as long as a mask. */
  predicate Still(s: string, n: nat)
    requires n > 0
    decreases |s|
  {
    s == "" || (
      if Lead(s) == 0 then Still(s[1..], n)
      else (Lead(s) < n || Lead(s) == |REDACTED|) && Still(s[Lead(s)..], n))
  }

  lemma LeadIsRun(s: string)
    ensures s == Run(Lead(s)) + s[Lead(s)..]
  {
    hide Run, Lead;
    RunFirst(s);
    TakenParts(s, Lead(s), |s|);
  }

  lemma MaskIsRun()
    ensures REDACTED == Run(|REDACTED|)
  {}

  lemma {:induction false} StillStays(s: string, n: nat)
    requires n > 0 && Still(s, n)
    ensures Shrunk(s, n) == s
    decreases |s|
  {
    hide Lead, Run;
    if s != "" {
      if Lead(s) == 0 {
        StillStays(s[1..], n);
      } else {
        StillStays(s[Lead(s)..], n);
        LeadIsRun(s);
        MaskIsRun();
      }
    }
  }

  /** Bullets before something that is not one. */
  lemma {:induction false} LeadOfRun(k: nat, rest: string)
    requires rest == "" || rest[0] != BULLET
    ensures Lead(Run(k) + rest) == k
  {
    if k == 0 {
      assert Run(0) + rest == rest;
    } else {
      LeadOfRun(k - 1, rest);
      assert (Run(k) + rest)[1..] == Run(k - 1) + rest;
    }
  }

  lemma StillRun(k: nat, rest: string, n: nat)
    requires n > 0 && (k < n || k == |REDACTED|) && Still(rest, n) && (rest == "" || rest[0] != BULLET)
    ensures Still(Run(k) + rest, n)
  {
    LeadOfRun(k, rest);
    var s := Run(k) + rest;
    if k == 0 {
      assert s == rest;
    } else {
      assert s[k..] == rest;
    }
  }

  lemma ShrunkStartsPlainly(s: string, n: nat)
    requires n > 0 && (s == "" || s[0] != BULLET)
    ensures Shrunk(s, n) == "" || Shrunk(s, n)[0] != BULLET
  {}

  lemma {:induction false} ShrunkIsStill(s: string, n: nat)
    requires n > 0
    ensures Still(Shrunk(s, n), n)
    decreases |s|
  {
    if s != "" {
      var k := Lead(s);
      if k == 0 {
        ShrunkIsStill(s[1..], n);
        assert ([s[0]] + Shrunk(s[1..], n))[1..] == Shrunk(s[1..], n);
      } else {
        ShrunkIsStill(s[k..], n);
        ShrunkStartsPlainly(s[k..], n);
        StillRun(if k >= n then |REDACTED| else k, Shrunk(s[k..], n), n);
        assert REDACTED == Run(|REDACTED|);
      }
    }
  }

  /** Cutting a still text keeps it still when a mask cut short is no token any more. */
  lemma {:induction false} TakenIsStill(s: string, n: nat, cap: nat)
    requires n >= |REDACTED| && Still(s, n)
    ensures Still(Take(s, cap), n)
    decreases |s|
  {
    hide Lead, Run;
    var k := Lead(s);
    if |s| <= cap || cap == 0 {
    } else if k == 0 {
      TakenIsStill(s[1..], n, cap - 1);
      TakenBehindFirst(s, n, cap);
    } else if cap <= k {
      TakenOfRun(s, n, cap);
    } else {
      TakenIsStill(s[k..], n, cap - k);
      TakenBehindRun(s, n, cap);
    }
  }

  lemma TakenBehindFirst(s: string, n: nat, cap: nat)
    requires n > 0 && 0 < cap < |s| && Lead(s) == 0 && Still(Take(s[1..], cap - 1), n)
    ensures Still(Take(s, cap), n)
  {
    assert Take(s, cap)[1..] == Take(s[1..], cap - 1);
  }

  lemma TakenOfRun(s: string, n: nat, cap: nat)
    requires n >= |REDACTED| && cap <= Lead(s) && (Lead(s) < n || Lead(s) == |REDACTED|)
    ensures Still(Take(s, cap), n)
  {
    assert Take(s, cap) == Run(cap) + "";
    StillRun(cap, "", n);
  }

  lemma TakenBehindRun(s: string, n: nat, cap: nat)
    requires n >= |REDACTED| && 0 < Lead(s) < cap < |s| && (Lead(s) < n || Lead(s) == |REDACTED|)
    requires Still(Take(s[Lead(s)..], cap - Lead(s)), n)
    ensures Still(Take(s, cap), n)
  {
    hide Still, Run, Lead, BulletsFrom;
    var k := Lead(s);
    RunFirst(s);
    TakenParts(s, k, cap);
    StillRun(k, s[k..][..cap - k], n);
  }

  lemma RunFirst(s: string)
    ensures s[..Lead(s)] == Run(Lead(s))
  {}

  lemma TakenParts(s: string, k: nat, cap: nat)
    requires k <= cap <= |s|
    ensures s[..cap] == s[..k] + s[k..][..cap - k]
  {}

  ghost predicate Idempotent(tokens: seq<string>) {
    forall text :: Redacted(Redacted(text, tokens), tokens) == Redacted(text, tokens)
  }

  ghost predicate IdempotentAtEveryCap(tokens: seq<string>) {
    forall text, cap: nat :: StaysWhenTaken(text, tokens, cap)
  }

  ghost predicate StaysWhenTaken(text: string, tokens: seq<string>, cap: nat) {
    var once := Take(Redacted(text, tokens), cap);
    Redacted(once, tokens) == once
  }

  /**
   When a run of `n` bullets is the only token, redacting a whole output again changes nothing
   exactly when `n` is not one; redacting an output cut at any length changes nothing exactly when
   `n` is at least as long as a mask.
   */
  lemma RunRedactedTwice(n: nat)
    requires 0 < n
    ensures Idempotent([Run(n)]) <==> n > 1
    ensures IdempotentAtEveryCap([Run(n)]) <==> n >= |REDACTED|
  {
    hide Redacted;
    if n == 1 {
      OneBulletGrows();
    } else {
      ShrunkTwice(n);
    }
    if n < |REDACTED| {
      CutMaskGrows(n);
    } else {
      TakenTwice(n);
    }
  }

  lemma ShrunkTwice(n: nat)
    requires n > 1
    ensures Idempotent([Run(n)])
  {
    hide Redacted;
    forall text ensures Redacted(Redacted(text, [Run(n)]), [Run(n)]) == Redacted(text, [Run(n)]) {
      RedactedIsShrunk(text, n);
      RedactedIsShrunk(Shrunk(text, n), n);
      ShrunkIsStill(text, n);
      StillStays(Shrunk(text, n), n);
    }
  }

  lemma TakenTwice(n: nat)
    requires n >= |REDACTED|
    ensures IdempotentAtEveryCap([Run(n)])
  {
    hide Redacted, Take;
    forall text, cap: nat ensures StaysWhenTaken(text, [Run(n)], cap) {
      var once := Take(Shrunk(text, n), cap);
      RedactedIsShrunk(text, n);
      RedactedIsShrunk(once, n);
      ShrunkIsStill(text, n);
      TakenIsStill(Shrunk(text, n), n, cap);
      StillStays(once, n);
    }
  }

  /** A mask cut to five bullets still holds a token of at most five, and grows again. */
  lemma CutMaskGrows(n: nat)
    requires 0 < n < |REDACTED|
    ensures !StaysWhenTaken(Run(n), [Run(n)], 5)
  {
    RunIsOnePiece(n);
    assert Take(REDACTED, 5) == Run(5);
    FiveBulletsGrow(n);
  }

  lemma FiveBulletsGrow(n: nat)
    requires 0 < n < |REDACTED|
    ensures |Redacted(Run(5), [Run(n)])| >= |REDACTED|
  {
    RunStarts(Run(5), n, 0);
    MaskedStep(Run(5), [Run(n)], 0);
  }

  lemma OneBulletGrows()
    ensures !Idempotent([Run(1)])
  {
    var tokens := [Run(1)];
    RunIsOnePiece(1);
    RunStarts(REDACTED, 1, 0);
    RunStarts(REDACTED, 1, 1);
    forall i ensures !Crossed(REDACTED, tokens, i) {}
    assert NextCut(REDACTED, tokens, 0) == 1;
    MaskedStep(REDACTED, tokens, 0);
    MaskedStep(REDACTED, tokens, 1);
    assert |Redacted(REDACTED, tokens)| > |REDACTED|;
  }
}
