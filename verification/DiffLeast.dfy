/** Exactly what a diff carries, from the two transcripts alone: which entries
    it leaves out, which it sends as added text, and when it is a reset. */
module DiffLeast {
  import opened Options
  import opened Parts
  import opened Frames
  import opened Diff

  // ── one entry whose text grew ─────────────────────────────────────────────

  /** Up to duration, origin and provider turn, `n` is `p` with the text `t`
      added to text or reasoning part `k`. */
  ghost predicate TextAdded(p: Entry, n: Entry, k: nat, t: Text) {
    && k < |p.parts| && (p.parts[k].Text? || p.parts[k].Reasoning?) && t != []
    && var part := p.parts[k];
    && n.parts == p.parts[k := part.(text := part.text + t)]
    && n.(parts := p.parts, durationMs := p.durationMs, originChatId := p.originChatId,
          providerTurn := p.providerTurn) == p
  }

  ghost predicate AppendOf(p: Entry, n: Entry, k: nat, t: Text, a: TextAppend) {
    TextAdded(p, n, k, t) && a == TextAppend(p.id, p.parts[k].id, t, |p.parts[k].text| + |t|)
  }

  ghost predicate SomeAppendOf(p: Entry, n: Entry, a: TextAppend) {
    exists k: nat, t :: AppendOf(p, n, k, t, a)
  }

  lemma AppendFound(p: Entry, n: Entry, k: nat, t: Text, a: TextAppend)
    requires AppendOf(p, n, k, t, a)
    ensures TryAppend(p, n) == Some(a)
  {
    var was, now := p.parts[k], n.parts[k];
    assert now.text[..|was.text|] == was.text && now.text[|was.text|..] == t;
    assert |now.text| > |was.text|;
    assert GrowsAt(p, n, k);
    var j :| GrowsAt(p, n, j) && TryAppend(p, n) == Some(GrownAt(p.parts[j], n.parts[j], n.id));
    GrowsAtUnique(p, n, j, k);
  }

  lemma AppendWas(p: Entry, n: Entry, a: TextAppend)
    requires TryAppend(p, n) == Some(a)
    ensures SomeAppendOf(p, n, a)
  {
    var k :| GrowsAt(p, n, k) && a == GrownAt(p.parts[k], n.parts[k], n.id);
    var was, now := p.parts[k], n.parts[k];
    var t := now.text[|was.text|..];
    assert now.text == was.text + t && now == was.(text := was.text + t);
    assert n.parts == p.parts[k := now];
    assert AppendOf(p, n, k, t, a);
  }

  /** An entry goes as an append if and only if text was added to one part and
      nothing else that is compared changed; the append carries that text. */
  lemma AppendFoundIff(p: Entry, n: Entry, a: TextAppend)
    ensures TryAppend(p, n) == Some(a) <==> SomeAppendOf(p, n, a)
  {
    if k: nat, t :| AppendOf(p, n, k, t, a) {
      AppendFound(p, n, k, t, a);
    }
    if TryAppend(p, n) == Some(a) {
      AppendWas(p, n, a);
    }
  }

  // ── what becomes of one entry ─────────────────────────────────────────────

  /** Both entries come first, or behind entries of one id. */
  ghost predicate SamePredecessor(a: seq<Entry>, i: nat, b: seq<Entry>, j: nat)
    requires i < |a| && j < |b|
  {
    (i == 0 <==> j == 0) && (i > 0 && j > 0 ==> a[i - 1].id == b[j - 1].id)
  }

  /** `prev[k]` is the last entry under the id of `next[i]` and has the same predecessor. */
  ghost predicate OldPlace(prev: seq<Entry>, next: seq<Entry>, i: nat, k: nat) {
    && k < |prev| && i < |next| && prev[k].id == next[i].id && (forall j :: k < j < |prev| ==> prev[j].id != next[i].id)
    && SamePredecessor(prev, k, next, i)
  }

  ghost predicate Unchanged(prev: seq<Entry>, next: seq<Entry>, i: nat) {
    exists k: nat :: OldPlace(prev, next, i, k) && prev[k] == next[i]
  }

  ghost predicate Extended(prev: seq<Entry>, next: seq<Entry>, i: nat, a: TextAppend) {
    exists k: nat :: OldPlace(prev, next, i, k) && SomeAppendOf(prev[k], next[i], a)
  }

  function UpsertOf(list: seq<Entry>, i: nat): Upsert
    requires i < |list|
  {
    Upsert(if i == 0 then None else Some(list[i - 1].id), list[i])
  }

  lemma PlaceIs(prev: seq<Entry>, next: seq<Entry>, i: nat, k: nat)
    requires i < |next|
    ensures OldPlace(prev, next, i, k) <==> LastIx(prev, next[i].id) == k && PredId(prev, k) == PredId(next, i)
  {
  }

  lemma TextAddedChanges(p: Entry, n: Entry, a: TextAppend)
    requires SomeAppendOf(p, n, a)
    ensures p != n
  {
    var k: nat, t :| AppendOf(p, n, k, t, a);
    assert |n.parts[k].text| > |p.parts[k].text|;
  }

  lemma SkipIff(prev: seq<Entry>, next: seq<Entry>, i: nat)
    requires i < |next|
    ensures ChangeAt(prev, next, i) == Skip <==> Unchanged(prev, next, i)
  {
    var p := LastIx(prev, next[i].id);
    if p >= 0 {
      PlaceIs(prev, next, i, p);
    }
    if k: nat :| OldPlace(prev, next, i, k) && prev[k] == next[i] {
      PlaceIs(prev, next, i, k);
    }
  }

  lemma GrowIff(prev: seq<Entry>, next: seq<Entry>, i: nat, a: TextAppend)
    requires i < |next|
    ensures ChangeAt(prev, next, i) == Grow(a) <==> Extended(prev, next, i, a)
  {
    var p := LastIx(prev, next[i].id);
    if p >= 0 {
      PlaceIs(prev, next, i, p);
      AppendFoundIff(prev[p], next[i], a);
    }
    if k: nat :| OldPlace(prev, next, i, k) && SomeAppendOf(prev[k], next[i], a) {
      PlaceIs(prev, next, i, k);
      TextAddedChanges(prev[k], next[i], a);
    }
  }

  // ── the frame ─────────────────────────────────────────────────────────────

  /** The text that was added in place; there is at most one such append. */
  ghost function Addition(prev: seq<Entry>, next: seq<Entry>, i: nat): Option<TextAppend> {
    if exists a :: Extended(prev, next, i, a) then
      var a :| Extended(prev, next, i, a);
      Some(a)
    else None
  }

  /** The upserts for `next[..n]`: what neither stayed nor grew in its place. */
  ghost function Changed(prev: seq<Entry>, next: seq<Entry>, n: nat): seq<Upsert>
    requires n <= |next|
  {
    if n == 0 then []
    else
      var same := Unchanged(prev, next, n - 1) || Addition(prev, next, n - 1).Some?;
      Changed(prev, next, n - 1) + if same then [] else [UpsertOf(next, n - 1)]
  }

  /** The appends for `next[..n]`. */
  ghost function Additions(prev: seq<Entry>, next: seq<Entry>, n: nat): seq<TextAppend>
    requires n <= |next|
  {
    if n == 0 then []
    else Additions(prev, next, n - 1) + match Addition(prev, next, n - 1) case Some(a) => [a] case None => []
  }

  /** The ids of the entries that are no longer there, in order. */
  function Gone(entries: seq<Entry>, current: seq<Entry>): seq<string> {
    if entries == [] then []
    else
      var front, e := entries[..|entries| - 1], entries[|entries| - 1];
      Gone(front, current) + if exists i :: 0 <= i < |current| && current[i].id == e.id then [] else [e.id]
  }

  /** A reset if half the entries or more, of more than four, are upserted. */
  ghost function LeastDiff(prev: seq<Entry>, next: seq<Entry>): Frame {
    var us := Changed(prev, next, |next|);
    if |next| > 4 && 2 * |us| >= |next| then Reset(next)
    else Delta(us, Additions(prev, next, |next|), Gone(prev, next), |next|)
  }

  lemma ChangeIs(prev: seq<Entry>, next: seq<Entry>, i: nat)
    requires i < |next|
    ensures ChangeAt(prev, next, i) == Skip <==> Unchanged(prev, next, i)
    ensures match Addition(prev, next, i)
            case Some(a) => ChangeAt(prev, next, i) == Grow(a)
            case None => !ChangeAt(prev, next, i).Grow?
    ensures ChangeAt(prev, next, i).Put? ==> ChangeAt(prev, next, i).u == UpsertOf(next, i)
  {
    SkipIff(prev, next, i);
    if a :| Extended(prev, next, i, a) {
      GrowIff(prev, next, i, Addition(prev, next, i).value);
    } else if ChangeAt(prev, next, i).Grow? {
      GrowIff(prev, next, i, ChangeAt(prev, next, i).a);
    }
  }

  lemma ChangedNext(prev: seq<Entry>, next: seq<Entry>, i: nat)
    requires i < |next| && Upserts(prev, next, i) == Changed(prev, next, i)
    ensures Upserts(prev, next, i + 1) == Changed(prev, next, i + 1)
  {
    ChangeIs(prev, next, i);
  }

  lemma AdditionsNext(prev: seq<Entry>, next: seq<Entry>, i: nat)
    requires i < |next| && Appends(prev, next, i) == Additions(prev, next, i)
    ensures Appends(prev, next, i + 1) == Additions(prev, next, i + 1)
  {
    ChangeIs(prev, next, i);
  }

  lemma {:induction false} UpsertsAre(prev: seq<Entry>, next: seq<Entry>, i: nat, n: nat)
    requires i <= n <= |next| && Upserts(prev, next, i) == Changed(prev, next, i)
    ensures Upserts(prev, next, n) == Changed(prev, next, n)
    decreases n - i
  {
    if i < n {
      ChangedNext(prev, next, i);
      UpsertsAre(prev, next, i + 1, n);
    }
  }

  ghost predicate AddedUpTo(prev: seq<Entry>, next: seq<Entry>, n: nat, appends: seq<TextAppend>) {
    n <= |next| && appends == Appends(prev, next, n) && appends == Additions(prev, next, n)
  }

  lemma AddedNext(prev: seq<Entry>, next: seq<Entry>, n: nat, appends: seq<TextAppend>) returns (more: seq<TextAppend>)
    requires n < |next| && AddedUpTo(prev, next, n, appends)
    ensures AddedUpTo(prev, next, n + 1, more)
  {
    AdditionsNext(prev, next, n);
    more := Appends(prev, next, n + 1);
  }

  lemma AppendsAre(prev: seq<Entry>, next: seq<Entry>)
    ensures Appends(prev, next, |next|) == Additions(prev, next, |next|)
  {
    var appends: seq<TextAppend> := [];
    for i := 0 to |next|
      invariant AddedUpTo(prev, next, i, appends)
    {
      appends := AddedNext(prev, next, i, appends);
    }
  }

  lemma {:induction false} RemovedAre(prev: seq<Entry>, next: seq<Entry>, n: nat)
    requires n <= |prev|
    ensures Removed(prev, next, n) == Gone(prev[..n], next)
  {
    if n == 0 {
    } else {
      RemovedAre(prev, next, n - 1);
      assert prev[..n][..n - 1] == prev[..n - 1];
    }
  }

  /** Main result: the diff of any two lists, entry by entry: nothing for an
      entry that stayed as it was behind the same one, the added text for one
      that only grew there, an upsert for every other. */
  lemma DiffIsLeast(prev: seq<Entry>, next: seq<Entry>)
    ensures DiffOf(prev, next) == LeastDiff(prev, next)
  {
    UpsertsAre(prev, next, 0, |next|);
    AppendsAre(prev, next);
    RemovedAre(prev, next, |prev|);
    assert prev[..|prev|] == prev;
  }
}
