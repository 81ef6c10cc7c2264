/** Exactly what a resume frame carries, from the two transcripts alone: an
    entry is left out if and only if the client has it in place. */
module ResumeLeast {
  import opened Options
  import opened Parts
  import opened Frames
  import opened Diff
  import opened DiffLeast
  import opened Resume
  import opened ResumeExact
  import opened Seqs

  // ── what a client has in place ────────────────────────────────────────────

  /** Entry `k` of the client's list is entry `i` of the current transcript,
      unchanged and behind the same one, and everything the client has before
      it, from `p` on, was met before `i`. */
  ghost predicate StandsAt(list: seq<Entry>, current: seq<Entry>, p: nat, i: nat, k: nat) {
    && p <= k < |list| && i < |current| && list[k] == current[i] && SamePredecessor(list, k, current, i)
    && forall j :: p <= j < k ==> exists h :: p <= h < i && current[h].id == list[j].id
  }

  ghost predicate HasInPlace(list: seq<Entry>, current: seq<Entry>, p: nat, i: nat) {
    exists k: nat :: StandsAt(list, current, p, i, k)
  }

  /** The upserts for `current[p..n]`: what is not in place. */
  ghost function Missing(list: seq<Entry>, current: seq<Entry>, p: nat, n: nat): seq<Upsert>
    requires p <= n <= |current|
    decreases n
  {
    if n == p then []
    else
      var had := HasInPlace(list, current, p, n - 1);
      Missing(list, current, p, n - 1) + if had then [] else [UpsertOf(current, n - 1)]
  }

  // ── the walk ──────────────────────────────────────────────────────────────

  /** The client's list: the shared prefix, then what is kept. */
  ghost predicate PrefixThenKept(list: seq<Entry>, current: seq<Entry>, p: nat, kept: seq<Entry>) {
    && p <= |current| && |list| == p + |kept|
    && (forall j :: 0 <= j < p ==> list[j] == current[j])
    && (forall j :: 0 <= j < |kept| ==> list[p + j] == kept[j])
  }

  /** The walk's predecessor of a kept entry is the one it has in the list. */
  lemma KeptPredIs(items: seq<TailItem>, kept: seq<Entry>, list: seq<Entry>, current: seq<Entry>, p: nat, head: nat,
                   i: nat)
    requires PrefixThenKept(list, current, p, kept) && |items| == |kept| && head < |kept| && p <= i < |current|
    requires forall j :: 0 <= j < |items| ==> items[j].id == kept[j].id
    ensures KeptPred(items, current, p, head) == PredId(current, i) <==> SamePredecessor(list, p + head, current, i)
  {
    if head > 0 {
      assert list[p + (head - 1)] == kept[head - 1];
    } else if p > 0 {
      assert list[p - 1] == current[p - 1];
    }
  }

  lemma SkippedStands(items: seq<TailItem>, kept: seq<Entry>, list: seq<Entry>, cur: Source, p: nat, i: nat, head: nat)
    requires PrefixThenKept(list, cur.entries, p, kept) && |items| == |kept| && p <= i < |cur.entries| == |cur.digests|
    requires forall j :: 0 <= j < |items| ==> items[j].id == kept[j].id
    requires SkipsAt(items, cur, p, i, head) && kept[head] == cur.entries[i]
    ensures StandsAt(list, cur.entries, p, i, p + head)
  {
    KeptPredIs(items, kept, list, cur.entries, p, head, i);
    forall j | p <= j < p + head ensures exists h :: p <= h < i && cur.entries[h].id == list[j].id {
      assert list[p + (j - p)] == kept[j - p] && Among(cur.entries, p, i, items[j - p].id);
    }
  }

  lemma StandingSkipped(items: seq<TailItem>, kept: seq<Entry>, list: seq<Entry>, cur: Source, p: nat, i: nat, k: nat)
    requires PrefixThenKept(list, cur.entries, p, kept) && |items| == |kept| && p <= i < |cur.entries| == |cur.digests|
    requires forall j :: 0 <= j < |items| ==> items[j].id == kept[j].id
    requires StandsAt(list, cur.entries, p, i, k) && items[k - p].digest == cur.digests[i] && Unique(cur.entries)
    ensures SkipsAt(items, cur, p, i, k - p)
  {
    var head := k - p;
    KeptPredIs(items, kept, list, cur.entries, p, head, i);
    assert list[p + head] == kept[head];
    forall j | 0 <= j < head ensures Among(cur.entries, p, i, items[j].id) {
      assert list[p + j] == kept[j];
    }
  }

  lemma SkippedInPlace(d: Digests, kept: seq<Entry>, list: seq<Entry>, cur: Source, p: nat, i: nat)
    requires CollisionFree(d) && p <= i < |cur.entries| && cur.digests == EntryDigests(d, cur.entries)
    requires PrefixThenKept(list, cur.entries, p, kept) && Skips(Items(d, kept), cur, p, i)
    ensures HasInPlace(list, cur.entries, p, i)
  {
    var head: nat :| SkipsAt(Items(d, kept), cur, p, i, head);
    assert EntriesApart(d, kept[head], cur.entries[i]);
    SkippedStands(Items(d, kept), kept, list, cur, p, i, head);
  }

  lemma InPlaceSkipped(d: Digests, kept: seq<Entry>, list: seq<Entry>, cur: Source, p: nat, i: nat)
    requires p <= i < |cur.entries| && cur.digests == EntryDigests(d, cur.entries) && Unique(cur.entries)
    requires PrefixThenKept(list, cur.entries, p, kept) && HasInPlace(list, cur.entries, p, i)
    ensures Skips(Items(d, kept), cur, p, i)
  {
    var k: nat :| StandsAt(list, cur.entries, p, i, k);
    assert list[p + (k - p)] == kept[k - p];
    StandingSkipped(Items(d, kept), kept, list, cur, p, i, k);
  }

  lemma SkipsIff(d: Digests, kept: seq<Entry>, list: seq<Entry>, cur: Source, p: nat, i: nat)
    requires CollisionFree(d) && p <= i < |cur.entries| && cur.digests == EntryDigests(d, cur.entries)
    requires Unique(cur.entries) && PrefixThenKept(list, cur.entries, p, kept)
    ensures Skips(Items(d, kept), cur, p, i) <==> HasInPlace(list, cur.entries, p, i)
  {
    if Skips(Items(d, kept), cur, p, i) {
      SkippedInPlace(d, kept, list, cur, p, i);
    }
    if HasInPlace(list, cur.entries, p, i) {
      InPlaceSkipped(d, kept, list, cur, p, i);
    }
  }

  lemma MissingNext(items: seq<TailItem>, list: seq<Entry>, cur: Source, p: nat, i: nat)
    requires p <= i < |cur.entries| == |cur.digests|
    requires Skips(items, cur, p, i) <==> HasInPlace(list, cur.entries, p, i)
    requires Walk(items, cur, p, i) == Missing(list, cur.entries, p, i)
    ensures Walk(items, cur, p, i + 1) == Missing(list, cur.entries, p, i + 1)
  {
    assert PredId(cur.entries, i) == UpsertOf(cur.entries, i).after;
  }

  /** The walk upserts exactly what is not in place, from any point at which it did so far. */
  lemma {:induction false} WalkIsMissing(d: Digests, kept: seq<Entry>, list: seq<Entry>, cur: Source, p: nat, i: nat,
                                         n: nat)
    requires CollisionFree(d) && p <= i <= n <= |cur.entries| && cur.digests == EntryDigests(d, cur.entries)
    requires Unique(cur.entries) && PrefixThenKept(list, cur.entries, p, kept)
    requires Walk(Items(d, kept), cur, p, i) == Missing(list, cur.entries, p, i)
    ensures Walk(Items(d, kept), cur, p, n) == Missing(list, cur.entries, p, n)
    decreases n - i
  {
    if i < n {
      SkipsIff(d, kept, list, cur, p, i);
      MissingNext(Items(d, kept), list, cur, p, i);
      WalkIsMissing(d, kept, list, cur, p, i + 1, n);
    }
  }

  // ── the frame ─────────────────────────────────────────────────────────────

  lemma {:induction false} GoneIdsAre(d: Digests, entries: seq<Entry>, current: seq<Entry>)
    ensures GoneIds(Items(d, entries), current) == Gone(entries, current)
  {
    if entries == [] {
    } else {
      GoneIdsAre(d, entries[..|entries| - 1], current);
      assert Items(d, entries)[..|entries| - 1] == Items(d, entries[..|entries| - 1]);
    }
  }

  /** How many entries the client does not describe one by one. */
  function Behind(held: nat, window: nat): (p: nat)
    ensures p <= held
  {
    if window <= held && window <= 512 then held - window else if held <= 512 then 0 else held - 512
  }

  /** The frame by the two transcripts: none unless they share the prefix,
      none if half the transcript or more is missing and it has more than four
      entries, and else what is missing and what is gone. */
  ghost function LeastFrame(held: seq<Entry>, window: nat, current: seq<Entry>): Option<Frame> {
    var p := Behind(|held|, window);
    if p > |current| || held[..p] != current[..p] then None
    else
      var gone := Gone(held[p..], current);
      var missing := Missing(Retained(held, gone), current, p, |current|);
      if |current| > 4 && 2 * |missing| >= |current| then None else Some(Delta(missing, [], gone, |current|))
  }

  lemma TailOf(d: Digests, held: seq<Entry>, digests: map<string, Digest>, window: nat)
    requires DigestsOf(d, held, digests)
    ensures FromHeld(d, held, digests, window).Some?
    ensures |FromHeld(d, held, digests, window).value.tail| == |held| - Behind(|held|, window)
  {
  }

  lemma WalkOfTail(d: Digests, prefix: seq<Entry>, tail: seq<Entry>, current: seq<Entry>, list: seq<Entry>)
    requires CollisionFree(d) && Unique(current) && prefix <= current
    requires list == prefix + KeptEntries(tail, current)
    ensures Walk(KeptItems(Items(d, tail), current), Source(current, EntryDigests(d, current)), |prefix|, |current|)
         == Missing(list, current, |prefix|, |current|)
  {
    KeptAgree(d, tail, current);
    WalkIsMissing(d, KeptEntries(tail, current), list, Source(current, EntryDigests(d, current)), |prefix|, |prefix|,
      |current|);
  }

  /** For a client that shares the first `p` entries. */
  lemma TailFrameIs(d: Digests, held: seq<Entry>, current: seq<Entry>, p: nat, gone: seq<string>)
    requires CollisionFree(d) && Unique(current) && p <= |held| && p <= |current| && held[..p] == current[..p]
    requires gone == Gone(held[p..], current)
    ensures TailFrame(d, held, current, p) ==
      Delta(Missing(Retained(held, gone), current, p, |current|), [], gone, |current|)
  {
    SplitAt(held, p);
    GoneIdsAre(d, held[p..], current);
    RetainedTail(d, held[..p], held[p..], current);
    WalkOfTail(d, held[..p], held[p..], current, Retained(held, gone));
  }

  /** The frame for a summary that was accepted, by the frame of its tail. */
  lemma AcceptedFrame(d: Digests, s: Summary, held: seq<Entry>, current: seq<Entry>, p: nat, frame: Frame)
    requires p <= |held| && p <= |current| && s.count == |held| && s.tail == Items(d, held[p..])
    requires Matches(d.list, s, Source(current, EntryDigests(d, current))) && frame == TailFrame(d, held, current, p)
    ensures FrameFor(d.list, s, Source(current, EntryDigests(d, current))) ==
      if |current| > 4 && 2 * |frame.upsert| >= |current| then None else Some(frame)
  {
    assert |s.tail| == |held| - p;
  }

  /** Main result: the frame, and when there is none, from what the client
      holds and what the engine has. */
  lemma ResumeIsLeast(d: Digests, held: seq<Entry>, digests: map<string, Digest>, window: nat, current: seq<Entry>)
    requires CollisionFree(d) && Unique(held) && Unique(current) && DigestsOf(d, held, digests)
    ensures FromHeld(d, held, digests, window).Some?
    ensures FrameFor(d.list, FromHeld(d, held, digests, window).value, Source(current, EntryDigests(d, current)))
         == LeastFrame(held, window, current)
  {
    var p := Behind(|held|, window);
    SummaryMatchesIff(d, held, digests, window, current);
    TailOf(d, held, digests, window);
    if p <= |current| && held[..p] == current[..p] {
      SummaryShape(d, held, digests, window);
      TailFrameIs(d, held, current, p, Gone(held[p..], current));
      AcceptedFrame(d, FromHeld(d, held, digests, window).value, held, current, p, TailFrame(d, held, current, p));
    }
  }

  // ── what that means for a client that is not far behind ───────────────────

  lemma OwnPlace(held: seq<Entry>, current: seq<Entry>, p: nat, i: nat)
    requires p <= i < |held| <= |current| && held == current[..|held|]
    ensures HasInPlace(held, current, p, i)
  {
    assert forall j :: 0 <= j < |held| ==> held[j] == current[j];
    assert StandsAt(held, current, p, i, i);
  }

  lemma NewIsMissing(held: seq<Entry>, current: seq<Entry>, p: nat, i: nat)
    requires |held| <= i < |current| && held == current[..|held|] && Unique(current)
    ensures !HasInPlace(held, current, p, i)
  {
    forall k: nat ensures !StandsAt(held, current, p, i, k) {
      if k < |held| {
        assert held[k] == current[k] && current[k].id != current[i].id;
      }
    }
  }

  lemma {:induction false} NoneGone(entries: seq<Entry>, current: seq<Entry>)
    requires forall e :: e in entries ==> e in current
    ensures Gone(entries, current) == []
  {
    if entries == [] {
    } else {
      var front, e := entries[..|entries| - 1], entries[|entries| - 1];
      NoneGone(front, current);
      assert e in current;
      var i :| 0 <= i < |current| && current[i] == e;
    }
  }

  /** The entries from `from` on, each behind the one before it. */
  function Appended(current: seq<Entry>, from: nat): (us: seq<Upsert>)
    requires from <= |current|
    ensures |us| == |current| - from
  {
    seq(|current| - from, i requires 0 <= i < |current| - from => UpsertOf(current, from + i))
  }

  lemma AppendedNext(current: seq<Entry>, from: nat, n: nat)
    requires from <= n < |current|
    ensures Appended(current, from)[..n + 1 - from] == Appended(current, from)[..n - from] + [UpsertOf(current, n)]
  {
  }

  lemma MissingStep(held: seq<Entry>, current: seq<Entry>, p: nat, n: nat)
    requires p <= |held| <= |current| && p <= n < |current| && held == current[..|held|] && Unique(current)
    ensures Missing(held, current, p, n + 1) ==
      Missing(held, current, p, n) + if n < |held| then [] else [UpsertOf(current, n)]
  {
    if n < |held| {
      OwnPlace(held, current, p, n);
    } else {
      NewIsMissing(held, current, p, n);
    }
  }

  lemma {:induction false} MissingNew(held: seq<Entry>, current: seq<Entry>, p: nat, n: nat)
    requires p <= |held| <= |current| && p <= n <= |current| && held == current[..|held|] && Unique(current)
    ensures Missing(held, current, p, n) == if n <= |held| then [] else Appended(current, |held|)[..n - |held|]
    decreases n
  {
    if n == p {
      assert Appended(current, |held|)[..0] == [];
    } else {
      MissingNew(held, current, p, n - 1);
      MissingStep(held, current, p, n - 1);
      if n - 1 >= |held| {
        AppendedNext(current, |held|, n - 1);
      }
    }
  }

  lemma TailStillThere(held: seq<Entry>, current: seq<Entry>, p: nat)
    requires p <= |held| <= |current| && held == current[..|held|]
    ensures Gone(held[p..], current) == [] && Retained(held, Gone(held[p..], current)) == held
  {
    forall e | e in held[p..] ensures e in current {
      var i :| 0 <= i < |held| - p && held[p..][i] == e;
      assert current[p + i] == held[p + i] == e;
    }
    NoneGone(held[p..], current);
    NothingRemoved(held);
  }

  /** A client that holds a prefix of the transcript gets exactly the new
      entries, or a reset if they are at least half of more than four. */
  lemma PrefixGetsNew(held: seq<Entry>, window: nat, current: seq<Entry>)
    requires |held| <= |current| && held == current[..|held|] && Unique(current)
    ensures LeastFrame(held, window, current) ==
      if |current| > 4 && 2 * (|current| - |held|) >= |current| then None
      else Some(Delta(Appended(current, |held|), [], [], |current|))
  {
    var p := Behind(|held|, window);
    assert held[..p] == current[..p];
    TailStillThere(held, current, p);
    MissingNew(held, current, p, |current|);
    assert Appended(current, |held|)[..|current| - |held|] == Appended(current, |held|);
  }

  /** A client that holds everything gets an empty delta. */
  lemma UnchangedGetsNothing(current: seq<Entry>, window: nat)
    requires Unique(current)
    ensures LeastFrame(current, window, current) == Some(Delta([], [], [], |current|))
  {
    assert current[..|current|] == current;
    PrefixGetsNew(current, window, current);
  }
}
