/** A transcript stream with digests: the client's copy and its digest map
    over any run of resets, deltas and resumes. */
module Session {
  import opened Options
  import opened Parts
  import opened Frames
  import opened Diff
  import DiffExact
  import FramesExact
  import opened Resume
  import ResumeExact

  type DigestMap = map<string, Digest>

  datatype Update = Update(frame: Frame, digests: Option<DigestMap>)

  // ── digests attached to a frame ───────────────────────────────────────────

  function PutEntries(d: Digests, base: DigestMap, entries: seq<Entry>): DigestMap
    decreases |entries|
  {
    if entries == [] then base
    else
      var e := entries[|entries| - 1];
      PutEntries(d, base, entries[..|entries| - 1])[e.id := d.entry(e)]
  }

  function UpsertEntries(us: seq<Upsert>): (r: seq<Entry>)
    ensures |r| == |us| && forall i :: 0 <= i < |r| ==> r[i] == us[i].entry
  {
    seq(|us|, i requires 0 <= i < |us| => us[i].entry)
  }

  /** Digests of the appended entries that no upsert carried. */
  function PutAppended(d: Digests, base: DigestMap, appends: seq<TextAppend>, entries: seq<Entry>): DigestMap
    decreases |appends|
  {
    if appends == [] then base
    else
      var map_ := PutAppended(d, base, appends[..|appends| - 1], entries);
      var id := appends[|appends| - 1].entry;
      if id in map_ || !Has(entries, id) then map_ else map_[id := d.entry(entries[Ix(entries, id)])]
  }

  function FrameDigests(d: Digests, frame: Frame, entries: seq<Entry>): DigestMap {
    match frame
    case Reset(all) => PutEntries(d, map[], all)
    case Delta(upsert, append, _, _) => PutAppended(d, PutEntries(d, map[], UpsertEntries(upsert)), append, entries)
  }

  /** The digests attached to a frame; `precomputed` are those of a reset's entries. */
  method DigestFrame(d: Digests, frame: Frame, entries: seq<Entry>,
                     precomputed: Option<seq<Digest>>) returns (digests: DigestMap)
    requires frame.Reset? && precomputed.Some? && |precomputed.value| == |frame.entries| ==>
      precomputed.value == EntryDigests(d, frame.entries)
    ensures digests == FrameDigests(d, frame, entries)
  {
    digests := map[];
    match frame {
      case Reset(all) =>
        for i := 0 to |all|
          invariant digests == PutEntries(d, map[], all[..i])
        {
          assert all[..i + 1][..i] == all[..i];
          var digest := if precomputed.Some? &&
            |precomputed.value| == |all| then precomputed.value[i] else d.entry(all[i]);
          digests := digests[all[i].id := digest];
        }
        assert all[..|all|] == all;
      case Delta(upsert, append, _, _) =>
        var changed := UpsertEntries(upsert);
        for i := 0 to |upsert|
          invariant digests == PutEntries(d, map[], changed[..i])
        {
          assert changed[..i + 1][..i] == changed[..i];
          digests := digests[upsert[i].entry.id := d.entry(upsert[i].entry)];
        }
        assert changed[..|changed|] == changed;
        for i := 0 to |append|
          invariant digests == PutAppended(d, PutEntries(d, map[], changed), append[..i], entries)
        {
          assert append[..i + 1][..i] == append[..i];
          var id := append[i].entry;
          if id !in digests && Has(entries, id) {
            digests := digests[id := d.entry(entries[Ix(entries, id)])];
          }
        }
        assert append[..|append|] == append;
    }
  }

  // ── the client's digest map ───────────────────────────────────────────────

  /** The map after an update, and whether resume state is still usable. */
  function DigestsAfter(held: DigestMap, update: Update): (DigestMap, bool) {
    match update.frame
    case Reset(_) => if update.digests.Some? then (update.digests.value, true) else (map[], false)
    case Delta(upsert, append, remove, _) =>
      var rest := held - (set id | id in remove);
      if update.digests.Some? then
        if (exists i :: 0 <= i < |upsert| && upsert[i].entry.id !in update.digests.value)
           || (exists i :: 0 <= i < |append| && append[i].entry !in update.digests.value) then (map[], false)
        else (rest + update.digests.value, true)
      else if upsert != [] || append != [] then (map[], false)
      else (rest, true)
  }

  class Client {
    const copy: TranscriptCopy
    var digests: DigestMap

    constructor ()
      ensures fresh(copy) && copy.entries == [] && digests == map[]
    {
      copy := new TranscriptCopy();
      digests := map[];
    }

    method ApplyUpdateDigests(update: Update) returns (usable: bool)
      modifies this
      ensures (digests, usable) == DigestsAfter(old(digests), update)
    {
      match update.frame {
        case Reset(_) =>
          if update.digests.Some? {
            digests := update.digests.value;
            return true;
          }
          digests := map[];
          return false;
        case Delta(upsert, append, remove, _) =>
          ghost var held := digests;
          for i := 0 to |remove|
            invariant digests == held - set id | id in remove[..i]
          {
            digests := digests - {remove[i]};
            assert remove[..i + 1] == remove[..i] + [remove[i]];
          }
          assert remove[..|remove|] == remove;
          if update.digests.Some? {
            if (exists i :: 0 <= i < |upsert| && upsert[i].entry.id !in update.digests.value)
               || (exists i :: 0 <= i < |append| && append[i].entry !in update.digests.value) {
              digests := map[];
              return false;
            }
            digests := digests + update.digests.value;
            return true;
          }
          if upsert != [] || append != [] {
            digests := map[];
            return false;
          }
          return true;
      }
    }

    /** Take one update of the stream. */
    method Receive(update: Update) returns (ok: bool)
      modifies this, copy
      ensures ok <==> ApplyFrame(old(copy.entries), update.frame).Some?
      ensures ok ==> copy.entries == ApplyFrame(old(copy.entries), update.frame).value
      ensures digests == DigestsAfter(old(digests), update).0
    {
      var usable := ApplyUpdateDigests(update);
      ok := copy.Apply(update.frame);
    }
  }

  // ── one correct digest per held entry ─────────────────────────────────────

  /** Exactly the engine's digest of each entry, and nothing else. */
  ghost function DigestsFor(d: Digests, entries: seq<Entry>): DigestMap {
    map id | id in DiffExact.IdSet(entries) && Has(entries, id) :: d.entry(entries[Ix(entries, id)])
  }

  lemma InDigestsFor(d: Digests, entries: seq<Entry>, id: string)
    ensures id in DigestsFor(d, entries) <==> Has(entries, id)
    ensures Has(entries, id) ==> DigestsFor(d, entries)[id] == d.entry(entries[Ix(entries, id)])
  {
    if Has(entries, id) {
      assert entries[Ix(entries, id)].id in DiffExact.IdSet(entries);
    }
  }

  lemma {:induction false} PutEntriesFacts(d: Digests, base: DigestMap, entries: seq<Entry>, all: seq<Entry>,
                                           id: string)
    requires Unique(all) && forall e :: e in entries ==> e in all
    ensures id in PutEntries(d, base, entries) <==> id in base || exists i :: 0 <= i < |entries| && entries[i].id == id
    ensures id in PutEntries(d, base, entries) && id !in base ==>
      PutEntries(d, base, entries)[id] == DigestIn(d, all, id)
    decreases |entries|
  {
    if entries == [] {
    } else {
      var front, e := entries[..|entries| - 1], entries[|entries| - 1];
      assert forall i :: 0 <= i < |front| ==> front[i] == entries[i];
      PutEntriesFacts(d, base, front, all, id);
      assert e in all;
      var k :| 0 <= k < |all| && all[k] == e;
      IxOf(all, k, e.id);
      assert (exists i :: 0 <= i < |entries| && entries[i].id == id) <==>
        (exists i :: 0 <= i < |front| && front[i].id == id) || e.id == id;
    }
  }

  ghost function DigestIn(d: Digests, all: seq<Entry>, id: string): Digest {
    if Has(all, id) then d.entry(all[Ix(all, id)]) else ""
  }

  lemma {:induction false} PutAppendedFacts(d: Digests, base: DigestMap, appends: seq<TextAppend>, all: seq<Entry>,
                                            id: string)
    requires forall k :: k in base ==> Has(all, k) && base[k] == DigestIn(d, all, k)
    ensures id in PutAppended(d, base, appends, all) <==>
      id in base || (Has(all, id) && exists i :: 0 <= i < |appends| && appends[i].entry == id)
    ensures id in PutAppended(d, base, appends, all) ==> PutAppended(d, base, appends, all)[id] == DigestIn(d, all, id)
    decreases |appends|
  {
    if appends == [] {
    } else {
      var front := appends[..|appends| - 1];
      assert forall i :: 0 <= i < |front| ==> front[i] == appends[i];
      PutAppendedFacts(d, base, front, all, id);
      assert (exists i :: 0 <= i < |appends| && appends[i].entry == id) <==>
        (exists i :: 0 <= i < |front| && front[i].entry == id) || appends[|appends| - 1].entry == id;
    }
  }

  /** A delta tells the whole difference between two transcripts: what it
      removes is gone, and what it neither upserts nor appends to is unchanged. */
  ghost predicate Covers(prev: seq<Entry>, next: seq<Entry>, frame: Frame) {
    && frame.Delta?
    && (forall u :: u in frame.upsert ==> u.entry in next)
    && (forall a :: a in frame.append ==> Has(next, a.entry))
    && (forall id :: id in frame.remove ==> !Has(next, id))
    && (forall id :: Has(prev, id) && !Has(next, id) ==> id in frame.remove)
    && (forall i :: 0 <= i < |next| ==> Carried(frame, next[i].id) || Kept(prev, next[i]))
  }

  ghost predicate Carried(frame: Frame, id: string)
    requires frame.Delta?
  {
    (exists u :: u in frame.upsert && u.entry.id == id) || (exists a :: a in frame.append && a.entry == id)
  }

  ghost predicate Kept(prev: seq<Entry>, e: Entry) {
    Has(prev, e.id) && prev[Ix(prev, e.id)] == e
  }

  lemma FrameDigestsAt(d: Digests, prev: seq<Entry>, next: seq<Entry>, frame: Frame, id: string)
    requires Unique(next) && Covers(prev, next, frame)
    ensures id in FrameDigests(d, frame, next) <==> Carried(frame, id)
    ensures Carried(frame, id) ==> Has(next, id) && FrameDigests(d, frame, next)[id] == DigestIn(d, next, id)
  {
    var entries := UpsertEntries(frame.upsert);
    forall e | e in entries ensures e in next {
      var i :| 0 <= i < |entries| && entries[i] == e;
      assert frame.upsert[i] in frame.upsert;
    }
    var base := PutEntries(d, map[], entries);
    forall k ensures k in base <==> exists u :: u in frame.upsert && u.entry.id == k
             ensures k in base ==> Has(next, k) && base[k] == DigestIn(d, next, k) {
      PutEntriesFacts(d, map[], entries, next, k);
      if u :| u in frame.upsert && u.entry.id == k {
        var i :| 0 <= i < |frame.upsert| && frame.upsert[i] == u;
        assert entries[i].id == k;
      }
      if i :| 0 <= i < |entries| && entries[i].id == k {
        assert frame.upsert[i] in frame.upsert && entries[i] in entries;
      }
    }
    PutAppendedFacts(d, base, frame.append, next, id);
    if a :| a in frame.append && a.entry == id {
      var i :| 0 <= i < |frame.append| && frame.append[i] == a;
    }
  }

  /** A delta with the engine's digests is complete: the client may go on resuming. */
  lemma DigestsComplete(d: Digests, held: DigestMap, prev: seq<Entry>, next: seq<Entry>, frame: Frame)
    requires Unique(next) && Covers(prev, next, frame)
    ensures var sent := FrameDigests(d, frame, next);
      DigestsAfter(held, Update(frame, Some(sent))) == (held - (set id | id in frame.remove) + sent, true)
  {
    var sent := FrameDigests(d, frame, next);
    forall i | 0 <= i < |frame.upsert| ensures frame.upsert[i].entry.id in sent {
      assert frame.upsert[i] in frame.upsert;
      FrameDigestsAt(d, prev, next, frame, frame.upsert[i].entry.id);
    }
    forall i | 0 <= i < |frame.append| ensures frame.append[i].entry in sent {
      assert frame.append[i] in frame.append;
      FrameDigestsAt(d, prev, next, frame, frame.append[i].entry);
    }
  }

  /** The digest an id has after a delta. */
  lemma DigestKept(d: Digests, prev: seq<Entry>, next: seq<Entry>, frame: Frame, id: string)
    requires Unique(prev) && Unique(next) && Covers(prev, next, frame)
    ensures var sent, want := FrameDigests(d, frame, next), DigestsFor(d, next);
      var after := DigestsFor(d, prev) - (set x | x in frame.remove) + sent;
      (id in after <==> id in want) && (id in after && id in want ==> after[id] == want[id])
  {
    FrameDigestsAt(d, prev, next, frame, id);
    InDigestsFor(d, prev, id);
    InDigestsFor(d, next, id);
    if Has(next, id) {
      var i := Ix(next, id);
      assert next[i].id == id;
      assert Carried(frame, next[i].id) || Kept(prev, next[i]);
    }
  }

  lemma SameMap<K, V>(a: map<K, V>, b: map<K, V>)
    requires forall k :: (k in a <==> k in b) && (k in a && k in b ==> a[k] == b[k])
    ensures a == b
  {
  }

  /** A correct map stays correct under a delta that carries the engine's digests. */
  lemma DeltaKeepsDigests(d: Digests, prev: seq<Entry>, next: seq<Entry>, frame: Frame)
    requires Unique(prev) && Unique(next) && Covers(prev, next, frame)
    ensures DigestsAfter(DigestsFor(d, prev), Update(frame, Some(FrameDigests(d, frame, next)))) == (DigestsFor(d,
      next), true)
  {
    var sent, want := FrameDigests(d, frame, next), DigestsFor(d, next);
    var after := DigestsFor(d, prev) - (set id | id in frame.remove) + sent;
    DigestsComplete(d, DigestsFor(d, prev), prev, next, frame);
    forall id ensures (id in after <==> id in want) && (id in after && id in want ==> after[id] == want[id]) {
      DigestKept(d, prev, next, frame, id);
    }
    SameMap(after, want);
  }

  lemma ResetDigests(d: Digests, next: seq<Entry>)
    requires Unique(next)
    ensures FrameDigests(d, Reset(next), next) == DigestsFor(d, next)
  {
    var sent := FrameDigests(d, Reset(next), next);
    forall id ensures id in sent <==> id in DigestsFor(d, next)
              ensures id in sent && id in DigestsFor(d, next) ==> sent[id] == DigestsFor(d, next)[id] {
      PutEntriesFacts(d, map[], next, next, id);
      InDigestsFor(d, next, id);
      if Has(next, id) {
        assert next[Ix(next, id)].id == id;
      }
    }
  }

  // ── updates with some digests, or none ────────────────────────────────────

  function Attached(update: Update): DigestMap {
    if update.digests.Some? then update.digests.value else map[]
  }

  /** Every digest there is, is of the entry under that id. */
  ghost predicate Honest(d: Digests, list: seq<Entry>, digests: DigestMap) {
    forall id :: id in digests ==> Has(list, id) && digests[id] == d.entry(list[Ix(list, id)])
  }

  /** A reset comes without digests, or a delta without that of an entry it
      upserts or appends to. */
  ghost predicate Unsigned(update: Update) {
    match update.frame
    case Reset(_) => update.digests.None?
    case Delta(_, _, _, _) => exists id :: Carried(update.frame, id) && id !in Attached(update)
  }

  lemma UsableIff(held: DigestMap, update: Update)
    requires update.frame.Delta?
    ensures DigestsAfter(held, update) ==
      if Unsigned(update) then (map[], false)
      else (held - (set id | id in update.frame.remove) + Attached(update), true)
  {
    var frame := update.frame;
    var (after, usable) := DigestsAfter(held, update);
    if id :| Carried(frame, id) && id !in Attached(update) {
      if u :| u in frame.upsert && u.entry.id == id {
        var i :| 0 <= i < |frame.upsert| && frame.upsert[i] == u;
      } else {
        var a :| a in frame.append && a.entry == id;
        var i :| 0 <= i < |frame.append| && frame.append[i] == a;
      }
      assert !usable;
    }
    var rest := held - (set id | id in frame.remove);
    assert rest + map[] == rest;
    if !usable {
      SomeUnsigned(update);
    }
  }

  lemma SomeUnsigned(update: Update)
    requires update.frame.Delta? && !DigestsAfter(map[], update).1
    ensures Unsigned(update)
  {
    var frame := update.frame;
    if update.digests.None? && frame.upsert != [] {
      assert frame.upsert[0] in frame.upsert && Carried(update.frame, frame.upsert[0].entry.id);
    } else if update.digests.None? {
      assert frame.append[0] in frame.append && Carried(update.frame, frame.append[0].entry);
    } else if i :| 0 <= i < |frame.upsert| && frame.upsert[i].entry.id !in update.digests.value {
      assert frame.upsert[i] in frame.upsert && Carried(update.frame, frame.upsert[i].entry.id);
    } else {
      var i :| 0 <= i < |frame.append| && frame.append[i].entry !in update.digests.value;
      assert frame.append[i] in frame.append && Carried(update.frame, frame.append[i].entry);
    }
  }

  lemma DigestAfterDelta(d: Digests, list: seq<Entry>, update: Update, next: seq<Entry>, id: string)
    requires Unique(list) && update.frame.Delta? && ApplyFrame(list, update.frame) == Some(next) && !Unsigned(update)
    requires Honest(d, next, Attached(update))
    ensures var after := DigestsAfter(DigestsFor(d, list), update).0;
      (id in after <==> id in DigestsFor(d, next)) &&
      (id in after && id in DigestsFor(d, next) ==> after[id] == DigestsFor(d, next)[id])
  {
    UsableIff(DigestsFor(d, list), update);
    InDigestsFor(d, list, id);
    InDigestsFor(d, next, id);
    if !Carried(update.frame, id) {
      forall i | 0 <= i < |update.frame.upsert| ensures update.frame.upsert[i].entry.id != id {
        assert update.frame.upsert[i] in update.frame.upsert;
      }
      forall i | 0 <= i < |update.frame.append| ensures update.frame.append[i].entry != id {
        assert update.frame.append[i] in update.frame.append;
      }
      FramesExact.UnmentionedStays(list, update.frame, id);
    }
  }

  lemma DeltaExactOrEmpty(d: Digests, list: seq<Entry>, update: Update, next: seq<Entry>)
    requires Unique(list) && update.frame.Delta? && ApplyFrame(list, update.frame) == Some(next)
    requires Honest(d, next, Attached(update))
    ensures DigestsAfter(DigestsFor(d, list), update) ==
      if Unsigned(update) then (map[], false) else (DigestsFor(d, next), true)
  {
    var after := DigestsAfter(DigestsFor(d, list), update).0;
    UsableIff(DigestsFor(d, list), update);
    if !Unsigned(update) {
      forall id ensures (id in after <==> id in DigestsFor(d, next)) &&
          (id in after && id in DigestsFor(d, next) ==> after[id] == DigestsFor(d, next)[id]) {
        DigestAfterDelta(d, list, update, next, id);
      }
      SameMap(after, DigestsFor(d, next));
    }
  }

  /** Whatever digests come with an update, the map of the changed copy is
      exact again or empty: exact if and only if each changed entry came with
      its digest, so an older engine's update never leaves a stale one. */
  lemma ExactOrEmpty(d: Digests, list: seq<Entry>, update: Update, next: seq<Entry>)
    requires Unique(list) && ApplyFrame(list, update.frame) == Some(next) && Honest(d, next, Attached(update))
    requires update.frame.Reset? && update.digests.Some? ==> update.digests.value == DigestsFor(d, next)
    ensures DigestsAfter(DigestsFor(d, list), update) ==
      if Unsigned(update) then (map[], false) else (DigestsFor(d, next), true)
  {
    if update.frame.Delta? {
      DeltaExactOrEmpty(d, list, update, next);
    }
  }

  // ── both kinds of delta tell the whole difference ─────────────────────────

  lemma {:induction false} UpsertFrom(prev: seq<Entry>, next: seq<Entry>, n: nat, u: Upsert) returns (i: nat)
    requires n <= |next| && u in Upserts(prev, next, n)
    ensures i < n && u.entry == next[i]
  {
    if u in Upserts(prev, next, n - 1) {
      i := UpsertFrom(prev, next, n - 1, u);
    } else {
      i := n - 1;
    }
  }

  lemma {:induction false} UpsertsGrow(prev: seq<Entry>, next: seq<Entry>, i: nat, n: nat)
    requires i <= n <= |next|
    ensures Upserts(prev, next, i) <= Upserts(prev, next, n)
  {
    if i < n {
      UpsertsGrow(prev, next, i, n - 1);
    }
  }

  lemma UpsertIn(prev: seq<Entry>, next: seq<Entry>, i: nat, u: Upsert)
    requires i < |next| && ChangeAt(prev, next, i) == Put(u)
    ensures u in Upserts(prev, next, |next|)
  {
    UpsertsGrow(prev, next, i + 1, |next|);
    assert u in Upserts(prev, next, i + 1);
  }

  lemma {:induction false} AppendFrom(prev: seq<Entry>, next: seq<Entry>, n: nat, a: TextAppend) returns (i: nat)
    requires n <= |next| && a in Appends(prev, next, n)
    ensures i < n && ChangeAt(prev, next, i) == Grow(a)
  {
    if a in Appends(prev, next, n - 1) {
      i := AppendFrom(prev, next, n - 1, a);
    } else {
      i := n - 1;
    }
  }

  ghost predicate HasAppend(prev: seq<Entry>, next: seq<Entry>, n: nat, appends: seq<TextAppend>, a: TextAppend) {
    n <= |next| && appends == Appends(prev, next, n) && a in appends
  }

  lemma AppendStays(prev: seq<Entry>, next: seq<Entry>, n: nat, appends: seq<TextAppend>, a: TextAppend)
    requires n < |next| && HasAppend(prev, next, n, appends, a)
    ensures HasAppend(prev, next, n + 1, Appends(prev, next, n + 1), a)
  {
    DiffExact.AppendsNext(prev, next, n);
  }

  lemma AppendLasts(prev: seq<Entry>, next: seq<Entry>, i: nat, appends: seq<TextAppend>, a: TextAppend)
    requires HasAppend(prev, next, i, appends, a)
    ensures exists all :: HasAppend(prev, next, |next|, all, a)
  {
    for n := i to |next|
      invariant exists some :: HasAppend(prev, next, n, some, a)
    {
      var some :| HasAppend(prev, next, n, some, a);
      AppendStays(prev, next, n, some, a);
    }
  }

  lemma AppendIn(prev: seq<Entry>, next: seq<Entry>, i: nat, a: TextAppend)
    requires i < |next| && ChangeAt(prev, next, i) == Grow(a)
    ensures a in Appends(prev, next, |next|)
  {
    DiffExact.AppendsNext(prev, next, i);
    AppendLasts(prev, next, i + 1, Appends(prev, next, i + 1), a);
  }

  lemma {:induction false} DiffCarries(prev: seq<Entry>, next: seq<Entry>, frame: Frame, i: nat)
    requires Unique(prev) && Unique(next) && i < |next|
    requires frame.Delta? && frame.upsert == Upserts(prev, next, |next|) && frame.append == Appends(prev, next, |next|)
    ensures Carried(frame, next[i].id) || Kept(prev, next[i])
  {
    LastIsHere(prev, next, i);
    match ChangeAt(prev, next, i)
    case Put(u) =>
      UpsertIn(prev, next, i, u);
      assert u in frame.upsert && u.entry == next[i];
    case Grow(a) =>
      AppendIn(prev, next, i, a);
      DiffExact.GrowTarget(prev, next, i);
      assert a in frame.append;
    case Skip =>
  }

  lemma DiffCovers(prev: seq<Entry>, next: seq<Entry>)
    requires Unique(prev) && Unique(next) && DiffOf(prev, next).Delta?
    ensures Covers(prev, next, DiffOf(prev, next))
  {
    var frame := DiffOf(prev, next);
    forall u | u in frame.upsert ensures u.entry in next {
      var i := UpsertFrom(prev, next, |next|, u);
    }
    forall a | a in frame.append ensures Has(next, a.entry) {
      var i := AppendFrom(prev, next, |next|, a);
      DiffExact.GrowTarget(prev, next, i);
    }
    forall id ensures id in frame.remove <==> Has(prev, id) && !Has(next, id) {
      DiffExact.RemovedIff(prev, next, |prev|, id);
      if Has(prev, id) {
        assert prev[Ix(prev, id)].id == id;
      }
    }
    forall i | 0 <= i < |next| ensures Carried(frame, next[i].id) || Kept(prev, next[i]) {
      DiffCarries(prev, next, frame, i);
    }
  }

  lemma LastIsHere(prev: seq<Entry>, next: seq<Entry>, i: nat)
    requires Unique(prev) && i < |next|
    ensures LastIx(prev, next[i].id) == Ix(prev, next[i].id)
  {
    LastIsFirst(prev, next[i].id);
  }

  lemma {:induction false} WalkIff(items: seq<TailItem>, cur: Source, p: nat, n: nat, u: Upsert)
    requires p <= n <= |cur.entries| == |cur.digests|
    ensures u in Walk(items, cur, p, n) <==> exists i :: p <= i < n && WalkStep(items, cur, p, i) == [u]
    decreases n
  {
    if n > p {
      WalkIff(items, cur, p, n - 1, u);
    }
  }

  /** The shared prefix of a matched summary, and the tail behind it. */
  ghost predicate SharesPrefix(held: seq<Entry>, current: seq<Entry>, p: nat) {
    p <= |held| && p <= |current| && forall i :: 0 <= i < p ==> held[i] == current[i]
  }

  /** A skipped entry is held unchanged. */
  lemma {:induction false} SkippedIsHeld(d: Digests, tail: seq<Entry>, current: seq<Entry>, p: nat, i: nat)
    requires CollisionFree(d) && p <= i < |current|
    requires Skips(KeptItems(ResumeExact.Items(d, tail), current), Source(current, EntryDigests(d, current)), p, i)
    ensures current[i] in tail
  {
    var items := ResumeExact.Items(d, tail);
    var kept := KeptItems(items, current);
    var head: nat :| SkipsAt(kept, Source(current, EntryDigests(d, current)), p, i, head);
    KeptInTail(items, current, kept[head]);
    var k :| 0 <= k < |items| && items[k] == kept[head];
    assert EntriesApart(d, tail[k], current[i]);
  }

  lemma {:induction false} KeptInTail(tail: seq<TailItem>, current: seq<Entry>, item: TailItem)
    requires item in KeptItems(tail, current)
    ensures item in tail
  {
    if item in KeptItems(tail[..|tail| - 1], current) {
      KeptInTail(tail[..|tail| - 1], current, item);
    }
  }

  lemma HeldUnchanged(held: seq<Entry>, e: Entry)
    requires Unique(held) && e in held
    ensures Kept(held, e)
  {
    var k :| 0 <= k < |held| && held[k] == e;
    IxOf(held, k, e.id);
  }

  lemma {:induction false} ResumeCarries(d: Digests, held: seq<Entry>, current: seq<Entry>, p: nat, us: seq<Upsert>,
                                         i: nat)
    requires CollisionFree(d) && Unique(held) && SharesPrefix(held, current, p) && i < |current|
    requires us == Walk(KeptItems(ResumeExact.Items(d, held[p..]), current), Source(current, EntryDigests(d, current)),
      p, |current|)
    ensures (exists u :: u in us && u.entry.id == current[i].id) || Kept(held, current[i])
  {
    var items, cur := KeptItems(ResumeExact.Items(d, held[p..]), current), Source(current, EntryDigests(d, current));
    if i < p {
      HeldUnchanged(held, held[i]);
    } else if Skips(items, cur, p, i) {
      SkippedIsHeld(d, held[p..], current, p, i);
      HeldUnchanged(held, current[i]);
    } else {
      var u := Upsert(PredId(current, i), current[i]);
      assert WalkStep(items, cur, p, i) == [u];
      WalkIff(items, cur, p, |current|, u);
    }
  }

  lemma GoneCovers(d: Digests, held: seq<Entry>, current: seq<Entry>, p: nat, id: string)
    requires SharesPrefix(held, current, p)
    ensures id in GoneIds(ResumeExact.Items(d, held[p..]), current) ==> !Has(current, id)
    ensures Has(held, id) && !Has(current, id) ==> id in GoneIds(ResumeExact.Items(d, held[p..]), current)
  {
    var tail := held[p..];
    ResumeExact.GoneIff(ResumeExact.Items(d, tail), current, id);
    if Has(held, id) && !Has(current, id) {
      var k := Ix(held, id);
      assert held[k].id == id;
      assert k < p ==> held[k] == current[k];
      if k >= p {
        assert ResumeExact.Items(d, tail)[k - p].id == id;
      }
    }
  }

  lemma TailFrameCovers(d: Digests, held: seq<Entry>, current: seq<Entry>, p: nat)
    requires CollisionFree(d) && Unique(held) && SharesPrefix(held, current, p)
    ensures Covers(held, current, ResumeExact.TailFrame(d, held, current, p))
  {
    var frame, items := ResumeExact.TailFrame(d, held, current, p), ResumeExact.Items(d, held[p..]);
    forall u | u in frame.upsert ensures u.entry in current {
      WalkIff(KeptItems(items, current), Source(current, EntryDigests(d, current)), p, |current|, u);
    }
    forall id ensures id in frame.remove ==> !Has(current, id)
              ensures Has(held, id) && !Has(current, id) ==> id in frame.remove {
      GoneCovers(d, held, current, p, id);
    }
    forall i | 0 <= i < |current| ensures Carried(frame, current[i].id) || Kept(held, current[i]) {
      ResumeCarries(d, held, current, p, frame.upsert, i);
    }
  }

  lemma SamePrefix(held: seq<Entry>, current: seq<Entry>, p: nat)
    requires p <= |held| && p <= |current| && held[..p] == current[..p]
    ensures SharesPrefix(held, current, p)
  {
    forall i | 0 <= i < p ensures held[i] == current[i] {
      assert held[..p][i] == current[..p][i];
    }
  }

  lemma ResumeCovers(d: Digests, held: seq<Entry>, current: seq<Entry>, window: nat)
    requires CollisionFree(d) && Unique(held)
    requires FromHeld(d, held, DigestsFor(d, held), window).Some?
    requires FrameFor(d.list, FromHeld(d, held, DigestsFor(d, held), window).value,
      Source(current, EntryDigests(d, current))).Some?
    ensures Covers(held, current,
      FrameFor(d.list, FromHeld(d, held, DigestsFor(d, held), window).value,
        Source(current, EntryDigests(d, current))).value)
  {
    DigestsForAll(d, held);
    var p := ResumeExact.FrameShape(d, held, DigestsFor(d, held), window, current);
    SamePrefix(held, current, p);
    TailFrameCovers(d, held, current, p);
  }

  lemma DigestsForAll(d: Digests, held: seq<Entry>)
    requires Unique(held)
    ensures ResumeExact.DigestsOf(d, held, DigestsFor(d, held))
  {
    forall i | 0 <= i < |held|
      ensures held[i].id in DigestsFor(d, held) && DigestsFor(d, held)[held[i].id] == d.entry(held[i])
    {
      IxOf(held, i, held[i].id);
      InDigestsFor(d, held, held[i].id);
    }
  }

  // ── whole runs ────────────────────────────────────────────────────────────

  /** What the engine last sent, the client's copy and its digest map, and
      whether an update since the last connection never arrived. */
  datatype Stream = Stream(sent: seq<Entry>, copy: seq<Entry>, digests: DigestMap, lost: bool)

  /** The transcript changes and the engine sends a reset or the diff, or its
      update gets lost with the connection, or the client reconnects and
      resumes with a window of held entries. */
  datatype Event =
    | SendReset(next: seq<Entry>)
    | SendDiff(next: seq<Entry>)
    | LoseUpdate(next: seq<Entry>)
    | Reconnect(next: seq<Entry>, window: nat)

  /** Once an update is lost only a reconnect brings another. A diff has its
      own condition; resets and resumes need none. */
  ghost predicate Allowed(s: Stream, event: Event) {
    && Unique(event.next)
    && (event.SendReset? || event.SendDiff? ==> !s.lost)
    && (event.SendDiff? && DiffOf(s.sent, event.next).Delta? ==>
          InPlaceOrdered(s.sent, event.next) && AppendsFaithful(s.sent, event.next))
  }

  /** The frame the engine answers with. */
  ghost function FrameOf(d: Digests, s: Stream, event: Event): Frame {
    match event
    case SendReset(next) => Reset(next)
    case SendDiff(next) => DiffOf(s.sent, next)
    case LoseUpdate(next) => DiffOf(s.sent, next)
    case Reconnect(next, window) =>
      match FromHeld(d, s.copy, s.digests, window)
      case None => Reset(next)
      case Some(summary) =>
        match FrameFor(d.list, summary, Source(next, EntryDigests(d, next)))
        case None => Reset(next)
        case Some(frame) => frame
  }

  /** An update arrives; one that does not apply leaves the client with nothing usable. */
  ghost function Received(d: Digests, s: Stream, next: seq<Entry>, frame: Frame): Stream {
    var update := Update(frame, Some(FrameDigests(d, frame, next)));
    match ApplyFrame(s.copy, frame)
    case None => Stream(next, [], map[], false)
    case Some(copy) => Stream(next, copy, DigestsAfter(s.digests, update).0, false)
  }

  ghost function After(d: Digests, s: Stream, event: Event): Stream {
    if event.LoseUpdate? then s.(sent := event.next, lost := true)
    else Received(d, s, event.next, FrameOf(d, s, event))
  }

  ghost function Run(d: Digests, s: Stream, events: seq<Event>): Stream {
    if events == [] then s else After(d, Run(d, s, events[..|events| - 1]), events[|events| - 1])
  }

  ghost predicate AllAllowed(d: Digests, s: Stream, events: seq<Event>) {
    events != [] ==> AllAllowed(d, s, events[..|events| - 1])
                     && Allowed(Run(d, s, events[..|events| - 1]), events[|events| - 1])
  }

  /** Unless an update was lost, the client holds exactly what the engine last
      sent. In any case it has exactly the digests of what it holds. */
  ghost predicate InStep(d: Digests, s: Stream) {
    && Unique(s.sent) && Unique(s.copy) && s.digests == DigestsFor(d, s.copy)
    && (!s.lost ==> s.copy == s.sent)
  }

  lemma AfterInStep(d: Digests, s: Stream, event: Event)
    requires CollisionFree(d) && InStep(d, s) && Allowed(s, event)
    ensures InStep(d, After(d, s, event))
  {
    if !event.LoseUpdate? {
      ReceivedInStep(d, s, event);
    }
  }

  lemma ReceivedInStep(d: Digests, s: Stream, event: Event)
    requires CollisionFree(d) && InStep(d, s) && Allowed(s, event) && !event.LoseUpdate?
    ensures var t := Received(d, s, event.next, FrameOf(d, s, event));
      t.copy == event.next && t.digests == DigestsFor(d, event.next)
  {
    var next, frame := event.next, FrameOf(d, s, event);
    if frame.Reset? {
      assert frame == Reset(next);
      ResetDigests(d, next);
    } else {
      match event {
        case SendDiff(_) =>
          DiffExact.DiffApplyExactIff(s.sent, next);
          DiffCovers(s.sent, next);
        case Reconnect(_, window) =>
          DigestsForAll(d, s.copy);
          ResumeExact.ResumeIsExact(d, s.copy, s.digests, window, next);
          ResumeCovers(d, s.copy, next, window);
      }
      DeltaKeepsDigests(d, s.copy, next, frame);
    }
  }

  /** Main result: over any run of resets, diffs, lost updates and resumes the
      client holds what the engine last sent, or what it held before the first
      loss until it reconnects, with exactly one correct digest per entry, so
      it can always resume; and whatever was lost, a reconnect makes it hold
      the current transcript. */
  lemma {:induction false} ClientFollowsEngine(d: Digests, s: Stream, events: seq<Event>, window: nat)
    requires CollisionFree(d) && InStep(d, s) && AllAllowed(d, s, events)
    ensures InStep(d, Run(d, s, events))
    ensures FromHeld(d, Run(d, s, events).copy, Run(d, s, events).digests, window).Some?
    ensures events != [] && events[|events| - 1].Reconnect? ==>
      Run(d, s, events).copy == events[|events| - 1].next
  {
    if events != [] {
      var before := events[..|events| - 1];
      ClientFollowsEngine(d, s, before, window);
      AfterInStep(d, Run(d, s, before), events[|events| - 1]);
      if events[|events| - 1].Reconnect? {
        ReceivedInStep(d, Run(d, s, before), events[|events| - 1]);
      }
    }
    DigestsForAll(d, Run(d, s, events).copy);
  }
}
