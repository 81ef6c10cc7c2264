/** Resume is exact: under any inserts, removals, edits and reorderings, a
    resume frame turns the client's copy into the engine's transcript. */
module ResumeExact {
  import opened Options
  import opened Parts
  import opened Frames
  import opened Diff
  import opened Resume
  import opened Seqs
  import DiffExact

  // ── what the engine knows of the client ───────────────────────────────────

  /** The digest map holds the engine's digest of every held entry. */
  ghost predicate DigestsOf(d: Digests, held: seq<Entry>, digests: map<string, Digest>) {
    forall i :: 0 <= i < |held| ==> held[i].id in digests && digests[held[i].id] == d.entry(held[i])
  }

  function Items(d: Digests, entries: seq<Entry>): (r: seq<TailItem>)
    ensures |r| == |entries| && forall i :: 0 <= i < |r| ==> r[i] == TailItem(entries[i].id, d.entry(entries[i]))
  {
    seq(|entries|, i requires 0 <= i < |entries| => TailItem(entries[i].id, d.entry(entries[i])))
  }

  lemma SummaryShape(d: Digests, held: seq<Entry>, digests: map<string, Digest>, window: nat)
    requires DigestsOf(d, held, digests)
    ensures FromHeld(d, held, digests, window).Some?
    ensures var s := FromHeld(d, held, digests, window).value;
      s.count == |held| && |s.tail| <= |held| && |s.tail| <= MAX_RESUME_TAIL &&
      s.prefix == d.list(EntryDigests(d, held[..|held| - |s.tail|])) && s.tail == Items(d, held[|held| - |s.tail|..])
  {
    var p := |held| - Window(|held|, window);
    assert seq(p, i requires 0 <= i < p => digests[held[i].id]) == EntryDigests(d, held[..p]);
  }

  lemma DigestsOfPrefix(d: Digests, entries: seq<Entry>, p: nat)
    requires p <= |entries|
    ensures EntryDigests(d, entries)[..p] == EntryDigests(d, entries[..p])
  {
  }

  lemma SameDigestsSameEntries(d: Digests, a: seq<Entry>, b: seq<Entry>)
    requires CollisionFree(d) && EntryDigests(d, a) == EntryDigests(d, b)
    ensures a == b
  {
    assert |a| == |EntryDigests(d, a)| == |b|;
    forall i | 0 <= i < |a| ensures a[i] == b[i] {
      assert EntryDigests(d, a)[i] == d.entry(a[i]);
      assert EntryDigests(d, b)[i] == d.entry(b[i]);
      assert EntriesApart(d, a[i], b[i]);
    }
  }

  // ── the client's list after the removals ──────────────────────────────────

  function KeptEntries(entries: seq<Entry>, current: seq<Entry>): seq<Entry> {
    if entries == [] then []
    else KeptEntries(entries[..|entries| - 1], current) + KeptEntry(entries[|entries| - 1], current)
  }

  function KeptEntry(e: Entry, current: seq<Entry>): seq<Entry> {
    if Has(current, e.id) then [e] else []
  }

  lemma ItemsAppend(d: Digests, entries: seq<Entry>, e: Entry)
    ensures Items(d, entries + [e]) == Items(d, entries) + [TailItem(e.id, d.entry(e))]
  {
  }

  lemma {:induction false} KeptAgree(d: Digests, entries: seq<Entry>, current: seq<Entry>)
    ensures KeptItems(Items(d, entries), current) == Items(d, KeptEntries(entries, current))
  {
    if entries == [] {
    } else {
      var front, e := entries[..|entries| - 1], entries[|entries| - 1];
      assert entries == front + [e];
      KeptAgree(d, front, current);
      ItemsAppend(d, front, e);
      ItemsAppend(d, KeptEntries(front, current), e);
      assert Items(d, entries)[..|entries| - 1] == Items(d, front);
    }
  }

  lemma {:induction false} GoneIff(tail: seq<TailItem>, current: seq<Entry>, id: string)
    ensures id in GoneIds(tail, current) <==> !Has(current, id) && exists i :: 0 <= i < |tail| && tail[i].id == id
  {
    if tail == [] {
    } else {
      var front := tail[..|tail| - 1];
      GoneIff(front, current, id);
      assert (exists i :: 0 <= i < |tail| && tail[i].id == id) <==>
        (exists i :: 0 <= i < |front| && front[i].id == id) || tail[|tail| - 1].id == id by {
        assert forall i :: 0 <= i < |front| ==> front[i] == tail[i];
      }
    }
  }

  /** Nothing of the shared prefix goes; of the tail, what the engine still has stays. */
  lemma {:induction false} RetainedPrefixAndKept(prefix: seq<Entry>, tail: seq<Entry>, current: seq<Entry>,
                                                 gone: seq<string>)
    requires forall i :: 0 <= i < |prefix| ==> prefix[i].id !in gone
    requires forall i :: 0 <= i < |tail| ==> (tail[i].id in gone <==> !Has(current, tail[i].id))
    ensures Retained(prefix + tail, gone) == prefix + KeptEntries(tail, current)
    decreases |prefix| + |tail|
  {
    if tail != [] {
      var front, e := tail[..|tail| - 1], tail[|tail| - 1];
      assert prefix + tail == (prefix + front) + [e];
      RetainedPrefixAndKept(prefix, front, current, gone);
      RetainedAppend(prefix + front, e, gone);
    } else if prefix != [] {
      var front, e := prefix[..|prefix| - 1], prefix[|prefix| - 1];
      assert prefix + tail == front + [e] && front + [] == front;
      RetainedPrefixAndKept(front, [], current, gone);
      RetainedAppend(front, e, gone);
    } else {
      assert prefix + tail == [];
    }
  }

  // ── the walk ──────────────────────────────────────────────────────────────

  /** The kept entries not yet met in `current[p..n]`, in order. */
  ghost function Rest(kept: seq<Entry>, current: seq<Entry>, p: nat, n: nat): seq<Entry>
    requires p <= n <= |current|
    decreases |kept|
  {
    if kept == [] then []
    else if Among(current, p, n, kept[0].id) then Rest(kept[1..], current, p, n)
    else [kept[0]] + Rest(kept[1..], current, p, n)
  }

  lemma {:induction false} RestMembers(kept: seq<Entry>, current: seq<Entry>, p: nat, n: nat)
    requires p <= n <= |current|
    ensures forall e :: e in Rest(kept, current, p, n) ==> e in kept && !Among(current, p, n, e.id)
    decreases |kept|
  {
    if kept == [] {
    } else {
      RestMembers(kept[1..], current, p, n);
    }
  }

  /** The next unconsumed kept entry heads the rest. */
  lemma {:induction false} RestFromHead(kept: seq<Entry>, current: seq<Entry>, p: nat, n: nat, head: nat)
    requires p <= n <= |current| && head < |kept|
    requires forall j :: 0 <= j < head ==> Among(current, p, n, kept[j].id)
    ensures Rest(kept, current, p, n) == Rest(kept[head..], current, p, n)
    decreases head
  {
    if head == 0 {
      assert kept[0..] == kept;
    } else {
      RestFromHead(kept[1..], current, p, n, head - 1);
      assert kept[1..][head - 1..] == kept[head..];
    }
  }

  /** An entry met that is not among the kept ones changes nothing. */
  lemma {:induction false} RestUnmet(kept: seq<Entry>, current: seq<Entry>, p: nat, n: nat)
    requires p <= n < |current| && forall j :: 0 <= j < |kept| ==> kept[j].id != current[n].id
    ensures Rest(kept, current, p, n + 1) == Rest(kept, current, p, n)
    decreases |kept|
  {
    if kept == [] {
    } else {
      AmongNext(current, p, n, kept[0].id);
      RestUnmet(kept[1..], current, p, n);
    }
  }

  lemma WithoutCons(h: Entry, t: seq<Entry>, x: string)
    requires h.id != x
    ensures WithoutAt([h] + t, Ix([h] + t, x)) == [h] + WithoutAt(t, Ix(t, x))
  {
    DiffExact.ConsIx(h, t, x);
    var i := Ix(t, x);
    if i >= 0 {
      assert ([h] + t)[..i + 1] == [h] + t[..i];
      assert ([h] + t)[i + 2..] == t[i + 1..];
    }
  }

  /** Meeting one more entry removes it from the rest. */
  lemma {:induction false} RestNext(kept: seq<Entry>, current: seq<Entry>, p: nat, n: nat)
    requires p <= n < |current| && Unique(kept)
    ensures var rest := Rest(kept, current, p, n);
      Rest(kept, current, p, n + 1) == WithoutAt(rest, Ix(rest, current[n].id))
    decreases |kept|
  {
    if kept != [] {
      var k, t, x := kept[0], kept[1..], current[n].id;
      assert forall j :: 0 <= j < |t| ==> t[j] == kept[j + 1];
      RestNext(t, current, p, n);
      AmongNext(current, p, n, k.id);
      var rest := Rest(t, current, p, n);
      if k.id == x {
        RestUnmet(t, current, p, n);
        RestMembers(t, current, p, n);
        if !Among(current, p, n, k.id) {
          assert FirstAt([k] + rest, x, 0) && Ix([k] + rest, x) == 0;
          assert WithoutAt([k] + rest, 0) == rest;
        } else {
          assert forall i :: 0 <= i < |rest| ==> rest[i].id != x;
        }
      } else if !Among(current, p, n, k.id) {
        WithoutCons(k, rest, x);
      }
    } else {
      assert Rest(kept, current, p, n) == [];
    }
  }

  /** An entry in place: the rest starts with it. */
  lemma SkipRest(kept: seq<Entry>, current: seq<Entry>, p: nat, n: nat, head: nat)
    requires p <= n < |current| && Unique(kept) && head < |kept| && kept[head] == current[n]
    requires forall j :: 0 <= j < head ==> Among(current, p, n, kept[j].id)
    requires !Among(current, p, n, kept[head].id)
    ensures Rest(kept, current, p, n) == [current[n]] + Rest(kept, current, p, n + 1)
  {
    var e := current[n];
    forall j | 0 <= j < |kept| ensures Among(current, p, n + 1, kept[j].id) <==>
      Among(current, p, n, kept[j].id) || kept[j].id == e.id {
      AmongNext(current, p, n, kept[j].id);
    }
    RestFromHead(kept, current, p, n, head);
    RestFromHead(kept, current, p, n + 1, head);
    var later, after := kept[head..], kept[head + 1..];
    assert later[0] == e && later[1..] == after;
    forall j | 0 <= j < |after| ensures after[j].id != e.id {
      assert after[j] == kept[head + 1 + j];
    }
    RestUnmet(after, current, p, n);
  }

  lemma SkipStep(d: Digests, kept: seq<Entry>, cur: Source, p: nat, n: nat)
    requires CollisionFree(d) && p <= n < |cur.entries| && cur.digests == EntryDigests(d, cur.entries) && Unique(kept)
    requires Skips(Items(d, kept), cur, p, n)
    ensures Rest(kept, cur.entries, p, n) == [cur.entries[n]] + Rest(kept, cur.entries, p, n + 1)
  {
    var items := Items(d, kept);
    var head: nat :| SkipsAt(items, cur, p, n, head);
    assert EntriesApart(d, kept[head], cur.entries[n]);
    assert items[head].digest == d.entry(kept[head]) && cur.digests[n] == d.entry(cur.entries[n]);
    forall j | 0 <= j < head ensures Among(cur.entries, p, n, kept[j].id) {
      assert Among(cur.entries, p, n, items[j].id);
    }
    SkipRest(kept, cur.entries, p, n, head);
  }

  lemma WithoutBehind(front: seq<Entry>, rest: seq<Entry>, x: string)
    requires forall i :: 0 <= i < |front| ==> front[i].id != x
    ensures WithoutAt(front + rest, Ix(front + rest, x)) == front + WithoutAt(rest, Ix(rest, x))
  {
    IxBehind(front, rest, x);
    var n, i := |front|, Ix(rest, x);
    if i >= 0 {
      assert (front + rest)[..n + i] == front + rest[..i] && (front + rest)[n + i + 1..] == rest[i + 1..];
    }
  }

  /** An upserted entry lands right behind the part already in place. */
  lemma UpsertBehind(front: seq<Entry>, rest: seq<Entry>, e: Entry)
    requires Unique(front) && forall i :: 0 <= i < |front| ==> front[i].id != e.id
    ensures var u := Upsert(if front == [] then None else Some(front[|front| - 1].id), e);
      ApplyUpsert(front + rest, u) == Some((front + [e]) + WithoutAt(rest, Ix(rest, e.id)))
  {
    var after, n := WithoutAt(rest, Ix(rest, e.id)), |front|;
    WithoutBehind(front, rest, e.id);
    if n > 0 {
      IxInFront(front, after, n - 1);
    }
    assert (front + after)[..n] == front && (front + after)[n..] == after;
  }

  lemma IxInFront(front: seq<Entry>, rest: seq<Entry>, k: nat)
    requires Unique(front) && k < |front|
    ensures Ix(front + rest, front[k].id) == k
  {
    var list, r := front + rest, Ix(front + rest, front[k].id);
    assert FirstAt(list, front[k].id, k);
    FirstAtUnique(list, front[k].id, k, r);
  }

  /** The client's list at step `n` of the walk: what it has visited is in
      place, the unconsumed rest follows. */
  ghost function Walked(kept: seq<Entry>, current: seq<Entry>, p: nat, n: nat): seq<Entry>
    requires p <= n <= |current|
  {
    current[..n] + Rest(kept, current, p, n)
  }

  lemma UpsertStep(kept: seq<Entry>, current: seq<Entry>, p: nat, n: nat)
    requires p <= n < |current| && Unique(kept) && Unique(current)
    ensures ApplyUpsert(Walked(kept, current, p, n),
      Upsert(PredId(current, n), current[n])) == Some(Walked(kept, current, p, n + 1))
  {
    RestNext(kept, current, p, n);
    FrontApart(current, n);
    UpsertBehind(current[..n], Rest(kept, current, p, n), current[n]);
    TakeNext(current, n);
  }

  lemma FrontApart(current: seq<Entry>, n: nat)
    requires n < |current| && Unique(current)
    ensures Unique(current[..n]) && forall i :: 0 <= i < n ==> current[..n][i].id != current[n].id
    ensures PredId(current, n) == if current[..n] == [] then None else Some(current[..n][n - 1].id)
  {
  }

  lemma IxBehind(front: seq<Entry>, rest: seq<Entry>, x: string)
    requires forall i :: 0 <= i < |front| ==> front[i].id != x
    ensures Ix(front + rest, x) == if Ix(rest, x) < 0 then -1 else |front| + Ix(rest, x)
  {
    var list, r := front + rest, Ix(front + rest, x);
    assert forall k :: |front| <= k < |list| ==> list[k] == rest[k - |front|];
    if Ix(rest, x) >= 0 {
      assert FirstAt(list, x, |front| + Ix(rest, x));
      FirstAtUnique(list, x, |front| + Ix(rest, x), r);
    }
  }

  ghost predicate LedTo(d: Digests, start: seq<Entry>, kept: seq<Entry>, cur: Source, p: nat, n: nat,
                        list: seq<Entry>) {
    && p <= n <= |cur.entries| == |cur.digests| && list == Walked(kept, cur.entries, p, n)
    && ApplyUpserts(start, Walk(Items(d, kept), cur, p, n)) == Some(list)
  }

  /** After the walk's first `n` entries the client's list is `Walked`. */
  ghost predicate WalkLed(d: Digests, start: seq<Entry>, kept: seq<Entry>, cur: Source, p: nat, n: nat) {
    exists list :: LedTo(d, start, kept, cur, p, n, list)
  }

  lemma WalkedNext(d: Digests, start: seq<Entry>, kept: seq<Entry>, cur: Source, p: nat, n: nat)
    requires CollisionFree(d) && p <= n < |cur.entries| && cur.digests == EntryDigests(d, cur.entries)
    requires Unique(kept) && Unique(cur.entries) && WalkLed(d, start, kept, cur, p, n)
    ensures WalkLed(d, start, kept, cur, p, n + 1)
  {
    var list :| LedTo(d, start, kept, cur, p, n, list);
    WalkedStep(d, start, kept, cur, p, n);
    assert LedTo(d, start, kept, cur, p, n + 1, Walked(kept, cur.entries, p, n + 1));
  }

  lemma WalkedStep(d: Digests, start: seq<Entry>, kept: seq<Entry>, cur: Source, p: nat, n: nat)
    requires CollisionFree(d) && p <= n < |cur.entries| && cur.digests == EntryDigests(d, cur.entries)
    requires Unique(kept) && Unique(cur.entries)
    requires ApplyUpserts(start, Walk(Items(d, kept), cur, p, n)) == Some(Walked(kept, cur.entries, p, n))
    ensures ApplyUpserts(start, Walk(Items(d, kept), cur, p, n + 1)) == Some(Walked(kept, cur.entries, p, n + 1))
  {
    var us, e := Walk(Items(d, kept), cur, p, n), cur.entries[n];
    if Skips(Items(d, kept), cur, p, n) {
      SkipStep(d, kept, cur, p, n);
      NothingAdded(us);
      TakeNext(cur.entries, n);
      Regroup(cur.entries[..n], e, Rest(kept, cur.entries, p, n + 1));
    } else {
      UpsertStep(kept, cur.entries, p, n);
      UpsertsSnoc(start, us, Upsert(PredId(cur.entries, n), e), Walked(kept, cur.entries, p, n));
    }
  }

  lemma {:induction false} WalkLeads(d: Digests, start: seq<Entry>, kept: seq<Entry>, cur: Source, p: nat)
    requires CollisionFree(d) && p <= |cur.entries| && cur.digests == EntryDigests(d, cur.entries)
    requires Unique(kept) && Unique(cur.entries) && WalkLed(d, start, kept, cur, p, p)
    ensures WalkLed(d, start, kept, cur, p, |cur.entries|)
  {
    for n := p to |cur.entries|
      invariant exists m: nat :: m == n && WalkLed(d, start, kept, cur, p, m)
    {
      WalkedNext(d, start, kept, cur, p, n);
    }
  }

  lemma {:induction false} RestWhole(kept: seq<Entry>, current: seq<Entry>, p: nat)
    requires p <= |current|
    ensures Rest(kept, current, p, p) == kept
    decreases |kept|
  {
    if kept == [] {
    } else {
      RestWhole(kept[1..], current, p);
    }
  }

  lemma {:induction false} RestEmpty(kept: seq<Entry>, current: seq<Entry>, p: nat)
    requires p <= |current| && forall j :: 0 <= j < |kept| ==> Among(current, p, |current|, kept[j].id)
    ensures Rest(kept, current, p, |current|) == []
    decreases |kept|
  {
    if kept == [] {
    } else {
      RestEmpty(kept[1..], current, p);
    }
  }

  // ── the theorem ───────────────────────────────────────────────────────────

  lemma {:induction false} KeptEntriesFacts(entries: seq<Entry>, current: seq<Entry>)
    requires Unique(entries)
    ensures Unique(KeptEntries(entries, current))
    ensures forall e :: e in KeptEntries(entries, current) ==> e in entries && Has(current, e.id)
  {
    if entries == [] {
    } else {
      var front := entries[..|entries| - 1];
      assert forall i :: 0 <= i < |front| ==> front[i] == entries[i];
      KeptEntriesFacts(front, current);
      var kept := KeptEntries(front, current);
      forall i | 0 <= i < |kept| ensures kept[i].id != entries[|entries| - 1].id {
        assert kept[i] in front;
      }
    }
  }

  /** What the client keeps: the shared prefix and the tail entries the engine still has. */
  lemma {:induction false} RetainedTail(d: Digests, prefix: seq<Entry>, tail: seq<Entry>, current: seq<Entry>)
    requires |prefix| <= |current| && forall i :: 0 <= i < |prefix| ==> prefix[i] == current[i]
    ensures Retained(prefix + tail, GoneIds(Items(d, tail), current)) == prefix + KeptEntries(tail, current)
  {
    var items := Items(d, tail);
    var gone := GoneIds(items, current);
    forall i | 0 <= i < |prefix| ensures prefix[i].id !in gone {
      GoneIff(items, current, prefix[i].id);
    }
    forall i | 0 <= i < |tail| ensures tail[i].id in gone <==> !Has(current, tail[i].id) {
      GoneIff(items, current, tail[i].id);
      assert items[i].id == tail[i].id;
    }
    RetainedPrefixAndKept(prefix, tail, current, gone);
  }

  /** The walk meets every kept entry. */
  lemma {:induction false} AllKeptMet(prefix: seq<Entry>, tail: seq<Entry>, current: seq<Entry>)
    requires Unique(prefix + tail) && Unique(tail) && |prefix| <= |current|
    requires forall i :: 0 <= i < |prefix| ==> prefix[i] == current[i]
    ensures Rest(KeptEntries(tail, current), current, |prefix|, |current|) == []
  {
    var kept, p, m := KeptEntries(tail, current), |prefix|, |current|;
    KeptEntriesFacts(tail, current);
    forall j | 0 <= j < |kept| ensures Among(current, p, m, kept[j].id) {
      assert kept[j] in tail;
      TailMet(prefix, tail, current, kept[j]);
    }
    RestEmpty(kept, current, p);
  }

  lemma TailMet(prefix: seq<Entry>, tail: seq<Entry>, current: seq<Entry>, e: Entry)
    requires Unique(prefix + tail) && |prefix| <= |current| && e in tail && Has(current, e.id)
    requires forall i :: 0 <= i < |prefix| ==> prefix[i] == current[i]
    ensures Among(current, |prefix|, |current|, e.id)
  {
    var i := Ix(current, e.id);
    var t :| 0 <= t < |tail| && tail[t] == e;
    var held := prefix + tail;
    assert held[|prefix| + t] == e;
    assert forall k :: 0 <= k < |prefix| ==> held[k].id != held[|prefix| + t].id;
    assert forall k :: 0 <= k < |prefix| ==> current[k].id == held[k].id;
    assert current[i].id == e.id;
  }

  lemma UniqueTail(prefix: seq<Entry>, tail: seq<Entry>)
    requires Unique(prefix + tail)
    ensures Unique(tail)
  {
    var list := prefix + tail;
    assert forall i :: 0 <= i < |tail| ==> tail[i] == list[|prefix| + i];
  }

  /** The frame's upserts, for a client whose prefix the engine shares. */
  lemma TailExact(d: Digests, prefix: seq<Entry>, tail: seq<Entry>, cur: Source)
    requires CollisionFree(d) && Unique(prefix + tail) && Unique(cur.entries)
    requires |prefix| <= |cur.entries| && prefix == cur.entries[..|prefix|] &&
      cur.digests == EntryDigests(d, cur.entries)
    ensures var items := Items(d, tail);
      ApplyUpserts(Retained(prefix + tail, GoneIds(items, cur.entries)),
        Walk(KeptItems(items, cur.entries), cur, |prefix|, |cur.entries|)) == Some(cur.entries)
  {
    var p, m, kept := |prefix|, |cur.entries|, KeptEntries(tail, cur.entries);
    RetainedTail(d, prefix, tail, cur.entries);
    KeptAgree(d, tail, cur.entries);
    UniqueTail(prefix, tail);
    KeptEntriesFacts(tail, cur.entries);
    AllKeptMet(prefix, tail, cur.entries);
    RestWhole(kept, cur.entries, p);
    assert LedTo(d, prefix + kept, kept, cur, p, p, Walked(kept, cur.entries, p, p));
    WalkLeads(d, prefix + kept, kept, cur, p);
    NothingAdded(cur.entries);
  }

  lemma DeltaApplies(held: seq<Entry>, us: seq<Upsert>, gone: seq<string>, current: seq<Entry>)
    requires ApplyUpserts(Retained(held, gone), us) == Some(current)
    ensures ApplyFrame(held, Delta(us, [], gone, |current|)) == Some(current)
  {
  }

  /** A matching prefix digest means the same entries. */
  lemma PrefixShared(d: Digests, held: seq<Entry>, current: seq<Entry>, p: nat)
    requires CollisionFree(d) && p <= |held| && p <= |current|
    requires d.list(EntryDigests(d, current)[..p]) == d.list(EntryDigests(d, held[..p]))
    ensures held[..p] == current[..p]
  {
    DigestsOfPrefix(d, current, p);
    assert ListsApart(d, EntryDigests(d, held[..p]), EntryDigests(d, current[..p]));
    SameDigestsSameEntries(d, held[..p], current[..p]);
  }

  /** The frame for a client that shares the first `p` entries. */
  ghost function TailFrame(d: Digests, held: seq<Entry>, current: seq<Entry>, p: nat): Frame
    requires p <= |held| && p <= |current|
  {
    var items := Items(d, held[p..]);
    Delta(Walk(KeptItems(items, current), Source(current, EntryDigests(d, current)), p, |current|), [],
      GoneIds(items, current), |current|)
  }

  lemma TailFrameExact(d: Digests, held: seq<Entry>, current: seq<Entry>, p: nat)
    requires CollisionFree(d) && Unique(held) && Unique(current) && p <= |held| && p <= |current| &&
      held[..p] == current[..p]
    ensures ApplyFrame(held, TailFrame(d, held, current, p)) == Some(current)
  {
    var items, cur := Items(d, held[p..]), Source(current, EntryDigests(d, current));
    SplitAt(held, p);
    TailExact(d, held[..p], held[p..], cur);
    DeltaApplies(held, Walk(KeptItems(items, current), cur, p, |current|), GoneIds(items, current), current);
  }

  /** A frame is returned only to a client that shares a prefix, and is the frame of its tail. */
  lemma FrameShape(d: Digests, held: seq<Entry>, digests: map<string, Digest>, window: nat,
                   current: seq<Entry>) returns (p: nat)
    requires CollisionFree(d) && DigestsOf(d, held, digests) && FromHeld(d, held, digests, window).Some?
    requires FrameFor(d.list, FromHeld(d, held, digests, window).value, Source(current, EntryDigests(d, current))).Some?
    ensures p <= |held| && p <= |current| && held[..p] == current[..p]
    ensures FrameFor(d.list, FromHeld(d, held, digests, window).value, Source(current, EntryDigests(d, current)))
         == Some(TailFrame(d, held, current, p))
  {
    SummaryShape(d, held, digests, window);
    p := |held| - |FromHeld(d, held, digests, window).value.tail|;
    PrefixShared(d, held, current, p);
  }

  /** Main result: whatever happened to the transcript, applying the resume
      frame to the held copy succeeds and yields exactly the current one. */
  lemma ResumeIsExact(d: Digests, held: seq<Entry>, digests: map<string, Digest>, window: nat, current: seq<Entry>)
    requires CollisionFree(d) && Unique(held) && Unique(current) && DigestsOf(d, held, digests)
    ensures FromHeld(d, held, digests, window).Some?
    ensures var frame := FrameFor(d.list, FromHeld(d, held, digests, window).value,
      Source(current, EntryDigests(d, current)));
      frame.Some? ==> ApplyFrame(held, frame.value) == Some(current)
  {
    SummaryShape(d, held, digests, window);
    if FrameFor(d.list, FromHeld(d, held, digests, window).value, Source(current, EntryDigests(d, current))).Some? {
      var p := FrameShape(d, held, digests, window, current);
      TailFrameExact(d, held, current, p);
    }
  }

  lemma ItemsUnique(d: Digests, entries: seq<Entry>)
    requires Unique(entries)
    ensures TailUnique(Items(d, entries))
  {
  }

  /** The engine accepts a summary exactly when its transcript still starts
      with the client's prefix; nothing behind the prefix matters. */
  lemma SummaryMatchesIff(d: Digests, held: seq<Entry>, digests: map<string, Digest>, window: nat, current: seq<Entry>)
    requires CollisionFree(d) && Unique(held) && DigestsOf(d, held, digests)
    ensures FromHeld(d, held, digests, window).Some?
    ensures var s := FromHeld(d, held, digests, window).value;
      var p := |held| - |s.tail|;
      0 <= p && (Matches(d.list, s, Source(current, EntryDigests(d, current))) <==>
        p <= |current| && held[..p] == current[..p])
  {
    SummaryShape(d, held, digests, window);
    var p := |held| - |FromHeld(d, held, digests, window).value.tail|;
    SplitAt(held, p);
    UniqueTail(held[..p], held[p..]);
    ItemsUnique(d, held[p..]);
    if p <= |current| {
      PrefixMatchIff(d, held[..p], current[..p]);
      DigestsOfPrefix(d, current, p);
    }
  }

  lemma PrefixMatchIff(d: Digests, a: seq<Entry>, b: seq<Entry>)
    requires CollisionFree(d)
    ensures d.list(EntryDigests(d, a)) == d.list(EntryDigests(d, b)) <==> a == b
  {
    assert ListsApart(d, EntryDigests(d, a), EntryDigests(d, b));
    if EntryDigests(d, a) == EntryDigests(d, b) {
      SameDigestsSameEntries(d, a, b);
    }
  }
}
