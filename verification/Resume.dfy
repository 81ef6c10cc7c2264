/** Transcript resume: a client that kept a copy catches up with a delta. */
module Resume {
  import opened Options
  import opened Parts
  import opened Frames
  import opened Diff

  const MAX_RESUME_TAIL: nat := 512

  type Digest = string

  /** The engine's two digest functions: one entry, and a list of digests. */
  datatype Digests = Digests(entry: Entry -> Digest, list: seq<Digest> -> Digest)

  ghost predicate EntriesApart(d: Digests, a: Entry, b: Entry) {
    d.entry(a) == d.entry(b) ==> a == b
  }

  ghost predicate ListsApart(d: Digests, a: seq<Digest>, b: seq<Digest>) {
    d.list(a) == d.list(b) ==> a == b
  }

  /** Digests do not collide. */
  ghost predicate CollisionFree(d: Digests) {
    (forall a, b :: EntriesApart(d, a, b)) && (forall a, b :: ListsApart(d, a, b))
  }

  datatype TailItem = TailItem(id: string, digest: Digest)
  datatype Summary = Summary(count: nat, prefix: Digest, tail: seq<TailItem>)

  function EntryDigests(d: Digests, entries: seq<Entry>): (r: seq<Digest>)
    ensures |r| == |entries| && forall i :: 0 <= i < |r| ==> r[i] == d.entry(entries[i])
  {
    seq(|entries|, i requires 0 <= i < |entries| => d.entry(entries[i]))
  }

  // ── the client's summary ──────────────────────────────────────────────────

  function Window(held: nat, window: nat): (w: nat)
    ensures w <= held && w <= MAX_RESUME_TAIL
  {
    var capped := if window < held then window else held;
    if capped < MAX_RESUME_TAIL then capped else MAX_RESUME_TAIL
  }

  /** `None` when any held entry lacks a digest. */
  function FromHeld(d: Digests, held: seq<Entry>, digests: map<string, Digest>, window: nat): (r: Option<Summary>)
    ensures r.Some? <==> forall i :: 0 <= i < |held| ==> held[i].id in digests
    ensures r.Some? ==> r.value.count == |held|
  {
    if exists i :: 0 <= i < |held| && held[i].id !in digests then None
    else
      var p := |held| - Window(|held|, window);
      Some(Summary(|held|,
        d.list(seq(p, i requires 0 <= i < p => digests[held[i].id])),
        seq(|held| - p, i requires 0 <= i < |held| - p => TailItem(held[p + i].id, digests[held[p + i].id]))))
  }

  // ── the engine's frame ────────────────────────────────────────────────────

  function TailIx(tail: seq<TailItem>, id: string): (r: int)
    ensures -1 <= r < |tail|
    ensures r >= 0 ==> tail[r].id == id && forall k :: r < k < |tail| ==> tail[k].id != id
    ensures r < 0 ==> forall k :: 0 <= k < |tail| ==> tail[k].id != id
  {
    if tail == [] then -1
    else if tail[|tail| - 1].id == id then |tail| - 1
    else TailIx(tail[..|tail| - 1], id)
  }

  ghost predicate TailUnique(tail: seq<TailItem>) {
    forall i, j :: 0 <= i < j < |tail| ==> tail[i].id != tail[j].id
  }

  /** The tail items of entries the engine still has. */
  function KeptItems(tail: seq<TailItem>, current: seq<Entry>): seq<TailItem> {
    if tail == [] then []
    else KeptItems(tail[..|tail| - 1], current) + if Has(current, tail[|tail| - 1].id) then [tail[|tail| - 1]] else []
  }

  function GoneIds(tail: seq<TailItem>, current: seq<Entry>): seq<string> {
    if tail == [] then []
    else GoneIds(tail[..|tail| - 1], current) + if Has(current, tail[|tail| - 1].id) then [] else [tail[|tail| - 1].id]
  }

  /** Some entry of `current` from `p` up to `n` has the id. */
  ghost predicate Among(current: seq<Entry>, p: nat, n: nat, id: string)
    requires p <= n <= |current|
  {
    exists i :: p <= i < n && current[i].id == id
  }

  /** `head` is the first kept item not consumed by `current[p..n]`. */
  ghost predicate NextKept(kept: seq<TailItem>, current: seq<Entry>, p: nat, n: nat, head: nat)
    requires p <= n <= |current|
  {
    && head <= |kept|
    && (forall j :: 0 <= j < head ==> Among(current, p, n, kept[j].id))
    && (head < |kept| ==> !Among(current, p, n, kept[head].id))
  }

  /** The predecessor of a kept item in the client's list after the removals. */
  function KeptPred(kept: seq<TailItem>, current: seq<Entry>, p: nat, j: nat): Option<string>
    requires j < |kept| && p <= |current|
  {
    if j == 0 then (if p > 0 then Some(current[p - 1].id) else None) else Some(kept[j - 1].id)
  }

  /** The engine's transcript with its digests, aligned. */
  datatype Source = Source(entries: seq<Entry>, digests: seq<Digest>)

  /** Entry `i` is exactly in place at the client: the next unconsumed kept
      item, with an equal digest and the same predecessor. */
  ghost predicate SkipsAt(kept: seq<TailItem>, cur: Source, p: nat, i: nat, head: nat)
    requires p <= i < |cur.entries| == |cur.digests|
  {
    && head < |kept| && NextKept(kept, cur.entries, p, i, head)
    && kept[head] == TailItem(cur.entries[i].id, cur.digests[i])
    && KeptPred(kept, cur.entries, p, head) == PredId(cur.entries, i)
  }

  ghost predicate Skips(kept: seq<TailItem>, cur: Source, p: nat, i: nat)
    requires p <= i < |cur.entries| == |cur.digests|
  {
    exists head: nat :: SkipsAt(kept, cur, p, i, head)
  }

  /** The upserts for `current[p..n]`: everything that is not exactly in place. */
  ghost function Walk(kept: seq<TailItem>, cur: Source, p: nat, n: nat): seq<Upsert>
    requires p <= n <= |cur.entries| == |cur.digests|
    decreases n
  {
    if n == p then [] else Walk(kept, cur, p, n - 1) + WalkStep(kept, cur, p, n - 1)
  }

  ghost function WalkStep(kept: seq<TailItem>, cur: Source, p: nat, i: nat): seq<Upsert>
    requires p <= i < |cur.entries| == |cur.digests|
  {
    if Skips(kept, cur, p, i) then [] else [Upsert(PredId(cur.entries, i), cur.entries[i])]
  }

  /** The summary fits the engine's transcript. */
  ghost predicate Matches(list: seq<Digest> -> Digest, s: Summary, cur: Source) {
    var w := |s.tail|;
    && w <= s.count && w <= MAX_RESUME_TAIL && s.count - w <= |cur.entries| == |cur.digests|
    && TailUnique(s.tail)
    && list(cur.digests[..s.count - w]) == s.prefix
  }

  ghost function FrameFor(list: seq<Digest> -> Digest, s: Summary, cur: Source): Option<Frame> {
    if !Matches(list, s, cur) then None
    else
      var us := Walk(KeptItems(s.tail, cur.entries), cur, s.count - |s.tail|, |cur.entries|);
      if MostlyUpserts(|us|, |cur.entries|) then None
      else Some(Delta(us, [], GoneIds(s.tail, cur.entries), |cur.entries|))
  }

  method TailRepeats(tail: seq<TailItem>) returns (repeats: bool)
    ensures repeats <==> !TailUnique(tail)
  {
    var seen: set<string> := {};
    for i := 0 to |tail|
      invariant forall id :: id in seen <==> exists j :: 0 <= j < i && tail[j].id == id
      invariant forall j, k :: 0 <= j < k < i ==> tail[j].id != tail[k].id
    {
      if tail[i].id in seen {
        return true;
      }
      seen := seen + {tail[i].id};
    }
    return false;
  }

  /** Split the tail by what the engine still has. */
  method SplitTail(tail: seq<TailItem>, current: seq<Entry>) returns (kept: seq<TailItem>, gone: seq<string>)
    ensures kept == KeptItems(tail, current) && gone == GoneIds(tail, current)
  {
    kept, gone := [], [];
    for i := 0 to |tail|
      invariant kept == KeptItems(tail[..i], current) && gone == GoneIds(tail[..i], current)
    {
      assert tail[..i + 1][..i] == tail[..i];
      if Has(current, tail[i].id) {
        kept := kept + [tail[i]];
      } else {
        gone := gone + [tail[i].id];
      }
    }
    assert tail[..|tail|] == tail;
  }

  lemma NextKeptUnique(kept: seq<TailItem>, current: seq<Entry>, p: nat, n: nat, a: nat, b: nat)
    requires p <= n <= |current| && NextKept(kept, current, p, n, a) && NextKept(kept, current, p, n, b)
    ensures a == b
  {
  }

  /** `consumed` marks exactly the kept items met in `current[p..n]`. */
  ghost predicate Marks(consumed: seq<bool>, kept: seq<TailItem>, current: seq<Entry>, p: nat, n: nat)
    requires p <= n <= |current|
  {
    |consumed| == |kept| && forall j :: 0 <= j < |kept| ==> (consumed[j] <==> Among(current, p, n, kept[j].id))
  }

  lemma AmongNext(current: seq<Entry>, p: nat, n: nat, id: string)
    requires p <= n < |current|
    ensures Among(current, p, n + 1, id) <==> Among(current, p, n, id) || current[n].id == id
  {
    if Among(current, p, n, id) {
      var i :| p <= i < n && current[i].id == id;
      assert p <= i < n + 1;
    }
  }

  lemma MarksNext(consumed: seq<bool>, kept: seq<TailItem>, current: seq<Entry>, p: nat, n: nat, j: int)
    requires p <= n < |current| && Marks(consumed, kept, current, p, n)
    requires -1 <= j < |kept| && (forall k :: 0 <= k < |kept| && kept[k].id == current[n].id ==> k == j)
    requires j >= 0 ==> kept[j].id == current[n].id
    ensures Marks(if j < 0 then consumed else consumed[j := true], kept, current, p, n + 1)
  {
    forall k | 0 <= k < |kept| ensures Among(current, p, n + 1, kept[k].id) <==>
      Among(current, p, n, kept[k].id) || k == j {
      AmongNext(current, p, n, kept[k].id);
    }
  }

  lemma {:induction false} KeptItemsUnique(tail: seq<TailItem>, current: seq<Entry>)
    requires TailUnique(tail)
    ensures TailUnique(KeptItems(tail, current))
    ensures forall item :: item in KeptItems(tail, current) ==> item in tail && Has(current, item.id)
  {
    if tail == [] {
    } else {
      var front := tail[..|tail| - 1];
      assert forall i :: 0 <= i < |front| ==> front[i] == tail[i];
      KeptItemsUnique(front, current);
      var kept := KeptItems(front, current);
      forall i | 0 <= i < |kept| ensures kept[i].id != tail[|tail| - 1].id {
        assert kept[i] in front;
      }
    }
  }

  /** The catch-up frame for a client's summary, or `None` for a reset. */
  method ResumeFrame(list: seq<Digest> -> Digest, s: Summary, cur: Source) returns (frame: Option<Frame>)
    ensures frame == FrameFor(list, s, cur)
  {
    var w, m := |s.tail|, |cur.entries|;
    if w > s.count || w > MAX_RESUME_TAIL || s.count - w > m || |cur.digests| != m {
      return None;
    }
    var p := s.count - w;
    var repeats := TailRepeats(s.tail);
    if repeats || list(cur.digests[..p]) != s.prefix {
      return None;
    }
    var kept, remove := SplitTail(s.tail, cur.entries);
    KeptItemsUnique(s.tail, cur.entries);
    var upsert := WalkUpserts(kept, cur, p);
    if MostlyUpserts(|upsert|, m) {
      return None;
    }
    return Some(Delta(upsert, [], remove, m));
  }

  /** Whether entry `i` is in place, given the next unconsumed kept item. */
  predicate InPlaceAt(kept: seq<TailItem>, cur: Source, p: nat, i: nat, head: nat)
    requires p <= i < |cur.entries| == |cur.digests|
  {
    head < |kept| && kept[head] == TailItem(cur.entries[i].id, cur.digests[i])
    && KeptPred(kept, cur.entries, p, head) == PredId(cur.entries, i)
  }

  lemma WalkTurn(kept: seq<TailItem>, cur: Source, p: nat, i: nat, head: nat)
    requires p <= i < |cur.entries| == |cur.digests| && NextKept(kept, cur.entries, p, i, head)
    ensures WalkStep(kept, cur, p, i) == if InPlaceAt(kept, cur, p, i,
      head) then [] else [Upsert(PredId(cur.entries, i), cur.entries[i])]
  {
    if InPlaceAt(kept, cur, p, i, head) {
      assert SkipsAt(kept, cur, p, i, head);
    } else {
      forall h: nat | SkipsAt(kept, cur, p, i, h) ensures false {
        NextKeptUnique(kept, cur.entries, p, i, h, head);
      }
    }
  }

  method NextUnconsumed(consumed: seq<bool>, from: nat) returns (head: nat)
    requires from <= |consumed| && forall j :: 0 <= j < from ==> consumed[j]
    ensures head <= |consumed| && (forall j :: 0 <= j < head ==> consumed[j]) && (head < |consumed| ==> !consumed[head])
  {
    head := from;
    while head < |consumed| && consumed[head]
      invariant head <= |consumed| && forall j :: 0 <= j < head ==> consumed[j]
    {
      head := head + 1;
    }
  }

  /** Everything before `head` is consumed. */
  ghost predicate Passed(consumed: seq<bool>, head: nat) {
    head <= |consumed| && forall j :: 0 <= j < head ==> consumed[j]
  }

  /** One entry of the walk: it is in place, or it is upserted. */
  method WalkOne(kept: seq<TailItem>, cur: Source, p: nat, i: nat, consumed: seq<bool>, from: nat)
    returns (marked: seq<bool>, head: nat, step: seq<Upsert>)
    requires p <= i < |cur.entries| == |cur.digests| && TailUnique(kept)
    requires Marks(consumed, kept, cur.entries, p, i) && Passed(consumed, from)
    ensures Marks(marked, kept, cur.entries, p, i + 1) && Passed(marked, head)
    ensures step == WalkStep(kept, cur, p, i)
  {
    head := NextUnconsumed(consumed, from);
    WalkTurn(kept, cur, p, i, head);
    var j := TailIx(kept, cur.entries[i].id);
    MarksNext(consumed, kept, cur.entries, p, i, j);
    if InPlaceAt(kept, cur, p, i, head) {
      marked, step := consumed[head := true], [];
      head := head + 1;
    } else {
      marked := if j >= 0 then consumed[j := true] else consumed;
      step := [Upsert(PredId(cur.entries, i), cur.entries[i])];
    }
  }

  method WalkUpserts(kept: seq<TailItem>, cur: Source, p: nat) returns (upsert: seq<Upsert>)
    requires p <= |cur.entries| == |cur.digests| && TailUnique(kept)
    ensures upsert == Walk(kept, cur, p, |cur.entries|)
  {
    var consumed: seq<bool> := seq(|kept|, _ => false);
    var head: nat := 0;
    upsert := [];
    for i := p to |cur.entries|
      invariant upsert == Walk(kept, cur, p, i)
      invariant Marks(consumed, kept, cur.entries, p, i) && Passed(consumed, head)
    {
      var step;
      consumed, head, step := WalkOne(kept, cur, p, i, consumed, head);
      upsert := upsert + step;
    }
  }
}
