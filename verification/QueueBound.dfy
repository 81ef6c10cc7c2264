/** What one compaction leaves of one row's queued operations.

    The pass visits the batches in order. For one row only two things matter:
    the row's operations in the batches already visited, and the table entry
    of its last one; batches of other rows change neither. The row's own
    batch either adds an operation or merges it into the last one. So an
    invariant of the row is proved batch by batch: for a row no notification
    depends on, that at most one operation is left; for a session row, that
    at most two are left of each run of one signal. Both need that the row's
    writes cover each other, which keeps every merge exact. */
module QueueBound {
  import opened Options
  import opened Rows
  import opened Notifications
  import opened Compaction
  import opened Compactor

  // ── one row's operations through the pass ─────────────────────────────────

  /** The row's live operations in the first `n` batches of a pass. */
  ghost function Seen(s: Pass, n: nat, key: Key): seq<RowOp>
    requires n <= |s.tail|
  {
    RowOps(Contents(s.tail)[..n], key)
  }

  lemma {:induction false} SameFilters(a: seq<seq<RowOp>>, b: seq<seq<RowOp>>, key: Key)
    requires |a| == |b| && forall j :: 0 <= j < |a| ==> Filter(a[j], key) == Filter(b[j], key)
    ensures RowOps(a, key) == RowOps(b, key)
    decreases |a|
  {
    if a == [] {
    } else {
      SameFilters(a[1..], b[1..], key);
    }
  }

  lemma RowOpsNext(bs: seq<seq<RowOp>>, n: nat, key: Key)
    requires n < |bs|
    ensures RowOps(bs[..n + 1], key) == RowOps(bs[..n], key) + Filter(bs[n], key)
  {
    assert bs[..n + 1] == bs[..n] + [bs[n]];
    RowOpsConcat(bs[..n], [bs[n]], key);
    RowOpsOne(bs[n], key);
  }

  lemma RowOpsRest(bs: seq<seq<RowOp>>, n: nat, key: Key)
    requires n < |bs|
    ensures RowOps(bs[n..], key) == Filter(bs[n], key) + RowOps(bs[n + 1..], key)
  {
    assert bs[n..][0] == bs[n] && bs[n..][1..] == bs[n + 1..];
  }

  /** A place not yet visited holds the queued operation. */
  lemma UnvisitedBatch(batches: seq<PendingBatch>, s: Pass, bi: nat)
    requires bi < |batches| && PassOk(batches, s, (bi, 0))
    ensures |s.tail| == |batches| && Contents(s.tail)[bi] == batches[bi].ops
  {
    PassShape(batches, s, (bi, 0));
    var ops := s.tail[bi].ops;
    forall k | 0 <= k < |ops| ensures ops[k] == Some(batches[bi].ops[k]) {
      UnvisitedPlace(batches, s, bi, k);
    }
    assert ops == Filled(batches[bi].ops);
    AliveFilled(batches[bi].ops);
  }

  lemma UnvisitedPlace(batches: seq<PendingBatch>, s: Pass, bi: nat, k: nat)
    requires bi < |batches| && k < |batches[bi].ops| && PassOk(batches, s, (bi, 0))
    ensures At(s.tail, (bi, k)) == Some(batches[bi].ops[k])
  {
    assert At(s.tail, (bi, k)) == At(Opened(batches), (bi, k));
  }

  lemma LastStands(batches: seq<PendingBatch>, s: Pass, bi: nat, key: Key)
    requires bi <= |batches| && PassOk(batches, s, (bi, 0)) && key in s.last
    ensures var h := s.last[key].0;
      h.0 < bi <= |s.tail| && At(s.tail, h).Some? && KeyOf(At(s.tail, h).value) == key && Quiet(s.tail, key, h, (bi, 0))
  {
    PassShape(batches, s, (bi, 0));
    var h := s.last[key].0;
    assert Before(h, (bi, 0));
    forall p | Before(h, p) && Before(p, (bi, 0)) && At(s.tail, p).Some? ensures KeyOf(At(s.tail, p).value) != key {
      assert Covered(s.last, s.gating, At(s.tail, p).value, p);
    }
  }

  /** Where a merge takes the row's last operation from. */
  lemma MergeSplit(batches: seq<PendingBatch>, s: Pass, bi: nat, fits: RowOp -> bool, q: RowOp) returns (at: nat,
                   p: RowOp)
    requires bi < |batches| && PassOk(batches, s, (bi, 0)) && At(s.tail, (bi, 0)) == Some(q)
    requires MergeAt(s, bi, 0, fits).Some?
    ensures at < bi < |s.tail| == |batches| && |s.tail[at].ops| == 1 && |s.tail[bi].ops| == 1
    ensures Coalesce(p, q, fits) == MergeAt(s, bi, 0, fits) && KeyOf(p) == KeyOf(q)
    ensures Visited(s, bi, 0, fits).tail == FoldInto(s.tail, (at, 0), (bi, 0), MergeAt(s, bi, 0, fits).value)
    ensures Contents(s.tail)[at] == [p]
    ensures forall j :: at < j < bi ==> Filter(Contents(s.tail)[j], KeyOf(q)) == []
  {
    PassShape(batches, s, (bi, 0));
    MergeShape(s, bi, 0, fits);
    at := s.last[KeyOf(q)].0.0;
    p := s.tail[at].ops[0].value;
    CoalesceParts(p, q, fits);
    SingleAlive(s.tail[at].ops);
    LastStands(batches, s, bi, KeyOf(q));
    QuietBatches(s.tail, (at, 0), bi, KeyOf(q));
  }

  /** Folding other rows' operations keeps a row's operations in every batch. */
  lemma FoldedElsewhere(bs: seq<seq<RowOp>>, at: nat, bi: nat, p: RowOp, q: RowOp, m: RowOp, n: nat, key: Key)
    requires at < bi < |bs| && n <= |bs| && bs[at] == [p] && bs[bi] == [q]
    requires KeyOf(p) != key && KeyOf(q) != key && KeyOf(m) != key
    ensures RowOps(Folded(bs, at, bi, m)[..n], key) == RowOps(bs[..n], key)
  {
    FilterOne(p, key);
    FilterOne(q, key);
    FilterOne(m, key);
    SameFilters(bs[..n], Folded(bs, at, bi, m)[..n], key);
  }

  /** Two passes agree on a row: its operations so far and its table entry. */
  ghost predicate Agree(s: Pass, n: nat, t: Pass, k: nat, key: Key) {
    && n <= |s.tail| == |t.tail| && k <= |t.tail| && Seen(t, k, key) == Seen(s, n, key)
    && (key in t.last <==> key in s.last) && (key in s.last ==> t.last[key] == s.last[key])
  }

  lemma FoldedSeen(tail: seq<Slot>, at: nat, bi: nat, p: RowOp, q: RowOp, m: RowOp, key: Key)
    requires at < bi < |tail| && tail[at].ops == [Some(p)] && tail[bi].ops == [Some(q)]
    requires KeyOf(p) != key && KeyOf(q) != key && KeyOf(m) != key
    ensures RowOps(Contents(FoldInto(tail, (at, 0), (bi, 0), m))[..bi + 1], key) == RowOps(Contents(tail)[..bi + 1],
      key)
  {
    FoldedContents(tail, at, bi, m);
    SingleAlive(tail[at].ops);
    SingleAlive(tail[bi].ops);
    FoldedElsewhere(Contents(tail), at, bi, p, q, m, bi + 1, key);
  }

  lemma {:induction false} FoldOther(s: Pass, bi: nat, fits: RowOp -> bool, key: Key)
    requires At(s.tail, (bi, 0)).Some? && KeyOf(At(s.tail, (bi, 0)).value) != key && MergeAt(s, bi, 0, fits).Some?
    ensures bi < |s.tail| == |Visited(s, bi, 0, fits).tail|
    ensures Seen(Visited(s, bi, 0, fits), bi + 1, key) == Seen(s, bi + 1, key)
  {
    MergeShape(s, bi, 0, fits);
    var q, m := At(s.tail, (bi, 0)).value, MergeAt(s, bi, 0, fits).value;
    var at := s.last[KeyOf(q)].0.0;
    var p := s.tail[at].ops[0].value;
    CoalesceParts(p, q, fits);
    assert s.tail[at].ops == [Some(p)] && s.tail[bi].ops == [Some(q)];
    FoldedSeen(s.tail, at, bi, p, q, m, key);
  }

  /** Visiting an operation of another row leaves a row's operations and its table entry. */
  lemma VisitOther(batches: seq<PendingBatch>, s: Pass, bi: nat, oi: nat, fits: RowOp -> bool, key: Key)
    requires bi < |batches| && oi < |batches[bi].ops| && PassOk(batches, s, (bi, oi))
    requires KeyOf(batches[bi].ops[oi]) != key
    ensures |s.tail| == |batches| && Agree(s, bi + 1, Visited(s, bi, oi, fits), bi + 1, key)
  {
    PassShape(batches, s, (bi, oi));
    if MergeAt(s, bi, oi, fits).Some? {
      MergeShape(s, bi, oi, fits);
      FoldOther(s, bi, fits, key);
    }
  }

  lemma {:induction false} BatchOtherTo(batches: seq<PendingBatch>, s: Pass, bi: nat, k: nat, fits: RowOp -> bool,
                                        key: Key)
    requires bi < |batches| && k < |batches[bi].ops| && Filter(batches[bi].ops, key) == [] &&
      PassOk(batches, s, (bi, 0))
    requires Agree(s, bi, BatchTo(s, bi, k, fits), bi + 1, key)
    ensures Agree(s, bi, BatchTo(s, bi, k + 1, fits), bi + 1, key)
  {
    BatchOk(batches, s, bi, k, fits);
    NotFiltered(batches[bi].ops, k, key);
    VisitOther(batches, BatchTo(s, bi, k, fits), bi, k, fits, key);
  }

  lemma {:induction false} BatchOtherStart(batches: seq<PendingBatch>, s: Pass, bi: nat, fits: RowOp -> bool, key: Key)
    requires bi < |batches| && Filter(batches[bi].ops, key) == [] && PassOk(batches, s, (bi, 0))
    ensures |s.tail| == |batches| && Agree(s, bi, BatchTo(s, bi, 0, fits), bi + 1, key)
  {
    UnvisitedBatch(batches, s, bi);
    RowOpsNext(Contents(s.tail), bi, key);
    assert Seen(s, bi, key) + [] == Seen(s, bi, key);
  }

  /** A batch without the row leaves the row's operations and table entry. */
  lemma {:induction false} BatchOther(batches: seq<PendingBatch>, bi: nat, fits: RowOp -> bool, key: Key)
    requires bi < |batches| && Filter(batches[bi].ops, key) == []
    ensures |PassTo(batches, bi, fits).tail| == |batches|
    ensures Agree(PassTo(batches, bi, fits), bi, PassTo(batches, bi + 1, fits), bi + 1, key)
  {
    var s := PassTo(batches, bi, fits);
    PassKept(batches, bi, fits);
    BatchOtherStart(batches, s, bi, fits, key);
    for k := 0 to |batches[bi].ops|
      invariant exists m: nat :: m == k && Agree(s, bi, BatchTo(s, bi, m, fits), bi + 1, key)
    {
      BatchOtherTo(batches, s, bi, k, fits, key);
    }
  }

  lemma {:induction false} NotFiltered(ops: seq<RowOp>, k: nat, key: Key)
    requires k < |ops| && Filter(ops, key) == []
    ensures KeyOf(ops[k]) != key
    decreases |ops|
  {
    if k == 0 {
    } else {
      NotFiltered(ops[1..], k - 1, key);
    }
  }

  /** The table knows the row's last operation. */
  lemma PrevIsLast(batches: seq<PendingBatch>, s: Pass, bi: nat, op: RowOp)
    requires bi < |batches| && PassOk(batches, s, (bi, 0))
    ensures |s.tail| == |batches|
    ensures var l := Seen(s, bi, KeyOf(op)); PrevOp(s, op) == if l == [] then None else Some(l[|l| - 1])
    ensures KeyOf(op) in s.last <==> Seen(s, bi, KeyOf(op)) != []
  {
    PassShape(batches, s, (bi, 0));
    var key, bs := KeyOf(op), Contents(s.tail)[..bi];
    if key in s.last {
      LastStands(batches, s, bi, key);
      LastRowOp(s.tail, s.last[key].0, bi, key);
    } else {
      forall j | 0 <= j < bi ensures Filter(bs[j], key) == [] {
        UnseenBatch(batches, s, bi, j, key);
      }
      RowOpsNone(bs, key);
    }
  }

  lemma UnseenBatch(batches: seq<PendingBatch>, s: Pass, bi: nat, j: nat, key: Key)
    requires j < bi <= |batches| && PassOk(batches, s, (bi, 0)) && key !in s.last
    ensures j < |s.tail| && Filter(Contents(s.tail)[j], key) == []
  {
    PassShape(batches, s, (bi, 0));
    var ops := s.tail[j].ops;
    forall k | 0 <= k < |ops| && ops[k].Some? ensures KeyOf(ops[k].value) != key {
      assert At(s.tail, (j, k)) == ops[k];
      assert Covered(s.last, s.gating, ops[k].value, (j, k));
    }
    AliveFilterNone(ops, key);
  }

  /** A batch holding one operation of the row alone: it is added, or it
      absorbs the row's last one. */
  lemma BatchOwn(batches: seq<PendingBatch>, bi: nat, fits: RowOp -> bool, q: RowOp)
    requires bi < |batches| && batches[bi].ops == [q]
    ensures var s, t, key := PassTo(batches, bi, fits), PassTo(batches, bi + 1, fits), KeyOf(q);
      && |t.tail| == |s.tail| == |batches| && t == Visited(s, bi, 0, fits) && At(s.tail, (bi, 0)) == Some(q)
      && var l := Seen(s, bi, key);
      && PrevOp(s, q) == (if l == [] then None else Some(l[|l| - 1]))
      && (key in s.last <==> l != [])
      && key in t.last && t.last[key].1 == HeadsRun(q, PrevOp(s, q))
      && (MergeAt(s, bi, 0, fits).None? ==> Seen(t, bi + 1, key) == l + [q])
      && (MergeAt(s, bi, 0, fits).Some? ==> l != [] && Coalesce(l[|l| - 1], q, fits) == MergeAt(s, bi, 0, fits))
      && (MergeAt(s, bi, 0, fits).Some? ==> Seen(t, bi + 1, key) == l[..|l| - 1] + [MergeAt(s, bi, 0, fits).value])
  {
    var s, key := PassTo(batches, bi, fits), KeyOf(q);
    PassKept(batches, bi, fits);
    UnvisitedPlace(batches, s, bi, 0);
    assert BatchTo(s, bi, 1, fits) == Visited(BatchTo(s, bi, 0, fits), bi, 0, fits);
    PrevIsLast(batches, s, bi, q);
    UnvisitedBatch(batches, s, bi);
    RowOpsNext(Contents(s.tail), bi, key);
    FilterOne(q, key);
    if MergeAt(s, bi, 0, fits).Some? {
      MergedSeen(batches, s, bi, fits, q);
    }
  }

  lemma MergedSeen(batches: seq<PendingBatch>, s: Pass, bi: nat, fits: RowOp -> bool, q: RowOp)
    requires bi < |batches| && PassOk(batches, s, (bi, 0)) && At(s.tail, (bi, 0)) == Some(q)
    requires MergeAt(s, bi, 0, fits).Some?
    ensures |s.tail| == |batches| == |Visited(s, bi, 0, fits).tail|
    ensures var l, key := Seen(s, bi, KeyOf(q)), KeyOf(q);
      && l != [] && Coalesce(l[|l| - 1], q, fits) == MergeAt(s, bi, 0, fits)
      && Seen(Visited(s, bi, 0, fits), bi + 1, key) == l[..|l| - 1] + [MergeAt(s, bi, 0, fits).value]
  {
    var at, p := MergeSplit(batches, s, bi, fits, q);
    var bs, m := Contents(s.tail), MergeAt(s, bi, 0, fits).value;
    CoalesceParts(p, q, fits);
    FoldedContents(s.tail, at, bi, m);
    FoldedSplit(bs, at, bi, p, m, KeyOf(q));
  }

  lemma FoldedSplit(bs: seq<seq<RowOp>>, at: nat, bi: nat, p: RowOp, m: RowOp, key: Key)
    requires at < bi < |bs| && bs[at] == [p] && KeyOf(p) == KeyOf(m) == key
    requires forall j :: at < j < bi ==> Filter(bs[j], key) == []
    ensures var l := RowOps(bs[..bi], key);
      l != [] && l[|l| - 1] == p && RowOps(Folded(bs, at, bi, m)[..bi + 1], key) == l[..|l| - 1] + [m]
  {
    assert bs[..bi] == bs[..at] + ([[p]] + bs[at + 1..bi]);
    assert Folded(bs, at, bi, m)[..bi + 1] == bs[..at] + ([[]] + (bs[at + 1..bi] + [[m]]));
    MergedRowOps(bs[..at], p, bs[at + 1..bi], m, key);
  }

  lemma {:induction false} MergedRowOps(x: seq<seq<RowOp>>, p: RowOp, y: seq<seq<RowOp>>, m: RowOp, key: Key)
    requires KeyOf(p) == KeyOf(m) == key && forall j :: 0 <= j < |y| ==> Filter(y[j], key) == []
    ensures RowOps(x + ([[p]] + y), key) == RowOps(x, key) + [p]
    ensures RowOps(x + ([[]] + (y + [[m]])), key) == RowOps(x, key) + [m]
  {
    RowOpsNone(y, key);
    FilterOne(p, key);
    FilterOne(m, key);
    RowOpsConcat(x, [[p]] + y, key);
    RowOpsConcat([[p]], y, key);
    RowOpsOne([p], key);
    RowOpsConcat(x, [[]] + (y + [[m]]), key);
    RowOpsConcat([[]], y + [[m]], key);
    RowOpsOne([], key);
    RowOpsConcat(y, [[m]], key);
    RowOpsOne([m], key);
    assert [] + ([] + [m]) == [m];
  }

  // ── writes that always merge ──────────────────────────────────────────────

  /** No deletes, and each upsert covers the fields written before it with
      newer clocks. */
  ghost predicate Covering(ops: seq<RowOp>) {
    && (forall i :: 0 <= i < |ops| ==> ops[i].op != Delete)
    && (forall i, j :: 0 <= i < j < |ops| && ops[j].op == Upsert ==> Shadows(ops[j], ops[i]))
  }

  /** Both write field `k` alike: same value, same clock. */
  predicate WritesAlike(a: RowOp, b: RowOp, k: string) {
    k in Writes(a) && k in Writes(b) && Writes(a)[k] == Writes(b)[k] && ClockFor(a, k) == ClockFor(b, k)
  }

  ghost predicate DrawnField(op: RowOp, k: string, source: seq<RowOp>) {
    exists o :: o in source && WritesAlike(o, op, k)
  }

  /** Every write of the operation, and its own clock, come from some
      operation of `source`, as all that merging can make of `source` does. */
  ghost predicate Drawn(op: RowOp, source: seq<RowOp>) {
    && (exists o :: o in source && o.hlc == op.hlc)
    && (forall k :: k in Writes(op) ==> DrawnField(op, k, source))
  }

  /** No clock but of a field the operation writes. */
  predicate Tidy(op: RowOp) {
    op.clocks.Some? ==> op.clocks.value.Keys <= Writes(op).Keys
  }

  /** The room's size check accepts whatever merging can make of `source`.
      There are finitely many such operations, however many were written. */
  ghost predicate FitsDrawn(fits: RowOp -> bool, key: Key, source: seq<RowOp>) {
    forall op :: KeyOf(op) == key && Tidy(op) && Drawn(op, source) ==> fits(op)
  }

  ghost predicate CoveringFrom(ops: seq<RowOp>, source: seq<RowOp>) {
    Covering(ops) && forall i :: 0 <= i < |ops| ==> Drawn(ops[i], source)
  }

  lemma OwnSource(ops: seq<RowOp>)
    requires Covering(ops)
    ensures CoveringFrom(ops, ops)
  {
    forall i | 0 <= i < |ops| ensures Drawn(ops[i], ops) {
      assert ops[i] in ops;
      forall k | k in Writes(ops[i]) ensures DrawnField(ops[i], k, ops) {
        assert WritesAlike(ops[i], ops[i], k);
      }
    }
  }

  /** A merged operation is drawn from where its parts are. */
  lemma MergedDrawn(p: RowOp, q: RowOp, source: seq<RowOp>)
    requires MergedKind(p, q).Some? && Drawn(p, source) && Drawn(q, source)
    ensures var (op, hlc) := MergedKind(p, q).value;
      var m := OpOf(p.kind, p.id, op, hlc, MergedWrites(p, q));
      Tidy(m) && Drawn(m, source)
  {
    var (op, hlc) := MergedKind(p, q).value;
    var writes := MergedWrites(p, q);
    var m := OpOf(p.kind, p.id, op, hlc, writes);
    OpOfWrites(p.kind, p.id, op, hlc, writes);
    assert hlc == p.hlc || hlc == q.hlc;
    forall k | k in Writes(m) ensures DrawnField(m, k, source) {
      var from := if k in Writes(p) && !(k in Writes(q) && ClockFor(q, k) > ClockFor(p, k)) then p else q;
      assert DrawnField(from, k, source) && WritesAlike(from, m, k);
      var o :| o in source && WritesAlike(o, from, k);
      assert WritesAlike(o, m, k);
    }
  }

  /** The row's operations stand alone in their batches. */
  ghost predicate Alone(batches: seq<PendingBatch>, key: Key) {
    forall i :: 0 <= i < |batches| && Filter(batches[i].ops, key) != [] ==> |batches[i].ops| == 1
  }

  lemma CoveredMerges(p: RowOp, q: RowOp, fits: RowOp -> bool, source: seq<RowOp>)
    requires KeyOf(p) == KeyOf(q) && p.op != Delete && q.op != Delete && FitsDrawn(fits, KeyOf(p), source)
    requires Drawn(p, source) && Drawn(q, source)
    requires q.op == Upsert ==> Shadows(q, p)
    ensures Coalesce(p, q, fits).Some? && Drawn(Coalesce(p, q, fits).value, source)
  {
    MergedDrawn(p, q, source);
    var (op, hlc) := MergedKind(p, q).value;
    var merged := OpOf(p.kind, p.id, op, hlc, MergedWrites(p, q));
    assert KeyOf(merged) == KeyOf(p);
  }

  /** The merged operation covers what its parts cover and is covered by what covers both. */
  lemma MergeCovers(p: RowOp, q: RowOp, m: RowOp, fits: RowOp -> bool, a: RowOp)
    requires Coalesce(p, q, fits) == Some(m)
    ensures m.op != Delete && (m.op == Upsert ==> p.op == Upsert || q.op == Upsert)
    ensures m.op == Upsert && (p.op == Upsert ==> Shadows(p, a)) && (q.op == Upsert ==> Shadows(q, a)) ==> Shadows(m, a)
    ensures Shadows(a, p) && Shadows(a, q) ==> Shadows(a, m)
  {
    CoalesceParts(p, q, fits);
    forall k | k in Writes(m) ensures Write(Writes(m)[k], ClockFor(m, k)) == MergedWrites(p, q)[k] {
    }
  }

  lemma CoveringMerge(x: seq<RowOp>, p: RowOp, q: RowOp, m: RowOp, z: seq<RowOp>, fits: RowOp -> bool)
    requires Covering(x + ([p, q] + z)) && Coalesce(p, q, fits) == Some(m)
    ensures Covering(x + ([m] + z))
  {
    var before, after, n := x + ([p, q] + z), x + ([m] + z), |x|;
    assert before[n] == p && before[n + 1] == q && after[n] == m;
    assert forall i :: n < i < |after| ==> after[i] == before[i + 1];
    MergeCovers(p, q, m, fits, m);
    forall i | 0 <= i < |after| ensures after[i].op != Delete {
      assert i < n ==> after[i] == before[i];
    }
    forall i, j | 0 <= i < j < |after| && after[j].op == Upsert ensures Shadows(after[j], after[i]) {
      if i == n {
        MergeCovers(p, q, m, fits, after[j]);
        assert Shadows(before[j + 1], before[n]) && Shadows(before[j + 1], before[n + 1]);
      } else if j == n {
        MergeCovers(p, q, m, fits, after[i]);
        assert before[n].op == Upsert ==> Shadows(before[n], before[i]);
        assert before[n + 1].op == Upsert ==> Shadows(before[n + 1], before[i]);
      } else {
        assert Shadows(before[if j < n then j else j + 1], before[if i < n then i else i + 1]);
      }
    }
  }

  lemma DrawnMerge(x: seq<RowOp>, p: RowOp, q: RowOp, m: RowOp, z: seq<RowOp>, source: seq<RowOp>)
    requires var ops := x + ([p, q] + z); forall i :: 0 <= i < |ops| ==> Drawn(ops[i], source)
    requires Drawn(m, source)
    ensures var ops := x + ([m] + z); forall i :: 0 <= i < |ops| ==> Drawn(ops[i], source)
  {
    var before, after := x + ([p, q] + z), x + ([m] + z);
    forall i | 0 <= i < |after| ensures Drawn(after[i], source) {
      assert after[i] == if i == |x| then m else before[if i < |x| then i else i + 1];
    }
  }

  lemma {:induction false} Filtered(ops: seq<RowOp>, k: nat)
    requires k < |ops|
    ensures Filter(ops, KeyOf(ops[k])) != []
  {
    if Filter(ops, KeyOf(ops[k])) == [] {
      NotFiltered(ops, k, KeyOf(ops[k]));
    }
  }

  lemma OwnSlotSingle(batches: seq<PendingBatch>, s: Pass, bi: nat, key: Key)
    requires bi < |batches| && PassOk(batches, s, (bi, 0)) && key in s.last && Alone(batches, key)
    ensures var at := s.last[key].0.0; at < bi && at < |s.tail| && |s.tail[at].ops| == 1
  {
    LastStands(batches, s, bi, key);
    PassShape(batches, s, (bi, 0));
    var (at, k) := s.last[key].0;
    assert SlotFrom(s.tail[at], batches[at]);
    if |batches[at].ops| != 1 {
      assert At(s.tail, (at, k)) == Some(batches[at].ops[k]);
      Filtered(batches[at].ops, k);
    }
  }

  /** A merge the rules allow happens. */
  lemma MergeHappens(batches: seq<PendingBatch>, s: Pass, bi: nat, fits: RowOp -> bool, q: RowOp, p: RowOp)
    requires bi < |batches| && PassOk(batches, s, (bi, 0)) && At(s.tail, (bi, 0)) == Some(q) && batches[bi].ops == [q]
    requires Alone(batches, KeyOf(q)) && PrevOp(s, q) == Some(p) && Coalesce(p, q, fits).Some?
    requires MayMove(s.last, s.gating, s.last[KeyOf(q)].0, s.last[KeyOf(q)].1, p, q, HeadsRun(q, Some(p)))
    ensures MergeAt(s, bi, 0, fits).Some?
  {
    OwnSlotSingle(batches, s, bi, KeyOf(q));
    PassShape(batches, s, (bi, 0));
  }

  /** Where a row stands when the pass has visited `n` batches: its remaining
      operations, those still queued and those to come cover each other. */
  ghost predicate StillCovering(batches: seq<PendingBatch>, n: nat, fits: RowOp -> bool, key: Key, future: seq<RowOp>,
                                source: seq<RowOp>)
    requires n <= |batches|
  {
    var s := PassTo(batches, n, fits);
    |s.tail| == |batches| && CoveringFrom(Seen(s, n, key) + (RowOps(BatchOps(batches)[n..], key) + future), source)
  }

  lemma {:induction false} SingleOwn(ops: seq<RowOp>, key: Key)
    requires |ops| == 1 && Filter(ops, key) != []
    ensures KeyOf(ops[0]) == key && Filter(ops, key) == ops
  {
    assert ops == [ops[0]];
    FilterOne(ops[0], key);
  }

  lemma CoveringOwn(l: seq<RowOp>, q: RowOp, z: seq<RowOp>, fits: RowOp -> bool, key: Key, source: seq<RowOp>)
    requires CoveringFrom(l + ([q] + z), source) && KeyOf(q) == key && FitsDrawn(fits, key, source)
    requires forall op :: op in l ==> KeyOf(op) == key
    ensures l != [] ==> l[|l| - 1].op != Delete && Coalesce(l[|l| - 1], q, fits).Some?
    ensures CoveringFrom((l + [q]) + z, source)
    ensures l != [] ==> CoveringFrom((l[..|l| - 1] + [Coalesce(l[|l| - 1], q, fits).value]) + z, source)
  {
    var all := l + ([q] + z);
    assert (l + [q]) + z == all;
    if l != [] {
      var x, p := l[..|l| - 1], l[|l| - 1];
      assert all[|l| - 1] == p && all[|l|] == q;
      assert q.op == Upsert ==> Shadows(all[|l|], all[|l| - 1]);
      assert p in l;
      CoveredMerges(p, q, fits, source);
      var m := Coalesce(p, q, fits).value;
      assert all == x + ([p, q] + z);
      CoveringMerge(x, p, q, m, z, fits);
      DrawnMerge(x, p, q, m, z, source);
      assert (x + [m]) + z == x + ([m] + z);
    }
  }

  /** The operation about to be visited heads what is still queued. */
  lemma {:induction false} CoveringBefore(batches: seq<PendingBatch>, n: nat, fits: RowOp -> bool, q: RowOp,
                                          future: seq<RowOp>, source: seq<RowOp>)
    requires n < |batches| && batches[n].ops == [q] && StillCovering(batches, n, fits, KeyOf(q), future, source)
    ensures CoveringFrom(Seen(PassTo(batches, n, fits), n, KeyOf(q)) +
      ([q] + (RowOps(BatchOps(batches)[n + 1..], KeyOf(q)) + future)), source)
  {
    var rest := RowOps(BatchOps(batches)[n + 1..], KeyOf(q));
    assert RowOps(BatchOps(batches)[n..], KeyOf(q)) == [q] + rest by {
      RowOpsRest(BatchOps(batches), n, KeyOf(q));
      FilterOne(q, KeyOf(q));
    }
    assert ([q] + rest) + future == [q] + (rest + future);
  }

  lemma {:induction false} CoveringOwnBatch(batches: seq<PendingBatch>, n: nat, fits: RowOp -> bool, q: RowOp,
                                            future: seq<RowOp>, source: seq<RowOp>)
    requires n < |batches| && batches[n].ops == [q] && FitsDrawn(fits, KeyOf(q), source) &&
      StillCovering(batches, n, fits, KeyOf(q), future, source)
    ensures StillCovering(batches, n + 1, fits, KeyOf(q), future, source)
    ensures var l := Seen(PassTo(batches, n, fits), n, KeyOf(q));
      l != [] ==> l[|l| - 1].op != Delete && Coalesce(l[|l| - 1], q, fits).Some?
  {
    CoveringBefore(batches, n, fits, q, future, source);
    RowOpsKeys(Contents(PassTo(batches, n, fits).tail)[..n], KeyOf(q));
    CoveringOwn(Seen(PassTo(batches, n, fits), n, KeyOf(q)), q, RowOps(BatchOps(batches)[n + 1..], KeyOf(q)) + future,
      fits, KeyOf(q), source);
    BatchOwn(batches, n, fits, q);
  }

  /** One more batch. */
  lemma CoveringNext(batches: seq<PendingBatch>, n: nat, fits: RowOp -> bool, key: Key, future: seq<RowOp>,
                     source: seq<RowOp>)
    requires n < |batches| && Alone(batches, key) && FitsDrawn(fits, key, source) &&
      StillCovering(batches, n, fits, key, future, source)
    ensures StillCovering(batches, n + 1, fits, key, future, source)
  {
    if Filter(batches[n].ops, key) == [] {
      RowOpsRest(BatchOps(batches), n, key);
      BatchOther(batches, n, fits, key);
      assert [] + RowOps(BatchOps(batches)[n + 1..], key) == RowOps(BatchOps(batches)[n + 1..], key);
    } else {
      SingleOwn(batches[n].ops, key);
      assert batches[n].ops == [batches[n].ops[0]];
      CoveringOwnBatch(batches, n, fits, batches[n].ops[0], future, source);
    }
  }

  // ── chats that gate no notification ───────────────────────────────────────

  /** No chat operation of the session's chat gates its notifications. */
  ghost predicate Ungated(tail: seq<Slot>, gating: GatingChats, id: string) {
    id !in gating && forall p :: At(tail, p).Some? && KeyOf(At(tail, p).value) == (CHATS, id) ==>
      !ChatGates(At(tail, p).value)
  }

  lemma UngatedMerge(p: RowOp, q: RowOp, m: RowOp, fits: RowOp -> bool)
    requires Coalesce(p, q, fits) == Some(m) && !ChatGates(p) && !ChatGates(q)
    ensures !ChatGates(m)
  {
    CoalesceParts(p, q, fits);
  }

  lemma UngatedVisit(s: Pass, bi: nat, oi: nat, fits: RowOp -> bool, id: string)
    requires Ungated(s.tail, s.gating, id)
    ensures Ungated(Visited(s, bi, oi, fits).tail, Visited(s, bi, oi, fits).gating, id)
  {
    if At(s.tail, (bi, oi)).Some? && MergeAt(s, bi, oi, fits).Some? {
      var q, m := At(s.tail, (bi, oi)).value, MergeAt(s, bi, oi, fits).value;
      var at := s.last[KeyOf(q)].0;
      var p := At(s.tail, at).value;
      CoalesceParts(p, q, fits);
      if KeyOf(q) == (CHATS, id) {
        UngatedMerge(p, q, m, fits);
      }
      forall x ensures At(Visited(s, bi, oi, fits).tail, x) == if x == at then None else if x == (bi,
        oi) then Some(m) else At(s.tail, x) {
        FoldIntoAt(s.tail, at, (bi, oi), m, x);
      }
    }
  }

  ghost predicate UngatedQueue(batches: seq<PendingBatch>, id: string) {
    forall op :: op in RowOps(BatchOps(batches), (CHATS, id)) ==> !ChatGates(op)
  }

  lemma {:induction false} InRowOps(bs: seq<seq<RowOp>>, j: nat, op: RowOp)
    requires j < |bs| && op in bs[j]
    ensures op in RowOps(bs, KeyOf(op))
    decreases j
  {
    if j == 0 {
      InFilter(bs[0], op);
    } else {
      assert bs[1..][j - 1] == bs[j];
      InRowOps(bs[1..], j - 1, op);
    }
  }

  lemma {:induction false} UngatedPass(batches: seq<PendingBatch>, n: nat, fits: RowOp -> bool, id: string)
    requires n <= |batches| && UngatedQueue(batches, id)
    ensures Ungated(PassTo(batches, n, fits).tail, PassTo(batches, n, fits).gating, id)
  {
    if n == 0 {
      forall p: Pos | At(Opened(batches), p).Some? && KeyOf(At(Opened(batches), p).value) == (CHATS, id)
        ensures !ChatGates(At(Opened(batches), p).value)
      {
        InRowOps(BatchOps(batches), p.0, batches[p.0].ops[p.1]);
      }
    } else {
      UngatedPass(batches, n - 1, fits, id);
      var s := PassTo(batches, n - 1, fits);
      for k := 0 to |batches[n - 1].ops|
        invariant Ungated(BatchTo(s, n - 1, k, fits).tail, BatchTo(s, n - 1, k, fits).gating, id)
      {
        UngatedVisit(BatchTo(s, n - 1, k, fits), n - 1, k, fits, id);
      }
    }
  }

  // ── rows that no notification depends on ──────────────────────────────────

  /** No operation of the session is queued. */
  ghost predicate SessionAbsent(batches: seq<PendingBatch>, id: string) {
    forall i :: 0 <= i < |batches| ==> Filter(batches[i].ops, (SESSIONS, id)) == []
  }

  /** A row whose operations may always move: no session row, and no chat row
      of a session written in the queue, unless its operations gate nothing. */
  ghost predicate Free(batches: seq<PendingBatch>, key: Key) {
    key.0 != SESSIONS && (key.0 == CHATS ==> SessionAbsent(batches, key.1) || UngatedQueue(batches, key.1))
  }

  ghost predicate NeverSeen(batches: seq<PendingBatch>, n: nat, fits: RowOp -> bool, key: Key) {
    n <= |batches| && |PassTo(batches, n, fits).tail| == |batches|
    && key !in PassTo(batches, n, fits).last && Seen(PassTo(batches, n, fits), n, key) == []
  }

  lemma {:induction false} NeverSeenNext(batches: seq<PendingBatch>, n: nat, fits: RowOp -> bool, key: Key)
    requires n < |batches| && Filter(batches[n].ops, key) == [] && NeverSeen(batches, n, fits, key)
    ensures NeverSeen(batches, n + 1, fits, key)
  {
    BatchOther(batches, n, fits, key);
  }

  /** A row without operations in the queue never enters the tables. */
  lemma {:induction false} AbsentStays(batches: seq<PendingBatch>, n: nat, fits: RowOp -> bool, key: Key)
    requires n <= |batches| && forall i :: 0 <= i < |batches| ==> Filter(batches[i].ops, key) == []
    ensures NeverSeen(batches, n, fits, key)
  {
    assert NeverSeen(batches, 0, fits, key);
    for k := 0 to n
      invariant exists m: nat :: m == k && NeverSeen(batches, m, fits, key)
    {
      NeverSeenNext(batches, k, fits, key);
    }
  }

  lemma {:induction false} FreeMerges(batches: seq<PendingBatch>, n: nat, fits: RowOp -> bool, q: RowOp, p: RowOp)
    requires n < |batches| && batches[n].ops == [q] && Alone(batches, KeyOf(q)) && Free(batches, KeyOf(q))
    requires At(PassTo(batches, n, fits).tail, (n, 0)) == Some(q) && PrevOp(PassTo(batches, n, fits), q) == Some(p)
    requires Coalesce(p, q, fits).Some?
    ensures MergeAt(PassTo(batches, n, fits), n, 0, fits).Some?
  {
    PassKept(batches, n, fits);
    if q.kind == CHATS {
      if SessionAbsent(batches, q.id) {
        AbsentStays(batches, n, fits, (SESSIONS, q.id));
      } else {
        UngatedPass(batches, n, fits, q.id);
        CoalesceParts(p, q, fits);
      }
    }
    MergeHappens(batches, PassTo(batches, n, fits), n, fits, q, p);
  }

  ghost predicate FreeKept(batches: seq<PendingBatch>, n: nat, fits: RowOp -> bool, key: Key, future: seq<RowOp>,
                           source: seq<RowOp>) {
    && n <= |batches| && StillCovering(batches, n, fits, key, future, source) &&
      |Seen(PassTo(batches, n, fits), n, key)| <= 1
  }

  /** The row's own batch merges when the row has an operation left. */
  lemma {:induction false} FreeOwnMerges(batches: seq<PendingBatch>, n: nat, fits: RowOp -> bool, q: RowOp,
                                         future: seq<RowOp>, source: seq<RowOp>)
    requires n < |batches| && batches[n].ops == [q] && Alone(batches, KeyOf(q)) && FitsDrawn(fits, KeyOf(q), source) &&
      Free(batches, KeyOf(q))
    requires StillCovering(batches, n, fits, KeyOf(q), future, source)
    requires var l := Seen(PassTo(batches, n, fits), n, KeyOf(q));
      |l| == 1 && At(PassTo(batches, n, fits).tail, (n, 0)) == Some(q) &&
        PrevOp(PassTo(batches, n, fits), q) == Some(l[0])
    ensures MergeAt(PassTo(batches, n, fits), n, 0, fits).Some?
  {
    CoveringOwnBatch(batches, n, fits, q, future, source);
    FreeMerges(batches, n, fits, q, Seen(PassTo(batches, n, fits), n, KeyOf(q))[0]);
  }

  lemma {:induction false} FreeOwn(batches: seq<PendingBatch>, n: nat, fits: RowOp -> bool, q: RowOp,
                                   future: seq<RowOp>, source: seq<RowOp>)
    requires n < |batches| && batches[n].ops == [q] && Alone(batches, KeyOf(q)) && FitsDrawn(fits, KeyOf(q), source) &&
      Free(batches, KeyOf(q))
    requires FreeKept(batches, n, fits, KeyOf(q), future, source)
    ensures |PassTo(batches, n + 1, fits).tail| == |batches| &&
      |Seen(PassTo(batches, n + 1, fits), n + 1, KeyOf(q))| <= 1
  {
    BatchOwn(batches, n, fits, q);
    if Seen(PassTo(batches, n, fits), n, KeyOf(q)) != [] {
      FreeOwnMerges(batches, n, fits, q, future, source);
    }
  }

  lemma FreeNext(batches: seq<PendingBatch>, n: nat, fits: RowOp -> bool, key: Key, future: seq<RowOp>,
                 source: seq<RowOp>)
    requires n < |batches| && Alone(batches, key) && FitsDrawn(fits, key, source) && Free(batches, key)
    requires FreeKept(batches, n, fits, key, future, source)
    ensures FreeKept(batches, n + 1, fits, key, future, source)
  {
    CoveringNext(batches, n, fits, key, future, source);
    if Filter(batches[n].ops, key) == [] {
      BatchOther(batches, n, fits, key);
    } else {
      SingleOwn(batches[n].ops, key);
      assert batches[n].ops == [batches[n].ops[0]];
      FreeOwn(batches, n, fits, batches[n].ops[0], future, source);
    }
  }

  lemma FreeRowBound(batches: seq<PendingBatch>, fits: RowOp -> bool, key: Key, future: seq<RowOp>, source: seq<RowOp>)
    requires Alone(batches, key) && FitsDrawn(fits, key, source) && Free(batches, key)
    requires FreeKept(batches, 0, fits, key, future, source)
    ensures FreeKept(batches, |batches|, fits, key, future, source)
  {
    for n := 0 to |batches|
      invariant exists m: nat :: m == n && FreeKept(batches, m, fits, key, future, source)
    {
      FreeNext(batches, n, fits, key, future, source);
    }
  }

  // ── session rows ──────────────────────────────────────────────────────────

  /** The last operation carries another signal than the one before. */
  predicate StartsRun(ops: seq<RowOp>) {
    ops != [] && (|ops| == 1 || SessionSignal(ops[|ops| - 2]) != SessionSignal(ops[|ops| - 1]))
  }

  /** The three operations from `i` on carry one signal. */
  ghost predicate ThreeAlike(ops: seq<RowOp>, i: int) {
    0 <= i < |ops| - 2 && SessionSignal(ops[i]) == SessionSignal(ops[i + 1]) == SessionSignal(ops[i + 2])
  }

  /** No three operations in a row carry one signal. */
  ghost predicate AtMostTwo(ops: seq<RowOp>) {
    forall i :: !ThreeAlike(ops, i)
  }

  lemma {:induction false} AtMostTwoCounts(ops: seq<RowOp>)
    requires AtMostTwo(ops)
    ensures |ops| + (if StartsRun(ops) then 1 else 0) <= 2 * |Signals(ops)|
  {
    if ops == [] {
    } else {
      var front := ops[..|ops| - 1];
      forall i ensures !ThreeAlike(front, i) {
        assert !ThreeAlike(ops, i);
      }
      AtMostTwoCounts(front);
      assert !ThreeAlike(ops, |ops| - 3);
    }
  }

  /** The row's operations so far keep the signals of the raw ones, at most
      two for each run, and the table's mark says whether the last heads one. */
  ghost predicate RunsShape(l: seq<RowOp>, raw: seq<RowOp>, mark: Option<bool>) {
    && AtMostTwo(l) && Signals(l) == Signals(raw)
    && (mark.Some? <==> l != []) && (mark.Some? ==> (mark.value <==> StartsRun(l)))
  }

  function HeadMark(s: Pass, key: Key): Option<bool> {
    if key in s.last then Some(s.last[key].1) else None
  }

  /** An operation that is not merged, of a new run or right behind a head. */
  lemma RunGrows(l: seq<RowOp>, raw: seq<RowOp>, q: RowOp, mark: Option<bool>)
    requires RunsShape(l, raw, mark)
    requires l != [] && SessionSignal(l[|l| - 1]) == SessionSignal(q) ==> mark == Some(true)
    ensures RunsShape(l + [q], raw + [q], Some(l == [] || SessionSignal(l[|l| - 1]) != SessionSignal(q)))
  {
    SignalsSnoc(raw, q);
    SignalsSnoc(l, q);
    TwoOfOne(l, q);
  }

  /** A follower right behind a run head, or a new head. */
  lemma TwoOfOne(l: seq<RowOp>, q: RowOp)
    requires AtMostTwo(l) && (l != [] && SessionSignal(l[|l| - 1]) == SessionSignal(q) ==> StartsRun(l))
    ensures AtMostTwo(l + [q])
  {
    var after := l + [q];
    forall i ensures !ThreeAlike(after, i) {
      assert !ThreeAlike(l, i);
    }
  }

  lemma SameRuns(a: seq<RowOp>, b: seq<RowOp>)
    requires |a| == |b| && forall i :: 0 <= i < |a| ==> SessionSignal(a[i]) == SessionSignal(b[i])
    ensures AtMostTwo(a) ==> AtMostTwo(b)
    ensures StartsRun(a) == StartsRun(b)
  {
    if AtMostTwo(a) {
      forall i ensures !ThreeAlike(b, i) {
        assert !ThreeAlike(a, i);
      }
    }
  }

  /** An operation that absorbs the last one of its run. */
  lemma RunMerges(l: seq<RowOp>, raw: seq<RowOp>, q: RowOp, m: RowOp, fits: RowOp -> bool)
    requires l != [] && RunsShape(l, raw, Some(false))
    requires Coalesce(l[|l| - 1], q, fits) == Some(m) && SessionSignal(l[|l| - 1]) == SessionSignal(q)
    ensures RunsShape(l[..|l| - 1] + [m], raw + [q], Some(false))
  {
    var x, p := l[..|l| - 1], l[|l| - 1];
    SignalOfFolded(p, q, fits);
    assert l == x + [p];
    SignalsSnoc(x, p);
    SignalsSnoc(x, m);
    SignalsSnoc(raw, q);
    SameRuns(l, x + [m]);
  }

  /** Where a session row stands when the pass has visited `n` batches. */
  ghost predicate RunsKept(batches: seq<PendingBatch>, n: nat, fits: RowOp -> bool, key: Key)
    requires n <= |batches|
  {
    var s := PassTo(batches, n, fits);
    |s.tail| == |batches| && RunsShape(Seen(s, n, key), RowOps(BatchOps(batches)[..n], key), HeadMark(s, key))
  }

  lemma RunsKeptOther(batches: seq<PendingBatch>, n: nat, fits: RowOp -> bool, key: Key)
    requires n < |batches| && RunsKept(batches, n, fits, key) && Filter(batches[n].ops, key) == []
    ensures RunsKept(batches, n + 1, fits, key)
  {
    var s, t := PassTo(batches, n, fits), PassTo(batches, n + 1, fits);
    BatchOther(batches, n, fits, key);
    RowOpsNext(BatchOps(batches), n, key);
    assert RowOps(BatchOps(batches)[..n], key) + [] == RowOps(BatchOps(batches)[..n], key);
    assert HeadMark(t, key) == HeadMark(s, key);
  }

  /** A session operation merges exactly when it and the one before continue a run. */
  lemma {:induction false} SessionMergesIff(batches: seq<PendingBatch>, n: nat, fits: RowOp -> bool, q: RowOp)
    requires n < |batches| && batches[n].ops == [q] && q.kind == SESSIONS && Alone(batches, KeyOf(q)) &&
      UngatedQueue(batches, q.id)
    requires At(PassTo(batches, n, fits).tail, (n, 0)) == Some(q)
    requires var s, p := PassTo(batches, n, fits), PrevOp(PassTo(batches, n, fits), q);
      p.Some? ==> p.value.op != Delete && Coalesce(p.value, q, fits).Some?
    ensures var s, p := PassTo(batches, n, fits), PrevOp(PassTo(batches, n, fits), q);
      MergeAt(s, n, 0, fits).Some? <==> p.Some? && SessionSignal(p.value) == SessionSignal(q) && !s.last[KeyOf(q)].1
  {
    var s := PassTo(batches, n, fits);
    PassKept(batches, n, fits);
    UngatedPass(batches, n, fits, q.id);
    if PrevOp(s, q).Some? && SessionSignal(PrevOp(s, q).value) == SessionSignal(q) && !s.last[KeyOf(q)].1 {
      MergeHappens(batches, s, n, fits, q, PrevOp(s, q).value);
    } else if MergeAt(s, n, 0, fits).Some? {
      MergeShape(s, n, 0, fits);
    }
  }

  lemma RunsKeptOwn(batches: seq<PendingBatch>, n: nat, fits: RowOp -> bool, q: RowOp, future: seq<RowOp>,
                    source: seq<RowOp>)
    requires n < |batches| && batches[n].ops == [q] && q.kind == SESSIONS && Alone(batches, KeyOf(q)) &&
      UngatedQueue(batches, q.id)
    requires FitsDrawn(fits, KeyOf(q), source) && StillCovering(batches, n, fits, KeyOf(q), future, source) &&
      RunsKept(batches, n, fits, KeyOf(q))
    ensures RunsKept(batches, n + 1, fits, KeyOf(q))
  {
    var s, t, key := PassTo(batches, n, fits), PassTo(batches, n + 1, fits), KeyOf(q);
    var l, raw := Seen(s, n, key), RowOps(BatchOps(batches)[..n], key);
    BatchOwn(batches, n, fits, q);
    CoveringOwnBatch(batches, n, fits, q, future, source);
    SessionMergesIff(batches, n, fits, q);
    RowOpsNext(BatchOps(batches), n, key);
    FilterOne(q, key);
    assert HeadMark(t, key) == Some(l == [] || SessionSignal(l[|l| - 1]) != SessionSignal(q));
    if MergeAt(s, n, 0, fits).Some? {
      RunMerges(l, raw, q, MergeAt(s, n, 0, fits).value, fits);
    } else {
      RunGrows(l, raw, q, HeadMark(s, key));
    }
  }

  ghost predicate SessionKept(batches: seq<PendingBatch>, n: nat, fits: RowOp -> bool, key: Key, future: seq<RowOp>,
                              source: seq<RowOp>) {
    n <= |batches| && StillCovering(batches, n, fits, key, future, source) && RunsKept(batches, n, fits, key)
  }

  lemma {:induction false} SessionNext(batches: seq<PendingBatch>, n: nat, fits: RowOp -> bool, key: Key,
                                       future: seq<RowOp>, source: seq<RowOp>)
    requires n < |batches| && Alone(batches, key) && FitsDrawn(fits, key, source) && key.0 == SESSIONS &&
      UngatedQueue(batches, key.1)
    requires SessionKept(batches, n, fits, key, future, source)
    ensures SessionKept(batches, n + 1, fits, key, future, source)
  {
    CoveringNext(batches, n, fits, key, future, source);
    if Filter(batches[n].ops, key) == [] {
      RunsKeptOther(batches, n, fits, key);
    } else {
      SingleOwn(batches[n].ops, key);
      assert batches[n].ops == [batches[n].ops[0]];
      RunsKeptOwn(batches, n, fits, batches[n].ops[0], future, source);
    }
  }

  lemma {:induction false} SessionRowBound(batches: seq<PendingBatch>, fits: RowOp -> bool, key: Key,
                                           future: seq<RowOp>, source: seq<RowOp>)
    requires Alone(batches, key) && FitsDrawn(fits, key, source) && key.0 == SESSIONS && UngatedQueue(batches, key.1)
    requires SessionKept(batches, 0, fits, key, future, source)
    ensures SessionKept(batches, |batches|, fits, key, future, source)
  {
    for n := 0 to |batches|
      invariant exists m: nat :: m == n && SessionKept(batches, m, fits, key, future, source)
    {
      SessionNext(batches, n, fits, key, future, source);
    }
  }

  // ── one compaction ────────────────────────────────────────────────────────

  lemma {:induction false} NothingToFold(s: Pass, n: nat, fits: RowOp -> bool)
    ensures BatchTo(s, 0, n, fits).tail == s.tail && BatchTo(s, 0, n, fits).folded == s.folded
  {
    if n == 0 {
    } else {
      NothingToFold(s, n - 1, fits);
    }
  }

  lemma SqueezedRowOps(batches: seq<PendingBatch>, fits: RowOp -> bool, key: Key)
    ensures |PassOf(batches, fits).tail| == |batches|
    ensures RowOps(Squeezed(batches, fits), key) == Seen(PassOf(batches, fits), |batches|, key)
  {
    var s := PassOf(batches, fits);
    PassIsInvisible(batches, fits);
    assert Contents(s.tail)[..|batches|] == Contents(s.tail);
    if |batches| == 1 {
      NothingToFold(PassTo(batches, 0, fits), |batches[0].ops|, fits);
    }
    if s.folded == 0 {
      OpenedContents(batches);
    }
    DropEmptyRowOps(Contents(s.tail), key);
  }

  lemma {:induction false} CoveringStart(batches: seq<PendingBatch>, fits: RowOp -> bool, key: Key, future: seq<RowOp>,
                                         source: seq<RowOp>)
    requires CoveringFrom(RowOps(BatchOps(batches), key) + future, source)
    ensures StillCovering(batches, 0, fits, key, future, source)
  {
    assert BatchOps(batches)[0..] == BatchOps(batches);
    var all := RowOps(BatchOps(batches), key) + future;
    assert [] + all == all;
  }

  lemma {:induction false} CoveringThroughout(batches: seq<PendingBatch>, n: nat, fits: RowOp -> bool, key: Key,
                                              future: seq<RowOp>, source: seq<RowOp>)
    requires n <= |batches| && Alone(batches, key) && FitsDrawn(fits, key, source)
    requires CoveringFrom(RowOps(BatchOps(batches), key) + future, source)
    ensures StillCovering(batches, n, fits, key, future, source)
  {
    CoveringStart(batches, fits, key, future, source);
    for k := 0 to n
      invariant exists m: nat :: m == k && StillCovering(batches, m, fits, key, future, source)
    {
      CoveringNext(batches, k, fits, key, future, source);
    }
  }

  lemma SqueezeCovers(batches: seq<PendingBatch>, fits: RowOp -> bool, key: Key, future: seq<RowOp>, source: seq<RowOp>)
    requires Alone(batches, key) && FitsDrawn(fits, key, source) &&
      CoveringFrom(RowOps(BatchOps(batches), key) + future, source)
    ensures CoveringFrom(RowOps(Squeezed(batches, fits), key) + future, source)
  {
    CoveringThroughout(batches, |batches|, fits, key, future, source);
    SqueezedRowOps(batches, fits, key);
    assert BatchOps(batches)[|batches|..] == [];
    assert [] + future == future;
  }

  /** The queue's operations of a row are a source of their own merges. */
  lemma QueueIsSource(batches: seq<PendingBatch>, fits: RowOp -> bool, key: Key)
    requires Covering(RowOps(BatchOps(batches), key))
    ensures StillCovering(batches, 0, fits, key, [], RowOps(BatchOps(batches), key))
  {
    var source := RowOps(BatchOps(batches), key);
    OwnSource(source);
    assert source + [] == source;
    CoveringStart(batches, fits, key, [], source);
  }

  /** Compacting leaves at most one operation of a row that no notification
      depends on, if the size check accepts what can be made of the row's
      queued writes. */
  lemma SqueezeFree(batches: seq<PendingBatch>, fits: RowOp -> bool, key: Key)
    requires Alone(batches, key) && Free(batches, key) && Covering(RowOps(BatchOps(batches), key))
    requires FitsDrawn(fits, key, RowOps(BatchOps(batches), key))
    ensures |RowOps(Squeezed(batches, fits), key)| <= 1
  {
    QueueIsSource(batches, fits, key);
    FreeRowBound(batches, fits, key, [], RowOps(BatchOps(batches), key));
    SqueezedRowOps(batches, fits, key);
  }

  /** Compacting leaves at most two operations of each run of one signal, and
      the signals as they were, under the same condition. */
  lemma SqueezeSession(batches: seq<PendingBatch>, fits: RowOp -> bool, key: Key)
    requires Alone(batches, key) && key.0 == SESSIONS && UngatedQueue(batches, key.1)
    requires Covering(RowOps(BatchOps(batches), key)) && FitsDrawn(fits, key, RowOps(BatchOps(batches), key))
    ensures var r := RowOps(Squeezed(batches, fits), key);
      AtMostTwo(r) && Signals(r) == Signals(RowOps(BatchOps(batches), key))
  {
    QueueIsSource(batches, fits, key);
    SessionRowBound(batches, fits, key, [], RowOps(BatchOps(batches), key));
    SqueezedRowOps(batches, fits, key);
    assert BatchOps(batches)[..|batches|] == BatchOps(batches);
  }

  // ── a size check that suffices ────────────────────────────────────────────

  /** The sum of the costs of some fields. */
  ghost function Total(fields: set<string>, cost: string -> nat): nat {
    if fields == {} then 0
    else
      var k :| k in fields;
      cost(k) + Total(fields - {k}, cost)
  }

  lemma {:induction false} TotalSplit(fields: set<string>, k: string, cost: string -> nat)
    requires k in fields
    ensures Total(fields, cost) == cost(k) + Total(fields - {k}, cost)
  {
    var first :| first in fields && Total(fields, cost) == cost(first) + Total(fields - {first}, cost);
    if first != k {
      TotalSplit(fields - {first}, k, cost);
      TotalSplit(fields - {k}, first, cost);
      assert fields - {first} - {k} == fields - {k} - {first};
    }
  }

  lemma {:induction false} TotalGrows(a: set<string>, b: set<string>, low: string -> nat, high: string -> nat)
    requires a <= b && forall k :: k in a ==> low(k) <= high(k)
    ensures Total(a, low) <= Total(b, high)
    decreases a
  {
    if a == {} {
    } else {
      var k :| k in a;
      TotalSplit(a, k, low);
      TotalSplit(b, k, high);
      TotalGrows(a - {k}, b - {k}, low, high);
    }
  }

  /** The room's limit on one serialized operation. */
  const MAX_OP_BYTES := 16 * 1024

  /** The bytes a field name takes in an operation with its value, if it is
      written, and its clock. */
  type Bytes = (string, Option<Value>, Clock) -> nat

  /** The fields an operation names, in its writes or among its clocks. */
  function Named(op: RowOp): set<string> {
    Writes(op).Keys + if op.clocks.Some? then op.clocks.value.Keys else {}
  }

  ghost function FieldBytes(op: RowOp, bytes: Bytes): nat {
    Total(Named(op), k => bytes(k, WriteOf(op, k), ClockFor(op, k)))
  }

  /** The size check: `head` bytes for the row, kind and clock, and the fields. */
  ghost predicate WithinBudget(op: RowOp, head: nat, bytes: Bytes) {
    head + FieldBytes(op, bytes) <= MAX_OP_BYTES
  }

  /** `cost` is at least what any write of a field in `source` takes. */
  ghost predicate CostOf(source: seq<RowOp>, bytes: Bytes, cost: string -> nat) {
    forall o, k :: o in source && k in Writes(o) ==> bytes(k, WriteOf(o, k), ClockFor(o, k)) <= cost(k)
  }

  /** The byte budget accepts every merge of `source` if the largest writes of
      all its fields fit it together. */
  lemma BudgetFits(source: seq<RowOp>, fields: set<string>, head: nat, bytes: Bytes, cost: string -> nat,
                   fits: RowOp -> bool, key: Key)
    requires forall op :: fits(op) <==> WithinBudget(op, head, bytes)
    requires forall o :: o in source ==> Writes(o).Keys <= fields
    requires CostOf(source, bytes, cost) && head + Total(fields, cost) <= MAX_OP_BYTES
    ensures FitsDrawn(fits, key, source)
  {
    forall op | KeyOf(op) == key && Tidy(op) && Drawn(op, source) ensures WithinBudget(op, head, bytes) {
      var low := k => bytes(k, WriteOf(op, k), ClockFor(op, k));
      assert Named(op) == Writes(op).Keys;
      forall k | k in Writes(op) ensures k in fields && low(k) <= cost(k) {
        assert DrawnField(op, k, source);
        var o :| o in source && WritesAlike(o, op, k);
        assert WriteOf(o, k) == WriteOf(op, k) && bytes(k, WriteOf(o, k), ClockFor(o, k)) <= cost(k);
      }
      TotalGrows(Named(op), fields, low, cost);
    }
  }

  /** The same check refuses an operation with one field above the limit. */
  lemma BudgetRefuses(op: RowOp, k: string, head: nat, bytes: Bytes)
    requires k in Named(op) && bytes(k, WriteOf(op, k), ClockFor(op, k)) > MAX_OP_BYTES
    ensures !WithinBudget(op, head, bytes)
  {
    TotalSplit(Named(op), k, f => bytes(f, WriteOf(op, f), ClockFor(op, f)));
  }
}
