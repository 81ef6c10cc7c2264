/** Run heads under compaction: the first operation of each signal run is
    neither folded away nor changed. */
module Heads {
  import opened Options
  import opened Rows
  import opened Notifications
  import opened Compaction
  import opened Compactor

  /** The operation at `p` heads a run of its session: the row's previous
      operation in the queue is missing, a delete, or of another signal. */
  ghost predicate HeadAt(batches: seq<PendingBatch>, p: Pos) {
    var op := At(Opened(batches), p);
    op.Some? && op.value.kind == SESSIONS && !Follows(Opened(batches), p)
  }

  /** `now` stands where `was` stood, with its signal. */
  ghost predicate StandsFor(was: Option<RowOp>, now: RowOp) {
    && was.Some? && KeyOf(was.value) == KeyOf(now) && SessionSignal(was.value) == SessionSignal(now)
    && (was.value.op == Delete <==> now.op == Delete)
  }

  /** A session operation stands where one of its row and signal was queued. */
  ghost predicate Standing(batches: seq<PendingBatch>, tail: seq<Slot>) {
    forall p :: At(tail, p).Some? && At(tail, p).value.kind == SESSIONS ==>
      StandsFor(At(Opened(batches), p), At(tail, p).value)
  }

  /** The table has the latest queued operation of each session. */
  ghost predicate LatestKnown(batches: seq<PendingBatch>, last: LastOps, here: Pos) {
    forall p :: Before(p, here) && At(Opened(batches), p).Some? && At(Opened(batches), p).value.kind == SESSIONS ==>
      KeyOf(At(Opened(batches), p).value) in last && !Before(last[KeyOf(At(Opened(batches), p).value)].0, p)
  }

  /** The table's mark says which operations head a run. */
  ghost predicate MarksHeads(batches: seq<PendingBatch>, last: LastOps) {
    forall key :: key in last && key.0 == SESSIONS ==> (last[key].1 <==> !Follows(Opened(batches), last[key].0))
  }

  /** The operation and the id of a run head's batch are as queued. */
  ghost predicate HeadKept(batches: seq<PendingBatch>, tail: seq<Slot>, p: Pos) {
    p.0 < |tail| && At(tail, p) == At(Opened(batches), p) && !tail[p.0].gained
  }

  ghost predicate HeadsKept(batches: seq<PendingBatch>, tail: seq<Slot>) {
    forall p :: HeadAt(batches, p) ==> HeadKept(batches, tail, p)
  }

  ghost predicate HeadsHold(batches: seq<PendingBatch>, s: Pass, here: Pos) {
    && Standing(batches, s.tail) && LatestKnown(batches, s.last, here)
    && MarksHeads(batches, s.last) && HeadsKept(batches, s.tail)
  }

  lemma FollowsLatest(batches: seq<PendingBatch>, last: LastOps, here: Pos, op: RowOp, h: Pos)
    requires At(Opened(batches), here) == Some(op) && op.kind == SESSIONS && LatestKnown(batches, last, here)
    requires RunHead(Opened(batches), h, here)
    requires KeyOf(op) in last ==>
      var lp := last[KeyOf(op)].0;
      Before(lp, here) && At(Opened(batches), lp).Some? && KeyOf(At(Opened(batches), lp).value) == KeyOf(op)
    ensures KeyOf(op) in last && last[KeyOf(op)].0 == h
  {
    assert !Before(last[KeyOf(op)].0, h);
    assert !Before(h, last[KeyOf(op)].0);
  }

  /** The pass judges run heads by the queue as it was. */
  lemma HeadIff(batches: seq<PendingBatch>, s: Pass, here: Pos, op: RowOp)
    requires LastsLive(s.tail, s.last, here) && Standing(batches, s.tail) && LatestKnown(batches, s.last, here)
    requires At(Opened(batches), here) == Some(op) && op.kind == SESSIONS
    ensures HeadsRun(op, PrevOp(s, op)) <==> HeadAt(batches, here)
  {
    if h :| RunHead(Opened(batches), h, here) {
      FollowsLatest(batches, s.last, here, op, h);
    } else if KeyOf(op) in s.last && !HeadsRun(op, PrevOp(s, op)) {
      var lp := s.last[KeyOf(op)].0;
      forall x | Before(lp, x) && Before(x, here) && At(Opened(batches), x).Some?
        ensures KeyOf(At(Opened(batches), x).value) != KeyOf(op)
      {
      }
      assert RunHead(Opened(batches), lp, here);
    }
  }

  lemma LatestNext(batches: seq<PendingBatch>, last: LastOps, here: Pos, op: RowOp, head: bool)
    requires LatestKnown(batches, last, here) && At(Opened(batches), here) == Some(op)
    ensures LatestKnown(batches, last[KeyOf(op) := (here, head)], NextTo(here))
  {
    forall p | Before(p, NextTo(here)) ensures p == here || Before(p, here) {
    }
  }

  lemma MarksNext(batches: seq<PendingBatch>, last: LastOps, here: Pos, op: RowOp, head: bool)
    requires MarksHeads(batches, last) && At(Opened(batches), here) == Some(op)
    requires op.kind == SESSIONS ==> (head <==> HeadAt(batches, here))
    ensures MarksHeads(batches, last[KeyOf(op) := (here, head)])
  {
  }

  lemma EnterKeepsTables(batches: seq<PendingBatch>, s: Pass, here: Pos, op: RowOp)
    requires LastsLive(s.tail, s.last, here) && HeadsHold(batches, s, here) && At(Opened(batches), here) == Some(op)
    ensures var last' := s.last[KeyOf(op) := (here, HeadsRun(op, PrevOp(s, op)))];
      LatestKnown(batches, last', NextTo(here)) && MarksHeads(batches, last')
  {
    if op.kind == SESSIONS {
      HeadIff(batches, s, here, op);
    }
    LatestNext(batches, s.last, here, op, HeadsRun(op, PrevOp(s, op)));
    MarksNext(batches, s.last, here, op, HeadsRun(op, PrevOp(s, op)));
  }

  /** A session fold takes no run head, neither from its place nor as a target. */
  lemma {:induction false} SessionMergeSparesHeads(batches: seq<PendingBatch>, s: Pass, here: Pos, op: RowOp, p: RowOp,
                                                   fits: RowOp -> bool)
    requires LastsLive(s.tail, s.last, here) && HeadsHold(batches, s, here) && At(Opened(batches), here) == Some(op)
    requires op.kind == SESSIONS && KeyOf(op) in s.last && PrevOp(s, op) == Some(p) && Coalesce(p, op, fits).Some?
    requires !HeadsRun(op, Some(p)) && !s.last[KeyOf(op)].1
    ensures !HeadAt(batches, here) && !HeadAt(batches, s.last[KeyOf(op)].0)
    ensures StandsFor(Some(op), Coalesce(p, op, fits).value)
  {
    CoalesceParts(p, op, fits);
    HeadIff(batches, s, here, op);
    SignalOfFolded(p, op, fits);
  }

  /** A fold of another row is nowhere near a run head. */
  lemma OtherMergeSparesHeads(batches: seq<PendingBatch>, tail: seq<Slot>, p: Pos)
    requires HeadsKept(batches, tail) && At(tail, p).Some? && At(tail, p).value.kind != SESSIONS
    ensures !HeadAt(batches, p)
  {
    assert HeadAt(batches, p) ==> HeadKept(batches, tail, p);
  }

  lemma MergeSparesHeads(batches: seq<PendingBatch>, s: Pass, here: Pos, op: RowOp, p: RowOp, fits: RowOp -> bool)
    requires LastsLive(s.tail, s.last, here) && HeadsHold(batches, s, here)
    requires At(s.tail, here) == At(Opened(batches), here) == Some(op)
    requires KeyOf(op) in s.last && PrevOp(s, op) == Some(p) && Coalesce(p, op, fits).Some?
    requires op.kind == SESSIONS ==> !HeadsRun(op, Some(p)) && !s.last[KeyOf(op)].1
    ensures !HeadAt(batches, here) && !HeadAt(batches, s.last[KeyOf(op)].0)
    ensures Coalesce(p, op, fits).value.kind == SESSIONS ==> StandsFor(Some(op), Coalesce(p, op, fits).value)
  {
    CoalesceParts(p, op, fits);
    if op.kind == SESSIONS {
      SessionMergeSparesHeads(batches, s, here, op, p, fits);
    } else {
      OtherMergeSparesHeads(batches, s.tail, here);
      OtherMergeSparesHeads(batches, s.tail, s.last[KeyOf(op)].0);
    }
  }

  lemma FoldKeepsHeads(batches: seq<PendingBatch>, tail: seq<Slot>, at: Pos, here: Pos, m: RowOp)
    requires Standing(batches, tail) && HeadsKept(batches, tail)
    requires at.0 < here.0 < |tail| && at.1 < |tail[at.0].ops| && |tail[here.0].ops| == 1 && here.1 == 0
    requires |tail| == |batches| && |batches[here.0].ops| == 1
    requires !HeadAt(batches, at) && !HeadAt(batches, here)
    requires m.kind == SESSIONS ==> StandsFor(At(Opened(batches), here), m)
    ensures Standing(batches, FoldInto(tail, at, here, m)) && HeadsKept(batches, FoldInto(tail, at, here, m))
  {
    var tail' := FoldInto(tail, at, here, m);
    forall p ensures At(tail', p) == if p == at then None else if p == here then Some(m) else At(tail, p) {
      FoldIntoAt(tail, at, here, m, p);
    }
    forall p | HeadAt(batches, p) ensures HeadKept(batches, tail', p) {
      assert HeadKept(batches, tail, p);
      assert p.0 == here.0 ==> p == here;
    }
  }

  lemma PassFacts(batches: seq<PendingBatch>, s: Pass, here: Pos)
    requires PassOk(batches, s, here)
    ensures LastsLive(s.tail, s.last, here) && |s.tail| == |batches|
    ensures forall i :: 0 <= i < |s.tail| ==> |s.tail[i].ops| == |batches[i].ops|
    ensures here.0 < |batches| && here.1 < |batches[here.0].ops| ==>
      At(s.tail, here) == At(Opened(batches), here) == Some(batches[here.0].ops[here.1])
  {
    PassShape(batches, s, here);
  }

  lemma VisitHeads(batches: seq<PendingBatch>, s: Pass, bi: nat, oi: nat, fits: RowOp -> bool)
    requires bi < |batches| && oi < |batches[bi].ops|
    requires LastsLive(s.tail, s.last, (bi, oi)) && |s.tail| == |batches|
    requires forall i :: 0 <= i < |s.tail| ==> |s.tail[i].ops| == |batches[i].ops|
    requires At(s.tail, (bi, oi)) == At(Opened(batches), (bi, oi)) == Some(batches[bi].ops[oi])
    requires HeadsHold(batches, s, (bi, oi))
    ensures HeadsHold(batches, Visited(s, bi, oi, fits), (bi, oi + 1))
  {
    var here, op := (bi, oi), batches[bi].ops[oi];
    EnterKeepsTables(batches, s, here, op);
    if MergeAt(s, bi, oi, fits).Some? {
      MergeShape(s, bi, oi, fits);
      MergeSparesHeads(batches, s, here, op, PrevOp(s, op).value, fits);
      FoldKeepsHeads(batches, s.tail, s.last[KeyOf(op)].0, here, MergeAt(s, bi, oi, fits).value);
    }
  }

  ghost predicate HeadsOk(batches: seq<PendingBatch>, s: Pass, here: Pos) {
    exists t :: t == s && HeadsHold(batches, t, here)
  }

  /** Where the pass stands within a batch. */
  function PlaceOf(batches: seq<PendingBatch>, bi: nat, n: nat, fits: RowOp -> bool): Pass
    requires bi < |batches|
  {
    BatchTo(PassTo(batches, bi, fits), bi, n, fits)
  }

  lemma {:induction false} PlaceFacts(batches: seq<PendingBatch>, bi: nat, n: nat, fits: RowOp -> bool)
    requires bi < |batches| && n < |batches[bi].ops|
    ensures var s, here := PlaceOf(batches, bi, n, fits), (bi, n);
      && LastsLive(s.tail, s.last, here) && |s.tail| == |batches|
      && (forall i :: 0 <= i < |s.tail| ==> |s.tail[i].ops| == |batches[i].ops|)
      && At(s.tail, here) == At(Opened(batches), here) == Some(batches[bi].ops[n])
  {
    PassKept(batches, bi, fits);
    BatchOk(batches, PassTo(batches, bi, fits), bi, n, fits);
    PassFacts(batches, PlaceOf(batches, bi, n, fits), (bi, n));
  }

  lemma {:induction false} VisitHeadsOk(batches: seq<PendingBatch>, bi: nat, n: nat, fits: RowOp -> bool)
    requires bi < |batches| && n < |batches[bi].ops| && HeadsOk(batches, PlaceOf(batches, bi, n, fits), (bi, n))
    ensures HeadsOk(batches, PlaceOf(batches, bi, n + 1, fits), (bi, n + 1))
  {
    PlaceFacts(batches, bi, n, fits);
    VisitHeads(batches, PlaceOf(batches, bi, n, fits), bi, n, fits);
    assert HeadsHold(batches, PlaceOf(batches, bi, n + 1, fits), (bi, n + 1));
  }

  lemma {:induction false} BatchHeads(batches: seq<PendingBatch>, bi: nat, n: nat, fits: RowOp -> bool)
    requires bi < |batches| && n <= |batches[bi].ops| && HeadsOk(batches, PassTo(batches, bi, fits), (bi, 0))
    ensures HeadsOk(batches, PlaceOf(batches, bi, n, fits), (bi, n))
    decreases n
  {
    if n == 0 {
    } else {
      BatchHeads(batches, bi, n - 1, fits);
      VisitHeadsOk(batches, bi, n - 1, fits);
    }
  }

  lemma {:induction false} NextBatchHeads(batches: seq<PendingBatch>, s: Pass, bi: nat)
    requires bi < |batches| && HeadsOk(batches, s, (bi, |batches[bi].ops|))
    ensures HeadsOk(batches, s, (bi + 1, 0))
  {
    forall p | Before(p, (bi + 1, 0)) && At(Opened(batches), p).Some? ensures Before(p, (bi, |batches[bi].ops|)) {
    }
    assert HeadsHold(batches, s, (bi + 1, 0));
  }

  lemma {:induction false} HeadsStart(batches: seq<PendingBatch>, fits: RowOp -> bool)
    ensures HeadsOk(batches, PassTo(batches, 0, fits), (0, 0))
  {
    assert HeadsHold(batches, PassTo(batches, 0, fits), (0, 0));
  }

  lemma {:induction false} PassHeads(batches: seq<PendingBatch>, n: nat, fits: RowOp -> bool)
    requires n <= |batches|
    ensures HeadsOk(batches, PassTo(batches, n, fits), (n, 0))
  {
    if n == 0 {
      HeadsStart(batches, fits);
    } else {
      PassHeads(batches, n - 1, fits);
      BatchHeads(batches, n - 1, |batches[n - 1].ops|, fits);
      NextBatchHeads(batches, PassTo(batches, n, fits), n - 1);
    }
  }

  /** Main result: every run head stays in place, unchanged, under its batch's id. */
  lemma {:induction false} HeadsStay(batches: seq<PendingBatch>, fits: RowOp -> bool, p: Pos)
    requires HeadAt(batches, p)
    ensures HeadKept(batches, PassOf(batches, fits).tail, p)
  {
    PassHeads(batches, |batches|, fits);
  }

  /** The whole slot of a run head is as opened. */
  lemma {:induction false} HeadSlotStays(batches: seq<PendingBatch>, fits: RowOp -> bool, p: Pos)
    requires HeadAt(batches, p)
    ensures p.0 < |PassOf(batches, fits).tail| == |batches| && batches[p.0].ops != []
    ensures PassOf(batches, fits).tail[p.0] == Opened(batches)[p.0]
  {
    HeadsStay(batches, fits, p);
    PassIsInvisible(batches, fits);
    assert SlotFrom(PassOf(batches, fits).tail[p.0], batches[p.0]);
  }
}
