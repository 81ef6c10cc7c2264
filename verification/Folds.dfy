/** Exactly what the compactor folds, read off the queue and what is left of
    it: the pass with its two tables does what a search for the row's latest
    operation and a look at the batches in between would do. */
module Folds {
  import opened Options
  import opened Rows
  import opened Notifications
  import opened Compaction
  import opened Compactor
  import Heads

  // ── the rule ──────────────────────────────────────────────────────────────

  /** The only operation of batch `at` is the latest one left, before batch
      `bi`, of the row that the only operation of `bi` is about. */
  ghost predicate LatestLeft(batches: seq<PendingBatch>, bs: seq<seq<RowOp>>, at: nat, bi: nat) {
    && at < bi < |bs| == |batches| && |batches[at].ops| == |batches[bi].ops| == |bs[at]| == 1
    && var key := KeyOf(batches[bi].ops[0]);
    KeyOf(bs[at][0]) == key && forall j :: at < j < bi ==> Filter(bs[j], key) == []
  }

  /** Nothing the room could tell stands in the way. A session operation
      continues its run, as queued, behind the head, and moves past no gating
      chat operation; a gating chat operation moves past no operation of its
      session; any other may always move. */
  ghost predicate FreeToMove(batches: seq<PendingBatch>, bs: seq<seq<RowOp>>, at: nat, bi: nat)
    requires LatestLeft(batches, bs, at, bi)
  {
    var p, q := bs[at][0], batches[bi].ops[0];
    && (q.kind == SESSIONS ==>
          !Heads.HeadAt(batches, (at, 0)) && !Heads.HeadAt(batches, (bi, 0)) && NoGating(bs, at, bi, q.id))
    && (q.kind == CHATS && ChatGates(p) ==> forall j :: at < j < bi ==> Filter(bs[j], (SESSIONS, q.id)) == [])
  }

  ghost predicate FoldsFrom(batches: seq<PendingBatch>, bs: seq<seq<RowOp>>, at: nat, bi: nat, fits: RowOp -> bool) {
    && LatestLeft(batches, bs, at, bi) && FreeToMove(batches, bs, at, bi)
    && Coalesce(bs[at][0], batches[bi].ops[0], fits).Some?
  }

  ghost predicate SomeFold(batches: seq<PendingBatch>, bs: seq<seq<RowOp>>, bi: nat, fits: RowOp -> bool) {
    exists at: nat :: FoldsFrom(batches, bs, at, bi, fits)
  }

  /** What the rule leaves once it was applied to batch `bi`. */
  ghost function Ruled(batches: seq<PendingBatch>, bs: seq<seq<RowOp>>, bi: nat, fits: RowOp -> bool)
    : (r: seq<seq<RowOp>>)
    ensures |r| == |bs|
  {
    if SomeFold(batches, bs, bi, fits) then
      var at: nat :| FoldsFrom(batches, bs, at, bi, fits);
      Folded(bs, at, bi, Coalesce(bs[at][0], batches[bi].ops[0], fits).value)
    else bs
  }

  /** What is left of the queue once the rule was applied to the first `n` batches. */
  ghost function FoldedTo(batches: seq<PendingBatch>, n: nat, fits: RowOp -> bool): (bs: seq<seq<RowOp>>)
    ensures |bs| == |batches|
  {
    if n == 0 then BatchOps(batches) else Ruled(batches, FoldedTo(batches, n - 1, fits), n - 1, fits)
  }

  /** Batch `bi` absorbs an operation. */
  ghost predicate Absorbing(batches: seq<PendingBatch>, bi: nat, fits: RowOp -> bool) {
    SomeFold(batches, FoldedTo(batches, bi, fits), bi, fits)
  }

  // ── tables and contents ───────────────────────────────────────────────────

  lemma PassTables(batches: seq<PendingBatch>, s: Pass, here: Pos)
    requires PassOk(batches, s, here)
    ensures Tracks(s.tail, s.last, s.gating, here)
  {
  }

  lemma {:induction false} LiveInAlive(ops: seq<Option<RowOp>>, k: nat)
    requires k < |ops| && ops[k].Some?
    ensures ops[k].value in Alive(ops)
    decreases k
  {
    if k > 0 {
      assert ops[1..][k - 1] == ops[k];
      LiveInAlive(ops[1..], k - 1);
    }
  }

  /** A live operation is among its row's in its batch. */
  lemma LiveInContents(tail: seq<Slot>, p: Pos)
    requires At(tail, p).Some?
    ensures p.0 < |tail| && At(tail, p).value in Filter(Contents(tail)[p.0], KeyOf(At(tail, p).value))
  {
    LiveInAlive(tail[p.0].ops, p.1);
    InFilter(Alive(tail[p.0].ops), At(tail, p).value);
  }

  lemma SlotOfLatest(batches: seq<PendingBatch>, s: Pass, at: nat, bi: nat)
    requires PassOk(batches, s, (bi, 0)) && LatestLeft(batches, Contents(s.tail), at, bi)
    ensures |s.tail[at].ops| == 1 && At(s.tail, (at, 0)) == Some(Contents(s.tail)[at][0])
  {
    PassShape(batches, s, (bi, 0));
    SingleAlive(s.tail[at].ops);
  }

  /** The table entry of the row is the latest operation left. */
  lemma TableHasLatest(batches: seq<PendingBatch>, s: Pass, at: nat, bi: nat)
    requires PassOk(batches, s, (bi, 0)) && LatestLeft(batches, Contents(s.tail), at, bi)
    ensures var key := KeyOf(batches[bi].ops[0]); key in s.last && s.last[key].0 == (at, 0)
    ensures |s.tail[at].ops| == 1 && s.tail[at].ops[0] == Some(Contents(s.tail)[at][0])
  {
    SlotOfLatest(batches, s, at, bi);
    PassTables(batches, s, (bi, 0));
    LatestEntry(s.tail, s.last, s.gating, at, bi, Contents(s.tail)[at][0]);
  }

  lemma LatestEntry(tail: seq<Slot>, last: LastOps, gating: GatingChats, at: nat, bi: nat, p: RowOp)
    requires Tracks(tail, last, gating, (bi, 0)) && at < bi <= |tail| && |tail[at].ops| == 1
    requires At(tail, (at, 0)) == Some(p) && forall j :: at < j < bi ==> Filter(Contents(tail)[j], KeyOf(p)) == []
    ensures KeyOf(p) in last && last[KeyOf(p)].0 == (at, 0)
  {
    assert Covered(last, gating, p, (at, 0));
    var h := last[KeyOf(p)].0;
    LiveInContents(tail, h);
    assert !(at < h.0 < bi);
  }

  /** A gating entry behind `at` is a gating operation in between. */
  lemma GateBetween(batches: seq<PendingBatch>, s: Pass, at: nat, bi: nat, id: string)
    requires PassOk(batches, s, (bi, 0)) && at < bi <= |s.tail| && |s.tail[at].ops| == 1
    requires id in s.gating && Before((at, 0), s.gating[id])
    ensures !NoGating(Contents(s.tail), at, bi, id)
  {
    PassTables(batches, s, (bi, 0));
    var g := s.gating[id];
    assert GatesAt(s.tail, g, id);
    LiveInContents(s.tail, g);
    assert at < g.0 < bi;
  }

  /** A session entry behind `at` is a session operation in between. */
  lemma SessionBetween(batches: seq<PendingBatch>, s: Pass, at: nat, bi: nat, id: string)
    requires PassOk(batches, s, (bi, 0)) && at < bi <= |s.tail| && |s.tail[at].ops| == 1
    requires (SESSIONS, id) in s.last && Before((at, 0), s.last[(SESSIONS, id)].0)
    ensures exists j :: at < j < bi && Filter(Contents(s.tail)[j], (SESSIONS, id)) != []
  {
    PassTables(batches, s, (bi, 0));
    var h := s.last[(SESSIONS, id)].0;
    LiveInContents(s.tail, h);
    assert at < h.0 < bi;
  }

  /** The table's mark and the visited operation's say which of the two heads a run. */
  lemma MarksKnown(batches: seq<PendingBatch>, s: Pass, bi: nat, q: RowOp)
    requires bi < |batches| && batches[bi].ops == [q] && q.kind == SESSIONS && KeyOf(q) in s.last
    requires PassOk(batches, s, (bi, 0)) && Heads.HeadsOk(batches, s, (bi, 0))
    ensures HeadsRun(q, PrevOp(s, q)) <==> Heads.HeadAt(batches, (bi, 0))
    ensures s.last[KeyOf(q)].1 <==> !Follows(Opened(batches), s.last[KeyOf(q)].0)
  {
    PassShape(batches, s, (bi, 0));
    PassTables(batches, s, (bi, 0));
    Heads.HeadIff(batches, s, (bi, 0), q);
  }

  // ── one batch ─────────────────────────────────────────────────────────────

  /** The rule allows the fold: the pass makes it. */
  lemma RuleFolds(batches: seq<PendingBatch>, s: Pass, at: nat, bi: nat, fits: RowOp -> bool)
    requires PassOk(batches, s, (bi, 0)) && Heads.HeadsOk(batches, s, (bi, 0))
    requires FoldsFrom(batches, Contents(s.tail), at, bi, fits)
    ensures At(s.tail, (bi, 0)) == Some(batches[bi].ops[0])
    ensures MergeAt(s, bi, 0, fits) == Coalesce(Contents(s.tail)[at][0], batches[bi].ops[0], fits)
  {
    var q, p := batches[bi].ops[0], Contents(s.tail)[at][0];
    PassShape(batches, s, (bi, 0));
    TableHasLatest(batches, s, at, bi);
    assert batches[bi].ops == [q] && PrevOp(s, q) == Some(p);
    if q.kind == SESSIONS {
      MarksKnown(batches, s, bi, q);
      SessionMayMove(batches, s, at, bi, q, p);
    } else if q.kind == CHATS && ChatGates(p) {
      ChatMayMove(batches, s, at, bi, q, p);
    }
  }

  lemma SessionMayMove(batches: seq<PendingBatch>, s: Pass, at: nat, bi: nat, q: RowOp, p: RowOp)
    requires PassOk(batches, s, (bi, 0)) && at < bi <= |s.tail| && |s.tail[at].ops| == 1
    requires q.kind == SESSIONS && NoGating(Contents(s.tail), at, bi, q.id)
    ensures MayMove(s.last, s.gating, (at, 0), false, p, q, false)
  {
    if q.id in s.gating && Before((at, 0), s.gating[q.id]) {
      GateBetween(batches, s, at, bi, q.id);
    }
  }

  lemma ChatMayMove(batches: seq<PendingBatch>, s: Pass, at: nat, bi: nat, q: RowOp, p: RowOp)
    requires PassOk(batches, s, (bi, 0)) && at < bi <= |s.tail| && |s.tail[at].ops| == 1 && q.kind == CHATS
    requires forall j :: at < j < bi ==> Filter(Contents(s.tail)[j], (SESSIONS, q.id)) == []
    ensures MayMove(s.last, s.gating, (at, 0), false, p, q, false)
  {
    if (SESSIONS, q.id) in s.last && Before((at, 0), s.last[(SESSIONS, q.id)].0) {
      SessionBetween(batches, s, at, bi, q.id);
    }
  }

  /** The pass makes a fold: the rule allows it. */
  lemma FoldIsRuled(batches: seq<PendingBatch>, s: Pass, bi: nat, fits: RowOp -> bool) returns (at: nat)
    requires bi < |batches| && |batches[bi].ops| == 1
    requires PassOk(batches, s, (bi, 0)) && Heads.HeadsOk(batches, s, (bi, 0))
    requires At(s.tail, (bi, 0)).Some? && MergeAt(s, bi, 0, fits).Some?
    ensures FoldsFrom(batches, Contents(s.tail), at, bi, fits)
  {
    var q := batches[bi].ops[0];
    PassShape(batches, s, (bi, 0));
    MergeShape(s, bi, 0, fits);
    at := s.last[KeyOf(q)].0.0;
    assert s.last[KeyOf(q)].0 == (at, 0) && batches[bi].ops == [q];
    FoldIsFree(batches, s, at, bi, fits, MergeAt(s, bi, 0, fits).value);
    if q.kind == SESSIONS {
      FoldSparesHeads(batches, s, at, bi, q, fits);
    }
  }

  lemma FoldIsFree(batches: seq<PendingBatch>, s: Pass, at: nat, bi: nat, fits: RowOp -> bool, m: RowOp)
    requires PassOk(batches, s, (bi, 0)) && at < bi < |s.tail| == |batches|
    requires |s.tail[at].ops| == 1 && |s.tail[bi].ops| == 1 && s.tail[at].ops[0].Some? && s.tail[bi].ops[0].Some?
    requires var p, q := s.tail[at].ops[0].value, s.tail[bi].ops[0].value;
      && KeyOf(q) in s.last && s.last[KeyOf(q)].0 == (at, 0) && batches[bi].ops == [q]
      && MayMove(s.last, s.gating, (at, 0), s.last[KeyOf(q)].1, p, q, HeadsRun(q, Some(p)))
      && Coalesce(p, q, fits) == Some(m)
    ensures MayFold(Contents(s.tail), at, bi, m, fits) && LatestLeft(batches, Contents(s.tail), at, bi)
    ensures Contents(s.tail)[at] == [s.tail[at].ops[0].value]
  {
    PassShape(batches, s, (bi, 0));
    PassTables(batches, s, (bi, 0));
    PassMayFold(s.tail, s.last, s.gating, at, bi, m, fits);
    SingleAlive(s.tail[at].ops);
  }

  lemma FoldSparesHeads(batches: seq<PendingBatch>, s: Pass, at: nat, bi: nat, q: RowOp, fits: RowOp -> bool)
    requires bi < |batches| && batches[bi].ops == [q] && q.kind == SESSIONS
    requires PassOk(batches, s, (bi, 0)) && Heads.HeadsOk(batches, s, (bi, 0))
    requires At(s.tail, (bi, 0)) == Some(q) && MergeAt(s, bi, 0, fits).Some?
    requires KeyOf(q) in s.last && s.last[KeyOf(q)].0 == (at, 0)
    ensures !Heads.HeadAt(batches, (at, 0)) && !Heads.HeadAt(batches, (bi, 0))
  {
    MergeShape(s, bi, 0, fits);
    MarksKnown(batches, s, bi, q);
  }

  lemma VisitedBatch(batches: seq<PendingBatch>, bi: nat, fits: RowOp -> bool)
    requires bi < |batches| && |batches[bi].ops| == 1
    ensures var s := PassTo(batches, bi, fits);
      && PassOk(batches, s, (bi, 0)) && Heads.HeadsOk(batches, s, (bi, 0)) && |s.tail| == |batches|
      && At(s.tail, (bi, 0)) == Some(batches[bi].ops[0]) && |s.tail[bi].ops| == 1
      && PassTo(batches, bi + 1, fits) == Visited(s, bi, 0, fits)
  {
    PassKept(batches, bi, fits);
    Heads.PassHeads(batches, bi, fits);
    var s := PassTo(batches, bi, fits);
    PassShape(batches, s, (bi, 0));
    assert BatchTo(s, bi, 1, fits) == Visited(BatchTo(s, bi, 0, fits), bi, 0, fits);
  }

  lemma VisitFoldsInto(s: Pass, at: nat, bi: nat, fits: RowOp -> bool, q: RowOp)
    requires At(s.tail, (bi, 0)) == Some(q) && MergeAt(s, bi, 0, fits).Some? && at < bi
    requires KeyOf(q) in s.last && s.last[KeyOf(q)].0 == (at, 0)
    ensures bi < |s.tail| && |s.tail[at].ops| > 0 && |s.tail[bi].ops| > 0
    ensures Visited(s, bi, 0, fits).tail == FoldInto(s.tail, (at, 0), (bi, 0), MergeAt(s, bi, 0, fits).value)
    ensures Visited(s, bi, 0, fits).folded == s.folded + 1
  {
  }

  lemma FoldedMarks(tail: seq<Slot>, at: nat, bi: nat, m: RowOp)
    requires at < bi < |tail| && |tail[at].ops| > 0 && |tail[bi].ops| > 0
    ensures var t := FoldInto(tail, (at, 0), (bi, 0), m);
      |t| == |tail| && forall i :: 0 <= i < |t| ==> t[i].gained == (i == bi || tail[i].gained)
  {
  }

  /** A batch that absorbs the operation of batch `at`. */
  lemma FoldedBatch(batches: seq<PendingBatch>, at: nat, bi: nat, fits: RowOp -> bool)
    requires bi < |batches| && |batches[bi].ops| == 1
    requires FoldsFrom(batches, Contents(PassTo(batches, bi, fits).tail), at, bi, fits)
    ensures var s, t := PassTo(batches, bi, fits), PassTo(batches, bi + 1, fits);
      var bs := Contents(s.tail);
      && Contents(t.tail) == Folded(bs, at, bi, Coalesce(bs[at][0], batches[bi].ops[0], fits).value)
      && t.folded == s.folded + 1 && |t.tail| == |s.tail|
      && forall i :: 0 <= i < |t.tail| ==> t.tail[i].gained == (i == bi || s.tail[i].gained)
  {
    var s := PassTo(batches, bi, fits);
    VisitedBatch(batches, bi, fits);
    RuleFolds(batches, s, at, bi, fits);
    TableHasLatest(batches, s, at, bi);
    VisitFoldsInto(s, at, bi, fits, batches[bi].ops[0]);
    var m := MergeAt(s, bi, 0, fits).value;
    FoldedMarks(s.tail, at, bi, m);
    FoldedContents(s.tail, at, bi, m);
  }

  /** A batch that absorbs nothing. */
  lemma PlainBatch(batches: seq<PendingBatch>, bi: nat, fits: RowOp -> bool)
    requires bi < |batches| && |batches[bi].ops| == 1
    requires !SomeFold(batches, Contents(PassTo(batches, bi, fits).tail), bi, fits)
    ensures var s, t := PassTo(batches, bi, fits), PassTo(batches, bi + 1, fits);
      t.tail == s.tail && t.folded == s.folded
  {
    var s := PassTo(batches, bi, fits);
    VisitedBatch(batches, bi, fits);
    if MergeAt(s, bi, 0, fits).Some? {
      var at := FoldIsRuled(batches, s, bi, fits);
    }
  }

  lemma WideVisit(s: Pass, bi: nat, oi: nat, fits: RowOp -> bool)
    requires bi < |s.tail| && |s.tail[bi].ops| != 1
    ensures Visited(s, bi, oi, fits).tail == s.tail && Visited(s, bi, oi, fits).folded == s.folded
  {
  }

  lemma {:induction false} WideVisits(s: Pass, bi: nat, n: nat, fits: RowOp -> bool)
    requires bi < |s.tail| && |s.tail[bi].ops| != 1
    ensures BatchTo(s, bi, n, fits).tail == s.tail && BatchTo(s, bi, n, fits).folded == s.folded
  {
    if n == 0 {
    } else {
      WideVisits(s, bi, n - 1, fits);
      WideVisit(BatchTo(s, bi, n - 1, fits), bi, n - 1, fits);
    }
  }

  /** A batch written as a unit, or an empty one, absorbs nothing. */
  lemma WideBatch(batches: seq<PendingBatch>, bi: nat, fits: RowOp -> bool)
    requires bi < |batches| && |batches[bi].ops| != 1
    ensures var s, t := PassTo(batches, bi, fits), PassTo(batches, bi + 1, fits);
      t.tail == s.tail && t.folded == s.folded
  {
    var s := PassTo(batches, bi, fits);
    PassKept(batches, bi, fits);
    PassShape(batches, s, (bi, 0));
    WideVisits(s, bi, |batches[bi].ops|, fits);
  }

  // ── the whole pass ────────────────────────────────────────────────────────

  /** The pass after `n` batches: the rule's contents, a mark on every batch
      that absorbed something and no other, and something folded if and only
      if there is such a batch. */
  ghost predicate FollowsRule(batches: seq<PendingBatch>, n: nat, fits: RowOp -> bool)
    requires n <= |batches|
  {
    var s := PassTo(batches, n, fits);
    && Contents(s.tail) == FoldedTo(batches, n, fits)
    && (forall i :: 0 <= i < |s.tail| ==> (s.tail[i].gained <==> i < n && Absorbing(batches, i, fits)))
    && (s.folded == 0 <==> forall i: nat :: i < n ==> !Absorbing(batches, i, fits))
  }

  /** One batch: the rule's step, and the mark and the count that go with it. */
  lemma {:induction false} RuleStep(batches: seq<PendingBatch>, n: nat, fits: RowOp -> bool)
    requires n < |batches|
    ensures var s, t := PassTo(batches, n, fits), PassTo(batches, n + 1, fits);
      var fold := SomeFold(batches, Contents(s.tail), n, fits);
      && Contents(t.tail) == Ruled(batches, Contents(s.tail), n, fits)
      && t.folded == s.folded + (if fold then 1 else 0) && |t.tail| == |s.tail|
      && forall i :: 0 <= i < |t.tail| ==> (t.tail[i].gained <==> s.tail[i].gained || (i == n && fold))
  {
    var bs := Contents(PassTo(batches, n, fits).tail);
    if SomeFold(batches, bs, n, fits) {
      var at: nat :| FoldsFrom(batches, bs, at, n, fits)
        && Ruled(batches, bs, n, fits) == Folded(bs, at, n, Coalesce(bs[at][0], batches[n].ops[0], fits).value);
      FoldedBatch(batches, at, n, fits);
    } else if |batches[n].ops| == 1 {
      PlainBatch(batches, n, fits);
    } else {
      WideBatch(batches, n, fits);
    }
  }

  lemma {:induction false} RuleNext(batches: seq<PendingBatch>, n: nat, fits: RowOp -> bool)
    requires n < |batches| && FollowsRule(batches, n, fits)
    ensures FollowsRule(batches, n + 1, fits)
  {
    RuleStep(batches, n, fits);
    assert Absorbing(batches, n, fits) <==> SomeFold(batches, Contents(PassTo(batches, n, fits).tail), n, fits);
    assert n < n + 1;
  }

  /** Main result: for every queue, the pass leaves exactly what the rule
      leaves, and marks exactly the batches that absorbed something. */
  lemma {:induction false} PassFollowsRule(batches: seq<PendingBatch>, fits: RowOp -> bool)
    ensures FollowsRule(batches, |batches|, fits)
  {
    OpenedContents(batches);
    assert FollowsRule(batches, 0, fits);
    for n := 0 to |batches|
      invariant exists m: nat :: m == n && m <= |batches| && FollowsRule(batches, m, fits)
    {
      RuleNext(batches, n, fits);
    }
  }
}
