/** The compactor: one pass over the unsent batches that folds an operation
    into the next one of its row wherever the room cannot tell. */
module Compactor {
  import opened Options
  import opened Rows
  import opened Notifications
  import opened Compaction

  datatype PendingBatch = PendingBatch(batch: Clock, ops: seq<RowOp>, inFlight: bool)

  /** A batch under compaction: folded operations leave an empty place. */
  datatype Slot = Slot(batch: Clock, ops: seq<Option<RowOp>>, gained: bool)

  function Alive(ops: seq<Option<RowOp>>): seq<RowOp>
    decreases |ops|
  {
    if ops == [] then []
    else (if ops[0].Some? then [ops[0].value] else []) + Alive(ops[1..])
  }

  function Contents(tail: seq<Slot>): (bs: seq<seq<RowOp>>)
    ensures |bs| == |tail| && forall i :: 0 <= i < |bs| ==> bs[i] == Alive(tail[i].ops)
  {
    seq(|tail|, i requires 0 <= i < |tail| => Alive(tail[i].ops))
  }

  function BatchOps(batches: seq<PendingBatch>): (bs: seq<seq<RowOp>>)
    ensures |bs| == |batches| && forall i :: 0 <= i < |bs| ==> bs[i] == batches[i].ops
  {
    seq(|batches|, i requires 0 <= i < |batches| => batches[i].ops)
  }

  function Filled(ops: seq<RowOp>): (r: seq<Option<RowOp>>)
    ensures |r| == |ops| && forall i :: 0 <= i < |r| ==> r[i] == Some(ops[i])
  {
    seq(|ops|, i requires 0 <= i < |ops| => Some(ops[i]))
  }

  function Opened(batches: seq<PendingBatch>): (tail: seq<Slot>)
    ensures |tail| == |batches|
    ensures forall i :: 0 <= i < |tail| ==> tail[i] == Slot(batches[i].batch, Filled(batches[i].ops), false)
  {
    seq(|batches|, i requires 0 <= i < |batches| => Slot(batches[i].batch, Filled(batches[i].ops), false))
  }

  lemma {:induction false} AliveFilled(ops: seq<RowOp>)
    ensures Alive(Filled(ops)) == ops
    decreases |ops|
  {
    if ops == [] {
    } else {
      assert Filled(ops)[1..] == Filled(ops[1..]);
      AliveFilled(ops[1..]);
    }
  }

  lemma OpenedContents(batches: seq<PendingBatch>)
    ensures Contents(Opened(batches)) == BatchOps(batches)
  {
    forall i | 0 <= i < |batches| ensures Alive(Opened(batches)[i].ops) == batches[i].ops {
      AliveFilled(batches[i].ops);
    }
  }

  lemma {:induction false} AliveConcat(a: seq<Option<RowOp>>, b: seq<Option<RowOp>>)
    ensures Alive(a + b) == Alive(a) + Alive(b)
    decreases |a|
  {
    if a == [] {
      assert a + b == b;
    } else {
      assert (a + b)[1..] == a[1..] + b;
      AliveConcat(a[1..], b);
    }
  }

  lemma {:induction false} AliveMembers(ops: seq<Option<RowOp>>)
    ensures forall op :: op in Alive(ops) ==> Some(op) in ops
    decreases |ops|
  {
    if ops == [] {
    } else {
      AliveMembers(ops[1..]);
      forall op | op in Alive(ops) ensures Some(op) in ops {
        if op in Alive(ops[1..]) {
          assert Some(op) in ops[1..];
        } else {
          assert ops[0] == Some(op);
        }
      }
    }
  }

  lemma AliveFilterNone(ops: seq<Option<RowOp>>, key: Key)
    requires forall i :: 0 <= i < |ops| && ops[i].Some? ==> KeyOf(ops[i].value) != key
    ensures Filter(Alive(ops), key) == []
  {
    AliveMembers(ops);
    forall i | 0 <= i < |Alive(ops)| ensures KeyOf(Alive(ops)[i]) != key {
      assert Some(Alive(ops)[i]) in ops;
    }
    FilterNone(Alive(ops), key);
  }

  // ── positions ─────────────────────────────────────────────────────────────

  type Pos = (nat, nat)

  predicate Before(a: Pos, b: Pos) {
    a.0 < b.0 || (a.0 == b.0 && a.1 < b.1)
  }

  function At(tail: seq<Slot>, p: Pos): Option<RowOp> {
    if p.0 < |tail| && p.1 < |tail[p.0].ops| then tail[p.0].ops[p.1] else None
  }

  /** No live operation of the row stands strictly between two positions. */
  ghost predicate Quiet(tail: seq<Slot>, key: Key, a: Pos, b: Pos) {
    forall p :: Before(a, p) && Before(p, b) && At(tail, p).Some? ==> KeyOf(At(tail, p).value) != key
  }

  /** The position of the row's previous live operation, of the same signal. */
  ghost predicate RunHead(tail: seq<Slot>, h: Pos, p: Pos) {
    && Before(h, p) && At(tail, h).Some? && At(tail, p).Some?
    && var oh, op := At(tail, h).value, At(tail, p).value;
    && KeyOf(oh) == KeyOf(op) && oh.op != Delete && SessionSignal(oh) == SessionSignal(op)
    && Quiet(tail, KeyOf(op), h, p)
  }

  ghost predicate Follows(tail: seq<Slot>, p: Pos) {
    exists h :: RunHead(tail, h, p)
  }

  // ── the pass ──────────────────────────────────────────────────────────────

  type LastOps = map<Key, (Pos, bool)>
  type GatingChats = map<string, Pos>

  /** Each entry of `last` stands on a live operation of its row. */
  ghost predicate LastsLive(tail: seq<Slot>, last: LastOps, here: Pos) {
    forall key :: key in last ==>
      Before(last[key].0, here) && At(tail, last[key].0).Some? && KeyOf(At(tail, last[key].0).value) == key
  }

  /** No visited live operation is later than the tables say. */
  ghost predicate TablesCover(tail: seq<Slot>, last: LastOps, gating: GatingChats, here: Pos) {
    forall p :: Before(p, here) && At(tail, p).Some? ==> Covered(last, gating, At(tail, p).value, p)
  }

  predicate Covered(last: LastOps, gating: GatingChats, op: RowOp, p: Pos) {
    && KeyOf(op) in last && !Before(last[KeyOf(op)].0, p)
    && (op.kind == CHATS && ChatGates(op) ==> op.id in gating && !Before(gating[op.id], p))
  }

  /** A session entry not marked as a head continues a run. */
  ghost predicate RunsFollow(tail: seq<Slot>, last: LastOps) {
    forall key :: key in last && key.0 == SESSIONS && !last[key].1 ==> Follows(tail, last[key].0)
  }

  /** Each entry of `gating` stands on a live gating operation of its chat. */
  ghost predicate GatesLive(tail: seq<Slot>, gating: GatingChats, here: Pos) {
    forall id :: id in gating ==> Before(gating[id], here) && GatesAt(tail, gating[id], id)
  }

  predicate GatesAt(tail: seq<Slot>, p: Pos, id: string) {
    At(tail, p).Some? && KeyOf(At(tail, p).value) == (CHATS, id) && ChatGates(At(tail, p).value)
  }

  /** What the two tables know about the positions already visited: the
      latest live operation of each row and the latest gating operation of
      each chat. */
  ghost predicate Tracks(tail: seq<Slot>, last: LastOps, gating: GatingChats, here: Pos) {
    && LastsLive(tail, last, here) && TablesCover(tail, last, gating, here)
    && RunsFollow(tail, last) && GatesLive(tail, gating, here)
  }

  /** The batch still is what the caller queued, or has lost its only
      operation, or holds one folded operation and is marked. */
  ghost predicate SlotFrom(slot: Slot, batch: PendingBatch) {
    && slot.batch == batch.batch && |slot.ops| == |batch.ops|
    && (|batch.ops| != 1 ==> slot.ops == Filled(batch.ops) && !slot.gained)
    && (|batch.ops| == 1 && !slot.gained ==> slot.ops[0] == None || slot.ops == Filled(batch.ops))
  }

  ghost predicate SlotsFrom(tail: seq<Slot>, batches: seq<PendingBatch>) {
    |tail| == |batches| && forall i :: 0 <= i < |tail| ==> SlotFrom(tail[i], batches[i])
  }

  /** Places not yet visited hold the queued operations. */
  ghost predicate Unvisited(tail: seq<Slot>, batches: seq<PendingBatch>, here: Pos) {
    forall p :: !Before(p, here) ==> At(tail, p) == At(Opened(batches), p)
  }

  function NextTo(here: Pos): Pos {
    (here.0, here.1 + 1)
  }

  function Record(gating: GatingChats, op: RowOp, here: Pos): GatingChats {
    if op.kind == CHATS && ChatGates(op) then gating[op.id := here] else gating
  }

  /** Entering an operation that was not folded into. */
  lemma TracksNext(tail: seq<Slot>, last: LastOps, gating: GatingChats, here: Pos, head: bool)
    requires Tracks(tail, last, gating, here) && At(tail, here).Some?
    requires At(tail, here).value.kind == SESSIONS && !head ==> Follows(tail, here)
    ensures var op := At(tail, here).value;
      Tracks(tail, last[KeyOf(op) := (here, head)], Record(gating, op, here), NextTo(here))
  {
    var op := At(tail, here).value;
    var last', gating' := last[KeyOf(op) := (here, head)], Record(gating, op, here);
    forall p | Before(p, NextTo(here)) && At(tail, p).Some?
      ensures Covered(last', gating', At(tail, p).value, p)
    {
      assert p == here || Before(p, here);
    }
  }

  /** The tail after the operation at `at` was folded into the one at `here`. */
  function FoldInto(tail: seq<Slot>, at: Pos, here: Pos, m: RowOp): seq<Slot>
    requires at.0 < here.0 < |tail|
    requires at.1 < |tail[at.0].ops| && here.1 < |tail[here.0].ops|
  {
    tail[at.0 := tail[at.0].(ops := tail[at.0].ops[at.1 := None])]
        [here.0 := tail[here.0].(ops := tail[here.0].ops[here.1 := Some(m)], gained := true)]
  }

  lemma FoldIntoAt(tail: seq<Slot>, at: Pos, here: Pos, m: RowOp, p: Pos)
    requires at.0 < here.0 < |tail|
    requires at.1 < |tail[at.0].ops| && here.1 < |tail[here.0].ops|
    ensures At(FoldInto(tail, at, here, m), p) == if p == at then None else if p == here then Some(m) else At(tail, p)
  {
  }

  /** The operation at `here` may absorb the one at `at`, its row's previous one. */
  ghost predicate Absorbs(tail: seq<Slot>, last: LastOps, at: Pos, here: Pos, fits: RowOp -> bool) {
    && at.0 < here.0 < |tail| && At(tail, at).Some? && At(tail, here).Some?
    && var p, q := At(tail, at).value, At(tail, here).value;
    && KeyOf(q) in last && last[KeyOf(q)].0 == at
    && Coalesce(p, q, fits).Some?
    && (q.kind == SESSIONS ==> !last[KeyOf(q)].1 && SessionSignal(p) == SessionSignal(q))
  }

  lemma CoverFold(tail: seq<Slot>, last: LastOps, gating: GatingChats, at: Pos, here: Pos, fits: RowOp -> bool)
    requires Tracks(tail, last, gating, here) && Absorbs(tail, last, at, here, fits)
    ensures var m := Coalesce(At(tail, at).value, At(tail, here).value, fits).value;
      TablesCover(FoldInto(tail, at, here, m), last[KeyOf(m) := (here, false)], Record(gating, m, here), NextTo(here))
  {
    var m := Coalesce(At(tail, at).value, At(tail, here).value, fits).value;
    CoalesceParts(At(tail, at).value, At(tail, here).value, fits);
    var tail' := FoldInto(tail, at, here, m);
    var last', gating' := last[KeyOf(m) := (here, false)], Record(gating, m, here);
    forall p | Before(p, NextTo(here)) && At(tail', p).Some?
      ensures Covered(last', gating', At(tail', p).value, p)
    {
      FoldIntoAt(tail, at, here, m, p);
      assert p == here || Before(p, here);
    }
  }

  /** A gating operation that is folded gates where it lands. */
  lemma GatesFold(tail: seq<Slot>, last: LastOps, gating: GatingChats, at: Pos, here: Pos, fits: RowOp -> bool)
    requires GatesLive(tail, gating, here) && Absorbs(tail, last, at, here, fits)
    ensures var m := Coalesce(At(tail, at).value, At(tail, here).value, fits).value;
      GatesLive(FoldInto(tail, at, here, m), Record(gating, m, here), NextTo(here))
  {
    var p, q := At(tail, at).value, At(tail, here).value;
    var m := Coalesce(p, q, fits).value;
    CoalesceParts(p, q, fits);
    forall id | id in Record(gating, m, here)
      ensures Before(Record(gating, m, here)[id], NextTo(here))
      ensures GatesAt(FoldInto(tail, at, here, m), Record(gating, m, here)[id], id)
    {
      FoldIntoAt(tail, at, here, m, Record(gating, m, here)[id]);
      MergedMark(p, q, fits, id);
    }
  }

  lemma RunsFold(tail: seq<Slot>, last: LastOps, gating: GatingChats, at: Pos, here: Pos, fits: RowOp -> bool, key: Key)
    requires Tracks(tail, last, gating, here) && Absorbs(tail, last, at, here, fits)
    requires key.0 == SESSIONS && key in last && !last[key].1
    ensures var m := Coalesce(At(tail, at).value, At(tail, here).value, fits).value;
      Follows(FoldInto(tail, at, here, m), if key == KeyOf(m) then here else last[key].0)
  {
    var p, q := At(tail, at).value, At(tail, here).value;
    var m := Coalesce(p, q, fits).value;
    CoalesceParts(p, q, fits);
    var tail' := FoldInto(tail, at, here, m);
    assert Follows(tail, last[key].0);
    var h :| RunHead(tail, h, last[key].0);
    var pos := if key == KeyOf(m) then here else last[key].0;
    FoldIntoAt(tail, at, here, m, h);
    FoldIntoAt(tail, at, here, m, pos);
    if key == KeyOf(m) {
      SignalOfFolded(p, q, fits);
    }
    forall x | Before(h, x) && Before(x, pos) && At(tail', x).Some? ensures KeyOf(At(tail', x).value) != key {
      FoldIntoAt(tail, at, here, m, x);
      assert At(tail, x).Some? && Covered(last, gating, At(tail, x).value, x);
    }
    assert RunHead(tail', h, pos);
  }

  /** Entering an operation that absorbed the row's previous one. */
  lemma TracksFold(tail: seq<Slot>, last: LastOps, gating: GatingChats, at: Pos, here: Pos, fits: RowOp -> bool)
    requires Tracks(tail, last, gating, here) && Absorbs(tail, last, at, here, fits)
    ensures var m := Coalesce(At(tail, at).value, At(tail, here).value, fits).value;
      Tracks(FoldInto(tail, at, here, m), last[KeyOf(m) := (here, false)], Record(gating, m, here), NextTo(here))
  {
    var m := Coalesce(At(tail, at).value, At(tail, here).value, fits).value;
    CoalesceParts(At(tail, at).value, At(tail, here).value, fits);
    var tail', last' := FoldInto(tail, at, here, m), last[KeyOf(m) := (here, false)];
    CoverFold(tail, last, gating, at, here, fits);
    GatesFold(tail, last, gating, at, here, fits);
    forall key | key in last'
      ensures Before(last'[key].0, NextTo(here)) && At(tail', last'[key].0).Some? &&
        KeyOf(At(tail', last'[key].0).value) == key
    {
      FoldIntoAt(tail, at, here, m, last'[key].0);
    }
    forall key | key in last' && key.0 == SESSIONS && !last'[key].1 ensures Follows(tail', last'[key].0) {
      RunsFold(tail, last, gating, at, here, fits, key);
    }
  }

  // ── a fold of the pass is a fold of the queue ─────────────────────────────

  lemma SingleAlive(ops: seq<Option<RowOp>>)
    requires |ops| == 1
    ensures Alive(ops) == if ops[0].Some? then [ops[0].value] else []
  {
    assert ops[1..] == [];
  }

  /** Within one batch, the last live operation of a row. */
  lemma LastInSlot(ops: seq<Option<RowOp>>, k: nat, key: Key)
    requires k < |ops| && ops[k].Some? && KeyOf(ops[k].value) == key
    requires forall i :: k < i < |ops| && ops[i].Some? ==> KeyOf(ops[i].value) != key
    ensures Filter(Alive(ops), key) == Filter(Alive(ops[..k]), key) + [ops[k].value]
  {
    var oh, rest := ops[k].value, ops[k + 1..];
    assert ops == ops[..k] + ([ops[k]] + rest);
    AliveConcat(ops[..k], [ops[k]] + rest);
    AliveConcat([ops[k]], rest);
    SingleAlive([ops[k]]);
    AliveFilterNone(rest, key);
    FilterConcat(Alive(ops[..k]), [oh] + Alive(rest), key);
    FilterConcat([oh], Alive(rest), key);
    FilterOne(oh, key);
  }

  /** Batches strictly between two quiet positions hold nothing of the row. */
  lemma QuietBatches(tail: seq<Slot>, h: Pos, b: nat, key: Key)
    requires Quiet(tail, key, h, (b, 0)) && b <= |tail|
    ensures forall j :: h.0 < j < b ==> Filter(Contents(tail)[j], key) == []
  {
    forall j | h.0 < j < b ensures Filter(Contents(tail)[j], key) == [] {
      var ops := tail[j].ops;
      forall k | 0 <= k < |ops| && ops[k].Some? ensures KeyOf(ops[k].value) != key {
        assert At(tail, (j, k)) == ops[k];
      }
      AliveFilterNone(ops, key);
    }
  }

  /** The latest live operation before a batch is the last one of its row. */
  lemma LastRowOp(tail: seq<Slot>, h: Pos, at: nat, key: Key)
    requires h.0 < at <= |tail| && At(tail, h).Some? && KeyOf(At(tail, h).value) == key
    requires Quiet(tail, key, h, (at, 0))
    ensures var ops := RowOps(Contents(tail)[..at], key); ops != [] && ops[|ops| - 1] == At(tail, h).value
  {
    var bs, slot := Contents(tail), tail[h.0].ops;
    var y := bs[h.0 + 1..at];
    QuietBatches(tail, h, at, key);
    RowOpsNone(y, key);
    forall i | h.1 < i < |slot| && slot[i].Some? ensures KeyOf(slot[i].value) != key {
      assert At(tail, (h.0, i)) == slot[i];
    }
    LastInSlot(slot, h.1, key);
    assert bs[..at] == bs[..h.0] + ([bs[h.0]] + y);
    RowOpsConcat(bs[..h.0], [bs[h.0]] + y, key);
    RowOpsConcat([bs[h.0]], y, key);
    RowOpsOne(bs[h.0], key);
  }

  lemma FoldedContents(tail: seq<Slot>, at: nat, bi: nat, m: RowOp)
    requires at < bi < |tail| && |tail[at].ops| == 1 && |tail[bi].ops| == 1
    ensures Contents(FoldInto(tail, (at, 0), (bi, 0), m)) == Folded(Contents(tail), at, bi, m)
  {
    SingleAlive([None]);
    SingleAlive([Some(m)]);
    assert tail[at].ops[0 := None] == [None] && tail[bi].ops[0 := Some(m)] == [Some(m)];
  }

  /** Whether an operation may move to a later place. */
  predicate MayMove(last: LastOps, gating: GatingChats, at: Pos, prevHead: bool, prev: RowOp, op: RowOp, head: bool) {
    if op.kind == SESSIONS then !head && !prevHead && !(op.id in gating && Before(at, gating[op.id]))
    else if op.kind == CHATS &&
      ChatGates(prev) then !((SESSIONS, op.id) in last && Before(at, last[(SESSIONS, op.id)].0))
    else true
  }

  function HeadsRun(op: RowOp, prev: Option<RowOp>): bool {
    op.kind == SESSIONS && (prev.None? || prev.value.op == Delete || SessionSignal(prev.value) != SessionSignal(op))
  }

  /** What stands after the latest entry of a row, up to the batch being visited. */
  lemma QuietSince(tail: seq<Slot>, last: LastOps, gating: GatingChats, bi: nat, a: Pos, key: Key)
    requires TablesCover(tail, last, gating, (bi, 0)) && bi <= |tail|
    requires key in last ==> !Before(a, last[key].0)
    ensures forall j :: a.0 < j < bi ==> Filter(Contents(tail)[j], key) == []
  {
    forall p | Before(a, p) && Before(p, (bi, 0)) && At(tail, p).Some? ensures KeyOf(At(tail, p).value) != key {
      assert Covered(last, gating, At(tail, p).value, p);
    }
    QuietBatches(tail, a, bi, key);
  }

  lemma UngatedSince(tail: seq<Slot>, last: LastOps, gating: GatingChats, bi: nat, at: nat, id: string)
    requires TablesCover(tail, last, gating, (bi, 0)) && bi < |tail|
    requires id in gating ==> !Before((at, 0), gating[id])
    ensures NoGating(Contents(tail), at, bi, id)
  {
    forall j, op | at < j < bi && op in Filter(Contents(tail)[j], (CHATS, id)) ensures !ChatGates(op) {
      var ops := tail[j].ops;
      FilterKeys(Alive(ops), (CHATS, id));
      AliveMembers(ops);
      var k :| 0 <= k < |ops| && ops[k] == Some(op);
      assert At(tail, (j, k)) == Some(op) && Covered(last, gating, op, (j, k));
    }
  }

  lemma PassMayFold(tail: seq<Slot>, last: LastOps, gating: GatingChats, at: nat, bi: nat, m: RowOp,
                    fits: RowOp -> bool)
    requires Tracks(tail, last, gating, (bi, 0)) && at < bi < |tail|
    requires |tail[at].ops| == 1 && |tail[bi].ops| == 1 && tail[at].ops[0].Some? && tail[bi].ops[0].Some?
    requires var p, q := tail[at].ops[0].value, tail[bi].ops[0].value;
      && KeyOf(q) in last && last[KeyOf(q)].0 == (at, 0)
      && MayMove(last, gating, (at, 0), last[KeyOf(q)].1, p, q, HeadsRun(q, Some(p)))
      && Coalesce(p, q, fits) == Some(m)
    ensures MayFold(Contents(tail), at, bi, m, fits)
  {
    var p, q := tail[at].ops[0].value, tail[bi].ops[0].value;
    var bs := Contents(tail);
    SingleAlive(tail[at].ops);
    SingleAlive(tail[bi].ops);
    assert bs[at] == [p] && bs[bi] == [q];
    assert At(tail, (at, 0)) == Some(p);
    QuietSince(tail, last, gating, bi, (at, 0), KeyOf(p));
    if p.kind == SESSIONS {
      assert Follows(tail, (at, 0));
      var h :| RunHead(tail, h, (at, 0));
      LastRowOp(tail, h, at, KeyOf(p));
      UngatedSince(tail, last, gating, bi, at, p.id);
    } else if p.kind == CHATS && ChatGates(p) {
      QuietSince(tail, last, gating, bi, (at, 0), (SESSIONS, p.id));
    }
  }

  lemma EquivalentReflexive(bs: seq<seq<RowOp>>)
    ensures Equivalent(bs, bs)
  {
    forall key, base ensures SameRow(bs, bs, key, base) {
    }
    forall id ensures SameSignals(bs, bs, id) && SameMarks(bs, bs, id) {
    }
  }

  /** What holds of the pass when it reaches position `here`. */
  ghost predicate PassAt(batches: seq<PendingBatch>, tail: seq<Slot>, last: LastOps, gating: GatingChats, here: Pos,
                         folded: nat) {
    && SlotsFrom(tail, batches)
    && Unvisited(tail, batches, here)
    && Tracks(tail, last, gating, here)
    && Equivalent(BatchOps(batches), Contents(tail))
    && (folded == 0 ==> tail == Opened(batches))
  }

  lemma PassStarts(batches: seq<PendingBatch>)
    ensures PassAt(batches, Opened(batches), map[], map[], (0, 0), 0)
  {
    OpenedContents(batches);
    EquivalentReflexive(BatchOps(batches));
  }

  lemma PassNextBatch(batches: seq<PendingBatch>, tail: seq<Slot>, last: LastOps, gating: GatingChats, bi: nat,
                      folded: nat)
    requires bi < |tail| && PassAt(batches, tail, last, gating, (bi, |tail[bi].ops|), folded)
    ensures PassAt(batches, tail, last, gating, (bi + 1, 0), folded)
  {
    forall p | Before(p, (bi + 1, 0)) && At(tail, p).Some? ensures Covered(last, gating, At(tail, p).value, p) {
      assert Before(p, (bi, |tail[bi].ops|));
    }
  }

  lemma PassKeeps(batches: seq<PendingBatch>, tail: seq<Slot>, last: LastOps, gating: GatingChats, here: Pos,
                  folded: nat)
    requires PassAt(batches, tail, last, gating, here, folded) && At(tail, here).Some?
    ensures var op := At(tail, here).value;
      var prev := if KeyOf(op) in last then At(tail, last[KeyOf(op)].0) else None;
      PassAt(batches, tail, last[KeyOf(op) := (here, HeadsRun(op, prev))], Record(gating, op, here), NextTo(here),
        folded)
  {
    var op := At(tail, here).value;
    var prev := if KeyOf(op) in last then At(tail, last[KeyOf(op)].0) else None;
    if op.kind == SESSIONS && !HeadsRun(op, prev) {
      var h := last[KeyOf(op)].0;
      forall x | Before(h, x) && Before(x, here) && At(tail, x).Some? ensures KeyOf(At(tail, x).value) != KeyOf(op) {
        assert Covered(last, gating, At(tail, x).value, x);
      }
      assert RunHead(tail, h, here);
    }
    TracksNext(tail, last, gating, here, HeadsRun(op, prev));
  }

  /** The pass stands before two operations it may fold. */
  ghost predicate FoldsAt(tail: seq<Slot>, last: LastOps, gating: GatingChats, at: nat, bi: nat, fits: RowOp -> bool) {
    && at < bi < |tail|
    && |tail[at].ops| == 1 && |tail[bi].ops| == 1 && tail[at].ops[0].Some? && tail[bi].ops[0].Some?
    && var p, q := tail[at].ops[0].value, tail[bi].ops[0].value;
    && KeyOf(q) in last && last[KeyOf(q)].0 == (at, 0)
    && MayMove(last, gating, (at, 0), last[KeyOf(q)].1, p, q, HeadsRun(q, Some(p)))
    && Coalesce(p, q, fits).Some?
  }

  lemma FoldedPlaces(batches: seq<PendingBatch>, tail: seq<Slot>, at: nat, bi: nat, m: RowOp)
    requires SlotsFrom(tail, batches) && Unvisited(tail, batches, (bi, 0))
    requires at < bi < |tail| && |tail[at].ops| == 1 && |tail[bi].ops| == 1
    ensures SlotsFrom(FoldInto(tail, (at, 0), (bi, 0), m), batches)
    ensures Unvisited(FoldInto(tail, (at, 0), (bi, 0), m), batches, (bi, 1))
  {
    var tail' := FoldInto(tail, (at, 0), (bi, 0), m);
    forall x | !Before(x, (bi, 1)) ensures At(tail', x) == At(Opened(batches), x) {
      FoldIntoAt(tail, (at, 0), (bi, 0), m, x);
    }
    forall i | 0 <= i < |tail'| ensures SlotFrom(tail'[i], batches[i]) {
      assert SlotFrom(tail[i], batches[i]);
    }
  }

  lemma FoldedEquivalent(batches: seq<PendingBatch>, tail: seq<Slot>, last: LastOps, gating: GatingChats, at: nat,
                         bi: nat,
                         m: RowOp, fits: RowOp -> bool)
    requires Tracks(tail, last, gating, (bi, 0)) && Equivalent(BatchOps(batches), Contents(tail))
    requires FoldsAt(tail, last, gating, at, bi, fits) &&
      Coalesce(tail[at].ops[0].value, tail[bi].ops[0].value, fits) == Some(m)
    ensures Equivalent(BatchOps(batches), Contents(FoldInto(tail, (at, 0), (bi, 0), m)))
  {
    PassMayFold(tail, last, gating, at, bi, m, fits);
    FoldIsInvisible(Contents(tail), at, bi, m, fits);
    FoldedContents(tail, at, bi, m);
    EquivalentTransitive(BatchOps(batches), Contents(tail), Folded(Contents(tail), at, bi, m));
  }

  lemma FoldedTracks(tail: seq<Slot>, last: LastOps, gating: GatingChats, at: nat, bi: nat, m: RowOp,
                     fits: RowOp -> bool)
    requires Tracks(tail, last, gating, (bi, 0))
    requires FoldsAt(tail, last, gating, at, bi, fits) &&
      Coalesce(tail[at].ops[0].value, tail[bi].ops[0].value, fits) == Some(m)
    ensures KeyOf(m) == KeyOf(tail[bi].ops[0].value)
    ensures Tracks(FoldInto(tail, (at, 0), (bi, 0), m), last[KeyOf(m) := ((bi, 0), false)], Record(gating, m, (bi, 0)),
      (bi, 1))
  {
    assert At(tail, (at, 0)) == tail[at].ops[0] && At(tail, (bi, 0)) == tail[bi].ops[0];
    CoalesceParts(tail[at].ops[0].value, tail[bi].ops[0].value, fits);
    TracksFold(tail, last, gating, (at, 0), (bi, 0), fits);
  }

  lemma PassFolds(batches: seq<PendingBatch>, tail: seq<Slot>, last: LastOps, gating: GatingChats, at: nat, bi: nat,
                  folded: nat, fits: RowOp -> bool)
    requires PassAt(batches, tail, last, gating, (bi, 0), folded) && FoldsAt(tail, last, gating, at, bi, fits)
    ensures var q := tail[bi].ops[0].value;
      var m := Coalesce(tail[at].ops[0].value, q, fits).value;
      PassAt(batches, FoldInto(tail, (at, 0), (bi, 0), m), last[KeyOf(q) := ((bi, 0), false)],
             Record(gating, m, (bi, 0)), (bi, 1), folded + 1)
  {
    var m := Coalesce(tail[at].ops[0].value, tail[bi].ops[0].value, fits).value;
    FoldedTracks(tail, last, gating, at, bi, m, fits);
    FoldedPlaces(batches, tail, at, bi, m);
    FoldedEquivalent(batches, tail, last, gating, at, bi, m, fits);
  }

  // ── the pass as a function ────────────────────────────────────────────────

  datatype Pass = Pass(tail: seq<Slot>, last: LastOps, gating: GatingChats, folded: nat)

  ghost predicate PassHolds(batches: seq<PendingBatch>, s: Pass, here: Pos) {
    PassAt(batches, s.tail, s.last, s.gating, here, s.folded)
  }

  ghost predicate PassOk(batches: seq<PendingBatch>, s: Pass, here: Pos) {
    exists t :: t == s && PassHolds(batches, t, here)
  }

  /** The row's previous operation as the table has it. */
  function PrevOp(s: Pass, op: RowOp): Option<RowOp> {
    if KeyOf(op) in s.last then At(s.tail, s.last[KeyOf(op)].0) else None
  }

  /** The operation that replaces the one at (`bi`, `oi`) and its row's
      previous one, when the merge is exact and the move invisible. */
  function MergeAt(s: Pass, bi: nat, oi: nat, fits: RowOp -> bool): (m: Option<RowOp>)
    requires At(s.tail, (bi, oi)).Some?
    ensures m.Some? ==> KeyOf(At(s.tail, (bi, oi)).value) in s.last
    ensures m.Some? ==> var at := s.last[KeyOf(At(s.tail, (bi, oi)).value)].0; at.0 < bi && At(s.tail, at).Some?
  {
    var op := At(s.tail, (bi, oi)).value;
    var prev := PrevOp(s, op);
    if prev.None? then None
    else
      var (at, prevHead) := s.last[KeyOf(op)];
      if at.0 < bi && |s.tail[bi].ops| == 1 && |s.tail[at.0].ops| == 1
         && MayMove(s.last, s.gating, at, prevHead, prev.value, op, HeadsRun(op, prev))
      then Coalesce(prev.value, op, fits) else None
  }

  /** The pass after visiting one place. */
  function Visited(s: Pass, bi: nat, oi: nat, fits: RowOp -> bool): Pass {
    match At(s.tail, (bi, oi))
    case None => s
    case Some(op) =>
      var here, last' := (bi, oi), s.last[KeyOf(op) := ((bi, oi), HeadsRun(op, PrevOp(s, op)))];
      match MergeAt(s, bi, oi, fits)
      case None => s.(last := last', gating := Record(s.gating, op, here))
      case Some(m) => Pass(FoldInto(s.tail, s.last[KeyOf(op)].0, here, m), last', Record(s.gating, m, here),
        s.folded + 1)
  }

  /** After the first `n` operations of a batch. */
  function BatchTo(s: Pass, bi: nat, n: nat, fits: RowOp -> bool): Pass {
    if n == 0 then s else Visited(BatchTo(s, bi, n - 1, fits), bi, n - 1, fits)
  }

  /** After the first `n` batches. */
  function PassTo(batches: seq<PendingBatch>, n: nat, fits: RowOp -> bool): Pass
    requires n <= |batches|
  {
    if n == 0 then Pass(Opened(batches), map[], map[], 0)
    else BatchTo(PassTo(batches, n - 1, fits), n - 1, |batches[n - 1].ops|, fits)
  }

  function PassOf(batches: seq<PendingBatch>, fits: RowOp -> bool): Pass {
    PassTo(batches, |batches|, fits)
  }

  lemma VisitKeeps(batches: seq<PendingBatch>, s: Pass, bi: nat, oi: nat, fits: RowOp -> bool)
    requires PassOk(batches, s, (bi, oi)) && At(s.tail, (bi, oi)).Some? && MergeAt(s, bi, oi, fits).None?
    ensures PassOk(batches, Visited(s, bi, oi, fits), (bi, oi + 1))
  {
    PassKeeps(batches, s.tail, s.last, s.gating, (bi, oi), s.folded);
    assert PassHolds(batches, Visited(s, bi, oi, fits), (bi, oi + 1));
  }

  /** A merge is of two operations alone in their batches. */
  lemma MergeShape(s: Pass, bi: nat, oi: nat, fits: RowOp -> bool)
    requires At(s.tail, (bi, oi)).Some? && MergeAt(s, bi, oi, fits).Some?
    ensures oi == 0 && bi < |s.tail| && |s.tail[bi].ops| == 1
    ensures var q := At(s.tail, (bi, 0)).value;
      && KeyOf(q) in s.last && s.last[KeyOf(q)].0.1 == 0
      && var at := s.last[KeyOf(q)].0.0;
      && at < bi && |s.tail[at].ops| == 1 && s.tail[at].ops[0].Some?
      && var p := s.tail[at].ops[0].value;
      && MayMove(s.last, s.gating, (at, 0), s.last[KeyOf(q)].1, p, q, HeadsRun(q, Some(p)))
      && Coalesce(p, q, fits) == MergeAt(s, bi, oi, fits)
      && !HeadsRun(q, PrevOp(s, q))
  {
  }

  lemma VisitFolds(batches: seq<PendingBatch>, s: Pass, bi: nat, oi: nat, fits: RowOp -> bool)
    requires PassOk(batches, s, (bi, oi)) && At(s.tail, (bi, oi)).Some? && MergeAt(s, bi, oi, fits).Some?
    ensures PassOk(batches, Visited(s, bi, oi, fits), (bi, oi + 1))
  {
    MergeShape(s, bi, oi, fits);
    var q := At(s.tail, (bi, 0)).value;
    PassFolds(batches, s.tail, s.last, s.gating, s.last[KeyOf(q)].0.0, bi, s.folded, fits);
    assert PassHolds(batches, Visited(s, bi, oi, fits), (bi, oi + 1));
  }

  lemma VisitedOk(batches: seq<PendingBatch>, s: Pass, bi: nat, oi: nat, fits: RowOp -> bool)
    requires bi < |batches| && oi < |batches[bi].ops| && PassOk(batches, s, (bi, oi))
    ensures PassOk(batches, Visited(s, bi, oi, fits), (bi, oi + 1))
  {
    PassShape(batches, s, (bi, oi));
    if MergeAt(s, bi, oi, fits).Some? {
      VisitFolds(batches, s, bi, oi, fits);
    } else {
      VisitKeeps(batches, s, bi, oi, fits);
    }
  }

  lemma PassShape(batches: seq<PendingBatch>, s: Pass, here: Pos)
    requires PassOk(batches, s, here)
    ensures |s.tail| == |batches| && forall i :: 0 <= i < |s.tail| ==> |s.tail[i].ops| == |batches[i].ops|
    ensures here.0 < |batches| && here.1 < |batches[here.0].ops| ==>
      At(s.tail, here) == Some(batches[here.0].ops[here.1])
  {
    forall i | 0 <= i < |s.tail| ensures |s.tail[i].ops| == |batches[i].ops| {
      assert SlotFrom(s.tail[i], batches[i]);
    }
    assert At(s.tail, here) == At(Opened(batches), here);
  }

  lemma BatchOk(batches: seq<PendingBatch>, s: Pass, bi: nat, n: nat, fits: RowOp -> bool)
    requires bi < |batches| && n <= |batches[bi].ops| && PassOk(batches, s, (bi, 0))
    ensures PassOk(batches, BatchTo(s, bi, n, fits), (bi, n))
  {
    for k := 0 to n
      invariant exists m: nat :: m == k && PassOk(batches, BatchTo(s, bi, m, fits), (bi, m))
    {
      VisitedOk(batches, BatchTo(s, bi, k, fits), bi, k, fits);
    }
  }

  lemma PassOpens(batches: seq<PendingBatch>, s: Pass)
    requires s == Pass(Opened(batches), map[], map[], 0)
    ensures PassOk(batches, s, (0, 0))
  {
    PassStarts(batches);
    assert PassHolds(batches, s, (0, 0));
  }

  lemma BatchNext(batches: seq<PendingBatch>, s: Pass, next: nat, fits: RowOp -> bool, t: Pass)
    requires 0 < next <= |batches| && PassOk(batches, s, (next - 1, 0))
    requires t == BatchTo(s, next - 1, |batches[next - 1].ops|, fits)
    ensures PassOk(batches, t, (next, 0))
  {
    var bi := next - 1;
    var n := |batches[bi].ops|;
    BatchOk(batches, s, bi, n, fits);
    PassShape(batches, t, (bi, n));
    PassNextBatch(batches, t.tail, t.last, t.gating, bi, t.folded);
    assert PassHolds(batches, t, (next, 0));
  }

  lemma {:induction false} PassKept(batches: seq<PendingBatch>, n: nat, fits: RowOp -> bool)
    requires n <= |batches|
    ensures PassOk(batches, PassTo(batches, n, fits), (n, 0))
  {
    if n == 0 {
      PassOpens(batches, PassTo(batches, 0, fits));
    } else {
      PassKept(batches, n - 1, fits);
      BatchNext(batches, PassTo(batches, n - 1, fits), n, fits, PassTo(batches, n, fits));
    }
  }

  /** Main result for one pass: whatever it folds, no row table and no room
      can tell; batches written as units keep every operation, and a batch
      that changed content is marked. */
  lemma PassIsInvisible(batches: seq<PendingBatch>, fits: RowOp -> bool)
    ensures var s := PassOf(batches, fits);
      && SlotsFrom(s.tail, batches)
      && Equivalent(BatchOps(batches), Contents(s.tail))
      && (s.folded == 0 ==> s.tail == Opened(batches))
  {
    PassKept(batches, |batches|, fits);
  }

  /** What a compaction leaves of the unsent batches. */
  function Squeezed(unsent: seq<PendingBatch>, fits: RowOp -> bool): seq<seq<RowOp>> {
    if |unsent| < 2 || PassOf(unsent, fits).folded == 0 then BatchOps(unsent)
    else DropEmpty(Contents(PassOf(unsent, fits).tail))
  }

  /** What a compaction leaves is what folding leaves: same rows, same signals
      and marks, and the same notifications as far as `ReducedNotices` goes. */
  lemma SqueezedReduces(unsent: seq<PendingBatch>, fits: RowOp -> bool)
    requires forall i :: 0 <= i < |unsent| ==> unsent[i].ops != []
    ensures Reduced(BatchOps(unsent), Squeezed(unsent, fits))
  {
    var bs := BatchOps(unsent);
    if |unsent| < 2 || PassOf(unsent, fits).folded == 0 {
      EquivalentReflexive(bs);
      DropEmptyNone(bs);
      assert ReducedBy(bs, bs, bs);
    } else {
      PassIsInvisible(unsent, fits);
      assert ReducedBy(bs, Contents(PassOf(unsent, fits).tail), Squeezed(unsent, fits));
    }
  }

  /** A compaction keeps the order of signals, removals and gating chat
      operations of every session, whoever wrote them. */
  lemma SqueezeKeepsMarks(unsent: seq<PendingBatch>, fits: RowOp -> bool, id: string)
    ensures SameMarks(BatchOps(unsent), Contents(PassOf(unsent, fits).tail), id)
    ensures SameMarks(BatchOps(unsent), Squeezed(unsent, fits), id)
  {
    PassIsInvisible(unsent, fits);
    assert SameMarks(BatchOps(unsent), Contents(PassOf(unsent, fits).tail), id);
    DropEmptyMarks(Contents(PassOf(unsent, fits).tail), id);
  }

  // ── the pass as code ──────────────────────────────────────────────────────

  /** Visit the operation at (`bi`, `oi`). */
  method Visit(s: Pass, bi: nat, oi: nat, fits: RowOp -> bool) returns (next: Pass)
    requires bi < |s.tail| && oi < |s.tail[bi].ops|
    requires forall key :: key in s.last ==> Before(s.last[key].0, (bi, oi)) && At(s.tail, s.last[key].0).Some?
    ensures next == Visited(s, bi, oi, fits)
  {
    if s.tail[bi].ops[oi].None? {
      return s;
    }
    var op, here := s.tail[bi].ops[oi].value, (bi, oi);
    var key := KeyOf(op);
    var tail, last, gating, folded := s.tail, s.last, s.gating, s.folded;
    var head := op.kind == SESSIONS;
    var merged: Option<RowOp> := None;
    if key in last {
      var (at, prevHead) := last[key];
      var prev := tail[at.0].ops[at.1].value;
      head := head && (prev.op == Delete || SessionSignal(prev) != SessionSignal(op));
      var mayMove := true;
      if op.kind == SESSIONS {
        mayMove := !head && !prevHead && !(op.id in gating && Before(at, gating[op.id]));
      } else if op.kind == CHATS && ChatGates(prev) {
        mayMove := !((SESSIONS, op.id) in last && Before(at, last[(SESSIONS, op.id)].0));
      }
      if |tail[bi].ops| == 1 && |tail[at.0].ops| == 1 && mayMove {
        merged := Coalesce(prev, op, fits);
        if merged.Some? {
          tail := FoldInto(tail, at, here, merged.value);
          op := merged.value;
          folded := folded + 1;
        }
      }
    }
    if op.kind == CHATS && ChatGates(op) {
      gating := gating[op.id := here];
    }
    last := last[key := (here, head)];
    next := Pass(tail, last, gating, folded);
  }

  /** What `Visit` needs of the tables. */
  lemma VisitReady(batches: seq<PendingBatch>, s: Pass, bi: nat, oi: nat)
    requires bi < |batches| && oi < |batches[bi].ops| && PassOk(batches, s, (bi, oi))
    ensures bi < |s.tail| && oi < |s.tail[bi].ops|
    ensures forall key :: key in s.last ==> Before(s.last[key].0, (bi, oi)) && At(s.tail, s.last[key].0).Some?
  {
    PassShape(batches, s, (bi, oi));
  }

  /** The compactor's pass over the unsent batches. */
  method FoldPass(batches: seq<PendingBatch>, fits: RowOp -> bool) returns (tail: seq<Slot>, folded: nat)
    ensures tail == PassOf(batches, fits).tail && folded == PassOf(batches, fits).folded
  {
    var s := Pass(Opened(batches), map[], map[], 0);
    for bi := 0 to |batches|
      invariant s == PassTo(batches, bi, fits)
    {
      PassKept(batches, bi, fits);
      for oi := 0 to |batches[bi].ops|
        invariant s == BatchTo(PassTo(batches, bi, fits), bi, oi, fits)
      {
        BatchOk(batches, PassTo(batches, bi, fits), bi, oi, fits);
        VisitReady(batches, s, bi, oi);
        s := Visit(s, bi, oi, fits);
      }
    }
    return s.tail, s.folded;
  }
}
