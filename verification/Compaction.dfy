/** Why folding one queued operation into a later one is invisible: every row
    ends up the same and every session sends the same notifications. */
module Compaction {
  import opened Options
  import opened Rows
  import opened Notifications

  ghost predicate SameRow(a: seq<seq<RowOp>>, b: seq<seq<RowOp>>, key: Key, base: Option<Row>) {
    Replay(base, RowOps(a, key)) == Replay(base, RowOps(b, key))
  }

  /** The freshness of a view that awaits input is the same at all these times. */
  ghost predicate NeverStale(v: SessionView, times: seq<int>) {
    Waits(v) ==>
      forall i, j :: 0 <= i < |times| && 0 <= j < |times| ==> Fresh(v, times[i]) == Fresh(v, times[j])
  }

  /** Of two views that await input, the later one is fresh whenever the earlier one is. */
  ghost predicate Outlasts(earlier: SessionView, later: SessionView, times: seq<int>) {
    Waits(earlier) && Waits(later) ==>
      forall i :: 0 <= i < |times| && Fresh(earlier, times[i]) ==> Fresh(later, times[i])
  }

  /** `y` is written after `x` and stays fresh no shorter, or `x` is not a wait. */
  ghost predicate Freshens(x: RowOp, y: RowOp, times: seq<int>) {
    Outlasts(ViewWritten(x), ViewWritten(y), times)
  }

  /** No write of the session crosses the staleness limit while the queue is
      applied, and none is stale while an earlier one is fresh: the limit does
      not fall between two writes whose update times run backwards. */
  ghost predicate Steady(ops: seq<RowOp>, last: Option<RowOp>, times: seq<int>) {
    && (forall i :: 0 <= i < |ops| ==> NeverStale(ViewWritten(ops[i]), times))
    && (forall i, j :: 0 <= i < j < |ops| ==> Freshens(ops[i], ops[j], times))
    && (last.Some? ==>
          NeverStale(ViewWritten(last.value), times) && forall i :: 0 <= i < |ops| && last.value.hlc < ops[i].hlc ==>
            Freshens(last.value, ops[i], times))
  }

  /** For a session written by one device, applied at any times on which its
      writes are steady: queue `b` is of the same kind and, each batch applied
      at its time, sends exactly the notifications of queue `a`. */
  ghost predicate SameNotices(a: seq<seq<RowOp>>, b: seq<seq<RowOp>>, id: string, room: Room, last: Option<RowOp>,
                              times: seq<int>) {
    var x, y := RowOps(a, (SESSIONS, id)), RowOps(b, (SESSIONS, id));
    |times| == |a| && SingleWriter(room.session, x, last) && Steady(x, last, times) ==>
      && |b| == |a| && SingleWriter(room.session, y, last) && Steady(y, last, times)
      && Trace(room, a, times, id) == Trace(room, b, times, id)
  }

  /** A session's operations carry the same signals in the same order, repeats aside. */
  ghost predicate SameSignals(a: seq<seq<RowOp>>, b: seq<seq<RowOp>>, id: string) {
    Signals(RowOps(a, (SESSIONS, id))) == Signals(RowOps(b, (SESSIONS, id)))
  }

  /** What notifications of one session turn on, in queue order: its signals
      and removals, and the gating operations of its chat. */
  datatype Mark = Signalled(signal: Signal) | Removed | Gate

  function MarkOf(op: RowOp, id: string): seq<Mark> {
    if KeyOf(op) == (SESSIONS, id) then [if op.op == Delete then Removed else Signalled(SessionSignal(op))]
    else if KeyOf(op) == (CHATS, id) && ChatGates(op) then [Gate]
    else []
  }

  function BatchMarks(ops: seq<RowOp>, id: string): seq<Mark>
    decreases |ops|
  {
    if ops == [] then [] else MarkOf(ops[0], id) + BatchMarks(ops[1..], id)
  }

  function QueueMarks(batches: seq<seq<RowOp>>, id: string): seq<Mark>
    decreases |batches|
  {
    if batches == [] then [] else BatchMarks(batches[0], id) + QueueMarks(batches[1..], id)
  }

  /** The marks with repeats removed. */
  function Collapsed(marks: seq<Mark>): (r: seq<Mark>)
    ensures marks != [] ==> r != [] && r[|r| - 1] == marks[|marks| - 1]
  {
    if marks == [] then []
    else
      var front, last := Collapsed(marks[..|marks| - 1]), marks[|marks| - 1];
      if front != [] && front[|front| - 1] == last then front else front + [last]
  }

  /** A session's signals, removals and gating chat operations alternate
      alike: none is lost, and no two of different kinds swap. */
  ghost predicate SameMarks(a: seq<seq<RowOp>>, b: seq<seq<RowOp>>, id: string) {
    Collapsed(QueueMarks(a, id)) == Collapsed(QueueMarks(b, id))
  }

  /** No row table and no room can tell queue `b` from queue `a`. */
  ghost predicate Equivalent(a: seq<seq<RowOp>>, b: seq<seq<RowOp>>) {
    && (forall key, base :: SameRow(a, b, key, base))
    && (forall id, room, last, times :: SameNotices(a, b, id, room, last, times))
    && (forall id :: SameSignals(a, b, id))
    && (forall id :: SameMarks(a, b, id))
  }

  lemma EquivalentTransitive(a: seq<seq<RowOp>>, b: seq<seq<RowOp>>, c: seq<seq<RowOp>>)
    requires Equivalent(a, b) && Equivalent(b, c)
    ensures Equivalent(a, c)
  {
    forall key, base ensures SameRow(a, c, key, base) {
      assert SameRow(a, b, key, base) && SameRow(b, c, key, base);
    }
    forall id, room, last, times ensures SameNotices(a, c, id, room, last, times) {
      assert SameNotices(a, b, id, room, last, times) && SameNotices(b, c, id, room, last, times);
    }
    forall id ensures SameSignals(a, c, id) && SameMarks(a, c, id) {
      assert SameSignals(a, b, id) && SameSignals(b, c, id) && SameMarks(a, b, id) && SameMarks(b, c, id);
    }
  }

  // ── the fold, as one rewriting step ───────────────────────────────────────

  /** The queue with batch `at` emptied and batch `bi` holding `m` alone. */
  function Folded(bs: seq<seq<RowOp>>, at: nat, bi: nat, m: RowOp): seq<seq<RowOp>>
    requires at < bi < |bs|
  {
    bs[at := []][bi := [m]]
  }

  /** When the compactor folds the only operation of batch `at` into the only
      operation of batch `bi`. */
  ghost predicate MayFold(bs: seq<seq<RowOp>>, at: nat, bi: nat, m: RowOp, fits: RowOp -> bool) {
    && at < bi < |bs| && |bs[at]| == 1 && |bs[bi]| == 1
    && var p, q := bs[at][0], bs[bi][0];
    && KeyOf(p) == KeyOf(q)
    && Coalesce(p, q, fits) == Some(m)
    && (forall j :: at < j < bi ==> Filter(bs[j], KeyOf(p)) == [])
    && (p.kind == SESSIONS ==> FollowsRun(bs, at, q) && NoGating(bs, at, bi, p.id))
    && (p.kind == CHATS && ChatGates(p) ==> forall j :: at < j < bi ==> Filter(bs[j], (SESSIONS, p.id)) == [])
  }

  /** Before batch `at` the session's latest operation carries the signal of
      the operation of `at` and of `q`: neither heads a run. */
  ghost predicate FollowsRun(bs: seq<seq<RowOp>>, at: nat, q: RowOp) {
    && at < |bs| && |bs[at]| == 1
    && var p, before := bs[at][0], RowOps(bs[..at], KeyOf(bs[at][0]));
    && before != []
    && before[|before| - 1].op != Delete
    && SessionSignal(before[|before| - 1]) == SessionSignal(p) == SessionSignal(q)
  }

  ghost predicate NoGating(bs: seq<seq<RowOp>>, at: nat, bi: nat, id: string) {
    forall j :: at < j < bi && j < |bs| ==> forall op :: op in Filter(bs[j], (CHATS, id)) ==> !ChatGates(op)
  }

  lemma Decompose(bs: seq<seq<RowOp>>, at: nat, bi: nat, m: RowOp)
    requires at < bi < |bs| && |bs[at]| == 1 && |bs[bi]| == 1
    ensures bs == bs[..at] + ([bs[at]] + (bs[at + 1..bi] + ([bs[bi]] + bs[bi + 1..])))
    ensures Folded(bs, at, bi, m) == bs[..at] + ([[]] + (bs[at + 1..bi] + ([[m]] + bs[bi + 1..])))
  {
  }

  lemma RowOpsFive(x: seq<seq<RowOp>>, p: seq<RowOp>, y: seq<seq<RowOp>>, q: seq<RowOp>, z: seq<seq<RowOp>>, key: Key)
    ensures RowOps(x + ([p] + (y + ([q] + z))), key)
         == RowOps(x, key) + (Filter(p, key) + (RowOps(y, key) + (Filter(q, key) + RowOps(z, key))))
  {
    RowOpsConcat(x, [p] + (y + ([q] + z)), key);
    RowOpsConcat([p], y + ([q] + z), key);
    RowOpsConcat(y, [q] + z, key);
    RowOpsConcat([q], z, key);
    RowOpsOne(p, key);
    RowOpsOne(q, key);
  }

  lemma FilterOne(op: RowOp, key: Key)
    ensures Filter([op], key) == if KeyOf(op) == key then [op] else []
  {
    assert [op][1..] == [];
  }

  /** The folded row's operations: `p, q` become `m`, every other row's are unchanged. */
  lemma FoldedRowOps(bs: seq<seq<RowOp>>, at: nat, bi: nat, m: RowOp, fits: RowOp -> bool, key: Key)
    requires MayFold(bs, at, bi, m, fits)
    ensures var p, q := bs[at][0], bs[bi][0];
      var x, z := RowOps(bs[..at], key), RowOps(bs[bi + 1..], key);
      if key == KeyOf(p) then RowOps(bs, key) == x + ([p, q] + z) && RowOps(Folded(bs, at, bi, m), key) == x + ([m] + z)
      else RowOps(bs, key) == RowOps(Folded(bs, at, bi, m), key)
  {
    var p, q := bs[at][0], bs[bi][0];
    CoalesceParts(p, q, fits);
    Decompose(bs, at, bi, m);
    assert bs[at] == [p] && bs[bi] == [q];
    FiveRowOps(bs[..at], p, bs[at + 1..bi], q, m, bs[bi + 1..], key);
  }

  lemma {:induction false} FiveRowOps(x: seq<seq<RowOp>>, p: RowOp, y: seq<seq<RowOp>>, q: RowOp, m: RowOp,
                                      z: seq<seq<RowOp>>, key: Key)
    requires KeyOf(p) == KeyOf(q) == KeyOf(m)
    requires forall j :: 0 <= j < |y| ==> Filter(y[j], KeyOf(p)) == []
    ensures
      var before := RowOps(x + ([[p]] + (y + ([[q]] + z))), key);
      var after := RowOps(x + ([[]] + (y + ([[m]] + z))), key);
      if key == KeyOf(p) then before == RowOps(x, key) + ([p, q] + RowOps(z, key)) &&
        after == RowOps(x, key) + ([m] + RowOps(z, key))
      else before == after
  {
    RowOpsFive(x, [p], y, [q], z, key);
    RowOpsFive(x, [], y, [m], z, key);
    FilterOne(p, key);
    FilterOne(q, key);
    FilterOne(m, key);
    if key == KeyOf(p) {
      RowOpsNone(y, key);
      PairUp(p, q, RowOps(z, key));
      PairUp(m, m, RowOps(z, key));
    }
  }

  lemma PairUp(p: RowOp, q: RowOp, z: seq<RowOp>)
    ensures [p] + ([] + ([q] + z)) == [p, q] + z
    ensures [] + ([] + ([p] + z)) == [p] + z
  {
  }

  lemma ReplayPair(row: Option<Row>, p: RowOp, q: RowOp)
    ensures Replay(row, [p, q]) == Step(Step(row, p), q)
    ensures Replay(row, [p]) == Step(row, p)
  {
    assert [p, q][1..] == [q] && [q][1..] == [] && [p][1..] == [];
    assert Replay(Step(row, p), [q]) == Step(Step(row, p), q);
  }

  lemma FoldKeepsRow(bs: seq<seq<RowOp>>, at: nat, bi: nat, m: RowOp, fits: RowOp -> bool, key: Key, base: Option<Row>)
    requires MayFold(bs, at, bi, m, fits)
    ensures SameRow(bs, Folded(bs, at, bi, m), key, base)
  {
    var p, q := bs[at][0], bs[bi][0];
    FoldedRowOps(bs, at, bi, m, fits, key);
    if key == KeyOf(p) {
      var x, z := RowOps(bs[..at], key), RowOps(bs[bi + 1..], key);
      ReplayConcat(base, x, [p, q] + z);
      ReplayConcat(base, x, [m] + z);
      var mid := Replay(base, x);
      ReplayConcat(mid, [p, q], z);
      ReplayConcat(mid, [m], z);
      ReplayPair(mid, p, q);
      ReplayPair(mid, m, m);
      CoalesceExact(mid, p, q, fits);
    }
  }

  // ── the notifications of a folded queue ───────────────────────────────────

  /** Times of the five parts of a queue. */
  datatype Times = Times(x: seq<int>, s: int, y: seq<int>, t: int, z: seq<int>) {
    function All(): seq<int> {
      x + ([s] + (y + ([t] + z)))
    }
  }

  lemma {:induction false} TraceFive(room: Room, x: seq<seq<RowOp>>, p: seq<RowOp>, y: seq<seq<RowOp>>, q: seq<RowOp>,
                  z: seq<seq<RowOp>>, times: Times, id: string)
    requires |times.x| == |x| && |times.y| == |y| && |times.z| == |z|
    ensures
      var r0 := RoomAfter(room, x, id);
      var r1 := RoomAfter(r0, [p], id);
      var r2 := RoomAfter(r1, y, id);
      var r3 := RoomAfter(r2, [q], id);
      Trace(room, x + ([p] + (y + ([q] + z))), times.All(), id)
        == Trace(room, x, times.x, id) + (Emit(r0, p, id, times.s) + (Trace(r1, y, times.y, id)
           + (Emit(r2, q, id, times.t) + Trace(r3, z, times.z, id))))
  {
    var r0 := RoomAfter(room, x, id);
    var r1 := RoomAfter(r0, [p], id);
    var r2 := RoomAfter(r1, y, id);
    var tz := [times.t] + times.z;
    var ty := times.y + tz;
    TraceConcat(room, x, [p] + (y + ([q] + z)), times.x, [times.s] + ty, id);
    TraceConcat(r0, [p], y + ([q] + z), [times.s], ty, id);
    TraceConcat(r1, y, [q] + z, times.y, tz, id);
    TraceConcat(r2, [q], z, [times.t], times.z, id);
    TraceOne(r0, p, id, times.s);
    TraceOne(r2, q, id, times.t);
  }

  lemma OneBatchOps(op: RowOp, key: Key)
    ensures RowOps([[op]], key) == if KeyOf(op) == key then [op] else []
  {
    RowOpsOne([op], key);
    FilterOne(op, key);
  }

  /** One row on either side of the fold: with `p` in its place, and without. */
  lemma RowsMeet(row: Option<Row>, p: RowOp, y: seq<seq<RowOp>>, q: RowOp, m: RowOp, fits: RowOp -> bool, key: Key)
    requires KeyOf(p) == KeyOf(q) && Coalesce(p, q, fits) == Some(m)
    requires forall j :: 0 <= j < |y| ==> Filter(y[j], KeyOf(p)) == []
    ensures Replay(Replay(Replay(row, RowOps([[p]], key)), RowOps(y, key)), RowOps([[q]], key))
         == Replay(Replay(row, RowOps(y, key)), RowOps([[m]], key))
  {
    CoalesceParts(p, q, fits);
    OneBatchOps(p, key);
    OneBatchOps(q, key);
    OneBatchOps(m, key);
    if key == KeyOf(p) {
      RowOpsNone(y, key);
      ReplayPair(row, p, q);
      ReplayPair(Step(row, p), q, q);
      ReplayPair(row, m, m);
      CoalesceExact(row, p, q, fits);
    }
  }

  /** The rooms on either side of the fold. */
  lemma RoomsMeet(r0: Room, p: RowOp, y: seq<seq<RowOp>>, q: RowOp, m: RowOp, fits: RowOp -> bool, id: string)
    requires KeyOf(p) == KeyOf(q) && Coalesce(p, q, fits) == Some(m)
    requires forall j :: 0 <= j < |y| ==> Filter(y[j], KeyOf(p)) == []
    ensures RoomAfter(r0, [[]], id) == r0
    ensures RoomAfter(RoomAfter(RoomAfter(r0, [[p]], id), y, id), [[q]], id)
         == RoomAfter(RoomAfter(r0, y, id), [[m]], id)
  {
    RowOpsOne([], (SESSIONS, id));
    RowOpsOne([], (CHATS, id));
    RowsMeet(r0.session, p, y, q, m, fits, (SESSIONS, id));
    RowsMeet(r0.chat, p, y, q, m, fits, (CHATS, id));
  }

  /** Folding operations of unrelated rows, or of the session's chat row. */
  lemma FoldOtherRow(r0: Room, p: RowOp, y: seq<seq<RowOp>>, q: RowOp, m: RowOp, fits: RowOp -> bool, id: string,
                     times: Times)
    requires KeyOf(p) == KeyOf(q) != (SESSIONS, id) && Coalesce(p, q, fits) == Some(m) && |times.y| == |y|
    requires forall j :: 0 <= j < |y| ==> Filter(y[j], KeyOf(p)) == []
    requires KeyOf(p) == (CHATS, id) && ChatGates(p) ==> forall j :: 0 <= j < |y| ==> Filter(y[j], (SESSIONS, id)) == []
    ensures MiddleSame(r0, p, y, q, m, id, times)
  {
    CoalesceParts(p, q, fits);
    FilterOne(p, (SESSIONS, id)); FilterOne(q, (SESSIONS, id)); FilterOne(m, (SESSIONS, id));
    var r1 := RoomAfter(r0, [[p]], id);
    RowOpsOne([p], (SESSIONS, id));
    RowOpsOne([p], (CHATS, id));
    FilterOne(p, (CHATS, id));
    if KeyOf(p) == (CHATS, id) {
      if ChatGates(p) {
        QuietTrace(r1, y, times.y, id);
        QuietTrace(r0, y, times.y, id);
      } else {
        ReplayPair(r0.chat, p, p);
        NonGatingKeepsView(r0.chat, p);
        TraceByView(r1, r0, y, times.y, id);
      }
    } else {
      assert r1 == r0;
    }
  }

  lemma {:induction false} FilterKeys(ops: seq<RowOp>, key: Key)
    ensures forall op :: op in Filter(ops, key) ==> op in ops && KeyOf(op) == key
    decreases |ops|
  {
    if ops == [] {
    } else {
      FilterKeys(ops[1..], key);
    }
  }

  lemma {:induction false} RowOpsKeys(batches: seq<seq<RowOp>>, key: Key)
    ensures forall op :: op in RowOps(batches, key) ==> KeyOf(op) == key
    decreases |batches|
  {
    if batches == [] {
    } else {
      FilterKeys(batches[0], key);
      RowOpsKeys(batches[1..], key);
    }
  }

  lemma {:induction false} UngatedRowOps(y: seq<seq<RowOp>>, id: string)
    requires forall j :: 0 <= j < |y| ==> forall op :: op in Filter(y[j], (CHATS, id)) ==> !ChatGates(op)
    ensures forall op :: op in RowOps(y, (CHATS, id)) ==> !ChatGates(op)
    decreases |y|
  {
    if y == [] {
    } else {
      UngatedRowOps(y[1..], id);
      assert forall op :: op in Filter(y[0], (CHATS, id)) ==> !ChatGates(op);
    }
  }

  lemma SameSignalSameStatus(x: RowOp, y: RowOp)
    requires x.op != Delete && y.op != Delete && SessionSignal(x) == SessionSignal(y)
    ensures SameStatus(ViewWritten(x), ViewWritten(y))
  {
    assert WriteOf(x, "status") == WriteOf(y, "status");
    assert WriteOf(x, "lastCompletedTurn") == WriteOf(y, "lastCompletedTurn");
  }

  lemma EmitOne(room: Room, op: RowOp, id: string, now: int)
    requires KeyOf(op) == (SESSIONS, id)
    ensures RoomAfter(room, [[op]], id) == Room(Step(room.session, op), room.chat)
    ensures Emit(room, [op], id, now)
         == Notify(SessionViewOf(room.session), SessionViewOf(Step(room.session, op)), ViewOf(room.chat), now)
  {
    RowOpsOne([op], (SESSIONS, id));
    RowOpsOne([op], (CHATS, id));
    FilterOne(op, (SESSIONS, id));
    FilterOne(op, (CHATS, id));
    ReplayPair(room.session, op, op);
  }

  /** Batches without session operations and without gating chat operations
      send nothing and leave both the session row and the chat's view alone. */
  lemma {:induction false} Interlude(room: Room, y: seq<seq<RowOp>>, times: seq<int>, id: string)
    requires |times| == |y| && forall j :: 0 <= j < |y| ==> Filter(y[j], (SESSIONS, id)) == []
    requires forall j :: 0 <= j < |y| ==> forall op :: op in Filter(y[j], (CHATS, id)) ==> !ChatGates(op)
    ensures Trace(room, y, times, id) == []
    ensures RoomAfter(room, y, id).session == room.session
    ensures ViewOf(RoomAfter(room, y, id).chat) == ViewOf(room.chat)
  {
    QuietTrace(room, y, times, id);
    RowOpsNone(y, (SESSIONS, id));
    UngatedRowOps(y, id);
    NonGatingRunKeepsView(room.chat, RowOps(y, (CHATS, id)));
  }

  /** Two touches of one signal arrive: what the room sends for both, and what
      for their fold. */
  ghost predicate TouchesAlike(row: Option<Row>, p: RowOp, q: RowOp, view: ChatView, s: int, t: int) {
    var mid := Step(row, p);
    var end := Step(mid, q);
    Notify(SessionViewOf(row), SessionViewOf(mid), view, s) + Notify(SessionViewOf(mid), SessionViewOf(end), view, t)
      == Notify(SessionViewOf(row), SessionViewOf(end), view, t)
  }

  /** Both touches are news to the room. */
  lemma NewTouchesIff(row: Option<Row>, e: RowOp, p: RowOp, q: RowOp, view: ChatView, s: int, t: int)
    requires Shows(row, e) && SameStatus(ViewWritten(e), ViewWritten(p)) && SameStatus(ViewWritten(p), ViewWritten(q))
    requires SessionWrite(p) && SessionWrite(q) && InOrder(e, p) && InOrder(p, q)
    ensures TouchesAlike(row, p, q, view, s, t) <==>
      NoticesAlike(ViewWritten(e), ViewWritten(p), ViewWritten(q), s, t)
  {
    var mid := Step(row, p);
    NewestShows(row, p);
    NewestShows(mid, q);
    ShownView(row, e);
    ShownView(mid, p);
    ShownView(Step(mid, q), q);
    RunFoldsIff(ViewWritten(e), ViewWritten(p), ViewWritten(q), view, s, t);
  }

  /** The room had the first touch already, as in a re-push. */
  lemma KnownTouches(row: Option<Row>, e: RowOp, p: RowOp, q: RowOp, view: ChatView, s: int, t: int)
    requires Shows(row, e) && SessionWrite(p) && p.hlc <= e.hlc
    ensures TouchesAlike(row, p, q, view, s, t)
  {
    KnownKeeps(row, e, p);
    ShownView(row, e);
    ShownView(Step(row, p), e);
  }

  /** Between `x` and `z`, the room sends the same with `p` and `q` as with `m`. */
  ghost predicate MiddleSame(r0: Room, p: RowOp, y: seq<seq<RowOp>>, q: RowOp, m: RowOp, id: string, times: Times)
    requires |times.y| == |y|
  {
    var r1 := RoomAfter(r0, [[p]], id);
    Emit(r0, [p], id, times.s) + (Trace(r1, y, times.y, id) + Emit(RoomAfter(r1, y, id), [q], id, times.t))
      == Trace(r0, y, times.y, id) + Emit(RoomAfter(r0, y, id), [m], id, times.t)
  }

  /** What the room sends around a session's own fold. */
  lemma FoldEmits(r0: Room, p: RowOp, y: seq<seq<RowOp>>, q: RowOp, m: RowOp, fits: RowOp -> bool, id: string,
                  times: Times)
    requires KeyOf(p) == KeyOf(q) == (SESSIONS, id) && Coalesce(p, q, fits) == Some(m) && |times.y| == |y|
    requires forall j :: 0 <= j < |y| ==> Filter(y[j], (SESSIONS, id)) == []
    requires forall j :: 0 <= j < |y| ==> forall op :: op in Filter(y[j], (CHATS, id)) ==> !ChatGates(op)
    ensures var r1, mid := RoomAfter(r0, [[p]], id), Step(r0.session, p);
      var before, between, after, view := SessionViewOf(r0.session), SessionViewOf(mid), SessionViewOf(Step(mid, q)),
        ViewOf(r0.chat);
      && Emit(r0, [p], id, times.s) == Notify(before, between, view, times.s)
      && Emit(RoomAfter(r1, y, id), [q], id, times.t) == Notify(between, after, view, times.t)
      && Emit(RoomAfter(r0, y, id), [m], id, times.t) == Notify(before, after, view, times.t)
      && Trace(r1, y, times.y, id) == [] == Trace(r0, y, times.y, id)
  {
    var r1 := RoomAfter(r0, [[p]], id);
    CoalesceParts(p, q, fits);
    EmitOne(r0, p, id, times.s);
    Interlude(r1, y, times.y, id);
    Interlude(r0, y, times.y, id);
    EmitOne(RoomAfter(r1, y, id), q, id, times.t);
    EmitOne(RoomAfter(r0, y, id), m, id, times.t);
    CoalesceExact(r0.session, p, q, fits);
  }

  /** A session's own fold is judged by its two touches alone. */
  lemma FoldTouchesIff(r0: Room, p: RowOp, y: seq<seq<RowOp>>, q: RowOp, m: RowOp, fits: RowOp -> bool, id: string,
                       times: Times)
    requires KeyOf(p) == KeyOf(q) == (SESSIONS, id) && Coalesce(p, q, fits) == Some(m) && |times.y| == |y|
    requires forall j :: 0 <= j < |y| ==> Filter(y[j], (SESSIONS, id)) == []
    requires forall j :: 0 <= j < |y| ==> forall op :: op in Filter(y[j], (CHATS, id)) ==> !ChatGates(op)
    ensures MiddleSame(r0, p, y, q, m, id, times) <==> TouchesAlike(r0.session, p, q, ViewOf(r0.chat), times.s, times.t)
  {
    FoldEmits(r0, p, y, q, m, fits, id, times);
    var r1 := RoomAfter(r0, [[p]], id);
    NothingBetween(Emit(r0, [p], id, times.s), Emit(RoomAfter(r1, y, id), [q], id, times.t),
      Emit(RoomAfter(r0, y, id), [m], id, times.t));
  }

  lemma NothingBetween<T>(a: seq<T>, b: seq<T>, c: seq<T>)
    ensures a + ([] + b) == a + b && [] + c == c
  {
  }

  /** The fold of two touches writes what the later touch writes. */
  lemma FoldedTouchWrites(p: RowOp, q: RowOp, m: RowOp, fits: RowOp -> bool)
    requires SessionWrite(p) && SessionWrite(q) && InOrder(p, q) && Coalesce(p, q, fits) == Some(m)
    ensures p.op == q.op == m.op == Upsert && m.hlc == q.hlc && Writes(m).Keys == Writes(q).Keys
    ensures forall k :: k in Writes(m) ==> Writes(m)[k] == Writes(q)[k] && ClockFor(m, k) == ClockFor(q, k)
  {
    CoalesceParts(p, q, fits);
    assert Shadows(q, p);
    forall k | k in Writes(m)
      ensures k in Writes(q) && Writes(m)[k] == Writes(q)[k] && ClockFor(m, k) == ClockFor(q, k)
    {
      assert Write(Writes(m)[k], ClockFor(m, k)) == MergedWrites(p, q)[k];
    }
  }

  lemma FoldedTouch(p: RowOp, q: RowOp, m: RowOp, fits: RowOp -> bool)
    requires SessionWrite(p) && SessionWrite(q) && InOrder(p, q) && Coalesce(p, q, fits) == Some(m)
    ensures p.op == q.op == m.op == Upsert && m.hlc == q.hlc
    ensures SessionWrite(m) && ViewWritten(m) == ViewWritten(q)
  {
    FoldedTouchWrites(p, q, m, fits);
    SameWritesSameTouch(q, m);
  }

  lemma SameWritesSameTouch(q: RowOp, m: RowOp)
    requires SessionWrite(q) && q.op == m.op == Upsert && m.hlc == q.hlc && Writes(m).Keys == Writes(q).Keys
    requires forall k :: k in Writes(m) ==> Writes(m)[k] == Writes(q)[k] && ClockFor(m, k) == ClockFor(q, k)
    ensures SessionWrite(m) && ViewWritten(m) == ViewWritten(q)
  {
    assert "updatedAt" in Writes(q) && "status" in Writes(q) && "lastCompletedTurn" in Writes(q);
    assert "updatedAt" in Writes(m) && "status" in Writes(m) && "lastCompletedTurn" in Writes(m);
  }

  /** Replacing neighbours `p, q` by an `m` related like `q` keeps an
      element-wise and a pairwise property of a sequence. */
  lemma ReplacePair<T(!new)>(x: seq<T>, p: T, q: T, m: T, z: seq<T>, each: T -> bool, related: (T, T) -> bool)
    requires var ops := x + ([p, q] + z);
      && (forall i :: 0 <= i < |ops| ==> each(ops[i]))
      && (forall i, j :: 0 <= i < j < |ops| ==> related(ops[i], ops[j]))
    requires each(m)
    requires forall t :: related(t, q) ==> related(t, m)
    requires forall t :: related(q, t) ==> related(m, t)
    ensures var folded := x + ([m] + z);
      && (forall i :: 0 <= i < |folded| ==> each(folded[i]))
      && (forall i, j :: 0 <= i < j < |folded| ==> related(folded[i], folded[j]))
    ensures forall i :: 0 <= i < |x| ==> each(x[i])
    ensures forall i, j :: 0 <= i < j < |x| ==> related(x[i], x[j])
    ensures each(p) && each(q) && related(p, q) && (x != [] ==> related(x[|x| - 1], p))
  {
    var ops, folded, n := x + ([p, q] + z), x + ([m] + z), |x|;
    assert ops[n] == p && ops[n + 1] == q && forall i :: 0 <= i < n ==> ops[i] == x[i];
    assert forall i :: 0 <= i < |folded| ==> folded[i] == if i == n then m else ops[if i < n then i else i + 1];
    forall i, j | 0 <= i < j < |folded| ensures related(folded[i], folded[j]) {
      assert related(ops[if i < n then i else i + 1], ops[if j < n then j else j + 1]);
    }
  }

  /** What an `m` related like `q` keeps of a room's relation to the queue. */
  lemma LinksAfterFold(l: RowOp, x: seq<RowOp>, p: RowOp, q: RowOp, m: RowOp, z: seq<RowOp>, i: nat)
    requires var ops := x + ([p, q] + z);
      forall k :: 0 < k < |ops| && ops[k - 1].hlc <= l.hlc < ops[k].hlc ==> Links(l, ops[k - 1], ops[k])
    requires x != [] && m.hlc == q.hlc && ViewWritten(m) == ViewWritten(q) && SameStatus(ViewWritten(p), ViewWritten(q))
    requires var folded := x + ([m] + z); 0 < i < |folded| && folded[i - 1].hlc <= l.hlc < folded[i].hlc
    ensures var folded := x + ([m] + z); Links(l, folded[i - 1], folded[i])
  {
    var ops, folded, n := x + ([p, q] + z), x + ([m] + z), |x|;
    assert ops[n - 1] == x[n - 1] && ops[n] == p && ops[n + 1] == q && folded[n] == m;
    if i < n {
      assert ops[i - 1] == folded[i - 1] && ops[i] == folded[i];
    } else if i == n {
      assert l.hlc < p.hlc || p.hlc <= l.hlc;
    } else {
      assert ops[i + 1] == folded[i] && (i > n + 1 ==> ops[i] == folded[i - 1]);
    }
  }

  /** A folded session queue is still its single writer's queue, and the room
      still holds nothing else. */
  lemma SingleWriterAfterFold(row: Option<Row>, x: seq<RowOp>, p: RowOp, q: RowOp, m: RowOp, z: seq<RowOp>,
                              fits: RowOp -> bool,
                              last: Option<RowOp>)
    requires SingleWriter(row, x + ([p, q] + z), last) && Coalesce(p, q, fits) == Some(m) && x != []
    requires SessionSignal(p) == SessionSignal(q)
    ensures SingleWriter(row, x + ([m] + z), last)
    ensures WrittenInOrder(x) && InOrder(x[|x| - 1], p) && InOrder(p, q)
    ensures SessionWrite(p) && SessionWrite(q) && p.op == q.op == Upsert
    ensures ViewWritten(m) == ViewWritten(q) && m.hlc == q.hlc
  {
    var ops := x + ([p, q] + z);
    assert ops[|x|] == p && ops[|x| + 1] == q;
    assert SessionWrite(ops[|x|]) && SessionWrite(ops[|x| + 1]) && InOrder(ops[|x|], ops[|x| + 1]);
    FoldedTouch(p, q, m, fits);
    SameSignalSameStatus(p, q);
    ReplacePair(x, p, q, m, z, SessionWrite, InOrder);
    HeldAfterFold(row, x, p, q, m, z, last);
  }

  lemma HeldAfterFold(row: Option<Row>, x: seq<RowOp>, p: RowOp, q: RowOp, m: RowOp, z: seq<RowOp>, last: Option<RowOp>)
    requires Held(row, x + ([p, q] + z), last) && x != [] && m.hlc == q.hlc && SessionWrite(q) && SessionWrite(m)
    requires q.op == m.op && ViewWritten(m) == ViewWritten(q) && SameStatus(ViewWritten(p), ViewWritten(q))
    ensures Held(row, x + ([m] + z), last)
  {
    var ops, folded := x + ([p, q] + z), x + ([m] + z);
    assert ops[0] == x[0] == folded[0];
    if last.Some? {
      var l := last.value;
      forall i | 0 <= i < |folded| && l.hlc < folded[i].hlc ensures InOrder(l, folded[i]) {
        assert folded[i] == if i == |x| then m else ops[if i < |x| then i else i + 1];
        assert ops[|x| + 1] == q;
        assert InOrder(l, ops[if i < |x| then i else i + 1]);
      }
      forall i | 0 < i < |folded| &&
        folded[i - 1].hlc <= l.hlc < folded[i].hlc ensures Links(l, folded[i - 1], folded[i]) {
        LinksAfterFold(l, x, p, q, m, z, i);
      }
    }
  }

  /** The write the room shows when the queue behind `before` arrives. */
  function ShownBefore(before: seq<RowOp>, last: Option<RowOp>): RowOp
    requires before != []
  {
    Newest(last, before[|before| - 1]).value
  }

  /** When folding `p` into `q`, the next operation of its session, sends the
      same: the room knew `p`, or the three views are fresh at the two times in
      one of the ways that add up. */
  ghost predicate FoldSilent(before: seq<RowOp>, p: RowOp, q: RowOp, last: Option<RowOp>, s: int, t: int)
    requires before != []
  {
    Known(last, p) || NoticesAlike(ViewWritten(ShownBefore(before, last)), ViewWritten(p), ViewWritten(q), s, t)
  }

  /** What the room shows of the run when `p` arrives. */
  lemma ShownOfRun(row: Option<Row>, x: seq<RowOp>, p: RowOp, q: RowOp, z: seq<RowOp>, last: Option<RowOp>)
    requires SingleWriter(row, x + ([p, q] + z), last) && x != [] && x[|x| - 1].op != Delete && p.op != Delete
    requires SessionSignal(x[|x| - 1]) == SessionSignal(p)
    ensures var e := ShownBefore(x, last); Shows(Replay(row, x), e) && (Known(last, p) <==> p.hlc <= e.hlc)
    ensures var e := ShownBefore(x, last); !Known(last, p) ==>
      InOrder(e, p) && SameStatus(ViewWritten(e), ViewWritten(p))
  {
    var ops, h, n := x + ([p, q] + z), x[|x| - 1], |x|;
    HeldAfter(row, x, [p, q] + z, last);
    assert ops[n - 1] == h && ops[n] == p;
    assert InOrder(ops[n - 1], ops[n]);
    SameSignalSameStatus(h, p);
    if Known(last, h) && !Known(last, p) {
      assert InOrder(last.value, ops[n]) && Links(last.value, ops[n - 1], ops[n]);
    }
  }

  /** The session's own fold, inside the whole queue. */
  lemma FoldSession(room: Room, x: seq<seq<RowOp>>, p: RowOp, y: seq<seq<RowOp>>, q: RowOp, m: RowOp, z: seq<RowOp>,
                    fits: RowOp -> bool, id: string, last: Option<RowOp>, times: Times)
    requires KeyOf(p) == KeyOf(q) == (SESSIONS, id) && Coalesce(p, q, fits) == Some(m) && |times.y| == |y|
    requires forall j :: 0 <= j < |y| ==> Filter(y[j], (SESSIONS, id)) == []
    requires forall j :: 0 <= j < |y| ==> forall op :: op in Filter(y[j], (CHATS, id)) ==> !ChatGates(op)
    requires var before := RowOps(x, (SESSIONS, id));
      && before != [] && before[|before| - 1].op != Delete
      && SessionSignal(before[|before| - 1]) == SessionSignal(p) == SessionSignal(q)
      && SingleWriter(room.session, before + ([p, q] + z), last)
    ensures MiddleSame(RoomAfter(room, x, id), p, y, q, m, id, times)
       <==> FoldSilent(RowOps(x, (SESSIONS, id)), p, q, last, times.s, times.t)
  {
    var before, r0 := RowOps(x, (SESSIONS, id)), RoomAfter(room, x, id);
    SingleWriterAfterFold(room.session, before, p, q, m, z, fits, last);
    ShownOfRun(room.session, before, p, q, z, last);
    FoldTouchesIff(r0, p, y, q, m, fits, id, times);
    var e := ShownBefore(before, last);
    if Known(last, p) {
      KnownTouches(r0.session, e, p, q, ViewOf(r0.chat), times.s, times.t);
    } else {
      SameSignalSameStatus(p, q);
      NewTouchesIff(r0.session, e, p, q, ViewOf(r0.chat), times.s, times.t);
    }
  }

  lemma FoldKeepsTraceIff(room: Room, x: seq<seq<RowOp>>, p: RowOp, y: seq<seq<RowOp>>, q: RowOp, m: RowOp,
                          z: seq<seq<RowOp>>, fits: RowOp -> bool, id: string, times: Times)
    requires KeyOf(p) == KeyOf(q) && Coalesce(p, q, fits) == Some(m)
    requires |times.x| == |x| && |times.y| == |y| && |times.z| == |z|
    requires forall j :: 0 <= j < |y| ==> Filter(y[j], KeyOf(p)) == []
    ensures Trace(room, x + ([[p]] + (y + ([[q]] + z))), times.All(), id) == Trace(room, x + ([[]] + (y + ([[m]] + z))),
      times.All(), id)
      <==> MiddleSame(RoomAfter(room, x, id), p, y, q, m, id, times)
  {
    TraceFive(room, x, [p], y, [q], z, times, id);
    TraceFive(room, x, [], y, [m], z, times, id);
    var r0 := RoomAfter(room, x, id);
    RoomsMeet(r0, p, y, q, m, fits, id);
    var r1 := RoomAfter(r0, [[p]], id);
    var r2 := RoomAfter(r1, y, id);
    var tail := Trace(RoomAfter(r2, [[q]], id), z, times.z, id);
    assert Emit(r0, [], id, times.s) == [];
    RegroupIff(Trace(room, x, times.x, id), Emit(r0, [p], id, times.s), Trace(r1, y, times.y, id),
      Emit(r2, [q], id, times.t),
               Trace(r0, y, times.y, id), Emit(RoomAfter(r0, y, id), [m], id, times.t), tail);
  }

  lemma SameMiddle<T>(x: seq<T>, a: seq<T>, b: seq<T>, z: seq<T>)
    ensures x + (a + z) == x + (b + z) <==> a == b
  {
    if x + (a + z) == x + (b + z) {
      assert |a| == |b|;
      assert a == (x + (a + z))[|x|..|x| + |a|];
      assert b == (x + (b + z))[|x|..|x| + |b|];
    }
  }

  lemma RegroupIff<T>(x: seq<T>, a: seq<T>, b: seq<T>, c: seq<T>, d: seq<T>, e: seq<T>, tail: seq<T>)
    ensures x + (a + (b + (c + tail))) == x + ([] + (d + (e + tail))) <==> a + (b + c) == d + e
  {
    assert a + (b + (c + tail)) == (a + (b + c)) + tail;
    assert [] + (d + (e + tail)) == (d + e) + tail;
    SameMiddle(x, a + (b + c), d + e, tail);
  }

  lemma BetweenHolds(bs: seq<seq<RowOp>>, at: nat, bi: nat, m: RowOp, fits: RowOp -> bool)
    requires MayFold(bs, at, bi, m, fits)
    ensures var p, y := bs[at][0], bs[at + 1..bi];
      && (forall j :: 0 <= j < |y| ==> Filter(y[j], KeyOf(p)) == [])
      && (p.kind == SESSIONS ==> forall j :: 0 <= j < |y| ==> forall op :: op in Filter(y[j], (CHATS, p.id)) ==>
        !ChatGates(op))
      && (p.kind == CHATS && ChatGates(p) ==> forall j :: 0 <= j < |y| ==> Filter(y[j], (SESSIONS, p.id)) == [])
  {
    var y := bs[at + 1..bi];
    assert forall j :: 0 <= j < |y| ==> y[j] == bs[at + 1 + j];
  }

  /** The times of a queue, cut where a fold cuts it. */
  function CutTimes(times: seq<int>, at: nat, bi: nat): (r: Times)
    requires at < bi < |times|
    ensures r.All() == times
  {
    Times(times[..at], times[at], times[at + 1..bi], times[bi], times[bi + 1..])
  }

  lemma FoldTraceIff(bs: seq<seq<RowOp>>, at: nat, bi: nat, m: RowOp, fits: RowOp -> bool, id: string, room: Room,
                     times: seq<int>)
    requires MayFold(bs, at, bi, m, fits) && |times| == |bs|
    ensures Trace(room, bs, times, id) == Trace(room, Folded(bs, at, bi, m), times, id)
      <==> MiddleSame(RoomAfter(room, bs[..at], id), bs[at][0], bs[at + 1..bi], bs[bi][0], m, id,
        CutTimes(times, at, bi))
  {
    var p, q := bs[at][0], bs[bi][0];
    BetweenHolds(bs, at, bi, m, fits);
    Decompose(bs, at, bi, m);
    assert bs[at] == [p] && bs[bi] == [q];
    FoldKeepsTraceIff(room, bs[..at], p, bs[at + 1..bi], q, m, bs[bi + 1..], fits, id, CutTimes(times, at, bi));
  }

  lemma {:induction false} MiddleOfSession(bs: seq<seq<RowOp>>, at: nat, bi: nat, m: RowOp, fits: RowOp -> bool,
                                           id: string, room: Room,
                        last: Option<RowOp>, times: Times)
    requires MayFold(bs, at, bi, m, fits) && KeyOf(bs[at][0]) == (SESSIONS, id) && |times.y| == bi - at - 1
    requires SingleWriter(room.session, RowOps(bs, (SESSIONS, id)), last)
    ensures RowOps(bs[..at], (SESSIONS, id)) != []
    ensures MiddleSame(RoomAfter(room, bs[..at], id), bs[at][0], bs[at + 1..bi], bs[bi][0], m, id, times)
       <==> FoldSilent(RowOps(bs[..at], (SESSIONS, id)), bs[at][0], bs[bi][0], last, times.s, times.t)
  {
    BetweenHolds(bs, at, bi, m, fits);
    FoldedRowOps(bs, at, bi, m, fits, (SESSIONS, id));
    FoldSession(room, bs[..at], bs[at][0], bs[at + 1..bi], bs[bi][0], m, RowOps(bs[bi + 1..], (SESSIONS, id)), fits, id,
      last, times);
  }

  lemma {:induction false} MiddleOfOther(bs: seq<seq<RowOp>>, at: nat, bi: nat, m: RowOp, fits: RowOp -> bool,
                                         id: string, room: Room, times: Times)
    requires MayFold(bs, at, bi, m, fits) && KeyOf(bs[at][0]) != (SESSIONS, id) && |times.y| == bi - at - 1
    ensures MiddleSame(RoomAfter(room, bs[..at], id), bs[at][0], bs[at + 1..bi], bs[bi][0], m, id, times)
  {
    BetweenHolds(bs, at, bi, m, fits);
    FoldOtherRow(RoomAfter(room, bs[..at], id), bs[at][0], bs[at + 1..bi], bs[bi][0], m, fits, id, times);
  }

  /** Exactly when one fold sends the same notifications, whatever the update
      times of the session and the times of the room: it folds another row, or
      the freshness of the three views around it adds up. */
  lemma {:induction false} FoldKeepsNoticesIff(bs: seq<seq<RowOp>>, at: nat, bi: nat, m: RowOp, fits: RowOp -> bool,
                                               id: string, room: Room,
                            last: Option<RowOp>, times: seq<int>)
    requires MayFold(bs, at, bi, m, fits) && |times| == |bs|
    requires SingleWriter(room.session, RowOps(bs, (SESSIONS, id)), last)
    ensures KeyOf(bs[at][0]) == (SESSIONS, id) ==> RowOps(bs[..at], (SESSIONS, id)) != []
    ensures Trace(room, bs, times, id) == Trace(room, Folded(bs, at, bi, m), times, id)
      <==> (KeyOf(bs[at][0]) == (SESSIONS, id) ==>
        FoldSilent(RowOps(bs[..at], (SESSIONS, id)), bs[at][0], bs[bi][0], last, times[at], times[bi]))
  {
    FoldTraceIff(bs, at, bi, m, fits, id, room, times);
    if KeyOf(bs[at][0]) == (SESSIONS, id) {
      MiddleOfSession(bs, at, bi, m, fits, id, room, last, CutTimes(times, at, bi));
    } else {
      MiddleOfOther(bs, at, bi, m, fits, id, room, CutTimes(times, at, bi));
    }
  }

  /** The folded queue is single-writer too, and as steady. */
  lemma SteadyAfterFold(bs: seq<seq<RowOp>>, at: nat, bi: nat, m: RowOp, fits: RowOp -> bool, id: string,
                        row: Option<Row>,
                        last: Option<RowOp>, times: seq<int>)
    requires MayFold(bs, at, bi, m, fits)
    requires SingleWriter(row, RowOps(bs, (SESSIONS, id)), last) && Steady(RowOps(bs, (SESSIONS, id)), last, times)
    ensures var ops := RowOps(Folded(bs, at, bi, m), (SESSIONS, id));
      SingleWriter(row, ops, last) && Steady(ops, last, times)
  {
    var p, q, key := bs[at][0], bs[bi][0], (SESSIONS, id);
    FoldedRowOps(bs, at, bi, m, fits, key);
    if KeyOf(p) == key {
      var x, z := RowOps(bs[..at], key), RowOps(bs[bi + 1..], key);
      SingleWriterAfterFold(row, x, p, q, m, z, fits, last);
      SteadyFolded(x, p, q, m, z, last, times);
    }
  }

  lemma SteadyFolded(x: seq<RowOp>, p: RowOp, q: RowOp, m: RowOp, z: seq<RowOp>, last: Option<RowOp>, times: seq<int>)
    requires Steady(x + ([p, q] + z), last, times) && ViewWritten(m) == ViewWritten(q) && m.hlc == q.hlc
    ensures Steady(x + ([m] + z), last, times)
  {
    var ops, folded := x + ([p, q] + z), x + ([m] + z);
    assert ops[|x| + 1] == q;
    forall i | 0 <= i < |folded|
      ensures var was := ops[if i < |x| then i else i + 1];
        ViewWritten(folded[i]) == ViewWritten(was) && folded[i].hlc == was.hlc
    {
      assert folded[i] == if i == |x| then m else ops[if i < |x| then i else i + 1];
    }
    forall i, j | 0 <= i < j < |folded| ensures Freshens(folded[i], folded[j], times) {
      assert Freshens(ops[if i < |x| then i else i + 1], ops[if j < |x| then j else j + 1], times);
    }
    if last.Some? {
      forall i | 0 <= i < |folded| && last.value.hlc < folded[i].hlc ensures Freshens(last.value, folded[i], times) {
        assert Freshens(last.value, ops[if i < |x| then i else i + 1], times);
      }
    }
  }

  /** A steady run is silent under a fold. */
  lemma SteadySilent(x: seq<RowOp>, p: RowOp, q: RowOp, z: seq<RowOp>, last: Option<RowOp>, times: seq<int>, i: nat,
                     j: nat)
    requires x != [] && Steady(x + ([p, q] + z), last, times) && i < |times| && j < |times|
    ensures FoldSilent(x, p, q, last, times[i], times[j])
  {
    var ops, n := x + ([p, q] + z), |x|;
    assert ops[n - 1] == x[n - 1] && ops[n] == p && ops[n + 1] == q;
    assert NeverStale(ViewWritten(ops[n - 1]), times) && NeverStale(ViewWritten(ops[n]), times);
    assert Freshens(ops[n - 1], ops[n], times) && Freshens(ops[n], ops[n + 1], times);
    if !Known(last, p) {
      var e := ShownBefore(x, last);
      assert NeverStale(ViewWritten(e), times) && Freshens(e, ops[n], times);
    }
  }

  lemma {:induction false} SteadyFoldSilent(bs: seq<seq<RowOp>>, at: nat, bi: nat, m: RowOp, fits: RowOp -> bool,
                                            id: string,
                         last: Option<RowOp>, times: seq<int>)
    requires MayFold(bs, at, bi, m, fits) && |times| == |bs| && KeyOf(bs[at][0]) == (SESSIONS, id)
    requires RowOps(bs[..at], (SESSIONS, id)) != [] && Steady(RowOps(bs, (SESSIONS, id)), last, times)
    ensures FoldSilent(RowOps(bs[..at], (SESSIONS, id)), bs[at][0], bs[bi][0], last, times[at], times[bi])
  {
    var key, p, q := (SESSIONS, id), bs[at][0], bs[bi][0];
    FoldedRowOps(bs, at, bi, m, fits, key);
    var x, z := RowOps(bs[..at], key), RowOps(bs[bi + 1..], key);
    SteadySilent(x, p, q, z, last, times, at, bi);
  }

  lemma {:induction false} FoldKeepsNotices(bs: seq<seq<RowOp>>, at: nat, bi: nat, m: RowOp, fits: RowOp -> bool,
                                            id: string, room: Room,
                         last: Option<RowOp>, times: seq<int>)
    requires MayFold(bs, at, bi, m, fits)
    ensures SameNotices(bs, Folded(bs, at, bi, m), id, room, last, times)
  {
    var ops := RowOps(bs, (SESSIONS, id));
    if |times| == |bs| && SingleWriter(room.session, ops, last) && Steady(ops, last, times) {
      SteadyAfterFold(bs, at, bi, m, fits, id, room.session, last, times);
      FoldKeepsNoticesIff(bs, at, bi, m, fits, id, room, last, times);
      if KeyOf(bs[at][0]) == (SESSIONS, id) {
        SteadyFoldSilent(bs, at, bi, m, fits, id, last, times);
      }
    }
  }

  /** Folding keeps the signal of the run. */
  lemma SignalOfFolded(p: RowOp, q: RowOp, fits: RowOp -> bool)
    requires Coalesce(p, q, fits).Some? && SessionSignal(p) == SessionSignal(q)
    ensures SessionSignal(Coalesce(p, q, fits).value) == SessionSignal(q)
  {
    CoalesceParts(p, q, fits);
    var m := Coalesce(p, q, fits).value;
    forall k | WriteOf(p, k) == WriteOf(q, k) ensures WriteOf(m, k) == WriteOf(q, k) {
      if k in Writes(m) {
        assert Write(Writes(m)[k], ClockFor(m, k)) == MergedWrites(p, q)[k];
      }
    }
    assert WriteOf(p, "status") == WriteOf(q, "status");
    assert WriteOf(p, "lastCompletedTurn") == WriteOf(q, "lastCompletedTurn");
  }

  /** Two operations of one signal in a row count as one. */
  lemma {:induction false} SignalsReplace(x: seq<RowOp>, p: RowOp, q: RowOp, m: RowOp, z: seq<RowOp>)
    requires SessionSignal(p) == SessionSignal(q) == SessionSignal(m)
    ensures Signals(x + ([p, q] + z)) == Signals(x + ([m] + z))
    decreases |z|
  {
    if z == [] {
      assert x + ([p, q] + z) == (x + [p]) + [q] && x + ([m] + z) == x + [m];
      SignalsSnoc(x, p);
      SignalsSnoc(x + [p], q);
      SignalsSnoc(x, m);
    } else {
      var front, last := z[..|z| - 1], z[|z| - 1];
      SignalsReplace(x, p, q, m, front);
      assert x + ([p, q] + z) == (x + ([p, q] + front)) + [last];
      assert x + ([m] + z) == (x + ([m] + front)) + [last];
      SignalsSnoc(x + ([p, q] + front), last);
      SignalsSnoc(x + ([m] + front), last);
    }
  }

  lemma FoldKeepsSignals(bs: seq<seq<RowOp>>, at: nat, bi: nat, m: RowOp, fits: RowOp -> bool, id: string)
    requires MayFold(bs, at, bi, m, fits)
    ensures SameSignals(bs, Folded(bs, at, bi, m), id)
  {
    var p, q, key := bs[at][0], bs[bi][0], (SESSIONS, id);
    FoldedRowOps(bs, at, bi, m, fits, key);
    if key == KeyOf(p) {
      SignalOfFolded(p, q, fits);
      SignalsReplace(RowOps(bs[..at], key), p, q, m, RowOps(bs[bi + 1..], key));
    }
  }

  // ── the marks of a folded queue ───────────────────────────────────────────

  lemma {:induction false} MarksConcat(a: seq<seq<RowOp>>, b: seq<seq<RowOp>>, id: string)
    ensures QueueMarks(a + b, id) == QueueMarks(a, id) + QueueMarks(b, id)
    decreases |a|
  {
    if a == [] {
      assert a + b == b;
    } else {
      assert (a + b)[1..] == a[1..] + b;
      MarksConcat(a[1..], b, id);
    }
  }

  lemma MarksOfBatch(batch: seq<RowOp>, id: string)
    ensures QueueMarks([batch], id) == BatchMarks(batch, id)
  {
    assert [batch][1..] == [];
  }

  lemma MarksOne(op: RowOp, id: string)
    ensures QueueMarks([[op]], id) == MarkOf(op, id) && QueueMarks([[]], id) == []
  {
    MarksOfBatch([op], id);
    MarksOfBatch([], id);
    assert [op][1..] == [];
  }

  lemma MarksFive(x: seq<seq<RowOp>>, p: seq<RowOp>, y: seq<seq<RowOp>>, q: seq<RowOp>, z: seq<seq<RowOp>>, id: string)
    ensures QueueMarks(x + ([p] + (y + ([q] + z))), id)
         == QueueMarks(x, id) + (QueueMarks([p], id) + (QueueMarks(y, id) + (QueueMarks([q], id) + QueueMarks(z, id))))
  {
    MarksConcat(x, [p] + (y + ([q] + z)), id);
    MarksConcat([p], y + ([q] + z), id);
    MarksConcat(y, [q] + z, id);
    MarksConcat([q], z, id);
  }

  lemma {:induction false} NoBatchMarks(ops: seq<RowOp>, id: string)
    requires Filter(ops, (SESSIONS, id)) == [] && forall op :: op in Filter(ops, (CHATS, id)) ==> !ChatGates(op)
    ensures BatchMarks(ops, id) == []
    decreases |ops|
  {
    if ops == [] {
    } else {
      var op, rest := ops[0], ops[1..];
      forall other | other in Filter(rest, (CHATS, id)) ensures !ChatGates(other) {
        assert other in Filter(ops, (CHATS, id));
      }
      NoBatchMarks(rest, id);
      if KeyOf(op) == (CHATS, id) {
        assert Filter(ops, (CHATS, id))[0] == op && op in Filter(ops, (CHATS, id));
      }
      assert BatchMarks(ops, id) == MarkOf(op, id) + BatchMarks(rest, id);
    }
  }

  lemma {:induction false} NoMarks(y: seq<seq<RowOp>>, id: string)
    requires forall j :: 0 <= j < |y| ==> Filter(y[j], (SESSIONS, id)) == []
    requires forall j :: 0 <= j < |y| ==> forall op :: op in Filter(y[j], (CHATS, id)) ==> !ChatGates(op)
    ensures QueueMarks(y, id) == []
    decreases |y|
  {
    if y == [] {
    } else {
      assert forall op :: op in Filter(y[0], (CHATS, id)) ==> !ChatGates(op);
      NoBatchMarks(y[0], id);
      NoMarks(y[1..], id);
    }
  }

  lemma {:induction false} CollapsedBefore(a: seq<Mark>, b: seq<Mark>, z: seq<Mark>)
    requires Collapsed(a) == Collapsed(b)
    ensures Collapsed(a + z) == Collapsed(b + z)
    decreases |z|
  {
    if z == [] {
      assert a + z == a && b + z == b;
    } else {
      var front := z[..|z| - 1];
      CollapsedBefore(a, b, front);
      assert (a + z)[..|a + z| - 1] == a + front && (b + z)[..|b + z| - 1] == b + front;
    }
  }

  lemma CollapsedTwice(x: seq<Mark>, m: Mark)
    ensures Collapsed(x + [m] + [m]) == Collapsed(x + [m])
  {
    assert (x + [m] + [m])[..|x| + 1] == x + [m];
  }

  /** A merged chat operation gates if either part did, and it stands where the later did. */
  lemma MergedMark(p: RowOp, q: RowOp, fits: RowOp -> bool, id: string)
    requires Coalesce(p, q, fits).Some?
    ensures var m := Coalesce(p, q, fits).value;
      && (KeyOf(p) == (CHATS, id) ==> MarkOf(m, id) == if ChatGates(p) then [Gate] else MarkOf(q, id))
      && (KeyOf(p) == (SESSIONS, id) && SessionSignal(p) == SessionSignal(q) ==>
            MarkOf(m, id) == MarkOf(q, id) == MarkOf(p, id) == [Signalled(SessionSignal(p))])
      && (KeyOf(p) != (CHATS, id) && KeyOf(p) != (SESSIONS, id) ==>
        MarkOf(m, id) == MarkOf(q, id) == MarkOf(p, id) == [])
  {
    CoalesceParts(p, q, fits);
    if KeyOf(p) == (SESSIONS, id) && SessionSignal(p) == SessionSignal(q) {
      SignalOfFolded(p, q, fits);
    }
  }

  lemma FiveJoined<T>(x: seq<T>, p: seq<T>, y: seq<T>, q: seq<T>, z: seq<T>)
    ensures x + (p + (y + (q + z))) == (x + (p + (y + q))) + z
  {
  }

  /** The marks around a fold, cut to what the fold can touch. */
  lemma FoldMiddleMarks(x: seq<Mark>, p: seq<Mark>, y: seq<Mark>, q: seq<Mark>, m: seq<Mark>, z: seq<Mark>)
    requires (p == [] && m == q) || (|p| == 1 && y == [] && m == p && (q == [] || q == p))
    ensures Collapsed(x + (p + (y + (q + z)))) == Collapsed(x + ([] + (y + (m + z))))
  {
    FiveJoined(x, p, y, q, z);
    FiveJoined(x, [], y, m, z);
    if p != [] {
      OneMark(x, p, q);
    }
    assert [] + (y + m) == y + m;
    CollapsedBefore(x + (p + (y + q)), x + ([] + (y + m)), z);
  }

  lemma OneMark(x: seq<Mark>, p: seq<Mark>, q: seq<Mark>)
    requires |p| == 1 && (q == [] || q == p)
    ensures Collapsed(x + (p + ([] + q))) == Collapsed(x + ([] + ([] + p)))
  {
    assert p == [p[0]];
    assert x + (p + ([] + q)) == if q == [] then x + [p[0]] else x + [p[0]] + [p[0]];
    assert x + ([] + ([] + p)) == x + [p[0]];
    CollapsedTwice(x, p[0]);
  }

  lemma FiveMarksSame(x: seq<seq<RowOp>>, p: RowOp, y: seq<seq<RowOp>>, q: RowOp, m: RowOp, z: seq<seq<RowOp>>,
                      fits: RowOp -> bool, id: string)
    requires KeyOf(p) == KeyOf(q) && Coalesce(p, q, fits) == Some(m)
    requires p.kind == SESSIONS ==> SessionSignal(p) == SessionSignal(q)
    requires MarkOf(p, id) != [] ==> QueueMarks(y, id) == []
    ensures Collapsed(QueueMarks(x + ([[p]] + (y + ([[q]] + z))), id))
         == Collapsed(QueueMarks(x + ([[]] + (y + ([[m]] + z))), id))
  {
    MarksFive(x, [p], y, [q], z, id);
    MarksFive(x, [], y, [m], z, id);
    MarksOne(p, id); MarksOne(q, id); MarksOne(m, id);
    MergedMark(p, q, fits, id);
    FoldMiddleMarks(QueueMarks(x, id), MarkOf(p, id), QueueMarks(y, id), MarkOf(q, id), MarkOf(m, id),
      QueueMarks(z, id));
  }

  lemma FoldKeepsMarks(bs: seq<seq<RowOp>>, at: nat, bi: nat, m: RowOp, fits: RowOp -> bool, id: string)
    requires MayFold(bs, at, bi, m, fits)
    ensures SameMarks(bs, Folded(bs, at, bi, m), id)
  {
    var p, q, y := bs[at][0], bs[bi][0], bs[at + 1..bi];
    BetweenHolds(bs, at, bi, m, fits);
    Decompose(bs, at, bi, m);
    assert bs[at] == [p] && bs[bi] == [q];
    if MarkOf(p, id) != [] {
      NoMarks(y, id);
    }
    FiveMarksSame(bs[..at], p, y, q, m, bs[bi + 1..], fits, id);
  }

  /** Main result of one fold. */
  lemma FoldIsInvisible(bs: seq<seq<RowOp>>, at: nat, bi: nat, m: RowOp, fits: RowOp -> bool)
    requires MayFold(bs, at, bi, m, fits)
    ensures Equivalent(bs, Folded(bs, at, bi, m))
  {
    forall key, base ensures SameRow(bs, Folded(bs, at, bi, m), key, base) {
      FoldKeepsRow(bs, at, bi, m, fits, key, base);
    }
    forall id, room, last, times ensures SameNotices(bs, Folded(bs, at, bi, m), id, room, last, times) {
      FoldKeepsNotices(bs, at, bi, m, fits, id, room, last, times);
    }
    forall id ensures SameSignals(bs, Folded(bs, at, bi, m), id) {
      FoldKeepsSignals(bs, at, bi, m, fits, id);
    }
    forall id ensures SameMarks(bs, Folded(bs, at, bi, m), id) {
      FoldKeepsMarks(bs, at, bi, m, fits, id);
    }
  }

  // ── when a fold is heard ──────────────────────────────────────────────────

  /** A session row that awaits input, written by `op` at time `at`. */
  predicate AwaitsAt(op: RowOp, id: string, at: int) {
    && KeyOf(op) == (SESSIONS, id) && op.op == Upsert && SessionWrite(op)
    && Writes(op)["status"] == Str("awaitingInput") && Writes(op)["updatedAt"] == Num(at)
  }

  lemma ThreeRowOps(h: RowOp, p: RowOp, q: RowOp, key: Key)
    requires KeyOf(h) == KeyOf(p) == KeyOf(q) == key
    ensures RowOps([[h], [p], [q]], key) == [h, p, q] && RowOps([[h], [p], [q]][..1], key) == [h]
  {
    FilterOne(h, key); FilterOne(p, key); FilterOne(q, key);
    assert [[h], [p], [q]] == [[h]] + ([[p]] + [[q]]) && [[h], [p], [q]][..1] == [[h]];
    RowOpsConcat([[h]], [[p]] + [[q]], key);
    RowOpsConcat([[p]], [[q]], key);
    RowOpsOne([h], key); RowOpsOne([p], key); RowOpsOne([q], key);
  }

  /** Three keepalive touches of one session, the last two folded: exactly
      when the room sends the same. */
  lemma ThreeTouchesIff(h: RowOp, p: RowOp, q: RowOp, m: RowOp, fits: RowOp -> bool, id: string, chat: Option<Row>,
                        times: seq<int>)
    requires KeyOf(h) == KeyOf(p) == KeyOf(q) == (SESSIONS, id) && h.op == Upsert && WrittenInOrder([h, p, q])
    requires SessionSignal(h) == SessionSignal(p) == SessionSignal(q) && Coalesce(p, q, fits) == Some(m)
    requires |times| == 3
    ensures Trace(Room(None, chat), [[h], [p], [q]], times, id) == Trace(Room(None, chat), [[h], [], [m]], times, id)
      <==> NoticesAlike(ViewWritten(h), ViewWritten(p), ViewWritten(q), times[1], times[2])
  {
    var bs := [[h], [p], [q]];
    ThreeRowOps(h, p, q, (SESSIONS, id));
    assert FollowsRun(bs, 1, q);
    assert Folded(bs, 1, 2, m) == [[h], [], [m]];
    FoldKeepsNoticesIff(bs, 1, 2, m, fits, id, Room(None, chat), None, times);
    assert ShownBefore([h], None) == h;
  }

  lemma AwaitingView(op: RowOp, id: string, at: int)
    requires AwaitsAt(op, id, at)
    ensures KeyOf(op) == (SESSIONS, id) && op.op == Upsert
    ensures ViewWritten(op) == SessionView(Some(Str("awaitingInput")), ViewWritten(op).turn, at)
  {
  }

  /** Two touches heard differently apart and folded. */
  ghost predicate HeardApart(h: RowOp, p: RowOp, q: RowOp, m: RowOp, id: string, chat: Option<Row>, times: seq<int>)
    requires |times| == 3
  {
    Trace(Room(None, chat), [[h], [p], [q]], times, id) != Trace(Room(None, chat), [[h], [], [m]], times, id)
  }

  /** One notification is lost: the touch that reported the session is folded
      into one applied after it went stale. */
  lemma FoldLosesNotice(h: RowOp, p: RowOp, q: RowOp, m: RowOp, fits: RowOp -> bool, id: string, chat: Option<Row>,
                        times: seq<int>)
    requires AwaitsAt(h, id, 0) && AwaitsAt(p, id, 100_000) && AwaitsAt(q, id, 110_000)
    requires WrittenInOrder([h, p, q]) && SessionSignal(h) == SessionSignal(p) == SessionSignal(q) &&
      Coalesce(p, q, fits) == Some(m)
    requires |times| == 3 && times[1] == 145_000 && times[2] == 145_001
    ensures HeardApart(h, p, q, m, id, chat, times)
  {
    AwaitingView(h, id, 0);
    AwaitingView(p, id, 100_000);
    AwaitingView(q, id, 110_000);
    ThreeTouchesIff(h, p, q, m, fits, id, chat, times);
  }

  /** One notification too many: the run's head goes stale between the two
      times, and the folded touch seems to bring the session back. */
  lemma FoldAddsNotice(h: RowOp, p: RowOp, q: RowOp, m: RowOp, fits: RowOp -> bool, id: string, chat: Option<Row>,
                       times: seq<int>)
    requires AwaitsAt(h, id, 0) && AwaitsAt(p, id, 40_000) && AwaitsAt(q, id, 44_000)
    requires WrittenInOrder([h, p, q]) && SessionSignal(h) == SessionSignal(p) == SessionSignal(q) &&
      Coalesce(p, q, fits) == Some(m)
    requires |times| == 3 && times[1] == 45_000 && times[2] == 45_001
    ensures HeardApart(h, p, q, m, id, chat, times)
  {
    AwaitingView(h, id, 0);
    AwaitingView(p, id, 40_000);
    AwaitingView(q, id, 44_000);
    ThreeTouchesIff(h, p, q, m, fits, id, chat, times);
  }

  /** One notification is lost without any row going stale: the wall clock
      stepped back, so the last touch is older than the one it absorbs, and at
      one and the same time that one is fresh and the last is not. */
  lemma FoldMissesOlderTouch(h: RowOp, p: RowOp, q: RowOp, m: RowOp, fits: RowOp -> bool, id: string,
                             chat: Option<Row>, times: seq<int>)
    requires AwaitsAt(h, id, 0) && AwaitsAt(p, id, 100_000) && AwaitsAt(q, id, 50_000)
    requires WrittenInOrder([h, p, q]) && SessionSignal(h) == SessionSignal(p) == SessionSignal(q) &&
      Coalesce(p, q, fits) == Some(m)
    requires |times| == 3 && times[0] == times[1] == times[2] == 100_010
    ensures HeardApart(h, p, q, m, id, chat, times)
  {
    AwaitingView(h, id, 0);
    AwaitingView(p, id, 100_000);
    AwaitingView(q, id, 50_000);
    ThreeTouchesIff(h, p, q, m, fits, id, chat, times);
  }

  // ── dropping emptied batches ──────────────────────────────────────────────

  function DropEmpty(bs: seq<seq<RowOp>>): seq<seq<RowOp>>
    decreases |bs|
  {
    if bs == [] then []
    else if bs[0] == [] then DropEmpty(bs[1..])
    else [bs[0]] + DropEmpty(bs[1..])
  }

  /** The times of the batches that stay. */
  function TimesKept(bs: seq<seq<RowOp>>, times: seq<int>): (r: seq<int>)
    requires |times| == |bs|
    ensures |r| == |DropEmpty(bs)|
    decreases |bs|
  {
    if bs == [] then []
    else if bs[0] == [] then TimesKept(bs[1..], times[1..])
    else [times[0]] + TimesKept(bs[1..], times[1..])
  }

  lemma {:induction false} DropEmptyNone(bs: seq<seq<RowOp>>)
    requires forall i :: 0 <= i < |bs| ==> bs[i] != []
    ensures DropEmpty(bs) == bs
    decreases |bs|
  {
    if bs == [] {
    } else {
      DropEmptyNone(bs[1..]);
    }
  }

  lemma {:induction false} DropEmptyRowOps(bs: seq<seq<RowOp>>, key: Key)
    ensures RowOps(DropEmpty(bs), key) == RowOps(bs, key)
    decreases |bs|
  {
    if bs == [] {
    } else {
      DropEmptyRowOps(bs[1..], key);
      if bs[0] != [] {
        assert ([bs[0]] + DropEmpty(bs[1..]))[1..] == DropEmpty(bs[1..]);
      }
    }
  }

  lemma {:induction false} DropEmptyMarks(bs: seq<seq<RowOp>>, id: string)
    ensures QueueMarks(DropEmpty(bs), id) == QueueMarks(bs, id)
    decreases |bs|
  {
    if bs == [] {
    } else {
      DropEmptyMarks(bs[1..], id);
      if bs[0] != [] {
        assert ([bs[0]] + DropEmpty(bs[1..]))[1..] == DropEmpty(bs[1..]);
      }
    }
  }

  /** An emptied batch sends nothing at any time. */
  lemma {:induction false} DropEmptyTrace(bs: seq<seq<RowOp>>, room: Room, times: seq<int>, id: string)
    requires |times| == |bs|
    ensures Trace(room, DropEmpty(bs), TimesKept(bs, times), id) == Trace(room, bs, times, id)
    decreases |bs|
  {
    if bs == [] {
    } else {
      var next := RoomAfter(room, [bs[0]], id);
      DropEmptyTrace(bs[1..], next, times[1..], id);
      if bs[0] != [] {
        var rest, kept := DropEmpty(bs[1..]), TimesKept(bs[1..], times[1..]);
        assert ([bs[0]] + rest)[1..] == rest && ([bs[0]] + rest)[0] == bs[0];
        assert ([times[0]] + kept)[1..] == kept && ([times[0]] + kept)[0] == times[0];
        assert Trace(room, [bs[0]] + rest, [times[0]] + kept, id) == Emit(room, bs[0], id, times[0]) +
          Trace(next, rest, kept, id);
      } else {
        RowOpsOne([], (SESSIONS, id));
        RowOpsOne([], (CHATS, id));
        assert next == room;
      }
    }
  }

  /** Queue `b` is what folding leaves of queue `a`: equivalent to it once the
      emptied batches are put back. */
  ghost predicate Reduced(a: seq<seq<RowOp>>, b: seq<seq<RowOp>>) {
    exists full :: ReducedBy(a, full, b)
  }

  ghost predicate ReducedBy(a: seq<seq<RowOp>>, full: seq<seq<RowOp>>, b: seq<seq<RowOp>>) {
    |full| == |a| && Equivalent(a, full) && b == DropEmpty(full)
  }

  /** What a room hears of the reduced queue: with every remaining batch at
      its own time, exactly what it heard of the whole one. */
  ghost predicate HeardAlike(a: seq<seq<RowOp>>, b: seq<seq<RowOp>>, id: string, room: Room, times: seq<int>) {
    |times| == |a| && exists full ::
      (ReducedBy(a, full, b) && Trace(room, b, TimesKept(full, times), id) == Trace(room, a, times, id))
  }

  lemma ReducedNotices(a: seq<seq<RowOp>>, b: seq<seq<RowOp>>, id: string, room: Room, last: Option<RowOp>,
                       times: seq<int>)
    requires Reduced(a, b) && |times| == |a|
    requires SingleWriter(room.session, RowOps(a, (SESSIONS, id)), last) &&
      Steady(RowOps(a, (SESSIONS, id)), last, times)
    ensures HeardAlike(a, b, id, room, times)
  {
    var full :| ReducedBy(a, full, b);
    assert SameNotices(a, full, id, room, last, times);
    DropEmptyTrace(full, room, times, id);
    assert Trace(room, b, TimesKept(full, times), id) == Trace(room, a, times, id);
  }

  /** The rest of what a reduced queue keeps, for every room and every writer. */
  lemma ReducedRows(a: seq<seq<RowOp>>, b: seq<seq<RowOp>>)
    requires Reduced(a, b)
    ensures forall key, base :: SameRow(a, b, key, base)
    ensures forall id :: SameSignals(a, b, id) && SameMarks(a, b, id)
  {
    var full :| ReducedBy(a, full, b);
    forall key, base ensures SameRow(a, b, key, base) {
      assert SameRow(a, full, key, base);
      DropEmptyRowOps(full, key);
    }
    forall id ensures SameSignals(a, b, id) && SameMarks(a, b, id) {
      assert SameSignals(a, full, id) && SameMarks(a, full, id);
      DropEmptyRowOps(full, (SESSIONS, id));
      DropEmptyMarks(full, id);
    }
  }
}
