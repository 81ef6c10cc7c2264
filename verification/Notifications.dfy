/** What the room makes of a queue of batches: the rows it leaves behind and
    the push notifications it sends, one session at a time. */
module Notifications {
  import opened Options
  import opened Rows

  const SESSIONS := "sessions"
  const CHATS := "chats"

  type Key = (string, string)

  function KeyOf(op: RowOp): Key {
    (op.kind, op.id)
  }

  // ── operations of one row ─────────────────────────────────────────────────

  function Filter(ops: seq<RowOp>, key: Key): seq<RowOp>
    decreases |ops|
  {
    if ops == [] then []
    else (if KeyOf(ops[0]) == key then [ops[0]] else []) + Filter(ops[1..], key)
  }

  lemma {:induction false} FilterConcat(a: seq<RowOp>, b: seq<RowOp>, key: Key)
    ensures Filter(a + b, key) == Filter(a, key) + Filter(b, key)
    decreases |a|
  {
    if a == [] {
      assert a + b == b;
    } else {
      assert (a + b)[1..] == a[1..] + b;
      FilterConcat(a[1..], b, key);
    }
  }

  lemma {:induction false} FilterNone(ops: seq<RowOp>, key: Key)
    requires forall i :: 0 <= i < |ops| ==> KeyOf(ops[i]) != key
    ensures Filter(ops, key) == []
    decreases |ops|
  {
    if ops == [] {
    } else {
      FilterNone(ops[1..], key);
    }
  }

  lemma {:induction false} InFilter(ops: seq<RowOp>, op: RowOp)
    requires op in ops
    ensures op in Filter(ops, KeyOf(op))
    decreases |ops|
  {
    if ops[0] != op {
      InFilter(ops[1..], op);
    }
  }

  /** All queued operations of one row, in queue order. */
  function RowOps(batches: seq<seq<RowOp>>, key: Key): seq<RowOp>
    decreases |batches|
  {
    if batches == [] then [] else Filter(batches[0], key) + RowOps(batches[1..], key)
  }

  lemma {:induction false} RowOpsConcat(a: seq<seq<RowOp>>, b: seq<seq<RowOp>>, key: Key)
    ensures RowOps(a + b, key) == RowOps(a, key) + RowOps(b, key)
    decreases |a|
  {
    if a == [] {
      assert a + b == b;
    } else {
      assert (a + b)[1..] == a[1..] + b;
      RowOpsConcat(a[1..], b, key);
    }
  }

  lemma {:induction false} RowOpsNone(batches: seq<seq<RowOp>>, key: Key)
    requires forall i :: 0 <= i < |batches| ==> Filter(batches[i], key) == []
    ensures RowOps(batches, key) == []
    decreases |batches|
  {
    if batches == [] {
    } else {
      RowOpsNone(batches[1..], key);
    }
  }

  // ── the notification rule ─────────────────────────────────────────────────

  const STALE_MS := 45000

  datatype Indicator = Errored | Working | Awaiting | NoIndicator
  datatype Notice = Failed | NeedsInput | Finished

  function Field(row: Row, k: string): Option<Value> {
    if k in row.fields then Some(row.fields[k]) else None
  }

  function TextOf(v: Option<Value>): Option<string> {
    match v
    case Some(Str(text)) => Some(text)
    case _ => None
  }

  function TimeOf(v: Option<Value>): int {
    match v
    case Some(Num(n)) => n
    case _ => 0
  }

  /** What a notification sees of a session row. */
  datatype SessionView = NoSession | SessionView(status: Option<Value>, turn: Option<string>, updatedAt: int)

  function SessionViewOf(row: Option<Row>): SessionView {
    if row.None? || row.value.deleted then NoSession
    else SessionView(Field(row.value, "status"), TextOf(Field(row.value, "lastCompletedTurn")),
      TimeOf(Field(row.value, "updatedAt")))
  }

  predicate Fresh(v: SessionView, now: int)
    requires v.SessionView?
  {
    now - v.updatedAt <= STALE_MS
  }

  function IndicatorOf(v: SessionView, now: int): Indicator
    requires v.SessionView?
  {
    if v.status == Some(Str("errored")) then Errored
    else if v.status == Some(Str("working")) && Fresh(v, now) then Working
    else if v.status == Some(Str("awaitingInput")) && Fresh(v, now) then Awaiting
    else NoIndicator
  }

  /** The notification for a session row before and after one batch, judged
      by the room's clock when it applies the batch. */
  function NotificationFor(before: SessionView, after: SessionView, now: int): Option<Notice> {
    if before.NoSession? || after.NoSession? then None
    else
      var prev, next := IndicatorOf(before, now), IndicatorOf(after, now);
      if next == Errored && prev != Errored then Some(Failed)
      else if next == Awaiting && prev != Awaiting then Some(NeedsInput)
      else if Fresh(after, now) && after.turn.Some? && after.turn != before.turn then Some(Finished)
      else None
  }

  /** The status shown is this one: an error at any age, the other two only
      while the last update is at most 45 seconds old. */
  predicate Showing(v: SessionView, status: string, now: int) {
    v.SessionView? && v.status == Some(Str(status)) && (status != "errored" ==> now - v.updatedAt <= 45000)
  }

  /** When a session's change is worth a notification: it fails, it starts to
      wait for input, or else, while recent, it completes another turn. */
  lemma NoticeIff(before: SessionView, after: SessionView, now: int)
    requires before.SessionView? && after.SessionView?
    ensures var failed := Showing(after, "errored", now) && !Showing(before, "errored", now);
      var asks := Showing(after, "awaitingInput", now) && !Showing(before, "awaitingInput", now);
      var turned := after.turn.Some? && after.turn != before.turn && now - after.updatedAt <= 45000;
      && (NotificationFor(before, after, now) == Some(Failed) <==> failed)
      && (NotificationFor(before, after, now) == Some(NeedsInput) <==> asks)
      && (NotificationFor(before, after, now) == Some(Finished) <==> turned && !failed && !asks)
  {
  }

  /** What a notification sees of its chat row. */
  datatype ChatView = NoChat | ChatView(title: Option<Value>, archived: Option<Value>, parent: Option<Value>)

  function ViewOf(chat: Option<Row>): ChatView {
    if chat.None? || chat.value.deleted then NoChat
    else ChatView(Field(chat.value, "title"), Field(chat.value, "archived"), Field(chat.value, "parentChatId"))
  }

  // ── the room applying a queue ─────────────────────────────────────────────

  /** The room's rows of one session: its status row and its chat row. */
  datatype Room = Room(session: Option<Row>, chat: Option<Row>)

  function RoomAfter(room: Room, batches: seq<seq<RowOp>>, id: string): Room {
    Room(Replay(room.session, RowOps(batches, (SESSIONS, id))),
         Replay(room.chat, RowOps(batches, (CHATS, id))))
  }

  /** The notification, if any, of a session row changing from `before` to `after`. */
  function Notify(before: SessionView, after: SessionView, view: ChatView, now: int): seq<(Notice, ChatView)> {
    match NotificationFor(before, after, now)
    case None => []
    case Some(notice) => [(notice, view)]
  }

  /** The notification one batch sends: it is applied as a unit, then the
      session row is compared before and after and labelled from the chat row. */
  function Emit(room: Room, batch: seq<RowOp>, id: string, now: int): seq<(Notice, ChatView)> {
    var after := RoomAfter(room, [batch], id);
    if Filter(batch, (SESSIONS, id)) == [] then []
    else Notify(SessionViewOf(room.session), SessionViewOf(after.session), ViewOf(after.chat), now)
  }

  /** Every notification of one session while the room applies a queue, batch
      `i` at `times[i]`. */
  function Trace(room: Room, batches: seq<seq<RowOp>>, times: seq<int>, id: string): seq<(Notice, ChatView)>
    requires |times| == |batches|
    decreases |batches|
  {
    if batches == [] then []
    else Emit(room, batches[0], id, times[0]) + Trace(RoomAfter(room, [batches[0]], id), batches[1..], times[1..], id)
  }

  lemma RowOpsOne(batch: seq<RowOp>, key: Key)
    ensures RowOps([batch], key) == Filter(batch, key)
  {
    assert [batch][1..] == [];
  }

  lemma RoomAfterConcat(room: Room, a: seq<seq<RowOp>>, b: seq<seq<RowOp>>, id: string)
    ensures RoomAfter(room, a + b, id) == RoomAfter(RoomAfter(room, a, id), b, id)
  {
    RowOpsConcat(a, b, (SESSIONS, id));
    RowOpsConcat(a, b, (CHATS, id));
    ReplayConcat(room.session, RowOps(a, (SESSIONS, id)), RowOps(b, (SESSIONS, id)));
    ReplayConcat(room.chat, RowOps(a, (CHATS, id)), RowOps(b, (CHATS, id)));
  }

  lemma {:induction false} TraceConcat(room: Room, a: seq<seq<RowOp>>, b: seq<seq<RowOp>>, ta: seq<int>, tb: seq<int>,
                                       id: string)
    requires |ta| == |a| && |tb| == |b|
    ensures Trace(room, a + b, ta + tb, id) == Trace(room, a, ta, id) + Trace(RoomAfter(room, a, id), b, tb, id)
    decreases |a|
  {
    if a == [] {
      assert a + b == b && ta + tb == tb;
    } else {
      var next, rest := RoomAfter(room, [a[0]], id), a[1..];
      assert (a + b)[0] == a[0] && (a + b)[1..] == rest + b && (ta + tb)[1..] == ta[1..] + tb;
      TraceConcat(next, rest, b, ta[1..], tb, id);
      assert RoomAfter(room, a, id) == RoomAfter(next, rest, id) by {
        assert a == [a[0]] + rest;
        RoomAfterConcat(room, [a[0]], rest, id);
      }
      var first := Emit(room, a[0], id, ta[0]);
      assert first + (Trace(next, rest, ta[1..], id) + Trace(RoomAfter(next, rest, id), b, tb, id))
          == (first + Trace(next, rest, ta[1..], id)) + Trace(RoomAfter(next, rest, id), b, tb, id);
    }
  }

  lemma TraceOne(room: Room, batch: seq<RowOp>, id: string, now: int)
    ensures Trace(room, [batch], [now], id) == Emit(room, batch, id, now)
  {
    assert [batch][1..] == [] && [now][1..] == [];
  }

  /** Batches that never touch the session row send nothing for it. */
  lemma {:induction false} QuietTrace(room: Room, batches: seq<seq<RowOp>>, times: seq<int>, id: string)
    requires |times| == |batches| && forall i :: 0 <= i < |batches| ==> Filter(batches[i], (SESSIONS, id)) == []
    ensures Trace(room, batches, times, id) == []
    decreases |batches|
  {
    if batches == [] {
    } else {
      QuietTrace(RoomAfter(room, [batches[0]], id), batches[1..], times[1..], id);
    }
  }

  /** A chat row matters only through its view while no chat operation arrives. */
  lemma {:induction false} TraceByView(a: Room, b: Room, batches: seq<seq<RowOp>>, times: seq<int>, id: string)
    requires |times| == |batches| && a.session == b.session && ViewOf(a.chat) == ViewOf(b.chat)
    requires forall i :: 0 <= i < |batches| ==> Filter(batches[i], (CHATS, id)) == []
    ensures Trace(a, batches, times, id) == Trace(b, batches, times, id)
    decreases |batches|
  {
    if batches == [] {
    } else {
      RowOpsOne(batches[0], (CHATS, id));
      TraceByView(RoomAfter(a, [batches[0]], id), RoomAfter(b, [batches[0]], id), batches[1..], times[1..], id);
    }
  }

  // ── operations that gate notifications ────────────────────────────────────

  /** A chat operation that can change what a notification sees. */
  predicate ChatGates(op: RowOp) {
    op.op != Update || "title" in Writes(op) || "archived" in Writes(op) || "parentChatId" in Writes(op)
  }

  lemma NonGatingKeepsView(chat: Option<Row>, op: RowOp)
    requires !ChatGates(op)
    ensures ViewOf(Step(chat, op)) == ViewOf(chat)
  {
    if chat.Some? && !chat.value.deleted {
      OverwriteAt(chat.value, op, "title");
      OverwriteAt(chat.value, op, "archived");
      OverwriteAt(chat.value, op, "parentChatId");
    }
  }

  function WriteOf(op: RowOp, k: string): Option<Value> {
    if k in Writes(op) then Some(Writes(op)[k]) else None
  }

  /** A chat on which a gating operation shows: none for an upsert, one
      without clocks whose three fields are unlike what is written otherwise. */
  function SeenBy(op: RowOp): Option<Row> {
    if op.op == Upsert then None
    else
      var fields := map k | k in {"title", "archived", "parentChatId"} && WriteOf(op, k) == Some(Null) :: Str("");
      Some(Row(op.kind, op.id, 0, false, None, fields, map[]))
  }

  lemma GateSeen(op: RowOp)
    requires ChatGates(op)
    ensures ViewOf(Step(SeenBy(op), op)) != ViewOf(SeenBy(op))
  {
    if op.op == Update {
      var row := SeenBy(op).value;
      OverwriteAt(row, op, "title");
      OverwriteAt(row, op, "archived");
      OverwriteAt(row, op, "parentChatId");
    }
  }

  /** The rule is exact: an operation gates if and only if under it some chat
      looks different to a session notification. */
  lemma GatesIff(op: RowOp)
    ensures ChatGates(op) <==> exists chat :: ViewOf(Step(chat, op)) != ViewOf(chat)
  {
    if ChatGates(op) {
      var chat := SeenBy(op);
      GateSeen(op);
      assert ViewOf(Step(chat, op)) != ViewOf(chat);
    }
    forall chat | !ChatGates(op) ensures ViewOf(Step(chat, op)) == ViewOf(chat) {
      NonGatingKeepsView(chat, op);
    }
  }

  lemma {:induction false} NonGatingRunKeepsView(chat: Option<Row>, ops: seq<RowOp>)
    requires forall i :: 0 <= i < |ops| ==> !ChatGates(ops[i])
    ensures ViewOf(Replay(chat, ops)) == ViewOf(chat)
    decreases |ops|
  {
    if ops == [] {
    } else {
      NonGatingKeepsView(chat, ops[0]);
      NonGatingRunKeepsView(Step(chat, ops[0]), ops[1..]);
    }
  }

  /** The session fields notifications switch on, as one operation writes them. */
  function SessionSignal(op: RowOp): (Option<Value>, Option<Value>) {
    (WriteOf(op, "status"), WriteOf(op, "lastCompletedTurn"))
  }

  type Signal = (Option<Value>, Option<Value>)

  /** The signals of a session's operations, repeats removed. */
  function Signals(ops: seq<RowOp>): (r: seq<Signal>)
    ensures ops != [] ==> r != [] && r[|r| - 1] == SessionSignal(ops[|ops| - 1])
  {
    if ops == [] then []
    else AddSignal(Signals(ops[..|ops| - 1]), SessionSignal(ops[|ops| - 1]))
  }

  function AddSignal(signals: seq<Signal>, s: Signal): (r: seq<Signal>)
    ensures r != [] && r[|r| - 1] == s
  {
    if signals != [] && signals[|signals| - 1] == s then signals else signals + [s]
  }

  lemma SignalsSnoc(ops: seq<RowOp>, op: RowOp)
    ensures Signals(ops + [op]) == AddSignal(Signals(ops), SessionSignal(op))
  {
    assert (ops + [op])[..|ops|] == ops;
  }

  // ── how session rows are written ──────────────────────────────────────────

  /** A session operation as the owning device writes it: a delete, or a
      full upsert whose status, completed turn and time share the
      operation's own clock. */
  predicate SessionWrite(op: RowOp) {
    op.op == Delete ||
    (op.op == Upsert
     && (forall k :: k in Writes(op) ==> ClockFor(op, k) <= op.hlc)
     && (forall k :: k in {"status", "lastCompletedTurn", "updatedAt"} ==>
       k in Writes(op) && ClockFor(op, k) == op.hlc))
  }

  /** The device's clock stamps writes in order. Its wall clock, which fills
      `updatedAt`, may step back. */
  predicate InOrder(x: RowOp, y: RowOp) {
    x.hlc < y.hlc
  }

  function NonNull(v: Option<Value>): Option<Value> {
    if v == Some(Null) then None else v
  }

  /** What a notification sees of the row a session write leaves behind. */
  function ViewWritten(op: RowOp): SessionView {
    if op.op == Delete then NoSession
    else SessionView(NonNull(WriteOf(op, "status")), TextOf(NonNull(WriteOf(op, "lastCompletedTurn"))),
                     TimeOf(NonNull(WriteOf(op, "updatedAt"))))
  }

  const SIGNAL_FIELDS := ["status", "lastCompletedTurn", "updatedAt"]

  /** `op` is the newest write the row holds, and the row shows it. */
  ghost predicate Shows(row: Option<Row>, op: RowOp) {
    && SessionWrite(op) && row.Some? && (forall c :: c in AllClocks(row.value) ==> c <= op.hlc)
    && if op.op == Delete then row.value.deleted && row.value.delHlc == Some(op.hlc)
       else !row.value.deleted && forall k :: k in SIGNAL_FIELDS ==>
         Lookup(row.value.clocks, k) == Some(op.hlc) && Field(row.value, k) == NonNull(WriteOf(op, k))
  }

  ghost predicate OlderThan(row: Option<Row>, c: Clock) {
    row.Some? ==> forall d :: d in AllClocks(row.value) ==> d < c
  }

  /** The room has `op`, or a newer write of the session. */
  predicate Known(last: Option<RowOp>, op: RowOp) {
    last.Some? && op.hlc <= last.value.hlc
  }

  /** `x` and `y` show the same status and completed turn. */
  predicate SameStatus(x: SessionView, y: SessionView) {
    x.SessionView? && y.SessionView? && x.status == y.status && x.turn == y.turn
  }

  /** The write the room shows between two queued ones is the first of them,
      or one that was absorbed by the second. */
  predicate Links(last: RowOp, x: RowOp, y: RowOp) {
    ViewWritten(last) == ViewWritten(x) || SameStatus(ViewWritten(last), ViewWritten(y))
  }

  /** What the room holds of a session whose queue is `ops`: nothing as new as
      the first operation, or a state left by `last`, a write of the queue or
      one absorbed into the queue. So the room may have applied any part of
      the queue before. */
  ghost predicate Held(row: Option<Row>, ops: seq<RowOp>, last: Option<RowOp>) {
    match last
    case None => ops != [] ==> OlderThan(row, ops[0].hlc)
    case Some(l) =>
      && Shows(row, l)
      && (forall i :: 0 <= i < |ops| && l.hlc < ops[i].hlc ==> InOrder(l, ops[i]))
      && (forall i :: 0 < i < |ops| && ops[i - 1].hlc <= l.hlc < ops[i].hlc ==> Links(l, ops[i - 1], ops[i]))
  }

  ghost predicate WrittenInOrder(ops: seq<RowOp>) {
    && (forall i :: 0 <= i < |ops| ==> SessionWrite(ops[i]))
    && (forall i, j :: 0 <= i < j < |ops| ==> InOrder(ops[i], ops[j]))
  }

  /** A session's queue as its single writer produces it, and a room that
      holds nothing but what that writer sent it. */
  ghost predicate SingleWriter(row: Option<Row>, ops: seq<RowOp>, last: Option<RowOp>) {
    WrittenInOrder(ops) && Held(row, ops, last)
  }

  lemma ShownView(row: Option<Row>, op: RowOp)
    requires Shows(row, op)
    ensures SessionViewOf(row) == ViewWritten(op)
  {
    assert "status" in SIGNAL_FIELDS && "lastCompletedTurn" in SIGNAL_FIELDS && "updatedAt" in SIGNAL_FIELDS;
  }

  /** The clocks of a row that was just written. */
  lemma WrittenClocks(base: Row, op: RowOp, top: Clock)
    requires forall k :: k in Writes(op) ==> ClockFor(op, k) <= top
    requires forall c :: c in AllClocks(base) ==> c <= top
    ensures forall c :: c in AllClocks(Overwrite(base, op)) ==> c <= top
  {
    var after := Overwrite(base, op);
    forall c | c in AllClocks(after) ensures c <= top {
      if after.delHlc != Some(c) {
        var k :| k in after.clocks && after.clocks[k] == c;
        OverwriteAt(base, op, k);
        if !Wins(base, op, k) {
          assert base.clocks[k] in AllClocks(base);
        }
      } else {
        assert c in AllClocks(base);
      }
    }
  }

  /** A write newer than everything on the row shows. */
  lemma NewestShows(row: Option<Row>, op: RowOp)
    requires SessionWrite(op) && OlderThan(row, op.hlc)
    ensures Shows(Step(row, op), op)
  {
    if op.op == Upsert {
      var base := match row
        case None => BlankRow(op)
        case Some(r) => if r.deleted then Revived(r) else r;
      assert Step(row, op) == Some(Overwrite(base, op)) by {
        if row.Some? && row.value.deleted && row.value.delHlc.Some? {
          assert row.value.delHlc.value in AllClocks(row.value);
        }
      }
      assert forall c :: c in AllClocks(base) ==> row.Some? && c in AllClocks(row.value);
      WrittenClocks(base, op, op.hlc);
      forall k | k in SIGNAL_FIELDS
        ensures Lookup(Overwrite(base, op).clocks, k) == Some(op.hlc) &&
          Field(Overwrite(base, op), k) == NonNull(WriteOf(op, k))
      {
        OverwriteAt(base, op, k);
        if k in base.clocks {
          assert base.clocks[k] in AllClocks(base);
        }
      }
    }
  }

  /** A write the room already has changes nothing a notification sees. */
  lemma KnownKeeps(row: Option<Row>, last: RowOp, op: RowOp)
    requires Shows(row, last) && SessionWrite(op) && op.hlc <= last.hlc
    ensures Shows(Step(row, op), last)
  {
    var r := row.value;
    if last.op == Upsert {
      assert "status" in SIGNAL_FIELDS && r.clocks["status"] == last.hlc;
      assert last.hlc in AllClocks(r);
      if op.op == Upsert {
        WrittenClocks(r, op, last.hlc);
        forall k | k in SIGNAL_FIELDS
          ensures Lookup(Overwrite(r, op).clocks, k) == Lookup(r.clocks, k) && Field(Overwrite(r, op), k) == Field(r, k)
        {
          OverwriteAt(r, op, k);
        }
      }
    }
  }

  /** The newest write the room has after `op`. */
  function Newest(last: Option<RowOp>, op: RowOp): Option<RowOp> {
    if Known(last, op) then last else Some(op)
  }

  lemma ClocksRise(ops: seq<RowOp>, i: nat, j: nat)
    requires WrittenInOrder(ops) && i <= j < |ops|
    ensures ops[i].hlc <= ops[j].hlc && (i < j ==> ops[i].hlc < ops[j].hlc)
  {
    assert i < j ==> InOrder(ops[i], ops[j]);
  }

  lemma WrittenRest(op: RowOp, rest: seq<RowOp>)
    requires WrittenInOrder([op] + rest)
    ensures SessionWrite(op) && WrittenInOrder(rest) && forall i :: 0 <= i < |rest| ==> InOrder(op, rest[i])
  {
    var ops := [op] + rest;
    assert ops[0] == op && forall i :: 0 <= i < |rest| ==> rest[i] == ops[i + 1];
    forall i, j | 0 <= i < j < |rest| ensures InOrder(rest[i], rest[j]) {
      assert InOrder(ops[i + 1], ops[j + 1]);
    }
    forall i | 0 <= i < |rest| ensures SessionWrite(rest[i]) && InOrder(op, rest[i]) {
      assert SessionWrite(ops[i + 1]) && InOrder(ops[0], ops[i + 1]);
    }
  }

  /** A known write arrives: the rest of the queue still finds the same state. */
  lemma HeldKnown(row: Option<Row>, op: RowOp, rest: seq<RowOp>, last: Option<RowOp>)
    requires SingleWriter(row, [op] + rest, last) && Known(last, op)
    ensures Held(Step(row, op), rest, last) && Shows(Step(row, op), last.value)
  {
    var ops, l := [op] + rest, last.value;
    assert ops[0] == op && forall i :: 0 <= i < |rest| ==> rest[i] == ops[i + 1];
    KnownKeeps(row, l, op);
    forall i | 0 <= i < |rest| && l.hlc < rest[i].hlc ensures InOrder(l, rest[i]) {
      assert InOrder(l, ops[i + 1]);
    }
    forall i | 0 < i < |rest| && rest[i - 1].hlc <= l.hlc < rest[i].hlc ensures Links(l, rest[i - 1], rest[i]) {
      assert Links(l, ops[i], ops[i + 1]);
    }
  }

  /** A new write arrives: the room shows it, and nothing later is known. */
  lemma HeldNew(row: Option<Row>, op: RowOp, rest: seq<RowOp>, last: Option<RowOp>)
    requires SingleWriter(row, [op] + rest, last) && !Known(last, op)
    ensures Held(Step(row, op), rest, Some(op)) && Shows(Step(row, op), op)
  {
    WrittenRest(op, rest);
    assert ([op] + rest)[0] == op;
    if last.Some? {
      assert InOrder(last.value, ([op] + rest)[0]);
    }
    NewestShows(row, op);
  }

  lemma HeldNext(row: Option<Row>, op: RowOp, rest: seq<RowOp>, last: Option<RowOp>)
    requires SingleWriter(row, [op] + rest, last)
    ensures SingleWriter(Step(row, op), rest, Newest(last, op))
    ensures Newest(last, op).Some? && Shows(Step(row, op), Newest(last, op).value)
  {
    WrittenRest(op, rest);
    if Known(last, op) {
      HeldKnown(row, op, rest, last);
    } else {
      HeldNew(row, op, rest, last);
    }
  }

  /** The newest write the room has after `ops`. */
  function NewestOf(last: Option<RowOp>, ops: seq<RowOp>): Option<RowOp> {
    if ops == [] then last else Newest(last, ops[|ops| - 1])
  }

  /** What the room holds in the middle of a single writer's queue. */
  lemma {:induction false} HeldAfter(row: Option<Row>, ops: seq<RowOp>, rest: seq<RowOp>, last: Option<RowOp>)
    requires SingleWriter(row, ops + rest, last)
    ensures SingleWriter(Replay(row, ops), rest, NewestOf(last, ops))
    ensures ops != [] ==> Shows(Replay(row, ops), NewestOf(last, ops).value)
    decreases |ops|
  {
    if ops == [] {
      assert ops + rest == rest;
    } else {
      var more := ops[1..];
      assert ops + rest == [ops[0]] + (more + rest);
      HeldNext(row, ops[0], more + rest, last);
      HeldAfter(Step(row, ops[0]), more, rest, Newest(last, ops[0]));
      if more != [] {
        assert ops[|ops| - 1] == more[|more| - 1];
        assert (ops + rest)[0] == ops[0] && (ops + rest)[|ops| - 1] == ops[|ops| - 1];
        assert InOrder((ops + rest)[0], (ops + rest)[|ops| - 1]);
      }
    }
  }

  /** A room that applied any prefix of the queue is one the results cover:
      the re-push after a lost ack. */
  lemma {:induction false} PrefixHeld(row: Option<Row>, ops: seq<RowOp>, n: nat)
    requires WrittenInOrder(ops) && Held(row, ops, None) && n <= |ops|
    ensures SingleWriter(Replay(row, ops[..n]), ops, NewestOf(None, ops[..n]))
  {
    assert ops[..n] + ops[n..] == ops;
    HeldAfter(row, ops[..n], ops[n..], None);
    if n > 0 {
      var l := ops[n - 1];
      assert NewestOf(None, ops[..n]) == Some(l);
      OwnWriteHeld(Replay(row, ops[..n]), ops, n);
    }
  }

  /** The state left by one of the queue's own writes. */
  lemma OwnWriteHeld(row: Option<Row>, ops: seq<RowOp>, n: nat)
    requires WrittenInOrder(ops) && 0 < n <= |ops| && Shows(row, ops[n - 1])
    ensures SingleWriter(row, ops, Some(ops[n - 1]))
  {
    var l := ops[n - 1];
    forall i | 0 <= i < |ops| ensures (ops[i].hlc <= l.hlc <==> i < n) && (i >= n ==> InOrder(l, ops[i])) {
      if i < n {
        ClocksRise(ops, i, n - 1);
      } else {
        ClocksRise(ops, n - 1, i);
      }
    }
  }

  // ── three views of one run ────────────────────────────────────────────────

  predicate Waits(v: SessionView) {
    v.SessionView? && v.status == Some(Str("awaitingInput"))
  }

  /** With `before` on the row, and `first` and `second` of the same status
      following at `s` and `t`: leaving `first` out sends the same. For a
      session awaiting input there are two cases. If both new views are fresh
      at `t`, `first` must have reported the session exactly if the row before
      is stale by then, when `second` alone would report it. Otherwise `first`
      must not have reported it, and `second` must not bring it back unless it
      would have without `first`. */
  predicate NoticesAlike(before: SessionView, first: SessionView, second: SessionView, s: int, t: int) {
    Waits(before) && Waits(first) && Waits(second) ==>
      var reported := Fresh(first, s) && !Fresh(before, s);
      if Fresh(first, t) && Fresh(second, t) then reported <==> !Fresh(before, t)
      else !reported && (Fresh(second, t) ==> !Fresh(before, t))
  }

  /** The two times and the three update times are in any order. */
  lemma RunFoldsIff(before: SessionView, first: SessionView, second: SessionView, view: ChatView, s: int, t: int)
    requires SameStatus(before, first) && SameStatus(first, second)
    ensures Notify(before, first, view, s) + Notify(first, second, view, t) == Notify(before, second, view, t)
      <==> NoticesAlike(before, first, second, s, t)
  {
    assert |Notify(before, second, view, t)| <= 1;
  }
}
