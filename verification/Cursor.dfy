/** Cursor integrity: one replica and one room over every run of pushes,
    broadcasts, lost frames, reconnects, acks and wipes. */
module Cursor {
  import opened Options
  import opened Rows
  import opened History
  import opened Notifications
  import opened Replica

  // ── the room ──────────────────────────────────────────────────────────────

  /** The room applies one operation; a changed row is stamped with the
      sequence number of its batch. */
  function RoomApplyOp(rows: Table, op: RowOp, seqNo: nat): Table {
    var (next, changed) := ApplyOp(Get(rows, KeyOf(op)), op);
    if next.Some? && changed then rows[KeyOf(op) := next.value.(rev := seqNo)] else rows
  }

  function RoomApply(rows: Table, ops: seq<RowOp>, seqNo: nat): Table
    decreases |ops|
  {
    if ops == [] then rows else RoomApply(RoomApplyOp(rows, ops[0], seqNo), ops[1..], seqNo)
  }

  /** Rows a batch did not stamp are as before it. */
  ghost predicate Follows(before: Table, after: Table, seqNo: nat) {
    && before.Keys <= after.Keys
    && forall k :: k in after ==> after[k].rev == seqNo || (k in before && after[k] == before[k])
  }

  lemma {:induction false} RoomApplyFollows(rows: Table, ops: seq<RowOp>, seqNo: nat)
    ensures Follows(rows, RoomApply(rows, ops, seqNo), seqNo)
    decreases |ops|
  {
    if ops == [] {
    } else {
      RoomApplyFollows(RoomApplyOp(rows, ops[0], seqNo), ops[1..], seqNo);
    }
  }

  ghost predicate Keyed(rows: Table) {
    forall k :: k in rows ==> RowKey(rows[k]) == k
  }

  lemma StepKey(row: Option<Row>, op: RowOp)
    requires row.Some? ==> RowKey(row.value) == KeyOf(op)
    ensures Step(row, op).Some? ==> RowKey(Step(row, op).value) == KeyOf(op)
  {
  }

  lemma {:induction false} RoomApplyKeyed(rows: Table, ops: seq<RowOp>, seqNo: nat)
    requires Keyed(rows)
    ensures Keyed(RoomApply(rows, ops, seqNo))
    decreases |ops|
  {
    if ops == [] {
    } else {
      StepKey(Get(rows, KeyOf(ops[0])), ops[0]);
      RoomApplyKeyed(RoomApplyOp(rows, ops[0], seqNo), ops[1..], seqNo);
    }
  }

  // ── frames ────────────────────────────────────────────────────────────────

  datatype Frame =
    | StateFrame(seqNo: nat, full: bool, rows: seq<Row>)
    | RowsFrame(seqNo: nat, rows: seq<Row>)

  /** `rows` lists the rows of `table` whose key satisfies `keys`, in any order. */
  ghost predicate Carries(rows: seq<Row>, table: Table, keys: set<Key>) {
    && keys <= table.Keys && Keys(rows) == keys
    && forall i :: 0 <= i < |rows| ==> RowKey(rows[i]) in table && table[RowKey(rows[i])] == rows[i]
  }

  lemma {:induction false} PutCarried(base: Table, rows: seq<Row>, table: Table, keys: set<Key>)
    requires Carries(rows, table, keys)
    ensures forall k :: Get(PutAll(base, rows), k) == if k in keys then Some(table[k]) else Get(base, k)
    decreases |rows|
  {
    if rows == [] {
    } else {
      var rest := rows[1..];
      assert forall i :: 0 <= i < |rest| ==> rest[i] == rows[i + 1];
      PutCarried(Put(base, rows[0]), rest, table, Keys(rest));
    }
  }

  function ChangedAfter(table: Table, cursor: nat): set<Key> {
    set k | k in table && table[k].rev > cursor
  }

  // ── the system ────────────────────────────────────────────────────────────

  /** `hist[n]` is the room's table after its `n`-th batch; `rows` and
      `cursor` are the client's; `link` holds the frames still to arrive on
      the current connection. `sound` is false from a wipe of the room until
      the client has applied a full state of the new table. */
  datatype Sync = Sync(hist: seq<Table>, cursor: nat, rows: Table, link: seq<Frame>, sound: bool)
  {
    function Top(): int { |hist| - 1 }
    function Current(): Table
      requires hist != []
    {
      hist[|hist| - 1]
    }
  }

  /** A frame of the current table, as the room sends it. */
  ghost predicate Sent(f: Frame, s: Sync)
    requires s.hist != []
  {
    f.seqNo == s.Top() &&
    match f
    case StateFrame(n, full, rows) => Carries(rows, s.Current(),
      if full then s.Current().Keys else ChangedAfter(s.Current(), s.cursor))
    case RowsFrame(n, rows) => n > 0 && Carries(rows, s.Current(), ChangedAfter(s.Current(), n - 1))
  }

  /** What the client does with a frame: the same steps as `ApplyState` and `ApplyRows`. */
  function Received(s: Sync, f: Frame): Sync {
    match f
    case StateFrame(n, full, rows) =>
      s.(cursor := n, rows := PutAll(KeptRows(s.rows, s.cursor, n, full), rows), sound := s.sound || full)
    case RowsFrame(n, rows) =>
      s.(cursor := CursorAfterRows(s.cursor, n), rows := PutAll(s.rows, rows))
  }

  datatype Event =
    | Batch(ops: seq<RowOp>)          // the room applies a batch and broadcasts it
    | BatchLost(ops: seq<RowOp>)      // the broadcast never arrives
    | Connect(full: bool)             // a new connection: hello, answered from the client's cursor
    | Disconnect                      // frames under way are lost
    | Deliver                         // the oldest frame arrives
    | Ack                             // an ack retires a pending batch
    | Wipe                            // the room loses its table

  ghost predicate Next(s: Sync, e: Event, t: Sync) {
    s.hist != [] &&
    match e
    case Batch(ops) =>
      var n := |s.hist|;
      && t == s.(hist := s.hist + [RoomApply(s.Current(), ops, n)], link := t.link)
      && |t.link| == |s.link| + 1 && t.link[..|s.link|] == s.link
      && t.link[|s.link|].RowsFrame? && Sent(t.link[|s.link|], t)
    case BatchLost(ops) => t == s.(hist := s.hist + [RoomApply(s.Current(), ops, |s.hist|)])
    case Connect(full) =>
      && t == s.(link := t.link) && |t.link| == 1
      && t.link[0].StateFrame? && t.link[0].full == full && Sent(t.link[0], s)
      && (s.cursor > s.Top() ==> full)
    case Disconnect => t == s.(link := [])
    case Deliver => s.link != [] && t == Received(s, s.link[0]).(link := s.link[1..])
    case Ack => t == s
    case Wipe => t == s.(hist := [map[]], link := [], sound := s.cursor == 0)
  }

  ghost predicate Init(s: Sync) {
    s == Sync([map[]], 0, map[], [], true)
  }

  // ── the invariant ─────────────────────────────────────────────────────────

  /** Each table follows from the one before. */
  ghost predicate GoodHistory(hist: seq<Table>) {
    && hist != [] && hist[0] == map[]
    && (forall n :: 0 <= n < |hist| ==> Keyed(hist[n]))
    && (forall n :: 0 < n < |hist| ==> Follows(hist[n - 1], hist[n], n))
  }

  lemma {:induction false} Stable(hist: seq<Table>, c: nat, m: nat, k: Key)
    requires GoodHistory(hist) && c <= m < |hist| && k in hist[m] && hist[m][k].rev <= c
    ensures k in hist[c] && hist[c][k] == hist[m][k]
    decreases m
  {
    if m > c {
      assert Follows(hist[m - 1], hist[m], m);
      Stable(hist, c, m - 1, k);
    }
  }

  lemma {:induction false} RevBound(hist: seq<Table>, n: nat, k: Key)
    requires GoodHistory(hist) && n < |hist| && k in hist[n]
    ensures hist[n][k].rev <= n
    decreases n
  {
    if n == 0 {
    } else {
      assert Follows(hist[n - 1], hist[n], n);
      if k in hist[n - 1] {
        RevBound(hist, n - 1, k);
      }
    }
  }

  /** The client's row for `k` is the room's row as of some batch between the
      cursor and `seen`. */
  ghost predicate CaughtUp(hist: seq<Table>, cursor: nat, rows: Table, seen: nat, k: Key) {
    k in rows && exists v :: cursor <= v <= seen && v < |hist| && k in hist[v] && hist[v][k] == rows[k]
  }

  /** Every row the room held at the cursor is caught up. */
  ghost predicate Integrity(hist: seq<Table>, cursor: nat, rows: Table, seen: nat) {
    cursor <= seen < |hist| && forall k :: k in hist[cursor] ==> CaughtUp(hist, cursor, rows, seen, k)
  }

  ghost predicate GoodFrame(hist: seq<Table>, f: Frame) {
    f.seqNo < |hist| &&
    match f
    case StateFrame(n, full, rows) => full ==> Carries(rows, hist[n], hist[n].Keys)
    case RowsFrame(n, rows) => n > 0 && Carries(rows, hist[n], ChangedAfter(hist[n], n - 1))
  }

  /** A delta answers the cursor the client still has: it is the first frame of its connection. */
  ghost predicate DeltaFits(s: Sync, f: Frame) {
    f.StateFrame? && !f.full ==>
      && s.cursor <= f.seqNo < |s.hist|
      && Carries(f.rows, s.hist[f.seqNo], ChangedAfter(s.hist[f.seqNo], s.cursor))
  }

  /** Frames arrive in the room's order. */
  ghost predicate LinkGood(s: Sync, seen: nat) {
    && (forall i :: 0 <= i < |s.link| ==> GoodFrame(s.hist, s.link[i]))
    && (forall i :: 0 < i < |s.link| ==> s.link[i].RowsFrame?)
    && (forall i, j :: 0 <= i < j < |s.link| ==> s.link[i].seqNo < s.link[j].seqNo)
    && (s.link != [] ==> DeltaFits(s, s.link[0]))
    && (s.link != [] && s.sound ==> if s.link[0].RowsFrame? then seen < s.link[0].seqNo else seen <= s.link[0].seqNo)
  }

  ghost predicate Inv(s: Sync) {
    GoodHistory(s.hist) && exists seen :: Holds(s, seen)
  }

  ghost predicate Holds(s: Sync, seen: nat) {
    LinkGood(s, seen) && (s.sound ==> Integrity(s.hist, s.cursor, s.rows, seen))
  }

  // ── every step keeps it ───────────────────────────────────────────────────

  lemma InitHolds(s: Sync)
    requires Init(s)
    ensures Inv(s)
  {
    assert Holds(s, 0);
  }

  /** A broadcast behind everything already applied. */
  lemma RowsFrameKeeps(hist: seq<Table>, cursor: nat, rows: Table, seen: nat, n: nat, incoming: seq<Row>)
    requires GoodHistory(hist) && Integrity(hist, cursor, rows, seen)
    requires seen < n < |hist| && Carries(incoming, hist[n], ChangedAfter(hist[n], n - 1))
    ensures Integrity(hist, CursorAfterRows(cursor, n), PutAll(rows, incoming), n)
  {
    var cursor', rows' := CursorAfterRows(cursor, n), PutAll(rows, incoming);
    PutCarried(rows, incoming, hist[n], ChangedAfter(hist[n], n - 1));
    forall k | k in hist[cursor'] ensures CaughtUp(hist, cursor', rows', n, k) {
      assert Get(rows', k) == if k in ChangedAfter(hist[n], n - 1) then Some(hist[n][k]) else Get(rows, k);
      if k in ChangedAfter(hist[n], n - 1) {
        assert hist[n][k] == rows'[k];
      } else {
        if cursor' == n {
          Stable(hist, n - 1, n, k);
        }
        assert CaughtUp(hist, cursor, rows, seen, k);
        var v :| cursor <= v <= seen && v < |hist| && k in hist[v] && hist[v][k] == rows[k];
        assert cursor' <= (if cursor' == n then n else v) <= n;
        assert hist[if cursor' == n then n else v][k] == rows'[k];
      }
    }
  }

  /** After a state frame the client agrees with the room of that moment. */
  lemma StateFrameAgrees(hist: seq<Table>, cursor: nat, rows: Table, seen: nat, n: nat, full: bool, incoming: seq<Row>)
    requires GoodHistory(hist) && n < |hist|
    requires Carries(incoming, hist[n], if full then hist[n].Keys else ChangedAfter(hist[n], cursor))
    requires !full ==> Integrity(hist, cursor, rows, seen) && seen <= n
    ensures forall k :: k in hist[n] ==> Get(PutAll(KeptRows(rows, cursor, n, full), incoming), k) == Some(hist[n][k])
  {
    var kept := KeptRows(rows, cursor, n, full);
    PutCarried(kept, incoming, hist[n], if full then hist[n].Keys else ChangedAfter(hist[n], cursor));
    if !full {
      forall k | k in hist[n] && k !in ChangedAfter(hist[n], cursor) ensures Get(rows, k) == Some(hist[n][k]) {
        Stable(hist, cursor, n, k);
        assert CaughtUp(hist, cursor, rows, seen, k);
        var v :| cursor <= v <= seen && v < |hist| && k in hist[v] && hist[v][k] == rows[k];
        Stable(hist, v, n, k);
      }
    }
  }

  lemma AgreementIsIntegrity(hist: seq<Table>, n: nat, rows: Table)
    requires n < |hist| && forall k :: k in hist[n] ==> Get(rows, k) == Some(hist[n][k])
    ensures Integrity(hist, n, rows, n)
  {
    forall k | k in hist[n] ensures CaughtUp(hist, n, rows, n, k) {
      assert hist[n][k] == rows[k];
    }
  }

  lemma DeliverKeeps(s: Sync, t: Sync, seen: nat)
    requires GoodHistory(s.hist) && Holds(s, seen) && Next(s, Deliver, t)
    ensures exists later :: Holds(t, later)
  {
    var f := s.link[0];
    assert GoodFrame(s.hist, f);
    assert forall i :: 0 <= i < |t.link| ==> t.link[i] == s.link[i + 1];
    match f
    case RowsFrame(n, rows) =>
      if s.sound {
        RowsFrameKeeps(s.hist, s.cursor, s.rows, seen, n, rows);
      }
      assert Holds(t, n);
    case StateFrame(n, full, rows) =>
      if t.sound {
        StateFrameAgrees(s.hist, s.cursor, s.rows, seen, n, full, rows);
        AgreementIsIntegrity(s.hist, n, t.rows);
      }
      assert Holds(t, n);
  }

  lemma LongerIntegrity(hist: seq<Table>, cursor: nat, rows: Table, seen: nat, table: Table)
    requires Integrity(hist, cursor, rows, seen)
    ensures Integrity(hist + [table], cursor, rows, seen)
  {
    forall k | k in (hist + [table])[cursor] ensures CaughtUp(hist + [table], cursor, rows, seen, k) {
      assert CaughtUp(hist, cursor, rows, seen, k);
      var v :| cursor <= v <= seen && v < |hist| && k in hist[v] && hist[v][k] == rows[k];
      assert (hist + [table])[v][k] == rows[k];
    }
  }

  lemma LongerLink(s: Sync, seen: nat, table: Table)
    requires LinkGood(s, seen)
    ensures LinkGood(s.(hist := s.hist + [table]), seen)
  {
    var hist := s.hist + [table];
    assert forall n :: 0 <= n < |s.hist| ==> hist[n] == s.hist[n];
    forall i | 0 <= i < |s.link| ensures GoodFrame(hist, s.link[i]) {
      assert GoodFrame(s.hist, s.link[i]);
    }
  }

  /** A longer history still explains everything. */
  lemma LongerHistory(s: Sync, seen: nat, table: Table)
    requires GoodHistory(s.hist) && Holds(s, seen) && Keyed(table) && Follows(s.Current(), table, |s.hist|)
    ensures var t := s.(hist := s.hist + [table]); GoodHistory(t.hist) && Holds(t, seen)
  {
    LongerLink(s, seen, table);
    if s.sound {
      LongerIntegrity(s.hist, s.cursor, s.rows, seen, table);
    }
  }

  lemma LinkGrows(s: Sync, seen: nat, f: Frame)
    requires Holds(s, seen) && f.RowsFrame? && GoodFrame(s.hist, f)
    requires forall i :: 0 <= i < |s.link| ==> s.link[i].seqNo < f.seqNo
    requires s.link == [] && s.sound ==> seen < f.seqNo
    ensures Holds(s.(link := s.link + [f]), seen)
  {
    var t := s.(link := s.link + [f]);
    assert forall i :: 0 <= i < |t.link| ==> t.link[i] == if i < |s.link| then s.link[i] else f;
    assert LinkGood(t, seen);
  }

  lemma BatchKeeps(s: Sync, t: Sync, seen: nat, ops: seq<RowOp>)
    requires GoodHistory(s.hist) && Holds(s, seen) && Next(s, Batch(ops), t)
    ensures GoodHistory(t.hist) && exists later :: Holds(t, later)
  {
    var table := RoomApply(s.Current(), ops, |s.hist|);
    RoomApplyFollows(s.Current(), ops, |s.hist|);
    RoomApplyKeyed(s.Current(), ops, |s.hist|);
    LongerHistory(s, seen, table);
    var f := t.link[|s.link|];
    assert t.link == s.link + [f];
    assert forall i :: 0 <= i < |s.link| ==> GoodFrame(s.hist, s.link[i]);
    LinkGrows(s.(hist := s.hist + [table]), seen, f);
  }

  lemma NextKeeps(s: Sync, e: Event, t: Sync)
    requires Inv(s) && Next(s, e, t)
    ensures Inv(t)
  {
    var seen: nat :| Holds(s, seen);
    match e
    case Batch(ops) => BatchKeeps(s, t, seen, ops);
    case BatchLost(ops) =>
      RoomApplyFollows(s.Current(), ops, |s.hist|);
      RoomApplyKeyed(s.Current(), ops, |s.hist|);
      LongerHistory(s, seen, RoomApply(s.Current(), ops, |s.hist|));
    case Connect(full) =>
      assert GoodFrame(t.hist, t.link[0]) && DeltaFits(t, t.link[0]);
      assert Holds(t, seen);
    case Disconnect => assert Holds(t, seen);
    case Deliver => DeliverKeeps(s, t, seen);
    case Ack =>
    case Wipe => assert Holds(t, 0);
  }

  // ── every run ─────────────────────────────────────────────────────────────

  ghost predicate IsRun(states: seq<Sync>, events: seq<Event>) {
    && |states| == |events| + 1 && Init(states[0])
    && forall i {:trigger events[i]} :: 0 <= i < |events| ==> Next(states[i], events[i], states[i + 1])
  }

  lemma {:induction false} RunKeeps(states: seq<Sync>, events: seq<Event>, n: nat)
    requires IsRun(states, events) && n < |states|
    ensures Inv(states[n])
    decreases n
  {
    if n == 0 {
      InitHolds(states[0]);
    } else {
      RunKeeps(states, events, n - 1);
      NextKeeps(states[n - 1], events[n - 1], states[n]);
    }
  }

  /** Main result: at every moment of every run, each row the room last
      changed at or before the cursor is exactly the room's row at the client. */
  lemma CursorIntegrity(states: seq<Sync>, events: seq<Event>, n: nat, k: Key)
    requires IsRun(states, events) && n < |states| && states[n].sound
    requires states[n].hist != [] && k in states[n].Current() && states[n].Current()[k].rev <= states[n].cursor
    ensures Get(states[n].rows, k) == Some(states[n].Current()[k])
  {
    RunKeeps(states, events, n);
    var s := states[n];
    var seen: nat :| Holds(s, seen);
    var top := |s.hist| - 1;
    Stable(s.hist, s.cursor, top, k);
    assert CaughtUp(s.hist, s.cursor, s.rows, seen, k);
    var v :| s.cursor <= v <= seen && v < |s.hist| && k in s.hist[v] && s.hist[v][k] == s.rows[k];
    Stable(s.hist, v, top, k);
  }

  /** The frames under way continue the cursor without a gap, up to the room's
      latest batch. */
  ghost predicate Gapless(s: Sync) {
    && s.hist != []
    && (if s.link == [] then s.cursor else s.link[|s.link| - 1].seqNo) == s.Top()
    && (s.link != [] && s.link[0].RowsFrame? ==> s.link[0].seqNo == s.cursor + 1)
    && forall i :: 0 < i < |s.link| ==> s.link[i].RowsFrame? && s.link[i].seqNo == s.link[i - 1].seqNo + 1
  }

  lemma BatchGapless(s: Sync, ops: seq<RowOp>, t: Sync)
    requires Gapless(s) && Next(s, Batch(ops), t)
    ensures Gapless(t)
  {
    forall i | 0 < i < |t.link| ensures t.link[i].RowsFrame? && t.link[i].seqNo == t.link[i - 1].seqNo + 1 {
      assert i < |s.link| ==> t.link[..|s.link|][i] == s.link[i];
      assert t.link[..|s.link|][i - 1] == s.link[i - 1];
    }
    assert s.link != [] ==> t.link[..|s.link|][0] == s.link[0];
  }

  lemma DeliverGapless(s: Sync, t: Sync)
    requires Gapless(s) && Next(s, Deliver, t)
    ensures Gapless(t)
  {
    assert forall i :: 0 <= i < |t.link| ==> t.link[i] == s.link[i + 1];
    assert |s.link| > 1 ==> s.link[1].seqNo == s.link[0].seqNo + 1;
  }

  /** Since a connect at moment `from` nothing was lost up to moment `n`. */
  ghost predicate Connected(events: seq<Event>, from: nat, n: nat) {
    && from < n <= |events| && events[from].Connect?
    && forall i :: from < i < n ==> events[i].Batch? || events[i].Deliver? || events[i].Ack?
  }

  lemma {:induction false} StaysGapless(states: seq<Sync>, events: seq<Event>, from: nat, n: nat)
    requires IsRun(states, events) && Connected(events, from, n)
    ensures Gapless(states[n])
    decreases n
  {
    var s, e, t := states[n - 1], events[n - 1], states[n];
    assert Next(s, e, t);
    if n - 1 > from {
      StaysGapless(states, events, from, n - 1);
      match e
      case Batch(ops) => BatchGapless(s, ops, t);
      case Deliver => DeliverGapless(s, t);
      case Ack =>
    }
  }

  /** Every row of the room is at the client as it is. */
  ghost predicate Agrees(s: Sync) {
    s.hist != [] && forall k :: k in s.Current() ==> Get(s.rows, k) == Some(s.Current()[k])
  }

  /** A client that stays connected keeps up: as soon as everything under way
      has arrived, its cursor is at the room's latest batch and every row of
      the room is at the client as it is. */
  lemma ConnectedKeepsUp(states: seq<Sync>, events: seq<Event>, from: nat, n: nat)
    requires IsRun(states, events) && Connected(events, from, n) && states[n].link == [] && states[n].sound
    ensures states[n].hist != [] && states[n].cursor == states[n].Top() && Agrees(states[n])
  {
    StaysGapless(states, events, from, n);
    RunKeeps(states, events, n);
    var s := states[n];
    forall k | k in s.Current() ensures Get(s.rows, k) == Some(s.Current()[k]) {
      RevBound(s.hist, |s.hist| - 1, k);
      CursorIntegrity(states, events, n, k);
    }
  }

  /** A reconnect always restores full agreement: once its state frame has
      arrived, every row of the room is at the client as it was then. */
  lemma ReconnectRestores(states: seq<Sync>, events: seq<Event>, n: nat, full: bool)
    requires IsRun(states, events) && n + 2 < |states|
    requires events[n] == Connect(full) && events[n + 1] == Deliver
    requires states[n].sound || full
    ensures states[n].hist == states[n + 2].hist != []
    ensures forall k :: k in states[n].Current() ==> Get(states[n + 2].rows, k) == Some(states[n].Current()[k])
    ensures states[n + 2].sound && states[n + 2].cursor == states[n].Top()
  {
    RunKeeps(states, events, n);
    var s, u, t := states[n], states[n + 1], states[n + 2];
    assert Next(s, events[n], u) && Next(u, events[n + 1], t);
    var seen: nat :| Holds(s, seen);
    StateFrameAgrees(s.hist, s.cursor, s.rows, seen, s.Top(), full, u.link[0].rows);
  }

  /** The rows a delta does not carry are at the client already. */
  ghost predicate HasUncarried(s: Sync) {
    s.hist != [] && forall k :: k in s.Current() && s.Current()[k].rev <= s.cursor ==>
      Get(s.rows, k) == Some(s.Current()[k])
  }

  /** One row under a delta, sound or not: afterwards the client has the
      room's row exactly if it changed after the cursor or was there already. */
  lemma DeltaRepairsIff(s: Sync, u: Sync, t: Sync, k: Key)
    requires Next(s, Connect(false), u) && Next(u, Deliver, t) && k in s.Current()
    ensures t.hist == s.hist
    ensures Get(t.rows, k) == Some(s.Current()[k]) <==>
      s.Current()[k].rev > s.cursor || Get(s.rows, k) == Some(s.Current()[k])
  {
    PutCarried(s.rows, u.link[0].rows, s.Current(), ChangedAfter(s.Current(), s.cursor));
  }

  /** Batch `m`, at or below the client's cursor, stamped a row that still
      stands and that the client lacks. */
  ghost predicate StampedUnseen(s: Sync, m: int, k: Key) {
    && 0 < m <= s.cursor && m < |s.hist| && k in s.hist[m] && s.hist[m][k].rev == m
    && k in s.Current() && s.Current()[k] == s.hist[m][k] && Get(s.rows, k) != Some(s.hist[m][k])
  }

  /** The condition as one on what the room did since it was last wiped. */
  lemma UncarriedIff(s: Sync)
    requires GoodHistory(s.hist)
    ensures HasUncarried(s) <==> forall m, k :: !StampedUnseen(s, m, k)
  {
    if forall m, k :: !StampedUnseen(s, m, k) {
      forall k | k in s.Current() && s.Current()[k].rev <= s.cursor ensures Get(s.rows, k) == Some(s.Current()[k]) {
        var m := s.Current()[k].rev;
        RevBound(s.hist, |s.hist| - 1, k);
        Stable(s.hist, m, |s.hist| - 1, k);
        assert !StampedUnseen(s, m, k);
      }
    }
  }

  /** Over every run, wipes included: a reconnect answered by a delta restores
      agreement if and only if since the last wipe no batch at or below the
      client's cursor stamped a row that still stands and that the client
      lacks; that is, every row the delta leaves out is there already. */
  lemma {:induction false} DeltaRestoresIff(states: seq<Sync>, events: seq<Event>, n: nat)
    requires IsRun(states, events) && n + 2 < |states| && events[n] == Connect(false) && events[n + 1] == Deliver
    ensures Agrees(states[n + 2]) <==> HasUncarried(states[n])
    ensures Agrees(states[n + 2]) <==> forall m, k :: !StampedUnseen(states[n], m, k)
  {
    RunKeeps(states, events, n);
    UncarriedIff(states[n]);
    var s, u, t := states[n], states[n + 1], states[n + 2];
    assert Next(s, events[n], u) && Next(u, events[n + 1], t);
    assert t.hist == s.hist;
    forall k | k in s.Current()
      ensures Get(t.rows, k) == Some(s.Current()[k]) <==>
        s.Current()[k].rev > s.cursor || Get(s.rows, k) == Some(s.Current()[k])
    {
      DeltaRepairsIff(s, u, t, k);
    }
  }

  /** Before any wipe, and after a full state has followed one, a delta always restores. */
  lemma SoundHasUncarried(states: seq<Sync>, events: seq<Event>, n: nat)
    requires IsRun(states, events) && n < |states| && states[n].sound && states[n].hist != []
    ensures HasUncarried(states[n])
  {
    forall k | k in states[n].Current() && states[n].Current()[k].rev <= states[n].cursor
      ensures Get(states[n].rows, k) == Some(states[n].Current()[k])
    {
      CursorIntegrity(states, events, n, k);
    }
  }

  /** An empty batch and its broadcast. */
  lemma EmptyBatch(s: Sync, t: Sync)
    requires s.hist != [] && s.Current() == map[] && s.link == []
    requires t == s.(hist := s.hist + [map[]], link := [RowsFrame(|s.hist|, [])])
    ensures Next(s, Batch([]), t)
  {
    assert t.link[..0] == [];
    assert Carries([], t.Current(), ChangedAfter(t.Current(), |s.hist| - 1));
  }

  /** An empty frame arrives. */
  lemma EmptyDelivered(s: Sync, t: Sync, n: nat)
    requires s.hist != [] && s.link == [RowsFrame(n, [])] && t == s.(cursor := CursorAfterRows(s.cursor, n), link := [])
    ensures Next(s, Deliver, t)
  {
  }

  /** The table with nothing but the row `op` created in the first batch. */
  function OneRow(op: RowOp): Table {
    RoomApply(map[], [op], 1)
  }

  lemma OneRowIs(op: RowOp)
    requires op.op == Upsert
    ensures OneRow(op).Keys == {KeyOf(op)} && OneRow(op)[KeyOf(op)].rev == 1
  {
    assert [op][1..] == [];
    var next := RoomApplyOp(map[], op, 1);
    assert RoomApply(next, [], 1) == next;
    assert OneRow(op) == RoomApply(next, [op][1..], 1);
  }

  /** The client has read two batches when the room loses its table; the room
      counts to two again, with a row the client never saw. */
  function Overtaken(op: RowOp, link: seq<Frame>): Sync {
    Sync([map[], OneRow(op), OneRow(op)], 2, map[], link, false)
  }

  /** The history of a room that has seen `n` empty batches. */
  function Blank(n: nat): (hist: seq<Table>)
    ensures |hist| == n + 1 && hist[n] == map[]
  {
    if n == 0 then [map[]] else Blank(n - 1) + [map[]]
  }

  function ReadState(n: nat): Sync {
    Sync(Blank(n), n, map[], [], true)
  }

  /** The same, with the next broadcast under way. */
  function SentState(n: nat): Sync {
    Sync(Blank(n + 1), n, map[], [RowsFrame(n + 1, [])], true)
  }

  lemma ReadOne(n: nat)
    ensures Next(ReadState(n), Batch([]), SentState(n)) && Next(SentState(n), Deliver, ReadState(n + 1))
  {
    EmptyBatch(ReadState(n), SentState(n));
    EmptyDelivered(SentState(n), ReadState(n + 1), n + 1);
  }

  lemma OvertakenSteps(op: RowOp, wiped: Sync, once: Sync)
    requires op.op == Upsert && wiped == Sync([map[]], 2, map[], [], false) &&
      once == wiped.(hist := [map[], OneRow(op)])
    ensures Next(ReadState(2), Wipe, wiped) && Next(wiped, BatchLost([op]), once) &&
      Next(once, BatchLost([]), Overtaken(op, []))
  {
    assert wiped.hist + [OneRow(op)] == once.hist;
    assert once.hist + [OneRow(op)] == Overtaken(op, []).hist;
  }

  lemma OvertakenDelta(op: RowOp)
    requires op.op == Upsert
    ensures Next(Overtaken(op, []), Connect(false), Overtaken(op, [StateFrame(2, false, [])]))
    ensures Next(Overtaken(op, [StateFrame(2, false, [])]), Deliver, Overtaken(op, []))
  {
    OneRowIs(op);
    assert Carries([], OneRow(op), ChangedAfter(OneRow(op), 2));
  }

  lemma RunOfNine(a: Sync, b: Sync, c: Sync, d: Sync, e: Sync, f: Sync, g: Sync, h: Sync, i: Sync, op: RowOp)
    returns (states: seq<Sync>, events: seq<Event>)
    requires Init(a) && Next(a, Batch([]), b) && Next(b, Deliver, c) && Next(c, Batch([]), d) && Next(d, Deliver, e)
    requires Next(e, Wipe, f) && Next(f, BatchLost([op]), g) && Next(g, BatchLost([]), h)
    requires Next(h, Connect(false), i) && Next(i, Deliver, h)
    ensures IsRun(states, events) && |events| == 9 && events[4] == Wipe && events[7] == Connect(false) &&
      events[8] == Deliver
    ensures states[7] == states[9] == h
  {
    events := [Batch([]), Deliver, Batch([]), Deliver, Wipe, BatchLost([op]), BatchLost([]), Connect(false), Deliver];
    states := [a, b, c, d, e, f, g, h, i, h];
  }

  /** A run on which the recovery fails: no full state is forced, the delta is
      empty, and the room's row stays missing below the client's cursor. */
  lemma {:induction false} WipedRoomOvertakes(op: RowOp) returns (states: seq<Sync>, events: seq<Event>)
    requires op.op == Upsert
    ensures IsRun(states, events) && |events| == 9 && events[4] == Wipe && events[7] == Connect(false) &&
      events[8] == Deliver
    ensures states[9] == Overtaken(op, []) && !Agrees(states[9])
    ensures var s := Overtaken(op, []);
      KeyOf(op) in s.Current() && s.Current()[KeyOf(op)].rev <= s.cursor == s.Top() && KeyOf(op) !in s.rows
  {
    var wiped := Sync([map[]], 2, map[], [], false);
    var once := wiped.(hist := [map[], OneRow(op)]);
    ReadOne(0);
    ReadOne(1);
    OvertakenSteps(op, wiped, once);
    OvertakenDelta(op);
    states, events := RunOfNine(ReadState(0), SentState(0), ReadState(1), SentState(1), ReadState(2), wiped, once,
                                Overtaken(op, []), Overtaken(op, [StateFrame(2, false, [])]), op);
    OneRowIs(op);
    assert KeyOf(op) in Overtaken(op, []).Current();
  }

  // ── reading one's own writes ──────────────────────────────────────────────

  /** Rows equal up to the room's stamp. */
  function Unstamped(row: Option<Row>): Option<Row> {
    if row.Some? then Some(row.value.(rev := 0)) else None
  }

  lemma StepIgnoresStamp(a: Option<Row>, b: Option<Row>, op: RowOp)
    requires Unstamped(a) == Unstamped(b)
    ensures Unstamped(Step(a, op)) == Unstamped(Step(b, op))
  {
    if a.Some? && !a.value.deleted && op.op != Delete {
      assert Overwrite(a.value, op).fields == Overwrite(b.value, op).fields;
      assert Overwrite(a.value, op).clocks == Overwrite(b.value, op).clocks;
    } else if a.Some? && a.value.deleted && op.op != Delete {
      assert Overwrite(Revived(a.value), op).fields == Overwrite(Revived(b.value), op).fields;
      assert Overwrite(Revived(a.value), op).clocks == Overwrite(Revived(b.value), op).clocks;
    } else if a.Some? && !a.value.deleted {
      assert AllClocks(a.value) == AllClocks(b.value);
    }
  }

  lemma RoomOpShows(rows: Table, op: RowOp, seqNo: nat, key: Key)
    ensures Unstamped(Get(RoomApplyOp(rows, op, seqNo), key))
         == Unstamped(if KeyOf(op) == key then Step(Get(rows, key), op) else Get(rows, key))
  {
    ChangedIffDifferent(Get(rows, KeyOf(op)), op);
  }

  lemma {:induction false} RoomShows(rows: Table, mine: Option<Row>, ops: seq<RowOp>, seqNo: nat, key: Key)
    requires Unstamped(Get(rows, key)) == Unstamped(mine)
    ensures Unstamped(Get(RoomApply(rows, ops, seqNo), key)) == Unstamped(Replay(mine, Filter(ops, key)))
    decreases |ops|
  {
    if ops == [] {
    } else {
      RoomOpShows(rows, ops[0], seqNo, key);
      StepIgnoresStamp(Get(rows, key), mine, ops[0]);
      var next := if KeyOf(ops[0]) == key then Step(mine, ops[0]) else mine;
      RoomShows(RoomApplyOp(rows, ops[0], seqNo), next, ops[1..], seqNo, key);
      if KeyOf(ops[0]) == key {
        assert ([ops[0]] + Filter(ops[1..], key))[1..] == Filter(ops[1..], key);
        assert Replay(mine, Filter(ops, key)) == Replay(next, Filter(ops[1..], key));
      } else {
        assert Filter(ops, key) == Filter(ops[1..], key);
      }
    }
  }

  /** The room's table after it applied a queue of batches, numbered from `seqNo`. */
  function RoomApplyAll(rows: Table, batches: seq<seq<RowOp>>, seqNo: nat): Table
    decreases |batches|
  {
    if batches == [] then rows else RoomApplyAll(RoomApply(rows, batches[0], seqNo), batches[1..], seqNo + 1)
  }

  /** What you see is what the room will hold: where the client agrees with
      the room, its optimistic read of a row is the row the room has once it
      has applied the client's queue, whatever the queue's batches are. */
  lemma {:induction false} OptimisticReadsComeTrue(rows: Table, mine: Option<Row>, batches: seq<seq<RowOp>>, seqNo: nat,
                                                   key: Key)
    requires Unstamped(Get(rows, key)) == Unstamped(mine)
    ensures Unstamped(Get(RoomApplyAll(rows, batches, seqNo), key)) == Unstamped(Replay(mine, RowOps(batches, key)))
    decreases |batches|
  {
    if batches == [] {
    } else {
      RoomShows(rows, mine, batches[0], seqNo, key);
      OptimisticReadsComeTrue(RoomApply(rows, batches[0], seqNo), Replay(mine, Filter(batches[0], key)), batches[1..],
        seqNo + 1, key);
      ReplayConcat(mine, Filter(batches[0], key), RowOps(batches[1..], key));
    }
  }
}
