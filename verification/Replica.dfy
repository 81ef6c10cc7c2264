/** The registry replica: server truth, the queue of unacked batches replayed
    over it for every read, and the operations that change either. */
module Replica {
  import opened Options
  import opened Rows
  import opened History
  import opened Notifications
  import opened Compaction
  import opened Compactor
  import opened Hlc
  import opened Pending
  import Heads
  import Offline
  import Seqs

  const MAX_OPS_PER_BATCH: nat := 400
  const CURRENT_RESYNC_EPOCH: nat := 1

  datatype StateOutcome = Delta | Replaced | Reseeded

  type Table = map<Key, Row>

  /** The persisted form of a replica. Nothing is in flight after a load. */
  datatype Snapshot = Snapshot(
    resyncEpoch: nat, serverSeq: nat, gcFloor: nat, lastMs: nat, counter: nat,
    localWrites: bool, rows: Table, pending: seq<PendingBatch>)

  function RowKey(row: Row): Key {
    (row.kind, row.id)
  }

  function Get(rows: Table, key: Key): Option<Row> {
    if key in rows then Some(rows[key]) else None
  }

  /** Rows stand under their own key and are well formed. */
  ghost predicate GoodRows(rows: Table) {
    forall key :: key in rows ==> RowKey(rows[key]) == key && WellFormed(rows[key])
  }

  function Put(rows: Table, row: Row): Table {
    rows[RowKey(row) := row]
  }

  function PutAll(rows: Table, incoming: seq<Row>): Table
    decreases |incoming|
  {
    if incoming == [] then rows else PutAll(Put(rows, incoming[0]), incoming[1..])
  }

  lemma {:induction false} PutAllGood(rows: Table, incoming: seq<Row>)
    requires GoodRows(rows) && forall i :: 0 <= i < |incoming| ==> WellFormed(incoming[i])
    ensures GoodRows(PutAll(rows, incoming))
    ensures forall key :: key !in Keys(incoming) ==> Get(PutAll(rows, incoming), key) == Get(rows, key)
    ensures forall key :: key in Keys(incoming) ==>
      key in PutAll(rows, incoming) && PutAll(rows, incoming)[key] in incoming
    decreases |incoming|
  {
    if incoming == [] {
    } else {
      PutAllGood(Put(rows, incoming[0]), incoming[1..]);
    }
  }

  function Keys(incoming: seq<Row>): set<Key>
    decreases |incoming|
  {
    if incoming == [] then {} else {RowKey(incoming[0])} + Keys(incoming[1..])
  }

  // ── queues ────────────────────────────────────────────────────────────────

  predicate IdsDistinct(queue: seq<PendingBatch>) {
    forall i, j :: 0 <= i < j < |queue| ==> queue[i].batch != queue[j].batch
  }

  /** In-flight batches form a prefix of the queue. */
  predicate FlightPrefix(queue: seq<PendingBatch>) {
    forall i, j :: 0 <= i < j < |queue| && queue[j].inFlight ==> queue[i].inFlight
  }

  /** No batch is empty. Batches saved before they were cut may be long. */
  predicate SomeOps(queue: seq<PendingBatch>) {
    forall i :: 0 <= i < |queue| ==> queue[i].ops != []
  }

  /** Every queued batch id names exactly the operations queued under it. */
  ghost predicate Named(queue: seq<PendingBatch>, named: map<Clock, seq<RowOp>>) {
    forall i :: 0 <= i < |queue| ==> queue[i].batch in named && named[queue[i].batch] == queue[i].ops
  }

  /** A later history of names: nothing named before is renamed. */
  ghost predicate NamesKept(before: map<Clock, seq<RowOp>>, after: map<Clock, seq<RowOp>>) {
    forall id :: id in before ==> id in after && after[id] == before[id]
  }

  /** Later names, the new ones above `clock`. */
  ghost predicate NamesGrow(before: map<Clock, seq<RowOp>>, after: map<Clock, seq<RowOp>>, clock: Clock) {
    NamesKept(before, after) && forall id :: id in after && id !in before ==> id > clock
  }

  function QueueOps(queue: seq<PendingBatch>, key: Key): seq<RowOp> {
    RowOps(BatchOps(queue), key)
  }

  lemma QueueOpsConcat(a: seq<PendingBatch>, b: seq<PendingBatch>, key: Key)
    ensures QueueOps(a + b, key) == QueueOps(a, key) + QueueOps(b, key)
  {
    assert BatchOps(a + b) == BatchOps(a) + BatchOps(b);
    RowOpsConcat(BatchOps(a), BatchOps(b), key);
  }

  lemma QueueOpsOne(b: PendingBatch, key: Key)
    ensures QueueOps([b], key) == Filter(b.ops, key)
  {
    assert BatchOps([b]) == [b.ops];
    RowOpsOne(b.ops, key);
  }

  /** How many batches from the front are in flight. */
  function Flying(queue: seq<PendingBatch>): (n: nat)
    ensures n <= |queue|
    ensures n > 0 ==> queue[n - 1].inFlight
    ensures forall i :: n <= i < |queue| ==> !queue[i].inFlight
  {
    if queue == [] then 0
    else if queue[|queue| - 1].inFlight then |queue|
    else Flying(queue[..|queue| - 1])
  }

  lemma FlyingIs(queue: seq<PendingBatch>, n: nat)
    requires n <= |queue| && (n > 0 ==> queue[n - 1].inFlight) && forall i :: n <= i < |queue| ==> !queue[i].inFlight
    ensures Flying(queue) == n
  {
  }

  lemma FlyingFills(queue: seq<PendingBatch>)
    requires FlightPrefix(queue)
    ensures forall i :: 0 <= i < |queue| ==> (queue[i].inFlight <==> i < Flying(queue))
  {
  }

  /** A row as the replica shows it: the queue replayed over server truth. */
  function Overlaid(rows: Table, queue: seq<PendingBatch>, key: Key): Option<Row> {
    Replay(Get(rows, key), QueueOps(queue, key))
  }

  lemma OverlaidConcat(rows: Table, a: seq<PendingBatch>, b: seq<PendingBatch>, key: Key)
    ensures Overlaid(rows, a + b, key) == Replay(Overlaid(rows, a, key), QueueOps(b, key))
  {
    QueueOpsConcat(a, b, key);
    ReplayConcat(Get(rows, key), QueueOps(a, key), QueueOps(b, key));
  }

  // ── grouped reads ─────────────────────────────────────────────────────────

  lemma {:induction false} ReplayKeepsKey(row: Option<Row>, ops: seq<RowOp>, key: Key)
    requires row.Some? ==> RowKey(row.value) == key
    requires forall op :: op in ops ==> KeyOf(op) == key
    ensures Replay(row, ops).Some? ==> RowKey(Replay(row, ops).value) == key
    decreases |ops|
  {
    if ops == [] {
    } else {
      assert ops[0] in ops;
      ReplayKeepsKey(Step(row, ops[0]), ops[1..], key);
    }
  }

  /** The replica shows a row under its own key. */
  lemma OverlaidKey(rows: Table, queue: seq<PendingBatch>, key: Key)
    requires GoodRows(rows)
    ensures Overlaid(rows, queue, key).Some? ==> RowKey(Overlaid(rows, queue, key).value) == key
  {
    RowOpsKeys(BatchOps(queue), key);
    ReplayKeepsKey(Get(rows, key), QueueOps(queue, key), key);
  }

  predicate Distinct(ids: seq<string>) {
    forall i, j :: 0 <= i < j < |ids| ==> ids[i] != ids[j]
  }

  type Groups = map<string, seq<RowOp>>

  function OpsIn(groups: Groups, id: string): seq<RowOp> {
    if id in groups then groups[id] else []
  }

  /** `groups` holds the operations of `ops` on rows of `kind`, and `ids`
      each row of that kind once: server rows and rows only written locally. */
  ghost predicate Grouped(rows: Table, kind: string, ops: seq<RowOp>, ids: seq<string>, groups: Groups) {
    && Distinct(ids)
    && (forall id :: OpsIn(groups, id) == Filter(ops, (kind, id)))
    && (forall id :: id in ids <==> (kind, id) in rows || id in groups)
  }

  lemma GroupedNext(rows: Table, kind: string, ops: seq<RowOp>, ids: seq<string>, groups: Groups, op: RowOp)
    requires Grouped(rows, kind, ops, ids, groups) && op.kind == kind
    ensures var ids' := if (kind, op.id) !in rows && op.id !in groups then ids + [op.id] else ids;
      Grouped(rows, kind, ops + [op], ids', groups[op.id := OpsIn(groups, op.id) + [op]])
  {
    var groups' := groups[op.id := OpsIn(groups, op.id) + [op]];
    forall id ensures OpsIn(groups', id) == Filter(ops + [op], (kind, id)) {
      FilterConcat(ops, [op], (kind, id));
      FilterOne(op, (kind, id));
    }
  }

  lemma GroupedSkip(rows: Table, kind: string, ops: seq<RowOp>, ids: seq<string>, groups: Groups, op: RowOp)
    requires Grouped(rows, kind, ops, ids, groups) && op.kind != kind
    ensures Grouped(rows, kind, ops + [op], ids, groups)
  {
    forall id ensures OpsIn(groups, id) == Filter(ops + [op], (kind, id)) {
      FilterConcat(ops, [op], (kind, id));
      FilterOne(op, (kind, id));
    }
  }

  function AllOps(batches: seq<seq<RowOp>>): seq<RowOp>
    decreases |batches|
  {
    if batches == [] then [] else batches[0] + AllOps(batches[1..])
  }

  lemma {:induction false} AllOpsFilter(batches: seq<seq<RowOp>>, key: Key)
    ensures Filter(AllOps(batches), key) == RowOps(batches, key)
    decreases |batches|
  {
    if batches == [] {
    } else {
      FilterConcat(batches[0], AllOps(batches[1..]), key);
      AllOpsFilter(batches[1..], key);
    }
  }

  lemma {:induction false} AllOpsAppend(batches: seq<seq<RowOp>>, ops: seq<RowOp>)
    ensures AllOps(batches + [ops]) == AllOps(batches) + ops
    decreases |batches|
  {
    if batches == [] {
      assert batches + [ops] == [ops] && [ops][1..] == [];
    } else {
      assert (batches + [ops])[1..] == batches[1..] + [ops];
      AllOpsAppend(batches[1..], ops);
    }
  }

  /** The ids of one kind, each once, in any order. */
  method IdsOf(rows: Table, kind: string) returns (ids: seq<string>)
    ensures Distinct(ids) && forall id :: id in ids <==> (kind, id) in rows
  {
    ids := [];
    var rest := rows.Keys;
    while rest != {}
      invariant rest <= rows.Keys && Distinct(ids)
      invariant forall id :: id in ids <==> (kind, id) in rows.Keys - rest
      decreases rest
    {
      var key :| key in rest;
      rest := rest - {key};
      if key.0 == kind {
        ids := ids + [key.1];
      }
    }
  }

  method GroupBatch(rows: Table, ops: seq<RowOp>, kind: string, ids: seq<string>, groups: Groups,
                    ghost before: seq<RowOp>)
    returns (ids': seq<string>, groups': Groups)
    requires Grouped(rows, kind, before, ids, groups)
    ensures Grouped(rows, kind, before + ops, ids', groups')
  {
    ids', groups' := ids, groups;
    assert before + ops[..0] == before;
    for j := 0 to |ops|
      invariant Grouped(rows, kind, before + ops[..j], ids', groups')
    {
      var op := ops[j];
      assert before + ops[..j + 1] == (before + ops[..j]) + [op];
      if op.kind == kind {
        GroupedNext(rows, kind, before + ops[..j], ids', groups', op);
        if (kind, op.id) !in rows && op.id !in groups' {
          ids' := ids' + [op.id];
        }
        groups' := groups'[op.id := OpsIn(groups', op.id) + [op]];
      } else {
        GroupedSkip(rows, kind, before + ops[..j], ids', groups', op);
      }
    }
    assert ops[..|ops|] == ops;
  }

  /** Group the queue's operations of one kind by row, in one pass. */
  method GroupQueue(rows: Table, queue: seq<PendingBatch>, kind: string) returns (ids: seq<string>, groups: Groups)
    ensures Grouped(rows, kind, AllOps(BatchOps(queue)), ids, groups)
  {
    ids := IdsOf(rows, kind);
    groups := map[];
    ghost var batches := BatchOps(queue);
    for i := 0 to |queue|
      invariant Grouped(rows, kind, AllOps(batches[..i]), ids, groups)
    {
      assert batches[..i + 1] == batches[..i] + [queue[i].ops];
      AllOpsAppend(batches[..i], queue[i].ops);
      ids, groups := GroupBatch(rows, queue[i].ops, kind, ids, groups, AllOps(batches[..i]));
    }
    assert batches[..|queue|] == batches;
  }

  /** `out` lists the rows shown for `ids`: each under its own id, each once, none missing. */
  ghost predicate Lists(shown: string -> Option<Row>, ids: seq<string>, out: seq<Row>) {
    && (forall i :: 0 <= i < |out| ==> out[i].id in ids && Some(out[i]) == shown(out[i].id))
    && (forall i, j :: 0 <= i < j < |out| ==> out[i].id != out[j].id)
    && (forall id :: id in ids && shown(id).Some? ==> shown(id).value in out)
  }

  lemma ListsNext(shown: string -> Option<Row>, ids: seq<string>, id: string, out: seq<Row>)
    requires Lists(shown, ids, out) && id !in ids && (shown(id).Some? ==> shown(id).value.id == id)
    ensures Lists(shown, ids + [id], if shown(id).Some? then out + [shown(id).value] else out)
  {
  }

  /** The listed rows are exactly the live rows of a kind, each once, and
      each is what replaying its own operations shows. */
  ghost predicate ListsLiveRows(rows: Table, queue: seq<PendingBatch>, kind: string, out: seq<Row>) {
    && (forall i :: 0 <= i < |out| ==> Some(out[i]) == Live(Overlaid(rows, queue, (kind, out[i].id))))
    && (forall i, j :: 0 <= i < j < |out| ==> out[i].id != out[j].id)
    && (forall id :: Live(Overlaid(rows, queue, (kind, id))).Some? ==>
      Live(Overlaid(rows, queue, (kind, id))).value in out)
  }

  lemma GroupedShows(rows: Table, queue: seq<PendingBatch>, kind: string, ids: seq<string>, groups: Groups, id: string)
    requires GoodRows(rows) && Grouped(rows, kind, AllOps(BatchOps(queue)), ids, groups)
    ensures Overlay(Get(rows, (kind, id)), OpsIn(groups, id)) == Live(Overlaid(rows, queue, (kind, id)))
    ensures Live(Overlaid(rows, queue, (kind, id))).Some? ==>
      id in ids && Live(Overlaid(rows, queue, (kind, id))).value.id == id
  {
    AllOpsFilter(BatchOps(queue), (kind, id));
    OverlaidKey(rows, queue, (kind, id));
  }

  lemma ListsEverything(rows: Table, queue: seq<PendingBatch>, kind: string, ids: seq<string>, groups: Groups,
                        out: seq<Row>)
    requires GoodRows(rows) && Grouped(rows, kind, AllOps(BatchOps(queue)), ids, groups)
    requires Lists(id => Live(Overlaid(rows, queue, (kind, id))), ids, out)
    ensures ListsLiveRows(rows, queue, kind, out)
  {
    forall id | Live(Overlaid(rows, queue, (kind, id))).Some?
      ensures Live(Overlaid(rows, queue, (kind, id))).value in out
    {
      GroupedShows(rows, queue, kind, ids, groups, id);
    }
  }

  method ShowRows(rows: Table, kind: string, ids: seq<string>, groups: Groups, ghost shown: string -> Option<Row>)
    returns (out: seq<Row>)
    requires Distinct(ids)
    requires forall id :: id in ids ==> Overlay(Get(rows, (kind, id)), OpsIn(groups, id)) == shown(id)
    requires forall id :: id in ids && shown(id).Some? ==> shown(id).value.id == id
    ensures Lists(shown, ids, out)
  {
    out := [];
    for i := 0 to |ids|
      invariant Lists(shown, ids[..i], out)
    {
      var row := Overlay(Get(rows, (kind, ids[i])), OpsIn(groups, ids[i]));
      assert row == shown(ids[i]);
      ListsNext(shown, ids[..i], ids[i], out);
      assert ids[..i + 1] == ids[..i] + [ids[i]];
      if row.Some? {
        out := out + [row.value];
      }
    }
    assert ids[..|ids|] == ids;
  }

  /** All live rows of one kind: grouped once, instead of a rescan per row. */
  method OverlayRows(rows: Table, queue: seq<PendingBatch>, kind: string) returns (out: seq<Row>)
    requires GoodRows(rows)
    ensures ListsLiveRows(rows, queue, kind, out)
  {
    var ids, groups := GroupQueue(rows, queue, kind);
    ghost var shown := id => Live(Overlaid(rows, queue, (kind, id)));
    forall id
      ensures Overlay(Get(rows, (kind, id)), OpsIn(groups, id)) == shown(id)
      ensures shown(id).Some? ==> shown(id).value.id == id
    {
      GroupedShows(rows, queue, kind, ids, groups, id);
    }
    out := ShowRows(rows, kind, ids, groups, shown);
    ListsEverything(rows, queue, kind, ids, groups, out);
  }

  /** Both queues show every row alike. */
  ghost predicate SameViews(rows: Table, a: seq<PendingBatch>, b: seq<PendingBatch>) {
    forall key :: Overlaid(rows, a, key) == Overlaid(rows, b, key)
  }

  /** Reduced unsent batches show the same rows behind any in-flight ones. */
  lemma OverlaidReduced(rows: Table, front: seq<PendingBatch>, a: seq<PendingBatch>, b: seq<PendingBatch>)
    requires Reduced(BatchOps(a), BatchOps(b))
    ensures SameViews(rows, front + a, front + b)
  {
    ReducedRows(BatchOps(a), BatchOps(b));
    forall key ensures Overlaid(rows, front + a, key) == Overlaid(rows, front + b, key) {
      OverlaidConcat(rows, front, a, key);
      OverlaidConcat(rows, front, b, key);
      assert SameRow(BatchOps(a), BatchOps(b), key, Overlaid(rows, front, key));
    }
  }

  /** What every queue keeps, with the names given out up to clock `now`. */
  ghost predicate QueueGood(queue: seq<PendingBatch>, named: map<Clock, seq<RowOp>>, now: Clock) {
    && IdsDistinct(queue) && SomeOps(queue) && Named(queue, named)
    && (forall id :: id in named ==> id <= now)
  }

  lemma QueueGoodAppend(queue: seq<PendingBatch>, b: PendingBatch, named: map<Clock, seq<RowOp>>, now: Clock,
                        later: Clock)
    requires QueueGood(queue, named, now) && b.ops != [] && b.batch <= later && now <= later
    requires b.batch !in named ||
      (named[b.batch] == b.ops && forall i :: 0 <= i < |queue| ==> queue[i].batch != b.batch)
    ensures QueueGood(queue + [b], named[b.batch := b.ops], later) && NamesKept(named, named[b.batch := b.ops])
  {
  }

  lemma QueueGoodPrefix(a: seq<PendingBatch>, b: seq<PendingBatch>, named: map<Clock, seq<RowOp>>, now: Clock)
    requires QueueGood(a + b, named, now)
    ensures QueueGood(a, named, now) && SomeOps(b)
  {
    assert forall i :: 0 <= i < |a| ==> (a + b)[i] == a[i];
    assert forall i :: 0 <= i < |b| ==> (a + b)[|a| + i] == b[i];
  }

  /** Queue `after` is `queue` with unsent batches behind it that hold `ops`. */
  ghost predicate Extends(queue: seq<PendingBatch>, after: seq<PendingBatch>, ops: seq<RowOp>) {
    && |queue| <= |after| && after[..|queue|] == queue
    && (forall k :: |queue| <= k < |after| ==> !after[k].inFlight)
    && (forall key :: QueueOps(after, key) == QueueOps(queue, key) + Filter(ops, key))
  }

  /** Operations cut into batches of at most the size the room accepts. */
  function Chunks(ops: seq<RowOp>): seq<seq<RowOp>>
    decreases |ops|
  {
    if ops == [] then []
    else if |ops| <= MAX_OPS_PER_BATCH then [ops]
    else [ops[..MAX_OPS_PER_BATCH]] + Chunks(ops[MAX_OPS_PER_BATCH..])
  }

  function Flattened(chunks: seq<seq<RowOp>>): seq<RowOp> {
    if chunks == [] then [] else chunks[0] + Flattened(chunks[1..])
  }

  /** The chunks hold the operations in order, none is empty or above the
      room's limit, and all but the last are full. */
  lemma {:induction false} ChunksExact(ops: seq<RowOp>)
    ensures Flattened(Chunks(ops)) == ops
    ensures forall i :: 0 <= i < |Chunks(ops)| ==> 0 < |Chunks(ops)[i]| <= MAX_OPS_PER_BATCH
    ensures forall i :: 0 <= i < |Chunks(ops)| - 1 ==> |Chunks(ops)[i]| == MAX_OPS_PER_BATCH
    decreases |ops|
  {
    if ops == [] {
    } else if |ops| <= MAX_OPS_PER_BATCH {
      assert [ops][1..] == [] && ops + [] == ops;
    } else {
      var head, rest := ops[..MAX_OPS_PER_BATCH], ops[MAX_OPS_PER_BATCH..];
      ChunksExact(rest);
      assert ([head] + Chunks(rest))[1..] == Chunks(rest) && head + rest == ops;
    }
  }

  lemma ExtendsOne(queue: seq<PendingBatch>, after: seq<PendingBatch>, ops: seq<RowOp>, b: PendingBatch)
    requires Extends(queue, after, ops) && !b.inFlight
    ensures Extends(queue, after + [b], ops + b.ops)
    ensures FlightPrefix(after) ==> FlightPrefix(after + [b])
  {
    forall key ensures QueueOps(after + [b], key) == QueueOps(queue, key) + Filter(ops + b.ops, key) {
      QueueOpsConcat(after, [b], key);
      QueueOpsOne(b, key);
      FilterConcat(ops, b.ops, key);
    }
  }

  /** What compaction does to a queue: in-flight batches stay as pushed,
      every row reads the same, and the room sends the same notifications. */
  ghost predicate Compacted(rows: Table, queue: seq<PendingBatch>, after: seq<PendingBatch>) {
    var n := Flying(queue);
    && Flying(after) == n && n <= |after| && after[..n] == queue[..n]
    && Reduced(BatchOps(queue[n..]), BatchOps(after[n..]))
    && SameViews(rows, queue, after)
  }

  lemma BatchOpsSnoc(queue: seq<PendingBatch>, b: PendingBatch)
    ensures BatchOps(queue + [b]) == BatchOps(queue) + [b.ops]
  {
  }

  lemma ChunksQueued(queue: seq<PendingBatch>, after: seq<PendingBatch>, ops: seq<RowOp>)
    requires BatchOps(after) == BatchOps(queue) + Chunks(ops)
    ensures forall k :: |queue| <= k < |after| ==> 0 < |after[k].ops| <= MAX_OPS_PER_BATCH
  {
    ChunksExact(ops);
    assert |BatchOps(after)| == |after| && |BatchOps(queue)| == |queue|;
    forall k | |queue| <= k < |after| ensures 0 < |after[k].ops| <= MAX_OPS_PER_BATCH {
      assert after[k].ops == BatchOps(after)[k] == Chunks(ops)[k - |queue|];
    }
  }

  lemma FirstChunk(rest: seq<RowOp>, size: nat)
    requires rest != [] && size == if |rest| > MAX_OPS_PER_BATCH then MAX_OPS_PER_BATCH else |rest|
    ensures Chunks(rest) == [rest[..size]] + Chunks(rest[size..])
  {
    if |rest| <= MAX_OPS_PER_BATCH {
      assert rest[..size] == rest && rest[size..] == [];
    }
  }

  lemma {:induction false} ChunkNext(queue: seq<PendingBatch>, b: PendingBatch, rest: seq<RowOp>, size: nat)
    requires rest != [] && size == if |rest| > MAX_OPS_PER_BATCH then MAX_OPS_PER_BATCH else |rest|
    requires b.ops == rest[..size]
    ensures BatchOps(queue + [b]) + Chunks(rest[size..]) == BatchOps(queue) + Chunks(rest)
  {
    BatchOpsSnoc(queue, b);
    FirstChunk(rest, size);
    Seqs.Regroup(BatchOps(queue), b.ops, Chunks(rest[size..]));
  }

  lemma EnqueuedRow(rows: Table, queue: seq<PendingBatch>, longer: seq<PendingBatch>, after: seq<PendingBatch>,
                    ops: seq<RowOp>, key: Key)
    requires Extends(queue, longer, ops) && SameViews(rows, longer, after)
    ensures Overlaid(rows, after, key) == Replay(Overlaid(rows, queue, key), Filter(ops, key))
  {
    assert Overlaid(rows, longer, key) == Overlaid(rows, after, key);
    ReplayConcat(Get(rows, key), QueueOps(queue, key), Filter(ops, key));
  }

  lemma FlyingLonger(queue: seq<PendingBatch>, longer: seq<PendingBatch>)
    requires |queue| <= |longer| && longer[..|queue|] == queue && forall k :: |queue| <= k < |longer| ==>
      !longer[k].inFlight
    ensures Flying(longer) == Flying(queue) && longer[..Flying(queue)] == queue[..Flying(queue)]
  {
    assert forall k :: 0 <= k < |queue| ==> longer[k] == queue[k];
    FlyingIs(longer, Flying(queue));
  }

  /** Queuing and compacting: every row shows the operations on top, and
      what is in flight stays. */
  lemma {:induction false} EnqueuedShows(rows: Table, queue: seq<PendingBatch>, longer: seq<PendingBatch>,
                                         after: seq<PendingBatch>, ops: seq<RowOp>)
    requires Extends(queue, longer, ops) && Compacted(rows, longer, after)
    ensures forall key :: Overlaid(rows, after, key) == Replay(Overlaid(rows, queue, key), Filter(ops, key))
    ensures Flying(after) == Flying(queue) <= |after| && after[..Flying(queue)] == queue[..Flying(queue)]
  {
    FlyingLonger(queue, longer);
    forall key ensures Overlaid(rows, after, key) == Replay(Overlaid(rows, queue, key), Filter(ops, key)) {
      EnqueuedRow(rows, queue, longer, after, ops, key);
    }
  }

  /** One operation queued with nothing in flight is an offline write. */
  lemma {:induction false} EnqueuedOffline(queue: seq<PendingBatch>, longer: seq<PendingBatch>,
                                           after: seq<PendingBatch>, ops: seq<RowOp>,
                        fits: RowOp -> bool)
    requires Extends(queue, longer, ops) && BatchOps(longer) == BatchOps(queue) + Chunks(ops) && |ops| == 1
    requires Flying(longer) == Flying(after) == 0 && BatchOps(after[0..]) == Squeezed(longer[0..], fits)
    ensures Offline.OfflineWrite(queue, ops[0], after, fits)
  {
    assert |BatchOps(longer)| == |queue| + 1;
    var b := longer[|queue|];
    assert BatchOps(longer)[|queue|] == ops;
    assert ops == [ops[0]];
    assert longer == queue + [PendingBatch(b.batch, [ops[0]], false)];
    assert longer[0..] == longer && after[0..] == after;
  }

  lemma NoneFlying(queue: seq<PendingBatch>)
    requires forall k :: 0 <= k < |queue| ==> !queue[k].inFlight
    ensures Flying(queue) == 0 && queue[0..] == queue
  {
    FlyingIs(queue, 0);
  }

  lemma FrontKept(queue: seq<PendingBatch>, built: seq<PendingBatch>)
    requires FlightPrefix(queue) && forall k :: 0 <= k < |built| ==> !built[k].inFlight
    ensures var n := Flying(queue);
      var q := queue[..n] + built;
      && FlightPrefix(q) && Flying(q) == n <= |q| && q[..n] == queue[..n] && q[n..] == built
  {
    var n := Flying(queue);
    var q := queue[..n] + built;
    assert forall k :: 0 <= k < n ==> q[k] == queue[k];
    assert forall k :: n <= k < |q| ==> q[k] == built[k - n];
    FlyingFills(queue);
    FlyingIs(q, n);
  }

  /** Replacing the unsent batches keeps the in-flight ones in front. */
  lemma UnsentReplaced(rows: Table, queue: seq<PendingBatch>, built: seq<PendingBatch>)
    requires FlightPrefix(queue)
    requires forall k :: 0 <= k < |built| ==> !built[k].inFlight
    requires Reduced(BatchOps(queue[Flying(queue)..]), BatchOps(built))
    ensures FlightPrefix(queue[..Flying(queue)] + built)
    ensures Compacted(rows, queue, queue[..Flying(queue)] + built)
  {
    var front, unsent := queue[..Flying(queue)], queue[Flying(queue)..];
    assert queue == front + unsent;
    FrontKept(queue, built);
    OverlaidReduced(rows, front, unsent, built);
  }

  // ── state frames ──────────────────────────────────────────────────────────

  function CursorAfterRows(cursor: nat, seqNo: nat): nat {
    if seqNo == cursor + 1 then seqNo else cursor
  }

  /** A full state from a server that is not behind drops every local row. */
  function KeptRows(rows: Table, cursor: nat, seqNo: nat, full: bool): Table {
    if full && seqNo >= cursor then map[] else rows
  }

  /** The re-seed a state frame makes the client queue for one row. */
  function ReseedOf(rows: Table, cursor: nat, seqNo: nat, full: bool, incoming: seq<Row>, key: Key): seq<RowOp> {
    if full && key in rows && (seqNo < cursor || key !in Keys(incoming)) then [SeedOp(rows[key])] else []
  }

  function StateAfter(rows: Table, cursor: nat, seqNo: nat, full: bool, incoming: seq<Row>): StateOutcome {
    if !full then Delta
    else if seqNo < cursor || !(rows.Keys <= Keys(incoming)) then Reseeded
    else Replaced
  }

  /** The outcome, by what the client does: nothing is re-seeded on a delta,
      and a full state counts as a replacement if and only if the server is
      not behind and has a row for every row the client had. */
  lemma OutcomeIff(rows: Table, cursor: nat, seqNo: nat, full: bool, incoming: seq<Row>)
    ensures StateAfter(rows, cursor, seqNo, full, incoming) == Delta <==> !full
    ensures StateAfter(rows, cursor, seqNo, full, incoming) == Replaced <==>
      full && seqNo >= cursor && forall key :: key in rows ==>
        exists i :: 0 <= i < |incoming| && RowKey(incoming[i]) == key
    ensures StateAfter(rows, cursor, seqNo, full, incoming) != Reseeded ==>
      forall key :: ReseedOf(rows, cursor, seqNo, full, incoming, key) == []
  {
    forall key ensures key in Keys(incoming) <==> exists i :: 0 <= i < |incoming| && RowKey(incoming[i]) == key {
      KeysIff(incoming, key);
    }
  }

  lemma {:induction false} KeysIff(incoming: seq<Row>, key: Key)
    ensures key in Keys(incoming) <==> exists i :: 0 <= i < |incoming| && RowKey(incoming[i]) == key
    decreases |incoming|
  {
    if incoming == [] {
    } else {
      var rest := incoming[1..];
      KeysIff(rest, key);
      assert forall i :: 0 <= i < |rest| ==> rest[i] == incoming[i + 1];
      if i :| 0 <= i < |incoming| && RowKey(incoming[i]) == key {
        assert i > 0 ==> RowKey(rest[i - 1]) == key;
      }
      if i :| 0 <= i < |rest| && RowKey(rest[i]) == key {
        assert RowKey(incoming[i + 1]) == key;
      }
    }
  }

  /** Two rows a reader cannot tell apart: same liveness, same fields and the
      same clock on every field. */
  ghost predicate ReadsAlike(a: Option<Row>, b: Option<Row>) {
    && a.Some? == b.Some?
    && (a.Some? ==>
      && RowKey(a.value) == RowKey(b.value) && a.value.fields == b.value.fields
      && forall k :: k in a.value.fields ==> Lookup(a.value.clocks, k) == Lookup(b.value.clocks, k))
  }

  lemma {:induction false} PutAllKeys(rows: Table, incoming: seq<Row>)
    ensures PutAll(rows, incoming).Keys == rows.Keys + Keys(incoming)
    decreases |incoming|
  {
    if incoming == [] {
    } else {
      PutAllKeys(Put(rows, incoming[0]), incoming[1..]);
    }
  }

  /** A row the server did not send, with nothing pending, reads as before. */
  lemma {:induction false} UnsentRowReadsAlike(rows: Table, cursor: nat, seqNo: nat, full: bool, incoming: seq<Row>,
                                               key: Key)
    requires GoodRows(rows) && key !in Keys(incoming)
    requires forall i :: 0 <= i < |incoming| ==> WellFormed(incoming[i])
    ensures ReadsAlike(Live(Get(rows, key)),
      Live(Replay(Get(PutAll(KeptRows(rows, cursor, seqNo, full), incoming), key),
        ReseedOf(rows, cursor, seqNo, full, incoming, key))))
  {
    PutAllGood(KeptRows(rows, cursor, seqNo, full), incoming);
    if full && key in rows {
      var row := rows[key];
      ReplayPair(None, SeedOp(row), SeedOp(row));
      ReplayPair(Some(row), SeedOp(row), SeedOp(row));
      SeedRestores(row);
      SeedKeepsOwnRow(row);
    }
  }

  /** What a state frame does to every row: the frame's rows replace server
      truth, the queue replays over them, and re-seeds come last. */
  ghost predicate FrameShown(rows: Table, queue: seq<PendingBatch>, cursor: nat, seqNo: nat, full: bool,
                             incoming: seq<Row>,
                             rows': Table, queue': seq<PendingBatch>) {
    forall key :: Overlaid(rows', queue', key) == Replay(
      Overlaid(PutAll(KeptRows(rows, cursor, seqNo, full), incoming), queue, key),
      ReseedOf(rows, cursor, seqNo, full, incoming, key))
  }

  /** After any state frame, a row the server did not send and that had
      nothing pending reads as before. */
  lemma {:induction false} FrameLosesNothing(rows: Table, queue: seq<PendingBatch>, cursor: nat, seqNo: nat, full: bool,
                                             incoming: seq<Row>,
                          rows': Table, queue': seq<PendingBatch>, key: Key)
    requires GoodRows(rows) && forall i :: 0 <= i < |incoming| ==> WellFormed(incoming[i])
    requires FrameShown(rows, queue, cursor, seqNo, full, incoming, rows', queue')
    requires key !in Keys(incoming) && QueueOps(queue, key) == []
    ensures ReadsAlike(Live(Overlaid(rows, queue, key)), Live(Overlaid(rows', queue', key)))
  {
    UnsentRowReadsAlike(rows, cursor, seqNo, full, incoming, key);
  }

  /** A write that shows nothing new. */
  predicate ShowsNothingNew(row: Row, op: RowOp, k: string)
    requires k in Writes(op)
  {
    if Writes(op)[k] == Null then k !in row.fields else k in row.fields && row.fields[k] == Writes(op)[k]
  }

  lemma FieldsSameIff(row: Row, op: RowOp)
    ensures Overwrite(row, op).fields == row.fields <==>
      forall k :: k in Writes(op) && Wins(row, op, k) ==> ShowsNothingNew(row, op, k)
  {
    var over := Overwrite(row, op);
    forall k
      ensures k in over.fields <==> if Wins(row, op, k) then Writes(op)[k] != Null else k in row.fields
      ensures k in over.fields ==> over.fields[k] == if Wins(row, op, k) then Writes(op)[k] else row.fields[k]
    {
      OverwriteAt(row, op, k);
    }
    if over.fields == row.fields {
      forall k | k in Writes(op) && Wins(row, op, k) ensures ShowsNothingNew(row, op, k) {
        assert k in over.fields <==> k in row.fields;
      }
    }
    if forall k :: k in Writes(op) && Wins(row, op, k) ==> ShowsNothingNew(row, op, k) {
      forall k ensures k in over.fields <==> k in row.fields
               ensures k in over.fields && k in row.fields ==> over.fields[k] == row.fields[k] {
      }
      assert over.fields == row.fields;
    }
  }

  /** One pending update, whatever its clock: the row reads as before exactly
      when the update wrote nothing new to see. */
  lemma {:induction false} PendingUpdateSurvivesIff(row: Row, update: RowOp)
    requires WellFormed(row) && !row.deleted && update.op == Update && RowKey(row) == KeyOf(update)
    ensures var before := Replay(Some(row), [update]);
      var after := Replay(None, [update] + [SeedOp(row)]);
      before.Some? && after.Some? &&
      (before.value.fields == after.value.fields <==>
        forall k :: k in Writes(update) && Wins(row, update, k) ==> ShowsNothingNew(row, update, k))
  {
    ReplayPair(Some(row), update, update);
    assert [update] + [SeedOp(row)] == [update, SeedOp(row)];
    ReplayPair(None, update, SeedOp(row));
    SeedRestores(row);
    FieldsSameIff(row, update);
  }

  // ── pending operations on a row the frame re-seeds ────────────────────────

  /** The row a full state leaves under `key` before the queue replays. */
  function BaseAfter(rows: Table, cursor: nat, seqNo: nat, incoming: seq<Row>, key: Key): Option<Row> {
    Get(PutAll(KeptRows(rows, cursor, seqNo, true), incoming), key)
  }

  /** A full state frame made the client re-seed its row under `key`. */
  ghost predicate ReseededUnder(rows: Table, queue: seq<PendingBatch>, cursor: nat, seqNo: nat, incoming: seq<Row>,
                                rows': Table, queue': seq<PendingBatch>, key: Key) {
    && GoodRows(rows) && (forall i :: 0 <= i < |incoming| ==> WellFormed(incoming[i]))
    && FrameShown(rows, queue, cursor, seqNo, true, incoming, rows', queue')
    && key in rows && (seqNo < cursor || key !in Keys(incoming))
  }

  lemma {:induction false} ReseededRow(rows: Table, queue: seq<PendingBatch>, cursor: nat, seqNo: nat,
                                       incoming: seq<Row>, rows': Table, queue': seq<PendingBatch>, key: Key)
    requires ReseededUnder(rows, queue, cursor, seqNo, incoming, rows', queue', key)
    ensures var base := BaseAfter(rows, cursor, seqNo, incoming, key);
      && WellFormedRow(base) && (seqNo >= cursor ==> base == None)
      && Overlaid(rows', queue', key) == Step(Replay(base, QueueOps(queue, key)), SeedOp(rows[key]))
      && WellFormed(rows[key])
  {
    PutAllGood(KeptRows(rows, cursor, seqNo, true), incoming);
    var p := Overlaid(PutAll(KeptRows(rows, cursor, seqNo, true), incoming), queue, key);
    ReplayPair(p, SeedOp(rows[key]), SeedOp(rows[key]));
  }

  /** Whatever is pending on a re-seeded row, and whether the server was
      ahead or behind: it reads as before exactly when the guards of the merge
      tell so of the row the queue makes of what the frame left. */
  lemma {:induction false} PendingReadsIff(rows: Table, queue: seq<PendingBatch>, cursor: nat, seqNo: nat,
                                           incoming: seq<Row>, rows': Table, queue': seq<PendingBatch>, key: Key)
    requires ReseededUnder(rows, queue, cursor, seqNo, incoming, rows', queue', key)
    ensures WellFormed(rows[key])
    ensures var before, p := Overlaid(rows, queue, key),
      Replay(BaseAfter(rows, cursor, seqNo, incoming, key), QueueOps(queue, key));
      SameReads(before, Overlaid(rows', queue', key)) <==> ReseedTells(before, p, rows[key])
  {
    ReseededRow(rows, queue, cursor, seqNo, incoming, rows', queue', key);
    ReseedTellsIff(Overlaid(rows, queue, key),
      Replay(BaseAfter(rows, cursor, seqNo, incoming, key), QueueOps(queue, key)), rows[key]);
  }

  /** Pending writes of any clocks, none of them a delete, on a live row that
      a full replacement lacks. The row reads as before if and only if each
      field does: a leading update that showed wrote what shows anyway, and
      otherwise no older pending write resurfaces. It reads like the queue
      without its leading updates if and only if none resurfaces. */
  lemma {:induction false} PendingWritesSurviveIff(rows: Table, queue: seq<PendingBatch>, cursor: nat, seqNo: nat,
                                                   incoming: seq<Row>, rows': Table, queue': seq<PendingBatch>,
                                                   key: Key)
    requires ReseededUnder(rows, queue, cursor, seqNo, incoming, rows', queue', key) && seqNo >= cursor
    requires !rows[key].deleted && NoDeletes(QueueOps(queue, key))
    ensures var row, ops := rows[key], QueueOps(queue, key);
      var before, after, kept := Overlaid(rows, queue, key), Overlaid(rows', queue', key),
        Replay(Some(row), SkipUpdates(ops));
      && Live(before).Some? && Live(after).Some? && Live(kept).Some?
      && (before.value.fields == after.value.fields <==> WritesSurvive(row, ops))
      && (kept.value.fields == after.value.fields <==> NoneResurfaces(row, ops))
  {
    ReseededRow(rows, queue, cursor, seqNo, incoming, rows', queue', key);
    var row, ops := rows[key], QueueOps(queue, key);
    WritesSurviveIff(row, ops, Overlaid(rows, queue, key), Replay(Some(row), SkipUpdates(ops)),
      Overlaid(rows', queue', key));
  }

  /** A pending delete newer than the row, than what the frame left of it and
      than all queued before it: the re-seed fills in each old field that no
      later write reaches, so the row reads as before if and only if it is
      not revived or none of them differs. */
  lemma {:induction false} PendingDeleteSurvivesIff(rows: Table, queue: seq<PendingBatch>, cursor: nat, seqNo: nat,
                                                    incoming: seq<Row>, rows': Table, queue': seq<PendingBatch>,
                                                    key: Key, x: seq<RowOp>, gone: RowOp, y: seq<RowOp>)
    requires ReseededUnder(rows, queue, cursor, seqNo, incoming, rows', queue', key) && !rows[key].deleted
    requires QueueOps(queue, key) == x + ([gone] + y) && gone.op == Delete && SeedOp(rows[key]).hlc < gone.hlc
    requires OlderThan(BaseAfter(rows, cursor, seqNo, incoming, key), gone.hlc)
    requires forall i :: 0 <= i < |x| ==> OpOlder(x[i], gone.hlc)
    ensures var row, before, after := rows[key], Overlaid(rows, queue, key), Overlaid(rows', queue', key);
      SameReads(before, after) <==> (Live(before).Some? ==> forall k ::
        k in row.fields && k in row.clocks && Newer(row.clocks[k], Lookup(before.value.clocks, k)) ==>
          Field(before.value, k) == Some(row.fields[k]))
  {
    ReseededRow(rows, queue, cursor, seqNo, incoming, rows', queue', key);
    BuriedSurvivesIff(rows[key], BaseAfter(rows, cursor, seqNo, incoming, key), x, gone, y);
  }

  /** A pending delete and a revival with newer writes: the re-seed brings
      back every old field the revival did not write, so the row reads as
      before if and only if it wrote them all. */
  lemma {:induction false} PendingRevivalIff(rows: Table, queue: seq<PendingBatch>, cursor: nat, seqNo: nat,
                                             incoming: seq<Row>, rows': Table, queue': seq<PendingBatch>, key: Key,
                                             gone: RowOp, back: RowOp)
    requires ReseededUnder(rows, queue, cursor, seqNo, incoming, rows', queue', key) && !rows[key].deleted
    requires QueueOps(queue, key) == [gone, back] && gone.op == Delete && back.op == Upsert
    requires SeedOp(rows[key]).hlc < gone.hlc < back.hlc
    requires OlderThan(BaseAfter(rows, cursor, seqNo, incoming, key), gone.hlc)
    requires forall k, c :: k in Writes(back) && c in AllClocks(rows[key]) ==> c < ClockFor(back, k)
    ensures Live(Overlaid(rows, queue, key)).Some?
    ensures SameReads(Overlaid(rows, queue, key), Overlaid(rows', queue', key)) <==>
      forall k :: k in rows[key].fields ==> k in Writes(back)
  {
    ReseededRow(rows, queue, cursor, seqNo, incoming, rows', queue', key);
    RevivalSurvivesIff(rows[key], BaseAfter(rows, cursor, seqNo, incoming, key), gone, back);
  }

  /** Marking every batch as pushed, or none, changes neither names nor reads. */
  lemma MarkedKeeps(rows: Table, queue: seq<PendingBatch>, marked: seq<PendingBatch>, named: map<Clock, seq<RowOp>>,
                    now: Clock, mark: bool)
    requires QueueGood(queue, named, now) && |marked| == |queue|
    requires forall i :: 0 <= i < |queue| ==> marked[i] == queue[i].(inFlight := mark)
    ensures QueueGood(marked, named, now) && FlightPrefix(marked)
    ensures forall key :: Overlaid(rows, marked, key) == Overlaid(rows, queue, key)
  {
    assert BatchOps(marked) == BatchOps(queue);
  }

  /** The first `i` batches are marked as pushed, and `out` has those that
      were not in flight. */
  ghost predicate Taking(queue: seq<PendingBatch>, marked: seq<PendingBatch>, i: nat, out: seq<PendingBatch>) {
    && FlightPrefix(queue) && |marked| == |queue| && i <= |queue|
    && (forall k :: 0 <= k < |queue| ==> marked[k] == if k < i then queue[k].(inFlight := true) else queue[k])
    && out == if i <= Flying(queue) then [] else marked[Flying(queue)..i]
  }

  lemma {:induction false} TakeNext(queue: seq<PendingBatch>, marked: seq<PendingBatch>, i: nat, out: seq<PendingBatch>)
    requires Taking(queue, marked, i, out) && i < |queue|
    ensures var b := marked[i];
      if b.inFlight then Taking(queue, marked, i + 1, out)
      else Taking(queue, marked[i := b.(inFlight := true)], i + 1, out + [b.(inFlight := true)])
  {
    FlyingFills(queue);
  }

  lemma {:induction false} TakenAll(queue: seq<PendingBatch>, marked: seq<PendingBatch>, out: seq<PendingBatch>)
    requires Taking(queue, marked, |queue|, out)
    ensures forall i :: 0 <= i < |queue| ==> marked[i] == queue[i].(inFlight := true)
    ensures out == marked[Flying(queue)..]
  {
  }

  lemma NamedTail(queue: seq<PendingBatch>, named: map<Clock, seq<RowOp>>, n: nat)
    requires Named(queue, named) && n <= |queue|
    ensures Named(queue[n..], named)
  {
    forall i | 0 <= i < |queue| - n ensures queue[n..][i].batch in named &&
      named[queue[n..][i].batch] == queue[n..][i].ops {
      assert queue[n..][i] == queue[n + i];
    }
  }

  lemma OverlaidNext(rows: Table, queue: seq<PendingBatch>, i: nat, key: Key)
    requires i < |queue|
    ensures Overlaid(rows, queue[..i + 1], key) == Replay(Overlaid(rows, queue[..i], key), Filter(queue[i].ops, key))
  {
    assert queue[..i + 1] == queue[..i] + [queue[i]];
    OverlaidConcat(rows, queue[..i], [queue[i]], key);
    QueueOpsOne(queue[i], key);
  }

  /** A re-seed over its own row shows the row. */
  lemma SeedOverOwn(rows: Table, key: Key)
    requires GoodRows(rows)
    ensures Overlaid(rows, [], key) == Get(rows, key)
    ensures key in rows ==> Live(Replay(Get(rows, key), [SeedOp(rows[key])])) == Live(Get(rows, key))
  {
    if key in rows {
      ReplayPair(Get(rows, key), SeedOp(rows[key]), SeedOp(rows[key]));
      SeedKeepsOwnRow(rows[key]);
    }
  }

  /** Part of a queue built again behind `front`: good, unsent, and its ids
      new or those of the first `i` unsent batches. */
  ghost predicate Requeuing(front: seq<PendingBatch>, unsent: seq<PendingBatch>, i: nat, built: seq<PendingBatch>,
                            named: map<Clock, seq<RowOp>>, names: map<Clock, seq<RowOp>>, start: Clock, now: Clock) {
    && i <= |unsent| && QueueGood(front + built, names, now) && NamesGrow(named, names, start)
    && (forall k :: 0 <= k < |built| ==> !built[k].inFlight)
    && (forall k :: 0 <= k < |built| ==>
      built[k].batch !in named || exists j :: 0 <= j < i && built[k].batch == unsent[j].batch)
  }

  /** A batch that kept its operations keeps its id, which nothing built so far has. */
  lemma OwnIdFree(front: seq<PendingBatch>, unsent: seq<PendingBatch>, i: nat, built: seq<PendingBatch>,
                  named: map<Clock, seq<RowOp>>, names: map<Clock, seq<RowOp>>, start: Clock, now: Clock)
    requires i < |unsent| && QueueGood(front + unsent, named, start) &&
      Requeuing(front, unsent, i, built, named, names, start, now)
    ensures var id := unsent[i].batch;
      && id in named && id <= start && id in names && names[id] == unsent[i].ops
      && forall k :: 0 <= k < |front + built| ==> (front + built)[k].batch != id
  {
    var queue := front + unsent;
    assert queue[|front| + i] == unsent[i];
    forall k | 0 <= k < |front + built| ensures (front + built)[k].batch != unsent[i].batch {
      if k < |front| {
        assert queue[k] == front[k];
      } else if j :| 0 <= j < i && built[k - |front|].batch == unsent[j].batch {
        assert queue[|front| + j] == unsent[j];
      }
    }
  }

  lemma RequeueSkip(front: seq<PendingBatch>, unsent: seq<PendingBatch>, i: nat, built: seq<PendingBatch>,
                    named: map<Clock, seq<RowOp>>, names: map<Clock, seq<RowOp>>, start: Clock, now: Clock)
    requires i < |unsent| && Requeuing(front, unsent, i, built, named, names, start, now)
    ensures Requeuing(front, unsent, i + 1, built, named, names, start, now)
  {
    forall k | 0 <= k < |built| && built[k].batch in named
      ensures exists j :: 0 <= j < i + 1 && built[k].batch == unsent[j].batch
    {
      var j :| 0 <= j < i && built[k].batch == unsent[j].batch;
    }
  }

  /** One batch more: under its own id if it kept its operations, else under a new one. */
  lemma RequeueNext(front: seq<PendingBatch>, unsent: seq<PendingBatch>, i: nat, built: seq<PendingBatch>,
                    named: map<Clock, seq<RowOp>>, names: map<Clock, seq<RowOp>>, start: Clock, was: Clock, now: Clock,
                      b: PendingBatch)
    requires i < |unsent| && QueueGood(front + unsent, named, start) &&
      Requeuing(front, unsent, i, built, named, names, start, was)
    requires start <= was <= now && !b.inFlight && b.ops != []
    requires (was < b.batch <= now) || (b.batch == unsent[i].batch && b.ops == unsent[i].ops)
    ensures Requeuing(front, unsent, i + 1, built + [b], named, names[b.batch := b.ops], start, now)
  {
    OwnIdFree(front, unsent, i, built, named, names, start, was);
    RequeueSkip(front, unsent, i, built, named, names, start, was);
    QueueGoodAppend(front + built, b, names, was, now);
    assert front + built + [b] == front + (built + [b]);
    assert NamesKept(named, names[b.batch := b.ops]);
  }

  // ── what a compaction queues again ────────────────────────────────────────

  /** The slots that still hold operations. */
  function Survivors(tail: seq<Slot>): seq<Slot> {
    if tail == [] then []
    else Survivors(tail[..|tail| - 1]) + if Alive(tail[|tail| - 1].ops) == [] then [] else [tail[|tail| - 1]]
  }

  /** Each surviving slot is queued again, in order: under its own id if it
      changed nothing, else under one that was never used. */
  ghost predicate Requeued(tail: seq<Slot>, built: seq<PendingBatch>, named: map<Clock, seq<RowOp>>) {
    var left := Survivors(tail);
    |built| == |left| && forall k :: 0 <= k < |built| ==>
      && built[k].ops == Alive(left[k].ops) && !built[k].inFlight
      && (if left[k].gained then built[k].batch !in named else built[k].batch == left[k].batch)
  }

  /** The first `i` slots, queued again. */
  ghost predicate Rebuilding(front: seq<PendingBatch>, unsent: seq<PendingBatch>, tail: seq<Slot>, i: nat,
                             built: seq<PendingBatch>,
                             named: map<Clock, seq<RowOp>>, names: map<Clock, seq<RowOp>>, start: Clock, now: Clock) {
    && SlotsFrom(tail, unsent) && i <= |tail| && QueueGood(front + unsent, named, start)
    && BatchOps(built) == DropEmpty(Contents(tail)[..i]) && Requeued(tail[..i], built, named)
    && Requeuing(front, unsent, i, built, named, names, start, now)
  }

  lemma {:induction false} RebuildStart(front: seq<PendingBatch>, unsent: seq<PendingBatch>, tail: seq<Slot>,
                                        named: map<Clock, seq<RowOp>>,
                                        start: Clock)
    requires SlotsFrom(tail, unsent) && QueueGood(front + unsent, named, start)
    ensures Rebuilding(front, unsent, tail, 0, [], named, named, start, start)
  {
    QueueGoodPrefix(front, unsent, named, start);
    assert front + [] == front;
    assert BatchOps([]) == DropEmpty(Contents(tail)[..0]);
  }

  lemma RequeuedSkip(tail: seq<Slot>, i: nat, built: seq<PendingBatch>, named: map<Clock, seq<RowOp>>)
    requires i < |tail| && Alive(tail[i].ops) == [] && Requeued(tail[..i], built, named)
    ensures Requeued(tail[..i + 1], built, named)
  {
    assert tail[..i + 1] == tail[..i] + [tail[i]];
    SurvivorsSnoc(tail[..i], tail[i]);
  }

  lemma {:induction false} RebuildSkip(front: seq<PendingBatch>, unsent: seq<PendingBatch>, tail: seq<Slot>, i: nat,
                                       built: seq<PendingBatch>,
                                       named: map<Clock, seq<RowOp>>, names: map<Clock, seq<RowOp>>, start: Clock,
                                         now: Clock)
    requires Rebuilding(front, unsent, tail, i, built, named, names, start, now) && i < |tail| &&
      Alive(tail[i].ops) == []
    ensures Rebuilding(front, unsent, tail, i + 1, built, named, names, start, now)
  {
    SlotAlive(tail, unsent, i);
    RequeuedSkip(tail, i, built, named);
    RequeueSkip(front, unsent, i, built, named, names, start, now);
  }

  lemma {:induction false} RebuildNext(front: seq<PendingBatch>, unsent: seq<PendingBatch>, tail: seq<Slot>, i: nat,
                                       built: seq<PendingBatch>,
                                       named: map<Clock, seq<RowOp>>, names: map<Clock, seq<RowOp>>, start: Clock,
                                         was: Clock, now: Clock,
                                       b: PendingBatch)
    requires Rebuilding(front, unsent, tail, i, built, named, names, start, was) && i < |tail| && start <= was <= now
    requires !b.inFlight && b.ops == Alive(tail[i].ops) != []
    requires if tail[i].gained then was < b.batch <= now else b.batch == tail[i].batch
    ensures Rebuilding(front, unsent, tail, i + 1, built + [b], named, names[b.batch := b.ops], start, now)
  {
    SlotAlive(tail, unsent, i);
    assert tail[..i + 1] == tail[..i] + [tail[i]];
    RequeueNext(front, unsent, i, built, named, names, start, was, now, b);
    RequeuedSnoc(tail[..i], tail[i], built, b, named);
    BatchOpsSnoc(built, b);
    assert forall id :: id in named ==> id <= start;
  }

  lemma {:induction false} RequeuedSnoc(tail: seq<Slot>, slot: Slot, built: seq<PendingBatch>, b: PendingBatch,
                                        named: map<Clock, seq<RowOp>>)
    requires Requeued(tail, built, named) && b.ops == Alive(slot.ops) != [] && !b.inFlight
    requires if slot.gained then b.batch !in named else b.batch == slot.batch
    ensures Requeued(tail + [slot], built + [b], named)
  {
    SurvivorsSnoc(tail, slot);
  }

  lemma {:induction false} RebuildEnd(front: seq<PendingBatch>, unsent: seq<PendingBatch>, tail: seq<Slot>,
                                      built: seq<PendingBatch>,
                                      named: map<Clock, seq<RowOp>>, names: map<Clock, seq<RowOp>>, start: Clock,
                                        now: Clock)
    requires Rebuilding(front, unsent, tail, |tail|, built, named, names, start, now)
    ensures QueueGood(front + built, names, now) && NamesGrow(named, names, start)
    ensures BatchOps(built) == DropEmpty(Contents(tail)) && Requeued(tail, built, named)
    ensures forall k :: 0 <= k < |built| ==> !built[k].inFlight
  {
    assert Contents(tail)[..|tail|] == Contents(tail) && tail[..|tail|] == tail;
  }

  lemma SurvivorsSnoc(tail: seq<Slot>, slot: Slot)
    ensures Survivors(tail + [slot]) == Survivors(tail) + if Alive(slot.ops) == [] then [] else [slot]
  {
    assert (tail + [slot])[..|tail|] == tail;
  }

  lemma {:induction false} SurvivesSlot(tail: seq<Slot>, i: nat)
    requires i < |tail| && Alive(tail[i].ops) != []
    ensures tail[i] in Survivors(tail)
    decreases |tail|
  {
    if i == |tail| - 1 {
    } else {
      SurvivesSlot(tail[..|tail| - 1], i);
    }
  }

  /** A batch the pass left alone is queued again as it was, id included. */
  lemma UntouchedStays(unsent: seq<PendingBatch>, tail: seq<Slot>, built: seq<PendingBatch>, named: map<Clock,
                       seq<RowOp>>, i: nat)
    requires Requeued(tail, built, named) && i < |tail| == |unsent| && tail[i] == Opened(unsent)[i]
    requires unsent[i].ops != [] && !unsent[i].inFlight
    ensures unsent[i] in built
  {
    AliveFilled(unsent[i].ops);
    SurvivesSlot(tail, i);
    var k :| 0 <= k < |Survivors(tail)| && Survivors(tail)[k] == tail[i];
    assert built[k] == unsent[i];
  }

  /** The batch of every run head is queued again as it was. */
  lemma HeadBatchStays(unsent: seq<PendingBatch>, fits: RowOp -> bool, built: seq<PendingBatch>, named: map<Clock,
                       seq<RowOp>>, p: Pos)
    requires Requeued(PassOf(unsent, fits).tail, built, named) && Heads.HeadAt(unsent, p) && !unsent[p.0].inFlight
    ensures unsent[p.0] in built
  {
    PassIsInvisible(unsent, fits);
    Heads.HeadSlotStays(unsent, fits, p);
    UntouchedStays(unsent, PassOf(unsent, fits).tail, built, named, p.0);
  }

  /** A batch written as a unit is queued again as it was. */
  lemma UnitStays(unsent: seq<PendingBatch>, fits: RowOp -> bool, built: seq<PendingBatch>, named: map<Clock,
                  seq<RowOp>>, i: nat)
    requires Requeued(PassOf(unsent, fits).tail, built, named) && i < |unsent| && |unsent[i].ops| > 1 &&
      !unsent[i].inFlight
    ensures unsent[i] in built
  {
    PassIsInvisible(unsent, fits);
    assert SlotFrom(PassOf(unsent, fits).tail[i], unsent[i]);
    UntouchedStays(unsent, PassOf(unsent, fits).tail, built, named, i);
  }

  /** Some unsent batch holds exactly these operations. */
  ghost predicate QueuedTogether(queue: seq<PendingBatch>, ops: seq<RowOp>) {
    exists i :: 0 <= i < |queue| && !queue[i].inFlight && queue[i].ops == ops
  }

  /** Operations that fit one batch are queued, and stay queued, as one. */
  lemma {:induction false} UnitQueued(queue: seq<PendingBatch>, longer: seq<PendingBatch>, after: seq<PendingBatch>,
                                      ops: seq<RowOp>,
                   fits: RowOp -> bool, named: map<Clock, seq<RowOp>>)
    requires Extends(queue, longer, ops) && BatchOps(longer) == BatchOps(queue) + Chunks(ops) &&
      1 < |ops| <= MAX_OPS_PER_BATCH
    requires after == longer
      || (Flying(after) <= |after| &&
        Requeued(PassOf(longer[Flying(longer)..], fits).tail, after[Flying(after)..], named))
    ensures QueuedTogether(after, ops)
  {
    var k, n := |queue|, Flying(longer);
    assert BatchOps(longer)[k] == ops;
    assert !longer[k].inFlight && longer[k].ops == ops;
    if after == longer {
      assert after[k].ops == ops;
    } else {
      FlyingLonger(queue, longer);
      var unsent, built := longer[n..], after[Flying(after)..];
      assert unsent[k - n] == longer[k];
      UnitStays(unsent, fits, built, named, k - n);
      var j :| 0 <= j < |built| && built[j] == unsent[k - n];
      assert after[Flying(after) + j] == built[j];
    }
  }

  class RegistryDoc {
    const device: nat
    /** The room's size check on one operation. */
    const fits: RowOp -> bool
    const clock: HlcClock
    var authoritative: Table
    var serverSeq: nat
    var gcFloor: nat
    var pending: seq<PendingBatch>
    var localOnly: bool
    var localWrites: bool
    /** Every batch id this process knows of, with its operations. */
    ghost var named: map<Clock, seq<RowOp>>
    /** Ids handed out by an earlier process after it saved the state this one
        loaded. */
    ghost const lost: map<Clock, seq<RowOp>>

    ghost function Now(): Clock
      reads this, clock
    {
      Rank(clock.lastMs, clock.counter, device)
    }

    ghost predicate Valid()
      reads this, clock
    {
      && clock.Valid() && device < 1_000_000
      && GoodRows(authoritative)
      && FlightPrefix(pending)
      && QueueGood(pending, named, Now())
      && (localOnly ==> pending == [])
    }

    /** The row replayed over server truth, tombstones included. */
    ghost function View(key: Key): Option<Row>
      reads this
    {
      Overlaid(authoritative, pending, key)
    }

    ghost function Read(key: Key): Option<Row>
      reads this
    {
      Live(View(key))
    }

    constructor (device: nat, fits: RowOp -> bool)
      requires device < 1_000_000
      ensures Valid() && fresh(clock) && named == map[] && lost == map[]
      ensures this.device == device && this.fits == fits
      ensures authoritative == map[] && pending == [] && serverSeq == 0 && !localOnly && !localWrites
    {
      this.device, this.fits := device, fits;
      clock := new HlcClock(0, 0);
      authoritative, serverSeq, gcFloor, pending := map[], 0, 0, [];
      localOnly, localWrites := false, false;
      named, lost := map[], map[];
    }

    // ── clocks ──────────────────────────────────────────────────────────────

    /** A fresh clock, whatever the wall clock reads. */
    method NextHlc() returns (hlc: Clock)
      requires Valid()
      modifies clock
      ensures Valid() && hlc == Now() && hlc > old(Now())
      ensures hlc !in named
    {
      var reading: int := *;
      hlc := NextHlcAt(reading);
    }

    /** The same, for the reading given. */
    method NextHlcAt(reading: int) returns (hlc: Clock)
      requires Valid()
      modifies clock
      ensures Valid() && hlc == Now() && hlc > old(Now()) && hlc !in named
      ensures (clock.lastMs, clock.counter) == TickTo(old(clock.lastMs), old(clock.counter), reading)
    {
      clock.Next(reading);
      hlc := Rank(clock.lastMs, clock.counter, device);
    }

    // ── the authoritative rows ──────────────────────────────────────────────

    /** Apply one operation straight to server truth. */
    method FoldOp(op: RowOp)
      requires Valid()
      modifies this`authoritative
      ensures Valid()
      ensures forall key :: Get(authoritative, key) == Replay(Get(old(authoritative), key), Filter([op], key))
    {
      var row := Get(authoritative, KeyOf(op));
      var (next, changed) := ApplyOp(row, op);
      FoldedRows(authoritative, op);
      if next.Some? && changed {
        authoritative := Put(authoritative, next.value);
      }
    }

    method FoldOps(ops: seq<RowOp>)
      requires Valid()
      modifies this`authoritative
      ensures Valid()
      ensures forall key :: Get(authoritative, key) == Replay(Get(old(authoritative), key), Filter(ops, key))
    {
      ghost var start := authoritative;
      for i := 0 to |ops|
        invariant Valid()
        invariant forall key :: Get(authoritative, key) == Replay(Get(start, key), Filter(ops[..i], key))
      {
        FoldOp(ops[i]);
        forall key ensures Get(authoritative, key) == Replay(Get(start, key), Filter(ops[..i + 1], key)) {
          assert ops[..i + 1] == ops[..i] + [ops[i]];
          FilterConcat(ops[..i], [ops[i]], key);
          ReplayConcat(Get(start, key), Filter(ops[..i], key), Filter([ops[i]], key));
        }
      }
      assert ops[..|ops|] == ops;
    }

    // ── the queue ───────────────────────────────────────────────────────────

    /** Queue again what a pass left: emptied batches go, and a batch that
        changed content takes a fresh id. */
    method Requeue(front: seq<PendingBatch>, unsent: seq<PendingBatch>, tail: seq<Slot>)
      returns (built: seq<PendingBatch>, ghost names: map<Clock, seq<RowOp>>)
      requires clock.Valid() && device < 1_000_000
      requires QueueGood(front + unsent, named, Now()) && SlotsFrom(tail, unsent)
      modifies clock
      ensures clock.Valid() && Now() >= old(Now())
      ensures QueueGood(front + built, names, Now()) && NamesGrow(named, names, old(Now()))
      ensures BatchOps(built) == DropEmpty(Contents(tail)) && Requeued(tail, built, named)
      ensures forall k :: 0 <= k < |built| ==> !built[k].inFlight
    {
      built, names := [], named;
      RebuildStart(front, unsent, tail, named, Now());
      for i := 0 to |tail|
        invariant clock.Valid() && Now() >= old(Now())
        invariant exists m: nat :: m == i && Rebuilding(front, unsent, tail, m, built, named, names, old(Now()), Now())
      {
        var ops := Alive(tail[i].ops);
        if ops == [] {
          RebuildSkip(front, unsent, tail, i, built, named, names, old(Now()), Now());
        } else {
          var batch := tail[i].batch;
          ghost var was := Now();
          if tail[i].gained {
            batch := NextId();
          }
          var b := PendingBatch(batch, ops, false);
          RebuildNext(front, unsent, tail, i, built, named, names, old(Now()), was, Now(), b);
          names := names[batch := ops];
          built := built + [b];
        }
      }
      RebuildEnd(front, unsent, tail, built, named, names, old(Now()), Now());
    }

    /** One compaction of the unsent batches behind `front`. */
    method CompactBatches(front: seq<PendingBatch>, unsent: seq<PendingBatch>)
      returns (built: seq<PendingBatch>, ghost names: map<Clock, seq<RowOp>>, folded: nat)
      requires clock.Valid() && device < 1_000_000 && QueueGood(front + unsent, named, Now())
      requires forall k :: 0 <= k < |unsent| ==> !unsent[k].inFlight
      modifies clock
      ensures clock.Valid() && Now() >= old(Now())
      ensures QueueGood(front + built, names, Now()) && NamesGrow(named, names, old(Now()))
      ensures Reduced(BatchOps(unsent), BatchOps(built)) && BatchOps(built) == Squeezed(unsent, fits)
      ensures forall k :: 0 <= k < |built| ==> !built[k].inFlight
      ensures if folded == 0 then built == unsent else Requeued(PassOf(unsent, fits).tail, built, named)
      ensures folded == 0 ==> unchanged(clock)
      ensures PassOf(unsent, fits).folded == 0 ==> folded == 0
      ensures unsent == [] ==> folded == 0
    {
      built, names := unsent, named;
      QueueGoodPrefix(front, unsent, named, Now());
      SqueezedReduces(unsent, fits);
      if |unsent| < 2 {
        folded := 0;
        return;
      }
      var tail;
      tail, folded := FoldPass(unsent, fits);
      PassIsInvisible(unsent, fits);
      if folded > 0 {
        built, names := Requeue(front, unsent, tail);
      }
    }

    method Compact(rows: Table, queue: seq<PendingBatch>)
      returns (after: seq<PendingBatch>, ghost names: map<Clock, seq<RowOp>>, folded: nat)
      requires clock.Valid() && device < 1_000_000 && QueueGood(queue, named, Now()) && FlightPrefix(queue)
      modifies clock
      ensures clock.Valid() && Now() >= old(Now())
      ensures QueueGood(after, names, Now()) && NamesGrow(named, names, old(Now())) && FlightPrefix(after)
      ensures Compacted(rows, queue, after)
      ensures BatchOps(after[Flying(after)..]) == Squeezed(queue[Flying(queue)..], fits)
      ensures if folded == 0 then after == queue
              else Requeued(PassOf(queue[Flying(queue)..], fits).tail, after[Flying(after)..], named)
      ensures folded == 0 ==> unchanged(clock)
      ensures PassOf(queue[Flying(queue)..], fits).folded == 0 ==> folded == 0
      ensures queue == [] ==> folded == 0
    {
      var start := Flying(queue);
      assert queue == queue[..start] + queue[start..];
      var built;
      built, names, folded := CompactBatches(queue[..start], queue[start..]);
      UnsentReplaced(rows, queue, built);
      FrontKept(queue, built);
      after := queue[..start] + built;
    }

    /** Fold repeated writes across the batches behind the last in-flight one. */
    method CoalesceUnsent() returns (folded: nat)
      requires Valid()
      modifies this`pending, this`named, clock
      ensures Valid() && NamesGrow(old(named), named, old(Now())) && Now() >= old(Now())
      ensures Compacted(authoritative, old(pending), pending)
      ensures BatchOps(pending[Flying(pending)..]) == Squeezed(old(pending)[Flying(old(pending))..], fits)
      ensures if folded == 0 then pending == old(pending)
              else Requeued(PassOf(old(pending)[Flying(old(pending))..], fits).tail, pending[Flying(pending)..],
                old(named))
      ensures folded == 0 ==> unchanged(clock)
      ensures PassOf(old(pending)[Flying(old(pending))..], fits).folded == 0 ==> folded == 0
    {
      pending, named, folded := Compact(authoritative, pending);
    }

    /** A fresh batch id. */
    method NextId() returns (id: Clock)
      requires clock.Valid() && device < 1_000_000
      modifies clock
      ensures clock.Valid() && id == Now() && id > old(Now())
    {
      var reading: int := *;
      clock.Next(reading);
      id := Rank(clock.lastMs, clock.counter, device);
    }

    // ── server frames ───────────────────────────────────────────────────────

    /** Re-seed operations for some rows, one for each, in any order. */
    method SeedsFor(keys: set<Key>) returns (seed: seq<RowOp>)
      requires Valid() && keys <= authoritative.Keys
      ensures |seed| == |keys|
      ensures forall key :: Filter(seed, key) == if key in keys then [SeedOp(authoritative[key])] else []
    {
      seed := [];
      var rest := keys;
      while rest != {}
        invariant rest <= keys && |seed| + |rest| == |keys|
        invariant forall key :: Filter(seed, key) == if key in keys - rest then [SeedOp(authoritative[key])] else []
        decreases rest
      {
        var k :| k in rest;
        var op := SeedOp(authoritative[k]);
        forall key ensures Filter(seed +
          [op], key) == if key in keys - (rest - {k}) then [SeedOp(authoritative[key])] else [] {
          FilterConcat(seed, [op], key);
          FilterOne(op, key);
        }
        seed := seed + [op];
        rest := rest - {k};
      }
    }

    /** Replace server truth and queue re-seeds of some of the rows held before. */
    method Reseed(rows: Table, keys: set<Key>) returns (any: bool)
      requires Valid() && GoodRows(rows) && keys <= authoritative.Keys
      modifies this`authoritative, this`pending, this`named, this`localWrites, clock
      ensures Valid() && NamesGrow(old(named), named, old(Now())) && Now() >= old(Now())
      ensures any <==> keys != {}
      ensures !localOnly ==> authoritative == rows && localWrites == old(localWrites)
      ensures forall key :: View(key) == Replay(Overlaid(rows, old(pending), key),
        if key in keys then [SeedOp(old(authoritative)[key])] else [])
    {
      var seed := SeedsFor(keys);
      authoritative := rows;
      EnqueueOps(seed);
      any := seed != [];
    }

    /** The server lost state: the local rows are the only copy. */
    method ApplyBehind(seqNo: nat, rows: seq<Row>)
      requires Valid() && (forall i :: 0 <= i < |rows| ==> WellFormed(rows[i])) && seqNo < serverSeq
      modifies this`authoritative, this`pending, this`named, this`localWrites, clock
      ensures Valid() && NamesGrow(old(named), named, old(Now())) && Now() >= old(Now())
      ensures !localOnly ==> authoritative == PutAll(KeptRows(old(authoritative), serverSeq, seqNo, true), rows)
      ensures FrameShown(old(authoritative), old(pending), serverSeq, seqNo, true, rows, authoritative, pending)
    {
      PutAllGood(authoritative, rows);
      var any := Reseed(PutAll(authoritative, rows), authoritative.Keys);
    }

    /** Full replacement; rows the server never saw are seeded again. */
    method ApplyFull(seqNo: nat, rows: seq<Row>) returns (any: bool)
      requires Valid() && (forall i :: 0 <= i < |rows| ==> WellFormed(rows[i])) && seqNo >= serverSeq
      modifies this`authoritative, this`pending, this`named, this`localWrites, clock
      ensures Valid() && NamesGrow(old(named), named, old(Now())) && Now() >= old(Now())
      ensures any <==> !(old(authoritative).Keys <= Keys(rows))
      ensures !localOnly ==> authoritative == PutAll(KeptRows(old(authoritative), serverSeq, seqNo, true), rows)
      ensures FrameShown(old(authoritative), old(pending), serverSeq, seqNo, true, rows, authoritative, pending)
    {
      PutAllGood(map[], rows);
      PutAllKeys(map[], rows);
      any := Reseed(PutAll(map[], rows), authoritative.Keys - Keys(rows));
    }

    /** Apply a hello `state` frame: a delta, a full replacement, or the rows
        of a server that fell behind this client. Rows the server does not
        hold are queued as re-seeds. */
    method ApplyState(seqNo: nat, full: bool, gcFloor: nat, rows: seq<Row>) returns (outcome: StateOutcome)
      requires Valid() && forall i :: 0 <= i < |rows| ==> WellFormed(rows[i])
      modifies this`authoritative, this`pending, this`named, this`localWrites, this`serverSeq, this`gcFloor, clock
      ensures Valid() && NamesGrow(old(named), named, old(Now())) && Now() >= old(Now())
      ensures serverSeq == seqNo && this.gcFloor == gcFloor
      ensures outcome == StateAfter(old(authoritative), old(serverSeq), seqNo, full, rows)
      ensures !full ==> pending == old(pending)
      ensures !localOnly || !full ==>
        authoritative == PutAll(KeptRows(old(authoritative), old(serverSeq), seqNo, full), rows)
      ensures FrameShown(old(authoritative), old(pending), old(serverSeq), seqNo, full, rows, authoritative, pending)
    {
      if !full {
        PutAllGood(authoritative, rows);
        authoritative := PutAll(authoritative, rows);
        outcome := Delta;
      } else if seqNo < serverSeq {
        ApplyBehind(seqNo, rows);
        outcome := Reseeded;
      } else {
        var any := ApplyFull(seqNo, rows);
        outcome := if any then Reseeded else Replaced;
      }
      serverSeq, this.gcFloor := seqNo, gcFloor;
    }

    /** Apply a broadcast. On a gap the rows still land but the cursor holds. */
    method ApplyRows(seqNo: nat, rows: seq<Row>) returns (contiguous: bool)
      requires Valid() && forall i :: 0 <= i < |rows| ==> WellFormed(rows[i])
      modifies this`authoritative, this`serverSeq
      ensures Valid() && authoritative == PutAll(old(authoritative), rows)
      ensures contiguous <==> seqNo <= old(serverSeq) + 1
      ensures serverSeq == CursorAfterRows(old(serverSeq), seqNo)
    {
      PutAllGood(authoritative, rows);
      authoritative := PutAll(authoritative, rows);
      if seqNo > serverSeq + 1 {
        return false;
      }
      if seqNo > serverSeq {
        serverSeq := seqNo;
      }
      return true;
    }

    // ── local writes ────────────────────────────────────────────────────────

    /** Cut a list of operations into batches the room accepts, in order. */
    method Chunked(queue: seq<PendingBatch>, ops: seq<RowOp>)
      returns (after: seq<PendingBatch>, ghost names: map<Clock, seq<RowOp>>)
      requires clock.Valid() && device < 1_000_000 && QueueGood(queue, named, Now()) && FlightPrefix(queue)
      modifies clock
      ensures clock.Valid() && Now() >= old(Now())
      ensures QueueGood(after, names, Now()) && NamesGrow(named, names, old(Now())) && FlightPrefix(after)
      ensures Extends(queue, after, ops) && BatchOps(after) == BatchOps(queue) + Chunks(ops)
      ensures forall k :: |queue| <= k < |after| ==> 0 < |after[k].ops| <= MAX_OPS_PER_BATCH
    {
      after, names := queue, named;
      var rest := ops;
      ghost var done := [];
      while rest != []
        invariant clock.Valid() && Now() >= old(Now())
        invariant ops == done + rest
        invariant QueueGood(after, names, Now()) && NamesGrow(named, names, old(Now())) && FlightPrefix(after)
        invariant Extends(queue, after, done)
        invariant BatchOps(after) + Chunks(rest) == BatchOps(queue) + Chunks(ops)
        decreases |rest|
      {
        var size := if |rest| > MAX_OPS_PER_BATCH then MAX_OPS_PER_BATCH else |rest|;
        ghost var was := Now();
        var id := NextId();
        var b := PendingBatch(id, rest[..size], false);
        QueueGoodAppend(after, b, names, was, Now());
        ExtendsOne(queue, after, done, b);
        ChunkNext(after, b, rest, size);
        names := names[id := b.ops];
        after := after + [b];
        done := done + rest[..size];
        rest := rest[size..];
      }
      assert done + [] == done;
      ChunksQueued(queue, after, ops);
    }

    /** Queue operations behind everything unacked and compact. */
    method PushBehind(ops: seq<RowOp>)
      requires Valid() && !localOnly && ops != []
      modifies this`pending, this`named, clock
      ensures Valid() && NamesGrow(old(named), named, old(Now())) && Now() >= old(Now())
      ensures forall key :: View(key) == Replay(Overlaid(authoritative, old(pending), key), Filter(ops, key))
      ensures var n := Flying(old(pending)); Flying(pending) == n <= |pending| && pending[..n] == old(pending)[..n]
      ensures |ops| == 1 && Flying(old(pending)) == 0 ==> Offline.OfflineWrite(old(pending), ops[0], pending, fits)
      ensures 1 < |ops| <= MAX_OPS_PER_BATCH ==> QueuedTogether(pending, ops)
    {
      ghost var queue := pending;
      ghost var names;
      var longer;
      longer, names := Chunked(pending, ops);
      pending, named := longer, names;
      var folded := CoalesceUnsent();
      EnqueuedShows(authoritative, queue, longer, pending, ops);
      if |ops| == 1 && Flying(queue) == 0 {
        EnqueuedOffline(queue, longer, pending, ops, fits);
      }
      if 1 < |ops| <= MAX_OPS_PER_BATCH {
        UnitQueued(queue, longer, pending, ops, fits, names);
      }
    }

    /** Queue local operations, or fold them in when no server will ever ack.
        Either way every row shows them at once, in order. */
    method EnqueueOps(ops: seq<RowOp>)
      requires Valid()
      modifies this`authoritative, this`pending, this`named, this`localWrites, clock
      ensures Valid() && NamesGrow(old(named), named, old(Now())) && Now() >= old(Now())
      ensures forall key :: View(key) == Replay(Overlaid(old(authoritative), old(pending), key), Filter(ops, key))
      ensures !localOnly ==> authoritative == old(authoritative) && localWrites == old(localWrites)
      ensures localOnly ==> localWrites == (old(localWrites) || ops != [])
      ensures var n := Flying(old(pending)); Flying(pending) == n <= |pending| && pending[..n] == old(pending)[..n]
      ensures ops == [] ==> pending == old(pending)
      ensures |ops| == 1 && !localOnly && Flying(old(pending)) == 0 ==>
        Offline.OfflineWrite(old(pending), ops[0], pending, fits)
      ensures !localOnly && 1 < |ops| <= MAX_OPS_PER_BATCH ==> QueuedTogether(pending, ops)
    {
      if ops == [] {
        return;
      }
      if localOnly {
        localWrites := true;
        FoldOps(ops);
      } else {
        PushBehind(ops);
      }
    }

    /** One local write under a fresh clock. */
    method Write(kind: string, id: string, op: OpKind, writes: map<string, Value>) returns (written: RowOp)
      requires Valid() && op != Delete
      modifies this`authoritative, this`pending, this`named, this`localWrites, clock
      ensures Valid() && NamesGrow(old(named), named, old(Now())) && Now() >= old(Now())
      ensures written == RowOp(kind, id, op, Some(writes), written.hlc, None) && written.hlc > old(Now())
      ensures forall key :: View(key) == Replay(Overlaid(old(authoritative), old(pending), key), Filter([written], key))
      ensures Now() >= written.hlc && Flying(pending) == Flying(old(pending))
      ensures !localOnly && Flying(old(pending)) == 0 ==> Offline.OfflineWrite(old(pending), written, pending, fits)
    {
      var hlc := NextHlc();
      written := RowOp(kind, id, op, Some(writes), hlc, None);
      EnqueueOps([written]);
    }

    /** Delete several rows under one clock; as many as the room takes in one
        batch are queued as one unit. */
    method DeleteRows(keys: seq<Key>) returns (hlc: Clock)
      requires Valid()
      modifies this`authoritative, this`pending, this`named, this`localWrites, clock
      ensures Valid() && NamesGrow(old(named), named, old(Now())) && Now() >= hlc > old(Now())
      ensures forall key :: View(key) == Deleted(Overlaid(old(authoritative), old(pending), key), keys, key, hlc)
      ensures !localOnly && 1 < |keys| <= MAX_OPS_PER_BATCH ==> QueuedTogether(pending, Deletes(keys, hlc))
    {
      hlc := NextHlc();
      EnqueueOps(Deletes(keys, hlc));
      AllDeletesShown(old(authoritative), old(pending), authoritative, pending, keys, hlc);
    }

    // ── acks and connections ────────────────────────────────────────────────

    /** Retire an acked batch: exactly the operations pushed under that id. */
    method AckBatch(batch: Clock) returns (existed: bool)
      requires Valid()
      modifies this`pending
      ensures Valid()
      ensures existed <==> exists i :: 0 <= i < |old(pending)| && old(pending)[i].batch == batch
      ensures !existed ==> pending == old(pending)
      ensures existed ==> batch in named && exists i :: Retired(old(pending), pending, i, batch, named[batch])
    {
      existed := false;
      for i := 0 to |pending|
        invariant pending == old(pending) && !existed
        invariant forall k :: 0 <= k < i ==> pending[k].batch != batch
      {
        if pending[i].batch == batch {
          existed := true;
          RemovedKeeps(pending, i, named, Now());
          pending := pending[..i] + pending[i + 1..];
          assert Retired(old(pending), pending, i, batch, named[batch]);
          return;
        }
      }
    }

    /** Every batch not in flight on this connection, now marked as pushed. */
    method TakePushable() returns (out: seq<PendingBatch>)
      requires Valid()
      modifies this`pending
      ensures Valid()
      ensures |pending| == |old(pending)|
      ensures forall i :: 0 <= i < |pending| ==> pending[i] == old(pending)[i].(inFlight := true)
      ensures out == pending[Flying(old(pending))..]
      ensures forall key :: View(key) == Overlaid(authoritative, old(pending), key)
      ensures Named(out, named)
    {
      out := [];
      ghost var queue := pending;
      FlyingFills(queue);
      assert Taking(queue, pending, 0, out);
      for i := 0 to |pending|
        invariant |pending| == |queue|
        invariant exists m: nat :: m == i && Taking(queue, pending, m, out)
      {
        var batch := pending[i];
        TakeNext(queue, pending, i, out);
        if !batch.inFlight {
          pending := pending[i := batch.(inFlight := true)];
          out := out + [pending[i]];
        }
      }
      TakenAll(queue, pending, out);
      MarkedKeeps(authoritative, queue, pending, named, Now(), true);
      NamedTail(pending, named, Flying(queue));
    }

    /** The connection dropped: everything unacked becomes pushable again. */
    method MarkDisconnected()
      requires Valid()
      modifies this`pending
      ensures Valid()
      ensures |pending| == |old(pending)|
      ensures forall i :: 0 <= i < |pending| ==> pending[i] == old(pending)[i].(inFlight := false)
      ensures forall key :: View(key) == Overlaid(authoritative, old(pending), key)
    {
      ghost var queue := pending;
      for i := 0 to |pending|
        invariant |pending| == |queue|
        invariant forall k :: 0 <= k < i ==> pending[k] == queue[k].(inFlight := false)
        invariant forall k :: i <= k < |queue| ==> pending[k] == queue[k]
      {
        pending := pending[i := pending[i].(inFlight := false)];
      }
      MarkedKeeps(authoritative, queue, pending, named, Now(), false);
    }

    // ── local-only mode ─────────────────────────────────────────────────────

    /** No transport: the whole queue folds into server truth. */
    method EnterLocalOnly()
      requires Valid()
      modifies this`authoritative, this`pending, this`localWrites, this`localOnly
      ensures Valid() && localOnly && pending == []
      ensures localWrites == (old(localWrites) || old(pending) != [])
      ensures forall key :: View(key) == Overlaid(old(authoritative), old(pending), key)
    {
      localOnly := true;
      var queue := pending;
      pending := [];
      if queue == [] {
        return;
      }
      localWrites := true;
      for i := 0 to |queue|
        invariant Valid() && pending == [] && localOnly && localWrites
        invariant forall key :: Get(authoritative, key) == Overlaid(old(authoritative), queue[..i], key)
      {
        FoldOps(queue[i].ops);
        forall key ensures Get(authoritative, key) == Overlaid(old(authoritative), queue[..i + 1], key) {
          OverlaidNext(old(authoritative), queue, i, key);
        }
      }
      assert queue[..|queue|] == queue;
    }

    /** A transport will attach: after local writes, every row is queued as a re-seed. */
    method LeaveLocalOnly()
      requires Valid()
      modifies this`authoritative, this`pending, this`named, this`localWrites, this`localOnly, clock
      ensures Valid() && NamesGrow(old(named), named, old(Now())) && Now() >= old(Now()) && !localOnly
      ensures !localWrites && authoritative == old(authoritative)
      ensures forall key :: View(key) == Replay(Overlaid(authoritative, old(pending), key),
        if old(localWrites) && key in authoritative then [SeedOp(authoritative[key])] else [])
    {
      localOnly := false;
      if localWrites {
        localWrites := false;
        var any := Reseed(authoritative, authoritative.Keys);
      }
    }

    /** Switch local-only mode: entering leaves every read unchanged, and so
        does leaving with an empty queue. */
    method SetLocalOnly(on: bool)
      requires Valid()
      modifies this`authoritative, this`pending, this`named, this`localWrites, this`localOnly, clock
      ensures Valid() && NamesGrow(old(named), named, old(Now())) && Now() >= old(Now()) && localOnly == on
      ensures on ==> pending == [] && localWrites == (old(localWrites) || old(pending) != [])
      ensures on ==> forall key :: View(key) == Overlaid(old(authoritative), old(pending), key)
      ensures !on ==> !localWrites && authoritative == old(authoritative)
      ensures !on ==> forall key :: View(key) == Replay(Overlaid(authoritative, old(pending), key),
        if old(localWrites) && key in authoritative then [SeedOp(authoritative[key])] else [])
      ensures old(pending) == [] ==> forall key :: Read(key) == Live(Get(old(authoritative), key))
    {
      if on {
        EnterLocalOnly();
      } else {
        LeaveLocalOnly();
        forall key ensures old(pending) == [] ==> Read(key) == Live(Get(authoritative, key)) {
          SeedOverOwn(authoritative, key);
        }
      }
    }

    // ── persistence ─────────────────────────────────────────────────────────

    method ToSnapshot() returns (s: Snapshot)
      requires Valid()
      ensures s == Snapshot(CURRENT_RESYNC_EPOCH, serverSeq, gcFloor, clock.lastMs, clock.counter, localWrites,
                            authoritative, Landed(pending))
      ensures GoodSnapshot(s, device, named)
    {
      s := Snapshot(CURRENT_RESYNC_EPOCH, serverSeq, gcFloor, clock.lastMs, clock.counter, localWrites, authoritative,
        Landed(pending));
    }

    /** Load a saved state, the latest or an older one; its whole queue is
        unsent and is compacted. `history` names every batch ever queued. */
    constructor FromSnapshot(s: Snapshot, device: nat, fits: RowOp -> bool, ghost history: map<Clock, seq<RowOp>>)
      requires LoadableSnapshot(s, device, history)
      ensures Valid() && fresh(clock) && !localOnly && this.device == device && this.fits == fits
      ensures lost == NamesAfter(history, SavedClock(s, device))
      ensures NamesGrow(NamesUpTo(history, SavedClock(s, device)), named, SavedClock(s, device)) &&
        Now() >= SavedClock(s, device)
      ensures authoritative == s.rows && gcFloor == s.gcFloor && localWrites == s.localWrites
      ensures serverSeq == if s.resyncEpoch < CURRENT_RESYNC_EPOCH then 0 else s.serverSeq
      ensures Compacted(s.rows, s.pending, pending)
      ensures forall id :: id in lost ==> id > SavedClock(s, device)
      ensures PassOf(s.pending, fits).folded == 0 ==>
        pending == s.pending && (clock.lastMs, clock.counter) == (s.lastMs, s.counter)
    {
      this.device, this.fits := device, fits;
      clock := new HlcClock(s.lastMs, s.counter);
      authoritative, gcFloor, pending := s.rows, s.gcFloor, s.pending;
      serverSeq := if s.resyncEpoch < CURRENT_RESYNC_EPOCH then 0 else s.serverSeq;
      localOnly, localWrites := false, s.localWrites;
      named, lost := NamesUpTo(history, SavedClock(s, device)), NamesAfter(history, SavedClock(s, device));
      new;
      assert clock.lastMs == s.lastMs && clock.counter == s.counter;
      NoneFlying(s.pending);
      var folded := CoalesceUnsent();
    }
  }

  /** One local write as the caller gives it. */
  datatype Input = Input(kind: string, id: string, op: OpKind, writes: map<string, Value>)

  /** Operation `op` is the write `input`. */
  predicate Records(input: Input, op: RowOp) {
    op == RowOp(input.kind, input.id, input.op, Some(input.writes), op.hlc, None)
  }

  /** The first writes of a run, under rising clocks up to `now`. */
  ghost predicate Recorded(inputs: seq<Input>, written: seq<RowOp>, now: Clock) {
    && |written| <= |inputs|
    && (forall k :: 0 <= k < |written| ==> Records(inputs[k], written[k]) && written[k].hlc <= now)
    && (forall k, j :: 0 <= k < j < |written| ==> written[k].hlc < written[j].hlc)
  }

  lemma RecordedNext(inputs: seq<Input>, written: seq<RowOp>, was: Clock, op: RowOp, now: Clock)
    requires Recorded(inputs, written, was) && |written| < |inputs| && Records(inputs[|written|], op) &&
      was < op.hlc <= now
    ensures Recorded(inputs, written + [op], now)
  {
  }

  /** A run of writes while no transport is attached, as the offline bounds
      assume it. */
  method WriteOffline(doc: RegistryDoc, inputs: seq<Input>) returns (ghost queues: seq<seq<PendingBatch>>,
                      written: seq<RowOp>)
    requires doc.Valid() && doc.pending == [] && !doc.localOnly
    requires forall i :: 0 <= i < |inputs| ==> inputs[i].op != Delete
    modifies doc`authoritative, doc`pending, doc`named, doc`localWrites, doc.clock
    ensures doc.Valid() && Offline.OfflineRun(queues, written, doc.fits) && queues[|written|] == doc.pending
    ensures |written| == |inputs| && Recorded(inputs, written, doc.Now())
  {
    queues, written := [doc.pending], [];
    for i := 0 to |inputs|
      invariant doc.Valid() && !doc.localOnly && Flying(doc.pending) == 0
      invariant |written| == i && Recorded(inputs, written, doc.Now())
      invariant Offline.OfflineRun(queues, written, doc.fits) && queues[i] == doc.pending
    {
      ghost var was := doc.Now();
      var op := doc.Write(inputs[i].kind, inputs[i].id, inputs[i].op, inputs[i].writes);
      Offline.RunNext(queues, written, op, doc.pending, doc.fits);
      RecordedNext(inputs, written, was, op, doc.Now());
      queues := queues + [doc.pending];
      written := written + [op];
    }
  }

  /** The queue as persisted: nothing in flight. */
  function Landed(queue: seq<PendingBatch>): (r: seq<PendingBatch>)
    ensures |r| == |queue| && forall i :: 0 <= i < |r| ==> r[i] == queue[i].(inFlight := false)
  {
    seq(|queue|, i requires 0 <= i < |queue| => queue[i].(inFlight := false))
  }

  /** A state as saved: its queue is good, and no batch is in flight. */
  ghost predicate GoodSnapshot(s: Snapshot, device: nat, history: map<Clock, seq<RowOp>>) {
    LoadableSnapshot(s, device, history) && forall id :: id in history ==> id <= SavedClock(s, device)
  }

  function SavedClock(s: Snapshot, device: nat): Clock {
    Rank(s.lastMs, s.counter, device)
  }

  /** Any state saved before, whatever was named after it was saved. */
  ghost predicate LoadableSnapshot(s: Snapshot, device: nat, history: map<Clock, seq<RowOp>>) {
    && s.counter <= 999_999 && device < 1_000_000 && GoodRows(s.rows)
    && IdsDistinct(s.pending) && SomeOps(s.pending) && Named(s.pending, history)
    && (forall i :: 0 <= i < |s.pending| ==> s.pending[i].batch <= SavedClock(s, device))
    && forall i :: 0 <= i < |s.pending| ==> !s.pending[i].inFlight
  }

  ghost function NamesUpTo(history: map<Clock, seq<RowOp>>, clock: Clock): map<Clock, seq<RowOp>> {
    map id | id in history && id <= clock :: history[id]
  }

  ghost function NamesAfter(history: map<Clock, seq<RowOp>>, clock: Clock): map<Clock, seq<RowOp>> {
    map id | id in history && id > clock :: history[id]
  }

  /** The clock has passed every id that was lost, and no id clashes with one. */
  ghost predicate PastLost(named: map<Clock, seq<RowOp>>, lost: map<Clock, seq<RowOp>>, now: Clock) {
    (forall id :: id in lost ==> id <= now) && (forall id :: id in lost && id in named ==> named[id] == lost[id])
  }

  /** From then on no id ever names two operation lists, lost ones included. */
  lemma PastLostStays(named: map<Clock, seq<RowOp>>, lost: map<Clock, seq<RowOp>>, now: Clock,
                      names: map<Clock, seq<RowOp>>, later: Clock)
    requires PastLost(named, lost, now) && NamesGrow(named, names, now) && now <= later
    ensures PastLost(names, lost, later)
  {
  }

  /** The first id after a load of an older state passes every lost id if and
      only if the wall clock reads later than the newest of them. */
  lemma FirstIdPastLostIff(s: Snapshot, device: nat, lost: map<Clock, seq<RowOp>>, newest: Stamp, reading: int)
    requires s.counter <= 999_999 && newest.1 <= 999_999 && device < 1_000_000 &&
      Rank(newest.0, newest.1, device) in lost
    requires forall id :: id in lost ==> SavedClock(s, device) < id <= Rank(newest.0, newest.1, device)
    ensures var t := TickTo(s.lastMs, s.counter, reading);
      (forall id :: id in lost ==> id < Rank(t.0, t.1, device)) <==> reading > newest.0
  {
    var t := TickTo(s.lastMs, s.counter, reading);
    RankIsClockOrder(s.lastMs, s.counter, device, newest.0, newest.1, device);
    RankIsClockOrder(newest.0, newest.1, device, t.0, t.1, device);
    TickAheadIff((s.lastMs, s.counter), newest, reading);
    assert (forall id :: id in lost ==> id < Rank(t.0, t.1, device)) <==>
      Rank(newest.0, newest.1, device) < Rank(t.0, t.1, device);
  }

  /** The first clock after a load that had nothing to compact. */
  method FirstIdAfterLoad(s: Snapshot, device: nat, fits: RowOp -> bool, ghost history: map<Clock, seq<RowOp>>,
                          ghost newest: Stamp, reading: int) returns (doc: RegistryDoc, id: Clock)
    requires LoadableSnapshot(s, device, history) && PassOf(s.pending, fits).folded == 0 && newest.1 <= 999_999
    requires Rank(newest.0, newest.1, device) in NamesAfter(history, SavedClock(s, device))
    requires forall i :: i in history ==> i <= Rank(newest.0, newest.1, device)
    ensures doc.Valid() && doc.pending == s.pending && id == doc.Now()
    ensures (forall i :: i in doc.lost ==> i < id) <==> reading > newest.0
  {
    doc := new RegistryDoc.FromSnapshot(s, device, fits, history);
    FirstIdPastLostIff(s, device, doc.lost, newest, reading);
    id := doc.NextHlcAt(reading);
    assert forall i :: i in doc.lost <==> i in NamesAfter(history, SavedClock(s, device));
  }

  /** One id for two operation lists: a batch is queued and pushed, the process
      loads the state saved before it, and queues another batch while the wall
      clock stands at or behind the saved time. An ack of the first would then
      retire the second. */
  lemma ReloadRenames(s: Snapshot, device: nat, first: seq<RowOp>, second: seq<RowOp>, now1: int, now2: int)
    requires now1 <= s.lastMs && now2 <= s.lastMs && first != second
    ensures var t1, t2 := TickTo(s.lastMs, s.counter, now1), TickTo(s.lastMs, s.counter, now2);
      !(exists named :: Named([PendingBatch(Rank(t1.0, t1.1, device), first, true),
        PendingBatch(Rank(t2.0, t2.1, device), second, false)], named))
  {
    var t1, t2 := TickTo(s.lastMs, s.counter, now1), TickTo(s.lastMs, s.counter, now2);
    var queue := [PendingBatch(Rank(t1.0, t1.1, device), first, true),
      PendingBatch(Rank(t2.0, t2.1, device), second, false)];
    assert queue[0].batch == queue[1].batch && queue[0].ops != queue[1].ops;
  }

  function DeleteOf(key: Key, hlc: Clock): RowOp {
    RowOp(key.0, key.1, Delete, None, hlc, None)
  }

  function Deletes(keys: seq<Key>, hlc: Clock): (ops: seq<RowOp>)
    ensures |ops| == |keys| && forall i :: 0 <= i < |ops| ==> ops[i] == DeleteOf(keys[i], hlc)
  {
    seq(|keys|, i requires 0 <= i < |keys| => DeleteOf(keys[i], hlc))
  }

  /** The row under one delete if it is named, and as it is otherwise. */
  function Deleted(row: Option<Row>, keys: seq<Key>, key: Key, hlc: Clock): Option<Row> {
    if key in keys then Step(row, RowOp(key.0, key.1, Delete, None, hlc, None)) else row
  }

  /** A row that is named is deleted once, however often it is named; any other is left alone. */
  lemma {:induction false} DeletesShown(keys: seq<Key>, hlc: Clock, row: Option<Row>, key: Key)
    ensures Replay(row, Filter(Deletes(keys, hlc), key)) == Deleted(row, keys, key, hlc)
    decreases |keys|
  {
    if keys == [] {
    } else {
      var op := DeleteOf(keys[0], hlc);
      assert Deletes(keys, hlc) == [op] + Deletes(keys[1..], hlc);
      FilterConcat([op], Deletes(keys[1..], hlc), key);
      FilterOne(op, key);
      if keys[0] == key {
        ReplayConcat(row, [op], Filter(Deletes(keys[1..], hlc), key));
        ReplayPair(row, op, op);
        DeletesShown(keys[1..], hlc, Step(row, op), key);
        DeletedTwice(row, op);
      } else {
        assert [] + Filter(Deletes(keys[1..], hlc), key) == Filter(Deletes(keys[1..], hlc), key);
        DeletesShown(keys[1..], hlc, row, key);
      }
    }
  }

  lemma AllDeletesShown(was: Table, before: seq<PendingBatch>, rows: Table, queue: seq<PendingBatch>, keys: seq<Key>,
                        hlc: Clock)
    requires forall key ::
      Overlaid(rows, queue, key) == Replay(Overlaid(was, before, key), Filter(Deletes(keys, hlc), key))
    ensures forall key :: Overlaid(rows, queue, key) == Deleted(Overlaid(was, before, key), keys, key, hlc)
  {
    forall key
      ensures Overlaid(rows, queue, key) == Deleted(Overlaid(was, before, key), keys, key, hlc)
    {
      DeletesShown(keys, hlc, Overlaid(was, before, key), key);
    }
  }

  lemma DeletedTwice(row: Option<Row>, op: RowOp)
    requires op.op == Delete
    ensures Step(Step(row, op), op) == Step(row, op)
  {
  }

  /** The rows after one operation was applied to them. */
  function FoldedInto(rows: Table, op: RowOp): Table {
    var (next, changed) := ApplyOp(Get(rows, KeyOf(op)), op);
    if next.Some? && changed then Put(rows, next.value) else rows
  }

  lemma {:induction false} FoldedRow(rows: Table, op: RowOp, key: Key)
    requires GoodRows(rows)
    ensures Get(FoldedInto(rows, op), key) == Replay(Get(rows, key), Filter([op], key))
  {
    ChangedIffDifferent(Get(rows, KeyOf(op)), op);
    FilterOne(op, key);
    ReplayPair(Get(rows, key), op, op);
  }

  lemma {:induction false} FoldedRows(rows: Table, op: RowOp)
    requires GoodRows(rows)
    ensures GoodRows(FoldedInto(rows, op))
    ensures forall key :: Get(FoldedInto(rows, op), key) == Replay(Get(rows, key), Filter([op], key))
  {
    StepKeepsWellFormed(Get(rows, KeyOf(op)), op);
    forall key ensures Get(FoldedInto(rows, op), key) == Replay(Get(rows, key), Filter([op], key)) {
      FoldedRow(rows, op, key);
    }
  }

  /** The batch of the queue that `after` lacks, and what it held. */
  ghost predicate Retired(queue: seq<PendingBatch>, after: seq<PendingBatch>, i: int, batch: Clock, ops: seq<RowOp>) {
    0 <= i < |queue| && queue[i].batch == batch && queue[i].ops == ops && after == queue[..i] + queue[i + 1..]
  }

  lemma RemovedKeeps(queue: seq<PendingBatch>, i: nat, named: map<Clock, seq<RowOp>>, now: Clock)
    requires i < |queue| && QueueGood(queue, named, now) && FlightPrefix(queue)
    ensures QueueGood(queue[..i] + queue[i + 1..], named, now) && FlightPrefix(queue[..i] + queue[i + 1..])
  {
    var after := queue[..i] + queue[i + 1..];
    assert forall k :: 0 <= k < |after| ==> after[k] == queue[if k < i then k else k + 1];
  }

  lemma {:induction false} DropEmptyAppend(bs: seq<seq<RowOp>>, ops: seq<RowOp>)
    ensures DropEmpty(bs + [ops]) == DropEmpty(bs) + if ops == [] then [] else [ops]
    decreases |bs|
  {
    if bs == [] {
      assert bs + [ops] == [ops] && [ops][1..] == [];
    } else {
      assert (bs + [ops])[1..] == bs[1..] + [ops];
      DropEmptyAppend(bs[1..], ops);
    }
  }

  /** What one slot adds to the queue: its own operations if it gained nothing. */
  lemma SlotAlive(tail: seq<Slot>, unsent: seq<PendingBatch>, i: nat)
    requires SlotsFrom(tail, unsent) && i < |tail|
    ensures var ops := Alive(tail[i].ops);
      && tail[i].batch == unsent[i].batch
      && (!tail[i].gained && ops != [] ==> ops == unsent[i].ops)
      && DropEmpty(Contents(tail)[..i + 1]) == DropEmpty(Contents(tail)[..i]) + if ops == [] then [] else [ops]
  {
    var ops := Alive(tail[i].ops);
    assert SlotFrom(tail[i], unsent[i]);
    assert Contents(tail)[..i + 1] == Contents(tail)[..i] + [ops];
    DropEmptyAppend(Contents(tail)[..i], ops);
    if !tail[i].gained && ops != [] {
      SlotUnchanged(tail[i], unsent[i]);
    }
  }

  lemma SlotUnchanged(slot: Slot, batch: PendingBatch)
    requires SlotFrom(slot, batch) && !slot.gained && Alive(slot.ops) != []
    ensures Alive(slot.ops) == batch.ops
  {
    AliveFilled(batch.ops);
    if |batch.ops| == 1 {
      SingleAlive(slot.ops);
    }
  }
}
