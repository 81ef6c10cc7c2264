/** The offline queue is bounded by what changed, not by the writes made. */
module Offline {
  import opened Options
  import opened Rows
  import opened Notifications
  import opened Compaction
  import opened Compactor
  import opened QueueBound

  /** One write while nothing is in flight: it is queued alone and the queue compacted. */
  ghost predicate OfflineWrite(queue: seq<PendingBatch>, op: RowOp, after: seq<PendingBatch>, fits: RowOp -> bool) {
    exists id :: BatchOps(after) == Squeezed(queue + [PendingBatch(id, [op], false)], fits)
  }

  ghost predicate OfflineRun(queues: seq<seq<PendingBatch>>, ops: seq<RowOp>, fits: RowOp -> bool) {
    && |queues| == |ops| + 1 && queues[0] == []
    && forall i {:trigger ops[i]} :: 0 <= i < |ops| ==> OfflineWrite(queues[i], ops[i], queues[i + 1], fits)
  }

  /** One more write of a run. */
  lemma RunNext(queues: seq<seq<PendingBatch>>, ops: seq<RowOp>, op: RowOp, after: seq<PendingBatch>,
                fits: RowOp -> bool)
    requires OfflineRun(queues, ops, fits) && OfflineWrite(queues[|ops|], op, after, fits)
    ensures OfflineRun(queues + [after], ops + [op], fits)
  {
    forall i | 0 <= i < |ops +
      [op]| ensures OfflineWrite((queues + [after])[i], (ops + [op])[i], (queues + [after])[i + 1], fits) {
      if i < |ops| {
        assert ops[i] == (ops + [op])[i];
      }
    }
  }

  ghost predicate AllSingle(bs: seq<seq<RowOp>>) {
    forall i :: 0 <= i < |bs| ==> |bs[i]| == 1
  }

  lemma {:induction false} DropEmptySingle(bs: seq<seq<RowOp>>)
    requires forall i :: 0 <= i < |bs| ==> |bs[i]| <= 1
    ensures AllSingle(DropEmpty(bs))
    decreases |bs|
  {
    if bs == [] {
    } else {
      DropEmptySingle(bs[1..]);
    }
  }

  lemma SqueezedSingle(batches: seq<PendingBatch>, fits: RowOp -> bool)
    requires AllSingle(BatchOps(batches))
    ensures AllSingle(Squeezed(batches, fits))
  {
    var s := PassOf(batches, fits);
    PassIsInvisible(batches, fits);
    forall i | 0 <= i < |s.tail| ensures |Contents(s.tail)[i]| <= 1 {
      assert SlotFrom(s.tail[i], batches[i]) && |BatchOps(batches)[i]| == 1;
      SingleAlive(s.tail[i].ops);
    }
    DropEmptySingle(Contents(s.tail));
  }

  lemma QueuedRowOps(queue: seq<PendingBatch>, id: Clock, op: RowOp, key: Key)
    ensures var batches := queue + [PendingBatch(id, [op], false)];
      && BatchOps(batches) == BatchOps(queue) + [[op]]
      && RowOps(BatchOps(batches), key) == RowOps(BatchOps(queue), key) + Filter([op], key)
  {
    assert BatchOps(queue + [PendingBatch(id, [op], false)]) == BatchOps(queue) + [[op]];
    RowOpsConcat(BatchOps(queue), [[op]], key);
    RowOpsOne([op], key);
  }

  /** What every moment of an offline run keeps for one row. */
  ghost predicate OfflineGood(queue: seq<PendingBatch>, key: Key, future: seq<RowOp>, source: seq<RowOp>) {
    AllSingle(BatchOps(queue)) && CoveringFrom(RowOps(BatchOps(queue), key) + future, source)
  }

  /** The batches the compactor sees at one write. */
  lemma WrittenBatches(queue: seq<PendingBatch>, op: RowOp, after: seq<PendingBatch>, fits: RowOp -> bool)
    returns (batches: seq<PendingBatch>)
    requires OfflineWrite(queue, op, after, fits) && AllSingle(BatchOps(queue))
    ensures BatchOps(after) == Squeezed(batches, fits) && AllSingle(BatchOps(batches))
    ensures forall k :: RowOps(BatchOps(batches), k) == RowOps(BatchOps(queue), k) + Filter([op], k)
  {
    var id :| BatchOps(after) == Squeezed(queue + [PendingBatch(id, [op], false)], fits);
    batches := queue + [PendingBatch(id, [op], false)];
    forall k ensures RowOps(BatchOps(batches), k) == RowOps(BatchOps(queue), k) + Filter([op], k) {
      QueuedRowOps(queue, id, op, k);
    }
    QueuedRowOps(queue, id, op, KeyOf(op));
  }

  lemma OfflineStep(queue: seq<PendingBatch>, op: RowOp, after: seq<PendingBatch>, fits: RowOp -> bool, key: Key,
                    future: seq<RowOp>, source: seq<RowOp>)
    requires FitsDrawn(fits, key, source) && OfflineWrite(queue, op, after, fits) &&
      OfflineGood(queue, key, Filter([op], key) + future, source)
    ensures OfflineGood(after, key, future, source)
  {
    var batches := WrittenBatches(queue, op, after, fits);
    MoveBracket(RowOps(BatchOps(queue), key), Filter([op], key), future);
    SingleBatches(batches);
    SqueezeCovers(batches, fits, key, future, source);
    SqueezedSingle(batches, fits);
  }

  lemma MoveBracket(a: seq<RowOp>, b: seq<RowOp>, c: seq<RowOp>)
    ensures a + (b + c) == (a + b) + c
  {
  }

  lemma SingleBatches(batches: seq<PendingBatch>)
    requires AllSingle(BatchOps(batches))
    ensures forall key :: Alone(batches, key)
  {
    forall key, i | 0 <= i < |batches| && Filter(batches[i].ops, key) != [] ensures |batches[i].ops| == 1 {
      assert |BatchOps(batches)[i]| == 1;
    }
  }

  lemma FilterNext(ops: seq<RowOp>, n: nat, key: Key)
    requires n < |ops|
    ensures Filter(ops[..n + 1], key) == Filter(ops[..n], key) + Filter([ops[n]], key)
    ensures Filter(ops[n..], key) == Filter([ops[n]], key) + Filter(ops[n + 1..], key)
  {
    assert ops[..n + 1] == ops[..n] + [ops[n]] && ops[n..] == [ops[n]] + ops[n + 1..];
    FilterConcat(ops[..n], [ops[n]], key);
    FilterConcat([ops[n]], ops[n + 1..], key);
  }

  lemma {:induction false} OfflineKeeps(queues: seq<seq<PendingBatch>>, ops: seq<RowOp>, fits: RowOp -> bool, key: Key,
                                        n: nat)
    requires OfflineRun(queues, ops, fits) && FitsDrawn(fits, key, Filter(ops, key)) && Covering(Filter(ops, key)) &&
      n <= |ops|
    ensures OfflineGood(queues[n], key, Filter(ops[n..], key), Filter(ops, key))
  {
    if n == 0 {
      assert ops[0..] == ops && [] + Filter(ops, key) == Filter(ops, key);
      OwnSource(Filter(ops, key));
    } else {
      OfflineKeeps(queues, ops, fits, key, n - 1);
      FilterNext(ops, n - 1, key);
      assert OfflineWrite(queues[n - 1], ops[n - 1], queues[n], fits);
      OfflineStep(queues[n - 1], ops[n - 1], queues[n], fits, key, Filter(ops[n..], key), Filter(ops, key));
    }
  }

  lemma CoveringSplit(a: seq<RowOp>, b: seq<RowOp>, c: seq<RowOp>, source: seq<RowOp>)
    requires CoveringFrom(a + (b + c), source)
    ensures CoveringFrom(a + b, source)
  {
    assert a + (b + c) == (a + b) + c;
    CoveringPrefix(a + b, c, source);
  }

  lemma OfflineBatches(queues: seq<seq<PendingBatch>>, ops: seq<RowOp>, fits: RowOp -> bool, key: Key, n: nat)
    returns (batches: seq<PendingBatch>)
    requires OfflineRun(queues, ops, fits) && FitsDrawn(fits, key, Filter(ops, key)) && Covering(Filter(ops, key)) &&
      n < |ops|
    ensures BatchOps(queues[n + 1]) == Squeezed(batches, fits)
    ensures AllSingle(BatchOps(batches)) && CoveringFrom(RowOps(BatchOps(batches), key), Filter(ops, key))
    ensures forall k :: RowOps(BatchOps(batches), k) == RowOps(BatchOps(queues[n]), k) + Filter([ops[n]], k)
  {
    OfflineKeeps(queues, ops, fits, key, n);
    FilterNext(ops, n, key);
    CoveringSplit(RowOps(BatchOps(queues[n]), key), Filter([ops[n]], key), Filter(ops[n + 1..], key), Filter(ops, key));
    assert OfflineWrite(queues[n], ops[n], queues[n + 1], fits);
    batches := WrittenBatches(queues[n], ops[n], queues[n + 1], fits);
  }

  lemma CoveringPrefix(a: seq<RowOp>, b: seq<RowOp>, source: seq<RowOp>)
    requires CoveringFrom(a + b, source)
    ensures CoveringFrom(a, source)
  {
    assert forall i :: 0 <= i < |a| ==> (a + b)[i] == a[i];
  }

  lemma {:induction false} NoneQueued(batches: seq<PendingBatch>, key: Key, i: nat)
    requires RowOps(BatchOps(batches), key) == [] && i < |batches|
    ensures Filter(batches[i].ops, key) == []
    decreases i
  {
    assert BatchOps(batches)[1..] == BatchOps(batches[1..]);
    if i > 0 {
      NoneQueued(batches[1..], key, i - 1);
    }
  }

  lemma {:induction false} AbsentSqueezed(batches: seq<PendingBatch>, fits: RowOp -> bool, key: Key)
    requires RowOps(BatchOps(batches), key) == []
    ensures RowOps(Squeezed(batches, fits), key) == []
    ensures forall i :: 0 <= i < |batches| ==> Filter(batches[i].ops, key) == []
  {
    forall i | 0 <= i < |batches| ensures Filter(batches[i].ops, key) == [] {
      NoneQueued(batches, key, i);
    }
    AbsentStays(batches, |batches|, fits, key);
    SqueezedRowOps(batches, fits, key);
  }

  lemma {:induction false} AbsentAfter(queue: seq<PendingBatch>, op: RowOp, after: seq<PendingBatch>,
                                       fits: RowOp -> bool, absent: Key)
    requires OfflineWrite(queue, op, after, fits)
    requires RowOps(BatchOps(queue), absent) == [] && Filter([op], absent) == []
    ensures RowOps(BatchOps(after), absent) == []
  {
    var id :| BatchOps(after) == Squeezed(queue + [PendingBatch(id, [op], false)], fits);
    QueuedRowOps(queue, id, op, absent);
    AbsentSqueezed(queue + [PendingBatch(id, [op], false)], fits, absent);
  }

  lemma {:induction false} AbsentOffline(queues: seq<seq<PendingBatch>>, ops: seq<RowOp>, fits: RowOp -> bool,
                                         absent: Key, n: nat)
    requires OfflineRun(queues, ops, fits) && n <= |ops| && Filter(ops, absent) == []
    ensures RowOps(BatchOps(queues[n]), absent) == []
  {
    if n == 0 {
    } else {
      AbsentOffline(queues, ops, fits, absent, n - 1);
      AbsentSlice(ops, n - 1, absent);
      assert OfflineWrite(queues[n - 1], ops[n - 1], queues[n], fits);
      AbsentAfter(queues[n - 1], ops[n - 1], queues[n], fits, absent);
    }
  }

  lemma AbsentSlice(ops: seq<RowOp>, n: nat, key: Key)
    requires n < |ops| && Filter(ops, key) == []
    ensures Filter([ops[n]], key) == []
  {
    NotFiltered(ops, n, key);
    FilterOne(ops[n], key);
  }

  lemma {:induction false} RowOpsIn(bs: seq<seq<RowOp>>, key: Key, op: RowOp)
    requires op in RowOps(bs, key)
    ensures exists j :: 0 <= j < |bs| && op in bs[j]
    decreases |bs|
  {
    if op in Filter(bs[0], key) {
      FilterKeys(bs[0], key);
    } else {
      RowOpsIn(bs[1..], key, op);
      var j :| 0 <= j < |bs[1..]| && op in bs[1..][j];
      assert bs[j + 1] == bs[1..][j];
    }
  }

  lemma UngatedSqueezed(batches: seq<PendingBatch>, fits: RowOp -> bool, id: string)
    requires UngatedQueue(batches, id)
    ensures forall op :: op in RowOps(Squeezed(batches, fits), (CHATS, id)) ==> !ChatGates(op)
  {
    var s, key := PassOf(batches, fits), (CHATS, id);
    UngatedPass(batches, |batches|, fits, id);
    SqueezedRowOps(batches, fits, key);
    forall op | op in RowOps(Squeezed(batches, fits), key) ensures !ChatGates(op) {
      RowOpsKeys(Contents(s.tail)[..|batches|], key);
      RowOpsIn(Contents(s.tail)[..|batches|], key, op);
      var j :| 0 <= j < |batches| && op in Contents(s.tail)[j];
      AliveMembers(s.tail[j].ops);
      var k :| 0 <= k < |s.tail[j].ops| && s.tail[j].ops[k] == Some(op);
      assert At(s.tail, (j, k)) == Some(op);
    }
  }

  /** No operation gates the session's chat. */
  ghost predicate UngatedOps(ops: seq<RowOp>, id: string) {
    forall op :: op in ops && KeyOf(op) == (CHATS, id) ==> !ChatGates(op)
  }

  lemma UngatedAdded(ops: seq<RowOp>, n: nat, id: string)
    requires n < |ops| && UngatedOps(ops, id)
    ensures forall op :: op in Filter([ops[n]], (CHATS, id)) ==> !ChatGates(op)
  {
    FilterOne(ops[n], (CHATS, id));
    assert ops[n] in ops;
  }

  lemma {:induction false} UngatedStep(queues: seq<seq<PendingBatch>>, ops: seq<RowOp>, fits: RowOp -> bool, key: Key,
                                       n: nat)
    requires OfflineRun(queues, ops, fits) && FitsDrawn(fits, key, Filter(ops, key)) && Covering(Filter(ops, key)) &&
      n < |ops|
    requires UngatedOps(ops, key.1) && UngatedQueue(queues[n], key.1)
    ensures UngatedQueue(queues[n + 1], key.1)
  {
    var batches := OfflineBatches(queues, ops, fits, key, n);
    UngatedAdded(ops, n, key.1);
    UngatedSqueezed(batches, fits, key.1);
  }

  lemma {:induction false} UngatedOffline(queues: seq<seq<PendingBatch>>, ops: seq<RowOp>, fits: RowOp -> bool,
                                          key: Key, n: nat)
    requires OfflineRun(queues, ops, fits) && FitsDrawn(fits, key, Filter(ops, key)) && Covering(Filter(ops, key)) &&
      n <= |ops|
    requires UngatedOps(ops, key.1)
    ensures UngatedQueue(queues[n], key.1)
  {
    for k := 0 to n
      invariant exists m: nat :: m == k && UngatedQueue(queues[m], key.1)
    {
      UngatedStep(queues, ops, fits, key, k);
    }
  }

  /** What is drawn from drawn operations is drawn from their source. */
  lemma DrawnTwice(op: RowOp, ops: seq<RowOp>, source: seq<RowOp>)
    requires Drawn(op, ops) && forall o :: o in ops ==> Drawn(o, source)
    ensures Drawn(op, source)
  {
    forall k | k in Writes(op) ensures DrawnField(op, k, source) {
      assert DrawnField(op, k, ops);
      var o :| o in ops && WritesAlike(o, op, k);
      assert DrawnField(o, k, source);
      var first :| first in source && WritesAlike(first, o, k);
      assert WritesAlike(first, op, k);
    }
  }

  lemma DrawnThrough(ops: seq<RowOp>, source: seq<RowOp>, fits: RowOp -> bool, key: Key)
    requires CoveringFrom(ops, source) && FitsDrawn(fits, key, source)
    ensures FitsDrawn(fits, key, ops)
  {
    forall op | KeyOf(op) == key && Tidy(op) && Drawn(op, ops) ensures fits(op) {
      DrawnTwice(op, ops, source);
    }
  }

  /** One compaction of single-operation batches, for such a row. */
  lemma {:induction false} FreeRowLeft(batches: seq<PendingBatch>, fits: RowOp -> bool, key: Key, source: seq<RowOp>)
    requires AllSingle(BatchOps(batches)) && CoveringFrom(RowOps(BatchOps(batches), key), source)
    requires FitsDrawn(fits, key, source)
    requires key.0 != SESSIONS && (key.0 == CHATS ==>
      RowOps(BatchOps(batches), (SESSIONS, key.1)) == [] || UngatedQueue(batches, key.1))
    ensures |RowOps(Squeezed(batches, fits), key)| <= 1
  {
    SingleBatches(batches);
    if key.0 == CHATS && !UngatedQueue(batches, key.1) {
      AbsentSqueezed(batches, fits, (SESSIONS, key.1));
    }
    DrawnThrough(RowOps(BatchOps(batches), key), source, fits, key);
    SqueezeFree(batches, fits, key);
  }

  /** What the compactor sees at one write, for such a row. */
  lemma {:induction false} FreeBatches(queues: seq<seq<PendingBatch>>, ops: seq<RowOp>, fits: RowOp -> bool, key: Key,
                                       n: nat)
    returns (batches: seq<PendingBatch>)
    requires OfflineRun(queues, ops, fits) && FitsDrawn(fits, key, Filter(ops, key)) && Covering(Filter(ops, key)) &&
      n < |ops|
    requires key.0 == CHATS ==> Filter(ops, (SESSIONS, key.1)) == [] || UngatedOps(ops, key.1)
    ensures BatchOps(queues[n + 1]) == Squeezed(batches, fits)
    ensures AllSingle(BatchOps(batches)) && CoveringFrom(RowOps(BatchOps(batches), key), Filter(ops, key))
    ensures key.0 == CHATS ==>
      RowOps(BatchOps(batches), (SESSIONS, key.1)) == [] || UngatedQueue(batches, key.1)
  {
    batches := OfflineBatches(queues, ops, fits, key, n);
    if key.0 == CHATS && UngatedOps(ops, key.1) {
      UngatedOffline(queues, ops, fits, key, n);
      UngatedAdded(ops, n, key.1);
    } else if key.0 == CHATS {
      AbsentOffline(queues, ops, fits, (SESSIONS, key.1), n);
      AbsentSlice(ops, n, (SESSIONS, key.1));
    }
  }

  /** Main result: over any offline run, a row that no notification depends
      on has at most one queued operation, however often it was written. */
  lemma {:induction false} RowBound(queues: seq<seq<PendingBatch>>, ops: seq<RowOp>, fits: RowOp -> bool, key: Key,
                                    n: nat)
    requires OfflineRun(queues, ops, fits) && FitsDrawn(fits, key, Filter(ops, key)) && Covering(Filter(ops, key)) &&
      n <= |ops|
    requires key.0 != SESSIONS &&
      (key.0 == CHATS ==> Filter(ops, (SESSIONS, key.1)) == [] || UngatedOps(ops, key.1))
    ensures |RowOps(BatchOps(queues[n]), key)| <= 1
  {
    if n == 0 {
    } else {
      var batches := FreeBatches(queues, ops, fits, key, n - 1);
      FreeRowLeft(batches, fits, key, Filter(ops, key));
    }
  }

  lemma {:induction false} SignalsConcat(a: seq<RowOp>, b: seq<RowOp>, op: RowOp, key: Key)
    requires Signals(a) == Signals(b)
    ensures Signals(a + Filter([op], key)) == Signals(b + Filter([op], key))
  {
    FilterOne(op, key);
    if KeyOf(op) == key {
      SignalsSnoc(a, op);
      SignalsSnoc(b, op);
    } else {
      assert a + [] == a && b + [] == b;
    }
  }

  /** A session's queued operations have the signals of its raw ones, at most two for each run. */
  ghost predicate SignalsKept(queue: seq<seq<RowOp>>, raw: seq<RowOp>, key: Key) {
    AtMostTwo(RowOps(queue, key)) && Signals(RowOps(queue, key)) == Signals(raw)
  }

  lemma SessionWritten(queue: seq<PendingBatch>, batches: seq<PendingBatch>, op: RowOp, fits: RowOp -> bool,
                       raw: seq<RowOp>, key: Key, source: seq<RowOp>)
    requires SignalsKept(BatchOps(queue), raw, key) && key.0 == SESSIONS && FitsDrawn(fits, key, source)
    requires AllSingle(BatchOps(batches)) && CoveringFrom(RowOps(BatchOps(batches), key), source)
    requires UngatedQueue(batches, key.1)
    requires RowOps(BatchOps(batches), key) == RowOps(BatchOps(queue), key) + Filter([op], key)
    ensures SignalsKept(Squeezed(batches, fits), raw + Filter([op], key), key)
  {
    SingleBatches(batches);
    DrawnThrough(RowOps(BatchOps(batches), key), source, fits, key);
    SqueezeSession(batches, fits, key);
    SignalsConcat(RowOps(BatchOps(queue), key), raw, op, key);
  }

  lemma OfflineSessionStep(queues: seq<seq<PendingBatch>>, ops: seq<RowOp>, fits: RowOp -> bool, key: Key, n: nat)
    requires OfflineRun(queues, ops, fits) && FitsDrawn(fits, key, Filter(ops, key)) && Covering(Filter(ops, key)) &&
      n < |ops|
    requires key.0 == SESSIONS && UngatedOps(ops, key.1) && SignalsKept(BatchOps(queues[n]), Filter(ops[..n], key), key)
    ensures SignalsKept(BatchOps(queues[n + 1]), Filter(ops[..n + 1], key), key)
  {
    var batches := OfflineBatches(queues, ops, fits, key, n);
    UngatedOffline(queues, ops, fits, key, n);
    UngatedAdded(ops, n, key.1);
    SessionWritten(queues[n], batches, ops[n], fits, Filter(ops[..n], key), key, Filter(ops, key));
    FilterNext(ops, n, key);
  }

  lemma {:induction false} OfflineSignals(queues: seq<seq<PendingBatch>>, ops: seq<RowOp>, fits: RowOp -> bool,
                                          key: Key, n: nat)
    requires OfflineRun(queues, ops, fits) && FitsDrawn(fits, key, Filter(ops, key)) && Covering(Filter(ops, key)) &&
      n <= |ops|
    requires key.0 == SESSIONS && UngatedOps(ops, key.1)
    ensures SignalsKept(BatchOps(queues[n]), Filter(ops[..n], key), key)
  {
    for k := 0 to n
      invariant exists m: nat :: m == k && SignalsKept(BatchOps(queues[m]), Filter(ops[..m], key), key)
    {
      OfflineSessionStep(queues, ops, fits, key, k);
    }
  }

  /** Main result: over any offline run without a gating chat operation, a
      session has at most two queued operations for each run of one signal,
      and its sequence of signals is that of its writes. */
  lemma SessionBound(queues: seq<seq<PendingBatch>>, ops: seq<RowOp>, fits: RowOp -> bool, id: string, n: nat)
    requires OfflineRun(queues, ops, fits) && FitsDrawn(fits, (SESSIONS, id), Filter(ops, (SESSIONS, id))) &&
      Covering(Filter(ops, (SESSIONS, id))) &&
      n <= |ops|
    requires UngatedOps(ops, id)
    ensures var queued, signals := RowOps(BatchOps(queues[n]), (SESSIONS, id)),
      Signals(Filter(ops[..n], (SESSIONS, id)));
      AtMostTwo(queued) && Signals(queued) == signals && |queued| <= 2 * |signals|
  {
    OfflineSignals(queues, ops, fits, (SESSIONS, id), n);
    AtMostTwoCounts(RowOps(BatchOps(queues[n]), (SESSIONS, id)));
  }
}
