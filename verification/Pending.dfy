/** What pending operations show of a row that a state frame took away and the
    client re-seeded: the queue replays over what the frame left, then the
    re-seed of the old row comes last. */
module Pending {
  import opened Options
  import opened Rows
  import opened History
  import opened Notifications
  import opened Compaction

  /** A reader sees the same: no live row in both, or the same fields. */
  ghost predicate SameReads(a: Option<Row>, b: Option<Row>) {
    && Live(a).Some? == Live(b).Some?
    && (Live(a).Some? ==> a.value.fields == b.value.fields)
  }

  lemma SameFields(a: Row, b: Row)
    ensures a.fields == b.fields <==> forall k :: Field(a, k) == Field(b, k)
  {
    if forall k :: Field(a, k) == Field(b, k) {
      forall k ensures k in a.fields <==> k in b.fields
               ensures k in a.fields && k in b.fields ==> a.fields[k] == b.fields[k] {
        assert Field(a, k) == Field(b, k);
      }
    }
  }

  // ── any queue ─────────────────────────────────────────────────────────────

  /** Field `k` after a re-seed of `row` over the live row `p`. */
  function FilledIn(p: Row, row: Row, k: string): Option<Value>
    requires WellFormed(row)
  {
    if k in row.fields && Newer(row.clocks[k], Lookup(p.clocks, k)) then Some(row.fields[k]) else Field(p, k)
  }

  /** `before` reads like `p` after the re-seed of `row`, read off the guards:
      a tombstone buries `p` if it is newer than all of it; a live row comes
      back whole where nothing newer stands, and fills in field by field
      otherwise. */
  ghost predicate ReseedTells(before: Option<Row>, p: Option<Row>, row: Row)
    requires WellFormed(row)
  {
    if row.deleted then
      if Live(p).Some? && !Newer(SeedOp(row).hlc, MaxClock(p.value)) then SameReads(before, p) else Live(before).None?
    else match p
      case None => SameReads(before, Some(row))
      case Some(r) =>
        if r.deleted && Newer(SeedOp(row).hlc, r.delHlc) then SameReads(before, Some(row))
        else if r.deleted then Live(before).None?
        else Live(before).Some? && forall k :: Field(before.value, k) == FilledIn(r, row, k)
  }

  /** Where the re-seed brings the row back, it reads as it did. */
  lemma SeedRevives(p: Row, row: Row)
    requires WellFormed(row) && !row.deleted && p.deleted && Newer(SeedOp(row).hlc, p.delHlc)
    ensures SameReads(Some(row), Step(Some(p), SeedOp(row)))
  {
    var after := Overwrite(Revived(p), SeedOp(row));
    forall k ensures Field(after, k) == Field(row, k) {
      OverwriteAt(Revived(p), SeedOp(row), k);
    }
    SameFields(row, after);
  }

  lemma SeedFillsIn(p: Row, row: Row)
    requires WellFormed(row) && !row.deleted && !p.deleted
    ensures var after := Step(Some(p), SeedOp(row));
      after.Some? && !after.value.deleted && forall k :: Field(after.value, k) == FilledIn(p, row, k)
  {
    forall k ensures Field(Overwrite(p, SeedOp(row)), k) == FilledIn(p, row, k) {
      OverwriteAt(p, SeedOp(row), k);
    }
  }

  /** Exactly when a re-seeded row reads as before, whatever is pending. */
  lemma ReseedTellsIff(before: Option<Row>, p: Option<Row>, row: Row)
    requires WellFormed(row)
    ensures SameReads(before, Step(p, SeedOp(row))) <==> ReseedTells(before, p, row)
  {
    if row.deleted {
    } else if p.None? {
      SeedRestores(row);
    } else if p.value.deleted {
      if Newer(SeedOp(row).hlc, p.value.delHlc) {
        SeedRevives(p.value, row);
      }
    } else {
      SeedFillsIn(p.value, row);
      if Live(before).Some? {
        SameFields(before.value, Step(p, SeedOp(row)).value);
      }
    }
  }

  // ── queues without deletes ────────────────────────────────────────────────

  ghost predicate NoDeletes(ops: seq<RowOp>) {
    forall i :: 0 <= i < |ops| ==> ops[i].op != Delete
  }

  function WriteAt(op: RowOp, k: string): Option<Write> {
    if k in Writes(op) then Some(Write(Writes(op)[k], ClockFor(op, k))) else None
  }

  /** The newer of two writes of a field; a tie keeps the first. */
  function NewerWrite(a: Option<Write>, b: Option<Write>): Option<Write> {
    if a.Some? && !(b.Some? && b.value.clock > a.value.clock) then a else b
  }

  /** The newest write of field `k` among the operations. */
  function NewestAt(ops: seq<RowOp>, k: string): Option<Write>
    decreases |ops|
  {
    if ops == [] then None else NewerWrite(WriteAt(ops[0], k), NewestAt(ops[1..], k))
  }

  lemma {:induction false} NewestOfBoth(a: seq<RowOp>, b: seq<RowOp>, k: string)
    ensures NewestAt(a + b, k) == NewerWrite(NewestAt(a, k), NewestAt(b, k))
    decreases |a|
  {
    if a == [] {
      assert a + b == b;
    } else {
      assert (a + b)[1..] == a[1..] + b;
      NewestOfBoth(a[1..], b, k);
    }
  }

  /** `w` is newer than what the row has of the field. */
  predicate IsNewer(row: Row, w: Option<Write>, k: string) {
    w.Some? && Newer(w.value.clock, Lookup(row.clocks, k))
  }

  /** Field `k` of a live row once its newest pending write is `w`. */
  function ShownOver(row: Row, w: Option<Write>, k: string): Option<Value> {
    if IsNewer(row, w, k) then NonNull(Some(w.value.value)) else Field(row, k)
  }

  function ClockOver(row: Row, w: Option<Write>, k: string): Option<Clock> {
    if IsNewer(row, w, k) then Some(w.value.clock) else Lookup(row.clocks, k)
  }

  lemma NewestShownNext(row: Row, op: RowOp, w: Option<Write>, k: string)
    ensures ShownOver(Overwrite(row, op), w, k) == ShownOver(row, NewerWrite(WriteAt(op, k), w), k)
    ensures ClockOver(Overwrite(row, op), w, k) == ClockOver(row, NewerWrite(WriteAt(op, k), w), k)
  {
    OverwriteAt(row, op, k);
  }

  /** A live row shows of each field the newest pending write, if that is newer than its own. */
  lemma {:induction false} NewestShown(row: Row, ops: seq<RowOp>, k: string)
    requires !row.deleted && NoDeletes(ops)
    ensures var after, w := Replay(Some(row), ops), NewestAt(ops, k);
      && after.Some? && !after.value.deleted
      && Field(after.value, k) == ShownOver(row, w, k) && Lookup(after.value.clocks, k) == ClockOver(row, w, k)
    decreases |ops|
  {
    if ops == [] {
    } else {
      assert ops[0].op != Delete && forall i :: 0 <= i < |ops[1..]| ==> ops[1..][i] == ops[i + 1];
      NewestShownNext(row, ops[0], NewestAt(ops[1..], k), k);
      NewestShown(Overwrite(row, ops[0]), ops[1..], k);
    }
  }

  /** How many updates lead the queue. */
  function Leading(ops: seq<RowOp>): (n: nat)
    ensures n <= |ops|
    decreases |ops|
  {
    if ops != [] && ops[0].op == Update then 1 + Leading(ops[1..]) else 0
  }

  function LeadingUpdates(ops: seq<RowOp>): seq<RowOp> {
    ops[..Leading(ops)]
  }

  /** The operations from the first one on that is not an update. */
  function SkipUpdates(ops: seq<RowOp>): seq<RowOp> {
    ops[Leading(ops)..]
  }

  /** Updates find no row where the frame took it away. */
  lemma {:induction false} UpdatesFindNothing(ops: seq<RowOp>)
    ensures Replay(None, ops) == Replay(None, SkipUpdates(ops))
    ensures SkipUpdates(ops) != [] ==> SkipUpdates(ops)[0].op != Update
    decreases |ops|
  {
    if ops != [] && ops[0].op == Update {
      assert Step(None, ops[0]) == None;
      UpdatesFindNothing(ops[1..]);
      assert SkipUpdates(ops) == SkipUpdates(ops[1..]);
    } else {
      assert SkipUpdates(ops) == ops;
    }
  }

  /** What shows of field `k` after the frame and the re-seed, if `w` is its
      newest write behind the leading updates: that write, unless the old row
      shows a newer value. The clock of a field the old row had deleted is gone. */
  function ShownAfter(row: Row, w: Option<Write>, k: string): Option<Value> {
    if w.Some? && (k in row.fields && k in row.clocks ==> w.value.clock >= row.clocks[k]) then
      NonNull(Some(w.value.value))
    else Field(row, k)
  }

  /** An upsert of a missing row is one of a live row without fields. */
  lemma {:induction false} FromBlank(ops: seq<RowOp>)
    requires ops != [] && ops[0].op == Upsert
    ensures Replay(None, ops) == Replay(Some(BlankRow(ops[0])), ops)
  {
  }

  lemma SeedOverQueue(p: Row, row: Row, blank: Row, w: Option<Write>, k: string)
    requires WellFormed(row) && !row.deleted && !p.deleted && blank.fields == map[] && blank.clocks == map[]
    requires Field(p, k) == ShownOver(blank, w, k) && Lookup(p.clocks, k) == ClockOver(blank, w, k)
    ensures Field(Overwrite(p, SeedOp(row)), k) == ShownAfter(row, w, k)
  {
    OverwriteAt(p, SeedOp(row), k);
  }

  lemma NoDeletesBehind(ops: seq<RowOp>)
    requires NoDeletes(ops)
    ensures NoDeletes(SkipUpdates(ops))
  {
    var n := Leading(ops);
    assert forall i :: 0 <= i < |ops| - n ==> ops[n..][i] == ops[n + i];
  }

  lemma ReseededShows(row: Row, ops: seq<RowOp>, k: string)
    requires WellFormed(row) && !row.deleted && NoDeletes(ops)
    ensures var after := Step(Replay(None, ops), SeedOp(row));
      after.Some? && !after.value.deleted && Field(after.value, k) == ShownAfter(row, NewestAt(SkipUpdates(ops), k), k)
  {
    var rest := SkipUpdates(ops);
    UpdatesFindNothing(ops);
    if rest == [] {
      SeedRestores(row);
    } else {
      NoDeletesBehind(ops);
      assert rest[0].op == Upsert;
      FromBlank(rest);
      NewestShown(BlankRow(rest[0]), rest, k);
      SeedOverQueue(Replay(None, rest).value, row, BlankRow(rest[0]), NewestAt(rest, k), k);
    }
  }

  /** With `u` the newest of the leading updates and `w` the newest write
      behind them: `u` is what the row shows of the field before the frame. */
  predicate LeadingShows(row: Row, u: Option<Write>, w: Option<Write>, k: string) {
    IsNewer(row, u, k) && (w.Some? ==> w.value.clock <= u.value.clock)
  }

  /** A pending write that did not show before the frame shows after it: one
      as old as the field's clock, or one no newer than the clock of a field
      the old row had deleted. */
  predicate Resurfaces(row: Row, w: Option<Write>, k: string) {
    w.Some? && k in row.clocks &&
    if k in row.fields then w.value.clock == row.clocks[k] && NonNull(Some(w.value.value)) != Some(row.fields[k])
    else w.value.clock <= row.clocks[k] && w.value.value != Null
  }

  /** When field `k` shows as before: a leading update that showed wrote what
      shows anyway, and otherwise no old pending write resurfaces. */
  predicate FieldSurvives(row: Row, u: Option<Write>, w: Option<Write>, k: string) {
    if LeadingShows(row, u, w, k) then NonNull(Some(u.value.value)) == ShownAfter(row, w, k)
    else !Resurfaces(row, w, k)
  }

  lemma FieldCases(row: Row, u: Option<Write>, w: Option<Write>, k: string)
    requires WellFormed(row)
    ensures ShownOver(row, NewerWrite(u, w), k) == ShownAfter(row, w, k) <==> FieldSurvives(row, u, w, k)
    ensures ShownOver(row, w, k) == ShownAfter(row, w, k) <==> !Resurfaces(row, w, k)
  {
  }

  /** Every field of the row survives the frame. */
  ghost predicate WritesSurvive(row: Row, ops: seq<RowOp>) {
    forall k :: FieldSurvives(row, NewestAt(LeadingUpdates(ops), k), NewestAt(SkipUpdates(ops), k), k)
  }

  ghost predicate NoneResurfaces(row: Row, ops: seq<RowOp>) {
    forall k :: !Resurfaces(row, NewestAt(SkipUpdates(ops), k), k)
  }

  /** What shows of one field before the frame, with all the queue and
      without its leading updates, and after it. */
  lemma ThreeShown(row: Row, ops: seq<RowOp>, before: Option<Row>, kept: Option<Row>, after: Option<Row>, k: string)
    requires WellFormed(row) && !row.deleted && NoDeletes(ops) && before == Replay(Some(row), ops)
    requires kept == Replay(Some(row), SkipUpdates(ops)) && after == Step(Replay(None, ops), SeedOp(row))
    ensures var u, w := NewestAt(LeadingUpdates(ops), k), NewestAt(SkipUpdates(ops), k);
      && Live(before).Some? && Field(before.value, k) == ShownOver(row, NewerWrite(u, w), k)
      && Live(kept).Some? && Field(kept.value, k) == ShownOver(row, w, k)
      && Live(after).Some? && Field(after.value, k) == ShownAfter(row, w, k)
  {
    assert ops == LeadingUpdates(ops) + SkipUpdates(ops);
    NewestOfBoth(LeadingUpdates(ops), SkipUpdates(ops), k);
    NewestShown(row, ops, k);
    NoDeletesBehind(ops);
    NewestShown(row, SkipUpdates(ops), k);
    ReseededShows(row, ops, k);
  }

  /** Pending writes of any clocks on a live row that the frame took away:
      when nothing changes for a reader, and when only the leading updates
      are gone. */
  lemma WritesSurviveIff(row: Row, ops: seq<RowOp>, before: Option<Row>, kept: Option<Row>, after: Option<Row>)
    requires WellFormed(row) && !row.deleted && NoDeletes(ops) && before == Replay(Some(row), ops)
    requires kept == Replay(Some(row), SkipUpdates(ops)) && after == Step(Replay(None, ops), SeedOp(row))
    ensures Live(before).Some? && Live(kept).Some? && Live(after).Some?
    ensures before.value.fields == after.value.fields <==> WritesSurvive(row, ops)
    ensures kept.value.fields == after.value.fields <==> NoneResurfaces(row, ops)
  {
    ThreeShown(row, ops, before, kept, after, "");
    forall k
      ensures var u, w := NewestAt(LeadingUpdates(ops), k), NewestAt(SkipUpdates(ops), k);
        && (Field(before.value, k) == Field(after.value, k) <==> FieldSurvives(row, u, w, k))
        && (Field(kept.value, k) == Field(after.value, k) <==> !Resurfaces(row, w, k))
    {
      ThreeShown(row, ops, before, kept, after, k);
      FieldCases(row, NewestAt(LeadingUpdates(ops), k), NewestAt(SkipUpdates(ops), k), k);
    }
    SameFields(before.value, after.value);
    SameFields(kept.value, after.value);
  }

  lemma OneUpsert(upsert: RowOp, k: string)
    requires upsert.op == Upsert
    ensures SkipUpdates([upsert]) == [upsert] && LeadingUpdates([upsert]) == []
    ensures NewestAt([upsert], k) == WriteAt(upsert, k) && NewestAt([], k) == None
  {
    assert [upsert][1..] == [];
  }

  /** A counterexample: the re-seed drops the clock of a deleted field, so a
      pending upsert that the deletion had outdated shows its value again. */
  lemma {:induction false} DeletedFieldResurfaces(row: Row, upsert: RowOp, k: string)
    requires WellFormed(row) && !row.deleted && upsert.op == Upsert
    requires k !in row.fields && k in row.clocks && row.clocks[k] == 10
    requires k in Writes(upsert) && Writes(upsert)[k] != Null && ClockFor(upsert, k) == 5
    ensures var before, after := Replay(Some(row), [upsert]), Step(Replay(None, [upsert]), SeedOp(row));
      Live(before).Some? && Live(after).Some? && k !in before.value.fields && k in after.value.fields
  {
    var ops := [upsert];
    OneUpsert(upsert, k);
    ThreeShown(row, ops, Replay(Some(row), ops), Replay(Some(row), SkipUpdates(ops)),
      Step(Replay(None, ops), SeedOp(row)), k);
  }

  // ── queues with a delete that buries the row ──────────────────────────────

  /** The operation and all its writes are older than `c`. */
  predicate OpOlder(op: RowOp, c: Clock) {
    op.hlc < c && forall k :: k in Writes(op) ==> ClockFor(op, k) < c
  }

  lemma StepOlder(row: Option<Row>, op: RowOp, c: Clock)
    requires OlderThan(row, c) && OpOlder(op, c)
    ensures OlderThan(Step(row, op), c)
  {
    if op.op != Delete && Step(row, op).Some? && Step(row, op) != row {
      var base := match row
        case None => BlankRow(op)
        case Some(r) => if r.deleted then Revived(r) else r;
      assert forall d :: d in AllClocks(base) ==> row.Some? && d in AllClocks(row.value);
      WrittenClocks(base, op, c - 1);
    }
  }

  lemma {:induction false} ReplayOlder(row: Option<Row>, ops: seq<RowOp>, c: Clock)
    requires OlderThan(row, c) && forall i :: 0 <= i < |ops| ==> OpOlder(ops[i], c)
    ensures OlderThan(Replay(row, ops), c)
    decreases |ops|
  {
    if ops == [] {
    } else {
      assert OpOlder(ops[0], c) && forall i :: 0 <= i < |ops[1..]| ==> ops[1..][i] == ops[i + 1];
      StepOlder(row, ops[0], c);
      ReplayOlder(Step(row, ops[0]), ops[1..], c);
    }
  }

  /** Rows no later operation can tell apart. */
  ghost predicate SameState(a: Option<Row>, b: Option<Row>) {
    && a.Some? && b.Some? && a.value.deleted == b.value.deleted && a.value.delHlc == b.value.delHlc
    && a.value.fields == b.value.fields && a.value.clocks == b.value.clocks
  }

  lemma {:induction false} OverwriteSameState(a: Row, b: Row, op: RowOp)
    requires SameState(Some(a), Some(b))
    ensures SameState(Some(Overwrite(a, op)), Some(Overwrite(b, op)))
  {
    var x, y := Overwrite(a, op).(kind := b.kind, id := b.id, rev := b.rev), Overwrite(b, op);
    forall k ensures SameField(x, y, k) {
      OverwriteAt(a, op, k);
      OverwriteAt(b, op, k);
    }
    EqualRows(x, y);
  }

  lemma {:induction false} StepSameState(a: Option<Row>, b: Option<Row>, op: RowOp)
    requires SameState(a, b)
    ensures SameState(Step(a, op), Step(b, op))
  {
    assert AllClocks(a.value) == AllClocks(b.value);
    OverwriteSameState(a.value, b.value, op);
    OverwriteSameState(Revived(a.value), Revived(b.value), op);
  }

  lemma {:induction false} ReplaySameState(a: Option<Row>, b: Option<Row>, ops: seq<RowOp>)
    requires SameState(a, b)
    ensures SameState(Replay(a, ops), Replay(b, ops))
    decreases |ops|
  {
    if ops == [] {
    } else {
      StepSameState(a, b, ops[0]);
      ReplaySameState(Step(a, ops[0]), Step(b, ops[0]), ops[1..]);
    }
  }

  /** A newest delete leaves the same tombstone of whatever was there. */
  lemma Buried(row: Option<Row>, gone: RowOp)
    requires WellFormedRow(row) && OlderThan(row, gone.hlc) && gone.op == Delete
    ensures SameState(Step(row, gone), Some(Tombstone(gone.kind, gone.id, gone.hlc)))
  {
    if row.Some? && row.value.deleted && row.value.delHlc.Some? {
      assert row.value.delHlc.value in AllClocks(row.value);
    }
  }

  /** Behind such a delete the queue shows the same over either row. */
  lemma {:induction false} BuriedAlike(row: Option<Row>, base: Option<Row>, x: seq<RowOp>, gone: RowOp, y: seq<RowOp>)
    requires WellFormedRow(row) && WellFormedRow(base) && OlderThan(row, gone.hlc) && OlderThan(base, gone.hlc)
    requires gone.op == Delete && forall i :: 0 <= i < |x| ==> OpOlder(x[i], gone.hlc)
    ensures SameState(Replay(row, x + ([gone] + y)), Replay(base, x + ([gone] + y)))
    ensures DeletedSince(Replay(row, x + ([gone] + y)), gone.hlc)
  {
    var tomb := Some(Tombstone(gone.kind, gone.id, gone.hlc));
    forall start | start == row || start == base
      ensures SameState(Replay(start, x + ([gone] + y)), Replay(tomb, y))
    {
      ReplayOlder(start, x, gone.hlc);
      ReplayKeepsWellFormed(start, x);
      Buried(Replay(start, x), gone);
      ReplayConcat(start, x, [gone] + y);
      ReplayConcat(Replay(start, x), [gone], y);
      ReplayPair(Replay(start, x), gone, gone);
      ReplaySameState(Step(Replay(start, x), gone), tomb, y);
    }
    StaysDeleted(tomb, y, gone.hlc);
  }

  /** The row carries a tombstone clock of at least `c`. */
  ghost predicate DeletedSince(row: Option<Row>, c: Clock) {
    row.Some? && row.value.delHlc.Some? && row.value.delHlc.value >= c
  }

  lemma {:induction false} StaysDeleted(row: Option<Row>, ops: seq<RowOp>, c: Clock)
    requires DeletedSince(row, c)
    ensures DeletedSince(Replay(row, ops), c)
    decreases |ops|
  {
    if ops == [] {
    } else {
      assert row.value.delHlc.value in AllClocks(row.value);
      StaysDeleted(Step(row, ops[0]), ops[1..], c);
    }
  }

  /** A pending delete newer than the row and all before it: the re-seed
      brings back the old fields whose clocks the revival does not reach. The
      row reads as before if and only if none of them differs. */
  lemma BuriedSurvivesIff(row: Row, base: Option<Row>, x: seq<RowOp>, gone: RowOp, y: seq<RowOp>)
    requires WellFormed(row) && !row.deleted && WellFormedRow(base) && gone.op == Delete
    requires SeedOp(row).hlc < gone.hlc && OlderThan(base, gone.hlc)
    requires forall i :: 0 <= i < |x| ==> OpOlder(x[i], gone.hlc)
    ensures var ops := x + ([gone] + y);
      var before, after := Replay(Some(row), ops), Step(Replay(base, ops), SeedOp(row));
      SameReads(before, after) <==>
        (Live(before).Some? ==> forall k :: k in row.fields && Newer(row.clocks[k], Lookup(before.value.clocks, k)) ==>
          Field(before.value, k) == Some(row.fields[k]))
  {
    var ops := x + ([gone] + y);
    var before, p := Replay(Some(row), ops), Replay(base, ops);
    BuriedAlike(Some(row), base, x, gone, y);
    ReseedTellsIff(before, p, row);
    if Live(before).Some? {
      forall k ensures Field(before.value, k) == FilledIn(p.value, row, k) <==>
        (k in row.fields && Newer(row.clocks[k], Lookup(before.value.clocks, k)) ==>
          Field(before.value, k) == Some(row.fields[k]))
      {
      }
    }
  }

  /** A delete and a revival with new writes: every old field must be among them. */
  lemma RevivalSurvivesIff(row: Row, base: Option<Row>, gone: RowOp, back: RowOp)
    requires WellFormed(row) && !row.deleted && WellFormedRow(base) && gone.op == Delete && back.op == Upsert
    requires SeedOp(row).hlc < gone.hlc < back.hlc && OlderThan(base, gone.hlc)
    requires forall k, c :: k in Writes(back) && c in AllClocks(row) ==> c < ClockFor(back, k)
    ensures var before, after := Replay(Some(row), [gone, back]), Step(Replay(base, [gone, back]), SeedOp(row));
      && Live(before).Some?
      && (SameReads(before, after) <==> forall k :: k in row.fields ==> k in Writes(back))
  {
    assert [] + ([gone] + [back]) == [gone, back];
    BuriedSurvivesIff(row, base, [], gone, [back]);
    ReplayPair(Some(row), gone, back);
    var tomb := Step(Some(row), gone).value;
    Buried(Some(row), gone);
    forall k | k in row.fields
      ensures k in Writes(back) <==> (Newer(row.clocks[k], Lookup(Overwrite(Revived(tomb), back).clocks, k)) ==>
        Field(Overwrite(Revived(tomb), back), k) == Some(row.fields[k]))
    {
      OverwriteAt(Revived(tomb), back, k);
      FieldClockCounts(row, k);
    }
  }
}
