/** What a row keeps over any run of operations: its high-water clock, the
    operations it has already absorbed, and what a re-seed restores. */
module History {
  import opened Options
  import opened Rows

  /** What every merge keeps: a tombstone is bare, every field has a clock
      and no field holds a null. */
  ghost predicate WellFormed(row: Row) {
    && (row.deleted ==> row.fields == map[] && row.clocks == map[])
    && row.fields.Keys <= row.clocks.Keys
    && forall k :: k in row.fields ==> row.fields[k] != Null
  }

  ghost predicate WellFormedRow(row: Option<Row>) {
    row.Some? ==> WellFormed(row.value)
  }

  lemma StepKeepsWellFormed(row: Option<Row>, op: RowOp)
    requires WellFormedRow(row)
    ensures WellFormedRow(Step(row, op))
  {
    if op.op != Delete && Step(row, op).Some? {
      var after := Step(row, op).value;
      forall k | k in after.fields
        ensures k in after.clocks && after.fields[k] != Null
      {
        var base := match row
          case None => BlankRow(op)
          case Some(r) => if r.deleted then Revived(r) else r;
        OverwriteAt(base, op, k);
      }
    }
  }

  lemma {:induction false} ReplayKeepsWellFormed(row: Option<Row>, ops: seq<RowOp>)
    requires WellFormedRow(row)
    ensures WellFormedRow(Replay(row, ops))
    decreases |ops|
  {
    if ops == [] {
    } else {
      StepKeepsWellFormed(row, ops[0]);
      ReplayKeepsWellFormed(Step(row, ops[0]), ops[1..]);
    }
  }

  // ── the high-water mark ───────────────────────────────────────────────────

  /** Some clock on the row is at least `c`. */
  ghost predicate Reached(row: Option<Row>, c: Clock) {
    row.Some? && exists d :: d in AllClocks(row.value) && d >= c
  }

  lemma ReachedIffMax(row: Row, c: Clock)
    ensures Reached(Some(row), c) <==> MaxClock(row).Some? && MaxClock(row).value >= c
  {
  }

  lemma FieldClockCounts(row: Row, k: string)
    requires k in row.clocks
    ensures row.clocks[k] in AllClocks(row)
  {
  }

  /** The newest clock on a row never falls, whatever operation arrives. */
  lemma HighWaterNeverFalls(row: Option<Row>, op: RowOp, c: Clock)
    requires WellFormedRow(row) && Reached(row, c)
    ensures Reached(Step(row, op), c)
  {
    var r, after := row.value, Step(row, op).value;
    var d :| d in AllClocks(r) && d >= c;
    if op.op == Delete {
      if after.deleted && !r.deleted {
        assert op.hlc in AllClocks(after);
        assert MaxClock(r).Some? && d <= MaxClock(r).value < op.hlc;
      } else if after != r {
        assert op.hlc in AllClocks(after);
      }
    } else if r.delHlc == Some(d) {
      assert d in AllClocks(after);
    } else {
      var k :| k in r.clocks && r.clocks[k] == d;
      OverwriteAt(r, op, k);
      FieldClockCounts(after, k);
    }
  }

  lemma {:induction false} HighWaterOverRuns(row: Option<Row>, ops: seq<RowOp>, c: Clock)
    requires WellFormedRow(row) && Reached(row, c)
    ensures Reached(Replay(row, ops), c)
    decreases |ops|
  {
    if ops == [] {
    } else {
      HighWaterNeverFalls(row, ops[0], c);
      StepKeepsWellFormed(row, ops[0]);
      HighWaterOverRuns(Step(row, ops[0]), ops[1..], c);
    }
  }

  /** A delete, once applied, stays absorbed: whatever happens next, even a
      revival, applying it again changes nothing. */
  lemma DeleteAbsorbed(row: Option<Row>, op: RowOp, later: seq<RowOp>)
    requires WellFormedRow(row) && op.op == Delete
    ensures var now := Replay(Step(row, op), later); Step(now, op) == now
  {
    var first := Step(row, op);
    assert Reached(first, op.hlc) by {
      if first != row {
        assert op.hlc in AllClocks(first.value);
      } else if row.value.deleted {
        assert row.value.delHlc.value in AllClocks(row.value);
      } else {
        ReachedIffMax(row.value, op.hlc);
      }
    }
    StepKeepsWellFormed(row, op);
    HighWaterOverRuns(first, later, op.hlc);
    ReplayKeepsWellFormed(first, later);
    ReachedIffMax(Replay(first, later).value, op.hlc);
  }

  /** No operation of the run turns a tombstone into a live row. */
  ghost predicate NoRevival(row: Option<Row>, ops: seq<RowOp>)
    decreases |ops|
  {
    ops != [] ==>
      && !(row.Some? && row.value.deleted && !Step(row, ops[0]).value.deleted)
      && NoRevival(Step(row, ops[0]), ops[1..])
  }

  /** Every write of `op` has a field clock at least as new on the row. */
  ghost predicate Dominates(row: Row, op: RowOp) {
    forall k :: k in Writes(op) ==> k in row.clocks && row.clocks[k] >= ClockFor(op, k)
  }

  /** The row has absorbed an upsert or update: applying it again changes nothing. */
  ghost predicate Absorbed(row: Option<Row>, op: RowOp) {
    && row.Some?
    && (!row.value.deleted ==> Dominates(row.value, op) && (op.op == Upsert ==> Reached(row, op.hlc)))
    && (row.value.deleted ==> op.op == Update || (row.value.delHlc.Some? && row.value.delHlc.value >= op.hlc))
  }

  /** Upserts whose own clock is on one of their fields, and updates that
      found a live row. Every operation the device writes itself is one. */
  ghost predicate Lands(row: Option<Row>, op: RowOp) {
    match op.op
    case Delete => true
    case Upsert => exists k :: k in Writes(op) && ClockFor(op, k) == op.hlc
    case Update => row.Some? && !row.value.deleted
  }

  lemma AbsorbedMeansNoOp(row: Option<Row>, op: RowOp)
    requires op.op != Delete && Absorbed(row, op)
    ensures Step(row, op) == row
  {
    ChangedIffDifferent(row, op);
  }

  lemma LandingAbsorbs(row: Option<Row>, op: RowOp)
    requires op.op != Delete && Lands(row, op)
    ensures Absorbed(Step(row, op), op)
  {
    var after := Step(row, op).value;
    var base := match row
      case None => BlankRow(op)
      case Some(r) => if r.deleted then Revived(r) else r;
    forall k
      ensures Lookup(Overwrite(base, op).clocks, k)
           == if Wins(base, op, k) then Some(ClockFor(op, k)) else Lookup(base.clocks, k)
    {
      OverwriteAt(base, op, k);
    }
    if op.op == Upsert && !after.deleted {
      var k :| k in Writes(op) && ClockFor(op, k) == op.hlc;
      assert Lookup(after.clocks, k).Some?;
      FieldClockCounts(after, k);
    }
  }

  lemma AbsorbedStays(row: Option<Row>, op: RowOp, next: RowOp)
    requires op.op != Delete && WellFormedRow(row) && Absorbed(row, op)
    requires !(row.value.deleted && !Step(row, next).value.deleted)
    ensures Absorbed(Step(row, next), op)
  {
    var r, after := row.value, Step(row, next).value;
    if !r.deleted && !after.deleted {
      forall k | k in Writes(op)
        ensures k in after.clocks && after.clocks[k] >= ClockFor(op, k)
      {
        OverwriteAt(r, next, k);
      }
      if op.op == Upsert {
        HighWaterNeverFalls(row, next, op.hlc);
      }
    } else if !r.deleted && op.op == Upsert {
      ReachedIffMax(r, op.hlc);
    }
  }

  lemma {:induction false} AbsorbedOverRuns(row: Option<Row>, op: RowOp, later: seq<RowOp>)
    requires op.op != Delete && WellFormedRow(row) && Absorbed(row, op) && NoRevival(row, later)
    ensures Absorbed(Replay(row, later), op)
    decreases |later|
  {
    if later == [] {
    } else {
      AbsorbedStays(row, op, later[0]);
      StepKeepsWellFormed(row, later[0]);
      AbsorbedOverRuns(Step(row, later[0]), op, later[1..]);
    }
  }

  /** An operation that landed stays absorbed as long as nothing revives the row. */
  lemma ReplayedOpIsNoOp(row: Option<Row>, op: RowOp, later: seq<RowOp>)
    requires WellFormedRow(row) && Lands(row, op)
    requires op.op == Delete || NoRevival(Step(row, op), later)
    ensures var now := Replay(Step(row, op), later); Step(now, op) == now
  {
    if op.op == Delete {
      DeleteAbsorbed(row, op, later);
    } else {
      LandingAbsorbs(row, op);
      StepKeepsWellFormed(row, op);
      AbsorbedOverRuns(Step(row, op), op, later);
      AbsorbedMeansNoOp(Replay(Step(row, op), later), op);
    }
  }

  /** The condition of `ReplayedOpIsNoOp` at every position of a queue. */
  ghost predicate Repushable(row: Option<Row>, ops: seq<RowOp>)
    decreases |ops|
  {
    ops != [] ==>
      var next := Step(row, ops[0]);
      && Lands(row, ops[0])
      && (ops[0].op == Delete || NoRevival(next, ops[1..]))
      && Repushable(next, ops[1..])
  }

  lemma {:induction false} SuffixRepushed(row: Option<Row>, ops: seq<RowOp>, end: Option<Row>)
    requires WellFormedRow(row) && Repushable(row, ops) && end == Replay(row, ops)
    ensures Replay(end, ops) == end
    decreases |ops|
  {
    if ops == [] {
    } else {
      ReplayedOpIsNoOp(row, ops[0], ops[1..]);
      StepKeepsWellFormed(row, ops[0]);
      SuffixRepushed(Step(row, ops[0]), ops[1..], end);
    }
  }

  /** Re-pushing a whole queue after a reconnect changes no row, if every
      operation landed and nothing later in the queue revived the row. */
  lemma RepushIsIdempotent(row: Option<Row>, ops: seq<RowOp>)
    requires WellFormedRow(row) && Repushable(row, ops)
    ensures Replay(Replay(row, ops), ops) == Replay(row, ops)
  {
    SuffixRepushed(row, ops, Replay(row, ops));
  }

  // ── exactly when a re-push changes nothing ────────────────────────────────

  /** The merge's own guards leave the row as it is. */
  ghost predicate Inert(row: Option<Row>, op: RowOp) {
    match row
    case None => op.op == Update
    case Some(r) =>
      if op.op == Delete then !Newer(op.hlc, if r.deleted then r.delHlc else MaxClock(r))
      else if r.deleted then op.op == Update || !Newer(op.hlc, r.delHlc)
      else Dominates(r, op)
  }

  /** On any row, missing, live or tombstoned, an operation of any kind is a
      no-op exactly when the merge's guards reject all of it. */
  lemma ReapplyNoOpIff(row: Option<Row>, op: RowOp)
    ensures Step(row, op) == row <==> Inert(row, op)
  {
    ChangedIffDifferent(row, op);
  }

  /** The clocks of `a` cover those of `b`. */
  ghost predicate Covers(a: map<string, Clock>, b: map<string, Clock>) {
    forall k :: k in b ==> k in a && a[k] >= b[k]
  }

  /** `a` is a later state of the row than `b`: it exists where `b` does not,
      or was deleted later, or was revived since, or has newer field clocks. */
  ghost predicate LaterState(a: Option<Row>, b: Option<Row>) {
    match (a, b)
    case (None, _) => false
    case (Some(x), None) => true
    case (Some(x), Some(y)) =>
      || (x.delHlc.Some? && Newer(x.delHlc.value, y.delHlc))
      || (x.delHlc == y.delHlc && !x.deleted && y.deleted)
      || (x.delHlc == y.delHlc && x.deleted == y.deleted && Covers(x.clocks, y.clocks) && x.clocks != y.clocks)
  }

  lemma ClocksAntisymmetric(a: map<string, Clock>, b: map<string, Clock>)
    requires Covers(a, b) && Covers(b, a)
    ensures a == b
  {
    assert forall k :: k in a <==> k in b;
  }

  lemma LaterTransitive(a: Option<Row>, b: Option<Row>, c: Option<Row>)
    requires LaterState(a, b) && LaterState(b, c)
    ensures LaterState(a, c)
  {
    if c.Some? && a.value.clocks == c.value.clocks && Covers(a.value.clocks, b.value.clocks) &&
      Covers(b.value.clocks, c.value.clocks) {
      ClocksAntisymmetric(a.value.clocks, b.value.clocks);
    }
  }

  /** An operation that changes the row leaves a later state. */
  lemma StepIsLater(row: Option<Row>, op: RowOp)
    requires Step(row, op) != row
    ensures LaterState(Step(row, op), row)
  {
    if row.Some? && !row.value.deleted && op.op != Delete {
      var r, o := row.value, Overwrite(row.value, op);
      ChangedIffDifferent(row, op);
      var k :| k in Writes(op) && Wins(r, op, k);
      assert o.clocks[k] == ClockFor(op, k) && Lookup(r.clocks, k) != Lookup(o.clocks, k);
      assert Covers(o.clocks, r.clocks);
    } else if row.Some? && !row.value.deleted {
      assert row.value.delHlc.Some? ==> row.value.delHlc.value in AllClocks(row.value);
    }
  }

  /** A run ends where it began, or later. */
  lemma {:induction false} ReplayIsLater(row: Option<Row>, ops: seq<RowOp>)
    ensures Replay(row, ops) == row || LaterState(Replay(row, ops), row)
    decreases |ops|
  {
    if ops == [] {
    } else {
      var next := Step(row, ops[0]);
      ReplayIsLater(next, ops[1..]);
      if next != row {
        StepIsLater(row, ops[0]);
        if Replay(next, ops[1..]) != next {
          LaterTransitive(Replay(next, ops[1..]), next, row);
        }
      }
    }
  }

  /** Applying a list of operations changes nothing if and only if each of
      them alone changes nothing: changes never cancel out. */
  lemma {:induction false} ReplayNoOpIff(row: Option<Row>, ops: seq<RowOp>)
    ensures Replay(row, ops) == row <==> forall i :: 0 <= i < |ops| ==> Inert(row, ops[i])
    decreases |ops|
  {
    if ops == [] {
    } else {
      var next, rest := Step(row, ops[0]), ops[1..];
      ReapplyNoOpIff(row, ops[0]);
      if next == row {
        ReplayNoOpIff(row, rest);
        assert forall i :: 0 < i < |ops| ==> ops[i] == rest[i - 1];
        assert forall i :: 0 <= i < |rest| ==> rest[i] == ops[i + 1];
      } else {
        StepIsLater(row, ops[0]);
        ReplayIsLater(next, rest);
        if Replay(next, rest) != next {
          LaterTransitive(Replay(next, rest), next, row);
        }
      }
    }
  }

  /** Main result on re-pushes: pushing a whole queue again is a no-op if and
      only if the row it left rejects every one of its operations. */
  lemma RepushIdempotentIff(row: Option<Row>, ops: seq<RowOp>)
    ensures var end := Replay(row, ops);
      Replay(end, ops) == end <==> forall i :: 0 <= i < |ops| ==> Inert(end, ops[i])
  {
    ReplayNoOpIff(Replay(row, ops), ops);
  }

  /** Without revival a re-push can still change the row: an update that found
      no row lands once another device has created it. */
  lemma LateUpdateLands(update: RowOp, other: RowOp, k: string)
    requires update.op == Update && other.op == Upsert && k in Writes(update)
    requires k !in Writes(other) || ClockFor(other, k) < ClockFor(update, k)
    ensures NoRevival(Step(None, update), [other])
    ensures var now := Replay(Step(None, update), [other]); Step(now, update) != now
  {
    assert Step(None, update) == None && [other][1..] == [];
    var now := Step(None, other);
    assert Replay(Step(None, other), []) == now;
    OverwriteAt(BlankRow(other), other, k);
    ReapplyNoOpIff(now, update);
  }

  /** Nor is landing implied for an upsert: one without a field under its own
      clock is buried by an older delete, and revives the row when re-pushed. */
  lemma BuriedUpsertRevives(upsert: RowOp, gone: RowOp)
    requires upsert.op == Upsert && gone.op == Delete && gone.hlc < upsert.hlc
    requires forall k :: k in Writes(upsert) ==> ClockFor(upsert, k) < gone.hlc
    ensures NoRevival(Step(None, upsert), [gone])
    ensures var now := Replay(Step(None, upsert), [gone]); Step(now, upsert) != now
  {
    assert [gone][1..] == [];
    var first := Step(None, upsert);
    var now := Step(first, gone);
    assert Replay(now, []) == now;
    forall c | c in AllClocks(first.value) ensures c < gone.hlc {
      var f :| f in first.value.clocks && first.value.clocks[f] == c;
      OverwriteAt(BlankRow(upsert), upsert, f);
    }
    assert now.value.deleted && now.value.delHlc == Some(gone.hlc);
    ReapplyNoOpIff(now, upsert);
  }

  /** Without the no-revival condition a re-push is not a no-op: after a
      delete and a narrower revival, an old upsert brings back a stale field. */
  lemma RevivalForgetsOldWrites(wide: RowOp, gone: RowOp, narrow: RowOp, k: string)
    requires wide.op == Upsert && gone.op == Delete && narrow.op == Upsert
    requires k in Writes(wide) && k !in Writes(narrow)
    requires forall f :: f in Writes(wide) ==> ClockFor(wide, f) < gone.hlc
    requires gone.hlc < narrow.hlc
    ensures var after := Replay(None, [wide, gone, narrow]); Step(after, wide) != after
  {
    var r1 := Step(None, wide);
    forall c | c in AllClocks(r1.value) ensures c < gone.hlc {
      var f :| f in r1.value.clocks && r1.value.clocks[f] == c;
      OverwriteAt(BlankRow(wide), wide, f);
    }
    var r2 := Step(r1, gone);
    assert r2.value.deleted && r2.value.delHlc == Some(gone.hlc);
    var r3 := Step(r2, narrow);
    OverwriteAt(Revived(r2.value), narrow, k);
    assert !r3.value.deleted && k !in r3.value.clocks;
    ReapplyNoOpIff(r3, wide);
    assert [wide, gone, narrow][1..] == [gone, narrow] && [gone, narrow][1..] == [narrow];
    assert Replay(r2, [narrow]) == r3;
    assert Replay(r1, [gone, narrow]) == r3;
  }

  // ── re-seeding ────────────────────────────────────────────────────────────

  /** A row as one operation carrying its original clocks. */
  function SeedOp(row: Row): RowOp {
    if row.deleted then
      RowOp(row.kind, row.id, Delete, None, if row.delHlc.Some? then row.delHlc.value else SEED_CLOCK, None)
    else
      RowOp(row.kind, row.id, Upsert, Some(row.fields),
            if MaxClock(row).Some? then MaxClock(row).value else SEED_CLOCK, Some(row.clocks))
  }

  /** In a room that lost the row, its seed restores liveness, every present
      field and the original clock of each present field. */
  lemma SeedRestores(row: Row)
    requires WellFormed(row)
    ensures var back := Step(None, SeedOp(row));
      && back.Some? && back.value.kind == row.kind && back.value.id == row.id
      && back.value.deleted == row.deleted
      && back.value.fields == row.fields
      && (row.deleted && row.delHlc.Some? ==> back.value.delHlc == row.delHlc)
      && back.value.clocks == map k | k in row.fields :: row.clocks[k]
  {
    if !row.deleted {
      var seed := SeedOp(row);
      var back := Overwrite(BlankRow(seed), seed);
      forall k
        ensures Lookup(back.clocks, k) == if k in row.fields then Some(row.clocks[k]) else None
        ensures k in back.fields <==> k in row.fields
        ensures k in row.fields ==> back.fields[k] == row.fields[k]
      {
        OverwriteAt(BlankRow(seed), seed, k);
      }
      SameClocks(back.clocks, map k | k in row.fields :: row.clocks[k]);
    }
  }

  /** The clocks of a re-seeded live row are those of its present fields. */
  lemma SeededClocks(row: Row)
    requires WellFormed(row) && !row.deleted
    ensures var back := Step(None, SeedOp(row));
      && back.Some? && !back.value.deleted
      && (forall k :: Lookup(back.value.clocks, k) == if k in row.fields then Some(row.clocks[k]) else None)
      && AllClocks(back.value) == set k | k in row.fields :: row.clocks[k]
  {
    SeedRestores(row);
    var back := Step(None, SeedOp(row)).value;
    assert back.delHlc == None && back.clocks == map k | k in row.fields :: row.clocks[k];
    forall c ensures c in AllClocks(back) <==> exists k :: k in row.fields && row.clocks[k] == c {
      if k :| k in row.fields && row.clocks[k] == c {
        assert back.clocks[k] == c;
      }
    }
  }

  /** An old delete lands on the re-seeded row: the row had a deleted field, or
      a deletion behind it, that is newer than all it shows. */
  ghost predicate DeleteForgotten(row: Row, op: RowOp)
    requires WellFormed(row)
  {
    op.op == Delete && Reached(Some(row), op.hlc) && forall k :: k in row.fields ==> row.clocks[k] < op.hlc
  }

  /** An old write lands on the re-seeded row: it names a field the row had deleted. */
  ghost predicate WriteForgotten(row: Row, op: RowOp) {
    op.op != Delete && Dominates(row, op) && exists k :: k in Writes(op) && k !in row.fields
  }

  lemma DeleteForgottenIff(row: Row, back: Row, op: RowOp)
    requires WellFormed(row) && !row.deleted && !back.deleted && op.op == Delete
    requires AllClocks(back) == set k | k in row.fields :: row.clocks[k]
    ensures Inert(Some(row), op) && !Inert(Some(back), op) <==> DeleteForgotten(row, op)
    ensures Inert(Some(back), op) ==> Inert(Some(row), op)
  {
    ReachedIffMax(row, op.hlc);
    ReachedIffMax(back, op.hlc);
    forall k | k in row.fields ensures row.clocks[k] in AllClocks(row) && row.clocks[k] in AllClocks(back) {
      FieldClockCounts(row, k);
    }
  }

  lemma WriteForgottenIff(row: Row, back: Row, op: RowOp)
    requires WellFormed(row) && !row.deleted && !back.deleted && op.op != Delete
    requires forall k :: Lookup(back.clocks, k) == if k in row.fields then Some(row.clocks[k]) else None
    ensures Inert(Some(row), op) && !Inert(Some(back), op) <==> WriteForgotten(row, op)
    ensures Inert(Some(back), op) ==> Inert(Some(row), op)
  {
    forall k ensures k in back.clocks <==> k in row.fields
             ensures k in back.clocks && k in row.fields ==> back.clocks[k] == row.clocks[k] {
      assert Lookup(back.clocks, k) == if k in row.fields then Some(row.clocks[k]) else None;
    }
  }

  /** What a re-seed loses: exactly which later operations the original live
      row would have rejected and the re-seeded one accepts. It never rejects
      what the original would have accepted. */
  lemma SeedForgetsIff(row: Row, op: RowOp)
    requires WellFormed(row) && !row.deleted
    ensures var back := Step(None, SeedOp(row));
      && (Inert(Some(row), op) && !Inert(back, op) <==> DeleteForgotten(row, op) || WriteForgotten(row, op))
      && (Inert(back, op) ==> Inert(Some(row), op))
  {
    SeededClocks(row);
    var back := Step(None, SeedOp(row)).value;
    if op.op == Delete {
      DeleteForgottenIff(row, back, op);
    } else {
      WriteForgottenIff(row, back, op);
    }
  }

  /** A re-seeded tombstone rejects exactly what the original did. */
  lemma SeededTombstone(row: Row, op: RowOp)
    requires WellFormed(row) && row.deleted && row.delHlc.Some?
    ensures Inert(Step(None, SeedOp(row)), op) <==> Inert(Some(row), op)
  {
    SeedRestores(row);
  }

  /** Over the row it was taken from, a seed changes nothing a reader sees. */
  lemma SeedKeepsOwnRow(row: Row)
    requires WellFormed(row)
    ensures Live(Step(Some(row), SeedOp(row))) == Live(Some(row))
    ensures !row.deleted ==> Step(Some(row), SeedOp(row)) == Some(row)
  {
    if !row.deleted {
      ChangedIffDifferent(Some(row), SeedOp(row));
    }
  }
}
