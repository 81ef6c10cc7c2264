/** Registry rows, row operations and their last-writer-wins merge. */
module Rows {
  import opened Options

  /** A row carries one clock per field and a tombstone clock; an operation
      carries field writes under its own clock or under per-field overrides.
      Clocks enter only through comparison, so they are integers here: any
      finite set of clock strings has the same order as some set of integers
      (module `Hlc` relates the strings themselves to integers). */
  type Clock = int

  /** A JSON value, opaque except for the cases the code inspects. */
  datatype Value = Null | Str(text: string) | Num(number: int) | Json(json: string)

  datatype OpKind = Upsert | Update | Delete

  datatype Row = Row(
    kind: string, id: string, rev: nat, deleted: bool, delHlc: Option<Clock>,
    fields: map<string, Value>, clocks: map<string, Clock>)

  datatype RowOp = RowOp(
    kind: string, id: string, op: OpKind, writes: Option<map<string, Value>>,
    hlc: Clock, clocks: Option<map<string, Clock>>)

  /** The clock of a seed for a row that carries no clock at all. */
  const SEED_CLOCK: Clock := 0

  /** `a` is strictly newer than `b`; a clock never written loses to any. */
  predicate Newer(a: Clock, b: Option<Clock>) {
    b.None? || a > b.value
  }

  function Lookup(m: map<string, Clock>, k: string): Option<Clock> {
    if k in m then Some(m[k]) else None
  }

  /** The field writes of an operation; a delete has none. */
  function Writes(op: RowOp): map<string, Value> {
    if op.writes.Some? then op.writes.value else map[]
  }

  function ClockFor(op: RowOp, k: string): Clock {
    if op.clocks.Some? && k in op.clocks.value then op.clocks.value[k] else op.hlc
  }

  function AllClocks(row: Row): set<Clock> {
    row.clocks.Values + if row.delHlc.Some? then {row.delHlc.value} else {}
  }

  lemma {:induction false} MaxExists(s: set<int>)
    requires s != {}
    ensures exists m :: m in s && forall c :: c in s ==> c <= m
  {
    assert (exists y :: y in s) || s == {};
    var x :| x in s;
    var rest := s - {x};
    assert forall c :: c in s ==> c == x || c in rest;
    if exists y :: y in rest {
      MaxExists(rest);
      var m :| m in rest && forall c :: c in rest ==> c <= m;
      var top := if x > m then x else m;
      assert top in s && forall c :: c in s ==> c <= top;
    }
  }

  /** The newest clock anywhere on the row. */
  function MaxClock(row: Row): (r: Option<Clock>)
    ensures r.None? <==> AllClocks(row) == {}
    ensures r.Some? ==> r.value in AllClocks(row) && forall c :: c in AllClocks(row) ==> c <= r.value
  {
    var s := AllClocks(row);
    if s == {} then None
    else
      MaxExists(s);
      var m :| m in s && forall c :: c in s ==> c <= m;
      Some(m)
  }

  function Tombstone(kind: string, id: string, hlc: Clock): Row {
    Row(kind, id, 0, true, Some(hlc), map[], map[])
  }

  // ── applying one operation ────────────────────────────────────────────────

  /** `op` writes field `k` over `row`: its clock for `k` is newer. */
  predicate Wins(row: Row, op: RowOp, k: string) {
    k in Writes(op) && Newer(ClockFor(op, k), Lookup(row.clocks, k))
  }

  /** The row after the field loop of the merge: every winning write lands,
      a null removes its field, and both leave their clock. */
  function Overwrite(row: Row, op: RowOp): Row {
    row.(fields := map k | k in row.fields.Keys + Writes(op).Keys
                    && (if Wins(row, op, k) then Writes(op)[k] != Null else k in row.fields)
                    :: if Wins(row, op, k) then Writes(op)[k] else row.fields[k],
         clocks := map k | k in row.clocks.Keys + Writes(op).Keys
                    && (Wins(row, op, k) || k in row.clocks)
                    :: if Wins(row, op, k) then ClockFor(op, k) else row.clocks[k])
  }

  /** The row an upsert creates, before its writes land. */
  function BlankRow(op: RowOp): Row {
    Row(op.kind, op.id, 0, false, None, map[], map[])
  }

  /** A tombstone an upsert revives, before its writes land. */
  function Revived(r: Row): Row {
    r.(deleted := false, fields := map[], clocks := map[])
  }

  function ApplyDelete(row: Option<Row>, op: RowOp): (Option<Row>, bool) {
    match row
    case None => (Some(Tombstone(op.kind, op.id, op.hlc)), true)
    case Some(r) =>
      if (if r.deleted then Newer(op.hlc, r.delHlc) else Newer(op.hlc, MaxClock(r))) then
        (Some(r.(deleted := true, delHlc := Some(op.hlc), fields := map[], clocks := map[])), true)
      else
        (Some(r), false)
  }

  /** Apply one operation to a row: the new row (`None` only for an update
      of a missing row) and whether anything changed. */
  function ApplyOp(row: Option<Row>, op: RowOp): (Option<Row>, bool) {
    if op.op == Delete then ApplyDelete(row, op)
    else match row
      case None =>
        if op.op == Update then (None, false)
        else (Some(Overwrite(BlankRow(op), op)), true)
      case Some(r) =>
        if r.deleted then
          if op.op == Update || !Newer(op.hlc, r.delHlc) then (Some(r), false)
          else (Some(Overwrite(Revived(r), op)), true)
        else
          (Some(Overwrite(r, op)), exists k :: k in Writes(op) && Wins(r, op, k))
  }

  /** What the row table holds after `op`: an update of a missing row leaves it missing. */
  function Step(row: Option<Row>, op: RowOp): Option<Row> {
    match ApplyOp(row, op).0
    case Some(next) => Some(next)
    case None => row
  }

  /** The reported flag is exact: it is set if and only if the row differs. */
  lemma ChangedIffDifferent(row: Option<Row>, op: RowOp)
    ensures ApplyOp(row, op).1 <==> Step(row, op) != row
  {
    if row.Some? && !row.value.deleted && op.op != Delete {
      var r, o := row.value, Overwrite(row.value, op);
      if k :| k in Writes(op) && Wins(r, op, k) {
        assert o.clocks[k] == ClockFor(op, k);
        assert Lookup(r.clocks, k) != Lookup(o.clocks, k);
      } else {
        assert o.fields == r.fields && o.clocks == r.clocks;
      }
    }
  }

  // ── replaying operations ──────────────────────────────────────────────────

  function Replay(row: Option<Row>, ops: seq<RowOp>): Option<Row>
    decreases |ops|
  {
    if ops == [] then row else Replay(Step(row, ops[0]), ops[1..])
  }

  /** A row as displayed: replayed operations, with tombstones hidden. */
  function Live(row: Option<Row>): Option<Row> {
    if row.Some? && !row.value.deleted then row else None
  }

  function Overlay(base: Option<Row>, ops: seq<RowOp>): Option<Row> {
    Live(Replay(base, ops))
  }

  lemma {:induction false} ReplayConcat(row: Option<Row>, a: seq<RowOp>, b: seq<RowOp>)
    ensures Replay(row, a + b) == Replay(Replay(row, a), b)
    decreases |a|
  {
    if a == [] {
      assert a + b == b;
    } else {
      assert (a + b)[1..] == a[1..] + b;
      ReplayConcat(Step(row, a[0]), a[1..], b);
    }
  }

  // ── coalescing two operations ─────────────────────────────────────────────

  datatype Write = Write(value: Value, clock: Clock)

  /** `b` writes every field `a` writes, each under a strictly newer clock. */
  predicate Shadows(b: RowOp, a: RowOp) {
    forall k :: k in Writes(a) ==> k in Writes(b) && ClockFor(b, k) > ClockFor(a, k)
  }

  /** Both operations' writes: the newest clock wins a field and a tie keeps `a`. */
  function MergedWrites(a: RowOp, b: RowOp): map<string, Write> {
    map k | k in Writes(a).Keys + Writes(b).Keys ::
      if k in Writes(a) && !(k in Writes(b) && ClockFor(b, k) > ClockFor(a, k))
      then Write(Writes(a)[k], ClockFor(a, k))
      else Write(Writes(b)[k], ClockFor(b, k))
  }

  /** Kind and revival clock of the single operation, when one can exist. */
  function MergedKind(a: RowOp, b: RowOp): Option<(OpKind, Clock)> {
    if a.op == Delete || b.op == Delete then None
    else if b.op == Update then Some((a.op, a.hlc))
    else if a.op == Upsert && (b.hlc <= a.hlc || Shadows(b, a)) then
      Some((Upsert, if a.hlc < b.hlc then b.hlc else a.hlc))
    else if a.op == Update && Shadows(b, a) then Some((Upsert, b.hlc))
    else None
  }

  /** The operation carrying `writes`, with an override for each clock other than `hlc`. */
  function OpOf(kind: string, id: string, op: OpKind, hlc: Clock, writes: map<string, Write>): RowOp {
    var overrides := map k | k in writes && writes[k].clock != hlc :: writes[k].clock;
    RowOp(kind, id, op, Some(map k | k in writes :: writes[k].value), hlc,
          if overrides == map[] then None else Some(overrides))
  }

  /** The single operation replacing `a` then `b`, or `None`. `fits` is the
      room's size check on the merged operation. */
  function Coalesce(a: RowOp, b: RowOp, fits: RowOp -> bool): Option<RowOp> {
    if a.kind != b.kind || a.id != b.id then None
    else match MergedKind(a, b)
      case None => None
      case Some((op, hlc)) =>
        var merged := OpOf(a.kind, a.id, op, hlc, MergedWrites(a, b));
        if fits(merged) then Some(merged) else None
  }

  lemma OpOfWrites(kind: string, id: string, op: OpKind, hlc: Clock, writes: map<string, Write>)
    ensures var m := OpOf(kind, id, op, hlc, writes);
      Writes(m).Keys == writes.Keys &&
      forall k :: k in writes ==> Writes(m)[k] == writes[k].value && ClockFor(m, k) == writes[k].clock
  {
    var overrides := map k | k in writes && writes[k].clock != hlc :: writes[k].clock;
    forall k | k in writes
      ensures ClockFor(OpOf(kind, id, op, hlc, writes), k) == writes[k].clock
    {
      if writes[k].clock != hlc {
        assert k in overrides;
      }
    }
  }

  /** Everything a coalesced operation is, read field by field. */
  lemma CoalesceParts(a: RowOp, b: RowOp, fits: RowOp -> bool)
    requires Coalesce(a, b, fits).Some?
    ensures a.kind == b.kind && a.id == b.id && MergedKind(a, b).Some?
    ensures var m := Coalesce(a, b, fits).value;
      m.kind == a.kind && m.id == a.id && fits(m) &&
      (m.op, m.hlc) == MergedKind(a, b).value &&
      Writes(m).Keys == Writes(a).Keys + Writes(b).Keys &&
      forall k :: k in Writes(m) ==>
        Write(Writes(m)[k], ClockFor(m, k)) == MergedWrites(a, b)[k]
  {
    var kh := MergedKind(a, b).value;
    OpOfWrites(a.kind, a.id, kh.0, kh.1, MergedWrites(a, b));
  }

  /** The clock and the value a field holds after a field loop. */
  lemma OverwriteAt(row: Row, op: RowOp, k: string)
    ensures var o := Overwrite(row, op);
      Lookup(o.clocks, k) == (if Wins(row, op, k) then Some(ClockFor(op, k)) else Lookup(row.clocks, k)) &&
      (k in o.fields <==> if Wins(row, op, k) then Writes(op)[k] != Null else k in row.fields) &&
      (k in o.fields ==> o.fields[k] == if Wins(row, op, k) then Writes(op)[k] else row.fields[k])
  {
  }

  ghost predicate SameField(x: Row, y: Row, k: string) {
    && Lookup(x.clocks, k) == Lookup(y.clocks, k)
    && (k in x.fields <==> k in y.fields) && (k in x.fields && k in y.fields ==> x.fields[k] == y.fields[k])
  }

  /** One field after two field loops in a row. */
  lemma OverwriteTwiceAt(row: Row, a: RowOp, b: RowOp, m: RowOp, k: string)
    requires k in Writes(m) <==> k in Writes(a) || k in Writes(b)
    requires k in Writes(m) ==> Write(Writes(m)[k], ClockFor(m, k)) == MergedWrites(a, b)[k]
    ensures SameField(Overwrite(Overwrite(row, a), b), Overwrite(row, m), k)
  {
    OverwriteAt(row, a, k);
    OverwriteAt(Overwrite(row, a), b, k);
    OverwriteAt(row, m, k);
  }

  lemma SameClocks(x: map<string, Clock>, y: map<string, Clock>)
    requires forall k :: Lookup(x, k) == Lookup(y, k)
    ensures x == y
  {
    forall k ensures k in x <==> k in y {
      assert Lookup(x, k) == Lookup(y, k);
    }
    forall k | k in x ensures x[k] == y[k] {
      assert Lookup(x, k) == Lookup(y, k);
    }
  }

  lemma EqualRows(x: Row, y: Row)
    requires x.(fields := map[], clocks := map[]) == y.(fields := map[], clocks := map[])
    requires forall k :: SameField(x, y, k)
    ensures x == y
  {
    forall k ensures Lookup(x.clocks, k) == Lookup(y.clocks, k)
             ensures k in x.fields <==> k in y.fields
             ensures k in x.fields && k in y.fields ==> x.fields[k] == y.fields[k] {
      assert SameField(x, y, k);
    }
    SameClocks(x.clocks, y.clocks);
    assert x.fields == y.fields;
  }

  /** Two field loops in a row are one field loop over the merged writes. */
  lemma OverwriteTwice(row: Row, a: RowOp, b: RowOp, m: RowOp)
    requires Writes(m).Keys == Writes(a).Keys + Writes(b).Keys
    requires forall k :: k in Writes(m) ==> Write(Writes(m)[k], ClockFor(m, k)) == MergedWrites(a, b)[k]
    ensures Overwrite(Overwrite(row, a), b) == Overwrite(row, m)
  {
    forall k ensures SameField(Overwrite(Overwrite(row, a), b), Overwrite(row, m), k) {
      OverwriteTwiceAt(row, a, b, m, k);
    }
    EqualRows(Overwrite(Overwrite(row, a), b), Overwrite(row, m));
  }

  /** An operation whose writes shadow those of `a` makes `a` irrelevant to a field loop. */
  lemma OverwriteShadowed(row: Row, a: RowOp, b: RowOp)
    requires Shadows(b, a)
    ensures Overwrite(Overwrite(row, a), b) == Overwrite(row, b)
  {
    OverwriteTwice(row, a, b, b);
  }

  lemma CoalesceExactLive(r: Row, a: RowOp, b: RowOp, m: RowOp)
    requires a.op != Delete && b.op != Delete && m.op != Delete && !r.deleted
    requires Overwrite(Overwrite(r, a), b) == Overwrite(r, m)
    ensures Step(Step(Some(r), a), b) == Step(Some(r), m)
  {
  }

  lemma CoalesceExactMissing(a: RowOp, b: RowOp, m: RowOp)
    requires a.op != Delete && b.op != Delete && a.kind == b.kind == m.kind && a.id == b.id == m.id
    requires MergedKind(a, b).Some? && (m.op, m.hlc) == MergedKind(a, b).value
    requires Overwrite(Overwrite(BlankRow(a), a), b) == Overwrite(BlankRow(a), m)
    requires b.op == Upsert && Shadows(b, a) ==> Overwrite(BlankRow(a), b) == Overwrite(BlankRow(a), m)
    ensures Step(Step(None, a), b) == Step(None, m)
  {
  }

  lemma CoalesceExactTombstone(r: Row, a: RowOp, b: RowOp, m: RowOp)
    requires a.op != Delete && b.op != Delete && r.deleted
    requires MergedKind(a, b).Some? && (m.op, m.hlc) == MergedKind(a, b).value
    requires Overwrite(Overwrite(Revived(r), a), b) == Overwrite(Revived(r), m)
    requires b.op == Upsert && Shadows(b, a) ==> Overwrite(Revived(r), b) == Overwrite(Revived(r), m)
    ensures Step(Step(Some(r), a), b) == Step(Some(r), m)
  {
    assert Step(Some(r), a) == if a.op == Upsert &&
      Newer(a.hlc, r.delHlc) then Some(Overwrite(Revived(r), a)) else Some(r);
    assert Step(Some(r), m) == if m.op == Upsert &&
      Newer(m.hlc, r.delHlc) then Some(Overwrite(Revived(r), m)) else Some(r);
  }

  /** Main result on one pair: the coalesced operation has exactly the effect
      of `a` then `b` on every row, be it live, tombstoned or missing. */
  lemma CoalesceExact(row: Option<Row>, a: RowOp, b: RowOp, fits: RowOp -> bool)
    requires Coalesce(a, b, fits).Some?
    ensures Step(Step(row, a), b) == Step(row, Coalesce(a, b, fits).value)
  {
    CoalesceParts(a, b, fits);
    var m := Coalesce(a, b, fits).value;
    var blank := match row
      case None => BlankRow(a)
      case Some(r) => if r.deleted then Revived(r) else r;
    OverwriteTwice(blank, a, b, m);
    if b.op == Upsert && Shadows(b, a) {
      OverwriteShadowed(blank, a, b);
    }
    match row {
      case None => CoalesceExactMissing(a, b, m);
      case Some(r) =>
        if r.deleted {
          CoalesceExactTombstone(r, a, b, m);
        } else {
          CoalesceExactLive(r, a, b, m);
        }
    }
  }

  // ── what no single operation can express ──────────────────────────────────

  /** A pair the merge refuses although neither operation deletes. */
  predicate Refused(a: RowOp, b: RowOp) {
    a.kind == b.kind && a.id == b.id && a.op != Delete && b.op != Delete && MergedKind(a, b).None?
  }

  /** Two writers never stamp one field with the same clock. */
  predicate DistinctClocks(a: RowOp, b: RowOp) {
    forall k :: k in Writes(a) && k in Writes(b) ==> ClockFor(a, k) != ClockFor(b, k)
  }

  function StoneRow(a: RowOp, d: Clock): Row {
    Row(a.kind, a.id, 0, true, Some(d), map[], map[])
  }

  /** The refusal is not over-cautious: for a refused pair, every single
      operation disagrees with `a` then `b` on some row. */
  lemma RefusalNecessary(a: RowOp, b: RowOp, m: RowOp)
    requires Refused(a, b) && DistinctClocks(a, b)
    ensures exists row: Option<Row> :: Step(Step(row, a), b) != Step(row, m)
  {
    var k :| k in Writes(a) && !(k in Writes(b) && ClockFor(b, k) > ClockFor(a, k));
    var live := Some(BlankRow(a));
    var other := if a.op == Update then None else Some(StoneRow(a, a.hlc));
    if Step(Step(live, a), b) == Step(live, m) {
      OverwriteAt(BlankRow(a), a, k);
      OverwriteAt(Overwrite(BlankRow(a), a), b, k);
      OverwriteAt(BlankRow(a), m, k);
      assert Wins(BlankRow(a), m, k) && ClockFor(m, k) == ClockFor(a, k);
      assert Step(Step(other, a), b) == Step(other, b);
      assert Lookup(Step(other, b).value.clocks, k) != Some(ClockFor(a, k));
      assert Step(Step(other, a), b) != Step(other, m);
    }
  }
}
