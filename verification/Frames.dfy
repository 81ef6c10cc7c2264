/** Transcript frames and what applying one does to a held copy. */
module Frames {
  import opened Options
  import opened Parts

  datatype Upsert = Upsert(after: Option<string>, entry: Entry)
  datatype TextAppend = TextAppend(entry: string, part: string, text: Text, len: nat)

  datatype Frame =
    | Reset(entries: seq<Entry>)
    | Delta(upsert: seq<Upsert>, append: seq<TextAppend>, remove: seq<string>, count: nat)

  // ── positions in a list of entries ────────────────────────────────────────

  predicate FirstAt(list: seq<Entry>, id: string, k: int) {
    0 <= k < |list| && list[k].id == id && forall j :: 0 <= j < k ==> list[j].id != id
  }

  lemma {:induction false} FirstExists(list: seq<Entry>, id: string, k: int)
    requires 0 <= k < |list| && list[k].id == id
    ensures exists f :: FirstAt(list, id, f)
    decreases k
  {
    if j :| 0 <= j < k && list[j].id == id {
      FirstExists(list, id, j);
    } else {
      assert FirstAt(list, id, k);
    }
  }

  lemma FirstAtUnique(list: seq<Entry>, x: string, i: int, j: int)
    requires FirstAt(list, x, i) && FirstAt(list, x, j)
    ensures i == j
  {
  }

  /** Position of the first entry with an id, or -1. */
  function Ix(list: seq<Entry>, id: string): (r: int)
    ensures -1 <= r < |list|
    ensures r >= 0 ==> FirstAt(list, id, r)
    ensures r < 0 ==> forall k :: 0 <= k < |list| ==> list[k].id != id
  {
    if exists k :: 0 <= k < |list| && list[k].id == id then
      assert exists f :: FirstAt(list, id, f) by {
        var k :| 0 <= k < |list| && list[k].id == id;
        FirstExists(list, id, k);
      }
      var f :| FirstAt(list, id, f);
      f
    else -1
  }

  predicate Has(list: seq<Entry>, id: string) {
    Ix(list, id) >= 0
  }

  ghost predicate Unique(list: seq<Entry>) {
    forall i, j :: 0 <= i < j < |list| ==> list[i].id != list[j].id
  }

  lemma IxOf(list: seq<Entry>, k: int, id: string)
    requires Unique(list) && 0 <= k < |list| && list[k].id == id
    ensures Ix(list, id) == k
  {
    assert FirstAt(list, id, k);
  }

  // ── applying a frame ──────────────────────────────────────────────────────

  function WithoutAt(list: seq<Entry>, k: int): seq<Entry>
    requires -1 <= k < |list|
  {
    if k < 0 then list else list[..k] + list[k + 1..]
  }

  /** Remove the entry of that id, then insert after the anchor; `None` when
      the anchor is missing. */
  function ApplyUpsert(list: seq<Entry>, u: Upsert): Option<seq<Entry>> {
    var rest := WithoutAt(list, Ix(list, u.entry.id));
    var at := if u.after.None? then 0 else Ix(rest, u.after.value) + 1;
    if u.after.Some? && at == 0 then None else Some(rest[..at] + [u.entry] + rest[at..])
  }

  function ApplyUpserts(list: seq<Entry>, us: seq<Upsert>): Option<seq<Entry>>
    decreases |us|
  {
    if us == [] then Some(list)
    else match ApplyUpserts(list, us[..|us| - 1])
      case None => None
      case Some(mid) => ApplyUpsert(mid, us[|us| - 1])
  }

  predicate TextBodied(part: MessagePart) {
    part.Text? || part.Reasoning?
  }

  /** Position of the first text-bodied part with an id, or -1. */
  function TextIx(parts: seq<MessagePart>, id: string): (r: int)
    ensures -1 <= r < |parts|
    ensures r >= 0 ==> TextBodied(parts[r]) && parts[r].id == id
    ensures forall k :: 0 <= k < (if r < 0 then |parts| else r) ==> !(TextBodied(parts[k]) && parts[k].id == id)
    decreases |parts|
  {
    if parts == [] then -1
    else if TextBodied(parts[0]) && parts[0].id == id then 0
    else
      var r := TextIx(parts[1..], id);
      assert forall k :: 1 <= k < |parts| ==> parts[k] == parts[1..][k - 1];
      if r < 0 then -1 else r + 1
  }

  /** Append text to an entry's part; `None` on a missing part or a length mismatch. */
  function AppendTo(entry: Entry, a: TextAppend): Option<Entry> {
    var k := TextIx(entry.parts, a.part);
    if k < 0 then None
    else
      var body := entry.parts[k].text + a.text;
      if |body| != a.len then None
      else Some(entry.(parts := entry.parts[k := entry.parts[k].(text := body)]))
  }

  function ApplyAppend(list: seq<Entry>, a: TextAppend): Option<seq<Entry>> {
    var k := Ix(list, a.entry);
    if k < 0 || AppendTo(list[k], a).None? then None
    else Some(list[k := AppendTo(list[k], a).value])
  }

  function ApplyAppends(list: seq<Entry>, appends: seq<TextAppend>): Option<seq<Entry>>
    decreases |appends|
  {
    if appends == [] then Some(list)
    else match ApplyAppends(list, appends[..|appends| - 1])
      case None => None
      case Some(mid) => ApplyAppend(mid, appends[|appends| - 1])
  }

  function Retained(list: seq<Entry>, remove: seq<string>): seq<Entry>
    decreases |list|
  {
    if list == [] then []
    else (if list[0].id in remove then [] else [list[0]]) + Retained(list[1..], remove)
  }

  /** The copy after a frame, or `None` when the frame cannot be applied. */
  function ApplyFrame(list: seq<Entry>, frame: Frame): Option<seq<Entry>> {
    match frame
    case Reset(entries) => Some(entries)
    case Delta(upsert, append, remove, count) =>
      match ApplyUpserts(Retained(list, remove), upsert)
      case None => None
      case Some(mid) =>
        match ApplyAppends(mid, append)
        case None => None
        case Some(done) => if |done| == count then Some(done) else None
  }

  // ── the client's copy ─────────────────────────────────────────────────────

  lemma {:induction false} RetainedAppend(list: seq<Entry>, e: Entry, remove: seq<string>)
    ensures Retained(list + [e], remove) == Retained(list, remove) + if e.id in remove then [] else [e]
    decreases |list|
  {
    if list == [] {
      assert list + [e] == [e] && [e][1..] == [];
    } else {
      assert (list + [e])[1..] == list[1..] + [e];
      RetainedAppend(list[1..], e, remove);
    }
  }

  lemma {:induction false} NothingRemoved(list: seq<Entry>)
    ensures Retained(list, []) == list
    decreases |list|
  {
    if list == [] {
    } else {
      NothingRemoved(list[1..]);
    }
  }

  class TranscriptCopy {
    var entries: seq<Entry>

    constructor ()
      ensures entries == []
    {
      entries := [];
    }

    method Retain(remove: seq<string>)
      modifies this
      ensures entries == Retained(old(entries), remove)
    {
      var kept: seq<Entry> := [];
      for i := 0 to |entries|
        invariant entries == old(entries)
        invariant kept == Retained(entries[..i], remove)
      {
        assert entries[..i + 1] == entries[..i] + [entries[i]];
        RetainedAppend(entries[..i], entries[i], remove);
        if entries[i].id !in remove {
          kept := kept + [entries[i]];
        }
      }
      assert entries[..|entries|] == entries;
      entries := kept;
    }

    method ApplyAllUpserts(upsert: seq<Upsert>) returns (ok: bool)
      modifies this
      ensures ok <==> ApplyUpserts(old(entries), upsert).Some?
      ensures ok ==> entries == ApplyUpserts(old(entries), upsert).value
    {
      ghost var start := entries;
      for i := 0 to |upsert|
        invariant ApplyUpserts(start, upsert[..i]) == Some(entries)
      {
        ghost var was := entries;
        assert upsert[..i + 1][..i] == upsert[..i];
        var u := upsert[i];
        var existing := Ix(entries, u.entry.id);
        if existing >= 0 {
          entries := entries[..existing] + entries[existing + 1..];
        }
        assert entries == WithoutAt(was, existing);
        var at := 0;
        if u.after.Some? {
          at := Ix(entries, u.after.value) + 1;
          if at == 0 {
            assert ApplyUpsert(was, u) == None;
            UpsertsStop(start, upsert, i + 1);
            return false;
          }
        }
        entries := entries[..at] + [u.entry] + entries[at..];
        assert ApplyUpsert(was, u) == Some(entries);
      }
      assert upsert[..|upsert|] == upsert;
      return true;
    }

    method ApplyAllAppends(append: seq<TextAppend>) returns (ok: bool)
      modifies this
      ensures ok <==> ApplyAppends(old(entries), append).Some?
      ensures ok ==> entries == ApplyAppends(old(entries), append).value
    {
      ghost var start := entries;
      for i := 0 to |append|
        invariant ApplyAppends(start, append[..i]) == Some(entries)
      {
        assert append[..i + 1][..i] == append[..i];
        var k := Ix(entries, append[i].entry);
        if k < 0 || AppendTo(entries[k], append[i]).None? {
          AppendsStop(start, append, i + 1);
          return false;
        }
        entries := entries[k := AppendTo(entries[k], append[i]).value];
      }
      assert append[..|append|] == append;
      return true;
    }

    /** Apply a frame in place. On failure the copy is unreliable. */
    method Apply(frame: Frame) returns (ok: bool)
      modifies this
      ensures ok <==> ApplyFrame(old(entries), frame).Some?
      ensures ok ==> entries == ApplyFrame(old(entries), frame).value
    {
      match frame {
        case Reset(all) =>
          entries := all;
          return true;
        case Delta(upsert, append, remove, count) =>
          Retain(remove);
          ok := ApplyAllUpserts(upsert);
          if ok {
            ok := ApplyAllAppends(append);
          }
          return ok && |entries| == count;
      }
    }
  }

  lemma UpsertsSnoc(list: seq<Entry>, us: seq<Upsert>, u: Upsert, mid: seq<Entry>)
    requires ApplyUpserts(list, us) == Some(mid)
    ensures ApplyUpserts(list, us + [u]) == ApplyUpsert(mid, u)
  {
    assert (us + [u])[..|us|] == us;
  }

  lemma AppendsSnoc(list: seq<Entry>, appends: seq<TextAppend>, a: TextAppend)
    ensures ApplyAppends(list, appends + [a])
         == match ApplyAppends(list, appends) case None => None case Some(mid) => ApplyAppend(mid, a)
  {
    assert (appends + [a])[..|appends|] == appends;
  }

  /** Once an upsert fails, the whole list fails. */
  lemma {:induction false} UpsertsStop(list: seq<Entry>, us: seq<Upsert>, n: nat)
    requires n <= |us| && ApplyUpserts(list, us[..n]).None?
    ensures ApplyUpserts(list, us).None?
    decreases |us| - n
  {
    if n < |us| {
      assert us[..n + 1][..n] == us[..n];
      UpsertsStop(list, us, n + 1);
    } else {
      assert us[..n] == us;
    }
  }

  lemma {:induction false} AppendsStop(list: seq<Entry>, appends: seq<TextAppend>, n: nat)
    requires n <= |appends| && ApplyAppends(list, appends[..n]).None?
    ensures ApplyAppends(list, appends).None?
    decreases |appends| - n
  {
    if n < |appends| {
      assert appends[..n + 1][..n] == appends[..n];
      AppendsStop(list, appends, n + 1);
    } else {
      assert appends[..n] == appends;
    }
  }

  // ── what one upsert does to positions ─────────────────────────────────────

  lemma WithoutShape(list: seq<Entry>, k: int)
    requires Unique(list) && -1 <= k < |list|
    ensures var rest := WithoutAt(list, k);
      && |rest| == (if k < 0 then |list| else |list| - 1)
      && Unique(rest)
      && forall i :: 0 <= i < |rest| ==> rest[i] == list[Past(k, i)]
  {
    var rest := WithoutAt(list, k);
    forall i | 0 <= i < |rest| ensures rest[i] == list[Past(k, i)] {
    }
    forall i, j | 0 <= i < j < |rest| ensures rest[i].id != rest[j].id {
      assert list[Past(k, i)].id != list[Past(k, j)].id;
    }
  }

  /** The index an element had before the one at `k` was removed. */
  function Past(k: int, i: int): int {
    if 0 <= k <= i then i + 1 else i
  }

  /** Removing the entry at `k` shifts what stands behind it. */
  lemma RemovedIx(list: seq<Entry>, k: int, x: string)
    requires Unique(list) && -1 <= k < |list| && (k >= 0 ==> x != list[k].id)
    ensures var rest, i := WithoutAt(list, k), Ix(list, x);
      Ix(rest, x) == (if 0 <= k < i then i - 1 else i) && (i >= 0 ==> rest[Ix(rest, x)] == list[i])
  {
    var rest, i := WithoutAt(list, k), Ix(list, x);
    WithoutShape(list, k);
    if i >= 0 {
      IxOf(rest, if 0 <= k < i then i - 1 else i, x);
    }
  }

  lemma RemovedGone(list: seq<Entry>, x: string)
    requires Unique(list)
    ensures !Has(WithoutAt(list, Ix(list, x)), x)
  {
    var k := Ix(list, x);
    WithoutShape(list, k);
    if k >= 0 {
      var rest := WithoutAt(list, k);
      forall i | 0 <= i < |rest| ensures rest[i].id != x {
        assert list[Past(k, i)].id != list[k].id;
      }
    }
  }

  lemma InsertShape(rest: seq<Entry>, at: nat, e: Entry)
    requires Unique(rest) && at <= |rest| && !Has(rest, e.id)
    ensures var list := rest[..at] + [e] + rest[at..];
      && |list| == |rest| + 1 && list[at] == e
      && (forall i :: 0 <= i < at ==> list[i] == rest[i])
      && (forall i :: at < i < |list| ==> list[i] == rest[i - 1])
      && Unique(list)
  {
  }

  /** Inserting at `at` shifts what stands there and behind. */
  lemma InsertedIx(rest: seq<Entry>, at: nat, e: Entry, x: string)
    requires Unique(rest) && at <= |rest| && !Has(rest, e.id)
    ensures var list := rest[..at] + [e] + rest[at..];
      && Ix(list, x) == (if x == e.id then at else if Ix(rest, x) < at then Ix(rest, x) else Ix(rest, x) + 1)
      && (x != e.id && Ix(rest, x) >= 0 ==> list[Ix(list, x)] == rest[Ix(rest, x)])
  {
    var list := rest[..at] + [e] + rest[at..];
    InsertShape(rest, at, e);
    if x == e.id {
      IxOf(list, at, x);
    } else if Ix(rest, x) >= 0 {
      IxOf(list, if Ix(rest, x) < at then Ix(rest, x) else Ix(rest, x) + 1, x);
    }
  }

  /** The anchor of an upsert is present and another entry. */
  predicate Anchored(list: seq<Entry>, u: Upsert) {
    u.after.Some? ==> Has(list, u.after.value) && u.after.value != u.entry.id
  }

  /** Where an upserted entry lands, counted without its old copy. */
  function Landing(list: seq<Entry>, u: Upsert): int {
    if u.after.None? then 0 else Ix(WithoutAt(list, Ix(list, u.entry.id)), u.after.value) + 1
  }

  /** An anchored upsert succeeds, touches no other entry and keeps ids unique. */
  lemma UpsertShape(list: seq<Entry>, u: Upsert)
    requires Unique(list) && Anchored(list, u)
    ensures ApplyUpsert(list, u).Some?
    ensures var after := ApplyUpsert(list, u).value;
      && Unique(after) && Ix(after, u.entry.id) == Landing(list, u) && after[Landing(list, u)] == u.entry
      && |after| == if Has(list, u.entry.id) then |list| else |list| + 1
  {
    var k := Ix(list, u.entry.id);
    var rest := WithoutAt(list, k);
    WithoutShape(list, k);
    RemovedGone(list, u.entry.id);
    if u.after.Some? {
      RemovedIx(list, k, u.after.value);
    }
    InsertShape(rest, Landing(list, u), u.entry);
    InsertedIx(rest, Landing(list, u), u.entry, u.entry.id);
  }

  /** Where any other entry stands after an anchored upsert. */
  lemma UpsertOther(list: seq<Entry>, u: Upsert, x: string)
    requires Unique(list) && Anchored(list, u) && x != u.entry.id
    ensures ApplyUpsert(list, u).Some?
    ensures var after, k, i := ApplyUpsert(list, u).value, Ix(list, u.entry.id), Ix(list, x);
      var j := if 0 <= k < i then i - 1 else i;
      && Ix(after, x) == (if j < Landing(list, u) then j else j + 1)
      && (Has(after, x) <==> Has(list, x))
      && (Has(list, x) ==> after[Ix(after, x)] == list[i])
  {
    var k := Ix(list, u.entry.id);
    var rest := WithoutAt(list, k);
    UpsertShape(list, u);
    assert Unique(rest) by { WithoutShape(list, k); }
    assert !Has(rest, u.entry.id) by { RemovedGone(list, u.entry.id); }
    RemovedIx(list, k, x);
    InsertedIx(rest, Landing(list, u), u.entry, x);
  }

  /** Other entries keep their order; the upserted one stands behind its
      anchor and before everything that stood behind the anchor. */
  lemma UpsertOrder(list: seq<Entry>, u: Upsert, x: string, y: string)
    requires Unique(list) && Anchored(list, u)
    requires x != u.entry.id && y != u.entry.id && Has(list, x) && Has(list, y)
    ensures ApplyUpsert(list, u).Some?
    ensures var after := ApplyUpsert(list, u).value;
      && (Ix(after, x) < Ix(after, y) <==> Ix(list, x) < Ix(list, y))
      && (u.after == Some(x) ==> Ix(after, x) < Ix(after, u.entry.id))
      && (u.after == Some(x) && Ix(list, x) < Ix(list, y) ==> Ix(after, u.entry.id) < Ix(after, y))
      && (u.after == None ==> Ix(after, u.entry.id) < Ix(after, y))
  {
    UpsertShape(list, u);
    UpsertOther(list, u, x);
    UpsertOther(list, u, y);
    var k := Ix(list, u.entry.id);
    RemovedIx(list, k, x);
    RemovedIx(list, k, y);
  }
}
