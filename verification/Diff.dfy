/** The engine's transcript diff, and exactly when applying it gives back the
    new transcript. */
module Diff {
  import opened Options
  import opened Parts
  import opened Frames

  // ── the text-append shortcut ──────────────────────────────────────────────

  /** The fields the shortcut compares; duration, origin and provider turn are not among them. */
  predicate SameHead(p: Entry, n: Entry) {
    p.id == n.id && p.role == n.role && p.createdAt == n.createdAt && p.deviceId == n.deviceId
    && p.status == n.status && p.continuationOf == n.continuationOf && |p.parts| == |n.parts|
  }

  predicate StartsWith(t: Text, prefix: Text) {
    |prefix| <= |t| && t[..|prefix|] == prefix
  }

  /** `n` is `p` with text added at its end. */
  predicate Grows(p: MessagePart, n: MessagePart) {
    ((p.Text? && n.Text?) || (p.Reasoning? && n.Reasoning?)) && p.id == n.id && StartsWith(n.text, p.text)
  }

  ghost predicate DiffersOnlyAt(ps: seq<MessagePart>, ns: seq<MessagePart>, k: int) {
    0 <= k < |ps| == |ns| && ps[k] != ns[k] && forall j :: 0 <= j < |ps| && j != k ==> ps[j] == ns[j]
  }

  ghost predicate GrowsAt(p: Entry, n: Entry, k: int) {
    SameHead(p, n) && DiffersOnlyAt(p.parts, n.parts, k) && Grows(p.parts[k], n.parts[k])
  }

  function GrownAt(p: MessagePart, n: MessagePart, entry: string): TextAppend
    requires Grows(p, n)
  {
    TextAppend(entry, n.id, n.text[|p.text|..], |n.text|)
  }

  ghost function TryAppend(p: Entry, n: Entry): Option<TextAppend> {
    if exists k :: GrowsAt(p, n, k) then
      var k :| GrowsAt(p, n, k);
      Some(GrownAt(p.parts[k], n.parts[k], n.id))
    else None
  }

  method TryTextAppend(prev: Entry, next: Entry) returns (a: Option<TextAppend>)
    ensures a == TryAppend(prev, next)
  {
    if !SameHead(prev, next) {
      return None;
    }
    a := None;
    ghost var at := -1;
    for i := 0 to |prev.parts|
      invariant a.None? ==> forall j :: 0 <= j < i ==> prev.parts[j] == next.parts[j]
      invariant a.Some? ==> 0 <= at < i && Grows(prev.parts[at], next.parts[at]) && prev.parts[at] != next.parts[at]
      invariant a.Some? ==> a.value == GrownAt(prev.parts[at], next.parts[at], next.id)
      invariant a.Some? ==> forall j :: 0 <= j < i && j != at ==> prev.parts[j] == next.parts[j]
    {
      if prev.parts[i] != next.parts[i] {
        if !Grows(prev.parts[i], next.parts[i]) || a.Some? {
          return None;
        }
        a, at := Some(GrownAt(prev.parts[i], next.parts[i], next.id)), i;
      }
    }
    if a.Some? {
      assert GrowsAt(prev, next, at);
    }
  }

  // ── the diff ──────────────────────────────────────────────────────────────

  /** Position of the last entry with an id, or -1: what an id-to-entry table keeps. */
  function LastIx(list: seq<Entry>, id: string): (r: int)
    ensures -1 <= r < |list|
    ensures r >= 0 ==> list[r].id == id
    ensures forall k :: r < k < |list| ==> list[k].id != id
  {
    if list == [] then -1
    else if list[|list| - 1].id == id then |list| - 1
    else LastIx(list[..|list| - 1], id)
  }

  lemma LastIsFirst(list: seq<Entry>, id: string)
    requires Unique(list)
    ensures LastIx(list, id) == Ix(list, id)
  {
    if LastIx(list, id) >= 0 {
      IxOf(list, LastIx(list, id), id);
    }
  }

  function PredId(list: seq<Entry>, i: int): Option<string>
    requires 0 <= i < |list|
  {
    if i == 0 then None else Some(list[i - 1].id)
  }

  datatype Change = Skip | Grow(a: TextAppend) | Put(u: Upsert)

  ghost function ChangeAt(prev: seq<Entry>, next: seq<Entry>, i: int): Change
    requires 0 <= i < |next|
  {
    var e, after := next[i], PredId(next, i);
    var p := LastIx(prev, e.id);
    if p < 0 || PredId(prev, p) != after then Put(Upsert(after, e))
    else if prev[p] == e then Skip
    else match TryAppend(prev[p], e)
      case Some(a) => Grow(a)
      case None => Put(Upsert(after, e))
  }

  ghost function Upserts(prev: seq<Entry>, next: seq<Entry>, n: nat): seq<Upsert>
    requires n <= |next|
  {
    if n == 0 then []
    else Upserts(prev, next, n - 1) + match ChangeAt(prev, next, n - 1)
                                      case Put(u) => [u]
                                      case _ => []
  }

  ghost function Appends(prev: seq<Entry>, next: seq<Entry>, n: nat): seq<TextAppend>
    requires n <= |next|
  {
    if n == 0 then []
    else Appends(prev, next, n - 1) + match ChangeAt(prev, next, n - 1)
                                      case Grow(a) => [a]
                                      case _ => []
  }

  /** Ids of `prev` that `next` lacks, in order. */
  ghost function Removed(prev: seq<Entry>, next: seq<Entry>, n: nat): seq<string>
    requires n <= |prev|
  {
    if n == 0 then []
    else Removed(prev, next, n - 1) + if Has(next, prev[n - 1].id) then [] else [prev[n - 1].id]
  }

  /** A delta that upserts half of a longer transcript is sent as a reset. */
  predicate MostlyUpserts(upserts: nat, len: nat) {
    upserts * 2 >= (if len > 1 then len else 1) && len > 4
  }

  ghost function DiffOf(prev: seq<Entry>, next: seq<Entry>): Frame {
    var us := Upserts(prev, next, |next|);
    if MostlyUpserts(|us|, |next|) then Reset(next)
    else Delta(us, Appends(prev, next, |next|), Removed(prev, next, |prev|), |next|)
  }

  method IndexById(list: seq<Entry>) returns (byId: map<string, nat>)
    ensures forall id :: (id in byId <==> LastIx(list, id) >= 0) && (id in byId ==> byId[id] == LastIx(list, id))
  {
    byId := map[];
    for i := 0 to |list|
      invariant forall id ::
        (id in byId <==> LastIx(list[..i], id) >= 0) && (id in byId ==> byId[id] == LastIx(list[..i], id))
    {
      assert list[..i + 1][..i] == list[..i];
      byId := byId[list[i].id := i];
    }
    assert list[..|list|] == list;
  }

  /** One change, read off the two neighbours and the two versions. */
  lemma ChangeByTable(prev: seq<Entry>, next: seq<Entry>, i: nat)
    requires i < |next|
    ensures var entry, after, p := next[i], PredId(next, i), LastIx(prev, next[i].id);
      var near := p >= 0 && PredId(prev, p) == after;
      && (near && prev[p] == entry ==>
            Upserts(prev, next, i + 1) == Upserts(prev, next, i) &&
              Appends(prev, next, i + 1) == Appends(prev, next, i))
      && (near && prev[p] != entry && TryAppend(prev[p], entry).Some? ==>
            Upserts(prev, next, i + 1) == Upserts(prev, next, i)
            && Appends(prev, next, i + 1) == Appends(prev, next, i) + [TryAppend(prev[p], entry).value])
      && (!near || (prev[p] != entry && TryAppend(prev[p], entry).None?) ==>
            Upserts(prev, next, i + 1) == Upserts(prev, next, i) + [Upsert(after, entry)] &&
              Appends(prev, next, i + 1) == Appends(prev, next, i))
  {
    assert Upserts(prev, next, i) + [] == Upserts(prev, next, i) &&
      Appends(prev, next, i) + [] == Appends(prev, next, i);
  }

  method DiffTranscript(prev: seq<Entry>, next: seq<Entry>) returns (frame: Frame)
    ensures frame == DiffOf(prev, next)
  {
    var prevById := IndexById(prev);
    var nextIds := IndexById(next);
    var remove: seq<string> := [];
    for i := 0 to |prev|
      invariant remove == Removed(prev, next, i)
    {
      if prev[i].id !in nextIds {
        remove := remove + [prev[i].id];
      }
    }
    var upsert: seq<Upsert>, append: seq<TextAppend> := [], [];
    for i := 0 to |next|
      invariant upsert == Upserts(prev, next, i)
      invariant append == Appends(prev, next, i)
    {
      var entry, after := next[i], PredId(next, i);
      ChangeByTable(prev, next, i);
      if entry.id in prevById {
        var p := prevById[entry.id];
        if prev[p] == entry && PredId(prev, p) == after {
          continue;
        }
        if PredId(prev, p) == after {
          var a := TryTextAppend(prev[p], entry);
          if a.Some? {
            append := append + [a.value];
            continue;
          }
        }
      }
      upsert := upsert + [Upsert(after, entry)];
    }
    if MostlyUpserts(|upsert|, |next|) {
      return Reset(next);
    }
    return Delta(upsert, append, remove, |next|);
  }

  // ── the exact condition ───────────────────────────────────────────────────

  /** The diff leaves this entry where it stands. */
  ghost predicate InPlace(prev: seq<Entry>, next: seq<Entry>, i: int)
    requires 0 <= i < |next|
  {
    !ChangeAt(prev, next, i).Put?
  }

  /** Entries left in place stand in the same order before and after. */
  ghost predicate InPlaceOrdered(prev: seq<Entry>, next: seq<Entry>) {
    forall i, j {:trigger InPlace(prev, next, i), InPlace(prev, next, j)} ::
      0 <= i < j < |next| && InPlace(prev, next, i) && InPlace(prev, next, j) ==>
      Ix(prev, next[i].id) < Ix(prev, next[j].id)
  }

  /** A text append reproduces the new entry: nothing but text changed, and
      the grown part is the first text part of its id. */
  ghost predicate Faithful(p: Entry, n: Entry) {
    && n == p.(parts := n.parts)
    && exists k :: GrowsAt(p, n, k) && TextIx(p.parts, n.parts[k].id) == k
  }

  ghost predicate AppendsFaithful(prev: seq<Entry>, next: seq<Entry>) {
    forall i :: 0 <= i < |next| && ChangeAt(prev, next, i).Grow? ==> Faithful(prev[Ix(prev, next[i].id)], next[i])
  }

  lemma GrowsAtUnique(p: Entry, n: Entry, j: int, k: int)
    requires GrowsAt(p, n, j) && GrowsAt(p, n, k)
    ensures j == k
  {
  }

  /** One append gives the new entry exactly when it is faithful. */
  lemma AppendIffFaithful(p: Entry, n: Entry)
    requires TryAppend(p, n).Some?
    ensures AppendTo(p, TryAppend(p, n).value) == Some(n) <==> Faithful(p, n)
  {
    var k :| GrowsAt(p, n, k) && TryAppend(p, n).value == GrownAt(p.parts[k], n.parts[k], n.id);
    var a := TryAppend(p, n).value;
    var pk, nk := p.parts[k], n.parts[k];
    assert pk.text + a.text == nk.text;
    assert pk.(text := nk.text) == nk;
    var f := TextIx(p.parts, a.part);
    assert 0 <= f <= k;
    forall j | GrowsAt(p, n, j) ensures j == k {
      GrowsAtUnique(p, n, j, k);
    }
    if f == k {
      assert p.parts[k := nk] == n.parts;
      assert AppendTo(p, a) == Some(p.(parts := n.parts));
    } else if AppendTo(p, a).Some? {
      assert AppendTo(p, a).value.parts[k] == pk;
    }
  }
}
