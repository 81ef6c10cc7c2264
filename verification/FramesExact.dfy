/** Exactly when a delta is accepted and what it leaves: each step as a
    relation between two lists, and the count that must come out. */
module FramesExact {
  import opened Options
  import opened Parts
  import opened Frames
  import DiffExact

  // ── one step ──────────────────────────────────────────────────────────────

  /** `rest` is `list` without its first entry of that id, if it has one. */
  ghost predicate TakenOut(list: seq<Entry>, id: string, rest: seq<Entry>) {
    || ((forall k :: 0 <= k < |list| ==> list[k].id != id) && rest == list)
    || exists k :: FirstAt(list, id, k) && rest == list[..k] + list[k + 1..]
  }

  /** `after` is `rest` with `e` behind the first entry of the anchor's id,
      which is there, or in front without an anchor. */
  ghost predicate PutBehind(rest: seq<Entry>, anchor: Option<string>, e: Entry, after: seq<Entry>) {
    match anchor
    case None => after == [e] + rest
    case Some(id) => exists k :: FirstAt(rest, id, k) && after == rest[..k + 1] + [e] + rest[k + 1..]
  }

  ghost predicate UpsertsTo(list: seq<Entry>, u: Upsert, after: seq<Entry>) {
    exists rest :: TakenOut(list, u.entry.id, rest) && PutBehind(rest, u.after, u.entry, after)
  }

  /** Part `m` is the first text or reasoning part of that id. */
  ghost predicate FirstTextAt(parts: seq<MessagePart>, id: string, m: int) {
    && 0 <= m < |parts| && (parts[m].Text? || parts[m].Reasoning?) && parts[m].id == id
    && forall j :: 0 <= j < m ==> !((parts[j].Text? || parts[j].Reasoning?) && parts[j].id == id)
  }

  /** The entry is there, has the text part, and the text reaches the announced length. */
  ghost predicate AppendsAt(list: seq<Entry>, a: TextAppend, after: seq<Entry>, k: int, m: int) {
    && FirstAt(list, a.entry, k) && FirstTextAt(list[k].parts, a.part, m)
    && var part := list[k].parts[m];
    && |part.text| + |a.text| == a.len
    && after == list[k := list[k].(parts := list[k].parts[m := part.(text := part.text + a.text)])]
  }

  ghost predicate AppendsTo(list: seq<Entry>, a: TextAppend, after: seq<Entry>) {
    exists k, m :: AppendsAt(list, a, after, k, m)
  }

  lemma TakenOutIff(list: seq<Entry>, id: string, rest: seq<Entry>)
    ensures TakenOut(list, id, rest) <==> rest == WithoutAt(list, Ix(list, id))
  {
    var i := Ix(list, id);
    if k :| FirstAt(list, id, k) && rest == list[..k] + list[k + 1..] {
      FirstAtUnique(list, id, i, k);
    }
  }

  lemma PutBehindIff(rest: seq<Entry>, u: Upsert, after: seq<Entry>)
    ensures var at := if u.after.None? then 0 else Ix(rest, u.after.value) + 1;
      PutBehind(rest, u.after, u.entry, after) <==>
        !(u.after.Some? && at == 0) && after == rest[..at] + [u.entry] + rest[at..]
  {
    if u.after.Some? {
      var i := Ix(rest, u.after.value);
      if k :| FirstAt(rest, u.after.value, k) && after == rest[..k + 1] + [u.entry] + rest[k + 1..] {
        FirstAtUnique(rest, u.after.value, i, k);
      }
    } else {
      assert rest[..0] == [] && rest[0..] == rest && [] + [u.entry] == [u.entry];
    }
  }

  lemma UpsertIff(list: seq<Entry>, u: Upsert, after: seq<Entry>)
    ensures ApplyUpsert(list, u) == Some(after) <==> UpsertsTo(list, u, after)
  {
    var rest := WithoutAt(list, Ix(list, u.entry.id));
    TakenOutIff(list, u.entry.id, rest);
    PutBehindIff(rest, u, after);
    if r :| TakenOut(list, u.entry.id, r) && PutBehind(r, u.after, u.entry, after) {
      TakenOutIff(list, u.entry.id, r);
    }
  }

  lemma FirstTextIff(parts: seq<MessagePart>, id: string, m: int)
    ensures FirstTextAt(parts, id, m) <==> m >= 0 && TextIx(parts, id) == m
  {
  }

  lemma AppendIff(list: seq<Entry>, a: TextAppend, after: seq<Entry>)
    ensures ApplyAppend(list, a) == Some(after) <==> AppendsTo(list, a, after)
  {
    var i := Ix(list, a.entry);
    if i >= 0 {
      var t := TextIx(list[i].parts, a.part);
      FirstTextIff(list[i].parts, a.part, t);
      if ApplyAppend(list, a) == Some(after) {
        assert AppendsAt(list, a, after, i, t);
      }
    }
    if k, m :| AppendsAt(list, a, after, k, m) {
      FirstAtUnique(list, a.entry, i, k);
      FirstTextIff(list[k].parts, a.part, m);
    }
  }

  // ── a whole delta ─────────────────────────────────────────────────────────

  /** Each upsert finds its anchor in the list as it then stands. */
  ghost predicate UpsertChain(lists: seq<seq<Entry>>, us: seq<Upsert>) {
    |lists| == |us| + 1 && forall i :: 0 <= i < |us| ==> UpsertsTo(lists[i], us[i], lists[i + 1])
  }

  /** Each append finds its entry and its part and reaches its length. */
  ghost predicate AppendChain(lists: seq<seq<Entry>>, appends: seq<TextAppend>) {
    |lists| == |appends| + 1 && forall i :: 0 <= i < |appends| ==> AppendsTo(lists[i], appends[i], lists[i + 1])
  }

  ghost predicate UpsertRun(start: seq<Entry>, us: seq<Upsert>, end: seq<Entry>) {
    exists lists :: UpsertChain(lists, us) && lists[0] == start && lists[|us|] == end
  }

  ghost predicate AppendRun(start: seq<Entry>, appends: seq<TextAppend>, end: seq<Entry>) {
    exists lists :: AppendChain(lists, appends) && lists[0] == start && lists[|appends|] == end
  }

  lemma UpsertRunGrows(start: seq<Entry>, us: seq<Upsert>, mid: seq<Entry>, end: seq<Entry>)
    requires us != [] && UpsertRun(start, us[..|us| - 1], mid) && UpsertsTo(mid, us[|us| - 1], end)
    ensures UpsertRun(start, us, end)
  {
    var front := us[..|us| - 1];
    var lists :| UpsertChain(lists, front) && lists[0] == start && lists[|front|] == mid;
    var all := lists + [end];
    forall i | 0 <= i < |us| ensures UpsertsTo(all[i], us[i], all[i + 1]) {
      assert i < |front| ==> us[i] == front[i] && UpsertsTo(lists[i], front[i], lists[i + 1]);
    }
    assert UpsertChain(all, us);
  }

  lemma UpsertChainFront(lists: seq<seq<Entry>>, us: seq<Upsert>)
    requires us != [] && UpsertChain(lists, us)
    ensures UpsertRun(lists[0], us[..|us| - 1], lists[|us| - 1])
    ensures UpsertsTo(lists[|us| - 1], us[|us| - 1], lists[|us|])
  {
    var front, before := us[..|us| - 1], lists[..|us|];
    forall i | 0 <= i < |front| ensures UpsertsTo(before[i], front[i], before[i + 1]) {
      assert UpsertsTo(lists[i], us[i], lists[i + 1]);
    }
    assert UpsertChain(before, front) && before[0] == lists[0];
  }

  lemma UpsertRunStarts(start: seq<Entry>, us: seq<Upsert>)
    requires us == []
    ensures UpsertRun(start, us, start)
  {
    assert UpsertChain([start], us) && [start][0] == start;
  }

  lemma LastUpsert(start: seq<Entry>, us: seq<Upsert>, end: seq<Entry>) returns (mid: seq<Entry>)
    requires us != [] && ApplyUpserts(start, us) == Some(end)
    ensures ApplyUpserts(start, us[..|us| - 1]) == Some(mid) && UpsertsTo(mid, us[|us| - 1], end)
  {
    mid := ApplyUpserts(start, us[..|us| - 1]).value;
    UpsertIff(mid, us[|us| - 1], end);
  }

  lemma {:induction false} UpsertRunMade(start: seq<Entry>, us: seq<Upsert>, end: seq<Entry>)
    requires ApplyUpserts(start, us) == Some(end)
    ensures UpsertRun(start, us, end)
    decreases |us|
  {
    if us == [] {
      UpsertRunStarts(start, us);
    } else {
      var mid := LastUpsert(start, us, end);
      UpsertRunMade(start, us[..|us| - 1], mid);
      UpsertRunGrows(start, us, mid, end);
    }
  }

  lemma {:induction false} UpsertRunApplies(start: seq<Entry>, us: seq<Upsert>, end: seq<Entry>)
    requires UpsertRun(start, us, end)
    ensures ApplyUpserts(start, us) == Some(end)
    decreases |us|
  {
    var lists :| UpsertChain(lists, us) && lists[0] == start && lists[|us|] == end;
    if us == [] {
    } else {
      var front, mid := us[..|us| - 1], lists[|us| - 1];
      UpsertChainFront(lists, us);
      UpsertRunApplies(start, front, mid);
      UpsertIff(mid, us[|us| - 1], end);
    }
  }

  lemma UpsertRunIff(start: seq<Entry>, us: seq<Upsert>, end: seq<Entry>)
    ensures ApplyUpserts(start, us) == Some(end) <==> UpsertRun(start, us, end)
  {
    if ApplyUpserts(start, us) == Some(end) {
      UpsertRunMade(start, us, end);
    }
    if UpsertRun(start, us, end) {
      UpsertRunApplies(start, us, end);
    }
  }

  lemma AppendRunGrows(start: seq<Entry>, appends: seq<TextAppend>, mid: seq<Entry>, end: seq<Entry>)
    requires appends != [] && AppendRun(start, appends[..|appends| - 1], mid) &&
      AppendsTo(mid, appends[|appends| - 1], end)
    ensures AppendRun(start, appends, end)
  {
    var front := appends[..|appends| - 1];
    var lists :| AppendChain(lists, front) && lists[0] == start && lists[|front|] == mid;
    var all := lists + [end];
    forall i | 0 <= i < |appends| ensures AppendsTo(all[i], appends[i], all[i + 1]) {
      assert i < |front| ==> appends[i] == front[i] && AppendsTo(lists[i], front[i], lists[i + 1]);
    }
    assert AppendChain(all, appends);
  }

  lemma AppendChainFront(lists: seq<seq<Entry>>, appends: seq<TextAppend>)
    requires appends != [] && AppendChain(lists, appends)
    ensures AppendRun(lists[0], appends[..|appends| - 1], lists[|appends| - 1])
    ensures AppendsTo(lists[|appends| - 1], appends[|appends| - 1], lists[|appends|])
  {
    var front, before := appends[..|appends| - 1], lists[..|appends|];
    forall i | 0 <= i < |front| ensures AppendsTo(before[i], front[i], before[i + 1]) {
      assert AppendsTo(lists[i], appends[i], lists[i + 1]);
    }
    assert AppendChain(before, front) && before[0] == lists[0];
  }

  lemma AppendRunStarts(start: seq<Entry>, appends: seq<TextAppend>)
    requires appends == []
    ensures AppendRun(start, appends, start)
  {
    assert AppendChain([start], appends) && [start][0] == start;
  }

  lemma LastAppend(start: seq<Entry>, appends: seq<TextAppend>, end: seq<Entry>) returns (mid: seq<Entry>)
    requires appends != [] && ApplyAppends(start, appends) == Some(end)
    ensures ApplyAppends(start, appends[..|appends| - 1]) == Some(mid) && AppendsTo(mid, appends[|appends| - 1], end)
  {
    mid := ApplyAppends(start, appends[..|appends| - 1]).value;
    AppendIff(mid, appends[|appends| - 1], end);
  }

  lemma {:induction false} AppendRunMade(start: seq<Entry>, appends: seq<TextAppend>, end: seq<Entry>)
    requires ApplyAppends(start, appends) == Some(end)
    ensures AppendRun(start, appends, end)
    decreases |appends|
  {
    if appends == [] {
      AppendRunStarts(start, appends);
    } else {
      var mid := LastAppend(start, appends, end);
      AppendRunMade(start, appends[..|appends| - 1], mid);
      AppendRunGrows(start, appends, mid, end);
    }
  }

  lemma {:induction false} AppendRunApplies(start: seq<Entry>, appends: seq<TextAppend>, end: seq<Entry>)
    requires AppendRun(start, appends, end)
    ensures ApplyAppends(start, appends) == Some(end)
    decreases |appends|
  {
    var lists :| AppendChain(lists, appends) && lists[0] == start && lists[|appends|] == end;
    if appends == [] {
    } else {
      var front, mid := appends[..|appends| - 1], lists[|appends| - 1];
      AppendChainFront(lists, appends);
      AppendRunApplies(start, front, mid);
      AppendIff(mid, appends[|appends| - 1], end);
    }
  }

  lemma AppendRunIff(start: seq<Entry>, appends: seq<TextAppend>, end: seq<Entry>)
    ensures ApplyAppends(start, appends) == Some(end) <==> AppendRun(start, appends, end)
  {
    if ApplyAppends(start, appends) == Some(end) {
      AppendRunMade(start, appends, end);
    }
    if AppendRun(start, appends, end) {
      AppendRunApplies(start, appends, end);
    }
  }

  /** The entries whose ids are not removed, in order: each of them, and no other. */
  ghost predicate Survive(list: seq<Entry>, remove: seq<string>, left: seq<Entry>) {
    exists from: seq<nat> :: SurviveFrom(list, remove, left, from)
  }

  ghost predicate SurviveFrom(list: seq<Entry>, remove: seq<string>, left: seq<Entry>, from: seq<nat>) {
    && |from| == |left|
    && (forall i :: 0 <= i < |from| ==> from[i] < |list| && left[i] == list[from[i]])
    && (forall i, j :: 0 <= i < j < |from| ==> from[i] < from[j])
    && (forall k :: 0 <= k < |list| ==> (k in from <==> list[k].id !in remove))
  }

  /** Where the survivors stood. */
  function Standing(list: seq<Entry>, remove: seq<string>): (from: seq<nat>)
    ensures forall k :: k in from ==> k < |list|
  {
    if list == [] then []
    else
      var front, n := list[..|list| - 1], |list| - 1;
      Standing(front, remove) + if list[n].id in remove then [] else [n]
  }

  lemma SurviveNext(front: seq<Entry>, remove: seq<string>, left: seq<Entry>, from: seq<nat>, e: Entry)
    requires SurviveFrom(front, remove, left, from)
    ensures if e.id in remove then SurviveFrom(front + [e], remove, left, from)
            else SurviveFrom(front + [e], remove, left + [e], from + [|front|])
  {
    var list, n := front + [e], |front|;
    assert forall k :: k in from ==> k < n by {
      forall k | k in from ensures k < n {
        var i :| 0 <= i < |from| && from[i] == k;
      }
    }
    forall k | 0 <= k < |list| ensures k in (if e.id in remove then from else from + [n]) <==> list[k].id !in remove {
      assert k < n ==> list[k] == front[k];
    }
  }

  lemma {:induction false} StandingSurvives(list: seq<Entry>, remove: seq<string>)
    ensures SurviveFrom(list, remove, Retained(list, remove), Standing(list, remove))
    decreases |list|
  {
    if list == [] {
    } else {
      var front, e := list[..|list| - 1], list[|list| - 1];
      assert list == front + [e];
      StandingSurvives(front, remove);
      RetainedAppend(front, e, remove);
      SurviveNext(front, remove, Retained(front, remove), Standing(front, remove), e);
      assert Retained(front, remove) + [] == Retained(front, remove);
      assert Standing(front, remove) + [] == Standing(front, remove);
    }
  }

  lemma SomeMember(s: seq<nat>)
    ensures s != [] ==> exists k :: k in s
  {
    if s != [] {
      assert s[0] in s;
    }
  }

  /** The same places, the same survivors. */
  lemma {:induction false} SamePlaces(a: seq<nat>, b: seq<nat>)
    requires (forall i, j :: 0 <= i < j < |a| ==> a[i] < a[j]) && (forall i, j :: 0 <= i < j < |b| ==> b[i] < b[j])
    requires forall k: nat :: k in a <==> k in b
    ensures a == b
    decreases |a|
  {
    SomeMember(b);
    if a == [] {
    } else {
      var x := a[|a| - 1];
      assert x in b;
      var y := b[|b| - 1];
      assert y in a;
      var front, back := a[..|a| - 1], b[..|b| - 1];
      assert x == y;
      forall k: nat ensures k in front <==> k in back {
        if k in front {
          assert k in a && k < x;
        }
        if k in back {
          assert k in b && k < y;
        }
      }
      SamePlaces(front, back);
    }
  }

  lemma SurviveIff(list: seq<Entry>, remove: seq<string>, left: seq<Entry>)
    ensures Survive(list, remove, left) <==> left == Retained(list, remove)
  {
    StandingSurvives(list, remove);
    if from: seq<nat> :| SurviveFrom(list, remove, left, from) {
      var own := Standing(list, remove);
      forall k: nat ensures k in from <==> k in own {
        if k in from {
          var i :| 0 <= i < |from| && from[i] == k;
        }
      }
      SamePlaces(from, own);
    }
  }

  /** A delta takes `list` to `after`: what survives, the upserts one by one,
      the appends one by one, and then exactly `count` entries. */
  ghost predicate DeltaTo(list: seq<Entry>, frame: Frame, after: seq<Entry>)
    requires frame.Delta?
  {
    && |after| == frame.count
    && exists left, mid ::
      Survive(list, frame.remove, left) && UpsertRun(left, frame.upsert, mid) && AppendRun(mid, frame.append, after)
  }

  /** Main result: a delta is accepted, and leaves `after`, if and only if it
      takes the copy there; it is refused if it leads nowhere. */
  lemma DeltaAcceptedIff(list: seq<Entry>, frame: Frame)
    requires frame.Delta?
    ensures forall after :: ApplyFrame(list, frame) == Some(after) <==> DeltaTo(list, frame, after)
    ensures ApplyFrame(list, frame).None? <==> forall after :: !DeltaTo(list, frame, after)
  {
    forall after ensures ApplyFrame(list, frame) == Some(after) <==> DeltaTo(list, frame, after) {
      DeltaIff(list, frame, after);
    }
    if ApplyFrame(list, frame).Some? {
      assert DeltaTo(list, frame, ApplyFrame(list, frame).value);
    }
  }

  lemma DeltaIff(list: seq<Entry>, frame: Frame, after: seq<Entry>)
    requires frame.Delta?
    ensures ApplyFrame(list, frame) == Some(after) <==> DeltaTo(list, frame, after)
  {
    var own := Retained(list, frame.remove);
    SurviveIff(list, frame.remove, own);
    if ApplyFrame(list, frame) == Some(after) {
      var mid := ApplyUpserts(own, frame.upsert).value;
      UpsertRunIff(own, frame.upsert, mid);
      AppendRunIff(mid, frame.append, after);
    }
    if DeltaTo(list, frame, after) {
      var left, mid :|
        Survive(list, frame.remove, left) && UpsertRun(left, frame.upsert, mid) && AppendRun(mid, frame.append, after);
      SurviveIff(list, frame.remove, left);
      UpsertRunIff(left, frame.upsert, mid);
      AppendRunIff(mid, frame.append, after);
    }
  }

  // ── the count ─────────────────────────────────────────────────────────────

  function UpsertIds(us: seq<Upsert>): seq<string> {
    if us == [] then [] else UpsertIds(us[..|us| - 1]) + [us[|us| - 1].entry.id]
  }

  /** The ids a delta upserts. */
  function IdsOf(us: seq<Upsert>): set<string> {
    set u | u in us :: u.entry.id
  }

  /** The entries a delta neither removes nor upserts. */
  function Untouched(list: seq<Entry>, frame: Frame): seq<Entry>
    requires frame.Delta?
  {
    Retained(Retained(list, frame.remove), UpsertIds(frame.upsert))
  }

  lemma {:induction false} RetainedOneLess(list: seq<Entry>, ids: seq<string>, x: string)
    requires Unique(list)
    ensures |Retained(list, ids + [x])| ==
      |Retained(list, ids)| - if x !in ids && exists k :: 0 <= k < |list| && list[k].id == x then 1 else 0
    decreases |list|
  {
    if list == [] {
    } else {
      var rest := list[1..];
      assert forall k :: 0 <= k < |rest| ==> rest[k] == list[k + 1];
      RetainedOneLess(rest, ids, x);
      assert (exists k :: 0 <= k < |list| && list[k].id == x) <==>
        list[0].id == x || exists k :: 0 <= k < |rest| && rest[k].id == x by {
        if k :| 0 <= k < |list| && list[k].id == x {
          assert k > 0 ==> rest[k - 1].id == x;
        }
      }
      assert list[0].id == x ==> forall k :: 0 <= k < |rest| ==> rest[k].id != x;
    }
  }

  lemma HasIff(list: seq<Entry>, x: string)
    ensures Has(list, x) <==> exists k :: 0 <= k < |list| && list[k].id == x
  {
  }

  lemma AnchoredIf(list: seq<Entry>, u: Upsert)
    requires Unique(list) && ApplyUpsert(list, u).Some?
    ensures Anchored(list, u)
  {
    if u.after.Some? {
      var k := Ix(list, u.entry.id);
      RemovedGone(list, u.entry.id);
      if u.after.value != u.entry.id {
        RemovedIx(list, k, u.after.value);
      }
    }
  }

  lemma IdsNext(us: seq<Upsert>)
    requires us != []
    ensures IdsOf(us) == IdsOf(us[..|us| - 1]) + {us[|us| - 1].entry.id}
    ensures forall x :: x in UpsertIds(us) <==> x in UpsertIds(us[..|us| - 1]) || x == us[|us| - 1].entry.id
  {
    var front, u := us[..|us| - 1], us[|us| - 1];
    assert us == front + [u];
  }

  lemma OneUpsertCount(mid: seq<Entry>, u: Upsert)
    requires Unique(mid) && ApplyUpsert(mid, u).Some?
    ensures var after := ApplyUpsert(mid, u).value;
      && Unique(after) && |after| == (if Has(mid, u.entry.id) then |mid| else |mid| + 1)
      && forall y :: Has(after, y) <==> Has(mid, y) || y == u.entry.id
  {
    AnchoredIf(mid, u);
    UpsertShape(mid, u);
    forall y ensures Has(ApplyUpsert(mid, u).value, y) <==> Has(mid, y) || y == u.entry.id {
      if y != u.entry.id {
        UpsertOther(mid, u, y);
      }
    }
  }

  /** What upserts leave: unique ids, the old ones and the new, and a length
      that counts what they did not touch and what they put. */
  lemma {:induction false} UpsertsCount(list: seq<Entry>, us: seq<Upsert>)
    requires Unique(list) && ApplyUpserts(list, us).Some?
    ensures var after := ApplyUpserts(list, us).value;
      && Unique(after) && (forall x :: Has(after, x) <==> Has(list, x) || x in IdsOf(us))
      && (forall x :: x in UpsertIds(us) <==> x in IdsOf(us))
      && |after| == |Retained(list, UpsertIds(us))| + |IdsOf(us)|
    decreases |us|
  {
    if us == [] {
      NothingRemoved(list);
    } else {
      var front, u := us[..|us| - 1], us[|us| - 1];
      var mid, x := ApplyUpserts(list, front).value, u.entry.id;
      UpsertsCount(list, front);
      OneUpsertCount(mid, u);
      IdsNext(us);
      RetainedOneLess(list, UpsertIds(front), x);
      HasIff(list, x);
    }
  }

  lemma {:induction false} AppendsLength(list: seq<Entry>, appends: seq<TextAppend>)
    requires ApplyAppends(list, appends).Some?
    ensures |ApplyAppends(list, appends).value| == |list|
    decreases |appends|
  {
    if appends == [] {
    } else {
      AppendsLength(list, appends[..|appends| - 1]);
    }
  }

  lemma {:induction false} RetainedUnique(list: seq<Entry>, remove: seq<string>)
    requires Unique(list)
    ensures Unique(Retained(list, remove)) && forall e :: e in Retained(list, remove) ==> e in list
    decreases |list|
  {
    if list == [] {
    } else {
      var rest := list[1..];
      assert forall k :: 0 <= k < |rest| ==> rest[k] == list[k + 1];
      RetainedUnique(rest, remove);
      var left := Retained(rest, remove);
      forall j | 0 <= j < |left| ensures left[j].id != list[0].id {
        assert left[j] in rest;
      }
    }
  }

  /** An accepted delta announces the entries it leaves alone and the ones it puts. */
  lemma AcceptedCount(list: seq<Entry>, frame: Frame)
    requires Unique(list) && frame.Delta? && ApplyFrame(list, frame).Some?
    ensures frame.count == |Untouched(list, frame)| + |IdsOf(frame.upsert)|
  {
    var left := Retained(list, frame.remove);
    RetainedUnique(list, frame.remove);
    UpsertsCount(left, frame.upsert);
    AppendsLength(ApplyUpserts(left, frame.upsert).value, frame.append);
  }

  /** A copy that holds another number of entries the delta does not mention
      than the list it was made for is always refused. */
  lemma OtherCountRefused(engine: seq<Entry>, copy: seq<Entry>, frame: Frame)
    requires Unique(engine) && Unique(copy) && frame.Delta? && ApplyFrame(engine, frame).Some?
    requires |Untouched(copy, frame)| != |Untouched(engine, frame)|
    ensures ApplyFrame(copy, frame).None?
  {
    AcceptedCount(engine, frame);
    if ApplyFrame(copy, frame).Some? {
      AcceptedCount(copy, frame);
    }
  }

  // ── what a delta leaves alone ─────────────────────────────────────────────

  /** The same entry under this id, or none, in both lists. */
  ghost predicate Alike(a: seq<Entry>, b: seq<Entry>, id: string) {
    (Has(a, id) <==> Has(b, id)) && (Has(a, id) && Has(b, id) ==> a[Ix(a, id)] == b[Ix(b, id)])
  }

  lemma {:induction false} UpsertsKeep(list: seq<Entry>, us: seq<Upsert>, id: string)
    requires Unique(list) && ApplyUpserts(list, us).Some?
    requires forall i :: 0 <= i < |us| ==> us[i].entry.id != id
    ensures Unique(ApplyUpserts(list, us).value) && Alike(list, ApplyUpserts(list, us).value, id)
    decreases |us|
  {
    if us == [] {
    } else {
      var front, u := us[..|us| - 1], us[|us| - 1];
      var mid := ApplyUpserts(list, front).value;
      UpsertsKeep(list, front, id);
      AnchoredIf(mid, u);
      UpsertShape(mid, u);
      UpsertOther(mid, u, id);
    }
  }

  lemma AppendKeeps(list: seq<Entry>, a: TextAppend, id: string)
    requires Unique(list) && ApplyAppend(list, a).Some?
    ensures var after := ApplyAppend(list, a).value;
      Unique(after) && (Has(after, id) <==> Has(list, id)) && (a.entry != id ==> Alike(list, after, id))
  {
    var after := ApplyAppend(list, a).value;
    assert forall i :: 0 <= i < |list| ==> after[i].id == list[i].id;
    forall i, j | 0 <= i < j < |after| ensures after[i].id != after[j].id {
      assert list[i].id != list[j].id;
    }
    if Has(list, id) {
      IxOf(after, Ix(list, id), id);
    }
  }

  lemma {:induction false} AppendsKeep(list: seq<Entry>, appends: seq<TextAppend>, id: string)
    requires Unique(list) && ApplyAppends(list, appends).Some?
    requires forall i :: 0 <= i < |appends| ==> appends[i].entry != id
    ensures Unique(ApplyAppends(list, appends).value) && Alike(list, ApplyAppends(list, appends).value, id)
    decreases |appends|
  {
    if appends == [] {
    } else {
      var front := appends[..|appends| - 1];
      AppendsKeep(list, front, id);
      AppendKeeps(ApplyAppends(list, front).value, appends[|appends| - 1], id);
    }
  }

  /** An accepted delta leaves an entry it neither upserts nor appends to as
      it was, and drops it only if it says so. */
  lemma UnmentionedStays(list: seq<Entry>, frame: Frame, id: string)
    requires Unique(list) && frame.Delta? && ApplyFrame(list, frame).Some?
    requires forall i :: 0 <= i < |frame.upsert| ==> frame.upsert[i].entry.id != id
    requires forall i :: 0 <= i < |frame.append| ==> frame.append[i].entry != id
    ensures var after := ApplyFrame(list, frame).value;
      && (Has(after, id) <==> Has(list, id) && id !in frame.remove)
      && (Has(after, id) ==> after[Ix(after, id)] == list[Ix(list, id)])
  {
    var left := Retained(list, frame.remove);
    DiffExact.RetainedFacts(list, frame.remove, id, id);
    UpsertsKeep(left, frame.upsert, id);
    AppendsKeep(ApplyUpserts(left, frame.upsert).value, frame.append, id);
  }
}
