/** Streaming refines folding: what the writer stores is what a fresh write of
    the folded parts would store, exactly when no stored part lost anything. */
module StreamExact {
  import opened Options
  import opened Parts
  import opened Fold
  import opened Stream

  // ── one flush ─────────────────────────────────────────────────────────────

  /** The document holds exactly the parts of the mirror. */
  ghost predicate Clean(s: Writing) {
    s.ok && s.doc == DocOf(s.written)
  }

  /** A part stored as `w` after it was flushed as `f`. */
  function SlotDoc(w: MessagePart, f: MessagePart): DocPart {
    if w == f then ToDoc(w)
    else if TextGrew(w, f) then WithBody(ToDoc(w), f.Reasoning?, f.text)
    else Updated(ToDoc(w), f)
  }

  lemma {:induction false} SlotIff(w: MessagePart, f: MessagePart)
    ensures SlotDoc(w, f) == ToDoc(f) <==> Keeps(w, f)
  {
    if w.Tool? && f.Tool? {
      ToolSlotIff(w, f);
    } else if SameKind(w, f) {
      SameKindSlotIff(w, f);
    } else {
      OtherKindDiffers(w, f);
    }
  }

  lemma {:induction false} SameKindSlotIff(w: MessagePart, f: MessagePart)
    requires SameKind(w, f) && !w.Tool?
    ensures SlotDoc(w, f) == ToDoc(f) <==> Keeps(w, f)
  {
  }

  /** A part of another kind is never stored as a fresh write would store it. */
  lemma {:induction false} OtherKindDiffers(w: MessagePart, f: MessagePart)
    requires !SameKind(w, f)
    ensures SlotDoc(w, f) != ToDoc(f) && !Keeps(w, f)
  {
  }

  lemma ToolSlotIff(w: MessagePart, f: MessagePart)
    requires w.Tool? && f.Tool?
    ensures SlotDoc(w, f) == ToDoc(f) <==> Keeps(w, f)
  {
    var p, q := Updated(ToDoc(w), f), ToDoc(f);
    assert p == q <==>
      p.id == q.id && p.isError == q.isError && p.diffStats == q.diffStats && p.subagentStatus == q.subagentStatus;
  }

  lemma ChangeSlot(w: MessagePart, f: MessagePart)
    requires TextGrew(w, f)
    ensures w.text + f.text[|w.text|..] == f.text
    ensures TextBody(ToDoc(w), f.Reasoning?) == Some(w.text)
    ensures f.text[|w.text|..] == [] ==> SlotDoc(w, f) == ToDoc(w)
  {
    assert f.text == f.text[..|w.text|] + f.text[|w.text|..];
    if f.text[|w.text|..] == [] {
      assert f.text == w.text;
    }
  }

  /** What the first `n` parts of a flush leave. */
  ghost predicate FlushedTo(s: Writing, folded: seq<MessagePart>, n: nat, t: Writing)
    requires n <= |folded|
  {
    && t.ok && |t.doc| == |t.written| == (if n > |s.written| then n else |s.written|)
    && (forall i :: 0 <= i < n ==> t.written[i] == folded[i])
    && (forall i :: n <= i < |s.written| ==> t.written[i] == s.written[i] && t.doc[i] == ToDoc(s.written[i]))
    && (forall i :: 0 <= i < n && i < |s.written| ==> t.doc[i] == SlotDoc(s.written[i], folded[i]))
    && (forall i :: |s.written| <= i < n ==> t.doc[i] == ToDoc(folded[i]))
  }

  lemma FlushNext(s: Writing, folded: seq<MessagePart>, n: nat, t: Writing)
    requires n < |folded| && FlushedTo(s, folded, n, t)
    ensures FlushedTo(s, folded, n + 1, SyncPart(t, folded[n], n))
  {
    if n < |s.written| && TextGrew(s.written[n], folded[n]) {
      ChangeSlot(s.written[n], folded[n]);
    }
  }

  lemma FlushShape(s: Writing, folded: seq<MessagePart>, n: nat)
    requires Clean(s) && n <= |folded|
    ensures FlushedTo(s, folded, n, SyncTo(s, folded, n))
  {
    assert FlushedTo(s, folded, 0, SyncTo(s, folded, 0));
    for k := 0 to n
      invariant exists m: nat :: m == k && FlushedTo(s, folded, m, SyncTo(s, folded, m))
    {
      FlushNext(s, folded, k, SyncTo(s, folded, k));
      assert SyncTo(s, folded, k + 1) == SyncPart(SyncTo(s, folded, k), folded[k], k);
    }
  }

  /** Main result for one flush: it never fails on a clean document, and it
      leaves what a fresh write would leave if and only if every written part
      was refreshed without losing anything stored. */
  lemma FlushExactIff(s: Writing, folded: seq<MessagePart>)
    requires Clean(s)
    ensures Synced(s, folded).ok
    ensures Synced(s, folded).doc == DocOf(folded) <==> KeepsAll(s.written, folded)
    ensures KeepsAll(s.written, folded) ==> Synced(s, folded).written == folded
  {
    var t := Synced(s, folded);
    FlushShape(s, folded, |folded|);
    if |s.written| <= |folded| {
      forall i | 0 <= i < |s.written| ensures t.doc[i] == ToDoc(folded[i]) <==> Keeps(s.written[i], folded[i]) {
        SlotIff(s.written[i], folded[i]);
      }
      assert t.doc == DocOf(folded) <==> forall i :: 0 <= i < |folded| ==> t.doc[i] == ToDoc(folded[i]);
      assert t.written == folded;
    }
  }

  // ── each character once ───────────────────────────────────────────────────

  function TextTotal(parts: seq<MessagePart>): nat {
    if parts == [] then 0 else TextTotal(parts[..|parts| - 1]) + TextLen(parts[|parts| - 1])
  }

  lemma {:induction false} TextTotalUpdate(parts: seq<MessagePart>, i: nat, part: MessagePart)
    requires i < |parts|
    ensures TextTotal(parts[i := part]) + TextLen(parts[i]) == TextTotal(parts) + TextLen(part)
  {
    var n, after := |parts| - 1, parts[i := part];
    if i < n {
      TextTotalUpdate(parts[..n], i, part);
      assert after[..n] == parts[..n][i := part];
    } else {
      assert after[..n] == parts[..n];
    }
  }

  lemma InsertedNext(t: Writing, part: MessagePart, i: nat)
    requires t.ok && |t.doc| == |t.written| && i <= |t.written|
    requires i < |t.written| ==> Keeps(t.written[i], part) && Grown(t.written[i], part)
    requires SyncPart(t, part, i).ok
    ensures SyncPart(t, part, i).inserted + TextTotal(t.written) == t.inserted + TextTotal(SyncPart(t, part, i).written)
  {
    if i < |t.written| {
      TextTotalUpdate(t.written, i, part);
    } else {
      assert (t.written + [part])[..|t.written|] == t.written;
    }
  }

  /** The bytes inserted are the bytes the mirror gained. */
  ghost predicate Conserved(s: Writing, t: Writing) {
    t.inserted + TextTotal(s.written) == s.inserted + TextTotal(t.written)
  }

  ghost predicate FlushedOnce(s: Writing, folded: seq<MessagePart>, n: nat, t: Writing)
    requires n <= |folded|
  {
    FlushedTo(s, folded, n, t) && Conserved(s, t)
  }

  lemma InsertedStep(s: Writing, folded: seq<MessagePart>, n: nat, t: Writing)
    requires n < |folded| && KeepsAll(s.written, folded) && GrownAll(s.written, folded) && FlushedOnce(s, folded, n, t)
    ensures FlushedOnce(s, folded, n + 1, SyncPart(t, folded[n], n))
  {
    FlushNext(s, folded, n, t);
    if n < |t.written| {
      assert Keeps(s.written[n], folded[n]) && Grown(s.written[n], folded[n]);
    }
    InsertedNext(t, folded[n], n);
  }

  lemma InsertedOnce(s: Writing, folded: seq<MessagePart>)
    requires Clean(s) && KeepsAll(s.written, folded) && GrownAll(s.written, folded)
    ensures Conserved(s, Synced(s, folded))
  {
    assert FlushedOnce(s, folded, 0, SyncTo(s, folded, 0));
    for n := 0 to |folded|
      invariant exists m: nat :: m == n && FlushedOnce(s, folded, m, SyncTo(s, folded, m))
    {
      assert SyncTo(s, folded, n + 1) == SyncPart(SyncTo(s, folded, n), folded[n], n);
      InsertedStep(s, folded, n, SyncTo(s, folded, n));
    }
  }

  // ── whole runs ────────────────────────────────────────────────────────────

  /** A tool's call is stripped of what must not be stored. */
  function RenderPart(strip: ToolCall -> ToolCall, part: MessagePart): MessagePart {
    if part.Tool? then part.(call := strip(part.call)) else part
  }

  function Rendered(strip: ToolCall -> ToolCall, parts: seq<MessagePart>): seq<MessagePart> {
    Replaced(parts, (p: MessagePart) => RenderPart(strip, p))
  }

  lemma RenderKeeps(strip: ToolCall -> ToolCall, a: seq<MessagePart>, b: seq<MessagePart>)
    ensures KeepsAll(Rendered(strip, a), Rendered(strip, b)) <==> KeepsAll(a, b)
    ensures GrownAll(Rendered(strip, a), Rendered(strip, b)) <==> GrownAll(a, b)
  {
    var ra, rb := Rendered(strip, a), Rendered(strip, b);
    if |a| <= |b| {
      forall i | 0 <= i < |a|
        ensures Keeps(ra[i], rb[i]) <==> Keeps(a[i], b[i])
        ensures Grown(ra[i], rb[i]) <==> Grown(a[i], b[i])
      {
      }
    }
  }

  /** An event arrives, the commit timer flushes, or the writer is given up
      and another one reattaches to its entry with its mirror. */
  datatype Tick = Happens(event: AgentEvent) | Flush | Reattach

  datatype Live = Live(folded: seq<MessagePart>, w: Writing)

  const IDLE: Live := Live([], Writing([], [], 0, true))

  /** The state a reattached writer starts from. */
  function Resumed(w: Writing): Writing {
    Writing(w.doc, w.written, w.inserted, true)
  }

  function TickOf(strip: ToolCall -> ToolCall, s: Live, tick: Tick): Live {
    match tick
    case Happens(event) => s.(folded := FoldEvent(s.folded, event))
    case Flush => s.(w := Synced(s.w, Rendered(strip, s.folded)))
    case Reattach => s.(w := Resumed(s.w))
  }

  function Run(strip: ToolCall -> ToolCall, ticks: seq<Tick>): Live {
    if ticks == [] then IDLE else TickOf(strip, Run(strip, ticks[..|ticks| - 1]), ticks[|ticks| - 1])
  }

  function EventsOf(ticks: seq<Tick>): seq<AgentEvent> {
    if ticks == [] then []
    else EventsOf(ticks[..|ticks| - 1]) + match ticks[|ticks| - 1]
                                          case Happens(event) => [event]
                                          case Flush | Reattach => []
  }

  /** The mirror never runs ahead of the fold and has lost nothing. */
  ghost predicate InStep(strip: ToolCall -> ToolCall, s: Live) {
    && Clean(s.w) && s.w.inserted == TextTotal(s.w.written)
    && KeepsAll(s.w.written, Rendered(strip, s.folded)) && GrownAll(s.w.written, Rendered(strip, s.folded))
  }

  lemma EventInStep(strip: ToolCall -> ToolCall, s: Live, event: AgentEvent)
    requires InStep(strip, s) && Keeping(s.folded, event)
    ensures InStep(strip, TickOf(strip, s, Happens(event)))
  {
    var after := FoldEvent(s.folded, event);
    FoldKeepsIff(s.folded, event);
    FoldGrows(s.folded, event);
    RenderKeeps(strip, s.folded, after);
    KeepsTwice(s.w.written, Rendered(strip, s.folded), Rendered(strip, after));
    GrownTwice(s.w.written, Rendered(strip, s.folded), Rendered(strip, after));
  }

  lemma FlushInStep(strip: ToolCall -> ToolCall, s: Live)
    requires InStep(strip, s)
    ensures InStep(strip, TickOf(strip, s, Flush))
    ensures TickOf(strip, s, Flush).w.written == Rendered(strip, s.folded)
  {
    var rendered := Rendered(strip, s.folded);
    FlushExactIff(s.w, rendered);
    InsertedOnce(s.w, rendered);
    assert rendered + [] == rendered;
    KeepsSelf(rendered, []);
  }

  lemma {:induction false} RunFolds(strip: ToolCall -> ToolCall, ticks: seq<Tick>)
    requires KeepingAll([], EventsOf(ticks))
    ensures Run(strip, ticks).folded == FoldAll([], EventsOf(ticks))
    ensures InStep(strip, Run(strip, ticks))
  {
    if ticks == [] {
    } else {
      var before, tick := ticks[..|ticks| - 1], ticks[|ticks| - 1];
      match tick {
        case Happens(event) =>
          assert EventsOf(ticks)[..|EventsOf(ticks)| - 1] == EventsOf(before);
          RunFolds(strip, before);
          EventInStep(strip, Run(strip, before), event);
        case Flush =>
          assert EventsOf(ticks) == EventsOf(before);
          RunFolds(strip, before);
          FlushInStep(strip, Run(strip, before));
        case Reattach =>
          assert EventsOf(ticks) == EventsOf(before);
          RunFolds(strip, before);
      }
    }
  }

  lemma {:induction false} RenderedText(strip: ToolCall -> ToolCall, parts: seq<MessagePart>)
    ensures TextTotal(Rendered(strip, parts)) == TextTotal(parts)
    ensures ReplyText(Read(DocOf(Rendered(strip, parts)))) == ReplyText(parts)
  {
    var rendered := Rendered(strip, parts);
    forall i | 0 <= i < |parts|
      ensures Read(DocOf(rendered))[i].Text? == parts[i].Text?
      ensures parts[i].Text? ==> Read(DocOf(rendered))[i].text == parts[i].text
    {
      StoredPartReadsBack(rendered[i]);
    }
    SameReplyText(Read(DocOf(rendered)), parts);
    SameTotal(rendered, parts);
  }

  lemma {:induction false} SameTotal(a: seq<MessagePart>, b: seq<MessagePart>)
    requires |a| == |b| && forall i :: 0 <= i < |a| ==> TextLen(a[i]) == TextLen(b[i])
    ensures TextTotal(a) == TextTotal(b)
  {
    if a == [] {
    } else {
      SameTotal(a[..|a| - 1], b[..|b| - 1]);
    }
  }

  /** Main result: however flushes interleave with the events, after a flush
      the entry reads as the fold of all events so far, part by part, every
      text byte was inserted once, and the reply text is the streamed text. */
  lemma StreamingRefinesFolding(strip: ToolCall -> ToolCall, ticks: seq<Tick>)
    requires KeepingAll([], EventsOf(ticks))
    ensures var rendered, w := Rendered(strip, FoldAll([], EventsOf(ticks))), Run(strip, ticks + [Flush]).w;
      && w.ok && |w.doc| == |rendered| && w.doc == DocOf(rendered)
      && (forall i :: 0 <= i < |rendered| ==> Read(w.doc)[i] == ReadsAs(rendered[i]))
      && w.inserted == TextTotal(FoldAll([], EventsOf(ticks)))
      && ReplyText(Read(w.doc)) == StreamedText(EventsOf(ticks))
  {
    var all := ticks + [Flush];
    assert all[..|all| - 1] == ticks;
    RunFolds(strip, ticks);
    FlushInStep(strip, Run(strip, ticks));
    var folded := FoldAll([], EventsOf(ticks));
    var rendered := Rendered(strip, folded);
    forall i | 0 <= i < |rendered| ensures Read(DocOf(rendered))[i] == ReadsAs(rendered[i]) {
      StoredPartReadsBack(rendered[i]);
    }
    RenderedText(strip, folded);
    TextIsStreamed(EventsOf(ticks));
  }

  /** The condition is exact: right after a flush, one more event and a flush
      store the fold if and only if the event keeps what is stored. */
  lemma LossIsExact(strip: ToolCall -> ToolCall, ticks: seq<Tick>, event: AgentEvent)
    requires KeepingAll([], EventsOf(ticks))
    ensures var s := Run(strip, ticks + [Flush, Happens(event), Flush]);
      s.w.doc == DocOf(Rendered(strip, s.folded)) <==> Keeping(FoldAll([], EventsOf(ticks)), event)
  {
    var one, two, three := ticks + [Flush], ticks + [Flush, Happens(event)], ticks + [Flush, Happens(event), Flush];
    assert one[..|one| - 1] == ticks && two[..|two| - 1] == one && three[..|three| - 1] == two;
    RunFolds(strip, ticks);
    var s := Run(strip, ticks);
    FlushInStep(strip, s);
    var folded := FoldEvent(s.folded, event);
    FlushExactIff(Run(strip, one).w, Rendered(strip, folded));
    RenderKeeps(strip, s.folded, folded);
    FoldKeepsIff(s.folded, event);
  }
}
