/** What the folded parts show, read off the whole list of events: which
    events open a part, and what each part shows of all that came after. */
module FoldExact {
  import opened Options
  import opened Parts
  import opened Fold
  import Hlc

  type Events = seq<AgentEvent>

  // ── which events open a part ──────────────────────────────────────────────

  predicate Called(es: Events, id: string) {
    exists i :: 0 <= i < |es| && es[i].CallTool? && es[i].id == id
  }

  predicate Drawn(es: Events, id: string) {
    exists i :: 0 <= i < |es| && es[i].GeneratedImage? && es[i].id == id
  }

  predicate Requested(es: Events, requestId: string) {
    exists i :: 0 <= i < |es| && es[i].InputRequested? && es[i].requestId == requestId
  }

  /** The event opens a part behind the events before it: the first text after
      something else, the first reasoning after something else, the first call
      of a tool, the first image of an id, the first request whose part id is
      free, and each error. */
  predicate Opens(es: Events, e: AgentEvent)
    decreases |es|, 1
  {
    match e
    case TextDelta(_) => LastOpener(es) < 0 || !es[LastOpener(es)].TextDelta?
    case ReasoningDelta(text) => text != [] && (LastOpener(es) < 0 || !es[LastOpener(es)].ReasoningDelta?)
    case GeneratedImage(id, _, _, _) => !Drawn(es, id)
    case CallTool(id, _) => !Called(es, id)
    case InputRequested(requestId, _) =>
      !Requested(es, requestId) && !Called(es, "in-" + requestId) && !Drawn(es, "in-" + requestId)
    case ErrorRaised(_) => true
    case TurnDone(_, error) => error.Some?
    case _ => false
  }

  /** The latest event that opened a part, or -1. */
  function LastOpener(es: Events): (i: int)
    ensures -1 <= i < |es|
    decreases |es|, 0
  {
    if es == [] then -1
    else if Opens(es[..|es| - 1], es[|es| - 1]) then |es| - 1
    else LastOpener(es[..|es| - 1])
  }

  /** The kinds of event that can open a part. */
  predicate Opening(e: AgentEvent) {
    || e.TextDelta? || e.ReasoningDelta? || e.GeneratedImage? || e.CallTool? || e.InputRequested? || e.ErrorRaised?
    || (e.TurnDone? && e.error.Some?)
  }

  /** The events that open a part, in order. */
  function Openers(es: Events): (r: seq<nat>)
    ensures forall k :: 0 <= k < |r| ==> r[k] < |es| && Opening(es[r[k]])
    ensures r == [] <==> LastOpener(es) < 0
    ensures r != [] ==> r[|r| - 1] == LastOpener(es)
  {
    if es == [] then []
    else Openers(es[..|es| - 1]) + if Opens(es[..|es| - 1], es[|es| - 1]) then [|es| - 1] else []
  }

  /** The first event behind `i` that opens a part, or the end. */
  function NextOpener(es: Events, i: nat): (n: nat)
    requires i < |es|
    ensures i < n <= |es|
  {
    if |es| == i + 1 then |es|
    else
      var front := es[..|es| - 1];
      var n := NextOpener(front, i);
      if n < |front| then n else if Opens(front, es[|front|]) then |front| else |es|
  }

  // ── what a part shows of the events behind its opener ─────────────────────

  function StreamedReasoning(es: Events): Text {
    if es == [] then []
    else StreamedReasoning(es[..|es| - 1]) + match es[|es| - 1]
                                             case ReasoningDelta(text) => text
                                             case _ => []
  }

  /** The last call of the tool that event `i` first called. */
  function LatestCall(es: Events, i: nat, id: string): ToolCall
    requires i < |es| && es[i].CallTool?
  {
    if |es| == i + 1 then es[i].call
    else match es[|es| - 1]
      case CallTool(x, call) => if x == id then call else LatestCall(es[..|es| - 1], i, id)
      case _ => LatestCall(es[..|es| - 1], i, id)
  }

  /** The last image of that id. */
  function LatestImage(es: Events, i: nat, id: string): (image: AgentEvent)
    requires i < |es| && es[i].GeneratedImage?
    ensures image.GeneratedImage?
  {
    if |es| == i + 1 then es[i]
    else if es[|es| - 1].GeneratedImage? && es[|es| - 1].id == id then es[|es| - 1]
    else LatestImage(es[..|es| - 1], i, id)
  }

  /** The last result of the tool behind event `i`. */
  function LastResult(es: Events, i: nat, id: string): (r: Option<AgentEvent>)
    requires i < |es|
    ensures r.Some? ==> r.value.ToolResult?
  {
    if |es| == i + 1 then None
    else if es[|es| - 1].ToolResult? && es[|es| - 1].id == id then Some(es[|es| - 1])
    else LastResult(es[..|es| - 1], i, id)
  }

  predicate ResolvedBehind(es: Events, i: nat, requestId: string) {
    exists j :: i < j < |es| && es[j].InputResolved? && es[j].requestId == requestId
  }

  /** Event `j` is tagged with the spawn call of that id, which stood then. */
  predicate Tagged(es: Events, i: nat, id: string, j: int)
    requires i < |es| && es[i].CallTool?
  {
    i < j < |es| && es[j].Subagent? && es[j].parent == id && LatestCall(es[..j], i, id).spawns
  }

  /** A tagged event that ends the subagent's turn or starts a new one. */
  predicate Reports(es: Events, j: int) {
    0 <= j < |es| && es[j].Subagent? && (es[j].event.TurnDone? || es[j].event.UserMessage? || es[j].event.Steered?)
  }

  /** The last such report, or -1. */
  function LastReport(es: Events, i: nat, id: string): (j: int)
    requires i < |es| && es[i].CallTool?
    ensures j >= 0 ==> Tagged(es, i, id, j) && Reports(es, j)
  {
    if |es| == i + 1 then -1
    else if Tagged(es, i, id, |es| - 1) && Reports(es, |es| - 1) then |es| - 1
    else
      var j := LastReport(es[..|es| - 1], i, id);
      assert j >= 0 ==> es[..|es| - 1][..j] == es[..j];
      j
  }

  predicate HeardOf(es: Events, i: nat, id: string)
    requires i < |es| && es[i].CallTool?
  {
    exists j :: i < j < |es| && Tagged(es, i, id, j)
  }

  /** The chip: as the last report says, running on mere traffic, else bare. */
  function ChipShown(es: Events, i: nat, id: string): Option<SubagentStatus>
    requires i < |es| && es[i].CallTool?
  {
    var j := LastReport(es, i, id);
    if j >= 0 then
      Some(if !es[j].event.TurnDone? then Running else if es[j].event.errored then Failed else Done)
    else if HeardOf(es, i, id) then Some(Running)
    else None
  }

  // ── the parts ─────────────────────────────────────────────────────────────

  /** The part that event `i` opened as the `k`-th, after all the events. */
  function PartShown(es: Events, i: nat, k: nat): MessagePart
    requires i < |es| && Opening(es[i])
  {
    match es[i]
    case TextDelta(_) => MessagePart.Text("t" + Hlc.Digits(k, 1), StreamedText(es[i..NextOpener(es, i)]))
    case ReasoningDelta(_) => Reasoning("r" + Hlc.Digits(k, 1), StreamedReasoning(es[i..NextOpener(es, i)]))
    case GeneratedImage(id, _, _, _) =>
      var image := LatestImage(es, i, id);
      Image(id, image.path, image.name, image.mimeType)
    case CallTool(id, _) =>
      var result := LastResult(es, i, id);
      Tool(id, LatestCall(es, i, id), result.Some? && result.value.isError, result.Some?,
           if result.Some? && result.value.diff.Some? then Some([result.value.diff.value]) else None,
           ChipShown(es, i, id))
    case InputRequested(requestId, questions) =>
      Input("in-" + requestId, requestId, questions, ResolvedBehind(es, i, requestId))
    case ErrorRaised(message) => Error("e" + Hlc.Digits(k, 1), message)
    case TurnDone(_, Some(message)) => Error("e" + Hlc.Digits(k, 1), message)
  }

  function PartsShown(es: Events): (parts: seq<MessagePart>)
    ensures |parts| == |Openers(es)|
    ensures forall k :: 0 <= k < |parts| ==> parts[k] == PartShown(es, Openers(es)[k], k)
  {
    seq(|Openers(es)|, k requires 0 <= k < |Openers(es)| => PartShown(es, Openers(es)[k], k))
  }

  // ── one more event ────────────────────────────────────────────────────────

  lemma Snoc(es: Events, e: AgentEvent)
    ensures (es + [e])[..|es|] == es && (es + [e])[|es|] == e && |es + [e]| == |es| + 1
    ensures forall j :: 0 <= j < |es| ==> (es + [e])[j] == es[j]
    ensures Openers(es + [e]) == Openers(es) + if Opens(es, e) then [|es|] else []
  {
  }

  lemma SeenNext(es: Events, e: AgentEvent, id: string)
    ensures Called(es + [e], id) <==> Called(es, id) || (e.CallTool? && e.id == id)
    ensures Drawn(es + [e], id) <==> Drawn(es, id) || (e.GeneratedImage? && e.id == id)
    ensures Requested(es + [e], id) <==> Requested(es, id) || (e.InputRequested? && e.requestId == id)
  {
    var all := es + [e];
    assert all[|es|] == e && forall i :: 0 <= i < |es| ==> all[i] == es[i];
  }

  lemma NextOpenerNext(es: Events, e: AgentEvent, i: nat)
    requires i < |es|
    ensures NextOpener(es + [e], i) ==
      if NextOpener(es, i) < |es| then NextOpener(es, i) else if Opens(es, e) then |es| else |es| + 1
  {
    Snoc(es, e);
  }

  /** Openers rise, and each opened its part when it came. */
  lemma {:induction false} OpenersRise(es: Events)
    ensures forall j, k :: 0 <= j < k < |Openers(es)| ==> Openers(es)[j] < Openers(es)[k]
    ensures forall k :: 0 <= k < |Openers(es)| ==> Opens(es[..Openers(es)[k]], es[Openers(es)[k]])
    decreases |es|
  {
    if es == [] {
    } else {
      var front, n := es[..|es| - 1], |es| - 1;
      OpenersRise(front);
      assert forall i :: 0 <= i < n ==> front[i] == es[i] && front[..i] == es[..i];
    }
  }

  /** Only the latest opener has no opener behind it. */
  lemma {:induction false} LastIsOpen(es: Events, k: nat)
    requires k < |Openers(es)|
    ensures NextOpener(es, Openers(es)[k]) == |es| <==> k == |Openers(es)| - 1
    decreases |es|
  {
    var front, n := es[..|es| - 1], |es| - 1;
    OpenersRise(es);
    if Openers(es)[k] < n {
      LastIsOpen(front, k);
    }
  }

  lemma TextNext(es: Events, e: AgentEvent)
    ensures StreamedText(es + [e]) == StreamedText(es) + if e.TextDelta? then e.text else []
    ensures StreamedReasoning(es + [e]) == StreamedReasoning(es) + if e.ReasoningDelta? then e.text else []
  {
    assert (es + [e])[..|es|] == es;
  }

  /** The stretch of events a part covers, one event later. */
  lemma StretchNext(es: Events, e: AgentEvent, i: nat)
    requires i < |es|
    ensures var was, now := es[i..NextOpener(es, i)], (es + [e])[i..NextOpener(es + [e], i)];
      if NextOpener(es, i) == |es| && !Opens(es, e) then now == was + [e] else now == was
  {
    NextOpenerNext(es, e, i);
  }

  /** What one event does to a part that is there. */
  function Touched(part: MessagePart, e: AgentEvent, last: bool): MessagePart {
    match e
    case TextDelta(text) => if last && part.Text? then part.(text := part.text + text) else part
    case ReasoningDelta(text) => if last && part.Reasoning? then part.(text := part.text + text) else part
    case GeneratedImage(id, path, name, mimeType) =>
      if part.Image? && part.id == id then Image(id, path, name, mimeType) else part
    case CallTool(id, call) => if part.Tool? && part.id == id then part.(call := call) else part
    case ToolResult(id, isError, diff) => Resolve(part, id, isError, diff)
    case InputResolved(requestId) => ResolveInput(part, requestId)
    case Subagent(parent, inner) => Chip(part, parent, inner)
    case _ => part
  }

  lemma TaggedNext(es: Events, e: AgentEvent, i: nat, id: string)
    requires i < |es| && es[i].CallTool?
    ensures (es + [e])[i] == es[i]
    ensures forall j :: j < |es| ==> Tagged(es + [e], i, id, j) == Tagged(es, i, id, j)
    ensures Tagged(es + [e], i, id, |es|) <==> e.Subagent? && e.parent == id && LatestCall(es, i, id).spawns
  {
    var all := es + [e];
    Snoc(es, e);
    forall j | i < j < |es| ensures Tagged(all, i, id, j) == Tagged(es, i, id, j) {
      assert all[..j] == es[..j];
    }
  }

  lemma ChipNext(es: Events, e: AgentEvent, i: nat, id: string)
    requires i < |es| && es[i].CallTool?
    ensures (es + [e])[i] == es[i]
    ensures var was, tagged := ChipShown(es, i, id), e.Subagent? && e.parent == id && LatestCall(es, i, id).spawns;
      ChipShown(es + [e], i, id) ==
        if !tagged then was
        else if e.event.TurnDone? then Some(if e.event.errored then Failed else Done)
        else if e.event.UserMessage? || e.event.Steered? then Some(Running)
        else if was == Some(Done) || was == Some(Failed) then was
        else Some(Running)
  {
    var all := es + [e];
    Snoc(es, e);
    TaggedNext(es, e, i, id);
    assert Reports(all, |es|) <==> e.Subagent? && (e.event.TurnDone? || e.event.UserMessage? || e.event.Steered?);
    assert HeardOf(all, i, id) <==> HeardOf(es, i, id) || Tagged(all, i, id, |es|) by {
      if HeardOf(es, i, id) {
        var j :| i < j < |es| && Tagged(es, i, id, j);
        assert Tagged(all, i, id, j);
      }
    }
  }

  lemma ResolvedNext(es: Events, e: AgentEvent, i: nat, requestId: string)
    requires i < |es|
    ensures ResolvedBehind(es + [e], i, requestId) <==>
      ResolvedBehind(es, i, requestId) || (e.InputResolved? && e.requestId == requestId)
  {
    var all := es + [e];
    Snoc(es, e);
    assert all[|es|] == e;
  }

  /** What the stretch of a part reads, one event later. */
  lemma StretchText(es: Events, e: AgentEvent, k: nat)
    requires k < |Openers(es)|
    ensures var i, all := Openers(es)[k], es + [e];
      var was, now := es[i..NextOpener(es, i)], all[i..NextOpener(all, i)];
      var more := k == |Openers(es)| - 1 && !Opens(es, e);
      && StreamedText(now) == StreamedText(was) + (if more && e.TextDelta? then e.text else [])
      && StreamedReasoning(now) == StreamedReasoning(was) + (if more && e.ReasoningDelta? then e.text else [])
  {
    var i := Openers(es)[k];
    LastIsOpen(es, k);
    StretchNext(es, e, i);
    TextNext(es[i..NextOpener(es, i)], e);
  }

  /** The latest text part grows by a text, and by nothing else. */
  lemma GrowthOf(part: MessagePart, e: AgentEvent, last: bool, opens: bool, now: MessagePart)
    requires part.Text? || part.Reasoning?
    requires last && ((part.Text? && e.TextDelta?) || (part.Reasoning? && e.ReasoningDelta?)) ==>
      !opens || (e.ReasoningDelta? && e.text == [])
    requires now == part.(text := part.text +
      if last && !opens && ((part.Text? && e.TextDelta?) || (part.Reasoning? && e.ReasoningDelta?)) then e.text else [])
    ensures now == Touched(part, e, last)
  {
    assert part.text + [] == part.text;
  }

  lemma TextTouched(es: Events, e: AgentEvent, k: nat)
    requires k < |Openers(es)| && (es[Openers(es)[k]].TextDelta? || es[Openers(es)[k]].ReasoningDelta?)
    ensures var i := Openers(es)[k];
      (es + [e])[i] == es[i] &&
      PartShown(es + [e], i, k) == Touched(PartShown(es, i, k), e, k == |Openers(es)| - 1)
  {
    var i, last := Openers(es)[k], k == |Openers(es)| - 1;
    StretchText(es, e, k);
    assert (es + [e])[i] == es[i] && (last ==> i == LastOpener(es));
    GrowthOf(PartShown(es, i, k), e, last, Opens(es, e), PartShown(es + [e], i, k));
  }

  lemma CallNext(es: Events, e: AgentEvent, i: nat, id: string)
    requires i < |es| && es[i].CallTool?
    ensures (es + [e])[i] == es[i]
    ensures LatestCall(es + [e], i, id) == if e.CallTool? && e.id == id then e.call else LatestCall(es, i, id)
    ensures LastResult(es + [e], i, id) == if e.ToolResult? && e.id == id then Some(e) else LastResult(es, i, id)
  {
    Snoc(es, e);
  }

  lemma ToolTouched(es: Events, e: AgentEvent, i: nat, k: nat, last: bool)
    requires i < |es| && es[i].CallTool?
    ensures (es + [e])[i] == es[i] && PartShown(es + [e], i, k) == Touched(PartShown(es, i, k), e, last)
  {
    CallNext(es, e, i, es[i].id);
    ChipNext(es, e, i, es[i].id);
  }

  lemma OtherTouched(es: Events, e: AgentEvent, i: nat, k: nat, last: bool)
    requires i < |es| && Opening(es[i]) && !es[i].TextDelta? && !es[i].ReasoningDelta? && !es[i].CallTool?
    ensures (es + [e])[i] == es[i] && PartShown(es + [e], i, k) == Touched(PartShown(es, i, k), e, last)
  {
    Snoc(es, e);
    if es[i].InputRequested? {
      ResolvedNext(es, e, i, es[i].requestId);
    }
  }

  /** Each part that is there shows the event as it should. */
  lemma PartTouched(es: Events, e: AgentEvent, k: nat)
    requires k < |Openers(es)|
    ensures k < |PartsShown(es + [e])| &&
      PartsShown(es + [e])[k] == Touched(PartsShown(es)[k], e, k == |PartsShown(es)| - 1)
  {
    var i := Openers(es)[k];
    Snoc(es, e);
    if es[i].TextDelta? || es[i].ReasoningDelta? {
      TextTouched(es, e, k);
    } else if es[i].CallTool? {
      ToolTouched(es, e, i, k, k == |Openers(es)| - 1);
    } else {
      OtherTouched(es, e, i, k, k == |Openers(es)| - 1);
    }
  }

  /** The part an event opens. */
  function Fresh(e: AgentEvent, k: nat): MessagePart
    requires Opening(e)
  {
    match e
    case TextDelta(text) => MessagePart.Text("t" + Hlc.Digits(k, 1), text)
    case ReasoningDelta(text) => Reasoning("r" + Hlc.Digits(k, 1), text)
    case GeneratedImage(id, path, name, mimeType) => Image(id, path, name, mimeType)
    case CallTool(id, call) => Tool(id, call, false, false, None, None)
    case InputRequested(requestId, questions) => Input("in-" + requestId, requestId, questions, false)
    case ErrorRaised(message) => Error("e" + Hlc.Digits(k, 1), message)
    case TurnDone(_, Some(message)) => Error("e" + Hlc.Digits(k, 1), message)
  }

  lemma FreshShown(es: Events, e: AgentEvent, k: nat)
    requires Opening(e)
    ensures (es + [e])[|es|] == e && PartShown(es + [e], |es|, k) == Fresh(e, k)
  {
    var all := es + [e];
    Snoc(es, e);
    assert all[|es|..NextOpener(all, |es|)] == [e];
    assert [] + [e] == [e];
    TextNext([], e);
    if e.TextDelta? {
      assert [] + e.text == e.text;
    } else if e.ReasoningDelta? {
      assert [] + e.text == e.text;
    }
  }

  /** The parts one event later: each touched, and one more if it opens one. */
  lemma ShownNext(es: Events, e: AgentEvent)
    ensures Opens(es, e) ==> Opening(e)
    ensures var was, now := PartsShown(es), PartsShown(es + [e]);
      && |now| == |was| + (if Opens(es, e) then 1 else 0)
      && (forall k :: 0 <= k < |was| ==> now[k] == Touched(was[k], e, k == |was| - 1))
      && (Opens(es, e) ==> now[|was|] == Fresh(e, |was|))
  {
    Snoc(es, e);
    forall k | 0 <= k < |PartsShown(es)|
      ensures k < |PartsShown(es + [e])| &&
        PartsShown(es + [e])[k] == Touched(PartsShown(es)[k], e, k == |PartsShown(es)| - 1)
    {
      PartTouched(es, e, k);
    }
    if Opens(es, e) {
      FreshShown(es, e, |PartsShown(es)|);
    }
  }

  // ── which parts are there ─────────────────────────────────────────────────

  /** The kind of a part is that of its opener, and so are the ids of tools and images. */
  lemma ShownKinds(es: Events, k: nat)
    requires k < |PartsShown(es)|
    ensures var part, e := PartsShown(es)[k], es[Openers(es)[k]];
      && (part.Text? <==> e.TextDelta?) && (part.Reasoning? <==> e.ReasoningDelta?)
      && (part.Tool? <==> e.CallTool?) && (part.Tool? ==> part.id == e.id)
      && (part.Image? <==> e.GeneratedImage?) && (part.Image? ==> part.id == e.id)
      && (part.Input? <==> e.InputRequested?) && (part.Input? ==> part.requestId == e.requestId)
  {
  }

  predicate HasTool(parts: seq<MessagePart>, id: string) {
    exists k :: 0 <= k < |parts| && parts[k].Tool? && parts[k].id == id
  }

  predicate HasImage(parts: seq<MessagePart>, id: string) {
    exists k :: 0 <= k < |parts| && parts[k].Image? && parts[k].id == id
  }

  predicate HasId(parts: seq<MessagePart>, id: string) {
    exists k :: 0 <= k < |parts| && parts[k].id == id
  }

  /** A touched part keeps its kind and its id. */
  lemma TouchedKind(part: MessagePart, e: AgentEvent, last: bool)
    ensures var now := Touched(part, e, last); now.Tool? == part.Tool? && now.Image? == part.Image? && now.id == part.id
  {
  }

  lemma HasNext(was: seq<MessagePart>, now: seq<MessagePart>, id: string)
    requires |was| <= |now| <= |was| + 1
    requires forall k :: 0 <= k < |was| ==>
      now[k].Tool? == was[k].Tool? && now[k].Image? == was[k].Image? && now[k].id == was[k].id
    ensures var added := |now| > |was| && now[|was|].id == id;
      && (HasTool(now, id) <==> HasTool(was, id) || (added && now[|was|].Tool?))
      && (HasImage(now, id) <==> HasImage(was, id) || (added && now[|was|].Image?))
      && (HasId(now, id) <==> HasId(was, id) || added)
  {
    if k :| 0 <= k < |was| && was[k].Tool? && was[k].id == id {
      assert now[k].Tool? && now[k].id == id;
    }
    if k :| 0 <= k < |was| && was[k].Image? && was[k].id == id {
      assert now[k].Image? && now[k].id == id;
    }
    if k :| 0 <= k < |was| && was[k].id == id {
      assert now[k].id == id;
    }
  }

  /** Which tools, images and ids are there, one event later. */
  lemma PartsNext(es: Events, e: AgentEvent, id: string)
    ensures Opens(es, e) ==> Opening(e)
    ensures var was, now := PartsShown(es), PartsShown(es + [e]);
      var added := Opens(es, e) && Fresh(e, |was|).id == id;
      && (HasTool(now, id) <==> HasTool(was, id) || (added && e.CallTool?))
      && (HasImage(now, id) <==> HasImage(was, id) || (added && e.GeneratedImage?))
      && (HasId(now, id) <==> HasId(was, id) || added)
  {
    var was, now := PartsShown(es), PartsShown(es + [e]);
    ShownNext(es, e);
    forall k | 0 <= k < |was|
      ensures now[k].Tool? == was[k].Tool? && now[k].Image? == was[k].Image? && now[k].id == was[k].id
    {
      TouchedKind(was[k], e, k == |was| - 1);
    }
    HasNext(was, now, id);
  }

  /** A tool that was called has a part; so has an image. */
  lemma {:induction false} SeenShown(es: Events, id: string)
    ensures Called(es, id) <==> HasTool(PartsShown(es), id)
    ensures Drawn(es, id) <==> HasImage(PartsShown(es), id)
    decreases |es|
  {
    if es == [] {
    } else {
      var front, e := es[..|es| - 1], es[|es| - 1];
      assert es == front + [e];
      SeenShown(front, id);
      SeenNext(front, e, id);
      PartsNext(front, e, id);
    }
  }

  lemma NumberedApart(prefix: string, k: nat, requestId: string)
    requires prefix == "t" || prefix == "r" || prefix == "e"
    ensures prefix + Hlc.Digits(k, 1) != "in-" + requestId
  {
    assert (prefix + Hlc.Digits(k, 1))[0] == prefix[0] && ("in-" + requestId)[0] == 'i';
  }

  lemma SameRequest(a: string, b: string)
    ensures "in-" + a == "in-" + b <==> a == b
  {
    if "in-" + a == "in-" + b {
      assert a == ("in-" + a)[3..] && b == ("in-" + b)[3..];
    }
  }

  /** Whether a fresh part has the id of a request. */
  lemma FreshId(e: AgentEvent, k: nat, requestId: string)
    requires Opening(e)
    ensures Fresh(e, k).id == "in-" + requestId <==>
      || (e.InputRequested? && e.requestId == requestId)
      || ((e.CallTool? || e.GeneratedImage?) && e.id == "in-" + requestId)
  {
    NumberedApart("t", k, requestId);
    NumberedApart("r", k, requestId);
    NumberedApart("e", k, requestId);
    if e.InputRequested? {
      SameRequest(e.requestId, requestId);
    }
  }

  /** The id of a request is taken if and only if it was requested before or
      is that of a tool or an image. */
  lemma {:induction false} RequestShown(es: Events, requestId: string)
    ensures var id := "in-" + requestId;
      HasId(PartsShown(es), id) <==> Requested(es, requestId) || Called(es, id) || Drawn(es, id)
    decreases |es|
  {
    if es == [] {
    } else {
      var front, e, id := es[..|es| - 1], es[|es| - 1], "in-" + requestId;
      assert es == front + [e];
      RequestShown(front, requestId);
      SeenNext(front, e, id);
      SeenNext(front, e, requestId);
      PartsNext(front, e, id);
      if Opening(e) {
        FreshId(e, |PartsShown(front)|, requestId);
      }
    }
  }

  /** No two parts of one tool, and none of one image. */
  lemma OnePart(es: Events, j: nat, k: nat)
    requires j < k < |PartsShown(es)| && PartsShown(es)[j].id == PartsShown(es)[k].id
    ensures !(PartsShown(es)[j].Tool? && PartsShown(es)[k].Tool?)
    ensures !(PartsShown(es)[j].Image? && PartsShown(es)[k].Image?)
  {
    OpenersRise(es);
    ShownKinds(es, j);
    ShownKinds(es, k);
    var a, b := Openers(es)[j], Openers(es)[k];
    assert es[..b][a] == es[a];
  }

  // ── the fold ──────────────────────────────────────────────────────────────

  /** All parts touched, with one more if the event opens one. */
  function Step(parts: seq<MessagePart>, e: AgentEvent, opens: bool): seq<MessagePart>
    requires opens ==> Opening(e)
  {
    seq(|parts|, k requires 0 <= k < |parts| => Touched(parts[k], e, k == |parts| - 1))
      + if opens then [Fresh(e, |parts|)] else []
  }

  lemma StepIs(was: seq<MessagePart>, now: seq<MessagePart>, e: AgentEvent, opens: bool)
    requires opens ==> Opening(e)
    requires |now| == |was| + if opens then 1 else 0
    requires forall k :: 0 <= k < |was| ==> now[k] == Touched(was[k], e, k == |was| - 1)
    requires opens ==> now[|was|] == Fresh(e, |was|)
    ensures now == Step(was, e, opens)
  {
  }

  lemma ShownStep(es: Events, e: AgentEvent)
    ensures Opens(es, e) ==> Opening(e)
    ensures PartsShown(es + [e]) == Step(PartsShown(es), e, Opens(es, e))
  {
    ShownNext(es, e);
    StepIs(PartsShown(es), PartsShown(es + [e]), e, Opens(es, e));
  }

  lemma Unmoved(parts: seq<MessagePart>, e: AgentEvent)
    requires forall k :: 0 <= k < |parts| ==> Touched(parts[k], e, k == |parts| - 1) == parts[k]
    ensures Step(parts, e, false) == parts
    ensures Opening(e) ==> Step(parts, e, true) == parts + [Fresh(e, |parts|)]
  {
  }

  /** What the last part is, by the latest opener. */
  lemma LastKind(es: Events, e: AgentEvent)
    requires e.TextDelta? || e.ReasoningDelta?
    ensures var last := LastOpener(es);
      EndsIn(PartsShown(es), e) <==>
        last >= 0 && if e.TextDelta? then es[last].TextDelta? else es[last].ReasoningDelta?
  {
    var n := |Openers(es)|;
    if n > 0 {
      ShownKinds(es, n - 1);
      assert Openers(es)[n - 1] == LastOpener(es) && |PartsShown(es)| == n;
    }
  }

  /** The last part is of the kind the delta grows. */
  predicate EndsIn(parts: seq<MessagePart>, e: AgentEvent) {
    parts != [] && if e.TextDelta? then parts[|parts| - 1].Text? else parts[|parts| - 1].Reasoning?
  }

  lemma TextFolds(parts: seq<MessagePart>, e: AgentEvent, opens: bool)
    requires e.TextDelta? || e.ReasoningDelta?
    requires opens <==> !EndsIn(parts, e) && (e.ReasoningDelta? ==> e.text != [])
    ensures FoldEvent(parts, e) == Step(parts, e, opens)
  {
    if opens {
      Unmoved(parts, e);
    } else if e.text == [] && e.ReasoningDelta? {
      assert forall p: MessagePart :: p.Reasoning? ==> p.(text := p.text + []) == p;
      Unmoved(parts, e);
    } else {
      assert FoldEvent(parts, e) == GrowLast(parts, e.text);
      assert forall k :: 0 <= k < |parts| - 1 ==> Touched(parts[k], e, false) == parts[k];
    }
  }

  /** No two parts of one tool, and none of one image. */
  ghost predicate NoTwice(parts: seq<MessagePart>) {
    forall j, k :: 0 <= j < k < |parts| && parts[j].id == parts[k].id ==>
      !(parts[j].Tool? && parts[k].Tool?) && !(parts[j].Image? && parts[k].Image?)
  }

  lemma ShownNoTwice(es: Events)
    ensures NoTwice(PartsShown(es))
  {
    forall j, k | 0 <= j < k < |PartsShown(es)| && PartsShown(es)[j].id == PartsShown(es)[k].id
      ensures !(PartsShown(es)[j].Tool? && PartsShown(es)[k].Tool?)
      ensures !(PartsShown(es)[j].Image? && PartsShown(es)[k].Image?)
    {
      OnePart(es, j, k);
    }
  }

  lemma CallFolds(parts: seq<MessagePart>, e: AgentEvent, opens: bool)
    requires e.CallTool? && NoTwice(parts) && (opens <==> !HasTool(parts, e.id))
    ensures FoldEvent(parts, e) == Step(parts, e, opens)
  {
    var k := FirstWhere(parts, (p: MessagePart) => p.Tool? && p.id == e.id);
    if opens {
      Unmoved(parts, e);
    } else {
      assert k >= 0 && forall j :: 0 <= j < |parts| && j != k ==> !(parts[j].Tool? && parts[j].id == e.id);
    }
  }

  lemma ImageFolds(parts: seq<MessagePart>, e: AgentEvent, opens: bool)
    requires e.GeneratedImage? && Keeping(parts, e) && NoTwice(parts) && (opens <==> !HasImage(parts, e.id))
    ensures FoldEvent(parts, e) == Step(parts, e, opens)
  {
    var k := FirstWhere(parts, (p: MessagePart) => p.id == e.id);
    assert k >= 0 ==> parts[k].Image?;
    if opens {
      Unmoved(parts, e);
    } else {
      assert k >= 0 && forall j :: 0 <= j < |parts| && j != k ==> !(parts[j].Image? && parts[j].id == e.id);
    }
  }

  lemma RequestFolds(es: Events, e: AgentEvent)
    requires e.InputRequested?
    ensures FoldEvent(PartsShown(es), e) == Step(PartsShown(es), e, Opens(es, e))
  {
    var parts, id := PartsShown(es), "in-" + e.requestId;
    RequestShown(es, e.requestId);
    Unmoved(parts, e);
    var k := FirstWhere(parts, (p: MessagePart) => p.id == id);
    if k >= 0 {
      assert HasId(parts, id);
    } else {
      assert !HasId(parts, id);
    }
  }

  lemma OtherFolds(es: Events, e: AgentEvent)
    requires !e.TextDelta? && !e.ReasoningDelta? && !e.CallTool? && !e.GeneratedImage? && !e.InputRequested?
    requires !e.SessionStarted? && !e.Steered?
    ensures FoldEvent(PartsShown(es), e) == Step(PartsShown(es), e, Opens(es, e))
  {
    if e.ErrorRaised? || e.TurnDone? || e.UserMessage? || e.Quiet? {
      Unmoved(PartsShown(es), e);
    }
  }

  lemma EventFolds(es: Events, e: AgentEvent)
    requires !e.SessionStarted? && !e.Steered? && (e.GeneratedImage? ==> Keeping(PartsShown(es), e))
    ensures FoldEvent(PartsShown(es), e) == Step(PartsShown(es), e, Opens(es, e))
  {
    if e.TextDelta? || e.ReasoningDelta? {
      LastKind(es, e);
      TextFolds(PartsShown(es), e, Opens(es, e));
    } else if e.CallTool? {
      SeenShown(es, e.id);
      ShownNoTwice(es);
      CallFolds(PartsShown(es), e, Opens(es, e));
    } else if e.GeneratedImage? {
      SeenShown(es, e.id);
      ShownNoTwice(es);
      ImageFolds(PartsShown(es), e, Opens(es, e));
    } else if e.InputRequested? {
      RequestFolds(es, e);
    } else {
      OtherFolds(es, e);
    }
  }

  /** No turn boundary, which would start the message anew. */
  ghost predicate OneTurn(es: Events) {
    forall e :: e in es ==> !e.SessionStarted? && !e.Steered?
  }

  /** No image takes the place of another part of its id. */
  ghost predicate ImagesApart(es: Events) {
    es != [] ==>
      var front, e := es[..|es| - 1], es[|es| - 1];
      ImagesApart(front) && (e.GeneratedImage? ==> Keeping(PartsShown(front), e))
  }

  /** Main result: the folded parts are exactly what the events show. */
  lemma {:induction false} FoldShows(es: Events)
    requires OneTurn(es) && ImagesApart(es)
    ensures FoldAll([], es) == PartsShown(es)
    decreases |es|
  {
    if es == [] {
    } else {
      var front, e := es[..|es| - 1], es[|es| - 1];
      assert es == front + [e] && e in es;
      FoldShows(front);
      EventFolds(front, e);
      ShownStep(front, e);
    }
  }

  /** All reasoning parts, in order. */
  function ReasoningText(parts: seq<MessagePart>): Text {
    if parts == [] then []
    else
      var last := parts[|parts| - 1];
      ReasoningText(parts[..|parts| - 1]) + if last.Reasoning? then last.text else []
  }

  lemma {:induction false} SameReasoning(a: seq<MessagePart>, b: seq<MessagePart>)
    requires |a| == |b|
    requires forall i :: 0 <= i < |a| ==>
      a[i].Reasoning? == b[i].Reasoning? && (a[i].Reasoning? ==> a[i].text == b[i].text)
    ensures ReasoningText(a) == ReasoningText(b)
  {
    if a == [] {
    } else {
      SameReasoning(a[..|a| - 1], b[..|b| - 1]);
    }
  }

  lemma ReasoningSnoc(parts: seq<MessagePart>, part: MessagePart)
    ensures ReasoningText(parts + [part]) == ReasoningText(parts) + if part.Reasoning? then part.text else []
  {
    assert (parts + [part])[..|parts|] == parts;
  }

  /** A reasoning delta adds its text at the end, and no other event adds any. */
  lemma ReasoningStep(parts: seq<MessagePart>, e: AgentEvent, opens: bool)
    requires opens ==> Opening(e)
    requires e.ReasoningDelta? ==> (opens <==> !EndsIn(parts, e) && e.text != [])
    ensures ReasoningText(Step(parts, e, opens)) == ReasoningText(parts) + if e.ReasoningDelta? then e.text else []
  {
    var touched := Step(parts, e, false);
    assert Step(parts, e, opens) == touched + if opens then [Fresh(e, |parts|)] else [];
    if e.ReasoningDelta? && EndsIn(parts, e) {
      var front, last := parts[..|parts| - 1], parts[|parts| - 1];
      assert parts == front + [last] && touched == touched[..|parts| - 1] + [last.(text := last.text + e.text)];
      SameReasoning(front, touched[..|parts| - 1]);
      ReasoningSnoc(front, last);
      ReasoningSnoc(touched[..|parts| - 1], last.(text := last.text + e.text));
      assert (ReasoningText(front) + last.text) + e.text == ReasoningText(front) + (last.text + e.text);
    } else {
      SameReasoning(parts, touched);
      if opens {
        ReasoningSnoc(touched, Fresh(e, |parts|));
      }
    }
  }

  lemma ReasoningOpens(es: Events, e: AgentEvent)
    requires e.ReasoningDelta?
    ensures Opens(es, e) <==> !EndsIn(PartsShown(es), e) && e.text != []
  {
    LastKind(es, e);
  }

  lemma {:induction false} ReasoningShown(es: Events)
    ensures ReasoningText(PartsShown(es)) == StreamedReasoning(es)
    decreases |es|
  {
    if es == [] {
    } else {
      var front, e := es[..|es| - 1], es[|es| - 1];
      assert es == front + [e];
      ReasoningShown(front);
      ShownStep(front, e);
      if e.ReasoningDelta? {
        ReasoningOpens(front, e);
      }
      ReasoningStep(PartsShown(front), e, Opens(front, e));
    }
  }

  /** The reasoning parts hold exactly the streamed reasoning, in order. */
  lemma ReasoningIsStreamed(es: Events)
    requires OneTurn(es) && ImagesApart(es)
    ensures ReasoningText(FoldAll([], es)) == StreamedReasoning(es)
  {
    FoldShows(es);
    ReasoningShown(es);
  }

  /** The events behind the last turn boundary. */
  function SinceBoundary(es: Events): Events {
    if es == [] then []
    else if es[|es| - 1].SessionStarted? || es[|es| - 1].Steered? then []
    else SinceBoundary(es[..|es| - 1]) + [es[|es| - 1]]
  }

  /** A turn boundary starts the message anew: only what follows it counts. */
  lemma {:induction false} BoundaryStartsAnew(es: Events)
    ensures FoldAll([], es) == FoldAll([], SinceBoundary(es)) && OneTurn(SinceBoundary(es))
    decreases |es|
  {
    if es == [] {
    } else {
      var front, e := es[..|es| - 1], es[|es| - 1];
      var since := SinceBoundary(front);
      BoundaryStartsAnew(front);
      assert (since + [e])[..|since|] == since;
    }
  }
}
