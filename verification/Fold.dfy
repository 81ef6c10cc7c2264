/** Folding agent events into the parts of a message. */
module Fold {
  import opened Options
  import opened Parts
  import Hlc
  import opened Seqs

  /** What an agent run emits. `Quiet` stands for the events that carry no
      transcript content. */
  datatype AgentEvent =
    | SessionStarted
    | Steered
    | TextDelta(text: Text)
    | ReasoningDelta(text: Text)
    | GeneratedImage(id: string, path: string, name: string, mimeType: string)
    | CallTool(id: string, call: ToolCall)
    | ToolResult(id: string, isError: bool, diff: Option<DiffStat>)
    | InputRequested(requestId: string, questions: string)
    | InputResolved(requestId: string)
    | ErrorRaised(message: string)
    | TurnDone(errored: bool, error: Option<string>)
    | UserMessage
    | Subagent(parent: string, event: AgentEvent)
    | Quiet

  function NumberedId(prefix: string, n: nat): string {
    prefix + Hlc.Digits(n, 1)
  }

  /** Position of the first part that satisfies `p`, or -1. */
  function FirstWhere(parts: seq<MessagePart>, p: MessagePart -> bool): (k: int)
    ensures -1 <= k < |parts|
    ensures k >= 0 ==> p(parts[k])
    ensures forall i :: 0 <= i < (if k < 0 then |parts| else k) ==> !p(parts[i])
  {
    if parts == [] then -1
    else if p(parts[0]) then 0
    else
      var k := FirstWhere(parts[1..], p);
      assert forall i :: 1 <= i < |parts| ==> parts[i] == parts[1..][i - 1];
      if k < 0 then -1 else k + 1
  }

  function Replaced(parts: seq<MessagePart>, f: MessagePart -> MessagePart): (r: seq<MessagePart>)
    ensures |r| == |parts| && forall i :: 0 <= i < |r| ==> r[i] == f(parts[i])
  {
    seq(|parts|, i requires 0 <= i < |parts| => f(parts[i]))
  }

  // ── what one event does to a part it refers to ────────────────────────────

  function Resolve(part: MessagePart, id: string, isError: bool, diff: Option<DiffStat>): MessagePart {
    if part.Tool? && part.id == id
    then part.(isError := isError, resolved := true, diffStats := if diff.Some? then Some([diff.value]) else None)
    else part
  }

  function ResolveInput(part: MessagePart, requestId: string): MessagePart {
    if part.Input? && part.requestId == requestId then part.(resolved := true) else part
  }

  /** The lifecycle a tagged event reports, or `None` for mere traffic. */
  function Lifecycle(event: AgentEvent): Option<SubagentStatus> {
    match event
    case TurnDone(errored, _) => Some(if errored then Failed else Done)
    case UserMessage => Some(Running)
    case Steered => Some(Running)
    case _ => None
  }

  /** A spawn chip takes the lifecycle; traffic means running, but never reopens a settled chip. */
  function Chip(part: MessagePart, parent: string, event: AgentEvent): MessagePart {
    if !(part.Tool? && part.id == parent && part.call.spawns) then part
    else if Lifecycle(event).Some? then part.(subagentStatus := Lifecycle(event))
    else if part.subagentStatus == Some(Done) || part.subagentStatus == Some(Failed) then part
    else part.(subagentStatus := Some(Running))
  }

  function LastIs(parts: seq<MessagePart>, p: MessagePart -> bool): bool {
    parts != [] && p(parts[|parts| - 1])
  }

  function GrowLast(parts: seq<MessagePart>, text: Text): seq<MessagePart>
    requires parts != [] && (parts[|parts| - 1].Text? || parts[|parts| - 1].Reasoning?)
  {
    var last := parts[|parts| - 1];
    parts[|parts| - 1 := last.(text := last.text + text)]
  }

  /** The parts after one event. */
  function FoldEvent(parts: seq<MessagePart>, event: AgentEvent): seq<MessagePart> {
    match event
    case SessionStarted => []
    case Steered => []
    case TextDelta(text) =>
      if LastIs(parts, (p: MessagePart) => p.Text?) then GrowLast(parts, text)
      else parts + [MessagePart.Text(NumberedId("t", |parts|), text)]
    case ReasoningDelta(text) =>
      if text == [] then parts
      else if LastIs(parts, (p: MessagePart) => p.Reasoning?) then GrowLast(parts, text)
      else parts + [Reasoning(NumberedId("r", |parts|), text)]
    case GeneratedImage(id, path, name, mimeType) =>
      var k := FirstWhere(parts, (p: MessagePart) => p.id == id);
      if k < 0 then parts + [Image(id, path, name, mimeType)] else parts[k := Image(id, path, name, mimeType)]
    case CallTool(id, call) =>
      var k := FirstWhere(parts, (p: MessagePart) => p.Tool? && p.id == id);
      if k < 0 then parts + [Tool(id, call, false, false, None, None)] else parts[k := parts[k].(call := call)]
    case ToolResult(id, isError, diff) => Replaced(parts, (p: MessagePart) => Resolve(p, id, isError, diff))
    case InputRequested(requestId, questions) =>
      var id := "in-" + requestId;
      if FirstWhere(parts, (p: MessagePart) => p.id == id) >= 0 then parts
      else parts + [Input(id, requestId, questions, false)]
    case InputResolved(requestId) => Replaced(parts, (p: MessagePart) => ResolveInput(p, requestId))
    case ErrorRaised(message) => parts + [Error(NumberedId("e", |parts|), message)]
    case TurnDone(_, error) => if error.None? then parts else parts + [Error(NumberedId("e", |parts|), error.value)]
    case Subagent(parent, inner) => Replaced(parts, (p: MessagePart) => Chip(p, parent, inner))
    case UserMessage => parts
    case Quiet => parts
  }

  function FoldAll(parts: seq<MessagePart>, events: seq<AgentEvent>): seq<MessagePart> {
    if events == [] then parts else FoldEvent(FoldAll(parts, events[..|events| - 1]), events[|events| - 1])
  }

  class Accumulator {
    var parts: seq<MessagePart>

    constructor ()
      ensures parts == []
    {
      parts := [];
    }

    method Fold(event: AgentEvent)
      modifies this
      ensures parts == FoldEvent(old(parts), event)
    {
      match event {
        case SessionStarted => parts := [];
        case Steered => parts := [];
        case TextDelta(text) =>
          if parts != [] && parts[|parts| - 1].Text? {
            var last := parts[|parts| - 1];
            parts := parts[|parts| - 1 := last.(text := last.text + text)];
          } else {
            parts := parts + [MessagePart.Text(NumberedId("t", |parts|), text)];
          }
        case ReasoningDelta(text) =>
          if text == [] {
            return;
          }
          if parts != [] && parts[|parts| - 1].Reasoning? {
            var last := parts[|parts| - 1];
            parts := parts[|parts| - 1 := last.(text := last.text + text)];
          } else {
            parts := parts + [Reasoning(NumberedId("r", |parts|), text)];
          }
        case GeneratedImage(id, path, name, mimeType) =>
          var image := Image(id, path, name, mimeType);
          var k := FirstWhere(parts, (p: MessagePart) => p.id == id);
          if k >= 0 {
            parts := parts[k := image];
          } else {
            parts := parts + [image];
          }
        case CallTool(id, call) =>
          var k := FirstWhere(parts, (p: MessagePart) => p.Tool? && p.id == id);
          if k >= 0 {
            parts := parts[k := parts[k].(call := call)];
          } else {
            parts := parts + [Tool(id, call, false, false, None, None)];
          }
        case ToolResult(id, isError, diff) => ResolveTools(id, isError, diff);
        case InputRequested(requestId, questions) =>
          var id := "in-" + requestId;
          if FirstWhere(parts, (p: MessagePart) => p.id == id) < 0 {
            parts := parts + [Input(id, requestId, questions, false)];
          }
        case InputResolved(requestId) => ResolveInputs(requestId);
        case ErrorRaised(message) => parts := parts + [Error(NumberedId("e", |parts|), message)];
        case TurnDone(_, error) =>
          if error.Some? {
            parts := parts + [Error(NumberedId("e", |parts|), error.value)];
          }
        case Subagent(parent, inner) => RefreshChips(parent, inner);
        case UserMessage =>
        case Quiet =>
      }
    }

    method ResolveTools(id: string, isError: bool, diff: Option<DiffStat>)
      modifies this
      ensures parts == Replaced(old(parts), (p: MessagePart) => Resolve(p, id, isError, diff))
    {
      for i := 0 to |parts|
        invariant |parts| == |old(parts)|
        invariant forall j :: 0 <= j < |parts| ==>
          parts[j] == if j < i then Resolve(old(parts)[j], id, isError, diff) else old(parts)[j]
      {
        if parts[i].Tool? && parts[i].id == id {
          var stats := if diff.Some? then Some([diff.value]) else None;
          parts := parts[i := parts[i].(isError := isError, resolved := true, diffStats := stats)];
        }
      }
    }

    method ResolveInputs(requestId: string)
      modifies this
      ensures parts == Replaced(old(parts), (p: MessagePart) => ResolveInput(p, requestId))
    {
      for i := 0 to |parts|
        invariant |parts| == |old(parts)|
        invariant forall j :: 0 <= j < |parts| ==>
          parts[j] == if j < i then ResolveInput(old(parts)[j], requestId) else old(parts)[j]
      {
        if parts[i].Input? && parts[i].requestId == requestId {
          parts := parts[i := parts[i].(resolved := true)];
        }
      }
    }

    method RefreshChips(parent: string, event: AgentEvent)
      modifies this
      ensures parts == Replaced(old(parts), (p: MessagePart) => Chip(p, parent, event))
    {
      var status := Lifecycle(event);
      for i := 0 to |parts|
        invariant |parts| == |old(parts)|
        invariant forall j :: 0 <= j < |parts| ==>
          parts[j] == if j < i then Chip(old(parts)[j], parent, event) else old(parts)[j]
      {
        if parts[i].Tool? && parts[i].id == parent && parts[i].call.spawns {
          if status.Some? {
            parts := parts[i := parts[i].(subagentStatus := status)];
          } else if parts[i].subagentStatus != Some(Done) && parts[i].subagentStatus != Some(Failed) {
            parts := parts[i := parts[i].(subagentStatus := Some(Running))];
          }
        }
      }
    }
  }

  // ── what later events leave of earlier parts ──────────────────────────────

  /** The id under which a part is stored. */
  function StoredId(part: MessagePart): string {
    if part.Input? then part.requestId else part.id
  }

  predicate SameKind(w: MessagePart, f: MessagePart) {
    && (w.Text? == f.Text?) && (w.Reasoning? == f.Reasoning?) && (w.Image? == f.Image?) && (w.Tool? == f.Tool?)
    && (w.Input? == f.Input?) && (w.Error? == f.Error?) && (w.Marker? == f.Marker?)
  }

  /** A refresh of a stored part that loses nothing stored: same id and kind,
      and no optional field taken back. */
  predicate Keeps(w: MessagePart, f: MessagePart) {
    && StoredId(w) == StoredId(f) && SameKind(w, f)
    && (w.Tool? ==>
          && (w.resolved ==> f.resolved) && (w.diffStats.Some? ==> f.diffStats.Some?)
          && (w.subagentStatus.Some? ==> f.subagentStatus.Some?))
    && (w.Marker? ==> w == f)
  }

  ghost predicate KeepsAll(ws: seq<MessagePart>, fs: seq<MessagePart>) {
    |ws| <= |fs| && forall i :: 0 <= i < |ws| ==> Keeps(ws[i], fs[i])
  }

  /** The events that keep what is stored: no reset of a started message, no
      result that takes back a diff, no image under another part's id. */
  ghost predicate Keeping(parts: seq<MessagePart>, event: AgentEvent) {
    match event
    case SessionStarted => parts == []
    case Steered => parts == []
    case ToolResult(id, _, diff) =>
      diff.None? ==> forall i :: 0 <= i < |parts| && parts[i].Tool? && parts[i].id == id ==> parts[i].diffStats.None?
    case GeneratedImage(id, _, _, _) =>
      forall i :: 0 <= i < |parts| && parts[i].id == id && (forall j :: 0 <= j < i ==> parts[j].id != id) ==>
        parts[i].Image?
    case _ => true
  }

  lemma {:induction false} KeepsSelf(parts: seq<MessagePart>, more: seq<MessagePart>)
    ensures KeepsAll(parts, parts + more)
  {
  }

  lemma KeepsTwice(a: seq<MessagePart>, b: seq<MessagePart>, c: seq<MessagePart>)
    requires KeepsAll(a, b) && KeepsAll(b, c)
    ensures KeepsAll(a, c)
  {
    forall i | 0 <= i < |a| ensures Keeps(a[i], c[i]) {
      assert Keeps(a[i], b[i]) && Keeps(b[i], c[i]);
    }
  }

  lemma ReplacedKeeps(parts: seq<MessagePart>, f: MessagePart -> MessagePart)
    requires forall p :: p in parts ==> Keeps(p, f(p))
    ensures KeepsAll(parts, Replaced(parts, f))
  {
  }

  lemma GrowLastKeeps(parts: seq<MessagePart>, text: Text)
    requires parts != [] && (parts[|parts| - 1].Text? || parts[|parts| - 1].Reasoning?)
    ensures KeepsAll(parts, GrowLast(parts, text))
  {
  }

  lemma CallKeeps(parts: seq<MessagePart>, id: string, call: ToolCall)
    ensures KeepsAll(parts, FoldEvent(parts, CallTool(id, call)))
  {
  }

  /** An event keeps every stored part if and only if it is one of those. */
  lemma FoldKeepsIff(parts: seq<MessagePart>, event: AgentEvent)
    ensures KeepsAll(parts, FoldEvent(parts, event)) <==> Keeping(parts, event)
  {
    match event
    case GeneratedImage(id, path, name, mimeType) => ImageKeepsIff(parts, id, path, name, mimeType);
    case ToolResult(id, isError, diff) => ResultKeepsIff(parts, id, isError, diff);
    case InputResolved(requestId) => ReplacedKeeps(parts, (p: MessagePart) => ResolveInput(p, requestId));
    case Subagent(parent, inner) => ReplacedKeeps(parts, (p: MessagePart) => Chip(p, parent, inner));
    case CallTool(id, call) => CallKeeps(parts, id, call);
    case TextDelta(text) =>
      if LastIs(parts, (p: MessagePart) => p.Text?) { GrowLastKeeps(parts, text); }
    case ReasoningDelta(text) =>
      if LastIs(parts, (p: MessagePart) => p.Reasoning?) { GrowLastKeeps(parts, text); }
    case _ =>
  }

  lemma ImageKeepsIff(parts: seq<MessagePart>, id: string, path: string, name: string, mimeType: string)
    ensures var event := GeneratedImage(id, path, name, mimeType);
      KeepsAll(parts, FoldEvent(parts, event)) <==> Keeping(parts, event)
  {
    var k := FirstWhere(parts, (p: MessagePart) => p.id == id);
    if k >= 0 {
      assert Keeping(parts, GeneratedImage(id, path, name, mimeType)) <==> parts[k].Image?;
      var after := parts[k := Image(id, path, name, mimeType)];
      assert Keeps(parts[k], after[k]) <==> parts[k].Image?;
    }
  }

  lemma ResultKeepsIff(parts: seq<MessagePart>, id: string, isError: bool, diff: Option<DiffStat>)
    ensures var event := ToolResult(id, isError, diff);
      KeepsAll(parts, FoldEvent(parts, event)) <==> Keeping(parts, event)
  {
    var after := FoldEvent(parts, ToolResult(id, isError, diff));
    forall i | 0 <= i < |parts|
      ensures Keeps(parts[i], after[i]) <==>
        (parts[i].Tool? && parts[i].id == id && diff.None? ==> parts[i].diffStats.None?)
    {
    }
  }

  // ── text only grows ───────────────────────────────────────────────────────

  /** A text or reasoning part that grew at its end, or any other part. */
  predicate Grown(w: MessagePart, f: MessagePart) {
    w.Text? || w.Reasoning? ==> SameKind(w, f) && |w.text| <= |f.text| && f.text[..|w.text|] == w.text
  }

  ghost predicate GrownAll(ws: seq<MessagePart>, fs: seq<MessagePart>) {
    |ws| <= |fs| && forall i :: 0 <= i < |ws| ==> Grown(ws[i], fs[i])
  }

  lemma GrownTwice(a: seq<MessagePart>, b: seq<MessagePart>, c: seq<MessagePart>)
    requires GrownAll(a, b) && GrownAll(b, c)
    ensures GrownAll(a, c)
  {
    forall i | 0 <= i < |a| ensures Grown(a[i], c[i]) {
      assert Grown(a[i], b[i]) && Grown(b[i], c[i]);
      if a[i].Text? || a[i].Reasoning? {
        assert c[i].text[..|a[i].text|] == c[i].text[..|b[i].text|][..|a[i].text|];
      }
    }
  }

  lemma GrowLastGrows(parts: seq<MessagePart>, text: Text)
    requires parts != [] && (parts[|parts| - 1].Text? || parts[|parts| - 1].Reasoning?)
    ensures GrownAll(parts, GrowLast(parts, text))
  {
  }

  lemma FoldGrows(parts: seq<MessagePart>, event: AgentEvent)
    requires Keeping(parts, event)
    ensures GrownAll(parts, FoldEvent(parts, event))
  {
    match event
    case TextDelta(text) =>
      if LastIs(parts, (p: MessagePart) => p.Text?) { GrowLastGrows(parts, text); }
    case ReasoningDelta(text) =>
      if LastIs(parts, (p: MessagePart) => p.Reasoning?) { GrowLastGrows(parts, text); }
    case _ =>
  }

  // ── the text is what was streamed ─────────────────────────────────────────

  /** All text parts, in order. */
  function ReplyText(parts: seq<MessagePart>): Text {
    if parts == [] then []
    else ReplyText(parts[..|parts| - 1]) + if parts[|parts| - 1].Text? then parts[|parts| - 1].text else []
  }

  function StreamedText(events: seq<AgentEvent>): Text {
    if events == [] then []
    else StreamedText(events[..|events| - 1]) + match events[|events| - 1]
                                                case TextDelta(text) => text
                                                case _ => []
  }

  ghost predicate KeepingAll(parts: seq<MessagePart>, events: seq<AgentEvent>) {
    events != [] ==> KeepingAll(parts, events[..|events| - 1])
                     && Keeping(FoldAll(parts, events[..|events| - 1]), events[|events| - 1])
  }

  /** Parts that differ only off the text parts have the same text. */
  lemma {:induction false} SameReplyText(a: seq<MessagePart>, b: seq<MessagePart>)
    requires |a| == |b|
    requires forall i :: 0 <= i < |a| ==> a[i].Text? == b[i].Text? && (a[i].Text? ==> a[i].text == b[i].text)
    ensures ReplyText(a) == ReplyText(b)
  {
    if a == [] {
    } else {
      SameReplyText(a[..|a| - 1], b[..|b| - 1]);
    }
  }

  lemma ReplyTextSnoc(parts: seq<MessagePart>, part: MessagePart)
    ensures ReplyText(parts + [part]) == ReplyText(parts) + if part.Text? then part.text else []
  {
    assert (parts + [part])[..|parts|] == parts;
  }

  lemma GrowLastText(parts: seq<MessagePart>, text: Text)
    requires parts != [] && parts[|parts| - 1].Text?
    ensures ReplyText(GrowLast(parts, text)) == ReplyText(parts) + text
  {
    var front, last := parts[..|parts| - 1], parts[|parts| - 1];
    var grown := last.(text := last.text + text);
    LastSplit(parts);
    LastUpdate(parts, grown);
    ReplyTextSnoc(front, last);
    ReplyTextSnoc(front, grown);
    Assoc(ReplyText(front), last.text, text);
  }

  /** An event that is no text either adds one part without text or leaves the texts alone. */
  lemma NoTextChange(parts: seq<MessagePart>, event: AgentEvent)
    requires Keeping(parts, event) && !event.TextDelta?
    ensures var after := FoldEvent(parts, event);
      if |after| > |parts| then after == parts + [after[|parts|]] && !after[|parts|].Text?
      else |after| == |parts| && forall i :: 0 <= i < |parts| ==>
        parts[i].Text? == after[i].Text? && (parts[i].Text? ==> parts[i].text == after[i].text)
  {
  }

  lemma ReplyTextStep(parts: seq<MessagePart>, event: AgentEvent)
    requires Keeping(parts, event)
    ensures ReplyText(FoldEvent(parts, event)) == ReplyText(parts) + if event.TextDelta? then event.text else []
  {
    var after := FoldEvent(parts, event);
    if event.TextDelta? {
      if LastIs(parts, (p: MessagePart) => p.Text?) {
        GrowLastText(parts, event.text);
      } else {
        ReplyTextSnoc(parts, MessagePart.Text(NumberedId("t", |parts|), event.text));
      }
    } else {
      NoTextChange(parts, event);
      if |after| > |parts| {
        ReplyTextSnoc(parts, after[|parts|]);
      } else {
        SameReplyText(parts, after);
      }
    }
  }

  /** Main result: without lost parts, the text parts hold exactly the
      streamed text, in order, however tool calls and reasoning cut it up. */
  lemma {:induction false} TextIsStreamed(events: seq<AgentEvent>)
    requires KeepingAll([], events)
    ensures ReplyText(FoldAll([], events)) == StreamedText(events)
  {
    if events == [] {
    } else {
      var before := events[..|events| - 1];
      TextIsStreamed(before);
      ReplyTextStep(FoldAll([], before), events[|events| - 1]);
    }
  }
}
