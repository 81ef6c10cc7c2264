/** Writing a streaming message into document containers, differences only. */
module Stream {
  import opened Options
  import opened Parts
  import opened Fold

  // ── stored parts ──────────────────────────────────────────────────────────

  /** A stored part: an id, a kind, and the fields its kind uses. `text` and
      `reasoning` are text containers. */
  datatype DocPart = DocPart(
    id: string, kind: string, text: Option<Text>, reasoning: Option<Text>,
    path: Option<string>, name: Option<string>, mimeType: Option<string>,
    call: Option<ToolCall>, isError: Option<bool>, questions: Option<string>, resolved: Option<bool>,
    message: Option<string>, diffStats: Option<seq<DiffStat>>, subagentStatus: Option<string>, body: Option<string>)

  function Blank(id: string, kind: string): DocPart {
    DocPart(id, kind, None, None, None, None, None, None, None, None, None, None, None, None, None)
  }

  function StatusName(s: SubagentStatus): string {
    match s case Running => "running" case Done => "done" case Failed => "failed"
  }

  function StatusNamed(name: string): Option<SubagentStatus> {
    if name == "running" then Some(Running) else if name == "done" then Some(Done)
    else if name == "failed" then Some(Failed) else None
  }

  /** A tool's `isError` is stored only once it is resolved: its presence is the mark. */
  function ToDoc(part: MessagePart): DocPart {
    match part
    case Text(id, text) => Blank(id, "text").(text := Some(text))
    case Reasoning(id, text) => Blank(id, "reasoning").(reasoning := Some(text))
    case Image(id, path, name, mimeType) => Blank(id, "image").(path := Some(path), name := Some(name),
      mimeType := Some(mimeType))
    case Tool(id, call, isError, resolved, diffStats, status) =>
      Blank(id, "tool").(call := Some(call), isError := if resolved then Some(isError) else None,
        diffStats := diffStats,
                         subagentStatus := if status.Some? then Some(StatusName(status.value)) else None)
    case Input(_, requestId, questions, resolved) =>
      Blank(requestId, "input").(questions := Some(questions), resolved := Some(resolved))
    case Error(id, message) => Blank(id, "error").(message := Some(message))
    case Marker(id, body) => Blank(id, "marker").(body := Some(body))
  }

  const UNAVAILABLE: string := "Generated image unavailable"

  predicate ValidImage(path: string, name: string, mimeType: string) {
    path != "" && name != "" && mimeType in ["image/png", "image/jpeg", "image/webp", "image/gif"]
  }

  function Or<T>(o: Option<T>, default: T): T {
    if o.Some? then o.value else default
  }

  /** Reading a stored part back; what is malformed degrades. */
  function FromDoc(p: DocPart): MessagePart {
    if p.kind == "image" then
      if p.path.Some? && p.name.Some? && p.mimeType.Some? && ValidImage(p.path.value, p.name.value, p.mimeType.value)
      then Image(p.id, p.path.value, p.name.value, p.mimeType.value)
      else Error(p.id, UNAVAILABLE)
    else if p.kind == "tool" then
      if p.call.None? then MessagePart.Text(p.id, [])
      else Tool(p.id, p.call.value, Or(p.isError, false), p.isError.Some?, p.diffStats,
                if p.subagentStatus.Some? then StatusNamed(p.subagentStatus.value) else None)
    else if p.kind == "input" then Input(p.id, p.id, Or(p.questions, ""), Or(p.resolved, false))
    else if p.kind == "error" then Error(p.id, Or(p.message, ""))
    else if p.kind == "reasoning" then Reasoning(p.id, Or(p.reasoning, []))
    else if p.kind == "marker" then Marker(p.id, Or(p.body, ""))
    else MessagePart.Text(p.id, Or(p.text, []))
  }

  /** What a part reads back as: inputs under their request id, unusable
      images as errors, unresolved tools without error. */
  function ReadsAs(part: MessagePart): MessagePart {
    match part
    case Input(_, requestId, questions, resolved) => Input(requestId, requestId, questions, resolved)
    case Image(id, path, name, mimeType) => if ValidImage(path, name, mimeType) then part else Error(id, UNAVAILABLE)
    case Tool(_, _, _, resolved, _, _) => if resolved then part else part.(isError := false)
    case _ => part
  }

  lemma StoredPartReadsBack(part: MessagePart)
    ensures FromDoc(ToDoc(part)) == ReadsAs(part)
  {
  }

  /** An image reads back if and only if it has a path, a name and one of four
      types; any other becomes an error part in its place. */
  lemma ImageReadsBackIff(id: string, path: string, name: string, mimeType: string)
    ensures var usable := |path| > 0 && |name| > 0 && (mimeType == "image/png" || mimeType == "image/jpeg" ||
        mimeType == "image/webp" || mimeType == "image/gif");
      FromDoc(ToDoc(Image(id, path, name, mimeType))) ==
        if usable then Image(id, path, name, mimeType) else Error(id, "Generated image unavailable")
  {
  }

  function DocOf(parts: seq<MessagePart>): (r: seq<DocPart>)
    ensures |r| == |parts| && forall i :: 0 <= i < |r| ==> r[i] == ToDoc(parts[i])
  {
    seq(|parts|, i requires 0 <= i < |parts| => ToDoc(parts[i]))
  }

  function Read(doc: seq<DocPart>): (r: seq<MessagePart>)
    ensures |r| == |doc| && forall i :: 0 <= i < |r| ==> r[i] == FromDoc(doc[i])
  {
    seq(|doc|, i requires 0 <= i < |doc| => FromDoc(doc[i]))
  }

  // ── refreshing a stored part ──────────────────────────────────────────────

  function Later<T>(was: Option<T>, now: Option<T>): Option<T> {
    if now.Some? then now else was
  }

  /** Fields are overwritten, never cleared; id, kind and seam bodies stay;
      text is rewritten only in a container that is there. */
  function Updated(p: DocPart, part: MessagePart): DocPart {
    var q := ToDoc(part);
    p.(path := Later(p.path, q.path), name := Later(p.name, q.name), mimeType := Later(p.mimeType, q.mimeType),
       call := Later(p.call, q.call), isError := Later(p.isError, q.isError),
       questions := Later(p.questions, q.questions), resolved := Later(p.resolved, q.resolved),
       message := Later(p.message, q.message), diffStats := Later(p.diffStats, q.diffStats),
       subagentStatus := Later(p.subagentStatus, q.subagentStatus),
       text := if p.text.Some? then Later(p.text, q.text) else None,
       reasoning := if p.reasoning.Some? then Later(p.reasoning, q.reasoning) else None)
  }

  predicate Kept<T>(was: Option<T>, now: Option<T>) {
    was.Some? ==> now.Some?
  }

  /** Whatever part a stored one is refreshed with: its id, kind and seam body
      stay, no field is cleared, and no text container comes or goes. */
  lemma RefreshKeepsShape(p: DocPart, part: MessagePart)
    ensures var r := Updated(p, part);
      && r.id == p.id && r.kind == p.kind && r.body == p.body
      && (r.text.Some? <==> p.text.Some?) && (r.reasoning.Some? <==> p.reasoning.Some?)
      && Kept(p.path, r.path) && Kept(p.name, r.name) && Kept(p.mimeType, r.mimeType) && Kept(p.call, r.call)
      && Kept(p.isError, r.isError) && Kept(p.questions, r.questions) && Kept(p.resolved, r.resolved)
      && Kept(p.message, r.message) && Kept(p.diffStats, r.diffStats) && Kept(p.subagentStatus, r.subagentStatus)
  {
  }

  /** Text or reasoning that only grew at its end. */
  predicate TextGrew(w: MessagePart, f: MessagePart) {
    ((w.Text? && f.Text?) || (w.Reasoning? && f.Reasoning?)) && |w.text| <= |f.text| && f.text[..|w.text|] == w.text
  }

  function TextBody(p: DocPart, reasoning: bool): Option<Text> {
    if reasoning then p.reasoning else p.text
  }

  function WithBody(p: DocPart, reasoning: bool, body: Text): DocPart {
    if reasoning then p.(reasoning := Some(body)) else p.(text := Some(body))
  }

  /** Characters the part's text container holds, in bytes. */
  function TextLen(part: MessagePart): nat {
    if part.Text? || part.Reasoning? then |part.text| else 0
  }

  // ── the writer ────────────────────────────────────────────────────────────

  /** The stored parts, the writer's mirror of them, the text bytes inserted
      into containers, and whether no container was missing. */
  datatype Writing = Writing(doc: seq<DocPart>, written: seq<MessagePart>, inserted: nat, ok: bool)

  function SyncPart(s: Writing, part: MessagePart, i: nat): Writing {
    if !s.ok then s
    else if i >= |s.written| then Writing(s.doc + [ToDoc(part)], s.written + [part], s.inserted + TextLen(part), true)
    else if s.written[i] == part then s
    else SyncChanged(s, part, i)
  }

  function SyncChanged(s: Writing, part: MessagePart, i: nat): Writing
    requires i < |s.written|
  {
    var prev := s.written[i];
    if TextGrew(prev, part) then
      var delta := part.text[|prev.text|..];
      if delta == [] then s.(written := s.written[i := part])
      else if i >= |s.doc| || TextBody(s.doc[i], part.Reasoning?).None? then s.(ok := false)
      else Writing(s.doc[i := WithBody(s.doc[i], part.Reasoning?, TextBody(s.doc[i], part.Reasoning?).value + delta)],
                   s.written[i := part], s.inserted + |delta|, true)
    else if i >= |s.doc| then s.(ok := false)
    else Writing(s.doc[i := Updated(s.doc[i], part)], s.written[i := part], s.inserted + TextLen(part), true)
  }

  /** After the first `n` parts. */
  function SyncTo(s: Writing, folded: seq<MessagePart>, n: nat): Writing
    requires n <= |folded|
  {
    if n == 0 then s else SyncPart(SyncTo(s, folded, n - 1), folded[n - 1], n - 1)
  }

  function Synced(s: Writing, folded: seq<MessagePart>): Writing {
    SyncTo(s, folded, |folded|)
  }

  /** A streaming entry in the document. */
  class EntryDoc {
    const id: string
    const createdAt: int
    var parts: seq<DocPart>
    var status: MessageStatus
    var durationMs: Option<int>

    constructor (id: string, createdAt: int)
      ensures this.id == id && this.createdAt == createdAt && parts == [] && status == Streaming && durationMs == None
    {
      this.id, this.createdAt := id, createdAt;
      parts, status, durationMs := [], Streaming, None;
    }
  }

  class SegmentWriter {
    const entry: EntryDoc
    var written: seq<MessagePart>
    ghost var inserted: nat

    ghost function Now(): Writing
      reads this, entry
    {
      Writing(entry.parts, written, inserted, true)
    }

    /** Begin a streaming entry without parts. */
    constructor Begin(id: string, createdAt: int)
      ensures fresh(entry) && entry.createdAt == createdAt && entry.status == Streaming &&
        Now() == Writing([], [], 0, true)
    {
      entry := new EntryDoc(id, createdAt);
      written, inserted := [], 0;
    }

    /** Reattach to an entry, with the mirror of what was written to it. */
    constructor Resume(entry: EntryDoc, written: seq<MessagePart>, ghost inserted: nat)
      ensures this.entry == entry && Now() == Writing(entry.parts, written, inserted, true)
    {
      this.entry, this.written, this.inserted := entry, written, inserted;
    }

    /** Write the difference between the folded parts and what is written. */
    method Sync(folded: seq<MessagePart>) returns (ok: bool)
      modifies this, entry`parts
      ensures Writing(entry.parts, written, inserted, ok) == Synced(old(Now()), folded)
    {
      ghost var start := Now();
      for i := 0 to |folded|
        invariant Now() == SyncTo(start, folded, i) && |written| >= i
      {
        var part := folded[i];
        if i >= |written| {
          entry.parts := entry.parts + [ToDoc(part)];
          written := written + [part];
          inserted := inserted + TextLen(part);
        } else if written[i] != part {
          ok := WriteChange(part, i);
          if !ok {
            FailedStays(start, folded, i + 1);
            return;
          }
        }
      }
      ok := true;
    }

    method WriteChange(part: MessagePart, i: nat) returns (ok: bool)
      requires i < |written|
      modifies this, entry`parts
      ensures Writing(entry.parts, written, inserted, ok) == SyncChanged(old(Now()), part, i)
    {
      var prev := written[i];
      if TextGrew(prev, part) {
        var delta := part.text[|prev.text|..];
        if delta != [] {
          if i >= |entry.parts| || TextBody(entry.parts[i], part.Reasoning?).None? {
            return false;
          }
          var body := TextBody(entry.parts[i], part.Reasoning?).value + delta;
          entry.parts := entry.parts[i := WithBody(entry.parts[i], part.Reasoning?, body)];
          inserted := inserted + |delta|;
        }
      } else {
        if i >= |entry.parts| {
          return false;
        }
        entry.parts := entry.parts[i := Updated(entry.parts[i], part)];
        inserted := inserted + TextLen(part);
      }
      written := written[i := part];
      ok := true;
    }

    /** Write the final parts, a terminal status and how long the turn ran. */
    method Finish(folded: seq<MessagePart>, status: MessageStatus, now: int) returns (ok: bool)
      modifies this, entry
      ensures Writing(entry.parts, written, inserted, ok) == Synced(old(Now()), folded)
      ensures ok ==> entry.status == status
      ensures ok && entry.createdAt > 0 ==>
        entry.durationMs == Some(if now > entry.createdAt then now - entry.createdAt else 0)
      ensures !ok ==> entry.status == old(entry.status)
      ensures !ok || entry.createdAt <= 0 ==> entry.durationMs == old(entry.durationMs)
    {
      ok := Sync(folded);
      if ok {
        entry.status := status;
        if entry.createdAt > 0 {
          entry.durationMs := Some(if now > entry.createdAt then now - entry.createdAt else 0);
        }
      }
    }
  }

  lemma {:induction false} FailedStays(s: Writing, folded: seq<MessagePart>, n: nat)
    requires n <= |folded| && !SyncTo(s, folded, n).ok
    ensures Synced(s, folded) == SyncTo(s, folded, n)
    decreases |folded| - n
  {
    if n < |folded| {
      FailedStays(s, folded, n + 1);
    }
  }
}
