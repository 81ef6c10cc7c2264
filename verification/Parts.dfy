/** Message parts and transcript entries. */
module Parts {
  import opened Options

  type Byte = b: int | 0 <= b < 256
  /** The bytes of a string. */
  type Text = seq<Byte>

  datatype SubagentStatus = Running | Done | Failed
  datatype DiffStat = DiffStat(path: string, additions: nat, deletions: nat)

  /** A tool call, opaque except that it may spawn a subagent. */
  datatype ToolCall = ToolCall(body: string, spawns: bool)

  datatype MessagePart =
    | Text(id: string, text: Text)
    | Reasoning(id: string, text: Text)
    | Image(id: string, path: string, name: string, mimeType: string)
    | Tool(id: string, call: ToolCall, isError: bool, resolved: bool,
           diffStats: Option<seq<DiffStat>>, subagentStatus: Option<SubagentStatus>)
    | Input(id: string, requestId: string, questions: string, resolved: bool)
    | Error(id: string, message: string)
    | Marker(id: string, body: string) // fork, harness-switch and completion-notice seams

  datatype Role = User | Assistant | System
  datatype MessageStatus = Streaming | Complete | Aborted

  datatype Entry = Entry(
    id: string, role: Role, parts: seq<MessagePart>, createdAt: int, deviceId: string,
    status: Option<MessageStatus>, continuationOf: Option<string>,
    durationMs: Option<int>, originChatId: Option<string>, providerTurn: Option<string>)
}
