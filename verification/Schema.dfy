/** The message currency shared by the agent loop (internal/schema/message.go). */
module Schema {
  import opened Wrappers

  datatype Role = System | User | Assistant | Tool

  datatype ToolCall = ToolCall(id: string, name: string, arguments: string)

  /** details stands for the ordered provider entries, which nothing here inspects. */
  datatype Reasoning = Reasoning(text: Option<string>, details: string)

  datatype Block =
    | TextBlock(text: string)
    | CallBlock(call: ToolCall)
    | ResultBlock(callId: string, content: string)
    | ReasoningBlock(reasoning: Reasoning)

  datatype Message = Message(role: Role, content: seq<Block>) {
    function Text(): string { TextOf(content) }

    function ToolCalls(): seq<ToolCall> { CallsOf(content) }

    function ResultIds(): set<string> { set b <- content | b.ResultBlock? :: b.callId }

    function Thinking(): Option<Reasoning> { ThinkingOf(content) }
  }

  function TextOf(bs: seq<Block>): string {
    if bs == [] then "" else (if bs[0].TextBlock? then bs[0].text else "") + TextOf(bs[1..])
  }

  function CallsOf(bs: seq<Block>): seq<ToolCall> {
    if bs == [] then [] else (if bs[0].CallBlock? then [bs[0].call] else []) + CallsOf(bs[1..])
  }

  function ThinkingOf(bs: seq<Block>): Option<Reasoning> {
    if bs == [] then None else if bs[0].ReasoningBlock? then Some(bs[0].reasoning) else ThinkingOf(bs[1..])
  }

  function SystemMessage(text: string): Message { Message(System, [TextBlock(text)]) }

  function UserMessage(text: string): Message { Message(User, [TextBlock(text)]) }

  /** Empty text contributes no text block. */
  function AssistantText(text: string): Message {
    Message(Assistant, if text == "" then [] else [TextBlock(text)])
  }

  function ToolMessage(content: string, callId: string): Message {
    Message(Tool, [ResultBlock(callId, content)])
  }

  datatype StopReason = StopUnspecified | StopNormal | StopLength | StopContentFilter | StopToolCalls | StopOther

  /** One model response; the message may be absent. */
  datatype Generation = Generation(message: Option<Message>, stop: StopReason, raw: string)

  /** What one Generate call comes back with. */
  datatype Reply = Failed | Got(gen: Generation)

  /** The white space strings.TrimSpace removes. */
  predicate IsSpace(c: char) {
    || c in "\t\n\r \U{0B}\U{0C}\U{85}\U{A0}\U{1680}\U{2028}\U{2029}\U{202F}\U{205F}\U{3000}"
    || '\U{2000}' <= c <= '\U{200A}'
  }

  /** The text is empty once trimmed. */
  predicate Blank(s: string) {
    forall c <- s :: IsSpace(c)
  }

  predicate BlankTurn(m: Option<Message>) {
    m.None? || (m.value.ToolCalls() == [] && Blank(m.value.Text()))
  }
}
