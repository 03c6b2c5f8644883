/** The conversation messages the agent gateway handles. */
module Messages {

  /** A tool invocation the model requests: `call["name"]` and
      `call.get("args", {})`. */
  datatype ToolCall = ToolCall(name: string, args: map<string, string>)

  /** The three message classes of the gateway. Only an `AIMessage` carries
      `tool_calls`. */
  datatype Message =
    | HumanMessage(content: string)
    | AIMessage(content: string, toolCalls: seq<ToolCall>)
    | SystemMessage(content: string)

  /** One answer of the tool-bound model: its text and the tool calls it requests. */
  datatype Completion = Completion(content: string, toolCalls: seq<ToolCall>)

  /** The message the model's answer becomes in the history. */
  function Respond(c: Completion): (m: Message)
    ensures m.AIMessage? && m.content == c.content && m.toolCalls == c.toolCalls
  {
    AIMessage(c.content, c.toolCalls)
  }

  /** `str(type(m))` for each message class. */
  function TypeLabel(m: Message): (r: string)
    ensures r == "<class 'langchain_core.messages.ai.AIMessage'>" <==> m.AIMessage?
  {
    match m
    case HumanMessage(_) => "<class 'langchain_core.messages.human.HumanMessage'>"
    case AIMessage(_, _) => "<class 'langchain_core.messages.ai.AIMessage'>"
    case SystemMessage(_) => "<class 'langchain_core.messages.system.SystemMessage'>"
  }
}
