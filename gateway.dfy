/** The `/chat` entry point: run the graph from the user's message, keep the
    last streamed state, and pick the reply and the trace from it
    (services/agent_gateway/app.py, lines 118-135). */
module Gateway {
  import opened Wrappers
  import opened Messages
  import opened Tools
  import opened Agent
  import opened Graph
  import Paths

  const NoReply: string := "(no reply)"

  /** The JSON answer of `/chat`, or the run could not be completed because
      the script of model answers ran out before one requested no tool. */
  datatype ChatResult = Reply(reply: string, turnMessages: seq<string>) | Exhausted

  /** The last `AIMessage` of a history. */
  function LastAI(msgs: seq<Message>): Option<Message>
    decreases |msgs|
  {
    if msgs == [] then None
    else if msgs[|msgs| - 1].AIMessage? then Some(msgs[|msgs| - 1])
    else LastAI(msgs[..|msgs| - 1])
  }

  /** `LastAI` finds the latest `AIMessage`, and finds none only when there is none. */
  lemma {:induction false} LastAIIsLatest(msgs: seq<Message>)
    ensures LastAI(msgs).Some? ==>
      exists i :: 0 <= i < |msgs| && msgs[i] == LastAI(msgs).value && msgs[i].AIMessage? &&
        (forall j :: i < j < |msgs| ==> !msgs[j].AIMessage?)
    ensures LastAI(msgs).None? ==> forall j :: 0 <= j < |msgs| ==> !msgs[j].AIMessage?
    decreases |msgs|
  {
    if msgs != [] && !msgs[|msgs| - 1].AIMessage? {
      var n := |msgs| - 1;
      LastAIIsLatest(msgs[..n]);
      assert forall j :: 0 <= j < n ==> msgs[..n][j] == msgs[j];
    }
  }

  /** The scan of `reversed(msgs)` for the first `AIMessage`. */
  method FindLastAI(msgs: seq<Message>) returns (last: Option<Message>)
    ensures last == LastAI(msgs)
    ensures last.Some? ==> last.value.AIMessage? && last.value in msgs
  {
    last := None;
    var i := |msgs|;
    assert msgs[..i] == msgs;
    while i > 0
      invariant 0 <= i <= |msgs|
      invariant last.None? ==> LastAI(msgs) == LastAI(msgs[..i])
      invariant last.Some? ==> last == LastAI(msgs)
      decreases i, last.None?
    {
      assert msgs[..i][..i - 1] == msgs[..i - 1];
      if msgs[i - 1].AIMessage? {
        last := Some(msgs[i - 1]);
        break;
      }
      i := i - 1;
    }
    if last.Some? {
      LastAIIsLatest(msgs);
    }
  }

  function ReplyText(msgs: seq<Message>): (r: string)
    ensures (forall i :: 0 <= i < |msgs| ==> !msgs[i].AIMessage?) ==> r == NoReply
    ensures msgs != [] && msgs[|msgs| - 1].AIMessage? ==> r == msgs[|msgs| - 1].content
  {
    LastAIIsLatest(msgs);
    match LastAI(msgs)
    case Some(m) => m.content
    case None => NoReply
  }

  /** `[str(type(m)) for m in msgs]`. */
  function TurnLabels(msgs: seq<Message>): (labels: seq<string>)
    ensures |labels| == |msgs|
    ensures forall i :: 0 <= i < |msgs| ==> labels[i] == TypeLabel(msgs[i])
  {
    seq(|msgs|, i requires 0 <= i < |msgs| => TypeLabel(msgs[i]))
  }

  /** What `/chat` answers for `message`, given the model's script and the
      bridge's replies. */
  function ChatOutcome(message: string, script: seq<Completion>, replies: seq<seq<BridgeReply>>): ChatResult
    requires Scripted(script, replies)
  {
    var run := Drive([HumanMessage(message)], script, replies);
    if !run.finished then Exhausted
    else
      var msgs := run.events[|run.events| - 1];
      Reply(ReplyText(msgs), TurnLabels(msgs))
  }

  /** `chat(req)`: stream the graph, keep the last state, pick the reply. */
  method Chat(message: string, script: seq<Completion>, replies: seq<seq<BridgeReply>>) returns (r: ChatResult)
    requires Scripted(script, replies)
    ensures r == ChatOutcome(message, script, replies)
  {
    var events, finished := RunGraph([HumanMessage(message)], script, replies);
    if !finished {
      return Exhausted;
    }
    var final: Option<seq<Message>> := None;
    for e := 0 to |events|
      invariant e > 0 ==> final == Some(events[e - 1])
    {
      final := Some(events[e]);
    }
    var msgs := final.value;
    var last := FindLastAI(msgs);
    var reply := if last.Some? then last.value.content else NoReply;
    r := Reply(reply, TurnLabels(msgs));
  }

  /** A completed chat replies with the first answer that requests no tool,
      and its trace labels every message of the final history: the user's
      message, then an `AIMessage` per answer and per observation. */
  lemma ChatRepliesWithFinalAnswer(message: string, script: seq<Completion>, replies: seq<seq<BridgeReply>>)
    requires Scripted(script, replies)
    ensures ChatOutcome(message, script, replies).Reply? <==> AnswersWithoutTools(script)
    ensures AnswersWithoutTools(script) ==>
      var m := FirstStop(script);
      var final := [HumanMessage(message)] + Transcript(script, replies, m) + [Respond(script[m])];
      && ChatOutcome(message, script, replies).reply == script[m].content
      && ChatOutcome(message, script, replies).turnMessages == TurnLabels(final)
  {
    FinishedIffToolFreeAnswer([HumanMessage(message)], script, replies);
    if AnswersWithoutTools(script) {
      FinishedShape([HumanMessage(message)], script, replies);
      var m := FirstStop(script);
      var final := [HumanMessage(message)] + Transcript(script, replies, m) + [Respond(script[m])];
      assert LastAI(final) == Some(Respond(script[m]));
    }
  }

  /** The listing scenario: the model asks for `list_files`, the bridge lists
      two files, and the model then answers in text. The observation lists
      the files, the reply is that text, and the trace has four entries. */
  lemma ListFilesScenario()
    ensures var text := "Found 2 files, via list_files: a.txt, b.txt.";
      var script := [Completion("", [ToolCall(ListFilesName, map[])]), Completion(text, [])];
      var replies := [[Listing(["a.txt", "b.txt"])], []];
      && Scripted(script, replies)
      && Drive([HumanMessage("list the files")], script, replies).events[1][2] ==
           AIMessage("Tool list_files output:\na.txt\nb.txt", [])
      && ChatOutcome("list the files", script, replies) ==
           Reply(text, [TypeLabel(HumanMessage("")), TypeLabel(AIMessage("", [])), TypeLabel(AIMessage("", [])), TypeLabel(AIMessage("", []))])
  {
    var text := "Found 2 files, via list_files: a.txt, b.txt.";
    var script := [Completion("", [ToolCall(ListFilesName, map[])]), Completion(text, [])];
    var replies := [[Listing(["a.txt", "b.txt"])], []];
    var final := ScenarioRun(text);
    ScenarioTrace(text, final);
  }

  /** The reply and trace read off the scenario's final state. */
  lemma ScenarioTrace(text: string, final: seq<Message>)
    requires final == [HumanMessage("list the files"), AIMessage("", [ToolCall(ListFilesName, map[])]),
                       AIMessage("Tool list_files output:\na.txt\nb.txt", []), AIMessage(text, [])]
    ensures ReplyText(final) == text
    ensures TurnLabels(final) ==
      [TypeLabel(HumanMessage("")), TypeLabel(AIMessage("", [])), TypeLabel(AIMessage("", [])), TypeLabel(AIMessage("", []))]
  {
    assert LastAI(final) == Some(AIMessage(text, []));
  }

  /** The three states the scenario's run streams. */
  lemma ScenarioRun(text: string) returns (final: seq<Message>)
    ensures var script := [Completion("", [ToolCall(ListFilesName, map[])]), Completion(text, [])];
      var replies := [[Listing(["a.txt", "b.txt"])], []];
      var call := AIMessage("", [ToolCall(ListFilesName, map[])]);
      var obs := AIMessage("Tool list_files output:\na.txt\nb.txt", []);
      && final == [HumanMessage("list the files"), call, obs, AIMessage(text, [])]
      && Scripted(script, replies)
      && Drive([HumanMessage("list the files")], script, replies) ==
           Run([[HumanMessage("list the files"), call], [HumanMessage("list the files"), call, obs], final], true)
  {
    var call := ToolCall(ListFilesName, map[]);
    var script := [Completion("", [call]), Completion(text, [])];
    var replies := [[Listing(["a.txt", "b.txt"])], []];
    var start := [HumanMessage("list the files")];
    assert Fitted([call], [Listing(["a.txt", "b.txt"])]);
    assert Scripted(script, replies);
    var obs := ScenarioObservation();
    var afterAgent := start + [Respond(script[0])];
    var afterTools := afterAgent + [obs];
    assert Router(afterAgent) == ToTools;
    assert script[1..] == [script[1]] && replies[1..] == [replies[1]];
    ImmediateAnswer(afterTools, script[1..], replies[1..]);
    assert afterAgent == AgentNode(start, script[0]);
    assert afterTools == afterAgent + Observations(script[0].toolCalls, replies[0]);
    assert Drive(start, script, replies) ==
      Prefixed([afterAgent, afterTools], Drive(afterTools, script[1..], replies[1..]));
    final := afterTools + [Respond(script[1])];
    var asked := AIMessage("", [call]);
    assert afterAgent == [HumanMessage("list the files"), asked];
    assert afterTools == [HumanMessage("list the files"), asked, obs];
    assert final == [HumanMessage("list the files"), asked, obs, AIMessage(text, [])];
  }

  lemma ScenarioObservation() returns (obs: Message)
    ensures obs == AIMessage("Tool list_files output:\na.txt\nb.txt", [])
    ensures Observations([ToolCall(ListFilesName, map[])], [Listing(["a.txt", "b.txt"])]) == [obs]
  {
    var calls := [ToolCall(ListFilesName, map[])];
    var replies := [Listing(["a.txt", "b.txt"])];
    assert Fitted(calls, replies);
    assert calls[..0] == [] && replies[..0] == [];
    ScenarioListing();
    var result := ToolResult(ListFilesName, "a.txt\nb.txt");
    assert Results(calls, replies) == [result];
    obs := Observation(result);
    ScenarioText();
  }

  lemma ScenarioText()
    ensures "Tool " + ListFilesName + " output:\n" + "a.txt\nb.txt" == "Tool list_files output:\na.txt\nb.txt"
  {
  }

  lemma ScenarioListing()
    ensures Output(ToolCall(ListFilesName, map[]), Listing(["a.txt", "b.txt"])) == "a.txt\nb.txt"
  {
    var files := ["a.txt", "b.txt"];
    assert Paths.Join(files, '\n') == "a.txt" + "\n" + "b.txt" by {
      assert files[1..] == ["b.txt"];
    }
  }
}
