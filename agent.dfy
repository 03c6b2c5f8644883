/** The two graph nodes and the router between them
    (services/agent_gateway/app.py, lines 60-89). */
module Agent {
  import opened Messages
  import opened Tools

  /** `agent_node`: append the model's answer to the history. */
  function AgentNode(history: seq<Message>, answer: Completion): (r: seq<Message>)
    ensures |r| == |history| + 1
    ensures r[..|history|] == history
    ensures r[|history|] == Respond(answer)
  {
    history + [Respond(answer)]
  }

  datatype Route = ToTools | ToEnd

  /** `router`: go to the tools node exactly when the last message is an
      `AIMessage` with a non-empty `tool_calls`. */
  function Router(history: seq<Message>): (route: Route)
    requires history != []
    ensures route == ToTools <==>
      history[|history| - 1].AIMessage? && history[|history| - 1].toolCalls != []
  {
    var last := history[|history| - 1];
    if last.AIMessage? && last.toolCalls != [] then ToTools else ToEnd
  }

  /** One entry of `results` in `tools_node`. */
  datatype ToolResult = ToolResult(tool: string, output: string)

  /** The message `tools_node` emits for one result. */
  function Observation(r: ToolResult): (m: Message)
    ensures m.AIMessage? && m.toolCalls == []
    ensures m.content == "Tool " + r.tool + " output:\n" + r.output
  {
    AIMessage("Tool " + r.tool + " output:\n" + r.output, [])
  }

  /** The `results` the outer loop of `tools_node` has collected after the
      given calls: one per call whose name is registered. */
  function Results(calls: seq<ToolCall>, replies: seq<BridgeReply>): (r: seq<ToolResult>)
    requires Fitted(calls, replies)
    ensures |r| <= |calls|
    decreases |calls|
  {
    if calls == [] then []
    else
      var n := |calls| - 1;
      var before := Results(calls[..n], replies[..n]);
      if calls[n].name in Registered then before + [ToolResult(calls[n].name, Output(calls[n], replies[n]))]
      else before
  }

  /** The observation messages for a list of results, in order. */
  function Render(results: seq<ToolResult>): (ms: seq<Message>)
    ensures |ms| == |results|
    ensures forall k :: 0 <= k < |results| ==> ms[k] == Observation(results[k])
  {
    seq(|results|, k requires 0 <= k < |results| => Observation(results[k]))
  }

  /** The messages `tools_node` appends for the given calls. */
  function Observations(calls: seq<ToolCall>, replies: seq<BridgeReply>): (ms: seq<Message>)
    requires Fitted(calls, replies)
    ensures |ms| <= |calls|
    ensures forall k :: 0 <= k < |ms| ==> ms[k].AIMessage? && ms[k].toolCalls == []
  {
    Render(Results(calls, replies))
  }

  /** `tools_node`: run every requested call whose name matches a registered
      tool, in order, and append one observation per such call. */
  method ToolsNode(history: seq<Message>, replies: seq<BridgeReply>) returns (next: seq<Message>)
    requires history != [] && history[|history| - 1].AIMessage?
    requires Fitted(history[|history| - 1].toolCalls, replies)
    ensures next == history + Observations(history[|history| - 1].toolCalls, replies)
  {
    var last := history[|history| - 1];
    var calls := last.toolCalls;
    var results: seq<ToolResult> := [];
    for i := 0 to |calls|
      invariant Fitted(calls[..i], replies[..i])
      invariant results == Results(calls[..i], replies[..i])
    {
      ResultsStep(calls, replies, i);
      var name := calls[i].name;
      var t := 0;
      while t < |Registered|
        invariant 0 <= t <= |Registered|
        invariant forall u :: 0 <= u < t ==> Registered[u] != name
        invariant results == Results(calls[..i], replies[..i])
      {
        if Registered[t] == name {
          var res := Output(calls[i], replies[i]);
          results := results + [ToolResult(name, res)];
          break;
        }
        t := t + 1;
      }
    }
    assert calls[..|calls|] == calls && replies[..|replies|] == replies;
    var toolMsgs: seq<Message> := [];
    for k := 0 to |results|
      invariant toolMsgs == Render(results[..k])
    {
      toolMsgs := toolMsgs + [Observation(results[k])];
    }
    assert results[..|results|] == results;
    next := history + toolMsgs;
  }

  /** The outer loop of `tools_node` takes one more call into account. */
  lemma ResultsStep(calls: seq<ToolCall>, replies: seq<BridgeReply>, i: nat)
    requires Fitted(calls, replies) && i < |calls|
    ensures Fitted(calls[..i], replies[..i]) && Fitted(calls[..i + 1], replies[..i + 1])
    ensures Results(calls[..i + 1], replies[..i + 1]) ==
      Results(calls[..i], replies[..i]) +
        if calls[i].name in Registered then [ToolResult(calls[i].name, Output(calls[i], replies[i]))] else []
  {
    assert calls[..i + 1][..i] == calls[..i] && replies[..i + 1][..i] == replies[..i];
  }

  // ---------------------------------------------------------------------------
  // Which calls produce observations, and in what order.

  /** The positions of the calls that name a registered tool, ascending. */
  function KnownIndices(calls: seq<ToolCall>): (ix: seq<nat>)
    ensures forall k :: 0 <= k < |ix| ==> ix[k] < |calls| && calls[ix[k]].name in Registered
    ensures forall k, l :: 0 <= k < l < |ix| ==> ix[k] < ix[l]
    decreases |calls|
  {
    if calls == [] then []
    else
      var n := |calls| - 1;
      var before := KnownIndices(calls[..n]);
      assert forall k :: 0 <= k < |before| ==> calls[before[k]] == calls[..n][before[k]];
      before + (if calls[n].name in Registered then [n] else [])
  }

  /** Every call that names a registered tool has its position listed. */
  lemma {:induction false} KnownIndicesComplete(calls: seq<ToolCall>, i: nat)
    requires i < |calls| && calls[i].name in Registered
    ensures i in KnownIndices(calls)
    decreases |calls|
  {
    var n := |calls| - 1;
    if i < n {
      assert calls[..n][i] == calls[i];
      KnownIndicesComplete(calls[..n], i);
    }
  }

  /** `tools_node` yields exactly one result per call naming a registered
      tool, in the order of the calls; other calls yield nothing. */
  lemma {:induction false} ResultsFollowCalls(calls: seq<ToolCall>, replies: seq<BridgeReply>)
    requires Fitted(calls, replies)
    ensures |Results(calls, replies)| == |KnownIndices(calls)|
    ensures forall k :: 0 <= k < |KnownIndices(calls)| ==>
      var i := KnownIndices(calls)[k];
      Results(calls, replies)[k] == ToolResult(calls[i].name, Output(calls[i], replies[i]))
    decreases |calls|
  {
    if calls != [] {
      var n := |calls| - 1;
      var pc, pr := calls[..n], replies[..n];
      ResultsFollowCalls(pc, pr);
      var ix, before := KnownIndices(pc), Results(pc, pr);
      var all, rs := KnownIndices(calls), Results(calls, replies);
      assert all[..|ix|] == ix && rs[..|before|] == before;
      forall k | 0 <= k < |all|
        ensures rs[k] == ToolResult(calls[all[k]].name, Output(calls[all[k]], replies[all[k]]))
      {
        if k < |ix| {
          assert rs[k] == before[k] && all[k] == ix[k];
          assert pc[ix[k]] == calls[ix[k]] && pr[ix[k]] == replies[ix[k]];
        }
      }
    }
  }

  /** The observation for the `k`-th matching call reads
      `Tool <name> output:\n<output>`, and is an `AIMessage` without tool calls. */
  lemma ObservationsFollowCalls(calls: seq<ToolCall>, replies: seq<BridgeReply>)
    requires Fitted(calls, replies)
    ensures |Observations(calls, replies)| == |KnownIndices(calls)|
    ensures forall k :: 0 <= k < |KnownIndices(calls)| ==>
      var i := KnownIndices(calls)[k];
      Observations(calls, replies)[k] ==
        AIMessage("Tool " + calls[i].name + " output:\n" + Output(calls[i], replies[i]), [])
  {
    ResultsFollowCalls(calls, replies);
  }

  /** When every call names a registered tool there is one observation per
      call, the `i`-th answering the `i`-th call. */
  lemma {:induction false} AllRegisteredOnePerCall(calls: seq<ToolCall>, replies: seq<BridgeReply>)
    requires Fitted(calls, replies)
    requires forall i :: 0 <= i < |calls| ==> calls[i].name in Registered
    ensures |Observations(calls, replies)| == |calls|
    ensures forall i :: 0 <= i < |calls| ==>
      Observations(calls, replies)[i] ==
        AIMessage("Tool " + calls[i].name + " output:\n" + Output(calls[i], replies[i]), [])
    decreases |calls|
  {
    ObservationsFollowCalls(calls, replies);
    KnownIndicesIdentity(calls);
  }

  lemma {:induction false} KnownIndicesIdentity(calls: seq<ToolCall>)
    requires forall i :: 0 <= i < |calls| ==> calls[i].name in Registered
    ensures |KnownIndices(calls)| == |calls|
    ensures forall i :: 0 <= i < |calls| ==> KnownIndices(calls)[i] == i
    decreases |calls|
  {
    if calls != [] {
      var n := |calls| - 1;
      assert forall i :: 0 <= i < n ==> calls[..n][i] == calls[i];
      KnownIndicesIdentity(calls[..n]);
    }
  }

  /** Calls naming no registered tool produce no message at all. */
  lemma {:induction false} UnknownCallsSilent(calls: seq<ToolCall>, replies: seq<BridgeReply>)
    requires Fitted(calls, replies)
    requires forall i :: 0 <= i < |calls| ==> calls[i].name !in Registered
    ensures Observations(calls, replies) == []
    decreases |calls|
  {
    if calls != [] {
      var n := |calls| - 1;
      assert forall i :: 0 <= i < n ==> calls[..n][i] == calls[i];
      UnknownCallsSilent(calls[..n], replies[..n]);
    }
  }
}
