/** The compiled graph: START -> agent, agent -> tools or END as the router
    decides, tools -> agent (services/agent_gateway/app.py, lines 91-101).
    The model is a script of answers, one per visit of the agent node, and
    the bridge a list of replies per tools visit. */
module Graph {
  import opened Messages
  import opened Tools
  import opened Agent

  /** The state after each node step of one run, and whether the run
      reached END before the script ran out. */
  datatype Run = Run(events: seq<seq<Message>>, finished: bool)

  /** `replies[k]` answers the tool calls of the `k`-th answer. */
  predicate Scripted(script: seq<Completion>, replies: seq<seq<BridgeReply>>)
  {
    |replies| == |script| && forall k :: 0 <= k < |script| ==> Fitted(script[k].toolCalls, replies[k])
  }

  lemma ScriptedSuffix(script: seq<Completion>, replies: seq<seq<BridgeReply>>, k: nat)
    requires Scripted(script, replies) && k <= |script|
    ensures Scripted(script[k..], replies[k..])
  {
    assert forall j :: 0 <= j < |script| - k ==> script[k..][j] == script[k + j] && replies[k..][j] == replies[k + j];
  }

  /** The graph run from `history`: agent, then tools and agent again for as
      long as the router says so. */
  function Drive(history: seq<Message>, script: seq<Completion>, replies: seq<seq<BridgeReply>>): (r: Run)
    requires Scripted(script, replies)
    ensures r.finished ==> r.events != []
    decreases |script|
  {
    if script == [] then Run([], false)
    else
      var afterAgent := AgentNode(history, script[0]);
      if Router(afterAgent) == ToEnd then Run([afterAgent], true)
      else
        var afterTools := afterAgent + Observations(script[0].toolCalls, replies[0]);
        ScriptedSuffix(script, replies, 1);
        var rest := Drive(afterTools, script[1..], replies[1..]);
        Run([afterAgent, afterTools] + rest.events, rest.finished)
  }

  function Prefixed(events: seq<seq<Message>>, r: Run): Run
  {
    Run(events + r.events, r.finished)
  }

  /** Execute the graph node by node, as `app_graph.stream` does. */
  method RunGraph(start: seq<Message>, script: seq<Completion>, replies: seq<seq<BridgeReply>>)
    returns (events: seq<seq<Message>>, finished: bool)
    requires Scripted(script, replies)
    ensures Run(events, finished) == Drive(start, script, replies)
  {
    var history := start;
    var k := 0;
    events, finished := [], false;
    assert script[0..] == script && replies[0..] == replies;
    while k < |script| && !finished
      invariant 0 <= k <= |script|
      invariant Scripted(script[k..], replies[k..])
      invariant !finished ==> Drive(start, script, replies) == Prefixed(events, Drive(history, script[k..], replies[k..]))
      invariant finished ==> Drive(start, script, replies) == Run(events, true)
      decreases |script| - k, !finished
    {
      DriveAt(history, script, replies, k);
      ghost var before := events;
      history := AgentNode(history, script[k]);
      events := events + [history];
      if Router(history) == ToEnd {
        finished := true;
      } else {
        var afterAgent := history;
        history := ToolsNode(history, replies[k]);
        events := events + [history];
        PrefixedTwice(before, afterAgent, history, Drive(history, script[k + 1..], replies[k + 1..]));
        k := k + 1;
      }
    }
    if !finished {
      assert script[k..] == [];
    }
  }

  /** The run from position `k` of the script: one agent step, then either
      END or a tools step and the run from position `k + 1`. */
  lemma DriveAt(history: seq<Message>, script: seq<Completion>, replies: seq<seq<BridgeReply>>, k: nat)
    requires Scripted(script, replies) && k < |script|
    ensures Scripted(script[k + 1..], replies[k + 1..])
    ensures var afterAgent := AgentNode(history, script[k]);
      Drive(history, script[k..], replies[k..]) ==
        if Router(afterAgent) == ToEnd then Run([afterAgent], true)
        else
          var afterTools := afterAgent + Observations(script[k].toolCalls, replies[k]);
          Prefixed([afterAgent, afterTools], Drive(afterTools, script[k + 1..], replies[k + 1..]))
  {
    ScriptedSuffix(script, replies, k);
    ScriptedSuffix(script, replies, k + 1);
    assert script[k..][0] == script[k] && replies[k..][0] == replies[k];
    assert script[k..][1..] == script[k + 1..] && replies[k..][1..] == replies[k + 1..];
  }

  lemma PrefixedTwice(events: seq<seq<Message>>, a: seq<Message>, b: seq<Message>, r: Run)
    ensures Prefixed(events, Prefixed([a, b], r)) == Prefixed(events + [a] + [b], r)
  {
    assert events + ([a, b] + r.events) == events + [a] + [b] + r.events;
  }

  // ---------------------------------------------------------------------------
  // Termination and shape of a run.

  predicate AnswersWithoutTools(script: seq<Completion>)
  {
    exists k :: 0 <= k < |script| && script[k].toolCalls == []
  }

  /** The position of the first answer that requests no tool. */
  function FirstStop(script: seq<Completion>): (m: nat)
    requires AnswersWithoutTools(script)
    ensures m < |script| && script[m].toolCalls == []
    ensures forall j :: 0 <= j < m ==> script[j].toolCalls != []
    decreases |script|
  {
    if script[0].toolCalls == [] then 0
    else
      var k :| 0 <= k < |script| && script[k].toolCalls == [];
      assert script[1..][k - 1] == script[k];
      1 + FirstStop(script[1..])
  }

  /** The messages one tool round adds: the answer, then its observations. */
  function Round(answer: Completion, replies: seq<BridgeReply>): seq<Message>
    requires Fitted(answer.toolCalls, replies)
  {
    [Respond(answer)] + Observations(answer.toolCalls, replies)
  }

  /** The messages the first `m` tool rounds add, in order. */
  function Transcript(script: seq<Completion>, replies: seq<seq<BridgeReply>>, m: nat): seq<Message>
    requires Scripted(script, replies) && m <= |script|
    decreases m
  {
    if m == 0 then []
    else
      ScriptedSuffix(script, replies, 1);
      Round(script[0], replies[0]) + Transcript(script[1..], replies[1..], m - 1)
  }

  /** If the model's first answer requests no tool, the run stops after
      exactly one agent step, with that answer appended. */
  lemma ImmediateAnswer(history: seq<Message>, script: seq<Completion>, replies: seq<seq<BridgeReply>>)
    requires Scripted(script, replies) && script != [] && script[0].toolCalls == []
    ensures Drive(history, script, replies) == Run([history + [Respond(script[0])]], true)
  {
  }

  /** A run reaches END exactly when some answer of the script requests no tool. */
  lemma {:induction false} FinishedIffToolFreeAnswer(history: seq<Message>, script: seq<Completion>, replies: seq<seq<BridgeReply>>)
    requires Scripted(script, replies)
    ensures Drive(history, script, replies).finished <==> AnswersWithoutTools(script)
    decreases |script|
  {
    if script != [] && script[0].toolCalls != [] {
      var afterAgent := AgentNode(history, script[0]);
      var afterTools := afterAgent + Observations(script[0].toolCalls, replies[0]);
      ScriptedSuffix(script, replies, 1);
      FinishedIffToolFreeAnswer(afterTools, script[1..], replies[1..]);
      if AnswersWithoutTools(script) {
        var k :| 0 <= k < |script| && script[k].toolCalls == [];
        assert script[1..][k - 1] == script[k];
      }
      if AnswersWithoutTools(script[1..]) {
        var k :| 0 <= k < |script[1..]| && script[1..][k].toolCalls == [];
        assert script[k + 1] == script[1..][k];
      }
    }
  }

  /** One tool round of a run: agent, tools, then the rest of the run. */
  lemma DriveRound(history: seq<Message>, script: seq<Completion>, replies: seq<seq<BridgeReply>>)
    requires Scripted(script, replies) && script != [] && script[0].toolCalls != []
    ensures Scripted(script[1..], replies[1..])
    ensures Drive(history, script, replies) ==
      Prefixed([history + [Respond(script[0])], history + Round(script[0], replies[0])],
               Drive(history + Round(script[0], replies[0]), script[1..], replies[1..]))
  {
    ScriptedSuffix(script, replies, 1);
    assert AgentNode(history, script[0]) + Observations(script[0].toolCalls, replies[0]) == history + Round(script[0], replies[0]);
  }

  /** A finished run takes `2m + 1` node steps, where `m` is the position of
      the first tool-free answer; its final history is the start, then every
      earlier answer followed by its observations, then that answer. */
  lemma {:induction false} FinishedShape(history: seq<Message>, script: seq<Completion>, replies: seq<seq<BridgeReply>>)
    requires Scripted(script, replies) && AnswersWithoutTools(script)
    ensures var r := Drive(history, script, replies); var m := FirstStop(script);
      && r.finished
      && |r.events| == 2 * m + 1
      && r.events[2 * m] == history + Transcript(script, replies, m) + [Respond(script[m])]
    decreases |script|
  {
    if script[0].toolCalls != [] {
      ScriptedSuffix(script, replies, 1);
      FirstStopTail(script);
      FinishedShape(history + Round(script[0], replies[0]), script[1..], replies[1..]);
      ShapeFromTail(history, script, replies);
    }
  }

  /** The shape of a run whose first answer requests tools follows from the
      shape of the run after that round. */
  lemma ShapeFromTail(history: seq<Message>, script: seq<Completion>, replies: seq<seq<BridgeReply>>)
    requires Scripted(script, replies) && AnswersWithoutTools(script) && script[0].toolCalls != []
    requires Scripted(script[1..], replies[1..]) && AnswersWithoutTools(script[1..])
    requires var next := history + Round(script[0], replies[0]);
      var r := Drive(next, script[1..], replies[1..]); var m := FirstStop(script[1..]);
      && r.finished
      && |r.events| == 2 * m + 1
      && r.events[2 * m] == next + Transcript(script[1..], replies[1..], m) + [Respond(script[1..][m])]
    ensures var r := Drive(history, script, replies); var m := FirstStop(script);
      && r.finished
      && |r.events| == 2 * m + 1
      && r.events[2 * m] == history + Transcript(script, replies, m) + [Respond(script[m])]
  {
    var round := Round(script[0], replies[0]);
    DriveRound(history, script, replies);
    FirstStopTail(script);
    var m := FirstStop(script);
    assert Transcript(script, replies, m) == round + Transcript(script[1..], replies[1..], m - 1);
    ShapeStep(history, round, Transcript(script[1..], replies[1..], m - 1), Respond(script[m]),
              [history + [Respond(script[0])], history + round],
              Drive(history + round, script[1..], replies[1..]).events, m);
  }

  /** Past a first answer that requests tools, the first tool-free answer
      is one position further along. */
  lemma FirstStopTail(script: seq<Completion>)
    requires AnswersWithoutTools(script) && script[0].toolCalls != []
    ensures AnswersWithoutTools(script[1..])
    ensures FirstStop(script) == 1 + FirstStop(script[1..])
    ensures script[1..][FirstStop(script) - 1] == script[FirstStop(script)]
  {
    var k :| 0 <= k < |script| && script[k].toolCalls == [];
    assert script[1..][k - 1] == script[k];
  }

  /** Two more states in front of a run of `2(m - 1) + 1` states. */
  lemma ShapeStep(history: seq<Message>, round: seq<Message>, later: seq<Message>, last: Message,
                  front: seq<seq<Message>>, events: seq<seq<Message>>, m: nat)
    requires |front| == 2 && m >= 1
    requires |events| == 2 * (m - 1) + 1 && events[2 * (m - 1)] == history + round + later + [last]
    ensures |front + events| == 2 * m + 1
    ensures (front + events)[2 * m] == history + (round + later) + [last]
  {
    assert (front + events)[2 * m] == events[2 * (m - 1)];
  }

  /** The history only grows: every state of a run extends the start and
      the state before it. */
  lemma {:induction false} AppendOnly(history: seq<Message>, script: seq<Completion>, replies: seq<seq<BridgeReply>>)
    requires Scripted(script, replies)
    ensures Grows(history, Drive(history, script, replies).events)
    decreases |script|
  {
    if script != [] && script[0].toolCalls != [] {
      var afterAgent := history + [Respond(script[0])];
      var afterTools := history + Round(script[0], replies[0]);
      DriveRound(history, script, replies);
      AppendOnly(afterTools, script[1..], replies[1..]);
      GrowsFront(history, afterAgent, afterTools, Drive(afterTools, script[1..], replies[1..]).events);
    }
  }

  /** Every state extends `start` and the state before it. */
  predicate Grows(start: seq<Message>, events: seq<seq<Message>>)
  {
    && (forall i :: 0 <= i < |events| ==> |events[i]| > |start| && events[i][..|start|] == start)
    && (forall i :: 0 < i < |events| ==> |events[i]| >= |events[i - 1]| && events[i][..|events[i - 1]|] == events[i - 1])
  }

  /** Two growing states in front of states that grow from the second. */
  lemma GrowsFront(start: seq<Message>, a: seq<Message>, b: seq<Message>, rest: seq<seq<Message>>)
    requires |a| > |start| && a[..|start|] == start && |b| >= |a| && b[..|a|] == a
    requires Grows(b, rest)
    ensures Grows(start, [a, b] + rest)
  {
    var ev := [a, b] + rest;
    assert b[..|start|] == start by { assert b[..|start|] == b[..|a|][..|start|]; }
    forall i | 2 <= i < |ev| ensures |ev[i]| > |start| && ev[i][..|start|] == start {
      assert ev[i] == rest[i - 2];
      assert rest[i - 2][..|start|] == rest[i - 2][..|b|][..|start|];
    }
    forall i | 0 < i < |ev| ensures |ev[i]| >= |ev[i - 1]| && ev[i][..|ev[i - 1]|] == ev[i - 1] {
      if i >= 3 {
        assert ev[i] == rest[i - 2] && ev[i - 1] == rest[i - 3];
      } else if i == 2 {
        assert ev[i] == rest[0] && ev[i - 1] == b;
      }
    }
  }
}
