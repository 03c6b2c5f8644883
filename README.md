# Agent gateway and filesystem bridge: a Dafny model

This project models the two services of the agentic AI playground that
together answer a chat request.

- **The agent gateway** (`services/agent_gateway/app.py`) wraps a
  tool-calling language model in a small LangGraph graph. The `agent` node
  asks the model for an answer. The `router` sends the run to the `tools`
  node when that answer requests tools. The `tools` node runs every
  requested tool whose name is registered and appends an observation
  message for each. The graph then returns to `agent`. `/chat` streams the
  graph and keeps the last state. It replies with the content of the last
  `AIMessage` and reports the type of every message as the trace.
- **The filesystem bridge** (`services/mcp_hub/bridge.py`) serves
  `list_files` and `read_file` over a root directory (`MCP_ROOT`, default
  `/data`). `list_files` returns the sorted relative path of every file.
  `read_file` joins the requested path to the root and normalises it. It
  refuses with 400 when the result does not start, as a string, with the
  normalised root. It then hands the raw, unnormalised target to the
  operating system. It answers 404 when the kernel's walk of that target
  fails, 500 when the walk ends at a directory, and otherwise returns the
  file.

Modules, one file each:

- `Wrappers`: `Option` and `Result`.
- `Paths`: the POSIX path functions the bridge relies on. They are
  `str.split` and `'/'.join`, `os.path.join`, and `normpath`/`abspath`
  with their handling of one, two and three or more leading slashes and of
  `.` and `..`. The module also holds the lemmas these functions need:
  split/join round trips, and how `..` climbs.
- `Sorting`: code-point order on strings, insertion sort, and uniqueness of
  a sorted permutation (Python's `sorted`).
- `Bridge`: `read_file` with its 400/404/500 ordering, the sandbox
  properties, the component-wise containment test, and `list_files` as a
  nested loop followed by a sort.
- `Messages`: messages, tool calls, model answers, and their type labels.
- `Tools`: how the two gateway tools shape the bridge's answer into text,
  and how `tools_node` turns an exception into text.
- `Agent`: `agent_node`, `router`, and `tools_node`. `tools_node` is an
  imperative nested loop with `break`, proved against `Observations`.
- `Graph`: the START → agent → (tools → agent)* → END loop, both as the
  function `Drive` and as the node-by-node method `RunGraph`.
- `Gateway`: `/chat`. It drains the stream, scans the final state in
  reverse for an `AIMessage`, and builds the trace.

Outside effects become inputs. The model is a script: a sequence of
`Completion`s, one per visit of the agent node. What the bridge did for
each tool call is a `BridgeReply`: it raised, it listed files, or it
answered with a status and a body. The filesystem is a map from the
segments of an absolute path to `File(content)` or `Directory`; `/` is
always a directory. `os.path.exists` and `open` walk the raw target one
component at a time, as the kernel does (`Bridge.Lookup`). The working
directory used by `abspath` and by relative targets is a parameter.

Tool observations are appended as `AIMessage`s (app.py:88), and a call
naming an unregistered tool is skipped silently (app.py:78-85,
`Agent.UnknownCallsSilent`).

## Model

| member | source | states |
|---|---|---|
| Tools.ListFilesOutput | services/agent_gateway/app.py:28-30 | an empty listing yields `No files found.`; otherwise the text is the files joined by newlines, and when no file name contains a newline it splits back into exactly the listed files |
| Tools.ReadFileOutput | services/agent_gateway/app.py:38-41 | a non-200 status yields `Error reading <path>: <body>`; a 200 yields a prefix of the content of length min(len, 8000) |
| Tools.Run | services/agent_gateway/app.py:20-41 | a registered tool fails exactly when the bridge call raised; otherwise its value is the shaped listing or file text |
| Tools.Output | services/agent_gateway/app.py:80-83 | an exception becomes `Tool <name> error: <e>`; otherwise the output is the tool's value |
| Messages.TypeLabel | services/agent_gateway/app.py:134 | the `str(type(m))` text of a message; it names `AIMessage` exactly when the message is one |
| Agent.AgentNode | services/agent_gateway/app.py:60-63 | the new history is the old one unchanged plus exactly the model's answer |
| Agent.Router | services/agent_gateway/app.py:66-70 | route to tools if and only if the last message is an `AIMessage` with a non-empty tool-call list |
| Agent.Observation | services/agent_gateway/app.py:88 | an observation is an `AIMessage` without tool calls reading `Tool <name> output:\n<output>` |
| Agent.Results | services/agent_gateway/app.py:74-85 | at most one result per call; `Agent.ResultsFollowCalls` with `Agent.KnownIndices` shows there is one per registered call, in call order, with that call's output |
| Agent.Observations | services/agent_gateway/app.py:86-88 | at most one message per call, each an `AIMessage` without tool calls; `Agent.ObservationsFollowCalls` gives the text of each |
| Agent.ToolsNode | services/agent_gateway/app.py:72-89 | the loops with `break` return the old history followed by exactly `Observations` of the last message's calls |
| Agent.ResultsFollowCalls | services/agent_gateway/app.py:75-85 | there is one result per call that names a registered tool, in call order, carrying that call's output |
| Agent.ObservationsFollowCalls | services/agent_gateway/app.py:86-88 | the k-th observation is the message for the k-th matching call |
| Agent.AllRegisteredOnePerCall | services/agent_gateway/app.py:75-88 | when every call names a registered tool, observation i answers call i and there is one per call |
| Agent.UnknownCallsSilent | services/agent_gateway/app.py:78-85 | calls that match no registered tool add no message at all |
| Agent.KnownIndices | services/agent_gateway/app.py:78-79 | the positions of matching calls are in range, registered and strictly increasing |
| Agent.KnownIndicesComplete | services/agent_gateway/app.py:78-79 | every call that names a registered tool has its position listed |
| Graph.RunGraph | services/agent_gateway/app.py:97-101 | stepping node by node yields exactly the states and the completion flag of `Drive` |
| Graph.Drive | services/agent_gateway/app.py:97-101 | a finished run has streamed at least one state |
| Graph.ImmediateAnswer | services/agent_gateway/app.py:66-70 | an answer without tool calls ends the run after one agent step, with that answer appended |
| Graph.FinishedIffToolFreeAnswer | services/agent_gateway/app.py:97-101 | a run reaches END if and only if some answer of the script requests no tool |
| Graph.FinishedShape | services/agent_gateway/app.py:97-101 | a finished run has 2m+1 states (m = first tool-free answer); the last is the start, each earlier round, then that answer |
| Graph.AppendOnly | services/agent_gateway/app.py:60-89 | every streamed state extends the start and the state before it |
| Graph.FirstStop | services/agent_gateway/app.py:66-70 | the position of the first tool-free answer, with every earlier answer requesting tools |
| Gateway.LastAIIsLatest | services/agent_gateway/app.py:126-131 | the found message is an `AIMessage` with none after it; none is found only when there is no `AIMessage` |
| Gateway.FindLastAI | services/agent_gateway/app.py:127-131 | the reversed scan with `break` returns the last `AIMessage` of the state |
| Gateway.ReplyText | services/agent_gateway/app.py:127-133 | `(no reply)` when the state holds no `AIMessage`; the last message's content when that message is an `AIMessage`; `Gateway.LastAIIsLatest` covers the rest |
| Gateway.ChatOutcome | services/agent_gateway/app.py:118-135 | the reply and trace of the last streamed state, or no answer when the run does not finish; `Gateway.ChatRepliesWithFinalAnswer` states what they are |
| Gateway.TurnLabels | services/agent_gateway/app.py:134 | one type label per message of the final state, in order |
| Gateway.Chat | services/agent_gateway/app.py:118-135 | the reply and trace are read off the final streamed state as `ChatOutcome` defines |
| Gateway.ChatRepliesWithFinalAnswer | services/agent_gateway/app.py:118-135 | a chat completes if and only if some answer requests no tool; it then replies with that answer's text and labels the full transcript |
| Gateway.ListFilesScenario | services/agent_gateway/app.py:20-30 | a `list_files` round yields the observation `Tool list_files output:\na.txt\nb.txt`, the final text as reply, and four labels |
| Paths.PosixJoin | services/mcp_hub/bridge.py:26 | an absolute argument replaces the root; otherwise the result starts with the root and ends with the argument |
| Paths.Normpath | services/mcp_hub/bridge.py:27 | the normal form is never empty and is absolute exactly when the input is |
| Paths.Abspath | services/mcp_hub/bridge.py:27 | the result is always absolute |
| Paths.Split | services/mcp_hub/bridge.py:27 | `str.split`, as normpath splits a path into components: there is always at least one part; `Paths.SplitJoin`, `Paths.JoinSplit` and `Paths.SplitAround` pin it down |
| Paths.Join | services/agent_gateway/app.py:30 | `str.join`, for the listing text and normpath's rejoin; `Paths.SplitJoin`, `Paths.JoinSplit` and `Paths.JoinAppend` pin it down |
| Paths.LeadingSlashes | services/mcp_hub/bridge.py:27 | normpath's leading slashes: none exactly for relative paths, two exactly when the path starts with `//` but not `///`, one otherwise |
| Paths.Step | services/mcp_hub/bridge.py:27 | one iteration of normpath's loop over components; `Paths.ResolveClimb`, `Paths.ResolveNames` and `Paths.ResolveRootedClean` state its effect |
| Paths.Resolve | services/mcp_hub/bridge.py:27 | normpath's loop over all components; `Paths.ResolveAppend` splits it, and the same lemmas state its effect |
| Paths.SplitJoin | services/agent_gateway/app.py:30 | splitting a join of separator-free parts recovers the parts |
| Paths.JoinSplit | services/mcp_hub/bridge.py:27 | joining the split of a string recovers the string |
| Paths.ResolveClimb | services/mcp_hub/bridge.py:27 | each `..` below a rooted path removes one segment, and at the root it stays at the root |
| Paths.ResolveNames | services/mcp_hub/bridge.py:27 | plain names are appended unchanged by normalisation |
| Sorting.LexLe | services/mcp_hub/bridge.py:22 | Python's code-point order on `str`: total (`Sorting.LexTotal`), transitive (`Sorting.LexTrans`) and antisymmetric (`Sorting.LexAntisym`) |
| Sorting.Sort | services/mcp_hub/bridge.py:22 | the result is sorted in code-point order and is a permutation of the input |
| Sorting.SortedUnique | services/mcp_hub/bridge.py:22 | two sorted permutations of the same multiset are equal |
| Bridge.ListFiles | services/mcp_hub/bridge.py:14-22 | the nested walk loops collect every relative path; the result is sorted, a permutation of the walked paths, and equals `Sort` of them |
| Bridge.RelPathSplits | services/mcp_hub/bridge.py:19-20 | the relative path `RelPath` builds splits back into its directory's segments and the file name when none of them contains `/` |
| Bridge.WalkPaths | services/mcp_hub/bridge.py:17-21 | every relative path in walk order; `Bridge.ListFiles` proves its loops collect exactly these |
| Bridge.DirPaths | services/mcp_hub/bridge.py:18-21 | one relative path per file of a directory, in order |
| Bridge.ListingIgnoresWalkOrder | services/mcp_hub/bridge.py:17-22 | the listing depends only on the multiset of walked paths, not on the walk's order |
| Bridge.PassesPrefixCheck | services/mcp_hub/bridge.py:27 | the raw `startswith` test; `Bridge.ReadFile` answers 400 exactly when it fails, and `Bridge.SiblingDirectoryServed` shows it admits `/data2` |
| Bridge.Located | services/mcp_hub/bridge.py:29-31 | where `os.path.exists` and `open` land: `/` or an entry of the filesystem; `Bridge.LocatedIsNormalTarget` ties it to the normalised target |
| Bridge.ReadFile | services/mcp_hub/bridge.py:24-33 | 400 if and only if the prefix test fails; 404 if and only if it passes and the kernel's walk of the raw target fails; a directory there gives 500; a file there is served, echoing the path with the stored content |
| Bridge.Lookup | services/mcp_hub/bridge.py:29-31 | a successful walk ends at `/` or at an entry of the filesystem |
| Bridge.LocatedIsNormalTarget | services/mcp_hub/bridge.py:27-31 | when the walk succeeds, it ends at the segments of the normalised target that the prefix test examined |
| Bridge.LookupFollowsResolve | services/mcp_hub/bridge.py:27-31 | from a clean directory, a successful walk of separator-free components ends where rooted normalisation of them ends |
| Bridge.LookupTrailingSlash | services/mcp_hub/bridge.py:29-31 | a walk whose last component is empty succeeds only at a directory |
| Bridge.TrailingSlashNeverServed | services/mcp_hub/bridge.py:29-33 | a path ending in `/` is never served as a file |
| Bridge.MissingBeforeClimb | services/mcp_hub/bridge.py:29 | a missing name followed by `..` fails the walk, whatever follows |
| Bridge.MissingNameBeforeClimbNotFound | services/mcp_hub/bridge.py:26-30 | with only `/data/x.txt` present, `nosuch/../x.txt` normalises to `/data/x.txt` and passes the test, yet is answered with 404 |
| Bridge.LocatedUnderDataRoot | services/mcp_hub/bridge.py:26-29 | a relative path below `/data` is walked from `/` through `data` and then its own components |
| Bridge.RelativeTarget | services/mcp_hub/bridge.py:26-27 | a relative argument normalises to the root's leading slashes plus the root's segments resolved with the argument's components |
| Bridge.ClimbAboveRootRefused | services/mcp_hub/bridge.py:27-28 | a path of one or more `..` segments against a non-root root is refused with 400 |
| Bridge.PlainDescentAccepted | services/mcp_hub/bridge.py:26-27 | a relative path of plain names lands directly under the normalised root and passes the test |
| Bridge.AbsoluteArgumentReplacesRoot | services/mcp_hub/bridge.py:26-31 | an absolute argument is served only when its own normal form starts with the root and the walk of the argument itself reaches the file |
| Bridge.ClimbThenDescend | services/mcp_hub/bridge.py:26-27 | `m` `..` segments then names climb m levels (stopping at `/`) and then descend |
| Bridge.EtcPasswdRefused | services/mcp_hub/bridge.py:27-28 | `../../etc/passwd` against `/data` is refused with 400 |
| Bridge.DataRoot | services/mcp_hub/bridge.py:6 | `/data` is already normal, with the single segment `data` |
| Bridge.SiblingDirectoryServed | services/mcp_hub/bridge.py:27 | as written, `../data2/x` against `/data` resolves to `/data2/x` and, with `/data` and `/data2/x` present, is served |
| Bridge.SiblingWalk | services/mcp_hub/bridge.py:29-31 | the walk of `/data/../data2/x` reaches the file `x` in `/data2` |
| Bridge.ReadFileContained | services/mcp_hub/bridge.py:24-33 | with component containment, 400 if and only if the target is not the root or below it; 404 and served as in `ReadFile` |
| Bridge.ContainsIffSegmentPrefix | services/mcp_hub/bridge.py:27 | on normal forms, containment holds if and only if the root's segments are a prefix of the target's |
| Bridge.ContainedReadStaysUnderRoot | services/mcp_hub/bridge.py:26-28 | with the corrected test, a relative path is refused if and only if its resolution leaves the root's segments |
| Bridge.SiblingDirectoryRefusedWhenContained | services/mcp_hub/bridge.py:27 | the corrected test refuses `../data2/x` against `/data` |

## Left out

- The language model itself (`ChatOpenAI`, `bind_tools`, the system prompt
  prepended at app.py:61). It is replaced by a script of answers, one per
  agent visit. A run whose script ends before a tool-free answer appears
  ends as `Run(_, false)` / `Exhausted`. This is an artefact of the script:
  the real graph would consult the model again.
- HTTP, `httpx`, FastAPI routing, JSON decoding and timeouts. Each tool
  call's outcome is an input (`BridgeReply`), and every exception a handler
  can raise is the one case `Raised(e)`. The bridge handler's `path`
  parameter is taken as given. So is the shape of the body the gateway
  posts.
- `BaseTool.run`'s argument handling. `t.run(**args)` is modelled as
  calling the tool with its arguments, and anything it raises falls under
  `Raised(e)`.
- LangGraph's compilation, the `MemorySaver` checkpoint store, thread ids and
  the streaming machinery. Each `/chat` starts from `[HumanMessage(message)]`,
  and the stream is the list of states after each node step.
- The `/health` endpoints of both services. They only report constants.
- `os.walk` and the system calls behind `os.path.exists` and `open`:
  symbolic links, permissions and text decoding (`errors="ignore"`). The
  walk is a list of (directory segments, file names) entries.
  `os.path.exists` and `open` are the kernel's component-by-component walk
  of the raw target, without links. A directory at the target makes `open`
  raise, which gives 500.
- `Bridge.ReadFile`: symbolic links are not modelled. A link can make the
  kernel's `..` leave a directory other than the one `normpath` assumes,
  so with links the file opened may differ from the normalised target.
  Without them, `Bridge.LocatedIsNormalTarget` shows that the two agree.
- `os.path.relpath` in `list_files`. The relative path of a walked file is
  its directory's segments below the root joined with its name.
- `Paths.Abspath`: the working directory is a parameter
  (it comes from `os.getcwd()`).
- Concurrency, and the async/sync mixing of the nodes and the stream.
- `Bridge.ListFiles`: the sort is a functional insertion sort over the
  collected sequence rather than Python's in-place Timsort. The result is
  the same, because a sorted permutation is unique (`Sorting.SortedUnique`).

## Findings

| source | as written | input that shows it | evidently intended | confidence | as-written member | corrected member |
|---|---|---|---|---|---|---|
| services/mcp_hub/bridge.py:27 | the sandbox test is a raw string `startswith` of the normalised target against the normalised root | root `/data`, path `../data2/x`: the target normalises to `/data2/x`, which starts with `/data`, so a file outside the root is served | the target must be the root or lie below `root + "/"` (a prefix of path components) | high; not executed | Bridge.SiblingDirectoryServed | Bridge.ContainedReadStaysUnderRoot |
