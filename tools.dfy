/** The gateway's two tools and the shaping of their output
    (services/agent_gateway/app.py, lines 20-43). The bridge they call is
    represented by the reply it gives. */
module Tools {
  import opened Messages
  import opened Wrappers
  import Paths

  const ListFilesName: string := "list_files"
  const ReadFileName: string := "read_file"

  /** `TOOLS`, by name, in registration order. */
  const Registered: seq<string> := [ListFilesName, ReadFileName]

  const NoFiles: string := "No files found."

  /** `read_file` keeps at most this many characters of a file. */
  const MaxContent: nat := 8000

  /** The body of `list_files` once the bridge has returned `files`. */
  function ListFilesOutput(files: seq<string>): (r: string)
    ensures files == [] ==> r == NoFiles
    ensures files != [] ==> r == Paths.Join(files, '\n')
    ensures files != [] && Paths.NoSep(files, '\n') ==> Paths.Split(r, '\n') == files
  {
    if files == [] then NoFiles
    else
      assert Paths.NoSep(files, '\n') ==> Paths.Split(Paths.Join(files, '\n'), '\n') == files by {
        if Paths.NoSep(files, '\n') { Paths.SplitJoin(files, '\n'); }
      }
      Paths.Join(files, '\n')
  }

  /** The body of `read_file(path)` once the bridge has answered with
      `status`, the raw body `text` and the JSON field `content`. */
  function ReadFileOutput(path: string, status: int, text: string, content: string): (r: string)
    ensures status == 200 ==> |r| <= MaxContent && |r| <= |content| && r == content[..|r|]
    ensures status == 200 ==> |r| == if |content| <= MaxContent then |content| else MaxContent
    ensures status != 200 ==> r == "Error reading " + path + ": " + text
  {
    if status != 200 then "Error reading " + path + ": " + text
    else if |content| <= MaxContent then content
    else content[..MaxContent]
  }

  /** What the bridge did for one tool call: the handler raised `error`
      (transport failure, `raise_for_status`, JSON decoding, a missing
      argument), `GET /list` returned `files`, or `POST /read` answered. */
  datatype BridgeReply =
    | Raised(error: string)
    | Listing(files: seq<string>)
    | Answered(status: int, text: string, content: string)

  /** The reply is one the named tool's handler can receive. */
  predicate Fits(call: ToolCall, reply: BridgeReply)
  {
    && (call.name == ListFilesName ==> reply.Raised? || reply.Listing?)
    && (call.name == ReadFileName ==> reply.Raised? || (reply.Answered? && "path" in call.args))
  }

  predicate Fitted(calls: seq<ToolCall>, replies: seq<BridgeReply>)
  {
    |calls| == |replies| && forall i :: 0 <= i < |calls| ==> Fits(calls[i], replies[i])
  }

  /** `t.run(**args)` for the registered tool named by the call: its value,
      or the exception it raised. */
  function Run(call: ToolCall, reply: BridgeReply): (r: Result<string, string>)
    requires call.name in Registered && Fits(call, reply)
    ensures r.Failure? <==> reply.Raised?
    ensures call.name == ListFilesName && reply.Listing? ==> r == Success(ListFilesOutput(reply.files))
    ensures call.name == ReadFileName && reply.Answered? ==>
      r == Success(ReadFileOutput(call.args["path"], reply.status, reply.text, reply.content))
  {
    match reply
    case Raised(e) => Failure(e)
    case Listing(files) => Success(ListFilesOutput(files))
    case Answered(status, text, content) => Success(ReadFileOutput(call.args["path"], status, text, content))
  }

  /** The `res` of `tools_node`: a raised exception becomes text instead of
      propagating. */
  function Output(call: ToolCall, reply: BridgeReply): (r: string)
    requires call.name in Registered && Fits(call, reply)
    ensures reply.Raised? ==> r == "Tool " + call.name + " error: " + reply.error
    ensures !reply.Raised? ==> Success(r) == Run(call, reply)
  {
    match Run(call, reply)
    case Success(out) => out
    case Failure(e) => "Tool " + call.name + " error: " + e
  }
}
