/**
 * The shared state of one code-agent run (`AgentState`: `summary` and `files`) and the
 * handlers that act on it: the `createOrUpdateFiles`, `readFiles` and `terminal` tools and
 * the code agent's `onResponse` completion hook.
 *
 * Sandbox calls are foreign: what the sandbox does in one handler call is an input
 * (`SandboxFault` says which call, if any, throws; file contents and command output are
 * given).
 */
module WorkflowTools {
  import opened Wrappers
  import opened Strings

  /** The termination marker the completion hook looks for in the agent's last text. */
  const TaskSummaryMarker: string := "<task_summary>"

  /** The prefix of the message returned when a tool's array argument is not an array. */
  const NotArrayMessage: string := "Error: Files parameter must be an array, received: "

  /** A snapshot of the workflow state. */
  datatype StateData = StateData(summary: string, files: map<string, string>)

  /** A property of an argument object as the model sent it: a string, or a value of
      another type (named by its `typeof`). */
  datatype Field = Str(s: string) | NotString(typeName: string)

  /** One element of `createOrUpdateFiles`' `files` array: a falsy value (`null`,
      `undefined`), or an object with a `path` and a `content` property. */
  datatype RawEntry = Falsy | Entry(path: Field, content: Field)

  /** An argument that must be an array: either it is, or it is a value of another type. */
  datatype ToolArg<T> = NotArray(typeName: string) | Items(items: seq<T>)

  /** How the sandbox behaves during one handler call. */
  datatype SandboxFault =
    | NoFault
      /** `getSandbox` throws, before any file is touched. */
    | ConnectFails(error: string)
      /** The sandbox call made for the element at index `at` throws. */
    | OperationFails(at: nat, error: string)

  /** An entry the handler accepts: an object whose `path` and `content` are strings. */
  predicate WellFormed(e: RawEntry) {
    e.Entry? && e.path.Str? && e.content.Str?
  }

  /** The files map after writing the well-formed entries of `es`, in order, into `files`. */
  function Merge(files: map<string, string>, es: seq<RawEntry>): (r: map<string, string>)
    ensures files.Keys <= r.Keys
    ensures forall p :: p in r && p !in files ==> LastWrite(es, p).Some?
    decreases |es|
  {
    if es == [] then files
    else
      var m := Merge(files, es[..|es| - 1]);
      var e := es[|es| - 1];
      if WellFormed(e) then m[e.path.s := e.content.s] else m
  }

  /** The content of the last well-formed entry of `es` whose path is `p`, if any. */
  function LastWrite(es: seq<RawEntry>, p: string): Option<string>
    decreases |es|
  {
    if es == [] then None
    else
      var e := es[|es| - 1];
      if WellFormed(e) && e.path.s == p then Some(e.content.s) else LastWrite(es[..|es| - 1], p)
  }

  /** After a merge, a path holds the content of the last well-formed entry for it; a path
      with no such entry keeps its old content; no path is removed. */
  lemma {:induction false} MergeAt(files: map<string, string>, es: seq<RawEntry>, p: string)
    ensures LastWrite(es, p).Some? ==> p in Merge(files, es) && Merge(files, es)[p] == LastWrite(es, p).value
    ensures LastWrite(es, p).None? ==> (p in Merge(files, es) <==> p in files)
    ensures LastWrite(es, p).None? && p in files ==> Merge(files, es)[p] == files[p]
    decreases |es|
  {
    if es != [] {
      MergeAt(files, es[..|es| - 1], p);
    }
  }

  /** Two batches merged one after the other give the merge of the joined batch. */
  lemma {:induction false} MergeConcat(files: map<string, string>, a: seq<RawEntry>, b: seq<RawEntry>)
    ensures Merge(Merge(files, a), b) == Merge(files, a + b)
    decreases |b|
  {
    if b == [] {
      assert a + b == a;
    } else {
      MergeConcat(files, a, b[..|b| - 1]);
      assert (a + b)[..|a + b| - 1] == a + b[..|b| - 1];
      assert (a + b)[|a + b| - 1] == b[|b| - 1];
    }
  }

  /** Whether a `createOrUpdateFiles` batch stops on a sandbox write that throws: only
      well-formed entries are written, so only they can throw. */
  predicate WriteThrows(es: seq<RawEntry>, fault: SandboxFault) {
    fault.OperationFails? && fault.at < |es| && WellFormed(es[fault.at])
  }

  /** The state's files after one `createOrUpdateFiles` call. The handler writes into the
      state's own map, so a write that throws leaves the entries before it, and the
      throwing entry itself, in place. */
  function FilesAfterWrite(files: map<string, string>, arg: ToolArg<RawEntry>, fault: SandboxFault): (r: map<string, string>)
    ensures files.Keys <= r.Keys
    ensures arg.NotArray? || fault.ConnectFails? ==> r == files
    ensures arg.Items? && WriteThrows(arg.items, fault) ==>
      var e := arg.items[fault.at];
      e.path.s in r && r[e.path.s] == e.content.s
  {
    match arg
    case NotArray(_) => files
    case Items(es) =>
      if fault.ConnectFails? then files
      else if WriteThrows(es, fault) then Merge(files, es[..fault.at + 1])
      else Merge(files, es)
  }

  /** With a healthy sandbox, every path holds the content of the last well-formed entry
      for it, and paths outside the batch keep their content. */
  lemma WriteLastWins(files: map<string, string>, es: seq<RawEntry>, p: string)
    ensures var after := FilesAfterWrite(files, Items(es), NoFault);
      && (LastWrite(es, p).Some? ==> p in after && after[p] == LastWrite(es, p).value)
      && (LastWrite(es, p).None? ==> (p in after <==> p in files) && (p in files ==> after[p] == files[p]))
  {
    MergeAt(files, es, p);
  }

  /** Malformed entries are skipped and do not stop the batch: dropping them changes nothing. */
  lemma {:induction false} MalformedSkipped(files: map<string, string>, a: seq<RawEntry>, bad: RawEntry, b: seq<RawEntry>)
    requires !WellFormed(bad)
    ensures Merge(files, a + [bad] + b) == Merge(files, a + b)
  {
    MergeConcat(files, a + [bad], b);
    MergeConcat(files, a, b);
    assert (a + [bad])[..|a + [bad]| - 1] == a;
  }

  /** The value of the `createOrUpdateFiles` step: the updated map, or an error text. The
      handler keeps the map and returns nothing to the agent, so the error text never reaches it. */
  datatype WriteOutput = UpdatedFiles(files: map<string, string>) | ErrorText(text: string)

  /** One entry returned by `readFiles`. */
  datatype FileContent = FileContent(path: string, content: string)

  /** What the `readFiles` step returns: the contents read, or an error text. */
  datatype ReadOutput = Contents(listing: seq<FileContent>) | ReadError(text: string)

  /** The string elements of a `readFiles` argument, in order. */
  function StringPaths(items: seq<Field>): (paths: seq<string>)
    ensures |paths| <= |items|
    decreases |items|
  {
    if items == [] then []
    else
      var init := StringPaths(items[..|items| - 1]);
      if items[|items| - 1].Str? then init + [items[|items| - 1].s] else init
  }

  /** A path is read exactly when it is given as a string element. */
  lemma {:induction false} StringPathsExact(items: seq<Field>, p: string)
    ensures p in StringPaths(items) <==> Str(p) in items
    decreases |items|
  {
    if items != [] {
      StringPathsExact(items[..|items| - 1], p);
      assert items == items[..|items| - 1] + [items[|items| - 1]];
    }
  }

  /** Whether a `readFiles` call stops on a sandbox read that throws: only string
      elements are read, so only they can throw. */
  predicate ReadThrows(items: seq<Field>, fault: SandboxFault) {
    fault.OperationFails? && fault.at < |items| && items[fault.at].Str?
  }

  /** One chunk of streamed command output. */
  datatype Chunk = Stdout(data: string) | Stderr(data: string)

  /** How one `commands.run` call goes: the sandbox cannot be reached; or the command
      streams its chunks and completes with the `stdout` the library reports; or it
      streams its chunks and then throws. */
  datatype CommandRun =
    | Unreachable(error: string)
    | Completed(chunks: seq<Chunk>, stdout: string)
    | Threw(chunks: seq<Chunk>, error: string)

  /** The text the stdout callback accumulates from the chunks. */
  function StdoutText(chunks: seq<Chunk>): string
    decreases |chunks|
  {
    if chunks == [] then ""
    else
      var c := chunks[|chunks| - 1];
      StdoutText(chunks[..|chunks| - 1]) + (if c.Stdout? then c.data else "")
  }

  /** The text the stderr callback accumulates from the chunks. */
  function StderrText(chunks: seq<Chunk>): string
    decreases |chunks|
  {
    if chunks == [] then ""
    else
      var c := chunks[|chunks| - 1];
      StderrText(chunks[..|chunks| - 1]) + (if c.Stderr? then c.data else "")
  }

  /** All streamed data, in order, whichever stream it came on. */
  function AllData(chunks: seq<Chunk>): string
    decreases |chunks|
  {
    if chunks == [] then "" else AllData(chunks[..|chunks| - 1]) + chunks[|chunks| - 1].data
  }

  /** No streamed data is lost or duplicated: each chunk lands in exactly one buffer. */
  lemma {:induction false} BuffersKeepAllData(chunks: seq<Chunk>)
    ensures |StdoutText(chunks)| + |StderrText(chunks)| == |AllData(chunks)|
    decreases |chunks|
  {
    if chunks != [] {
      BuffersKeepAllData(chunks[..|chunks| - 1]);
    }
  }

  /** A command that streamed only stdout has all of its data in the stdout buffer. */
  lemma {:induction false} OnlyStdout(chunks: seq<Chunk>)
    requires forall i :: 0 <= i < |chunks| ==> chunks[i].Stdout?
    ensures StdoutText(chunks) == AllData(chunks) && StderrText(chunks) == ""
    decreases |chunks|
  {
    if chunks != [] {
      OnlyStdout(chunks[..|chunks| - 1]);
    }
  }

  /** The text `terminal` returns for a command that throws. */
  function FailureReport(error: string, stdout: string, stderr: string): string {
    "Command failed: " + error + "\nstdout: " + stdout + "\nstderr: " + stderr
  }

  /** The summary after the completion hook sees the agent's last assistant text
      (absent when the response has none) while running inside a network or not. */
  function HookSummary(current: string, lastText: Option<string>, inNetwork: bool): (r: string)
    ensures r != current ==> lastText.Some? && r == lastText.value && Contains(r, TaskSummaryMarker)
    ensures lastText.Some? && inNetwork && Contains(lastText.value, TaskSummaryMarker) ==> r == lastText.value
    ensures !inNetwork || lastText.None? ==> r == current
  {
    if lastText.Some? && lastText.value != "" && inNetwork && Contains(lastText.value, TaskSummaryMarker)
    then lastText.value
    else current
  }

  /** A summary the hook sets is never empty, so the router halts on it. */
  lemma HookSetsNonEmpty(current: string, lastText: Option<string>, inNetwork: bool)
    requires HookSummary(current, lastText, inNetwork) != current
    ensures HookSummary(current, lastText, inNetwork) != ""
  {
    ContainsNonEmpty(lastText.value, TaskSummaryMarker);
  }

  /** The mutable workflow state shared by every tool call and hook of one run. */
  class WorkflowState {
    var summary: string
    var files: map<string, string>

    /** The state is seeded with an empty summary and no files. */
    constructor ()
      ensures summary == "" && files == map[]
    {
      summary := "";
      files := map[];
    }

    /** The current contents of the state. */
    function Data(): StateData
      reads this
    {
      StateData(summary, files)
    }

    /** The `createOrUpdateFiles` tool handler: the step body writes each well-formed entry
        into the state's map and to the sandbox; the handler then stores the step's map.
        `out` is the step's value; the handler itself returns nothing to the agent. */
    method CreateOrUpdateFiles(arg: ToolArg<RawEntry>, fault: SandboxFault) returns (out: WriteOutput)
      modifies this`files
      ensures files == FilesAfterWrite(old(files), arg, fault)
      ensures arg.NotArray? ==> out == ErrorText(NotArrayMessage + arg.typeName)
      ensures arg.Items? && (fault.ConnectFails? || WriteThrows(arg.items, fault)) ==> out == ErrorText("Error: " + fault.error)
      ensures arg.Items? && !fault.ConnectFails? && !WriteThrows(arg.items, fault) ==> out == UpdatedFiles(files)
    {
      if arg.NotArray? {
        return ErrorText(NotArrayMessage + arg.typeName);
      }
      var es := arg.items;
      if fault.ConnectFails? {
        return ErrorText("Error: " + fault.error);
      }
      var i := 0;
      while i < |es|
        invariant 0 <= i <= |es|
        invariant files == Merge(old(files), es[..i])
        invariant WriteThrows(es, fault) ==> i <= fault.at
      {
        var e := es[i];
        assert es[..i + 1][..i] == es[..i];
        if WellFormed(e) {
          files := files[e.path.s := e.content.s];
          if fault.OperationFails? && fault.at == i {
            return ErrorText("Error: " + fault.error);
          }
        }
        i := i + 1;
      }
      assert es[..i] == es;
      out := UpdatedFiles(files);
      files := out.files;
    }

    /** The `onResponse` hook: copies the whole last assistant text into `summary` when it
        is non-empty and contains the termination marker. */
    method OnResponse(lastText: Option<string>, inNetwork: bool)
      modifies this`summary
      ensures summary == HookSummary(old(summary), lastText, inNetwork)
    {
      if lastText.Some? && lastText.value != "" && inNetwork {
        if Contains(lastText.value, TaskSummaryMarker) {
          summary := lastText.value;
        }
      }
    }
  }

  /** The `readFiles` tool's step: reads every string element through the sandbox, in
      order, skipping other elements; any failure becomes an error text. */
  method ReadFiles(arg: ToolArg<Field>, fault: SandboxFault, read: string -> string) returns (out: ReadOutput)
    ensures arg.NotArray? ==> out == ReadError(NotArrayMessage + arg.typeName)
    ensures arg.Items? && (fault.ConnectFails? || ReadThrows(arg.items, fault)) ==> out == ReadError("Error: " + fault.error)
    ensures arg.Items? && !fault.ConnectFails? && !ReadThrows(arg.items, fault) ==>
      && out.Contents?
      && |out.listing| == |StringPaths(arg.items)|
      && forall k :: 0 <= k < |out.listing| ==>
           out.listing[k] == FileContent(StringPaths(arg.items)[k], read(StringPaths(arg.items)[k]))
  {
    if arg.NotArray? {
      return ReadError(NotArrayMessage + arg.typeName);
    }
    var items := arg.items;
    if fault.ConnectFails? {
      return ReadError("Error: " + fault.error);
    }
    var contents: seq<FileContent> := [];
    var i := 0;
    while i < |items|
      invariant 0 <= i <= |items|
      invariant ReadThrows(items, fault) ==> i <= fault.at
      invariant |contents| == |StringPaths(items[..i])|
      invariant forall k :: 0 <= k < |contents| ==>
        contents[k] == FileContent(StringPaths(items[..i])[k], read(StringPaths(items[..i])[k]))
    {
      assert items[..i + 1][..i] == items[..i];
      if items[i].Str? {
        var path := items[i].s;
        if fault.OperationFails? && fault.at == i {
          return ReadError("Error: " + fault.error);
        }
        contents := contents + [FileContent(path, read(path))];
      }
      i := i + 1;
    }
    assert items[..i] == items;
    out := Contents(contents);
  }

  /** The `terminal` tool's step: runs the command with callbacks that append each
      streamed chunk to the stdout or stderr buffer; a failure is reported as text
      carrying the error and both buffers, never raised. */
  method Terminal(run: CommandRun) returns (text: string)
    ensures run.Completed? ==> text == run.stdout
    ensures run.Threw? ==> text == FailureReport(run.error, StdoutText(run.chunks), StderrText(run.chunks))
    ensures run.Unreachable? ==> text == FailureReport(run.error, "", "")
  {
    var stdout, stderr := "", "";
    if run.Unreachable? {
      return FailureReport(run.error, stdout, stderr);
    }
    var chunks := run.chunks;
    var i := 0;
    while i < |chunks|
      invariant 0 <= i <= |chunks|
      invariant stdout == StdoutText(chunks[..i]) && stderr == StderrText(chunks[..i])
    {
      assert chunks[..i + 1][..i] == chunks[..i];
      match chunks[i] {
        case Stdout(data) => stdout := stdout + data;
        case Stderr(data) => stderr := stderr + data;
      }
      i := i + 1;
    }
    assert chunks[..i] == chunks;
    if run.Completed? {
      text := run.stdout;
    } else {
      text := FailureReport(run.error, stdout, stderr);
    }
  }
}
