/**
 * After the network halts: classify the outcome, resolve the sandbox URL and write
 * exactly one message, either the fixed error message or a result message with its
 * fragment. `CodeAgentRun` strings the whole code-agent function together.
 */
module Finalizer {
  import opened Wrappers
  import opened Strings
  import opened WorkflowTools
  import opened Network
  import opened History
  import opened AgentOutput

  /** The content of the message saved for a failed run. */
  const ErrorMessageText: string := "Something went wrong please try Again."

  /** The sandbox port whose host is published as the fragment's URL. */
  const PreviewPort: nat := 3000

  /** The outcome is an error when there is no summary or no file: a run succeeds exactly
      when the router halted it on a summary and some file was written. */
  function IsError(d: StateData): (b: bool)
    ensures !b <==> Route(d) == Halt && d.files != map[]
  {
    assert |d.files| == 0 <==> d.files == map[] by {
      if d.files != map[] {
        var p :| p in d.files;
        assert p in d.files.Keys;
      }
    }
    d.summary == "" || |d.files| == 0
  }

  /** The URL of the sandbox, from the host it reports for `PreviewPort`. */
  function SandboxUrl(host: string): string {
    "https://" + host
  }

  /** The kind of a saved message. */
  datatype MessageType = RESULT | ERROR

  /** The fragment created with a result message. */
  datatype FragmentRecord = FragmentRecord(sandboxUrl: string, title: string, files: map<string, string>)

  /** The message the save step creates. */
  datatype SavedMessage = SavedMessage(content: string, role: DbRole, messageType: MessageType, fragment: Option<FragmentRecord>)

  /** What the save step does: create one message, or throw before writing because an
      agent output it must parse is empty. */
  datatype SaveOutcome = Saved(message: SavedMessage) | SaveThrew

  /** The `save-to-db` step. */
  function SaveToDb(d: StateData, responseOutput: seq<AgentMessage>, titleOutput: seq<AgentMessage>, url: string): (r: SaveOutcome)
    ensures r.SaveThrew? <==> !IsError(d) && (responseOutput == [] || titleOutput == [])
    ensures r.Saved? ==> r.message.role == ASSISTANT
    ensures r.Saved? ==> (r.message.messageType == ERROR <==> IsError(d))
    ensures r.Saved? && r.message.messageType == ERROR ==> r.message.content == ErrorMessageText && r.message.fragment.None?
    ensures r.Saved? && r.message.messageType == RESULT ==>
      && r.message.content == ParseAgentOutput(responseOutput, false).value
      && r.message.fragment == Some(FragmentRecord(url, ParseAgentOutput(titleOutput, true).value, d.files))
  {
    if IsError(d) then Saved(SavedMessage(ErrorMessageText, ASSISTANT, ERROR, None))
    else
      var content := ParseAgentOutput(responseOutput, false);
      var title := ParseAgentOutput(titleOutput, true);
      if content.None? || title.None? then SaveThrew
      else Saved(SavedMessage(content.value, ASSISTANT, RESULT, Some(FragmentRecord(url, title.value, d.files))))
  }

  /** What the function returns once the message is saved. */
  datatype RunReturn = RunReturn(url: string, title: string, files: map<string, string>, summary: string)

  /** The whole code-agent function. The inputs stand for what is foreign: the project's
      stored messages, what the code agent does on each iteration, the two single-shot
      agents' outputs and the host the sandbox reports for `PreviewPort`. */
  method CodeAgentRun(
    history: seq<DbMessage>, script: seq<AgentTurn>,
    titleOutput: seq<AgentMessage>, responseOutput: seq<AgentMessage>, host: string)
    returns (seeded: seq<ChatMessage>, iterations: nat, saved: SaveOutcome, returned: Option<RunReturn>)
    ensures |seeded| <= HistoryLimit
    ensures var r := Run(StateData("", map[]), script);
      && iterations == r.iterations
      && saved == SaveToDb(r.data, responseOutput, titleOutput, SandboxUrl(host))
      && (returned.Some? <==> saved.Saved? && titleOutput != [])
      && (returned.Some? ==> returned.value == RunReturn(SandboxUrl(host), ParseAgentOutput(titleOutput, true).value, r.data.files, r.data.summary))
  {
    seeded := GetPreviousMessages(history);
    var state := new WorkflowState();
    iterations := RunNetwork(state, script);
    var final := state.Data();
    var url := SandboxUrl(host);
    saved := SaveToDb(final, responseOutput, titleOutput, url);
    if saved.SaveThrew? {
      return seeded, iterations, saved, None;
    }
    var title := ParseAgentOutput(titleOutput, true);
    if title.None? {
      return seeded, iterations, saved, None;
    }
    returned := Some(RunReturn(url, title.value, final.files, final.summary));
  }

  /** A run whose only turn writes `index.html` and then replies with the marker ends
      after one iteration as a success: one result message whose fragment holds exactly
      that file. */
  lemma HelloWorldScenario(html: string, responseText: string, title: string)
    ensures var summary := TaskSummaryMarker + "Created hello-world page</task_summary>";
      var turn := AgentTurn([WriteCall(Items([Entry(Str("index.html"), Str(html))]), NoFault)], [Some(summary)]);
      var r := Run(StateData("", map[]), [turn]);
      && r.iterations == 1
      && r.data == StateData(summary, map["index.html" := html])
      && SaveToDb(r.data, [TextMessage(Plain(responseText))], [TextMessage(Plain(title))], "https://host")
         == Saved(SavedMessage(responseText, ASSISTANT, RESULT, Some(FragmentRecord("https://host", title, map["index.html" := html]))))
  {
    var summary := TaskSummaryMarker + "Created hello-world page</task_summary>";
    var entries := [Entry(Str("index.html"), Str(html))];
    var turn := AgentTurn([WriteCall(Items(entries), NoFault)], [Some(summary)]);
    assert OccursAt(summary, TaskSummaryMarker, 0);
    assert ApplyResponses("", [Some(summary)]) == summary by {
      assert [Some(summary)][..0] == [];
    }
    assert Merge(map[], entries) == map["index.html" := html] by {
      assert entries[..0] == [];
    }
    assert ApplyWrites(map[], turn.writes) == map["index.html" := html] by {
      assert turn.writes[..0] == [];
    }
    var after := StateData(summary, map["index.html" := html]);
    assert ApplyTurn(StateData("", map[]), TurnAt([turn], 0)) == after;
    assert RunFrom(after, [turn], 1) == RunResult(after, 1);
  }
}
