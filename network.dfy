/**
 * The coding-agent network: the router that picks the next agent or halts, and the
 * loop that runs the code agent at most `MaxIter` times.
 *
 * What the model (the LLM) does in a turn is an input: an `AgentTurn` lists the
 * `createOrUpdateFiles` calls it makes and the last assistant text of each of its
 * responses. `terminal` and `readFiles` calls do not touch the state and are not listed.
 */
module Network {
  import opened Wrappers
  import opened Strings
  import opened WorkflowTools

  /** The network's iteration ceiling. */
  const MaxIter: nat := 15

  /** What the router returns: no agent (halt), or the code agent. */
  datatype Decision = Halt | RunCodeAgent

  /** The router: halt once a summary is present, otherwise run the code agent again. */
  function Route(data: StateData): (d: Decision)
    ensures d == Halt <==> data.summary != ""
  {
    if data.summary != "" then Halt else RunCodeAgent
  }

  /** The router looks at the summary alone: two states with the same summary get the same decision. */
  lemma RouteIgnoresFiles(a: StateData, b: StateData)
    requires a.summary == b.summary
    ensures Route(a) == Route(b)
  {
  }

  /** One `createOrUpdateFiles` call: its argument and how the sandbox behaves. */
  datatype WriteCall = WriteCall(arg: ToolArg<RawEntry>, fault: SandboxFault)

  /** One run of the code agent: its file-writing tool calls, in order, and the last
      assistant text of each response it produced (each goes through `onResponse`). */
  datatype AgentTurn = AgentTurn(writes: seq<WriteCall>, responses: seq<Option<string>>)

  /** The turn the code agent takes on iteration `i`; past the end of the script it does nothing. */
  function TurnAt(script: seq<AgentTurn>, i: nat): AgentTurn {
    if i < |script| then script[i] else AgentTurn([], [])
  }

  /** The files after a sequence of `createOrUpdateFiles` calls. */
  function ApplyWrites(files: map<string, string>, writes: seq<WriteCall>): map<string, string>
    decreases |writes|
  {
    if writes == [] then files
    else
      var w := writes[|writes| - 1];
      FilesAfterWrite(ApplyWrites(files, writes[..|writes| - 1]), w.arg, w.fault)
  }

  /** The summary after the hook has seen each response, in order. */
  function ApplyResponses(summary: string, responses: seq<Option<string>>): string
    decreases |responses|
  {
    if responses == [] then summary
    else HookSummary(ApplyResponses(summary, responses[..|responses| - 1]), responses[|responses| - 1], true)
  }

  /** The state after one agent turn. Writes touch only `files` and the hook only
      `summary`, so their interleaving within the turn does not matter. */
  function ApplyTurn(d: StateData, t: AgentTurn): StateData {
    StateData(ApplyResponses(d.summary, t.responses), ApplyWrites(d.files, t.writes))
  }

  /** The state after the first `k` turns of the script, with no router in between. */
  function AfterTurns(d: StateData, script: seq<AgentTurn>, k: nat): StateData
    decreases k
  {
    if k == 0 then d else ApplyTurn(AfterTurns(d, script, k - 1), TurnAt(script, k - 1))
  }

  /** The outcome of a network run: the final state and how many times the agent ran. */
  datatype RunResult = RunResult(data: StateData, iterations: nat)

  /** The network loop from iteration `i` on: ask the router, stop on halt or at the ceiling. */
  function RunFrom(d: StateData, script: seq<AgentTurn>, i: nat): (r: RunResult)
    requires i <= MaxIter
    ensures i <= r.iterations <= MaxIter
    decreases MaxIter - i
  {
    if i == MaxIter || Route(d) == Halt then RunResult(d, i)
    else RunFrom(ApplyTurn(d, TurnAt(script, i)), script, i + 1)
  }

  /** A whole network run from the seeded state. */
  function Run(d: StateData, script: seq<AgentTurn>): RunResult {
    RunFrom(d, script, 0)
  }

  /** The loop runs the agent at most `MaxIter` times and stops before the first
      iteration at which the summary is already non-empty: every turn it ran began with
      an empty summary, and it ends with a summary or at the ceiling. */
  lemma RunStopsAtFirstSummary(d: StateData, script: seq<AgentTurn>)
    ensures var r := Run(d, script);
      && r.iterations <= MaxIter
      && r.data == AfterTurns(d, script, r.iterations)
      && (r.data.summary != "" || r.iterations == MaxIter)
      && forall k :: 0 <= k < r.iterations ==> AfterTurns(d, script, k).summary == ""
  {
    RunStopsFrom(d, script, 0);
  }

  /** `RunStopsAtFirstSummary` from iteration `i` on. */
  lemma {:induction false} RunStopsFrom(d: StateData, script: seq<AgentTurn>, i: nat)
    requires i <= MaxIter
    ensures var r := RunFrom(AfterTurns(d, script, i), script, i);
      && r.iterations <= MaxIter
      && r.data == AfterTurns(d, script, r.iterations)
      && (r.data.summary != "" || r.iterations == MaxIter)
      && forall k :: i <= k < r.iterations ==> AfterTurns(d, script, k).summary == ""
    decreases MaxIter - i
  {
    var s := AfterTurns(d, script, i);
    if i < MaxIter && Route(s) == RunCodeAgent {
      var next := AfterTurns(d, script, i + 1);
      assert next == ApplyTurn(s, TurnAt(script, i));
      var r := RunFrom(next, script, i + 1);
      assert RunFrom(s, script, i) == r;
      RunStopsFrom(d, script, i + 1);
      forall k | i <= k < r.iterations ensures AfterTurns(d, script, k).summary == "" {
        if k == i {
          assert s.summary == "";
        }
      }
    }
  }

  /** A turn none of whose responses carries the termination marker. */
  predicate NoMarker(t: AgentTurn) {
    forall j :: 0 <= j < |t.responses| && t.responses[j].Some? ==> !Contains(t.responses[j].value, TaskSummaryMarker)
  }

  /** Responses without the marker leave the summary as it was. */
  lemma {:induction false} ResponsesWithoutMarker(summary: string, responses: seq<Option<string>>)
    requires forall j :: 0 <= j < |responses| && responses[j].Some? ==> !Contains(responses[j].value, TaskSummaryMarker)
    ensures ApplyResponses(summary, responses) == summary
    decreases |responses|
  {
    if responses != [] {
      ResponsesWithoutMarker(summary, responses[..|responses| - 1]);
    }
  }

  /** With an agent that never emits the marker, the loop runs exactly `MaxIter` times
      and the summary stays empty. */
  lemma CeilingWithoutMarker(d: StateData, script: seq<AgentTurn>)
    requires d.summary == ""
    requires forall i :: 0 <= i < MaxIter ==> NoMarker(TurnAt(script, i))
    ensures Run(d, script).iterations == MaxIter
    ensures Run(d, script).data.summary == ""
  {
    forall k | 0 <= k <= MaxIter ensures AfterTurns(d, script, k).summary == "" {
      SummaryStaysEmpty(d, script, k);
    }
    RunStopsAtFirstSummary(d, script);
  }

  /** `CeilingWithoutMarker`, turn by turn. */
  lemma {:induction false} SummaryStaysEmpty(d: StateData, script: seq<AgentTurn>, k: nat)
    requires d.summary == "" && k <= MaxIter
    requires forall i :: 0 <= i < MaxIter ==> NoMarker(TurnAt(script, i))
    ensures AfterTurns(d, script, k).summary == ""
    decreases k
  {
    if k > 0 {
      SummaryStaysEmpty(d, script, k - 1);
      ResponsesWithoutMarker(AfterTurns(d, script, k - 1).summary, TurnAt(script, k - 1).responses);
    }
  }

  /** A state that already has a summary is returned as it is, with no agent run. */
  lemma HaltsAtOnce(d: StateData, script: seq<AgentTurn>)
    requires d.summary != ""
    ensures Run(d, script) == RunResult(d, 0)
  {
  }

  /** No path is ever removed from the files during a run. */
  lemma RunKeepsPaths(d: StateData, script: seq<AgentTurn>)
    ensures d.files.Keys <= Run(d, script).data.files.Keys
  {
    RunStopsAtFirstSummary(d, script);
    TurnsKeepPaths(d, script, Run(d, script).iterations);
  }

  /** `RunKeepsPaths`, turn by turn. */
  lemma {:induction false} TurnsKeepPaths(d: StateData, script: seq<AgentTurn>, k: nat)
    ensures d.files.Keys <= AfterTurns(d, script, k).files.Keys
    decreases k
  {
    if k > 0 {
      TurnsKeepPaths(d, script, k - 1);
      WritesKeepPaths(AfterTurns(d, script, k - 1).files, TurnAt(script, k - 1).writes);
    }
  }

  /** No write call removes a path. */
  lemma {:induction false} WritesKeepPaths(files: map<string, string>, writes: seq<WriteCall>)
    ensures files.Keys <= ApplyWrites(files, writes).Keys
    decreases |writes|
  {
    if writes != [] {
      WritesKeepPaths(files, writes[..|writes| - 1]);
    }
  }

  /** `network.run`: the router is asked before every iteration; the code agent's tool
      calls and hook act on the shared state. */
  method RunNetwork(state: WorkflowState, script: seq<AgentTurn>) returns (iterations: nat)
    modifies state
    ensures RunResult(state.Data(), iterations) == Run(old(state.Data()), script)
  {
    iterations := 0;
    while iterations < MaxIter && Route(state.Data()) == RunCodeAgent
      invariant iterations <= MaxIter
      invariant RunFrom(state.Data(), script, iterations) == Run(old(state.Data()), script)
      decreases MaxIter - iterations
    {
      ghost var before := state.Data();
      RunTurn(state, TurnAt(script, iterations));
      assert state.Data() == ApplyTurn(before, TurnAt(script, iterations));
      iterations := iterations + 1;
    }
  }

  /** One iteration of the code agent: its file writes, then its responses through the hook. */
  method RunTurn(state: WorkflowState, turn: AgentTurn)
    modifies state
    ensures state.Data() == ApplyTurn(old(state.Data()), turn)
  {
    WriteAll(state, turn.writes);
    RespondAll(state, turn.responses);
  }

  /** Performs the `createOrUpdateFiles` calls in order. */
  method WriteAll(state: WorkflowState, writes: seq<WriteCall>)
    modifies state
    ensures state.files == ApplyWrites(old(state.files), writes)
    ensures state.summary == old(state.summary)
  {
    var j := 0;
    while j < |writes|
      invariant 0 <= j <= |writes|
      invariant state.files == ApplyWrites(old(state.files), writes[..j])
      invariant state.summary == old(state.summary)
    {
      assert writes[..j + 1][..j] == writes[..j];
      var _ := state.CreateOrUpdateFiles(writes[j].arg, writes[j].fault);
      j := j + 1;
    }
    assert writes[..j] == writes;
  }

  /** Passes each response to the completion hook, in order. */
  method RespondAll(state: WorkflowState, responses: seq<Option<string>>)
    modifies state
    ensures state.summary == ApplyResponses(old(state.summary), responses)
    ensures state.files == old(state.files)
  {
    var j := 0;
    while j < |responses|
      invariant 0 <= j <= |responses|
      invariant state.files == old(state.files)
      invariant state.summary == ApplyResponses(old(state.summary), responses[..j])
    {
      assert responses[..j + 1][..j] == responses[..j];
      state.OnResponse(responses[j], true);
      j := j + 1;
    }
    assert responses[..j] == responses;
  }
}
