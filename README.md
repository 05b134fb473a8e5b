# kool-ai core, modelled in Dafny

kool-ai builds small web apps from a chat. A user message starts the `code-agent` Inngest
function. It seeds the conversation with the project's last five messages, then runs a
one-agent network. The code agent calls sandbox tools that write and read files and run
commands. Its completion hook copies the agent's final text into `summary` once that text
contains `<task_summary>`. The router stops the network as soon as a summary exists, and
never after more than 15 iterations. The function then saves exactly one message: a fixed
error message, or a result message with a fragment that holds the sandbox URL, a title and
the written files. In the browser, the file explorer turns the fragment's files into a
folder tree, selects a file, picks a highlighting language and shows a breadcrumb. The
message list activates the newest assistant fragment once per message and shows a loading
indicator while the user waits.

The project has these modules:

- `WorkflowTools` (`workflow_tools.dfy`): the agent state (`summary`, `files`) as a class, the
  `createOrUpdateFiles`, `readFiles` and `terminal` handlers, and the `onResponse` hook.
- `Network` (`network.dfy`): the router and the `maxIter` loop, as a specification function
  (`Run`) and as a method that drives the state class (`RunNetwork`).
- `History` (`history.dfy`): seeding the conversation with previous messages.
- `AgentOutput` (`agent_output.dfy`): `parseAgentOutput`, both as written and corrected.
- `Finalizer` (`finalizer.dfy`): the outcome classification, the two save shapes, and the
  whole function end to end.
- `FileTree` (`file_tree.dfy`): `convertFilesToTreeItems`, covering the path trie, its
  conversion to tree items, and the loops that build and convert it.
- `FileExplorer` (`file_explorer.dfy`): the language lookup, the initial selection, the
  selection guard and the breadcrumb rule.
- `MessagesContainer` (`messages_container.dfy`): the auto-select effect, the loading
  indicator and the active-fragment comparison.
- Support modules: `Wrappers` (Option), `Strings` (`split`, `join`, `includes`, ASCII
  lower-casing, concatenation), `StringOrder` (the default string sort) and `Records`
  (JavaScript objects as insertion-ordered key/value lists).

Sandbox, model and database calls are inputs:

- `SandboxFault` says which sandbox call throws, if any.
- `CommandRun` says what a command streams and how it ends.
- `read` gives file contents.
- An `AgentTurn` script lists each iteration's file writes and response texts.
- The title and response agents' outputs and the sandbox host are plain parameters.

## Model

| member | source | states |
|---|---|---|
| WorkflowTools.WorkflowState.constructor | src/inngest/functions.ts:49-57 | The state starts with an empty summary and no files. |
| WorkflowTools.MergeAt | src/inngest/functions.ts:119-127 | After a batch, a path holds the content of the last well-formed entry for it. A path without such an entry keeps its old content, and no path is removed. |
| WorkflowTools.MergeConcat | src/inngest/functions.ts:119-127 | Merging two batches one after the other equals merging the joined batch. |
| WorkflowTools.MalformedSkipped | src/inngest/functions.ts:119-127 | A malformed entry (falsy, or a non-string path or content) is skipped. The batch goes on, and dropping the entry changes nothing. |
| WorkflowTools.Merge | src/inngest/functions.ts:119-127 | Merging a batch keeps every path already held, and a new path appears only when the batch has a well-formed entry for it. |
| WorkflowTools.FilesAfterWrite | src/inngest/functions.ts:108-139 | Whatever the argument and whatever the sandbox does, `createOrUpdateFiles` never removes a path. A non-array argument or a failed connection leaves the files unchanged, and the entry whose sandbox write throws is already recorded in the state. |
| WorkflowTools.WriteLastWins | src/inngest/functions.ts:116-138 | With a healthy sandbox, each path ends with its last well-formed write, and paths outside the batch are unchanged. |
| WorkflowTools.WorkflowState.CreateOrUpdateFiles | src/inngest/functions.ts:108-139 | Loop over the entries, writing into the state's own map as `FilesAfterWrite` says. `out` is the value of the `createOrUpdateFiles` step, not something the handler returns: the handler returns nothing to the agent, so no error text reaches it. That step value is the `Error: Files parameter must be an array, received: <type>` text for a non-array argument, `Error: <e>` for a sandbox failure (the writes made before it are kept), and otherwise the merged map that the state then holds. |
| WorkflowTools.StringPathsExact | src/inngest/functions.ts:158-166 | A path is read exactly when it is given as a string element. Other elements are skipped. |
| WorkflowTools.ReadFiles | src/inngest/functions.ts:147-174 | A non-array argument or a failing sandbox gives an error text instead of raising. Otherwise the result lists, in order, each string path with the content read for it. |
| WorkflowTools.BuffersKeepAllData | src/inngest/functions.ts:81-88 | Every streamed chunk lands in exactly one of the stdout and stderr buffers: their lengths add up to all the data. |
| WorkflowTools.OnlyStdout | src/inngest/functions.ts:81-88 | A command that streams only stdout leaves all its data in the stdout buffer and none in the stderr buffer. |
| WorkflowTools.Terminal | src/inngest/functions.ts:75-95 | A completed command returns its stdout. A failure never raises: it returns `Command failed: <e>` followed by the stdout and stderr buffered so far. |
| WorkflowTools.HookSummary | src/inngest/functions.ts:178-186 | The summary changes only to the whole last text, and only when that text contains `<task_summary>`. Inside a network, such a text always becomes the summary. Without a network or without a text, the summary is unchanged. |
| WorkflowTools.HookSetsNonEmpty | src/inngest/functions.ts:180-182 | A summary set by the hook is never empty, so the router halts on it. |
| WorkflowTools.WorkflowState.OnResponse | src/inngest/functions.ts:178-186 | The hook updates `summary` as `HookSummary` says and never touches `files`. |
| Network.Route | src/inngest/functions.ts:195-201 | The router halts exactly when the summary is non-empty. Otherwise it selects the code agent. |
| Network.RouteIgnoresFiles | src/inngest/functions.ts:195-201 | Files play no part in routing: states with the same summary get the same decision. |
| Network.RunFrom | src/inngest/functions.ts:190-204 | Run from iteration `i`, the loop ends with an iteration count between `i` and 15. |
| Network.RunStopsAtFirstSummary | src/inngest/functions.ts:193-201 | The network runs the agent at most 15 times. Each iteration it ran began with an empty summary, and it ends with a summary or at the ceiling. |
| Network.CeilingWithoutMarker | src/inngest/functions.ts:178-201 | An agent that never emits the marker is run exactly 15 times, and the summary stays empty. |
| Network.HaltsAtOnce | src/inngest/functions.ts:195-199 | A state that already has a summary runs no iteration and is returned unchanged. |
| Network.RunKeepsPaths | src/inngest/functions.ts:190-204 | No path is removed from `files` during a run. |
| Network.RunNetwork | src/inngest/functions.ts:190-204 | Driving the state class through the router loop gives the iteration count and final state that `Run` specifies. |
| Network.RunTurn | src/inngest/functions.ts:116-185 | One iteration applies the turn's writes to `files` and its responses to `summary`, as `ApplyTurn` says. |
| Network.WriteAll | src/inngest/functions.ts:116-138 | A sequence of `createOrUpdateFiles` calls leaves `files` as `ApplyWrites` says and does not touch the summary. |
| Network.RespondAll | src/inngest/functions.ts:178-186 | A sequence of responses through the hook leaves `summary` as `ApplyResponses` says and does not touch the files. |
| History.Format | src/inngest/functions.ts:38-44 | The content is kept. The role becomes `assistant` exactly for `ASSISTANT`, and `user` for every other role. |
| History.ReverseAt | src/inngest/functions.ts:46 | Element `k` of the reversed list is element `n-1-k` of the original. |
| History.RecentNewestFirst | src/inngest/functions.ts:28-36 | The query returns min(n, 5) messages, newest first. |
| History.GetPreviousMessages | src/inngest/functions.ts:25-47 | The seeded history holds the last min(n, 5) messages oldest first, each formatted. |
| AgentOutput.AsWrittenLosesPartText | src/lib/utils.ts:69-70 | As written, text given as two parts comes out as two `[object Object]` strings, unlike the same text given as a string. |
| AgentOutput.ParseAgentOutputAsWritten | src/lib/utils.ts:66-73 | The code as written: there is a result exactly when the output is non-empty. A first message that is not text gives `Fragment` or `Here you go!`, and string content is returned as it is. Array content of n parts gives a text of n times the length of `[object Object]` that starts with `[object Object]`. |
| AgentOutput.ParseAgentOutput | src/lib/utils.ts:66-73 | The corrected parse: there is a result exactly when the output is non-empty. A first message that is not text gives `Fragment` or `Here you go!`, string content is returned as it is, and array content gives its parts' texts concatenated in order. |
| AgentOutput.AsWrittenAgreesOffParts | src/lib/utils.ts:66-73 | The code as written and the corrected parse agree on every output except array content: empty output, non-text messages and string content. |
| AgentOutput.FirstMessageOnly | src/lib/utils.ts:67 | Only the first message matters. |
| AgentOutput.PartsConcatenate | src/lib/utils.ts:69-70 | Array content reads as its parts concatenated in order, however the text is split. |
| AgentOutput.OnePartIsPlain | src/lib/utils.ts:69-72 | One text part reads exactly like the same text given as a string. |
| Finalizer.IsError | src/inngest/functions.ts:231 | The outcome is an error exactly when the network would not halt on the final state (the summary is empty) or no file was written. |
| Finalizer.SaveToDb | src/inngest/functions.ts:231-265 | Exactly one assistant message is saved. It is `ERROR` exactly when the summary is empty or there are no files, and then has the fixed text and no fragment. Otherwise it is `RESULT`, with the parsed response and a fragment holding the URL, the parsed title and the files. It throws only when an output it must parse is empty. |
| Finalizer.CodeAgentRun | src/inngest/functions.ts:204-272 | The whole function: the seeded history has at most 5 messages, and the network runs from an empty state. The save and the returned URL, title, files and summary are those of the final state. |
| Finalizer.HelloWorldScenario | src/inngest/functions.ts:178-265 | An agent that writes `index.html` and replies with the marker halts after one iteration. One result message is saved, whose fragment holds exactly that file. |
| Strings.JoinSplit | src/components/file-explorer.tsx:94 | Joining the pieces of a split with the separator gives back the string. |
| Strings.SplitPrefix | src/lib/utils.ts:22 | If one path's segments are a proper prefix of another's, the first path followed by `/` begins the second. |
| Strings.LastPiece | src/components/file-explorer.tsx:21 | The last piece of a split is the whole string when the separator is absent. Otherwise it is the text after the separator's last occurrence. |
| StringOrder.Sort | src/lib/utils.ts:19 | Sorting yields a sorted permutation of its input. |
| StringOrder.SortDistinct | src/lib/utils.ts:19 | Sorted distinct keys are strictly increasing. |
| Records.SetKeys | src/lib/utils.ts:27-34 | Assigning to an object key keeps a present key where it is and appends a new key at the end. |
| Records.SetEntries | src/lib/utils.ts:27-34 | Assigning changes no entry except the one for its key. |
| FileTree.Insert | src/lib/utils.ts:25-34 | Inserting a path lists its first segment at the end of the level, unless the segment is already there. |
| FileTree.LevelAtInsert | src/lib/utils.ts:25-34 | Inserting a path that lies inside the directory `ds` inserts the rest of the path into the level at `ds`. |
| FileTree.InsertLevel | src/lib/utils.ts:25-34 | Inserting a path inside `ds` lists its next segment at the end of the level at `ds`, unless that name is already there. |
| FileTree.InsertLookup | src/lib/utils.ts:21-35 | Inserting a path makes it a file, makes each proper prefix a directory (an existing file there is replaced by `{}`), and drops whatever lay below it. Every other path is unchanged. |
| FileTree.InsertWellFormed | src/lib/utils.ts:25-34 | Inserting keeps keys unique on every level and never leaves an empty directory level. |
| FileTree.BuildWellFormed | src/lib/utils.ts:19-35 | The built trie is well formed, and non-empty for any non-empty set of paths. |
| FileTree.SegmentsPrefix | src/lib/utils.ts:22 | One path's segments are a proper prefix of another's exactly when the first path is a directory of the second. |
| FileTree.BuildLookup | src/lib/utils.ts:19-35 | Built from sorted distinct paths, the trie holds each path as a file, unless another path lies inside it, in which case it holds a directory there. |
| FileTree.BuildTopLevel | src/lib/utils.ts:19-35 | The top level lists first segments in the order in which they first appear. |
| FileTree.BuildLevel | src/lib/utils.ts:19-35 | Built from sorted distinct paths, the level at any directory `ds` lists the names directly inside `ds`, each once, in the order in which they first appear among the paths. |
| FileTree.ChildItem | src/lib/utils.ts:46-56 | An entry's item carries the entry's key as its name, and is a folder exactly when the entry is a directory. |
| FileTree.ChildItems | src/lib/utils.ts:44-59 | The children list has one item per entry, in entry order. |
| FileTree.ShownAt | src/lib/utils.ts:37-60 | The converted items show a file at a segment sequence exactly when the trie holds a file there, and a folder exactly when it holds a directory. |
| FileTree.PathsShown | src/lib/utils.ts:10-64 | Every path appears in the tree at its segments: as a file when no other path lies inside it, and otherwise as a folder, never a file. |
| FileTree.TopLevel | src/lib/utils.ts:37-63 | No files convert to the single item `""`. Otherwise the top level lists each first segment once, in sorted-path order. |
| FileTree.SiblingNamesDistinct | src/lib/utils.ts:25-59 | Items on the same level never share a name, at any depth: paths in one directory share one folder. |
| FileTree.ConvertNode | src/lib/utils.ts:37-60 | The loop-and-recursion conversion computes `Convert`. |
| FileTree.ConvertFilesToTreeItems | src/lib/utils.ts:10-64 | Sorting, inserting path by path and converting the root computes `TreeItemsOf`. |
| FileTree.BuildTree | src/lib/utils.ts:21-35 | The insertion loop over the sorted paths computes `Build`, the trie that `BuildLookup` describes. |
| FileExplorer.LanguageOf | src/components/file-explorer.tsx:21-22 | The language is the lower-cased extension, or `text` when the extension is empty. |
| FileExplorer.ExtensionOf | src/components/file-explorer.tsx:21 | The last `.`-piece of a name is the whole name when it has no `.`, and otherwise the text after its last `.`. |
| FileExplorer.GetLanguageFromExtension | src/components/file-explorer.tsx:20-23 | A name without `.` gives the whole name lower-cased, and an empty name gives `text`. A name with `.` gives the lower-cased text after its last `.`, or `text` when the name ends in `.`. |
| FileExplorer.InitialSelection | src/components/file-explorer.tsx:30-33 | The first key of the map is selected, or nothing when the map is empty. |
| FileExplorer.Select | src/components/file-explorer.tsx:40-44 | The selection moves to a path exactly when that path maps to non-empty content, and stays otherwise. A selection that is a key stays a key. |
| FileExplorer.SelectShowsCode | src/components/file-explorer.tsx:40-67 | Picking a non-empty path with content brings up its code view. Picking it again changes nothing. |
| FileExplorer.FileExplorerState.constructor | src/components/file-explorer.tsx:30-33 | The explorer starts with the initial selection, which is a key of the map. |
| FileExplorer.FileExplorerState.HandleFileSelect | src/components/file-explorer.tsx:40-44 | The state's selection is updated as `Select` says and remains a key of the map. |
| FileExplorer.ShortCrumbsLayout | src/components/file-explorer.tsx:98-117 | In the full form, segment `k` sits at position `2k` and separators sit between the segments. Only the last segment is emphasised. |
| FileExplorer.ShortCrumbsTexts | src/components/file-explorer.tsx:98-117 | The full form shows the segments themselves, in order. |
| FileExplorer.ShortCrumbsMarks | src/components/file-explorer.tsx:98-117 | The full form has 2n-1 crumbs: separators at odd positions, and only the last crumb emphasised. |
| FileExplorer.ShortBreadcrumb | src/components/file-explorer.tsx:94-117 | A path of at most 4 segments shows every segment in order, with n-1 separators. Only the last segment is emphasised, and the segment texts rejoin to the path. |
| FileExplorer.BreadcrumbItems | src/components/file-explorer.tsx:93-151 | A path of n segments shows 2n-1 crumbs when n is at most 4, and 5 crumbs otherwise. The first crumb is the first segment, and the last crumb is the last segment, emphasised. |
| FileExplorer.LongBreadcrumb | src/components/file-explorer.tsx:118-140 | A longer path shows exactly its first segment, an ellipsis and its last segment, with the last one emphasised. |
| MessagesContainer.LastAssistantIndex | src/modules/projects/ui/components/messages-container.tsx:105 | `findLast` gives the position of an assistant message with no assistant message after it, or nothing when there is none. |
| MessagesContainer.AutoSelect | src/modules/projects/ui/components/messages-container.tsx:104-111 | The effect changes the state exactly when the last assistant message has a fragment and is not the remembered message. It then activates that fragment and remembers that message's id, and it never clears an active fragment. |
| MessagesContainer.AutoSelectChanges | src/modules/projects/ui/components/messages-container.tsx:104-111 | The effect changes state only to activate the last assistant message's fragment and remember that message's id, which must differ from the remembered one. It never clears the active fragment. |
| MessagesContainer.AutoSelectIdempotent | src/modules/projects/ui/components/messages-container.tsx:107-110 | Running the effect again on the same messages changes nothing. |
| MessagesContainer.AutoSelectLooksAtLastAssistant | src/modules/projects/ui/components/messages-container.tsx:105-107 | Only the last assistant message matters. Lists that agree on it give the same outcome, even when earlier assistant messages have fragments. |
| MessagesContainer.UserMessageKeepsLastAssistant | src/modules/projects/ui/components/messages-container.tsx:105 | Appending a user message leaves the last assistant message unchanged. |
| MessagesContainer.AutoSelectOncePerMessage | src/modules/projects/ui/components/messages-container.tsx:107-110 | After a message has been auto-selected, a fragment the user clicks stays active until a different assistant message arrives. |
| MessagesContainer.LoadingIndicator | src/modules/projects/ui/components/messages-container.tsx:117-118 | Loading shows exactly for a non-empty list whose last message is the user's. |
| MessagesContainer.ActiveFragmentComparison | src/modules/projects/ui/components/messages-container.tsx:131 | Fragment ids are compared as optional values. With no active fragment, exactly the cards without a fragment compare as active. |
| MessagesContainer.MessagesContainerState.constructor | src/modules/projects/ui/components/messages-container.tsx:96 | No message id is remembered at first. |
| MessagesContainer.MessagesContainerState.AutoSelectEffect | src/modules/projects/ui/components/messages-container.tsx:104-111 | The effect updates the active fragment and the remembered id as `AutoSelect` says. |
| MessagesContainer.MessagesContainerState.OnFragmentClick | src/modules/projects/ui/components/messages-container.tsx:132 | Clicking a card makes its fragment active (possibly none), so the card compares as active. The remembered id is kept. |

## Left out

- Inngest's `step.run` memoization and retries, and agent-kit's network and agent internals, are library code. A step's result is taken as computed once, and the network is modelled only through `maxIter` and the router.
- Network.RunNetwork: within one iteration, all `createOrUpdateFiles` calls are applied before the `onResponse` calls. Writes touch only `files` and the hook touches only `summary`, so the order within an iteration does not change the state. `terminal` and `readFiles` calls do not touch the state and are not part of a turn.
- The `network` argument of `onResponse` is the `inNetwork` flag, and `lastAssistantTextMessageContent` is the optional `lastText` input, because the helper that extracts it is not part of this model.
- WorkflowTools.ReadFiles: returns the list of `{path, content}` records instead of its `JSON.stringify` text. JSON encoding is not modelled.
- WorkflowTools.CreateOrUpdateFiles: the sandbox write is not modelled beyond whether it throws. The contents written to the sandbox are not tracked.
- E2B sandbox creation and `getHost`, the OpenAI model calls, and the Prisma reads and writes are inputs or records. `console.error` logging is not modelled.
- The conversation history is seeded, but the network model does not pass it to the agent, because the agent's behaviour is an input.
- Finalizer.SaveToDb: parses the response and title with the corrected `ParseAgentOutput`. When the first message's content is an array, the saved content and title are its parts' texts joined, whereas the code as written saves `[object Object]` once per part (see Findings). `AsWrittenAgreesOffParts` shows that the two agree on every other output.
- Finalizer.CodeAgentRun: returns the title from the corrected `ParseAgentOutput`, so for array content it differs from the code as written in the same way as `SaveToDb`.
- FileExplorer.LanguageOf: lower-cases ASCII letters only, where `toLocaleLowerCase` uses locale-dependent Unicode rules.
- StringOrder.Sort: compares strings by Unicode code point, while JavaScript's default sort compares UTF-16 code units. The two differ only for characters outside the Basic Multilingual Plane.
- Records.SetKeys: appends every new key at the end. JavaScript lists integer-like keys first, in numeric order, so path segments are assumed not to be integer-like. Segments named like `Object.prototype` members (such as `constructor`) are also not modelled.
- FileTree.Insert: the trie is updated as a value, by recursion over the segments. The source's `current` pointer loop mutates nested objects in place, and that aliasing is not modelled.
- MessagesContainer.MessagesContainerState: `activeFragment` is owned by the parent view and set through `setActiveFragment`. Here it is a field of the container state. React's effect scheduling, the query's refetching and the scroll effect are not modelled.
- The clipboard copy with its `setTimeout` reset, and all rendering and styling, are not modelled.

## Findings

| source | as written | input that shows it | evidently intended | confidence | as-written member | corrected member |
|---|---|---|---|---|---|---|
| src/lib/utils.ts:69-70 | Array content is joined with `.map((txt) => txt).join("")`. Each part is a text-content object, so each one becomes `[object Object]`. | A first message whose content is `[{type: "text", text: "Hello"}, {type: "text", text: " world"}]` gives `[object Object][object Object]` instead of `Hello world`. | Join the parts' `text` fields in order. | medium, not executed: it rests on agent-kit's content parts being objects with a `text` field | AgentOutput.AsWrittenLosesPartText | AgentOutput.PartsConcatenate |
