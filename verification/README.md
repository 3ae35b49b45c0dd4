# A verified model of the dashboard's client-side logic

The dashboard is a single-page client. Behind its rendering it keeps state machines whose steps
are cut at `await`s, rewrites trees and strings, and computes the same figures in more than one
place. This project models that logic in Dafny without the page and without the network, and
proves what it is meant to guarantee: over all runs, all interleavings and all inputs.

| file | what it models |
|---|---|
| `StatusCache.dfy` | the time-limited caches of the crypto status and the setup state |
| `GenesisGate.dfy` | the cached genesis answer, the ceremony, and the router behind them |
| `EditorPanel.dfy`, `EditorRuns.dfy` | the code-editor panel with its Monaco models, and whole runs of it |
| `Explorer.dfy`, `TreeRenders.dfy` | the file tree with its filter, the git status of directories, and overlapping renders |
| `Escape.dfy`, `Highlight.dfy`, `Seen.dfy` | HTML escaping, highlighting inside escaped text, and what a reader sees of it |
| `Letters.dfy`, `Routing.dfy` | letters for agent sessions, and lines of the form `@LETTER message` |
| `Sessions.dfy` | the two aggregations of recorded sessions |
| `Providers.dfy` | provider lists taken from an error body and from an error message |
| `Doubles.dfy`, `TypedEdit.dfy` | whole numbers as the page holds and prints them, and typed database values printed into a form and parsed back |
| `Layouts.dfy`, `Cockpit.dfy` | sessions, tabs, panels, the active tab and the layouts |
| `Palette.dfy` | the command palette |
| `ToolTree.dfy` | the tool tree and its search |
| `Basics.dfy`, `Text.dfy`, `Decimal.dfy`, `StableSort.dfy` | shared types, string operations, decimal numbers, stable sorting |

Async code is a step system: every stretch of code between two `await`s is one atomic step, a
request in flight is part of the state, and a reply is a later step with arbitrary content.
Objects whose methods update fields are classes; each method is proved equal to a function on
the object's value, and the properties of whole runs are proved about those functions.

## Where the code falls short

These are properties one would expect, each with the exact condition under which it holds.

- Destroying an editor panel frees all its text models, but what is pending runs on: a file reply,
  or the listener that waits for Monaco with a file to open or a diff to show.  They make models
  and an editor that nothing disposes (`DestroyIsFinalExactlyWhen`, `DestroyedBeforeReady`).
  Detaching a panel disposes nothing at all (`DetachIsFinalExactlyWhen`).
- An editor without a model has no element, and reading that element's style throws.  After the
  last file is closed a diff reply therefore only turns diff mode on (`DiffShowsExactlyWhen`,
  `DiffIsLost`), and the next open only turns it off again without a request
  (`OpenIsLostExactlyWhen`).
- Closing a tab moves the active index before the view state is saved, so the file that comes to
  the front takes over a view that is not its own (`CloseKeepsViewExactlyWhen`,
  `CloseOthersKeepsViewExactlyWhen`, with runs in `CloseLosesView`, `CloseOthersLosesView`).
- Two overlapping requests for one path open it twice (`OpenIsSafeExactlyWhen`,
  `DuplicateIsReached`).
- `retryGenesis` lowers the ceremony flag without looking at it; only the fact that its button
  is gone while a ceremony runs keeps ceremonies apart (`RetryIsSafeExactlyWhenIdle`).
- An editor or system panel attached under an id that is taken puts the tab strip and the session
  map out of step until the next restore (`StepIsSoundExactlyWhen`, `CollisionIsReached`,
  `RestoreRepairs`), and activating a session that is gone leaves no session active
  (`FocusIsKeptExactlyWhen`, `StaleActivationLosesFocus`).  A session with an empty id would do
  the same when it is first in line (`EmptyIdLosesFocus`); that the server sends one is not shown.
- Search hits are marked inside text that is escaped already, so a mark can break an entity and
  show its letters; carriage returns and U+0000 do not survive the page either
  (`ReaderSeesTextExactlyWhen`, `SearchForAmp`).
- Overlapping renders of the explorer can leave the tree of an older filter
  (`ShowsLastFilterExactlyWhen`, `OlderFilterIsShown`).
- When several agents reach the latest start, the totals can name another agent than the group
  listed first (`LatestAgentAgreesExactlyWhen`, `LatestAgentDiffers`).
- A provider name with a comma is read differently from the error body and from the message, and
  a list broken over lines is not found in the message (`JoinAgreesExactlyWithoutCommas`,
  `MessageAgreesWithBody`, `MessageIsFoundExactlyWhen`).
- A database integer has 64 bits and a number of the page 53.  Opening the edit form and saving
  changes 2^53 + 1 because the page cannot hold it, changes 2^60 because the page prints it with
  fewer digits, and fails for 2^63 - 1 (`PageHoldsExactlyWhen`, `IntegerSurvivesExactlyWhen`,
  `FirstIntegerLost`, `HeldIntegerChanged`, `LargestIntegerRefused`).
- An empty vector cannot be saved (`VectorSurvivesExactlyWhen`); a text value loses carriage
  returns, U+0000 and a leading line feed (`TextSurvivesExactlyWhen`).

The gate is also proved against a server that takes completion back, which this server does not
do: it refuses a reset after a completed genesis (`src/dashboard/api.rs:4333-4341`).  With such a
server a page is still opened only after genesis was complete at some earlier moment of the run.

## Model

| member | source | states |
|---|---|---|
| `StatusCache.StatusVariables.Begin` | dashboard/app.js:1222-1230 | a hit needs an unforced call, a value and an age below the limit |
| `StatusCache.StatusVariables.Finish` | dashboard/app.js:1231-1247 | stores the reply, or the fallback with the error's text on failure, together with the time read before the request |
| `StatusCache.AsksExactlyWhen` | dashboard/app.js:1222-1230 | a fetch asks the server iff it is forced, nothing is stored, or what is stored is at least as old as the limit |
| `StatusCache.DeliveryStores` | dashboard/app.js:1231-1247 | a reply is stored with the time at which its request began |
| `StatusCache.InvalidationIsHeeded` | dashboard/app.js:1682-1685 | after an invalidation every fetch asks the server until a reply is delivered |
| `StatusCache.RunsAreJustified` | dashboard/app.js:1222-1247 | invariant of every interleaving of fetches, replies, failures, drops, clock ticks and server changes: each stored value and each arrived reply was true of the server, or reads off a failure, at or after its time stamp |
| `StatusCache.ServedStatusIsFresh` | dashboard/app.js:1636-1663 | a status served from the cache was the server's status, or a failure's fallback, less than the limit ago |
| `StatusCache.ServedErrorIsFresh` | dashboard/app.js:1222-1247 | a crypto status served from the cache was the server's, or a failure with exactly its error, less than 2000 ms ago |
| `StatusCache.ServedCompletionIsFresh` | dashboard/app.js:1636-1663 | a setup served as complete was complete on the server less than 5000 ms ago |
| `StatusCache.FailuresRead` | dashboard/app.js:1234-1244 | what a failed crypto or setup request is read as |
| `GenesisGate.GateVariables.BeginStatus` | dashboard/app.js:1202-1210 | serves the cached answer, "not complete" included, below the age limit |
| `GenesisGate.GateVariables.EndStatus` | dashboard/app.js:1211-1220 | a failed request reads as "not complete"; value and start time are stored together |
| `GenesisGate.GateVariables.ShowCeremony` | dashboard/app.js:1496-1521 | starts a ceremony with fresh stages unless one runs |
| `GenesisGate.GateVariables.AfterHardware` | dashboard/app.js:1521-1526 | hardware done, then the remote sources active |
| `GenesisGate.GateVariables.AfterHarvest` | dashboard/app.js:1526-1617 | settles the sources by the reply; on failure shows the error panel and ends the ceremony |
| `GenesisGate.GateVariables.AfterStub` | dashboard/app.js:1579-1617 | finishes one stage shown for effect; after the last one marks completion and ends the ceremony |
| `GenesisGate.GateVariables.RetryGenesis` | dashboard/app.js:1619-1626 | forgets the cached answer and starts anew |
| `GenesisGate.ClaimsCompleteStep` | dashboard/app.js:1714-1801 | a claim of completion that is new in a step comes from the server being complete |
| `GenesisGate.CompleteOnlyAfterConfirmation` | dashboard/app.js:1202-1220 | in every run the cached "complete", a finished last stage or a route let through implies that the server was complete at some moment of the run, across all writers |
| `GenesisGate.CompletionIsKept` | dashboard/app.js:1714-1801 | without a reset a completed server stays completed |
| `GenesisGate.DispatchOnlyAfterGenesis` | dashboard/app.js:1714-1801 | the router calls a page handler only after genesis was complete, and as long as the server keeps completion only while it is |
| `GenesisGate.RouteAsksExactlyWhen` | dashboard/app.js:1202-1210 | a route asks for the status iff none is cached or it is at least 3000 ms old, and otherwise takes the cached answer |
| `GenesisGate.FreshCompletionOpens` | dashboard/app.js:1738-1759 | with a fresh cached "complete" a route reaches its page without any request, whatever happens elsewhere |
| `GenesisGate.AnswerDecides` | dashboard/app.js:1738-1759 | an answered status request leads to the page iff the server was complete, and otherwise, or when lost, to a harvest |
| `GenesisGate.RecoveryDecides` | dashboard/app.js:1740-1759 | a successful harvest opens the page and is remembered; any other one opens the ceremony unless one runs |
| `GenesisGate.CompleteServerOpens` | dashboard/app.js:1714-1801 | a run from the start of a navigation to its page |
| `GenesisGate.AdvanceDenies` | dashboard/app.js:1202-1220 | only a status reply writes "not complete", with its own start time |
| `GenesisGate.RunsKeepDenials` | dashboard/app.js:1202-1220 | invariant of every run: a cached or pending "not complete" was justified at or after its time stamp |
| `GenesisGate.ServedDenialIsFresh` | dashboard/app.js:1202-1220 | a "not complete" served from the cache was true, or read off a lost request, less than 3000 ms ago |
| `GenesisGate.HarvestedMarks` | dashboard/app.js:1526-1617 | a harvest reply leaves both ends of the ceremony alone and finishes the combination only on success |
| `GenesisGate.StubMarks` | dashboard/app.js:1579-1588 | finishing a stage shown for effect keeps the finished stages finished and the last stage open until the end |
| `GenesisGate.SourcesAreShown` | dashboard/app.js:1528-1577 | which stages a harvest reply marks done and which broken |
| `GenesisGate.FailureOffersRetry` | dashboard/app.js:1599-1626 | a ceremony fails into the error panel, and the retry button starts a new one with nothing remembered |
| `GenesisGate.HardwareEnds` | dashboard/app.js:1519-1526 | after the hardware stage the remote sources are asked |
| `GenesisGate.SuccessPrepares` | dashboard/app.js:1569-1579 | a successful harvest prepares the stages shown for effect |
| `GenesisGate.StubEnds` | dashboard/app.js:1579-1584 | each of them ends in turn and hands over to the next |
| `GenesisGate.LastStubEnds` | dashboard/app.js:1586-1598 | the last one completes the ceremony and stores completion |
| `GenesisGate.TimerStartsRoute` | dashboard/app.js:1628-1634 | after a pause a route starts, with completion stored |
| `GenesisGate.AdvanceInside` | dashboard/app.js:1496-1617 | each stretch of the ceremony keeps the stage order, and the flag tells whether it goes on |
| `GenesisGate.CeremonyStep` | dashboard/app.js:1463-1634 | every step keeps: at most one ceremony, flag iff in flight, no retry button beside one, "complete" earned |
| `GenesisGate.CeremonyIsExclusiveAndOrdered` | dashboard/app.js:1463-1634 | the same for every reachable state |
| `GenesisGate.RetryIsSafeExactlyWhenIdle` | dashboard/app.js:1619-1626 | a retry keeps ceremonies apart iff none is running |
| `EditorPanel.CockpitPanel.Switch` | dashboard/cockpit.js:294-306 | saves the old view, then shows the file's model with its stored view; an index out of range changes nothing |
| `EditorPanel.CockpitPanel.ExitDiffMode` | dashboard/cockpit.js:278-292 | disposes both diff models and leaves diff mode; throws at its end when the editor holds no model |
| `EditorPanel.CockpitPanel.OpenFileBegin` | dashboard/cockpit.js:175-189 | before the request: leaves diff mode, and unless that throws shows an open file or asks for one that is not open |
| `EditorPanel.CockpitPanel.OpenFileEnd` | dashboard/cockpit.js:190-210 | after the reply: adds the file at the end and shows it |
| `EditorPanel.CockpitPanel.OpenDiffEnd` | dashboard/cockpit.js:212-253 | after the reply: turns diff mode on, saves the view, and unless hiding the editor throws replaces the diff models |
| `EditorPanel.CockpitPanel.CloseEditorTab` | dashboard/cockpit.js:357-373 | disposes the model, drops the file, shows its neighbour or nothing |
| `EditorPanel.CockpitPanel.CloseOtherEditorTabs` | dashboard/cockpit.js:375-383 | keeps one file and shows it, or nothing |
| `EditorPanel.CockpitPanel.DestroyAll` | dashboard/cockpit.js:1191-1205 | disposes the diff models and every file's model |
| `EditorPanel.SwitchIsSound` | dashboard/cockpit.js:294-306 | after a switch the editor shows the active file's live model, whatever it showed before |
| `EditorPanel.OpenEndsIsSound` | dashboard/cockpit.js:190-210 | a late reply keeps ownership of the models |
| `EditorPanel.DiffOpensIsSound` | dashboard/cockpit.js:212-253 | a diff reply, shown, repeated or failed, leaks nothing |
| `EditorPanel.DiffShowsExactlyWhen` | dashboard/cockpit.js:230-233 | a diff reply shows its diff iff a model is in the editor; otherwise diff and models stay as they are |
| `EditorPanel.LeavingThrowsExactlyWhen` | dashboard/cockpit.js:278-292 | leaving diff mode throws iff the editor exists without a model, and then no file is open |
| `EditorPanel.CloseTabIsSound` | dashboard/cockpit.js:357-373 | closing frees exactly one model |
| `EditorPanel.CloseOthersIsSound` | dashboard/cockpit.js:375-383 | closing the others frees exactly theirs |
| `EditorPanel.DestroyFreesEverything` | dashboard/cockpit.js:1191-1205 | destroying frees every model, none twice |
| `EditorRuns.StepIsSound` | dashboard/cockpit.js:175-306 | every event keeps ownership and the shown model |
| `EditorRuns.RunsAreSound` | dashboard/cockpit.js:131-383 | under every interleaving, start-up included, the live models are those of the open files and the diff editor, none disposed twice, and the editor shows the active file; index -1 iff no file is open |
| `EditorRuns.GoneStaysEmptyExactlyWhen` | dashboard/cockpit.js:1169-1207 | once a panel is off the page, no continuation leaves a model over iff none is live and nothing is pending |
| `EditorRuns.DestroyIsFinalExactlyWhen` | dashboard/cockpit.js:1169-1207 | destroying frees all models; no continuation makes another iff no file reply is outstanding and, without an editor, there is neither a file to open nor a scheduled diff; no editor is left over iff it existed before |
| `EditorRuns.DetachIsFinalExactlyWhen` | dashboard/cockpit.js:3942-3957 | detaching frees nothing: no model is ever left over iff none is there and nothing pending makes one, where diffs count only if the editor holds a model; the editor always is left over |
| `EditorRuns.DestroyedBeforeReady` | dashboard/cockpit.js:148-172 | a panel closed before Monaco is ready, with no request out, makes a model afterwards |
| `EditorRuns.DiffIsLost` | dashboard/cockpit.js:219-233 | a run from a new panel that ends in diff mode without a diff |
| `EditorRuns.OpenIsLostExactlyWhen` | dashboard/cockpit.js:175-190 | opening a file that is not open sends no request iff in diff mode without a model in the editor, and then only leaves diff mode |
| `EditorRuns.OpenShowsFile` | dashboard/cockpit.js:175-189 | opening a path that is open shows the first file with it outside diff mode, and touches no other file |
| `EditorRuns.ClickShowsFile` | dashboard/cockpit.js:329-337 | clicking a tab shows its file outside diff mode, and touches no other file |
| `EditorRuns.ReplyShowsFile` | dashboard/cockpit.js:190-200 | a reply adds its file at the end, on a new model, and shows it |
| `EditorRuns.PathsStayDistinct` | dashboard/cockpit.js:175-197 | with non-overlapping requests per path, that of the start-up included, no path is open twice |
| `EditorRuns.OpenIsSafeExactlyWhen` | dashboard/cockpit.js:175-197 | opening a path leads to no duplicate in any continuation without further opens iff no request for it is outstanding or leaving diff mode throws |
| `EditorRuns.DuplicateIsReached` | dashboard/cockpit.js:182-197 | a run from a new panel that opens a path twice |
| `EditorRuns.ShowingAgainRestoresView` | dashboard/cockpit.js:294-306 | in runs of opens, diffs, clicks and scrolls a file comes back with the view it was left with |
| `EditorRuns.CloseKeepsViewExactlyWhen` | dashboard/cockpit.js:357-367 | when the neighbour shown after a close keeps its own view |
| `EditorRuns.CloseOthersKeepsViewExactlyWhen` | dashboard/cockpit.js:375-380 | when the kept file keeps its own view |
| `EditorRuns.CloseLosesView` | dashboard/cockpit.js:357-367 | a run from a new panel in which closing a tab loses the next file's view |
| `EditorRuns.CloseOthersLosesView` | dashboard/cockpit.js:375-380 | a run from a new panel in which closing the others loses the kept file's view |
| `Explorer.DirHasGitStatus` | dashboard/cockpit.js:2445-2457 | the loop with its early exit returns the most severe status strictly below the directory |
| `Explorer.GitStatusOf` | dashboard/cockpit.js:2399-2399 | a path's own status, or else the rollup |
| `Explorer.RollupIsMostSevere` | dashboard/cockpit.js:2445-2457 | the result is a maximum over all paths below, or empty when none counts |
| `Explorer.RollupIgnoresOrder` | dashboard/cockpit.js:2445-2457 | the map's order does not matter |
| `Explorer.RollupGrowsTowardsRoot` | dashboard/cockpit.js:2445-2457 | the severity never decreases from a directory to its ancestors |
| `Explorer.RollupOrder` | dashboard/cockpit.js:2445-2457 | the result is "D" iff some path inside the directory has "D", else "A", else "M", else "R", else empty |
| `Explorer.OwnStatusFirst` | dashboard/cockpit.js:2399-2399 | a path's own status comes before what lies inside it |
| `Explorer.BuildEntry` | dashboard/cockpit.js:2395-2419 | one turn of the builder's loop, with the expanded set and the statuses changing at every wait: the rows of one entry, each path as it was found when looked at |
| `Explorer.BuildTree` | dashboard/cockpit.js:2393-2421 | the asynchronous loop yields the preorder rows of a state that has each path as it was found at some moment of the build |
| `Explorer.FilteredRowsAreKeptRows` | dashboard/cockpit.js:2393-2421 | filtered rows are exactly the unfiltered rows whose visible subtree contains a match |
| `Explorer.RowsNest` | dashboard/cockpit.js:2393-2421 | every row below the top follows its own expanded parent, with only that parent's descendants between |
| `Explorer.RowsAreComplete` | dashboard/cockpit.js:2393-2421 | without a filter, below every row stand exactly the rows of its children, in order, if it is expanded |
| `Explorer.LevelIsComplete` | dashboard/cockpit.js:2393-2421 | without a filter the rows of a level are exactly its entries, in order |
| `Explorer.RowsTell` | dashboard/cockpit.js:2399-2414 | every row shows whether its directory is expanded, and its git status |
| `Explorer.MatchesExactlyWhen` | dashboard/cockpit.js:2402-2402 | the filter is looked for in name and path, without regard to case |
| `Explorer.MatchingDirectoryShowsAll` | dashboard/cockpit.js:2402-2418 | a matching directory is rendered with its whole visible subtree |
| `TreeRenders.ShowsLastFilterExactlyWhen` | dashboard/cockpit.js:2383-2391 | however the renders under way finish, the tree of the last filter is shown in the end iff all of them were begun with it |
| `TreeRenders.OlderFilterIsShown` | dashboard/cockpit.js:2383-2391 | a run in which the tree of an older filter stays |
| `Escape.EscIsOnePass` | dashboard/app.js:2052-2060 | the five replacements in sequence equal one substitution per character |
| `Escape.EscSplits` | dashboard/app.js:2052-2060 | escaping distributes over concatenation |
| `Escape.DecodeUndoesEsc` | dashboard/cockpit.js:4147-4157 | a decoder gives back every string |
| `Escape.EscIsInjective` | dashboard/app.js:2052-2060 | different strings stay different |
| `Escape.EscIsInert` | dashboard/cockpit.js:4147-4157 | escaped text has no angle bracket and no quote |
| `Highlight.EraseUndoesHighlight` | dashboard/cockpit.js:2612-2618 | erasing the mark tags gives back the escaped text, for every text and query |
| `Highlight.MarksAreExactlyHits` | dashboard/cockpit.js:2612-2618 | every marked character lies in a wholly marked occurrence, and no occurrence is left without a mark |
| `Highlight.HitIsFolded` | dashboard/cockpit.js:2612-2618 | a hit has the query's characters one by one, each in either case |
| `Highlight.FirstHitIsMarked` | dashboard/cockpit.js:2612-2618 | from any point of the scan on the first hit is marked, and nothing before it |
| `Text.CaseFolding` | dashboard/cockpit.js:2616-2616 | folding identifies the two cases of a Latin letter and nothing else |
| `Seen.ReaderSeesTextExactlyWhen` | dashboard/cockpit.js:2586-2618 | a highlighted result reads like the searched text iff it has no carriage return and no U+0000 and no mark begins or ends inside an entity |
| `Seen.SearchForAmp` | dashboard/cockpit.js:2588-2618 | searching `a&b` for `amp` shows something else |
| `Letters.LetterIsInjective` | dashboard/cockpit.js:1277-1279 | different indexes give different letters, without bound |
| `Letters.IndexOfLetter` | dashboard/cockpit.js:1277-1279 | A to Z come first, then a number counts the rounds: the index is read back from the letter |
| `Letters.RunsAreDense` | dashboard/cockpit.js:1275-1334 | in every run the letters are given out without gaps from the first one on |
| `Letters.ReloadFindsStored` | dashboard/cockpit.js:1285-1334 | what was named and stored is found again after a reload |
| `Letters.LetterRegistry.AssignLetter` | dashboard/cockpit.js:1275-1295 | keeps a letter that is there, else gives the next one and stores the snapshot |
| `Letters.LetterRegistry.FindSessionByLetter` | dashboard/cockpit.js:1313-1319 | the first session with the upper-cased letter |
| `Letters.RunsAreConsistent` | dashboard/cockpit.js:1275-1334 | over every run of assigning, storing and reloading any earlier snapshot, sessions and letters are pairwise distinct |
| `Letters.LettersAreKept` | dashboard/cockpit.js:1275-1283 | between reloads a letter never changes |
| `Letters.FindIsInverse` | dashboard/cockpit.js:1313-1319 | lookup by letter is the exact inverse of lookup by session |
| `Routing.MatchIsExact` | dashboard/cockpit.js:639-639 | the pattern matches exactly the lines made of `@`, a name, white space and a message |
| `Routing.LetteredLineArrives` | dashboard/cockpit.js:638-661 | a line addressed to a session's letter in any case reaches that session with its trimmed message |
| `Routing.UnknownLetterIsReported` | dashboard/cockpit.js:656-658 | a line for a letter that nobody has is reported with that letter |
| `Routing.OtherLinesStay` | dashboard/cockpit.js:638-661 | every other line goes to the panel's own agent, except a blank one, which is ignored |
| `StableSort.SortIsStable` | dashboard/app.js:2447-2448 | descending, a permutation, equal keys in their order |
| `StableSort.StableOrderIsUnique` | dashboard/app.js:2447-2448 | those three properties determine the result |
| `StableSort.SortStartsWithFirstLargest` | dashboard/app.js:2447-2448 | the sorted list starts with the first element that has the largest key |
| `Sessions.Summarize` | dashboard/app.js:2381-2414 | totals over all items; agents, latest start and latest agent over the agents' items |
| `Sessions.BuildGroups` | dashboard/app.js:2416-2446 | each agent's group over exactly its items, in order of first appearance |
| `Sessions.TotalsAgree` | dashboard/app.js:2381-2454 | each total is the sum over the listed groups plus the system's items |
| `Sessions.AgentCountsAgree` | dashboard/app.js:2381-2454 | the number of agents is the number of groups |
| `Sessions.GroupsPartition` | dashboard/app.js:2416-2454 | the listed groups hold every agent session once, under its own agent, in order |
| `Sessions.LatestAgrees` | dashboard/app.js:2381-2454 | the latest start is the maximum over the groups and that of the first group |
| `Sessions.LatestAgentAgreesExactlyWhen` | dashboard/app.js:2394-2398 | the latest agent is that of the first group iff some session has a start and no earlier agent reaches the same latest start |
| `Sessions.LatestAgentDiffers` | dashboard/app.js:2394-2398 | a list of three sessions on which they differ |
| `Sessions.TotalsAreColumnSums` | dashboard/app.js:2388-2394 | the totals are the sums of their columns, tool calls over both kinds |
| `Sessions.ListedGroupIsSummed` | dashboard/app.js:2437-2445 | a group carries the totals, models and latest start of its own sessions |
| `Sessions.LatestIsLargest` | dashboard/app.js:2395-2398 | the latest start bounds all starts and is one of them unless none is positive |
| `Sessions.PaddedGenesisIsSystem` | dashboard/app.js:2372-2375 | "genesis" in any case and with any white space around is the system |
| `Sessions.SystemIsPaddedGenesis` | dashboard/app.js:2372-2375 | and nothing else is |
| `Sessions.NamelessIsUnknown` | dashboard/app.js:2422-2422 | a session without an agent is filed under "unknown" |
| `Providers.ParsedListIsNormal` | dashboard/app.js:2064-2089 | exactly the trimmed lower-case names that are not empty, without repetition, in order of first occurrence; parsing again changes nothing |
| `Providers.JoinAgreesExactlyWithoutCommas` | dashboard/app.js:2064-2089 | parsing the joined list equals parsing the list iff no name has a comma |
| `Providers.ParsingIsIdempotent` | dashboard/app.js:2077-2087 | parsing a string, joining and parsing again changes nothing |
| `Providers.MessageAgreesWithBody` | dashboard/app.js:2114-2140 | a message whose list is on one line gives the providers of the body iff no name has a comma; one-line names always make such a list |
| `Providers.MessageIsFoundExactlyWhen` | dashboard/app.js:2135-2139 | the pattern finds something iff the list is on one line or itself holds such a message, which it does not when no name has its words |
| `Providers.SingularReadsAlike` | dashboard/app.js:2135-2139 | the singular of the message is read like the plural |
| `Doubles.HeldExactlyWhen` | dashboard/app.js:1935-1935 | an integer read into the page is held as it is iff it fits into 53 significant bits |
| `Doubles.RoundIsNearest` | dashboard/app.js:1935-1935 | what an integer is read as is a nearest number of 53 bits |
| `Doubles.TieIsEven` | dashboard/app.js:1935-1935 | of two equally near ones it is the one with the even last bit |
| `Doubles.PrintedIsUnique` | dashboard/app.js:4713-4713 | a number is printed in one way: the fewest significant digits, then the closest value |
| `Doubles.PrintedExists` | dashboard/app.js:4713-4713 | every number that can be held can be printed |
| `Doubles.RoundIsMonotone` | dashboard/app.js:1935-1935 | a larger integer is not read as a smaller number |
| `Doubles.OwnPrintExactlyWhen` | dashboard/app.js:4713-4713 | an executable test, on at most four neighbours, of whether an integer is how its own reading is printed |
| `TypedEdit.FormGivesPageNumberBack` | dashboard/app.js:4703-4714 | printing the page's number into the form and `parseInt` give that number back, for every 64-bit integer |
| `TypedEdit.PageHoldsExactlyWhen` | src/typed_value.rs:179-182 | the page holds a database integer as it is iff it fits into 53 significant bits |
| `TypedEdit.PageNumberBreaksTies` | dashboard/app.js:1935-1935 | the same for integers of either sign |
| `TypedEdit.TieIsReadUp` | dashboard/app.js:1935-1935 | 2^53 + 3 is read as 2^53 + 4 |
| `TypedEdit.IntegerSurvivesExactlyWhen` | dashboard/app.js:4781-4830 | saving an integer unchanged keeps it in the database iff it passes that test |
| `TypedEdit.SafeIntegersSurvive` | dashboard/app.js:4781-4830 | every integer of magnitude up to 2^53 comes back |
| `TypedEdit.FirstIntegerLost` | dashboard/app.js:4781-4830 | 2^53 + 1 is saved as 2^53 |
| `TypedEdit.HeldIntegerChanged` | dashboard/app.js:4781-4830 | 2^60 is held exactly and saved as 1152921504606847000 |
| `TypedEdit.LargestIntegerRefused` | src/dashboard/api.rs:10190-10199 | 2^63 - 1 cannot be saved unchanged: the server refuses what the page sends |
| `TypedEdit.BoolSurvives` | dashboard/app.js:4715-4720 | booleans come back |
| `TypedEdit.VectorSurvivesExactlyWhen` | dashboard/app.js:4731-4736 | vectors of cleanly printed numbers come back iff not empty |
| `TypedEdit.WholeVectorSurvivesExactlyWhen` | dashboard/app.js:4802-4811 | vectors of whole numbers that the page holds, exponents included, come back through `parseFloat` iff not empty |
| `TypedEdit.PieceCounts` | dashboard/app.js:4802-4806 | a piece that is no number is left out, and one that is takes its place among the others |
| `TypedEdit.JunkIsRefused` | dashboard/app.js:4807-4808 | a vector is refused iff no piece is a number |
| `TypedEdit.ExponentBeginsAt` | dashboard/app.js:4713-4713 | numbers are printed with an exponent from 10^21 on and not before |
| `TypedEdit.TextSurvivesExactlyWhen` | dashboard/app.js:4725-4727 | a text value comes back iff it has no carriage return, no U+0000 and no leading line feed |
| `Layouts.LayoutsTile` | dashboard/cockpit.js:14-33 | every layout tiles the grid: each point lies in exactly one slot and no slot sticks out |
| `Layouts.SlotsAreApart` | dashboard/cockpit.js:14-33 | two slots of a layout have no point in common |
| `Layouts.LayoutShapes` | dashboard/cockpit.js:14-33 | how many slots each layout has, and how those with two and three are cut |
| `Layouts.SlotsInReadingOrder` | dashboard/cockpit.js:14-33 | the slots are numbered row by row from left to right |
| `Cockpit.CockpitManager.SetLayout` | dashboard/cockpit.js:3845-3854 | an unknown name is ignored; a known one forgets all custom slots |
| `Cockpit.CockpitManager.AttachPanel` | dashboard/cockpit.js:2551-2562 | adds tab, panel and entry without looking whether the id is taken |
| `Cockpit.CockpitManager.AttachSession` | dashboard/cockpit.js:3760-3793 | a known id changes nothing; the second session splits layout 1 |
| `Cockpit.CockpitManager.AttachChatSession` | dashboard/cockpit.js:3491-3543 | a known id is activated |
| `Cockpit.CockpitManager.DetachSession` | dashboard/cockpit.js:3942-3968 | removes tab, panel and entry; the first session takes over |
| `Cockpit.CockpitManager.RestoreSessions` | dashboard/cockpit.js:3740-3758 | rebuilds everything from the server's lists |
| `Cockpit.CockpitManager.ApplyLayout` | dashboard/cockpit.js:3896-3926 | the placement for the state, the page's width and the layout |
| `Cockpit.StepIsSoundExactlyWhen` | dashboard/cockpit.js:3719-3967 | a step keeps tabs, grid and map together iff no unchecked panel takes a used id, and then changes the ids like a plain list |
| `Cockpit.RestoreRepairs` | dashboard/cockpit.js:3740-3758 | a restore leads to a sound state from any state |
| `Cockpit.CollisionIsReached` | dashboard/cockpit.js:4019-4052 | a launch that embeds a panel under a session's id puts tabs and map out of step |
| `Cockpit.RunsStayAligned` | dashboard/cockpit.js:3719-3967 | after every run tab strip, grid and session map list the ids of the plain list, in its order |
| `Cockpit.FocusIsKeptExactlyWhen` | dashboard/cockpit.js:3834-3967 | when a step keeps the active tab among the sessions |
| `Cockpit.StaleActivationLosesFocus` | dashboard/cockpit.js:4815-4821 | a palette command run after its session is gone leaves no session active |
| `Cockpit.EmptyIdLosesFocus` | dashboard/cockpit.js:3958-3960 | a session with an empty id never takes over |
| `Cockpit.RunsStayFocused` | dashboard/cockpit.js:3719-3967 | over such runs a nonempty set has the active tab as a member |
| `Cockpit.AttachingActivates` | dashboard/cockpit.js:3491-3543 | a new session is active at once; a known chat is activated, a known terminal is left alone |
| `Cockpit.DetachingHandsOver` | dashboard/cockpit.js:3958-3960 | detaching hands over to the first session left |
| `Cockpit.SecondSessionSplits` | dashboard/cockpit.js:3788-3791 | the second session splits layout 1 in two; otherwise attaching leaves the layout |
| `Cockpit.LayoutIsSet` | dashboard/cockpit.js:3845-3847 | a known layout is taken over and any other name ignored |
| `Cockpit.RestoreSettles` | dashboard/cockpit.js:3740-3758 | which session a restore leaves active, and in which layout |
| `Cockpit.SingleLayoutShowsOne` | dashboard/cockpit.js:3906-3918 | layout 1 and narrow pages show exactly one panel, the active one |
| `Cockpit.SlotsAreSharedFairly` | dashboard/cockpit.js:3920-3925 | k slots and n panels: each slot gets n/k panels, and one more in the first n mod k slots |
| `Cockpit.FewPanelsDoNotOverlap` | dashboard/cockpit.js:3920-3925 | with at most as many panels as slots no two panels have a point in common |
| `Cockpit.ResizedStayResized` | dashboard/cockpit.js:3920-3925 | a resized panel is in its own slot and does not move the others |
| `Cockpit.ResizeMovesOne` | dashboard/cockpit.js:1012-1020 | a resize moves exactly its panel |
| `Cockpit.LayoutForgetsResizes` | dashboard/cockpit.js:3845-3854 | after a layout is chosen only a resize brings custom slots back |
| `Palette.FuzzyMatch` | dashboard/cockpit.js:4826-4836 | the greedy loop gives the score that the next three rows characterise without it |
| `Palette.ScoresExactlySubsequences` | dashboard/cockpit.js:4826-4836 | positive iff the query is a subsequence, at least 50 iff contained, 100 iff a prefix, without regard to case |
| `Palette.TypingOnlyNarrows` | dashboard/cockpit.js:4826-4836 | prefixes of a matching query match |
| `Palette.ResultsAreRankedMatches` | dashboard/cockpit.js:4838-4847 | the list is the stable, score-descending permutation of exactly the matching commands |
| `ToolTree.DeclareCategories` | dashboard/mcp-tools.js:117-120 | every declared category exists once, is empty, and has the domain declared last for it |
| `ToolTree.FillCategories` | dashboard/mcp-tools.js:121-125 | each tool sits once, in order, in the category of its own name |
| `ToolTree.FinishSorts` | dashboard/mcp-tools.js:126-127 | dropping empty categories and sorting moves no tool |
| `ToolTree.BuildTree` | dashboard/mcp-tools.js:113-143 | one entry per provider that represents its tools, categories in ascending order with their declared domains; the second provider only when it has tools |
| `ToolTree.RenderingIsExact` | dashboard/mcp-tools.js:152-174 | a provider is drawn iff a tool matches; every matching tool has one button under its category; displayed counts are numbers of buttons |
| `ToolTree.DrawnTreeIsExact` | dashboard/mcp-tools.js:152-174 | the same over all providers |
| `ToolTree.SizesAddUp` | dashboard/mcp-tools.js:126-140 | category sizes add up to the provider's count |
| `ToolTree.SearchesAllFields` | dashboard/mcp-tools.js:145-150 | a blank query matches every tool, and a word exactly the tools that have it in name, description, category or domain, without regard to case |
| `ToolTree.ToolIsFiled` | dashboard/mcp-tools.js:121-125 | a tool is filed under its category, and without one under "uncategorized" |

## Left out

- The Rust sources under `src/`, with the ledger, the vault, the database and the network engines: this project models the dashboard's client; only the integer type and the server's reading of it come from there.
- `dashboard/codeguard.js`, `dashboard/forge.js`, `dashboard/gates.js`, charts, sparklines, bounded logs and formatting helpers: they would add only easy members.
- HTML templates, styles and event wiring: a row, a block or an element stands for what is drawn. Guards for missing page elements are not modelled.
- The network: a request is a later step with an arbitrary reply. The clock is monotone, though `Date.now()` can be set back.
- Case folding is that of the Latin letters.
- SearchesAllFields: of queries of several words it says nothing, since they can also run from one field into the next.
- The regular-expression engine: patterns are modelled by the strings they match; case-insensitive matching uses the same case folding.
- JavaScript objects used as dictionaries answer to inherited names such as `constructor`; the model's dictionaries do not.
- Order of names under `localeCompare`: an arbitrary ranking is a parameter of the tool tree, and the explorer takes each level in the order in which it is listed.
- `fetchTreeLevel`: failed listings, its cache and hidden names; an entry carries the children that are listed for it.
- BuildEntry: what the rows are is stated for trees in which no path comes up twice, as the server lists them; so for BuildTree.
- Which page was rendered last when several routes overlap: the code does not order them, so only the gate is stated.
- The orchestrator call behind a routed message: the model says which session a line reaches, not how the session's agent type is used as the task's target. The `visual` commands are not modelled.
- Monaco raising an exception of its own, except for its absence when a file's reply arrives. That an editor without a model, or a disposed one, has neither an element nor a view state is taken from Monaco's public interface.
- Line numbers, languages and breadcrumbs of open files.
- Letters restored from hand-edited session storage: a snapshot is one that the page stored earlier.
- The sorted list of models of a group.
- Panels whose removal from the page fails, pinned and maximized tabs, and the arithmetic of resizing: a resize sets an arbitrary slot.
- Layouts are rectangles over the reals; rounding to pixels and gutters are not modelled.
- IntegerSurvivesExactlyWhen: hexadecimal prefixes, which `parseInt` accepts, are not printed by the form and not modelled.
- WholeVectorSurvivesExactlyWhen: reading has no overflow in the model, so it also speaks of numbers from 2^1024 on, which no page holds.
- VectorSurvivesExactlyWhen: for numbers that are not whole, printing and parsing one number are parameters that undo each other, as section 6.1.6.1.20 of ECMA-262 demands of `Number::toString`; negative zero, JSON values and bytes are left out.
- Panels whose context menu is still open when they are closed.
- MatchingDirectoryShowsAll: assumes that a child's path is its directory's path followed by a slash and its name, as the server builds it.
- ShowingAgainRestoresView: stated for runs without closes, since closes can hand on a wrong view, as the two lemmas about closing say exactly.
