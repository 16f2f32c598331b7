# Verified model of a Sawtooth SDK with tic-tac-toe families and workflow experiments

The repository holds a transaction-processor SDK (message stream, futures, dispatch loop), two implementations of
a tic-tac-toe transaction family on top of it (Python and Java), a generator of random workflows, and an
experiment that samples quorums from a network with malicious nodes. This project models the five and proves what
each is for. `dafny verify dfyconfig.toml` checks everything.

| files | what they model |
|---|---|
| `Dag`, `Workflow`, `WorkflowLinks`, `WorkflowChoices`, `WorkflowGen` | the workflow generator: graphs from choices, links between workflows, choices from draws, the generator's objects and loops |
| `Text`, `XoCodec`, `XoState`, `XoPayload`, `Moves`, `XoGame`, `XoHandler` | the Python game family: stored text, cache over the store, payloads, rules, handler, whole runs |
| `Protocol`, `Stream` | futures and stream as a protocol over all interleavings, and its objects |
| `Dispatch`, `DispatchRuns` | one call of the dispatch, and the main and shutdown loops over calls |
| `JavaGame`, `JavaCodec`, `JavaHandler` | the Java game family on n x n boards: rules (shared through `Moves`), codec, handler, whole runs |
| `Quorum` | quorum sampling over a repeatedly shuffled array |
| `Wrappers`, `JavaRandom` | Option and Result; `java.util.Random.nextInt` as a sequence of draws |

Every induction is written out; Dafny's automatic induction is switched off on all lemmas.

How the parts connect:

- **Workflows.** `Build` turns a list of random choices into parent lists. `BuildMatches` shows that these are
  the intended graph, stated on positions and without indices. Everything about one workflow follows from a height
  on positions that grows along every edge: i + 3 * ((i - 1) / 2) on main task i, or i plus 3 for every branch merged
  by then, whichever has the lower top. That top is a depth bound, and some choices attain it for every line and every
  number of branches. `WorkflowGen` shows that the loops and shared task objects realise `Build` for the choices
  drawn, and `RunsExactly` that the runs of the generator are exactly those whose choices are in range.
- **Python game family.** The reference for a game is the list of its accepted moves. The handler accepts a take
  exactly when the longer list is legal, and cache plus byte store represent the map from name to game for any
  address function, so `RunAgrees` ties every run on the byte store to the move lists.
- **Messaging.** `Protocol` has one event per atomic step and no fairness or ordering assumption: every list of
  events is an interleaving. Each method of `Stream.Stream` is one such step on real objects. `RunExactly` says from
  the events alone, without the machine's own history, what has been heard and what every queue holds.
- **Dispatch.** What the loop does not decide (what its futures resolve to, what happens to the connection during
  each call, when an interrupt strikes) is given from outside; the result is everything sent, in order, and how
  `start` is left. `RunOf` says what a run sends for each item; the counts of answers and the registrations follow.
- **Java game family.** As for Python, the reference is the list of accepted moves. An address never holds more than
  one game, so what the handler does is stated on games by address, for any address function; a run answers as the
  reference does exactly when none of its transactions is misplaced: creates where another game lives, or takes in
  another game whose name starts with its own (`AgreesExactly`).
- **Quorum sampling.** Shuffles and samples are functions of the draws. `ShufflesExactly` and `SamplesExactly` say
  which arrangements and which lists of samples some draws give; the bounds on the average follow.

## What the code does that one might not expect

Each is proved, with the exact condition under which the code does what it should.

- `randomizeGen.startPoint` is static and never cleared. A first `generate()` always links to existing tasks; a
  later one in the same process may name tasks that do not exist (`LinkedIffHarmless`, `StaleRun`).
- A response that arrives after a disconnect still resolves a future that was already given a `FutureError`
  (`FutureChangesExactly`). A `send` that tests the ready event just before a disconnect and registers its future
  after it leaves, once the connection is back, a future that stays unset although its request was never queued
  (`StrandedSend`); a request is lost so exactly when it is posted while the event is clear (`LostExactly`,
  `HangsExactly`).
- An interrupt between processing a message and the next receive makes the shutdown loop process, and possibly
  answer, the same message again (`TwoAnswersExactly`). A version error in the very first registration, or an
  interrupt before the first receive, makes the shutdown loop spin (`NeverEndsExactly`, `Start`). A disconnect while
  a ping is answered, or between `wait_for_ready` and the send of a registration request, ends the loop with an
  exception (`EndsExactly`).
- In the Python handler the state names `'P1-WINS'` and `'P2-WINS'` never occur; that branch and both internal
  errors are unreachable (`RunAgrees`).
- In the Java handler each scan of `isWin` overwrites the one before and the "vertical" scan repeats the
  "horizontal" one, so only the anti-diagonal counts; and it looks for `'X'` and `'O'` while takes place `'H'` and
  `'Q'`. No game is ever won: it ends in `TIE` after exactly n * n takes (`IsWin`, `NeverWon`, `GameInvariant`). The
  state is the right one exactly until a side completes a line (`StateDueExactly`), which play can do on every board
  (`RowNotRecognised`).
- The Java handler finds and stores records by prefix and otherwise calls `set` past the end of the list. So two names
  that share an address cannot both have a game: the second creation throws, or is refused as existing if its name
  starts the first's, and takes under such a name are played in the first's game (`StepHolds`, `TakenElsewhere`).

## Model

| member | source | states |
|---|---|---|
| `Workflow.PlacesShape` | SciFlowTesting/src/workflowGen/randomizeGen.java:32-48 | Every index is a main-line task or the q-th task of one branch; a branch's tasks sit side by side in order, and no branch is longer than drawn |
| `Workflow.PlacesInjective` | SciFlowTesting/src/workflowGen/randomizeGen.java:32-48 | No two indices stand for the same position |
| `Workflow.BuildMatches` | SciFlowTesting/src/workflowGen/randomizeGen.java:32-50 | The parent lists the generator builds are, edge by edge and in both directions, the intended graph stated on positions; every parent index names an existing task |
| `Workflow.WorkflowAcyclic` | SciFlowTesting/src/workflowGen/randomizeGen.java:30-54 | For every sequence of random choices the workflow has no cycle, although a merge gives a task a parent with a larger index |
| `Workflow.DepthBound` | SciFlowTesting/src/workflowGen/randomizeGen.java:38-50 | A path with L edges has L <= linear + 3 * min(branches, (linear - 1) / 2), hence 2L <= 5 * linear - 3: at most 3 extra edges per branch, and branches follow one another only every 2 steps of the line |
| `Workflow.DepthBoundAttained` | SciFlowTesting/src/workflowGen/randomizeGen.java:38-50 | For every line from 3 up and every number of branches, some choices have a path from source to sink of exactly that length |
| `Workflow.OneSourceOneSink` | SciFlowTesting/src/workflowGen/randomizeGen.java:32-54 | Task 0 is the only task without a parent and task `linear` the only one without a child |
| `Workflow.BetweenSourceAndSink` | SciFlowTesting/src/workflowGen/randomizeGen.java:32-54 | Every task is reachable from task 0 and reaches task `linear` |
| `Workflow.Conservation` | SciFlowTesting/src/workflowGen/randomizeGen.java:28-53 | Tasks as counted from the choices; edges = tasks - 1 + branches |
| `Workflow.NoRepeatedParent` | SciFlowTesting/src/workflowGen/randomizeGen.java:42-50 | No task lists the same parent twice |
| `WorkflowLinks.LinkedIffHarmless` | SciFlowTesting/src/workflowGen/randomizeGen.java:11-21 | The list of start points is static and never cleared: with `leftover` in it, every run of n workflows links to existing non-gen tasks of earlier workflows if and only if the leftover is empty, or covers the workflows looked up with entries of at most 4 |
| `WorkflowLinks.HarmlessLinks` | SciFlowTesting/src/workflowGen/randomizeGen.java:15-20 | From an empty, or otherwise harmless, list every start point names an existing non-gen task of an earlier workflow |
| `WorkflowLinks.StaleRun` | SciFlowTesting/src/workflowGen/randomizeGen.java:17-20 | For every harmful leftover, a concrete run whose start point names no task |
| `WorkflowLinks.RunAcyclic` | SciFlowTesting/src/workflowGen/randomizeGen.java:13-21 | The graph of all workflows together, start-point edges included, has no cycle |
| `WorkflowLinks.RunDepthBound` | SciFlowTesting/src/workflowGen/randomizeGen.java:13-21 | A path through the combined graph is at most as long as the bounds of all workflows together, plus one edge between each two |
| `WorkflowLinks.RunDepthBoundAttained` | SciFlowTesting/src/workflowGen/randomizeGen.java:13-21 | For every list of sizes, some choices and links have a path of exactly that length |
| `WorkflowLinks.RunReachable` | SciFlowTesting/src/workflowGen/randomizeGen.java:13-21 | Every task of every workflow is reachable from the gen task of the first workflow |
| `WorkflowGen.Task.constructor` | SciFlowTesting/src/workflowGen/task.java:11-16 | A new task shows exactly the given ids, flag and parent list |
| `WorkflowGen.Task.Gen` | SciFlowTesting/src/workflowGen/gentask.java:12-18 | A gen task has no parent list and remembers its start point |
| `WorkflowGen.Task.AddIdxParent` | SciFlowTesting/src/workflowGen/task.java:26-28 | Appends one parent and changes nothing else; not callable on a gen task, whose list is null |
| `WorkflowGen.TaskIdsDistinct` | SciFlowTesting/src/workflowGen/randomizeGen.java:32-36 | The gen task is gen and task i carries "t" + i, so no two tasks of a workflow share an id |
| `WorkflowGen.LayMainLine` | SciFlowTesting/src/workflowGen/randomizeGen.java:32-38 | The loop lays exactly the main line, out of new objects |
| `WorkflowGen.HangBranch` | SciFlowTesting/src/workflowGen/randomizeGen.java:42-48 | The loop appends exactly the branch's tasks, each new, and leaves every earlier task as it was |
| `WorkflowGen.MergeBranch` | SciFlowTesting/src/workflowGen/randomizeGen.java:49-50 | The shared merge object gets one more parent; all other tasks are unchanged |
| `WorkflowGen.AddRandomBranch` | SciFlowTesting/src/workflowGen/randomizeGen.java:40-54 | One round realises the branch of its three draws, start from 1 to linear - 2, 0 to 3 extra tasks, merge from start + 2 to linear; all `nextInt` bounds are positive, all indices exist, and the merge never hits the gen task |
| `WorkflowGen.AddRandomBranches` | SciFlowTesting/src/workflowGen/randomizeGen.java:40-54 | The objects after the loop show exactly the graph built from the branches drawn, in order |
| `WorkflowGen.RandomWorkflow` | SciFlowTesting/src/workflowGen/randomizeGen.java:25-54 | The plan is the one drawn; its number n of branches satisfies 10 * (n - 1) <= 3 * size < 10 * n; the objects show its graph under ids w<n>, gen, t1, t2, ... |
| `WorkflowGen.RandomizeGen.GenerateRandomGraphs` | SciFlowTesting/src/workflowGen/randomizeGen.java:23-57 | As above, and the workflow's last index is appended to the start points |
| `WorkflowGen.RandomizeGen.FirstWorkflow` | SciFlowTesting/src/workflowGen/randomizeGen.java:15 | The first workflow is the one drawn, linked to nothing |
| `WorkflowGen.RandomizeGen.NextWorkflow` | SciFlowTesting/src/workflowGen/randomizeGen.java:17-20 | Exactly one workflow is added behind those printed so far, whose tasks stay as they were; with its plan the plans are again those the draws make, and the static list has its last index |
| `WorkflowGen.RandomizeGen.Generate` | SciFlowTesting/src/workflowGen/randomizeGen.java:13-21 | The workflows printed show the run that the draws make, and the static list has grown by their last indices; with a harmless list every link is to an existing task, so the results on whole runs apply |
| `WorkflowGen.RandomizeGen.PickStart` | SciFlowTesting/src/workflowGen/randomizeGen.java:18-19 | The next two draws: an earlier workflow, and a task from 1 to what the static list has for it |
| `WorkflowChoices.DrawnIsChoosable` | SciFlowTesting/src/workflowGen/randomizeGen.java:13-57 | Whatever the draws, all choices of a run are in range: 3 to 2 + maxWSize / 2 main-line tasks, branches by the number of those, every branch valid, every link allowed by the static list |
| `WorkflowChoices.RunsExactly` | SciFlowTesting/src/workflowGen/randomizeGen.java:13-57 | And conversely: a list of plans is the run of some draws if and only if its choices are in range |
| `WorkflowChoices.AlwaysLinksExactly` | SciFlowTesting/src/workflowGen/randomizeGen.java:11-21 | Whatever the draws, a run of n workflows links to existing tasks, if and only if what it found in the static list is harmless |
| `JavaRandom.Random.NextInt` | SciFlowTesting/src/workflowGen/randomizeGen.java:18-19 | The next of the given draws, below the positive bound |
| `Text.DecimalInjective` | SciFlowTesting/src/workflowGen/randomizeGen.java:35 | Different numbers have different numerals |
| `Text.DecimalValue` | SciFlowTesting/src/workflowGen/randomizeGen.java:35 | The numeral denotes the number |
| `Text.SplitJoin` | examples/xo_python/sawtooth_xo/processor/xo_state.py:155-180 | Splitting undoes joining when no part holds the separator |
| `Text.JoinSplit` | examples/xo_python/sawtooth_xo/processor/xo_payload.py:24 | Joining undoes splitting for every text, and no part holds the separator |
| `Text.SortSorted` | examples/xo_python/sawtooth_xo/processor/xo_state.py:180 | The sorted list is in code-point order (and a rearrangement) |
| `Text.SortedUnique` | examples/xo_python/sawtooth_xo/processor/xo_state.py:180 | A list has only one sorted rearrangement |
| `Text.LeExactly` | examples/xo_python/sawtooth_xo/processor/xo_state.py:180 | The order: a text is a beginning of the other, or has the smaller character at the first place where they differ |
| `XoCodec.SerializeCanonical` | examples/xo_python/sawtooth_xo/processor/xo_state.py:174-180 | Dictionaries with equal entries give identical text whatever their insertion order |
| `XoCodec.RecordText` | examples/xo_python/sawtooth_xo/processor/xo_state.py:174-178 | A game's record is name, board, state, first and second player, in that order, with commas between |
| `XoCodec.RoundTrip` | examples/xo_python/sawtooth_xo/processor/xo_state.py:142-180 | Reading undoes writing for every non-empty dictionary of separator-free games; names come from the keys; the text is never empty |
| `XoCodec.RoundTripExactly` | examples/xo_python/sawtooth_xo/processor/xo_state.py:142-180 | Any dictionary survives the round trip if and only if it is not empty, free of separators, and every game is filed under its own name |
| `XoCodec.ParsesExactly` | examples/xo_python/sawtooth_xo/processor/xo_state.py:142-162 | Any text at all: it reads as the games of the last record of each name if all its records have five fields, and is bad game data otherwise |
| `XoState.NeverEmpty` | examples/xo_python/sawtooth_xo/processor/xo_state.py:63-69 | No address ever holds an empty serialization |
| `XoState.LoadRefines` | examples/xo_python/sawtooth_xo/processor/xo_state.py:117-140 | Loading an address yields exactly the map's games living there, from cache or store, and writes nothing to the store; from then on the store is not asked for that address |
| `XoState.GetRefines` | examples/xo_python/sawtooth_xo/processor/xo_state.py:85-95 | `get_game` answers as the map from name to game does, for any address function |
| `XoState.SetRefines` | examples/xo_python/sawtooth_xo/processor/xo_state.py:71-83 | `set_game` changes the map at that name only, also when other games share the address; cache and store stay coherent |
| `XoState.DeleteRefines` | examples/xo_python/sawtooth_xo/processor/xo_state.py:53-69 | `delete_game` removes that name only; the last game of an address takes the address with it; KeyError exactly for a missing name |
| `XoState.CacheRefinesMap` | examples/xo_python/sawtooth_xo/processor/xo_state.py:53-140 | Over any sequence of get, set and delete every answer is the map's, and cache and store still represent the map |
| `XoState.Context.GetState` | sawtooth_sdk/processor/context.py:66-68 | Entries without data are dropped |
| `XoState.XoState.DeleteGame` | examples/xo_python/sawtooth_xo/processor/xo_state.py:53-69 | The new cache and store are those of the specified delete; the error cases likewise |
| `XoState.XoState.SetGame` | examples/xo_python/sawtooth_xo/processor/xo_state.py:71-83 | The new cache and store are those of the specified set |
| `XoState.XoState.GetGame` | examples/xo_python/sawtooth_xo/processor/xo_state.py:85-95 | The game read and the new cache are as specified; the store is unchanged |
| `XoState.XoState.StoreGame` | examples/xo_python/sawtooth_xo/processor/xo_state.py:97-106 | Cache and store both hold the canonical text, whatever order the dictionary yields |
| `XoState.XoState.EraseGame` | examples/xo_python/sawtooth_xo/processor/xo_state.py:108-115 | The address leaves the store and is cached as None |
| `XoState.XoState.LoadGames` | examples/xo_python/sawtooth_xo/processor/xo_state.py:117-140 | The games and the new cache are as specified |
| `XoState.DeserializeGames` | examples/xo_python/sawtooth_xo/processor/xo_state.py:153-162 | The loop with its early failure computes the reading function |
| `XoState.SerializeGames` | examples/xo_python/sawtooth_xo/processor/xo_state.py:174-180 | The loop gives the canonical text for every iteration order |
| `XoPayload.AcceptedExactly` | examples/xo_python/sawtooth_xo/processor/xo_payload.py:21-55 | A payload is accepted and read as x if and only if it spells x: a name without comma or bar, a known action, and for a take a space from 1 to 9 |
| `XoPayload.ThreePartsExactly` | examples/xo_python/sawtooth_xo/processor/xo_payload.py:23-27 | A payload is refused as badly serialized if and only if it is not three comma-free parts; every refusal is an invalid transaction |
| `XoPayload.RefusedExactly` | examples/xo_python/sawtooth_xo/processor/xo_payload.py:23-55 | The reason of every refusal, from the three parts: the first that applies of no name, a bar in the name, no action, an unknown action, a bad space |
| `Moves.ReplayMark` | examples/xo_python/sawtooth_xo/processor/handler.py:135-147 | The space of every move carries that side's mark |
| `Moves.ReplayFree` | examples/xo_python/sawtooth_xo/processor/handler.py:135-147 | Every other cell is free |
| `Moves.MarksStay` | examples/xo_python/sawtooth_xo/processor/handler.py:98-101 | A mark once on the board is never overwritten, whatever moves follow |
| `Moves.CountMarks` | examples/xo_python/sawtooth_xo/processor/handler.py:135-147 | First marks, second marks and free cells counted from the number of moves |
| `Moves.FairExtends` | examples/xo_python/sawtooth_xo/processor/handler.py:91-107 | One more move keeps the game fair if and only if its cell is free, on the board, and it is the signer's side's turn |
| `XoGame.IsWinIsLine` | examples/xo_python/sawtooth_xo/processor/handler.py:178-188 | The table of winning triples is exactly the rows, columns and diagonals of the board |
| `XoGame.LegalExtends` | examples/xo_python/sawtooth_xo/processor/handler.py:88-107 | A longer move list is legal if and only if the game is running and the move is fair |
| `XoGame.BoardIsReplay` | examples/xo_python/sawtooth_xo/processor/handler.py:135-147 | The new board is the old one with the mover's mark at the space |
| `XoGame.StateIsStatus` | examples/xo_python/sawtooth_xo/processor/handler.py:150-175 | The new state is the status of the new board; 'Two winners' and 'Unhandled state' do not occur |
| `XoGame.TakeIffLegal` | examples/xo_python/sawtooth_xo/processor/handler.py:81-118 | On the game of a legal move list a take succeeds if and only if the longer list is legal, and yields its game; otherwise it is refused as ended if the game is, else as out of turn if the side is another's, else as a taken space |
| `XoGame.TakeRefusedExactly` | examples/xo_python/sawtooth_xo/processor/handler.py:87-118 | On any stored game of nine cells, whatever its state and players: the reason of every refusal; a state of no turn is a Python error, since no mark is bound, and 'Unhandled state' never arises |
| `XoGame.StateExactly` | examples/xo_python/sawtooth_xo/processor/handler.py:150-175 | On any board of nine cells and any state: two lines are the 'Two winners' error, one line is that side's win, a full board is a tie, and the other states but five are the 'Unhandled state' error |
| `XoGame.MarksSigned` | examples/xo_python/sawtooth_xo/processor/handler.py:81-118 | Every X comes from a take of that space signed by player1 and every O from one signed by player2 |
| `XoGame.GameInvariant` | examples/xo_python/sawtooth_xo/processor/handler.py:65-118 | 9 cells of -, X, O; #X - #O by state; a line exactly in that side's WIN state; NEXT exactly while the game is open; at most 9 moves |
| `XoHandler.Apply` | examples/xo_python/sawtooth_xo/processor/handler.py:47-132 | The handler on cache and store computes the specified transaction |
| `XoHandler.StepAgrees` | examples/xo_python/sawtooth_xo/processor/handler.py:47-132 | The answer to a transaction, success or the reason of its refusal, is the one the rules give from the move lists, and the store then holds exactly the games of the new move lists |
| `XoHandler.RunAgrees` | examples/xo_python/sawtooth_xo/processor/handler.py:47-132 | The same over every run from an empty store, however names collide on addresses; no internal error is ever raised |
| `XoHandler.ReachableGames` | examples/xo_python/sawtooth_xo/processor/handler.py:65-118 | In every reachable store each game read is that of at most nine legal moves, with the mark counts they imply |
| `XoHandler.UnreadableStays` | examples/xo_python/sawtooth_xo/processor/handler.py:47-132 | A transaction on an address whose text has a record without five fields is answered as bad game data, an internal error, and leaves the store alone |
| `Protocol.StepInv` | sawtooth_sdk/messaging/stream.py:81-171 | Every step keeps: futures in the collection hold no response; responses and resolved futures correspond one to one; taken and queued items are the other arrivals in order; the unset futures are exactly those registered since the last disconnect and not answered; sent and waiting messages are those written, in order; no request is written twice |
| `Protocol.RunInv` | sawtooth_sdk/messaging/stream.py:81-255 | So does every interleaving |
| `Protocol.OutcomesOnlyRise` | sawtooth_sdk/messaging/stream.py:81-171 | What a holder sees only moves from unset over error to response, over any interleaving |
| `Protocol.ResponseIsFinal` | sawtooth_sdk/messaging/stream.py:93-98 | A future with a response never changes again, and that response arrived carrying the future's own id |
| `Protocol.DisconnectReleasesAll` | sawtooth_sdk/messaging/stream.py:145-148 | Right after a disconnect every future in the collection holds the error; none is left waiting |
| `Protocol.EachArrivalOnce` | sawtooth_sdk/messaging/stream.py:88-103 | Each arrival resolves exactly one future or is queued exactly once; on the latest connection taken and queued items are the non-responses in order, behind the reconnect event on every connection but the first |
| `Protocol.RunExactly` | sawtooth_sdk/messaging/stream.py:81-255 | The state after any list of events, from the list alone: the messages heard are those that came in while connected, in order; the receive queue holds the greeting and the messages that answered no open future, less one for each take; the send queue holds the pending requests posted and the answers sent back, less one for each sent; which ids are registered, open and pending, and whether the event is set |
| `Protocol.FutureChangesExactly` | sawtooth_sdk/messaging/stream.py:93-98 | The exact condition under which a step changes a future; a late response overwrites the error |
| `Protocol.SentInOrder` | sawtooth_sdk/messaging/stream.py:105-122 | On the latest connection the messages sent and those waiting are the messages written to it, in order; a disconnect loses only a tail |
| `Protocol.WrittenAtMostOnce` | sawtooth_sdk/messaging/stream.py:156-171 | Over any run and all connections together, each request reaches a send queue at most once |
| `Protocol.LostExactly` | sawtooth_sdk/messaging/stream.py:156-171 | Over any interleaving, a registered request fails to reach any send queue if and only if it was posted while the event was clear |
| `Protocol.HangsExactly` | sawtooth_sdk/messaging/stream.py:294-303 | A holder waits on a live connection for a request that is never sent if and only if the future was registered since the last disconnect, its request was posted while the event was clear, and no message with its id came in |
| `Protocol.StrandedSend` | sawtooth_sdk/messaging/stream.py:294-303 | From every connected state a disconnect and a reconnect around the registration leave the new future's holder hanging so |
| `Stream.Future.SetResult` | sawtooth_sdk/messaging/future.py:66-69 | The result is replaced |
| `Stream.FutureCollection.Put` | sawtooth_sdk/messaging/future.py:85-87 | The collection gains the future under its own id |
| `Stream.FutureCollection.SetResult` | sawtooth_sdk/messaging/future.py:89-99 | Exactly the addressed future changes; unknown ids change nothing and are reported |
| `Stream.FutureCollection.Remove` | sawtooth_sdk/messaging/future.py:101-106 | Exactly that id leaves; unknown ids are reported |
| `Stream.FutureCollection.FailAll` | sawtooth_sdk/messaging/stream.py:147-148 | Every future in the collection holds the error, and no other object changes |
| `Stream.Stream.constructor` | sawtooth_sdk/messaging/stream.py:258-273 | The objects start in the protocol's initial state |
| `Stream.Stream.CheckReady` | sawtooth_sdk/messaging/stream.py:294-295 | One protocol step: passes exactly when the event is set |
| `Stream.Stream.Register` | sawtooth_sdk/messaging/stream.py:296-301 | One protocol step; the caller's future and the collection's are the same new, unset object |
| `Stream.Stream.PutMessage` | sawtooth_sdk/messaging/stream.py:156-171 | One protocol step: dropped unless ready, otherwise queued behind all others |
| `Stream.Stream.SendBackMessage` | sawtooth_sdk/messaging/stream.py:306-320 | One protocol step: raises unless ready, otherwise the answer is queued behind all others |
| `Stream.Stream.SendMessage` | sawtooth_sdk/messaging/stream.py:105-114 | One protocol step: the oldest message, and only it, leaves the send queue |
| `Stream.Stream.Resolve` | sawtooth_sdk/messaging/stream.py:93-98 | The addressed future, if in the collection, holds the message's type and content and leaves the collection; every other holder sees what it saw |
| `Stream.Stream.ReceiveMessage` | sawtooth_sdk/messaging/stream.py:87-103 | One protocol step: when ready, the addressed future is resolved and removed, and a message that addresses none is queued behind all others; otherwise nothing changes |
| `Stream.Stream.TakeMessage` | sawtooth_sdk/messaging/stream.py:125-133 | One protocol step: the oldest item, and only it, leaves the receive queue |
| `Stream.Stream.ReleaseWaiters` | sawtooth_sdk/messaging/stream.py:147-148 | Every holder of a future still in the collection sees the error; every other holder sees what it saw |
| `Stream.Stream.OnDisconnect` | sawtooth_sdk/messaging/stream.py:136-154 | One protocol step: the event is clear and both queues are gone |
| `Stream.Stream.OnConnect` | sawtooth_sdk/messaging/stream.py:227-254 | One protocol step: the event is set, both queues are new, and the receive queue has the reconnect event unless this is the first connection |
| `Dispatch.FindHandler` | sawtooth_sdk/processor/core.py:99-114 | The first handler of that family and version, none if there is none |
| `Dispatch.RequestsMembers` | sawtooth_sdk/processor/core.py:116-131 | A request is in the registration list if and only if it announces some handler's family with one of its versions |
| `Dispatch.RequestsByPosition` | sawtooth_sdk/processor/core.py:116-131 | The whole list by position: handler by handler in the order added, one request for each version in order, and as many in all as there are versions |
| `Dispatch.DispatchedIffAnnounced` | sawtooth_sdk/processor/core.py:99-131 | A transaction finds a handler if and only if the registration list announces its family and version |
| `Dispatch.RegistersWholeList` | sawtooth_sdk/processor/core.py:252-259 | Registration sends the list in order up to the first send that finds the connection gone, and all of it unless there is one |
| `Dispatch.AnswersExactly` | sawtooth_sdk/processor/core.py:142-250 | A call sends a given answer if and only if it is the item's own: a ping's response, or OK, INVALID_TRANSACTION (also for an authorization error) or INTERNAL_ERROR by the outcome of the first matching handler; and then nothing else |
| `Dispatch.OnlyAnswers` | sawtooth_sdk/processor/core.py:142-250 | Apart from registering on a reconnect, a call sends at most one message, and only the own answer of its item |
| `Dispatch.RegisterEnds` | sawtooth_sdk/processor/core.py:252-281 | Registration crashes if and only if some send finds the connection gone, succeeds if and only if all sends and replies are fine, and otherwise ends as its first bad reply says; what goes out is the list up to the first failing send |
| `Dispatch.EndsExactly` | sawtooth_sdk/processor/core.py:142-281 | Exactly how a call ends: which circumstances raise a version error, a RuntimeError, a timeout or any other exception; losing the connection is handled except while answering a ping or sending a registration request |
| `Dispatch.SendRegistrations` | sawtooth_sdk/processor/core.py:252-281 | The two loops compute the specified registration, its errors in the order found |
| `Dispatch.Process` | sawtooth_sdk/processor/core.py:142-225 | For every way `apply` can end: a response goes out if and only if it is the one that outcome of the first matching handler calls for and the connection is up |
| `Dispatch.ProcessOne` | sawtooth_sdk/processor/core.py:227-250 | An answer goes out if and only if it is the received item's own |
| `DispatchRuns.LoopAnswers` | sawtooth_sdk/processor/core.py:306-311 | In any loop answers come in item order, each is the answer of its own item's call, and no item has two |
| `DispatchRuns.RunOf` | sawtooth_sdk/processor/core.py:304-332 | What a run sends for an item is exactly what the main loop's call on it sends and then what the shutdown loop's does |
| `DispatchRuns.AnswersInOrder` | sawtooth_sdk/processor/core.py:304-332 | Over any run everything goes out in the order of the items it belongs to |
| `DispatchRuns.AnswersCounted` | sawtooth_sdk/processor/core.py:304-332 | How often each item is answered: by the main loop's call if the loop got to it, and by the shutdown loop's if that did |
| `DispatchRuns.TwoAnswersExactly` | sawtooth_sdk/processor/core.py:310-323 | Over any run an item has at most two answers; two if and only if an interrupt struck between its processing and the next receive, unregistering was answered, and both calls answer it |
| `DispatchRuns.ReconnectRegisters` | sawtooth_sdk/processor/core.py:235-259 | In any run, a reconnect the main loop processes sends the whole registration list if and only if all its sends find the connection up, otherwise a prefix; nothing else registers; all of it precedes anything for a later item |
| `DispatchRuns.TurnsStay` | sawtooth_sdk/processor/core.py:316-323 | Without a future no number of turns of the shutdown loop sends, receives or changes anything |
| `DispatchRuns.TurnsAreLoop` | sawtooth_sdk/processor/core.py:316-323 | From a future on, the turns end, and send what the loop over the items left sends |
| `DispatchRuns.NeverEndsExactly` | sawtooth_sdk/processor/core.py:316-323 | The shutdown loop goes on forever if and only if it starts without a future |
| `DispatchRuns.SpinsExactly` | sawtooth_sdk/processor/core.py:303-323 | A shutdown before any future was received goes on forever if and only if unregistering is answered |
| `DispatchRuns.RunShutdown` | sawtooth_sdk/processor/core.py:312-332 | What is sent and how it ends is that of some number of turns; it spins if and only if no number of turns ends |
| `DispatchRuns.RunMain` | sawtooth_sdk/processor/core.py:306-311 | The loop sends, ends and stops as specified |
| `DispatchRuns.Run` | sawtooth_sdk/processor/core.py:304-335 | Main loop and shutdown together: everything sent, and how `start` is left, also when the interrupt strikes while it waits for a message that never comes |
| `DispatchRuns.ExitExactly` | sawtooth_sdk/processor/core.py:304-335 | By the ends of its calls alone: a run goes on waiting if and only if no call breaks and no interrupt strikes; it stops if and only if a call of the main loop raises a RuntimeError first; it returns normally if and only if an interrupt or a version error is followed by a shutdown that winds down; it never spins |
| `DispatchRuns.Start` | sawtooth_sdk/processor/core.py:298-335 | The whole of `start` including the first registration; it spins if and only if that meets a version error, or is interrupted before the first receive, and no number of shutdown turns ends |
| `JavaGame.ScanRows` | examples/xo_java/XoHandler.java:370-389 | All indices in bounds; the answer is that of the last row alone |
| `JavaGame.IsWin` | examples/xo_java/XoHandler.java:366-411 | On a board of any length all four scans stay in bounds and the answer is that of the anti-diagonal alone |
| `JavaGame.WinTestOnSquare` | examples/xo_java/XoHandler.java:370-411 | On an n x n board that is the anti-diagonal of the board: `dim` is n |
| `JavaGame.StateOfSquare` | examples/xo_java/XoHandler.java:352-364 | The state of an n x n board: a win for a filled anti-diagonal of 'X', else of 'O', else a tie on a full board, else the given one |
| `JavaGame.StateDueExactly` | examples/xo_java/XoHandler.java:352-411 | For every legal list of moves, the handler's state is the one the rules call for if and only if neither side has completed a row, column or diagonal |
| `JavaGame.RowNotRecognised` | examples/xo_java/XoHandler.java:352-411 | On every board size some legal play fills a row; a win is due, and the handler's state is another |
| `JavaGame.ApplyTake` | examples/xo_java/XoHandler.java:266-346 | The method with its in-place board computes the specified take, all refusals included |
| `JavaGame.TakeExactly` | examples/xo_java/XoHandler.java:297-347 | On any stored game: a take succeeds if and only if its space is on the board and free and it is that player's turn; an unknown state is the only internal error |
| `JavaGame.CreateStarts` | examples/xo_java/XoHandler.java:280-292 | Creating on an empty record gives the game of no moves on n x n cells |
| `JavaGame.NeverWon` | examples/xo_java/XoHandler.java:352-361 | On boards of the marks takes place, the state depends on the number of moves only: no game is ever won |
| `JavaGame.TakeIffLegal` | examples/xo_java/XoHandler.java:297-347 | A take succeeds if and only if the longer move list is legal, and yields its game; otherwise it is an invalid transaction, never an internal error |
| `JavaGame.GameInvariant` | examples/xo_java/XoHandler.java:297-361 | All cells kept; #H - #Q follows the turn; never a win state; TIE after exactly as many takes as cells and exactly on a full board |
| `JavaGame.PlayIsLegal` | examples/xo_java/XoHandler.java:297-347 | Any takes, refused ones included, lead to the game of a legal move list |
| `JavaCodec.ReadCsvOf` | examples/xo_java/XoHandler.java:184-190 | Padding restores exactly the trailing empty fields that split drops: all five fields come back |
| `JavaCodec.CsvText` | examples/xo_java/XoHandler.java:225-228 | A game's record is name, board, state, first and second player, in that order, with commas between |
| `JavaCodec.GetGameCsv` | examples/xo_java/XoHandler.java:212-220 | The first record that starts with the name, or nothing |
| `JavaCodec.LoadGame` | examples/xo_java/XoHandler.java:178-195 | The split and padding loop computes the specified reading |
| `JavaCodec.SetGameCsv` | examples/xo_java/XoHandler.java:231-239 | The first record that starts with the name is overwritten, and no other; running past the list throws |
| `JavaCodec.StoreGame` | examples/xo_java/XoHandler.java:223-240 | Into an empty text the record alone, otherwise the specified store with its throw |
| `JavaCodec.StoreThenLoad` | examples/xo_java/XoHandler.java:178-249 | Storing succeeds if and only if the address is empty or some record starts with the name; whenever it does, loading gives the same five fields, whatever else is there |
| `JavaCodec.StoreHits` | examples/xo_java/XoHandler.java:231-239 | Into a text of several games a store overwrites the first whose name starts with the given one, or throws; into an empty one it writes the game alone |
| `JavaCodec.StoreUpdatesExactly` | examples/xo_java/XoHandler.java:223-240 | For any text of games, also one that no run writes: a store puts the game in and keeps all others if and only if the text is empty or the first game whose name starts with that name is the one of that very name |
| `JavaCodec.StoredTakeIffLegal` | examples/xo_java/XoHandler.java:147-156 | Load, take and store on one game's text succeed if and only if the move is legal, and leave the text of the longer list's game |
| `JavaCodec.StoredGame` | examples/xo_java/XoHandler.java:147-156 | After creating on an empty address, any takes, refused ones included, leave the text of a game of legal moves |
| `JavaHandler.Apply` | examples/xo_java/XoHandler.java:105-157 | Parsing, loading, playing and storing together compute the specified transaction |
| `JavaHandler.AcceptedExactly` | examples/xo_java/XoHandler.java:107-145 | A payload is accepted and read as x if and only if it spells x, a name without comma or bar, the action and a number in range, followed by any number of commas |
| `JavaHandler.StepHolds` | examples/xo_java/XoHandler.java:105-157 | For any address function: an address holds the text of at most one game; a create where another game lives is refused if its name starts that game's and throws otherwise; a take under such a name is played in that game |
| `JavaHandler.RunHolds` | examples/xo_java/XoHandler.java:105-157 | The same over every run from an empty store, answers included |
| `JavaHandler.TakenElsewhere` | examples/xo_java/XoHandler.java:150-156 | A run in which a take under the name of no game is played in another game at the same address |
| `JavaHandler.StepMatches` | examples/xo_java/XoHandler.java:105-157 | From the same games, a transaction is answered as by the games-by-name reference if and only if it is not misplaced, that is, does not create where another game lives or take in another game whose name starts with its own |
| `JavaHandler.AgreesExactly` | examples/xo_java/XoHandler.java:105-157 | For any address function and every run: all answers are the reference's if and only if no transaction of the run is misplaced |
| `JavaHandler.RunAgrees` | examples/xo_java/XoHandler.java:105-157 | A run whose own names do not collide leaves exactly the texts of the reference's games, answers as the reference, and refuses only as invalid transactions |
| `JavaHandler.AlwaysAgreesExactly` | examples/xo_java/XoHandler.java:105-157 | For any set of names: all runs over them answer as the reference if and only if no two of them share an address |
| `Quorum.SampleInRange` | SciFlowTesting/src/quorumTesting/quorumcalc.java:24-28 | Any sample of q nodes holds between max(0, q - m) and min(q, n - m) good ones |
| `Quorum.RangeAttained` | SciFlowTesting/src/quorumTesting/quorumcalc.java:24-28 | Every value of that range is the sample of some rearrangement of the same nodes |
| `Quorum.ShufflesExactly` | SciFlowTesting/src/quorumTesting/network.java:27-31 | An arrangement is the shuffle of another for some draws if and only if it has the same nodes |
| `Quorum.SamplesExactly` | SciFlowTesting/src/quorumTesting/quorumcalc.java:19-34 | Over any number of samples: a list of numbers is what some draws sample if and only if all of them are in the range and the first is that of the nodes as they stand |
| `Quorum.Network.constructor` | SciFlowTesting/src/quorumTesting/network.java:11-25 | m malicious nodes with 10 * m <= n < 10 * (m + 1), and the good ones, shuffled as the draws say |
| `Quorum.Network.Reshuffle` | SciFlowTesting/src/quorumTesting/network.java:27-31 | In place the Fisher-Yates shuffle of the draws: a rearrangement of the same nodes, so the same number of good ones |
| `Quorum.CountGood` | SciFlowTesting/src/quorumTesting/quorumcalc.java:23-28 | The number of good nodes among the first q; zero for q <= 0 |
| `Quorum.Round` | SciFlowTesting/src/quorumTesting/quorumcalc.java:20-33 | The samples are those of the draws, each followed by a shuffle; the count is that of the samples meeting the threshold |
| `Quorum.TenRounds` | SciFlowTesting/src/quorumTesting/quorumcalc.java:19-35 | The same over ten rounds, each going on where the last one ended, and the sum of the shares |
| `Quorum.QuorumCalc.constructor` | SciFlowTesting/src/quorumTesting/quorumcalc.java:11-37 | The quorum size q is n * share without its fraction: q <= n * share < q + 1 for a share of 0 or more; the samples are those of ten rounds on the draws, all in the exact range, and the result is their average; for no samples NaN, as 0/0 is, or zero for a negative count |
| `Quorum.AverageBounds` | SciFlowTesting/src/quorumTesting/quorumcalc.java:19-36 | The average is the number of samples that meet the threshold over the number of samples, in [0, 1]; it is 1 when q - m >= threshold * q (q > 0) and 0 when min(q, n - m) < threshold * q |
| `Quorum.AlwaysMeetsExactly` | SciFlowTesting/src/quorumTesting/quorumcalc.java:29-31 | Every rearrangement meets the threshold if and only if the low end of the range does |
| `Quorum.NeverMeetsExactly` | SciFlowTesting/src/quorumTesting/quorumcalc.java:29-31 | No rearrangement meets the threshold if and only if the high end of the range does not |

## Left out

Modelled more simply than in the source:

- Text encoding: UTF-8 encoding and decoding are the identity on strings, so decode errors do not occur.
- Addresses: the SHA-512 address is an arbitrary function of the name, so results hold for any collisions.
- Integer syntax: Python's `int()` is an arbitrary partial function from text to integers.
- XoState.Context.GetState: one address at a time; authorization errors, timeouts and failing set or delete calls of the validator are not modelled, store calls succeed.
- XoHandler.StepAgrees: signers are taken to be non-empty and free of comma and bar, as hex public keys are.
- XoState.XoState.GetGame: game objects are values, since each read builds a fresh one; aliasing of one `Game` between caller and dictionary is not captured.
- Error texts: the reasons are an enumeration, messages are not modelled.
- Board drawing and logging: not modelled. On a stored board shorter than nine cells, which no run produces, drawing would raise after the store was written.
- WorkflowGen.RandomizeGen.Generate: the printed workflows become the returned list; sizes below 2, for which `nextInt` throws, are excluded; the branch count uses exact arithmetic in place of the double 0.3.
- JavaRandom.Random.NextInt: nothing is assumed of the draws. All `Random` objects of a run, that of `Collections.shuffle` included, are one sequence of draws in the order of the calls; `shuffle` is the documented one, from the last place down.
- Quorum.QuorumCalc.constructor: reals in place of doubles, with NaN for 0/0 only; a quorum larger than the network, which throws, is excluded; 0.10 of the size is n / 10.
- Stream.Stream.PutMessage: a caller that finds the event set and no queue waits; the method is called once the queue is there. In the protocol the event does nothing until then.
- Stream.Stream.OnDisconnect: one atomic step; a registration in the middle of the loop over the dictionary, which Python may answer with an exception, is not modelled, nor are cancelled coroutines.
- Stream.Stream.constructor: the background thread's failure to make the first connection, and `shutdown`, are not modelled. Correlation ids are fresh naturals.
- Dispatch.ProcessOne: protobuf parsing, the raw header style and the context id are not modelled; handlers are known by how `apply` ends.
- DispatchRuns.Start: an interrupt in the middle of a handler, of sending registrations or of unregistering, or between receiving a future and keeping it, is not modelled; interrupts strike before the first receive, while waiting for a message, or between processing and the next receive.
- JavaHandler.AcceptedExactly: `Integer.parseInt` is an arbitrary partial function that fails on the empty text (and, where an example is built, reads "3" as 3); every parsing error is one kind of invalid transaction.
- JavaHandler.StepHolds: store calls succeed, and an address without data reads as the empty text.

Not modelled:

- `SendReceiveThread.java`, `ZmqStream.java`, `StreamContext.java`: on disconnect they replace map entries rather than resolve the futures callers hold.
- Sockets, event loops, locks and condition variables beyond the atomic steps they induce.
- Most of `context.py`, `zmq_service.py`, `zmq_driver.py`: request and response plumbing with single-branch claims.
- Signing, command-line tools, clients, configuration, generated protobuf code, and `randomizeGen.main` starting an editor.
