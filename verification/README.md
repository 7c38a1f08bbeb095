# Torii indexing pipeline: a verified model

Torii follows a chain, turns its events into tasks, runs the tasks in parallel, and keeps token balances and
typed entities in a database. This project models the in-memory logic of that pipeline in Dafny and proves what
it guarantees over every input, every interleaving and every run.

* **Scheduler.** `Digraph` and `Levels` hold paths, cycles, the depth-first reachability test and the level sort.
  `AcyclicDigraphMaps` is the keyed graph, `TaskNetworks` adds deferred dependencies, `LevelExecution` is the
  parallel run of a network as a transition system (take a permit, finish well or badly, advance, abort), and
  `TaskManagers` the per-task event queues.
* **Ledger.** `SignedMagnitude` is the 256-bit sign-magnitude integer, `ErcLedger` the balance and supply diffs,
  `TokenRegistration` the lock protocol by which concurrent tasks register a token once, `RegistrationProgress` its
  progress, and `RegistrationRefinement` its link to the engine.
* **Engine.** `Engine` is the fetch, process, commit or roll back loop, with a failure possible between any two
  steps.
* **Typed data.** `TypeDependencies` is the type traversal of the SNIP-12 encoding, `Schema`, `Numerals` and
  `TypedData` the value printer and parser, `TypedDataAcceptance` which values a schema accepts, `ProtoCodec` the
  protobuf form.
* **Text and pages.** `JsonSanitizer` repairs JSON text, `Pager` is the cursor pagination.

The parts fit together. The levels of a graph make every run of a network respect its dependencies; the diffs do
not depend on the order in which the tasks of such a run touch them; a finished run of the registration protocol has
the effect of one engine step per new token; and the engine carries the exact sum of a
batch into the committed store, once per batch, however often processing fails. So committed balances are the sums
of the processed chain prefix, precisely as long as those sums do not go below zero.

Code that updates state in place is a class or a method with a loop, tied by its postcondition to a function on
values; the lemmas are about those functions. Concurrent protocols are transition systems, quantified over all
runs. `Option` and `Result` carry the error paths and aborts.

## Results where the code promises less than one might expect

* A dependency recorded for a task that does not exist yet is dropped when its prerequisite arrives first
  (`TaskNetworks.UnknownDependentIsDropped`), and a task that waits for itself is refused as a cycle
  (`TaskNetworks.SelfDependentIsRefused`). `TaskNetworks.EveryRunKeepsAllIff` gives the exact condition: every new
  task must find all the tasks that wait for it. Adding dependencies to existing tasks only is enough.
* Processing a network without tasks answers Ok and leaves deferred dependencies behind:
  `LevelExecution.EarlyReturnLeavesDeferred`, with the exact condition in `LevelExecution.SuccessLeavesNothingIff`.
* A committed balance is the sum of the processed transfers if and only if no batch ends with a negative sum:
  `Engine.CommittedIsPrefixSum`. Otherwise the value comes from the chain, as in `Engine.OverdraftIsReplaced`.
* A cursor decodes if and only if its parts contain no slash (`Pager.CursorRoundTripIff`), so the rows can be walked
  to the end if and only if no page that others follow ends on an id with a slash (`Pager.CompleteWalkIff`).
* After a cursor whose row was deleted the last of all rows is never shown: `Pager.FetchAfterGap`.
* The query after the last row returns an empty page that denies having a previous page:
  `Pager.NothingAfterLastRow`.
* A page size of zero announces a next page but gives no cursor: `Pager.ZeroPageSizeIsStuck`.
* Without permits a non-empty network never takes a step: `LevelExecution.NoPermitsNoStep`.
* A typed value has a protobuf form if and only if it contains no fixed-size array:
  `ProtoCodec.DecodeInvertsEncode`.
* A diff entry that was touched once by a zero debit is the negative zero; any second touch makes it canonical:
  `ErcLedger.RunIsExact`. The comment on the supply map speaks of ERC-20 only, the code tracks NFTs as well, and
  the model follows the code.

## Model

| member | source | states |
|---|---|---|
| `Digraph.NewEdgeClosesCycleIff` | crates/adigraphmap/src/lib.rs:98-102 | in an acyclic multigraph a new edge closes a cycle exactly when its target already reaches its source |
| `Digraph.ClimbingTightIsLongestPath` | crates/adigraphmap/src/lib.rs:130-188 | an assignment that climbs along every edge and rests on a predecessor one level below is the longest-path level |
| `Levels.HasPathConnecting` | crates/adigraphmap/src/lib.rs:98-102 | the stack-based depth-first search answers true exactly when a path exists, and terminates on every graph |
| `Levels.CountIncoming` | crates/adigraphmap/src/lib.rs:133-149 | counters hold the number of incoming edges, parallel ones included, and the roots are the nodes with counter zero, each once |
| `Levels.ReleaseSuccessors` | crates/adigraphmap/src/lib.rs:169-176 | one decrement per outgoing edge never goes below zero, and frees exactly the nodes whose counter drops to zero, each once |
| `Levels.ReleaseLevel` | crates/adigraphmap/src/lib.rs:151-178 | after a level the counters count edges from the remaining nodes, and the next level is what was freed, each node once |
| `Levels.TopologicalLevels` | crates/adigraphmap/src/lib.rs:130-188 | on an acyclic graph the sort lists every node once, at the level of the longest path ending there, and lists no empty level |
| `AcyclicDigraphMaps.AddNodeWellFormed` | crates/adigraphmap/src/lib.rs:54-62 | adding a node, or being refused for a duplicate key, keeps keys and indices in bijection |
| `AcyclicDigraphMaps.DependencyRefusedIff` | crates/adigraphmap/src/lib.rs:66-77 | between existing keys an edge is refused exactly when it would close a cycle, self-loops included |
| `AcyclicDigraphMaps.InsertSucceedsIff` | crates/adigraphmap/src/lib.rs:40-51 | inserting with dependencies succeeds exactly when the key is new and every dependency exists, and adds one edge per dependency |
| `AcyclicDigraphMaps.EveryRunWellFormed` | crates/adigraphmap/src/lib.rs:40-102 | every sequence of operations, including ones refused midway, keeps the graph acyclic and the key map a bijection |
| `AcyclicDigraphMaps.FewestLevels` | crates/adigraphmap/src/lib.rs:127-188 | no schedule that respects the edges can place a task earlier than its level |
| `AcyclicDigraphMaps.AcyclicDigraphMap.AddNode` | crates/adigraphmap/src/lib.rs:54-62 | the mutable graph and its answer after adding a node, with the duplicate-key error |
| `AcyclicDigraphMaps.AcyclicDigraphMap.AddDependency` | crates/adigraphmap/src/lib.rs:66-77 | the edge is appended unless a key is unknown or the target reaches the source; nothing changes on an error |
| `AcyclicDigraphMaps.AcyclicDigraphMap.AddNodeWithDependencies` | crates/adigraphmap/src/lib.rs:40-51 | the node and the edges accepted before the first refusal stay |
| `AcyclicDigraphMaps.AcyclicDigraphMap.SetValue` | crates/adigraphmap/src/lib.rs:85-88 | writing through the mutable reference replaces the value of one key and nothing else |
| `AcyclicDigraphMaps.AcyclicDigraphMap.Get` | crates/adigraphmap/src/lib.rs:80-82 | the value stored under the key, or none |
| `AcyclicDigraphMaps.AcyclicDigraphMap.Clear` | crates/adigraphmap/src/lib.rs:201-204 | the empty graph |
| `AcyclicDigraphMaps.AcyclicDigraphMap.TopoSortByLevel` | crates/adigraphmap/src/lib.rs:130-188 | every key appears exactly once, with its value, at the level equal to the longest dependency path ending there |
| `TaskNetworks.AddDependenciesTracks` | crates/task-network/src/lib.rs:64-91 | for an existing task every accepted dependency is an edge or deferred on an absent task, and nothing tracked before is lost |
| `TaskNetworks.ResolveAddsEdges` | crates/task-network/src/lib.rs:93-105 | resolving a task without incoming edges never meets a cycle and adds exactly the edges to the waiting tasks that exist |
| `TaskNetworks.AddTaskTracks` | crates/task-network/src/lib.rs:48-62 | a new task turns what waited for it into edges and tracks its own dependencies, in any iteration order |
| `TaskNetworks.RecordedIsKept` | crates/task-network/src/lib.rs:64-91 | whatever a call records before its first refusal is an edge or deferred, for existing and absent tasks, and nothing recorded earlier is lost |
| `TaskNetworks.ResolveFailsIff` | crates/task-network/src/lib.rs:93-105 | resolving a new task fails, as a cycle, exactly when the task was waiting for itself |
| `TaskNetworks.StepKeepsAllIff` | crates/task-network/src/lib.rs:48-105 | one call keeps every recorded dependency exactly when a task it adds finds all the tasks that wait for it |
| `TaskNetworks.EveryRunKeepsAllIff` | crates/task-network/src/lib.rs:48-105 | in every state of a run all dependencies recorded so far, also by calls that failed later, are edges or deferred on an absent task, exactly when every new task finds all the tasks that wait for it |
| `TaskNetworks.CarefulRunKeepsAll` | crates/task-network/src/lib.rs:48-105 | if dependencies are added to existing tasks only, all recorded dependencies are kept in every state, and every waiting task exists |
| `TaskNetworks.UnknownDependentIsDropped` | crates/task-network/src/lib.rs:98-102 | a concrete run in which a recorded dependency of an unknown task disappears |
| `TaskNetworks.SelfDependentIsRefused` | crates/task-network/src/lib.rs:93-105 | a concrete run in which a new task without listed dependencies is refused as a cycle |
| `TaskNetworks.UnknownDependentMayArriveFirst` | crates/task-network/src/lib.rs:48-105 | a concrete run that defers for an absent task and loses nothing |
| `TaskNetworks.TaskNetwork.AddDependencyOrDefer` | crates/task-network/src/lib.rs:78-91 | an edge if the prerequisite exists, else one more waiting task |
| `TaskNetworks.TaskNetwork.AddDependencies` | crates/task-network/src/lib.rs:64-70 | dependencies are added in order up to the first refusal |
| `TaskNetworks.TaskNetwork.ResolvePendingDependents` | crates/task-network/src/lib.rs:93-105 | the waiting set is taken out and its existing members become edges, in some order of the set |
| `TaskNetworks.TaskNetwork.AddTaskWithDependencies` | crates/task-network/src/lib.rs:48-62 | add, resolve, then add dependencies, with the error of the first step that fails |
| `TaskNetworks.TaskNetwork.SetTask` | crates/task-network/src/lib.rs:188-190 | replaces the data of one task and nothing else |
| `TaskNetworks.TaskNetwork.Clear` | crates/task-network/src/lib.rs:192-195 | no tasks and nothing deferred |
| `LevelExecution.NextInv` | crates/task-network/src/lib.rs:118-172 | every step keeps permits, bookkeeping, the once-only trace, the barrier between levels and no start after a failure |
| `LevelExecution.StartsAfterDependencies` | crates/task-network/src/lib.rs:118-172 | in every interleaving a task starts only after all its transitive dependencies finished successfully |
| `LevelExecution.FailureStopsLaterLevels` | crates/task-network/src/lib.rs:166-172 | once a task fails, no task of a later level ever starts |
| `LevelExecution.RunAccounts` | crates/task-network/src/lib.rs:107-178 | free permits plus running handlers is the configured maximum, no event happens twice, success has finished every task, failure has a failed one |
| `LevelExecution.NextDecreases` | crates/task-network/src/lib.rs:121-172 | every step lowers a measure of waiting tasks, running tasks and remaining levels |
| `LevelExecution.RunIsBounded` | crates/task-network/src/lib.rs:121-172 | the number of steps of any run is bounded by the measure of its first state |
| `LevelExecution.NeverStuck` | crates/task-network/src/lib.rs:137-172 | with at least one permit a run can take a step exactly while it has not returned |
| `LevelExecution.NoPermitsNoStep` | crates/task-network/src/lib.rs:137-141 | with no permits a non-empty network never takes a step |
| `LevelExecution.SuccessLeavesNothingIff` | crates/task-network/src/lib.rs:107-178 | a call that answers Ok has run every task to success and leaves no task; it leaves nothing deferred exactly when there was a task or nothing was deferred; a failing call leaves the network alone and has a failed task |
| `LevelExecution.SoundSuccessLeavesNothing` | crates/task-network/src/lib.rs:114-178 | where every waiting task exists, a successful call leaves nothing at all |
| `LevelExecution.EarlyReturnLeavesDeferred` | crates/task-network/src/lib.rs:114-116 | a concrete network for which Ok leaves a deferred dependency behind |
| `TaskManagers.AddStores` | crates/processors/src/task_manager.rs:102-162 | an arrival changes only its own task and is stored whether or not its dependencies are accepted |
| `TaskManagers.EveryArrivalSequence` | crates/processors/src/task_manager.rs:94-162 | after any arrivals a task holds its historical events in order and its latest-only events reduced to the last arrival per key, in order of that arrival |
| `TaskManagers.HandlerVisits` | crates/processors/src/task_manager.rs:185-200 | after any arrivals the handler of a task goes through its historical events in order, then its latest events reduced to the last arrival per key |
| `TaskManagers.NoEventIsLost` | crates/processors/src/task_manager.rs:102-162 | for every arrival its task holds the event, or a later one with the same key that replaces it |
| `TaskManagers.OutcomeIsUnique` | crates/processors/src/task_manager.rs:201-284 | the outcome of an event is told by the first processor that validates it: skipped, processed, failed, or a panic when none does |
| `TaskManagers.RanOnMembers` | crates/processors/src/task_manager.rs:246-283 | a processor runs on exactly the events that end processed or failed |
| `TaskManagers.RunProcessor` | crates/processors/src/task_manager.rs:201-284 | the outcome found is the one the registered processors determine |
| `TaskManagers.HandleTask` | crates/processors/src/task_manager.rs:185-288 | the handler visits the events in order, runs a processor on exactly those that have one that wants them, and stops right after the first failure or panic |
| `TaskManagers.TaskManager.AddParallelizedEventWithDependencies` | crates/processors/src/task_manager.rs:102-162 | the mutable manager performs exactly one arrival |
| `SignedMagnitude.AddIsExact` | crates/math/src/lib.rs:41-82 | addition is integer addition in canonical form, defined exactly when the sum fits 256 bits, negative zeros included |
| `SignedMagnitude.SubIsExact` | crates/math/src/lib.rs:84-99 | subtraction is integer subtraction in canonical form, defined exactly when the difference fits |
| `SignedMagnitude.SubUndoesAdd` | crates/math/src/lib.rs:41-111 | subtracting what was added gives the canonical form of the start |
| `ErcLedger.RunIsExact` | crates/cache/src/lib.rs:343-412 | a run of updates completes exactly when no partial sum overflows, and then every entry holds the exact integer sum |
| `ErcLedger.OrderIrrelevant` | crates/cache/src/lib.rs:343-412 | two orders of the same updates that complete end in identical maps |
| `ErcLedger.BoundedRunsComplete` | crates/cache/src/lib.rs:343-412 | if the amounts of every entry sum below 2^256, every order completes |
| `ErcLedger.EveryInterleavingAgrees` | crates/cache/src/lib.rs:343-412 | every interleaving of the atomic updates of concurrent tasks gives the maps of running the tasks in turn |
| `ErcLedger.Conservation` | crates/cache/src/lib.rs:343-412 | after any transfers in any order the balance diffs of a token sum to its supply diff |
| `ErcLedger.DiffsAreTransfers` | crates/cache/src/lib.rs:343-412 | after any transfers in any order the diff of an account is what it received minus what it sent, and the diff of a supply what was minted minus what was burnt; address zero has no balance |
| `ErcLedger.TransferMoves` | crates/cache/src/lib.rs:350-411 | from any diffs one transfer debits the sender, credits the receiver, mints or burns when one side is address zero, and touches nothing else |
| `ErcLedger.ErcCache.Touch` | crates/cache/src/lib.rs:357-360 | one entry is modified or inserted, the others stay, an overflow aborts |
| `ErcLedger.ErcCache.UpdateBalanceDiff` | crates/cache/src/lib.rs:343-412 | every entry moves by received minus sent, or minted minus burnt, of this one transfer, or the call aborts at the first overflow |
| `ErcLedger.ErcCache.ClearBalancesDiff` | crates/cache/src/lib.rs:159-164 | both diff maps are empty |
| `TokenRegistration.DoInv` | crates/processors/src/erc.rs:404-444 | every step of every task keeps one lock object per token, one holder per lock, and registry, storage and counts in agreement |
| `TokenRegistration.RegisteredOnce` | crates/processors/src/erc.rs:404-473 | in every interleaving a token has at most one lock object and is stored at most once, never if registered at the start |
| `TokenRegistration.QuiescentCounts` | crates/processors/src/erc.rs:432-443 | when all tasks have returned, the new tokens are the stored ones and the counted supply of a contract is its number of new NFTs |
| `RegistrationProgress.RetrySucceeds` | crates/cache/src/lib.rs:311-341 | in every reachable state a token that is not registered can still be, by a task past the lock, a waiting one or a new one, while all others stand still |
| `RegistrationProgress.NeverDeadlocked` | crates/processors/src/erc.rs:404-473 | some task can take a step exactly while some task has not returned |
| `RegistrationProgress.RunIsBounded` | crates/processors/src/erc.rs:404-473 | without new tasks every run is bounded by the steps left at its start |
| `TokenRegistration.RunKeepsReturnInv` | crates/processors/src/erc.rs:413-443 | a task that returned Ok has its token registered, and every stored token has a task |
| `RegistrationRefinement.ProtocolRefinesRegister` | crates/processors/src/erc.rs:404-473 | a protocol run at rest has the effect of one engine registration per stored token: registry, stored tokens and owed supply agree, and if all tasks succeeded every token of the batch is registered |
| `Engine.AppliedValue` | crates/sqlite/sqlite/src/executor/erc.rs:396-482 | applying a diff adds it exactly, whenever the result is not negative |
| `Engine.NegativeIsReplaced` | crates/sqlite/sqlite/src/executor/erc.rs:353-358 | where the result would be negative a supply becomes zero and a balance the value queried from the chain |
| `Engine.AppliesIff` | crates/sqlite/sqlite/src/executor/erc.rs:322-482 | applying aborts exactly when some stored value would not fit 256 bits |
| `Engine.TokensAreNamed` | crates/processors/src/processors/erc721_transfer.rs:70-90 | processing events registers exactly the tokens they move and the contracts of these tokens |
| `Engine.ChainSumIsNet` | crates/processors/src/erc.rs:432-441 | the updates of a chain prefix amount to received minus sent, minted minus burnt, and one per distinct NFT at contract level |
| `Engine.DoInv` | crates/indexer/engine/src/engine.rs:173-337 | every step of the loop, failing or not, keeps the invariant over store, diffs, registry, queue and batch |
| `Engine.LoopHeadIsClean` | crates/indexer/engine/src/engine.rs:211-244 | at every loop head pending equals committed, diffs and queue are empty, a token is registered and committed exactly when the processed chain prefix moves it or an NFT of it, and every cached model is the committed one |
| `Engine.CommittedIsPrefixSum` | crates/indexer/engine/src/engine.rs:280-337 | over every run with failures and retries every commit holds, for each entry, received minus sent or minted minus burnt over the processed chain prefix, plus one per distinct NFT at contract level, exactly when that sum is never negative at a commit |
| `Engine.OverdraftIsReplaced` | crates/sqlite/sqlite/src/executor/erc.rs:417-460 | a concrete run that commits the value queried from the chain instead of the negative sum |
| `Engine.BatchIsKept` | crates/indexer/engine/src/engine.rs:183-272 | over every run a fetched batch is held, with the committed store unmoved, until a commit that covers exactly this batch |
| `Engine.CommittedModelIsLast` | crates/cache/src/lib.rs:137-149 | over every run a committed model is the last one registered for its selector in a committed batch |
| `JsonSanitizer.OnlyQuotesEscaped` | crates/processors/src/erc.rs:712-769 | the output is the input with single backslashes inserted, each directly before a double quote |
| `JsonSanitizer.ResultIsWellDelimited` | crates/processors/src/erc.rs:712-769 | in the output every unescaped quote inside a string is followed by something that can follow a string |
| `JsonSanitizer.UnchangedIff` | crates/processors/src/erc.rs:712-769 | the text is left alone exactly when it was well delimited |
| `JsonSanitizer.Idempotent` | crates/processors/src/erc.rs:712-769 | repairing twice is repairing once |
| `JsonSanitizer.JsonBlanks` | crates/processors/src/erc.rs:735-741 | the four JSON blanks are skipped, printable characters are not |
| `JsonSanitizer.ClosesIff` | crates/processors/src/erc.rs:733-756 | the lookahead on the rest of the text agrees with the condition on indices |
| `JsonSanitizer.ClosesAhead` | crates/processors/src/erc.rs:733-756 | true exactly when only blanks follow, or only blanks before a colon, a comma or a closing brace |
| `JsonSanitizer.SanitizeJsonString` | crates/processors/src/erc.rs:712-769 | the scanning loop computes the repair, inserts only escapes and yields well delimited text |
| `Pager.CursorRoundTripIff` | crates/graphql/src/object/connection/cursor.rs:5-23 | a cursor decodes to its two parts exactly when neither contains a slash |
| `Pager.DecodeIff` | crates/graphql/src/object/connection/cursor.rs:10-23 | a text decodes to two parts exactly when it is the cursor made from them and they contain no slash |
| `Pager.IdInIsPrimary` | crates/graphql/src/query/data.rs:276-295 | the id of a cursor condition is the first part of the cursor |
| `Pager.LessIff` | crates/graphql/src/query/data.rs:184-195 | ids are compared lexicographically |
| `Pager.CursorSelectsSuffix` | crates/graphql/src/query/data.rs:270-298 | the cursor condition selects the cursor row and everything after it in query order |
| `Pager.TrimPage` | crates/graphql/src/query/data.rs:210-256 | the trim drops the cursor row and the surplus row and sets the flags and cursors accordingly |
| `Pager.FetchIsPageAt` | crates/graphql/src/query/data.rs:130-256 | the query after any number of rows returns exactly the next rows, with a next page exactly when rows remain and a previous one exactly between the first and the last row; it fails exactly when the id it starts from has a slash |
| `Pager.NothingAfterLastRow` | crates/graphql/src/query/data.rs:225-230 | after the last row the page is empty and has no previous page |
| `Pager.FetchAfterGap` | crates/graphql/src/query/data.rs:225-235 | after a cursor whose row is gone the page starts with the next row, denies a previous page and drops the last of all rows |
| `Pager.WalkShowsRows` | crates/graphql/src/query/data.rs:130-256 | following end cursors shows the rows in order without gap or repetition; a walk that ended has shown all of them |
| `Pager.WalkTerminates` | crates/graphql/src/query/data.rs:130-256 | no walk has more pages than rows plus one |
| `Pager.WalkContinues` | crates/graphql/src/query/data.rs:232-254 | a page with a next page carries a cursor, which can be followed exactly when its last id has no slash |
| `Pager.CompleteWalkIff` | crates/graphql/src/query/data.rs:130-298 | the rows can be walked to the end exactly when no page that others follow ends on an id with a slash |
| `Pager.ZeroPageSizeIsStuck` | crates/graphql/src/query/data.rs:237-254 | a page size of zero claims a next page without a cursor |
| `Pager.SelectRows` | crates/graphql/src/query/data.rs:130-150 | the two cursor conditions together select the rows between the two ids, and fail exactly on an undecodable cursor |
| `Pager.QueryPage` | crates/graphql/src/query/data.rs:157-268 | limits, direction and offset of the query, and the page of a cursor query or of a plain one |
| `Pager.ForwardAnswer` | crates/graphql/src/query/data.rs:120-268 | without an offset a forward query, with or without a page size, is the fetch after its cursor |
| `Pager.BackwardAnswer` | crates/graphql/src/query/data.rs:120-268 | without an offset a backward query is the fetch before its cursor in ascending order |
| `Pager.ReverseOrdered` | crates/graphql/src/query/data.rs:185-193 | rows in descending order, turned around, are in ascending order |
| `Pager.BackwardShowsUpwards` | crates/graphql/src/query/data.rs:120-268 | a backward query shows, of the rows above its cursor, those with the smallest ids in ascending order, with a next page exactly when more remain |
| `Pager.ListAnswer` | crates/graphql/src/query/data.rs:257-267 | a query with limit and offset only shows the rows from that index on, with flags told by the total count |
| `Pager.FetchMultipleRows` | crates/graphql/src/query/data.rs:120-268 | the trimmed window between its cursors for every combination of arguments without an explicit order; row by row for backward and for limit and offset queries |
| `TypeDependencies.TrimStars` | crates/typed-data/src/typed_data.rs:125-125 | the longest prefix that does not end in a star, followed by stars only |
| `TypeDependencies.TargetIff` | crates/typed-data/src/typed_data.rs:120-125 | a simple field is followed to the type it names before its stars, a parent field to the type it contains |
| `TypeDependencies.GetDependencies` | crates/typed-data/src/typed_data.rs:101-133 | on every type table, recursive ones included, it terminates and adds, without duplicates, types reachable from the name together with all they refer to |
| `TypeDependencies.DependenciesOf` | crates/typed-data/src/typed_data.rs:101-133 | from an empty list the result is exactly the reachable types, each once, the root first; it fails exactly when the root is unknown |
| `Numerals.TextRoundTrip` | crates/typed-data/src/typed_data.rs:466-475 | parsing the decimal text of a number in range gives the number |
| `Numerals.DigitsAre` | crates/typed-data/src/typed_data.rs:466-475 | the sixteen digits in lower and upper case and nothing else |
| `Numerals.FromDigitsIsPositional` | crates/typed-data/src/typed_data.rs:466-475 | a text of digits has the value of its digits times the weights of their places, any other text none |
| `Numerals.HexText` | crates/typed-data/src/typed_data.rs:468-469 | a text after `0x` or `0X` denotes the number with these hexadecimal digits if it is in range |
| `Numerals.DecimalText` | crates/typed-data/src/typed_data.rs:470-471 | a text without sign or prefix denotes the number with its decimal digits if it is in range |
| `Numerals.SignedText` | crates/typed-data/src/typed_data.rs:466-475 | a plus sign is allowed, a minus sign only where negative numbers exist |
| `Schema.UnsignedRanges` | crates/typed-data/src/typed_data.rs:656-670 | the unsigned kinds have the ranges of integers of one, two, four and eight bytes |
| `Schema.WideRanges` | crates/proto/src/schema.rs:209-226 | the two wide kinds have the ranges of integers of sixteen and thirty-two bytes |
| `Schema.SignedRanges` | crates/typed-data/src/typed_data.rs:641-655 | a signed kind splits the range of its width around zero |
| `Schema.TruncateIsRemainder` | crates/proto/src/schema.rs:196-211 | a narrowing conversion keeps the number modulo the width and brings it into range |
| `Numerals.BytesInvert` | crates/proto/src/schema.rs:233-292 | the big-endian bytes of a number have the given length and give the number back |
| `Numerals.CutBytes` | crates/typed-data/src/typed_data.rs:771-783 | cutting the bytes of a number splits it into quotient and remainder |
| `TypedData.HalvesAreBytes` | crates/typed-data/src/typed_data.rs:771-783 | the high and low halves of a 256-bit number are its first and last sixteen bytes |
| `TypedData.HalvesRoundTrip` | crates/typed-data/src/typed_data.rs:493-509 | printing the two halves and parsing them gives the 256-bit number |
| `TypedData.BoolText` | crates/typed-data/src/typed_data.rs:691-695 | the texts true and false, and no others, are booleans |
| `TypedData.JsonNumber` | crates/typed-data/src/typed_data.rs:575-626 | a JSON number that fits 64 bits is taken exactly if it is in range and modulo the width otherwise, any other is refused |
| `TypedData.InsertSets` | crates/typed-data/src/typed_data.rs:719-722 | inserting sets one key and leaves the others alone |
| `TypedData.InsertKeepsOrder` | crates/typed-data/src/typed_data.rs:719-722 | keys keep their order and a new one goes to the back |
| `TypedData.PrintsIff` | crates/typed-data/src/typed_data.rs:716-787 | printing fails exactly when an enum to be printed has not selected one of its options |
| `TypedData.FixedSizeIsNotParsed` | crates/typed-data/src/typed_data.rs:568-573 | a fixed-size array prints like an array, but only a boolean can be parsed into it |
| `TypedData.MemberIndexIsFirst` | crates/typed-data/src/typed_data.rs:482-486 | a field goes to the first member of its name |
| `TypedDataAcceptance.ParsesIff` | crates/typed-data/src/typed_data.rs:477-714 | parsing succeeds exactly when the schema accepts the value: known fields, matching lengths, fitting numbers, a named option, texts that denote |
| `TypedDataAcceptance.StructParsed` | crates/typed-data/src/typed_data.rs:480-490 | an object sets exactly the members its fields name, each from its own type, and leaves the others alone |
| `TypedData.ParseInvertsPrint` | crates/typed-data/src/typed_data.rs:477-787 | parsing the printed form of a value back into its schema gives the value with absent primitives filled in |
| `ProtoCodec.PrimitiveRoundTrip` | crates/proto/src/schema.rs:187-292 | a primitive decodes to itself with an absent value set to its default, two's complement and field elements included |
| `ProtoCodec.WireForm` | crates/proto/src/schema.rs:233-292 | 128-bit numbers travel as 16 bytes, 256-bit numbers and field elements as 32, all others as numbers |
| `ProtoCodec.DecodedNumber` | crates/proto/src/schema.rs:187-231 | a decoded number is in the range of its kind and agrees with the sent one modulo the width or the prime |
| `ProtoCodec.DecodedOption` | crates/proto/src/schema.rs:131-144 | a decoded enum option fits a byte and agrees with the sent one modulo 256 |
| `ProtoCodec.DecodesIff` | crates/proto/src/schema.rs:85-333 | a message decodes exactly when every type and primitive is set and byte strings of numbers have the length of their kind |
| `ProtoCodec.DecodeInvertsEncode` | crates/proto/src/schema.rs:65-333 | encoding succeeds exactly without fixed-size arrays, and decoding gives the value with absent parts set to defaults |
| `ProtoCodec.NormalIdempotent` | crates/proto/src/schema.rs:131-292 | setting absent parts to defaults twice changes nothing more |

## Left out

- Handler panics and semaphore closing: a `JoinError` returns early and detaches running tasks; handlers here return Ok or Err.
- `topo_sort` and the internals of petgraph, DashMap, LinkedHashMap and tokio: their documented behaviour is assumed, with hash iteration order an arbitrary parameter.
- The write-behind executor: storage calls report their outcome when they are made, whereas the source queues some of them and only logs a later failure (crates/sqlite/sqlite/src/executor/mod.rs).
- Controller sync and any other writer that commits the same transaction; the engine loop is the only committer.
- A supply diff for a token without a stored row, which is an error in the source, and failures of the balance query, which show up as a processing error.
- Engine.DoInv: the registration of a token is one atomic step here; the lock protocol behind it is proved in `TokenRegistration` and linked in `RegistrationRefinement`, but its steps do not interleave with the entry updates of the same engine run.
- Engine.LoopHeadIsClean: block and transaction processors, preconfirmed blocks and the head test are not modelled; an event is a token transfer, and a model is registered in storage and cache in one step by any handler.
- Back-off delays, polling sleeps and metrics of the engine loop.
- Metadata download, its semaphore and retries in token registration: only success or failure remains.
- ErcLedger.ErcCache.Touch: the assign operators of the integer appear as the write-back of one entry; a 256-bit overflow is an abort value.
- LevelExecution.NextInv: `process_tasks` is a transition system and not a method, because its tasks interleave.
- AcyclicDigraphMaps.AcyclicDigraphMap.TopoSortByLevel: node keys are looked up in a second pass over the levels, the source does it while it releases a level.
- TaskManagers.HandleTask: a processor is its three answers for an event; what it does to storage and cache is modelled elsewhere or not at all, and an event without keys, which panics, does not occur.
- TypedData.ParseInvertsPrint: parsing is modelled on values, so the partly rewritten schema left behind by a failed parse is not captured; floating-point JSON numbers are missing.
- TypedData.ParseInvertsPrint: values with fixed-size arrays, which the parser refuses, do not conform to any schema.
- Text forms of field elements beyond decimal and hexadecimal, and the text of error messages.
- Type sorting and formatting in `encode_type`, hashing of values and messages, signatures.
- Pager.FetchMultipleRows: an explicit order is not modelled, and keys and filters have already selected the rows; the walk lemmas are about queries without an offset.
- Pager.CursorRoundTripIff: the base64 layer around a cursor is assumed to be invertible.
- JsonSanitizer.SanitizeJsonString: the backslash counter is unbounded, a 32-bit integer in the source.
- Flat proto conversions, ABI helpers, configuration, command line, servers and clients: mostly one-function facts.
