# LibrAgent core, verified

Dafny models of the parts of LibrAgent whose correctness rests on more than one function: caches
that must agree with what they stand for, protocols whose steps interleave, a migration that may
stop anywhere, and sequence algorithms with an exact answer. `dafny verify dfyconfig.toml` verifies
everything.

Each file is one module.

| module | what it models |
|---|---|
| `MessageGrouping` | messages, groups, the result map, the scan, the cache and one render, as values |
| `IncrementalGrouping` | where the groups lie, the reference plan, and why an edit leaves earlier groups alone |
| `GroupingResults` | what result maps hold, and the lists for which that decides what is shown |
| `GroupingCache` | what the cache holds after any run of edits, and for which lists rendering through it equals rendering from scratch |
| `GroupingHistories` | that the condition is exact: for every other list, a history that makes the two differ |
| `GroupingLayout` | how groups tile the list, the pairing of calls with results, and what duplicate ids break |
| `GroupingShape` | what the groups of a list are, said of the messages' fields alone |
| `GroupingHook` | the hook itself: its loops, its cache record and its copy-on-write map |
| `Trajectory`, `TrajectoryPlacement`, `TrajectoryOrder`, `TrajectoryBuilder` | the ATIF trajectory builder: steps, late and early tool results, orphans; first on values, then in place |
| `TrajectoryFields` | which ids calls and results have, and where they meet, said of the messages' fields |
| `SessionTree`, `SessionCounts` | the descendants of a session, and the memoised recursions that count them |
| `SkillsSync` | the flag-and-notify wait protocol |
| `LogQueue` | the batching log queue with any number of flushes in flight |
| `SessionsMigration` | the rebuild of the `sessions` table, with a failure or crash at any statement |
| `MediaCache`, `MediaPlacement` | the LRU media cache bounded in bytes, and where media of a conversation end up |
| `MediaSources` | which data a shown medium has, and when it is a summary or fails, said of its fields |
| `FilenameSanitizer` | the stages of `sanitizeFilename` on UTF-16 code units, and the one pass that they come to |
| `ContextRanges` | context extraction around matching lines, in three scripts |
| `MarkdownPacking` | Markdown export under a byte budget |
| `Supersession`, `SupersessionFields` | when a persisted message replaces a streaming one, the laws of this order and what it says of the fields |
| `ToolNames` | parsing and recognising `alias__tool` |
| `Wrappers`, `JsText` | an option type, and the white space of JavaScript |

Where the source changes state in place, a class or a method with loops does the same, and its
contract ties it to a function on values; the properties are proved about that function.

## What does not hold

Some plausible claims are false of the code. Each is kept as the code has it, with an input that
shows it and the condition under which it does hold.

- Message grouping: a tool group that is scanned again captures its results a second time under the
  next free keys, and a rebuilt map holds the last result of an id, not the first. A list of distinct
  messages is rendered as from scratch after every history if and only if each call in a tool group
  has, by the group's end, no result, or one and no second call with its id in the group
  (`GroupingHistories.ExactlyWhenRobust`; a concrete list is in `GroupingLayout.DuplicateIdsDiverge`).
  Even otherwise only the results shown can differ.
- Session counts: `queued` and `provisioning` are not added up (lines 122-125). They are exact if and
  only if no session with that status lies deeper than a child (`SessionCounts.ChildrenOnlyIsExactWhen`).
- Log queue: a failed flush puts its entries back without arming the timer. The queue waits without a
  timer exactly after such a failure with no entry since (`LogQueue.StrandedExactlyWhen`).
- Log queue: with two flushes in flight, order may be lost (`LogQueue.TwoFlightsMayReorder`). Throughout
  a run it is kept if and only if flights end in turn: the oldest is delivered, and the newest fails or
  one for which the full queue has no room (`LogQueue.AlwaysInOrderExactlyWhen`). In a run that drops
  nothing the same decides the order at the end (`LogQueue.OrderExactlyWhen`).
- Migration: the copy without `provider` and `model` runs whenever the first copy fails, not only when
  the columns are missing. After a transient failure the rows survive but both columns are empty
  (`SessionsMigration.LossyRun`). Over any number of runs this happens if and only if a run drops a
  table with the columns after its first copy failed (`SessionsMigration.AfterRunsKeeps`); nothing else
  is ever lost.
- Trajectory: the place of a result with a call id matters if and only if two messages declare the id
  (`TrajectoryOrder.AnywhereExactlyWhen`).
- Markdown export: with `maxMessages` 0 all messages are included and yet counted as omitted. The
  counts add up if and only if the limit is absent or at least 1, or is 0 with nothing to include
  (`MarkdownPacking.CountsAddUpExactlyWhen`).
- Supersession: it is not transitive when messages with and without call ids mix. It is transitive
  exactly on the patterns that are not mixed (`Supersession.TransitiveExactlyWhen`), and for messages
  with any ids, some absent or repeated, if and only if each call finds its counterpart directly as
  well as by way of the message between (`Supersession.TransitiveExactlyWhenCarried`).
- Session counts: from a list with a cyclic parent relation the recursion does not end, and from any
  other it does (`SessionTree.EndsExactlyWhenAcyclic`).
- Tool names: the recognisers disagree on `__tool` if the empty string is registered, and only then
  (`ToolNames.RecognisersAgreeExactlyWhen`). An alias that ends in an underscore would not survive
  the round trip although it holds no delimiter (`ToolNames.IndexExactlyWhen`); `isValidServiceAlias`
  rejects it.

## Model

| member | source | states |
|---|---|---|
| GroupingCache.IncrementalEqualsFromScratch | src/hooks/useMessageGrouping.ts:111-389 | after any sequence of renders of any lists with one boundary id, the group ends are those of a render from an empty cache and the groups differ at most in the results they show; if the last list is robust they do not differ, and if its result ids are unique the n = 0 part of the map is exactly call id to result |
| GroupingHistories.ExactlyWhenRobust | src/hooks/useMessageGrouping.ts:111-389 | a list of distinct messages is rendered as from scratch after every history if and only if each call of a tool group has, by the group's end, no result, or one and no second call with its id in the group |
| GroupingHistories.SecondCallBreaks | src/hooks/useMessageGrouping.ts:166-212 | if a group calls an id twice that has one result, a render of the list up to that result makes the next one show it at the second call too |
| GroupingHistories.PrimedBreaks | src/hooks/useMessageGrouping.ts:172-212 | if a called id has two results by the group's end, a render from a map that was rebuilt behind them shows the last one at the first call |
| GroupingHistories.CutHistoryPrimes | src/hooks/useMessageGrouping.ts:168-190 | rendering the list cut behind the group, after a longer one, leaves such a map |
| GroupingResults.UniqueIsRobust | src/hooks/useMessageGrouping.ts:192-212 | unique call ids and unique result ids suffice |
| GroupingShape.GroupsExactlyWhen | src/hooks/useMessageGrouping.ts:214-364 | the groups of a render from an empty cache are exactly those that tile the list as follows. A tool group starts at an assistant message with calls and holds such messages and answers to calls made in it; no later assistant message of it has words, the boundary message lies in its last round, and it stops only before a message that answers none of its calls and declares none, or has words, or comes behind the boundary. An error group is a maximal run of failed results, any other message but a tool message stands alone, and the n-th call with an id shows the n-th result for it |
| GroupingShape.GroupsAreRight | src/hooks/useMessageGrouping.ts:214-364 | the groups so described are those at the places where the scan finds them |
| GroupingShape.GroupEndIsRight | src/hooks/useMessageGrouping.ts:278-323 | the nested loops stop where these conditions say: at words, behind the boundary, or where nothing belongs to the group any more |
| GroupingShape.ToolGroupIsUnique | src/hooks/useMessageGrouping.ts:278-323 | from one start the conditions allow one end only |
| GroupingShape.WordsAre | src/hooks/useMessageGrouping.ts:42-59 | the text test holds if and only if the thinking, or a text or thinking item of the content, has a character that is no white space |
| GroupingShape.MembersAre | src/hooks/useMessageGrouping.ts:278-301 | the messages and calls of a group are those of its assistant messages with calls, in order |
| GroupingShape.GivenAre | src/hooks/useMessageGrouping.ts:327-337 | pairing through numbers of earlier uses gives each call the result whose number among the results for its id is its own among the calls with it |
| GroupingShape.VisibleAreNotHidden | src/hooks/useMessageGrouping.ts:82-90 | what is shown is the list without session context and compaction instructions, as a pass from the front finds it |
| GroupingCache.RenderKeepsValid | src/hooks/useMessageGrouping.ts:115-388 | one render, whatever the edit and whatever the ids, keeps the cache valid: groups are those of the reference plan up to results shown, and in full where robust; every id with results has its plain key, and every key holds a result for its id |
| GroupingCache.ReuseIsMaximal | src/hooks/useMessageGrouping.ts:131-147 | the reuse loop keeps cached groups as long as they end before the divergence, or at it and are single, and stops at the first that does not |
| GroupingCache.ReuseSplits | src/hooks/useMessageGrouping.ts:126-164 | the new list's groups are the reused ones followed by those found from the last reused end, none of which ends before the divergence |
| GroupingCache.RestBeyond | src/hooks/useMessageGrouping.ts:126-147 | a scan resumed where the reuse stops meets no group that ends before the divergence, so no reusable group was given up |
| GroupingCache.ResumesFromCache | src/hooks/useMessageGrouping.ts:166-171 | if the divergence lies after the last cached result, the old map accounts for exactly the results of the stable prefix |
| GroupingResults.RebuildAccounts | src/hooks/useMessageGrouping.ts:172-190 | the map rebuilt from a prefix has the plain key of each id with results there, and holds one of its results at it |
| GroupingResults.RangeAccounts | src/hooks/useMessageGrouping.ts:192-212 | scanning on with a map that accounts for a prefix, some of it scanned again, leaves one that accounts for everything passed |
| GroupingResults.PairedAlike | src/hooks/useMessageGrouping.ts:327-337 | any map that accounts for the messages up to its end lets a robust group show the same results |
| IncrementalGrouping.PrefixReused | src/hooks/useMessageGrouping.ts:126-164 | if two lists agree before the divergence, reusable groups at the start of one are groups of the other too, which goes on from their end |
| IncrementalGrouping.FromScratch | src/hooks/useMessageGrouping.ts:214-388 | from an empty cache and for every list, the scan builds the reference plan, captures every result once and finds the last |
| IncrementalGrouping.CapturedInOrder | src/hooks/useMessageGrouping.ts:192-212 | in a map that starts empty, the entry (id, n) is the n-th result for id, and there are no others |
| GroupingLayout.Tiling | src/hooks/useMessageGrouping.ts:214-364 | groups lie in increasing disjoint ranges and hold exactly their range, covered ids included; a message in no group is a tool message without error |
| GroupingLayout.GuardNeverHolds | src/hooks/useMessageGrouping.ts:247-258 | the guard that would skip capturing a result right behind its call holds at no position that a scan from 0 or from a group end visits |
| GroupingLayout.PairingWithDuplicates | src/hooks/useMessageGrouping.ts:272-345 | the n-th call with an id shows the n-th result for that id that its group consumed, or none if there are fewer |
| GroupingLayout.DuplicateIdsDiverge | src/hooks/useMessageGrouping.ts:166-212 | a list of three messages, two calls of one id and one result among them, that the cached render shows otherwise than the one from scratch |
| MessageGrouping.FirstFree | src/hooks/useMessageGrouping.ts:201-207 | the first key of an id that is not in the map: free, with every smaller one taken |
| MessageGrouping.Divergence | src/hooks/useMessageGrouping.ts:115-123 | the lists agree before it, and differ or one ends at it |
| GroupingHook.Hook.Render | src/hooks/useMessageGrouping.ts:78-396 | a render moves the cache to the specified next one; the map object is the old one if and only if its entries are equal, and the old map is never written |
| GroupingHook.Hook.StartRender | src/hooks/useMessageGrouping.ts:115-190 | the reused groups and the old or rebuilt map are what the specified scan starts with; the map is new exactly if it was rebuilt |
| GroupingHook.Hook.ReuseMap | src/hooks/useMessageGrouping.ts:366-377 | the new map object is given up for the old one if and only if their entries are equal |
| GroupingHook.Hook.FindReuse | src/hooks/useMessageGrouping.ts:115-147 | the two loops find the divergence and the number of reusable groups |
| GroupingHook.Hook.RebuildMap | src/hooks/useMessageGrouping.ts:172-190 | the prefix loop builds a new map and the last index of the prefix |
| GroupingHook.Hook.CaptureResult | src/hooks/useMessageGrouping.ts:194-212 | a result goes under the first free key; a map that was not cloned is left as it is and a new one written |
| GroupingHook.Hook.ScanMessages | src/hooks/useMessageGrouping.ts:214-364 | the scan loop, on arrays and a copy-on-write map, ends where the specified scan ends |
| GroupingHook.Hook.ScanOne | src/hooks/useMessageGrouping.ts:219-363 | one round of the loop is one step of the specified scan |
| GroupingHook.Hook.ScanErrors | src/hooks/useMessageGrouping.ts:223-245 | the inner loop collects a maximal run of failed results and captures them in order |
| GroupingHook.Hook.ScanToolGroup | src/hooks/useMessageGrouping.ts:266-345 | the nested loops collect the group's messages, calls and covered ids up to its specified end, and capture its results |
| GroupingHook.Hook.CollectOne | src/hooks/useMessageGrouping.ts:296-318 | one assistant message of a group and the results behind it, and whether the boundary was hit |
| GroupingHook.Hook.SkipResults | src/hooks/useMessageGrouping.ts:303-318 | the results behind an assistant message that answer the group's calls so far |
| GroupingHook.Hook.PairResults | src/hooks/useMessageGrouping.ts:327-337 | counting the uses of each id pairs the n-th call of an id with the entry (id, n) |
| GroupingHook.AreMapsEqual | src/hooks/useMessageGrouping.ts:66-76 | true if and only if the maps are equal |
| GroupingHook.FilterVisible | src/hooks/useMessageGrouping.ts:82-90 | the messages that are neither session context nor compaction instructions, in order |
| TrajectoryPlacement.Placement | benchmarks/harbor/libragent_agent.py:549-641 | for every message list, the steps are those of the messages that make one, numbered from 1 and never none, and each step's observations are exactly the results placed at it by a rule that looks only at who declares the id and when the result arrives (what the ids are, TrajectoryFields.CallIdIs and SourceIdIs say) |
| TrajectoryPlacement.ProcessFollows | benchmarks/harbor/libragent_agent.py:561-611 | after every prefix of the messages, steps and pending buffer hold the results exactly as that rule places them |
| TrajectoryPlacement.Conservation | benchmarks/harbor/libragent_agent.py:501-632 | the observations of the trajectory are, as a multiset, the results of the tool messages that are not dropped, each once |
| TrajectoryPlacement.OnlyStraysAreDropped | benchmarks/harbor/libragent_agent.py:520-530 | a result is dropped if and only if it has no call id and no agent message precedes it |
| TrajectoryPlacement.Linkage | benchmarks/harbor/libragent_agent.py:501-632 | an observation with a source_call_id sits on an agent step that declares that id |
| TrajectoryPlacement.PendingUndeclared | benchmarks/harbor/libragent_agent.py:501-546 | no built step declares an id that still has pending results |
| TrajectoryPlacement.TakenAmong | benchmarks/harbor/libragent_agent.py:533-546 | popping a step's ids one after another takes each result that waits for one of them once, repeated ids included |
| TrajectoryFields.CallIdIs | benchmarks/harbor/libragent_agent.py:431-433 | a call's id is the stripped text of the first of `id`, `toolCallId` and `tool_call_id` that is truthy, if that is a string that is not blank, and otherwise tool_call_ with the number of its place in the list from 1 |
| TrajectoryFields.SourceIdIs | benchmarks/harbor/libragent_agent.py:506-509 | a tool message answers the stripped text of `toolCallId`, or of `tool_call_id` if that is falsy, and otherwise no call |
| TrajectoryFields.DeclaredAt | benchmarks/harbor/libragent_agent.py:415-444 | a call of an assistant message declares its id at the place that the dicts before it leave |
| TrajectoryFields.NoMoreDeclared | benchmarks/harbor/libragent_agent.py:415-444 | nothing else declares an id |
| TrajectoryFields.DecimalIsNumeral | benchmarks/harbor/libragent_agent.py:433 | the number in a made-up id is written in decimal digits without leading zeros |
| TrajectoryFields.TrimsExactlyWhen | benchmarks/harbor/libragent_agent.py:439 | stripping leaves the stretch of the text between the white space at its ends |
| TrajectoryFields.StepOfMessage | benchmarks/harbor/libragent_agent.py:561-611 | the k-th user, system or assistant message makes step k, of its own source and with the ids it declares |
| TrajectoryFields.NoOtherSteps | benchmarks/harbor/libragent_agent.py:613-641 | there is at most one step more, an agent step without calls at the end, and none unless no message makes a step or no agent message does |
| TrajectoryFields.PlaceWithId | benchmarks/harbor/libragent_agent.py:490-546 | a result with an id belongs to the nearest declaring message before it, or if there is none to the first behind it, or to none if nobody declares the id |
| TrajectoryFields.PlaceWithoutId | benchmarks/harbor/libragent_agent.py:520-530 | a result without an id belongs to the nearest assistant message before it, and is dropped if and only if there is none |
| TrajectoryFields.ResultMeetsCall | benchmarks/harbor/libragent_agent.py:415-546 | end to end: if one assistant message alone has a call with an id, a tool message with that id, wherever it stands, is an observation of that message's step under that id |
| TrajectoryFields.CallAndResult | benchmarks/harbor/libragent_agent.py:549-641 | an assistant message with one call and a tool message for it, in either order, make one agent step with that call and that observation |
| TrajectoryOrder.OrderIndependence | benchmarks/harbor/libragent_agent.py:490-641 | if an id is declared by at most one message, moving its tool message over any stretch of the list changes no step, no step number and no step's observations as a multiset |
| TrajectoryOrder.AnywhereExactlyWhen | benchmarks/harbor/libragent_agent.py:490-641 | a tool message with an id may stand anywhere in the list without changing a step if and only if at most one message declares the id |
| TrajectoryBuilder.BuildTrajectory | benchmarks/harbor/libragent_agent.py:549-641 | the loop over mutable step objects and the pending buffer yields the specified steps |
| TrajectoryBuilder.AddMessage | benchmarks/harbor/libragent_agent.py:561-611 | one round moves steps and buffer to the specified next state |
| TrajectoryBuilder.AttachToolObservation | benchmarks/harbor/libragent_agent.py:501-530 | attaches to the last declaring step, buffers by id, falls back to the last agent step or drops, as specified |
| TrajectoryBuilder.ConsumePendingObservations | benchmarks/harbor/libragent_agent.py:533-546 | moves what waits for the step's ids from the buffer to the step |
| TrajectoryBuilder.FindAgentStepForToolCall | benchmarks/harbor/libragent_agent.py:490-498 | the last agent step that declares the id, found backwards |
| TrajectoryBuilder.StepNode.Add | benchmarks/harbor/libragent_agent.py:483-487 | appends to the observations and changes nothing else of the step |
| TrajectoryBuilder.HostOrphans | benchmarks/harbor/libragent_agent.py:621-632 | orphans go to the last agent step, found backwards, or to a new one at the end |
| TrajectoryBuilder.CloseTrajectory | benchmarks/harbor/libragent_agent.py:613-641 | orphans lose their id and go to the last agent step or a new one, and an empty trajectory gets a step |
| SessionTree.DescendantsSum | src/lib/session-utils.ts:87-92 | in an acyclic list with unique ids, the number of descendants with a status in a set is the sum over the children of themselves and theirs |
| SessionTree.ChildHasFewer | src/lib/session-utils.ts:82-96 | a child has fewer descendants, so the recursion ends |
| SessionTree.EndsExactlyWhenAcyclic | src/lib/session-utils.ts:82-100 | the calls of the recursion from every listed session form finite trees if and only if no session is below itself |
| SessionCounts.BuildChildrenMap | src/lib/session-utils.ts:58-74 | the map gives, for every id, the listed sessions with that parent in order, and has no empty entries |
| SessionCounts.DescendantCounter.Count | src/lib/session-utils.ts:82-96 | the memoised recursion ends, returns the number of descendants and only stores right counts |
| SessionCounts.BuildDescendantCounts | src/lib/session-utils.ts:76-103 | for exactly the listed ids, the count is the number of listed sessions below |
| SessionCounts.StatusCounter.CountStatuses | src/lib/session-utils.ts:111-130 | the same recursion for the six counts by status |
| SessionCounts.BuildDescendantStatusCounts | src/lib/session-utils.ts:105-137 | busy, idle, paused and error count all descendants, queued and provisioning the direct children |
| SessionCounts.ChildrenOnlyIsExactWhen | src/lib/session-utils.ts:119-126 | counting children only is exact if and only if no descendant with that status lies deeper |
| SkillsSync.NeverLost | src-tauri/src/state.rs:188-210 | in every interleaving, a parked waiter that no call has woken means the flag is false or a completer has stored true and not yet notified |
| SkillsSync.ReadyExactlyWhen | src-tauri/src/state.rs:188-198 | after any run the flag is true if and only if every begin has been followed by a store |
| SkillsSync.LoadDecides | src-tauri/src/state.rs:200-210 | a waiter that loads the flag parks if a begin has had no store since, and otherwise returns |
| SkillsSync.ReturnedExactlyWhen | src-tauri/src/state.rs:200-210 | the waiters that have returned are those that loaded the flag at a moment when every begin had been followed by a store |
| SkillsSync.WakesExactlyWhen | src-tauri/src/state.rs:194-210 | a parked waiter can wake if and only if the waiters were notified after it made its future |
| SkillsSync.StoredExactlyWhen | src-tauri/src/state.rs:194-198 | a completer is between its two statements if and only if its last store has had no notification of its own since |
| SkillsSync.ReturnedAfterReadingTrue | src-tauri/src/state.rs:200-210 | a waiter that returned read the flag when it was true and no begin was without a later store |
| SkillsSync.CompletionSettles | src-tauri/src/state.rs:194-198 | after a completion with no begin since its store, the flag is true and no waiter is left unsignalled |
| SkillsSync.EveryWaiterReturns | src-tauri/src/state.rs:188-210 | from then on, without another begin, every waiter can always step and returns within three steps of its own |
| LogQueue.AlwaysSound | src/lib/logger-queue.ts:17-52 | with any number of flushes in flight, enqueued is delivered plus in flight plus queued plus dropped as multisets, the queue holds at most 50, and an armed timer means a non-empty queue |
| LogQueue.TakesOffExactlyAtFifty | src/lib/logger-queue.ts:17-31 | in any run, an entry puts a batch in flight if and only if it makes the queue 50 long or longer; the batch is the whole queue, of 50 or 51 entries, and otherwise the entry waits under a timer |
| LogQueue.TimerTakesAll | src/lib/logger-queue.ts:26-44 | a timer that fires finds entries, and all of them take off |
| LogQueue.FailedComesBack | src/lib/logger-queue.ts:46-51 | a failed batch stands in front of the queue again without as many of its oldest entries as exceed 50 in all |
| LogQueue.OnlyFailedEntriesDropped | src/lib/logger-queue.ts:46-51 | only a failed flush drops entries, and only the oldest of its own batch |
| LogQueue.StrandedExactlyWhen | src/lib/logger-queue.ts:24-50 | a non-empty queue has no timer if and only if a flush failed with none armed and no entry came since |
| LogQueue.OrderKept | src/lib/logger-queue.ts:17-52 | while flights end in turn, with any number of them in flight, what is delivered, flying or queued is in the order of enqueueing, and all of it if none was dropped |
| LogQueue.AlwaysInOrderExactlyWhen | src/lib/logger-queue.ts:17-52 | whatever is dropped, what is left stands in the order of enqueueing at every point of a run if and only if each delivery takes the oldest flight and each failure the newest, or one for which the full queue has no room |
| LogQueue.OrderExactlyWhen | src/lib/logger-queue.ts:17-52 | in a run that drops nothing, the order at the end is that of enqueueing if and only if flights ended in turn in that sense |
| LogQueue.OneFlightIsInTurn | src/lib/logger-queue.ts:33-52 | with at most one flush in flight, flights end in turn |
| LogQueue.TwoFlightsMayReorder | src/lib/logger-queue.ts:33-52 | for any two entries there is a run that delivers the second first |
| LogQueue.Queue.EnqueueEntry | src/lib/logger-queue.ts:17-31 | appends, and flushes at 50 or arms the timer |
| LogQueue.Queue.Flush | src/lib/logger-queue.ts:33-44 | nothing on an empty queue, otherwise clears the timer and puts the whole queue in flight |
| LogQueue.Queue.Delivered | src/lib/logger-queue.ts:46-47 | a flush that succeeds leaves the queue alone |
| LogQueue.Queue.Failed | src/lib/logger-queue.ts:48-51 | a flush that fails puts its entries in front of the queue and keeps the newest 50 |
| SessionsMigration.MigratedKeeps | src-tauri/migration/src/m20260215_000008_add_cascade_delete_to_sessions.rs:33-146 | whatever becomes of each statement, no row and no child row is lost, provider and model exactly if the run drops a table with these columns after its first copy failed, and a completed run leaves only the cascading `sessions`, both indexes and foreign keys on |
| SessionsMigration.AfterRunsKeeps | src-tauri/migration/src/m20260215_000008_add_cascade_delete_to_sessions.rs:33-146 | the same over any number of runs, each stopped anywhere: provider and model are lost if and only if one of the runs does that |
| SessionsMigration.DropsExactlyWhen | src-tauri/migration/src/m20260215_000008_add_cascade_delete_to_sessions.rs:130-131 | the condition under which a run drops the table holds if and only if the old table is gone afterwards |
| SessionsMigration.KeysOnExactlyWhen | src-tauri/migration/src/m20260215_000008_add_cascade_delete_to_sessions.rs:64-146 | however a run ends short of a crash, its connection has foreign keys on again, except if it switched them off and switching them on failed |
| SessionsMigration.DropTakesChildren | src-tauri/migration/src/m20260215_000008_add_cascade_delete_to_sessions.rs:64-131 | with foreign keys on, dropping the table would delete exactly the child rows whose session it holds, which is what the switch prevents |
| SessionsMigration.NoFaultsCompletes | src-tauri/migration/src/m20260215_000008_add_cascade_delete_to_sessions.rs:33-146 | without faults a run completes and copies every row in full |
| SessionsMigration.FailedCopyStrips | src-tauri/migration/src/m20260215_000008_add_cascade_delete_to_sessions.rs:117-127 | if only the first copy fails, the run completes and every row has lost provider and model |
| SessionsMigration.LossyRun | src-tauri/migration/src/m20260215_000008_add_cascade_delete_to_sessions.rs:117-127 | one session and one fault with that outcome |
| SessionsMigration.RebuiltKeeps | src-tauri/migration/src/m20260215_000008_add_cascade_delete_to_sessions.rs:66-140 | create, copy, drop, rename and index, with foreign keys off, keep rows and child rows wherever they stop |
| SessionsMigration.RecoveredKeeps | src-tauri/migration/src/m20260215_000008_add_cascade_delete_to_sessions.rs:43-55 | a `sessions_new` left alone keeps its rows and becomes `sessions` with both indexes |
| SessionsMigration.CopiedRows | src-tauri/migration/src/m20260215_000008_add_cascade_delete_to_sessions.rs:102-127 | the two copies leave all rows or, unless one is done, no table to go on with; the simpler form empties provider and model |
| SessionsMigration.Database.Up | src-tauri/migration/src/m20260215_000008_add_cascade_delete_to_sessions.rs:33-146 | the statements, run on the tables, come to the specified database and outcome, and so keep what is said above |
| SessionsMigration.Database.StartUps | src-tauri/migration/src/m20260215_000008_add_cascade_delete_to_sessions.rs:33-146 | start-ups until one completes come to the database after that many runs, complete exactly if one did |
| SessionsMigration.Database.EventuallyCompletes | src-tauri/migration/src/m20260215_000008_add_cascade_delete_to_sessions.rs:33-146 | after any faulty runs one without faults completes, with every row, and provider and model unless one of the faulty runs lost them |
| SessionsMigration.Database.Rebuild | src-tauri/migration/src/m20260215_000008_add_cascade_delete_to_sessions.rs:66-140 | the statements of the rebuild, each on the tables, stop where specified |
| SessionsMigration.Database.Recover | src-tauri/migration/src/m20260215_000008_add_cascade_delete_to_sessions.rs:45-50 | renaming and indexing stop where specified |
| SessionsMigration.Database.RecreateSessionsIndexes | src-tauri/migration/src/m20260215_000008_add_cascade_delete_to_sessions.rs:7-29 | both indexes exist when it succeeds, however many existed before |
| SessionsMigration.Database.CopySessions | src-tauri/migration/src/m20260215_000008_add_cascade_delete_to_sessions.rs:104-127 | copies all rows or none; the simpler form empties provider and model |
| SessionsMigration.Database.DropSessions | src-tauri/migration/src/m20260215_000008_add_cascade_delete_to_sessions.rs:130-131 | deletes referencing rows with foreign keys on, and none with them off |
| MediaCache.CacheKept | src/lib/message-preprocessor.ts:170-249 | after any run of hits and updates, keys are distinct and ordered by their last use, and the sizes add up to at most 64 MiB |
| MediaCache.UpdateKeepsLongestSuffix | src/lib/message-preprocessor.ts:170-196 | an update keeps the longest most recent suffix, new entry included, that fits 64 MiB |
| MediaCache.PrunedIsLongest | src/lib/message-preprocessor.ts:170-184 | pruning to any bound keeps the longest suffix that fits it |
| MediaCache.Cache.Prune | src/lib/message-preprocessor.ts:170-184 | the loop, with its byte counter, computes that suffix and keeps the counter equal to the sum of sizes |
| MediaCache.Cache.Update | src/lib/message-preprocessor.ts:186-196 | replaces or adds the entry as the most recent one, then prunes |
| MediaCache.Cache.Load | src/lib/message-preprocessor.ts:217-249 | if bytes depend on the URI alone, a load that no other overlaps equals a direct load; a hit only moves the entry to the end, a miss that succeeds updates, a failure changes nothing |
| MediaCache.AlwaysCoherent | src/lib/message-preprocessor.ts:186-249 | however the hits and updates of overlapping loads come, every entry holds what its URI stands for if every update puts that |
| MediaCache.HitIsDirect | src/lib/message-preprocessor.ts:226-231 | so a hit equals a direct load after any such run |
| MediaCache.DataUriYields | src/lib/message-preprocessor.ts:217-224 | a `data:` URI stands for what lies between its first comma and its second or its end, and without a comma for nothing |
| MediaCache.OthersAreRead | src/lib/message-preprocessor.ts:221-248 | any other URI is read |
| MediaCache.SizeIsThreeQuarters | src/lib/message-preprocessor.ts:166-168 | an entry counts for three quarters of its length, rounded down |
| MediaPlacement.OnlyLatestCarriesMedia | src/lib/message-preprocessor.ts:613-658 | a prepared message with an image or audio block is the last one that had media, even if loading fails |
| MediaSources.ItemExactlyWhen | src/lib/message-preprocessor.ts:348-384 | in the latest message an item is shown with its own data or, having none, its source's; if those are absent or empty with what its URI gives, and if that is empty or there is no URI with what its source's URI gives; it fails if and only if a read so needed throws |
| MediaSources.AttachmentExactlyWhen | src/lib/message-preprocessor.ts:313-346 | an inline attachment is shown with its data, or if there are none at all with what its URI gives; empty data keep the URI from being read |
| MediaSources.ItemIsPayload | src/lib/message-preprocessor.ts:508-535 | an item that can be shown is a payload of just these data, at the place that what is shown before it leaves |
| MediaSources.ItemIsSummary | src/lib/message-preprocessor.ts:532-535 | one that comes empty and whose URIs give nothing is a summary, numbered by the media not shown before it |
| MediaSources.AttachmentIsPayload | src/lib/message-preprocessor.ts:537-548 | so is an inline attachment that can be shown, behind the content |
| MediaSources.AttachmentIsSummary | src/lib/message-preprocessor.ts:550-553 | and one that cannot is a summary, numbered on |
| MediaSources.OwnDataReachTheModel | src/lib/message-preprocessor.ts:613-658 | over a list of messages: data that an item of the last media-bearing message has of its own reach the model as they are |
| MediaSources.UnchangedExactlyWhen | src/lib/message-preprocessor.ts:595-604 | a message with media keeps its content as it was if and only if a read that it needs throws |
| MediaSources.HistoryIsSummaries | src/lib/message-preprocessor.ts:508-535 | in every other message each media item is a summary, numbered by the media before it, and no read can fail it |
| MediaSources.StoredIsListed | src/lib/message-preprocessor.ts:505-506 | each stored attachment, and no other, is listed in the hints, in order |
| MediaPlacement.EachMediumOnce | src/lib/message-preprocessor.ts:508-592 | if nothing throws, payloads and summaries together are as many as media items and inline attachments, summaries are numbered 0, 1, 2 and so on, and the other items keep their order |
| MediaPlacement.BlockInPlace | src/lib/message-preprocessor.ts:515-530 | a content item that is shown stands, as itself or as its payload, right behind what the items before it became |
| MediaPlacement.SummaryInPlace | src/lib/message-preprocessor.ts:532-535 | a media item that is not shown has the summary whose number counts those before it |
| MediaPlacement.InlineInPlace | src/lib/message-preprocessor.ts:537-548 | an inline attachment that is shown stands, as its payload, right behind the content and the attachments shown before it |
| MediaPlacement.InlineSummaryInPlace | src/lib/message-preprocessor.ts:550-553 | one that is not shown has the summary whose number counts the items and attachments not shown before it |
| MediaPlacement.PrepareMessage | src/lib/message-preprocessor.ts:477-604 | the early exit, the loops and the fallback on an exception yield the specified content |
| MediaPlacement.PrepareContent | src/lib/message-preprocessor.ts:508-535 | the content loop yields the specified blocks and numbered summaries, and throws if and only if some item's loading does |
| MediaPlacement.PrepareAttachments | src/lib/message-preprocessor.ts:501-570 | the attachment loops go on numbering where the content loop stopped, and throw if and only if some attachment's loading does |
| MediaPlacement.FindLatestMedia | src/lib/message-preprocessor.ts:622-638 | the backward pass finds the last message with media, or -1 |
| MediaPlacement.PrepareMessages | src/lib/message-preprocessor.ts:613-658 | every message is prepared, the one found above with its media |
| FilenameSanitizer.SanitizeIsClean | src/lib/workspace-sync-service.ts:60-140 | for every name and every normalization, the result has 1 to 200 units and is base or base.ext with a base free of dots, unsafe characters, white space, double and edge underscores, and an alphanumeric lower-case extension |
| FilenameSanitizer.SanitizeIsOnePass | src/lib/workspace-sync-service.ts:60-140 | on a name of at most 200 units, normalized, all stages together are one pass: the words before the last dot, with one underscore for whatever unsafe characters, white space, underscores and dots stand between two of them, or "file" if there are none; then, if any, a dot and the letters and digits behind it in lower case; cut at 200 units |
| FilenameSanitizer.LongNameIsCut | src/lib/workspace-sync-service.ts:129-140 | a longer name is that pass over the first 200 units of what replacing its runs leaves |
| FilenameSanitizer.PrepareAtOnce | src/lib/workspace-sync-service.ts:64-76 | replacing unsafe characters, white space and repeated underscores one after another is replacing runs of any of them at once |
| FilenameSanitizer.StrippedIsWords | src/lib/workspace-sync-service.ts:88-91 | replacing the runs and stripping the ends leaves the words with one underscore between them |
| FilenameSanitizer.FixedExactlyWhenClean | src/lib/workspace-sync-service.ts:129-140 | a name that normalization leaves alone is left alone if and only if it is clean in that sense |
| FilenameSanitizer.SanitizeIdempotent | src/lib/workspace-sync-service.ts:129-140 | sanitizing twice is sanitizing once, if normalization leaves the first result alone |
| FilenameSanitizer.PrepareFacts | src/lib/workspace-sync-service.ts:64-78 | after the first stages no unsafe character, white space or double underscore is left, within 200 units |
| FilenameSanitizer.BaseFacts | src/lib/workspace-sync-service.ts:88-91 | the cleaned base has no dot and no edge underscore, is not empty, and is no longer than before unless it is "file" |
| FilenameSanitizer.FinalFacts | src/lib/workspace-sync-service.ts:104-112 | the final stage turns what the parts leave into a clean name, the cut to 200 included |
| ContextRanges.FindMatchRanges | scripts/extract_context.py:21-51 | with any sorted rearrangement for the sort in line 43, the merged ranges are sorted, leave at least one line between neighbours, and cover exactly the lines within `context` of a match |
| ContextRanges.ExtractByPattern | scripts/manage-logs.js:50-78 | the same of the second form of the merge |
| ContextRanges.MergeRanges | scripts/extract_context.py:42-51 | merging into the last range covers exactly what the windows cover, in canonical form |
| ContextRanges.MergeKeepingOpen | scripts/extract_logs.py:58-68 | merging with an open range covers exactly what the windows cover, in canonical form |
| ContextRanges.CanonicalUnique | scripts/extract_context.py:42-51 | canonical range lists that cover the same lines are equal |
| ContextRanges.ExtractsUnique | scripts/extract_logs.py:44-68 | so the three scripts give the same ranges |
| ContextRanges.SortIsNoOp | scripts/extract_context.py:43 | any sorted rearrangement of the windows is the list as it was |
| MarkdownPacking.MessagesToMarkdown | src/lib/message-markdown.ts:230-284 | the content is the notice, if any, and the longest start of the message window that fits the budget; truncation and omitted count follow, and a truncated export begins with the notice |
| MarkdownPacking.Pack | src/lib/message-markdown.ts:249-272 | the running counter is the byte length of the joined sections, and no longer start of the list fits |
| MarkdownPacking.CountsAddUpExactlyWhen | src/lib/message-markdown.ts:240-262 | included and omitted add up to the eligible messages if and only if the limit is absent, at least 1, or 0 with nothing eligible |
| MarkdownPacking.WindowIsNewest | src/lib/message-markdown.ts:240-247 | with a limit of at least 1 the window is the newest messages, as many as the limit allows |
| MarkdownPacking.FilterEligible | src/lib/message-markdown.ts:236-238 | the filter keeps, in order, what `shouldIncludeMessage` admits |
| MarkdownPacking.LeftOutExactlyWhen | src/lib/message-markdown.ts:39-54 | wherever a message stands, it is left out if and only if it is streaming, a system message that was not asked for, or from compaction or recovery, and the others keep their places |
| MarkdownPacking.BodyJoins | src/lib/message-markdown.ts:249-272 | the body of two stretches of messages is their bodies with a rule of three hyphens, blank lines around it, between them |
| Supersession.SelfExactlyWhen | src/lib/message-streaming-supersession.ts:39-158 | a message supersedes itself if and only if it is a timestamped assistant message whose calls with one id agree in name |
| Supersession.Reflexive | src/lib/message-streaming-supersession.ts:108-158 | so it does if its non-empty ids are distinct |
| Supersession.Transitive | src/lib/message-streaming-supersession.ts:12-158 | a superseded snapshot stays superseded by whatever supersedes its successor, unless ids come or go in a mixed pattern |
| Supersession.MixedPatternsBreak | src/lib/message-streaming-supersession.ts:12-94 | each mixed pattern has three messages that break the chain |
| Supersession.TransitiveExactlyWhen | src/lib/message-streaming-supersession.ts:12-158 | for messages whose calls all have distinct ids or all have none, supersession is transitive for a pattern of such messages if and only if the pattern is not mixed |
| Supersession.TransitiveExactlyWhenCarried | src/lib/message-streaming-supersession.ts:12-158 | for any three lists of call ids, supersession is transitive over all messages with these ids if and only if every call finds its counterpart directly as by way of the middle message, and no id on the way hides arguments that count in the end |
| SupersessionFields.SupersededExactlyWhen | src/lib/message-streaming-supersession.ts:96-158 | a persisted message supersedes a streaming one if and only if both are the assistant's, both have a time and the persisted one's is not earlier, its thinking and its joined text begin with the other's, it has as many calls at least, and each streaming call has met its counterpart |
| SupersessionFields.AllMetExactlyWhen | src/lib/message-streaming-supersession.ts:12-94 | the counterpart is the first call with the same id or else the one at the same index; it has the name, if there is one, no other id, and with one id any arguments, otherwise arguments that begin with the other's |
| SupersessionFields.NotBeforeExactlyWhen | src/lib/message-streaming-supersession.ts:4-10 | the time is that of the update if it is a date or a number other than 0, and otherwise that of the creation |
| SupersessionFields.TextIsJoined | src/lib/message-utils.ts:10-20 | the text is that of the text items one after another |
| SupersessionFields.OtherTextIsKept | src/lib/message-streaming-supersession.ts:143-152 | a streaming message with a character of text that the persisted one does not have there is kept |
| ToolNames.RoundTrip | src/lib/tool-call-utils.ts:105-114 | a registered valid alias and a non-empty tool name, whatever underscores it holds, come back as they were joined |
| ToolNames.ParsedIsWhole | src/lib/tool-call-utils.ts:105-114 | whatever is parsed is the name its parts make |
| ToolNames.IndexExactlyWhen | src/lib/utils.ts:202-216 | the first delimiter of a joined name is the one put there if and only if the alias holds none and does not end in an underscore |
| ToolNames.MatchHasNoDelimiter | src/lib/utils.ts:207-215 | the alias pattern admits neither a delimiter nor a trailing underscore |
| ToolNames.ValidExactlyWhen | src/lib/utils.ts:202-216 | an alias is valid if and only if it is a non-empty string of letters, digits and underscores with no underscore at either end and no two together |
| ToolNames.RecognisersAgreeExactlyWhen | src/lib/tool-call-utils.ts:90-114 | the three recognisers of built-in names agree on all strings if and only if the empty string is no service |
| ToolNames.JoinSplit | src/context/MCPServerContext.tsx:215-220 | joining what was split gives the name back |
| ToolNames.SplitCutsAtFirst | src/context/MCPServerContext.tsx:215-220 | splitting and joining the rest cuts at the first delimiter, as the built-in parsers do |

## Left out

- Message grouping: map keys are pairs of id and number, not strings `id_dupN`, so an id that itself
  ends in `_dupN` is not captured; messages are values with a `ref` for their identity, and none is
  changed in place.
- Message grouping: the boundary id stays the same from render to render, because the cache does not
  record it; React's commit of the cache is part of the render. The fallback of lines 347-356 cannot
  be reached and is not modelled.
- GroupingHistories.ExactlyWhenRobust: speaks of lists in which no message object stands twice; that a
  robust list is shown as from scratch is stated for all lists.
- GroupingLayout.PairingWithDuplicates: states the pairing from an empty cache and for ids with no
  result before the group, because earlier results take the lower numbers.
- Trajectory: message texts, reasoning, metrics, names and arguments of calls, and how a role, an id or
  a text is read from a message that is not well formed beyond what decides its kind.
- SessionCounts.BuildDescendantCounts: asks for unique ids, the primary key of the sessions table; with
  repeated ids the code counts a session once for each path to it. It asks for an acyclic list because
  from any other the recursion does not end.
- SessionCounts.BuildDescendantStatusCounts: asks for the same.
- Session utilities: `filterSessions` and `applyViewedAtToSession`.
- Wait protocol: steps are sequentially consistent, and `notify_waiters` wakes every future created
  before it, as the documentation of tokio's `Notify` promises.
- Log queue: the length of the timer delay and console output; entries are the distinct objects that the
  calls of `enqueue` make.
- Migration: `down`, constraint violations, and what a statement leaves when it fails half-way (it has
  all of its effect or none); each run has a connection of its own, as
  src-tauri/src/lifecycle/database.rs:290-294 sets up, with foreign keys on at first.
- MediaCache.Cache.Load: takes a non-empty URI, which its callers guarantee (lines 324, 354 and 358);
  reading files and fetching are one function of the URI. A load is one step there; overlapping loads are
  the runs of AlwaysCoherent and HitIsDirect.
- Media placement: texts of summaries and hints, MIME types and JSON.
- Filename sanitizer: NFKC is a parameter, about which nothing is taken for granted except where a
  statement says so; writing the file to the workspace is left out.
- Context ranges: negative context, printing, and the match test, which is a parameter.
- Markdown export: formatting and UTF-8 encoding are parameters.
- Supersession: dates that are not a number.
- Elsewhere: `throttlePromise`, the guards on agent responses and the execution-mode helpers, React
  components, Tauri calls, the HTTP and Docker code of the benchmark, and the full-text-search
  triggers.
