# Fusion Local Server, modelled and proved in Dafny

This project models the state-holding parts of the server and proves what they
promise over every run: the production job graph, the chat event log, the token
bucket in front of it, the backup engine with its retention ladder and scheduler,
the archive jobs, and two small algorithms (the fair cut of reference lists and
the part plan of uploads). `dafny verify dfyconfig.toml` checks all of it.

Each component comes in two layers. The values are datatypes with functions
that say what one request does; the main theorems are inductions over sequences of
requests, interleavings or histories of those. Where the source updates objects
in place there is also a class with the source's fields, whose methods are
proved to show, after each call, exactly what the functions say.

**Production** (`Production*.dfy`). A project is a list of jobs, a job a graph
of steps with runs (batches) that freeze the plan. `ProductionGraph` is
reachability; `ProductionPlan` says what each request does; `ProductionInvariants`
and `ProductionBatches` prove that each keeps a job well formed; `ProductionRuns`
has the theorems over sequences; `ProductionRequests` tells each request in its own
words, with the limits written out, and `ProductionLaws` which of them undo each other.
`ProductionObjects`, `ProductionJob` and `ProductionStore` are the objects: slices
are separate objects, so that writing through a pointer into a shared slice would
show, and deep copies and rollbacks are proved to share nothing.

**Chat** (`Chat*.dfy`). `ChatRecords` folds records into a channel,
`ChatStore` is the live channel with its indexes, `ChatInvariants` what always
holds of it, `ChatMeaning` what requests do in their own fields and what a message
shows, told from the log, `ChatLog` the bytes of the log and what a crash leaves of them,
`ChatRecovery` loading, `ChatScan` the second, cheaper replay, `ChatViews` paging,
unread counts and cursors, `ChatRuns` one channel over its whole life with crashes in
it. `RateLimit` is the limiter.

**Backups** (`Backup*.dfy`). `BackupLadder` is promotion and pruning over whole
histories, `BackupSchedule` the multi-hub scheduler, `BackupPaths` and
`BackupVersions` the checks a manifest meets, `BackupSnapshots` writing and
verifying a snapshot, `BackupRestore` restoring it.

**Archives** (`Archive*.dfy`). `ArchiveJobs` is one job's status object,
`ArchiveRuns` every interleaving of runner, cancel calls and timeouts with the
semaphore, `ArchiveRegistry` the registry with its slice compacted in place.

`LocalRefs` and `UploadPlan` are the small algorithms; `Common` holds shared
vocabulary.

Things the code does that its documentation does not say:

- The backup scheduler misses a hub's slot that comes up while another hub's backup is
  still being taken, or when a poke is served just after a slot came up.
  `BackupSchedule.MissedExactly` says exactly when; `LongBackupCostsASlot` is an input.
- A snapshot that verifies clean without warning can still fail to restore over its
  `config.json`: one that is valid JSON but neither an object nor null is refused, and
  one that is null makes the restore panic when the live file holds a client secret
  (`BackupRestore.CleanVerifyMeansRestorable` gives the exact exceptions,
  `NullConfigPanics` an input).
- After a crash that cuts off the message a read cursor stands at, the cursor stays
  where it was and as many of the next messages count as read
  (`ChatRuns.CursorWithinExactly`, `CursorPastLog`, `CountedAsRead`).
- The reference scan sees a last line that lacks just its newline; the replay trims it.
  The two reports differ if and only if that line is one that changes the report
  (`ChatScan.TornLineDiffers`).

What the theorems take as given: a JSON codec whose lines decode to what was
encoded and hold no newline (for logs cut inside a line also that part of a line
decodes to nothing), an injective hash, file writes that happen whole or
not at all, a clock that does not go back (rate limiter, scheduler), ISO weeks and
months that grow with time, days of one length, fresh random job ids for archives,
a positive rate and a burst that is not negative.

## Model

| member | source | states |
|---|---|---|
| `ProductionGraph.Reaches` | production/store.go:1391-1412 | the stack search terminates and answers true exactly when a chain of edges leads from start to target (zero edges included) |
| `ProductionGraph.NewEdgeClosesCycle` | production/store.go:632-638 | adding an edge to an acyclic graph makes a cycle if and only if its end already reaches its start |
| `ProductionGraph.LabelsIrrelevant` | production/store.go:1391-1412 | two edge lists with the same endpoints have the same paths: result labels never change the answer |
| `ProductionGraph.ClosedTraps` | production/store.go:1391-1412 | a set of steps closed under edges holds every step reachable from it, which is why the search may stop when its stack is empty |
| `ProductionInvariants.AddEdgeRefusesExactlyCycles` | production/store.go:603-647 | on a well formed job, when nothing else is wrong with an edge, AddEdge accepts it if and only if the graph with it is acyclic, whatever result it leaves by |
| `ProductionInvariants.AddEdgeKeeps` | production/store.go:603-647 | an accepted edge joins live steps, keeps edges distinct by (from, result, to) and keeps the graph acyclic |
| `ProductionInvariants.DeleteStepKeeps` | production/store.go:568-590 | deleting a step with the edges that touch it keeps the job well formed: no edge is left joining a missing step |
| `ProductionInvariants.RemoveResultKeeps` | production/store.go:797-824 | deleting a result with the edges it routed keeps the job well formed: no edge is left naming a missing result |
| `ProductionInvariants.CreateStepKeeps` | production/store.go:494-531 | a new step keeps the whole invariant: ids, numbers, kinds, edges |
| `ProductionInvariants.EditStepKeeps` | production/store.go:534-564 | every edit inside a step (patch, documents, results, slots) keeps the job well formed, decisions never gaining documents or slots |
| `ProductionInvariants.DeleteEdgeKeeps` | production/store.go:650-665 | removing an edge keeps the invariant |
| `ProductionBatches.FreezeOk` | production/store.go:941-965 | the frozen copy of a well formed plan is well formed, step by step |
| `ProductionBatches.CreateBatchKeeps` | production/store.go:926-985 | creating a run keeps the job well formed |
| `ProductionBatches.DeleteBatchKeeps` | production/store.go:1031-1047 | deleting a run keeps the job well formed |
| `ProductionBatches.FulfillmentAdded` | production/store.go:1056-1110 | the checks of AddFulfillment are what keeps at most one fulfillment per frozen slot |
| `ProductionBatches.EditBatchTraces` | production/store.go:1056-1256 | whatever is asked of a run, its id, number and frozen steps stay |
| `ProductionBatches.EditBatchKeeps` | production/store.go:989-1256 | every edit of a run keeps the job well formed |
| `ProductionBatches.ApplyKeeps` | production/store.go:448-1256 | every request inside a job, with any arguments, takes a well formed job to a well formed job |
| `ProductionRuns.DuplicateOk` | production/store.go:391-428 | a duplicated job is well formed, keeps ids and child counters of the plan, and has no runs |
| `ProductionRuns.RunKeeps` | production/store.go:312-1316 | over every sequence of requests with saves failing anywhere, every job of the project stays well formed, acyclic included |
| `ProductionRuns.FrozenForever` | production/store.go:926-985 | after CreateBatch and any later requests, the frozen steps, plan documents and slots of that run equal the plan at its creation, wherever the run still exists |
| `ProductionRuns.RunRemembers` | production/store.go:941-985 | no sequence of plan and run requests changes what a run froze |
| `ProductionRuns.ApplyNoReissue` | production/store.go:494-985 | an id that was issued and is gone stays gone through any request |
| `ProductionRuns.NeverReissued` | production/store.go:494-985 | over every sequence of requests no step, edge, result, slot, document, run or fulfillment id of a job is issued twice |
| `ProductionTypes.MintedTextInjective` | production/store.go:514-985 | the text of a minted id determines its kind and number, so ids may be compared as (kind, number) |
| `ProductionTypes.MintedTexts` | production/store.go:514-985 | how the store writes ids of each kind |
| `ProductionPlan.CopyName` | production/store.go:438-445 | the name of a duplicate ends with the suffix, begins with as much of the old name as fits, and is as long as the limit allows |
| `ProductionLaws.DeleteEdgeUndoesAddEdge` | production/store.go:603-665 | deleting the edge just added gives back the job, child counter aside |
| `ProductionLaws.DeleteStepUndoesCreateStep` | production/store.go:494-590 | a step created and deleted leaves nothing but the step counter |
| `ProductionLaws.DeleteBatchUndoesCreateBatch` | production/store.go:926-1047 | deleting the run just created gives back the job, run counter aside |
| `ProductionLaws.RemoveUndoesFulfillment` | production/store.go:1056-1139 | removing the document just supplied frees its slot again |
| `ProductionLaws.HideShow` | production/store.go:1210-1256 | hiding twice is hiding once, and showing brings the step back |
| `ProductionRequests.StepCreated` | production/store.go:494-531 | 200 steps at most; a new one comes last, under the next number, with the fields asked for |
| `ProductionRequests.StepPatched` | production/store.go:534-564 | title, description and place are each as given or as before; nothing else changes |
| `ProductionRequests.StepDeleted` | production/store.go:568-590 | exactly the step named goes and the edges that touch it; every other step and edge stays, in order |
| `ProductionRequests.PlanDocAttached` | production/store.go:671-696 | 50 documents at most, never on a decision; a new one comes last |
| `ProductionRequests.PlanDocRemoved` | production/store.go:699-719 | exactly the document named goes, or NotFound |
| `ProductionRequests.ResultAdded` | production/store.go:725-756 | 12 results at most, on decisions alone; a new one comes last |
| `ProductionRequests.ResultUpdated` | production/store.go:759-787 | the result named gets the caption and color given, and nothing else changes |
| `ProductionRequests.ResultRemoved` | production/store.go:797-824 | exactly the result named goes, and the edges that leave by it; the others stay, in order |
| `ProductionRequests.SlotAdded` | production/store.go:829-860 | 50 slots at most, never on a decision; a new one comes last |
| `ProductionRequests.SlotUpdated` | production/store.go:863-896 | the slot named gets the caption, kind and need given, and nothing else changes |
| `ProductionRequests.SlotRemoved` | production/store.go:899-919 | exactly the slot named goes, or NotFound |
| `ProductionRequests.EdgeAddedExactly` | production/store.go:603-647 | an edge is accepted if and only if both steps are there and differ, it leaves a decision by one of its results and any other step by none, no edge has that source, result and target, there are fewer than 400, and no path leads back; it comes last |
| `ProductionRequests.EdgeAcceptedExactly` | production/store.go:603-647 | an edge is accepted if and only if the job with it is well formed |
| `ProductionRequests.EdgeDeleted` | production/store.go:650-665 | exactly the edge named goes, or NotFound |
| `ProductionRequests.RunCreated` | production/store.go:926-985 | 500 runs at most; a new one comes last, planned, with the plan frozen field by field and nothing supplied |
| `ProductionRequests.RunPatched` | production/store.go:989-1027 | name, kind, status and time are each as given or as before; nothing else of the run changes |
| `ProductionRequests.RunDeleted` | production/store.go:1031-1047 | exactly the run named goes, or NotFound |
| `ProductionRequests.DocumentSupplied` | production/store.go:1056-1110 | supplied exactly to a frozen step and a slot of it that has none yet, or to none, 1000 at most, else refused by the first check that fails |
| `ProductionRequests.DocumentWithdrawn` | production/store.go:1113-1139 | exactly the document named goes, or NotFound |
| `ProductionRequests.ReferenceAdded` | production/store.go:1143-1172 | a reference is there once however often it is added, 50 at most |
| `ProductionRequests.ReferenceRemoved` | production/store.go:1175-1201 | exactly the reference named goes, or NotFound |
| `ProductionRequests.StepHidden` | production/store.go:1220-1256 | a frozen step joins or leaves the hidden ones and the others stay in order |
| `ProductionRequests.JobCreated` | production/store.go:335-375 | 500 jobs at most; a new one comes last, empty, under the next number |
| `ProductionRequests.JobDuplicated` | production/store.go:391-428 | the duplicate comes last with the plan, its ids and counters, no runs, and the name cut to fit " (copy)" |
| `ProductionRequests.JobDeleted` | production/store.go:474-489 | exactly the job named goes; a request naming no job is NotFound |
| `ProductionRequests.JobServed` | production/store.go:1284-1316 | a request inside a job changes that job as the job's own request does, and no other |
| `ProductionObjects.Step.AttachPlanDoc` | production/store.go:671-696 | adds the document at the end, or refuses, as the specification of the step says, in place |
| `ProductionObjects.Step.RemovePlanDoc` | production/store.go:699-719 | takes out the named document and keeps the order of the rest |
| `ProductionObjects.Step.AddResult` | production/store.go:725-756 | adds a result to a decision or refuses |
| `ProductionObjects.Step.UpdateResult` | production/store.go:759-787 | writes one result through its pointer; nothing outside the step's own storage changes |
| `ProductionObjects.Step.AddPlaceholder` | production/store.go:829-860 | adds a slot to a step that may have one |
| `ProductionObjects.Step.UpdatePlaceholder` | production/store.go:863-896 | writes one slot through its pointer; nothing outside the step's own storage changes |
| `ProductionObjects.Step.RemovePlaceholder` | production/store.go:899-919 | takes out the named slot |
| `ProductionObjects.Batch.AddFulfillment` | production/store.go:1056-1110 | refuses a missing step, a missing slot and a slot already filled, else appends; the frozen steps stay |
| `ProductionObjects.Batch.RemoveFulfillment` | production/store.go:1113-1139 | removes one fulfillment by id |
| `ProductionObjects.Batch.AddRef` | production/store.go:1143-1172 | adding a reference twice adds it once |
| `ProductionObjects.Batch.RemoveRef` | production/store.go:1175-1201 | removes one reference |
| `ProductionObjects.Batch.SetHidden` | production/store.go:1220-1256 | the collapsed set gains or loses exactly the step |
| `ProductionJob.CopyStep` | production/store.go:1504-1523 | the copy shows the same step and shares no storage with it |
| `ProductionJob.CopyBatch` | production/store.go:1525-1547 | the copy of a run shows the same and shares no storage |
| `ProductionRuns.BatchThere` | production/store.go:926-1256 | the run a request was about is there when it is done |
| `ProductionJob.FreezeSteps` | production/store.go:941-965 | the frozen steps show the plan and share no storage with it |
| `ProductionJob.Job.Copy` | production/store.go:1481-1502 | a deep copy: same value, all storage new, so later writes through either never reach the other |
| `ProductionJob.Job.CheckEdge` | production/store.go:603-638 | the checks before an edge, in order, as the value specification orders them |
| `ProductionJob.Job.AddEdge` | production/store.go:603-647 | the object after AddEdge shows what the specification says of the object before; a refused edge changes nothing |
| `ProductionJob.Job.DeleteStep` | production/store.go:568-590 | in place: the step and its edges go, the rest keep their order |
| `ProductionJob.Job.RemoveResult` | production/store.go:797-824 | in place: the result and the edges it routed go |
| `ProductionJob.Job.CreateStep` | production/store.go:494-531 | in place: the next number and id are used up and the step appended |
| `ProductionJob.Job.CreateBatch` | production/store.go:926-985 | in place: the run is appended with frozen steps of its own storage |
| `ProductionJob.Job.DeleteBatch` | production/store.go:1031-1047 | in place removal of a run |
| `ProductionJob.Job.Perform` | production/store.go:448-1256 | for every request, object and value specification agree, and only the job's own or new storage is written |
| `ProductionStore.ProjectFile.Clone` | production/store.go:1552-1559 | the rollback copy shows the same file and shares no storage with it |
| `ProductionStore.ProjectFile.CreateJob` | production/store.go:335-375 | the job is appended under the next number, or the full file refuses |
| `ProductionStore.ProjectFile.DuplicateJob` | production/store.go:391-428 | the duplicate equals the specification's and shares nothing with the original |
| `ProductionStore.ProjectFile.DeleteJob` | production/store.go:474-489 | removes the job and no other |
| `ProductionStore.ProjectFile.GuardJob` | production/store.go:1284-1316 | the guard inside one job: the new value on success, the snapshot put back on a refusal or a failed save |
| `ProductionStore.ProjectState.Mutate` | production/store.go:312-329 | whatever the body and the save do, memory equals disk when it returns: the new file on success, exactly the old one otherwise |
| `ProductionStore.ProjectState.MutateJob` | production/store.go:1284-1316 | the same for a request inside one job; the returned copy shares no storage with memory |
| `ProductionStore.ProjectState.ServeOne` | production/store.go:312-1316 | one request, served by objects, is the specification's Serve |
| `ProductionStore.ProjectState.BatchRequest` | production/store.go:926-1256 | a request about a run answers with a copy of that run which shares no storage with memory |
| `ProductionStore.ProjectState.ServeAll` | production/store.go:312-1316 | any sequence of requests ends with memory equal to disk equal to the specification's Run; copies of a job and of a run handed out before are untouched by all of it |
| `ChatStore.Channel.CreateMessage` | chat/store.go:444-505 | appends one record and updates messages, both indexes, next number and reply counters to the fold of the longer log; a known client id returns its message and writes nothing; a failed write changes nothing |
| `ChatStore.Channel.EditMessage` | chat/store.go:509-537 | the state stays the fold of the log; deleted and missing messages are refused |
| `ChatStore.Channel.DeleteMessage` | chat/store.go:541-566 | tombstones the message, lowers its root's counter, and stays the fold of the log |
| `ChatStore.Channel.AddReaction` | chat/store.go:584-606 | a second like reaction writes nothing; else the state is the fold of the log |
| `ChatStore.Channel.RemoveReaction` | chat/store.go:609-628 | an absent reaction writes nothing; else the state is the fold of the log |
| `ChatMeaning.PostAnswered` | chat/store.go:444-505 | a post is refused exactly when its body, client id, channel or root is bad; a known client id is answered with its message; any other post becomes the newest message, field for field as asked, counts on its root, and changes no other message |
| `ChatMeaning.EditAnswered` | chat/store.go:509-537 | only body and edit time of a live message change; which edits are refused, and how, spelled out |
| `ChatMeaning.DeleteAnswered` | chat/store.go:541-566 | the message loses body and reactions, its root one reply, no other message anything; a second deletion writes nothing |
| `ChatMeaning.ReactAnswered` | chat/store.go:584-606 | the reaction comes last on the message, unless its user has it there already |
| `ChatMeaning.UnreactAnswered` | chat/store.go:609-628 | exactly the user's own reaction with that emoji goes |
| `ChatMeaning.ShownFromLog` | chat/jsonl.go:137-196 | in every reachable channel a message shows what the log says of its number: its creation, deleted if a deletion names it, its body as last written, and a reaction if it came after all that took it away |
| `ChatMeaning.TombstoneKept` | chat/jsonl.go:150-193 | no record, whatever the log holds, brings a deleted message back |
| `ChatStore.Channel.Load` | chat/jsonl.go:137-196 | building the channel record by record gives objects that show Replay of the records, both indexes and counters included |
| `ChatStore.Channel.ReplayOn` | chat/jsonl.go:150-193 | one record of any other kind than create takes the objects from the fold to the fold |
| `ChatRecords.StoreLogPrefix` | chat/store.go:444-628 | every prefix of a log the store can write is one it can write |
| `ChatRecords.StoreLogAppend` | chat/store.go:444-628 | the record a request leads to, appended, gives a log the store can write |
| `ChatInvariants.StepKeeps` | chat/store.go:444-628 | every request keeps numbers, indexes, threads, counters and bodies right |
| `ChatInvariants.ReachableWellKept` | chat/jsonl.go:137-196 | in every reachable channel message i has number i+1, threads are one level deep, each ReplyCount is the number of live replies, a client id names at most one message |
| `ChatInvariants.DeleteCounted` | chat/store.go:541-566 | after a deletion every counter is exact again, and the guard against going below zero never bites |
| `ChatInvariants.PostCounted` | chat/store.go:464-504 | after a post every counter is exact |
| `ChatLog.LogFile.ReplayLog` | chat/jsonl.go:72-124 | returns the records of the whole lines that decode and truncates the file to the end of the last one; a record from a newer build refuses and leaves the file alone; the whole file is kept as a backup exactly when a line was damaged |
| `ChatLog.CutKeepsLines` | chat/jsonl.go:54-124 | of a log cut at any byte, the whole lines left are a prefix of the file |
| `ChatLog.CutParses` | chat/jsonl.go:72-124 | replay of a cut log yields exactly the records whose whole lines survived, and where they end |
| `ChatLog.ReplayIdempotent` | chat/jsonl.go:72-124 | a second replay returns the same records and changes nothing |
| `ChatLog.CrashRecovery` | chat/jsonl.go:54-124 | cut anywhere and reload: the channel is the state after some prefix of the operations |
| `ChatLog.UncutKeepsAll` | chat/jsonl.go:72-124 | an uncut log loses nothing |
| `ChatLog.LineAfterLog` | chat/jsonl.go:72-124 | what replay makes of any line after lines the store wrote: white space is passed over, damage stops it there, a version above 1 refuses, anything else is a record |
| `ChatRecovery.LoadChannel` | chat/store.go:864-876 | a channel loaded from a cut file is consistent with the lines left in it |
| `ChatRecovery.Restart` | chat/store.go:864-876 | a clean restart gives the same messages, indexes, next number and log, in new objects |
| `ChatScan.ScanChannelLog` | chat/docrefs.go:120-183 | on every log the store can write, cut anywhere or not at all, the cheap scan reports what the full replay of the records it sees would; uncut, these are all of them |
| `ChatScan.ScanAgrees` | chat/docrefs.go:120-183 | the scan's table follows the full replay through creates, edits and deletes, edits before a delete included |
| `ChatScan.ReportIsTotal` | chat/docrefs.go:120-183 | the reported count is the sum of reference counts over live messages, and nothing is reported exactly when that sum is zero |
| `ChatScan.TotalTells` | chat/docrefs.go:164-183 | each live message counts as often as it refers to the document, a deleted one not at all |
| `ChatScan.ReportShowsNewest` | chat/docrefs.go:164-183 | the number, author, time and excerpt shown are those of the newest live message that refers to the document |
| `ChatScan.LineScanned` | chat/docrefs.go:141-162 | the scan takes any line that decodes, whatever its version, and passes over any that does not |
| `ChatScan.CutScanExactly` | chat/docrefs.go:141-162 | of a log cut at any byte the scan sees the records the full replay does if and only if what is left after the last whole line decodes to nothing |
| `ChatScan.LinesOfCut` | chat/docrefs.go:141-162 | when part of a line decodes to nothing, a cut that took just a newline is the one case where the scan sees one record more |
| `ChatScan.ReadTable` | chat/docrefs.go:141-162 | the line loop builds the table of all the records the lines decode to |
| `ChatScan.Accumulate` | chat/docrefs.go:164-183 | the second loop turns the table into the report |
| `ChatScan.ShowsExactly` | chat/docrefs.go:164-183 | which records change the report: a post or deletion that refers to the document, or an edit that changes the count or the excerpt shown; reactions never do |
| `ChatScan.TornLineDiffers` | chat/docrefs.go:120-183 | of a log cut at any byte, the report of the scan differs from that of the full replay if and only if the cut took just a newline and the line before it changes the report |
| `ChatScan.NewlineCanBeLost` | chat/jsonl.go:54-64 | every line of every log has such a cut |
| `ChatViews.ListMessages` | chat/store.go:633-661 | the backward scan with its early exit returns the newest page of top-level messages older than the bound, oldest first |
| `ChatViews.PageExactly` | chat/store.go:633-661 | a page holds as many as asked for, 50 when that is none, 200 at most, while there are as many: the newest top-level messages below the bound, in order |
| `ChatViews.TimelineSplits` | chat/store.go:633-661 | asking for what is older than message k of the timeline gives its first k |
| `ChatViews.PagingRebuilds` | chat/store.go:633-661 | paging backward with any limits until an empty page rebuilds the top-level timeline, no gap, no repeat |
| `ChatViews.PagingRebuildsLive` | chat/store.go:633-661 | the same with posts, edits, deletions and reactions between the pages: they hold every message of the timeline the first request met, in order, once |
| `ChatViews.FoldGrows` | chat/store.go:444-628 | every record leaves the numbers and threads of the messages before it alone |
| `ChatViews.UnreadLocked` | chat/cursors.go:119-131 | the loop that stops at the cursor counts exactly the live messages past it |
| `ChatViews.LivePastCounts` | chat/cursors.go:119-131 | the count is the number of messages past the cursor that are not deleted |
| `ChatViews.Moved` | chat/cursors.go:71-89 | a read request never moves a cursor back, reaches what was asked or the newest message, stays within the messages if it was, and leaves a cursor past them alone |
| `ChatViews.Cursors.SetReadCursor` | chat/cursors.go:56-91 | the cursor moves as Moved says; a failed save moves nothing; no other cursor moves; memory and cursors.json keep agreeing |
| `ChatViews.Cursors.UnreadOf` | chat/cursors.go:96-115 | a missing cursor reads as zero |
| `ChatRuns.CursorsAdvance` | chat/cursors.go:56-91 | over any life of the channel, crashes and failed saves included, no cursor ever falls |
| `ChatRuns.CursorWithinExactly` | chat/cursors.go:56-91 | a cursor never passes the newest message, through a whole life of the channel, if and only if at every restart the line that created the message it stands at was not cut |
| `ChatRuns.MarkWithin` | chat/jsonl.go:72-124 | a cut leaves at least as many messages as a cursor counts if and only if it leaves that message's create line whole |
| `ChatRuns.CursorPastLog` | chat/cursors.go:56-91 | one message, read, and a crash that loses the log: the cursor stands at 1 in an empty channel |
| `ChatRuns.CountedAsRead` | chat/cursors.go:119-131 | a cursor left past the end makes exactly as many of the messages posted next count as read as it stands past it |
| `ChatRuns.Live.Request` | chat/store.go:444-628 | any request, put to the live channel, is served as the specification decides |
| `ChatRuns.Live.ServeAll` | chat/store.go:444-876 | any sequence of requests, failed writes, reads, restarts and crash cuts ends with memory equal to the replay of the log, the file equal to its lines, and every cursor the specified one |
| `ChatRuns.RunKeepsLog` | chat/store.go:444-876 | through all of that the log is one the store can write and the channel is well kept |
| `ChatLog.LogFile.Append` | chat/jsonl.go:54-64 | one line more at the end of the file |
| `RateLimit.Limiter.Allow` | chat/ratelimit.go:32-54 | the bucket objects after a call show the specified step, and the answer is its answer |
| `RateLimit.OneCall` | chat/ratelimit.go:32-68 | one call whatever the clock did: the balance in numbers, the answer, and which keys an unknown key meeting 4096 of them sweeps away |
| `RateLimit.Limiter.PruneBuckets` | chat/ratelimit.go:58-68 | deleting while ranging in any order drops exactly the buckets idle for longer than the bound |
| `RateLimit.RateBound` | chat/ratelimit.go:32-54 | for every run whose clock does not go back, a key gets at most burst + rate a second grants in any window, the seconds counted in nanoseconds |
| `RateLimit.GrantedExactlyWhenRoom` | chat/ratelimit.go:32-54 | a call is granted if and only if granting it overruns no window that ends with it |
| `RateLimit.PruningInvisible` | chat/ratelimit.go:37-43 | every answer is that of a limiter that never forgets a key |
| `RateLimit.RestedIsFull` | chat/ratelimit.go:58-68 | a bucket idle for strictly longer than the truncated bound has refilled |
| `RateLimit.RefusedLeavesNoTrace` | chat/ratelimit.go:49-51 | leaving a refused call out of a run changes no later answer, for its key or another |
| `BackupLadder.LadderExact` | backup/gfs.go:24-111 | after any history daily/ is the last 7 daily snapshots, weekly/ the first of each of the last 4 weeks that had one, monthly/ likewise for 12 months, contents included; manual and pre-restore snapshots are never pruned |
| `BackupLadder.TierDecides` | backup/gfs.go:32-49 | looking for this week in the pruned tier answers as looking through every snapshot ever made |
| `BackupLadder.PruneKeepsLast` | backup/gfs.go:64-85 | pruning a tier leaves its newest few |
| `BackupLadder.Tree.TierSnapshots` | backup/gfs.go:89-111 | lists a tier newest first |
| `BackupLadder.Tree.TierHas` | backup/gfs.go:124-135 | true exactly when some snapshot of the tier lies in the period |
| `BackupLadder.Tree.Promote` | backup/gfs.go:24-58 | each tier gains a copy of the newest daily exactly when the period has no entry |
| `BackupLadder.Tree.Prune` | backup/gfs.go:64-85 | each managed tier keeps the names with fewer than keep newer ones; no other tier changes |
| `BackupLadder.Tree.Run` | backup/engine.go:119-188 | one run of any kind, failed ones included, is the specified step |
| `BackupLadder.RunAt` | backup/engine.go:119-188 | a whole run, from what the sources hand over to promotion and pruning, is the specified step |
| `BackupSchedule.TimesOfDay` | backup/schedule.go:14-32 | valid times are the 1440 minutes of the day, each written one way; anything else stands for 03:30 |
| `BackupSchedule.NextRunLeast` | backup/schedule.go:26-38 | NextRun is the least matching moment strictly after now |
| `BackupSchedule.NextScheduled` | server/handlers_backup.go:210-223 | the earliest next slot of the active hubs, or none when no hub is active |
| `BackupSchedule.RunDue` | server/handlers_backup.go:228-255 | the loop over hubs fires those due, in order |
| `BackupSchedule.FiresExactly` | server/handlers_backup.go:228-255 | a wake-up fires each due hub once |
| `BackupSchedule.DueMeansTimeCameUp` | server/handlers_backup.go:228-255 | a hub is due exactly when a moment showing its time lies in the slept interval |
| `BackupSchedule.Scheduler` | server/handlers_backup.go:179-203 | the loop over pokes and timer wake-ups logs the specified fires |
| `BackupSchedule.OncePerSlot` | server/handlers_backup.go:179-255 | over any run no fire is early and no slot is served twice |
| `BackupSchedule.ServedExactlyWhenSleptThrough` | server/handlers_backup.go:179-255 | a slot is served if and only if it came up within the first day of a sleep the timer ended |
| `BackupSchedule.MissedExactly` | server/handlers_backup.go:179-255 | which slots are missed, told by the turn each falls in: ended by a poke, came up during the backups, or more than a day slept |
| `BackupSchedule.EarlyPokeLosesNothing` | server/handlers_backup.go:197-199 | a poke before the planned time costs no slot |
| `BackupSchedule.LongBackupCostsASlot` | server/handlers_backup.go:228-255 | a two-minute backup at 03:30 makes another hub's 03:31 slot go unserved |
| `ArchiveJobs.ArchiveJob.SetCancel` | server/archives.go:117-125 | installs the cancel function; the context of a job already canceled is done at once |
| `ArchiveJobs.ArchiveJob.SetStatus` | server/archives.go:127-133 | moves a live job, leaves a settled one |
| `ArchiveJobs.ArchiveJob.Finish` | server/archives.go:155-167 | the first writer settles the job and is told so; later ones change nothing |
| `ArchiveJobs.ArchiveJob.Cancel` | server/archives.go:171-182 | a live job becomes canceled and an installed context is done |
| `ArchiveRuns.RunKeepsInv` | server/archives.go:115-182 | over every interleaving status fits place, notifications fit status, a canceled job's context is done or about to be, and slots taken are jobs holding one |
| `ArchiveRuns.PreparingBounded` | server/archives.go:306-341 | jobs in preparing never exceed the semaphore |
| `ArchiveRuns.AnnouncedOnce` | server/archives.go:306-341 | at most one notification per job, matching its final status, and exactly one when it ended ready or failed with someone to tell |
| `ArchiveRuns.OutcomeTold` | server/archives.go:306-341 | an address exactly for a ready job, and then the one its run came back with; a message and code exactly for a failed one |
| `ArchiveRuns.SettledForever` | server/archives.go:155-182 | a settled job keeps status, message, address and time through any interleaving |
| `ArchiveRuns.CancelNeverLost` | server/archives.go:115-182 | a cancel that finds a live job wins for ever: canceled, never announced, its context done once nobody is on the way to end it |
| `ArchiveRuns.StampedWhenSettled` | server/archives.go:155-182 | the move that settles a job stamps it with its own time: giving up, settling or canceling |
| `ArchiveRuns.MovableExactly` | server/archives.go:306-341 | when each move can be made: a cancel always, and a slot may be taken though the context is done |
| `ArchiveRuns.NeverStuck` | server/archives.go:306-341 | a runner can always move unless it waits with a live context while every slot is held by a job further along |
| `ArchiveRuns.ErrorAfterDoneCancels` | server/archives.go:306-341 | once its context is done a job whose runner has not yet taken an error for a failure never fails: an error ends it canceled |
| `ArchiveRegistry.Manager.Add` | server/archives.go:210-215 | appends the id and registers the job: the registry goes with a submission of the specification |
| `ArchiveRegistry.Manager.ActiveFor` | server/archives.go:236-251 | true exactly when the session has a live job for the item and version |
| `ArchiveRegistry.Manager.Compact` | server/archives.go:255-297 | writing kept ids over the front of the slice being read loses none and keeps their order |
| `ArchiveRegistry.Manager.ListFor` | server/archives.go:255-277 | drops exactly the jobs of any session that finished more than two hours before, returns the session's jobs in submission order, and goes with a sweep of the specification |
| `ArchiveRegistry.Manager.DismissFor` | server/archives.go:281-297 | drops exactly the session's settled jobs asked for, and goes with a sweep of the specification |
| `ArchiveRegistry.SetStatusOf` | server/archives.go:127-133 | a status set on a registered job moves the registry by that change and no other |
| `ArchiveRegistry.FinishOf` | server/archives.go:155-167 | a registered job finishing moves the registry by that change and no other |
| `ArchiveRegistry.CancelOf` | server/archives.go:171-182 | a registered job canceled moves the registry by that change and no other |
| `ArchiveRegistry.RegistryRuns` | server/archives.go:195-297 | over any run the registry is in submission order and holds every job still live |
| `ArchiveRegistry.GoneExactly` | server/archives.go:195-297 | over any run a job has left the registry if and only if, settled, a listing came more than two hours after it finished, or its own session dismissed it or all |
| `ArchiveRegistry.DismissKeepsOthers` | server/archives.go:281-297 | a dismissal takes nothing of another session's list |
| `LocalRefs.CapLocalRefs` | server/handlers_localrefs.go:146-177 | terminates; a list within 200 comes back whole, a longer one as the fair cut, grouped task, chat, whiteboard, job, batch, no kind that had more to give behind another by more than its turn; of known kinds exactly 200 come back, each kind's a prefix of its own list |
| `LocalRefs.FairUnique` | server/handlers_localrefs.go:155-171 | there is only one fair cut: shares within pools, the cap or everything in all, a kind with more to give never behind another by more than one nor behind a later one at all |
| `LocalRefs.CutExact` | server/handlers_localrefs.go:146-177 | a list of known kinds longer than the cap is cut to exactly 200, and each kind's share is a prefix of that kind's own list |
| `UploadPlan.PlanCovers` | api/upload.go:192-203 | 1 to 25 parts, none planned below 64 MiB, covering the size with the last one starting inside it; parts grow only when 25 of 64 MiB do not suffice |
| `UploadPlan.PlanSized` | api/upload.go:192-203 | parts of 64 MiB while 25 of them suffice, else 25 of the least size that does |
| `UploadPlan.PartRange` | api/upload.go:155-158 | each part's range lies in the file, is non-empty for a non-empty file, and full for all but the last |
| `UploadPlan.RangesMeet` | api/upload.go:155-158 | ranges are contiguous and disjoint |
| `UploadPlan.UploadParts` | api/upload.go:155-178 | the parts of an upload that ends well, put together, are the file; the first failed part ends it |
| `UploadPlan.FitsInt64` | api/upload.go:192-203 | no intermediate value leaves 64 bits for sizes up to 2^63 − 64 MiB |
| `BackupPaths.SafeRelExactly` | backup/verify.go:204-211 | safeRel refuses exactly absolute paths, paths that at some point stand above their start, and paths that end where they start |
| `BackupPaths.ContainedExactly` | backup/restore.go:165-172 | containedJoin accepts exactly what ends inside the root, whatever is joined, and always a path that passed safeRel |
| `BackupPaths.SafeRelNormal` | backup/verify.go:204-211 | an accepted path reads back as itself |
| `BackupPaths.CleanLaws` | backup/verify.go:204-211 | what may be left out of a path anywhere: empty and "." segments, a name with the ".." after it, ".." at the root |
| `BackupPaths.CleanFixed` | backup/verify.go:204-211 | a path with nothing to leave out is clean already; with CleanLaws this fixes what every path cleans to |
| `BackupVersions.ReadVersion` | backup/restore.go:226-251 | the loops read the version the specification does |
| `BackupVersions.VersionReadsBack` | backup/restore.go:226-251 | a dotted version reads back part for part, with or without a v before it, a suffix after it, and spaces around the whole |
| `BackupVersions.PiecesTell` | backup/restore.go:226-251 | how any text is read piece by piece, unreadable ones and numbers of 2^63 or more included |
| `BackupVersions.TextTells` | backup/restore.go:226-251 | spaces around a text and one v before it do not count; what then begins with no digit is no version |
| `BackupVersions.CompareParts` | backup/restore.go:204-223 | true exactly when at the first differing part, missing parts counting as zero, the snapshot has the larger |
| `BackupVersions.NewerIsAnOrder` | backup/restore.go:204-223 | newer is a strict order, and two versions neither newer are equal up to trailing zeros |
| `BackupVersions.FirstDifferenceDecides` | backup/restore.go:204-223 | the larger number at the first difference is newer, whatever follows |
| `BackupVersions.SnapshotNewerThanApp` | backup/restore.go:204-223 | an unreadable version is never newer |
| `BackupSnapshots.Engine.NewSnapshotDir` | backup/engine.go:192-209 | the plain name when it is free, else the least suffix from 2 on that is |
| `BackupSnapshots.Engine.Run` | backup/engine.go:119-177 | a run that fails anywhere leaves no directory, one that succeeds leaves one more, whole, with a manifest of what was written |
| `BackupSnapshots.RunHolds` | backup/engine.go:137-167 | when no file is handed over twice the directory holds each as handed over and nothing else |
| `BackupSnapshots.RunSucceedsExactly` | backup/engine.go:119-177 | a run succeeds if and only if no source fails, every path is safe, none is a directory of another or of the manifest, and the disk takes one write for each and one more |
| `BackupSnapshots.ManifestTells` | backup/engine.go:137-177 | the manifest has version 2, the engine's stamp and the kind, and of each file in order its clean path, source, hash, size and schema |
| `BackupSnapshots.VerifyFile` | backup/verify.go:122-146 | a result is ok exactly when the entry's path is safe, the file is there, hashes and parses right, and its schema is known |
| `BackupSnapshots.CleanExactly` | backup/verify.go:62-119 | a clean snapshot spelled out: each entry there, hashing, parsing and of a known schema, and no file but the manifest unlisted |
| `BackupSnapshots.Engine.ExtraFiles` | backup/verify.go:174-198 | exactly one finding for each file the manifest does not list, each failing |
| `BackupSnapshots.Engine.Verify` | backup/verify.go:62-119 | ok exactly for a clean snapshot; a warning exactly for what the hub check would refuse |
| `BackupRestore.Live.Restore` | backup/restore.go:81-160 | a snapshot that is not restorable, one with a damaged file among them, is refused, and so is any when the safety snapshot fails: the live tree is then as it was; otherwise the safety snapshot is taken first and the writes are the specified ones, as far as the disk takes them |
| `BackupRestore.Live.Check` | backup/restore.go:81-144 | the checks in the source's order, with the first refusal |
| `BackupRestore.ChecksExactly` | backup/restore.go:81-144 | the checks pass if and only if the manifest is there, of version 2 and of this hub, no application version or schema is newer, and every entry but server.json has a safe path and a file that is there under the recorded hash, config.json one that can be merged |
| `BackupRestore.ChecksRefuse` | backup/restore.go:81-144 | the refusal names the first thing wrong |
| `BackupRestore.AcceptedRestores` | backup/restore.go:81-160 | after a restore every listed file but server.json is the snapshot's to the byte, config.json merged, and everything else as it was |
| `BackupRestore.WrittenExactly` | backup/restore.go:150-160 | the writes go through if and only if no destination is a directory of a file there is or of another destination |
| `BackupRestore.RestoreContained` | backup/restore.go:114-129 | from any snapshot, crafted or not, nothing outside the hub's directory changes but config.json; server.json stays |
| `BackupRestore.CleanVerifyMeansRestorable` | backup/verify.go:62-119 | a clean Verify without warning implies that Restore's path, hash, schema and hub checks pass; what can still stop it is, exactly, a newer application version, a config.json that is neither object nor null, and a null one while the live file holds a secret |
| `BackupRestore.SnapshotRestores` | backup/restore.go:81-160 | a snapshot written by Run and restored into the same hub panics exactly when its config.json is null and the live one holds a secret; otherwise it passes every check, brings back every file but server.json and the live secret, and touches nothing else |
| `BackupRestore.NullConfigPanics` | backup/restore.go:178-196 | a snapshot that Run writes, that verifies clean, and at whose restore the merge panics |
| `BackupRestore.SafetyUndoes` | backup/restore.go:146-149 | restoring the pre-restore snapshot brings back what the restore replaced; of config.json every field but the secret |
| `BackupRestore.SnapshotVerifies` | backup/verify.go:62-119 | a snapshot just written verifies clean |
| `BackupRestore.MergeKeepsLiveSecret` | backup/restore.go:178-196 | of a config.json that is an object every field comes from the backup but the secret, which is the live one when there is one |
| `BackupRestore.MergeNoMap` | backup/restore.go:178-196 | null is kept as it is unless there is a secret to write, anything else that is no object is refused |

## Left out

- Timestamps of production entities: no branch of the store depends on them, so they are not fields of the model.
- Validation of names, descriptions, enums and lengths in the production and chat stores: carried as preconditions at most, because it would only add easy members. The name limit of a duplicate is kept.
- The schema stamp that saveFile touches even when the save fails: excluded from the equality of memory and disk after a rollback.
- Load-time repair of hand-edited files, migrations and `.bak` recovery: the model starts from states the code itself produces.
- Go slices' spare capacity: each slice is an object of its own here, so sharing through a common backing array shows as sharing of the object, but append into spare capacity does not. The registry's order slice is the exception: it is an array with room to spare.
- Mine, ListForProjects, ProjectInfo, GetMessage, ListThread, ListMessagesAfter, MessageActivity and the like: plain listings.
- Channel metadata (create, rename, archive, members): UpdateChannel leaves a new name in memory when the topic is then refused (chat/store.go:317-357), so memory and disk may differ there; not modelled.
- ChatStore.Channel.CreateMessage: a short write followed by more appends in the same process is not repaired by the source; a failed append is modelled as writing nothing, and a torn one as a crash followed by a reload. Bodies arrive trimmed.
- ChatScan.ScanChannelLog: the raw-bytes prefilter is taken as never missing a mention.
- Sequence numbers, counters and ids are unbounded integers; the source's are 64 bits wide.
- RateLimit.RateBound: balances are exact reals; rounding of floating point is not modelled.
- BackupLadder.LadderExact: two daily runs in one second are outside the histories it speaks of (their directories differ by a suffix); a directory copy that fails midway, which leaves a directory that counts as promoted, is taken as not happening; foreign directories in a tier are ignored by the source and absent here.
- BackupSchedule.OncePerSlot: hub configurations are fixed during a run, a hub whose stores or engine are unavailable counts as fired, and daylight saving is not modelled.
- ArchiveRuns.NeverStuck: what the generation service does between polls is one step that ends with an address or an error; the file name and format recorded on the way are not fields of the model.
- One live archive job per document version: activeFor and add are two separate steps of the handler (server/handlers_archive.go:77-102), so two requests at once can both pass; no theorem claims otherwise.
- BackupSnapshots.Engine.Run: creation times and the List view are not modelled; promotion and pruning of daily snapshots are in BackupLadder, whose tree and this engine's directories are two pictures of one disk, tied by BackupLadder.RunAt.
- BackupRestore.SnapshotRestores: speaks of sources that hand each file over once, none under the manifest's name, and config.json as the text of a map, as the Source contract asks and the config source does.
- Path text is split at slashes beforehand; Windows separators and volume names are not modelled.
- HTTP handlers, sessions, OAuth, the GraphQL and REST services, notifications, pins, tasks, whiteboards, costs: not part of this model.
