# A verified model of the durable agent harness

The harness runs agent submissions durably: a submission is admitted to a session, claimed under a
lease, driven by an agent that streams events into a canonical record log, parked while spawned children
run, and settled exactly once, across crashes of the process. This project models that machinery in Dafny
and proves what it promises.

Three parts, each in the form its source has:

- **The durable submission protocol.** `Submissions.dfy` is the compare-and-set table of one row,
  `Store.dfy` the in-memory store as a class over maps and sequences, `Sqlite.dfy` the guarded updates of
  the SQL store. `Calls.dfy` proves fencing, head of line and the attempt budget over every history of
  store calls. `Settlement.dfy` is the settlement protocol at the granularity of single store calls, with
  any number of settling runs, startup finalizers, cascades, reclaims and replayed wakes in flight, aborts
  and crashes; `SettlementSafety.dfy` and `SettlementTheorems.dfy` prove it safe, `Authorship.dfy` traces each
  record to the payload it carries, and `PrematureResume.dfy`
  and `Races.dfy` hold the runs that fail. `Coordinator.dfy` has the coordinator's whole functions as
  methods, each proved against a specification function; `WaitTheorems.dfy`, `Recovery.dfy` and
  `Cascade.dfy` prove what those achieve, `Tidiness.dfy` that they keep record ids distinct, and
  `Granularity.dfy` that the two granularities agree. `Spawn.dfy` is `taskTool`, the spawning of children.
- **The event-sourced conversation.** `Reducer.dfy` folds the log into a parent-pointer tree and refines it
  to a list machine; `Projection.dfy` is the transcript and compaction; `Dangling.dfy` reconciles calls a
  crash left open.
- **Kernels.** `Deltas.dfy` (batching), `Offsets.dfy` and `Stream.dfy` (bisected reads, the event stream),
  `Backoff.dfy` (int64 delays), `CallIds.dfy` (identifier derivation).

Identifiers are abstract numbers with 0 for the empty string; a record id's order is the order of ULIDs, and
a counter stands for the ULID source. Times are integers. A drive of the agent is an oracle.

## Hypotheses, stated where they are used

- `Distinct`: record ids of a log are non-empty and pairwise distinct. Without it the walk of the active
  path may not end (`WalkEndsUnlessIdRepeats`, `RacingSpawnRecordsLoop`).
- `Increasing`: ids increase in append order; only for offset reads. Pre-minted spawn record ids can break
  it (`LateRecordIsNeverRead`).
- An attempt id is minted fresh for each claim, and a claim names a submission that some `ListRunnable`,
  however old, returned (`Calls.Legal`).
- Only settling actors reserve, finalize and write settled records (`Settlement.Allowed`).
- A child's conversation is not its own parent's (`Settleable`, `Replayable`, `Apart`, `OwnConversation`): the
  child's instance is derived from the call. Nothing is asked of the conversations of different submissions.
- `Tidy`, for the two recovery loops, of the rows they settle: all record ids were minted so far, the log of
  each such child is `Distinct`, and the spawn record id minted ahead for its call is either still unused in
  the parent's log or the call has its record; different calls have different ones. The loops keep it.
- `SoleCall`: no other child of the conversation was spawned under the child's call. `OwnCall`: nor did another
  party answer it. Both only where outcomes are traced to their authors.

## Where the code and its documentation differ

The model follows the code.

- A comment at `subagent.go:350-356` calls in-memory duplicates of a spawn record benign; with a repeated id on
  the active path `ActiveLeafPath` does not terminate.
- `wake.go:25-28` says the parent is requeued once its last unsettled child settles. Between the listing of
  the children and the resume, the parent may admit another child and park; the resume then succeeds with
  that child unsettled (`PrematureResumeHappens`). And the expiry of the parent's wait may cancel a queued
  child before the wake lists it; the resume then succeeds before the expiry has answered that child
  (`CancelledChildIsUnanswered`). `ResumeFindsAllAnsweredIff` says that these two are all the ways, for children
  that share their call with no other child, as long as no unlisted child is amid its own settlement and no
  child that another party's cancel closed was taken up by a settlement or wake.
- `engine.go:451-512` writes attempt markers; the budget check reads only `AttemptCount`.
- A branch summary whose `EndIdx` is past the end keeps the whole transcript.
- `sessionBusy` reads four listings, one after the other. A resume or release between them makes it miss an
  unsettled submission, so a stream may close early (`StreamClosesEarly`); what it has delivered is still as
  `CloseDeliversSettled` says.
- The two stores answer one call differently: `sqlite/sqlite.go:436-438` returns its read error for the claim
  of a missing submission, where `memory/memory.go:167-170` says that it is not found.

## Model

| member | source | states |
|---|---|---|
| `MemoryStore.MemoryStore.EnsureConversation` | memory/memory.go:48-57 | the first conversation of a key is kept; later candidates are ignored |
| `MemoryStore.MemoryStore.AppendRecords` | memory/memory.go:73-78 | one conversation's log grows by the records; nothing else changes |
| `MemoryStore.MemoryStore.GetSubmission` | memory/memory.go:126-134 | the row, or not found |
| `MemoryStore.MemoryStore.AdmitSubmission` | memory/memory.go:98-110 | a new id joins the rows and the admission order; a known id adds nothing and yields the stored row, or a conflict when its input differs |
| `MemoryStore.MemoryStore.ReadRecords` | memory/memory.go:82-94 | the bisection loop of sort.Search, on any log, sorted or not |
| `MemoryStore.MemoryStore.ListRunnable` | memory/memory.go:138-160 | the one-pass scan with a set of headed sessions returns the list that the SQL query describes |
| `StoreModel.SelectRunnable` | sqlite/sqlite.go:404-415 | the rows selected are the queued ones whose sequence number is the least of an unsettled row of their session |
| `StoreModel.ScanIsInOrder` | sqlite/sqlite.go:404-415 | the list has the rows in admission order, each once, at exactly the positions of the rows that are queued while every earlier row of their session is settled |
| `Records.FilterKeepsOrder` | memory/memory.go:199-209 | the other listings have the rows that satisfy their condition in admission order, each once, and leave none out |
| `MemoryStore.MemoryStore.ListByStatus` | memory/memory.go:199-209 | the rows of a status, in admission order |
| `MemoryStore.MemoryStore.ListChildSubmissions` | memory/memory.go:330-340 | the rows of a parent, in admission order |
| `MemoryStore.MemoryStore.ListExpiredLeases` | memory/memory.go:252-263 | the running rows whose lease is not after now |
| `MemoryStore.MemoryStore.ListExpiredWaits` | memory/memory.go:344-355 | the waiting rows with a bounded wait that is not after now |
| `StoreModel.LapsedWaitsAreListed` | memory/memory.go:344-355 | a waiting row is listed as lapsed exactly when it has a deadline and that is not after now |
| `MemoryStore.MemoryStore.ClaimSubmission` | memory/memory.go:164-195 | one compare-and-set; the stored row drops PendingResume, the returned one still carries it; missing rows and lost claims are told apart |
| `MemoryStore.MemoryStore.RenewLease` | memory/memory.go:235-248 | compare-and-set fenced by the attempt |
| `MemoryStore.MemoryStore.ReleaseSubmission` | memory/memory.go:267-286 | compare-and-set fenced by the attempt; an empty error keeps the last one |
| `MemoryStore.MemoryStore.WaitSubmission` | memory/memory.go:290-308 | compare-and-set fenced by the attempt; the parked row is pending resume |
| `MemoryStore.MemoryStore.ResumeSubmission` | memory/memory.go:312-326 | only a waiting row goes back to the queue |
| `MemoryStore.MemoryStore.CancelSubmission` | memory/memory.go:359-381 | queued and waiting rows settle, a running row is flagged, a terminal row is left alone |
| `MemoryStore.MemoryStore.ReserveSettlement` | memory/memory.go:385-398 | compare-and-set fenced by the attempt |
| `MemoryStore.MemoryStore.FinalizeSettlement` | memory/memory.go:402-419 | terminalizing rows settle; settled rows stay; others are refused |
| `Sqlite.UpdateIsCompareAndSet` | sqlite/sqlite.go:431-460 | for every call, the guarded UPDATE leaves the table exactly as the compare-and-set of the in-memory store does |
| `Sqlite.StoresAnswerAlikeIff` | sqlite/sqlite.go:431-476 | an update affects at most one row, and the two stores give the same answer (done, lost, missing) to a call if and only if it is not the claim of a missing id, which the SQL store answers with its read error |
| `Submissions.TransitionEvolves` | memory/memory.go:164-419 | no call changes a row's identity, unsettles it, takes back a terminal status or a cancel request, or lowers the attempt count |
| `Calls.RunKeepsInv` | memory/memory.go:98-419 | over every history: a running attempt id is unique and was minted, rows ahead of a listed row are settled, and rows never listed are untouched |
| `Calls.DecisionsArePermanent` | memory/memory.go:164-419 | over every history of store calls, later calls take back no settlement, terminal status, cancel request, attempt count or record |
| `Calls.HeadOfLine` | memory/memory.go:138-195 | in every reachable state, a row behind an unsettled row of its session is queued (or was cancelled while queued) and was never claimed |
| `Calls.ClaimHitsTheHead` | engine.go:451-512 | a claim succeeds only on the oldest unsettled row of its session, however stale the scan that named it |
| `Calls.RetiredForever` | memory/memory.go:235-308 | an attempt that owns no running row never owns one again |
| `Calls.LostAttemptChangesNothing` | engine.go:175-217 | once a row was released, parked, reserved or reclaimed from an attempt, no later renew, release, wait or reserve by that attempt changes any row |
| `Calls.ReservedAtMostOnce` | memory/memory.go:385-398 | over any history at most one reservation of a row succeeds, so at most one attempt drives it to terminalizing |
| `Calls.AttemptCountCountsClaims` | memory/memory.go:174-194 | AttemptCount equals the number of successful non-resume claims |
| `Calls.RunsUnderItsClaim` | memory/memory.go:164-248 | in every history a running row is under the attempt and owner of the claim that took it, with the lease of the last renewal since, or of the claim; only renewals and cancel requests hit it in between |
| `Calls.WaitsUntilItsDeadline` | memory/memory.go:290-326 | in every history a waiting row waits until the deadline of the park that suspended it, and nothing hit it since |
| `Calls.ErrorsAreKept` | memory/memory.go:267-286 | in every history the error on a row is the one a release or cancel gave it, and releases without an error keep it |
| `Calls.LeasesBelongToRunningRows` | memory/memory.go:235-381 | in every history a queued or waiting row holds no attempt, owner or lease, and only a waiting row has a deadline |
| `Calls.ParksPayForResumes` | memory/memory.go:290-326 | each park pays for at most one claim that carries PendingResume |
| `Calls.BudgetIsDurable` | engine.go:559-578 | across crashes, releases, parks and resumes, the non-resume claims that pass the budget check number exactly min(claims, budget) |
| `Settlement.RunsAreHistories` | engine.go:879-909 | every run of the settlement protocol is a history of store calls, so the theorems over histories hold of it |
| `SettlementSafety.RunKeepsInv` | engine.go:125-168 | the invariant of settlement and wake holds after every interleaving of store calls, aborts and crashes |
| `SettlementTheorems.SettledAtMostOnce` | engine.go:911-959 | in every run a submission has at most one settled record, in its own conversation, and none while it is open |
| `SettlementTheorems.ThroughSettlementExactlyOnce` | engine.go:879-909 | a row that reached settled through terminalizing has exactly one settled record, whatever crashes lay between |
| `SettlementTheorems.RecordedPayloadIsFinal` | engine.go:919-959 | a recorded payload never changes |
| `Authorship.PayloadHasItsSource` | engine.go:144-168 | in every run each recorded payload is the one that a reservation of its row brought, or the indeterminate failure of a recovery, or the failure of a cancel |
| `Authorship.BeginsOnce` | engine.go:887-890 | in every run a row is reserved, or settled by a cancel, at most once |
| `Authorship.SettledAsReserved` | engine.go:879-952 | in every run the record of a reserved row carries the payload of that reservation, unless the process crashed after it; then it may carry the indeterminate failure, and nothing else |
| `SettlementTheorems.WakeCarriesTheRecordedPayload` | wake.go:134-168 | what a settling actor hands to the wake is the recorded payload, and the outcome it appends tells that payload and an answer the child's active path had: the error flag, the result or else the text of the last completed message, and for a failure the error, its code and that text |
| `SettlementTheorems.ResumeFindsTheListedAnswered` | wake.go:107-118 | when a wake's resume succeeds every child it listed has its outcome in the parent's log, except one a cancel closed under the open parent |
| `SettlementTheorems.ResumeFindsAllAnswered` | wake.go:25-132 | every child has its outcome at the resume when each was listed or is settled, and none was cancelled under the open parent |
| `SettlementTheorems.OutcomesHaveAuthors` | wake.go:71-105 | in every run an outcome in a log was appended by another party or is that of a child under this call whose settlement or wake had begun |
| `SettlementTheorems.BegunIsTerminal` | engine.go:879-907 | in every run a row whose settlement or wake had begun is past its reservation, or closed, ever after |
| `SettlementTheorems.UnansweredUntilBegun` | wake.go:71-105 | in every run a child whose settlement or wake never began has no outcome, if its call is its own: no other party answered it and no other child has it |
| `SettlementTheorems.ForeignIsAnswered` | engine.go:284-330 | in every run a call that another party answered stays answered |
| `SettlementTheorems.OpenChildIsUnanswered` | wake.go:71-105 | in every run a child neither reserved nor closed has no outcome, if its call is its own |
| `SettlementTheorems.ResumeFindsAllAnsweredIff` | wake.go:107-118 | let no other child have the call of a child that the wake did not list or that another party's cancel closed, let no unlisted child be amid its own settlement, and let no closed child have been taken up by a settlement or wake: then the resume finds every child answered if and only if no unlisted child is open and no child was closed by another party's cancel, save those whose call another party answered; without the last two hypotheses an escaped child is still unanswered unless it is one they name |
| `PrematureResume.PrematureResumeHappens` | wake.go:107-124 | the first failing input: a run in which the parent is resumed while a child admitted after the listing is queued and unanswered |
| `PrematureResume.CancelledChildIsUnanswered` | engine.go:266-282 | the second: a run in which the expiry of the wait cancels a queued child, the wake lists it as settled, and the parent is resumed with that child unanswered |
| `SettlementTheorems.RunKeepsWakes` | engine.go:894-907 | in every run, a parent that waits with all children settled has a wake of a settled child in flight, unless it parked when none was, or the last one died, or a cancel closed the last child |
| `SettlementTheorems.LastFinalizerWakesTheParent` | engine.go:894-907 | once every child is settled and no wake of a settled child is in flight, the parent does not wait, whatever crashes came before the last finalization, unless it parked after the last of those wakes, the last of them died, or a cancel closed the last child; a later finalization, reclaim or backstop wake under that parent lifts the exceptions |
| `Granularity.SoloIsAStep` | wake.go:25-132 | a step of an actor alone is its step in the protocol |
| `Granularity.WakeAloneIsWakeParent` | wake.go:25-132 | the store calls of a wake, taken without interruption, have the effect of wakeParent as a whole |
| `Granularity.SettlementAloneIsComplete` | engine.go:879-959 | the store calls of a settlement, taken without interruption, have the effect of record, wake, finalization and second wake as a whole |
| `Coordinator.Coordinator.SpawnRecordRepair` | subagent.go:361-413 | appends the spawn record named by the child's ParentRef unless one names the call or there is no ParentRef |
| `Coordinator.Coordinator.ChildSpawnRecordId` | subagent.go:292-311 | the first conversation_created record decides |
| `Coordinator.Coordinator.FinalAssistantText` | wake.go:170-187 | the last completed assistant message on the active path |
| `Handoff.FinalTextIsTheAnswer` | wake.go:170-187 | the text of a completed message of the path that no later completed message follows, and nothing when the path has none |
| `Handoff.ContentTells` | wake.go:134-168 | a success tells its structured result, or else the answer; a failure begins with its error, names its code and ends with the answer |
| `Handoff.ParentRefIsTheFirst` | subagent.go:292-311 | the ParentRef is that of the first conversation_created record, none when that one names none |
| `Coordinator.Coordinator.OutcomeExists` | wake.go:76-93 | whether some outcome in the log names the call |
| `Coordinator.Coordinator.AppendOutcomeOnce` | wake.go:66-105 | unless an outcome names the call, the parent's log ends with one that reports the payload and the child's answer |
| `Coordinator.Coordinator.RequeueAfterLast` | wake.go:107-118 | resumes the parent exactly when every other child is settled |
| `Coordinator.Coordinator.SettledPayloadOf` | engine.go:431-447 | the payload of the first settled record of the submission |
| `Coordinator.Coordinator.WakeParent` | wake.go:25-132 | spawn repair, outcome unless one names the call, requeue after the last child; a terminal parent is left alone, a missing one is an error; an open parent whose call was unanswered gets the report of the child's payload and answer |
| `WaitTheorems.WakeDelivers` | wake.go:25-168 | the log of an open parent whose call is unanswered grows by the missing spawn record of the child, if its id is known, and then one outcome of that call: the parent's submission, a new id, the error flag, and a content that reports the payload and the child's answer |
| `CoordinatorSpec.WakeFrame` | wake.go:25-132 | a wake changes at most the parent's row and the parent's log |
| `Coordinator.Coordinator.PendingSpawnedCalls` | engine.go:394-427 | the two loops compute the open spawned calls, each once, in spawn order |
| `CoordinatorSpec.OpenCalls` | engine.go:394-427 | a call is open exactly when it has a spawn record and no outcome, and no call is listed twice |
| `WaitTheorems.OpenInSpawnOrder` | engine.go:394-427 | the open calls stand in the order of their first spawn records, and none is left out |
| `Coordinator.Coordinator.BackstopWake` | engine.go:355-390 | replays a wake per child once all are settled, and stops where a wanted payload was never recorded |
| `Coordinator.Coordinator.CancelUnsettled` | engine.go:271-282 | cancels each child not yet settled |
| `Coordinator.Coordinator.AnswerPending` | engine.go:284-331 | one expiry error per open call, in spawn order, and no append when none is open |
| `Coordinator.Coordinator.ExpireWait` | engine.go:266-346 | cancels the unsettled children, answers the open calls, resumes the parent |
| `Coordinator.Coordinator.AppendSettledRecordOnce` | engine.go:919-959 | the settled record unless one exists, then the wake with whichever payload is on record |
| `Coordinator.Coordinator.RecordSettled` | engine.go:919-952 | check-then-append of the settled record; what is on record wins |
| `Coordinator.Coordinator.CompleteSettlement` | engine.go:887-908 | record and wake, finalize, wake again with the effective payload |
| `Coordinator.Coordinator.Settle` | engine.go:879-909 | a run that owns its row records its payload, unless an earlier record stands, and settles the row; with a missing parent the row stays reserved and the call fails; a lost reservation changes nothing |
| `Coordinator.Coordinator.FinalizeInterrupted` | engine.go:144-168 | completes an interrupted settlement, as indeterminate unless its record landed |
| `Coordinator.Coordinator.Reconcile` | engine.go:125-138 | completes every terminalizing row in turn, parents and children alike, where the logs walked for those rows are tidy, and keeps them so |
| `Tidiness.TidyComplete` | engine.go:879-959 | for any set of rows with the settled one among them: a settlement keeps the record ids of their logs distinct and minted, and their pre-minted spawn record ids unused or spent on their own call |
| `RecoveryTheorems.ReconcileSettlesTheStuck` | engine.go:121-168 | the pass that `Coordinator.Reconcile` makes where the logs walked are tidy: in a well-formed store without orphans no row is terminalizing afterwards, and each that was is settled with the record from before the crash, or else the indeterminate failure |
| `Coordinator.Coordinator.ReclaimExpired` | engine.go:175-217 | releases expired leases outside this process's active sessions and settles flagged rows cancelled, where the logs of those rows are tidy, and keeps them so |
| `Tidiness.TidyReclaim` | engine.go:175-217 | so does a reclaim |
| `RecoveryTheorems.ReclaimDecides` | engine.go:170-217 | a reclaimed row goes back to the queue, or, when flagged, is settled as cancelled unless an earlier record stands; its dead attempt owns it no more |
| `RecoveryTheorems.ReclaimPassDecides` | engine.go:170-217 | of the running rows a pass takes exactly those whose lease has run out and whose session is not active here, and requeues or settles each; it leaves every other running row as it is |
| `Coordinator.Coordinator.CancelOne` | engine.go:794-812 | a running child is flagged only; a queued or waiting one is settled on record; a lost cancel leaves it |
| `Coordinator.Coordinator.CancelChildren` | engine.go:788-813 | the cascade over the children of a settled parent |
| `WaitTheorems.ExpiryClosesTheWait` | engine.go:259-346 | expiry requeues the waiting parent; its log grows by one error per open call, so each spawned call with at most one outcome has exactly one; every child is settled, terminalizing or flagged; no other log changes |
| `WaitTheorems.ExpiryRow` | engine.go:266-346 | row by row: queued and waiting children settle with the expiry as their error, running ones are flagged, the parent is requeued, and no other row changes |
| `WaitTheorems.ExpiryAnswersInSpawnOrder` | engine.go:284-331 | what expiry appends is one expiry error of the parent for each open call, in the order of the first spawns, under consecutive new ids |
| `WaitTheorems.ExpiryOutcomesAreMinted` | engine.go:300-331 | so ids stay distinct and the parent's path can be walked afterwards |
| `WaitTheorems.BackstopClosesTheWake` | engine.go:348-390 | over a waiting parent whose children are all settled on record, one pass requeues it and appends exactly the outcomes owed, in child order; no other row or log changes |
| `WaitTheorems.BackstopAnswersOnce` | engine.go:355-447 | the pass adds one outcome to each open child call and none to any other call |
| `WaitTheorems.BackstopWaitsForAll` | engine.go:355-390 | while some child is unsettled a pass does nothing |
| `WaitTheorems.BackstopCarriesTheRecordedPayload` | engine.go:429-447 | what an open child call receives reports the child's recorded payload and its answer |
| `WaitTheorems.BackstopAfterWakeIsNoop` | engine.go:348-390 | a pass over a parent already woken changes nothing |
| `WaitTheorems.BackstopIsIdempotent` | engine.go:348-390 | so a second pass right after the first changes nothing |
| `CascadeTheorems.CascadeClosesChildren` | engine.go:778-813 | after the cascade every child of the settled parent is settled, terminalizing or flagged, and nothing decided is taken back |
| `CascadeTheorems.CascadeRecordsTheSettled` | engine.go:834-853 | a child that was queued or waiting is settled by the cascade and is on record as cancelled by its parent, unless an earlier record stands |
| `CascadeTheorems.ChildrenStayClosed` | engine.go:778-813 | every child of the parent stays closed over any further calls that admit none of its children |
| `CascadeTheorems.ClosedIsNeverDriven` | engine.go:526-543 | whatever calls follow, a closed child stays closed, and a claim of it loses or hands over a flagged row that is settled cancelled without a drive |
| `CascadeTheorems.LateIsNeverDriven` | engine.go:579-587 | whatever calls follow, a submission past its durability timeout is settled by any later claim of it, never driven |
| `CascadeTheorems.DrivesAreCounted` | engine.go:553-578 | every drive begun under a non-resume claim is one of those BudgetIsDurable counts, so it is within the budget |
| `Reducer.ReduceRecord` | reducer.go:38-54 | one turn of the loop: the index map, the append, the forward re-parenting |
| `Reducer.ReduceLog` | reducer.go:32-56 | the loop with its index map computes the reduction of any log, repeated ids included |
| `Reducer.ReducedTreesAreLinked` | reducer.go:32-56 | with distinct ids each parent link goes down by index, or up to a compaction root: the measure of the walk |
| `Reducer.ActiveLeafPath` | reducer.go:71-90 | the walk and the in-place reversal terminate and return the chain from root to leaf |
| `Reducer.ReverseInPlace` | reducer.go:86-88 | the swap loop reverses the array |
| `Reducer.ChainIsUnique` | reducer.go:71-90 | there is at most one chain from the leaf |
| `Reducer.TreeRefinesList` | reducer.go:32-90 | for every log with distinct non-empty ids the active path equals the list machine: append; or cut to the kept suffix behind the summary; or nothing, when the kept record is off the path |
| `Reducer.ActivePathOf` | reducer.go:28-90 | Reduce followed by ActiveLeafPath computes the list machine's path |
| `Reducer.PathIsDistinct` | reducer.go:32-90 | the active path repeats no id and holds only records of the log |
| `Reducer.OrdinaryRecordsExtendThePath` | reducer.go:32-90 | records that re-root nothing extend the active path in order |
| `Reducer.WalkEndsUnlessIdRepeats` | reducer.go:71-85 | the walk after an ordinary append ends, at a root or by breaking off at an unknown id, if and only if the path does not already hold a record with that id |
| `Reducer.RacingSpawnRecordsLoop` | subagent.go:350-356 | a spawn record appended twice with one id makes the walk endless |
| `Races.SpawnRecordLandsTwice` | subagent.go:345-356 | a run of the protocol reaches that log: the wake's repair and the event consumer append the same record |
| `Projection.Load` | projection.go:59-79 | the system prompt if any, then the messages of the active path in order |
| `Projection.TranscriptShowsThePath` | projection.go:59-130 | the transcript is the system prompt, if there is one, and then one message for each record of the active path that is not hidden, in order, with the role and content of its kind |
| `Projection.FirstKeptEntryId` | projection.go:175-195 | the counting loop, with records that are no messages in between |
| `Projection.FirstKeptIsTheRecordBehind` | projection.go:175-195 | the id returned for k is that of exactly the record behind Load()[k] |
| `Projection.AppendBranchSummary` | projection.go:135-169 | appends one compaction record naming the first kept entry, and changes nothing else |
| `Projection.CompactionPreservesTranscript` | projection.go:135-169 | for every k: the next Load is system, summary and the old transcript from k on, or, when k names no message to keep, the whole old transcript and then the summary |
| `Dangling.ScanCalls` | engine.go:1219-1260 | the scan keeps call order and the calls still pending |
| `Dangling.SubtractLiveSpawns` | engine.go:1262-1290 | takes out the spawned calls whose child row exists and is unsettled |
| `Dangling.AuthorOutcomes` | engine.go:1295-1306 | one error outcome per call still pending, in call order, under consecutive new ids of the run's submission |
| `Dangling.SynthesizedAreMinted` | engine.go:1286-1306 | the synthesized records are error outcomes of the run's submission, keep ids distinct, and leave a path that can be walked |
| `Dangling.ReconcileDanglingToolCalls` | engine.go:1219-1317 | appends the synthesized outcomes, and nothing when none is pending; with ids minted in order the log stays distinct and walkable |
| `Dangling.PendingIffUnanswered` | engine.go:1229-1252 | a call is pending after the scan exactly when no outcome with its id follows its last occurrence |
| `Dangling.ReconciliationIsComplete` | engine.go:1212-1317 | afterwards every call of the new active path is followed by an outcome with its id or is a spawned call with an unsettled child; the old path is an unchanged prefix |
| `Dangling.LiveChildIsLeftOpen` | engine.go:1262-1290 | no outcome is synthesized for a spawned call whose child is queued, running, waiting or terminalizing |
| `Dangling.ReconciliationIsIdempotent` | engine.go:1212-1317 | a second run over unchanged child rows appends nothing |
| `Dangling.SynthesizedAnswers` | engine.go:1262-1317 | an outcome is synthesized for a call exactly when it is unanswered and not exempt |
| `Dangling.SynthesizedFollowCallOrder` | engine.go:1286-1317 | the synthesized outcomes stand in the order of their calls: one for each occurrence of an open call, with its id and tool |
| `Spawn.TaskTool.Dispatch` | runtime.go:181-266 | conversation ensured and opened with its ParentRef, then the row admitted, in that order; a new row is one level below the caller, under its call and with its prompt |
| `Spawn.AdmittedRowIsTheCalls` | runtime.go:236-249 | every field of a row that a task call admits is the call's: parent, call id, prompt, session, time, and a depth one more than the parent's |
| `Spawn.TaskTool.LiveChildren` | subagent.go:231-240 | counts the unsettled children |
| `Spawn.TaskTool.AdmitCall` | subagent.go:214-285 | replay check first, then the bound, then the dispatch; a replay reuses the recorded spawn id |
| `Spawn.ReplayAdmitsNothing` | subagent.go:219-229 | a replayed call adds no row, even at the bound, and hands back the child admitted first |
| `Spawn.ReplayNamesTheFirstRecord` | subagent.go:271-285 | whatever happened since, a replay names the spawn record id that the first admission named |
| `Spawn.ChildrenAreBounded` | subagent.go:231-248 | over every interleaving of task calls, replays and other calls each dispatch id has at most one row, no parent has more unsettled children than the limit, and no row is deeper than the depth limit |
| `Spawn.ChildrenLieOneBelow` | runtime.go:245-249 | in every run a row without a parent has depth 0, and any other lies exactly one below its parent, which is in the store |
| `Spawn.NestingIsBounded` | subagent.go:17-30 | so no chain of spawns in any run is longer than the depth limit |
| `Spawn.AtTheLimitNoneIsAdmitted` | subagent.go:17-30 | and a submission at the limit has no children |
| `Spawn.OneSpawnRecordPerCall` | subagent.go:313-413 | consumer, park repair and wake repair, each atomic, leave at most one spawn record per call in any order |
| `Spawn.ReconcileSpawnRecords` | subagent.go:433-444 | repairs each child in turn and parks exactly when there are children or pending spawns |
| `Spawn.ParkRepairNamesEveryChild` | subagent.go:415-444 | afterwards every child whose conversation names a spawn record has one in the parent's log, also when its event was dropped |
| `Deltas.SubmissionRun.FlushDeltas` | engine.go:1633-1648 | the buffer becomes one record of its kind, or nothing when empty |
| `Deltas.SubmissionRun.BufferDelta` | engine.go:1615-1630 | flush on kind change, then buffer, then flush on size or age |
| `Deltas.SubmissionRun.ConsumeEvent` | engine.go:1483-1601 | one event, all cases, including suspended calls with and without spawn data |
| `Deltas.SubmissionRun.ConsumeStream` | engine.go:1386-1396 | the drained stream, with the trailing flush |
| `Deltas.BatchingIsLossless` | engine.go:1483-1648 | for every event sequence, flush limit and timing, the authored log merged by adjacent kind equals the log of an unbatched author merged by adjacent kind |
| `Deltas.NoDeltaIsEmpty` | engine.go:1632-1648 | no delta record is empty |
| `Deltas.NothingOvertakesText` | engine.go:1480-1483 | where a non-delta record stands, the log before it shows everything that came before its event and nothing more |
| `Deltas.NoTextIsLost` | engine.go:1483-1648 | the streamed text of each kind, end to end, is in the log after the flush: none lost, repeated or reordered |
| `Deltas.EventIsAuthored` | engine.go:1494-1611 | every other authoring event has its record, right behind the text streamed before it: a tool end its outcome with the tool's flag and content, a suspended call a spawn record, of its own child unless one named the call before, a finished message its text |
| `Deltas.PendingSpawnsAreCounted` | engine.go:1529-1580 | the run parks for exactly as many spawns as calls were suspended |
| `Deltas.BufferIsBounded` | engine.go:1613-1630 | the buffer stays below the limit, and is empty after a fragment that found it stale |
| `Offsets.ReadIsTheFilter` | memory/memory.go:82-94 | on any log, the bisected read equals the filter by id (the SQL read) if and only if no record at or before the offset follows a later one |
| `Offsets.IncreasingReadsExactly` | sqlite/sqlite.go:265-286 | with ids in append order every read is the filter |
| `Offsets.LateRecordIsNeverRead` | subagent.go:248-252 | a record whose pre-minted id is not past the last one is lost to every reader that had caught up, whatever follows |
| `Stream.TailHasNoGaps` | transport.go:120-156 | whatever appends, settlements and crashes interleave, the stream so far is exactly the records past the offset among those seen, in order, without gap or duplicate |
| `Stream.TailIsASegment` | transport.go:120-156 | so it is one contiguous segment of the log |
| `Stream.CloseDeliversSettled` | transport.go:125-147 | a closed stream has delivered the settled record of every submission finalized when its last idle check began, unless it lies before the requested offset |
| `Stream.SessionBusy` | runtime.go:479-492 | taken as a whole, busy means an unsettled submission of the session |
| `Stream.OnlyRequeuesGoBack` | runtime.go:475-492 | the rows of a session that a store call moves back are exactly the one it releases or resumes, if it does |
| `Stream.IdleCheckIsSound` | runtime.go:475-492 | an idle answer from four separate listings is right of every row that was not requeued between them |
| `Stream.OnlyRequeuingEventsGoBack` | runtime.go:475-492 | the rows of a session that a protocol event moves back are exactly the one its single call releases or resumes, if it does |
| `Stream.ClosesIdleIff` | transport.go:120-147 | over every run of the tail loop: when the stream closes, every submission the session had when the last idle check began is settled unless it was requeued during the check, and all of them are settled if and only if the requeued ones are |
| `Stream.IdleCheckMissesAResume` | runtime.go:475-492 | a resume between the second and third listing makes the check answer idle although the parent is queued |
| `Races.StreamClosesEarly` | transport.go:120-147 | a run of the tail loop that closes the stream while the session's parent is queued |
| `Stream.EventStream.Turn` | transport.go:125-147 | one turn of the loop: busy check, read, frames, and when it closes |
| `Backoff.TransientBackoff` | engine.go:1322-1331 | the delay is always in (0, 5s], for every int64 base and every attempt |
| `Backoff.ExactUnlessAliased` | engine.go:1322-1331 | for every positive base and attempt, the delay is min(base*2^(attempt-1), 5s) if and only if the overflowed shift does not leave a remainder between 0 and 5s |
| `Backoff.FirstAttemptWaitsTheBase` | engine.go:1322-1331 | attempts below 1 count as the first, which waits the base, or 5s when the base is not positive or longer |
| `Backoff.BackoffDoublesAndSaturates` | engine.go:1319-1331 | for every base up to 2^32 ns the delay is exact and monotone in the attempt |
| `Backoff.AliasingExists` | engine.go:1326-1330 | it fails for base 2^32+1: attempt 33 waits less than attempt 32 |
| `CallIds.SanitizeCallId` | subagent.go:76-91 | the in-place loop, the bound and the hash suffix |
| `CallIds.Hash` | subagent.go:88-89 | the FNV-1a loop over the raw bytes |
| `CallIds.StepIsInjective` | subagent.go:88-89 | one hash step is injective in the hash and in the byte |
| `CallIds.SanitizedIsSafe` | subagent.go:68-75 | only [A-Za-z0-9_-] and at most 57 bytes |
| `CallIds.SanitizedReads` | subagent.go:68-91 | byte by byte: the first 48 bytes, safe ones as they were and others as a dash, then a dash, then the hash of the whole raw id in hex |
| `CallIds.FnvKnownAnswers` | subagent.go:88-89 | the published FNV-1a test vectors for the empty text and for "a" |
| `CallIds.SanitizedDeterminesHash` | subagent.go:90-90 | equal identifiers come from equal hashes |
| `CallIds.OneByteApartNeverAliases` | subagent.go:68-91 | two raw ids of equal length that differ in exactly one byte never derive the same identifier |

## Left out

- agent-core and the model: prompts, providers, interceptors, structured-result validation, halting at the deadline.
- Observers, logging, attachments, HTTP framing and status codes, JSON encoding, SQL transactions and migrations.
- `StartAttempt` and `ListAttempts`: attempt markers decide nothing in the code.
- The claim loop and the in-process `active` and `runs` maps: claims are calls of any history, which is more general.
- The heartbeat, timers and wake channels: only their effect, a store call at any time, is modelled; there are no liveness claims.
- Store errors: a store call that fails for reasons of its own is an abort of its caller.
- The lock of `taskTool` is modelled by taking one call as one step; `Dispatch` inside it is atomic.
- Coordinator.Coordinator.ReclaimExpired: release and cancel of one row are one step here and in the protocol; between them the source relies on the single claim loop.
- Coordinator.Coordinator.ExpireWait: atomic as a whole; at the granularity of store calls its check-then-append races the wake, as the source says.
- WaitTheorems.BackstopClosesTheWake: for children with a spawn record in the parent's log; without one the source replays with a zero payload.
- CascadeTheorems.CascadeClosesChildren: of a cascade that runs; a settlement completed at startup does not cascade.
- SettlementTheorems.ThroughSettlementExactlyOnce: rows settled by expiry or a cancel outside the cascade have no settled record, in the source too.
- SettlementTheorems.ResumeFindsAllAnsweredIff: an unlisted child amid its own settlement, and a child that another party's cancel closed and that a settlement or wake took up, may or may not have its outcome yet; the rows do not tell. Children that share a call are not covered.
- RecoveryTheorems.ReconcileSettlesTheStuck: of the pass as a total function; that the source's pass returns is proved of tidy logs only, by `Coordinator.Reconcile`.
- Stream.ClosesIdleIff: a submission admitted after the last idle check began may be unsettled at the close.
- CascadeTheorems.ChildrenStayClosed: that a settled parent's run admits no more children is a condition on the calls; a stale run that lost its lease could still call the tool.
- Deltas.BatchingIsLossless: for appends that succeed; a failed append drops the flushed text, in the source too. Record ids and envelopes are not modelled there.
- Backoff.ExactUnlessAliased: positive bases; the claim interval is positive by configuration.
- Decision texts with formatted parts (attempt counts, budgets, durations) are abbreviated to their fixed words.
- `SessionKey` is an abstract number; equal keys of different names are not modelled.
