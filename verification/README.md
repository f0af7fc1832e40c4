# Leased publishing over a transactional content store

A Dafny model of a content service: documents with an append-only version history, a pointer to
the public version, scheduled publishing by any number of polling workers, and the HTTP
validators of its admin and public endpoints. `dafny verify dfyconfig.toml` checks all of it.

## Layers

1. **Tables** (`Tables.dfy`): the four tables of `migrations/00001_init.sql` as a value `Db`, with
   the unique, partial-unique and foreign-key rules as predicates.
2. **Transactions** (`Transactions.dfy`): each store transaction as one atomic function on `Db`,
   with the error it returns. `Tx` adds how a transaction can end: it lands, BEGIN fails, COMMIT
   fails, or COMMIT takes effect and still reports an error.
3. **Storage and Workers** (`Storage.dfy`, `Workers.dfy`): class `Store` has the tables as mutable
   fields and a rollback image. It issues the statements one at a time in the order of the Go
   code, each statement checked against the schema, and every public method is proved equal to
   its transaction. Class `Worker` has the claim-then-execute loop, class `Service` the lookup
   followed by a write.
4. **Steps** (`Steps.dfy`): a state machine of one database, worker processes with the jobs they
   hold in memory, and admin requests between their read and their write. Clock readings,
   interleaving, crashes and the end of each transaction are arbitrary; worker ids need not
   differ. `Refinement.dfy` proves that a whole poll cycle of class `Worker` is a sequence of
   these steps.
5. **Theorems over runs**: `Publishing`, `Leasing`, `Draining` (the lease protocol), `Editing`,
   `AuditLog` (history, pointer, log), `PublicView`, `Validators`, `Handlers` (queries and HTTP).
   `RowHistory` tells which step of a run stamped a row last; `AdminView` is the admin response.
   `Columns` tells every transaction in plain columns, and `Delivery` what is served of what was
   written. All rest on one inductive invariant, `Invariants.DbInv`, kept by every step
   (`Steps.StepKeeps`). Most take `indexed`, which says whether the unique index on
   `publish_events(schedule_id)` exists: they hold without it too.

Times are integers (milliseconds), rows are keyed by primary key, and the order of equal `run_at`
values and of the rows of RETURNING is unspecified.

## Main results

- Exactly once, over every run with any workers, crashes, stolen leases and clocks, and without the
  unique index: `Publishing.PublishedExactlyOnce`, `CompletesOnce`, `IndexIsRedundant`.
- A stale worker has no effect: `Publishing.StaleExecuteIsNoOp`, `StaleWorkerHasNoEffect`.
- Cancel is final; what a conflict does and does not mean: `Publishing.CancelIsFinal`,
  `PublishedByCompletion`.
- When leases are disjoint windows, and when nothing is published early, with the exact limits:
  `Leasing.LeasesOverlapWhen`, `NeverEarly`, `ClaimCanBeEarlyWhen`.
- A batch ends the same in any order, whatever becomes of its transactions; undisturbed cycles
  never fail and empty the queue at a known pace: `Draining.OrderDoesNotMatter`,
  `RunEmptiesTheQueue`.
- The imperative worker refines the state machine: `Refinement.TickIsSteps`.
- No lost update, dense immutable histories, and a served tag good exactly until the next edit:
  `Editing.VersionCountsEdits`, `HistoryIsDense`, `Handlers.TokenIsGoodUntilEdited`.
- The audit log replays to the public state: `AuditLog.LogReplaysToPointer`, `EventsAreHonest`.
- Drafts never show: `PublicView.DraftsDoNotInterfere`, `PrivateStep`; and what is published is
  served word for word, newest first, until it is withdrawn: `Delivery.ServedAsWritten`,
  `NewestPublishComesFirst`, `HiddenUntilPublished`.
- Each transaction succeeds, refuses and stores exactly as its columns say: `Columns.CompleteMeans`,
  `CreateScheduleMeans`, `BatchMeans` and the others there.
- Validators, with their exact limits over whole runs and any clocks:
  `Validators.DocumentTagIsExact`, `CollectionTagOverRuns`, `AdminView.AdminTagIsExact`,
  `Handlers.RevalidationIsTransparentWhen`; the tag-list matcher agrees with the grammar:
  `EntityTags.SplittingAgreesWithGrammar`.

## Where the code and its documentation disagree

The code is modelled as it is. Each point has a concrete run in `Counterexamples` and an exact
condition beside it.

- `README.md:386-392` and `internal/httpapi/publish.go:167-169` say that a refused cancel means
  the content is published. It means only that the row was not pending: the claim holder can
  fail or release, and a later cancel can succeed (`ConflictWithoutPublish`). Published it is
  exactly when a holder of the lease executes it and its commit takes effect
  (`Publishing.ExecutePublishesWhen`, `Publishing.PublishedByCompletion`).
- `internal/httpapi/public.go:47-48` calls `updated_at` an exact validator because the pointer
  moves only on publish and unpublish. Edits move `updated_at` too, and a stamp can be written
  twice: by two publishes in one millisecond (`SameMillisecondSameTag`) or by a late commit long
  after (`OldStampReturns`). A changed document has its old tag exactly when the last step that
  rewrote its row wrote the old stamp (`Validators.DocumentTagIsExact`).
- The collection tag, MAX(updated_at), does not change when an older document is withdrawn
  (`UnpublishKeepsCollectionTag`; exactly when: `Validators.UnpublishKeepsTagWhen`), nor when a
  publish with an older reading commits late (`LateCommitKeepsCollectionTag`; exactly when:
  `Validators.StepKeepsCollectionTagWhen`, and over runs `CollectionTagOverRuns`). Because the
  rows and the stamp come from separate queries a new tag can be sent with an old list
  (`SplitReadServesStaleList`; exactly when not: `Handlers.SplitReadIsCurrentWhen`).
- `internal/httpapi/etag.go:10-13` says that admin responses with one tag are identical. The draft
  is; the status, the published version and the dates change with each publish, unpublish and
  completion (`PublishKeepsAdminTag`). They are the same exactly when no such step moved the
  pointer or its stamps, or the last one put them back (`AdminView.AdminTagIsExact`).

More runs show what a property rests on: `TimeOrderIsNotLogOrder` (the newest event made
the pointer exactly when none has a later time: `AuditLog.NewestIsCurrentWhen`),
`ClockBackOverlapsLeases` (exactly when: `Leasing.LeasesOverlapWhen`), and two for publishing
before run_at: `ClockBackPublishesEarly`, by a worker whose clock went back after its claim, and
`ShortLeasePublishesEarly`, in which each completion reads no earlier than its own claim but a
claim with readings out of order left a lease that ended too soon. `Leasing.NeverEarly` excludes
just these two, for the one schedule; a schedule can be claimed early exactly when its last claim
set a deadline before run_at (`Leasing.ClaimCanBeEarlyWhen`).

## Model

| member | source | states |
|---|---|---|
| Storage.Store.Begin | internal/store/tx.go:19-23 | a transaction that cannot begin touches nothing; one that can keeps the image to roll back to |
| Storage.Store.Rollback | internal/store/tx.go:25-34 | every table is as it was when the transaction began |
| Storage.Store.End | internal/store/tx.go:36-45 | commit, or undo all writes of a failed body or commit; a commit that took effect but reported an error is not undone |
| Storage.Store.CreateContent | internal/store/contents.go:39-76 | content and its version 1 land together or not at all; a slug or id clash is ErrSlugTaken |
| Storage.Store.InsertVersion | internal/store/contents.go:79-99 | a version row is appended under a new row id, refused when the number exists |
| Storage.Store.UpdateContent | internal/store/contents.go:112-168 | the version is bumped and its row appended together only if the expected version is current; otherwise not found or version conflict and no change |
| Storage.Store.GetContentWithCurrentVersion | internal/store/contents.go:197-213 | the content with the row of its current number, or not found exactly when the join is empty |
| Storage.Store.GetVersion | internal/store/contents.go:295-307 | a row with that content and number, or not found exactly when there is none |
| Storage.Store.InsertEvent | internal/store/publish.go:137-147 | one audit row under the next id, refused when its schedule already has one |
| Storage.Store.Publish | internal/store/publish.go:27-90 | pointer and event move together, a repeat is a no-op, a foreign or missing version is not found |
| Storage.Store.Unpublish | internal/store/publish.go:94-130 | pointer cleared with an event naming the version withdrawn, a repeat is a no-op |
| Storage.Store.CreateSchedule | internal/store/schedules.go:27-67 | a pending row, unless the version is not the content's, or the content has an active schedule |
| Storage.Store.CancelSchedule | internal/store/schedules.go:112-141 | exactly a pending row is cancelled; otherwise not found or not cancellable and no change |
| Storage.Store.Earliest | internal/store/schedules.go:173-178 | the row with the least run_at, any on a tie |
| Storage.Store.SelectBatch | internal/store/schedules.go:173-179 | due rows, as many as fit, none of them later than a due row left out |
| Storage.Store.ScanJobs | internal/store/schedules.go:187-194 | each returned row becomes one job, none twice |
| Storage.Store.ClaimDueSchedules | internal/store/schedules.go:162-200 | the selected batch and nothing else is leased to the worker, and its jobs are returned only if the commit is reported |
| Storage.Store.CompleteScheduledPublish | internal/store/schedules.go:215-269 | true: pointer, event and closed job together; false or an error: all tables as before, though the lease is checked last (an unreported commit excepted) |
| Storage.Store.FailSchedule | internal/store/schedules.go:278-291 | the lease is given back only if it is still held |
| Storage.Store.ReleaseClaims | internal/store/schedules.go:297-315 | every row leased to the worker becomes pending and they are counted |
| Schema.CompleteKeeps | migrations/00001_init.sql:59-78 | completion leaves no state that the schema forbids |
| Columns.TxMeans | internal/store/tx.go:19-45 | what stays and what is reported for every way a transaction can end |
| Columns.CreateContentMeans | internal/store/contents.go:39-99 | refused exactly when the id or the slug is in use; otherwise both rows column by column |
| Columns.UpdateContentMeans | internal/store/contents.go:112-168 | the three outcomes, each exactly when, and both rows column by column |
| Columns.PublishMeans | internal/store/publish.go:27-90 | the outcomes, each exactly when; the content row, the audit row and the row returned |
| Columns.UnpublishMeans | internal/store/publish.go:94-130 | the same for withdrawing |
| Columns.CreateScheduleMeans | internal/store/schedules.go:27-67 | accepted exactly for a version of the content, an unused id, and no pending or claimed schedule of the same content; each refusal exactly when; the stored row |
| Columns.CancelScheduleMeans | internal/store/schedules.go:112-141 | succeeds exactly on a pending schedule; each refusal exactly when; the row left |
| Columns.ClaimableMeans | internal/store/schedules.go:175-176 | a pending row can be claimed exactly from its run_at on, a claimed one from its deadline on, whatever its attempts, error or stamps |
| Columns.BatchMeans | internal/store/schedules.go:173-178 | the batch in columns, both directions |
| Columns.ClaimMeans | internal/store/schedules.go:166-172 | every column of a leased row, and nothing else changed |
| Columns.JobsMean | internal/store/schedules.go:180-194 | the columns of the returned jobs, each chosen row once |
| Columns.CompleteMeans | internal/store/schedules.go:215-269 | succeeds exactly with known rows, no event under the index, and the row claimed under this worker's id; all four tables then |
| Columns.FailMeans | internal/store/schedules.go:278-291 | every column of the row given back, exactly when it is claimed under this worker's id |
| Columns.ReleaseMeans | internal/store/schedules.go:297-315 | every column of the rows given back, and their number |
| Workers.Worker.Execute | internal/scheduler/worker.go:126-162 | complete; on an error give the lease back, on whatever the database has become; without the lease nothing changes |
| Workers.Worker.ExecuteJobs | internal/scheduler/worker.go:115-117 | each job in turn, each on whatever the database has become |
| Workers.Worker.Tick | internal/scheduler/worker.go:92-118 | claim a batch, then execute all its jobs while others commit in between; nothing follows a failed claim |
| Workers.TickedAlone | internal/scheduler/worker.go:92-118 | without others the cycle is the claim followed by the jobs in sequence |
| Workers.Worker.Run | internal/scheduler/worker.go:74-89 | cycles follow each other, each on whatever the database has become, and the release ends them |
| Workers.Worker.Shutdown | internal/scheduler/worker.go:165-179 | what the worker still holds becomes pending |
| Workers.Service.Publish | internal/content/publish.go:17-30 | not found at the lookup, or publishing by number in the state that the write finds |
| Workers.Service.Schedule | internal/content/publish.go:49-62 | a run_at not in the future is refused first; then as for publishing |
| Workers.Service.Update | internal/content/service.go:96-103 | fields are checked first, then the compare-and-swap with the trimmed fields |
| Fields.NormalizeFields | internal/content/service.go:149-178 | a title is required, the body is kept as it is, and a refusal names a field |
| Fields.NormalizingIsStable | internal/content/service.go:149-178 | sending back stored fields stores the same again |
| Fields.NormalizeFieldsMeans | internal/content/service.go:149-178 | accepted exactly within the limits; every stored field; which field a refusal names |
| Steps.StepKeeps | internal/store/schedules.go:215-269 | every step of any process or request keeps the invariant and only extends the database |
| Steps.RunInv | internal/store/schedules.go:27-315 | the invariant holds in every reachable state |
| Steps.RunExtends | internal/store/contents.go:78-99 | no row is ever dropped; versions and events are never rewritten; schedule targets and times are pinned; done and cancelled are final |
| Refinement.ExecuteAmongIsSteps | internal/scheduler/worker.go:126-162 | the two transactions of a job are steps of the state machine, with anything in between |
| Refinement.AdminCallsAreSteps | internal/content/publish.go:32-75 | create, update, unpublish and cancel are steps that any state allows, and do what their transactions do |
| Refinement.LookupsAreSteps | internal/store/contents.go:294-307 | a lookup answers a row exactly when it is that version, a miss exactly when there is none, and changes nothing |
| Refinement.RequestWritesAreSteps | internal/content/publish.go:17-62 | the write of a request is a step in any state and ends the request |
| Refinement.ProcessesComeAndGo | internal/scheduler/worker.go:74-89 | processes start under any id, crash at any time, and release when they hold no job |
| Refinement.TickIsSteps | internal/scheduler/worker.go:92-162 | what the worker's loop does to the database is a sequence of steps of the state machine |
| Refinement.WorkerStaysReachable | internal/scheduler/worker.go:74-179 | a cycle and a shutdown release lead from a reachable state to reachable states |
| Effects.ScheduleEffects | internal/store/schedules.go:27-315 | all that one step can do to a schedule row |
| Effects.ContentEffects | internal/store/publish.go:27-130 | all that one step can do to a content row |
| Effects.EventEffects | internal/store/publish.go:137-147 | one step appends at most one event, and one with a schedule id only by completing that schedule |
| Publishing.PublishedExactlyOnce | internal/store/schedules.go:202-214 | in every reachable state a schedule has one event if it is done and none otherwise |
| Publishing.CompletesOnce | internal/store/schedules.go:202-269 | at most one completion of a schedule ever takes effect |
| Publishing.CompletedStaysDone | internal/store/schedules.go:241-253 | a completed schedule is done in every later state |
| Publishing.IndexIsRedundant | migrations/00001_init.sql:75-78 | with or without the unique index completion succeeds in the same cases and leaves the same state |
| Publishing.StaleExecuteIsNoOp | internal/scheduler/worker.go:121-158 | executing a job whose lease is not held leaves the whole database equal, on every path |
| Publishing.StaleOutcome | internal/store/schedules.go:229-256 | a stale completion fails on the unique index exactly when the thief is done, and loses the lease otherwise |
| Publishing.StaleStaysStale | internal/store/schedules.go:155-181 | a lost lease comes back only by claiming |
| Publishing.StaleWorkerHasNoEffect | internal/scheduler/worker.go:121-162 | over whole runs a worker without the lease changes nothing, by completing or by failing |
| Publishing.ShutdownLeavesNoLease | internal/scheduler/worker.go:164-174 | after the release no row is locked by that id again unless it claims again |
| Publishing.UniqueWorkerLeavesNoLease | internal/scheduler/worker.go:164-174 | nor ever, if no other process has the id and none is started with it |
| Publishing.UnknownOutcomeIsHarmless | internal/store/tx.go:40-43 | after an unreported completion the release that follows changes nothing, however late |
| Publishing.FinalStatesStay | internal/store/schedules.go:112-117 | done and cancelled rows never change again |
| Publishing.CancelIsFinal | internal/store/schedules.go:105-124 | after a cancel no continuation of the run has an event for the schedule |
| Publishing.ConflictMeans | internal/store/schedules.go:126-139 | a conflict shows exactly that the row was claimed, done or cancelled |
| Publishing.HeldLeaseCompletes | internal/store/schedules.go:215-256 | while the lease is held no constraint fails and completion succeeds |
| Publishing.ExecutePublishesWhen | internal/scheduler/worker.go:126-162 | executing a job publishes it if and only if the lease is held and the commit takes effect |
| Publishing.PublishedByCompletion | README.md:386-392 | from any state on, a schedule is published if and only if a completion took effect in between |
| Publishing.PointersAreOwned | internal/store/publish.go:36-49 | published pointers, schedules and events name versions of their own content |
| Publishing.PublishesThePinnedVersion | internal/store/schedules.go:31-48 | a completed schedule serves and logs the version pinned when it was created |
| Leasing.LiveLeaseIsSafe | internal/store/schedules.go:173-178 | a claim neither changes nor returns a row whose lease has not expired |
| Leasing.ExpiredLeaseIsDue | internal/store/schedules.go:157-178 | a claimed row is up for claiming exactly from its deadline on |
| Leasing.ScheduleRowsAreSound | migrations/00001_init.sql:56-60 | run_at is after created_at, a lease exists exactly while claimed, one active schedule per content |
| Leasing.LeaseWindowsAreDisjoint | internal/scheduler/worker.go:99-102 | along a chain of reclaims each lease starts past every earlier deadline, whatever the clocks of the holders |
| Leasing.LastClaimSetsDeadline | internal/store/schedules.go:166-172 | while a row stays claimed its deadline is the one its last claim set |
| Leasing.LeasesOverlapWhen | internal/scheduler/worker.go:99-102 | a lease never starts inside the one just before it; it can start inside an earlier one exactly when the last claim set an earlier deadline |
| Leasing.NeverEarly | internal/store/schedules.go:173-178 | a schedule has no event before its run_at, if its claims set deadlines no earlier than run_at and its completion reads no earlier than the claim of the same worker; nothing is asked of other schedules |
| Leasing.NeverEarlyOnForwardClocks | internal/scheduler/worker.go:99-102 | nor if the clocks of the workers that handle it do not go back between the readings of a claim and from claim to completion |
| Leasing.PublishIsEarlyWhen | internal/store/schedules.go:218-247 | the event of a schedule is before run_at exactly when the reading of the step that completed it is |
| Leasing.ClaimedSince | internal/store/schedules.go:166-172 | a claimed row has the deadline that its last claim set |
| Leasing.ClaimCanBeEarlyWhen | internal/store/schedules.go:173-178 | in every reachable state a schedule can be claimed before its run_at exactly when it is claimed and its last claim set an earlier deadline |
| Draining.BatchTargetsDistinctContents | migrations/00001_init.sql:56-60 | two jobs of a batch never target the same content |
| Draining.ExecuteHeldJob | internal/scheduler/worker.go:126-162 | the state one job leaves when its lease is held, however its two transactions end |
| Draining.BatchEnds | internal/scheduler/worker.go:115-117 | the whole state a batch leaves, row by row, however the transactions of its jobs end |
| Draining.BatchCompletes | internal/scheduler/worker.go:115-117 | if no commit fails every job is done, its target points at the pinned version, one event each |
| Draining.TickCompletesItsBatch | internal/scheduler/worker.go:92-118 | after an undisturbed cycle every claimed job is done and no other schedule has changed |
| Draining.TickShrinksDue | internal/store/schedules.go:166-181 | an undisturbed cycle takes min(batch, due) jobs off the due set and adds none |
| Draining.DueAfterTicks | internal/scheduler/worker.go:74-89 | how many jobs are due after each cycle |
| Draining.RunEmptiesTheQueue | internal/scheduler/worker.go:74-118 | the worker's loop empties the queue in exactly the rounded-up number of cycles |
| Draining.ChosenWithRoom | internal/store/schedules.go:173-178 | a due row is chosen as soon as the due rows scheduled no later fit in the batch with it |
| Draining.OrphanIsRecovered | internal/store/schedules.go:157-158 | a job orphaned by a crash is published by the next undisturbed cycle past its deadline with room for it and what is due no later |
| Draining.ClaimableIsPublished | internal/store/schedules.go:173-178 | what can be claimed and has room is published by the next undisturbed cycle |
| Draining.GivenBackIsPublished | internal/store/schedules.go:276-315 | a job that failed or was given back at shutdown is pending, and published by the next undisturbed cycle from its run_at on with room for it |
| Draining.OrderDoesNotMatter | internal/scheduler/worker.go:115-117 | executing a batch in another order, with the same readings and the same outcomes (failed and unreported commits included), gives the same tables, up to event ids |
| Editing.HistoryIsDense | internal/store/contents.go:36-76 | the version numbers of a content are exactly 1..current_version |
| Editing.CurrentVersionIsUnique | internal/store/contents.go:197-213 | the join with the current version finds exactly one row |
| Editing.BackstopNeverFires | migrations/00001_init.sql:33-36 | the compare-and-swap alone decides an edit, the UNIQUE constraint never does |
| Editing.NoLostUpdate | internal/store/contents.go:101-121 | of all edits of a content that expect one version at most one takes effect |
| Editing.VersionCountsEdits | internal/store/contents.go:112-147 | current_version - 1 is the number of edits that took effect |
| Editing.SameVersionMeansNoEdit | internal/store/contents.go:101-121 | the version number is unchanged between two states exactly when no edit took effect |
| Editing.WildcardSeesNoOtherEdit | internal/httpapi/admin.go:160-178 | if a wildcard overwrite takes effect, no other edit landed between its read and its swap |
| Editing.PublishIsAtomic | internal/content/publish.go:17-30 | the write of a looked-up version acts as publishing by number at the transaction |
| Editing.ScheduleIsAtomic | internal/content/publish.go:49-62 | the same for scheduling, whose transaction can no longer miss the version |
| Editing.SessionKept | internal/content/publish.go:17-30 | a request still holds at its write what it read, whatever happens in between |
| Editing.PublishRequestIsAtomic | internal/content/publish.go:17-30 | a request to publish number n, looked up in one state and written in another, is one atomic operation at the write |
| Editing.ScheduleRequestIsAtomic | internal/content/publish.go:49-62 | the same for a request to schedule, with the run_at and reading it came with |
| Editing.MissIsAtomic | internal/store/contents.go:295-307 | a lookup that misses answers what the atomic operation would at that moment |
| AuditLog.LogReplaysToPointer | internal/store/publish.go:67-80 | replaying the log in id order gives published version and time of every content |
| AuditLog.EventsAreHonest | internal/store/publish.go:51-121 | ids increase, a manual event changed what was public, and an unpublish names what was public just before |
| AuditLog.PrefixesWereLogs | internal/store/publish.go:132-147 | each prefix of the log was the whole log of an earlier state |
| AuditLog.NewestOf | internal/store/publish.go:152-157 | the event that ORDER BY occurred_at DESC, id DESC puts first |
| AuditLog.ListEvents | internal/store/publish.go:150-172 | the newest events of one content, in order, up to the limit, none left out before it |
| AuditLog.NewestIsCurrentWhen | internal/store/publish.go:149-157 | the last event of a content made its pointer; the listing shows it first exactly when no event of the content is later in time |
| PublicView.FirstRow | internal/store/public.go:67-71 | one pass finds the row that the order of the query puts first |
| PublicView.OrderRows | internal/store/public.go:67-71 | the rows in the order of the query |
| PublicView.ListingIsSorted | internal/store/public.go:67-71 | the listing follows the order of the query (`Delivery.NewestPublishComesFirst` says which) |
| PublicView.ListPublic | internal/store/public.go:67-86 | the page of the ordered public list |
| PublicView.ListSitemapEntries | internal/store/public.go:111-133 | the first entries of the ordered indexable documents |
| PublicView.GetPublicBySlug | internal/store/public.go:54-64 | the public row with the slug, and not found exactly when none is public |
| PublicView.LatestPublishedAt | internal/store/public.go:137-147 | the greatest updated_at of a public document, 0 without any |
| PublicView.PublicPagesAreTheList | internal/store/public.go:66-98 | the pages concatenate to the whole sorted list, each document once, as many as the count says |
| PublicView.DraftsDoNotInterfere | internal/store/public.go:10-17 | get, list, count, sitemap and MAX depend on the published rows alone |
| PublicView.PrivateStep | internal/httpapi/public.go:15-18 | no step but publish, unpublish and completion changes the public rows, save the edited document's own stamp |
| Delivery.ServedAsWritten | internal/store/public.go:29-86 | the fields an edit stored are served word for word by slug and in the list, and in the sitemap unless noindex, from the step that made their version public until the next publish or withdrawal, with the reading of that step and the stamp of the last write |
| Delivery.HiddenUntilPublished | internal/store/public.go:49-64 | not found before the first publish, and after a withdrawal until the next |
| Delivery.PointerKept | internal/store/publish.go:69-74 | only a publish, a withdrawal or a completion of the content changes what is public of it and since when |
| Delivery.StringLessMeans | internal/store/public.go:70 | the order of ids: a proper prefix, or smaller at the first difference |
| Delivery.NewestPublishComesFirst | internal/store/public.go:67-86 | each row of a page in columns; a row is before another exactly if it was published later, or at the same time under a greater id |
| Delivery.ListReplyMeans | internal/httpapi/public.go:57-89 | the answer to a list request: the rows from the offset on up to the limit, the total, and the quoted MAX |
| Delivery.SitemapMeans | internal/store/public.go:111-133 | the sitemap: the published documents without noindex, each once, same order, time of publish |
| Delivery.ScheduleRequestSucceedsWhen | internal/content/publish.go:49-62 | over a run a request to schedule is accepted exactly if id and content are free at its write, and what it stores |
| Delivery.PublishRequestPublishes | internal/content/publish.go:17-30 | over a run a request to publish makes its number public, with one event by its actor, or finds it public |
| EntityTags.ParseFormatted | internal/httpapi/etag.go:22-24 | parsing a formatted version gives it back |
| EntityTags.FormatIntInjective | internal/httpapi/etag.go:22-24 | different numbers have different tags |
| EntityTags.VersionTagMeans | internal/httpapi/etag.go:22-24 | a version tag is the number in quotes, in decimal, without a plus sign or leading zeros |
| EntityTags.NumeralsArePositional | internal/httpapi/etag.go:22-24 | digits count as decimal places |
| EntityTags.ParseIntMeans | internal/httpapi/etag.go:62-65 | the numbers parsed: optional sign, digits, their value, 64 bits |
| EntityTags.TrimSpaceSplits | internal/httpapi/etag.go:36 | trimming removes white space at the ends, and all of it |
| EntityTags.WhiteSpaceIs | internal/httpapi/etag.go:36 | the characters that are trimmed |
| EntityTags.IfMatchMeans | internal/httpapi/etag.go:35-67 | which header is missing, the wildcard, weak or malformed, each exactly when |
| EntityTags.IfMatchAccepts | internal/httpapi/etag.go:35-67 | the accepted headers are exactly the quoted numbers from 1 to 2^63-1, signs and zeros allowed, in white space |
| EntityTags.IfMatchRoundTrip | internal/httpapi/etag.go:22-67 | every version tag sent back is understood |
| EntityTags.IfMatchOtherSpellings | internal/httpapi/etag.go:62-66 | two other spellings of versions that are accepted too |
| EntityTags.IfNoneMatchMatches | internal/httpapi/etag.go:76-92 | the loop answers whether some piece, trimmed, is the tag |
| EntityTags.NotModifiedSpecial | internal/httpapi/etag.go:77-83 | a blank header matches nothing, a star everything |
| EntityTags.NotModifiedAnswers | internal/httpapi/etag.go:76-92 | for any header at all: a star, or some piece between commas that, trimmed, is the tag or the tag marked as weak |
| EntityTags.SplittingAgreesWithGrammar | internal/httpapi/etag.go:69-92 | for every header of the grammar of RFC 9110, splitting at all commas agrees with weak comparison of the parsed list, although opaque tags may hold commas |
| Validators.TagsTellStampsApart | internal/httpapi/public.go:120-127 | two stamps have one tag exactly when they are equal |
| RowHistory.LastRewriteLeaves | internal/store/contents.go:112-121 | the row is as the last rewriting step left it, with the clock reading of that step |
| RowHistory.LastStampIsUpdatedAt | internal/store/contents.go:112-121 | updated_at is the stamp written last |
| Validators.DocumentTagIsExact | internal/httpapi/public.go:47-51 | the same representation has the same tag; a changed one has its old tag exactly when the last step that rewrote the row wrote the old stamp |
| Validators.NotModifiedMeans | internal/httpapi/public.go:101-118 | 304 is answered exactly when, for some listed tag served before, that copy is current or the row was rewritten since and last with the same stamp |
| Validators.NotModifiedMeansCurrent | internal/httpapi/public.go:101-118 | with growing stamps on the document 304 is answered exactly when some copy listed is current |
| Validators.CollectionTagTracksList | internal/store/public.go:135-147 | without unpublish and with growing stamps the collection tag changes exactly when the list does |
| Validators.StampKeepsCollectionTagWhen | internal/store/public.go:135-147 | stamping one public row keeps MAX exactly when the stamp equals it, or is below it and another row holds it |
| Validators.StepKeepsCollectionTagWhen | internal/content/publish.go:23-29 | a publish, edit or completion keeps the collection tag exactly then |
| Validators.CollectionTagOverRuns | internal/store/public.go:135-147 | two states have one collection tag exactly when no row public at the second was last stamped above the first MAX and one was stamped just that |
| Validators.ListIsTable | internal/store/public.go:29-47 | with any clocks the public list is the same exactly when every joined row is |
| Validators.UnpublishKeepsTagWhen | internal/store/public.go:135-147 | withdrawing a document keeps the collection tag exactly when another was modified no earlier |
| Handlers.Server.HandleUpdateContent | internal/httpapi/admin.go:136-192 | 428, 400, 404, 412, 500 or 200 with the new tag; anything may commit between the read of the wildcard, the swap, and the read of the details of a refusal |
| Handlers.EditReplyMeans | internal/httpapi/admin.go:149-191 | the situation each status stands for, both directions, and what a success stored |
| Handlers.EditAnswers | internal/httpapi/admin.go:149-191 | by the header as it came: blank is 428 and no change, a star and only a star is the wildcard, no version is 400; success exactly when |
| Handlers.RefusalStatuses | internal/httpapi/admin.go:257-296 | the status of every other refusal of the store and the service, by what refused |
| Handlers.RefusalNamesTheWayOut | internal/httpapi/admin.go:272-283 | repeating a refused edit with the tag from the refusal succeeds exactly if no edit took effect since that tag was read |
| Handlers.EditRequestIsSteps | internal/httpapi/admin.go:136-178 | a request does what its steps of the state machine do |
| Handlers.TokenIsGoodUntilEdited | internal/httpapi/admin.go:131-135 | along any run a served tag is accepted until another edit takes effect, and refused from then on |
| Handlers.WildcardIsGoodUntilEdited | internal/httpapi/admin.go:160-178 | along any run a wildcard overwrites what it read, or is refused when an edit took effect since |
| AdminView.HandleGetContent | internal/httpapi/admin.go:78-98 | 404, or the version tag with the admin view, whose second query may run later |
| AdminView.AdminResponseMeans | internal/httpapi/dto.go:85-110 | every field of the admin response, status and draft included |
| AdminView.SecondQueryCannotTear | internal/httpapi/admin.go:242-254 | the published number is the same whenever it is looked up |
| AdminView.ViewIsRow | internal/httpapi/dto.go:85-110 | at one version number two views are equal exactly when the content rows are, and the drafts are equal |
| AdminView.MarkStep | internal/httpapi/etag.go:10-13 | a step that keeps the version changes the row exactly when it is an effective publish, unpublish or completion that moves pointer or stamps |
| AdminView.AdminViewStep | internal/httpapi/etag.go:10-13 | a step changes the admin response under its old tag exactly then |
| AdminView.AdminTagIsExact | internal/httpapi/etag.go:10-13 | along a run, one tag means one response exactly when no such step came between, or the last one left what was there |
| Handlers.ParsePagination | internal/httpapi/admin.go:331-355 | which parameters are accepted, the defaults of missing ones, and sizes from 1 to 100 |
| Handlers.PaginationRoundTrip | internal/httpapi/admin.go:331-355 | every window within the limits can be asked for |
| Handlers.ReadLatest | internal/store/public.go:137-147 | the greatest stamp, read row by row |
| Handlers.Server.HandlePublicGet | internal/httpapi/public.go:32-54 | 404, 304 with the tag, or the tag and the document |
| Handlers.HandlePublicList | internal/httpapi/public.go:57-89 | bad request, 304 with the tag, or the tag, the page and the total, each query on the state of its moment |
| Handlers.SplitReadIsWholeWhen | internal/httpapi/public.go:66-88 | rows, count and stamp read in three states make the answer of a given single state exactly when each query answers the same there |
| Handlers.SplitReadIsCurrentWhen | internal/httpapi/public.go:66-88 | they make the answer of the last of the three exactly when no public row differs between rows and stamp, and the count is the same |
| Handlers.RevalidationIsTransparentWhen | internal/httpapi/public.go:101-118 | a client that revalidates is misled exactly when the document changed and the last rewriting step wrote the stamp it holds |
| Handlers.RevalidationIsTransparent | internal/httpapi/public.go:101-118 | with growing stamps a client that revalidates shows what one without a copy would be sent, or nothing once withdrawn |
| Counterexamples.TimeOrderIsNotLogOrder | internal/content/publish.go:23-29 | a run in which the newest event by time is not the one that made the pointer |
| Counterexamples.SameMillisecondSameTag | internal/httpapi/public.go:120-127 | a run in which a document changes under one tag |
| Counterexamples.OldStampReturns | internal/content/publish.go:23-29 | a run in which every change writes another stamp and the first tag comes back for other content |
| Counterexamples.LateCommitKeepsCollectionTag | internal/content/publish.go:23-29 | a run in which a late commit grows the list under one tag |
| Counterexamples.UnpublishKeepsCollectionTag | internal/store/public.go:135-147 | a run in which the list changes under one tag |
| Counterexamples.SplitReadServesStaleList | internal/httpapi/public.go:66-88 | a run in which an old list is sent, and later confirmed, under the new tag |
| Counterexamples.PublishKeepsAdminTag | internal/httpapi/etag.go:10-13 | a run in which an admin response changes under one tag |
| Counterexamples.ConflictWithoutPublish | README.md:386-392 | a run in which a cancel is refused and the schedule is never published |
| Counterexamples.ClockBackPublishesEarly | internal/scheduler/worker.go:137-139 | a run with a publish before run_at, by a clock that went back |
| Counterexamples.ShortLeasePublishesEarly | internal/scheduler/worker.go:99-100 | a run with a publish before run_at although no completion reads earlier than its own claim |
| Counterexamples.ClockBackOverlapsLeases | internal/scheduler/worker.go:99-100 | a run with overlapping lease windows, by a clock that went back between two readings |

## Left out

- SQLite, WAL, pragmas, connection pools and migrations: write transactions are serializable, each query reads one state, and only the declared constraints are modelled.
- Faults inside a transaction body (a failed statement, an expired context, a panic) are not told apart from a failed BEGIN: nothing happens and an error is reported. Faults of plain reads are left out.
- Tickers, goroutines, timeouts and locks: cycles, crashes and stops are steps at any time. `ticks` is counted, `running` is not; a process releases its claims only when it holds no job.
- Ids: uuids are parameters, so a repeated id is an ordinary clash. Worker ids may repeat.
- Integer width: versions, row ids, attempts and stamps are unbounded; the range of 64 bits is stated where tags are parsed.
- Header values are sequences of characters, not bytes. Query parameters reach pagination decoded, and page sizes are natural numbers.
- The text of a failure is a parameter of the step that records it.
- Routing, authentication, middleware, JSON and XML encoding, HTML pages, robots.txt, logging, configuration, Last-Modified and Cache-Control headers.
- Slug validation, formatting of times and the admin lists: easy members.
- Service.Unpublish and Service.CancelSchedule pass their call to the store and are not repeated.
- The `failed` status: no code path sets it, and `Leasing.ScheduleRowsAreSound` says so.
- `Publish` with a schedule id is modelled in the store; the runs use it as the service does, without one.
- Handlers.Server.HandleUpdateContent: the size and syntax of the request body are not modelled.
- AUTOINCREMENT ids are the next integer in `Transactions`; the theorems use only that they increase.
- Leasing.LeaseWindowsAreDisjoint: assumes that each claim in between reads its deadline past its own first reading (lease at least 1 ms and no step back between two readings); `Leasing.LeasesOverlapWhen` is exact without it.
- Leasing.NeverEarly: rests on the two provisos named, which the source does not ensure; `Leasing.ClaimCanBeEarlyWhen` and `Leasing.PublishIsEarlyWhen` are exact without them.
- Validators.DocumentTagIsSound: a corollary for growing stamps; `Validators.DocumentTagIsExact` is exact for all runs.
- Validators.StampDecidesTag: speaks of one step; `Validators.DocumentTagIsExact` is exact for all runs.
- Validators.CollectionTagTracksList: for growing stamps without unpublish; `Validators.CollectionTagOverRuns` is exact for all runs.
- Validators.NotModifiedMeansCurrent: for growing stamps; `Validators.NotModifiedMeans` is exact for all runs.
- Handlers.AdminTagPinsTheDraft: speaks of the draft only; `AdminView.AdminTagIsExact` is exact for the whole response.
