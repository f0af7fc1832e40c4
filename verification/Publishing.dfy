/** Scheduled publishing over whole runs: exactly once, never by a stale worker, never after a
    cancel, and always the version that was pinned. Nothing here assumes distinct worker ids,
    synchronized clocks or reliable commits, nor, with `indexed` false, the unique index on
    publish_events. */
module Publishing {
  import opened Tables
  import opened Transactions
  import opened Invariants
  import opened Steps
  import opened Effects

  function CountEvents(events: seq<Event>, scheduleId: string): nat
    decreases |events|
  {
    if events == [] then 0
    else CountEvents(events[..|events| - 1], scheduleId)
         + if events[|events| - 1].scheduleId == Some(scheduleId) then 1 else 0
  }

  lemma {:induction false} CountOne(events: seq<Event>, k: string)
    requires OneEventEach(events)
    ensures CountEvents(events, k) == if HasEvent(events, k) then 1 else 0
    decreases |events|
  {
    if events != [] {
      var init, last := events[..|events| - 1], events[|events| - 1];
      CountOne(init, k);
      if last.scheduleId == Some(k) {
        assert events[|events| - 1].scheduleId == Some(k);
        assert !HasEvent(init, k);
      } else if HasEvent(events, k) {
        var i :| 0 <= i < |events| && events[i].scheduleId == Some(k);
        assert init[i].scheduleId == Some(k);
      }
    }
  }

  /** The worker wrote one event for a finished schedule, and none for any other. */
  lemma PublishedExactlyOnce(r: Run, indexed: bool, i: nat, k: string)
    requires IsRun(r, indexed) && i < |r.states|
    ensures var db := r.states[i].db;
            CountEvents(db.events, k) == if k in db.schedules && db.schedules[k].status == Done then 1 else 0
  {
    RunInv(r, indexed, i);
    var db := r.states[i].db;
    CountOne(db.events, k);
    if HasEvent(db.events, k) {
      EventMeansDone(db.schedules, db.events, k);
    }
  }

  /** Step `i` of the run completed schedule `k`. */
  ghost predicate CompletesAt(r: Run, indexed: bool, i: nat, k: string)
    requires i < |r.steps| && |r.states| == |r.steps| + 1
  {
    Completes(r.states[i], r.steps[i], indexed, k)
  }

  lemma CompletesIsDone(s: State, a: Step, indexed: bool, k: string)
    requires Completes(s, a, indexed, k)
    ensures k in s.db.schedules && s.db.schedules[k].status == Claimed
    ensures var db' := NextDb(s, a, indexed);
            k in db'.schedules && db'.schedules[k].status == Done
  {
    hide HasEvent;
  }

  lemma CompletedStaysDone(r: Run, indexed: bool, i: nat, j: nat, k: string)
    requires IsRun(r, indexed) && i < j < |r.states| && CompletesAt(r, indexed, i, k)
    ensures k in r.states[j].db.schedules && r.states[j].db.schedules[k].status == Done
  {
    RunStep(r, indexed, i);
    CompletesIsDone(r.states[i], r.steps[i], indexed, k);
    RunExtends(r, indexed, i + 1, j);
    assert k in r.states[i + 1].db.schedules;
  }

  /** At most one completion of a schedule ever takes effect, whichever workers try; in
      particular at most one call returns true. */
  lemma CompletesOnce(r: Run, indexed: bool, i: nat, j: nat, k: string)
    requires IsRun(r, indexed) && i < j < |r.steps|
    requires CompletesAt(r, indexed, i, k)
    ensures !CompletesAt(r, indexed, j, k)
  {
    hide Completes;
    CompletedStaysDone(r, indexed, i, j, k);
    if CompletesAt(r, indexed, j, k) {
      CompletesIsDone(r.states[j], r.steps[j], indexed, k);
    }
  }

  /** The unique index never decides: with or without it a completion takes effect in the same
      cases and leaves the same state, because a schedule that has its event is not leased. */
  lemma IndexIsRedundant(db: Db, job: ClaimedJob, worker: string, now: int)
    requires DbInv(db)
    ensures var with := CompleteScheduledPublish(db, job, worker, now, true);
            var without := CompleteScheduledPublish(db, job, worker, now, false);
            && with.db == without.db
            && (with.result.Ok? <==> without.result.Ok?)
            && (with.result != without.result ==>
                  without.result == Err(LeaseLost) || without.result == Err(ConstraintFailed(ForeignKey)))
  {
    hide SchemaOk, History, Ownership, Leases, Audit, IsEventOf;
    if HasEvent(db.events, job.scheduleId) {
      EventMeansDone(db.schedules, db.events, job.scheduleId);
    }
  }

  // ---------- stale workers ----------

  /** Executing a job whose row is not leased to this worker changes nothing, on any path: the
      lease is lost, the event is already there, or a transaction fails. */
  lemma StaleExecuteIsNoOp(db: Db, job: ClaimedJob, worker: string, luck: Luck, indexed: bool)
    requires !HoldsLease(db.schedules, job.scheduleId, worker)
    ensures Execute(db, job, worker, luck, indexed) == db
  {
  }

  /** Which path it is: the error path exactly when the thief has already written its event. */
  lemma StaleOutcome(db: Db, job: ClaimedJob, worker: string, now: int)
    requires DbInv(db) && JobMatches(db.schedules, job)
    requires !HoldsLease(db.schedules, job.scheduleId, worker)
    ensures CompleteScheduledPublish(db, job, worker, now, true).result
         == Err(if db.schedules[job.scheduleId].status == Done then ConstraintFailed(Unique) else LeaseLost)
  {
    hide History, Leases, Audit;
    assert Owns(db.versions, job.contentId, job.versionId);
    if HasEvent(db.events, job.scheduleId) {
      EventMeansDone(db.schedules, db.events, job.scheduleId);
    }
  }

  /** A worker process with id `w` is leased rows at step `i`. */
  ghost predicate ClaimsAs(r: Run, i: nat, w: string)
    requires |r.states| == |r.steps| + 1 && i < |r.steps|
  {
    var a := r.steps[i];
    a.ClaimStep? && a.pid in r.states[i].processes && r.states[i].processes[a.pid].id == w
  }

  lemma LeaseOnlyByClaim(s: State, a: Step, indexed: bool, k: string, w: string)
    requires Enabled(s, a)
    requires a.ClaimStep? ==> s.processes[a.pid].id != w
    requires !HoldsLease(s.db.schedules, k, w)
    ensures !HoldsLease(NextDb(s, a, indexed).schedules, k, w)
  {
    ScheduleEffects(s, a, indexed, k);
  }

  /** A worker that does not hold a lease does not get it back except by claiming. */
  lemma {:induction false} StaleStaysStale(r: Run, indexed: bool, i: nat, j: nat, k: string, w: string)
    requires IsRun(r, indexed) && i <= j < |r.states|
    requires forall m: nat | i <= m < j :: !ClaimsAs(r, m, w)
    requires !HoldsLease(r.states[i].db.schedules, k, w)
    ensures !HoldsLease(r.states[j].db.schedules, k, w)
    decreases j
  {
    if i < j {
      StaleStaysStale(r, indexed, i, j - 1, k, w);
      assert !ClaimsAs(r, j - 1, w);
      RunStep(r, indexed, j - 1);
      LeaseOnlyByClaim(r.states[j - 1], r.steps[j - 1], indexed, k, w);
    }
  }

  /** A step by a worker that does not hold the lease of the job it acts on changes nothing in
      any table. */
  lemma StaleStepIsNoOp(s: State, a: Step, indexed: bool)
    requires Enabled(s, a)
    requires (a.CompleteStep? && !HoldsLease(s.db.schedules, s.processes[a.pid].held[0].scheduleId, s.processes[a.pid].id))
          || (a.FailStep? && !HoldsLease(s.db.schedules, s.processes[a.pid].failed.value.scheduleId, s.processes[a.pid].id))
    ensures NextDb(s, a, indexed) == s.db
  {
    hide HasEvent;
  }

  /** From the moment worker id `w` has lost the lease of `k`, and until something claims as
      `w` again, nothing executed or released under that id for `k` has any effect. */
  lemma StaleWorkerHasNoEffect(r: Run, indexed: bool, i: nat, j: nat, k: string, w: string)
    requires IsRun(r, indexed) && i <= j < |r.steps|
    requires forall m: nat | i <= m < j :: !ClaimsAs(r, m, w)
    requires !HoldsLease(r.states[i].db.schedules, k, w)
    requires r.steps[j].CompleteStep? || r.steps[j].FailStep?
    requires r.steps[j].pid in r.states[j].processes && r.states[j].processes[r.steps[j].pid].id == w
    requires var p := r.states[j].processes[r.steps[j].pid];
             if r.steps[j].CompleteStep? then p.held != [] && p.held[0].scheduleId == k
             else p.failed.Some? && p.failed.value.scheduleId == k
    ensures r.states[j + 1].db == r.states[j].db
  {
    hide HoldsLease;
    StaleStaysStale(r, indexed, i, j, k, w);
    RunStep(r, indexed, j);
    StaleStepIsNoOp(r.states[j], r.steps[j], indexed);
  }

  /** Once a worker's shutdown release has taken effect and nobody claims under its id again,
      no row is ever locked by it. */
  lemma ShutdownLeavesNoLease(r: Run, indexed: bool, i: nat, j: nat, k: string, w: string)
    requires IsRun(r, indexed) && i < j < |r.states|
    requires r.steps[i].ReleaseStep? && TakesEffect(r.steps[i].fate)
    requires r.steps[i].pid in r.states[i].processes && r.states[i].processes[r.steps[i].pid].id == w
    requires forall m: nat | i < m < j :: !ClaimsAs(r, m, w)
    ensures !HoldsLease(r.states[j].db.schedules, k, w)
  {
    RunStep(r, indexed, i);
    assert !HoldsLease(r.states[i + 1].db.schedules, k, w);
    StaleStaysStale(r, indexed, i + 1, j, k, w);
  }

  /** No running process goes by the id `w`. */
  ghost predicate NameFree(s: State, w: string) {
    forall p | p in s.processes :: s.processes[p].id != w
  }

  lemma NameFreeStep(s: State, a: Step, indexed: bool, w: string)
    requires Enabled(s, a) && NameFree(s, w) && (a.StartStep? ==> a.id != w)
    ensures NameFree(Next(s, a, indexed), w)
  {
    hide Enabled, NextDb, NextProcesses, NextSessions;
    forall p | p in NextProcesses(s, a, indexed)
      ensures NextProcesses(s, a, indexed)[p].id != w
    {
      ProcessEffects(s, a, indexed, p);
    }
  }

  lemma {:induction false} NameStaysFree(r: Run, indexed: bool, i: nat, j: nat, w: string)
    requires IsRun(r, indexed) && i <= j < |r.states| && NameFree(r.states[i], w)
    requires forall m: nat | i <= m < j && r.steps[m].StartStep? :: r.steps[m].id != w
    ensures forall m: nat | i <= m <= j :: NameFree(r.states[m], w)
    decreases j
  {
    hide Enabled, Next, NameFree;
    if i < j {
      NameStaysFree(r, indexed, i, j - 1, w);
      RunStep(r, indexed, j - 1);
      NameFreeStep(r.states[j - 1], r.steps[j - 1], indexed, w);
    }
  }

  /** In particular if the worker's id is its own: no other process has it, and none is started
      with it later. */
  lemma UniqueWorkerLeavesNoLease(r: Run, indexed: bool, i: nat, j: nat, k: string, w: string)
    requires IsRun(r, indexed) && i < j < |r.states|
    requires r.steps[i].ReleaseStep? && TakesEffect(r.steps[i].fate)
    requires r.steps[i].pid in r.states[i].processes && r.states[i].processes[r.steps[i].pid].id == w
    requires forall p | p in r.states[i].processes && r.states[i].processes[p].id == w :: p == r.steps[i].pid
    requires forall m: nat | i < m < j && r.steps[m].StartStep? :: r.steps[m].id != w
    ensures !HoldsLease(r.states[j].db.schedules, k, w)
  {
    hide HoldsLease, NextDb;
    RunStep(r, indexed, i);
    assert NameFree(r.states[i + 1], w);
    NameStaysFree(r, indexed, i + 1, j, w);
    forall m: nat | i < m < j
      ensures !ClaimsAs(r, m, w)
    {
      assert NameFree(r.states[m], w);
    }
    ShutdownLeavesNoLease(r, indexed, i, j, k, w);
  }

  /** If a completion took effect but its commit reported an error, the release that follows,
      however late and whatever happened in between, leaves the database alone. */
  lemma UnknownOutcomeIsHarmless(r: Run, indexed: bool, i: nat, j: nat, k: string)
    requires IsRun(r, indexed) && i < j < |r.steps|
    requires CompletesAt(r, indexed, i, k)
    requires r.steps[j].FailStep? && r.steps[j].pid in r.states[j].processes
    requires r.states[j].processes[r.steps[j].pid].failed.Some?
    requires r.states[j].processes[r.steps[j].pid].failed.value.scheduleId == k
    ensures r.states[j + 1].db == r.states[j].db
  {
    hide Completes;
    CompletedStaysDone(r, indexed, i, j, k);
    RunStep(r, indexed, j);
    StaleStepIsNoOp(r.states[j], r.steps[j], indexed);
  }

  // ---------- cancel ----------

  /** Done and cancelled are final, whatever happens next. */
  lemma FinalStatesStay(r: Run, indexed: bool, i: nat, j: nat, k: string)
    requires IsRun(r, indexed) && i <= j < |r.states|
    requires k in r.states[i].db.schedules
    requires r.states[i].db.schedules[k].status == Done || r.states[i].db.schedules[k].status == Cancelled
    ensures k in r.states[j].db.schedules && r.states[j].db.schedules[k] == r.states[i].db.schedules[k]
  {
    RunExtends(r, indexed, i, j);
  }

  /** After a cancel that took effect no continuation of the run publishes the schedule. */
  lemma CancelIsFinal(r: Run, indexed: bool, i: nat, j: nat)
    requires IsRun(r, indexed) && i < j < |r.states|
    requires r.steps[i].CancelStep? && TakesEffect(r.steps[i].fate)
    requires CancelSchedule(r.states[i].db, r.steps[i].id, r.steps[i].now).result.Ok?
    ensures r.steps[i].id in r.states[j].db.schedules
    ensures r.states[j].db.schedules[r.steps[i].id].status == Cancelled
    ensures CountEvents(r.states[j].db.events, r.steps[i].id) == 0
  {
    RunStep(r, indexed, i);
    assert r.states[i + 1].db.schedules[r.steps[i].id].status == Cancelled;
    FinalStatesStay(r, indexed, i + 1, j, r.steps[i].id);
    PublishedExactlyOnce(r, indexed, j, r.steps[i].id);
  }

  /** What a conflict says: the row was claimed, done or cancelled. It has been published then
      if and only if it was done. */
  lemma ConflictMeans(db: Db, k: string, now: int)
    requires DbInv(db)
    ensures CancelSchedule(db, k, now).result == Err(NotCancellable)
       <==> k in db.schedules && db.schedules[k].status in {Claimed, Done, Cancelled}
    ensures CancelSchedule(db, k, now).result == Err(NotCancellable)
        ==> (HasEvent(db.events, k) <==> db.schedules[k].status == Done)
  {
    hide SchemaOk, History, Ownership, Audit, IsEventOf;
    if HasEvent(db.events, k) {
      EventMeansDone(db.schedules, db.events, k);
    }
  }

  /** While the lease is held no constraint can fail. */
  lemma HeldLeaseCompletes(db: Db, job: ClaimedJob, worker: string, now: int, indexed: bool)
    requires DbInv(db) && JobMatches(db.schedules, job) && HoldsLease(db.schedules, job.scheduleId, worker)
    ensures job.contentId in db.contents
    ensures CompleteScheduledPublish(db, job, worker, now, indexed) == Outcome(Completed(db, job, now), Ok(()))
  {
    CompletedIsPointed(db, job, now);
    if HasEvent(db.events, job.scheduleId) {
      EventMeansDone(db.schedules, db.events, job.scheduleId);
    }
  }

  lemma CompletedHasEvent(db: Db, job: ClaimedJob, now: int)
    requires job.contentId in db.contents && job.scheduleId in db.schedules
    ensures HasEvent(Completed(db, job, now).events, job.scheduleId)
  {
    assert Completed(db, job, now).events[|db.events|].scheduleId == Some(job.scheduleId);
  }

  lemma NotDoneHasNoEvent(db: Db, k: string)
    requires DbInv(db) && (k in db.schedules ==> db.schedules[k].status != Done)
    ensures !HasEvent(db.events, k)
  {
    hide SchemaOk, History, Ownership, Leases, Audit, IsEventOf;
    if HasEvent(db.events, k) {
      EventMeansDone(db.schedules, db.events, k);
    }
  }

  lemma LandedExecute(db: Db, job: ClaimedJob, worker: string, luck: Luck, indexed: bool)
    requires DbInv(db) && JobMatches(db.schedules, job) && HoldsLease(db.schedules, job.scheduleId, worker)
    requires TakesEffect(luck.complete)
    ensures HasEvent(Execute(db, job, worker, luck, indexed).events, job.scheduleId)
  {
    hide DbInv, HasEvent, HoldsLease, Completed, CompleteScheduledPublish;
    HeldLeaseCompletes(db, job, worker, luck.now, indexed);
    CompletedHasEvent(db, job, luck.now);
  }

  lemma FailedExecute(db: Db, job: ClaimedJob, worker: string, luck: Luck, indexed: bool)
    requires !TakesEffect(luck.complete)
    ensures Execute(db, job, worker, luck, indexed).events == db.events
  {
    hide HoldsLease, Completed, CompleteScheduledPublish;
  }

  /** Executing a claimed job publishes it exactly when the lease is still held and the commit
      takes effect. */
  lemma ExecutePublishesWhen(db: Db, job: ClaimedJob, worker: string, luck: Luck, indexed: bool)
    requires DbInv(db) && JobMatches(db.schedules, job) && db.schedules[job.scheduleId].status != Done
    ensures HasEvent(Execute(db, job, worker, luck, indexed).events, job.scheduleId)
       <==> HoldsLease(db.schedules, job.scheduleId, worker) && TakesEffect(luck.complete)
  {
    hide DbInv, HasEvent, HoldsLease, Execute;
    NotDoneHasNoEvent(db, job.scheduleId);
    if !HoldsLease(db.schedules, job.scheduleId, worker) {
      StaleExecuteIsNoOp(db, job, worker, luck, indexed);
    } else if TakesEffect(luck.complete) {
      LandedExecute(db, job, worker, luck, indexed);
    } else {
      FailedExecute(db, job, worker, luck, indexed);
    }
  }

  lemma RowGrows(db: Db, db': Db, k: string)
    requires Extends(db, db') && k in db.schedules
    ensures k in db'.schedules && ScheduleGrows(db.schedules[k], db'.schedules[k])
  {
  }

  lemma DoneByCompletion(s: State, a: Step, indexed: bool, k: string)
    requires Enabled(s, a) && k in s.db.schedules && s.db.schedules[k].status != Done
    requires k in NextDb(s, a, indexed).schedules
    ensures NextDb(s, a, indexed).schedules[k].status == Done <==> Completes(s, a, indexed, k)
  {
    ScheduleEffects(s, a, indexed, k);
    if Completes(s, a, indexed, k) {
      CompletesIsDone(s, a, indexed, k);
    }
  }

  lemma {:induction false} DoneMeansCompletedSince(r: Run, indexed: bool, i: nat, j: nat, k: string)
    requires IsRun(r, indexed) && i <= j < |r.states|
    requires k in r.states[i].db.schedules && r.states[i].db.schedules[k].status != Done
    ensures k in r.states[j].db.schedules
    ensures r.states[j].db.schedules[k].status == Done ==> exists m: nat | i <= m < j :: CompletesAt(r, indexed, m, k)
    decreases j
  {
    hide Completes, Extends, NextDb, Enabled;
    RunExtends(r, indexed, i, j);
    RowGrows(r.states[i].db, r.states[j].db, k);
    if i < j && r.states[j].db.schedules[k].status == Done {
      DoneMeansCompletedSince(r, indexed, i, j - 1, k);
      RunStep(r, indexed, j - 1);
      if r.states[j - 1].db.schedules[k].status != Done {
        DoneByCompletion(r.states[j - 1], r.steps[j - 1], indexed, k);
        assert CompletesAt(r, indexed, j - 1, k);
      }
    }
  }

  /** What comes of a schedule that was not cancelled in time: it is published by state `j` if
      and only if some completion of it took effect before. A conflict alone promises nothing. */
  lemma PublishedByCompletion(r: Run, indexed: bool, i: nat, j: nat, k: string)
    requires IsRun(r, indexed) && i <= j < |r.states|
    requires k in r.states[i].db.schedules && r.states[i].db.schedules[k].status != Done
    ensures CountEvents(r.states[j].db.events, k) == 1 <==> exists m: nat | i <= m < j :: CompletesAt(r, indexed, m, k)
  {
    hide CompletesAt;
    PublishedExactlyOnce(r, indexed, j, k);
    DoneMeansCompletedSince(r, indexed, i, j, k);
    if m: nat :| i <= m < j && CompletesAt(r, indexed, m, k) {
      CompletedStaysDone(r, indexed, m, j, k);
    }
  }

  // ---------- the pinned version ----------

  /** In every reachable state each published pointer, schedule and event names a version of its
      own content, whose number is within the content's history. */
  lemma PointersAreOwned(r: Run, indexed: bool, i: nat, c: string, row: int)
    requires IsRun(r, indexed) && i < |r.states|
    requires var db := r.states[i].db;
             || (c in db.contents && db.contents[c].publishedVersionId == Some(row))
             || (exists k | k in db.schedules :: db.schedules[k].contentId == c && db.schedules[k].versionId == row)
             || (exists e | 0 <= e < |db.events| :: db.events[e].contentId == c && db.events[e].versionId == Some(row))
    ensures var db := r.states[i].db;
            && Owns(db.versions, c, row) && c in db.contents
            && 1 <= db.versions[row].number <= db.contents[c].currentVersion
  {
    hide IsRun, SchemaOk, Leases, ExactlyOnce, Audit, ProcessInv, SessionInv;
    RunInv(r, indexed, i);
  }

  lemma EventGrows(db: Db, db': Db, k: string)
    requires DbInv(db') && Extends(db, db') && k in db.schedules
    ensures forall e | 0 <= e < |db'.events| && db'.events[e].scheduleId == Some(k) ::
              IsEventOf(db'.events[e], db.schedules[k])
  {
    hide SchemaOk, History, Ownership, Leases, Audit;
    assert ScheduleGrows(db.schedules[k], db'.schedules[k]);
  }

  lemma CompletesDb(s: State, a: Step, indexed: bool, k: string)
    requires Completes(s, a, indexed, k)
    ensures var job := s.processes[a.pid].held[0];
            && job.scheduleId == k
            && job.contentId in s.db.contents && k in s.db.schedules
            && NextDb(s, a, indexed) == Completed(s.db, job, a.now)
  {
    hide HasEvent;
  }

  lemma CompletedPointer(db: Db, job: ClaimedJob, now: int)
    requires job.contentId in db.contents && JobMatches(db.schedules, job)
    ensures var row, db' := db.schedules[job.scheduleId], Completed(db, job, now);
            && row.contentId in db'.contents
            && db'.contents[row.contentId].publishedVersionId == Some(row.versionId)
            && |db'.events| == |db.events| + 1
            && db'.events[|db.events|].scheduleId == Some(job.scheduleId)
  {
  }

  lemma ScheduleOwned(db: Db, k: string)
    requires DbInv(db) && k in db.schedules
    ensures Owns(db.versions, db.schedules[k].contentId, db.schedules[k].versionId)
  {
    hide SchemaOk, History, Leases, ExactlyOnce, Audit, Owns;
  }

  lemma HeldMatches(s: State, p: nat)
    requires SysInv(s) && p in s.processes && s.processes[p].held != []
    ensures JobMatches(s.db.schedules, s.processes[p].held[0])
  {
    assert ProcessInv(s.db.schedules, s.processes[p]);
  }

  lemma PinnedVersionLands(db: Db, s: State, a: Step, indexed: bool, k: string)
    requires SysInv(s) && Completes(s, a, indexed, k) && DbInv(NextDb(s, a, indexed))
    requires Extends(db, s.db) && Extends(db, NextDb(s, a, indexed)) && k in db.schedules
    ensures var row, after := db.schedules[k], NextDb(s, a, indexed);
            && row.contentId in after.contents
            && after.contents[row.contentId].publishedVersionId == Some(row.versionId)
            && Owns(after.versions, row.contentId, row.versionId)
            && |after.events| > 0
            && after.events[|after.events| - 1].scheduleId == Some(k)
            && IsEventOf(after.events[|after.events| - 1], row)
  {
    hide DbInv, SessionInv, Extends, IsEventOf, Completed, NextDb, SysInv, Owns, CompleteScheduledPublish;
    var after := NextDb(s, a, indexed);
    EventGrows(db, after, k);
    RowGrows(db, s.db, k);
    RowGrows(db, after, k);
    CompletesDb(s, a, indexed, k);
    HeldMatches(s, a.pid);
    CompletedPointer(s.db, s.processes[a.pid].held[0], a.now);
    ScheduleOwned(after, k);
  }

  /** A scheduled publish serves the version pinned when the schedule was created, of the same
      content: the event says so, and so does the pointer when it is moved. */
  lemma PublishesThePinnedVersion(r: Run, indexed: bool, i: nat, j: nat, k: string)
    requires IsRun(r, indexed) && i <= j < |r.steps|
    requires k in r.states[i].db.schedules
    requires CompletesAt(r, indexed, j, k)
    ensures var s, after := r.states[i].db.schedules[k], r.states[j + 1].db;
            && s.contentId in after.contents
            && after.contents[s.contentId].publishedVersionId == Some(s.versionId)
            && Owns(after.versions, s.contentId, s.versionId)
            && |after.events| > 0
            && after.events[|after.events| - 1].scheduleId == Some(k)
            && IsEventOf(after.events[|after.events| - 1], s)
  {
    hide Completes, DbInv, Extends, ProcessInv, SessionInv;
    RunStep(r, indexed, j);
    RunInv(r, indexed, j);
    RunExtends(r, indexed, i, j);
    RunExtends(r, indexed, i, j + 1);
    RunInv(r, indexed, j + 1);
    PinnedVersionLands(r.states[i].db, r.states[j], r.steps[j], indexed, k);
  }
}
