/** What each write transaction of internal/store does to a database, stated as one atomic
    step: who is refused and why, and the whole new state otherwise. The methods of
    `Storage.Store` issue the statements one by one and are proved equal to these. */
module Transactions {
  import opened Tables

  /** How a transaction ends: it lands, BEGIN fails, COMMIT fails without effect, or COMMIT
      takes effect and still reports an error. */
  datatype Fate = Lands | BeginFails | CommitFails | Unreported

  datatype Outcome<+T> = Outcome(db: Db, result: Result<T>)

  /** The wrapper every write goes through: an error of the body rolls back. */
  function Tx<T>(fate: Fate, before: Db, body: Outcome<T>): Outcome<T> {
    if fate.BeginFails? then Outcome(before, Err(TxFailed))
    else if body.result.Err? then Outcome(before, body.result)
    else if fate.Lands? then body
    else Outcome(if fate.Unreported? then body.db else before, Err(TxFailed))
  }

  /** What a body returns when its last statement ended with `err`. */
  function OkUnless<T>(err: Option<Error>, value: T): Result<T> {
    match err
    case Some(e) => Err(e)
    case None => Ok(value)
  }

  /** The AUTOINCREMENT insert into publish_events. */
  function AppendEvent(db: Db, e: Event): Db {
    db.(events := db.events + [e.(id := db.eventSeq + 1)], eventSeq := db.eventSeq + 1)
  }

  /** The AUTOINCREMENT insert into content_versions. */
  function AppendVersion(db: Db, contentId: string, number: int, f: VersionFields, actor: string, now: int): Db {
    var row := db.versionSeq + 1;
    db.(versions := db.versions[row := Version(row, contentId, number, actor, now, f)], versionSeq := row)
  }

  function SetPointer(db: Db, contentId: string, version: Option<int>, at: Option<int>, now: int): Db
    requires contentId in db.contents
  {
    db.(contents := db.contents[contentId :=
      db.contents[contentId].(publishedVersionId := version, publishedAt := at, updatedAt := now)])
  }

  function CreateContent(db: Db, id: string, slug: string, f: VersionFields, actor: string, now: int)
    : Outcome<ContentWithVersion>
  {
    if id in db.contents || SlugUsed(db.contents, slug) then Outcome(db, Err(SlugTaken))
    else
      var c := Content(id, slug, 1, None, None, now, now);
      var db' := AppendVersion(db.(contents := db.contents[id := c]), id, 1, f, actor, now);
      Outcome(db', Ok(ContentWithVersion(c, db'.versions[db'.versionSeq])))
  }

  function UpdateContent(db: Db, id: string, expected: int, f: VersionFields, actor: string, now: int)
    : Outcome<ContentWithVersion>
  {
    if id !in db.contents then Outcome(db, Err(NotFound))
    else if db.contents[id].currentVersion != expected then Outcome(db, Err(VersionConflict))
    else if HasVersion(db.versions, id, expected + 1) then Outcome(db, Err(ConstraintFailed(Unique)))
    else
      var c := db.contents[id].(currentVersion := expected + 1, updatedAt := now);
      var db' := AppendVersion(db.(contents := db.contents[id := c]), id, expected + 1, f, actor, now);
      Outcome(db', Ok(ContentWithVersion(c, db'.versions[db'.versionSeq])))
  }

  datatype PublishParams = PublishParams(
    contentId: string, versionId: int, source: Source, actor: string,
    scheduleId: Option<string>, now: int)

  function PublishEvent(p: PublishParams): Event {
    Event(0, p.contentId, Some(p.versionId), PublishAction, p.source, p.scheduleId, p.actor, p.now)
  }

  function Publish(db: Db, p: PublishParams, indexed: bool): Outcome<Content> {
    if p.contentId !in db.contents
      || p.versionId !in db.versions
      || db.versions[p.versionId].contentId != p.contentId then Outcome(db, Err(NotFound))
    else
      var already := db.contents[p.contentId].publishedVersionId == Some(p.versionId);
      if already && p.scheduleId.None? then Outcome(db, Ok(db.contents[p.contentId]))
      else if indexed && p.scheduleId.Some? && HasEvent(db.events, p.scheduleId.value) then
        Outcome(db, Err(ConstraintFailed(Unique)))
      else
        var db' := AppendEvent(
          if already then db else SetPointer(db, p.contentId, Some(p.versionId), Some(p.now), p.now),
          PublishEvent(p));
        Outcome(db', Ok(db'.contents[p.contentId]))
  }

  function Unpublish(db: Db, contentId: string, actor: string, now: int): Outcome<Content> {
    if contentId !in db.contents then Outcome(db, Err(NotFound))
    else
      var current := db.contents[contentId];
      if current.publishedVersionId.None? then Outcome(db, Ok(current))
      else
        var db' := AppendEvent(
          SetPointer(db, contentId, None, None, now),
          Event(0, contentId, current.publishedVersionId, UnpublishAction, Manual, None, actor, now));
        Outcome(db', Ok(db'.contents[contentId]))
  }

  function CreateSchedule(db: Db, id: string, contentId: string, versionId: int, runAt: int, now: int)
    : Outcome<Schedule>
  {
    if versionId !in db.versions || db.versions[versionId].contentId != contentId then
      Outcome(db, Err(NotFound))
    else if id in db.schedules || HasActive(db.schedules, contentId) then
      Outcome(db, Err(ScheduleExists))
    else
      var s := Schedule(id, contentId, versionId, runAt, Pending, 0, None, None, "", now, now);
      Outcome(db.(schedules := db.schedules[id := s]), Ok(s))
  }

  function Cancel(s: Schedule, now: int): Schedule {
    s.(status := Cancelled, lockedBy := None, lockExpiresAt := None, updatedAt := now)
  }

  function CancelSchedule(db: Db, id: string, now: int): Outcome<()> {
    if id !in db.schedules then Outcome(db, Err(NotFound))
    else if db.schedules[id].status != Pending then Outcome(db, Err(NotCancellable))
    else Outcome(db.(schedules := db.schedules[id := Cancel(db.schedules[id], now)]), Ok(()))
  }

  // ---------- the lease protocol ----------

  predicate IsDue(s: Schedule, now: int) {
    || (s.status == Pending && s.runAt <= now)
    || (s.status == Claimed && s.lockExpiresAt.Some? && s.lockExpiresAt.value <= now)
  }

  function Due(schedules: map<string, Schedule>, now: int): set<string> {
    set k | k in schedules && IsDue(schedules[k], now)
  }

  /** `chosen` is a possible answer of the claim's subquery: due rows, earliest run_at first up
      to `limit`, ties broken in any way. */
  ghost predicate IsBatch(schedules: map<string, Schedule>, now: int, limit: nat, chosen: set<string>) {
    var due := Due(schedules, now);
    && chosen <= due
    && |chosen| == (if |due| <= limit then |due| else limit)
    && (forall a, b | a in chosen && b in due && b !in chosen ::
          schedules[a].runAt <= schedules[b].runAt)
  }

  function Lease(s: Schedule, worker: string, now: int, expiry: int): Schedule {
    s.(status := Claimed, lockedBy := Some(worker), lockExpiresAt := Some(expiry),
       attempts := s.attempts + 1, updatedAt := now)
  }

  function Claim(db: Db, worker: string, now: int, expiry: int, chosen: set<string>): Db {
    db.(schedules := map k | k in db.schedules ::
      if k in chosen then Lease(db.schedules[k], worker, now, expiry) else db.schedules[k])
  }

  function JobOf(s: Schedule): ClaimedJob {
    ClaimedJob(s.id, s.contentId, s.versionId)
  }

  /** `jobs` lists the claimed rows, each once, in any order. */
  ghost predicate JobsFor(schedules: map<string, Schedule>, chosen: set<string>, jobs: seq<ClaimedJob>) {
    && (forall i | 0 <= i < |jobs| ::
          jobs[i].scheduleId in chosen && jobs[i].scheduleId in schedules
          && jobs[i] == JobOf(schedules[jobs[i].scheduleId]))
    && (forall i, j | 0 <= i < j < |jobs| :: jobs[i].scheduleId != jobs[j].scheduleId)
    && (forall k | k in chosen :: exists i :: 0 <= i < |jobs| && jobs[i].scheduleId == k)
  }

  function Finish(s: Schedule, now: int): Schedule {
    s.(status := Done, lockedBy := None, lockExpiresAt := None, updatedAt := now)
  }

  function JobEvent(job: ClaimedJob, now: int): Event {
    Event(0, job.contentId, Some(job.versionId), PublishAction, Scheduled, Some(job.scheduleId), "", now)
  }

  /** The published pointer, the audit row and the closed job, all at once. */
  function Completed(db: Db, job: ClaimedJob, now: int): Db
    requires job.contentId in db.contents && job.scheduleId in db.schedules
  {
    var pointed := SetPointer(db, job.contentId, Some(job.versionId), Some(now), now);
    AppendEvent(pointed, JobEvent(job, now))
      .(schedules := db.schedules[job.scheduleId := Finish(db.schedules[job.scheduleId], now)])
  }

  function CompleteScheduledPublish(db: Db, job: ClaimedJob, worker: string, now: int, indexed: bool): Outcome<()> {
    if job.contentId in db.contents && job.versionId !in db.versions then
      Outcome(db, Err(ConstraintFailed(ForeignKey)))
    else if indexed && HasEvent(db.events, job.scheduleId) then
      Outcome(db, Err(ConstraintFailed(Unique)))
    else if job.contentId !in db.contents || job.versionId !in db.versions then
      Outcome(db, Err(ConstraintFailed(ForeignKey)))
    else if !HoldsLease(db.schedules, job.scheduleId, worker) then
      Outcome(db, Err(LeaseLost))
    else
      Outcome(Completed(db, job, now), Ok(()))
  }

  /** A row going back to pending, with the error text it keeps. */
  function Reopen(s: Schedule, lastError: string, now: int): Schedule {
    s.(status := Pending, lockedBy := None, lockExpiresAt := None, lastError := lastError, updatedAt := now)
  }

  function FailSchedule(db: Db, scheduleId: string, worker: string, reason: string, now: int): Outcome<()> {
    if HoldsLease(db.schedules, scheduleId, worker) then
      Outcome(db.(schedules := db.schedules[scheduleId := Reopen(db.schedules[scheduleId], reason, now)]), Ok(()))
    else
      Outcome(db, Ok(()))
  }

  function LockedBy(schedules: map<string, Schedule>, worker: string): set<string> {
    set k | k in schedules && HoldsLease(schedules, k, worker)
  }

  function ReleaseClaims(db: Db, worker: string, now: int): Outcome<int> {
    var held := LockedBy(db.schedules, worker);
    Outcome(
      db.(schedules := map k | k in db.schedules ::
        if k in held then Reopen(db.schedules[k], db.schedules[k].lastError, now) else db.schedules[k]),
      Ok(|held|))
  }

  // ---------- the worker's calls in sequence ----------

  /** Everything a worker cannot choose about one job: the clock reading and how its two
      transactions end. */
  datatype Luck = Luck(now: int, complete: Fate, fail: Fate, reason: string)

  function Execute(db: Db, job: ClaimedJob, worker: string, luck: Luck, indexed: bool): Db {
    var done := Tx(luck.complete, db, CompleteScheduledPublish(db, job, worker, luck.now, indexed));
    if done.result.Err? && done.result.error != LeaseLost
    then Tx(luck.fail, done.db, FailSchedule(done.db, job.scheduleId, worker, luck.reason, luck.now)).db
    else done.db
  }

  function ExecuteAll(db: Db, jobs: seq<ClaimedJob>, worker: string, luck: string -> Luck, indexed: bool): Db
    decreases |jobs|
  {
    if jobs == [] then db
    else ExecuteAll(Execute(db, jobs[0], worker, luck(jobs[0].scheduleId), indexed), jobs[1..], worker, luck, indexed)
  }
}
