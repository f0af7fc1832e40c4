/** Every transaction told in the columns of the tables: when it succeeds, when it is refused and
    how, and each row it leaves. Nothing here goes through the predicates that the transactions
    are written with. */
module Columns {
  import opened Tables
  import opened Transactions
  import opened Invariants
  import opened Editing

  // ---------- the wrapper ----------

  lemma TxMeans<T>(fate: Fate, before: Db, body: Outcome<T>)
    ensures var out := Tx(fate, before, body);
            && out.db == (if body.result.Ok? && (fate == Lands || fate == Unreported) then body.db else before)
            && (out.result.Ok? <==> body.result.Ok? && fate == Lands)
            && (out.result.Ok? ==> out.result == body.result)
            && (out.result.Err? ==>
                  out.result == if body.result.Err? && fate != BeginFails then body.result else Err(TxFailed))
  {
  }

  // ---------- contents ----------

  lemma FreshRow(db: Db)
    requires KeysOk(db)
    ensures db.versionSeq + 1 !in db.versions
  {
  }

  /** A content is created unless its id or its slug is in use; then its row and its version 1
      are there, with the given fields, and nothing else has changed. */
  lemma CreateContentMeans(db: Db, id: string, slug: string, f: VersionFields, actor: string, now: int)
    requires KeysOk(db)
    ensures var out := CreateContent(db, id, slug, f, actor, now);
            var taken := id in db.contents || exists c | c in db.contents :: db.contents[c].slug == slug;
            && (out.result == Err(SlugTaken) <==> taken) && (out.result.Ok? <==> !taken)
            && (taken ==> out.db == db)
            && (!taken ==>
                  exists row | row !in db.versions ::
                    var c, v := Content(id, slug, 1, None, None, now, now), Version(row, id, 1, actor, now, f);
                    && out.db == db.(contents := db.contents[id := c], versions := db.versions[row := v], versionSeq := row)
                    && out.result == Ok(ContentWithVersion(c, v)))
  {
    FreshRow(db);
    assert db.versionSeq + 1 !in db.versions;
  }

  /** An edit succeeds exactly on the version it expects; then the number is one higher, the new
      version is there with the given fields, and every other column is as it was. */
  lemma UpdateContentMeans(db: Db, id: string, expected: int, f: VersionFields, actor: string, now: int)
    requires DbInv(db)
    ensures var out := UpdateContent(db, id, expected, f, actor, now);
            && (out.result == Err(NotFound) <==> id !in db.contents)
            && (out.result == Err(VersionConflict) <==> id in db.contents && db.contents[id].currentVersion != expected)
            && (out.result.Ok? <==> id in db.contents && db.contents[id].currentVersion == expected)
            && (out.result.Err? ==> out.db == db)
            && (out.result.Ok? ==>
                  exists row | row !in db.versions ::
                    var b := db.contents[id];
                    var c := Content(b.id, b.slug, expected + 1, b.publishedVersionId, b.publishedAt, b.createdAt, now);
                    var v := Version(row, id, expected + 1, actor, now, f);
                    && out.db == db.(contents := db.contents[id := c], versions := db.versions[row := v], versionSeq := row)
                    && out.result == Ok(ContentWithVersion(c, v)))
  {
    hide SlugsUnique, NumbersUnique, OneActive, ForeignKeysOk, History, Ownership, Leases, ExactlyOnce, Audit, HasVersion;
    BackstopNeverFires(db, id, expected, f, actor, now);
    FreshRow(db);
    assert db.versionSeq + 1 !in db.versions;
  }

  // ---------- publishing ----------

  /** Publishing succeeds exactly on a version of the content, unless the index has an event of
      the named schedule already. Without a schedule, the version that is public already is left
      alone; else the log has one more row that names version, source, schedule and actor, and the
      pointer and both stamps move if the version is another. The row returned is the row stored. */
  lemma PublishMeans(db: Db, p: PublishParams, indexed: bool)
    ensures var out, c, v := Publish(db, p, indexed), p.contentId, p.versionId;
            var known := c in db.contents && v in db.versions && db.versions[v].contentId == c;
            var again := c in db.contents && db.contents[c].publishedVersionId == Some(v);
            var logged := indexed && p.scheduleId != None
                          && exists e | 0 <= e < |db.events| :: db.events[e].scheduleId == p.scheduleId;
            && (out.result == Err(NotFound) <==> !known) && (out.result.Ok? <==> known && !logged)
            && (out.result.Err? ==> out.db == db)
            && (known && again && p.scheduleId == None ==> out.db == db && out.result == Ok(db.contents[c]))
            && (known && !logged && !(again && p.scheduleId == None) ==>
                  exists id | id > db.eventSeq ::
                    var b := db.contents[c];
                    var row := if again then b
                               else Content(b.id, b.slug, b.currentVersion, Some(v), Some(p.now), b.createdAt, p.now);
                    && out.db == db.(contents := db.contents[c := row], eventSeq := id,
                         events := db.events
                           + [Event(id, c, Some(v), PublishAction, p.source, p.scheduleId, p.actor, p.now)])
                    && out.result == Ok(row))
  {
    assert db.eventSeq + 1 > db.eventSeq;
    assert p.contentId in db.contents ==> db.contents[p.contentId := db.contents[p.contentId]] == db.contents;
  }

  /** Unpublishing succeeds exactly on a known content. On one that is not public it changes
      nothing; else the pointer is gone, and the log has one more row that names the version
      withdrawn and the actor. */
  lemma UnpublishMeans(db: Db, c: string, actor: string, now: int)
    ensures var out := Unpublish(db, c, actor, now);
            && (out.result == Err(NotFound) <==> c !in db.contents) && (out.result.Ok? <==> c in db.contents)
            && (c !in db.contents ==> out.db == db)
            && (c in db.contents && db.contents[c].publishedVersionId == None ==>
                  out.db == db && out.result == Ok(db.contents[c]))
            && (c in db.contents && db.contents[c].publishedVersionId != None ==>
                  exists id | id > db.eventSeq ::
                    var b := db.contents[c];
                    var row := Content(b.id, b.slug, b.currentVersion, None, None, b.createdAt, now);
                    && out.db == db.(contents := db.contents[c := row], eventSeq := id,
                         events := db.events
                           + [Event(id, c, b.publishedVersionId, UnpublishAction, Manual, None, actor, now)])
                    && out.result == Ok(row))
  {
    assert db.eventSeq + 1 > db.eventSeq;
  }

  // ---------- schedules ----------

  /** A schedule is created exactly for a version of the content, under an unused id, while the
      content itself has no pending or claimed one. */
  lemma CreateScheduleMeans(db: Db, id: string, c: string, v: int, runAt: int, now: int)
    ensures var out := CreateSchedule(db, id, c, v, runAt, now);
            var owned := v in db.versions && db.versions[v].contentId == c;
            var busy := exists k | k in db.schedules ::
                          db.schedules[k].contentId == c
                          && (db.schedules[k].status == Pending || db.schedules[k].status == Claimed);
            && (out.result == Err(NotFound) <==> !owned)
            && (out.result == Err(ScheduleExists) <==> owned && (id in db.schedules || busy))
            && (out.result.Ok? <==> owned && id !in db.schedules && !busy)
            && (out.result.Err? ==> out.db == db)
            && (out.result.Ok? ==>
                  var s := Schedule(id, c, v, runAt, Pending, 0, None, None, "", now, now);
                  out.db == db.(schedules := db.schedules[id := s]) && out.result == Ok(s))
  {
  }

  /** A cancel succeeds exactly on a pending schedule. */
  lemma CancelScheduleMeans(db: Db, id: string, now: int)
    ensures var out := CancelSchedule(db, id, now);
            && (out.result == Err(NotFound) <==> id !in db.schedules)
            && (out.result == Err(NotCancellable) <==> id in db.schedules && db.schedules[id].status != Pending)
            && (out.result.Ok? <==> id in db.schedules && db.schedules[id].status == Pending)
            && (out.result.Err? ==> out.db == db)
            && (out.result.Ok? ==>
                  var b := db.schedules[id];
                  out.db == db.(schedules := db.schedules[id := Schedule(b.id, b.contentId, b.versionId, b.runAt,
                              Cancelled, b.attempts, None, None, b.lastError, b.createdAt, now)]))
  {
  }

  // ---------- the lease protocol ----------

  /** A row can be claimed at `now` if it is pending and its run_at has come, or claimed and its
      deadline has: whatever its attempts, its last error or its stamps. */
  predicate Claimable(s: Schedule, now: int) {
    match s.status
    case Pending => s.runAt <= now
    case Claimed => s.lockExpiresAt != None && s.lockExpiresAt.value <= now
    case _ => false
  }

  lemma ClaimableMeans(schedules: map<string, Schedule>, now: int, k: string)
    ensures k in Due(schedules, now) ==> k in schedules && (schedules[k].status == Pending || schedules[k].status == Claimed)
    ensures k in schedules && schedules[k].status == Pending ==> (k in Due(schedules, now) <==> schedules[k].runAt <= now)
    ensures k in schedules && schedules[k].status == Claimed ==>
              (k in Due(schedules, now) <==> schedules[k].lockExpiresAt != None && schedules[k].lockExpiresAt.value <= now)
    ensures k in Due(schedules, now) <==> k in schedules && Claimable(schedules[k], now)
  {
  }

  lemma SubsetSize<T>(a: set<T>, b: set<T>)
    requires a <= b
    ensures |a| <= |b|
    ensures |a| == |b| ==> a == b
  {
    assert b == a + (b - a);
  }

  /** The batch: claimable rows, as many as there are or as fit, and none that is scheduled later
      than a claimable row left out. */
  lemma BatchMeans(schedules: map<string, Schedule>, now: int, limit: nat, chosen: set<string>)
    ensures var claimable := set k | k in schedules && Claimable(schedules[k], now);
            IsBatch(schedules, now, limit, chosen) <==>
              && chosen <= claimable
              && (|chosen| == limit || (|chosen| < limit && chosen == claimable))
              && (forall a, b | a in chosen && b in claimable && b !in chosen :: schedules[a].runAt <= schedules[b].runAt)
  {
    var claimable := set k | k in schedules && Claimable(schedules[k], now);
    assert claimable == Due(schedules, now);
    if chosen <= claimable {
      SubsetSize(chosen, claimable);
    }
  }

  /** Claiming leases the chosen rows and counts the attempt; nothing else changes. */
  lemma ClaimMeans(db: Db, worker: string, now: int, expiry: int, chosen: set<string>)
    ensures var after := Claim(db, worker, now, expiry, chosen);
            && after == db.(schedules := after.schedules) && after.schedules.Keys == db.schedules.Keys
            && forall k | k in db.schedules ::
                 var b := db.schedules[k];
                 after.schedules[k] ==
                   if k in chosen
                   then Schedule(b.id, b.contentId, b.versionId, b.runAt, Claimed, b.attempts + 1,
                                 Some(worker), Some(expiry), b.lastError, b.createdAt, now)
                   else b
  {
  }

  /** The jobs: the ids of the chosen rows, each once, with the content and version they pin. */
  lemma JobsMean(schedules: map<string, Schedule>, chosen: set<string>, jobs: seq<ClaimedJob>)
    requires chosen <= schedules.Keys && forall k | k in schedules :: schedules[k].id == k
    ensures JobsFor(schedules, chosen, jobs) <==>
              && (forall i | 0 <= i < |jobs| ::
                    && jobs[i].scheduleId in chosen
                    && jobs[i].contentId == schedules[jobs[i].scheduleId].contentId
                    && jobs[i].versionId == schedules[jobs[i].scheduleId].versionId)
              && (forall i, j | 0 <= i < |jobs| && 0 <= j < |jobs| && jobs[i].scheduleId == jobs[j].scheduleId :: i == j)
              && (forall k | k in chosen :: exists i :: 0 <= i < |jobs| && jobs[i].scheduleId == k)
  {
  }

  /** The row is claimed, and under this worker's id. */
  predicate LeasedTo(db: Db, k: string, worker: string) {
    k in db.schedules && db.schedules[k].status == Claimed && db.schedules[k].lockedBy == Some(worker)
  }

  /** A completion succeeds exactly when content and version exist, the index (if there is one)
      has no event of the schedule yet, and the row is claimed under the worker's id. It then
      moves the pointer, logs the event and closes the row; otherwise nothing changes. */
  lemma CompleteMeans(db: Db, job: ClaimedJob, worker: string, now: int, indexed: bool)
    ensures var out := CompleteScheduledPublish(db, job, worker, now, indexed);
            var k, c := job.scheduleId, job.contentId;
            var known := c in db.contents && job.versionId in db.versions;
            var logged := indexed && exists e | 0 <= e < |db.events| :: db.events[e].scheduleId == Some(k);
            && (out.result.Ok? <==> known && !logged && LeasedTo(db, k, worker))
            && (out.result == Err(LeaseLost) <==> known && !logged && !LeasedTo(db, k, worker))
            && (out.result.Err? ==> out.db == db)
            && (out.result.Ok? ==>
                  exists id | id > db.eventSeq ::
                    var b, s := db.contents[c], db.schedules[k];
                    out.db == Db(
                      db.contents[c := Content(b.id, b.slug, b.currentVersion, Some(job.versionId), Some(now),
                                               b.createdAt, now)],
                      db.versions, db.versionSeq,
                      db.schedules[k := Schedule(s.id, s.contentId, s.versionId, s.runAt, Done, s.attempts, None, None,
                                                 s.lastError, s.createdAt, now)],
                      db.events + [Event(id, c, Some(job.versionId), PublishAction, Scheduled, Some(k), "", now)],
                      id))
  {
    assert db.eventSeq + 1 > db.eventSeq;
  }

  /** A failed job goes back to pending with the reason, if the lease is still the worker's. */
  lemma FailMeans(db: Db, k: string, worker: string, reason: string, now: int)
    ensures var out := FailSchedule(db, k, worker, reason, now);
            && out.result == Ok(())
            && (!LeasedTo(db, k, worker) ==> out.db == db)
            && (LeasedTo(db, k, worker) ==>
                  var s := db.schedules[k];
                  out.db == db.(schedules := db.schedules[k := Schedule(s.id, s.contentId, s.versionId, s.runAt, Pending,
                              s.attempts, None, None, reason, s.createdAt, now)]))
  {
  }

  /** The release at shutdown gives back every row leased to the worker, and counts them. */
  lemma ReleaseMeans(db: Db, worker: string, now: int)
    ensures var out := ReleaseClaims(db, worker, now);
            && out.result == Ok(|set k | k in db.schedules && LeasedTo(db, k, worker)|)
            && out.db == db.(schedules := out.db.schedules) && out.db.schedules.Keys == db.schedules.Keys
            && forall k | k in db.schedules ::
                 var s := db.schedules[k];
                 out.db.schedules[k] ==
                   if LeasedTo(db, k, worker)
                   then Schedule(s.id, s.contentId, s.versionId, s.runAt, Pending, s.attempts, None, None,
                                 s.lastError, s.createdAt, now)
                   else s
  {
    assert LockedBy(db.schedules, worker) == set k | k in db.schedules && LeasedTo(db, k, worker);
  }
}
