/** No transaction leaves a state the schema forbids. */
module Schema {
  import opened Tables
  import opened Transactions

  lemma AppendVersionKeeps(db: Db, contentId: string, number: int, f: VersionFields, actor: string, now: int, indexed: bool)
    requires SchemaOk(db, indexed) && contentId in db.contents
    requires !HasVersion(db.versions, contentId, number)
    ensures SchemaOk(AppendVersion(db, contentId, number, f, actor, now), indexed)
  {
    var db' := AppendVersion(db, contentId, number, f, actor, now);
    assert db.versionSeq + 1 !in db.versions;
    forall a | a in db.versions
      ensures !(db.versions[a].contentId == contentId && db.versions[a].number == number)
    {
      assert !IsVersion(db.versions, a, contentId, number);
    }
    assert NumbersUnique(db'.versions);
    assert ForeignKeysOk(db');
  }

  lemma AddContentKeeps(db: Db, c: Content, indexed: bool)
    requires SchemaOk(db, indexed)
    requires c.id !in db.contents && !SlugUsed(db.contents, c.slug) && c.publishedVersionId.None?
    ensures SchemaOk(db.(contents := db.contents[c.id := c]), indexed)
    ensures !HasVersion(db.versions, c.id, 1)
  {
    forall r | r in db.versions
      ensures !IsVersion(db.versions, r, c.id, 1)
    {
    }
  }

  lemma ChangeContentKeeps(db: Db, id: string, c: Content, indexed: bool)
    requires SchemaOk(db, indexed) && id in db.contents
    requires c.id == id && c.slug == db.contents[id].slug
    requires c.publishedVersionId.Some? ==> c.publishedVersionId.value in db.versions
    ensures SchemaOk(db.(contents := db.contents[id := c]), indexed)
  {
    var db' := db.(contents := db.contents[id := c]);
    forall a | a in db'.contents
      ensures db'.contents[a].slug == db.contents[a].slug
    {
    }
    assert SlugsUnique(db'.contents);
    assert ForeignKeysOk(db');
  }

  lemma AppendEventKeeps(db: Db, e: Event, indexed: bool)
    requires SchemaOk(db, indexed)
    requires e.contentId in db.contents && (e.versionId.Some? ==> e.versionId.value in db.versions)
    requires indexed && e.scheduleId.Some? ==> !HasEvent(db.events, e.scheduleId.value)
    ensures SchemaOk(AppendEvent(db, e), indexed)
  {
    var db' := AppendEvent(db, e);
    assert ForeignKeysOk(db');
  }

  /** Rewriting schedule rows is allowed when they keep their keys and pinned columns and no
      row becomes active that was not. */
  ghost predicate SafeRewrite(schedules: map<string, Schedule>, next: map<string, Schedule>) {
    && next.Keys == schedules.Keys
    && forall k | k in schedules ::
         && next[k].id == schedules[k].id
         && next[k].contentId == schedules[k].contentId
         && next[k].versionId == schedules[k].versionId
         && (Active(next[k]) ==> Active(schedules[k]))
  }

  lemma RewriteKeeps(db: Db, next: map<string, Schedule>, indexed: bool)
    requires SchemaOk(db, indexed) && SafeRewrite(db.schedules, next)
    ensures OneActive(next)
    ensures SchemaOk(db.(schedules := next), indexed)
  {
    assert ForeignKeysOk(db.(schedules := next));
  }

  lemma AddScheduleKeeps(db: Db, s: Schedule, indexed: bool)
    requires SchemaOk(db, indexed)
    requires s.id !in db.schedules && !HasActive(db.schedules, s.contentId)
    requires s.contentId in db.contents && s.versionId in db.versions
    ensures SchemaOk(db.(schedules := db.schedules[s.id := s]), indexed)
  {
    forall k | k in db.schedules
      ensures !(Active(db.schedules[k]) && db.schedules[k].contentId == s.contentId)
    {
    }
    var db' := db.(schedules := db.schedules[s.id := s]);
    assert OneActive(db'.schedules);
    assert ForeignKeysOk(db');
  }

  // ---------- one lemma for each transaction ----------

  lemma CreateContentKeeps(db: Db, id: string, slug: string, f: VersionFields, actor: string, now: int, indexed: bool)
    requires SchemaOk(db, indexed)
    ensures SchemaOk(CreateContent(db, id, slug, f, actor, now).db, indexed)
  {
    if id !in db.contents && !SlugUsed(db.contents, slug) {
      var c := Content(id, slug, 1, None, None, now, now);
      AddContentKeeps(db, c, indexed);
      AppendVersionKeeps(db.(contents := db.contents[id := c]), id, 1, f, actor, now, indexed);
    }
  }

  lemma UpdateContentKeeps(db: Db, id: string, expected: int, f: VersionFields, actor: string, now: int, indexed: bool)
    requires SchemaOk(db, indexed)
    ensures SchemaOk(UpdateContent(db, id, expected, f, actor, now).db, indexed)
  {
    if id in db.contents && !HasVersion(db.versions, id, expected + 1) {
      var c := db.contents[id].(currentVersion := expected + 1, updatedAt := now);
      ChangeContentKeeps(db, id, c, indexed);
      AppendVersionKeeps(db.(contents := db.contents[id := c]), id, expected + 1, f, actor, now, indexed);
    }
  }

  lemma SetPointerKeeps(db: Db, id: string, version: Option<int>, at: Option<int>, now: int, indexed: bool)
    requires SchemaOk(db, indexed) && id in db.contents
    requires version.Some? ==> version.value in db.versions
    ensures SchemaOk(SetPointer(db, id, version, at, now), indexed)
  {
    ChangeContentKeeps(db, id,
      db.contents[id].(publishedVersionId := version, publishedAt := at, updatedAt := now), indexed);
  }

  lemma PublishKeeps(db: Db, p: PublishParams, indexed: bool)
    requires SchemaOk(db, indexed)
    ensures SchemaOk(Publish(db, p, indexed).db, indexed)
  {
    if Publish(db, p, indexed).db != db {
      var already := db.contents[p.contentId].publishedVersionId == Some(p.versionId);
      var db' := if already then db else SetPointer(db, p.contentId, Some(p.versionId), Some(p.now), p.now);
      if !already {
        SetPointerKeeps(db, p.contentId, Some(p.versionId), Some(p.now), p.now, indexed);
      }
      AppendEventKeeps(db', PublishEvent(p), indexed);
    }
  }

  lemma UnpublishKeeps(db: Db, contentId: string, actor: string, now: int, indexed: bool)
    requires SchemaOk(db, indexed)
    ensures SchemaOk(Unpublish(db, contentId, actor, now).db, indexed)
  {
    if contentId in db.contents && db.contents[contentId].publishedVersionId.Some? {
      var version := db.contents[contentId].publishedVersionId;
      SetPointerKeeps(db, contentId, None, None, now, indexed);
      AppendEventKeeps(SetPointer(db, contentId, None, None, now),
        Event(0, contentId, version, UnpublishAction, Manual, None, actor, now), indexed);
    }
  }

  lemma CreateScheduleKeeps(db: Db, id: string, contentId: string, versionId: int, runAt: int, now: int, indexed: bool)
    requires SchemaOk(db, indexed)
    ensures SchemaOk(CreateSchedule(db, id, contentId, versionId, runAt, now).db, indexed)
  {
    var out := CreateSchedule(db, id, contentId, versionId, runAt, now);
    if out.result.Ok? {
      AddScheduleKeeps(db, out.result.value, indexed);
    }
  }

  lemma CancelScheduleKeeps(db: Db, id: string, now: int, indexed: bool)
    requires SchemaOk(db, indexed)
    ensures SchemaOk(CancelSchedule(db, id, now).db, indexed)
  {
    if id in db.schedules && db.schedules[id].status == Pending {
      RewriteKeeps(db, db.schedules[id := Cancel(db.schedules[id], now)], indexed);
    }
  }

  lemma DueRowsExist(schedules: map<string, Schedule>, now: int)
    ensures Due(schedules, now) <= schedules.Keys
  {
  }

  /** `chosen` and `rest` split the due rows, the earlier run_at in `chosen`. */
  ghost predicate SplitsDue(schedules: map<string, Schedule>, now: int, chosen: set<string>, rest: set<string>) {
    && chosen !! rest && chosen + rest == Due(schedules, now)
    && |chosen| + |rest| == |Due(schedules, now)|
    && forall a, b | a in chosen && b in rest :: schedules[a].runAt <= schedules[b].runAt
  }

  lemma NothingChosen(schedules: map<string, Schedule>, now: int)
    ensures SplitsDue(schedules, now, {}, Due(schedules, now))
  {
  }

  lemma SplitStep(schedules: map<string, Schedule>, now: int, chosen: set<string>, rest: set<string>, k: string)
    requires SplitsDue(schedules, now, chosen, rest) && k in rest && rest <= schedules.Keys
    requires forall a | a in rest :: schedules[k].runAt <= schedules[a].runAt
    ensures SplitsDue(schedules, now, chosen + {k}, rest - {k})
  {
  }

  lemma SplitIsBatch(schedules: map<string, Schedule>, now: int, limit: nat, chosen: set<string>, rest: set<string>)
    requires SplitsDue(schedules, now, chosen, rest)
    requires |chosen| == limit || (|chosen| < limit && rest == {})
    ensures IsBatch(schedules, now, limit, chosen)
  {
  }

  lemma BatchIsActive(schedules: map<string, Schedule>, now: int, limit: nat, chosen: set<string>)
    requires IsBatch(schedules, now, limit, chosen)
    ensures forall k | k in chosen :: k in schedules && Active(schedules[k])
  {
    forall k | k in chosen
      ensures k in schedules && Active(schedules[k])
    {
      assert k in Due(schedules, now);
    }
  }

  lemma ClaimKeeps(db: Db, worker: string, now: int, expiry: int, chosen: set<string>, indexed: bool)
    requires SchemaOk(db, indexed)
    requires forall k | k in chosen && k in db.schedules :: Active(db.schedules[k])
    ensures OneActive(Claim(db, worker, now, expiry, chosen).schedules)
    ensures SchemaOk(Claim(db, worker, now, expiry, chosen), indexed)
  {
    RewriteKeeps(db, Claim(db, worker, now, expiry, chosen).schedules, indexed);
  }

  lemma CompleteKeeps(db: Db, job: ClaimedJob, worker: string, now: int, indexed: bool)
    requires SchemaOk(db, indexed)
    ensures SchemaOk(CompleteScheduledPublish(db, job, worker, now, indexed).db, indexed)
  {
    hide KeysOk, SlugsUnique, NumbersUnique, OneActive, OneEventEach, ForeignKeysOk;
    if CompleteScheduledPublish(db, job, worker, now, indexed).result.Ok? {
      var pointed := SetPointer(db, job.contentId, Some(job.versionId), Some(now), now);
      SetPointerKeeps(db, job.contentId, Some(job.versionId), Some(now), now, indexed);
      AppendEventKeeps(pointed, JobEvent(job, now), indexed);
      RewriteKeeps(AppendEvent(pointed, JobEvent(job, now)),
        db.schedules[job.scheduleId := Finish(db.schedules[job.scheduleId], now)], indexed);
    }
  }

  lemma FailScheduleKeeps(db: Db, scheduleId: string, worker: string, reason: string, now: int, indexed: bool)
    requires SchemaOk(db, indexed)
    ensures SchemaOk(FailSchedule(db, scheduleId, worker, reason, now).db, indexed)
  {
    if HoldsLease(db.schedules, scheduleId, worker) {
      RewriteKeeps(db, db.schedules[scheduleId := Reopen(db.schedules[scheduleId], reason, now)], indexed);
    }
  }

  lemma ReleaseClaimsKeeps(db: Db, worker: string, now: int, indexed: bool)
    requires SchemaOk(db, indexed)
    ensures SchemaOk(ReleaseClaims(db, worker, now).db, indexed)
  {
    RewriteKeeps(db, ReleaseClaims(db, worker, now).db.schedules, indexed);
  }
}
