/** The store as it runs: tables updated statement by statement inside a transaction that
    keeps a rollback image, with every statement checked against the schema. Each public
    method is proved to do exactly what `Transactions` says in one step. */
module Storage {
  import opened Tables
  import opened Transactions
  import opened Schema

  class Store {
    var contents: map<string, Content>
    var versions: map<int, Version>
    var versionSeq: int
    var schedules: map<string, Schedule>
    var events: seq<Event>
    var eventSeq: int

    /** The rollback image while a write transaction is open. */
    var journal: Option<Db>

    /** Whether ux_event_per_schedule exists. */
    const indexed: bool

    function Db(): Db
      reads this
    {
      Tables.Db(contents, versions, versionSeq, schedules, events, eventSeq)
    }

    ghost predicate Valid()
      reads this
    {
      journal.None? && SchemaOk(Db(), indexed)
    }

    constructor (indexed: bool)
      ensures Valid() && Db() == EMPTY_DB && this.indexed == indexed
    {
      contents, versions, versionSeq := map[], map[], 0;
      schedules, events, eventSeq := map[], [], 0;
      journal := None;
      this.indexed := indexed;
    }

    /** Other connections write the same file; this one next finds it as `found`. */
    method Interleave(found: Db)
      requires journal.None? && SchemaOk(found, indexed)
      modifies this
      ensures Valid() && Db() == found
    {
      contents, versions, versionSeq := found.contents, found.versions, found.versionSeq;
      schedules, events, eventSeq := found.schedules, found.events, found.eventSeq;
    }

    // ---------- the transaction wrapper ----------

    method Begin(fate: Fate) returns (open: bool)
      requires journal.None?
      modifies this`journal
      ensures open == !fate.BeginFails?
      ensures journal == if open then Some(Db()) else None
    {
      open := !fate.BeginFails?;
      if open {
        journal := Some(Db());
      }
    }

    method Rollback()
      modifies this
      ensures journal.None?
      ensures Db() == (if old(journal).Some? then old(journal).value else old(Db()))
    {
      if journal.Some? {
        var image := journal.value;
        contents, versions, versionSeq := image.contents, image.versions, image.versionSeq;
        schedules, events, eventSeq := image.schedules, image.events, image.eventSeq;
        journal := None;
      }
    }

    /** The tail of the wrapper: commit unless the body failed, and roll back whatever was
        not committed. After a commit that took effect the deferred rollback finds nothing
        to undo, even when the commit reported an error. */
    method End<T>(fate: Fate, body: Result<T>) returns (r: Result<T>)
      requires journal.Some? && !fate.BeginFails?
      modifies this
      ensures journal.None?
      ensures Outcome(Db(), r) == Tx(fate, old(journal).value, Outcome(old(Db()), body))
    {
      r := body;
      if body.Ok? {
        if !fate.CommitFails? {
          journal := None;
        }
        if !fate.Lands? {
          r := Err(TxFailed);
        }
      }
      Rollback();
    }

    // ---------- single statements ----------

    /** INSERT INTO contents */
    method InsertContent(c: Content) returns (err: Option<Error>)
      modifies this`contents
      ensures err == if c.id in old(contents) then Some(ConstraintFailed(PrimaryKey))
                     else if SlugUsed(old(contents), c.slug) then Some(ConstraintFailed(Unique)) else None
      ensures contents == if err.None? then old(contents)[c.id := c] else old(contents)
    {
      if c.id in contents {
        return Some(ConstraintFailed(PrimaryKey));
      }
      if SlugUsed(contents, c.slug) {
        return Some(ConstraintFailed(Unique));
      }
      contents := contents[c.id := c];
      err := None;
    }

    /** INSERT INTO content_versions */
    method InsertVersion(contentId: string, number: int, f: VersionFields, actor: string, now: int)
      returns (err: Option<Error>, row: int)
      modifies this`versions, this`versionSeq
      ensures err == if HasVersion(old(versions), contentId, number) then Some(ConstraintFailed(Unique))
                     else if contentId !in contents then Some(ConstraintFailed(ForeignKey)) else None
      ensures err.None? ==> Db() == AppendVersion(old(Db()), contentId, number, f, actor, now) && row == versionSeq
      ensures err.Some? ==> Db() == old(Db())
    {
      row := 0;
      if HasVersion(versions, contentId, number) {
        return Some(ConstraintFailed(Unique)), row;
      }
      if contentId !in contents {
        return Some(ConstraintFailed(ForeignKey)), row;
      }
      row := versionSeq + 1;
      versions := versions[row := Version(row, contentId, number, actor, now, f)];
      versionSeq := row;
      err := None;
    }

    /** UPDATE contents SET current_version = current_version + 1 ... WHERE id = ? AND current_version = ? */
    method BumpVersion(id: string, expected: int, now: int) returns (affected: int)
      modifies this`contents
      ensures affected == if id in old(contents) && old(contents)[id].currentVersion == expected then 1 else 0
      ensures contents == if affected == 0 then old(contents)
                          else old(contents)[id := old(contents)[id].(currentVersion := expected + 1, updatedAt := now)]
    {
      affected := 0;
      if id in contents && contents[id].currentVersion == expected {
        contents := contents[id := contents[id].(currentVersion := contents[id].currentVersion + 1, updatedAt := now)];
        affected := 1;
      }
    }

    /** UPDATE contents SET published_version_id = ?, published_at = ?, updated_at = ? WHERE id = ? */
    method UpdatePointer(id: string, version: Option<int>, at: Option<int>, now: int) returns (err: Option<Error>)
      modifies this`contents
      ensures err == if id in old(contents) && version.Some? && version.value !in versions
                     then Some(ConstraintFailed(ForeignKey)) else None
      ensures Db() == if err.None? && id in old(contents) then SetPointer(old(Db()), id, version, at, now) else old(Db())
    {
      err := None;
      if id in contents {
        if version.Some? && version.value !in versions {
          return Some(ConstraintFailed(ForeignKey));
        }
        contents := contents[id := contents[id].(publishedVersionId := version, publishedAt := at, updatedAt := now)];
      }
    }

    /** INSERT INTO publish_events */
    method InsertEvent(e: Event) returns (err: Option<Error>)
      modifies this`events, this`eventSeq
      ensures err == if indexed && e.scheduleId.Some? && HasEvent(old(events), e.scheduleId.value)
                     then Some(ConstraintFailed(Unique))
                     else if e.contentId !in contents || (e.versionId.Some? && e.versionId.value !in versions)
                     then Some(ConstraintFailed(ForeignKey)) else None
      ensures Db() == if err.None? then AppendEvent(old(Db()), e) else old(Db())
    {
      if indexed && e.scheduleId.Some? && HasEvent(events, e.scheduleId.value) {
        return Some(ConstraintFailed(Unique));
      }
      if e.contentId !in contents || (e.versionId.Some? && e.versionId.value !in versions) {
        return Some(ConstraintFailed(ForeignKey));
      }
      eventSeq := eventSeq + 1;
      events := events + [e.(id := eventSeq)];
      err := None;
    }

    /** INSERT INTO publish_schedules */
    method InsertSchedule(s: Schedule) returns (err: Option<Error>)
      modifies this`schedules
      ensures err == if s.id in old(schedules) then Some(ConstraintFailed(PrimaryKey))
                     else if Active(s) && HasActive(old(schedules), s.contentId) then Some(ConstraintFailed(Unique))
                     else if s.contentId !in contents || s.versionId !in versions
                     then Some(ConstraintFailed(ForeignKey)) else None
      ensures schedules == if err.None? then old(schedules)[s.id := s] else old(schedules)
    {
      if s.id in schedules {
        return Some(ConstraintFailed(PrimaryKey));
      }
      if Active(s) && HasActive(schedules, s.contentId) {
        return Some(ConstraintFailed(Unique));
      }
      if s.contentId !in contents || s.versionId !in versions {
        return Some(ConstraintFailed(ForeignKey));
      }
      schedules := schedules[s.id := s];
      err := None;
    }

    /** UPDATE publish_schedules: the rows become `next` if the partial unique index allows it. */
    method UpdateSchedules(next: map<string, Schedule>) returns (err: Option<Error>)
      requires next.Keys == schedules.Keys
      modifies this`schedules
      ensures err == if OneActive(next) then None else Some(ConstraintFailed(Unique))
      ensures schedules == if err.None? then next else old(schedules)
    {
      if OneActive(next) {
        schedules := next;
        err := None;
      } else {
        err := Some(ConstraintFailed(Unique));
      }
    }

    // ---------- contents.go ----------

    method CreateContentBody(id: string, slug: string, f: VersionFields, actor: string, now: int)
      returns (r: Result<ContentWithVersion>)
      requires forall row | row in versions :: versions[row].contentId in contents
      modifies this`contents, this`versions, this`versionSeq
      ensures var spec := Transactions.CreateContent(old(Db()), id, slug, f, actor, now);
              r == spec.result && (r.Ok? ==> Db() == spec.db)
    {
      var c := Content(id, slug, 1, None, None, now, now);
      var refused := InsertContent(c);
      match refused {
        case Some(e) => return Err(if IsUniqueViolation(e) then SlugTaken else e);
        case None =>
      }
      assert !HasVersion(versions, id, 1);
      var err, row := InsertVersion(id, 1, f, actor, now);
      r := OkUnless(err, ContentWithVersion(c, Version(row, id, 1, actor, now, f)));
    }

    method CreateContent(id: string, slug: string, f: VersionFields, actor: string, now: int, fate: Fate)
      returns (r: Result<ContentWithVersion>)
      requires Valid()
      modifies this
      ensures Valid()
      ensures Outcome(Db(), r) == Tx(fate, old(Db()), Transactions.CreateContent(old(Db()), id, slug, f, actor, now))
    {
      hide KeysOk, SlugsUnique, NumbersUnique, OneActive, OneEventEach;
      CreateContentKeeps(Db(), id, slug, f, actor, now, indexed);
      var open := Begin(fate);
      if !open {
        return Err(TxFailed);
      }
      r := CreateContentBody(id, slug, f, actor, now);
      r := End(fate, r);
    }

    method UpdateContentBody(id: string, expected: int, f: VersionFields, actor: string, now: int)
      returns (r: Result<ContentWithVersion>)
      modifies this`contents, this`versions, this`versionSeq
      ensures var spec := Transactions.UpdateContent(old(Db()), id, expected, f, actor, now);
              r == spec.result && (r.Ok? ==> Db() == spec.db)
    {
      var affected := BumpVersion(id, expected, now);
      if affected == 0 {
        return Err(if id !in contents then NotFound else VersionConflict);
      }
      var err, row := InsertVersion(id, expected + 1, f, actor, now);
      r := OkUnless(err, ContentWithVersion(contents[id], Version(row, id, expected + 1, actor, now, f)));
    }

    method UpdateContent(id: string, expected: int, f: VersionFields, actor: string, now: int, fate: Fate)
      returns (r: Result<ContentWithVersion>)
      requires Valid()
      modifies this
      ensures Valid()
      ensures Outcome(Db(), r) == Tx(fate, old(Db()), Transactions.UpdateContent(old(Db()), id, expected, f, actor, now))
    {
      hide KeysOk, SlugsUnique, NumbersUnique, OneActive, OneEventEach, ForeignKeysOk;
      UpdateContentKeeps(Db(), id, expected, f, actor, now, indexed);
      var open := Begin(fate);
      if !open {
        return Err(TxFailed);
      }
      r := UpdateContentBody(id, expected, f, actor, now);
      r := End(fate, r);
    }

    /** SELECT ... WHERE content_id = ? AND version = ? */
    method GetVersion(contentId: string, number: int) returns (r: Result<Version>)
      requires forall row | row in versions :: versions[row].id == row
      ensures r.Ok? ==> IsVersion(versions, r.value.id, contentId, number) && versions[r.value.id] == r.value
      ensures r.Err? ==> r.error == NotFound && !HasVersion(versions, contentId, number)
    {
      if row :| row in versions && IsVersion(versions, row, contentId, number) {
        r := Ok(versions[row]);
      } else {
        r := Err(NotFound);
      }
    }

    /** The admin view: the join of a content with its current version. */
    method GetContentWithCurrentVersion(id: string) returns (r: Result<ContentWithVersion>)
      requires forall row | row in versions :: versions[row].id == row
      ensures r.Ok? ==> id in contents && r.value.content == contents[id]
                        && IsVersion(versions, r.value.version.id, id, contents[id].currentVersion)
                        && r.value.version == versions[r.value.version.id]
      ensures r.Err? ==> r.error == NotFound
                         && (id !in contents || !HasVersion(versions, id, contents[id].currentVersion))
    {
      if id !in contents {
        return Err(NotFound);
      }
      var v := GetVersion(id, contents[id].currentVersion);
      r := if v.Ok? then Ok(ContentWithVersion(contents[id], v.value)) else Err(NotFound);
    }

    // ---------- publish.go ----------

    method PublishBody(p: PublishParams) returns (r: Result<Content>)
      modifies this`contents, this`events, this`eventSeq
      ensures var spec := Transactions.Publish(old(Db()), p, indexed);
              r == spec.result && (r.Ok? ==> Db() == spec.db)
    {
      if p.contentId !in contents || p.versionId !in versions || versions[p.versionId].contentId != p.contentId {
        return Err(NotFound);
      }
      var current := contents[p.contentId];
      if current.publishedVersionId == Some(p.versionId) {
        var failure := None;
        if p.scheduleId.Some? {
          failure := InsertEvent(PublishEvent(p));
        }
        return OkUnless(failure, current);
      }
      var err := UpdatePointer(p.contentId, Some(p.versionId), Some(p.now), p.now);
      if err.None? {
        err := InsertEvent(PublishEvent(p));
      }
      r := OkUnless(err, contents[p.contentId]);
    }

    method Publish(p: PublishParams, fate: Fate) returns (r: Result<Content>)
      requires Valid()
      modifies this
      ensures Valid()
      ensures Outcome(Db(), r) == Tx(fate, old(Db()), Transactions.Publish(old(Db()), p, indexed))
    {
      hide KeysOk, SlugsUnique, NumbersUnique, OneActive, OneEventEach, ForeignKeysOk;
      PublishKeeps(Db(), p, indexed);
      var open := Begin(fate);
      if !open {
        return Err(TxFailed);
      }
      r := PublishBody(p);
      r := End(fate, r);
    }

    method UnpublishBody(contentId: string, actor: string, now: int) returns (r: Result<Content>)
      requires contentId in contents && contents[contentId].publishedVersionId.Some?
               ==> contents[contentId].publishedVersionId.value in versions
      modifies this`contents, this`events, this`eventSeq
      ensures var spec := Transactions.Unpublish(old(Db()), contentId, actor, now);
              r == spec.result && (r.Ok? ==> Db() == spec.db)
    {
      if contentId !in contents {
        return Err(NotFound);
      }
      var current := contents[contentId];
      if current.publishedVersionId.None? {
        return Ok(current);
      }
      var err := UpdatePointer(contentId, None, None, now);
      if err.None? {
        err := InsertEvent(
          Event(0, contentId, current.publishedVersionId, UnpublishAction, Manual, None, actor, now));
      }
      r := OkUnless(err, contents[contentId]);
    }

    method Unpublish(contentId: string, actor: string, now: int, fate: Fate) returns (r: Result<Content>)
      requires Valid()
      modifies this
      ensures Valid()
      ensures Outcome(Db(), r) == Tx(fate, old(Db()), Transactions.Unpublish(old(Db()), contentId, actor, now))
    {
      hide KeysOk, SlugsUnique, NumbersUnique, OneActive, OneEventEach;
      UnpublishKeeps(Db(), contentId, actor, now, indexed);
      var open := Begin(fate);
      if !open {
        return Err(TxFailed);
      }
      r := UnpublishBody(contentId, actor, now);
      r := End(fate, r);
    }

    // ---------- schedules.go ----------

    method CreateScheduleBody(id: string, contentId: string, versionId: int, runAt: int, now: int)
      returns (r: Result<Schedule>)
      requires versionId in versions ==> versions[versionId].contentId in contents
      modifies this`schedules
      ensures var spec := Transactions.CreateSchedule(old(Db()), id, contentId, versionId, runAt, now);
              r == spec.result && (r.Ok? ==> Db() == spec.db)
    {
      if versionId !in versions || versions[versionId].contentId != contentId {
        return Err(NotFound);
      }
      var s := Schedule(id, contentId, versionId, runAt, Pending, 0, None, None, "", now, now);
      var err := InsertSchedule(s);
      match err
      case Some(e) =>
        r := Err(if IsUniqueViolation(e) then ScheduleExists else e);
      case None =>
        r := Ok(s);
    }

    method CreateSchedule(id: string, contentId: string, versionId: int, runAt: int, now: int, fate: Fate)
      returns (r: Result<Schedule>)
      requires Valid()
      modifies this
      ensures Valid()
      ensures Outcome(Db(), r)
           == Tx(fate, old(Db()), Transactions.CreateSchedule(old(Db()), id, contentId, versionId, runAt, now))
    {
      hide KeysOk, SlugsUnique, NumbersUnique, OneActive, OneEventEach;
      CreateScheduleKeeps(Db(), id, contentId, versionId, runAt, now, indexed);
      var open := Begin(fate);
      if !open {
        return Err(TxFailed);
      }
      r := CreateScheduleBody(id, contentId, versionId, runAt, now);
      r := End(fate, r);
    }

    method CancelScheduleBody(id: string, now: int) returns (r: Result<()>)
      requires OneActive(schedules)
      modifies this`schedules
      ensures var spec := Transactions.CancelSchedule(old(Db()), id, now);
              r == spec.result && (r.Ok? ==> Db() == spec.db)
    {
      var matched := set k | k in schedules && k == id && schedules[k].status == Pending;
      var next := map k | k in schedules :: if k in matched then Cancel(schedules[k], now) else schedules[k];
      assert id in matched ==> next == schedules[id := Cancel(schedules[id], now)] && matched == {id};
      assert id !in matched ==> next == schedules && matched == {};
      var err := UpdateSchedules(next);
      r := OkUnless(err, ());
      if r.Ok? && |matched| != 1 {
        r := Err(if id !in schedules then NotFound else NotCancellable);
      }
    }

    method CancelSchedule(id: string, now: int, fate: Fate) returns (r: Result<()>)
      requires Valid()
      modifies this
      ensures Valid()
      ensures Outcome(Db(), r) == Tx(fate, old(Db()), Transactions.CancelSchedule(old(Db()), id, now))
    {
      hide KeysOk, SlugsUnique, NumbersUnique, OneActive, OneEventEach, ForeignKeysOk;
      CancelScheduleKeeps(Db(), id, now, indexed);
      var open := Begin(fate);
      if !open {
        return Err(TxFailed);
      }
      r := CancelScheduleBody(id, now);
      r := End(fate, r);
    }

    /** The row of `rest` with the least run_at; any one of them on a tie. */
    method Earliest(rest: set<string>) returns (k: string)
      requires rest != {} && rest <= schedules.Keys
      ensures k in rest && forall a | a in rest :: schedules[k].runAt <= schedules[a].runAt
    {
      k :| k in rest;
      var todo := rest - {k};
      while todo != {}
        invariant todo <= rest && k in rest
        invariant forall a | a in rest && a !in todo :: schedules[k].runAt <= schedules[a].runAt
        decreases todo
      {
        var a :| a in todo;
        if schedules[a].runAt < schedules[k].runAt {
          k := a;
        }
        todo := todo - {a};
      }
    }

    /** SELECT id ... WHERE due ORDER BY run_at LIMIT ? */
    method SelectBatch(now: int, limit: nat) returns (chosen: set<string>)
      ensures IsBatch(schedules, now, limit, chosen)
    {
      hide Due, SplitsDue, IsBatch;
      DueRowsExist(schedules, now);
      var rest := Due(schedules, now);
      chosen := {};
      NothingChosen(schedules, now);
      while |chosen| < limit && rest != {}
        invariant rest <= schedules.Keys && |chosen| <= limit
        invariant SplitsDue(schedules, now, chosen, rest)
        decreases rest
      {
        var k := Earliest(rest);
        SplitStep(schedules, now, chosen, rest, k);
        rest, chosen := rest - {k}, chosen + {k};
      }
      SplitIsBatch(schedules, now, limit, chosen, rest);
    }

    /** The rows of RETURNING, appended one by one in the order the engine yields them. */
    method ScanJobs(chosen: set<string>) returns (jobs: seq<ClaimedJob>)
      requires chosen <= schedules.Keys
      requires forall k | k in schedules :: schedules[k].id == k
      ensures JobsFor(schedules, chosen, jobs)
    {
      jobs := [];
      var rest := chosen;
      while rest != {}
        invariant rest <= chosen
        invariant JobsFor(schedules, chosen - rest, jobs)
        decreases rest
      {
        var k :| k in rest;
        ghost var before, seen := jobs, chosen - rest;
        rest := rest - {k};
        jobs := jobs + [JobOf(schedules[k])];
        assert chosen - rest == seen + {k};
        forall a | a in chosen - rest
          ensures exists i :: 0 <= i < |jobs| && jobs[i].scheduleId == a
        {
          if a == k {
            assert jobs[|before|].scheduleId == k;
          } else {
            var i :| 0 <= i < |before| && before[i].scheduleId == a;
            assert jobs[i].scheduleId == a;
          }
        }
      }
      assert chosen - rest == chosen;
    }

    method ClaimBody(worker: string, now: int, leaseExpiry: int, limit: nat)
      returns (r: Result<seq<ClaimedJob>>, ghost chosen: set<string>)
      requires KeysOk(Db()) && OneActive(schedules)
      modifies this`schedules
      ensures IsBatch(old(schedules), now, limit, chosen)
      ensures r.Ok? && Db() == Claim(old(Db()), worker, now, leaseExpiry, chosen)
      ensures JobsFor(schedules, chosen, r.value)
    {
      var batch := SelectBatch(now, limit);
      chosen := batch;
      var next := map k | k in schedules ::
        if k in batch then Lease(schedules[k], worker, now, leaseExpiry) else schedules[k];
      assert SafeRewrite(schedules, next);
      var err := UpdateSchedules(next);
      var jobs := ScanJobs(batch);
      r := OkUnless(err, jobs);
    }

    method ClaimDueSchedules(worker: string, now: int, leaseExpiry: int, limit: nat, fate: Fate)
      returns (r: Result<seq<ClaimedJob>>, ghost chosen: set<string>)
      requires Valid()
      modifies this
      ensures Valid()
      ensures fate.BeginFails? ==> Db() == old(Db())
      ensures !fate.BeginFails? ==>
                IsBatch(old(Db()).schedules, now, limit, chosen)
                && Db() == if fate.CommitFails? then old(Db()) else Claim(old(Db()), worker, now, leaseExpiry, chosen)
      ensures if fate.Lands? then r.Ok? && JobsFor(Db().schedules, chosen, r.value) else r == Err(TxFailed)
    {
      hide KeysOk, SlugsUnique, NumbersUnique, OneActive, OneEventEach, ForeignKeysOk, IsBatch, JobsFor;
      var open := Begin(fate);
      if !open {
        return Err(TxFailed), {};
      }
      r, chosen := ClaimBody(worker, now, leaseExpiry, limit);
      BatchIsActive(old(Db()).schedules, now, limit, chosen);
      ClaimKeeps(old(Db()), worker, now, leaseExpiry, chosen, indexed);
      r := End(fate, r);
    }

    /** Pointer first, audit row second, lease check last. */
    method CompleteBody(job: ClaimedJob, worker: string, now: int) returns (r: Result<()>)
      requires OneActive(schedules)
      modifies this`contents, this`schedules, this`events, this`eventSeq
      ensures var spec := Transactions.CompleteScheduledPublish(old(Db()), job, worker, now, indexed);
              r == spec.result && (r.Ok? ==> Db() == spec.db)
    {
      var err := UpdatePointer(job.contentId, Some(job.versionId), Some(now), now);
      if err.Some? {
        return Err(err.value);
      }
      err := InsertEvent(JobEvent(job, now));
      if err.Some? {
        return Err(err.value);
      }
      var matched := set k | k in schedules && k == job.scheduleId && HoldsLease(schedules, k, worker);
      var next := map k | k in schedules :: if k in matched then Finish(schedules[k], now) else schedules[k];
      assert HoldsLease(schedules, job.scheduleId, worker) ==>
        matched == {job.scheduleId} && next == schedules[job.scheduleId := Finish(schedules[job.scheduleId], now)];
      assert !HoldsLease(schedules, job.scheduleId, worker) ==> matched == {};
      err := UpdateSchedules(next);
      r := OkUnless(err, ());
      if r.Ok? && matched == {} {
        r := Err(LeaseLost);
      }
    }

    /** Losing the lease undoes the pointer move and the audit row, and is not an error. */
    method CompleteScheduledPublish(job: ClaimedJob, worker: string, now: int, fate: Fate) returns (r: Result<bool>)
      requires Valid()
      modifies this
      ensures Valid()
      ensures var spec := Tx(fate, old(Db()),
                Transactions.CompleteScheduledPublish(old(Db()), job, worker, now, indexed));
              Db() == spec.db
              && r == match spec.result
                      case Ok(_) => Ok(true)
                      case Err(e) => if e == LeaseLost then Ok(false) else Err(e)
      ensures !old(HoldsLease(schedules, job.scheduleId, worker)) ==> Db() == old(Db()) && r != Ok(true)
    {
      hide KeysOk, SlugsUnique, NumbersUnique, OneActive, OneEventEach, ForeignKeysOk;
      CompleteKeeps(Db(), job, worker, now, indexed);
      var open := Begin(fate);
      if !open {
        return Err(TxFailed);
      }
      var done := CompleteBody(job, worker, now);
      done := End(fate, done);
      if done == Err(LeaseLost) {
        return Ok(false);
      }
      r := if done.Err? then Err(done.error) else Ok(true);
    }

    method FailScheduleBody(scheduleId: string, worker: string, reason: string, now: int) returns (r: Result<()>)
      requires OneActive(schedules)
      modifies this`schedules
      ensures var spec := Transactions.FailSchedule(old(Db()), scheduleId, worker, reason, now);
              r == spec.result && (r.Ok? ==> Db() == spec.db)
    {
      var matched := set k | k in schedules && k == scheduleId && HoldsLease(schedules, k, worker);
      var next := map k | k in schedules :: if k in matched then Reopen(schedules[k], reason, now) else schedules[k];
      assert next == if HoldsLease(schedules, scheduleId, worker)
        then schedules[scheduleId := Reopen(schedules[scheduleId], reason, now)] else schedules;
      var err := UpdateSchedules(next);
      r := OkUnless(err, ());
    }

    method FailSchedule(scheduleId: string, worker: string, reason: string, now: int, fate: Fate) returns (r: Result<()>)
      requires Valid()
      modifies this
      ensures Valid()
      ensures Outcome(Db(), r)
           == Tx(fate, old(Db()), Transactions.FailSchedule(old(Db()), scheduleId, worker, reason, now))
    {
      hide KeysOk, SlugsUnique, NumbersUnique, OneActive, OneEventEach, ForeignKeysOk;
      FailScheduleKeeps(Db(), scheduleId, worker, reason, now, indexed);
      var open := Begin(fate);
      if !open {
        return Err(TxFailed);
      }
      r := FailScheduleBody(scheduleId, worker, reason, now);
      r := End(fate, r);
    }

    method ReleaseClaimsBody(worker: string, now: int) returns (r: Result<int>)
      requires OneActive(schedules)
      modifies this`schedules
      ensures var spec := Transactions.ReleaseClaims(old(Db()), worker, now);
              r == spec.result && (r.Ok? ==> Db() == spec.db)
    {
      var matched := LockedBy(schedules, worker);
      var err := UpdateSchedules(map k | k in schedules ::
        if k in matched then Reopen(schedules[k], schedules[k].lastError, now) else schedules[k]);
      r := OkUnless(err, |matched|);
    }

    method ReleaseClaims(worker: string, now: int, fate: Fate) returns (r: Result<int>)
      requires Valid()
      modifies this
      ensures Valid()
      ensures Outcome(Db(), r) == Tx(fate, old(Db()), Transactions.ReleaseClaims(old(Db()), worker, now))
    {
      hide KeysOk, SlugsUnique, NumbersUnique, OneActive, OneEventEach, ForeignKeysOk;
      ReleaseClaimsKeeps(Db(), worker, now, indexed);
      var open := Begin(fate);
      if !open {
        return Err(TxFailed);
      }
      r := ReleaseClaimsBody(worker, now);
      r := End(fate, r);
    }
  }
}
