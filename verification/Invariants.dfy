/** What every reachable database satisfies beyond its schema, what no transaction undoes,
    and the proof that each transaction keeps both. */
module Invariants {
  import opened Tables
  import opened Transactions
  import opened Schema

  // ---------- the state invariants ----------

  /** Each content has exactly the versions 1..current_version (each once, by the schema). */
  ghost predicate History(db: Db) {
    && (forall r | r in db.versions ::
          db.versions[r].contentId in db.contents
          && 1 <= db.versions[r].number <= db.contents[db.versions[r].contentId].currentVersion)
    && (forall c, n | c in db.contents && 1 <= n <= db.contents[c].currentVersion ::
          HasVersion(db.versions, c, n))
    && (forall c | c in db.contents :: 1 <= db.contents[c].currentVersion)
  }

  predicate Owns(versions: map<int, Version>, contentId: string, row: int) {
    row in versions && versions[row].contentId == contentId
  }

  /** Every pointer names a version of its own content. */
  ghost predicate Ownership(db: Db) {
    && (forall c | c in db.contents && db.contents[c].publishedVersionId.Some? ::
          Owns(db.versions, c, db.contents[c].publishedVersionId.value))
    && (forall k | k in db.schedules ::
          Owns(db.versions, db.schedules[k].contentId, db.schedules[k].versionId))
    && (forall i | 0 <= i < |db.events| ::
          db.events[i].versionId.Some?
          && Owns(db.versions, db.events[i].contentId, db.events[i].versionId.value))
  }

  ghost predicate LeaseShape(s: Schedule) {
    && s.status != Failed
    && (s.status == Claimed <==> s.lockedBy.Some?)
    && (s.status == Claimed <==> s.lockExpiresAt.Some?)
    && s.createdAt < s.runAt
  }

  ghost predicate Leases(schedules: map<string, Schedule>) {
    forall k | k in schedules :: LeaseShape(schedules[k])
  }

  /** The event a finished schedule has written. */
  ghost predicate IsEventOf(e: Event, s: Schedule) {
    && e.contentId == s.contentId
    && e.versionId == Some(s.versionId)
    && e.action == PublishAction
    && e.source == Scheduled
  }

  /** A schedule is done exactly when it has its one event. */
  ghost predicate ExactlyOnce(schedules: map<string, Schedule>, events: seq<Event>) {
    && OneEventEach(events)
    && (forall i | 0 <= i < |events| && events[i].scheduleId.Some? ::
          events[i].scheduleId.value in schedules
          && schedules[events[i].scheduleId.value].status == Done
          && IsEventOf(events[i], schedules[events[i].scheduleId.value]))
    && (forall k | k in schedules && schedules[k].status == Done :: HasEvent(events, k))
    && (forall i | 0 <= i < |events| :: events[i].source == Scheduled <==> events[i].scheduleId.Some?)
  }

  lemma EventMeansDone(schedules: map<string, Schedule>, events: seq<Event>, k: string)
    requires ExactlyOnce(schedules, events) && HasEvent(events, k)
    ensures k in schedules && schedules[k].status == Done
  {
    var e :| 0 <= e < |events| && events[e].scheduleId == Some(k);
  }

  /** What the audit log says is public. */
  datatype Pointer = Pointer(version: Option<int>, at: Option<int>)

  function Replay(events: seq<Event>, contentId: string): Pointer
    decreases |events|
  {
    if events == [] then Pointer(None, None)
    else
      var e := events[|events| - 1];
      if e.contentId != contentId then Replay(events[..|events| - 1], contentId)
      else if e.action == UnpublishAction then Pointer(None, None)
      else Pointer(e.versionId, Some(e.occurredAt))
  }

  function PointerOf(c: Content): Pointer {
    Pointer(c.publishedVersionId, c.publishedAt)
  }

  /** The event changed what was public before it, or came from a schedule; an unpublish
      names the version it withdrew. */
  ghost predicate Effective(before: Pointer, e: Event) {
    && (e.source == Manual && e.action == PublishAction ==> before.version != e.versionId)
    && (e.action == UnpublishAction ==> e.source == Manual && before.version.Some? && e.versionId == before.version)
  }

  /** AUTOINCREMENT gives every new row an id above all earlier ones; it promises no more. */
  ghost predicate IdsIncrease(events: seq<Event>) {
    forall i, j | 0 <= i < j < |events| :: events[i].id < events[j].id
  }

  ghost predicate Audit(contents: map<string, Content>, events: seq<Event>, eventSeq: int) {
    && (forall i | 0 <= i < |events| :: events[i].id <= eventSeq)
    && IdsIncrease(events)
    && (forall c | c in contents :: PointerOf(contents[c]) == Replay(events, c))
    && (forall i | 0 <= i < |events| :: Effective(Replay(events[..i], events[i].contentId), events[i]))
  }

  ghost predicate DbInv(db: Db) {
    && SchemaOk(db, false)
    && History(db)
    && Ownership(db)
    && Leases(db.schedules)
    && ExactlyOnce(db.schedules, db.events)
    && Audit(db.contents, db.events, db.eventSeq)
  }

  // ---------- what only grows ----------

  ghost predicate ContentGrows(c: Content, c': Content) {
    c'.id == c.id && c'.slug == c.slug && c'.createdAt == c.createdAt && c.currentVersion <= c'.currentVersion
  }

  /** Ids, targets and times are pinned; done and cancelled are final. */
  ghost predicate ScheduleGrows(s: Schedule, s': Schedule) {
    && s'.id == s.id && s'.contentId == s.contentId && s'.versionId == s.versionId
    && s'.runAt == s.runAt && s'.createdAt == s.createdAt && s.attempts <= s'.attempts
    && (s.status == Done || s.status == Cancelled ==> s' == s)
  }

  /** No row is dropped, versions and events are never rewritten. */
  ghost predicate Extends(db: Db, db': Db) {
    && (forall r | r in db.versions :: r in db'.versions && db'.versions[r] == db.versions[r])
    && db.versionSeq <= db'.versionSeq
    && (forall c | c in db.contents :: c in db'.contents && ContentGrows(db.contents[c], db'.contents[c]))
    && (forall k | k in db.schedules :: k in db'.schedules && ScheduleGrows(db.schedules[k], db'.schedules[k]))
    && db.events <= db'.events
  }

  lemma ExtendsTrans(a: Db, b: Db, c: Db)
    requires Extends(a, b) && Extends(b, c)
    ensures Extends(a, c)
  {
    forall r | r in a.versions
      ensures r in c.versions && c.versions[r] == a.versions[r]
    {
      assert r in b.versions;
    }
    forall x | x in a.contents
      ensures x in c.contents && ContentGrows(a.contents[x], c.contents[x])
    {
      assert x in b.contents;
    }
    forall k | k in a.schedules
      ensures k in c.schedules && ScheduleGrows(a.schedules[k], c.schedules[k])
    {
      assert k in b.schedules;
    }
  }

  // ---------- change 1: schedule rows rewritten ----------

  ghost predicate Rewrites(schedules: map<string, Schedule>, next: map<string, Schedule>) {
    && next.Keys == schedules.Keys
    && forall k | k in schedules ::
         && ScheduleGrows(schedules[k], next[k])
         && LeaseShape(next[k])
         && (next[k].status == Done <==> schedules[k].status == Done)
         && (Active(next[k]) ==> Active(schedules[k]))
  }

  lemma RewriteOnce(schedules: map<string, Schedule>, next: map<string, Schedule>, events: seq<Event>)
    requires ExactlyOnce(schedules, events) && Rewrites(schedules, next)
    ensures ExactlyOnce(next, events)
  {
    forall i | 0 <= i < |events| && events[i].scheduleId.Some?
      ensures events[i].scheduleId.value in next
      ensures next[events[i].scheduleId.value].status == Done
      ensures IsEventOf(events[i], next[events[i].scheduleId.value])
    {
      assert events[i].scheduleId.value in schedules;
    }
  }

  lemma RewriteSafe(db: Db, next: map<string, Schedule>)
    requires DbInv(db) && Rewrites(db.schedules, next)
    ensures DbInv(db.(schedules := next)) && Extends(db, db.(schedules := next))
  {
    hide SchemaOk, Audit;
    RewriteKeeps(db, next, false);
    RewriteOnce(db.schedules, next, db.events);
    var db' := db.(schedules := next);
    assert History(db');
    assert Ownership(db');
  }

  // ---------- change 2: a version appended to a new or existing content ----------

  /** `c` is a new content at version 1, or an existing one with its number bumped. */
  ghost predicate Bumped(db: Db, c: Content) {
    if c.id in db.contents then
      var b := db.contents[c.id];
      && ContentGrows(b, c) && c.currentVersion == b.currentVersion + 1 && PointerOf(c) == PointerOf(b)
    else
      !SlugUsed(db.contents, c.slug) && c.currentVersion == 1 && PointerOf(c) == Pointer(None, None)
  }

  function WithVersion(db: Db, c: Content, f: VersionFields, actor: string, now: int): Db {
    AppendVersion(db.(contents := db.contents[c.id := c]), c.id, c.currentVersion, f, actor, now)
  }

  lemma BumpFresh(db: Db, c: Content)
    requires History(db) && Bumped(db, c)
    ensures !HasVersion(db.versions, c.id, c.currentVersion)
  {
    forall r | r in db.versions
      ensures !IsVersion(db.versions, r, c.id, c.currentVersion)
    {
    }
  }

  lemma BumpHistory(db: Db, c: Content, f: VersionFields, actor: string, now: int)
    requires KeysOk(db) && History(db) && Bumped(db, c)
    ensures History(WithVersion(db, c, f, actor, now))
  {
    var db' := WithVersion(db, c, f, actor, now);
    assert db.versionSeq + 1 !in db.versions;
    forall x, n | x in db'.contents && 1 <= n <= db'.contents[x].currentVersion
      ensures HasVersion(db'.versions, x, n)
    {
      if x == c.id && n == c.currentVersion {
        assert IsVersion(db'.versions, db'.versionSeq, x, n);
      } else {
        assert HasVersion(db.versions, x, n);
        var r :| r in db.versions && IsVersion(db.versions, r, x, n);
        assert IsVersion(db'.versions, r, x, n);
      }
    }
  }

  lemma BumpOwnership(db: Db, c: Content, f: VersionFields, actor: string, now: int)
    requires KeysOk(db) && Ownership(db) && Bumped(db, c)
    ensures Ownership(WithVersion(db, c, f, actor, now))
  {
    var db' := WithVersion(db, c, f, actor, now);
    assert db.versionSeq + 1 !in db.versions;
    forall x, r | Owns(db.versions, x, r)
      ensures Owns(db'.versions, x, r)
    {
    }
  }

  lemma BumpSchema(db: Db, c: Content, f: VersionFields, actor: string, now: int)
    requires SchemaOk(db, false) && Bumped(db, c) && !HasVersion(db.versions, c.id, c.currentVersion)
    ensures SchemaOk(WithVersion(db, c, f, actor, now), false)
  {
    if c.id in db.contents {
      ChangeContentKeeps(db, c.id, c, false);
    } else {
      AddContentKeeps(db, c, false);
    }
    AppendVersionKeeps(db.(contents := db.contents[c.id := c]), c.id, c.currentVersion, f, actor, now, false);
  }

  lemma NoEventsNoPointer(events: seq<Event>, contentId: string)
    requires forall i | 0 <= i < |events| :: events[i].contentId != contentId
    ensures Replay(events, contentId) == Pointer(None, None)
    decreases |events|
  {
  }

  lemma BumpAudit(db: Db, c: Content)
    requires ForeignKeysOk(db) && Audit(db.contents, db.events, db.eventSeq) && Bumped(db, c)
    ensures Audit(db.contents[c.id := c], db.events, db.eventSeq)
  {
    if c.id !in db.contents {
      NoEventsNoPointer(db.events, c.id);
    }
  }

  lemma BumpSafe(db: Db, c: Content, f: VersionFields, actor: string, now: int)
    requires DbInv(db) && Bumped(db, c)
    ensures DbInv(WithVersion(db, c, f, actor, now)) && Extends(db, WithVersion(db, c, f, actor, now))
  {
    hide SlugsUnique, NumbersUnique, OneActive, ForeignKeysOk, History, Ownership, Leases, ExactlyOnce, Audit;
    BumpFresh(db, c);
    BumpSchema(db, c, f, actor, now);
    BumpHistory(db, c, f, actor, now);
    BumpOwnership(db, c, f, actor, now);
    BumpAudit(db, c);
  }

  // ---------- change 3: a pointer moved with its event ----------

  lemma ReplaySnoc(events: seq<Event>, e: Event, contentId: string)
    ensures Replay(events + [e], contentId) ==
            if e.contentId != contentId then Replay(events, contentId)
            else if e.action == UnpublishAction then Pointer(None, None)
            else Pointer(e.versionId, Some(e.occurredAt))
  {
    assert (events + [e])[..|events + [e]| - 1] == events;
  }

  lemma IdsSnoc(events: seq<Event>, e: Event)
    requires IdsIncrease(events) && forall i | 0 <= i < |events| :: events[i].id < e.id
    ensures IdsIncrease(events + [e])
  {
  }

  lemma EventAudit(contents: map<string, Content>, events: seq<Event>, seqNo: int, e: Event, c: Content)
    requires Audit(contents, events, seqNo) && e.contentId in contents && seqNo < e.id
    requires Effective(PointerOf(contents[e.contentId]), e)
    requires PointerOf(c) == if e.action == UnpublishAction then Pointer(None, None)
                             else Pointer(e.versionId, Some(e.occurredAt))
    ensures Audit(contents[e.contentId := c], events + [e], e.id)
  {
    hide IdsIncrease, Effective;
    IdsSnoc(events, e);
    var contents', events' := contents[e.contentId := c], events + [e];
    forall x | x in contents'
      ensures PointerOf(contents'[x]) == Replay(events', x)
    {
      ReplaySnoc(events, e, x);
    }
    forall i | 0 <= i < |events'|
      ensures Effective(Replay(events'[..i], events'[i].contentId), events'[i])
    {
      assert events'[..i] == if i < |events| then events[..i] else events;
    }
  }

  /** The database with content `c` in place of its row and `e` appended to the log. */
  function WithEvent(db: Db, c: Content, e: Event): Db {
    AppendEvent(db.(contents := db.contents[c.id := c]), e)
  }

  /** `c` is the row of `e`'s content with its pointer as `e` says. */
  ghost predicate Pointed(db: Db, c: Content, e: Event) {
    && c.id in db.contents && ContentGrows(db.contents[c.id], c)
    && c.currentVersion == db.contents[c.id].currentVersion
    && e.contentId == c.id
    && e.versionId.Some? && Owns(db.versions, c.id, e.versionId.value)
    && Effective(PointerOf(db.contents[c.id]), e)
    && PointerOf(c) == (if e.action == UnpublishAction then Pointer(None, None)
                        else Pointer(e.versionId, Some(e.occurredAt)))
  }

  lemma PointOwnership(db: Db, c: Content, e: Event)
    requires Ownership(db) && Pointed(db, c, e)
    ensures Ownership(WithEvent(db, c, e))
  {
  }

  lemma PointHistory(db: Db, c: Content, e: Event)
    requires History(db) && Pointed(db, c, e)
    ensures History(WithEvent(db, c, e))
  {
    var db' := WithEvent(db, c, e);
    forall x | x in db'.contents
      ensures x in db.contents && db'.contents[x].currentVersion == db.contents[x].currentVersion
    {
    }
  }

  lemma PointSchema(db: Db, c: Content, e: Event)
    requires SchemaOk(db, false) && Pointed(db, c, e)
    ensures SchemaOk(WithEvent(db, c, e), false)
  {
    ChangeContentKeeps(db, c.id, c, false);
    AppendEventKeeps(db.(contents := db.contents[c.id := c]), e, false);
  }

  lemma PointBasics(db: Db, c: Content, e: Event)
    requires DbInv(db) && Pointed(db, c, e)
    ensures var db' := WithEvent(db, c, e);
            SchemaOk(db', false) && History(db') && Ownership(db') && Leases(db'.schedules)
            && Audit(db'.contents, db'.events, db'.eventSeq) && Extends(db, db')
  {
    hide SchemaOk, History, Ownership, ExactlyOnce, Audit;
    PointSchema(db, c, e);
    PointHistory(db, c, e);
    PointOwnership(db, c, e);
    EventAudit(db.contents, db.events, db.eventSeq, e.(id := db.eventSeq + 1), c);
  }

  lemma ManualOnce(schedules: map<string, Schedule>, events: seq<Event>, e: Event)
    requires ExactlyOnce(schedules, events) && e.source == Manual && e.scheduleId.None?
    ensures ExactlyOnce(schedules, events + [e])
  {
    forall k | k in schedules && schedules[k].status == Done
      ensures HasEvent(events + [e], k)
    {
      var i :| 0 <= i < |events| && events[i].scheduleId == Some(k);
      assert (events + [e])[i].scheduleId == Some(k);
    }
  }

  lemma PointSafe(db: Db, c: Content, e: Event)
    requires DbInv(db) && Pointed(db, c, e) && e.source == Manual && e.scheduleId.None?
    ensures DbInv(WithEvent(db, c, e)) && Extends(db, WithEvent(db, c, e))
  {
    hide SchemaOk, History, Ownership, Leases, ExactlyOnce, Audit, Pointed, Extends;
    PointBasics(db, c, e);
    ManualOnce(db.schedules, db.events, e.(id := db.eventSeq + 1));
  }

  // ---------- change 4: a schedule finished ----------

  predicate JobMatches(schedules: map<string, Schedule>, job: ClaimedJob) {
    && job.scheduleId in schedules
    && schedules[job.scheduleId].contentId == job.contentId
    && schedules[job.scheduleId].versionId == job.versionId
  }

  lemma FinishOnce(schedules: map<string, Schedule>, events: seq<Event>, job: ClaimedJob, now: int, id: int)
    requires ExactlyOnce(schedules, events) && JobMatches(schedules, job)
    requires schedules[job.scheduleId].status != Done
    ensures ExactlyOnce(schedules[job.scheduleId := Finish(schedules[job.scheduleId], now)],
                        events + [JobEvent(job, now).(id := id)])
  {
    var k := job.scheduleId;
    var schedules' := schedules[k := Finish(schedules[k], now)];
    var events' := events + [JobEvent(job, now).(id := id)];
    forall a | a in schedules' && schedules'[a].status == Done
      ensures HasEvent(events', a)
    {
      if a == k {
        assert events'[|events|].scheduleId == Some(k);
      } else {
        var i :| 0 <= i < |events| && events[i].scheduleId == Some(a);
        assert events'[i].scheduleId == Some(a);
      }
    }
  }

  lemma FinishSchema(db: Db, job: ClaimedJob, now: int)
    requires SchemaOk(db, false) && job.scheduleId in db.schedules
    ensures SchemaOk(db.(schedules := db.schedules[job.scheduleId := Finish(db.schedules[job.scheduleId], now)]), false)
  {
    RewriteKeeps(db, db.schedules[job.scheduleId := Finish(db.schedules[job.scheduleId], now)], false);
  }

  lemma FinishExtends(db: Db, db1: Db, k: string, now: int)
    requires Extends(db, db1) && db1.schedules == db.schedules
    requires k in db.schedules && db.schedules[k].status == Claimed
    ensures Extends(db, db1.(schedules := db.schedules[k := Finish(db.schedules[k], now)]))
  {
  }

  lemma FinishShape(schedules: map<string, Schedule>, k: string, now: int)
    requires Leases(schedules) && k in schedules
    ensures Leases(schedules[k := Finish(schedules[k], now)])
  {
  }

  lemma FinishHistory(db: Db, k: string, now: int)
    requires History(db) && k in db.schedules
    ensures History(db.(schedules := db.schedules[k := Finish(db.schedules[k], now)]))
  {
  }

  lemma FinishOwnership(db: Db, k: string, now: int)
    requires Ownership(db) && k in db.schedules
    ensures Ownership(db.(schedules := db.schedules[k := Finish(db.schedules[k], now)]))
  {
  }

  /** The row that the completed job's content becomes. */
  function Published(c: Content, job: ClaimedJob, now: int): Content {
    c.(publishedVersionId := Some(job.versionId), publishedAt := Some(now), updatedAt := now)
  }

  lemma CompletedIsPointed(db: Db, job: ClaimedJob, now: int)
    requires KeysOk(db) && ForeignKeysOk(db) && Ownership(db) && JobMatches(db.schedules, job)
    ensures job.contentId in db.contents && job.versionId in db.versions
    ensures var c := Published(db.contents[job.contentId], job, now);
            && Pointed(db, c, JobEvent(job, now))
            && Completed(db, job, now) == WithEvent(db, c, JobEvent(job, now))
                 .(schedules := db.schedules[job.scheduleId := Finish(db.schedules[job.scheduleId], now)])
  {
    assert Owns(db.versions, job.contentId, job.versionId);
  }

  lemma CompletedSafe(db: Db, job: ClaimedJob, worker: string, now: int)
    requires DbInv(db) && JobMatches(db.schedules, job) && HoldsLease(db.schedules, job.scheduleId, worker)
    ensures job.contentId in db.contents && job.versionId in db.versions
    ensures DbInv(Completed(db, job, now)) && Extends(db, Completed(db, job, now))
  {
    hide KeysOk, SlugsUnique, NumbersUnique, OneActive, ForeignKeysOk, History, Ownership, ExactlyOnce, Audit, Leases,
      Extends, Pointed, Completed;
    CompletedIsPointed(db, job, now);
    var db1 := WithEvent(db, Published(db.contents[job.contentId], job, now), JobEvent(job, now));
    PointBasics(db, Published(db.contents[job.contentId], job, now), JobEvent(job, now));
    FinishSchema(db1, job, now);
    FinishShape(db.schedules, job.scheduleId, now);
    FinishOwnership(db1, job.scheduleId, now);
    FinishHistory(db1, job.scheduleId, now);
    FinishOnce(db.schedules, db.events, job, now, db.eventSeq + 1);
    FinishExtends(db, db1, job.scheduleId, now);
  }

  // ---------- change 5: a schedule added ----------

  lemma AddedOnce(schedules: map<string, Schedule>, events: seq<Event>, s: Schedule)
    requires ExactlyOnce(schedules, events) && s.id !in schedules && s.status == Pending
    ensures ExactlyOnce(schedules[s.id := s], events)
  {
    forall i | 0 <= i < |events| && events[i].scheduleId.Some?
      ensures events[i].scheduleId.value in schedules && events[i].scheduleId.value != s.id
    {
    }
  }

  lemma AddedOwnership(db: Db, s: Schedule)
    requires Ownership(db) && Owns(db.versions, s.contentId, s.versionId)
    ensures Ownership(db.(schedules := db.schedules[s.id := s]))
  {
  }

  lemma OwnerExists(db: Db, contentId: string, row: int)
    requires SchemaOk(db, false) && Owns(db.versions, contentId, row)
    ensures contentId in db.contents && row in db.versions
  {
  }

  lemma AddedRest(db: Db, s: Schedule)
    requires History(db) && Leases(db.schedules) && s.id !in db.schedules && LeaseShape(s)
    ensures var db' := db.(schedules := db.schedules[s.id := s]);
            History(db') && Leases(db'.schedules) && Extends(db, db')
  {
  }

  lemma AddScheduleSafe(db: Db, s: Schedule)
    requires DbInv(db) && s.id !in db.schedules && !HasActive(db.schedules, s.contentId)
    requires Owns(db.versions, s.contentId, s.versionId) && s.status == Pending && LeaseShape(s)
    ensures DbInv(db.(schedules := db.schedules[s.id := s])) && Extends(db, db.(schedules := db.schedules[s.id := s]))
  {
    hide SchemaOk, History, Ownership, Leases, LeaseShape, ExactlyOnce, Audit, Extends, HasActive, Owns;
    OwnerExists(db, s.contentId, s.versionId);
    AddScheduleKeeps(db, s, false);
    AddedOwnership(db, s);
    AddedOnce(db.schedules, db.events, s);
    AddedRest(db, s);
  }

  // ---------- the transactions ----------

  ghost predicate Safe(db: Db, db': Db) {
    DbInv(db') && Extends(db, db')
  }

  lemma CreateContentSafe(db: Db, id: string, slug: string, f: VersionFields, actor: string, now: int)
    requires DbInv(db)
    ensures Safe(db, CreateContent(db, id, slug, f, actor, now).db)
  {
    hide SlugsUnique, NumbersUnique, OneActive, ForeignKeysOk, History, Ownership, Leases, ExactlyOnce, Audit;
    if CreateContent(db, id, slug, f, actor, now).result.Ok? {
      var c := Content(id, slug, 1, None, None, now, now);
      BumpSafe(db, c, f, actor, now);
      assert CreateContent(db, id, slug, f, actor, now).db == WithVersion(db, c, f, actor, now);
    }
  }

  lemma UpdateIsBump(db: Db, id: string, expected: int, f: VersionFields, actor: string, now: int)
    requires KeysOk(db) && UpdateContent(db, id, expected, f, actor, now).result.Ok?
    ensures var c := db.contents[id].(currentVersion := expected + 1, updatedAt := now);
            Bumped(db, c) && UpdateContent(db, id, expected, f, actor, now).db == WithVersion(db, c, f, actor, now)
  {
  }

  lemma UpdateContentSafe(db: Db, id: string, expected: int, f: VersionFields, actor: string, now: int)
    requires DbInv(db)
    ensures Safe(db, UpdateContent(db, id, expected, f, actor, now).db)
  {
    hide SlugsUnique, NumbersUnique, OneActive, ForeignKeysOk, History, Ownership, Leases, ExactlyOnce, Audit;
    if UpdateContent(db, id, expected, f, actor, now).result.Ok? {
      var c := db.contents[id].(currentVersion := expected + 1, updatedAt := now);
      UpdateIsBump(db, id, expected, f, actor, now);
      BumpSafe(db, c, f, actor, now);
    }
  }

  lemma PublishSafe(db: Db, p: PublishParams, indexed: bool)
    requires DbInv(db) && p.source == Manual && p.scheduleId.None?
    ensures Safe(db, Publish(db, p, indexed).db)
  {
    hide SlugsUnique, NumbersUnique, OneActive, ForeignKeysOk, History, Ownership, Leases, ExactlyOnce, Audit;
    if Publish(db, p, indexed).db != db {
      var c := db.contents[p.contentId]
        .(publishedVersionId := Some(p.versionId), publishedAt := Some(p.now), updatedAt := p.now);
      PointSafe(db, c, PublishEvent(p));
      assert Publish(db, p, indexed).db == WithEvent(db, c, PublishEvent(p));
    }
  }

  lemma UnpublishSafe(db: Db, contentId: string, actor: string, now: int)
    requires DbInv(db)
    ensures Safe(db, Unpublish(db, contentId, actor, now).db)
  {
    hide SlugsUnique, NumbersUnique, OneActive, ForeignKeysOk, History, Leases, ExactlyOnce, Audit;
    if Unpublish(db, contentId, actor, now).db != db {
      var version := db.contents[contentId].publishedVersionId;
      var c := db.contents[contentId].(publishedVersionId := None, publishedAt := None, updatedAt := now);
      var e := Event(0, contentId, version, UnpublishAction, Manual, None, actor, now);
      PointSafe(db, c, e);
      assert Unpublish(db, contentId, actor, now).db == WithEvent(db, c, e);
    }
  }

  lemma CreateScheduleSafe(db: Db, id: string, contentId: string, versionId: int, runAt: int, now: int)
    requires DbInv(db) && now < runAt
    ensures Safe(db, CreateSchedule(db, id, contentId, versionId, runAt, now).db)
  {
    hide SchemaOk, History, Ownership, Leases, ExactlyOnce, Audit;
    if CreateSchedule(db, id, contentId, versionId, runAt, now).result.Ok? {
      AddScheduleSafe(db, Schedule(id, contentId, versionId, runAt, Pending, 0, None, None, "", now, now));
    }
  }

  lemma CancelScheduleSafe(db: Db, id: string, now: int)
    requires DbInv(db)
    ensures Safe(db, CancelSchedule(db, id, now).db)
  {
    hide SchemaOk, History, Ownership, ExactlyOnce, Audit;
    if id in db.schedules && db.schedules[id].status == Pending {
      RewriteSafe(db, db.schedules[id := Cancel(db.schedules[id], now)]);
    }
  }

  lemma ClaimSafe(db: Db, worker: string, now: int, expiry: int, chosen: set<string>)
    requires DbInv(db)
    requires forall k | k in chosen && k in db.schedules :: Active(db.schedules[k])
    ensures Safe(db, Claim(db, worker, now, expiry, chosen))
  {
    hide SchemaOk, History, Ownership, ExactlyOnce, Audit;
    RewriteSafe(db, Claim(db, worker, now, expiry, chosen).schedules);
  }

  lemma CompleteSafe(db: Db, job: ClaimedJob, worker: string, now: int, indexed: bool)
    requires DbInv(db) && JobMatches(db.schedules, job)
    ensures Safe(db, CompleteScheduledPublish(db, job, worker, now, indexed).db)
  {
    hide SchemaOk, History, Ownership, Leases, ExactlyOnce, Audit;
    if CompleteScheduledPublish(db, job, worker, now, indexed).result.Ok? {
      CompletedSafe(db, job, worker, now);
    }
  }

  lemma FailScheduleSafe(db: Db, scheduleId: string, worker: string, reason: string, now: int)
    requires DbInv(db)
    ensures Safe(db, FailSchedule(db, scheduleId, worker, reason, now).db)
  {
    hide SchemaOk, History, Ownership, ExactlyOnce, Audit;
    if HoldsLease(db.schedules, scheduleId, worker) {
      RewriteSafe(db, db.schedules[scheduleId := Reopen(db.schedules[scheduleId], reason, now)]);
    }
  }

  lemma ReleaseClaimsSafe(db: Db, worker: string, now: int)
    requires DbInv(db)
    ensures Safe(db, ReleaseClaims(db, worker, now).db)
  {
    hide SchemaOk, History, Ownership, ExactlyOnce, Audit;
    RewriteSafe(db, ReleaseClaims(db, worker, now).db.schedules);
  }
}
