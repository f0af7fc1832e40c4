/** Concrete runs in which a promise fails. README.md names the lemma that says when each of
    them holds. */
module Counterexamples {
  import opened Tables
  import opened Transactions
  import opened Invariants
  import opened Steps
  import opened Effects
  import opened Leasing
  import opened AuditLog
  import opened PublicView
  import opened Validators
  import opened EntityTags
  import opened Handlers
  import opened AdminView
  import opened RowHistory

  const F1 := VersionFields("one", "", "", "", "", "", false)
  const F2 := VersionFields("two", "", "", "", "", "", false)

  function Last(r: Run): State
    requires r.states != []
  {
    r.states[|r.states| - 1]
  }

  /** One more step of a run. */
  lemma Take(r: Run, a: Step, indexed: bool) returns (r': Run)
    requires IsRun(r, indexed) && Enabled(Last(r), a)
    ensures IsRun(r', indexed)
    ensures r'.steps == r.steps + [a] && r'.states == r.states + [Next(Last(r), a, indexed)]
    ensures Last(r') == Next(Last(r), a, indexed)
  {
    hide Enabled, Next;
    r' := Run(r.states + [Next(Last(r), a, indexed)], r.steps + [a]);
    forall i: nat | i < |r'.steps|
      ensures StepOk(r', i, indexed)
    {
      if i < |r.steps| {
        assert StepOk(r, i, indexed);
      }
    }
  }

  lemma Start(indexed: bool) returns (r: Run)
    ensures IsRun(r, indexed) && r == Run([INITIAL], [])
  {
    r := Run([INITIAL], []);
  }

  /** A run that has just created document "a" (its version 1 is row 1) at time 0. */
  lemma OneDocument(indexed: bool) returns (r: Run)
    ensures IsRun(r, indexed) && |r.states| == 2
    ensures Last(r) == State(
              Db(map["a" := Content("a", "a", 1, None, None, 0, 0)],
                 map[1 := Version(1, "a", 1, "", 0, F1)], 1, map[], [], 0),
              map[], map[])
  {
    r := Start(indexed);
    r := Take(r, CreateContentStep("a", "a", F1, "", 0, Lands), indexed);
  }

  /** Publishing row `row` of content `c` at time `now`. */
  lemma PublishRow(r: Run, c: string, number: int, row: int, now: int) returns (r': Run)
    requires IsRun(r, true) && Last(r).sessions == map[]
    requires IsVersion(Last(r).db.versions, row, c, number) && c in Last(r).db.contents
    requires Last(r).db.contents[c].publishedVersionId != Some(row)
    ensures IsRun(r', true) && |r'.states| == |r.states| + 2 && r'.states[..|r.states|] == r.states
    ensures r'.states[|r.states|].db == Last(r).db
    ensures Last(r').sessions == map[] && Last(r').processes == Last(r).processes
    ensures Last(r').db == AppendEvent(SetPointer(Last(r).db, c, Some(row), Some(now), now),
                             PublishEvent(PublishParams(c, row, Manual, "", None, now)))
  {
    hide IsRun;
    var r1 := Take(r, ReadForPublishStep(0, c, number, Some(row)), true);
    assert Last(r1).sessions == map[0 := Publishing(c, number, row)];
    r' := Take(r1, PublishStep(0, "", now, Lands), true);
    assert Last(r').sessions == map[];
  }

  /** Editing "a" from version 1 to version 2, which becomes row 2. */
  lemma EditA(r: Run, now: int) returns (r': Run)
    requires IsRun(r, true) && Last(r).sessions == map[]
    requires "a" in Last(r).db.contents && Last(r).db.contents["a"].currentVersion == 1
    requires Last(r).db.versions == map[1 := Version(1, "a", 1, "", 0, F1)] && Last(r).db.versionSeq == 1
    ensures IsRun(r', true) && |r'.states| == |r.states| + 1 && r'.states[..|r.states|] == r.states
    ensures Last(r').sessions == map[] && Last(r').processes == Last(r).processes
    ensures Last(r').db == AppendVersion(
              Last(r).db.(contents := Last(r).db.contents["a" :=
                Last(r).db.contents["a"].(currentVersion := 2, updatedAt := now)]),
              "a", 2, F2, "", now)
  {
    assert !HasVersion(Last(r).db.versions, "a", 2);
    r' := Take(r, UpdateContentStep("a", 1, F2, "", now, Lands), true);
  }

  /** Version 1 of "a" published at `t1`, edited at `t2`, version 2 published at `t3`. */
  lemma PublishEditPublish(t1: int, t2: int, t3: int) returns (r: Run)
    ensures IsRun(r, true) && |r.states| == 7
    ensures r.states[3].db == Db(
              map["a" := Content("a", "a", 1, Some(1), Some(t1), 0, t1)],
              map[1 := Version(1, "a", 1, "", 0, F1)], 1, map[],
              [Event(1, "a", Some(1), PublishAction, Manual, None, "", t1)], 1)
    ensures r.states[4].db.contents == r.states[5].db.contents == map["a" := Content("a", "a", 2, Some(1), Some(t1), 0, t2)]
    ensures r.states[6].db == Db(
              map["a" := Content("a", "a", 2, Some(2), Some(t3), 0, t3)],
              map[1 := Version(1, "a", 1, "", 0, F1), 2 := Version(2, "a", 2, "", t2, F2)], 2, map[],
              [Event(1, "a", Some(1), PublishAction, Manual, None, "", t1),
               Event(2, "a", Some(2), PublishAction, Manual, None, "", t3)], 2)
  {
    r := OneDocument(true);
    r := PublishRow(r, "a", 1, 1, t1);
    var r3 := r;
    r := EditA(r, t2);
    assert r.states[3] == Last(r3);
    var r4 := r;
    r := PublishRow(r, "a", 2, 2, t3);
    assert r.states[3] == Last(r3) && r.states[4] == Last(r4);
  }

  /** Stamps are read before the write transaction is entered, so they can run against commit
      order: the newest event by time need not be the one that made the current pointer. */
  lemma TimeOrderIsNotLogOrder() returns (r: Run)
    ensures IsRun(r, true) && |r.states| == 7
    ensures var events := r.states[6].db.events;
            && |events| == 2 && events[0].id < events[1].id && Newer(events[0], events[1])
            && Replay(events, "a") == Pointer(events[1].versionId, Some(events[1].occurredAt))
  {
    r := PublishEditPublish(10, 7, 5);
  }

  /** Two publishes of a document in one millisecond: the same tag for different content. */
  lemma SameMillisecondSameTag() returns (r: Run)
    ensures IsRun(r, true) && |r.states| == 7
    ensures IsPublic(r.states[3].db, "a") && IsPublic(r.states[6].db, "a")
    ensures ContentETag(r.states[3].db.contents["a"].updatedAt) == ContentETag(r.states[6].db.contents["a"].updatedAt)
    ensures PublicRow(r.states[3].db, "a") != PublicRow(r.states[6].db, "a")
  {
    r := PublishEditPublish(10, 10, 10);
    assert F1.title[0] != F2.title[0];
  }

  /** Every change writes another stamp than the one it finds (10, 7, 10), and still the first
      and the last state have one tag for different content. */
  lemma OldStampReturns() returns (r: Run)
    ensures IsRun(r, true) && |r.states| == 7
    ensures IsPublic(r.states[3].db, "a") && IsPublic(r.states[6].db, "a")
    ensures forall m: nat | 3 <= m < 6 && RewritesAt(r, m, "a") ::
              && "a" in r.states[m].db.contents && "a" in r.states[m + 1].db.contents
              && r.states[m].db.contents["a"].updatedAt != r.states[m + 1].db.contents["a"].updatedAt
    ensures ContentETag(r.states[3].db.contents["a"].updatedAt) == ContentETag(r.states[6].db.contents["a"].updatedAt)
    ensures PublicRow(r.states[3].db, "a") != PublicRow(r.states[6].db, "a")
  {
    r := PublishEditPublish(10, 7, 10);
    assert F1.title[0] != F2.title[0];
    forall m: nat | 3 <= m < 6 && RewritesAt(r, m, "a")
      ensures "a" in r.states[m].db.contents && "a" in r.states[m + 1].db.contents
      ensures r.states[m].db.contents["a"].updatedAt != r.states[m + 1].db.contents["a"].updatedAt
    {
      assert m == 3 || m == 5;
    }
  }

  // ---------- the collection tag ----------

  lemma UnpublishA(r: Run, now: int) returns (r': Run)
    requires IsRun(r, true) && "a" in Last(r).db.contents && Last(r).db.contents["a"].publishedVersionId.Some?
    ensures IsRun(r', true) && |r'.states| == |r.states| + 1 && r'.states[..|r.states|] == r.states
    ensures Last(r').db == Unpublish(Last(r).db, "a", "", now).db
  {
    r' := Take(r, UnpublishStep("a", "", now, Lands), true);
  }

  lemma TwoDrafts() returns (r: Run)
    ensures IsRun(r, true) && |r.states| == 3 && Last(r).sessions == map[]
    ensures Last(r).db.contents == map["a" := Content("a", "a", 1, None, None, 0, 0),
                                       "b" := Content("b", "b", 1, None, None, 0, 0)]
    ensures Last(r).db.versions == map[1 := Version(1, "a", 1, "", 0, F1), 2 := Version(2, "b", 1, "", 0, F2)]
  {
    r := OneDocument(true);
    assert !SlugUsed(Last(r).db.contents, "b");
    r := Take(r, CreateContentStep("b", "b", F2, "", 0, Lands), true);
  }

  /** "a" published with stamp `t1` (state 4), then "b" with stamp `t2` (state 6). */
  lemma TwoDocuments(t1: int, t2: int) returns (r: Run)
    ensures IsRun(r, true) && |r.states| == 7
    ensures r.states[4].db.contents == map["a" := Content("a", "a", 1, Some(1), Some(t1), 0, t1),
                                           "b" := Content("b", "b", 1, None, None, 0, 0)]
    ensures Last(r).db.contents == map["a" := Content("a", "a", 1, Some(1), Some(t1), 0, t1),
                                       "b" := Content("b", "b", 1, Some(2), Some(t2), 0, t2)]
    ensures r.states[4].db.versions == Last(r).db.versions
         == map[1 := Version(1, "a", 1, "", 0, F1), 2 := Version(2, "b", 1, "", 0, F2)]
    ensures PublicIds(r.states[4].db) == {"a"} && PublicIds(r.states[6].db) == {"a", "b"}
    ensures LatestPublishedAt(r.states[4].db) == t1
    ensures LatestPublishedAt(r.states[6].db) == if t1 < t2 then t2 else t1
  {
    r := TwoDrafts();
    r := PublishRow(r, "a", 1, 1, t1);
    var s4 := Last(r);
    r := PublishRow(r, "b", 1, 2, t2);
    assert r.states[4] == s4;
    var s6 := Last(r);
    assert "b" in PublicIds(s6.db) && "a" in PublicIds(s6.db) && "a" in PublicIds(s4.db);
  }

  /** A publish whose stamp was read first commits second: the list grows under the old tag, and
      a client that revalidates keeps the old list. */
  lemma LateCommitKeepsCollectionTag() returns (r: Run)
    ensures IsRun(r, true) && |r.states| == 7
    ensures var before, after := r.states[4].db, r.states[6].db;
            var w := Window(100, 0);
            var first := ListReply(before, before, before, w, "");
            && PublicIds(before) == {"a"} && PublicIds(after) == {"a", "b"}
            && first.Body? && first.value.items != Page(PublicList(after), w.limit, w.offset)
            && ListReply(after, after, after, w, first.etag) == Unchanged(first.etag)
  {
    hide PublicIds, LatestPublishedAt, IsLatest, Listing, NotModified;
    r := TwoDocuments(20, 10);
    assert |PublicList(r.states[4].db)| == 1 && |PublicList(r.states[6].db)| == 2;
    NoHeader(ContentETag(20));
    OwnTagMatches(20, 20);
  }

  /** Unpublishing an older document leaves the collection tag as it was. */
  lemma UnpublishKeepsCollectionTag() returns (r: Run)
    ensures IsRun(r, true) && |r.states| == 8
    ensures ContentETag(LatestPublishedAt(r.states[6].db)) == ContentETag(LatestPublishedAt(r.states[7].db))
    ensures PublicList(r.states[6].db) != PublicList(r.states[7].db)
  {
    r := TwoDocuments(10, 20);
    var s6 := Last(r);
    r := UnpublishA(r, 30);
    assert r.states[6] == s6;
    UnpublishKeepsTagWhen(s6.db, "a", "", 30);
    assert |PublicList(s6.db)| == 2 && |PublicList(Last(r).db)| == 1;
  }

  /** A publish between the list handler's queries hands out the new tag with the old list. A
      client that revalidates with it later is told its old list is current. */
  lemma SplitReadServesStaleList() returns (r: Run)
    ensures IsRun(r, true) && |r.states| == 7
    ensures var before, after := r.states[4].db, r.states[6].db;
            var w := Window(100, 0);
            var split := ListReply(before, before, after, w, "");
            && split.Body? && split.value.items != Page(PublicList(after), w.limit, w.offset)
            && ListReply(after, after, after, w, split.etag) == Unchanged(split.etag)
  {
    hide PublicIds, LatestPublishedAt, IsLatest, Listing, NotModified;
    r := TwoDocuments(10, 20);
    assert |PublicList(r.states[4].db)| == 1 && |PublicList(r.states[6].db)| == 2;
    NoHeader(ContentETag(LatestPublishedAt(r.states[6].db)));
    OwnTagMatches(LatestPublishedAt(r.states[6].db), LatestPublishedAt(r.states[6].db));
  }

  /** Publishing changes an admin response and not its tag. */
  lemma PublishKeepsAdminTag() returns (r: Run)
    ensures IsRun(r, true) && |r.states| == 4
    ensures "a" in r.states[1].db.contents && "a" in r.states[3].db.contents
    ensures var x, y := r.states[1].db.contents["a"], r.states[3].db.contents["a"];
            && FormatETag(x.currentVersion) == FormatETag(y.currentVersion)
            && HasVersion(r.states[1].db.versions, "a", x.currentVersion)
            && HasVersion(r.states[3].db.versions, "a", y.currentVersion)
            && AdminResponse(r.states[1].db, "a") != AdminResponse(r.states[3].db, "a")
  {
    hide FormatETag;
    r := OneDocument(true);
    var s1 := Last(r);
    r := PublishRow(r, "a", 1, 1, 10);
    assert r.states[1] == s1;
    assert IsVersion(s1.db.versions, 1, "a", 1);
  }

  // ---------- cancel and claim ----------

  const JOB := ClaimedJob("s", "a", 1)

  function ScheduleS(status: Status, attempts: int, lockedBy: Option<string>, until: Option<int>,
                     error: string, updatedAt: int): Schedule
  {
    Schedule("s", "a", 1, 100, status, attempts, lockedBy, until, error, 1, updatedAt)
  }

  /** Schedule "s" publishes "a" at 100; process 0, worker "w", claims it at 100 until `expiry`,
      by a second reading `later`. */
  lemma OneClaim(later: int, expiry: int) returns (r: Run)
    requires expiry == later + 10
    ensures IsRun(r, true) && |r.states| == 6 && |r.steps| == 5
    ensures r.steps[4] == ClaimStep(0, 100, later, expiry, Lands, {"s"}, [JOB])
    ensures Last(r).processes == map[0 := Process("w", 10, 1, [JOB], 100, None)] && Last(r).sessions == map[]
    ensures Last(r).db.schedules == map["s" := ScheduleS(Claimed, 1, Some("w"), Some(expiry), "", 100)]
    ensures Last(r).db.contents == map["a" := Content("a", "a", 1, None, None, 0, 0)]
    ensures Last(r).db.versions == map[1 := Version(1, "a", 1, "", 0, F1)]
    ensures Last(r).db.events == []
  {
    r := OneDocument(true);
    r := Take(r, ReadForScheduleStep(0, "a", 1, Some(1), 100, 1), true);
    assert Last(r).sessions == map[0 := Scheduling("a", 1, 1, 100, 1)];
    assert !HasActive(Last(r).db.schedules, "a");
    r := Take(r, CreateScheduleStep(0, "s", Lands), true);
    assert Last(r).db.schedules == map["s" := ScheduleS(Pending, 0, None, None, "", 1)];
    assert Last(r).sessions == map[];
    r := Take(r, StartStep(0, "w", 10, 1), true);
    assert Due(Last(r).db.schedules, 100) == {"s"};
    var claimed := Claim(Last(r).db, "w", 100, expiry, {"s"});
    assert claimed.schedules == map["s" := ScheduleS(Claimed, 1, Some("w"), Some(expiry), "", 100)];
    assert [JOB][0].scheduleId == "s";
    assert JobsFor(claimed.schedules, {"s"}, [JOB]);
    r := Take(r, ClaimStep(0, 100, later, expiry, Lands, {"s"}, [JOB]), true);
  }

  /** The holder's commit fails. */
  lemma FailedCommit() returns (r: Run)
    ensures IsRun(r, true) && |r.states| == 7
    ensures Last(r).db == r.states[5].db && Last(r).db.events == []
    ensures Last(r).db.schedules == map["s" := ScheduleS(Claimed, 1, Some("w"), Some(110), "", 100)]
    ensures Last(r).processes == map[0 := Process("w", 10, 1, [], 100, Some(FailedJob("s", 100)))]
  {
    r := OneClaim(100, 110);
    r := Take(r, CompleteStep(0, 100, CommitFails), true);
    assert [JOB][1..] == [];
  }

  lemma GivenBack() returns (r: Run)
    ensures IsRun(r, true) && |r.states| == 8 && Last(r).db.events == []
    ensures r.states[5].db.schedules == map["s" := ScheduleS(Claimed, 1, Some("w"), Some(110), "", 100)]
    ensures Last(r).db.schedules == map["s" := ScheduleS(Pending, 1, None, None, "x", 100)]
  {
    r := FailedCommit();
    r := Take(r, FailStep(0, "x", Lands), true);
  }

  /** A cancel is refused with a conflict because the row is claimed, and still nothing is
      published: the claim holder's commit fails, it gives the lease back, and a second cancel
      succeeds. */
  lemma ConflictWithoutPublish() returns (r: Run)
    ensures IsRun(r, true) && |r.states| == 9
    ensures CancelSchedule(r.states[5].db, "s", 105).result == Err(NotCancellable)
    ensures "s" in r.states[8].db.schedules && r.states[8].db.schedules["s"].status == Cancelled
    ensures !HasEvent(r.states[8].db.events, "s")
  {
    r := GivenBack();
    r := Take(r, CancelStep("s", 120, Lands), true);
  }

  /** A worker whose clock goes back between its claim and its completion records a publish
      before run_at. */
  lemma ClockBackPublishesEarly() returns (r: Run)
    ensures IsRun(r, true) && |r.states| == 7 && |r.states[6].db.events| == 1
    ensures var db := r.states[6].db;
            "s" in db.schedules && db.events[0].scheduleId == Some("s")
            && db.events[0].occurredAt < db.schedules["s"].runAt
    ensures r.steps[5].CompleteStep? && !OwnClockForward(r.states[5], r.steps[5], true, "s")
  {
    r := OneClaim(100, 110);
    assert |r.steps| == 5;
    r := Take(r, CompleteStep(0, 50, Lands), true);
  }

  // ---------- lease windows ----------

  lemma Started(r: Run, pid: nat, id: string) returns (r': Run)
    requires IsRun(r, true) && pid !in Last(r).processes
    ensures IsRun(r', true) && |r'.steps| == |r.steps| + 1 && r'.steps[..|r.steps|] == r.steps
    ensures r'.states == r.states + [Last(r')] && Last(r').db == Last(r).db
    ensures Last(r').processes == Last(r).processes[pid := Process(id, 1, 1, [], 0, None)]
  {
    r' := Take(r, StartStep(pid, id, 1, 1), true);
  }

  /** A new process takes over the expired lease of "s". */
  lemma TakeOver(r: Run, pid: nat, id: string, now: int, later: int, expiry: int, was: Schedule) returns (r': Run)
    requires IsRun(r, true) && pid !in Last(r).processes && expiry == later + 1
    requires Last(r).db.schedules == map["s" := was]
    requires was == ScheduleS(Claimed, was.attempts, was.lockedBy, was.lockExpiresAt, "", was.updatedAt)
    requires was.lockExpiresAt.Some? && was.lockExpiresAt.value <= now
    ensures IsRun(r', true) && |r'.steps| == |r.steps| + 2 && r'.steps[..|r.steps|] == r.steps
    ensures |r'.states| == |r.states| + 2
    ensures r'.states[..|r.states|] == r.states && r'.states[|r.states|].db == Last(r).db
    ensures r'.steps[|r.steps| + 1] == ClaimStep(pid, now, later, expiry, Lands, {"s"}, [JOB])
    ensures Last(r').db == Last(r).db.(schedules := map["s" := Lease(was, id, now, expiry)])
    ensures Last(r').processes == Last(r).processes[pid := Process(id, 1, 1, [JOB], now, None)]
  {
    hide IsRun;
    var r1 := Started(r, pid, id);
    assert Due(Last(r1).db.schedules, now) == {"s"};
    var claimed := Claim(Last(r1).db, id, now, expiry, {"s"});
    assert claimed.schedules == map["s" := Lease(was, id, now, expiry)];
    assert [JOB][0].scheduleId == "s";
    r' := Take(r1, ClaimStep(pid, now, later, expiry, Lands, {"s"}, [JOB]), true);
  }

  /** The proviso of disjoint lease windows is needed: a claim whose second clock reading fell
      behind its first leaves an expired lease, and the next claim starts inside the window of
      the one before. */
  lemma ClockBackOverlapsLeases() returns (r: Run)
    ensures IsRun(r, true) && |r.steps| == 9
    ensures ClaimsAt(r, 4, "s") && ClaimsAt(r, 6, "s") && ClaimsAt(r, 8, "s") && ClaimedFrom(r, 5, 8, "s")
    ensures r.steps[6].expiry <= r.steps[6].now && r.steps[8].now < r.steps[4].expiry
  {
    hide IsRun, Enabled, Next;
    r := OneClaim(100, 110);
    var first := Last(r).db.schedules["s"];
    r := TakeOver(r, 1, "x", 200, 0, 1, first);
    var second := Last(r).db.schedules["s"];
    r := TakeOver(r, 2, "y", 50, 50, 51, second);
    forall i: nat | i < 9
      ensures Enabled(r.states[i], r.steps[i])
    {
      RunStep(r, true, i);
    }
  }

  lemma CompleteTakeOver(r: Run) returns (r': Run)
    requires IsRun(r, true) && |r.steps| == 7
    requires Last(r).db.schedules == map["s" := ScheduleS(Claimed, 2, Some("x"), Some(41), "", 40)]
    requires Last(r).db.contents == map["a" := Content("a", "a", 1, None, None, 0, 0)]
    requires Last(r).db.versions == map[1 := Version(1, "a", 1, "", 0, F1)] && Last(r).db.events == []
    requires 1 in Last(r).processes && Last(r).processes[1] == Process("x", 1, 1, [JOB], 40, None)
    ensures IsRun(r', true) && |r'.states| == 9 && r'.states[7] == Last(r)
    ensures r'.steps[7] == CompleteStep(1, 45, Lands) && Completes(r'.states[7], r'.steps[7], true, "s")
    ensures Last(r').db.schedules.Keys == {"s"} && Last(r').db.schedules["s"].runAt == 100
    ensures |Last(r').db.events| == 1
    ensures Last(r').db.events[0].scheduleId == Some("s") && Last(r').db.events[0].occurredAt == 45
  {
    r' := Take(r, CompleteStep(1, 45, Lands), true);
  }

  /** A publish before run_at although every completion reads no earlier than its own claim: a
      claim at 100 whose second reading is 20 leaves a lease until 30, another worker takes it
      over at 40, and completes at 45. */
  lemma ShortLeasePublishesEarly() returns (r: Run)
    ensures IsRun(r, true) && |r.states| == 9 && |r.states[8].db.events| == 1
    ensures var db := r.states[8].db;
            "s" in db.schedules && db.events[0].scheduleId == Some("s")
            && db.events[0].occurredAt < db.schedules["s"].runAt
    ensures Completes(r.states[7], r.steps[7], true, "s")
    ensures r.states[7].processes[r.steps[7].pid].claimedAt <= r.steps[7].now
  {
    r := OneClaim(20, 30);
    r := TakeOver(r, 1, "x", 40, 40, 41, Last(r).db.schedules["s"]);
    r := CompleteTakeOver(r);
  }
}
