/** A batch in closed form, whatever becomes of its transactions; the order of the batch does not
    matter; and where nothing fails every claimed job completes and repeated cycles empty the
    queue at a known pace. */
module Draining {
  import opened Tables
  import opened Transactions
  import opened Schema
  import opened Invariants
  import opened Workers
  import opened Steps
  import opened Effects
  import opened Publishing
  import opened Columns

  /** Every job matches its row, and the worker holds the lease of each. */
  ghost predicate Ready(schedules: map<string, Schedule>, jobs: seq<ClaimedJob>, worker: string) {
    && (forall i | 0 <= i < |jobs| ::
          JobMatches(schedules, jobs[i]) && HoldsLease(schedules, jobs[i].scheduleId, worker))
    && (forall i, j | 0 <= i < j < |jobs| :: jobs[i].scheduleId != jobs[j].scheduleId)
  }

  /** Two jobs of one batch never target the same content. */
  lemma BatchTargetsDistinctContents(db: Db, jobs: seq<ClaimedJob>, worker: string, i: nat, j: nat)
    requires OneActive(db.schedules) && Ready(db.schedules, jobs, worker) && i < j < |jobs|
    ensures jobs[i].contentId != jobs[j].contentId
  {
    assert Active(db.schedules[jobs[i].scheduleId]) && Active(db.schedules[jobs[j].scheduleId]);
  }

  // ---------- one job ----------

  /** What becomes of a schedule row whose lease is held: done if the completion takes effect,
      otherwise pending again if the release of the failed job does, otherwise left leased. */
  function RowAfter(s: Schedule, luck: Luck): Schedule {
    if TakesEffect(luck.complete) then Finish(s, luck.now)
    else if TakesEffect(luck.fail) then Reopen(s, luck.reason, luck.now)
    else s
  }

  lemma LandedJob(db: Db, job: ClaimedJob, worker: string, luck: Luck, indexed: bool)
    requires DbInv(db) && JobMatches(db.schedules, job) && HoldsLease(db.schedules, job.scheduleId, worker)
    requires TakesEffect(luck.complete)
    ensures job.contentId in db.contents
    ensures Execute(db, job, worker, luck, indexed) == Completed(db, job, luck.now)
  {
    hide DbInv, HasEvent;
    HeldLeaseCompletes(db, job, worker, luck.now, indexed);
  }

  lemma FailedJobReopens(db: Db, job: ClaimedJob, worker: string, luck: Luck, indexed: bool)
    requires DbInv(db) && JobMatches(db.schedules, job) && HoldsLease(db.schedules, job.scheduleId, worker)
    requires !TakesEffect(luck.complete)
    ensures Execute(db, job, worker, luck, indexed)
         == db.(schedules := db.schedules[job.scheduleId := RowAfter(db.schedules[job.scheduleId], luck)])
  {
    hide DbInv, HasEvent;
    HeldLeaseCompletes(db, job, worker, luck.now, indexed);
    var k := job.scheduleId;
    assert db.schedules[k := db.schedules[k]] == db.schedules;
  }

  /** The state one job leaves. */
  ghost predicate JobAfter(db: Db, after: Db, job: ClaimedJob, luck: Luck)
    requires job.scheduleId in db.schedules && job.contentId in db.contents
  {
    && after.versions == db.versions && after.versionSeq == db.versionSeq
    && after.schedules == db.schedules[job.scheduleId := RowAfter(db.schedules[job.scheduleId], luck)]
    && if TakesEffect(luck.complete) then
         && after.contents == db.contents[job.contentId := Published(db.contents[job.contentId], job, luck.now)]
         && after.events == db.events + [JobEvent(job, luck.now).(id := db.eventSeq + 1)]
         && after.eventSeq == db.eventSeq + 1
       else
         after.contents == db.contents && after.events == db.events && after.eventSeq == db.eventSeq
  }

  /** Executing a job whose lease is held, however its transactions end. */
  lemma ExecuteHeldJob(db: Db, job: ClaimedJob, worker: string, luck: Luck, indexed: bool)
    requires DbInv(db) && JobMatches(db.schedules, job) && HoldsLease(db.schedules, job.scheduleId, worker)
    ensures job.contentId in db.contents
    ensures var after := Execute(db, job, worker, luck, indexed);
            JobAfter(db, after, job, luck) && DbInv(after) && Extends(db, after)
  {
    hide DbInv, Extends, Execute, HasEvent;
    CompletedSafe(db, job, worker, luck.now);
    if TakesEffect(luck.complete) {
      LandedJob(db, job, worker, luck, indexed);
    } else {
      FailedJobReopens(db, job, worker, luck, indexed);
      FailScheduleSafe(db, job.scheduleId, worker, luck.reason, luck.now);
      ExtendsRefl(db);
      assert TakesEffect(luck.fail) ==>
          Execute(db, job, worker, luck, indexed) == FailSchedule(db, job.scheduleId, worker, luck.reason, luck.now).db;
      assert db.schedules[job.scheduleId := db.schedules[job.scheduleId]] == db.schedules;
    }
  }

  lemma RestReady(db: Db, after: Db, jobs: seq<ClaimedJob>, worker: string, luck: Luck)
    requires jobs != [] && Ready(db.schedules, jobs, worker) && jobs[0].contentId in db.contents
    requires JobAfter(db, after, jobs[0], luck)
    ensures Ready(after.schedules, jobs[1..], worker)
  {
    forall i | 0 <= i < |jobs[1..]|
      ensures JobMatches(after.schedules, jobs[1..][i]) && HoldsLease(after.schedules, jobs[1..][i].scheduleId, worker)
    {
      assert jobs[1..][i] == jobs[i + 1];
    }
  }

  // ---------- the whole batch in closed form ----------

  predicate Lists(jobs: seq<ClaimedJob>, k: string) {
    exists i | 0 <= i < |jobs| :: jobs[i].scheduleId == k
  }

  /** The completion of the job takes effect. */
  predicate TookEffect(job: ClaimedJob, luck: string -> Luck) {
    TakesEffect(luck(job.scheduleId).complete)
  }

  ghost predicate SchedulesAfter(before: map<string, Schedule>, after: map<string, Schedule>,
                                 jobs: seq<ClaimedJob>, luck: string -> Luck)
  {
    && after.Keys == before.Keys
    && forall k | k in before :: after[k] == if Lists(jobs, k) then RowAfter(before[k], luck(k)) else before[k]
  }

  ghost predicate ContentsAfter(before: map<string, Content>, after: map<string, Content>,
                                jobs: seq<ClaimedJob>, luck: string -> Luck)
  {
    && after.Keys == before.Keys
    && (forall i | 0 <= i < |jobs| && TookEffect(jobs[i], luck) ::
          jobs[i].contentId in before
          && after[jobs[i].contentId] == Published(before[jobs[i].contentId], jobs[i], luck(jobs[i].scheduleId).now))
    && (forall c | c in before && (forall i | 0 <= i < |jobs| && TookEffect(jobs[i], luck) :: jobs[i].contentId != c) ::
          after[c] == before[c])
  }

  /** One event for each completion that takes effect, in the order of the batch. */
  function JobEvents(jobs: seq<ClaimedJob>, luck: string -> Luck): (r: seq<Event>)
    ensures |r| <= |jobs|
  {
    if jobs == [] then []
    else (if TookEffect(jobs[0], luck) then [JobEvent(jobs[0], luck(jobs[0].scheduleId).now)] else [])
         + JobEvents(jobs[1..], luck)
  }

  /** The log with the ids left out. */
  function Anonymous(events: seq<Event>): (r: seq<Event>)
    ensures |r| == |events| && forall i | 0 <= i < |r| :: r[i] == events[i].(id := 0)
  {
    seq(|events|, i requires 0 <= i < |events| => events[i].(id := 0))
  }

  /** The state a batch leaves: every listed row as its luck says, every target of an effective
      completion pointed at its pinned version with one event, nothing else touched. */
  ghost predicate BatchAfter(db: Db, after: Db, jobs: seq<ClaimedJob>, luck: string -> Luck) {
    && after.versions == db.versions && after.versionSeq == db.versionSeq
    && SchedulesAfter(db.schedules, after.schedules, jobs, luck)
    && ContentsAfter(db.contents, after.contents, jobs, luck)
    && Anonymous(after.events) == Anonymous(db.events) + JobEvents(jobs, luck)
    && after.eventSeq == db.eventSeq + |JobEvents(jobs, luck)|
  }

  lemma SchedulesAfterCons(before: map<string, Schedule>, mid: map<string, Schedule>, after: map<string, Schedule>,
                           jobs: seq<ClaimedJob>, worker: string, luck: string -> Luck)
    requires jobs != [] && Ready(before, jobs, worker)
    requires mid == before[jobs[0].scheduleId := RowAfter(before[jobs[0].scheduleId], luck(jobs[0].scheduleId))]
    requires SchedulesAfter(mid, after, jobs[1..], luck)
    ensures SchedulesAfter(before, after, jobs, luck)
  {
    hide RowAfter;
    var first := jobs[0].scheduleId;
    forall k | k in before
      ensures Lists(jobs, k) <==> k == first || Lists(jobs[1..], k)
      ensures !Lists(jobs[1..], first)
    {
      if Lists(jobs[1..], k) {
        var i :| 0 <= i < |jobs[1..]| && jobs[1..][i].scheduleId == k;
        assert jobs[i + 1].scheduleId == k;
      }
      if Lists(jobs, k) && k != first {
        var i :| 0 <= i < |jobs| && jobs[i].scheduleId == k;
        assert jobs[1..][i - 1].scheduleId == k;
      }
      assert jobs[0].scheduleId == first;
    }
  }

  lemma ContentsAfterCons(db: Db, mid: map<string, Content>, after: map<string, Content>,
                          jobs: seq<ClaimedJob>, worker: string, luck: string -> Luck)
    requires jobs != [] && OneActive(db.schedules) && Ready(db.schedules, jobs, worker) && jobs[0].contentId in db.contents
    requires mid == if TookEffect(jobs[0], luck)
      then db.contents[jobs[0].contentId :=
             Published(db.contents[jobs[0].contentId], jobs[0], luck(jobs[0].scheduleId).now)]
      else db.contents
    requires ContentsAfter(mid, after, jobs[1..], luck)
    ensures ContentsAfter(db.contents, after, jobs, luck)
  {
    hide TookEffect;
    var first := jobs[0].contentId;
    forall i | 0 < i < |jobs|
      ensures jobs[i].contentId != first && jobs[i] == jobs[1..][i - 1]
    {
      BatchTargetsDistinctContents(db, jobs, worker, 0, i);
    }
    assert forall i | 0 <= i < |jobs[1..]| :: jobs[1..][i] == jobs[i + 1];
  }

  lemma BatchAfterNil(db: Db, luck: string -> Luck)
    ensures BatchAfter(db, db, [], luck)
  {
    assert Anonymous(db.events) + JobEvents([], luck) == Anonymous(db.events);
  }

  lemma AnonymousSnoc(events: seq<Event>, e: Event, id: int)
    requires e.id == 0
    ensures Anonymous(events + [e.(id := id)]) == Anonymous(events) + [e]
  {
  }

  lemma EventsCons(db: Db, mid: Db, after: seq<Event>, jobs: seq<ClaimedJob>, luck: string -> Luck)
    requires jobs != [] && jobs[0].scheduleId in db.schedules && jobs[0].contentId in db.contents
    requires JobAfter(db, mid, jobs[0], luck(jobs[0].scheduleId))
    requires Anonymous(after) == Anonymous(mid.events) + JobEvents(jobs[1..], luck)
    ensures Anonymous(after) == Anonymous(db.events) + JobEvents(jobs, luck)
    ensures mid.eventSeq + |JobEvents(jobs[1..], luck)| == db.eventSeq + |JobEvents(jobs, luck)|
  {
    hide Anonymous;
    var e := JobEvent(jobs[0], luck(jobs[0].scheduleId).now);
    var rest := JobEvents(jobs[1..], luck);
    if TookEffect(jobs[0], luck) {
      AnonymousSnoc(db.events, e, db.eventSeq + 1);
      assert Anonymous(db.events) + [e] + rest == Anonymous(db.events) + ([e] + rest);
    } else {
      assert [] + rest == rest;
    }
  }

  lemma BatchAfterCons(db: Db, mid: Db, after: Db, jobs: seq<ClaimedJob>, worker: string, luck: string -> Luck)
    requires jobs != [] && OneActive(db.schedules) && Ready(db.schedules, jobs, worker) && jobs[0].contentId in db.contents
    requires JobAfter(db, mid, jobs[0], luck(jobs[0].scheduleId)) && BatchAfter(mid, after, jobs[1..], luck)
    ensures BatchAfter(db, after, jobs, luck)
  {
    hide SchedulesAfter, ContentsAfter, OneActive, Anonymous, JobEvents, RowAfter, Published;
    SchedulesAfterCons(db.schedules, mid.schedules, after.schedules, jobs, worker, luck);
    ContentsAfterCons(db, mid.contents, after.contents, jobs, worker, luck);
    EventsCons(db, mid, after.events, jobs, luck);
  }

  lemma FirstJob(db: Db, jobs: seq<ClaimedJob>, worker: string, luck: string -> Luck, indexed: bool)
    requires DbInv(db) && jobs != [] && Ready(db.schedules, jobs, worker)
    ensures jobs[0].contentId in db.contents && jobs[0].scheduleId in db.schedules && OneActive(db.schedules)
    ensures var after := Execute(db, jobs[0], worker, luck(jobs[0].scheduleId), indexed);
            && JobAfter(db, after, jobs[0], luck(jobs[0].scheduleId))
            && DbInv(after) && Extends(db, after) && Ready(after.schedules, jobs[1..], worker)
  {
    hide History, Ownership, Leases, ExactlyOnce, Audit, KeysOk, SlugsUnique, NumbersUnique, OneActive, ForeignKeysOk,
      Extends, Execute, JobAfter;
    var l := luck(jobs[0].scheduleId);
    assert JobMatches(db.schedules, jobs[0]) && HoldsLease(db.schedules, jobs[0].scheduleId, worker);
    ExecuteHeldJob(db, jobs[0], worker, l, indexed);
    RestReady(db, Execute(db, jobs[0], worker, l, indexed), jobs, worker, l);
  }

  /** A batch whose leases are held leaves the state in closed form, however the transactions of
      its jobs end. */
  lemma {:induction false} BatchEnds(db: Db, jobs: seq<ClaimedJob>, worker: string, luck: string -> Luck, indexed: bool)
    requires DbInv(db) && Ready(db.schedules, jobs, worker)
    ensures var after := ExecuteAll(db, jobs, worker, luck, indexed);
            DbInv(after) && Extends(db, after) && BatchAfter(db, after, jobs, luck)
    decreases |jobs|
  {
    hide DbInv, Extends, BatchAfter, OneActive, Execute, JobAfter, Ready;
    if jobs == [] {
      BatchAfterNil(db, luck);
      ExtendsRefl(db);
    } else {
      FirstJob(db, jobs, worker, luck, indexed);
      var mid := Execute(db, jobs[0], worker, luck(jobs[0].scheduleId), indexed);
      BatchEnds(mid, jobs[1..], worker, luck, indexed);
      BatchAfterCons(db, mid, ExecuteAll(mid, jobs[1..], worker, luck, indexed), jobs, worker, luck);
      ExtendsTrans(db, mid, ExecuteAll(mid, jobs[1..], worker, luck, indexed));
    }
  }

  /** Nothing fails while these jobs are executed. */
  ghost predicate AllLand(jobs: seq<ClaimedJob>, luck: string -> Luck) {
    forall i | 0 <= i < |jobs| :: luck(jobs[i].scheduleId).complete == Lands
  }

  lemma {:induction false} AllEvents(jobs: seq<ClaimedJob>, luck: string -> Luck)
    requires AllLand(jobs, luck)
    ensures |JobEvents(jobs, luck)| == |jobs|
    decreases |jobs|
  {
    if jobs != [] {
      assert forall i | 0 <= i < |jobs[1..]| :: jobs[1..][i] == jobs[i + 1];
      AllEvents(jobs[1..], luck);
    }
  }

  /** Where nothing fails every job of the batch is done, its target points at the pinned version,
      and each has written one event. */
  lemma BatchCompletes(db: Db, jobs: seq<ClaimedJob>, worker: string, luck: string -> Luck, indexed: bool)
    requires DbInv(db) && Ready(db.schedules, jobs, worker) && AllLand(jobs, luck)
    ensures var after := ExecuteAll(db, jobs, worker, luck, indexed);
            && DbInv(after) && Extends(db, after) && BatchAfter(db, after, jobs, luck)
            && after.eventSeq == db.eventSeq + |jobs|
            && forall i | 0 <= i < |jobs| ::
                 && jobs[i].scheduleId in db.schedules && jobs[i].scheduleId in after.schedules
                 && jobs[i].contentId in after.contents
                 && after.schedules[jobs[i].scheduleId]
                    == Finish(db.schedules[jobs[i].scheduleId], luck(jobs[i].scheduleId).now)
                 && after.contents[jobs[i].contentId].publishedVersionId == Some(jobs[i].versionId)
  {
    hide DbInv, Extends, ExecuteAll, Anonymous, JobEvents;
    BatchEnds(db, jobs, worker, luck, indexed);
    AllEvents(jobs, luck);
    forall i | 0 <= i < |jobs|
      ensures jobs[i].scheduleId in db.schedules && Lists(jobs, jobs[i].scheduleId) && TookEffect(jobs[i], luck)
    {
      assert JobMatches(db.schedules, jobs[i]);
    }
  }

  // ---------- a clean poll cycle ----------

  lemma ClaimedBatchIsReady(db: Db, worker: string, now: int, expiry: int, limit: nat,
                            chosen: set<string>, jobs: seq<ClaimedJob>)
    requires KeysOk(db) && IsBatch(db.schedules, now, limit, chosen)
    requires JobsFor(Claim(db, worker, now, expiry, chosen).schedules, chosen, jobs)
    ensures Ready(Claim(db, worker, now, expiry, chosen).schedules, jobs, worker)
    ensures forall k :: Lists(jobs, k) <==> k in chosen
  {
  }

  /** A cycle in which every transaction lands: any worker, any deadline, any batch the engine
      may choose, any clock readings while executing. */
  ghost predicate CleanTick(before: Db, after: Db, now: int, limit: nat, indexed: bool) {
    exists worker, expiry, luck: string -> Luck, chosen, jobs ::
      && Ticked(before, after, worker, now, expiry, limit, Lands, luck, indexed, chosen, jobs)
      && (forall k :: luck(k).complete == Lands)
  }

  /** Each chosen schedule done, every other one as it was. */
  ghost predicate BatchDone(before: map<string, Schedule>, after: map<string, Schedule>, chosen: set<string>) {
    && after.Keys == before.Keys
    && forall k | k in before ::
         if k in chosen then after[k].status == Done else after[k] == before[k]
  }

  lemma ClaimedThenDone(db: Db, after: map<string, Schedule>, worker: string, now: int, expiry: int,
                        chosen: set<string>, jobs: seq<ClaimedJob>, luck: string -> Luck)
    requires SchedulesAfter(Claim(db, worker, now, expiry, chosen).schedules, after, jobs, luck)
    requires forall k :: Lists(jobs, k) <==> k in chosen
    requires forall k :: luck(k).complete == Lands
    ensures BatchDone(db.schedules, after, chosen)
  {
    hide Lists;
    var claimed := Claim(db, worker, now, expiry, chosen).schedules;
    forall k | k in db.schedules
      ensures if k in chosen then after[k].status == Done else after[k] == db.schedules[k]
    {
      assert k in claimed;
    }
  }

  /** Every claimed job is done afterwards and no other schedule is touched. */
  lemma TickCompletesItsBatch(db: Db, after: Db, worker: string, now: int, expiry: int, limit: nat, luck: string -> Luck,
                              indexed: bool, chosen: set<string>, jobs: seq<ClaimedJob>)
    requires DbInv(db)
    requires Ticked(db, after, worker, now, expiry, limit, Lands, luck, indexed, chosen, jobs)
    requires forall k :: luck(k).complete == Lands
    ensures DbInv(after) && Extends(db, after)
    ensures BatchDone(db.schedules, after.schedules, chosen)
  {
    assert KeysOk(db);
    BatchIsActive(db.schedules, now, limit, chosen);
    var claimed := Claim(db, worker, now, expiry, chosen);
    ClaimSafe(db, worker, now, expiry, chosen);
    ClaimedBatchIsReady(db, worker, now, expiry, limit, chosen, jobs);
    BatchCompletes(claimed, jobs, worker, luck, indexed);
    ClaimedThenDone(db, after.schedules, worker, now, expiry, chosen, jobs, luck);
    ExtendsTrans(db, claimed, after);
  }

  lemma DoneIsNotDue(before: map<string, Schedule>, after: map<string, Schedule>, chosen: set<string>, now: int)
    requires BatchDone(before, after, chosen) && chosen <= Due(before, now)
    ensures Due(after, now) == Due(before, now) - chosen
    ensures |Due(after, now)| == |Due(before, now)| - |chosen|
  {
    assert Due(after, now) == Due(before, now) - chosen;
  }

  lemma TickShrinksDue(db: Db, after: Db, now: int, limit: nat, indexed: bool)
    requires DbInv(db) && CleanTick(db, after, now, limit, indexed)
    ensures DbInv(after)
    ensures var due, due' := Due(db.schedules, now), Due(after.schedules, now);
            due' <= due && |due'| == if |due| <= limit then 0 else |due| - limit
  {
    hide DbInv, Extends, JobsFor, Claim, ExecuteAll, BatchDone, Due;
    var worker, expiry, luck: string -> Luck, chosen, jobs :|
      && Ticked(db, after, worker, now, expiry, limit, Lands, luck, indexed, chosen, jobs)
      && (forall k :: luck(k).complete == Lands);
    TickCompletesItsBatch(db, after, worker, now, expiry, limit, luck, indexed, chosen, jobs);
    DoneIsNotDue(db.schedules, after.schedules, chosen, now);
  }

  /** The databases after 0, 1, 2, ... undisturbed cycles at the same time. */
  ghost predicate TickChain(dbs: seq<Db>, now: int, limit: nat, indexed: bool) {
    |dbs| > 0 && forall i: nat | i + 1 < |dbs| :: CleanTick(dbs[i], dbs[i + 1], now, limit, indexed)
  }

  /** After `i` cycles exactly `i * limit` fewer jobs are due. */
  lemma {:induction false} DueAfterTicks(dbs: seq<Db>, now: int, limit: nat, indexed: bool, i: nat)
    requires TickChain(dbs, now, limit, indexed) && i < |dbs| && DbInv(dbs[0])
    ensures DbInv(dbs[i])
    ensures var n := |Due(dbs[0].schedules, now)|;
            |Due(dbs[i].schedules, now)| == if n <= i * limit then 0 else n - i * limit
  {
    hide DbInv, CleanTick, Due;
    if i > 0 {
      DueAfterTicks(dbs, now, limit, indexed, i - 1);
      assert CleanTick(dbs[i - 1], dbs[i], now, limit, indexed);
      TickShrinksDue(dbs[i - 1], dbs[i], now, limit, indexed);
      assert i * limit == (i - 1) * limit + limit;
    }
  }

  /** The queue is empty after exactly the cycles it takes: n jobs in batches of `limit`. */
  lemma QueueEmpties(dbs: seq<Db>, now: int, limit: nat, indexed: bool, i: nat)
    requires TickChain(dbs, now, limit, indexed) && i < |dbs| && DbInv(dbs[0])
    ensures Due(dbs[i].schedules, now) == {} <==> |Due(dbs[0].schedules, now)| <= i * limit
  {
    hide DbInv, TickChain;
    DueAfterTicks(dbs, now, limit, indexed, i);
  }

  /** Nothing fails in the cycle, and its claim reads `now`. */
  ghost predicate Undisturbed(p: Pulse, now: int) {
    p.now == now && p.fate.Lands? && forall k :: p.luck(k).complete == Lands
  }

  lemma CleanPulse(after: Db, worker: string, lease: int, limit: nat, p: Pulse, now: int, indexed: bool)
    requires PulseAlone(p, after, worker, lease, limit, indexed) && Undisturbed(p, now)
    ensures CleanTick(p.found, after, now, limit, indexed)
  {
    hide TickedAmong, Alone, Ticked;
    var expiry, chosen, jobs, dbs :|
      && TickedAmong(p.found, after, worker, p.now, expiry, limit, p.fate, p.luck, p.moments, indexed, chosen, jobs, dbs)
      && expiry == p.later + lease
      && (p.fate.Lands? ==>
            Alone(Claim(p.found, worker, p.now, expiry, chosen), worker, p.luck, p.moments, indexed, jobs, dbs));
    var luck := p.luck;
    TickedAlone(p.found, after, worker, p.now, expiry, limit, p.fate, luck, p.moments, indexed, chosen, jobs, dbs);
    assert Ticked(p.found, after, worker, now, expiry, limit, Lands, luck, indexed, chosen, jobs);
  }

  /** A worker that runs alone (every transaction finds what the last left) and undisturbed on a
      stopped clock empties the queue in the rounded-up number of cycles, and no sooner. */
  lemma RunEmptiesTheQueue(pulses: seq<Pulse>, dbs: seq<Db>, worker: string, lease: int, limit: nat,
                           now: int, indexed: bool)
    requires |dbs| == |pulses| > 0 && DbInv(pulses[0].found)
    requires forall i | 0 <= i < |pulses| :: PulseAlone(pulses[i], dbs[i], worker, lease, limit, indexed)
    requires forall i | 0 <= i < |pulses| :: Undisturbed(pulses[i], now)
    requires forall i | 0 < i < |pulses| :: pulses[i].found == dbs[i - 1]
    ensures Due(dbs[|pulses| - 1].schedules, now) == {} <==> |Due(pulses[0].found.schedules, now)| <= |pulses| * limit
  {
    hide DbInv, CleanTick, PulseAlone, Undisturbed, Due;
    var chain := [pulses[0].found] + dbs;
    forall i: nat | i + 1 < |chain|
      ensures CleanTick(chain[i], chain[i + 1], now, limit, indexed)
    {
      CleanPulse(dbs[i], worker, lease, limit, pulses[i], now, indexed);
    }
    QueueEmpties(chain, now, limit, indexed, |pulses|);
  }

  lemma DoneHasEvent(db: Db, k: string)
    requires DbInv(db) && k in db.schedules && db.schedules[k].status == Done
    ensures HasEvent(db.events, k)
  {
    hide SchemaOk, History, Ownership, Leases, Audit, HasEvent;
  }

  lemma WholeSubset<T>(a: set<T>, b: set<T>)
    requires a <= b && |a| == |b|
    ensures a == b
  {
    assert b == a + (b - a);
  }

  lemma SmallerSubset<T>(a: set<T>, b: set<T>, x: T)
    requires a <= b && x in b && x !in a
    ensures |a| < |b|
  {
    assert b == a + (b - a) && x in b - a;
  }

  /** The due schedules that are served no later than `k`. */
  function NotAfter(schedules: map<string, Schedule>, now: int, k: string): set<string>
    requires k in schedules
  {
    set a | a in Due(schedules, now) && schedules[a].runAt <= schedules[k].runAt
  }

  /** A due schedule is chosen as soon as those that can come before it fit with it. */
  lemma ChosenWithRoom(schedules: map<string, Schedule>, now: int, limit: nat, chosen: set<string>, k: string)
    requires IsBatch(schedules, now, limit, chosen)
    requires k in schedules && k in Due(schedules, now) && |NotAfter(schedules, now, k)| <= limit
    ensures k in chosen
  {
    if k !in chosen {
      if |Due(schedules, now)| <= limit {
        WholeSubset(chosen, Due(schedules, now));
      } else {
        assert chosen <= NotAfter(schedules, now, k);
        SmallerSubset(chosen, NotAfter(schedules, now, k), k);
      }
    }
  }

  /** A schedule that can be claimed at `now` is published by an undisturbed cycle that has room
      for it and the rows scheduled no later. */
  lemma ClaimableIsPublished(db: Db, after: Db, now: int, limit: nat, indexed: bool, k: string)
    requires DbInv(db) && CleanTick(db, after, now, limit, indexed)
    requires k in db.schedules
    requires (db.schedules[k].status == Pending && db.schedules[k].runAt <= now)
          || (db.schedules[k].status == Claimed && db.schedules[k].lockExpiresAt.Some?
              && db.schedules[k].lockExpiresAt.value <= now)
    requires |NotAfter(db.schedules, now, k)| <= limit
    ensures k in after.schedules && after.schedules[k].status == Done && HasEvent(after.events, k)
  {
    hide DbInv, Extends, JobsFor, Claim, ExecuteAll, NotAfter, IsBatch, Due;
    var worker, expiry, luck: string -> Luck, chosen, jobs :|
      && Ticked(db, after, worker, now, expiry, limit, Lands, luck, indexed, chosen, jobs)
      && (forall k :: luck(k).complete == Lands);
    ClaimableMeans(db.schedules, now, k);
    ChosenWithRoom(db.schedules, now, limit, chosen, k);
    TickCompletesItsBatch(db, after, worker, now, expiry, limit, luck, indexed, chosen, jobs);
    DoneHasEvent(after, k);
  }

  /** A job orphaned by a crash is published by the first undisturbed cycle past its deadline
      that has room for it and the due rows scheduled no later. */
  lemma OrphanIsRecovered(db: Db, after: Db, now: int, limit: nat, indexed: bool, k: string)
    requires DbInv(db) && CleanTick(db, after, now, limit, indexed)
    requires k in db.schedules && db.schedules[k].status == Claimed
    requires db.schedules[k].lockExpiresAt.Some? && db.schedules[k].lockExpiresAt.value <= now
    requires |NotAfter(db.schedules, now, k)| <= limit
    ensures k in after.schedules && after.schedules[k].status == Done && HasEvent(after.events, k)
  {
    hide DbInv, CleanTick, NotAfter, HasEvent;
    ClaimableIsPublished(db, after, now, limit, indexed, k);
  }

  /** A job that failed, or was given back at shutdown, is not lost: whatever its attempts and its
      last error, it is pending again, and the next undisturbed cycle at or after its run_at that
      has room for it publishes it. */
  lemma GivenBackIsPublished(db: Db, back: Db, after: Db, worker: string, reason: string, at: int,
                             now: int, limit: nat, indexed: bool, k: string)
    requires DbInv(db) && k in db.schedules
    requires db.schedules[k].status == Claimed && db.schedules[k].lockedBy == Some(worker)
    requires back == FailSchedule(db, k, worker, reason, at).db || back == ReleaseClaims(db, worker, at).db
    requires CleanTick(back, after, now, limit, indexed) && db.schedules[k].runAt <= now
    requires k in back.schedules ==> |NotAfter(back.schedules, now, k)| <= limit
    ensures k in back.schedules && back.schedules[k].status == Pending
    ensures k in after.schedules && after.schedules[k].status == Done && HasEvent(after.events, k)
  {
    hide DbInv, Extends, CleanTick, NotAfter, HasEvent, FailSchedule, ReleaseClaims;
    FailMeans(db, k, worker, reason, at);
    ReleaseMeans(db, worker, at);
    FailScheduleSafe(db, k, worker, reason, at);
    ReleaseClaimsSafe(db, worker, at);
    ClaimableIsPublished(back, after, now, limit, indexed, k);
  }

  // ---------- the order of the batch ----------

  function EventsOf(job: ClaimedJob, luck: string -> Luck): multiset<Event> {
    if TookEffect(job, luck) then multiset{JobEvent(job, luck(job.scheduleId).now)} else multiset{}
  }

  lemma {:induction false} JobEventsSplit(b: seq<ClaimedJob>, i: nat, luck: string -> Luck)
    requires i < |b|
    ensures multiset(JobEvents(b, luck)) == EventsOf(b[i], luck) + multiset(JobEvents(b[..i] + b[i + 1..], luck))
    decreases i
  {
    hide TookEffect, JobEvent;
    if i == 0 {
      assert b[..0] + b[1..] == b[1..];
    } else {
      JobEventsSplit(b[1..], i - 1, luck);
      var rest := b[..i] + b[i + 1..];
      assert rest[1..] == b[1..][..i - 1] + b[1..][i..];
      assert rest[0] == b[0];
    }
  }

  lemma TakeOut<T>(a: seq<T>, b: seq<T>, i: nat)
    requires a != [] && multiset(a) == multiset(b) && i < |b| && b[i] == a[0]
    ensures multiset(a[1..]) == multiset(b[..i] + b[i + 1..])
  {
    assert b == b[..i] + [b[i]] + b[i + 1..];
    assert a == [a[0]] + a[1..];
    assert multiset(a[1..]) == multiset(a) - multiset{a[0]};
    assert multiset(b[..i] + b[i + 1..]) == multiset(b) - multiset{b[i]};
  }

  lemma EventsUncons(a: seq<ClaimedJob>, luck: string -> Luck)
    requires a != []
    ensures multiset(JobEvents(a, luck)) == EventsOf(a[0], luck) + multiset(JobEvents(a[1..], luck))
  {
    hide JobEvent;
  }

  lemma {:induction false} EventsOfMultiset(a: seq<ClaimedJob>, b: seq<ClaimedJob>, luck: string -> Luck)
    requires multiset(a) == multiset(b)
    ensures multiset(JobEvents(a, luck)) == multiset(JobEvents(b, luck))
    decreases |a|
  {
    hide TookEffect, JobEvent, EventsOf, JobEvents;
    if a == [] {
      assert |multiset(b)| == 0;
    } else {
      assert a[0] in multiset(b);
      var i :| 0 <= i < |b| && b[i] == a[0];
      TakeOut(a, b, i);
      EventsOfMultiset(a[1..], b[..i] + b[i + 1..], luck);
      EventsUncons(a, luck);
      JobEventsSplit(b, i, luck);
    }
  }

  lemma SameContents(before: map<string, Content>, x: map<string, Content>, y: map<string, Content>,
                     a: seq<ClaimedJob>, b: seq<ClaimedJob>, luck: string -> Luck)
    requires ContentsAfter(before, x, a, luck) && ContentsAfter(before, y, b, luck)
    requires forall j :: j in a <==> j in b
    ensures x == y
  {
    hide TookEffect, Published;
    forall c | c in before
      ensures x[c] == y[c]
    {
      if i :| 0 <= i < |a| && TookEffect(a[i], luck) && a[i].contentId == c {
        assert a[i] in b;
        var j :| 0 <= j < |b| && b[j] == a[i];
      } else {
        forall j | 0 <= j < |b| && TookEffect(b[j], luck)
          ensures b[j].contentId != c
        {
          assert b[j] in a;
        }
      }
    }
  }

  lemma SameSchedules(before: map<string, Schedule>, x: map<string, Schedule>, y: map<string, Schedule>,
                      a: seq<ClaimedJob>, b: seq<ClaimedJob>, luck: string -> Luck)
    requires SchedulesAfter(before, x, a, luck) && SchedulesAfter(before, y, b, luck)
    requires forall j :: j in a <==> j in b
    ensures x == y
  {
    forall k | k in before
      ensures Lists(a, k) <==> Lists(b, k)
    {
      if Lists(a, k) {
        var i :| 0 <= i < |a| && a[i].scheduleId == k;
        assert a[i] in b;
      }
      if Lists(b, k) {
        var i :| 0 <= i < |b| && b[i].scheduleId == k;
        assert b[i] in a;
      }
    }
  }

  lemma TwiceInBoth<T>(a: seq<T>, b: seq<T>, i: nat, j: nat) returns (p: nat, q: nat)
    requires multiset(a) == multiset(b) && i < j < |b| && b[i] == b[j]
    ensures p < q < |a| && a[p] == a[q] == b[i]
  {
    var x := b[i];
    assert b == b[..j] + [b[j]] + b[j + 1..];
    assert b[..j][i] == x;
    assert multiset(b)[x] == multiset(b[..j])[x] + 1 + multiset(b[j + 1..])[x];
    assert x in multiset(a);
    p :| 0 <= p < |a| && a[p] == x;
    assert a == a[..p] + [a[p]] + a[p + 1..];
    assert multiset(a)[x] == multiset(a[..p])[x] + 1 + multiset(a[p + 1..])[x];
    if x in multiset(a[p + 1..]) {
      var d :| 0 <= d < |a[p + 1..]| && a[p + 1..][d] == x;
      q := p + 1 + d;
    } else {
      assert x in multiset(a[..p]);
      var d :| 0 <= d < |a[..p]| && a[..p][d] == x;
      p, q := d, p;
    }
  }

  lemma SameBatchReady(schedules: map<string, Schedule>, a: seq<ClaimedJob>, b: seq<ClaimedJob>, worker: string)
    requires multiset(a) == multiset(b) && Ready(schedules, a, worker)
    ensures Ready(schedules, b, worker)
  {
    forall i | 0 <= i < |b|
      ensures b[i] in a
    {
      assert b[i] in multiset(b);
    }
    forall i, j | 0 <= i < j < |b|
      ensures b[i].scheduleId != b[j].scheduleId
    {
      if b[i] == b[j] {
        var p, q := TwiceInBoth(a, b, i, j);
        assert false;
      }
    }
  }

  /** Executing one batch in two different orders, each schedule with the same clock reading and
      the same outcomes of its transactions (landing, failing or unreported), gives the same
      contents, versions and schedules, and the same events up to their ids. */
  lemma OrderDoesNotMatter(db: Db, a: seq<ClaimedJob>, b: seq<ClaimedJob>, worker: string,
                           luck: string -> Luck, indexed: bool)
    requires DbInv(db) && multiset(a) == multiset(b)
    requires Ready(db.schedules, a, worker)
    ensures var x, y := ExecuteAll(db, a, worker, luck, indexed), ExecuteAll(db, b, worker, luck, indexed);
            && x.contents == y.contents && x.versions == y.versions && x.schedules == y.schedules
            && x.versionSeq == y.versionSeq && x.eventSeq == y.eventSeq
            && multiset(Anonymous(x.events)) == multiset(Anonymous(y.events))
  {
    hide DbInv, Extends, Ready, SchedulesAfter, ContentsAfter, Anonymous, JobEvents, ExecuteAll;
    SameBatchReady(db.schedules, a, b, worker);
    BatchEnds(db, a, worker, luck, indexed);
    BatchEnds(db, b, worker, luck, indexed);
    assert forall j :: j in a <==> j in multiset(a);
    assert forall j :: j in b <==> j in multiset(b);
    var x, y := ExecuteAll(db, a, worker, luck, indexed), ExecuteAll(db, b, worker, luck, indexed);
    SameContents(db.contents, x.contents, y.contents, a, b, luck);
    SameSchedules(db.schedules, x.schedules, y.schedules, a, b, luck);
    EventsOfMultiset(a, b, luck);
    assert |JobEvents(a, luck)| == |multiset(JobEvents(a, luck))|;
    assert |JobEvents(b, luck)| == |multiset(JobEvents(b, luck))|;
  }
}
