/** What a lease protects, and when a scheduled publish can happen at the earliest. */
module Leasing {
  import opened Tables
  import opened Transactions
  import opened Invariants
  import opened Steps
  import opened Effects
  import opened Publishing

  /** A claim leaves a live lease alone and does not return its job. */
  lemma LiveLeaseIsSafe(db: Db, worker: string, now: int, expiry: int, limit: nat, chosen: set<string>,
                        jobs: seq<ClaimedJob>, k: string)
    requires IsBatch(db.schedules, now, limit, chosen)
    requires JobsFor(Claim(db, worker, now, expiry, chosen).schedules, chosen, jobs)
    requires k in db.schedules && db.schedules[k].status == Claimed
    requires db.schedules[k].lockExpiresAt.Some? && now < db.schedules[k].lockExpiresAt.value
    ensures Claim(db, worker, now, expiry, chosen).schedules[k] == db.schedules[k]
    ensures forall i | 0 <= i < |jobs| :: jobs[i].scheduleId != k
  {
    assert k !in Due(db.schedules, now);
  }

  /** A lease nobody gives back is up for claiming from its deadline on. */
  lemma ExpiredLeaseIsDue(db: Db, now: int, k: string)
    requires DbInv(db) && k in db.schedules && db.schedules[k].status == Claimed
    ensures k in Due(db.schedules, now) <==> db.schedules[k].lockExpiresAt.value <= now
  {
    hide SchemaOk, History, Ownership, ExactlyOnce, Audit;
  }

  /** In every reachable state a schedule starts after it was created, is leased exactly while
      it is claimed, and its content has no other schedule under way. */
  lemma ScheduleRowsAreSound(r: Run, indexed: bool, i: nat, k: string)
    requires IsRun(r, indexed) && i < |r.states| && k in r.states[i].db.schedules
    ensures var schedules := r.states[i].db.schedules;
            var s := schedules[k];
            && s.createdAt < s.runAt && s.status != Failed
            && (s.status == Claimed <==> s.lockedBy.Some?) && (s.status == Claimed <==> s.lockExpiresAt.Some?)
            && (Active(s) ==>
                  forall a | a in schedules && Active(schedules[a]) && schedules[a].contentId == s.contentId :: a == k)
  {
    hide IsRun, KeysOk, SlugsUnique, NumbersUnique, ForeignKeysOk, History, Ownership, ExactlyOnce, Audit,
      ProcessInv, SessionInv;
    RunInv(r, indexed, i);
    assert LeaseShape(r.states[i].db.schedules[k]);
  }

  ghost predicate ClaimsAt(r: Run, i: nat, k: string)
    requires i < |r.steps| && |r.states| == |r.steps| + 1
  {
    Claims(r.states[i], r.steps[i], k)
  }

  ghost predicate ClaimedFrom(r: Run, i: nat, j: nat, k: string)
    requires j < |r.states|
  {
    forall m: nat | i <= m <= j ::
      k in r.states[m].db.schedules && r.states[m].db.schedules[k].status == Claimed
  }

  lemma DeadlineStep(s: State, a: Step, indexed: bool, k: string, deadline: int)
    requires Enabled(s, a)
    requires k in s.db.schedules && s.db.schedules[k].status == Claimed
    requires s.db.schedules[k].lockExpiresAt.Some? && deadline <= s.db.schedules[k].lockExpiresAt.value
    requires k in NextDb(s, a, indexed).schedules && NextDb(s, a, indexed).schedules[k].status == Claimed
    requires Claims(s, a, k) ==> a.now < a.expiry
    ensures NextDb(s, a, indexed).schedules[k].lockExpiresAt.Some?
    ensures deadline <= NextDb(s, a, indexed).schedules[k].lockExpiresAt.value
    ensures Claims(s, a, k) ==> deadline <= a.now
  {
    ScheduleEffects(s, a, indexed, k);
    if Claims(s, a, k) {
      assert k in Due(s.db.schedules, a.now);
    }
  }

  lemma ClaimSetsDeadline(s: State, a: Step, indexed: bool, k: string)
    requires Enabled(s, a) && Claims(s, a, k)
    ensures k in NextDb(s, a, indexed).schedules
    ensures NextDb(s, a, indexed).schedules[k].lockExpiresAt == Some(a.expiry)
  {
    hide JobsFor;
    assert k in Due(s.db.schedules, a.now);
  }

  lemma {:induction false} DeadlineGrows(r: Run, indexed: bool, i: nat, j: nat, k: string)
    requires IsRun(r, indexed) && i < j < |r.states|
    requires ClaimsAt(r, i, k) && ClaimedFrom(r, i + 1, j, k)
    requires forall m: nat | i < m < j && ClaimsAt(r, m, k) :: r.steps[m].now < r.steps[m].expiry
    ensures r.states[j].db.schedules[k].lockExpiresAt.Some?
    ensures r.steps[i].expiry <= r.states[j].db.schedules[k].lockExpiresAt.value
    decreases j
  {
    hide NextDb, Enabled, NextProcesses, NextSessions;
    if j == i + 1 {
      RunStep(r, indexed, i);
      ClaimSetsDeadline(r.states[i], r.steps[i], indexed, k);
    } else {
      DeadlineGrows(r, indexed, i, j - 1, k);
      RunStep(r, indexed, j - 1);
      DeadlineStep(r.states[j - 1], r.steps[j - 1], indexed, k, r.steps[i].expiry);
    }
  }

  /** Successive leases of a schedule that stays claimed are disjoint windows in order: each
      new holder's claim reads a time past every earlier deadline, whoever the holders are and
      however their clocks differ. The proviso is about one claim's own two readings. */
  lemma LeaseWindowsAreDisjoint(r: Run, indexed: bool, i: nat, j: nat, k: string)
    requires IsRun(r, indexed) && i < j < |r.steps|
    requires ClaimsAt(r, i, k) && ClaimsAt(r, j, k) && ClaimedFrom(r, i + 1, j, k)
    requires forall m: nat | i < m < j && ClaimsAt(r, m, k) :: r.steps[m].now < r.steps[m].expiry
    ensures r.steps[i].expiry <= r.steps[j].now
  {
    DeadlineGrows(r, indexed, i, j, k);
    assert k in Due(r.states[j].db.schedules, r.steps[j].now);
  }

  lemma DeadlineKept(s: State, a: Step, indexed: bool, k: string)
    requires Enabled(s, a) && !Claims(s, a, k)
    requires k in s.db.schedules && s.db.schedules[k].status == Claimed
    requires k in NextDb(s, a, indexed).schedules && NextDb(s, a, indexed).schedules[k].status == Claimed
    ensures NextDb(s, a, indexed).schedules[k].lockExpiresAt == s.db.schedules[k].lockExpiresAt
  {
    hide NextDb, Enabled, Completes, Reopens, Claims;
    ScheduleEffects(s, a, indexed, k);
  }

  /** Step `m` is the last claim of `k` from state `i` to state `j`. */
  ghost predicate LastClaim(r: Run, i: nat, j: nat, k: string, m: nat)
    requires |r.states| == |r.steps| + 1 && j < |r.states|
  {
    i <= m < j && ClaimsAt(r, m, k) && forall q: nat | m < q < j :: !ClaimsAt(r, q, k)
  }

  /** While a row stays claimed its deadline is the one its last claim set. */
  lemma {:induction false} LastClaimSetsDeadline(r: Run, indexed: bool, i: nat, j: nat, k: string) returns (m: nat)
    requires IsRun(r, indexed) && i < j < |r.states|
    requires ClaimsAt(r, i, k) && ClaimedFrom(r, i + 1, j, k)
    ensures LastClaim(r, i, j, k, m)
    ensures r.states[j].db.schedules[k].lockExpiresAt == Some(r.steps[m].expiry)
    decreases j
  {
    hide NextDb, Enabled, NextProcesses, NextSessions;
    RunStep(r, indexed, j - 1);
    if ClaimsAt(r, j - 1, k) {
      m := j - 1;
      ClaimSetsDeadline(r.states[m], r.steps[m], indexed, k);
    } else {
      m := LastClaimSetsDeadline(r, indexed, i, j - 1, k);
      DeadlineKept(r.states[j - 1], r.steps[j - 1], indexed, k);
    }
  }

  /** Without the proviso: a lease always starts past the deadline of the one just before it, and
      it can start inside the window of an earlier claim `i` exactly when the last claim so far
      set an earlier deadline than `i` did. */
  lemma LeasesOverlapWhen(r: Run, indexed: bool, i: nat, j: nat, k: string) returns (m: nat)
    requires IsRun(r, indexed) && i < j < |r.states|
    requires ClaimsAt(r, i, k) && ClaimedFrom(r, i + 1, j, k)
    ensures LastClaim(r, i, j, k, m)
    ensures j < |r.steps| && ClaimsAt(r, j, k) ==> r.steps[m].expiry <= r.steps[j].now
    ensures (exists now :: now < r.steps[i].expiry && k in Due(r.states[j].db.schedules, now))
       <==> r.steps[m].expiry < r.steps[i].expiry
  {
    hide StepOk, JobsFor;
    m := LastClaimSetsDeadline(r, indexed, i, j, k);
    var deadline := r.steps[m].expiry;
    assert k in Due(r.states[j].db.schedules, deadline);
    if j < |r.steps| && ClaimsAt(r, j, k) {
      assert k in Due(r.states[j].db.schedules, r.steps[j].now);
    }
  }

  // ---------- never early ----------

  ghost predicate RowDue(schedules: map<string, Schedule>, k: string) {
    k in schedules && schedules[k].status == Claimed ==>
      schedules[k].lockExpiresAt.Some? && schedules[k].runAt <= schedules[k].lockExpiresAt.value
  }

  ghost predicate HeldDue(schedules: map<string, Schedule>, p: Process, k: string) {
    forall h | 0 <= h < |p.held| && p.held[h].scheduleId == k ::
      k in schedules && schedules[k].runAt <= p.claimedAt
  }

  ghost predicate EventDue(schedules: map<string, Schedule>, e: Event, k: string) {
    e.scheduleId == Some(k) ==> k in schedules && schedules[k].runAt <= e.occurredAt
  }

  /** Schedule `k` is on time: its lease ends no earlier than its run_at, and who holds it in
      memory claimed it at run_at or later, as its event was written. */
  ghost predicate OnTime(s: State, k: string) {
    && RowDue(s.db.schedules, k)
    && (forall p | p in s.processes :: HeldDue(s.db.schedules, s.processes[p], k))
    && (forall e | 0 <= e < |s.db.events| :: EventDue(s.db.schedules, s.db.events[e], k))
  }

  /** If the step claims `k`, the deadline it sets is no earlier than run_at; if it completes `k`,
      the process's clock has not gone back since its claim. Nothing is asked of other steps. */
  ghost predicate Punctual(s: State, a: Step, indexed: bool, k: string) {
    && (Claims(s, a, k) && k in s.db.schedules ==> s.db.schedules[k].runAt <= a.expiry)
    && (Completes(s, a, indexed, k) ==> s.processes[a.pid].claimedAt <= a.now)
  }

  lemma RowDueKeeps(s: State, a: Step, indexed: bool, k: string)
    requires Enabled(s, a) && RowDue(s.db.schedules, k) && Punctual(s, a, indexed, k)
    ensures RowDue(NextDb(s, a, indexed).schedules, k)
  {
    hide Enabled, NextDb, Claims, Completes, Reopens;
    ScheduleEffects(s, a, indexed, k);
  }

  lemma RunAtPinned(x: Db, y: Db, k: string)
    requires Extends(x, y) && k in x.schedules
    ensures k in y.schedules && y.schedules[k].runAt == x.schedules[k].runAt
  {
    assert ScheduleGrows(x.schedules[k], y.schedules[k]);
  }

  /** A claim that returns an on-time schedule read run_at or a later time. */
  lemma ClaimedOnTime(s: State, a: Step, k: string)
    requires Claims(s, a, k) && RowDue(s.db.schedules, k)
    ensures k in s.db.schedules && s.db.schedules[k].runAt <= a.now
  {
    hide JobsFor;
    assert k in Due(s.db.schedules, a.now);
  }

  lemma HeldDueKeeps(s: State, a: Step, indexed: bool, k: string, p: nat)
    requires Enabled(s, a) && OnTime(s, k) && Extends(s.db, NextDb(s, a, indexed))
    requires p in NextProcesses(s, a, indexed)
    ensures HeldDue(NextDb(s, a, indexed).schedules, NextProcesses(s, a, indexed)[p], k)
  {
    hide Enabled, NextDb, NextProcesses, Extends, RowDue, EventDue, IsBatch;
    ProcessEffects(s, a, indexed, p);
    var db', q := NextDb(s, a, indexed), NextProcesses(s, a, indexed)[p];
    forall h | 0 <= h < |q.held| && q.held[h].scheduleId == k
      ensures k in db'.schedules && db'.schedules[k].runAt <= q.claimedAt
    {
      if a.ClaimStep? && a.pid == p && a.fate.Lands? && q.held == a.jobs && q.claimedAt == a.now {
        ClaimLands(s, a, indexed);
        assert k in a.chosen;
        ClaimedOnTime(s, a, k);
      } else {
        assert HeldDue(s.db.schedules, s.processes[p], k);
        if q.held == s.processes[p].held {
          assert s.processes[p].held[h].scheduleId == k;
        } else {
          assert s.processes[p].held[h + 1].scheduleId == k;
        }
      }
      RunAtPinned(s.db, db', k);
    }
  }

  lemma EventDueKeeps(s: State, a: Step, indexed: bool, k: string, e: nat)
    requires Enabled(s, a) && OnTime(s, k) && Punctual(s, a, indexed, k) && Extends(s.db, NextDb(s, a, indexed))
    requires e < |NextDb(s, a, indexed).events|
    ensures EventDue(NextDb(s, a, indexed).schedules, NextDb(s, a, indexed).events[e], k)
  {
    hide NextDb, Extends, RowDue, CompleteScheduledPublish, IsBatch, JobsFor;
    EventEffects(s, a, indexed);
    var db' := NextDb(s, a, indexed);
    if db'.events[e].scheduleId == Some(k) {
      if e < |s.db.events| {
        assert EventDue(s.db.schedules, s.db.events[e], k);
      } else {
        assert HeldDue(s.db.schedules, s.processes[a.pid], k);
        assert s.processes[a.pid].held[0].scheduleId == k;
      }
      RunAtPinned(s.db, db', k);
    }
  }

  lemma PunctualStep(s: State, a: Step, indexed: bool, k: string)
    requires SysInv(s) && Enabled(s, a) && OnTime(s, k) && Punctual(s, a, indexed, k)
    ensures OnTime(Next(s, a, indexed), k)
  {
    hide SysInv, Enabled, NextDb, NextProcesses, NextSessions, Extends, Punctual, RowDue, HeldDue, EventDue;
    StepKeeps(s, a, indexed);
    RowDueKeeps(s, a, indexed, k);
    forall p | p in NextProcesses(s, a, indexed)
      ensures HeldDue(NextDb(s, a, indexed).schedules, NextProcesses(s, a, indexed)[p], k)
    {
      HeldDueKeeps(s, a, indexed, k, p);
    }
    forall e: nat | e < |NextDb(s, a, indexed).events|
      ensures EventDue(NextDb(s, a, indexed).schedules, NextDb(s, a, indexed).events[e], k)
    {
      EventDueKeeps(s, a, indexed, k, e);
    }
  }

  lemma {:induction false} RunOnTime(r: Run, indexed: bool, i: nat, k: string)
    requires IsRun(r, indexed) && i < |r.states|
    requires forall m: nat | m < i :: Punctual(r.states[m], r.steps[m], indexed, k)
    ensures OnTime(r.states[i], k)
  {
    hide SysInv, Enabled, Next, Punctual;
    if i == 0 {
      assert OnTime(INITIAL, k);
    } else {
      RunOnTime(r, indexed, i - 1, k);
      RunInv(r, indexed, i - 1);
      RunStep(r, indexed, i - 1);
      PunctualStep(r.states[i - 1], r.steps[i - 1], indexed, k);
    }
  }

  lemma StartsAfterCreation(db: Db, k: string)
    requires DbInv(db) && k in db.schedules
    ensures db.schedules[k].createdAt < db.schedules[k].runAt
  {
    hide SchemaOk, History, Ownership, ExactlyOnce, Audit;
    assert LeaseShape(db.schedules[k]);
  }

  /** No scheduled publish happens before its run_at, by the clock of the worker that did it, if
      the claims of that schedule set deadlines no earlier than its run_at, and the worker's clock
      does not go back between its claim and its completion. */
  lemma NeverEarly(r: Run, indexed: bool, i: nat, e: nat, k: string)
    requires IsRun(r, indexed) && i < |r.states| && e < |r.states[i].db.events|
    requires forall m: nat | m < i :: Punctual(r.states[m], r.steps[m], indexed, k)
    requires r.states[i].db.events[e].scheduleId == Some(k)
    ensures k in r.states[i].db.schedules
    ensures r.states[i].db.schedules[k].createdAt < r.states[i].db.schedules[k].runAt
            <= r.states[i].db.events[e].occurredAt
  {
    hide StepOk, Punctual, RowDue, HeldDue, DbInv, ProcessInv, SessionInv;
    RunOnTime(r, indexed, i, k);
    RunInv(r, indexed, i);
    assert EventDue(r.states[i].db.schedules, r.states[i].db.events[e], k);
    StartsAfterCreation(r.states[i].db, k);
  }

  /** The event of a schedule carries the reading of the step that completed it. So it is before
      run_at exactly when that reading is; the completion itself tests no time. */
  lemma {:induction false} PublishIsEarlyWhen(r: Run, indexed: bool, i: nat, e: nat, k: string) returns (m: nat)
    requires IsRun(r, indexed) && i < |r.states| && e < |r.states[i].db.events|
    requires r.states[i].db.events[e].scheduleId == Some(k)
    ensures m < i && CompletesAt(r, indexed, m, k) && r.states[i].db.events[e].occurredAt == r.steps[m].now
    ensures k in r.states[i].db.schedules
    ensures r.states[i].db.events[e].occurredAt < r.states[i].db.schedules[k].runAt
       <==> r.steps[m].now < r.states[m].db.schedules[k].runAt
    decreases i
  {
    hide NextDb, NextProcesses, NextSessions, Extends, CompleteScheduledPublish, IsBatch, JobsFor;
    RunStep(r, indexed, i - 1);
    var s, a := r.states[i - 1], r.steps[i - 1];
    EventEffects(s, a, indexed);
    if e < |s.db.events| {
      m := PublishIsEarlyWhen(r, indexed, i - 1, e, k);
    } else {
      m := i - 1;
    }
    CompletesIsDone(r.states[m], r.steps[m], indexed, k);
    RunExtends(r, indexed, m, i);
    RunAtPinned(r.states[m].db, r.states[i].db, k);
  }

  // ---------- clocks that only go forward ----------

  /** What a process's own clock must do around schedule `k`: not go back between the two
      readings of a claim, nor between a claim and a completion. */
  ghost predicate OwnClockForward(s: State, a: Step, indexed: bool, k: string) {
    && (Claims(s, a, k) ==> a.now <= a.later)
    && (Completes(s, a, indexed, k) ==> s.processes[a.pid].claimedAt <= a.now)
  }

  lemma ForwardIsPunctual(s: State, a: Step, indexed: bool, k: string)
    requires SysInv(s) && Enabled(s, a) && OnTime(s, k) && OwnClockForward(s, a, indexed, k)
    ensures Punctual(s, a, indexed, k)
  {
    hide DbInv, SessionInv, Completes, IsBatch, JobsFor, RowDue, HeldDue, EventDue;
    if Claims(s, a, k) {
      assert ProcessInv(s.db.schedules, s.processes[a.pid]);
      ClaimedOnTime(s, a, k);
    }
  }

  lemma {:induction false} ForwardRunIsPunctual(r: Run, indexed: bool, i: nat, k: string)
    requires IsRun(r, indexed) && i < |r.states|
    requires forall m: nat | m < i :: OwnClockForward(r.states[m], r.steps[m], indexed, k)
    ensures forall m: nat | m < i :: Punctual(r.states[m], r.steps[m], indexed, k)
  {
    hide SysInv, Enabled, Next, Punctual, OwnClockForward, OnTime;
    if i > 0 {
      ForwardRunIsPunctual(r, indexed, i - 1, k);
      RunOnTime(r, indexed, i - 1, k);
      RunInv(r, indexed, i - 1);
      RunStep(r, indexed, i - 1);
      ForwardIsPunctual(r.states[i - 1], r.steps[i - 1], indexed, k);
    }
  }

  /** In particular never early where the clocks of the workers that handle the schedule go
      forward, without any agreement between them or with the clock that created it. */
  lemma NeverEarlyOnForwardClocks(r: Run, indexed: bool, i: nat, e: nat, k: string)
    requires IsRun(r, indexed) && i < |r.states| && e < |r.states[i].db.events|
    requires forall m: nat | m < i :: OwnClockForward(r.states[m], r.steps[m], indexed, k)
    requires r.states[i].db.events[e].scheduleId == Some(k)
    ensures k in r.states[i].db.schedules
    ensures r.states[i].db.schedules[k].runAt <= r.states[i].db.events[e].occurredAt
  {
    hide Punctual, OwnClockForward;
    ForwardRunIsPunctual(r, indexed, i, k);
    NeverEarly(r, indexed, i, e, k);
  }

  // ---------- when a claim can be early ----------

  lemma ClaimedByClaim(s: State, a: Step, indexed: bool, k: string)
    requires Enabled(s, a) && !Claims(s, a, k)
    requires k in NextDb(s, a, indexed).schedules && NextDb(s, a, indexed).schedules[k].status == Claimed
    ensures k in s.db.schedules && s.db.schedules[k] == NextDb(s, a, indexed).schedules[k]
  {
    hide NextDb, Enabled, Completes, Reopens, Claims;
    ScheduleEffects(s, a, indexed, k);
  }

  /** A row that is claimed was claimed last at some step, which set its deadline. */
  lemma {:induction false} ClaimedSince(r: Run, indexed: bool, j: nat, k: string) returns (m: nat)
    requires IsRun(r, indexed) && j < |r.states|
    requires k in r.states[j].db.schedules && r.states[j].db.schedules[k].status == Claimed
    ensures LastClaim(r, 0, j, k, m)
    ensures r.states[j].db.schedules[k].lockExpiresAt == Some(r.steps[m].expiry)
    decreases j
  {
    hide NextDb, Enabled, NextProcesses, NextSessions;
    if j == 0 {
      assert false;
    }
    RunStep(r, indexed, j - 1);
    if ClaimsAt(r, j - 1, k) {
      m := j - 1;
      ClaimSetsDeadline(r.states[m], r.steps[m], indexed, k);
    } else {
      ClaimedByClaim(r.states[j - 1], r.steps[j - 1], indexed, k);
      m := ClaimedSince(r, indexed, j - 1, k);
    }
  }

  lemma LastClaimIsOne(r: Run, j: nat, k: string, m: nat, q: nat)
    requires |r.states| == |r.steps| + 1 && j < |r.states|
    requires LastClaim(r, 0, j, k, m) && LastClaim(r, 0, j, k, q)
    ensures m == q
  {
    hide ClaimsAt;
  }

  /** The exact limit, in every reachable state: a schedule can be claimed before its run_at if
      and only if it is claimed already and its last claim set a deadline before run_at. */
  lemma ClaimCanBeEarlyWhen(r: Run, indexed: bool, j: nat, k: string)
    requires IsRun(r, indexed) && j < |r.states| && k in r.states[j].db.schedules
    ensures var row := r.states[j].db.schedules[k];
            (exists now :: now < row.runAt && k in Due(r.states[j].db.schedules, now)) <==>
              row.status == Claimed && exists m: nat :: LastClaim(r, 0, j, k, m) && r.steps[m].expiry < row.runAt
  {
    hide StepOk, ClaimsAt;
    var schedules := r.states[j].db.schedules;
    var row := schedules[k];
    if row.status == Claimed {
      var m := ClaimedSince(r, indexed, j, k);
      forall q: nat | LastClaim(r, 0, j, k, q)
        ensures q == m
      {
        LastClaimIsOne(r, j, k, m, q);
      }
      assert k in Due(schedules, row.lockExpiresAt.value);
    }
  }
}
