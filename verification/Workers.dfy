/** The callers of the store: the polling worker and the two service operations that look a
    version up before they write. */
module Workers {
  import opened Tables
  import opened Transactions
  import opened Fields
  import opened Invariants
  import opened Storage

  /** What a poll cycle that runs alone does to a database: claim a batch, then execute its jobs
      in the order the claim returned them. Nothing follows a claim that reported an error. */
  ghost predicate Ticked(before: Db, after: Db, worker: string, now: int, expiry: int, limit: nat,
                         fate: Fate, luck: string -> Luck, indexed: bool,
                         chosen: set<string>, jobs: seq<ClaimedJob>)
  {
    var claimed := Claim(before, worker, now, expiry, chosen);
    && (fate.BeginFails? || fate.CommitFails? ==> after == before)
    && (!fate.BeginFails? ==> IsBatch(before.schedules, now, limit, chosen))
    && (fate.Unreported? ==> after == claimed)
    && (fate.Lands? ==>
          JobsFor(claimed.schedules, chosen, jobs) && after == ExecuteAll(claimed, jobs, worker, luck, indexed))
  }

  /** The databases that the two transactions of one job find. */
  datatype Moment = Moment(complete: Db, fail: Db)

  /** Executing a job while others commit before and between its transactions. */
  function ExecuteAmong(m: Moment, job: ClaimedJob, worker: string, luck: Luck, indexed: bool): Db {
    var done := Tx(luck.complete, m.complete, CompleteScheduledPublish(m.complete, job, worker, luck.now, indexed));
    if done.result.Err? && done.result.error != LeaseLost
    then Tx(luck.fail, m.fail, FailSchedule(m.fail, job.scheduleId, worker, luck.reason, luck.now)).db
    else done.db
  }

  /** What a poll cycle does among others: the claim finds `before`, job number `i` finds
      `moments(i)` and leaves `dbs[i]`. */
  ghost predicate TickedAmong(before: Db, after: Db, worker: string, now: int, expiry: int, limit: nat,
                              fate: Fate, luck: string -> Luck, moments: nat -> Moment, indexed: bool,
                              chosen: set<string>, jobs: seq<ClaimedJob>, dbs: seq<Db>)
  {
    var claimed := Claim(before, worker, now, expiry, chosen);
    && (fate.BeginFails? || fate.CommitFails? ==> after == before)
    && (!fate.BeginFails? ==> IsBatch(before.schedules, now, limit, chosen))
    && (fate.Unreported? ==> after == claimed)
    && (fate.Lands? ==>
          && JobsFor(claimed.schedules, chosen, jobs)
          && |dbs| == |jobs|
          && (forall i | 0 <= i < |jobs| ::
                dbs[i] == ExecuteAmong(moments(i), jobs[i], worker, luck(jobs[i].scheduleId), indexed))
          && after == if jobs == [] then claimed else dbs[|dbs| - 1])
  }

  /** Nothing else commits: each transaction finds what the one before it left. */
  ghost predicate Alone(claimed: Db, worker: string, luck: string -> Luck, moments: nat -> Moment, indexed: bool,
                        jobs: seq<ClaimedJob>, dbs: seq<Db>)
  {
    |dbs| == |jobs| && forall i: nat | i < |jobs| ::
      && moments(i).complete == (if i == 0 then claimed else dbs[i - 1])
      && var l := luck(jobs[i].scheduleId);
         moments(i).fail == Tx(l.complete, moments(i).complete,
           CompleteScheduledPublish(moments(i).complete, jobs[i], worker, l.now, indexed)).db
  }

  lemma {:induction false} AloneIsExecuteAll(
      claimed: Db, worker: string, luck: string -> Luck, moments: nat -> Moment, indexed: bool,
      jobs: seq<ClaimedJob>, dbs: seq<Db>, i: nat)
    requires Alone(claimed, worker, luck, moments, indexed, jobs, dbs) && i <= |jobs|
    requires forall d: nat | d < |jobs| ::
               dbs[d] == ExecuteAmong(moments(d), jobs[d], worker, luck(jobs[d].scheduleId), indexed)
    ensures var from := if i == 0 then claimed else dbs[i - 1];
            ExecuteAll(from, jobs[i..], worker, luck, indexed) == if jobs == [] then claimed else dbs[|dbs| - 1]
    decreases |jobs| - i
  {
    hide CompleteScheduledPublish, FailSchedule;
    if i < |jobs| {
      AloneIsExecuteAll(claimed, worker, luck, moments, indexed, jobs, dbs, i + 1);
      assert jobs[i..][0] == jobs[i] && jobs[i..][1..] == jobs[i + 1..];
      assert dbs[i] == ExecuteAmong(moments(i), jobs[i], worker, luck(jobs[i].scheduleId), indexed);
    }
  }

  /** A cycle among others that finds nothing changed is a cycle that runs alone. */
  lemma TickedAlone(before: Db, after: Db, worker: string, now: int, expiry: int, limit: nat,
                    fate: Fate, luck: string -> Luck, moments: nat -> Moment, indexed: bool,
                    chosen: set<string>, jobs: seq<ClaimedJob>, dbs: seq<Db>)
    requires TickedAmong(before, after, worker, now, expiry, limit, fate, luck, moments, indexed, chosen, jobs, dbs)
    requires fate.Lands? ==> Alone(Claim(before, worker, now, expiry, chosen), worker, luck, moments, indexed, jobs, dbs)
    ensures Ticked(before, after, worker, now, expiry, limit, fate, luck, indexed, chosen, jobs)
  {
    hide Claim, IsBatch, JobsFor, ExecuteAmong, ExecuteAll, Alone;
    if fate.Lands? {
      AloneIsExecuteAll(Claim(before, worker, now, expiry, chosen), worker, luck, moments, indexed, jobs, dbs, 0);
      assert jobs[0..] == jobs;
    }
  }

  /** What the outside decides about one poll cycle; `found` is the database as its claim finds
      it, `moments` those that its jobs find. */
  datatype Pulse = Pulse(found: Db, now: int, later: int, fate: Fate, luck: string -> Luck, moments: nat -> Moment)

  ghost predicate PulseOk(p: Pulse, after: Db, worker: string, lease: int, limit: nat, indexed: bool) {
    exists expiry, chosen, jobs, dbs ::
      && TickedAmong(p.found, after, worker, p.now, expiry, limit, p.fate, p.luck, p.moments, indexed, chosen, jobs, dbs)
      && expiry == p.later + lease
  }

  /** The same for a cycle that runs alone. */
  ghost predicate PulseAlone(p: Pulse, after: Db, worker: string, lease: int, limit: nat, indexed: bool) {
    exists expiry, chosen, jobs, dbs ::
      && TickedAmong(p.found, after, worker, p.now, expiry, limit, p.fate, p.luck, p.moments, indexed, chosen, jobs, dbs)
      && expiry == p.later + lease
      && (p.fate.Lands? ==>
            Alone(Claim(p.found, worker, p.now, expiry, chosen), worker, p.luck, p.moments, indexed, jobs, dbs))
  }

  ghost predicate MomentsOk(moments: nat -> Moment, indexed: bool) {
    forall i: nat :: SchemaOk(moments(i).complete, indexed) && SchemaOk(moments(i).fail, indexed)
  }

  class Worker {
    const store: Store
    const id: string
    const lease: int
    const batch: nat
    var ticks: int

    constructor (store: Store, id: string, lease: int, batch: nat)
      ensures this.store == store && this.id == id && this.lease == lease && this.batch == batch && ticks == 0
    {
      this.store, this.id, this.lease, this.batch, ticks := store, id, lease, batch, 0;
    }

    /** One job: an error releases the lease, losing the lease does nothing. `between` is the
        database as the release finds it. */
    method Execute(job: ClaimedJob, luck: Luck, between: Db)
      requires store.Valid() && SchemaOk(between, store.indexed)
      modifies store
      ensures store.Valid()
      ensures store.Db() == ExecuteAmong(Moment(old(store.Db()), between), job, id, luck, store.indexed)
      ensures !old(HoldsLease(store.schedules, job.scheduleId, id)) && !HoldsLease(between.schedules, job.scheduleId, id)
              ==> store.Db() == old(store.Db()) || store.Db() == between
    {
      hide SchemaOk;
      var completed := store.CompleteScheduledPublish(job, id, luck.now, luck.complete);
      if completed.Err? {
        store.Interleave(between);
        var _ := store.FailSchedule(job.scheduleId, id, luck.reason, luck.now, luck.fail);
      }
    }

    /** The loop of the poll cycle over the claimed jobs; others commit before each. */
    method ExecuteJobs(jobs: seq<ClaimedJob>, luck: string -> Luck, moments: nat -> Moment) returns (ghost dbs: seq<Db>)
      requires store.Valid() && MomentsOk(moments, store.indexed)
      modifies store
      ensures store.Valid() && |dbs| == |jobs|
      ensures forall i | 0 <= i < |jobs| ::
                dbs[i] == ExecuteAmong(moments(i), jobs[i], id, luck(jobs[i].scheduleId), store.indexed)
      ensures store.Db() == if jobs == [] then old(store.Db()) else dbs[|dbs| - 1]
    {
      hide SchemaOk, ExecuteAmong;
      dbs := [];
      var i := 0;
      while i < |jobs|
        invariant 0 <= i <= |jobs| && |dbs| == i && store.Valid()
        invariant forall d | 0 <= d < i ::
                    dbs[d] == ExecuteAmong(moments(d), jobs[d], id, luck(jobs[d].scheduleId), store.indexed)
        invariant store.Db() == if i == 0 then old(store.Db()) else dbs[i - 1]
      {
        store.Interleave(moments(i).complete);
        Execute(jobs[i], luck(jobs[i].scheduleId), moments(i).fail);
        dbs := dbs + [store.Db()];
        i := i + 1;
      }
    }

    /** One poll cycle. `now` and `later` are the two clock readings of the claim. */
    method Tick(now: int, later: int, fate: Fate, luck: string -> Luck, moments: nat -> Moment)
      returns (ghost expiry: int, ghost chosen: set<string>, ghost jobs: seq<ClaimedJob>, ghost dbs: seq<Db>)
      requires store.Valid() && MomentsOk(moments, store.indexed)
      modifies this`ticks, store
      ensures store.Valid() && ticks == old(ticks) + 1
      ensures expiry == later + lease
      ensures TickedAmong(old(store.Db()), store.Db(), id, now, expiry, batch, fate, luck, moments, store.indexed,
                          chosen, jobs, dbs)
    {
      hide SchemaOk, MomentsOk, IsBatch, JobsFor, Claim, ExecuteAmong;
      var leaseExpiry := later + lease;
      expiry := leaseExpiry;
      var claim;
      claim, chosen := store.ClaimDueSchedules(id, now, leaseExpiry, batch, fate);
      ticks := ticks + 1;
      if claim.Err? {
        return expiry, chosen, [], [];
      }
      jobs := claim.value;
      dbs := ExecuteJobs(claim.value, luck, moments);
    }

    /** The release that ends Run. */
    method Shutdown(now: int, fate: Fate)
      requires store.Valid()
      modifies store
      ensures store.Valid()
      ensures store.Db() == Tx(fate, old(store.Db()), Transactions.ReleaseClaims(old(store.Db()), id, now)).db
    {
      var _ := store.ReleaseClaims(id, now, fate);
    }

    /** Ticks until the context is cancelled, then releases what is still claimed. `dbs` are the
        databases the cycles leave behind; `last` is the one that the release finds. */
    method Run(pulses: seq<Pulse>, last: Db, stop: int, end: Fate) returns (ghost dbs: seq<Db>)
      requires store.Valid() && SchemaOk(last, store.indexed)
      requires forall i | 0 <= i < |pulses| ::
                 SchemaOk(pulses[i].found, store.indexed) && MomentsOk(pulses[i].moments, store.indexed)
      modifies this`ticks, store
      ensures store.Valid() && ticks == old(ticks) + |pulses|
      ensures |dbs| == |pulses|
      ensures forall i | 0 <= i < |pulses| :: PulseOk(pulses[i], dbs[i], id, lease, batch, store.indexed)
      ensures store.Db() == Tx(end, last, Transactions.ReleaseClaims(last, id, stop)).db
    {
      hide SchemaOk, MomentsOk, TickedAmong, Tx, Transactions.ReleaseClaims;
      dbs := [];
      var i := 0;
      while i < |pulses|
        invariant 0 <= i <= |pulses| && store.Valid() && ticks == old(ticks) + i
        invariant |dbs| == i
        invariant forall j | 0 <= j < i :: PulseOk(pulses[j], dbs[j], id, lease, batch, store.indexed)
      {
        store.Interleave(pulses[i].found);
        var p := pulses[i];
        ghost var expiry, chosen, jobs, left := Tick(p.now, p.later, p.fate, p.luck, p.moments);
        assert PulseOk(pulses[i], store.Db(), id, lease, batch, store.indexed);
        dbs := dbs + [store.Db()];
        i := i + 1;
      }
      store.Interleave(last);
      Shutdown(stop, end);
    }
  }

  // ---------- content.Service ----------

  /** Publishing by version number as one indivisible operation. */
  ghost function PublishNumber(db: Db, contentId: string, number: int, actor: string, now: int, indexed: bool)
    : Outcome<Content>
  {
    if !HasVersion(db.versions, contentId, number) then Outcome(db, Err(NotFound))
    else
      var row :| row in db.versions && IsVersion(db.versions, row, contentId, number);
      Publish(db, PublishParams(contentId, row, Manual, actor, None, now), indexed)
  }

  /** Scheduling by version number as one indivisible operation. */
  ghost function ScheduleNumber(db: Db, id: string, contentId: string, number: int, runAt: int, now: int)
    : Outcome<Schedule>
  {
    if runAt <= now then Outcome(db, Err(RunAtNotInFuture))
    else if !HasVersion(db.versions, contentId, number) then Outcome(db, Err(NotFound))
    else
      var row :| row in db.versions && IsVersion(db.versions, row, contentId, number);
      CreateSchedule(db, id, contentId, row, runAt, now)
  }

  lemma RowsHaveIds(db: Db, indexed: bool)
    requires SchemaOk(db, indexed)
    ensures forall row | row in db.versions :: db.versions[row].id == row
  {
  }

  lemma RowIsFound(seen: Db, found: Db, indexed: bool, row: int, contentId: string, number: int)
    requires Extends(seen, found) && IsVersion(seen.versions, row, contentId, number)
    ensures IsVersion(found.versions, row, contentId, number) && HasVersion(seen.versions, contentId, number)
  {
  }

  lemma PublishRowIsNumber(db: Db, indexed: bool, row: int, contentId: string, number: int, actor: string, now: int)
    requires SchemaOk(db, indexed) && IsVersion(db.versions, row, contentId, number)
    ensures PublishNumber(db, contentId, number, actor, now, indexed)
         == Publish(db, PublishParams(contentId, row, Manual, actor, None, now), indexed)
  {
    hide Publish;
    assert NumbersUnique(db.versions);
  }

  lemma ScheduleRowIsNumber(db: Db, indexed: bool, row: int, id: string, contentId: string, number: int,
                            runAt: int, now: int)
    requires SchemaOk(db, indexed) && IsVersion(db.versions, row, contentId, number) && now < runAt
    ensures ScheduleNumber(db, id, contentId, number, runAt, now) == CreateSchedule(db, id, contentId, row, runAt, now)
  {
    hide CreateSchedule;
    assert NumbersUnique(db.versions);
  }

  class Service {
    const store: Store

    constructor (store: Store)
      ensures this.store == store
    {
      this.store := store;
    }

    method Update(id: string, expected: int, f: VersionFields, actor: string, now: int, fate: Fate)
      returns (r: Result<ContentWithVersion>)
      requires store.Valid()
      modifies store
      ensures store.Valid()
      ensures match NormalizeFields(f)
              case Err(e) => r == Err(e) && store.Db() == old(store.Db())
              case Ok(g) => Outcome(store.Db(), r)
                            == Tx(fate, old(store.Db()), UpdateContent(old(store.Db()), id, expected, g, actor, now))
    {
      hide SchemaOk, NormalizeFields;
      var fields := NormalizeFields(f);
      if fields.Err? {
        return Err(fields.error);
      }
      r := store.UpdateContent(id, expected, fields.value, actor, now, fate);
    }

    /** `found` is the database as the write finds it, after whatever has committed since the
        version was looked up. */
    method Publish(contentId: string, number: int, actor: string, now: int, fate: Fate, found: Db)
      returns (r: Result<Content>)
      requires store.Valid() && SchemaOk(found, store.indexed) && Extends(store.Db(), found)
      modifies store
      ensures store.Valid()
      ensures Outcome(store.Db(), r)
           == if HasVersion(old(store.versions), contentId, number)
              then Tx(fate, found, PublishNumber(found, contentId, number, actor, now, store.indexed))
              else Outcome(found, Err(NotFound))
    {
      hide KeysOk, SlugsUnique, OneActive, OneEventEach, ForeignKeysOk, NumbersUnique, Extends, IsVersion, HasVersion,
        PublishNumber, Tx;
      RowsHaveIds(store.Db(), store.indexed);
      ghost var seen := store.Db();
      var v := store.GetVersion(contentId, number);
      store.Interleave(found);
      if v.Err? {
        return Err(v.error);
      }
      RowIsFound(seen, found, store.indexed, v.value.id, contentId, number);
      PublishRowIsNumber(found, store.indexed, v.value.id, contentId, number, actor, now);
      r := store.Publish(PublishParams(contentId, v.value.id, Manual, actor, None, now), fate);
    }

    /** The time is checked and the version looked up first; `found` as for Publish. */
    method Schedule(id: string, contentId: string, number: int, runAt: int, now: int, fate: Fate, found: Db)
      returns (r: Result<Schedule>)
      requires store.Valid() && SchemaOk(found, store.indexed) && Extends(store.Db(), found)
      modifies store
      ensures store.Valid()
      ensures Outcome(store.Db(), r)
           == if runAt <= now then Outcome(found, Err(RunAtNotInFuture))
              else if HasVersion(old(store.versions), contentId, number)
              then Tx(fate, found, ScheduleNumber(found, id, contentId, number, runAt, now))
              else Outcome(found, Err(NotFound))
    {
      hide KeysOk, SlugsUnique, OneActive, OneEventEach, ForeignKeysOk, NumbersUnique, Extends, IsVersion, HasVersion,
        ScheduleNumber, Tx;
      RowsHaveIds(store.Db(), store.indexed);
      ghost var seen := store.Db();
      if runAt <= now {
        store.Interleave(found);
        return Err(RunAtNotInFuture);
      }
      var v := store.GetVersion(contentId, number);
      store.Interleave(found);
      if v.Err? {
        return Err(v.error);
      }
      RowIsFound(seen, found, store.indexed, v.value.id, contentId, number);
      ScheduleRowIsNumber(found, store.indexed, v.value.id, id, contentId, number, runAt, now);
      r := store.CreateSchedule(id, contentId, v.value.id, runAt, now, fate);
    }
  }
}
