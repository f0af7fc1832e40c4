/** The whole system as a state machine: one database, any number of worker processes with
    what each holds in memory, and admin requests caught between their read and their write.
    Clock readings, the end of each transaction, crashes and interleaving are unconstrained. */
module Steps {
  import opened Tables
  import opened Transactions
  import opened Schema
  import opened Invariants

  datatype FailedJob = FailedJob(scheduleId: string, now: int)

  /** A worker process: the jobs of its current batch that it has not executed yet, the clock
      reading of their claim, and a failed job whose lease it is about to release. */
  datatype Process = Process(
    id: string, lease: int, batch: nat,
    held: seq<ClaimedJob>, claimedAt: int, failed: Option<FailedJob>)
  {
    predicate Idle() {
      held == [] && failed.None?
    }
  }

  /** An admin request that has read and not yet written. */
  datatype Session =
    | Publishing(contentId: string, number: int, row: int)
    | Scheduling(contentId: string, number: int, row: int, runAt: int, now: int)
    | Overwriting(contentId: string, expected: int)

  datatype State = State(db: Db, processes: map<nat, Process>, sessions: map<nat, Session>)

  const INITIAL := State(EMPTY_DB, map[], map[])

  datatype Step =
    | CreateContentStep(id: string, slug: string, fields: VersionFields, actor: string, now: int, fate: Fate)
    | UpdateContentStep(id: string, expected: int, fields: VersionFields, actor: string, now: int, fate: Fate)
    | ReadForOverwriteStep(sid: nat, contentId: string)
    | OverwriteStep(sid: nat, fields: VersionFields, actor: string, now: int, fate: Fate)
    | ReadForPublishStep(sid: nat, contentId: string, number: int, found: Option<int>)
    | PublishStep(sid: nat, actor: string, now: int, fate: Fate)
    | UnpublishStep(contentId: string, actor: string, now: int, fate: Fate)
    | ReadForScheduleStep(sid: nat, contentId: string, number: int, found: Option<int>, runAt: int, now: int)
    | CreateScheduleStep(sid: nat, id: string, fate: Fate)
    | CancelStep(id: string, now: int, fate: Fate)
    | StartStep(pid: nat, id: string, lease: int, batch: nat)
    | ClaimStep(pid: nat, now: int, later: int, expiry: int, fate: Fate, chosen: set<string>, jobs: seq<ClaimedJob>)
    | CompleteStep(pid: nat, now: int, fate: Fate)
    | FailStep(pid: nat, reason: string, fate: Fate)
    | ReleaseStep(pid: nat, now: int, fate: Fate)
    | CrashStep(pid: nat)

  /** `found` is what the version lookup may answer. */
  ghost predicate Lookup(db: Db, contentId: string, number: int, found: Option<int>) {
    match found
    case Some(row) => IsVersion(db.versions, row, contentId, number)
    case None => !HasVersion(db.versions, contentId, number)
  }

  ghost predicate Enabled(s: State, a: Step) {
    match a
    case ReadForOverwriteStep(sid, c) => sid !in s.sessions && c in s.db.contents
    case OverwriteStep(sid, _, _, _, _) => sid in s.sessions && s.sessions[sid].Overwriting?
    case ReadForPublishStep(sid, c, n, found) => sid !in s.sessions && Lookup(s.db, c, n, found)
    case PublishStep(sid, _, _, _) => sid in s.sessions && s.sessions[sid].Publishing?
    case ReadForScheduleStep(sid, c, n, found, runAt, now) =>
      sid !in s.sessions && now < runAt && Lookup(s.db, c, n, found)
    case CreateScheduleStep(sid, _, _) => sid in s.sessions && s.sessions[sid].Scheduling?
    case StartStep(pid, _, lease, batch) => pid !in s.processes && 1 <= lease && 1 <= batch
    case ClaimStep(pid, now, later, expiry, fate, chosen, jobs) =>
      && pid in s.processes && s.processes[pid].Idle()
      && expiry == later + s.processes[pid].lease
      && IsBatch(s.db.schedules, now, s.processes[pid].batch, chosen)
      && JobsFor(Claim(s.db, s.processes[pid].id, now, expiry, chosen).schedules, chosen, jobs)
    case CompleteStep(pid, _, _) =>
      pid in s.processes && s.processes[pid].held != [] && s.processes[pid].failed.None?
    case FailStep(pid, _, _) => pid in s.processes && s.processes[pid].failed.Some?
    case ReleaseStep(pid, _, _) => pid in s.processes && s.processes[pid].Idle()
    case CrashStep(pid) => pid in s.processes
    case _ => true
  }

  function CompleteOutcome(db: Db, p: Process, now: int, fate: Fate, indexed: bool): Outcome<()>
    requires p.held != []
  {
    Tx(fate, db, CompleteScheduledPublish(db, p.held[0], p.id, now, indexed))
  }

  function PublishOutcome(db: Db, x: Session, actor: string, now: int, fate: Fate, indexed: bool): Outcome<Content>
    requires x.Publishing?
  {
    Tx(fate, db, Publish(db, PublishParams(x.contentId, x.row, Manual, actor, None, now), indexed))
  }

  function ScheduleOutcome(db: Db, x: Session, id: string, fate: Fate): Outcome<Schedule>
    requires x.Scheduling?
  {
    Tx(fate, db, CreateSchedule(db, id, x.contentId, x.row, x.runAt, x.now))
  }

  /** The database after a step. */
  ghost function NextDb(s: State, a: Step, indexed: bool): Db
    requires Enabled(s, a)
  {
    match a
    case CreateContentStep(id, slug, f, actor, now, fate) => Tx(fate, s.db, CreateContent(s.db, id, slug, f, actor, now)).db
    case UpdateContentStep(id, expected, f, actor, now, fate) =>
      Tx(fate, s.db, UpdateContent(s.db, id, expected, f, actor, now)).db
    case OverwriteStep(sid, f, actor, now, fate) =>
      Tx(fate, s.db, UpdateContent(s.db, s.sessions[sid].contentId, s.sessions[sid].expected, f, actor, now)).db
    case PublishStep(sid, actor, now, fate) => PublishOutcome(s.db, s.sessions[sid], actor, now, fate, indexed).db
    case UnpublishStep(c, actor, now, fate) => Tx(fate, s.db, Unpublish(s.db, c, actor, now)).db
    case CreateScheduleStep(sid, id, fate) => ScheduleOutcome(s.db, s.sessions[sid], id, fate).db
    case CancelStep(id, now, fate) => Tx(fate, s.db, CancelSchedule(s.db, id, now)).db
    case ClaimStep(pid, now, later, expiry, fate, chosen, jobs) =>
      Tx(fate, s.db, Outcome(Claim(s.db, s.processes[pid].id, now, expiry, chosen), Ok(jobs))).db
    case CompleteStep(pid, now, fate) => CompleteOutcome(s.db, s.processes[pid], now, fate, indexed).db
    case FailStep(pid, reason, fate) =>
      var f := s.processes[pid].failed.value;
      Tx(fate, s.db, FailSchedule(s.db, f.scheduleId, s.processes[pid].id, reason, f.now)).db
    case ReleaseStep(pid, now, fate) => Tx(fate, s.db, ReleaseClaims(s.db, s.processes[pid].id, now)).db
    case _ => s.db
  }

  /** The worker processes after a step: a claim that reported success is held in memory; a
      completion that reported an error is remembered until its lease is released. */
  ghost function NextProcesses(s: State, a: Step, indexed: bool): map<nat, Process>
    requires Enabled(s, a)
  {
    match a
    case StartStep(pid, id, lease, batch) => s.processes[pid := Process(id, lease, batch, [], 0, None)]
    case ClaimStep(pid, now, _, _, fate, _, jobs) =>
      if fate.Lands? then s.processes[pid := s.processes[pid].(held := jobs, claimedAt := now)] else s.processes
    case CompleteStep(pid, now, fate) =>
      var p := s.processes[pid];
      var result := CompleteOutcome(s.db, p, now, fate, indexed).result;
      var failed := if result.Err? && result.error != LeaseLost then Some(FailedJob(p.held[0].scheduleId, now)) else None;
      s.processes[pid := p.(held := p.held[1..], failed := failed)]
    case FailStep(pid, _, _) => s.processes[pid := s.processes[pid].(failed := None)]
    case ReleaseStep(pid, _, _) => s.processes - {pid}
    case CrashStep(pid) => s.processes - {pid}
    case _ => s.processes
  }

  ghost function NextSessions(s: State, a: Step): map<nat, Session>
    requires Enabled(s, a)
  {
    match a
    case ReadForOverwriteStep(sid, c) => s.sessions[sid := Overwriting(c, s.db.contents[c].currentVersion)]
    case ReadForPublishStep(sid, c, n, found) =>
      if found.Some? then s.sessions[sid := Publishing(c, n, found.value)] else s.sessions
    case ReadForScheduleStep(sid, c, n, found, runAt, now) =>
      if found.Some? then s.sessions[sid := Scheduling(c, n, found.value, runAt, now)] else s.sessions
    case OverwriteStep(sid, _, _, _, _) => s.sessions - {sid}
    case PublishStep(sid, _, _, _) => s.sessions - {sid}
    case CreateScheduleStep(sid, _, _) => s.sessions - {sid}
    case _ => s.sessions
  }

  ghost function Next(s: State, a: Step, indexed: bool): State
    requires Enabled(s, a)
  {
    State(NextDb(s, a, indexed), NextProcesses(s, a, indexed), NextSessions(s, a))
  }

  // ---------- runs ----------

  /** `states[i]` is the state before `steps[i]`. */
  datatype Run = Run(states: seq<State>, steps: seq<Step>)

  ghost predicate StepOk(r: Run, i: nat, indexed: bool)
    requires i < |r.steps| && |r.states| == |r.steps| + 1
  {
    Enabled(r.states[i], r.steps[i]) && r.states[i + 1] == Next(r.states[i], r.steps[i], indexed)
  }

  ghost predicate IsRun(r: Run, indexed: bool) {
    && |r.states| == |r.steps| + 1
    && r.states[0] == INITIAL
    && forall i: nat | i < |r.steps| :: StepOk(r, i, indexed)
  }

  lemma RunStep(r: Run, indexed: bool, i: nat)
    requires IsRun(r, indexed) && i < |r.steps|
    ensures Enabled(r.states[i], r.steps[i])
    ensures r.states[i + 1] == Next(r.states[i], r.steps[i], indexed)
  {
    hide Enabled, Next;
    assert StepOk(r, i, indexed);
  }

  // ---------- the system invariant ----------

  /** A job held in memory names what its schedule row names. */
  ghost predicate ProcessInv(schedules: map<string, Schedule>, p: Process) {
    1 <= p.lease && forall i | 0 <= i < |p.held| :: JobMatches(schedules, p.held[i])
  }

  /** What a request has read is still so. */
  ghost predicate SessionInv(db: Db, x: Session) {
    match x
    case Publishing(c, n, row) => IsVersion(db.versions, row, c, n)
    case Scheduling(c, n, row, runAt, now) => IsVersion(db.versions, row, c, n) && now < runAt
    case Overwriting(c, expected) => c in db.contents && expected <= db.contents[c].currentVersion
  }

  ghost predicate SysInv(s: State) {
    && DbInv(s.db)
    && (forall p | p in s.processes :: ProcessInv(s.db.schedules, s.processes[p]))
    && (forall x | x in s.sessions :: SessionInv(s.db, s.sessions[x]))
  }

  lemma ExtendsRefl(db: Db)
    ensures Extends(db, db)
  {
  }

  lemma TxSafe<T>(fate: Fate, db: Db, body: Outcome<T>)
    requires DbInv(db) && Safe(db, body.db)
    ensures Safe(db, Tx(fate, db, body).db)
  {
    hide DbInv, Extends;
    ExtendsRefl(db);
  }

  lemma AdminStepSafe(s: State, a: Step, indexed: bool)
    requires SysInv(s) && Enabled(s, a)
    requires a.CreateContentStep? || a.UpdateContentStep? || a.OverwriteStep? || a.PublishStep?
             || a.UnpublishStep? || a.CreateScheduleStep? || a.CancelStep?
    ensures Safe(s.db, NextDb(s, a, indexed))
  {
    hide DbInv, Extends, CreateContent, UpdateContent, Publish, Unpublish, CreateSchedule, CancelSchedule, Tx, Safe;
    match a
    case CreateContentStep(id, slug, f, actor, now, fate) =>
      CreateContentSafe(s.db, id, slug, f, actor, now);
      TxSafe(fate, s.db, CreateContent(s.db, id, slug, f, actor, now));
    case UpdateContentStep(id, expected, f, actor, now, fate) =>
      UpdateContentSafe(s.db, id, expected, f, actor, now);
      TxSafe(fate, s.db, UpdateContent(s.db, id, expected, f, actor, now));
    case OverwriteStep(sid, f, actor, now, fate) =>
      var x := s.sessions[sid];
      UpdateContentSafe(s.db, x.contentId, x.expected, f, actor, now);
      TxSafe(fate, s.db, UpdateContent(s.db, x.contentId, x.expected, f, actor, now));
    case PublishStep(sid, actor, now, fate) =>
      var p := PublishParams(s.sessions[sid].contentId, s.sessions[sid].row, Manual, actor, None, now);
      PublishSafe(s.db, p, indexed);
      TxSafe(fate, s.db, Publish(s.db, p, indexed));
    case UnpublishStep(c, actor, now, fate) =>
      UnpublishSafe(s.db, c, actor, now);
      TxSafe(fate, s.db, Unpublish(s.db, c, actor, now));
    case CreateScheduleStep(sid, id, fate) =>
      var x := s.sessions[sid];
      assert SessionInv(s.db, x);
      CreateScheduleSafe(s.db, id, x.contentId, x.row, x.runAt, x.now);
      TxSafe(fate, s.db, CreateSchedule(s.db, id, x.contentId, x.row, x.runAt, x.now));
    case CancelStep(id, now, fate) =>
      CancelScheduleSafe(s.db, id, now);
      TxSafe(fate, s.db, CancelSchedule(s.db, id, now));
  }

  lemma WorkerStepSafe(s: State, a: Step, indexed: bool)
    requires SysInv(s) && Enabled(s, a)
    requires a.ClaimStep? || a.CompleteStep? || a.FailStep? || a.ReleaseStep?
    ensures Safe(s.db, NextDb(s, a, indexed))
  {
    hide DbInv, Extends, Claim, CompleteScheduledPublish, FailSchedule, ReleaseClaims, Tx, Safe, IsBatch, JobsFor;
    match a
    case ClaimStep(pid, now, later, expiry, fate, chosen, jobs) =>
      var p := s.processes[pid];
      BatchIsActive(s.db.schedules, now, p.batch, chosen);
      ClaimSafe(s.db, p.id, now, expiry, chosen);
      TxSafe(fate, s.db, Outcome(Claim(s.db, p.id, now, expiry, chosen), Ok(jobs)));
    case CompleteStep(pid, now, fate) =>
      var p := s.processes[pid];
      assert JobMatches(s.db.schedules, p.held[0]);
      CompleteSafe(s.db, p.held[0], p.id, now, indexed);
      TxSafe(fate, s.db, CompleteScheduledPublish(s.db, p.held[0], p.id, now, indexed));
    case FailStep(pid, reason, fate) =>
      var p := s.processes[pid];
      FailScheduleSafe(s.db, p.failed.value.scheduleId, p.id, reason, p.failed.value.now);
      TxSafe(fate, s.db, FailSchedule(s.db, p.failed.value.scheduleId, p.id, reason, p.failed.value.now));
    case ReleaseStep(pid, now, fate) =>
      ReleaseClaimsSafe(s.db, s.processes[pid].id, now);
      TxSafe(fate, s.db, ReleaseClaims(s.db, s.processes[pid].id, now));
  }

  /** No step breaks the database or undoes what it holds. */
  lemma StepSafe(s: State, a: Step, indexed: bool)
    requires SysInv(s) && Enabled(s, a)
    ensures DbInv(NextDb(s, a, indexed)) && Extends(s.db, NextDb(s, a, indexed))
  {
    hide DbInv, Extends, Enabled;
    if a.CreateContentStep? || a.UpdateContentStep? || a.OverwriteStep? || a.PublishStep?
       || a.UnpublishStep? || a.CreateScheduleStep? || a.CancelStep? {
      AdminStepSafe(s, a, indexed);
    } else if a.ClaimStep? || a.CompleteStep? || a.FailStep? || a.ReleaseStep? {
      WorkerStepSafe(s, a, indexed);
    } else {
      assert DbInv(s.db);
      ExtendsRefl(s.db);
    }
  }

  lemma ProcessGrows(db: Db, db': Db, p: Process)
    requires ProcessInv(db.schedules, p) && Extends(db, db')
    ensures ProcessInv(db'.schedules, p)
  {
    forall i | 0 <= i < |p.held|
      ensures JobMatches(db'.schedules, p.held[i])
    {
      assert JobMatches(db.schedules, p.held[i]);
    }
  }

  lemma SessionGrows(db: Db, db': Db, x: Session)
    requires SessionInv(db, x) && Extends(db, db')
    ensures SessionInv(db', x)
  {
  }

  lemma ClaimedMatch(db: Db, worker: string, now: int, expiry: int, chosen: set<string>, jobs: seq<ClaimedJob>)
    requires KeysOk(db) && JobsFor(Claim(db, worker, now, expiry, chosen).schedules, chosen, jobs)
    ensures forall i | 0 <= i < |jobs| :: JobMatches(Claim(db, worker, now, expiry, chosen).schedules, jobs[i])
  {
  }

  /** What a step can make of a process: start it, hand it a batch, take its first job off, or
      leave what it holds alone. */
  ghost predicate ProcessEffect(s: State, a: Step, p: nat, q: Process) {
    || (a.StartStep? && a.pid == p && q == Process(a.id, a.lease, a.batch, [], 0, None))
    || (p in s.processes
        && var was := s.processes[p];
           && q.id == was.id && q.lease == was.lease && q.batch == was.batch
           && (|| (q.held == was.held && q.claimedAt == was.claimedAt)
               || (a.CompleteStep? && a.pid == p && was.held != [] && q.held == was.held[1..] && q.claimedAt == was.claimedAt)
               || (a.ClaimStep? && a.pid == p && a.fate.Lands? && q.held == a.jobs && q.claimedAt == a.now)))
  }

  lemma ProcessEffects(s: State, a: Step, indexed: bool, p: nat)
    requires Enabled(s, a) && p in NextProcesses(s, a, indexed)
    ensures ProcessEffect(s, a, p, NextProcesses(s, a, indexed)[p])
    ensures a.StartStep? && a.pid == p ==> 1 <= a.lease
  {
    hide CompleteOutcome, IsBatch, JobsFor, Claim, Lookup;
  }

  lemma ClaimLands(s: State, a: Step, indexed: bool)
    requires Enabled(s, a) && a.ClaimStep? && a.fate.Lands?
    ensures NextDb(s, a, indexed) == Claim(s.db, s.processes[a.pid].id, a.now, a.expiry, a.chosen)
    ensures IsBatch(s.db.schedules, a.now, s.processes[a.pid].batch, a.chosen)
    ensures JobsFor(NextDb(s, a, indexed).schedules, a.chosen, a.jobs)
  {
    hide Claim, IsBatch, JobsFor;
  }

  lemma SchemaHasKeys(db: Db)
    requires DbInv(db)
    ensures KeysOk(db)
  {
  }

  lemma ProcessesKeep(s: State, a: Step, indexed: bool)
    requires SysInv(s) && Enabled(s, a) && Extends(s.db, NextDb(s, a, indexed))
    ensures forall p | p in NextProcesses(s, a, indexed) ::
              ProcessInv(NextDb(s, a, indexed).schedules, NextProcesses(s, a, indexed)[p])
  {
    hide SchemaOk, History, Ownership, Leases, ExactlyOnce, Audit, Extends, JobsFor, IsBatch, JobMatches, Claim, Enabled,
      NextDb, NextProcesses, SessionInv;
    var db', processes' := NextDb(s, a, indexed), NextProcesses(s, a, indexed);
    SchemaHasKeys(s.db);
    forall p | p in processes'
      ensures ProcessInv(db'.schedules, processes'[p])
    {
      ProcessEffects(s, a, indexed, p);
      if p in s.processes {
        ProcessGrows(s.db, db', s.processes[p]);
      }
      if a.ClaimStep? && a.fate.Lands? && p == a.pid && p in s.processes {
        ClaimLands(s, a, indexed);
        ClaimedMatch(s.db, s.processes[p].id, a.now, a.expiry, a.chosen, a.jobs);
      }
    }
  }

  lemma SessionsKeep(s: State, a: Step, indexed: bool)
    requires SysInv(s) && Enabled(s, a) && Extends(s.db, NextDb(s, a, indexed))
    ensures forall x | x in NextSessions(s, a) :: SessionInv(NextDb(s, a, indexed), NextSessions(s, a)[x])
  {
    hide DbInv, Extends, IsBatch, JobsFor, ProcessInv;
    var db', sessions' := NextDb(s, a, indexed), NextSessions(s, a);
    forall x | x in sessions'
      ensures SessionInv(db', sessions'[x])
    {
      if x in s.sessions {
        SessionGrows(s.db, db', s.sessions[x]);
      }
    }
  }

  lemma StepKeeps(s: State, a: Step, indexed: bool)
    requires SysInv(s) && Enabled(s, a)
    ensures SysInv(Next(s, a, indexed)) && Extends(s.db, Next(s, a, indexed).db)
  {
    hide DbInv, Extends, Enabled, ProcessInv, SessionInv, NextDb, NextProcesses, NextSessions;
    StepSafe(s, a, indexed);
    ProcessesKeep(s, a, indexed);
    SessionsKeep(s, a, indexed);
  }

  // ---------- every reachable state ----------

  lemma InitialInv()
    ensures SysInv(INITIAL)
  {
  }

  lemma {:induction false} RunInv(r: Run, indexed: bool, i: nat)
    requires IsRun(r, indexed) && i < |r.states|
    ensures SysInv(r.states[i])
  {
    hide SysInv, Enabled, Next;
    if i == 0 {
      InitialInv();
    } else {
      RunInv(r, indexed, i - 1);
      RunStep(r, indexed, i - 1);
      StepKeeps(r.states[i - 1], r.steps[i - 1], indexed);
    }
  }

  lemma {:induction false} RunExtends(r: Run, indexed: bool, i: nat, j: nat)
    requires IsRun(r, indexed) && i <= j < |r.states|
    ensures Extends(r.states[i].db, r.states[j].db)
  {
    hide SysInv, Extends, Enabled, Next;
    if i == j {
      ExtendsRefl(r.states[i].db);
    } else {
      RunExtends(r, indexed, i, j - 1);
      RunInv(r, indexed, j - 1);
      RunStep(r, indexed, j - 1);
      StepKeeps(r.states[j - 1], r.steps[j - 1], indexed);
      ExtendsTrans(r.states[i].db, r.states[j - 1].db, r.states[j].db);
    }
  }
}
