/** The imperative worker runs inside the state machine: whatever a poll cycle or a shutdown does
    to the database is done by steps of `Steps`, so every theorem about runs speaks of it. */
module Refinement {
  import opened Tables
  import opened Transactions
  import opened Schema
  import opened Workers
  import opened Steps

  /** The steps of `trace` lead from `s` to `t`. */
  ghost predicate Leads(s: State, trace: seq<Step>, t: State, indexed: bool)
    decreases |trace|
  {
    if trace == [] then s == t
    else Enabled(s, trace[0]) && Leads(Next(s, trace[0], indexed), trace[1..], t, indexed)
  }

  ghost predicate Reachable(s: State, indexed: bool) {
    exists r: Run :: IsRun(r, indexed) && r.states[|r.steps|] == s
  }

  lemma OneStep(s: State, a: Step, indexed: bool)
    requires Enabled(s, a)
    ensures Leads(s, [a], Next(s, a, indexed), indexed)
  {
    hide Enabled, Next;
  }

  lemma {:induction false} LeadsConcat(s: State, x: seq<Step>, t: State, y: seq<Step>, u: State, indexed: bool)
    requires Leads(s, x, t, indexed) && Leads(t, y, u, indexed)
    ensures Leads(s, x + y, u, indexed)
    decreases |x|
  {
    hide Enabled, Next;
    if x == [] {
      assert x + y == y;
    } else {
      LeadsConcat(Next(s, x[0], indexed), x[1..], t, y, u, indexed);
      assert (x + y)[1..] == x[1..] + y;
    }
  }

  lemma StepReaches(s: State, a: Step, indexed: bool)
    requires Reachable(s, indexed) && Enabled(s, a)
    ensures Reachable(Next(s, a, indexed), indexed)
  {
    hide Enabled, Next;
    var r: Run :| IsRun(r, indexed) && r.states[|r.steps|] == s;
    var r' := Run(r.states + [Next(s, a, indexed)], r.steps + [a]);
    forall i: nat | i < |r'.steps|
      ensures StepOk(r', i, indexed)
    {
      if i < |r.steps| {
        assert StepOk(r, i, indexed);
      }
    }
    assert IsRun(r', indexed);
  }

  lemma {:induction false} LeadsReaches(s: State, trace: seq<Step>, t: State, indexed: bool)
    requires Reachable(s, indexed) && Leads(s, trace, t, indexed)
    ensures Reachable(t, indexed)
    decreases |trace|
  {
    hide Enabled, Next, Reachable;
    if trace != [] {
      StepReaches(s, trace[0], indexed);
      LeadsReaches(Next(s, trace[0], indexed), trace[1..], t, indexed);
    }
  }

  /** Process `pid` of `t` is process `p`, holding `held`, with no failure to report. */
  ghost predicate Holding(t: State, pid: nat, p: Process, held: seq<ClaimedJob>) {
    && pid in t.processes
    && t.processes[pid].id == p.id && t.processes[pid].lease == p.lease && t.processes[pid].batch == p.batch
    && t.processes[pid].held == held && t.processes[pid].failed.None?
  }

  /** Executing one job is a completion, followed by the release of a failed one. */
  lemma ExecuteIsSteps(s: State, pid: nat, luck: Luck, indexed: bool) returns (trace: seq<Step>, t: State)
    requires pid in s.processes && s.processes[pid].held != [] && s.processes[pid].failed.None?
    ensures Leads(s, trace, t, indexed)
    ensures var p := s.processes[pid];
            Holding(t, pid, p, p.held[1..]) && t.db == Execute(s.db, p.held[0], p.id, luck, indexed)
  {
    hide CompleteScheduledPublish, FailSchedule;
    var p := s.processes[pid];
    var a := CompleteStep(pid, luck.now, luck.complete);
    t := Next(s, a, indexed);
    trace := [a];
    if t.processes[pid].failed.Some? {
      var b := FailStep(pid, luck.reason, luck.fail);
      var u := Next(t, b, indexed);
      OneStep(s, a, indexed);
      OneStep(t, b, indexed);
      LeadsConcat(s, [a], t, [b], u, indexed);
      t, trace := u, [a] + [b];
    }
  }

  /** The same among others: the completion is a step of the state `s` it finds, and the release
      a step of any later state `u` in which the process still has the failure to report. */
  lemma ExecuteAmongIsSteps(s: State, u: State, pid: nat, luck: Luck, indexed: bool)
    requires pid in s.processes && s.processes[pid].held != [] && s.processes[pid].failed.None?
    ensures var a, b := CompleteStep(pid, luck.now, luck.complete), FailStep(pid, luck.reason, luck.fail);
            var p := s.processes[pid];
            && Enabled(s, a)
            && var q := Next(s, a, indexed).processes[pid];
               var after := ExecuteAmong(Moment(s.db, u.db), p.held[0], p.id, luck, indexed);
               if q.failed.None? then NextDb(s, a, indexed) == after
               else pid in u.processes && u.processes[pid] == q ==> Enabled(u, b) && NextDb(u, b, indexed) == after
  {
    hide CompleteScheduledPublish, FailSchedule;
  }

  lemma {:induction false} ExecuteAllIsSteps(s: State, pid: nat, luck: string -> Luck, indexed: bool)
    returns (trace: seq<Step>, t: State)
    requires pid in s.processes && s.processes[pid].failed.None?
    ensures Leads(s, trace, t, indexed)
    ensures var p := s.processes[pid];
            Holding(t, pid, p, []) && t.db == ExecuteAll(s.db, p.held, p.id, luck, indexed)
    decreases |s.processes[pid].held|
  {
    hide Enabled, Next, Execute;
    var p := s.processes[pid];
    if p.held == [] {
      trace, t := [], s;
    } else {
      var first, u := ExecuteIsSteps(s, pid, luck(p.held[0].scheduleId), indexed);
      var rest;
      rest, t := ExecuteAllIsSteps(u, pid, luck, indexed);
      LeadsConcat(s, first, u, rest, t, indexed);
      trace := first + rest;
    }
  }

  // ---------- the calls of the admin API ----------

  /** Every write of the admin API is a step that any state allows, and does to the database what
      its transaction does. */
  lemma AdminCallsAreSteps(s: State, id: string, slug: string, f: VersionFields, expected: int,
                           actor: string, now: int, fate: Fate, indexed: bool)
    ensures var create := CreateContentStep(id, slug, f, actor, now, fate);
            var update := UpdateContentStep(id, expected, f, actor, now, fate);
            var unpublish, cancel := UnpublishStep(id, actor, now, fate), CancelStep(id, now, fate);
            && Enabled(s, create) && Enabled(s, update) && Enabled(s, unpublish) && Enabled(s, cancel)
            && Next(s, create, indexed) == s.(db := Tx(fate, s.db, CreateContent(s.db, id, slug, f, actor, now)).db)
            && Next(s, update, indexed) == s.(db := Tx(fate, s.db, UpdateContent(s.db, id, expected, f, actor, now)).db)
            && Next(s, unpublish, indexed) == s.(db := Tx(fate, s.db, Unpublish(s.db, id, actor, now)).db)
            && Next(s, cancel, indexed) == s.(db := Tx(fate, s.db, CancelSchedule(s.db, id, now)).db)
  {
  }

  ghost predicate Answers(db: Db, c: string, n: int, found: Option<int>) {
    match found
    case Some(row) => row in db.versions && db.versions[row].contentId == c && db.versions[row].number == n
    case None =>
      forall row | row in db.versions :: db.versions[row].contentId != c || db.versions[row].number != n
  }

  /** A lookup is a step in every state: it answers a row exactly when the row is that version, a
      miss exactly when there is none (for scheduling, once run_at is in the future), and it is
      remembered and changes nothing else. */
  lemma LookupsAreSteps(s: State, sid: nat, c: string, n: int, found: Option<int>, runAt: int, now: int, indexed: bool)
    requires sid !in s.sessions
    ensures var publish := ReadForPublishStep(sid, c, n, found);
            var schedule := ReadForScheduleStep(sid, c, n, found, runAt, now);
            var asked := if found.None? then s.sessions else s.sessions[sid := Publishing(c, n, found.value)];
            var planned := if found.None? then s.sessions
                           else s.sessions[sid := Scheduling(c, n, found.value, runAt, now)];
            && (Enabled(s, publish) <==> Answers(s.db, c, n, found))
            && (Enabled(s, schedule) <==> Answers(s.db, c, n, found) && now < runAt)
            && (Answers(s.db, c, n, found) ==> Next(s, publish, indexed) == s.(sessions := asked))
            && (Answers(s.db, c, n, found) && now < runAt ==> Next(s, schedule, indexed) == s.(sessions := planned))
  {
    if found.None? {
      forall row | row in s.db.versions
        ensures IsVersion(s.db.versions, row, c, n) <==> s.db.versions[row].contentId == c && s.db.versions[row].number == n
      {
      }
    }
  }

  /** The write of a request is a step in every state, and ends the request. */
  lemma RequestWritesAreSteps(s: State, sid: nat, id: string, actor: string, now: int, fate: Fate, indexed: bool)
    requires sid in s.sessions
    ensures match s.sessions[sid]
            case Publishing(c, _, row) =>
              var a := PublishStep(sid, actor, now, fate);
              && Enabled(s, a)
              && Next(s, a, indexed) == State(
                   Tx(fate, s.db, Publish(s.db, PublishParams(c, row, Manual, actor, None, now), indexed)).db,
                   s.processes, s.sessions - {sid})
            case Scheduling(c, _, row, runAt, read) =>
              var a := CreateScheduleStep(sid, id, fate);
              && Enabled(s, a)
              && Next(s, a, indexed) == State(
                   Tx(fate, s.db, CreateSchedule(s.db, id, c, row, runAt, read)).db, s.processes, s.sessions - {sid})
            case Overwriting(_, _) => true
  {
  }

  /** A process can start under any id, crash at any time and forget what it holds, and release
      its claims when it holds no job. */
  lemma ProcessesComeAndGo(s: State, pid: nat, id: string, lease: int, batch: nat, now: int, fate: Fate, indexed: bool)
    ensures pid !in s.processes && 1 <= lease && 1 <= batch ==>
              && Enabled(s, StartStep(pid, id, lease, batch))
              && Next(s, StartStep(pid, id, lease, batch), indexed)
                 == s.(processes := s.processes[pid := Process(id, lease, batch, [], 0, None)])
    ensures pid in s.processes ==>
              && Enabled(s, CrashStep(pid)) && Next(s, CrashStep(pid), indexed) == s.(processes := s.processes - {pid})
    ensures pid in s.processes && s.processes[pid].held == [] && s.processes[pid].failed == None ==>
              && Enabled(s, ReleaseStep(pid, now, fate))
              && Next(s, ReleaseStep(pid, now, fate), indexed) == State(
                   Tx(fate, s.db, ReleaseClaims(s.db, s.processes[pid].id, now)).db, s.processes - {pid}, s.sessions)
  {
  }

  // ---------- a whole cycle ----------

  /** The claimed rows can be listed. */
  lemma JobsExist(schedules: map<string, Schedule>, chosen: set<string>) returns (jobs: seq<ClaimedJob>)
    requires chosen <= schedules.Keys && forall k | k in schedules :: schedules[k].id == k
    ensures JobsFor(schedules, chosen, jobs)
    decreases |chosen|
  {
    if chosen == {} {
      jobs := [];
    } else {
      var k :| k in chosen;
      var rest := JobsExist(schedules, chosen - {k});
      jobs := rest + [JobOf(schedules[k])];
      forall a | a in chosen
        ensures exists i :: 0 <= i < |jobs| && jobs[i].scheduleId == a
      {
        if a == k {
          assert jobs[|rest|].scheduleId == k;
        } else {
          assert a in chosen - {k};
          var i :| 0 <= i < |rest| && rest[i].scheduleId == a;
          assert jobs[i].scheduleId == a;
        }
      }
    }
  }

  lemma ClaimKeepsIds(db: Db, worker: string, now: int, expiry: int, limit: nat, chosen: set<string>)
    returns (jobs: seq<ClaimedJob>)
    requires KeysOk(db) && IsBatch(db.schedules, now, limit, chosen)
    ensures JobsFor(Claim(db, worker, now, expiry, chosen).schedules, chosen, jobs)
  {
    hide IsBatch, JobsFor;
    BatchIsActive(db.schedules, now, limit, chosen);
    jobs := JobsExist(Claim(db, worker, now, expiry, chosen).schedules, chosen);
  }

  /** A poll cycle, however its transactions end, is a sequence of steps of its process. */
  lemma TickIsSteps(s: State, pid: nat, after: Db, now: int, later: int, expiry: int, fate: Fate, luck: string -> Luck,
                    indexed: bool, chosen: set<string>, jobs: seq<ClaimedJob>)
    returns (trace: seq<Step>, t: State)
    requires KeysOk(s.db) && pid in s.processes && s.processes[pid].Idle()
    requires expiry == later + s.processes[pid].lease
    requires Ticked(s.db, after, s.processes[pid].id, now, expiry, s.processes[pid].batch, fate, luck, indexed, chosen, jobs)
    ensures Leads(s, trace, t, indexed) && t.db == after
    ensures Holding(t, pid, s.processes[pid], [])
  {
    hide IsBatch, JobsFor, Claim, ExecuteAll, KeysOk;
    var p := s.processes[pid];
    trace, t := [], s;
    if fate.Unreported? {
      var listed := ClaimKeepsIds(s.db, p.id, now, expiry, p.batch, chosen);
      var a := ClaimStep(pid, now, later, expiry, fate, chosen, listed);
      OneStep(s, a, indexed);
      trace, t := [a], Next(s, a, indexed);
    } else if fate.Lands? {
      var a := ClaimStep(pid, now, later, expiry, fate, chosen, jobs);
      var u := Next(s, a, indexed);
      OneStep(s, a, indexed);
      var rest;
      rest, t := ExecuteAllIsSteps(u, pid, luck, indexed);
      LeadsConcat(s, [a], u, rest, t, indexed);
      trace := [a] + rest;
    }
  }

  lemma ReachableKeys(s: State, indexed: bool)
    requires Reachable(s, indexed)
    ensures KeysOk(s.db)
  {
    var r: Run :| IsRun(r, indexed) && r.states[|r.steps|] == s;
    RunInv(r, indexed, |r.steps|);
  }

  /** So from a reachable state a poll cycle ends in a reachable state, and so does the release
      at the end of Run. */
  lemma WorkerStaysReachable(s: State, pid: nat, after: Db, now: int, later: int, expiry: int, fate: Fate,
                             luck: string -> Luck, indexed: bool, chosen: set<string>,
                             jobs: seq<ClaimedJob>, stop: int, end: Fate)
    returns (t: State, u: State)
    requires Reachable(s, indexed) && pid in s.processes && s.processes[pid].Idle()
    requires expiry == later + s.processes[pid].lease
    requires Ticked(s.db, after, s.processes[pid].id, now, expiry, s.processes[pid].batch, fate, luck, indexed, chosen, jobs)
    ensures Reachable(t, indexed) && t.db == after && Holding(t, pid, s.processes[pid], [])
    ensures Reachable(u, indexed) && pid !in u.processes
    ensures u.db == Tx(end, after, ReleaseClaims(after, s.processes[pid].id, stop)).db
  {
    hide Ticked, Reachable, Leads, ReleaseClaims, Tx, KeysOk;
    ReachableKeys(s, indexed);
    var trace;
    trace, t := TickIsSteps(s, pid, after, now, later, expiry, fate, luck, indexed, chosen, jobs);
    LeadsReaches(s, trace, t, indexed);
    var a := ReleaseStep(pid, stop, end);
    u := Next(t, a, indexed);
    StepReaches(t, a, indexed);
  }
}
