/** Optimistic editing and version lookups over whole runs: dense immutable histories, no lost
    update, and requests that read before they write acting as one atomic operation. */
module Editing {
  import opened Tables
  import opened Transactions
  import opened Invariants
  import opened Workers
  import opened Steps
  import opened Effects

  // ---------- the history of one state ----------

  /** The version numbers of a content are exactly 1..current_version. */
  lemma HistoryIsDense(db: Db, c: string, n: int)
    requires DbInv(db) && c in db.contents
    ensures HasVersion(db.versions, c, n) <==> 1 <= n <= db.contents[c].currentVersion
  {
    hide SchemaOk, Ownership, Leases, ExactlyOnce, Audit;
  }

  /** The join with the current version finds exactly one row. */
  lemma CurrentVersionIsUnique(db: Db, c: string) returns (row: int)
    requires DbInv(db) && c in db.contents
    ensures row in db.versions
    ensures forall r | r in db.versions ::
              IsVersion(db.versions, r, c, db.contents[c].currentVersion) <==> r == row
  {
    assert NumbersUnique(db.versions);
    assert 1 <= db.contents[c].currentVersion;
    HistoryIsDense(db, c, db.contents[c].currentVersion);
    row :| row in db.versions && IsVersion(db.versions, row, c, db.contents[c].currentVersion);
  }

  /** The compare-and-swap alone decides an edit: the UNIQUE backstop never fires. */
  lemma BackstopNeverFires(db: Db, id: string, expected: int, f: VersionFields, actor: string, now: int)
    requires DbInv(db)
    ensures var result := UpdateContent(db, id, expected, f, actor, now).result;
            && (result.Ok? <==> id in db.contents && db.contents[id].currentVersion == expected)
            && (result == Err(NotFound) <==> id !in db.contents)
            && (result.Err? && id in db.contents ==> result == Err(VersionConflict))
  {
    if id in db.contents {
      HistoryIsDense(db, id, db.contents[id].currentVersion + 1);
    }
  }

  // ---------- no lost update ----------

  ghost predicate EditedAt(r: Run, i: nat, c: string)
    requires i < |r.steps| && |r.states| == |r.steps| + 1
  {
    c in r.states[i].db.contents
    && EditTakesEffect(r.states[i], r.steps[i], c, r.states[i].db.contents[c].currentVersion)
  }

  lemma VersionStep(s: State, a: Step, indexed: bool, c: string)
    requires Enabled(s, a) && c in s.db.contents
    ensures c in NextDb(s, a, indexed).contents
    ensures NextDb(s, a, indexed).contents[c].currentVersion == s.db.contents[c].currentVersion
              + if EditTakesEffect(s, a, c, s.db.contents[c].currentVersion) then 1 else 0
  {
    ContentEffects(s, a, indexed, c);
    if a.UpdateContentStep? || a.OverwriteStep? {
    } else {
    }
  }

  lemma VersionsNeverFall(r: Run, indexed: bool, i: nat, j: nat, c: string)
    requires IsRun(r, indexed) && i <= j < |r.states| && c in r.states[i].db.contents
    ensures c in r.states[j].db.contents
    ensures r.states[i].db.contents[c].currentVersion <= r.states[j].db.contents[c].currentVersion
  {
    RunExtends(r, indexed, i, j);
  }

  /** Of all the edits of a content that expect the same version at most one takes effect. */
  lemma NoLostUpdate(r: Run, indexed: bool, i: nat, j: nat, c: string, n: int)
    requires IsRun(r, indexed) && i < j < |r.steps|
    requires EditTakesEffect(r.states[i], r.steps[i], c, n)
    ensures !EditTakesEffect(r.states[j], r.steps[j], c, n)
  {
    RunStep(r, indexed, i);
    VersionStep(r.states[i], r.steps[i], indexed, c);
    VersionsNeverFall(r, indexed, i + 1, j, c);
  }

  /** How many edits of `c` took effect in the first `k` steps. */
  ghost function EditCount(r: Run, k: nat, c: string): nat
    requires |r.states| == |r.steps| + 1 && k <= |r.steps|
  {
    if k == 0 then 0 else EditCount(r, k - 1, c) + if EditedAt(r, k - 1, c) then 1 else 0
  }

  lemma NewContentStartsAtOne(s: State, a: Step, indexed: bool, c: string)
    requires Enabled(s, a) && c !in s.db.contents && c in NextDb(s, a, indexed).contents
    ensures NextDb(s, a, indexed).contents[c].currentVersion == 1
  {
    ContentEffects(s, a, indexed, c);
  }

  /** Every bump of a version number is one edit that took effect: none is lost, none counted
      twice. */
  lemma {:induction false} VersionCountsEdits(r: Run, indexed: bool, k: nat, c: string)
    requires IsRun(r, indexed) && k < |r.states|
    ensures if c in r.states[k].db.contents then r.states[k].db.contents[c].currentVersion == 1 + EditCount(r, k, c)
            else EditCount(r, k, c) == 0
  {
    if k > 0 {
      VersionCountsEdits(r, indexed, k - 1, c);
      RunStep(r, indexed, k - 1);
      if c in r.states[k - 1].db.contents {
        VersionStep(r.states[k - 1], r.steps[k - 1], indexed, c);
      } else if c in r.states[k].db.contents {
        NewContentStartsAtOne(r.states[k - 1], r.steps[k - 1], indexed, c);
      }
    }
  }

  lemma {:induction false} EditCountBetween(r: Run, i: nat, j: nat, c: string)
    requires |r.states| == |r.steps| + 1 && i <= j <= |r.steps|
    ensures EditCount(r, i, c) <= EditCount(r, j, c)
    ensures EditCount(r, i, c) == EditCount(r, j, c) <==> forall m: nat | i <= m < j :: !EditedAt(r, m, c)
    decreases j
  {
    hide EditedAt;
    if i < j {
      EditCountBetween(r, i, j - 1, c);
      if EditedAt(r, j - 1, c) {
        assert EditCount(r, i, c) < EditCount(r, j, c);
      }
    }
  }

  /** The version number of a content is the same in two states of a run exactly when no edit
      of it took effect in between. */
  lemma SameVersionMeansNoEdit(r: Run, indexed: bool, i: nat, j: nat, c: string)
    requires IsRun(r, indexed) && i <= j < |r.states| && c in r.states[i].db.contents
    ensures c in r.states[j].db.contents
    ensures r.states[i].db.contents[c].currentVersion == r.states[j].db.contents[c].currentVersion
       <==> forall m: nat | i <= m < j :: !EditedAt(r, m, c)
  {
    hide EditedAt;
    VersionsNeverFall(r, indexed, i, j, c);
    VersionCountsEdits(r, indexed, i, c);
    VersionCountsEdits(r, indexed, j, c);
    EditCountBetween(r, i, j, c);
  }

  // ---------- the wildcard overwrite ----------

  /** The step is the write that ends the request `sid`, which holds `x`. */
  predicate Ends(x: Session, a: Step, sid: nat) {
    match x
    case Overwriting(_, _) => a.OverwriteStep? && a.sid == sid
    case Publishing(_, _, _) => a.PublishStep? && a.sid == sid
    case Scheduling(_, _, _, _, _) => a.CreateScheduleStep? && a.sid == sid
  }

  lemma SessionStays(s: State, a: Step, sid: nat)
    requires Enabled(s, a) && sid in s.sessions && !Ends(s.sessions[sid], a, sid)
    ensures sid in NextSessions(s, a) && NextSessions(s, a)[sid] == s.sessions[sid]
  {
  }

  /** What a request has read it still holds when it writes, whatever happens in between. */
  lemma {:induction false} SessionKept(r: Run, indexed: bool, i: nat, j: nat, sid: nat)
    requires IsRun(r, indexed) && i <= j < |r.states| && sid in r.states[i].sessions
    requires forall m: nat | i <= m < j :: !Ends(r.states[i].sessions[sid], r.steps[m], sid)
    ensures sid in r.states[j].sessions && r.states[j].sessions[sid] == r.states[i].sessions[sid]
    decreases j
  {
    hide Enabled, NextDb, NextSessions, NextProcesses, Ends;
    if i < j {
      SessionKept(r, indexed, i, j - 1, sid);
      RunStep(r, indexed, j - 1);
      SessionStays(r.states[j - 1], r.steps[j - 1], sid);
    }
  }

  lemma WildcardSession(r: Run, indexed: bool, i: nat, j: nat, sid: nat, c: string)
    requires IsRun(r, indexed) && i < j < |r.states|
    requires r.steps[i] == ReadForOverwriteStep(sid, c)
    requires forall m: nat | i < m < j :: !(r.steps[m].OverwriteStep? && r.steps[m].sid == sid)
    ensures c in r.states[i].db.contents
    ensures sid in r.states[j].sessions
    ensures r.states[j].sessions[sid] == Overwriting(c, r.states[i].db.contents[c].currentVersion)
  {
    hide NextDb, NextProcesses;
    RunStep(r, indexed, i);
    SessionKept(r, indexed, i + 1, j, sid);
  }

  /** If an overwrite with `If-Match: *` takes effect, no other edit of that content landed
      between its read and its swap. */
  lemma WildcardSeesNoOtherEdit(r: Run, indexed: bool, i: nat, m: nat, j: nat, sid: nat, c: string)
    requires IsRun(r, indexed) && i < m < j < |r.steps|
    requires r.steps[i] == ReadForOverwriteStep(sid, c)
    requires r.steps[j].OverwriteStep? && r.steps[j].sid == sid
    requires forall q: nat | i < q < j :: !(r.steps[q].OverwriteStep? && r.steps[q].sid == sid)
    requires EditedAt(r, j, c)
    ensures !EditedAt(r, m, c)
  {
    WildcardSession(r, indexed, i, j, sid, c);
    assert r.states[j].db.contents[c].currentVersion == r.states[i].db.contents[c].currentVersion;
    VersionsNeverFall(r, indexed, i, m, c);
    VersionsNeverFall(r, indexed, m + 1, j, c) by {
      VersionsNeverFall(r, indexed, i, m + 1, c);
    }
    RunStep(r, indexed, m);
    VersionStep(r.states[m], r.steps[m], indexed, c);
  }

  // ---------- read, then write ----------

  lemma VersionRowIsUnique(db: Db, c: string, n: int, row: int)
    requires NumbersUnique(db.versions) && IsVersion(db.versions, row, c, n)
    ensures HasVersion(db.versions, c, n)
    ensures forall r | r in db.versions && IsVersion(db.versions, r, c, n) :: r == row
  {
  }

  /** Publishing by number looks the version up in one state and writes in a later one, yet
      acts as a single atomic operation on the state of its transaction. */
  lemma PublishIsAtomic(r: Run, indexed: bool, j: nat)
    requires IsRun(r, indexed) && j < |r.steps| && r.steps[j].PublishStep?
    ensures var a := r.steps[j];
            && a.sid in r.states[j].sessions && r.states[j].sessions[a.sid].Publishing?
            && var db, x := r.states[j].db, r.states[j].sessions[a.sid];
               && x.row in db.versions
               && PublishOutcome(db, x, a.actor, a.now, a.fate, indexed)
                  == Tx(a.fate, db, PublishNumber(db, x.contentId, x.number, a.actor, a.now, indexed))
               && r.states[j + 1].db == PublishOutcome(db, x, a.actor, a.now, a.fate, indexed).db
  {
    RunStep(r, indexed, j);
    RunInv(r, indexed, j);
    var db, x := r.states[j].db, r.states[j].sessions[r.steps[j].sid];
    assert SessionInv(db, x);
    assert NumbersUnique(db.versions);
    VersionRowIsUnique(db, x.contentId, x.number, x.row);
  }

  /** The same for scheduling, whose transaction can no longer find the version missing or the
      time in the past. */
  lemma ScheduleIsAtomic(r: Run, indexed: bool, j: nat)
    requires IsRun(r, indexed) && j < |r.steps| && r.steps[j].CreateScheduleStep?
    ensures var a := r.steps[j];
            && a.sid in r.states[j].sessions && r.states[j].sessions[a.sid].Scheduling?
            && var db, x := r.states[j].db, r.states[j].sessions[a.sid];
               && ScheduleOutcome(db, x, a.id, a.fate)
                  == Tx(a.fate, db, ScheduleNumber(db, a.id, x.contentId, x.number, x.runAt, x.now))
               && r.states[j + 1].db == ScheduleOutcome(db, x, a.id, a.fate).db
               && ScheduleOutcome(db, x, a.id, a.fate).result != Err(NotFound)
  {
    RunStep(r, indexed, j);
    RunInv(r, indexed, j);
    var db, x := r.states[j].db, r.states[j].sessions[r.steps[j].sid];
    assert SessionInv(db, x);
    assert NumbersUnique(db.versions);
    VersionRowIsUnique(db, x.contentId, x.number, x.row);
  }

  /** Over the run: a request that looked number `n` of content `c` up at step `i` and writes at
      step `j` publishes that number of that content, as one atomic operation at `j`. */
  lemma PublishRequestIsAtomic(r: Run, indexed: bool, i: nat, j: nat, sid: nat, c: string, n: int)
    requires IsRun(r, indexed) && i < j < |r.steps|
    requires r.steps[i].ReadForPublishStep? && r.steps[i].sid == sid && r.steps[i].contentId == c
    requires r.steps[i].number == n && r.steps[i].found.Some?
    requires forall m: nat | i < m < j :: !(r.steps[m].PublishStep? && r.steps[m].sid == sid)
    requires r.steps[j].PublishStep? && r.steps[j].sid == sid
    ensures var a, db := r.steps[j], r.states[j].db;
            && sid in r.states[j].sessions && r.states[j].sessions[sid] == Publishing(c, n, r.steps[i].found.value)
            && PublishOutcome(db, r.states[j].sessions[sid], a.actor, a.now, a.fate, indexed)
               == Tx(a.fate, db, PublishNumber(db, c, n, a.actor, a.now, indexed))
            && r.states[j + 1].db == Tx(a.fate, db, PublishNumber(db, c, n, a.actor, a.now, indexed)).db
  {
    hide NextDb, NextProcesses, PublishOutcome, PublishNumber, Tx;
    RunStep(r, indexed, i);
    SessionKept(r, indexed, i + 1, j, sid);
    PublishIsAtomic(r, indexed, j);
  }

  /** The same for a request to schedule, with the run_at and the reading it started with. */
  lemma ScheduleRequestIsAtomic(r: Run, indexed: bool, i: nat, j: nat, sid: nat, c: string, n: int)
    requires IsRun(r, indexed) && i < j < |r.steps|
    requires r.steps[i].ReadForScheduleStep? && r.steps[i].sid == sid && r.steps[i].contentId == c
    requires r.steps[i].number == n && r.steps[i].found.Some?
    requires forall m: nat | i < m < j :: !(r.steps[m].CreateScheduleStep? && r.steps[m].sid == sid)
    requires r.steps[j].CreateScheduleStep? && r.steps[j].sid == sid
    ensures var a, q, db := r.steps[j], r.steps[i], r.states[j].db;
            && sid in r.states[j].sessions
            && r.states[j].sessions[sid] == Scheduling(c, n, q.found.value, q.runAt, q.now)
            && ScheduleOutcome(db, r.states[j].sessions[sid], a.id, a.fate)
               == Tx(a.fate, db, ScheduleNumber(db, a.id, c, n, q.runAt, q.now))
            && r.states[j + 1].db == Tx(a.fate, db, ScheduleNumber(db, a.id, c, n, q.runAt, q.now)).db
  {
    hide NextDb, NextProcesses, ScheduleOutcome, ScheduleNumber, Tx;
    RunStep(r, indexed, i);
    SessionKept(r, indexed, i + 1, j, sid);
    ScheduleIsAtomic(r, indexed, j);
  }

  /** A lookup that finds nothing answers what the atomic operation would at that moment. */
  lemma MissIsAtomic(s: State, a: Step, indexed: bool, actor: string, id: string, now: int)
    requires Enabled(s, a)
    requires (a.ReadForPublishStep? || a.ReadForScheduleStep?) && a.found.None?
    ensures a.ReadForPublishStep? ==>
              PublishNumber(s.db, a.contentId, a.number, actor, now, indexed) == Outcome(s.db, Err(NotFound))
    ensures a.ReadForScheduleStep? ==>
              ScheduleNumber(s.db, id, a.contentId, a.number, a.runAt, a.now) == Outcome(s.db, Err(NotFound))
    ensures Next(s, a, indexed) == s
  {
  }
}
