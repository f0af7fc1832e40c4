/** What one step of the system can do to one schedule row and to one content row. */
module Effects {
  import opened Tables
  import opened Transactions
  import opened Invariants
  import opened Steps

  function ScheduleRow(db: Db, k: string): Option<Schedule> {
    if k in db.schedules then Some(db.schedules[k]) else None
  }

  function ContentRow(db: Db, c: string): Option<Content> {
    if c in db.contents then Some(db.contents[c]) else None
  }

  predicate TakesEffect(fate: Fate) {
    fate.Lands? || fate.Unreported?
  }

  /** The step completed schedule `k`: its transaction took effect, reported or not. */
  ghost predicate Completes(s: State, a: Step, indexed: bool, k: string) {
    && a.CompleteStep? && Enabled(s, a) && TakesEffect(a.fate)
    && var p := s.processes[a.pid];
       p.held[0].scheduleId == k
       && CompleteScheduledPublish(s.db, p.held[0], p.id, a.now, indexed).result.Ok?
  }

  /** The step leased schedule `k` to its worker. */
  ghost predicate Claims(s: State, a: Step, k: string) {
    a.ClaimStep? && Enabled(s, a) && TakesEffect(a.fate) && k in a.chosen
  }

  /** The step is a call under worker id `w` that gives leases back. */
  ghost predicate Reopens(s: State, a: Step, w: string) {
    && (a.FailStep? || a.ReleaseStep?) && Enabled(s, a) && TakesEffect(a.fate)
    && s.processes[a.pid].id == w
  }

  ghost predicate ScheduleEffect(s: State, a: Step, indexed: bool, k: string, row: Option<Schedule>, row': Option<Schedule>)
    requires Enabled(s, a)
  {
    || row' == row
    || (a.CreateScheduleStep? && row.None? && row'.Some?
        && row'.value.status == Pending && row'.value.lockedBy.None?
        && row'.value.contentId == s.sessions[a.sid].contentId && row'.value.versionId == s.sessions[a.sid].row
        && row'.value.runAt == s.sessions[a.sid].runAt && row'.value.createdAt == s.sessions[a.sid].now)
    || (a.CancelStep? && a.id == k && row.Some? && row.value.status == Pending
        && row' == Some(Cancel(row.value, a.now)))
    || (Claims(s, a, k) && row.Some? && IsDue(row.value, a.now)
        && row' == Some(Lease(row.value, s.processes[a.pid].id, a.now, a.expiry)))
    || (Completes(s, a, indexed, k) && row.Some? && HoldsLease(s.db.schedules, k, s.processes[a.pid].id)
        && row' == Some(Finish(row.value, a.now)))
    || (a.FailStep? && Reopens(s, a, s.processes[a.pid].id)
        && s.processes[a.pid].failed.value.scheduleId == k
        && HoldsLease(s.db.schedules, k, s.processes[a.pid].id)
        && row.Some? && row' == Some(Reopen(row.value, a.reason, s.processes[a.pid].failed.value.now)))
    || (a.ReleaseStep? && Reopens(s, a, s.processes[a.pid].id)
        && HoldsLease(s.db.schedules, k, s.processes[a.pid].id)
        && row.Some? && row' == Some(Reopen(row.value, row.value.lastError, a.now)))
  }

  lemma AdminScheduleEffect(s: State, a: Step, indexed: bool, k: string)
    requires Enabled(s, a)
    requires a.CreateContentStep? || a.UpdateContentStep? || a.OverwriteStep? || a.PublishStep?
             || a.UnpublishStep? || a.CreateScheduleStep? || a.CancelStep?
    ensures ScheduleEffect(s, a, indexed, k, ScheduleRow(s.db, k), ScheduleRow(NextDb(s, a, indexed), k))
  {
    hide HasVersion, SlugUsed, HasActive, HasEvent;
    match a
    case CreateContentStep(_, _, _, _, _, _) =>
    case UpdateContentStep(_, _, _, _, _, _) =>
    case OverwriteStep(_, _, _, _, _) =>
    case PublishStep(_, _, _, _) =>
    case UnpublishStep(_, _, _, _) =>
    case CreateScheduleStep(_, _, _) =>
    case CancelStep(_, _, _) =>
  }

  lemma ClaimScheduleEffect(s: State, a: Step, indexed: bool, k: string)
    requires Enabled(s, a) && a.ClaimStep?
    ensures ScheduleEffect(s, a, indexed, k, ScheduleRow(s.db, k), ScheduleRow(NextDb(s, a, indexed), k))
  {
    hide JobsFor;
    assert k in a.chosen ==> k in Due(s.db.schedules, a.now);
  }

  lemma CompleteScheduleEffect(s: State, a: Step, indexed: bool, k: string)
    requires Enabled(s, a) && a.CompleteStep?
    ensures ScheduleEffect(s, a, indexed, k, ScheduleRow(s.db, k), ScheduleRow(NextDb(s, a, indexed), k))
  {
    hide HasEvent;
  }

  lemma ReopenScheduleEffect(s: State, a: Step, indexed: bool, k: string)
    requires Enabled(s, a) && (a.FailStep? || a.ReleaseStep?)
    ensures ScheduleEffect(s, a, indexed, k, ScheduleRow(s.db, k), ScheduleRow(NextDb(s, a, indexed), k))
  {
  }

  /** Every step does one of the listed things to a schedule row, or leaves it alone. */
  lemma ScheduleEffects(s: State, a: Step, indexed: bool, k: string)
    requires Enabled(s, a)
    ensures ScheduleEffect(s, a, indexed, k, ScheduleRow(s.db, k), ScheduleRow(NextDb(s, a, indexed), k))
  {
    hide Enabled, Completes, Claims, Reopens, HoldsLease;
    if a.ClaimStep? {
      ClaimScheduleEffect(s, a, indexed, k);
    } else if a.CompleteStep? {
      CompleteScheduleEffect(s, a, indexed, k);
    } else if a.FailStep? || a.ReleaseStep? {
      ReopenScheduleEffect(s, a, indexed, k);
    } else if a.CreateContentStep? || a.UpdateContentStep? || a.OverwriteStep? || a.PublishStep?
              || a.UnpublishStep? || a.CreateScheduleStep? || a.CancelStep? {
      AdminScheduleEffect(s, a, indexed, k);
    }
  }

  // ---------- contents ----------

  /** The step edits content `c`, expecting version `n`; it succeeds when `n` is current. */
  ghost predicate Edits(s: State, a: Step, c: string, n: int) {
    || (a.UpdateContentStep? && a.id == c && a.expected == n)
    || (a.OverwriteStep? && a.sid in s.sessions && s.sessions[a.sid] == Overwriting(c, n))
  }

  ghost predicate EditTakesEffect(s: State, a: Step, c: string, n: int) {
    && Edits(s, a, c, n) && TakesEffect(a.fate)
    && c in s.db.contents && s.db.contents[c].currentVersion == n
    && !HasVersion(s.db.versions, c, n + 1)
  }

  ghost predicate ContentEffect(s: State, a: Step, indexed: bool, c: string, row: Option<Content>, row': Option<Content>)
    requires Enabled(s, a)
  {
    || row' == row
    || (a.CreateContentStep? && a.id == c && row.None? && row' == Some(Content(c, a.slug, 1, None, None, a.now, a.now)))
    || (row.Some? && EditTakesEffect(s, a, c, row.value.currentVersion)
        && row' == Some(row.value.(currentVersion := row.value.currentVersion + 1, updatedAt := a.now)))
    || (a.PublishStep? && s.sessions[a.sid].contentId == c && row.Some?
        && row.value.publishedVersionId != Some(s.sessions[a.sid].row)
        && row' == Some(row.value.(publishedVersionId := Some(s.sessions[a.sid].row),
                                   publishedAt := Some(a.now), updatedAt := a.now)))
    || (a.UnpublishStep? && a.contentId == c && row.Some? && row.value.publishedVersionId.Some?
        && row' == Some(row.value.(publishedVersionId := None, publishedAt := None, updatedAt := a.now)))
    || (a.CompleteStep? && Completes(s, a, indexed, s.processes[a.pid].held[0].scheduleId)
        && s.processes[a.pid].held[0].contentId == c && row.Some?
        && row' == Some(Published(row.value, s.processes[a.pid].held[0], a.now)))
  }

  lemma EditContentEffect(s: State, a: Step, indexed: bool, c: string)
    requires Enabled(s, a) && (a.CreateContentStep? || a.UpdateContentStep? || a.OverwriteStep?)
    ensures ContentEffect(s, a, indexed, c, ContentRow(s.db, c), ContentRow(NextDb(s, a, indexed), c))
  {
    hide HasVersion, SlugUsed;
    match a
    case CreateContentStep(_, _, _, _, _, _) =>
    case UpdateContentStep(_, _, _, _, _, _) =>
    case OverwriteStep(_, _, _, _, _) =>
  }

  lemma PointContentEffect(s: State, a: Step, indexed: bool, c: string)
    requires Enabled(s, a) && (a.PublishStep? || a.UnpublishStep? || a.CompleteStep?)
    ensures ContentEffect(s, a, indexed, c, ContentRow(s.db, c), ContentRow(NextDb(s, a, indexed), c))
  {
    hide HasEvent;
    match a
    case PublishStep(_, _, _, _) =>
    case UnpublishStep(_, _, _, _) =>
    case CompleteStep(_, _, _) =>
  }

  lemma ScheduleStepsKeepContents(s: State, a: Step, indexed: bool)
    requires Enabled(s, a)
    requires a.CreateScheduleStep? || a.CancelStep? || a.ClaimStep? || a.FailStep? || a.ReleaseStep?
    ensures NextDb(s, a, indexed).contents == s.db.contents
    ensures NextDb(s, a, indexed).versions == s.db.versions
    ensures NextDb(s, a, indexed).events == s.db.events
  {
    hide HasActive, IsBatch, JobsFor;
  }

  /** Every step does one of the listed things to a content row, or leaves it alone. */
  lemma ContentEffects(s: State, a: Step, indexed: bool, c: string)
    requires Enabled(s, a)
    ensures ContentEffect(s, a, indexed, c, ContentRow(s.db, c), ContentRow(NextDb(s, a, indexed), c))
  {
    hide Enabled, Completes, EditTakesEffect;
    if a.CreateContentStep? || a.UpdateContentStep? || a.OverwriteStep? {
      EditContentEffect(s, a, indexed, c);
    } else if a.PublishStep? || a.UnpublishStep? || a.CompleteStep? {
      PointContentEffect(s, a, indexed, c);
    } else if a.CreateScheduleStep? || a.CancelStep? || a.ClaimStep? || a.FailStep? || a.ReleaseStep? {
      ScheduleStepsKeepContents(s, a, indexed);
    }
  }

  // ---------- events ----------

  ghost predicate EventEffect(s: State, a: Step, indexed: bool, events': seq<Event>)
    requires Enabled(s, a)
  {
    || events' == s.db.events
    || (|events'| == |s.db.events| + 1 && s.db.events <= events'
        && var e := events'[|s.db.events|];
           || ((a.PublishStep? || a.UnpublishStep?) && e.scheduleId.None?)
           || (a.CompleteStep? && Completes(s, a, indexed, s.processes[a.pid].held[0].scheduleId)
               && e == JobEvent(s.processes[a.pid].held[0], a.now).(id := s.db.eventSeq + 1)))
  }

  lemma PointEventEffect(s: State, a: Step, indexed: bool)
    requires Enabled(s, a) && (a.PublishStep? || a.UnpublishStep? || a.CompleteStep?)
    ensures EventEffect(s, a, indexed, NextDb(s, a, indexed).events)
  {
    hide HasEvent;
    match a
    case PublishStep(_, _, _, _) =>
    case UnpublishStep(_, _, _, _) =>
    case CompleteStep(_, _, _) =>
  }

  lemma EditStepsKeepEvents(s: State, a: Step, indexed: bool)
    requires Enabled(s, a) && (a.CreateContentStep? || a.UpdateContentStep? || a.OverwriteStep?)
    ensures NextDb(s, a, indexed).events == s.db.events
    ensures NextDb(s, a, indexed).schedules == s.db.schedules
  {
    hide HasVersion, SlugUsed;
  }

  /** A step appends at most one event. */
  lemma EventEffects(s: State, a: Step, indexed: bool)
    requires Enabled(s, a)
    ensures EventEffect(s, a, indexed, NextDb(s, a, indexed).events)
  {
    hide Enabled, Completes;
    if a.CreateContentStep? || a.UpdateContentStep? || a.OverwriteStep? {
      EditStepsKeepEvents(s, a, indexed);
    } else if a.PublishStep? || a.UnpublishStep? || a.CompleteStep? {
      PointEventEffect(s, a, indexed);
    } else if a.CreateScheduleStep? || a.CancelStep? || a.ClaimStep? || a.FailStep? || a.ReleaseStep? {
      ScheduleStepsKeepContents(s, a, indexed);
    }
  }
}
