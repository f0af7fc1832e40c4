/** The audit log over whole runs. */
module AuditLog {
  import opened Tables
  import opened Transactions
  import opened Invariants
  import opened Steps
  import opened Effects

  /** In every reachable state, replaying the log in id order gives the published version and
      time of each content. */
  lemma LogReplaysToPointer(r: Run, indexed: bool, i: nat, c: string)
    requires IsRun(r, indexed) && i < |r.states|
    ensures var db := r.states[i].db;
            Replay(db.events, c) == if c in db.contents then PointerOf(db.contents[c]) else Pointer(None, None)
  {
    RunInv(r, indexed, i);
    var db := r.states[i].db;
    if c !in db.contents {
      NoEventsNoPointer(db.events, c);
    }
  }

  /** Event ids increase along the log; a manual event changed what was public; an unpublish names
      the version that was public just before it, and leaves nothing public. */
  lemma EventsAreHonest(r: Run, indexed: bool, i: nat, e: nat)
    requires IsRun(r, indexed) && i < |r.states| && e < |r.states[i].db.events|
    ensures var events := r.states[i].db.events;
            var c := events[e].contentId;
            var before, after := Replay(events[..e], c), Replay(events[..e + 1], c);
            && (forall d | 0 <= d < e :: events[d].id < events[e].id)
            && (events[e].source == Manual ==> before.version != after.version)
            && (events[e].action == UnpublishAction ==> events[e].versionId == before.version && after.version.None?)
            && (events[e].action == PublishAction ==> after == Pointer(events[e].versionId, Some(events[e].occurredAt)))
  {
    hide StepOk, SchemaOk, History, Leases, ExactlyOnce, ProcessInv, SessionInv, Owns;
    RunInv(r, indexed, i);
    var events := r.states[i].db.events;
    assert Effective(Replay(events[..e], events[e].contentId), events[e]);
    assert events[e].versionId.Some?;
    assert events[..e + 1] == events[..e] + [events[e]];
    ReplaySnoc(events[..e], events[e], events[e].contentId);
  }

  /** Every prefix of the log was the whole log at some earlier state, so what it replays to is
      what was public then. */
  lemma {:induction false} PrefixesWereLogs(r: Run, indexed: bool, j: nat, n: nat) returns (i: nat)
    requires IsRun(r, indexed) && j < |r.states| && n <= |r.states[j].db.events|
    ensures i <= j && r.states[i].db.events == r.states[j].db.events[..n]
    decreases j
  {
    var events := r.states[j].db.events;
    if n == |events| {
      i := j;
      assert events[..n] == events;
    } else {
      RunStep(r, indexed, j - 1);
      EventEffects(r.states[j - 1], r.steps[j - 1], indexed);
      assert r.states[j - 1].db.events <= events;
      i := PrefixesWereLogs(r, indexed, j - 1, n);
      assert r.states[j - 1].db.events[..n] == events[..n];
    }
  }

  // ---------- the listing of events ----------

  predicate Newer(a: Event, b: Event) {
    a.occurredAt > b.occurredAt || (a.occurredAt == b.occurredAt && a.id > b.id)
  }

  /** The newest of the events at `left`. */
  method NewestOf(events: seq<Event>, left: set<nat>) returns (n: nat)
    requires left != {} && forall i | i in left :: i < |events|
    requires IdsIncrease(events)
    ensures n in left && forall i | i in left && i != n :: Newer(events[n], events[i])
  {
    n :| n in left;
    var todo := left - {n};
    while todo != {}
      invariant todo <= left && n in left && n !in todo
      invariant forall i | i in left && i !in todo && i != n :: Newer(events[n], events[i])
      decreases todo
    {
      var i :| i in todo;
      todo := todo - {i};
      assert if i < n then events[i].id < events[n].id else events[n].id < events[i].id;
      if Newer(events[i], events[n]) {
        n := i;
      }
    }
  }

  /** `out` is the content's events, newest first by occurred_at and then id, at most `limit`. */
  ghost predicate NewestFirst(events: seq<Event>, contentId: string, limit: nat, out: seq<Event>) {
    && (forall i | 0 <= i < |out| :: out[i] in events && out[i].contentId == contentId)
    && (forall i, j | 0 <= i < j < |out| :: Newer(out[i], out[j]))
    && |out| <= limit
    && (forall e | e in events && e.contentId == contentId && e !in out ::
          |out| == limit && forall i | 0 <= i < |out| :: Newer(out[i], e))
  }

  method ListEvents(db: Db, contentId: string, limit: nat) returns (out: seq<Event>)
    requires IdsIncrease(db.events)
    ensures NewestFirst(db.events, contentId, limit, out)
    ensures forall i, j | 0 <= i < j < |out| ::
              out[i].occurredAt > out[j].occurredAt || (out[i].occurredAt == out[j].occurredAt && out[i].id > out[j].id)
  {
    hide IdsIncrease;
    out := [];
    var left := set i: nat | i < |db.events| && db.events[i].contentId == contentId;
    while left != {} && |out| < limit
      invariant |out| <= limit
      invariant forall i | i in left :: i < |db.events| && db.events[i].contentId == contentId
      invariant forall i | 0 <= i < |out| :: out[i] in db.events && out[i].contentId == contentId
      invariant forall i, j | 0 <= i < j < |out| :: Newer(out[i], out[j])
      invariant forall i, k | 0 <= i < |out| && k in left :: Newer(out[i], db.events[k])
      invariant forall k: nat | k < |db.events| && db.events[k].contentId == contentId && k !in left :: db.events[k] in out
      decreases left
    {
      var n := NewestOf(db.events, left);
      left := left - {n};
      ghost var before := out;
      out := out + [db.events[n]];
      assert db.events[n] in out && forall e | e in before :: e in out;
    }
  }

  // ---------- the newest event and the current pointer ----------

  /** Event `n` is the last one of content `c` in the log. */
  ghost predicate LastOf(events: seq<Event>, c: string, n: nat) {
    n < |events| && events[n].contentId == c && forall e | n < e < |events| :: events[e].contentId != c
  }

  lemma {:induction false} ReplayIsLast(events: seq<Event>, c: string, n: nat)
    requires LastOf(events, c, n)
    ensures Replay(events, c) == if events[n].action == UnpublishAction then Pointer(None, None)
                                 else Pointer(events[n].versionId, Some(events[n].occurredAt))
    decreases |events|
  {
    if n < |events| - 1 {
      ReplayIsLast(events[..|events| - 1], c, n);
    }
  }

  lemma FirstListed(events: seq<Event>, c: string, limit: nat, out: seq<Event>, n: nat)
    requires IdsIncrease(events) && NewestFirst(events, c, limit, out) && 0 < limit && LastOf(events, c, n)
    ensures out != []
    ensures out[0] == events[n] <==>
              forall e | 0 <= e < |events| && events[e].contentId == c :: events[e].occurredAt <= events[n].occurredAt
  {
    assert events[n] in events;
    if out[0] == events[n] {
      forall e | 0 <= e < |events| && events[e].contentId == c
        ensures events[e].occurredAt <= events[n].occurredAt
      {
        assert events[e] in events;
        if events[e] in out {
          var i :| 0 <= i < |out| && out[i] == events[e];
        }
      }
    } else {
      var e :| 0 <= e < |events| && events[e] == out[0];
      assert e < n && events[e].id < events[n].id;
      if events[n] in out {
        var i :| 0 <= i < |out| && out[i] == events[n];
      }
    }
  }

  /** The last event of a content made its current pointer. The listing shows it first exactly
      when no event of the content carries a later time. */
  lemma NewestIsCurrentWhen(r: Run, indexed: bool, i: nat, c: string, n: nat, limit: nat, out: seq<Event>)
    requires IsRun(r, indexed) && i < |r.states| && LastOf(r.states[i].db.events, c, n)
    requires 0 < limit && NewestFirst(r.states[i].db.events, c, limit, out)
    ensures var db := r.states[i].db;
            && c in db.contents && out != []
            && PointerOf(db.contents[c]) == (if db.events[n].action == UnpublishAction then Pointer(None, None)
                                             else Pointer(db.events[n].versionId, Some(db.events[n].occurredAt)))
            && (out[0] == db.events[n] <==>
                  forall e | 0 <= e < |db.events| && db.events[e].contentId == c ::
                    db.events[e].occurredAt <= db.events[n].occurredAt)
  {
    hide StepOk, History, Ownership, Leases, ExactlyOnce, ProcessInv, SessionInv, IdsIncrease,
      NewestFirst, Effective, Replay;
    RunInv(r, indexed, i);
    FirstListed(r.states[i].db.events, c, limit, out, n);
    ReplayIsLast(r.states[i].db.events, c, n);
  }
}
