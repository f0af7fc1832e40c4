/** The admin view of a content, its tag, and exactly when one tag covers two different views. */
module AdminView {
  import opened Tables
  import opened Transactions
  import opened Invariants
  import opened Steps
  import opened Effects
  import opened RowHistory
  import opened Editing
  import opened EntityTags
  import opened Validators
  import opened Handlers
  import opened Publishing
  import opened Storage

  datatype ViewStatus = DraftOnly | Live | LiveWithDraft

  datatype VersionView = VersionView(number: int, fields: VersionFields, createdBy: string, createdAt: int)

  datatype ContentView = ContentView(
    id: string, slug: string, version: int, status: ViewStatus, publishedAt: Option<int>,
    createdAt: int, updatedAt: int, draft: VersionView, publishedVersion: Option<int>)

  /** The version number behind the published pointer. */
  function PublishedNumber(versions: map<int, Version>, c: Content): Option<int> {
    if c.publishedVersionId.Some? && c.publishedVersionId.value in versions
    then Some(versions[c.publishedVersionId.value].number) else None
  }

  function StatusOf(c: Content, published: Option<int>): ViewStatus {
    if c.publishedVersionId.None? then DraftOnly
    else if published.Some? && published.value != c.currentVersion then LiveWithDraft
    else Live
  }

  function VersionViewOf(v: Version): VersionView {
    VersionView(v.number, v.fields, v.createdBy, v.createdAt)
  }

  function ViewOf(c: Content, draft: Version, published: Option<int>): ContentView {
    ContentView(c.id, c.slug, c.currentVersion, StatusOf(c, published), c.publishedAt,
                c.createdAt, c.updatedAt, VersionViewOf(draft), published)
  }

  /** The response to a GET of the admin view: the join with the current version, then the number
      of the published version. */
  ghost function AdminResponse(db: Db, c: string): ContentView
    requires c in db.contents && HasVersion(db.versions, c, db.contents[c].currentVersion)
  {
    var row :| row in db.versions && IsVersion(db.versions, row, c, db.contents[c].currentVersion);
    ViewOf(db.contents[c], db.versions[row], PublishedNumber(db.versions, db.contents[c]))
  }

  /** The second query may run in a later state; the number it finds is the same. */
  lemma SecondQueryCannotTear(seen: Db, later: Db, c: string)
    requires DbInv(seen) && Extends(seen, later) && c in seen.contents
    ensures PublishedNumber(later.versions, seen.contents[c]) == PublishedNumber(seen.versions, seen.contents[c])
  {
    hide History, Leases, ExactlyOnce, Audit, KeysOk, SlugsUnique, NumbersUnique, OneActive, ForeignKeysOk;
    assert seen.contents[c].publishedVersionId.Some? ==>
        Owns(seen.versions, c, seen.contents[c].publishedVersionId.value);
  }

  lemma TheDraft(db: Db, c: string, row: int)
    requires DbInv(db) && c in db.contents && IsVersion(db.versions, row, c, db.contents[c].currentVersion)
    ensures HasVersion(db.versions, c, db.contents[c].currentVersion)
    ensures AdminResponse(db, c)
         == ViewOf(db.contents[c], db.versions[row], PublishedNumber(db.versions, db.contents[c]))
  {
    hide DbInv;
    VersionNumbersUnique(db);
  }

  lemma PointerOwned(db: Db, c: string)
    requires DbInv(db) && c in db.contents && db.contents[c].publishedVersionId.Some?
    ensures Owns(db.versions, c, db.contents[c].publishedVersionId.value)
  {
    hide SchemaOk, History, Leases, ExactlyOnce, Audit, Owns;
  }

  /** Every field of the admin response. */
  lemma AdminResponseMeans(db: Db, c: string)
    requires DbInv(db) && c in db.contents
    ensures HasVersion(db.versions, c, db.contents[c].currentVersion)
    ensures var b, view := db.contents[c], AdminResponse(db, c);
            && (exists d | d in db.versions ::
                  && db.versions[d].contentId == c && db.versions[d].number == b.currentVersion
                  && view.draft == VersionView(b.currentVersion, db.versions[d].fields, db.versions[d].createdBy,
                                               db.versions[d].createdAt))
            && view == ContentView(b.id, b.slug, b.currentVersion, view.status, b.publishedAt, b.createdAt, b.updatedAt,
                                   view.draft, view.publishedVersion)
            && match b.publishedVersionId
               case None => view.status == DraftOnly && view.publishedVersion == None
               case Some(p) =>
                 && p in db.versions && db.versions[p].contentId == c
                 && view.publishedVersion == Some(db.versions[p].number)
                 && view.status == if db.versions[p].number == b.currentVersion then Live else LiveWithDraft
  {
    hide DbInv;
    PositiveVersion(db, c);
    var row :| row in db.versions && IsVersion(db.versions, row, c, db.contents[c].currentVersion);
    TheDraft(db, c, row);
    if db.contents[c].publishedVersionId.Some? {
      PointerOwned(db, c);
    }
  }

  /** The tag and the view of a content, or None for 404. `later` is the state of the second
      query. */
  method HandleGetContent(store: Store, id: string, later: Db) returns (r: Option<(string, ContentView)>)
    requires store.Valid() && DbInv(store.Db()) && Extends(store.Db(), later)
    ensures r.Some? <==> id in store.contents
    ensures r.Some? ==> HasVersion(store.versions, id, store.contents[id].currentVersion)
                        && r.value == (FormatETag(store.contents[id].currentVersion), AdminResponse(store.Db(), id))
  {
    hide DbInv, Extends, AdminResponse, SlugsUnique, NumbersUnique, OneActive, OneEventEach, ForeignKeysOk;
    var cwv := store.GetContentWithCurrentVersion(id);
    if id in store.contents {
      PositiveVersion(store.Db(), id);
    }
    if cwv.Err? {
      return None;
    }
    SecondQueryCannotTear(store.Db(), later, id);
    TheDraft(store.Db(), id, cwv.value.version.id);
    var c := cwv.value.content;
    r := Some((FormatETag(c.currentVersion), ViewOf(c, cwv.value.version, PublishedNumber(later.versions, c))));
  }

  // ---------- the view and the row ----------

  lemma SameNumberSameRow(versions: map<int, Version>, c: string, a: int, b: int)
    requires NumbersUnique(versions) && Owns(versions, c, a) && Owns(versions, c, b)
    requires versions[a].number == versions[b].number
    ensures a == b
  {
  }

  lemma VersionKept(x: Db, y: Db, row: int)
    requires Extends(x, y) && row in x.versions
    ensures row in y.versions && y.versions[row] == x.versions[row]
  {
  }

  lemma SamePointer(x: Db, y: Db, c: string)
    requires DbInv(x) && DbInv(y) && Extends(x, y) && c in x.contents && c in y.contents
    requires PublishedNumber(x.versions, x.contents[c]) == PublishedNumber(y.versions, y.contents[c])
    ensures x.contents[c].publishedVersionId == y.contents[c].publishedVersionId
  {
    hide DbInv, Extends;
    if x.contents[c].publishedVersionId.Some? {
      PointerOwned(x, c);
      VersionKept(x, y, x.contents[c].publishedVersionId.value);
    }
    if y.contents[c].publishedVersionId.Some? {
      PointerOwned(y, c);
    }
    if x.contents[c].publishedVersionId.Some? && y.contents[c].publishedVersionId.Some? {
      VersionNumbersUnique(y);
      SameNumberSameRow(y.versions, c, x.contents[c].publishedVersionId.value, y.contents[c].publishedVersionId.value);
    }
  }

  lemma SlugAndBirthKept(x: Db, y: Db, c: string)
    requires Extends(x, y) && c in x.contents
    ensures c in y.contents && ContentGrows(x.contents[c], y.contents[c])
  {
  }

  /** At one version number, equal views mean equal content rows and the other way round. */
  lemma ViewIsRow(x: Db, y: Db, c: string)
    requires DbInv(x) && DbInv(y) && Extends(x, y) && c in x.contents && c in y.contents
    requires x.contents[c].currentVersion == y.contents[c].currentVersion
    ensures HasVersion(x.versions, c, x.contents[c].currentVersion)
    ensures HasVersion(y.versions, c, y.contents[c].currentVersion)
    ensures AdminResponse(x, c) == AdminResponse(y, c) <==> x.contents[c] == y.contents[c]
    ensures AdminResponse(x, c).draft == AdminResponse(y, c).draft
  {
    hide DbInv, Extends;
    PositiveVersion(x, c);
    PositiveVersion(y, c);
    VersionNumbersUnique(y);
    SlugAndBirthKept(x, y, c);
    var n := x.contents[c].currentVersion;
    forall row | IsVersion(x.versions, row, c, n)
      ensures row in y.versions && y.versions[row] == x.versions[row]
      ensures forall q | q in y.versions && IsVersion(y.versions, q, c, n) :: q == row
    {
      KeptVersion(x, y, row, c, n);
    }
    if x.contents[c] == y.contents[c] {
      SecondQueryCannotTear(x, y, c);
    }
    if PublishedNumber(x.versions, x.contents[c]) == PublishedNumber(y.versions, y.contents[c]) {
      SamePointer(x, y, c);
    }
  }

  // ---------- one step ----------

  /** What a publish, an unpublish or a completion leaves in a content row. */
  datatype Mark = Mark(version: Option<int>, at: Option<int>, stamp: int)

  function MarkOf(c: Content): Mark {
    Mark(c.publishedVersionId, c.publishedAt, c.updatedAt)
  }

  /** The step is a publish, unpublish or completion of `c` whose transaction takes effect and
      leaves another pointer, publish time or stamp than it found. */
  ghost predicate MovesMark(s: State, a: Step, indexed: bool, c: string)
    requires Enabled(s, a) && c in s.db.contents
  {
    var row := s.db.contents[c];
    match a
    case PublishStep(sid, _, _, fate) =>
      TakesEffect(fate) && s.sessions[sid].contentId == c && row.publishedVersionId != Some(s.sessions[sid].row)
    case UnpublishStep(id, _, _, fate) =>
      TakesEffect(fate) && id == c && row.publishedVersionId.Some?
    case CompleteStep(pid, now, _) =>
      && Completes(s, a, indexed, s.processes[pid].held[0].scheduleId) && s.processes[pid].held[0].contentId == c
      && MarkOf(row) != Mark(Some(s.processes[pid].held[0].versionId), Some(now), now)
    case _ => false
  }

  /** The mark such a step leaves. */
  ghost function MarkLeft(s: State, a: Step): Mark
    requires Enabled(s, a) && (a.PublishStep? || a.UnpublishStep? || a.CompleteStep?)
  {
    match a
    case PublishStep(sid, _, now, _) => Mark(Some(s.sessions[sid].row), Some(now), now)
    case UnpublishStep(_, _, now, _) => Mark(None, None, now)
    case CompleteStep(pid, now, _) => Mark(Some(s.processes[pid].held[0].versionId), Some(now), now)
  }

  lemma PublishMoves(s: State, a: Step, indexed: bool, c: string)
    requires SysInv(s) && Enabled(s, a) && a.PublishStep? && c in s.db.contents
    ensures c in NextDb(s, a, indexed).contents
    ensures NextDb(s, a, indexed).contents[c] != s.db.contents[c] <==> MovesMark(s, a, indexed, c)
    ensures MovesMark(s, a, indexed, c) ==> MarkOf(NextDb(s, a, indexed).contents[c]) == MarkLeft(s, a)
  {
    hide DbInv, ProcessInv, HasEvent;
    assert SessionInv(s.db, s.sessions[a.sid]);
  }

  lemma UnpublishMoves(s: State, a: Step, indexed: bool, c: string)
    requires Enabled(s, a) && a.UnpublishStep? && c in s.db.contents
    ensures c in NextDb(s, a, indexed).contents
    ensures NextDb(s, a, indexed).contents[c] != s.db.contents[c] <==> MovesMark(s, a, indexed, c)
    ensures MovesMark(s, a, indexed, c) ==> MarkOf(NextDb(s, a, indexed).contents[c]) == MarkLeft(s, a)
  {
  }

  lemma CompleteMoves(s: State, a: Step, indexed: bool, c: string)
    requires Enabled(s, a) && a.CompleteStep? && c in s.db.contents
    ensures c in NextDb(s, a, indexed).contents
    ensures NextDb(s, a, indexed).contents[c] != s.db.contents[c] <==> MovesMark(s, a, indexed, c)
    ensures MovesMark(s, a, indexed, c) ==> MarkOf(NextDb(s, a, indexed).contents[c]) == MarkLeft(s, a)
  {
    hide HasEvent;
  }

  /** A step that keeps the version number, and so the tag, changes the row exactly when it is
      one of these. */
  lemma MarkStep(s: State, a: Step, indexed: bool, c: string)
    requires SysInv(s) && Enabled(s, a) && c in s.db.contents && c in NextDb(s, a, indexed).contents
    requires NextDb(s, a, indexed).contents[c].currentVersion == s.db.contents[c].currentVersion
    ensures NextDb(s, a, indexed).contents[c] != s.db.contents[c] <==> MovesMark(s, a, indexed, c)
    ensures MovesMark(s, a, indexed, c) ==> MarkOf(NextDb(s, a, indexed).contents[c]) == MarkLeft(s, a)
  {
    hide SysInv, Enabled, NextDb, Completes, HasVersion;
    if a.PublishStep? {
      PublishMoves(s, a, indexed, c);
    } else if a.UnpublishStep? {
      UnpublishMoves(s, a, indexed, c);
    } else if a.CompleteStep? {
      CompleteMoves(s, a, indexed, c);
    } else {
      ContentEffects(s, a, indexed, c);
    }
  }

  /** So it changes the admin response under an unchanged tag exactly then. */
  lemma AdminViewStep(s: State, a: Step, indexed: bool, c: string)
    requires SysInv(s) && Enabled(s, a) && c in s.db.contents && c in NextDb(s, a, indexed).contents
    requires FormatETag(NextDb(s, a, indexed).contents[c].currentVersion) == FormatETag(s.db.contents[c].currentVersion)
    ensures HasVersion(s.db.versions, c, s.db.contents[c].currentVersion)
    ensures HasVersion(NextDb(s, a, indexed).versions, c, NextDb(s, a, indexed).contents[c].currentVersion)
    ensures AdminResponse(NextDb(s, a, indexed), c) != AdminResponse(s.db, c) <==> MovesMark(s, a, indexed, c)
  {
    hide DbInv, ProcessInv, SessionInv, Extends, Enabled, NextDb, MovesMark, AdminResponse, Quoted, FormatInt;
    StepSafe(s, a, indexed);
    TagsTellStampsApart(NextDb(s, a, indexed).contents[c].currentVersion, s.db.contents[c].currentVersion);
    ViewIsRow(s.db, NextDb(s, a, indexed), c);
    MarkStep(s, a, indexed, c);
  }

  // ---------- whole runs ----------

  lemma VersionBetween(r: Run, indexed: bool, i: nat, m: nat, j: nat, c: string)
    requires IsRun(r, indexed) && i <= m <= j < |r.states| && c in r.states[i].db.contents
    requires c in r.states[j].db.contents
    requires r.states[i].db.contents[c].currentVersion == r.states[j].db.contents[c].currentVersion
    ensures c in r.states[m].db.contents
    ensures r.states[m].db.contents[c].currentVersion == r.states[i].db.contents[c].currentVersion
  {
    hide IsRun;
    VersionsNeverFall(r, indexed, i, m, c);
    VersionsNeverFall(r, indexed, m, j, c);
  }

  /** Between two states with one tag the steps that rewrite the row are those that move its
      mark, and each leaves the mark it says. */
  lemma RewritesAreMoves(r: Run, indexed: bool, i: nat, m: nat, j: nat, c: string)
    requires IsRun(r, indexed) && i <= m < j < |r.states| && c in r.states[i].db.contents
    requires c in r.states[j].db.contents
    requires r.states[i].db.contents[c].currentVersion == r.states[j].db.contents[c].currentVersion
    ensures c in r.states[m].db.contents && c in r.states[m + 1].db.contents && Enabled(r.states[m], r.steps[m])
    ensures RewritesAt(r, m, c) <==> MovesMark(r.states[m], r.steps[m], indexed, c)
    ensures RewritesAt(r, m, c) ==>
              && (r.steps[m].PublishStep? || r.steps[m].UnpublishStep? || r.steps[m].CompleteStep?)
              && MarkOf(r.states[m + 1].db.contents[c]) == MarkLeft(r.states[m], r.steps[m])
  {
    hide SysInv, Enabled, NextDb, NextProcesses, NextSessions, Completes;
    VersionBetween(r, indexed, i, m, j, c);
    VersionBetween(r, indexed, i, m + 1, j, c);
    RunStep(r, indexed, m);
    RunInv(r, indexed, m);
    MarkStep(r.states[m], r.steps[m], indexed, c);
  }

  lemma SameMarkSameRow(x: Db, y: Db, c: string)
    requires Extends(x, y) && c in x.contents && c in y.contents
    requires x.contents[c].currentVersion == y.contents[c].currentVersion
    ensures x.contents[c] == y.contents[c] <==> MarkOf(x.contents[c]) == MarkOf(y.contents[c])
  {
    assert ContentGrows(x.contents[c], y.contents[c]);
  }

  /** The exact limit of the admin tag over runs. Two states with one tag have the same draft, and
      the same response exactly when no step in between moved the content's mark, or the last one
      that did left the mark there was at first. */
  lemma AdminTagIsExact(r: Run, indexed: bool, i: nat, j: nat, c: string)
    requires IsRun(r, indexed) && i <= j < |r.states|
    requires c in r.states[i].db.contents && c in r.states[j].db.contents
    requires FormatETag(r.states[i].db.contents[c].currentVersion) == FormatETag(r.states[j].db.contents[c].currentVersion)
    ensures var x, y := r.states[i].db, r.states[j].db;
            && HasVersion(x.versions, c, x.contents[c].currentVersion)
            && HasVersion(y.versions, c, y.contents[c].currentVersion)
            && AdminResponse(x, c).draft == AdminResponse(y, c).draft
            && (AdminResponse(x, c) == AdminResponse(y, c) <==>
                  forall m: nat | LastRewrite(r, i, j, c, m) ::
                    && Enabled(r.states[m], r.steps[m])
                    && (r.steps[m].PublishStep? || r.steps[m].UnpublishStep? || r.steps[m].CompleteStep?)
                    && MarkLeft(r.states[m], r.steps[m]) == MarkOf(x.contents[c]))
    ensures forall m: nat | i <= m < j ::
              && c in r.states[m].db.contents && Enabled(r.states[m], r.steps[m])
              && (RewritesAt(r, m, c) <==> MovesMark(r.states[m], r.steps[m], indexed, c))
  {
    hide DbInv, Extends, ProcessInv, SessionInv, Enabled, MovesMark, MarkLeft, AdminResponse, Quoted, FormatInt,
      StepOk, RewritesAt, Untouched;
    var x, y := r.states[i].db, r.states[j].db;
    TagsTellStampsApart(x.contents[c].currentVersion, y.contents[c].currentVersion);
    RunInv(r, indexed, i);
    RunInv(r, indexed, j);
    RunExtends(r, indexed, i, j);
    ViewIsRow(x, y, c);
    SameMarkSameRow(x, y, c);
    forall m: nat | i <= m < j
      ensures c in r.states[m].db.contents && Enabled(r.states[m], r.steps[m])
      ensures RewritesAt(r, m, c) <==> MovesMark(r.states[m], r.steps[m], indexed, c)
    {
      RewritesAreMoves(r, indexed, i, m, j, c);
    }
    forall m: nat | LastRewrite(r, i, j, c, m)
      ensures Enabled(r.states[m], r.steps[m])
      ensures r.steps[m].PublishStep? || r.steps[m].UnpublishStep? || r.steps[m].CompleteStep?
      ensures MarkLeft(r.states[m], r.steps[m]) == MarkOf(y.contents[c])
    {
      RewritesAreMoves(r, indexed, i, m, j, c);
      LastRewriteLeaves(r, indexed, i, j, c, m);
    }
    if Untouched(r, i, j, c) {
      RowKept(r, i, j, c);
    } else {
      var m := FindLastRewrite(r, i, j, c);
    }
  }
}
