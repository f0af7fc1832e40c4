/** From what was written to what is served, over whole runs: the fields an edit stored are those
    that every public query hands out once their version is published, in the promised order,
    and nothing is handed out before or after. */
module Delivery {
  import opened Tables
  import opened Transactions
  import opened Invariants
  import opened Steps
  import opened Effects
  import opened RowHistory
  import opened Editing
  import opened Publishing
  import opened EntityTags
  import opened PublicView
  import opened Validators
  import opened Handlers
  import opened AdminView
  import opened Workers
  import opened Columns

  // ---------- what an edit stores ----------

  /** The step brings content `c` to version `n` with fields `g`, by creating or editing it. */
  ghost predicate Stores(s: State, a: Step, indexed: bool, c: string, n: int, g: VersionFields) {
    && (a.CreateContentStep? || a.UpdateContentStep? || a.OverwriteStep?) && Enabled(s, a) && a.fields == g
    && c in NextDb(s, a, indexed).contents && NextDb(s, a, indexed).contents[c].currentVersion == n
    && (c in s.db.contents ==> s.db.contents[c].currentVersion < n)
  }

  lemma StoredRow(s: State, a: Step, indexed: bool, c: string, n: int, g: VersionFields)
    requires Stores(s, a, indexed, c, n, g)
    ensures exists row | row in NextDb(s, a, indexed).versions ::
              && NextDb(s, a, indexed).versions[row].contentId == c
              && NextDb(s, a, indexed).versions[row].number == n
              && NextDb(s, a, indexed).versions[row].fields == g
  {
    hide HasVersion, SlugUsed;
    assert NextDb(s, a, indexed).versionSeq in NextDb(s, a, indexed).versions;
  }

  // ---------- what becomes public ----------

  /** The step takes effect and makes number `n` of content `c` public, by a request that looked
      that number up or by completing a schedule that pins it. */
  ghost predicate MakesPublic(s: State, a: Step, indexed: bool, c: string, n: int) {
    && Enabled(s, a) && c in s.db.contents
    && match a
       case PublishStep(sid, _, _, fate) =>
         && TakesEffect(fate) && s.sessions[sid].contentId == c && s.sessions[sid].number == n
         && s.db.contents[c].publishedVersionId != Some(s.sessions[sid].row)
       case CompleteStep(pid, _, _) =>
         && s.processes[pid].held[0].contentId == c
         && Completes(s, a, indexed, s.processes[pid].held[0].scheduleId)
         && s.processes[pid].held[0].versionId in s.db.versions
         && s.db.versions[s.processes[pid].held[0].versionId].number == n
       case _ => false
  }

  /** The step takes effect and publishes, withdraws or completes something of content `c`. */
  ghost predicate Repoints(s: State, a: Step, indexed: bool, c: string) {
    && Enabled(s, a) && c in s.db.contents
    && match a
       case PublishStep(sid, _, _, fate) =>
         && TakesEffect(fate) && s.sessions[sid].contentId == c
         && s.db.contents[c].publishedVersionId != Some(s.sessions[sid].row)
       case UnpublishStep(id, _, _, fate) =>
         TakesEffect(fate) && id == c && s.db.contents[c].publishedVersionId.Some?
       case CompleteStep(pid, _, _) =>
         s.processes[pid].held[0].contentId == c && Completes(s, a, indexed, s.processes[pid].held[0].scheduleId)
       case _ => false
  }

  lemma OtherStepsKeepPointer(s: State, a: Step, indexed: bool, c: string)
    requires SysInv(s) && Enabled(s, a) && c in s.db.contents && !Repoints(s, a, indexed, c)
    ensures c in NextDb(s, a, indexed).contents
    ensures PointerOf(NextDb(s, a, indexed).contents[c]) == PointerOf(s.db.contents[c])
  {
    hide SysInv, NextDb, Completes, HasVersion, IsBatch, JobsFor, Lookup;
    if a.PublishStep? {
      PublishMoves(s, a, indexed, c);
    } else if a.UnpublishStep? {
      UnpublishMoves(s, a, indexed, c);
    } else if a.CompleteStep? {
      CompleteMoves(s, a, indexed, c);
    } else {
      ContentEffects(s, a, indexed, c);
    }
  }

  /** Where a completion sets the pointer and the time. */
  lemma CompletionPoints(s: State, a: Step, indexed: bool, c: string)
    requires Enabled(s, a) && a.CompleteStep? && c in s.db.contents
    requires s.processes[a.pid].held[0].contentId == c
    requires Completes(s, a, indexed, s.processes[a.pid].held[0].scheduleId)
    ensures c in NextDb(s, a, indexed).contents
    ensures PointerOf(NextDb(s, a, indexed).contents[c])
         == Pointer(Some(s.processes[a.pid].held[0].versionId), Some(a.now))
  {
    hide HasEvent;
  }

  lemma PublicNow(s: State, a: Step, indexed: bool, c: string, n: int) returns (row: int)
    requires SysInv(s) && MakesPublic(s, a, indexed, c, n)
    ensures IsVersion(s.db.versions, row, c, n)
    ensures c in NextDb(s, a, indexed).contents
    ensures PointerOf(NextDb(s, a, indexed).contents[c]) == Pointer(Some(row), Some(StampOf(a)))
  {
    hide DbInv, NextDb, Completes, IsBatch, JobsFor, Lookup;
    if a.PublishStep? {
      row := s.sessions[a.sid].row;
      assert SessionInv(s.db, s.sessions[a.sid]);
      PublishMoves(s, a, indexed, c);
    } else {
      var job := s.processes[a.pid].held[0];
      row := job.versionId;
      HeldMatches(s, a.pid);
      ScheduleOwned(s.db, job.scheduleId);
      CompletionPoints(s, a, indexed, c);
    }
  }

  /** As long as nothing publishes, withdraws or completes anything of the content, what is
      public of it and since when stay the same, whatever else happens. */
  lemma {:induction false} PointerKept(r: Run, indexed: bool, i: nat, q: nat, c: string)
    requires IsRun(r, indexed) && i <= q < |r.states| && c in r.states[i].db.contents
    requires forall m: nat | i <= m < q :: !Repoints(r.states[m], r.steps[m], indexed, c)
    ensures c in r.states[q].db.contents
    ensures PointerOf(r.states[q].db.contents[c]) == PointerOf(r.states[i].db.contents[c])
    decreases q
  {
    hide SysInv, Enabled, NextDb, NextProcesses, NextSessions, Repoints;
    if i < q {
      PointerKept(r, indexed, i, q - 1, c);
      RunStep(r, indexed, q - 1);
      RunInv(r, indexed, q - 1);
      OtherStepsKeepPointer(r.states[q - 1], r.steps[q - 1], indexed, c);
    }
  }

  // ---------- served as written ----------

  lemma StoredIsTheVersion(r: Run, indexed: bool, i: nat, q: nat, c: string, n: int, g: VersionFields, row: int)
    requires IsRun(r, indexed) && i < q < |r.states| && Stores(r.states[i], r.steps[i], indexed, c, n, g)
    requires IsVersion(r.states[q].db.versions, row, c, n)
    ensures r.states[q].db.versions[row].fields == g
  {
    hide DbInv, Extends, NextProcesses, NextSessions, Enabled, Stores, NextDb, ProcessInv, SessionInv;
    RunStep(r, indexed, i);
    StoredRow(r.states[i], r.steps[i], indexed, c, n, g);
    var x, y := r.states[i + 1].db, r.states[q].db;
    RunExtends(r, indexed, i + 1, q);
    RunInv(r, indexed, q);
    VersionNumbersUnique(y);
    var first :| first in x.versions && x.versions[first].contentId == c && x.versions[first].number == n
                 && x.versions[first].fields == g;
    KeptVersion(x, y, first, c, n);
  }

  lemma ServesRow(db: Db, c: string, row: int, at: int)
    requires DbInv(db) && c in db.contents && row in db.versions
    requires PointerOf(db.contents[c]) == Pointer(Some(row), Some(at))
    ensures SlugsUnique(db.contents) && c in PublicIds(db)
    ensures GetReply(db, db.contents[c].slug, "")
         == Body(ContentETag(db.contents[c].updatedAt),
                 PublicContent(db.contents[c].slug, db.versions[row].fields, at, db.contents[c].updatedAt))
    ensures PublicContent(db.contents[c].slug, db.versions[row].fields, at, db.contents[c].updatedAt) in PublicList(db)
    ensures c in Indexable(db) <==> !db.versions[row].fields.noIndex
    ensures c in Indexable(db) ==> SitemapEntry(db.contents[c].slug, at) in Sitemap(db)
  {
    hide DbInv, Listing, NotModified;
    FoundBySlug(db, c);
    NoHeader(ContentETag(db.contents[c].updatedAt));
    ListingMembers(db, PublicIds(db));
    var ids := Listing(db, PublicIds(db));
    var i :| 0 <= i < |ids| && ids[i] == c;
    assert PublicList(db)[i] == PublicRow(db, c);
    ListingMembers(db, Indexable(db));
    if c in Indexable(db) {
      var marks := Listing(db, Indexable(db));
      var j :| 0 <= j < |marks| && marks[j] == c;
      assert Sitemap(db)[j] == EntryOf(db.contents[c]);
    }
  }

  lemma SlugAsCreated(r: Run, indexed: bool, i: nat, q: nat, c: string, n: int, g: VersionFields)
    requires IsRun(r, indexed) && i < q < |r.states| && Stores(r.states[i], r.steps[i], indexed, c, n, g)
    requires r.steps[i].CreateContentStep? && c !in r.states[i].db.contents
    ensures c in r.states[q].db.contents && r.states[q].db.contents[c].slug == r.steps[i].slug
  {
    hide Extends, NextDb, NextProcesses, NextSessions, Enabled, HasVersion, Completes, StepOk;
    RunStep(r, indexed, i);
    ContentEffects(r.states[i], r.steps[i], indexed, c);
    RunExtends(r, indexed, i + 1, q);
    SlugStays(r.states[i + 1].db, r.states[q].db, c);
  }

  /** The fields that step `i` stored as version `n` are served word for word from when step `j`
      made that version public until something else of the content is published or withdrawn:
      by slug, in the list, and in the sitemap unless they say noindex. The time shown is the
      reading of step `j`, the modification time that of the last step that wrote the row. */
  lemma ServedAsWritten(r: Run, indexed: bool, i: nat, j: nat, q: nat, c: string, n: int, g: VersionFields)
    requires IsRun(r, indexed) && i < q < |r.states| && j < q
    requires Stores(r.states[i], r.steps[i], indexed, c, n, g)
    requires MakesPublic(r.states[j], r.steps[j], indexed, c, n)
    requires forall m: nat | j < m < q :: !Repoints(r.states[m], r.steps[m], indexed, c)
    ensures var db, at := r.states[q].db, StampOf(r.steps[j]);
            && c in db.contents && SlugsUnique(db.contents)
            && var slug, updated := db.contents[c].slug, db.contents[c].updatedAt;
               && GetReply(db, slug, "") == Body(ContentETag(updated), PublicContent(slug, g, at, updated))
               && PublicContent(slug, g, at, updated) in PublicList(db)
               && (!g.noIndex ==> SitemapEntry(slug, at) in Sitemap(db))
               && (g.noIndex ==> c !in Indexable(db))
               && LastStamp(r, j, q, c, updated)
    ensures r.steps[i].CreateContentStep? && c !in r.states[i].db.contents ==>
              r.states[q].db.contents[c].slug == r.steps[i].slug
  {
    hide DbInv, Extends, NextDb, NextProcesses, NextSessions, Enabled, Stores, MakesPublic, Repoints, ProcessInv,
      GetReply, PublicList, Indexable, Sitemap, PublicIds, LastStamp, StepOk;
    RunStep(r, indexed, j);
    RunInv(r, indexed, j);
    RunInv(r, indexed, q);
    var row := PublicNow(r.states[j], r.steps[j], indexed, c, n);
    PointerKept(r, indexed, j + 1, q, c);
    RunExtends(r, indexed, j, q);
    VersionKept(r.states[j].db, r.states[q].db, row);
    StoredIsTheVersion(r, indexed, i, q, c, n, g, row);
    ServesRow(r.states[q].db, c, row, StampOf(r.steps[j]));
    LastStampIsUpdatedAt(r, indexed, j, q, c, r.states[q].db.contents[c].updatedAt);
    if r.steps[i].CreateContentStep? && c !in r.states[i].db.contents {
      SlugAsCreated(r, indexed, i, q, c, n, g);
    }
  }

  lemma HiddenRow(db: Db, c: string)
    requires DbInv(db) && c in db.contents && db.contents[c].publishedVersionId == None
    ensures SlugsUnique(db.contents) && GetReply(db, db.contents[c].slug, "") == NotThere && c !in PublicIds(db)
  {
    hide DbInv;
    FoundBySlug(db, c);
  }

  /** A content is not served at all before something of it is published first, or after it is
      withdrawn until something is published again. */
  lemma HiddenUntilPublished(r: Run, indexed: bool, i: nat, q: nat, c: string)
    requires IsRun(r, indexed) && i < q < |r.states| && c in r.states[i + 1].db.contents
    requires c !in r.states[i].db.contents || (r.steps[i].UnpublishStep? && Repoints(r.states[i], r.steps[i], indexed, c))
    requires forall m: nat | i < m < q :: !Repoints(r.states[m], r.steps[m], indexed, c)
    ensures var db := r.states[q].db;
            && c in db.contents && SlugsUnique(db.contents) && c !in PublicIds(db)
            && GetReply(db, db.contents[c].slug, "") == NotThere
  {
    hide DbInv, NextDb, NextProcesses, NextSessions, HasVersion, Completes, ProcessInv, SessionInv, GetReply, PublicIds,
      StepOk, IsBatch, JobsFor;
    RunStep(r, indexed, i);
    RunInv(r, indexed, i);
    RunInv(r, indexed, q);
    if c !in r.states[i].db.contents {
      ContentEffects(r.states[i], r.steps[i], indexed, c);
    } else {
      UnpublishMoves(r.states[i], r.steps[i], indexed, c);
    }
    assert r.states[i + 1].db.contents[c].publishedVersionId == None;
    PointerKept(r, indexed, i + 1, q, c);
    HiddenRow(r.states[q].db, c);
  }

  // ---------- the order of the lists ----------

  /** `a` comes before `b` in the byte order of strings: it is a proper prefix, or smaller at the
      first place where they differ. */
  ghost predicate Precedes(a: string, b: string) {
    exists n: nat :: n <= |a| && n < |b| && a[..n] == b[..n] && (n == |a| || a[n] < b[n])
  }

  lemma {:induction false} StringLessMeans(a: string, b: string)
    ensures StringLess(a, b) <==> Precedes(a, b)
    decreases |a|
  {
    if a == [] {
      assert b != [] ==> a[..0] == b[..0];
    } else if b != [] && a[0] == b[0] {
      StringLessMeans(a[1..], b[1..]);
      if n: nat :| n <= |a[1..]| && n < |b[1..]| && a[1..][..n] == b[1..][..n] && (n == |a[1..]| || a[1..][n] < b[1..][n]) {
        assert a[..n + 1] == [a[0]] + a[1..][..n] && b[..n + 1] == [b[0]] + b[1..][..n];
      }
      if n: nat :| n <= |a| && n < |b| && a[..n] == b[..n] && (n == |a| || a[n] < b[n]) {
        assert n > 0;
        assert a[1..][..n - 1] == a[..n][1..] && b[1..][..n - 1] == b[..n][1..];
      }
    } else if b != [] {
      assert forall n: nat | 0 < n <= |a| && n <= |b| :: a[..n][0] == a[0] && b[..n][0] == b[0];
      if a[0] < b[0] {
        assert a[..0] == b[..0];
      }
      if n: nat :| n <= |a| && n < |b| && a[..n] == b[..n] && (n == |a| || a[n] < b[n]) {
        assert n == 0;
      }
    }
  }

  /** Content `a` is listed before content `b`: it was published later, or at the same time and
      has the greater id. */
  ghost predicate ListedBefore(db: Db, a: string, b: string)
    requires a in db.contents && b in db.contents
  {
    match (db.contents[a].publishedAt, db.contents[b].publishedAt)
    case (Some(x), Some(y)) => x > y || (x == y && Precedes(b, a))
    case _ => false
  }

  lemma BeforeMeans(db: Db, a: string, b: string)
    requires a in db.contents && b in db.contents
    requires db.contents[a].publishedAt.Some? && db.contents[b].publishedAt.Some?
    ensures Before(db, a, b) <==> ListedBefore(db, a, b)
  {
    StringLessMeans(b, a);
  }

  lemma ListingOrder(db: Db, ids: set<string>, i: nat, j: nat)
    requires DbInv(db) && ids <= PublicIds(db) && i < |Listing(db, ids)| && j < |Listing(db, ids)|
    ensures Listing(db, ids)[i] in ids && Listing(db, ids)[j] in ids
    ensures i < j <==> ListedBefore(db, Listing(db, ids)[i], Listing(db, ids)[j])
  {
    hide DbInv, Listing, Before, ListedBefore;
    ListingIsSorted(db, ids);
    var a, b := Listing(db, ids)[i], Listing(db, ids)[j];
    assert a in ids && b in ids;
    PublishedHasTime(db, a);
    PublishedHasTime(db, b);
    BeforeMeans(db, a, b);
    BeforeIsOrder(db, a, b, a);
    BeforeIsOrder(db, b, a, b);
  }

  /** A page of the public list: row number `x` is document `ids[x]`, with the slug, the times and
      the fields of its published version; the latest publish comes first, the greater id first
      among equal times; the pages before hold just the documents that come before, and the
      whole list every published document. */
  lemma NewestPublishComesFirst(db: Db, limit: nat, offset: nat) returns (ids: seq<string>)
    requires DbInv(db)
    ensures var out := Page(PublicList(db), limit, offset);
            && |ids| == |out|
            && (forall x | 0 <= x < |out| ::
                  && ids[x] in db.contents
                  && var c := db.contents[ids[x]];
                     && c.publishedVersionId.Some? && c.publishedVersionId.value in db.versions && c.publishedAt.Some?
                     && out[x] == PublicContent(c.slug, db.versions[c.publishedVersionId.value].fields,
                                                c.publishedAt.value, c.updatedAt))
            && (forall x, y | 0 <= x < |out| && 0 <= y < |out| ::
                  x < y <==> out[x].publishedAt > out[y].publishedAt
                             || (out[x].publishedAt == out[y].publishedAt && Precedes(ids[y], ids[x])))
    ensures |PublicList(db)| == |set c | c in db.contents && db.contents[c].publishedVersionId.Some?
                                         && db.contents[c].publishedVersionId.value in db.versions|
  {
    hide DbInv, Listing, Precedes;
    assert PublicIds(db) == set c | c in db.contents && db.contents[c].publishedVersionId.Some?
                                    && db.contents[c].publishedVersionId.value in db.versions;
    ListingIsPublic(db);
    ListingMembers(db, PublicIds(db));
    var all := Listing(db, PublicIds(db));
    ids := Page(all, limit, offset);
    var out := Page(PublicList(db), limit, offset);
    forall x | 0 <= x < |out|
      ensures ids[x] == all[offset + x] && ids[x] in PublicIds(db) && out[x] == PublicRow(db, ids[x])
      ensures db.contents[ids[x]].publishedAt.Some?
    {
      assert all[offset + x] in PublicIds(db);
      PublishedHasTime(db, ids[x]);
    }
    forall x: nat, y: nat | x < |out| && y < |out|
      ensures x < y <==> ListedBefore(db, ids[x], ids[y])
    {
      ListingOrder(db, PublicIds(db), offset + x, offset + y);
    }
  }

  /** The answer to a list request without a cached copy: the rows of the list from the offset
      on, at most the limit, the number of all published documents, and the quoted MAX. */
  lemma ListReplyMeans(rows: Db, counted: Db, stamped: Db, w: Window)
    ensures var list, reply := PublicList(rows), ListReply(rows, counted, stamped, w, "");
            && reply.Body? && reply.etag == "\"" + FormatInt(LatestPublishedAt(stamped)) + "\""
            && reply.value.total == |PublicList(counted)|
            && reply.value.items == (if |list| <= w.offset then []
                                     else if |list| <= w.offset + w.limit then list[w.offset..]
                                     else list[w.offset..w.offset + w.limit])
  {
    hide Listing, NotModified, PublicRow, LatestPublishedAt;
    NoHeader(ContentETag(LatestPublishedAt(stamped)));
  }

  /** The sitemap: the published documents that do not say noindex, in the same order, with the
      time of their publish. */
  lemma SitemapMeans(db: Db, limit: nat) returns (ids: seq<string>)
    requires DbInv(db)
    ensures var out := Page(Sitemap(db), limit, 0);
            && |ids| == |out|
            && (forall x | 0 <= x < |out| ::
                  && ids[x] in db.contents
                  && var c := db.contents[ids[x]];
                     && c.publishedVersionId.Some? && c.publishedVersionId.value in db.versions && c.publishedAt.Some?
                     && !db.versions[c.publishedVersionId.value].fields.noIndex
                     && out[x] == SitemapEntry(c.slug, c.publishedAt.value))
            && (forall x, y | 0 <= x < |out| && 0 <= y < |out| ::
                  x < y <==> out[x].lastModified > out[y].lastModified
                             || (out[x].lastModified == out[y].lastModified && Precedes(ids[y], ids[x])))
    ensures |Sitemap(db)| == |set c | c in db.contents && db.contents[c].publishedVersionId.Some?
                                      && db.contents[c].publishedVersionId.value in db.versions
                                      && !db.versions[db.contents[c].publishedVersionId.value].fields.noIndex|
  {
    hide DbInv, Listing, Precedes;
    ListingMembers(db, Indexable(db));
    var all := Listing(db, Indexable(db));
    ids := Page(all, limit, 0);
    var out := Page(Sitemap(db), limit, 0);
    forall x | 0 <= x < |out|
      ensures ids[x] == all[x] && ids[x] in Indexable(db) && out[x] == EntryOf(db.contents[ids[x]])
      ensures db.contents[ids[x]].publishedAt.Some?
    {
      assert all[x] in Indexable(db);
      PublishedHasTime(db, ids[x]);
    }
    forall x: nat, y: nat | x < |out| && y < |out|
      ensures x < y <==> ListedBefore(db, ids[x], ids[y])
    {
      ListingOrder(db, Indexable(db), x, y);
    }
    assert Indexable(db) == set c | c in db.contents && db.contents[c].publishedVersionId.Some?
                                    && db.contents[c].publishedVersionId.value in db.versions
                                    && !db.versions[db.contents[c].publishedVersionId.value].fields.noIndex;
  }

  // ---------- requests over a run ----------

  /** A request to schedule number `n` of content `c`, looked up at step `i` and written at step
      `j` with a commit that is reported, is accepted exactly if the id is unused and the content
      has no pending or claimed schedule then; its row pins that version and run_at. */
  lemma ScheduleRequestSucceedsWhen(r: Run, indexed: bool, i: nat, j: nat, sid: nat, c: string, n: int)
    requires IsRun(r, indexed) && i < j < |r.steps|
    requires r.steps[i].ReadForScheduleStep? && r.steps[i].sid == sid && r.steps[i].contentId == c
    requires r.steps[i].number == n && r.steps[i].found.Some?
    requires forall m: nat | i < m < j :: !(r.steps[m].CreateScheduleStep? && r.steps[m].sid == sid)
    requires r.steps[j].CreateScheduleStep? && r.steps[j].sid == sid && r.steps[j].fate == Lands
    ensures var a, q, x, y := r.steps[j], r.steps[i], r.states[j].db, r.states[j + 1].db;
            var result := Tx(a.fate, x, ScheduleNumber(x, a.id, c, n, q.runAt, q.now)).result;
            var free := a.id !in x.schedules && forall k | k in x.schedules && x.schedules[k].contentId == c ::
                          x.schedules[k].status != Pending && x.schedules[k].status != Claimed;
            && (result.Ok? <==> free) && (result == Err(ScheduleExists) <==> !free)
            && (!free ==> y == x)
            && (free ==>
                  exists row | row in x.versions && x.versions[row].contentId == c && x.versions[row].number == n ::
                    y == x.(schedules := x.schedules[a.id :=
                           Schedule(a.id, c, row, q.runAt, Pending, 0, None, None, "", q.now, q.now)]))
  {
    hide NextDb, NextProcesses, NextSessions, ScheduleNumber, CreateSchedule, StepOk, DbInv, ProcessInv;
    ScheduleRequestIsAtomic(r, indexed, i, j, sid, c, n);
    RunStep(r, indexed, j);
    RunInv(r, indexed, j);
    var x, a, q := r.states[j].db, r.steps[j], r.steps[i];
    var row := q.found.value;
    assert SessionInv(x, r.states[j].sessions[sid]);
    CreateScheduleMeans(x, a.id, c, row, q.runAt, q.now);
  }

  /** The same for a request to publish: it never fails once the version was found; afterwards
      that version is public, and if it was not before, since the reading of the request, with
      one event that names the version and the actor. */
  lemma PublishRequestPublishes(r: Run, indexed: bool, i: nat, j: nat, sid: nat, c: string, n: int)
    requires IsRun(r, indexed) && i < j < |r.steps|
    requires r.steps[i].ReadForPublishStep? && r.steps[i].sid == sid && r.steps[i].contentId == c
    requires r.steps[i].number == n && r.steps[i].found.Some?
    requires forall m: nat | i < m < j :: !(r.steps[m].PublishStep? && r.steps[m].sid == sid)
    requires r.steps[j].PublishStep? && r.steps[j].sid == sid && r.steps[j].fate == Lands
    ensures var a, x, y := r.steps[j], r.states[j].db, r.states[j + 1].db;
            exists row ::
              && row in x.versions && x.versions[row].contentId == c && x.versions[row].number == n
              && c in x.contents && c in y.contents && y.contents[c].publishedVersionId == Some(row)
              && Tx(a.fate, x, PublishNumber(x, c, n, a.actor, a.now, indexed)).result == Ok(y.contents[c])
              && if x.contents[c].publishedVersionId == Some(row) then y == x
                 else
                   && y.contents[c].publishedAt == Some(a.now) && y.contents[c].updatedAt == a.now
                   && y.events != [] && y.events[..|y.events| - 1] == x.events
                   && y.events[|y.events| - 1] == Event(y.eventSeq, c, Some(row), PublishAction, Manual, None, a.actor, a.now)
  {
    hide NextDb, NextProcesses, NextSessions, PublishNumber, Publish, StepOk, ProcessInv, History, Leases, ExactlyOnce, Audit,
      KeysOk, SlugsUnique, NumbersUnique, OneActive, Ownership;
    PublishRequestIsAtomic(r, indexed, i, j, sid, c, n);
    RunStep(r, indexed, j);
    RunInv(r, indexed, j);
    var x, a := r.states[j].db, r.steps[j];
    var row := r.steps[i].found.value;
    assert SessionInv(x, r.states[j].sessions[sid]);
    PublishMeans(x, PublishParams(c, row, Manual, a.actor, None, a.now), indexed);
    assert row in x.versions && x.versions[row].contentId == c && x.versions[row].number == n;
  }
}
