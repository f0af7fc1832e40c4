/** The HTTP handlers over the store: the edit behind If-Match, pagination, and the public reads
    with their conditional answers. Routing, authentication and encoding are left out. */
module Handlers {
  import opened Tables
  import opened Transactions
  import opened Invariants
  import opened Storage
  import opened Schema
  import opened Workers
  import opened Fields
  import opened RowHistory
  import opened Steps
  import opened Effects
  import opened Editing
  import opened EntityTags
  import opened PublicView
  import opened Validators

  /** `etag` is the ETag header of a success, or the tag a 412 offers in its details. */
  datatype Reply = Reply(status: int, etag: Option<string>)

  /** `later` is the state in which the details of a conflict are read. */
  function DomainReply(later: Db, id: string, e: Error): Reply {
    match e
    case NotFound => Reply(404, None)
    case VersionConflict =>
      Reply(412, if id in later.contents then Some(FormatETag(later.contents[id].currentVersion)) else None)
    case SlugTaken => Reply(409, None)
    case ScheduleExists => Reply(409, None)
    case NotCancellable => Reply(409, None)
    case RunAtNotInFuture => Reply(400, None)
    case Invalid(_) => Reply(400, None)
    case _ => Reply(500, None)
  }

  datatype Exchange = Exchange(db: Db, reply: Reply)

  /** The service call with its compare-and-swap, and the answer to it. */
  function SwapRequest(db: Db, later: Db, id: string, expected: int, f: VersionFields,
                       actor: string, now: int, fate: Fate)
    : Exchange
  {
    match NormalizeFields(f)
    case Err(e) => Exchange(db, DomainReply(later, id, e))
    case Ok(g) =>
      var out := Tx(fate, db, UpdateContent(db, id, expected, g, actor, now));
      Exchange(out.db,
        match out.result
        case Ok(cwv) => Reply(200, Some(FormatETag(cwv.content.currentVersion)))
        case Err(e) => DomainReply(later, id, e))
  }

  /** A PUT. The wildcard is resolved in state `seen`, the swap happens in the state `db`, and a
      refusal reads its details in the state `later`. */
  function EditRequest(seen: Db, db: Db, later: Db, id: string, header: string, f: VersionFields,
                       actor: string, now: int, fate: Fate)
    : Exchange
  {
    match ParseIfMatch(header)
    case Missing => Exchange(db, Reply(428, None))
    case Malformed => Exchange(db, Reply(400, None))
    case Weak => Exchange(db, Reply(400, None))
    case Wildcard =>
      if id in seen.contents && HasVersion(seen.versions, id, seen.contents[id].currentVersion)
      then SwapRequest(db, later, id, seen.contents[id].currentVersion, f, actor, now, fate)
      else Exchange(db, Reply(404, None))
    case Expect(v) => SwapRequest(db, later, id, v, f, actor, now, fate)
  }

  // ---------- pagination ----------

  const DEFAULT_LIMIT := 20
  const MAX_LIMIT := 100

  datatype Window = Window(limit: nat, offset: nat)

  function ParsePagination(limit: string, offset: string): (r: Option<Window>)
    ensures r.Some? ==> 1 <= r.value.limit <= 100
    ensures r.Some? <==> (limit == [] || exists n: nat :: 1 <= n <= 100 && ParseInt(limit) == Some(n))
                         && (offset == [] || exists n: nat :: ParseInt(offset) == Some(n))
    ensures r.Some? ==> if limit == [] then r.value.limit == 20 else ParseInt(limit) == Some(r.value.limit)
    ensures r.Some? ==> if offset == [] then r.value.offset == 0 else ParseInt(offset) == Some(r.value.offset)
  {
    var l := if limit == [] then Some(DEFAULT_LIMIT) else ParseInt(limit);
    var o := if offset == [] then Some(0) else ParseInt(offset);
    if l.None? || l.value < 1 || l.value > MAX_LIMIT || o.None? || o.value < 0 then None
    else Some(Window(l.value, o.value))
  }

  /** Every window within the limits can be asked for. */
  lemma PaginationRoundTrip(w: Window)
    requires 1 <= w.limit <= MAX_LIMIT && w.offset < INT64_LIMIT
    ensures ParsePagination(FormatInt(w.limit), FormatInt(w.offset)) == Some(w)
  {
    ParseFormatted(w.limit);
    ParseFormatted(w.offset);
  }

  // ---------- the public reads ----------

  datatype PublicReply<T> = NotThere | BadRequest | Unchanged(etag: string) | Body(etag: string, value: T)

  /** Answers 304 when the client's copy is current. */
  function Conditional<T>(header: string, modified: int, value: T): PublicReply<T> {
    var etag := ContentETag(modified);
    if NotModified(header, etag) then Unchanged(etag) else Body(etag, value)
  }

  function GetReply(db: Db, slug: string, header: string): PublicReply<PublicContent>
    requires SlugsUnique(db.contents)
  {
    match GetPublicBySlug(db, slug)
    case Err(_) => NotThere
    case Ok(p) => Conditional(header, p.updatedAt, p)
  }

  datatype ListBody = ListBody(items: seq<PublicContent>, total: nat)

  /** The list handler makes three queries, each on the state of its moment: the rows, their
      count, and the stamp of the tag. */
  ghost function ListReply(rows: Db, counted: Db, stamped: Db, w: Window, header: string): PublicReply<ListBody> {
    Conditional(header, LatestPublishedAt(stamped),
      ListBody(Page(PublicList(rows), w.limit, w.offset), CountPublic(counted)))
  }

  lemma LatestIsUnique(db: Db, m: int)
    requires IsLatest(db, m)
    ensures m == LatestPublishedAt(db)
  {
  }

  /** MAX over the joined rows. */
  method ReadLatest(db: Db) returns (m: int)
    ensures m == LatestPublishedAt(db)
  {
    hide IsPublic, LatestPublishedAt;
    var todo := PublicIds(db);
    m := 0;
    if todo != {} {
      var c :| c in todo;
      m := db.contents[c].updatedAt;
      ghost var best := c;
      while todo != {}
        invariant todo <= PublicIds(db)
        invariant best in PublicIds(db) && db.contents[best].updatedAt == m
        invariant forall d | d in PublicIds(db) && d !in todo :: db.contents[d].updatedAt <= m
        decreases todo
      {
        var d :| d in todo;
        todo := todo - {d};
        if m < db.contents[d].updatedAt {
          m, best := db.contents[d].updatedAt, d;
        }
      }
    }
    LatestIsUnique(db, m);
  }

  lemma VersionFound(versions: map<int, Version>, row: int, c: string, n: int)
    requires IsVersion(versions, row, c, n)
    ensures HasVersion(versions, c, n)
  {
  }

  class Server {
    const store: Store
    const service: Service

    constructor (store: Store)
      ensures this.store == store && service.store == store
    {
      this.store := store;
      this.service := new Service(store);
    }

    /** `found` is the database as the swap finds it: anything may commit after the read of the
        wildcard and before the swap; `later` is the one that the details of a refusal are read
        from. */
    method HandleUpdateContent(id: string, header: string, f: VersionFields, actor: string, now: int, fate: Fate,
                               found: Db, later: Db)
      returns (reply: Reply)
      requires store.Valid() && service.store == store && SchemaOk(found, store.indexed)
      modifies store
      ensures store.Valid()
      ensures Exchange(store.Db(), reply) == EditRequest(old(store.Db()), found, later, id, header, f, actor, now, fate)
    {
      hide SlugsUnique, NumbersUnique, OneActive, OneEventEach, ForeignKeysOk, ParseIfMatch, FormatETag,
        UpdateContent, HasVersion, Tx, NormalizeFields;
      var parsed := ParseIfMatch(header);
      var expected := 0;
      var missing := false;
      if parsed.Wildcard? {
        var current := store.GetContentWithCurrentVersion(id);
        missing := current.Err?;
        if current.Ok? {
          VersionFound(store.versions, current.value.version.id, id, store.contents[id].currentVersion);
          expected := current.value.content.currentVersion;
        }
      }
      store.Interleave(found);
      match parsed {
        case Missing => return Reply(428, None);
        case Malformed => return Reply(400, None);
        case Weak => return Reply(400, None);
        case Wildcard =>
          if missing {
            return Reply(404, None);
          }
        case Expect(v) => expected := v;
      }
      var updated := service.Update(id, expected, f, actor, now, fate);
      reply := if updated.Err? then DomainReply(later, id, updated.error)
               else Reply(200, Some(FormatETag(updated.value.content.currentVersion)));
    }

    method HandlePublicGet(slug: string, header: string) returns (reply: PublicReply<PublicContent>)
      requires store.Valid()
      ensures reply == GetReply(store.Db(), slug, header)
    {
      hide NotModified, GetPublicBySlug, KeysOk, NumbersUnique, OneActive, OneEventEach, ForeignKeysOk, SlugsUnique;
      var p := GetPublicBySlug(store.Db(), slug);
      if p.Err? {
        return NotThere;
      }
      var same := IfNoneMatchMatches(header, ContentETag(p.value.updatedAt));
      reply := if same then Unchanged(ContentETag(p.value.updatedAt)) else Body(ContentETag(p.value.updatedAt), p.value);
    }
  }

  /** Each query reads the state of its moment. */
  method HandlePublicList(rows: Db, counted: Db, stamped: Db, limit: string, offset: string, header: string)
    returns (reply: PublicReply<ListBody>)
    ensures reply == match ParsePagination(limit, offset)
                     case None => BadRequest
                     case Some(w) => ListReply(rows, counted, stamped, w, header)
  {
    hide NotModified, ParsePagination, PublicList, LatestPublishedAt;
    var window := ParsePagination(limit, offset);
    if window.None? {
      return BadRequest;
    }
    var items := ListPublic(rows, window.value.limit, window.value.offset);
    var total := CountPublic(counted);
    var latest := ReadLatest(stamped);
    var same := IfNoneMatchMatches(header, ContentETag(latest));
    reply := if same then Unchanged(ContentETag(latest)) else Body(ContentETag(latest), ListBody(items, total));
  }

  lemma NoHeader(tag: string)
    ensures !NotModified("", tag)
  {
  }

  lemma PagesDetermineList(x: Db, y: Db)
    requires forall w: Window :: Page(PublicList(x), w.limit, w.offset) == Page(PublicList(y), w.limit, w.offset)
    ensures PublicList(x) == PublicList(y)
  {
    hide PublicList;
    var w := Window(|PublicList(x)| + |PublicList(y)| + 1, 0);
    assert Page(PublicList(x), w.limit, w.offset) == Page(PublicList(y), w.limit, w.offset);
  }

  /** A list whose rows were read at `x`, count at `c` and tag stamp at `y` is what the single
      state `u` sends, on every page, exactly when each of the three queries answers the same
      there. */
  lemma SplitReadIsWholeWhen(x: Db, c: Db, y: Db, u: Db)
    ensures (forall w: Window :: ListReply(x, c, y, w, "") == ListReply(u, u, u, w, "")) <==>
              && PublicList(x) == PublicList(u) && CountPublic(c) == CountPublic(u)
              && LatestPublishedAt(y) == LatestPublishedAt(u)
  {
    hide PublicList, LatestPublishedAt, NotModified, PublicIds, ContentETag, Page;
    NoHeader(ContentETag(LatestPublishedAt(y)));
    NoHeader(ContentETag(LatestPublishedAt(u)));
    TagsTellStampsApart(LatestPublishedAt(y), LatestPublishedAt(u));
    if forall w: Window :: ListReply(x, c, y, w, "") == ListReply(u, u, u, w, "") {
      assert ListReply(x, c, y, Window(0, 0), "") == ListReply(u, u, u, Window(0, 0), "");
      forall w: Window
        ensures Page(PublicList(x), w.limit, w.offset) == Page(PublicList(u), w.limit, w.offset)
      {
        assert ListReply(x, c, y, w, "") == ListReply(u, u, u, w, "");
      }
      PagesDetermineList(x, u);
    }
  }

  /** It is what the last of the three states sends exactly when the public rows of the join are
      the same at the first and the last, and the count was read at the same number. */
  lemma SplitReadIsCurrentWhen(x: Db, c: Db, y: Db)
    requires DbInv(x) && DbInv(y) && Extends(x, y)
    ensures (forall w: Window :: ListReply(x, c, y, w, "") == ListReply(y, y, y, w, "")) <==>
              PublicTable(x) == PublicTable(y) && CountPublic(c) == CountPublic(y)
  {
    hide DbInv, Extends, ListReply, PublicTable, PublicList, LatestPublishedAt, PublicIds;
    SplitReadIsWholeWhen(x, c, y, y);
    ListIsTable(x, y);
  }

  // ---------- what the answer to an edit means ----------

  lemma PositiveVersion(db: Db, id: string)
    requires DbInv(db) && id in db.contents
    ensures 1 <= db.contents[id].currentVersion
    ensures HasVersion(db.versions, id, db.contents[id].currentVersion)
    ensures !HasVersion(db.versions, id, db.contents[id].currentVersion + 1)
  {
    hide SchemaOk, Ownership, Leases, ExactlyOnce, Audit;
    HistoryIsDense(db, id, db.contents[id].currentVersion);
    HistoryIsDense(db, id, db.contents[id].currentVersion + 1);
  }

  /** Each status names one situation, and only a success, or a commit that took effect without
      being reported, changes anything. */
  lemma EditReplyMeans(seen: Db, db: Db, later: Db, id: string, header: string, f: VersionFields,
                       actor: string, now: int, fate: Fate)
    requires DbInv(seen) && DbInv(db) && Extends(seen, db)
    ensures var x := EditRequest(seen, db, later, id, header, f, actor, now, fate);
            var p, fields := ParseIfMatch(header), NormalizeFields(f);
            var known, asked := id in db.contents, p.Expect? || (p.Wildcard? && id in seen.contents);
            var current := asked && known
              && db.contents[id].currentVersion == if p.Expect? then p.version else seen.contents[id].currentVersion;
            && (x.reply.status == 428 <==> p.Missing?)
            && (x.reply.status == 400 <==> p.Malformed? || p.Weak? || (asked && fields.Err?))
            && (x.reply.status == 404 <==>
                  (p.Wildcard? && !asked) || (asked && fields.Ok? && !known && !fate.BeginFails?))
            && (x.reply.status == 412 <==> asked && fields.Ok? && known && !current && !fate.BeginFails?)
            && (x.reply.status == 200 <==> current && fields.Ok? && fate.Lands?)
            && (x.reply.status == 500 <==> asked && fields.Ok? && (fate.BeginFails? || (current && !fate.Lands?)))
            && x.reply.status in {200, 400, 404, 412, 428, 500}
            && (x.reply.status != 200 && x.reply.status != 412 ==> x.reply.etag == None)
            && (x.reply.status == 200 ==>
                  known && fields.Ok? && id in x.db.contents &&
                  var n := db.contents[id].currentVersion + 1;
                  && x.reply.etag == Some(FormatETag(n))
                  && IsVersion(x.db.versions, x.db.versionSeq, id, n)
                  && x.db.versions[x.db.versionSeq].fields == fields.value
                  && x.db.contents[id].currentVersion == n)
            && (x.db != db ==> current && fields.Ok? && TakesEffect(fate))
  {
    hide DbInv, Extends, HasVersion, ParseIfMatch, FormatETag, NormalizeFields;
    assert NormalizeFields(f).Err? ==> NormalizeFields(f).error.Invalid?;
    if id in db.contents {
      PositiveVersion(db, id);
    }
    if id in seen.contents {
      PositiveVersion(seen, id);
    }
  }

  /** The statuses of the other refusals: 409 for a slug or id in use, a content that has an
      active schedule, and a schedule that is not pending; 400 for a run_at not in the future; 404
      for what is not there. None offers a tag. */
  lemma RefusalStatuses(db: Db, later: Db, id: string, slug: string, f: VersionFields, actor: string, now: int,
                        c: string, n: int, runAt: int, indexed: bool)
    ensures var made := CreateContent(db, id, slug, f, actor, now).result;
            made.Err? ==> DomainReply(later, id, made.error) == Reply(409, None)
    ensures var shown := PublishNumber(db, c, n, actor, now, indexed).result;
            shown.Err? ==> DomainReply(later, c, shown.error) == Reply(404, None)
    ensures var hidden := Unpublish(db, c, actor, now).result;
            hidden.Err? ==> DomainReply(later, c, hidden.error) == Reply(404, None)
    ensures var planned := ScheduleNumber(db, id, c, n, runAt, now).result;
            planned.Err? ==>
              DomainReply(later, c, planned.error)
              == Reply(if runAt <= now then 400 else if HasVersion(db.versions, c, n) then 409 else 404, None)
    ensures var cancelled := CancelSchedule(db, id, now).result;
            cancelled.Err? ==>
              DomainReply(later, id, cancelled.error) == Reply(if id in db.schedules then 409 else 404, None)
  {
    hide HasActive, SlugUsed;
  }

  /** The header names version `v`. */
  ghost predicate Names(header: string, v: int) {
    1 <= v && exists s :: TrimSpace(header) == Quoted(s) && ParseInt(s) == Some(v)
  }

  /** The same, told by the header as it came: a request without one is refused with 428 and
      changes nothing; only a star means whatever is current; anything that is no star and names
      no version gets 400. */
  lemma EditAnswers(seen: Db, db: Db, later: Db, id: string, header: string, f: VersionFields,
                    actor: string, now: int, fate: Fate)
    requires DbInv(seen) && DbInv(db) && Extends(seen, db)
    ensures var x := EditRequest(seen, db, later, id, header, f, actor, now, fate);
            var blank, star, fields := AllSpace(header), TrimSpace(header) == "*", NormalizeFields(f);
            && (x.reply.status == 428 <==> blank)
            && (blank ==> x == Exchange(db, Reply(428, None)))
            && (!blank && !star && (forall v :: !Names(header, v)) ==> x == Exchange(db, Reply(400, None)))
            && (star && id !in seen.contents ==> x == Exchange(db, Reply(404, None)))
            && (fields.Err? && ((star && id in seen.contents) || exists v :: Names(header, v)) ==>
                  x == Exchange(db, Reply(400, None)))
            && (x.reply.status == 200 <==>
                  && fate.Lands? && fields.Ok? && id in db.contents
                  && if star then id in seen.contents && seen.contents[id].currentVersion == db.contents[id].currentVersion
                     else Names(header, db.contents[id].currentVersion))
            && (forall v :: Names(header, v) && fields.Ok? ==>
                  x.db == Tx(fate, db, UpdateContent(db, id, v, fields.value, actor, now)).db)
            && (star && fields.Ok? && id in seen.contents ==>
                  x.db == Tx(fate, db, UpdateContent(db, id, seen.contents[id].currentVersion, fields.value, actor, now)).db)
  {
    hide DbInv, Extends, ParseIfMatch, HasVersion, NormalizeFields, TrimSpace, AllSpace, ParseInt, Quoted, UpdateContent, Tx,
      FormatETag;
    EditReplyMeans(seen, db, later, id, header, f, actor, now, fate);
    IfMatchMeans(header);
    if id in seen.contents {
      PositiveVersion(seen, id);
    }
    forall v
      ensures Names(header, v) <==> ParseIfMatch(header) == Expect(v)
    {
      IfMatchAccepts(header, v);
    }
  }

  /** A refused client that repeats its request with the tag from the refusal succeeds, as long
      as no other edit has taken effect since that tag was read. */
  lemma RefusalNamesTheWayOut(seen: Db, db: Db, later: Db, again: Db, id: string, header: string, f: VersionFields,
                              actor: string, now: int, fate: Fate)
    requires DbInv(seen) && DbInv(db) && DbInv(later) && DbInv(again)
    requires Extends(seen, db) && Extends(db, later) && Extends(later, again)
    requires EditRequest(seen, db, later, id, header, f, actor, now, fate).reply.status == 412
    ensures id in later.contents && id in again.contents
    ensures EditRequest(seen, db, later, id, header, f, actor, now, fate).reply.etag
         == Some(FormatETag(later.contents[id].currentVersion))
    ensures later.contents[id].currentVersion < INT64_LIMIT ==>
              EditRequest(again, again, again, id, FormatETag(later.contents[id].currentVersion), f, actor, now, Lands)
                .reply.status
              == if again.contents[id].currentVersion == later.contents[id].currentVersion then 200 else 412
  {
    hide DbInv, Extends, ParseIfMatch, FormatETag, HasVersion, NormalizeFields;
    EditReplyMeans(seen, db, later, id, header, f, actor, now, fate);
    ContentKept(db, later, id);
    ContentKept(later, again, id);
    if later.contents[id].currentVersion < INT64_LIMIT {
      PositiveVersion(later, id);
      IfMatchRoundTrip(later.contents[id].currentVersion);
      ExtendsRefl(again);
      EditReplyMeans(again, again, again, id, FormatETag(later.contents[id].currentVersion), f, actor, now, Lands);
    }
  }

  /** A request with a tag is one step of the system; one with the wildcard is a read step in
      state `s` and a write step in any later state `t`. */
  lemma EditRequestIsSteps(s: State, t: State, later: Db, sid: nat, id: string, header: string, f: VersionFields,
                           actor: string, now: int, fate: Fate, indexed: bool)
    requires DbInv(s.db) && sid !in s.sessions
    ensures var x := EditRequest(s.db, t.db, later, id, header, f, actor, now, fate);
            match (ParseIfMatch(header), NormalizeFields(f))
            case (Expect(v), Ok(g)) => x.db == NextDb(t, UpdateContentStep(id, v, g, actor, now, fate), indexed)
            case (Wildcard, Ok(g)) =>
              if id in s.db.contents then
                var read, write := ReadForOverwriteStep(sid, id), OverwriteStep(sid, g, actor, now, fate);
                && Enabled(s, read)
                && (sid in t.sessions && t.sessions[sid] == Next(s, read, indexed).sessions[sid] ==>
                      Enabled(t, write) && x.db == NextDb(t, write, indexed))
              else x.db == t.db
            case _ => x.db == t.db
  {
    hide DbInv, HasVersion, ParseIfMatch, FormatETag, UpdateContent, Tx, NormalizeFields;
    if id in s.db.contents {
      PositiveVersion(s.db, id);
    }
  }

  /** A tag served with a document is good for an edit, any time later in the run, exactly until
      another edit of the document takes effect; from then on it is refused for ever. */
  lemma TokenIsGoodUntilEdited(r: Run, indexed: bool, i: nat, j: nat, c: string,
                               f: VersionFields, actor: string, now: int)
    requires IsRun(r, indexed) && i <= j < |r.states| && c in r.states[i].db.contents
    requires r.states[i].db.contents[c].currentVersion < INT64_LIMIT && NormalizeFields(f).Ok?
    ensures var token, db := FormatETag(r.states[i].db.contents[c].currentVersion), r.states[j].db;
            EditRequest(db, db, db, c, token, f, actor, now, Lands).reply.status
            == if exists m: nat | i <= m < j :: EditedAt(r, m, c) then 412 else 200
  {
    hide DbInv, Extends, EditRequest, FormatETag, EditedAt, ProcessInv, SessionInv, EditTakesEffect, NormalizeFields;
    RunInv(r, indexed, i);
    RunInv(r, indexed, j);
    SameVersionMeansNoEdit(r, indexed, i, j, c);
    PositiveVersion(r.states[i].db, c);
    IfMatchRoundTrip(r.states[i].db.contents[c].currentVersion);
    var db := r.states[j].db;
    ExtendsRefl(db);
    EditReplyMeans(db, db, db, c, FormatETag(r.states[i].db.contents[c].currentVersion), f, actor, now, Lands);
  }

  /** So does a wildcard resolved at state `i` and swapped at state `j`: it overwrites what it
      read or is refused, and never overwrites what it has not seen. */
  lemma WildcardIsGoodUntilEdited(r: Run, indexed: bool, i: nat, j: nat, later: Db, c: string,
                                  f: VersionFields, actor: string, now: int)
    requires IsRun(r, indexed) && i <= j < |r.states| && c in r.states[i].db.contents
    requires NormalizeFields(f).Ok?
    ensures EditRequest(r.states[i].db, r.states[j].db, later, c, "*", f, actor, now, Lands).reply.status
            == if exists m: nat | i <= m < j :: EditedAt(r, m, c) then 412 else 200
  {
    hide DbInv, Extends, EditRequest, EditedAt, ProcessInv, SessionInv, EditTakesEffect, NormalizeFields;
    RunInv(r, indexed, i);
    RunInv(r, indexed, j);
    RunExtends(r, indexed, i, j);
    SameVersionMeansNoEdit(r, indexed, i, j, c);
    assert ParseIfMatch("*") == Wildcard;
    EditReplyMeans(r.states[i].db, r.states[j].db, later, c, "*", f, actor, now, Lands);
  }

  lemma KeptVersion(x: Db, y: Db, row: int, c: string, n: int)
    requires Extends(x, y) && IsVersion(x.versions, row, c, n) && NumbersUnique(y.versions)
    ensures row in y.versions && y.versions[row] == x.versions[row]
    ensures forall q | q in y.versions && IsVersion(y.versions, q, c, n) :: q == row
  {
  }

  lemma VersionNumbersUnique(db: Db)
    requires DbInv(db)
    ensures NumbersUnique(db.versions)
  {
  }

  /** Equal admin tags mean the same draft row. When they mean the same response is said by
      `AdminView.AdminTagIsExact`. */
  lemma AdminTagPinsTheDraft(r: Run, indexed: bool, i: nat, j: nat, c: string, x: int, y: int)
    requires IsRun(r, indexed) && i <= j < |r.states|
    requires c in r.states[i].db.contents && c in r.states[j].db.contents
    requires FormatETag(r.states[i].db.contents[c].currentVersion) == FormatETag(r.states[j].db.contents[c].currentVersion)
    requires IsVersion(r.states[i].db.versions, x, c, r.states[i].db.contents[c].currentVersion)
    requires IsVersion(r.states[j].db.versions, y, c, r.states[j].db.contents[c].currentVersion)
    ensures x == y && r.states[i].db.versions[x] == r.states[j].db.versions[y]
    ensures forall m: nat | i <= m < j :: !EditedAt(r, m, c)
  {
    hide DbInv, Extends, EditedAt, ProcessInv, SessionInv, EditTakesEffect, Quoted, FormatInt;
    RunInv(r, indexed, j);
    RunExtends(r, indexed, i, j);
    VersionNumbersUnique(r.states[j].db);
    TagsTellStampsApart(r.states[i].db.contents[c].currentVersion, r.states[j].db.contents[c].currentVersion);
    KeptVersion(r.states[i].db, r.states[j].db, x, c, r.states[i].db.contents[c].currentVersion);
    SameVersionMeansNoEdit(r, indexed, i, j, c);
  }

  // ---------- conditional reads ----------

  /** What a client shows after a conditional request, having kept `copy`. */
  function Shown<T>(copy: T, reply: PublicReply<T>): Option<T> {
    match reply
    case Unchanged(_) => Some(copy)
    case Body(_, value) => Some(value)
    case _ => None
  }

  lemma FoundBySlug(db: Db, c: string)
    requires DbInv(db) && c in db.contents
    ensures SlugsUnique(db.contents)
    ensures GetPublicBySlug(db, db.contents[c].slug) == if IsPublic(db, c) then Ok(PublicRow(db, c)) else Err(NotFound)
  {
    hide History, Ownership, Leases, ExactlyOnce, Audit, PublicRow;
    if IsPublic(db, c) {
      assert c in PublicIds(db);
    }
  }

  lemma NumberIsOpaque(n: int)
    ensures IsOpaque(FormatInt(n))
  {
    var s := FormatInt(n);
    forall i | 0 <= i < |s|
      ensures IsETagChar(s[i])
    {
      if n < 0 && i > 0 {
        assert s[i] == Digits(-n)[i - 1] && IsDigit(Digits(-n)[i - 1]);
      } else if n >= 0 {
        assert IsDigit(Digits(n)[i]);
      }
    }
  }

  lemma OwnTagMatches(a: int, b: int)
    ensures NotModified(ContentETag(a), ContentETag(b)) <==> a == b
  {
    var es := [Element("", Some(Tag(false, FormatInt(a))), "")];
    NumberIsOpaque(a);
    NoCommaInNumber(b);
    assert WellFormed(es[0]);
    assert RenderList(es) == ContentETag(a) by {
      assert "" + ("" + Quoted(FormatInt(a))) + "" == Quoted(FormatInt(a));
    }
    SplittingAgreesWithGrammar(es, FormatInt(b));
    if ListMatches(es, FormatInt(b)) {
      FormatIntInjective(a, b);
    }
    if a == b {
      assert es[0].tag.value.text == FormatInt(b);
    }
  }

  lemma PublicIsContent(db: Db, c: string)
    requires IsPublic(db, c)
    ensures c in db.contents
  {
  }

  lemma SlugStays(x: Db, y: Db, c: string)
    requires Extends(x, y) && c in x.contents
    ensures c in y.contents && y.contents[c].slug == x.contents[c].slug
  {
  }

  lemma RowStamps(db: Db, c: string)
    requires IsPublic(db, c)
    ensures PublicRow(db, c).updatedAt == db.contents[c].updatedAt
  {
  }

  /** A client that fetched a document at state `i` revalidates at state `j` with the tag it got.
      It shows what a client without a copy would be sent (the current representation, or nothing
      once withdrawn) except exactly when the representation changed and the last step that
      rewrote the row wrote the very stamp the client holds. */
  lemma RevalidationIsTransparentWhen(r: Run, indexed: bool, i: nat, j: nat, c: string)
    requires IsRun(r, indexed) && i <= j < |r.states| && IsPublic(r.states[i].db, c)
    ensures var x, y := r.states[i].db, r.states[j].db;
            var slug := x.contents[c].slug;
            && SlugsUnique(x.contents) && SlugsUnique(y.contents)
            && var first := GetReply(x, slug, "");
               && first == Body(ContentETag(x.contents[c].updatedAt), PublicRow(x, c))
               && (Shown(first.value, GetReply(y, slug, "")) == if IsPublic(y, c) then Some(PublicRow(y, c)) else None)
               && (Shown(first.value, GetReply(y, slug, first.etag)) != Shown(first.value, GetReply(y, slug, "")) <==>
                     && IsPublic(y, c) && PublicRow(x, c) != PublicRow(y, c)
                     && exists m: nat :: LastRewrite(r, i, j, c, m) && StampOf(r.steps[m]) == x.contents[c].updatedAt)
  {
    hide DbInv, Extends, ProcessInv, SessionInv, PublicRow, GetPublicBySlug, NotModified, ContentETag, IsPublic,
      RewritesAt, Untouched, StepOk;
    var x, y := r.states[i].db, r.states[j].db;
    RunInv(r, indexed, i);
    RunInv(r, indexed, j);
    RunExtends(r, indexed, i, j);
    PublicIsContent(x, c);
    SlugStays(x, y, c);
    FoundBySlug(x, c);
    FoundBySlug(y, c);
    NoHeader(ContentETag(x.contents[c].updatedAt));
    NoHeader(ContentETag(y.contents[c].updatedAt));
    OwnTagMatches(x.contents[c].updatedAt, y.contents[c].updatedAt);
    TagsTellStampsApart(x.contents[c].updatedAt, y.contents[c].updatedAt);
    RowStamps(x, c);
    if IsPublic(y, c) {
      RowStamps(y, c);
      DocumentTagIsExact(r, indexed, i, j, c);
      forall m: nat | LastRewrite(r, i, j, c, m)
        ensures StampOf(r.steps[m]) == y.contents[c].updatedAt
      {
        LastRewriteLeaves(r, indexed, i, j, c, m);
      }
    }
  }

  /** In particular always, when commit-order stamps on the document grow. */
  lemma RevalidationIsTransparent(r: Run, indexed: bool, i: nat, j: nat, c: string)
    requires IsRun(r, indexed) && i <= j < |r.states| && StampsGrow(r, i, j, c)
    requires IsPublic(r.states[i].db, c)
    ensures var x, y := r.states[i].db, r.states[j].db;
            var slug := x.contents[c].slug;
            && SlugsUnique(x.contents) && SlugsUnique(y.contents)
            && var first := GetReply(x, slug, "");
               && first == Body(ContentETag(x.contents[c].updatedAt), PublicRow(x, c))
               && Shown(first.value, GetReply(y, slug, first.etag)) == Shown(first.value, GetReply(y, slug, ""))
               && (Shown(first.value, GetReply(y, slug, "")).Some? <==> IsPublic(y, c))
  {
    hide DbInv, Extends, PublicRow, GetPublicBySlug, GetReply, NotModified, ContentETag, RewritesAt,
      Untouched, StepOk, StampsGrow;
    var x, y := r.states[i].db, r.states[j].db;
    RevalidationIsTransparentWhen(r, indexed, i, j, c);
    if m: nat :| IsPublic(y, c) && LastRewrite(r, i, j, c, m) && StampOf(r.steps[m]) == x.contents[c].updatedAt {
      LastRewriteLeaves(r, indexed, i, j, c, m);
      TagsTellStampsApart(x.contents[c].updatedAt, y.contents[c].updatedAt);
      DocumentTagIsSound(r, indexed, i, j, c);
    }
  }
}
