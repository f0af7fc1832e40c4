/** What the public queries return, and what they depend on. */
module PublicView {
  import opened Tables
  import opened Transactions
  import opened Invariants
  import opened Steps
  import opened Effects
  import opened Editing

  datatype PublicContent = PublicContent(slug: string, fields: VersionFields, publishedAt: int, updatedAt: int)

  datatype SitemapEntry = SitemapEntry(slug: string, lastModified: int)

  /** The inner join of a content with the version its pointer names finds a row. */
  predicate IsPublic(db: Db, c: string) {
    && c in db.contents
    && db.contents[c].publishedVersionId.Some?
    && db.contents[c].publishedVersionId.value in db.versions
  }

  function PublicIds(db: Db): set<string> {
    set c | c in db.contents && IsPublic(db, c)
  }

  /** The joined version's fields. */
  function PublicFields(db: Db, c: string): VersionFields
    requires IsPublic(db, c)
  {
    db.versions[db.contents[c].publishedVersionId.value].fields
  }

  function OrZero(at: Option<int>): int {
    if at.Some? then at.value else 0
  }

  function PublicRow(db: Db, c: string): PublicContent
    requires IsPublic(db, c)
  {
    PublicContent(db.contents[c].slug, PublicFields(db, c), OrZero(db.contents[c].publishedAt), db.contents[c].updatedAt)
  }

  // ---------- ORDER BY published_at DESC, id DESC ----------

  /** Byte order of strings, the BINARY collation. */
  predicate StringLess(a: string, b: string) {
    b != [] && (a == [] || a[0] < b[0] || (a[0] == b[0] && StringLess(a[1..], b[1..])))
  }

  lemma {:induction false} StringOrder(a: string, b: string, c: string)
    ensures !StringLess(a, a)
    ensures StringLess(a, b) || a == b || StringLess(b, a)
    ensures StringLess(a, b) && StringLess(b, c) ==> StringLess(a, c)
    decreases |a| + |b| + |c|
  {
    if a != [] && b != [] && c != [] {
      StringOrder(a[1..], b[1..], c[1..]);
      assert a == [a[0]] + a[1..] && b == [b[0]] + b[1..];
    } else if a != [] && b != [] {
      StringOrder(a[1..], b[1..], c);
      assert a == [a[0]] + a[1..] && b == [b[0]] + b[1..];
    } else if a != [] {
      StringOrder(a[1..], b, c);
    }
  }

  /** NULL sorts below every stamp. */
  predicate StampLess(a: Option<int>, b: Option<int>) {
    b.Some? && (a.None? || a.value < b.value)
  }

  /** `a` is listed before `b`. */
  predicate Before(db: Db, a: string, b: string)
    requires a in db.contents && b in db.contents
  {
    var x, y := db.contents[a].publishedAt, db.contents[b].publishedAt;
    StampLess(y, x) || (x == y && StringLess(b, a))
  }

  lemma BeforeIsOrder(db: Db, a: string, b: string, c: string)
    requires a in db.contents && b in db.contents && c in db.contents
    ensures !Before(db, a, a)
    ensures Before(db, a, b) || a == b || Before(db, b, a)
    ensures Before(db, a, b) && Before(db, b, c) ==> Before(db, a, c)
  {
    StringOrder(c, b, a);
    StringOrder(a, a, a);
    StringOrder(b, a, a);
  }

  ghost predicate IsFirst(db: Db, ids: set<string>, f: string)
    requires ids <= db.contents.Keys
  {
    f in ids && forall x | x in ids && x != f :: Before(db, f, x)
  }

  /** The row that comes first, found by one pass over the rows. */
  method FirstRow(db: Db, ids: set<string>) returns (f: string)
    requires ids != {} && ids <= db.contents.Keys
    ensures IsFirst(db, ids, f)
  {
    f :| f in ids;
    var todo := ids - {f};
    while todo != {}
      invariant todo <= ids && f in ids
      invariant forall x | x in ids && x !in todo && x != f :: Before(db, f, x)
      decreases todo
    {
      var x :| x in todo;
      ghost var best := f;
      BeforeIsOrder(db, x, f, x);
      if Before(db, x, f) {
        f := x;
      }
      todo := todo - {x};
      forall y | y in ids && y !in todo && y != f
        ensures Before(db, f, y)
      {
        BeforeIsOrder(db, f, best, y);
      }
    }
  }

  lemma FirstExists(db: Db, ids: set<string>)
    requires ids != {} && ids <= db.contents.Keys
    ensures exists f :: IsFirst(db, ids, f)
    decreases |ids|
  {
    var x :| x in ids;
    if ids == {x} {
      assert IsFirst(db, ids, x);
    } else {
      FirstExists(db, ids - {x});
      var g :| IsFirst(db, ids - {x}, g);
      BeforeIsOrder(db, x, g, x);
      if Before(db, x, g) {
        forall y | y in ids && y != x
          ensures Before(db, x, y)
        {
          BeforeIsOrder(db, x, g, y);
        }
        assert IsFirst(db, ids, x);
      } else {
        assert IsFirst(db, ids, g);
      }
    }
  }

  lemma FirstIsUnique(db: Db, ids: set<string>, f: string, g: string)
    requires ids <= db.contents.Keys && IsFirst(db, ids, f) && IsFirst(db, ids, g)
    ensures f == g
  {
    BeforeIsOrder(db, f, g, f);
  }

  /** The rows in the order of the query. */
  ghost function Listing(db: Db, ids: set<string>): (r: seq<string>)
    requires ids <= db.contents.Keys
    ensures |r| == |ids|
    decreases |ids|
  {
    if ids == {} then []
    else
      FirstExists(db, ids);
      var f :| IsFirst(db, ids, f);
      [f] + Listing(db, ids - {f})
  }

  lemma {:induction false} ListingMembers(db: Db, ids: set<string>)
    requires ids <= db.contents.Keys
    ensures forall x :: x in Listing(db, ids) <==> x in ids
    decreases |ids|
  {
    if ids != {} {
      FirstExists(db, ids);
      var all := Listing(db, ids);
      assert all[1..] == Listing(db, ids - {all[0]});
      ListingMembers(db, ids - {all[0]});
      assert all == [all[0]] + all[1..];
    }
  }

  lemma {:induction false} ListingIsSorted(db: Db, ids: set<string>)
    requires ids <= db.contents.Keys
    ensures forall i | 0 <= i < |Listing(db, ids)| :: Listing(db, ids)[i] in ids
    ensures forall i, j | 0 <= i < j < |Listing(db, ids)| :: Before(db, Listing(db, ids)[i], Listing(db, ids)[j])
    decreases |ids|
  {
    ListingMembers(db, ids);
    if ids != {} {
      FirstExists(db, ids);
      var all := Listing(db, ids);
      var f := all[0];
      assert IsFirst(db, ids, f) && all[1..] == Listing(db, ids - {f});
      ListingIsSorted(db, ids - {f});
      forall i, j | 0 <= i < j < |all|
        ensures Before(db, all[i], all[j])
      {
        assert all[j] == all[1..][j - 1];
        if i > 0 {
          assert all[i] == all[1..][i - 1];
        } else {
          assert all[j] in ids - {f};
        }
      }
    }
  }

  function Page<T>(rows: seq<T>, limit: nat, offset: nat): (r: seq<T>)
    ensures |r| == if |rows| <= offset then 0 else if |rows| - offset < limit then |rows| - offset else limit
    ensures forall i | 0 <= i < |r| :: offset + i < |rows| && r[i] == rows[offset + i]
  {
    if |rows| <= offset then []
    else if |rows| - offset <= limit then rows[offset..]
    else rows[offset..offset + limit]
  }

  ghost predicate AllPublic(db: Db, ids: seq<string>) {
    forall i | 0 <= i < |ids| :: IsPublic(db, ids[i])
  }

  function PublicRows(db: Db, ids: seq<string>): (r: seq<PublicContent>)
    requires AllPublic(db, ids)
    ensures |r| == |ids| && forall i | 0 <= i < |r| :: r[i] == PublicRow(db, ids[i])
  {
    seq(|ids|, i requires 0 <= i < |ids| => PublicRow(db, ids[i]))
  }

  lemma ListingStep(db: Db, ids: set<string>, f: string)
    requires ids <= db.contents.Keys && IsFirst(db, ids, f)
    ensures Listing(db, ids) == [f] + Listing(db, ids - {f})
  {
    forall g | IsFirst(db, ids, g)
      ensures g == f
    {
      FirstIsUnique(db, ids, f, g);
    }
  }

  /** ORDER BY: the row that comes first is taken until none is left. */
  method OrderRows(db: Db, ids: set<string>) returns (rows: seq<string>)
    requires ids <= db.contents.Keys
    ensures rows == Listing(db, ids)
  {
    hide Listing, IsFirst;
    rows := [];
    var rest := ids;
    while rest != {}
      invariant rest <= ids
      invariant rows + Listing(db, rest) == Listing(db, ids)
      decreases rest
    {
      var c := FirstRow(db, rest);
      ListingStep(db, rest, c);
      ghost var tail := Listing(db, rest - {c});
      assert rows + ([c] + tail) == (rows + [c]) + tail;
      rest, rows := rest - {c}, rows + [c];
      assert rows + tail == Listing(db, ids);
    }
  }

  lemma ListingIsPublic(db: Db)
    ensures AllPublic(db, Listing(db, PublicIds(db)))
  {
    ListingMembers(db, PublicIds(db));
    var rows := Listing(db, PublicIds(db));
    forall i | 0 <= i < |rows|
      ensures IsPublic(db, rows[i])
    {
      assert rows[i] in PublicIds(db);
    }
  }

  /** The whole public list. */
  ghost function PublicList(db: Db): seq<PublicContent> {
    ListingIsPublic(db);
    PublicRows(db, Listing(db, PublicIds(db)))
  }

  /** LIMIT ? OFFSET ? and the scan of the rows. */
  method ListPublic(db: Db, limit: nat, offset: nat) returns (out: seq<PublicContent>)
    ensures out == Page(PublicList(db), limit, offset)
  {
    ListingIsPublic(db);
    var all := OrderRows(db, PublicIds(db));
    var rows := Page(all, limit, offset);
    out := [];
    for i := 0 to |rows|
      invariant |out| == i
      invariant forall j | 0 <= j < i :: out[j] == PublicRows(db, all)[offset + j]
    {
      assert rows[i] == all[offset + i];
      out := out + [PublicRow(db, rows[i])];
    }
  }

  function CountPublic(db: Db): nat {
    |PublicIds(db)|
  }

  function Indexable(db: Db): set<string> {
    set c | c in PublicIds(db) && !PublicFields(db, c).noIndex
  }

  function EntryOf(c: Content): SitemapEntry {
    SitemapEntry(c.slug, if c.publishedAt.Some? then c.publishedAt.value else c.updatedAt)
  }

  function Entries(db: Db, ids: seq<string>): (r: seq<SitemapEntry>)
    requires forall i | 0 <= i < |ids| :: ids[i] in db.contents
    ensures |r| == |ids| && forall i | 0 <= i < |r| :: r[i] == EntryOf(db.contents[ids[i]])
  {
    seq(|ids|, i requires 0 <= i < |ids| => EntryOf(db.contents[ids[i]]))
  }

  ghost function Sitemap(db: Db): seq<SitemapEntry> {
    ListingMembers(db, Indexable(db));
    Entries(db, Listing(db, Indexable(db)))
  }

  method ListSitemapEntries(db: Db, limit: nat) returns (out: seq<SitemapEntry>)
    ensures out == Page(Sitemap(db), limit, 0)
  {
    hide Listing, IsPublic, EntryOf, PublicFields;
    ListingMembers(db, Indexable(db));
    var all := OrderRows(db, Indexable(db));
    var rows := Page(all, limit, 0);
    out := [];
    for i := 0 to |rows|
      invariant |out| == i
      invariant forall j | 0 <= j < i :: out[j] == Entries(db, all)[j]
    {
      assert rows[i] == all[i];
      out := out + [EntryOf(db.contents[rows[i]])];
    }
  }

  function GetPublicBySlug(db: Db, slug: string): (r: Result<PublicContent>)
    requires SlugsUnique(db.contents)
    ensures r.Ok? ==> exists c | c in PublicIds(db) :: db.contents[c].slug == slug && r.value == PublicRow(db, c)
    ensures r.Err? ==> r.error == NotFound && forall c | c in PublicIds(db) :: db.contents[c].slug != slug
  {
    if c :| c in PublicIds(db) && db.contents[c].slug == slug then Ok(PublicRow(db, c)) else Err(NotFound)
  }

  /** MAX(updated_at) over the public rows, 0 when there are none. */
  ghost predicate IsLatest(db: Db, m: int) {
    if PublicIds(db) == {} then m == 0
    else
      && (exists c | c in PublicIds(db) :: db.contents[c].updatedAt == m)
      && (forall c | c in PublicIds(db) :: db.contents[c].updatedAt <= m)
  }

  lemma LatestOf(db: Db, ids: set<string>) returns (m: int)
    requires ids != {} && ids <= db.contents.Keys
    ensures exists c | c in ids :: db.contents[c].updatedAt == m
    ensures forall c | c in ids :: db.contents[c].updatedAt <= m
    decreases |ids|
  {
    var x :| x in ids;
    m := db.contents[x].updatedAt;
    if ids != {x} {
      var rest := LatestOf(db, ids - {x});
      if rest > m {
        m := rest;
      }
    }
  }

  lemma LatestExists(db: Db)
    ensures exists m :: IsLatest(db, m)
  {
    if PublicIds(db) == {} {
      assert IsLatest(db, 0);
    } else {
      var m := LatestOf(db, PublicIds(db));
      assert IsLatest(db, m);
    }
  }

  ghost function LatestPublishedAt(db: Db): (m: int)
    ensures IsLatest(db, m)
  {
    LatestExists(db);
    var m :| IsLatest(db, m);
    m
  }

  // ---------- pagination ----------

  /** The pages of size `limit` from `offset` on, one after another. */
  function Pages<T>(rows: seq<T>, limit: nat, offset: nat): seq<T>
    requires 0 < limit
    decreases if offset < |rows| then |rows| - offset else 0
  {
    if |rows| <= offset then [] else Page(rows, limit, offset) + Pages(rows, limit, offset + limit)
  }

  lemma {:induction false} PagesConcatenate<T>(rows: seq<T>, limit: nat, offset: nat)
    requires 0 < limit && offset <= |rows|
    ensures Pages(rows, limit, offset) == rows[offset..]
    decreases |rows| - offset
  {
    if offset < |rows| {
      if offset + limit <= |rows| {
        PagesConcatenate(rows, limit, offset + limit);
        assert rows[offset..] == rows[offset..offset + limit] + rows[offset + limit..];
      } else {
        assert Pages(rows, limit, offset + limit) == [];
      }
    }
  }

  /** The pages of the public list, read on one state, are the whole list: every published
      document once, newest first, as many as the count says. */
  lemma PublicPagesAreTheList(db: Db, limit: nat)
    requires 0 < limit
    ensures Pages(PublicList(db), limit, 0) == PublicList(db)
    ensures |PublicList(db)| == CountPublic(db)
    ensures var ids := Listing(db, PublicIds(db));
            && (forall c :: c in ids <==> c in PublicIds(db))
            && (forall i | 0 <= i < |ids| :: IsPublic(db, ids[i]) && PublicList(db)[i] == PublicRow(db, ids[i]))
            && (forall i, j | 0 <= i < j < |ids| ::
                  ids[i] in db.contents && ids[j] in db.contents && Before(db, ids[i], ids[j]))
  {
    PagesConcatenate(PublicList(db), limit, 0);
    ListingIsPublic(db);
    ListingMembers(db, PublicIds(db));
    ListingIsSorted(db, PublicIds(db));
  }

  // ---------- drafts do not interfere ----------

  /** One row of the join that all public queries share. */
  datatype Joined = Joined(slug: string, fields: VersionFields, publishedAt: Option<int>, updatedAt: int)

  function JoinedRow(db: Db, c: string): Joined
    requires IsPublic(db, c)
  {
    Joined(db.contents[c].slug, PublicFields(db, c), db.contents[c].publishedAt, db.contents[c].updatedAt)
  }

  /** What is public: the join, by content id. */
  function PublicTable(db: Db): map<string, Joined> {
    map c | c in PublicIds(db) :: JoinedRow(db, c)
  }

  lemma TableRows(x: Db, y: Db)
    requires PublicTable(x) == PublicTable(y)
    ensures PublicIds(x) == PublicIds(y)
    ensures forall c | c in PublicIds(x) :: IsPublic(x, c) && IsPublic(y, c) && JoinedRow(x, c) == JoinedRow(y, c)
  {
    assert PublicTable(x).Keys == PublicIds(x);
    assert PublicTable(y).Keys == PublicIds(y);
    forall c | c in PublicIds(x)
      ensures c in PublicIds(y) && JoinedRow(x, c) == JoinedRow(y, c)
    {
      assert PublicTable(x)[c] == PublicTable(y)[c];
    }
  }

  lemma {:induction false} SameListing(x: Db, y: Db, ids: set<string>)
    requires ids <= x.contents.Keys && ids <= y.contents.Keys
    requires forall c | c in ids :: x.contents[c].publishedAt == y.contents[c].publishedAt
    ensures Listing(x, ids) == Listing(y, ids)
    decreases |ids|
  {
    if ids != {} {
      FirstExists(x, ids);
      var f :| IsFirst(x, ids, f);
      assert IsFirst(y, ids, f);
      ListingStep(x, ids, f);
      ListingStep(y, ids, f);
      SameListing(x, y, ids - {f});
    }
  }

  lemma SameList(x: Db, y: Db)
    requires PublicTable(x) == PublicTable(y)
    ensures PublicList(x) == PublicList(y)
  {
    hide Listing, PublicTable, IsPublic, PublicFields;
    TableRows(x, y);
    SameListing(x, y, PublicIds(x));
    ListingMembers(x, PublicIds(x));
    var ids := Listing(x, PublicIds(x));
    forall i | 0 <= i < |ids|
      ensures ids[i] in PublicIds(x)
    {
    }
    assert PublicList(x) == PublicList(y);
  }

  lemma SameSitemap(x: Db, y: Db)
    requires PublicTable(x) == PublicTable(y)
    ensures Sitemap(x) == Sitemap(y)
  {
    hide Listing, PublicTable, IsPublic, PublicFields;
    TableRows(x, y);
    assert Indexable(x) == Indexable(y);
    SameListing(x, y, Indexable(x));
    ListingMembers(x, Indexable(x));
    var ids := Listing(x, Indexable(x));
    forall i | 0 <= i < |ids|
      ensures ids[i] in Indexable(x) && EntryOf(x.contents[ids[i]]) == EntryOf(y.contents[ids[i]])
    {
      assert JoinedRow(x, ids[i]) == JoinedRow(y, ids[i]);
    }
    assert Sitemap(x) == Sitemap(y);
  }

  lemma SameGet(x: Db, y: Db, slug: string)
    requires PublicTable(x) == PublicTable(y) && SlugsUnique(x.contents) && SlugsUnique(y.contents)
    ensures GetPublicBySlug(x, slug) == GetPublicBySlug(y, slug)
  {
    TableRows(x, y);
    if c :| c in PublicIds(x) && x.contents[c].slug == slug {
      assert JoinedRow(x, c) == JoinedRow(y, c);
    } else {
      forall c | c in PublicIds(y)
        ensures y.contents[c].slug != slug
      {
        assert JoinedRow(x, c) == JoinedRow(y, c);
      }
    }
  }

  lemma SameLatest(x: Db, y: Db)
    requires PublicTable(x) == PublicTable(y)
    ensures LatestPublishedAt(x) == LatestPublishedAt(y)
  {
    TableRows(x, y);
    var m, n := LatestPublishedAt(x), LatestPublishedAt(y);
    if PublicIds(x) != {} {
      var c :| c in PublicIds(x) && x.contents[c].updatedAt == m;
      var d :| d in PublicIds(y) && y.contents[d].updatedAt == n;
      assert JoinedRow(x, c) == JoinedRow(y, c);
      assert JoinedRow(x, d) == JoinedRow(y, d);
    }
  }

  /** Every public answer is a function of the published rows: two states with the same join
      answer alike, whatever drafts, histories, schedules and events they hold. */
  lemma DraftsDoNotInterfere(x: Db, y: Db, slug: string, limit: nat, offset: nat)
    requires PublicTable(x) == PublicTable(y) && SlugsUnique(x.contents) && SlugsUnique(y.contents)
    ensures GetPublicBySlug(x, slug) == GetPublicBySlug(y, slug)
    ensures Page(PublicList(x), limit, offset) == Page(PublicList(y), limit, offset)
    ensures CountPublic(x) == CountPublic(y)
    ensures Page(Sitemap(x), limit, 0) == Page(Sitemap(y), limit, 0)
    ensures LatestPublishedAt(x) == LatestPublishedAt(y)
  {
    hide PublicTable, GetPublicBySlug, PublicList, Sitemap, LatestPublishedAt, IsLatest, SlugsUnique;
    TableRows(x, y);
    SameGet(x, y, slug);
    SameList(x, y);
    SameSitemap(x, y);
    SameLatest(x, y);
  }

  ghost predicate Publishes(a: Step) {
    a.PublishStep? || a.UnpublishStep? || a.CompleteStep?
  }

  /** Creating, editing, scheduling, cancelling, claiming, failing, releasing and crashing change
      nothing public, except that an edit stamps its own document. */
  lemma PrivateStep(s: State, a: Step, indexed: bool, c: string)
    requires SysInv(s) && Enabled(s, a) && !Publishes(a)
    ensures var db' := NextDb(s, a, indexed);
            && (IsPublic(db', c) <==> IsPublic(s.db, c))
            && (IsPublic(s.db, c) ==>
                  JoinedRow(db', c)
                  == if EditTakesEffect(s, a, c, s.db.contents[c].currentVersion)
                     then JoinedRow(s.db, c).(updatedAt := a.now) else JoinedRow(s.db, c))
  {
    ContentEffects(s, a, indexed, c);
    StepSafe(s, a, indexed);
    if c in s.db.contents {
      VersionStep(s, a, indexed, c);
    }
  }

  lemma PublishedRowsExist(db: Db, c: string)
    requires DbInv(db) && c in db.contents && db.contents[c].publishedVersionId.Some?
    ensures IsPublic(db, c)
  {
    hide History, Ownership, Leases, ExactlyOnce, Audit;
  }
}
