/** When an unchanged cache validator means an unchanged representation. */
module Validators {
  import opened Tables
  import opened Transactions
  import opened Invariants
  import opened Steps
  import opened Effects
  import opened RowHistory
  import opened EntityTags
  import opened PublicView

  /** The tag of a document or list last modified at `ms`. */
  function ContentETag(ms: int): string {
    Quoted(FormatInt(ms))
  }

  lemma TagsTellStampsApart(a: int, b: int)
    ensures ContentETag(a) == ContentETag(b) <==> a == b
  {
    if ContentETag(a) == ContentETag(b) {
      QuotedParts(FormatInt(a));
      QuotedParts(FormatInt(b));
      FormatIntInjective(a, b);
    }
  }

  // ---------- one document ----------

  /** Every change of the content's row in the steps from `i` to `j` raises its updated_at. */
  ghost predicate StampsGrow(r: Run, i: nat, j: nat, c: string)
    requires |r.states| == |r.steps| + 1 && i <= j < |r.states|
  {
    forall m: nat | i <= m < j && c in r.states[m].db.contents && c in r.states[m + 1].db.contents
      && r.states[m].db.contents[c] != r.states[m + 1].db.contents[c] ::
      r.states[m].db.contents[c].updatedAt < r.states[m + 1].db.contents[c].updatedAt
  }

  lemma {:induction false} RowOrStamp(r: Run, indexed: bool, i: nat, j: nat, c: string)
    requires IsRun(r, indexed) && i <= j < |r.states| && StampsGrow(r, i, j, c)
    requires c in r.states[i].db.contents
    ensures c in r.states[j].db.contents
    ensures var x, y := r.states[i].db.contents[c], r.states[j].db.contents[c];
            x == y || x.updatedAt < y.updatedAt
    decreases j
  {
    if i < j {
      RowOrStamp(r, indexed, i, j - 1, c);
      RunExtends(r, indexed, j - 1, j);
      assert c in r.states[j - 1].db.contents && c in r.states[j].db.contents;
    }
  }

  lemma SameRowSamePublic(x: Db, y: Db, c: string)
    requires Extends(x, y) && IsPublic(x, c) && IsPublic(y, c) && x.contents[c] == y.contents[c]
    ensures PublicRow(x, c) == PublicRow(y, c)
    ensures JoinedRow(x, c) == JoinedRow(y, c)
  {
    var row := x.contents[c].publishedVersionId.value;
    assert y.versions[row] == x.versions[row];
  }

  /** Equal document tags mean an equal public representation, provided the stamps that reach
      the document's row in commit order strictly increase. */
  lemma DocumentTagIsSound(r: Run, indexed: bool, i: nat, j: nat, c: string)
    requires IsRun(r, indexed) && i <= j < |r.states| && StampsGrow(r, i, j, c)
    requires IsPublic(r.states[i].db, c) && IsPublic(r.states[j].db, c)
    requires ContentETag(r.states[i].db.contents[c].updatedAt) == ContentETag(r.states[j].db.contents[c].updatedAt)
    ensures PublicRow(r.states[i].db, c) == PublicRow(r.states[j].db, c)
  {
    TagsTellStampsApart(r.states[i].db.contents[c].updatedAt, r.states[j].db.contents[c].updatedAt);
    RowOrStamp(r, indexed, i, j, c);
    RunExtends(r, indexed, i, j);
    SameRowSamePublic(r.states[i].db, r.states[j].db, c);
  }

  /** The exact limit of the document tag, whatever the clocks do. If the representation is
      the same so is the tag; if it changed, the tag is the same exactly when the last step that
      rewrote the document's row wrote the stamp the row had before. */
  lemma DocumentTagIsExact(r: Run, indexed: bool, i: nat, j: nat, c: string)
    requires IsRun(r, indexed) && i <= j < |r.states|
    requires IsPublic(r.states[i].db, c) && IsPublic(r.states[j].db, c)
    ensures var x, y := r.states[i].db, r.states[j].db;
            var sameTag := ContentETag(x.contents[c].updatedAt) == ContentETag(y.contents[c].updatedAt);
            if PublicRow(x, c) == PublicRow(y, c) then sameTag
            else exists m: nat ::
                   LastRewrite(r, i, j, c, m) && (sameTag <==> StampOf(r.steps[m]) == x.contents[c].updatedAt)
  {
    hide LastRewrite, Untouched, Extends, PublicFields, ContentETag;
    var x, y := r.states[i].db, r.states[j].db;
    TagsTellStampsApart(x.contents[c].updatedAt, y.contents[c].updatedAt);
    if PublicRow(x, c) != PublicRow(y, c) {
      if Untouched(r, i, j, c) {
        RowKept(r, i, j, c);
        RunExtends(r, indexed, i, j);
        SameRowSamePublic(x, y, c);
      } else {
        var m := FindLastRewrite(r, i, j, c);
        LastRewriteLeaves(r, indexed, i, j, c, m);
      }
    }
  }

  /** The same for a single step. */
  lemma StampDecidesTag(s: State, a: Step, indexed: bool, c: string)
    requires SysInv(s) && Enabled(s, a)
    requires IsPublic(s.db, c) && IsPublic(NextDb(s, a, indexed), c)
    requires PublicRow(s.db, c) != PublicRow(NextDb(s, a, indexed), c)
    ensures a.UpdateContentStep? || a.OverwriteStep? || a.PublishStep? || a.CompleteStep?
    ensures ContentETag(NextDb(s, a, indexed).contents[c].updatedAt) == ContentETag(s.db.contents[c].updatedAt)
       <==> a.now == s.db.contents[c].updatedAt
  {
    hide SysInv, DbInv, Extends, Enabled, NextDb, Completes, HasVersion, PublicRow, ContentETag;
    ContentEffects(s, a, indexed, c);
    StepSafe(s, a, indexed);
    var db' := NextDb(s, a, indexed);
    if db'.contents[c] == s.db.contents[c] {
      SameRowSamePublic(s.db, db', c);
    }
    TagsTellStampsApart(db'.contents[c].updatedAt, s.db.contents[c].updatedAt);
  }

  lemma NoCommaInNumber(n: int)
    ensures ',' !in FormatInt(n)
  {
    var s := FormatInt(n);
    forall i | 0 <= i < |s|
      ensures s[i] != ','
    {
      if n < 0 && i > 0 {
        assert s[i] == Digits(-n)[i - 1] && IsDigit(Digits(-n)[i - 1]);
      } else if n >= 0 {
        assert IsDigit(Digits(n)[i]);
      }
    }
  }

  /** `text` is inside the tag served for content `c` at state `i`, which is `j` or earlier. */
  ghost predicate ServedAt(r: Run, i: nat, j: nat, c: string, text: string)
    requires |r.states| == |r.steps| + 1 && j < |r.states|
  {
    i <= j && IsPublic(r.states[i].db, c) && text == FormatInt(r.states[i].db.contents[c].updatedAt)
  }

  /** The row of `c` was rewritten since state `i`, and last with the stamp it had there. */
  ghost predicate StampReturned(r: Run, i: nat, j: nat, c: string)
    requires |r.states| == |r.steps| + 1 && j < |r.states|
  {
    i <= j && c in r.states[i].db.contents
    && exists m: nat :: LastRewrite(r, i, j, c, m) && StampOf(r.steps[m]) == r.states[i].db.contents[c].updatedAt
  }

  /** The client's copy from state `i` is what is served at state `j`. */
  ghost predicate CopyIsCurrent(r: Run, i: nat, j: nat, c: string)
    requires j < |r.states|
  {
    i <= j && IsPublic(r.states[i].db, c) && IsPublic(r.states[j].db, c)
    && PublicRow(r.states[i].db, c) == PublicRow(r.states[j].db, c)
  }

  lemma ServedTagMatches(r: Run, indexed: bool, i: nat, j: nat, c: string, text: string)
    requires IsRun(r, indexed) && j < |r.states| && IsPublic(r.states[j].db, c) && ServedAt(r, i, j, c, text)
    ensures text == FormatInt(r.states[j].db.contents[c].updatedAt) <==>
              CopyIsCurrent(r, i, j, c) || StampReturned(r, i, j, c)
  {
    hide RewritesAt, Untouched, ContentETag, FormatInt, PublicFields, StepOk;
    var x, y := r.states[i].db.contents[c].updatedAt, r.states[j].db.contents[c].updatedAt;
    TagsTellStampsApart(x, y);
    if FormatInt(x) == FormatInt(y) {
      FormatIntInjective(x, y);
    }
    DocumentTagIsExact(r, indexed, i, j, c);
    forall m: nat | LastRewrite(r, i, j, c, m)
      ensures StampOf(r.steps[m]) == y
    {
      LastRewriteLeaves(r, indexed, i, j, c, m);
    }
  }

  /** A client lists, weak or strong and in any layout, tags it was served for a document at any
      earlier times. It is told "not modified" if and only if some listed tag is of the current
      stamp, which means that the copy it got with that tag is the current representation, or
      else that the row was rewritten since and last with that very stamp. */
  lemma NotModifiedMeans(r: Run, indexed: bool, j: nat, c: string, es: seq<Element>)
    requires IsRun(r, indexed) && j < |r.states| && IsPublic(r.states[j].db, c)
    requires es != [] && forall k | 0 <= k < |es| :: WellFormed(es[k])
    requires forall k | 0 <= k < |es| && es[k].tag.Some? :: exists i: nat :: ServedAt(r, i, j, c, es[k].tag.value.text)
    ensures NotModified(RenderList(es), ContentETag(r.states[j].db.contents[c].updatedAt)) <==>
              exists k, i: nat :: 0 <= k < |es| && es[k].tag.Some? && ServedAt(r, i, j, c, es[k].tag.value.text)
                && (CopyIsCurrent(r, i, j, c) || StampReturned(r, i, j, c))
  {
    hide StampReturned, CopyIsCurrent, ServedAt, StepOk, WellFormed, RenderList, NotModified, FormatInt;
    var text := FormatInt(r.states[j].db.contents[c].updatedAt);
    NoCommaInNumber(r.states[j].db.contents[c].updatedAt);
    SplittingAgreesWithGrammar(es, text);
    if ListMatches(es, text) {
      var k :| 0 <= k < |es| && es[k].tag.Some? && es[k].tag.value.text == text;
      var i: nat :| ServedAt(r, i, j, c, es[k].tag.value.text);
      ServedTagMatches(r, indexed, i, j, c, text);
    }
    if k, i: nat :|
      && 0 <= k < |es| && es[k].tag.Some? && ServedAt(r, i, j, c, es[k].tag.value.text)
      && (CopyIsCurrent(r, i, j, c) || StampReturned(r, i, j, c)) {
      ServedTagMatches(r, indexed, i, j, c, es[k].tag.value.text);
    }
  }

  lemma GrowingStampsDoNotReturn(r: Run, indexed: bool, i: nat, j: nat, c: string)
    requires IsRun(r, indexed) && i <= j < |r.states| && StampsGrow(r, i, j, c)
    requires IsPublic(r.states[i].db, c) && IsPublic(r.states[j].db, c) && StampReturned(r, i, j, c)
    ensures CopyIsCurrent(r, i, j, c)
  {
    hide RewritesAt, Untouched, StepOk, StampsGrow, PublicRow, IsPublic;
    var m: nat :| LastRewrite(r, i, j, c, m) && StampOf(r.steps[m]) == r.states[i].db.contents[c].updatedAt;
    LastRewriteLeaves(r, indexed, i, j, c, m);
    DocumentTagIsSound(r, indexed, i, j, c);
  }

  /** In particular, where stamps grow in commit order on the document since each listed tag was
      served, "not modified" means that a copy the client has is current. */
  lemma NotModifiedMeansCurrent(r: Run, indexed: bool, j: nat, c: string, es: seq<Element>)
    requires IsRun(r, indexed) && j < |r.states| && IsPublic(r.states[j].db, c)
    requires es != [] && forall k | 0 <= k < |es| :: WellFormed(es[k])
    requires forall k | 0 <= k < |es| && es[k].tag.Some? :: exists i: nat :: ServedAt(r, i, j, c, es[k].tag.value.text)
    requires forall k, i: nat | 0 <= k < |es| && es[k].tag.Some? && ServedAt(r, i, j, c, es[k].tag.value.text) ::
               StampsGrow(r, i, j, c)
    ensures NotModified(RenderList(es), ContentETag(r.states[j].db.contents[c].updatedAt)) <==>
              exists k, i: nat :: 0 <= k < |es| && es[k].tag.Some? && ServedAt(r, i, j, c, es[k].tag.value.text)
                && CopyIsCurrent(r, i, j, c)
  {
    hide StampReturned, CopyIsCurrent, StampsGrow, StepOk, WellFormed, RenderList, NotModified, FormatInt;
    NotModifiedMeans(r, indexed, j, c, es);
    forall k, i: nat | 0 <= k < |es| && es[k].tag.Some? && ServedAt(r, i, j, c, es[k].tag.value.text)
      && StampReturned(r, i, j, c)
      ensures CopyIsCurrent(r, i, j, c)
    {
      GrowingStampsDoNotReturn(r, indexed, i, j, c);
    }
  }

  // ---------- the collection ----------

  /** The step stamps what it changes later than everything stamped so far. */
  ghost predicate StampsLatest(x: Db, y: Db) {
    forall c | c in y.contents && ContentRow(x, c) != ContentRow(y, c) ::
      0 < y.contents[c].updatedAt
      && forall d | d in x.contents :: x.contents[d].updatedAt < y.contents[c].updatedAt
  }

  lemma PublicStays(s: State, a: Step, indexed: bool, c: string)
    requires SysInv(s) && Enabled(s, a) && !a.UnpublishStep? && IsPublic(s.db, c)
    ensures IsPublic(NextDb(s, a, indexed), c)
  {
    hide SysInv, DbInv, Extends, Enabled, NextDb, Completes, EditTakesEffect;
    ContentEffects(s, a, indexed, c);
    StepSafe(s, a, indexed);
    PublishedRowsExist(NextDb(s, a, indexed), c);
  }

  lemma LatestRises(x: Db, y: Db, c: string)
    requires StampsLatest(x, y) && IsPublic(y, c) && ContentRow(x, c) != ContentRow(y, c)
    ensures LatestPublishedAt(x) < LatestPublishedAt(y)
  {
    var m, n := LatestPublishedAt(x), LatestPublishedAt(y);
    assert c in PublicIds(y);
    assert y.contents[c].updatedAt <= n;
    if PublicIds(x) != {} {
      var d :| d in PublicIds(x) && x.contents[d].updatedAt == m;
    }
  }

  lemma UnchangedRowsSameTable(x: Db, y: Db)
    requires Extends(x, y)
    requires forall c | IsPublic(x, c) :: IsPublic(y, c)
    requires forall c | IsPublic(y, c) :: ContentRow(x, c) == ContentRow(y, c)
    requires forall c | c in x.contents && x.contents[c].publishedVersionId.Some? :: IsPublic(x, c)
    ensures PublicTable(x) == PublicTable(y)
  {
    forall c
      ensures IsPublic(x, c) <==> IsPublic(y, c)
      ensures IsPublic(x, c) ==> JoinedRow(x, c) == JoinedRow(y, c)
    {
      if IsPublic(y, c) {
        assert ContentRow(x, c) == ContentRow(y, c);
      }
      if IsPublic(x, c) {
        SameRowSamePublic(x, y, c);
      }
    }
    assert PublicIds(x) == PublicIds(y);
  }

  lemma CollectionStep(s: State, a: Step, indexed: bool)
    requires SysInv(s) && Enabled(s, a) && !a.UnpublishStep? && StampsLatest(s.db, NextDb(s, a, indexed))
    ensures PublicTable(NextDb(s, a, indexed)) == PublicTable(s.db)
         || LatestPublishedAt(s.db) < LatestPublishedAt(NextDb(s, a, indexed))
  {
    var x, y := s.db, NextDb(s, a, indexed);
    StepSafe(s, a, indexed);
    if c :| IsPublic(y, c) && ContentRow(x, c) != ContentRow(y, c) {
      LatestRises(x, y, c);
    } else {
      forall c | IsPublic(x, c)
        ensures IsPublic(y, c)
      {
        hide SysInv, Enabled;
        PublicStays(s, a, indexed, c);
      }
      forall c | c in x.contents && x.contents[c].publishedVersionId.Some?
        ensures IsPublic(x, c)
      {
        PublishedRowsExist(x, c);
      }
      UnchangedRowsSameTable(x, y);
    }
  }

  lemma {:induction false} TableOrLatest(r: Run, indexed: bool, i: nat, j: nat)
    requires IsRun(r, indexed) && i <= j < |r.states|
    requires forall m: nat | i <= m < j :: !r.steps[m].UnpublishStep? && StampsLatest(r.states[m].db, r.states[m + 1].db)
    ensures PublicTable(r.states[i].db) == PublicTable(r.states[j].db)
         || LatestPublishedAt(r.states[i].db) < LatestPublishedAt(r.states[j].db)
    decreases j
  {
    hide StampsLatest, PublicTable, LatestPublishedAt, IsLatest, SysInv, Enabled, NextDb;
    if i < j {
      TableOrLatest(r, indexed, i, j - 1);
      RunInv(r, indexed, j - 1);
      RunStep(r, indexed, j - 1);
      assert StampsLatest(r.states[j - 1].db, r.states[j].db);
      CollectionStep(r.states[j - 1], r.steps[j - 1], indexed);
      if PublicTable(r.states[i].db) == PublicTable(r.states[j - 1].db) {
        SameLatest(r.states[i].db, r.states[j - 1].db);
      }
      if PublicTable(r.states[j - 1].db) == PublicTable(r.states[j].db) {
        SameLatest(r.states[j - 1].db, r.states[j].db);
      }
    }
  }

  lemma LatestAtMost(x: Db, y: Db)
    requires PublicList(x) == PublicList(y) && PublicIds(x) != {}
    ensures PublicIds(y) != {} && LatestPublishedAt(x) <= LatestPublishedAt(y)
  {
    ListingMembers(x, PublicIds(x));
    ListingMembers(y, PublicIds(y));
    var c :| c in PublicIds(x) && x.contents[c].updatedAt == LatestPublishedAt(x);
    var ids, ids' := Listing(x, PublicIds(x)), Listing(y, PublicIds(y));
    var i :| 0 <= i < |ids| && ids[i] == c;
    assert PublicList(x)[i].updatedAt == y.contents[ids'[i]].updatedAt;
    assert ids'[i] in PublicIds(y);
  }

  /** The tag is a function of the list it is sent with. */
  lemma ListDeterminesTag(x: Db, y: Db)
    requires PublicList(x) == PublicList(y)
    ensures LatestPublishedAt(x) == LatestPublishedAt(y)
  {
    hide PublicIds, Listing, PublicRows;
    if PublicIds(x) != {} {
      LatestAtMost(x, y);
    }
    if PublicIds(y) != {} {
      LatestAtMost(y, x);
    }
  }

  /** If nothing is unpublished in between and stamps grow in commit order, the collection tag
      changes exactly when the public list does. So a list read at `i` and a tag read at `j`
      belong together if and only if no public change landed between the two reads. */
  lemma CollectionTagTracksList(r: Run, indexed: bool, i: nat, j: nat)
    requires IsRun(r, indexed) && i <= j < |r.states|
    requires forall m: nat | i <= m < j :: !r.steps[m].UnpublishStep? && StampsLatest(r.states[m].db, r.states[m + 1].db)
    ensures ContentETag(LatestPublishedAt(r.states[i].db)) == ContentETag(LatestPublishedAt(r.states[j].db))
       <==> PublicList(r.states[i].db) == PublicList(r.states[j].db)
    ensures PublicList(r.states[i].db) == PublicList(r.states[j].db)
       <==> PublicTable(r.states[i].db) == PublicTable(r.states[j].db)
  {
    hide StampsLatest, PublicTable, LatestPublishedAt, IsLatest, PublicList, ContentETag, IsRun;
    var x, y := r.states[i].db, r.states[j].db;
    TagsTellStampsApart(LatestPublishedAt(x), LatestPublishedAt(y));
    TableOrLatest(r, indexed, i, j);
    if PublicList(x) == PublicList(y) {
      ListDeterminesTag(x, y);
    }
    if PublicTable(x) == PublicTable(y) {
      SameList(x, y);
    }
  }

  lemma {:induction false} ReplayHasTime(events: seq<Event>, c: string)
    ensures Replay(events, c).version.Some? ==> Replay(events, c).at.Some?
    decreases |events|
  {
    if events != [] {
      ReplayHasTime(events[..|events| - 1], c);
    }
  }

  lemma PublishedHasTime(db: Db, c: string)
    requires DbInv(db) && c in db.contents && db.contents[c].publishedVersionId.Some?
    ensures db.contents[c].publishedAt.Some?
  {
    hide SchemaOk, History, Ownership, Leases, ExactlyOnce, Effective, IdsIncrease, Replay;
    assert PointerOf(db.contents[c]) == Replay(db.events, c);
    ReplayHasTime(db.events, c);
  }

  lemma ContentKept(x: Db, y: Db, c: string)
    requires Extends(x, y) && c in x.contents
    ensures c in y.contents && y.contents[c].slug == x.contents[c].slug
  {
  }

  lemma SameListSameIds(x: Db, y: Db)
    requires Extends(x, y) && SlugsUnique(y.contents) && PublicList(x) == PublicList(y)
    ensures Listing(x, PublicIds(x)) == Listing(y, PublicIds(y))
  {
    hide Extends, Listing, PublicFields;
    ListingMembers(x, PublicIds(x));
    ListingMembers(y, PublicIds(y));
    var ids, ids' := Listing(x, PublicIds(x)), Listing(y, PublicIds(y));
    assert |ids| == |PublicList(x)| == |ids'|;
    forall i | 0 <= i < |ids|
      ensures ids[i] == ids'[i]
    {
      assert ids[i] in PublicIds(x) && ids'[i] in PublicIds(y);
      assert PublicList(x)[i] == PublicRow(x, ids[i]) && PublicList(y)[i] == PublicRow(y, ids'[i]);
      ContentKept(x, y, ids[i]);
    }
  }

  lemma SameListSameRow(x: Db, y: Db, c: string)
    requires DbInv(x) && DbInv(y) && PublicList(x) == PublicList(y)
    requires Listing(x, PublicIds(x)) == Listing(y, PublicIds(y)) && c in PublicIds(x) && c in PublicIds(y)
    ensures JoinedRow(x, c) == JoinedRow(y, c)
  {
    hide DbInv, Listing, PublicFields;
    ListingMembers(x, PublicIds(x));
    var ids := Listing(x, PublicIds(x));
    var i :| 0 <= i < |ids| && ids[i] == c;
    assert PublicList(x)[i] == PublicRow(x, c) && PublicList(y)[i] == PublicRow(y, c);
    PublishedHasTime(x, c);
    PublishedHasTime(y, c);
  }

  /** Along a run, whatever the clocks do, the public list is the same exactly when every public
      row of the join is. */
  lemma ListIsTable(x: Db, y: Db)
    requires DbInv(x) && DbInv(y) && Extends(x, y)
    ensures PublicList(x) == PublicList(y) <==> PublicTable(x) == PublicTable(y)
  {
    hide History, Ownership, Leases, ExactlyOnce, Audit, Extends, PublicList, Listing, JoinedRow, IsPublic,
      KeysOk, NumbersUnique, OneActive, ForeignKeysOk, SlugsUnique;
    if PublicTable(x) == PublicTable(y) {
      SameList(x, y);
    }
    if PublicList(x) == PublicList(y) {
      SameListSameIds(x, y);
      ListingMembers(x, PublicIds(x));
      ListingMembers(y, PublicIds(y));
      assert PublicIds(x) == PublicIds(y) by {
        forall c
          ensures c in PublicIds(x) <==> c in PublicIds(y)
        {
          assert c in Listing(x, PublicIds(x)) <==> c in PublicIds(x);
        }
      }
      forall c | c in PublicIds(x)
        ensures IsPublic(x, c) && IsPublic(y, c) && JoinedRow(x, c) == JoinedRow(y, c)
      {
        SameListSameRow(x, y, c);
      }
    }
  }

  /** Withdrawing a document shortens the list; the tag stays the same exactly when another
      public document was modified no earlier (or the last one had stamp 0). */
  lemma UnpublishKeepsTagWhen(db: Db, c: string, actor: string, now: int)
    requires IsPublic(db, c)
    ensures var after := Unpublish(db, c, actor, now).db;
            && CountPublic(after) == CountPublic(db) - 1
            && (ContentETag(LatestPublishedAt(after)) == ContentETag(LatestPublishedAt(db)) <==>
                  || (exists d | d in PublicIds(db) && d != c :: db.contents[c].updatedAt <= db.contents[d].updatedAt)
                  || (PublicIds(db) == {c} && db.contents[c].updatedAt == 0))
  {
    var after := Unpublish(db, c, actor, now).db;
    assert PublicIds(after) == PublicIds(db) - {c};
    assert c in PublicIds(db);
    forall d | d in PublicIds(after)
      ensures after.contents[d].updatedAt == db.contents[d].updatedAt
    {
    }
    var m, n := LatestPublishedAt(db), LatestPublishedAt(after);
    assert IsLatest(db, m) && IsLatest(after, n);
    TagsTellStampsApart(n, m);
    if PublicIds(after) == {} {
      assert PublicIds(db) == {c};
    }
  }

  /** A stamp `t` on public row `c`, everything else as before, keeps the collection tag exactly
      when it equals the old MAX, or is below it and another document holds the old MAX. */
  lemma StampKeepsCollectionTagWhen(x: Db, y: Db, c: string, t: int)
    requires IsPublic(y, c) && y.contents[c].updatedAt == t
    requires forall d | d != c :: ContentRow(x, d) == ContentRow(y, d) && (IsPublic(x, d) <==> IsPublic(y, d))
    ensures var latest := LatestPublishedAt(x);
            ContentETag(LatestPublishedAt(y)) == ContentETag(latest) <==>
              t == latest || (t < latest && exists d | d in PublicIds(x) && d != c :: x.contents[d].updatedAt == latest)
  {
    hide ContentETag;
    var m, n := LatestPublishedAt(x), LatestPublishedAt(y);
    assert IsLatest(x, m) && IsLatest(y, n);
    TagsTellStampsApart(n, m);
    assert c in PublicIds(y);
    forall d | d != c
      ensures d in PublicIds(x) <==> d in PublicIds(y)
      ensures d in PublicIds(x) ==> x.contents[d].updatedAt == y.contents[d].updatedAt
    {
      assert ContentRow(x, d) == ContentRow(y, d);
    }
  }

  lemma OneRowChanges(s: State, a: Step, indexed: bool, c: string, d: string)
    requires Enabled(s, a) && c != d && ContentRow(s.db, c) != ContentRow(NextDb(s, a, indexed), c)
    ensures ContentRow(s.db, d) == ContentRow(NextDb(s, a, indexed), d)
  {
    hide Enabled, NextDb, Completes, HasVersion;
    ContentEffects(s, a, indexed, c);
    ContentEffects(s, a, indexed, d);
  }

  lemma SameRowSamePublicity(x: Db, y: Db, d: string)
    requires DbInv(x) && DbInv(y) && ContentRow(x, d) == ContentRow(y, d)
    ensures IsPublic(x, d) <==> IsPublic(y, d)
  {
    hide DbInv;
    if d in x.contents && x.contents[d].publishedVersionId.Some? {
      PublishedRowsExist(x, d);
      PublishedRowsExist(y, d);
    }
  }

  /** So a publish, an edit or a completion whose reading is older than the newest stamp can
      change the list under an unchanged tag, and this is when. (A step that leaves every public
      row alone leaves the list alone; `UnpublishKeepsTagWhen` is for withdrawing.) */
  lemma StepKeepsCollectionTagWhen(s: State, a: Step, indexed: bool, c: string)
    requires SysInv(s) && Enabled(s, a)
    requires IsPublic(NextDb(s, a, indexed), c) && ContentRow(s.db, c) != ContentRow(NextDb(s, a, indexed), c)
    ensures var latest, t := LatestPublishedAt(s.db), StampOf(a);
            ContentETag(LatestPublishedAt(NextDb(s, a, indexed))) == ContentETag(latest) <==>
              || t == latest
              || (t < latest && exists d | d in PublicIds(s.db) && d != c :: s.db.contents[d].updatedAt == latest)
  {
    hide DbInv, Extends, Enabled, NextDb, IsPublic, ContentETag, LatestPublishedAt, PublicIds, ProcessInv, SessionInv;
    StepSafe(s, a, indexed);
    RewriteStamps(s, a, indexed, c);
    forall d | d != c
      ensures ContentRow(s.db, d) == ContentRow(NextDb(s, a, indexed), d)
      ensures IsPublic(s.db, d) <==> IsPublic(NextDb(s, a, indexed), d)
    {
      OneRowChanges(s, a, indexed, c, d);
      SameRowSamePublicity(s.db, NextDb(s, a, indexed), d);
    }
    StampKeepsCollectionTagWhen(s.db, NextDb(s, a, indexed), c, StampOf(a));
  }

  /** Over a run, with any clocks and any number of changes: the tags of states `i` and `j` are
      the same exactly when no document public at `j` was last stamped above the newest stamp of
      `i`, and one of them was last stamped just that. */
  lemma CollectionTagOverRuns(r: Run, indexed: bool, i: nat, j: nat)
    requires IsRun(r, indexed) && i <= j < |r.states|
    ensures var x, y := r.states[i].db, r.states[j].db;
            var latest := LatestPublishedAt(x);
            ContentETag(LatestPublishedAt(y)) == ContentETag(latest) <==>
              if PublicIds(y) == {} then latest == 0
              else
                && (exists c | c in PublicIds(y) :: LastStamp(r, i, j, c, latest))
                && (forall c, t | c in PublicIds(y) && LastStamp(r, i, j, c, t) :: t <= latest)
  {
    hide LastStamp, IsPublic, ContentETag, StepOk;
    var x, y := r.states[i].db, r.states[j].db;
    var m, n := LatestPublishedAt(x), LatestPublishedAt(y);
    assert IsLatest(y, n);
    TagsTellStampsApart(n, m);
    forall c, t | c in PublicIds(y)
      ensures LastStamp(r, i, j, c, t) <==> y.contents[c].updatedAt == t
    {
      LastStampIsUpdatedAt(r, indexed, i, j, c, t);
    }
    forall c | c in PublicIds(y)
      ensures LastStamp(r, i, j, c, y.contents[c].updatedAt)
    {
    }
  }
}
