/** The four tables of migrations/00001_init.sql as values, with the uniqueness and
    foreign-key rules that the transactions rely on. */
module Tables {

  datatype Option<+T> = None | Some(value: T)

  datatype Rule = PrimaryKey | Unique | ForeignKey

  /** The errors a store call can report; `ConstraintFailed` is a raw SQLite error and
      `TxFailed` an error of BEGIN or COMMIT. */
  datatype Error =
    | NotFound
    | VersionConflict
    | SlugTaken
    | ScheduleExists
    | NotCancellable
    | RunAtNotInFuture
    | Invalid(field: string)
    | LeaseLost
    | ConstraintFailed(rule: Rule)
    | TxFailed

  /** A clash on a primary key counts as one on a unique index. */
  predicate IsUniqueViolation(e: Error) {
    e == ConstraintFailed(Unique) || e == ConstraintFailed(PrimaryKey)
  }

  datatype Result<+T> = Ok(value: T) | Err(error: Error)

  datatype VersionFields = VersionFields(
    title: string, body: string, metaTitle: string, metaDescription: string,
    canonicalUrl: string, ogImageUrl: string, noIndex: bool)

  datatype Content = Content(
    id: string, slug: string, currentVersion: int,
    publishedVersionId: Option<int>, publishedAt: Option<int>,
    createdAt: int, updatedAt: int)

  datatype Version = Version(
    id: int, contentId: string, number: int,
    createdBy: string, createdAt: int, fields: VersionFields)

  datatype ContentWithVersion = ContentWithVersion(content: Content, version: Version)

  datatype Status = Pending | Claimed | Done | Cancelled | Failed

  datatype Schedule = Schedule(
    id: string, contentId: string, versionId: int, runAt: int,
    status: Status, attempts: int,
    lockedBy: Option<string>, lockExpiresAt: Option<int>,
    lastError: string, createdAt: int, updatedAt: int)

  datatype Action = PublishAction | UnpublishAction

  datatype Source = Manual | Scheduled

  datatype Event = Event(
    id: int, contentId: string, versionId: Option<int>, action: Action, source: Source,
    scheduleId: Option<string>, actor: string, occurredAt: int)

  /** What a claim hands to its worker: which schedule, and the version it pins. */
  datatype ClaimedJob = ClaimedJob(scheduleId: string, contentId: string, versionId: int)

  /** One database state. Rows are keyed by primary key; `versionSeq` and `eventSeq` are the
      AUTOINCREMENT counters; events are listed in id order. */
  datatype Db = Db(
    contents: map<string, Content>,
    versions: map<int, Version>, versionSeq: int,
    schedules: map<string, Schedule>,
    events: seq<Event>, eventSeq: int)

  const EMPTY_DB := Db(map[], map[], 0, map[], [], 0)

  // ---------- what the constraints and WHERE clauses talk about ----------

  predicate IsVersion(versions: map<int, Version>, row: int, contentId: string, number: int) {
    row in versions && versions[row].contentId == contentId && versions[row].number == number
  }

  predicate HasVersion(versions: map<int, Version>, contentId: string, number: int) {
    exists row | row in versions :: IsVersion(versions, row, contentId, number)
  }

  predicate SlugUsed(contents: map<string, Content>, slug: string) {
    exists c | c in contents :: contents[c].slug == slug
  }

  predicate Active(s: Schedule) {
    s.status == Pending || s.status == Claimed
  }

  predicate HasActive(schedules: map<string, Schedule>, contentId: string) {
    exists k | k in schedules :: Active(schedules[k]) && schedules[k].contentId == contentId
  }

  predicate HasEvent(events: seq<Event>, scheduleId: string) {
    exists i | 0 <= i < |events| :: events[i].scheduleId == Some(scheduleId)
  }

  predicate HoldsLease(schedules: map<string, Schedule>, scheduleId: string, worker: string) {
    scheduleId in schedules
    && schedules[scheduleId].status == Claimed
    && schedules[scheduleId].lockedBy == Some(worker)
  }

  // ---------- the constraints of the schema ----------

  predicate KeysOk(db: Db) {
    && (forall c | c in db.contents :: db.contents[c].id == c)
    && (forall r | r in db.versions :: db.versions[r].id == r && 1 <= r <= db.versionSeq)
    && (forall k | k in db.schedules :: db.schedules[k].id == k)
    && 0 <= db.versionSeq
  }

  /** contents.slug UNIQUE */
  predicate SlugsUnique(contents: map<string, Content>) {
    forall a, b | a in contents && b in contents && contents[a].slug == contents[b].slug :: a == b
  }

  /** content_versions UNIQUE (content_id, version) */
  predicate NumbersUnique(versions: map<int, Version>) {
    forall a, b | a in versions && b in versions
      && versions[a].contentId == versions[b].contentId && versions[a].number == versions[b].number
      :: a == b
  }

  /** ux_schedule_active_per_content */
  predicate OneActive(schedules: map<string, Schedule>) {
    forall a, b | a in schedules && b in schedules
      && Active(schedules[a]) && Active(schedules[b])
      && schedules[a].contentId == schedules[b].contentId
      :: a == b
  }

  /** ux_event_per_schedule */
  predicate OneEventEach(events: seq<Event>) {
    forall i, j | 0 <= i < |events| && 0 <= j < |events|
      && events[i].scheduleId.Some? && events[i].scheduleId == events[j].scheduleId
      :: i == j
  }

  predicate ForeignKeysOk(db: Db) {
    && (forall c {:trigger db.contents[c].publishedVersionId}
          | c in db.contents && db.contents[c].publishedVersionId.Some? ::
          db.contents[c].publishedVersionId.value in db.versions)
    && (forall r | r in db.versions :: db.versions[r].contentId in db.contents)
    && (forall k | k in db.schedules ::
          db.schedules[k].contentId in db.contents && db.schedules[k].versionId in db.versions)
    && (forall i | 0 <= i < |db.events| ::
          db.events[i].contentId in db.contents
          && (db.events[i].versionId.Some? ==> db.events[i].versionId.value in db.versions))
  }

  /** Everything the schema declares; `indexed` says whether ux_event_per_schedule is there. */
  predicate SchemaOk(db: Db, indexed: bool) {
    KeysOk(db) && SlugsUnique(db.contents) && NumbersUnique(db.versions)
    && OneActive(db.schedules) && ForeignKeysOk(db) && (indexed ==> OneEventEach(db.events))
  }
}
