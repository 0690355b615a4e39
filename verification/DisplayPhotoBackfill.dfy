/**
  The display-photo backfill (app/services/display_photo_backfill.py): one record at a
  time, a derivative is uploaded to object storage and named by the row's photo_display.
  The two stores share no transaction, every external call may fail or lie about its
  effect, and other writers edit the rows between any two steps.
 */
module DisplayPhotoBackfill {
  import opened Wrappers
  import opened Text

  // ---- Rows, objects and keys ---------------------------------------------------

  datatype Entity = Students | Employees

  datatype RowId = RowId(entity: Entity, id: nat)

  datatype Row = Row(school: nat, photo: Option<string>, display: Option<string>)

  type Db = map<RowId, Row>

  /** Objects of the upload bucket by key; the stored size may be unknown. */
  type Storage = map<string, Option<nat>>

  /** The command line and the application's settings; hostConfirmed and localRootConfirmed
      say whether the operator's confirmations match. */
  datatype Config = Config(
    runId: string,
    baseUrl: string,
    bucket: string,
    storageHost: Option<string>,
    originalBuckets: set<string>,
    maxOriginalBytes: nat,
    schoolId: Option<nat>,
    excludedSchools: set<nat>,
    includeLocal: bool,
    localRootConfirmed: bool,
    apply: bool,
    hostConfirmed: bool,
    limit: Option<int>,
    batchSize: int,
    resumeAfterId: Option<nat>,
    maxErrors: int)

  const PUBLIC_MARKER: string := "/storage/v1/object/public/"
  const EXTENSION: string := ".webp"

  function Subfolder(e: Entity): string {
    match e
    case Students => "students/display"
    case Employees => "employees/display"
  }

  function Stem(c: Config, e: Entity): string {
    Subfolder(e) + "/bf" + c.runId + "-"
  }

  function Key(c: Config, e: Entity, hex: string): string {
    Stem(c, e) + hex + EXTENSION
  }

  function ObjectUrl(c: Config, key: string): string {
    c.baseUrl + PUBLIC_MARKER + c.bucket + "/" + key
  }

  predicate IsHex(s: string) {
    |s| == 32 && forall i :: 0 <= i < |s| ==> IsDigit(s[i]) || 'a' <= s[i] <= 'f'
  }

  /** The 32 characters in front of the extension. */
  function HexOf(s: string): string {
    if |s| < 37 then "" else s[|s| - 37..|s| - 5]
  }

  /** This run's key pattern: the only keys cleanup may ever delete. */
  predicate KeyMatches(c: Config, k: string) {
    && 37 <= |k| && k[|k| - 5..] == EXTENSION && IsHex(HexOf(k))
    && (k[..|k| - 37] == Stem(c, Students) || k[..|k| - 37] == Stem(c, Employees))
  }

  predicate HasSuffix(s: string, suffix: string) {
    |suffix| <= |s| && s[|s| - |suffix|..] == suffix
  }

  /** A stored value refers to the object, in any of the spellings the columns use. */
  predicate Names(c: Config, value: Option<string>, key: string) {
    value.Some? && (value.value == ObjectUrl(c, key) || HasSuffix(value.value, "/" + key) || value.value == key)
  }

  predicate RowNames(c: Config, row: Row, key: string) {
    Names(c, row.photo, key) || Names(c, row.display, key)
  }

  function ReferenceCount(c: Config, db: Db, key: string): nat {
    |set id | id in db && RowNames(c, db[id], key)|
  }

  ghost predicate Referenced(c: Config, db: Db, key: string) {
    exists id :: id in db && RowNames(c, db[id], key)
  }

  lemma CountsReferences(c: Config, db: Db, key: string)
    ensures ReferenceCount(c, db, key) > 0 <==> Referenced(c, db, key)
  {
    var s := set id | id in db && RowNames(c, db[id], key);
    if Referenced(c, db, key) {
      var id :| id in db && RowNames(c, db[id], key);
      assert id in s;
    } else {
      assert s == {};
    }
  }

  lemma MintedKeyMatches(c: Config, e: Entity, hex: string)
    requires IsHex(hex)
    ensures KeyMatches(c, Key(c, e, hex)) && HexOf(Key(c, e, hex)) == hex
  {
    var k := Key(c, e, hex);
    assert |k| == |Stem(c, e)| + 37;
    assert k[|k| - 5..] == EXTENSION;
    assert k[|k| - 37..|k| - 5] == hex;
    assert k[..|k| - 37] == Stem(c, e);
  }

  /** The keys that cleanup may delete are exactly those the run can draw. */
  lemma MatchesExactlyMinted(c: Config, k: string)
    ensures KeyMatches(c, k) <==> exists e, hex :: IsHex(hex) && k == Key(c, e, hex)
  {
    if KeyMatches(c, k) {
      var e := if k[..|k| - 37] == Stem(c, Students) then Students else Employees;
      assert k == k[..|k| - 37] + HexOf(k) + k[|k| - 5..];
      assert k == Key(c, e, HexOf(k));
    }
    forall e, hex | IsHex(hex) && k == Key(c, e, hex) ensures KeyMatches(c, k) {
      MintedKeyMatches(c, e, hex);
    }
  }

  lemma SuffixKeepsHex(s: string, k: string)
    requires 37 <= |k| && HasSuffix(s, k)
    ensures HexOf(s) == HexOf(k)
  {
    assert s[|s| - |k|..] == k;
    assert s[|s| - 37..|s| - 5] == k[|k| - 37..|k| - 5];
  }

  /** A URL of this run names no key with another unique part. */
  lemma UrlNamesOneHex(c: Config, key: string, other: string)
    requires 37 <= |key| && 37 <= |other| && Names(c, Some(ObjectUrl(c, key)), other)
    ensures HexOf(key) == HexOf(other)
  {
    var url := ObjectUrl(c, key);
    assert Names(c, Some(url), key);
    NamedIsSuffix(c, url, key);
    NamedIsSuffix(c, url, other);
    SuffixKeepsHex(url, key);
    SuffixKeepsHex(url, other);
  }

  lemma SuffixesOfOne(s: string, a: string, b: string)
    ensures HasSuffix(s, a) && HasSuffix(s, b) && |a| <= |b| ==> HasSuffix(b, a)
  {
    if HasSuffix(s, a) && HasSuffix(s, b) && |a| <= |b| {
      assert b[|b| - |a|..] == s[|s| - |b|..][|b| - |a|..] == s[|s| - |a|..];
    }
  }

  lemma SuffixOneShorter(s: string, a: string)
    ensures HasSuffix(s, a) && 0 < |a| && |s| == |a| + 1 ==> s[1] == a[0]
    ensures HasSuffix(s, a) && |s| == |a| ==> s == a
  {
    if HasSuffix(s, a) && 0 < |a| && |s| == |a| + 1 {
      assert s[1..][0] == a[0];
    }
    assert s[0..] == s;
  }

  /** The keys of employees are one letter longer, and start otherwise. */
  lemma KeyKinds(c: Config, k: string)
    ensures KeyMatches(c, k) ==>
      || (|k| == |Stem(c, Students)| + 37 && k[0] == 's')
      || (|k| == |Stem(c, Students)| + 38 && k[1] == 'm')
  {
    if KeyMatches(c, k) {
      var stem := k[..|k| - 37];
      assert |stem| > 1 && stem[0] == k[0] && stem[1] == k[1];
    }
  }

  /** No key of the run ends in another one, so no value can end in two. */
  lemma OneKeyAtTheEnd(c: Config, s: string, a: string, b: string)
    ensures KeyMatches(c, a) && KeyMatches(c, b) && HasSuffix(s, a) && HasSuffix(s, b) ==> a == b
  {
    KeyKinds(c, a);
    KeyKinds(c, b);
    SuffixesOfOne(s, a, b);
    SuffixesOfOne(s, b, a);
    SuffixOneShorter(a, b);
    SuffixOneShorter(b, a);
  }

  /** A value that names a key ends in it. */
  lemma NamedIsSuffix(c: Config, value: string, key: string)
    ensures Names(c, Some(value), key) ==> HasSuffix(value, key)
  {
    if value == ObjectUrl(c, key) {
      assert value[|value| - |key|..] == key;
    } else if HasSuffix(value, "/" + key) {
      assert value[|value| - |key|..] == value[|value| - |key| - 1..][1..];
      assert ("/" + key)[1..] == key;
    }
  }

  /** A URL of this run names no other key of the run. */
  lemma UrlNamesOneKey(c: Config, key: string, other: string)
    requires KeyMatches(c, key) && KeyMatches(c, other) && Names(c, Some(ObjectUrl(c, key)), other)
    ensures other == key
  {
    var url := ObjectUrl(c, key);
    assert Names(c, Some(url), key);
    NamedIsSuffix(c, url, key);
    NamedIsSuffix(c, url, other);
    OneKeyAtTheEnd(c, url, key, other);
  }

  /** Each of the spellings names the object: its URL, a path or foreign URL that ends in the key, the key itself. */
  lemma EverySpellingNames(c: Config, key: string, front: string)
    ensures Names(c, Some(ObjectUrl(c, key)), key)
    ensures Names(c, Some(front + "/" + key), key)
    ensures Names(c, Some(key), key)
  {
    var s := front + "/" + key;
    assert s[|s| - |"/" + key|..] == "/" + key;
  }

  predicate HasValue(v: Option<string>) {
    v.Some? && Strip(v.value) != ""
  }

  lemma SpacesStrip(s: string)
    ensures Strip(s) == "" <==> forall i :: 0 <= i < |s| ==> IsSpace(s[i])
  {
    StripKeepsText(s);
  }

  lemma NamedHasValue(c: Config, value: Option<string>, key: string)
    ensures KeyMatches(c, key) && Names(c, value, key) ==> HasValue(value)
  {
    if KeyMatches(c, key) && Names(c, value, key) {
      var v := value.value;
      assert HasSuffix(v, key) by {
        if v == ObjectUrl(c, key) {
          assert v[|v| - |key|..] == key;
        }
      }
      assert key[|key| - 5..][4] == 'p';
      assert v[|v| - |key|..][|key| - 1] == 'p';
      SpacesStrip(v);
    }
  }

  /** An empty column names no object, so overwriting it loses no reference. */
  lemma EmptyNamesNothing(c: Config, value: Option<string>, key: string)
    requires KeyMatches(c, key) && !HasValue(value)
    ensures !Names(c, value, key)
  {
    NamedHasValue(c, value, key);
  }

  // ---- The world outside the runner ----------------------------------------------

  /** A committed update of a row. */
  datatype Commit = Update(id: RowId, before: Row, after: Row)

  /**
    Both stores, how many unique names were drawn, what this run did to the stores, and
    the states the rows went through, of which db is the last.
   */
  datatype World = World(
    db: Db,
    objects: Storage,
    minted: nat,
    deletes: set<string>,
    commits: seq<Commit>,
    past: seq<Db>)

  /** The rows change, whoever changes them. */
  function Turned(w: World, db: Db): World {
    w.(db := db, past := w.past + [db])
  }

  /** Some row named the object at some time of the run. */
  ghost predicate Named(r: RunOf, w: World, key: string) {
    exists i :: 0 <= i < |w.past| && Referenced(r.c, w.past[i], key)
  }

  /** The history goes on from what it was. */
  predicate Since(before: World, after: World) {
    before.past <= after.past
  }

  /**
    What is fixed for a run: its configuration, the unique names it will draw, the objects
    stored before it, a bound on row ids, how the other writers behave (quiet ones never drop
    a reference to an object of the run, still ones never write), and whether it is certain
    that a commit that raises has had no effect.
   */
  datatype RunOf = RunOf(
    c: Config,
    uuid: nat -> string,
    before: Storage,
    bound: nat,
    quiet: bool,
    still: bool,
    certain: bool)

  ghost predicate Unique(r: RunOf) {
    && (forall n: nat :: IsHex(r.uuid(n)))
    && (forall m: nat, n: nat :: r.uuid(m) == r.uuid(n) ==> m == n)
  }

  /** Other writers invent no names of this run: what they write they have read at some time. */
  ghost predicate OnlyReadNames(r: RunOf, w: World, db: Db) {
    forall k :: KeyMatches(r.c, k) && Referenced(r.c, db, k) ==> Named(r, w, k)
  }

  /** Quiet writers keep the names of the run's objects. */
  ghost predicate KeepsNames(r: RunOf, a: Db, b: Db) {
    forall k :: KeyMatches(r.c, k) && Referenced(r.c, a, k) ==> Referenced(r.c, b, k)
  }

  /**
    What other writers may do to the rows: anything with the names they have read, even long
    ago. Only where a commit may raise after taking effect must they not put back a name whose
    object this run has deleted or, having counted no row that names it, is about to delete.
   */
  ghost predicate Edited(r: RunOf, w: World, at: Moment, db: Db) {
    && OnlyReadNames(r, w, db)
    && (!r.certain ==> forall k :: k in w.deletes ==> !Referenced(r.c, db, k))
    && (!r.certain && at == BeforeDelete ==> KeepsNames(r, db, w.db))
    && (r.quiet ==> KeepsNames(r, w.db, db))
    && (r.still ==> db == w.db)
    && Bounded(r, db)
  }

  datatype Moment = BeforeQuery | BeforeRead | BeforeLock | BeforeCommit | BeforeCount | BeforeDelete

  datatype Reply<+T> = Raised | Returned(value: T)

  datatype CommitReply = Committed | RaisedUncommitted | RaisedCommitted

  /** A delete call that does not report success may still have removed the object. */
  datatype DeleteReply = Removed | NotConfirmed(gone: bool)

  /** The stored originals of a batch with their sizes. */
  type Sizes = map<(string, string), Option<nat>>

  datatype Derived = Failure(outcome: Outcome, code: Code) | Bytes(size: nat)

  /** Everything the outside decides while one record is processed. */
  datatype Answers = Answers(
    edit: (Moment, World) -> Db,
    listing: Option<Sizes>,
    localSize: Option<nat>,
    readRaises: bool,
    fetched: Reply<nat>,
    derived: Derived,
    stored: Option<Option<nat>>,
    uploaded: Reply<Option<string>>,
    verifyRaises: bool,
    lockRaises: bool,
    commit: CommitReply,
    countRaises: bool,
    landed: Option<Option<nat>>,
    listRaises: bool,
    delete: DeleteReply)

  ghost predicate Bounded(r: RunOf, db: Db) {
    forall id :: id in db ==> id.id <= r.bound
  }

  /** The rows are the last state of the history, and name no object the run has deleted. */
  ghost predicate Settled(r: RunOf, w: World) {
    && Bounded(r, w.db) && |w.past| > 0 && w.past[|w.past| - 1] == w.db
    && (forall k :: k in w.deletes ==> KeyMatches(r.c, k) && !Referenced(r.c, w.db, k) && k !in r.before)
    && (r.certain ==> forall k :: k in w.deletes ==> !Named(r, w, k))
  }

  ghost predicate Polite(r: RunOf, a: Answers) {
    && (forall at, w :: Settled(r, w) ==> Edited(r, w, at, a.edit(at, w)))
    && (a.derived.Failure? ==> a.derived.outcome in {DecodeFailed, UnsupportedImage, OverPixelLimit})
    && (r.certain ==> a.commit != RaisedCommitted)
  }

  // ---- Records ---------------------------------------------------------------------

  datatype Outcome =
    | Ok | WouldProcess | OriginalMissing | LocalOriginalUnverified | DecodeFailed | UnsupportedImage
    | OverPixelLimit | StorageFetchFailed | StorageUploadFailed | ConflictSkipped | DbUpdateFailed
    | OrphanCandidate | UnexpectedError | UnsupportedOriginalRef | StorageHostMismatch | MetadataUnavailable

  datatype Code =
    | NoCode | NotAPublicValue | IncludeLocalNotSet | LocalFileMissing | OriginalTooLarge | UnexpectedBucket
    | OriginalHostDiffers | StorageObjectsUnreadable | NoStorageObject | ChangedBeforeRead
    | FetchReturnedNothing | EmptyOutput | DerivationError | UploadFailed | UnexpectedUploadResult
    | UploadUnverified | ChangedUnderLock | ExceptionName | Cause(outcome: Outcome)

  datatype Cleanup = Deleted | NotCreated | KeptReferenced | DeleteFailed | Refused

  datatype Original =
    | Supabase(bucket: string, key: string, host: string)
    | Local(rel: string)
    | Unsupported

  datatype Cand = Cand(id: RowId, school: nat, photo: Option<string>)

  datatype Rec = Rec(
    id: RowId,
    school: nat,
    original: Option<string>,
    source: Option<Original>,
    newDisplay: Option<string>,
    newKey: Option<string>,
    outcome: Option<Outcome>,
    code: Code,
    cleanup: Option<Cleanup>,
    originalSize: Option<nat>,
    displaySize: Option<nat>)

  function NewRec(cand: Cand): Rec {
    Rec(cand.id, cand.school, cand.photo, None, None, None, None, NoCode, None, None, None)
  }

  predicate IsError(outcome: Option<Outcome>) {
    outcome.None? || outcome.value !in {Ok, WouldProcess, LocalOriginalUnverified, ConflictSkipped}
  }

  function Errors(m: seq<Rec>): nat {
    if m == [] then 0 else Errors(m[..|m| - 1]) + if IsError(m[|m| - 1].outcome) then 1 else 0
  }

  /** The record says that its object may be left over in storage. */
  predicate Orphan(rec: Rec) {
    rec.outcome == Some(OrphanCandidate)
  }

  /** The record says that a row names its object. */
  predicate InUse(rec: Rec) {
    rec.outcome == Some(Ok) || rec.cleanup == Some(KeptReferenced)
  }

  // ---- What the two stores and the manifest keep together ----------------------------

  ghost predicate Filed(m: seq<Rec>, k: string) {
    exists i :: 0 <= i < |m| && m[i].newKey == Some(k)
  }

  /** Nothing anywhere mentions a key with this unique part. */
  ghost predicate Fresh(r: RunOf, w: World, m: seq<Rec>, hex: string) {
    forall k :: KeyMatches(r.c, k) && HexOf(k) == hex ==>
      && !Named(r, w, k) && k !in w.objects && k !in w.deletes && !Filed(m, k)
  }

  /** What a record says about its object is true. */
  ghost predicate Truthful(r: RunOf, w: World, rec: Rec) {
    rec.newKey.Some? ==>
      && KeyMatches(r.c, rec.newKey.value)
      && (rec.newKey.value in w.objects ==> Orphan(rec) || InUse(rec))
      && (InUse(rec) ==> Named(r, w, rec.newKey.value))
      && (InUse(rec) && r.quiet ==> Referenced(r.c, w.db, rec.newKey.value))
      && (InUse(rec) ==> !Orphan(rec) && rec.newKey.value !in w.deletes)
  }

  /**
    The record accounts for a committed update: photo_display was empty, photo was still
    the value the record started from, and only photo_display became the object's URL.
   */
  ghost predicate Justifies(r: RunOf, x: Commit, rec: Rec) {
    && x.id == rec.id && rec.newKey.Some?
    && !HasValue(x.before.display) && x.before.photo == rec.original && x.before.school == rec.school
    && x.after == x.before.(display := Some(ObjectUrl(r.c, rec.newKey.value)))
  }

  ghost predicate Explained(r: RunOf, x: Commit, m: seq<Rec>) {
    exists j :: 0 <= j < |m| && Justifies(r, x, m[j])
  }

  ghost predicate Explains(r: RunOf, commits: seq<Commit>, m: seq<Rec>) {
    forall i :: 0 <= i < |commits| ==> Explained(r, commits[i], m)
  }

  /** The safety invariant; `open` is the key of the record in progress, not yet filed. */
  ghost predicate Safe(r: RunOf, w: World, m: seq<Rec>, open: Option<string>) {
    && Settled(r, w)
    && (forall n: nat :: w.minted <= n ==> Fresh(r, w, m, r.uuid(n)))
    && (forall k :: k in r.before ==> k in w.objects && w.objects[k] == r.before[k])
    && (forall k :: k in w.objects ==> k in r.before || Filed(m, k) || open == Some(k))
    && (forall i :: 0 <= i < |m| ==> Truthful(r, w, m[i]))
    && (open.Some? ==>
          && KeyMatches(r.c, open.value) && !Filed(m, open.value)
          && open.value !in r.before
          && (forall k :: k in w.deletes && HexOf(k) == HexOf(open.value) ==> k == open.value)
          && (forall n: nat :: w.minted <= n ==> r.uuid(n) != HexOf(open.value)))
  }

  function Uploaded(w: World, key: string, stored: Option<Option<nat>>): World {
    w.(minted := w.minted + 1, objects := if stored.None? then w.objects else w.objects[key := stored.value])
  }

  lemma TurnedNames(r: RunOf, w: World, db: Db, k: string)
    ensures Named(r, Turned(w, db), k) <==> Named(r, w, k) || Referenced(r.c, db, k)
  {
    var v := Turned(w, db);
    if Named(r, w, k) {
      var i :| 0 <= i < |w.past| && Referenced(r.c, w.past[i], k);
      assert v.past[i] == w.past[i];
    }
    assert v.past[|w.past|] == db;
  }

  lemma NamedNow(r: RunOf, w: World, k: string)
    requires Settled(r, w) && Referenced(r.c, w.db, k)
    ensures Named(r, w, k)
  {
    assert Referenced(r.c, w.past[|w.past| - 1], k);
  }

  /**
    Writers that only write names they have read keep the invariant exactly when they put
    back no name of a deleted object.
   */
  lemma StaleWritesExactly(r: RunOf, w: World, m: seq<Rec>, open: Option<string>, db: Db)
    requires Safe(r, w, m, open) && OnlyReadNames(r, w, db) && (r.quiet ==> KeepsNames(r, w.db, db)) && Bounded(r, db)
    ensures Safe(r, Turned(w, db), m, open) <==> forall k :: k in w.deletes ==> !Referenced(r.c, db, k)
  {
    var v := Turned(w, db);
    forall n: nat | v.minted <= n ensures Fresh(r, v, m, r.uuid(n)) {
      assert Fresh(r, w, m, r.uuid(n));
      EditKeepsFresh(r, w, m, db, r.uuid(n));
    }
    forall i | 0 <= i < |m| ensures Truthful(r, v, m[i]) {
      assert Truthful(r, w, m[i]);
      EditKeepsTruthful(r, w, db, m[i]);
    }
    forall k | k in w.deletes ensures Named(r, v, k) <==> Named(r, w, k) || Referenced(r.c, db, k) {
      TurnedNames(r, w, db, k);
    }
  }

  /** While no commit raises after taking effect they cannot: no deleted object was ever named. */
  lemma StaleWritesAreHarmless(r: RunOf, w: World, m: seq<Rec>, open: Option<string>, db: Db)
    requires Safe(r, w, m, open) && OnlyReadNames(r, w, db) && (r.quiet ==> KeepsNames(r, w.db, db)) && Bounded(r, db)
    requires r.certain
    ensures Safe(r, Turned(w, db), m, open)
  {
    StaleWritesExactly(r, w, m, open, db);
    forall k | k in w.deletes ensures !Referenced(r.c, db, k) {
      assert KeyMatches(r.c, k) && !Named(r, w, k);
    }
  }

  lemma StillUnnamed(r: RunOf, w: World, db: Db, key: string)
    requires KeyMatches(r.c, key) && OnlyReadNames(r, w, db) && !Named(r, w, key)
    ensures !Named(r, Turned(w, db), key)
  {
    TurnedNames(r, w, db, key);
  }

  lemma EditKeepsFresh(r: RunOf, w: World, m: seq<Rec>, db: Db, hex: string)
    requires Fresh(r, w, m, hex) && OnlyReadNames(r, w, db)
    ensures Fresh(r, Turned(w, db), m, hex)
  {
    forall k | KeyMatches(r.c, k) && HexOf(k) == hex ensures !Named(r, Turned(w, db), k) {
      TurnedNames(r, w, db, k);
    }
  }

  lemma EditKeepsTruthful(r: RunOf, w: World, db: Db, rec: Rec)
    requires Truthful(r, w, rec) && (r.quiet ==> KeepsNames(r, w.db, db))
    ensures Truthful(r, Turned(w, db), rec)
  {
    if rec.newKey.Some? {
      TurnedNames(r, w, db, rec.newKey.value);
    }
  }

  lemma EditKeepsSafe(r: RunOf, w: World, m: seq<Rec>, open: Option<string>, at: Moment, db: Db)
    requires Safe(r, w, m, open) && Edited(r, w, at, db)
    ensures Safe(r, Turned(w, db), m, open)
    ensures open.Some? && !Named(r, w, open.value) ==> !Named(r, Turned(w, db), open.value)
  {
    if r.certain {
      StaleWritesAreHarmless(r, w, m, open, db);
    } else {
      StaleWritesExactly(r, w, m, open, db);
    }
    if open.Some? && !Named(r, w, open.value) {
      StillUnnamed(r, w, db, open.value);
    }
  }

  /** A newly drawn name can become the key in progress, whatever the upload stores under it. */
  lemma UploadKeepsSafe(r: RunOf, w: World, m: seq<Rec>, key: string, stored: Option<Option<nat>>)
    requires Unique(r) && Safe(r, w, m, None)
    requires KeyMatches(r.c, key) && HexOf(key) == r.uuid(w.minted)
    ensures Safe(r, Uploaded(w, key, stored), m, Some(key))
    ensures key !in w.objects && key !in w.deletes && !Referenced(r.c, w.db, key) && !Named(r, Uploaded(w, key, stored), key)
  {
    var v := Uploaded(w, key, stored);
    assert Fresh(r, w, m, r.uuid(w.minted));
    if Referenced(r.c, w.db, key) {
      NamedNow(r, w, key);
    }
    forall k ensures Named(r, v, k) <==> Named(r, w, k) {
    }
    forall n: nat | v.minted <= n ensures Fresh(r, v, m, r.uuid(n)) && r.uuid(n) != HexOf(key) {
      assert Fresh(r, w, m, r.uuid(n));
    }
    forall i | 0 <= i < |m| ensures Truthful(r, v, m[i]) {
      assert Truthful(r, w, m[i]);
      assert m[i].newKey != Some(key);
    }
  }

  /** Issuing a delete is safe when no row names the key, whatever it removes. */
  lemma DeleteKeepsSafe(r: RunOf, w: World, m: seq<Rec>, key: string, gone: bool)
    requires Safe(r, w, m, Some(key)) && !Referenced(r.c, w.db, key) && (r.certain ==> !Named(r, w, key))
    ensures Safe(r, w.(deletes := w.deletes + {key}, objects := if gone then w.objects - {key} else w.objects),
                 m, Some(key))
  {
    var v := w.(deletes := w.deletes + {key}, objects := if gone then w.objects - {key} else w.objects);
    DeleteKeepsSettled(r, w, v, key);
    forall n: nat | v.minted <= n ensures Fresh(r, v, m, r.uuid(n)) {
      assert Fresh(r, w, m, r.uuid(n)) && r.uuid(n) != HexOf(key);
      DeleteKeepsFresh(r, w, v, m, key, r.uuid(n));
    }
    forall i | 0 <= i < |m| ensures Truthful(r, v, m[i]) {
      assert Truthful(r, w, m[i]) && m[i].newKey != Some(key);
      DeleteKeepsTruthful(r, w, v, key, m[i]);
    }
  }

  lemma DeleteKeepsSettled(r: RunOf, w: World, v: World, key: string)
    requires Settled(r, w) && KeyMatches(r.c, key) && key !in r.before
    requires !Referenced(r.c, w.db, key) && (r.certain ==> !Named(r, w, key))
    requires v.db == w.db && v.past == w.past && v.deletes == w.deletes + {key}
    ensures Settled(r, v)
  {
    if r.certain {
      forall k | k in v.deletes ensures !Named(r, v, k) {
        assert !Named(r, w, k);
      }
    }
  }

  lemma DeleteKeepsFresh(r: RunOf, w: World, v: World, m: seq<Rec>, key: string, hex: string)
    requires Fresh(r, w, m, hex) && hex != HexOf(key)
    requires v.db == w.db && v.past == w.past && v.deletes == w.deletes + {key} && v.objects.Keys <= w.objects.Keys
    ensures Fresh(r, v, m, hex)
  {
  }

  lemma DeleteKeepsTruthful(r: RunOf, w: World, v: World, key: string, rec: Rec)
    requires Truthful(r, w, rec) && rec.newKey != Some(key)
    requires v.db == w.db && v.past == w.past && v.deletes == w.deletes + {key} && v.objects.Keys <= w.objects.Keys
    ensures Truthful(r, v, rec)
  {
  }

  function Written(db: Db, id: RowId, url: string): Db
    requires id in db
  {
    db[id := db[id].(display := Some(url))]
  }

  /** Writing a URL into an empty column adds references to its own object only. */
  lemma WriteReferences(c: Config, db: Db, id: RowId, key: string, k: string)
    requires id in db && !HasValue(db[id].display) && KeyMatches(c, key) && KeyMatches(c, k)
    ensures Referenced(c, Written(db, id, ObjectUrl(c, key)), k) ==> Referenced(c, db, k) || HexOf(k) == HexOf(key)
    ensures Referenced(c, db, k) ==> Referenced(c, Written(db, id, ObjectUrl(c, key)), k)
    ensures Referenced(c, Written(db, id, ObjectUrl(c, key)), key)
  {
    var after := Written(db, id, ObjectUrl(c, key));
    assert id in after && Names(c, after[id].display, key) && RowNames(c, after[id], key);
    if Referenced(c, after, k) {
      var j :| j in after && RowNames(c, after[j], k);
      if j == id && Names(c, after[id].display, k) {
        UrlNamesOneHex(c, key, k);
      } else {
        assert j in db && RowNames(c, db[j], k);
      }
    }
    if Referenced(c, db, k) {
      var j :| j in db && RowNames(c, db[j], k);
      EmptyNamesNothing(c, db[id].display, k);
      assert j in after && RowNames(c, after[j], k);
    }
  }

  lemma WriteNamesOne(c: Config, db: Db, id: RowId, key: string, k: string)
    requires id in db && !HasValue(db[id].display) && KeyMatches(c, key) && KeyMatches(c, k)
    ensures Referenced(c, Written(db, id, ObjectUrl(c, key)), k) <==> Referenced(c, db, k) || k == key
  {
    WriteReferences(c, db, id, key, k);
    var after := Written(db, id, ObjectUrl(c, key));
    if Referenced(c, after, k) {
      var j :| j in after && RowNames(c, after[j], k);
      if j == id && Names(c, after[id].display, k) {
        UrlNamesOneKey(c, key, k);
      } else {
        assert j in db && RowNames(c, db[j], k);
      }
    }
  }

  lemma CommitKeepsSafe(r: RunOf, w: World, m: seq<Rec>, key: string, id: RowId, commits: seq<Commit>)
    requires Safe(r, w, m, Some(key)) && key !in w.deletes
    requires id in w.db && !HasValue(w.db[id].display)
    ensures var v := Turned(w, Written(w.db, id, ObjectUrl(r.c, key))).(commits := commits);
      Safe(r, v, m, Some(key)) && Referenced(r.c, v.db, key)
  {
    var v := Turned(w, Written(w.db, id, ObjectUrl(r.c, key))).(commits := commits);
    forall k | KeyMatches(r.c, k)
      ensures Referenced(r.c, v.db, k) ==> Referenced(r.c, w.db, k) || HexOf(k) == HexOf(key)
      ensures Referenced(r.c, w.db, k) ==> Referenced(r.c, v.db, k)
      ensures Named(r, v, k) <==> Named(r, w, k) || Referenced(r.c, v.db, k)
      ensures Referenced(r.c, w.db, k) ==> Named(r, w, k)
    {
      WriteReferences(r.c, w.db, id, key, k);
      TurnedNames(r, w, v.db, k);
      assert Turned(w, v.db).past == v.past;
      if Referenced(r.c, w.db, k) {
        NamedNow(r, w, k);
      }
    }
    WriteReferences(r.c, w.db, id, key, key);
    forall n: nat | v.minted <= n ensures Fresh(r, v, m, r.uuid(n)) {
      assert Fresh(r, w, m, r.uuid(n));
    }
    forall i | 0 <= i < |m| ensures Truthful(r, v, m[i]) {
      assert Truthful(r, w, m[i]);
    }
  }

  /** Filing the record in progress keeps the invariant when the record is truthful. */
  lemma FileKeepsSafe(r: RunOf, w: World, m: seq<Rec>, rec: Rec)
    requires Safe(r, w, m, rec.newKey) && Truthful(r, w, rec)
    ensures Safe(r, w, m + [rec], None)
  {
    var n := m + [rec];
    forall k | Filed(m, k) || rec.newKey == Some(k) ensures Filed(n, k) {
      if Filed(m, k) {
        var i :| 0 <= i < |m| && m[i].newKey == Some(k);
        assert n[i].newKey == Some(k);
      } else {
        assert n[|m|].newKey == Some(k);
      }
    }
    forall j: nat | w.minted <= j ensures Fresh(r, w, n, r.uuid(j)) {
      assert Fresh(r, w, m, r.uuid(j));
      forall k | KeyMatches(r.c, k) && HexOf(k) == r.uuid(j) ensures !Filed(n, k) {
        assert !Filed(m, k);
      }
    }
  }

  /** What a record adds to the commits: nothing, or the one update it justifies. */
  ghost predicate AtMostOneWrite(r: RunOf, before: seq<Commit>, after: seq<Commit>, rec: Rec) {
    || after == before
    || (|after| == |before| + 1 && after[..|before|] == before && Justifies(r, after[|before|], rec))
  }

  lemma FileExplains(r: RunOf, before: seq<Commit>, after: seq<Commit>, m: seq<Rec>, rec: Rec)
    requires Explains(r, before, m) && AtMostOneWrite(r, before, after, rec)
    ensures Explains(r, after, m + [rec])
  {
    forall i | 0 <= i < |after| ensures Explained(r, after[i], m + [rec]) {
      if i < |before| {
        assert after[i] == before[i] && Explained(r, before[i], m);
        var j :| 0 <= j < |m| && Justifies(r, before[i], m[j]);
        assert Justifies(r, after[i], (m + [rec])[j]);
      } else {
        assert Justifies(r, after[i], (m + [rec])[|m|]);
      }
    }
  }

  /** Storage is unchanged, except for the object at the key. */
  ghost predicate SameElsewhere(before: Storage, after: Storage, key: Option<string>) {
    forall k :: key != Some(k) ==> (k in after <==> k in before) && (k in before ==> after[k] == before[k])
  }

  /** What cleanup found out about the object in progress makes the finished record true, so it can be filed. */
  lemma CleanedUpKeepsSafe(r: RunOf, w: World, m: seq<Rec>, rec: Rec, result: Cleanup)
    requires rec.newKey.Some? && Safe(r, w, m, rec.newKey)
    requires rec.cleanup == Some(result) && rec.outcome != Some(Ok)
    requires Orphan(rec) <==> result in {DeleteFailed, Refused}
    requires result in {Deleted, NotCreated} ==> rec.newKey.value !in w.objects
    requires result == KeptReferenced ==>
      rec.newKey.value !in w.deletes && Referenced(r.c, w.db, rec.newKey.value)
    ensures Safe(r, w, m + [rec], None)
  {
    if result == KeptReferenced {
      NamedNow(r, w, rec.newKey.value);
    }
    assert Truthful(r, w, rec);
    FileKeepsSafe(r, w, m, rec);
  }

  /** A record whose URL was written can be filed. */
  lemma WrittenKeepsSafe(r: RunOf, w: World, m: seq<Rec>, rec: Rec)
    requires rec.newKey.Some? && Safe(r, w, m, rec.newKey)
    requires rec.newKey.value !in w.deletes && Referenced(r.c, w.db, rec.newKey.value)
    requires rec.outcome == Some(Ok)
    ensures Safe(r, w, m + [rec], None)
  {
    NamedNow(r, w, rec.newKey.value);
    assert Truthful(r, w, rec);
    FileKeepsSafe(r, w, m, rec);
  }

  // ---- The runner -----------------------------------------------------------------------

  datatype Stop = MaxErrorsReached | LimitReached

  function Visible(db: Db, cand: Cand): Option<Row> {
    if cand.id in db && db[cand.id].school == cand.school then Some(db[cand.id]) else None
  }

  /** The row is still what the candidate query saw, and still has no display photo. */
  predicate Unchanged(row: Option<Row>, cand: Cand) {
    row.Some? && row.value.photo == cand.photo && !HasValue(row.value.display)
  }

  /** Why a record must not be read, if so; with the original's size when it is known. */
  function ClassifySkip(c: Config, original: Original, localSize: Option<nat>, sizes: Option<Sizes>):
    (Option<nat>, Option<(Outcome, Code)>)
  {
    match original
    case Unsupported => (None, Some((UnsupportedOriginalRef, NotAPublicValue)))
    case Local(_) =>
      if !c.includeLocal then (None, Some((LocalOriginalUnverified, IncludeLocalNotSet)))
      else if localSize.None? then (None, Some((OriginalMissing, LocalFileMissing)))
      else if localSize.value > c.maxOriginalBytes then (localSize, Some((UnsupportedImage, OriginalTooLarge)))
      else (localSize, None)
    case Supabase(bucket, key, host) =>
      if bucket !in c.originalBuckets then (None, Some((UnsupportedOriginalRef, UnexpectedBucket)))
      else if c.storageHost.Some? && c.storageHost.value != "" && host != c.storageHost.value then
        (None, Some((StorageHostMismatch, OriginalHostDiffers)))
      else if sizes.None? then (None, Some((MetadataUnavailable, StorageObjectsUnreadable)))
      else if (bucket, key) !in sizes.value then (None, Some((OriginalMissing, NoStorageObject)))
      else
        var size := sizes.value[(bucket, key)];
        if size.Some? && size.value > c.maxOriginalBytes then (size, Some((UnsupportedImage, OriginalTooLarge)))
        else (size, None)
  }

  /** The listing says how large the stored original is, or the file does; unknown sizes are no obstacle. */
  predicate KnownTooLarge(c: Config, size: Option<nat>) {
    size.Some? && c.maxOriginalBytes < size.value
  }

  /** The original may be read: it is of an allowed kind and place, it is there, and it is not too large. */
  predicate MayBeRead(c: Config, original: Original, localSize: Option<nat>, sizes: Option<Sizes>) {
    match original
    case Unsupported => false
    case Local(_) => c.includeLocal && localSize.Some? && localSize.value <= c.maxOriginalBytes
    case Supabase(bucket, key, host) =>
      && bucket in c.originalBuckets && OnConfiguredHost(c, host)
      && sizes.Some? && (bucket, key) in sizes.value && !KnownTooLarge(c, sizes.value[(bucket, key)])
  }

  /** No storage host is configured, or it is this one. */
  predicate OnConfiguredHost(c: Config, host: string) {
    c.storageHost.None? || c.storageHost.value == "" || c.storageHost.value == host
  }

  /** What each refusal to read says about the original. */
  ghost predicate RefusedFor(c: Config, original: Original, localSize: Option<nat>, sizes: Option<Sizes>,
                           why: Option<(Outcome, Code)>) {
    var stored := original.Supabase?;
    var allowed := stored && original.bucket in c.originalBuckets;
    var here := allowed && OnConfiguredHost(c, original.host);
    && (why.None? <==> MayBeRead(c, original, localSize, sizes))
    && (why == Some((UnsupportedOriginalRef, NotAPublicValue)) <==> original.Unsupported?)
    && (why == Some((LocalOriginalUnverified, IncludeLocalNotSet)) <==> original.Local? && !c.includeLocal)
    && (why == Some((OriginalMissing, LocalFileMissing)) <==> original.Local? && c.includeLocal && localSize.None?)
    && (why == Some((UnsupportedOriginalRef, UnexpectedBucket)) <==> stored && !allowed)
    && (why == Some((StorageHostMismatch, OriginalHostDiffers)) <==> allowed && !here)
    && (why == Some((MetadataUnavailable, StorageObjectsUnreadable)) <==> here && sizes.None?)
    && (why == Some((OriginalMissing, NoStorageObject)) <==>
          here && sizes.Some? && (original.bucket, original.key) !in sizes.value)
    && (why == Some((UnsupportedImage, OriginalTooLarge)) <==>
          || (original.Local? && c.includeLocal && KnownTooLarge(c, localSize))
          || (here && sizes.Some? && (original.bucket, original.key) in sizes.value
              && KnownTooLarge(c, sizes.value[(original.bucket, original.key)])))
  }

  /** The size the record keeps: that of the file, or of the stored object where it is listed. */
  predicate SizeOf(c: Config, original: Original, localSize: Option<nat>, sizes: Option<Sizes>, size: Option<nat>) {
    match original
    case Unsupported => size.None?
    case Local(_) => size == if c.includeLocal then localSize else None
    case Supabase(bucket, key, host) =>
      size == if bucket in c.originalBuckets && OnConfiguredHost(c, host) && sizes.Some? && (bucket, key) in sizes.value
              then sizes.value[(bucket, key)] else None
  }

  lemma SkipIsExplained(c: Config, original: Original, localSize: Option<nat>, sizes: Option<Sizes>)
    ensures RefusedFor(c, original, localSize, sizes, ClassifySkip(c, original, localSize, sizes).1)
    ensures SizeOf(c, original, localSize, sizes, ClassifySkip(c, original, localSize, sizes).0)
  {
  }

  /** Why the uploaded object is not confirmed, if so: the URL must be exactly its own and the size stored. */
  function Confirmation(c: Config, objects: Storage, key: string, size: nat, a: Answers): Reply<Option<Code>> {
    if a.uploaded.Raised? then Raised
    else if a.uploaded.value.None? then Returned(Some(UploadFailed))
    else if a.uploaded.value.value != ObjectUrl(c, key) then Returned(Some(UnexpectedUploadResult))
    else if a.verifyRaises then Raised
    else if key !in objects || objects[key] != Some(size) then Returned(Some(UploadUnverified))
    else Returned(None)
  }

  /** Nothing stands in the way of reading and shrinking the original. */
  predicate ReadsWell(c: Config, original: Original, db: Db, cand: Cand, a: Answers, sizes: Option<Sizes>) {
    && MayBeRead(c, original, a.localSize, sizes)
    && !a.readRaises && Unchanged(Visible(db, cand), cand) && a.fetched.Returned?
    && (if original.Supabase? then a.fetched.value > 0 else a.fetched.value <= c.maxOriginalBytes)
    && a.derived.Bytes? && a.derived.size > 0
  }

  /**
    What the outcome of the preparation says: why the original may not be read, or what was
    found when it was. db is what the row was checked against.
   */
  ghost predicate Prepared(c: Config, original: Original, cand: Cand, sizes: Option<Sizes>, a: Answers, db: Db,
                           rec: Rec, raised: bool, go: Option<nat>) {
    var readable := MayBeRead(c, original, a.localSize, sizes);
    var same := Unchanged(Visible(db, cand), cand);
    var fetching := readable && !a.readRaises && same;
    var empty := original.Supabase? && a.fetched == Returned(0);
    var grown := !original.Supabase? && a.fetched.Returned? && a.fetched.value > c.maxOriginalBytes;
    && (!readable ==>
          && !raised && rec.outcome.Some?
          && RefusedFor(c, original, a.localSize, sizes, Some((rec.outcome.value, rec.code)))
          && SizeOf(c, original, a.localSize, sizes, rec.originalSize))
    && (raised <==> (readable && a.readRaises) || (fetching && a.fetched.Raised?))
    && (rec.outcome == Some(ConflictSkipped) <==> readable && !a.readRaises && !same)
    && (rec.outcome == Some(StorageFetchFailed) <==> fetching && empty)
    && (fetching && grown ==> (rec.outcome, rec.code) == (Some(UnsupportedImage), OriginalTooLarge))
    && (fetching && a.fetched.Returned? && !empty && !grown ==>
          && rec.originalSize == Some(a.fetched.value)
          && match a.derived
             case Failure(outcome, code) => (rec.outcome, rec.code) == (Some(outcome), code)
             case Bytes(n) => if n == 0 then (rec.outcome, rec.code) == (Some(DecodeFailed), EmptyOutput)
                              else rec.outcome.None? && go == Some(n))
  }

  /** An original that may not be read is left alone, and the record says why. */
  ghost predicate LeftAlone(c: Config, original: Original, sizes: Option<Sizes>, a: Answers,
                            before: World, after: World, rec: Rec) {
    !MayBeRead(c, original, a.localSize, sizes) ==>
      && after == before && rec.newKey.None? && rec.outcome.Some?
      && RefusedFor(c, original, a.localSize, sizes, Some((rec.outcome.value, rec.code)))
  }

  /** The upload is stored in full and answered with exactly the object's URL. */
  predicate StoresWell(c: Config, key: string, size: nat, a: Answers) {
    a.uploaded == Returned(Some(ObjectUrl(c, key))) && a.stored == Some(Some(size)) && !a.verifyRaises
  }

  lemma ConfirmedExactly(c: Config, w: World, key: string, size: nat, a: Answers)
    requires key !in w.objects
    ensures Confirmation(c, Uploaded(w, key, a.stored).objects, key, size, a) == Returned(None)
       <==> StoresWell(c, key, size, a)
  {
  }

  /** Which answer of the upload, and which stored object, each finding stands for. */
  ghost predicate FoundBy(c: Config, objects: Storage, key: string, size: nat, a: Answers, found: Reply<Option<Code>>) {
    var answeredRight := a.uploaded == Returned(Some(ObjectUrl(c, key)));
    && (found == Returned(Some(UploadFailed)) <==> a.uploaded == Returned(None))
    && (found == Returned(Some(UnexpectedUploadResult)) <==>
          a.uploaded.Returned? && a.uploaded.value.Some? && !answeredRight)
    && (found == Raised <==> a.uploaded == Raised || (answeredRight && a.verifyRaises))
    && (found == Returned(Some(UploadUnverified)) <==>
          answeredRight && !a.verifyRaises && !(key in objects && objects[key] == Some(size)))
  }

  lemma ConfirmationIsFound(c: Config, objects: Storage, key: string, size: nat, a: Answers)
    ensures FoundBy(c, objects, key, size, a, Confirmation(c, objects, key, size, a))
  {
  }

  function NextKey(r: RunOf, w: World, e: Entity): string {
    Key(r.c, e, r.uuid(w.minted))
  }

  /** While the row is locked other writers can only change other rows. */
  function EditUnderLock(edit: (Moment, World) -> Db, w: World, id: RowId): Db {
    var next := edit(BeforeCommit, w);
    if id in w.db && id in next && next[id] == w.db[id] then next else w.db
  }

  lemma EditUnderLockIsEdit(r: RunOf, a: Answers, w: World, id: RowId)
    requires Polite(r, a) && Settled(r, w)
    ensures Edited(r, w, BeforeCommit, EditUnderLock(a.edit, w, id))
    ensures id in w.db ==> id in EditUnderLock(a.edit, w, id) && EditUnderLock(a.edit, w, id)[id] == w.db[id]
  {
    forall k | Referenced(r.c, w.db, k) ensures Named(r, w, k) {
      NamedNow(r, w, k);
    }
  }

  /** Without other writers, no other row changes. */
  ghost predicate Spared(r: RunOf, before: Db, after: Db, id: RowId) {
    r.still ==> forall j :: j != id ==>
      (j in after <==> j in before) && (j in before ==> after[j] == before[j])
  }

  /** Other objects and, by this run, other rows are left alone. */
  ghost predicate TouchesOnly(r: RunOf, before: World, after: World, rec: Rec) {
    && Spared(r, before.db, after.db, rec.id)
    && SameElsewhere(before.objects, after.objects, rec.newKey)
  }

  /** When a row was written and when the record says so. */
  ghost predicate Saved(a: Answers, cand: Cand, locked: Option<Row>, before: World, after: World, rec: Rec) {
    && (after.commits != before.commits ==>
          && |after.commits| > 0
          && Unchanged(locked, cand) && after.commits[|after.commits| - 1].before == locked.value
          && a.derived.Bytes? && a.stored == Some(Some(a.derived.size)) && !a.lockRaises && a.commit != RaisedUncommitted)
    && (rec.outcome == Some(Ok) <==> after.commits != before.commits && a.commit == Committed)
    && (rec.outcome == Some(Ok) ==> rec.displaySize == Some(a.derived.size))
    && (rec.newDisplay.Some? <==> rec.outcome == Some(Ok))
  }

  predicate AllSpaces(s: string) {
    forall i :: 0 <= i < |s| ==> s[i] == ' '
  }

  /** The candidate query's filter, scope included. */
  predicate Eligible(c: Config, row: Row) {
    && row.photo.Some? && !AllSpaces(row.photo.value)
    && (row.display.None? || AllSpaces(row.display.value))
    && (c.schoolId.Some? ==> row.school == c.schoolId.value)
    && row.school !in c.excludedSchools
  }

  /** The school is the chosen one, or all are, and it is not excluded. */
  predicate InScope(c: Config, school: nat) {
    (c.schoolId == None || c.schoolId == Some(school)) && school !in c.excludedSchools
  }

  /** The column holds something other than spaces. */
  ghost predicate Filled(v: Option<string>) {
    v.Some? && exists i :: 0 <= i < |v.value| && v.value[i] != ' '
  }

  /** The query finds the rows in scope with a photo and no display photo, above the id to resume after. */
  lemma WaitingExactly(c: Config, db: Db, e: Entity, id: RowId)
    ensures Waiting(c, db, e, Resume(c), id) <==>
      && id in db && id.entity == e && 0 < id.id && (c.resumeAfterId.Some? ==> c.resumeAfterId.value < id.id)
      && InScope(c, db[id].school) && Filled(db[id].photo) && !Filled(db[id].display)
  {
  }

  predicate Waiting(c: Config, db: Db, e: Entity, after: nat, id: RowId) {
    id in db && id.entity == e && after < id.id && Eligible(c, db[id])
  }

  function CandOf(db: Db, id: RowId): Cand
    requires id in db
  {
    Cand(id, db[id].school, db[id].photo)
  }

  predicate Listed(batch: seq<Cand>, id: RowId) {
    exists i :: 0 <= i < |batch| && batch[i].id == id
  }

  /** The candidates after `after` in id order, at most `size` of them, none skipped. */
  ghost predicate IsPage(c: Config, db: Db, e: Entity, after: nat, size: nat, batch: seq<Cand>) {
    && |batch| <= size
    && (forall i :: 0 <= i < |batch| ==>
          Waiting(c, db, e, after, batch[i].id) && batch[i] == CandOf(db, batch[i].id))
    && (forall i, j :: 0 <= i < j < |batch| ==> batch[i].id.id < batch[j].id.id)
    && (forall id :: Waiting(c, db, e, after, id) ==>
          Listed(batch, id) || (|batch| == size && Last(batch, after) < id.id))
  }

  function Resume(c: Config): nat {
    if c.resumeAfterId.Some? then c.resumeAfterId.value else 0
  }

  function Last(batch: seq<Cand>, after: nat): nat {
    if batch == [] then after else batch[|batch| - 1].id.id
  }

  /** next is the first waiting row after `after`, if there is one. */
  ghost predicate IsFirst(c: Config, db: Db, e: Entity, after: nat, next: Option<Cand>) {
    match next
    case None => forall id :: !Waiting(c, db, e, after, id)
    case Some(cand) =>
      && Waiting(c, db, e, after, cand.id) && cand == CandOf(db, cand.id)
      && forall id :: Waiting(c, db, e, after, id) ==> cand.id.id <= id.id
  }

  lemma ListedLonger(batch: seq<Cand>, cand: Cand, id: RowId)
    ensures Listed(batch + [cand], id) <==> Listed(batch, id) || cand.id == id
  {
    var longer := batch + [cand];
    if Listed(batch, id) {
      var i :| 0 <= i < |batch| && batch[i].id == id;
      assert longer[i].id == id;
    }
    assert longer[|batch|] == cand;
  }

  lemma PageGrows(c: Config, db: Db, e: Entity, after: nat, batch: seq<Cand>, cand: Cand)
    requires IsPage(c, db, e, after, |batch|, batch) && IsFirst(c, db, e, Last(batch, after), Some(cand))
    ensures IsPage(c, db, e, after, |batch| + 1, batch + [cand])
  {
    var longer := batch + [cand];
    assert Waiting(c, db, e, Last(batch, after), cand.id);
    assert after <= Last(batch, after) by {
      if batch != [] {
        assert Waiting(c, db, e, after, batch[|batch| - 1].id);
      }
    }
    forall id | Waiting(c, db, e, after, id) ensures Listed(longer, id) || cand.id.id < id.id {
      ListedLonger(batch, cand, id);
      if !Listed(batch, id) {
        assert Waiting(c, db, e, Last(batch, after), id);
      }
    }
  }

  lemma PageEnds(c: Config, db: Db, e: Entity, after: nat, size: nat, batch: seq<Cand>)
    requires IsPage(c, db, e, after, |batch|, batch) && IsFirst(c, db, e, Last(batch, after), None) && |batch| <= size
    ensures IsPage(c, db, e, after, size, batch)
  {
    forall id | Waiting(c, db, e, after, id) ensures Listed(batch, id) {
      if !Listed(batch, id) {
        assert Waiting(c, db, e, Last(batch, after), id);
      }
    }
  }

  function Oks(m: seq<Rec>): nat {
    if m == [] then 0 else Oks(m[..|m| - 1]) + if m[|m| - 1].outcome == Some(Ok) then 1 else 0
  }

  /** The records of one entity from index `from` on go through increasing ids after `after`. */
  ghost predicate Ascends(m: seq<Rec>, from: nat, e: Entity, after: nat, last: nat) {
    && (forall i :: from <= i < |m| ==> m[i].id.entity == e && after < m[i].id.id <= last)
    && (forall i, j :: from <= i < j < |m| ==> m[i].id.id < m[j].id.id)
  }

  ghost predicate Recorded(m: seq<Rec>, from: nat, id: RowId) {
    exists i :: from <= i < |m| && m[i].id == id
  }

  /** m goes on after index `from` with the records of the first candidates of a batch. */
  ghost predicate Follows(m: seq<Rec>, from: nat, batch: seq<Cand>, k: nat) {
    |m| == from + k && k <= |batch| && forall j :: 0 <= j < k ==> m[from + j].id == batch[j].id
  }

  lemma FollowsLonger(before: seq<Rec>, m: seq<Rec>, from: nat, batch: seq<Cand>, k: nat)
    requires Follows(before, from, batch, k) && k < |batch|
    requires |m| == |before| + 1 && m[..|before|] == before && m[|before|].id == batch[k].id
    ensures Follows(m, from, batch, k + 1) && m[..from] == before[..from]
  {
    assert forall i :: 0 <= i < |before| ==> m[i] == before[i];
  }

  /** Without other writers, only the rows of the batch change. */
  ghost predicate SparedOutside(r: RunOf, before: Db, after: Db, batch: seq<Cand>) {
    r.still ==> forall id :: !Listed(batch, id) ==>
      (id in after <==> id in before) && (id in before ==> after[id] == before[id])
  }

  lemma SparedLonger(r: RunOf, before: Db, db: Db, after: Db, batch: seq<Cand>, i: nat)
    requires i < |batch| && SparedOutside(r, before, db, batch) && Spared(r, db, after, batch[i].id)
    ensures SparedOutside(r, before, after, batch)
  {
    assert Listed(batch, batch[i].id);
  }

  lemma SameAheadAfter(r: RunOf, start: Db, before: Db, after: Db, c: Config, e: Entity, last: nat, size: nat, batch: seq<Cand>)
    requires r.still && batch != [] && SparedOutside(r, before, after, batch) && SameAhead(start, before, e, last)
    requires IsPage(c, before, e, last, size, batch)
    ensures SameAhead(start, after, e, Last(batch, last))
  {
    forall id: RowId | id.entity == e && Last(batch, last) < id.id ensures !Listed(batch, id) && last < id.id {
      assert Waiting(c, before, e, last, batch[|batch| - 1].id);
    }
  }

  /** Without other writers, the rows of the other table stay. */
  ghost predicate SparedOthers(r: RunOf, before: Db, after: Db, e: Entity) {
    r.still ==> forall id: RowId :: id.entity != e ==>
      (id in after <==> id in before) && (id in before ==> after[id] == before[id])
  }

  lemma PageSparesOthers(r: RunOf, saw: Db, db: Db, e: Entity, after: nat, size: nat, batch: seq<Cand>)
    requires IsPage(r.c, saw, e, after, size, batch) && SparedOutside(r, saw, db, batch)
    ensures SparedOthers(r, saw, db, e)
  {
    forall id: RowId | id.entity != e ensures !Listed(batch, id) {
    }
  }

  /** What the run has done with the first tables: all their rows that waited have a record, and the others' rows stay. */
  ghost predicate TablesDone(r: RunOf, start: Db, db: Db, m: seq<Rec>, done: seq<Entity>) {
    && (r.still ==> forall e :: e in done ==> Complete(r, start, m, 0, e))
    && (r.still ==> forall id: RowId :: id.entity !in done ==>
          (id in db <==> id in start) && (id in start ==> db[id] == start[id]))
    && forall i :: 0 <= i < |m| ==> m[i].id.entity in done && Resume(r.c) < m[i].id.id
  }

  lemma OneMoreTable(r: RunOf, start: Db, before: Db, db: Db, was: seq<Rec>, m: seq<Rec>, done: seq<Entity>, e: Entity)
    requires TablesDone(r, start, before, was, done) && SparedOthers(r, before, db, e)
    requires |was| <= |m| && m[..|was|] == was && InOrder(r, m, |was|, e)
    requires r.still ==> Complete(r, before, m, |was|, e)
    ensures TablesDone(r, start, db, m, done + [e])
  {
    forall i | 0 <= i < |m| ensures m[i].id.entity in done + [e] && Resume(r.c) < m[i].id.id {
      if i < |was| {
        assert m[..|was|][i] == was[i];
      }
    }
    forall d | r.still && d in done + [e] ensures Complete(r, start, m, 0, d) {
      forall id | Waiting(r.c, start, d, Resume(r.c), id) ensures Recorded(m, 0, id) {
        if d in done {
          var i :| 0 <= i < |was| && was[i].id == id;
          assert m[..|was|][i] == m[i];
        } else {
          assert Waiting(r.c, before, d, Resume(r.c), id);
        }
      }
    }
  }

  lemma FollowsPrefix(before: seq<Rec>, m: seq<Rec>, from: nat, base: nat)
    requires from <= base == |before| <= |m| && m[..base] == before
    ensures m[..from] == before[..from]
  {
  }

  lemma PageAdvances(c: Config, db: Db, e: Entity, after: nat, size: nat, batch: seq<Cand>)
    requires IsPage(c, db, e, after, size, batch) && batch != []
    ensures after < Last(batch, after) && batch[|batch| - 1].id in db && batch[..|batch|] == batch
  {
    assert Waiting(c, db, e, after, batch[|batch| - 1].id);
  }

  /** Every row of start waiting after `after`, up to id `last`, has a record. */
  ghost predicate Covered(c: Config, start: Db, e: Entity, after: nat, last: nat, m: seq<Rec>, from: nat) {
    forall id :: Waiting(c, start, e, after, id) && id.id <= last ==> Recorded(m, from, id)
  }

  ghost predicate SameAhead(start: Db, db: Db, e: Entity, last: nat) {
    forall id: RowId :: id.entity == e && last < id.id ==>
      (id in db <==> id in start) && (id in start ==> db[id] == start[id])
  }

  lemma BatchAscends(m: seq<Rec>, from: nat, base: nat, c: Config, db: Db, e: Entity, resume: nat, after: nat,
                     size: nat, batch: seq<Cand>, k: nat)
    requires from <= base <= |m| && resume <= after && Ascends(m[..base], from, e, resume, after)
    requires IsPage(c, db, e, after, size, batch) && Follows(m, base, batch, k)
    ensures Ascends(m, from, e, resume, Last(batch[..k], after)) && after <= Last(batch[..k], after)
  {
    forall i | from <= i < |m|
      ensures m[i].id.entity == e && resume < m[i].id.id <= Last(batch[..k], after)
      ensures base <= i ==> m[i].id == batch[i - base].id && after < m[i].id.id
      ensures i < base ==> m[i].id.id <= after && m[..base][i] == m[i]
    {
      if i < base {
        assert m[..base][i] == m[i];
      } else {
        assert Waiting(c, db, e, after, batch[i - base].id);
      }
      if k > 0 {
        assert Waiting(c, db, e, after, batch[k - 1].id);
      }
    }
    if k > 0 {
      assert Waiting(c, db, e, after, batch[k - 1].id);
    }
  }

  /** A finished page extends the coverage up to its last id. */
  lemma PageCovers(c: Config, start: Db, db: Db, e: Entity, resume: nat, after: nat, size: nat, batch: seq<Cand>,
                   m: seq<Rec>, from: nat, base: nat)
    requires from <= base <= |m| && resume <= after && Follows(m, base, batch, |batch|)
    requires Covered(c, start, e, resume, after, m[..base], from) && SameAhead(start, db, e, after)
    requires IsPage(c, db, e, after, size, batch)
    ensures Covered(c, start, e, resume, Last(batch, after), m, from)
    ensures |batch| < size ==> forall id :: Waiting(c, start, e, resume, id) ==> Recorded(m, from, id)
  {
    forall id | Waiting(c, start, e, resume, id) && (id.id <= Last(batch, after) || |batch| < size)
      ensures Recorded(m, from, id)
    {
      if id.id <= after {
        var i :| from <= i < |m[..base]| && m[..base][i].id == id;
        assert m[i].id == id;
      } else {
        assert Waiting(c, db, e, after, id);
        var j :| 0 <= j < |batch| && batch[j].id == id;
        assert m[base + j].id == id;
      }
    }
  }

  lemma PageIsInScope(c: Config, db: Db, e: Entity, after: nat, size: nat, batch: seq<Cand>)
    requires IsPage(c, db, e, after, size, batch)
    ensures forall i :: 0 <= i < |batch| ==> InScope(c, batch[i].school)
  {
    forall i | 0 <= i < |batch| ensures InScope(c, batch[i].school) {
      assert Waiting(c, db, e, after, batch[i].id);
    }
  }

  /** How far the paging loop has come: records ascend, and without other writers none is missing. */
  ghost predicate Reached(r: RunOf, start: Db, db: Db, m: seq<Rec>, from: nat, e: Entity, after: nat) {
    && Resume(r.c) <= after && Ascends(m, from, e, Resume(r.c), after)
    && (r.still ==> Covered(r.c, start, e, Resume(r.c), after, m, from) && SameAhead(start, db, e, after))
  }

  ghost predicate Complete(r: RunOf, start: Db, m: seq<Rec>, from: nat, e: Entity) {
    forall id :: Waiting(r.c, start, e, Resume(r.c), id) ==> Recorded(m, from, id)
  }

  ghost predicate InOrder(r: RunOf, m: seq<Rec>, from: nat, e: Entity) {
    exists last :: Ascends(m, from, e, Resume(r.c), last)
  }

  /** What a page adds to how far the loop has come. */
  lemma PageReaches(r: RunOf, start: Db, saw: Db, db: Db, before: seq<Rec>, m: seq<Rec>, from: nat, e: Entity,
                    after: nat, size: nat, batch: seq<Cand>, k: nat)
    requires from <= |before| <= |m| && m[..|before|] == before
    requires Reached(r, start, saw, before, from, e, after)
    requires IsPage(r.c, saw, e, after, size, batch) && Follows(m, |before|, batch, k)
    requires SparedOutside(r, saw, db, batch)
    ensures InOrder(r, m, from, e)
    ensures batch == [] && r.still && 0 < size ==> Complete(r, start, m, from, e)
    ensures k == |batch| && batch != [] ==> Reached(r, start, db, m, from, e, Last(batch, after))
  {
    BatchAscends(m, from, |before|, r.c, saw, e, Resume(r.c), after, size, batch, k);
    assert Ascends(m, from, e, Resume(r.c), Last(batch[..k], after));
    if k == |batch| {
      assert batch[..k] == batch;
      if r.still {
        PageCovers(r.c, start, saw, e, Resume(r.c), after, size, batch, m, from, |before|);
        if batch != [] {
          SameAheadAfter(r, start, saw, db, r.c, e, after, size, batch);
        }
      }
    }
  }

  /** A batch goes no further than the limit. */
  function BatchSize(c: Config, processed: nat): int {
    if c.limit.Some? && c.limit.value - processed < c.batchSize then c.limit.value - processed else c.batchSize
  }

  /** What an outcome says about the mode: only a dry run stops at the classification, and only the other one stores. */
  predicate InMode(c: Config, outcome: Option<Outcome>) {
    && (outcome == Some(WouldProcess) ==> !c.apply)
    && (outcome in {Some(Ok), Some(OrphanCandidate), Some(ConflictSkipped), Some(DbUpdateFailed), Some(StorageUploadFailed)} ==> c.apply)
  }

  /** The settings are in order: positive sizes, one table to resume in, and every confirmation given that is needed. */
  predicate Acceptable(c: Config, entities: seq<Entity>) {
    && 1 <= c.batchSize && 1 <= c.maxErrors && (c.limit.Some? ==> 1 <= c.limit.value)
    && (c.resumeAfterId.Some? ==> |entities| == 1)
    && (c.includeLocal ==> c.localRootConfirmed) && (c.apply ==> c.hostConfirmed)
  }

  /** The outcomes that are no errors. */
  predicate Harmless(outcome: Option<Outcome>) {
    outcome in {Some(Ok), Some(WouldProcess), Some(LocalOriginalUnverified), Some(ConflictSkipped)}
  }

  /** The settings that are refused before anything is touched. */
  predicate Refuses(c: Config, entities: seq<Entity>) {
    || c.batchSize < 1 || c.maxErrors < 1
    || (c.limit.Some? && c.limit.value < 1)
    || (c.resumeAfterId.Some? && |entities| != 1)
    || (c.includeLocal && !c.localRootConfirmed)
    || (c.apply && !c.hostConfirmed)
  }

  lemma {:induction false} NoErrors(m: seq<Rec>)
    ensures Errors(m) == 0 <==> forall i :: 0 <= i < |m| ==> !IsError(m[i].outcome)
  {
    if m != [] {
      var shorter := m[..|m| - 1];
      NoErrors(shorter);
      assert forall i :: 0 <= i < |shorter| ==> shorter[i] == m[i];
    }
  }

  /**
    The object's record reports it as a possible orphan, or says that it is in use, and then
    a row named it at some time of the run and, unless another writer dropped the name, still does.
   */
  ghost predicate Accounted(r: RunOf, w: World, m: seq<Rec>, k: string) {
    exists i :: 0 <= i < |m| && m[i].newKey == Some(k)
      && (Orphan(m[i]) || (InUse(m[i]) && Named(r, w, k) && (r.quiet ==> Referenced(r.c, w.db, k))))
  }

  /**
    What the invariant means once a run is over, whatever the other writers did: an object
    the run left in storage is accounted for, and no row names an object the run deleted
    or tried to delete.
   */
  lemma EveryObjectIsAccountedFor(r: RunOf, w: World, m: seq<Rec>, k: string)
    requires Safe(r, w, m, None)
    ensures k in w.objects && k !in r.before ==> Accounted(r, w, m, k)
    ensures k in w.deletes ==> !Referenced(r.c, w.db, k) && KeyMatches(r.c, k) && k !in r.before
    ensures k in r.before ==> k in w.objects && w.objects[k] == r.before[k]
  {
    if k in w.objects && k !in r.before {
      var i :| 0 <= i < |m| && m[i].newKey == Some(k);
      assert Truthful(r, w, m[i]);
    }
  }

  /** Everything the run left in storage is accounted for, and no row names what it deleted. */
  ghost predicate AllAccounted(r: RunOf, w: World, m: seq<Rec>) {
    && (forall k :: k in w.objects && k !in r.before ==> Accounted(r, w, m, k))
    && (forall k :: k in w.deletes ==> !Referenced(r.c, w.db, k))
  }

  /** When a record is finished as in use, a row names its object at that moment, whatever others did before. */
  ghost predicate NamedIfInUse(r: RunOf, w: World, rec: Rec) {
    InUse(rec) ==> rec.newKey.Some? && Referenced(r.c, w.db, rec.newKey.value)
  }

  /** An upload takes effect. */
  function Landed(w: World, key: string, size: Option<nat>): World {
    w.(objects := w.objects[key := size])
  }

  /** A commit that raised takes effect: an empty row names the object. */
  function CommitLanded(r: RunOf, w: World, id: RowId, key: string): World
    requires id in w.db
  {
    Turned(w, Written(w.db, id, ObjectUrl(r.c, key)))
  }

  /**
    When it does so only after cleanup has counted and the record was filed, everything stays
    as proved exactly when cleanup issued no delete: when it found no object or could not go on.
   */
  lemma LateCommitExactly(r: RunOf, w: World, m: seq<Rec>, i: nat, id: RowId)
    requires !r.certain && Safe(r, w, m, None) && i < |m| && m[i].newKey.Some?
    requires id in w.db && !HasValue(w.db[id].display)
    ensures Safe(r, CommitLanded(r, w, id, m[i].newKey.value), m, None) <==> m[i].newKey.value !in w.deletes
  {
    var key := m[i].newKey.value;
    var v := CommitLanded(r, w, id, key);
    assert Truthful(r, w, m[i]) && Filed(m, key);
    forall k | KeyMatches(r.c, k)
      ensures Referenced(r.c, v.db, k) <==> Referenced(r.c, w.db, k) || k == key
      ensures Named(r, v, k) <==> Named(r, w, k) || Referenced(r.c, v.db, k)
      ensures Referenced(r.c, w.db, k) ==> Named(r, w, k)
    {
      WriteNamesOne(r.c, w.db, id, key, k);
      TurnedNames(r, w, v.db, k);
      if Referenced(r.c, w.db, k) {
        NamedNow(r, w, k);
      }
    }
    forall n: nat | v.minted <= n ensures Fresh(r, v, m, r.uuid(n)) {
      assert Fresh(r, w, m, r.uuid(n));
    }
    forall j | 0 <= j < |m| ensures Truthful(r, v, m[j]) {
      assert Truthful(r, w, m[j]);
    }
  }

  /** The delete of an object that no row names. */
  function WithoutObject(w: World, key: string): World {
    w.(deletes := w.deletes + {key}, objects := w.objects - {key})
  }

  /**
    So a commit that raises, and takes effect after cleanup has deleted the object, leaves a
    row that names a deleted object.
   */
  lemma LateCommitBreaks(r: RunOf, w: World, m: seq<Rec>, rec: Rec, id: RowId, size: Option<nat>)
    requires !r.certain && Unique(r) && Safe(r, w, m, None)
    requires rec.newKey == Some(NextKey(r, w, id.entity))
    requires rec.outcome == Some(DbUpdateFailed) && rec.cleanup == Some(Deleted)
    requires id in w.db && !HasValue(w.db[id].display)
    ensures var k := rec.newKey.value;
      var v := WithoutObject(Uploaded(w, k, Some(size)), k);
      && Safe(r, v, m + [rec], None) && k in v.deletes
      && Referenced(r.c, CommitLanded(r, v, id, k).db, k)
  {
    var k := rec.newKey.value;
    MintedKeyMatches(r.c, id.entity, r.uuid(w.minted));
    UploadKeepsSafe(r, w, m, k, Some(size));
    var u := Uploaded(w, k, Some(size));
    DeleteKeepsSafe(r, u, m, k, true);
    CleanedUpKeepsSafe(r, WithoutObject(u, k), m, rec, Deleted);
    WriteReferences(r.c, w.db, id, k, k);
  }

  /**
    And where the commit raised after taking effect, another writer cleared the column, and
    cleanup then deleted the object, a form read in between and saved now names it again.
   */
  lemma StaleWriteBreaks(r: RunOf, w: World, m: seq<Rec>, rec: Rec, id: RowId, size: Option<nat>, commits: seq<Commit>)
    requires !r.certain && !r.quiet && Unique(r) && Safe(r, w, m, None)
    requires rec.newKey == Some(NextKey(r, w, id.entity))
    requires rec.outcome == Some(DbUpdateFailed) && rec.cleanup == Some(Deleted)
    requires id in w.db && !HasValue(w.db[id].display)
    ensures var k := rec.newKey.value;
      var named := Turned(Uploaded(w, k, Some(size)), Written(w.db, id, ObjectUrl(r.c, k))).(commits := commits);
      var v := WithoutObject(Turned(named, w.db), k);
      && Safe(r, v, m + [rec], None) && k in v.deletes
      && OnlyReadNames(r, v, named.db) && Referenced(r.c, named.db, k) && !Safe(r, Turned(v, named.db), m + [rec], None)
  {
    var k := rec.newKey.value;
    MintedKeyMatches(r.c, id.entity, r.uuid(w.minted));
    UploadKeepsSafe(r, w, m, k, Some(size));
    var u := Uploaded(w, k, Some(size));
    CommitKeepsSafe(r, u, m, k, id, commits);
    var named := Turned(u, Written(u.db, id, ObjectUrl(r.c, k))).(commits := commits);
    ClearedIsRead(r, u, named);
    StaleWritesExactly(r, named, m, Some(k), w.db);
    var cleared := Turned(named, w.db);
    DeleteKeepsSafe(r, cleared, m, k, true);
    var v := WithoutObject(cleared, k);
    CleanedUpKeepsSafe(r, v, m, rec, Deleted);
    PastIsRead(r, v, named);
  }

  /** Names of an earlier state of the run have been read. */
  lemma PastIsRead(r: RunOf, v: World, named: World)
    requires |named.past| > 0 && named.past[|named.past| - 1] == named.db && named.past <= v.past
    ensures OnlyReadNames(r, v, named.db)
  {
    var i := |named.past| - 1;
    assert v.past[i] == named.db;
  }

  lemma ClearedIsRead(r: RunOf, u: World, named: World)
    requires |u.past| > 0 && u.past[|u.past| - 1] == u.db && u.past <= named.past
    ensures OnlyReadNames(r, named, u.db)
  {
    PastIsRead(r, named, u);
  }

  /** Until cleanup has listed the bucket, an upload that was given up may still take effect. */
  lemma LandKeepsSafe(r: RunOf, w: World, m: seq<Rec>, key: string, size: Option<nat>)
    requires Safe(r, w, m, Some(key))
    ensures Safe(r, Landed(w, key, size), m, Some(key))
  {
    var v := Landed(w, key, size);
    forall k ensures Named(r, v, k) <==> Named(r, w, k) {
    }
    forall n: nat | v.minted <= n ensures Fresh(r, v, m, r.uuid(n)) {
      assert Fresh(r, w, m, r.uuid(n)) && r.uuid(n) != HexOf(key);
    }
    forall i | 0 <= i < |m| ensures Truthful(r, v, m[i]) {
      assert Truthful(r, w, m[i]) && m[i].newKey != Some(key);
    }
  }

  /**
    When it takes effect only after its record was filed, the object is accounted for exactly
    when cleanup had not called it deleted or not created: when it could not finish or kept it.
   */
  lemma LateUploadExactly(r: RunOf, w: World, m: seq<Rec>, i: nat, size: Option<nat>)
    requires Safe(r, w, m, None) && i < |m| && m[i].newKey.Some?
    requires forall j :: 0 <= j < |m| && j != i ==> m[j].newKey != m[i].newKey
    ensures Accounted(r, Landed(w, m[i].newKey.value, size), m, m[i].newKey.value) <==> Orphan(m[i]) || InUse(m[i])
  {
    var v := Landed(w, m[i].newKey.value, size);
    assert Truthful(r, w, m[i]);
    assert Named(r, w, m[i].newKey.value) <==> Named(r, v, m[i].newKey.value);
  }

  /** So an upload that times out, is not found by cleanup, and then takes effect leaves an object nobody reports. */
  lemma LateUploadEscapes(r: RunOf, w: World, m: seq<Rec>, rec: Rec, e: Entity, size: Option<nat>)
    requires Unique(r) && Safe(r, w, m, None)
    requires rec.newKey == Some(NextKey(r, w, e))
    requires rec.outcome == Some(StorageUploadFailed) && rec.cleanup == Some(NotCreated)
    ensures var v, k := Uploaded(w, rec.newKey.value, None), rec.newKey.value;
      && Safe(r, v, m + [rec], None)
      && k in Landed(v, k, size).objects && k !in r.before && !Accounted(r, Landed(v, k, size), m + [rec], k)
  {
    var k := rec.newKey.value;
    MintedKeyMatches(r.c, e, r.uuid(w.minted));
    UploadKeepsSafe(r, w, m, k, None);
    var v := Uploaded(w, k, None);
    CleanedUpKeepsSafe(r, v, m, rec, NotCreated);
    assert !Filed(m, k) && forall j :: 0 <= j < |m| ==> (m + [rec])[j] == m[j];
    LateUploadExactly(r, v, m + [rec], |m|, size);
  }

  /** How the steps end: with a filed record, or raising and leaving the object unsettled. */
  ghost predicate Ends(r: RunOf, m: seq<Rec>, w: World, rec: Rec, raised: bool) {
    if raised then
      && Safe(r, w, m, rec.newKey) && rec.outcome.None? && rec.cleanup.None?
      && (rec.newKey.Some? ==> rec.newKey.value !in w.deletes && (r.certain ==> !Named(r, w, rec.newKey.value)))
    else
      && Safe(r, w, m + [rec], None) && rec.outcome.Some?
      && rec.outcome.value !in {WouldProcess, UnexpectedError}
  }

  /** Names that are new to both stores, as unique ones are. */
  ghost predicate NewNames(r: RunOf, db: Db) {
    forall n: nat, k :: KeyMatches(r.c, k) && HexOf(k) == r.uuid(n) ==> !Referenced(r.c, db, k) && k !in r.before
  }

  lemma InitiallySafe(r: RunOf, db: Db)
    requires Bounded(r, db) && NewNames(r, db)
    ensures Safe(r, World(db, r.before, 0, {}, [], [db]), [], None)
  {
    var w := World(db, r.before, 0, {}, [], [db]);
    forall n: nat | 0 <= n ensures Fresh(r, w, [], r.uuid(n)) {
    }
  }

  class Runner {
    const r: RunOf
    const classify: string -> Original
    var w: World
    var manifest: seq<Rec>
    var processed: nat
    var errors: nat
    var dbWrites: nat
    var stopped: Option<Stop>

    method Cleanup(key: string, a: Answers) returns (result: Cleanup)
      requires Polite(r, a) && Safe(r, w, manifest, Some(key)) && key !in w.deletes && (r.certain ==> !Named(r, w, key))
      modifies this`w
      ensures Safe(r, w, manifest, Some(key)) && Since(old(w), w)
      ensures w.commits == old(w.commits) && w.minted == old(w.minted)
      ensures SameElsewhere(old(w.objects), w.objects, Some(key))
      ensures r.still ==> w.db == old(w.db)
      ensures result in {Deleted, NotCreated} ==> key !in w.objects
      ensures result == KeptReferenced ==> key !in w.deletes && Referenced(r.c, w.db, key)
      ensures r.quiet && Referenced(r.c, old(w.db), key) ==> w.objects == old(w.objects) && key !in w.deletes
      ensures !a.countRaises && !a.listRaises && a.delete == Removed ==> result != DeleteFailed
      ensures result != Refused
    {
      if !KeyMatches(r.c, key) { return Refused; }
      EditKeepsSafe(r, w, manifest, Some(key), BeforeCount, a.edit(BeforeCount, w));
      w := Turned(w, a.edit(BeforeCount, w));
      if a.countRaises { return DeleteFailed; }
      CountsReferences(r.c, w.db, key);
      if ReferenceCount(r.c, w.db, key) > 0 { return KeptReferenced; }
      if a.landed.Some? {
        LandKeepsSafe(r, w, manifest, key, a.landed.value);
        w := Landed(w, key, a.landed.value);
      }
      if a.listRaises { return DeleteFailed; }
      if key !in w.objects { return NotCreated; }
      result := Delete(key, a);
    }

    /** The delete call for an object that no row named when the rows were counted. */
    method Delete(key: string, a: Answers) returns (result: Cleanup)
      requires Polite(r, a) && Safe(r, w, manifest, Some(key)) && !Referenced(r.c, w.db, key)
      requires r.certain ==> !Named(r, w, key)
      modifies this`w
      ensures Safe(r, w, manifest, Some(key)) && Since(old(w), w)
      ensures w.commits == old(w.commits) && w.minted == old(w.minted)
      ensures SameElsewhere(old(w.objects), w.objects, Some(key))
      ensures r.still ==> w.db == old(w.db)
      ensures result == if a.delete == Removed then Deleted else DeleteFailed
      ensures result == Deleted ==> key !in w.objects
    {
      EditKeepsSafe(r, w, manifest, Some(key), BeforeDelete, a.edit(BeforeDelete, w));
      w := Turned(w, a.edit(BeforeDelete, w));
      var gone := a.delete == Removed || a.delete.gone;
      DeleteKeepsSafe(r, w, manifest, key, gone);
      w := w.(deletes := w.deletes + {key}, objects := if gone then w.objects - {key} else w.objects);
      result := if a.delete == Removed then Deleted else DeleteFailed;
    }

    method FinishWithCleanup(rec: Rec, outcome: Outcome, code: Code, a: Answers) returns (done: Rec)
      requires rec.newKey.Some? && outcome !in {Ok, OrphanCandidate}
      requires Polite(r, a) && Safe(r, w, manifest, rec.newKey) && rec.newKey.value !in w.deletes
      requires r.certain ==> !Named(r, w, rec.newKey.value)
      modifies this`w
      ensures Safe(r, w, manifest + [done], None) && Since(old(w), w)
      ensures w.commits == old(w.commits) && w.minted == old(w.minted)
      ensures SameElsewhere(old(w.objects), w.objects, rec.newKey)
      ensures r.still ==> w.db == old(w.db)
      ensures NamedIfInUse(r, w, done)
      ensures done == rec.(cleanup := done.cleanup, outcome := done.outcome, code := done.code)
      ensures Orphan(done) <==> done.cleanup == Some(DeleteFailed)
      ensures if Orphan(done) then done.code == Cause(outcome) else done.outcome == Some(outcome) && done.code == code
      ensures !a.countRaises && !a.listRaises && a.delete == Removed ==> !Orphan(done)
    {
      var cleanup := Cleanup(rec.newKey.value, a);
      done := rec.(cleanup := Some(cleanup));
      if cleanup == DeleteFailed || cleanup == Refused {
        done := done.(outcome := Some(OrphanCandidate), code := Cause(outcome));
      } else {
        done := done.(outcome := Some(outcome), code := code);
      }
      CleanedUpKeepsSafe(r, w, manifest, done, cleanup);
    }

    /** The update of a locked, unchanged row, and its commit. */
    method Commit(rec: Rec, cand: Cand, row: Row, a: Answers)
      requires rec.newKey.Some? && rec.id == cand.id && rec.school == cand.school && rec.original == cand.photo
      requires Visible(w.db, cand) == Some(row) && Unchanged(Some(row), cand)
      requires Polite(r, a) && Safe(r, w, manifest, rec.newKey) && rec.newKey.value !in w.deletes
      requires r.certain ==> !Named(r, w, rec.newKey.value)
      modifies this`w
      ensures Safe(r, w, manifest, rec.newKey) && Since(old(w), w)
      ensures w.objects == old(w.objects) && w.minted == old(w.minted) && w.deletes == old(w.deletes)
      ensures AtMostOneWrite(r, old(w.commits), w.commits, rec)
      ensures Spared(r, old(w.db), w.db, cand.id)
      ensures w.commits != old(w.commits) <==> a.commit != RaisedUncommitted
      ensures a.commit == RaisedUncommitted && !Named(r, old(w), rec.newKey.value) ==> !Named(r, w, rec.newKey.value)
      ensures a.commit != RaisedUncommitted ==>
        w.commits[|w.commits| - 1].before == row && Referenced(r.c, w.db, rec.newKey.value)
    {
      var key := rec.newKey.value;
      EditUnderLockIsEdit(r, a, w, cand.id);
      EditKeepsSafe(r, w, manifest, rec.newKey, BeforeCommit, EditUnderLock(a.edit, w, cand.id));
      w := Turned(w, EditUnderLock(a.edit, w, cand.id));
      if a.commit != RaisedUncommitted {
        var after := Written(w.db, cand.id, ObjectUrl(r.c, key));
        var commits := w.commits + [Update(cand.id, row, after[cand.id])];
        CommitKeepsSafe(r, w, manifest, key, cand.id, commits);
        w := Turned(w, after).(commits := commits);
      }
    }

    /** Lock, re-check, write and commit; `failure` is why the row was not confirmed as written. */
    method Write(rec: Rec, cand: Cand, a: Answers) returns (failure: Option<(Outcome, Code)>, ghost locked: Option<Row>)
      requires rec.newKey.Some? && rec.id == cand.id && rec.school == cand.school && rec.original == cand.photo
      requires Polite(r, a) && Safe(r, w, manifest, rec.newKey) && rec.newKey.value !in w.deletes
      requires r.certain ==> !Named(r, w, rec.newKey.value)
      modifies this`w
      ensures Safe(r, w, manifest, rec.newKey) && Since(old(w), w)
      ensures w.objects == old(w.objects) && w.minted == old(w.minted) && w.deletes == old(w.deletes)
      ensures AtMostOneWrite(r, old(w.commits), w.commits, rec) && Spared(r, old(w.db), w.db, cand.id)
      ensures w.commits != old(w.commits) <==> !a.lockRaises && Unchanged(locked, cand) && a.commit != RaisedUncommitted
      ensures w.commits != old(w.commits) ==>
        w.commits[|w.commits| - 1].before == locked.value && Referenced(r.c, w.db, rec.newKey.value)
      ensures r.still && !a.lockRaises ==> locked == Visible(old(w.db), cand)
      ensures failure.Some? && r.certain ==> !Named(r, w, rec.newKey.value)
      ensures failure ==
        if a.lockRaises then Some((DbUpdateFailed, ExceptionName))
        else if !Unchanged(locked, cand) then Some((ConflictSkipped, ChangedUnderLock))
        else if a.commit != Committed then Some((DbUpdateFailed, ExceptionName)) else None
    {
      locked := None;
      if a.lockRaises {
        return Some((DbUpdateFailed, ExceptionName)), None;
      }
      EditKeepsSafe(r, w, manifest, rec.newKey, BeforeLock, a.edit(BeforeLock, w));
      w := Turned(w, a.edit(BeforeLock, w));
      var row := Visible(w.db, cand);
      locked := row;
      if !Unchanged(row, cand) {
        return Some((ConflictSkipped, ChangedUnderLock)), locked;
      }
      Commit(rec, cand, row.value, a);
      failure := if a.commit == Committed then None else Some((DbUpdateFailed, ExceptionName));
    }

    /** Save the URL in the row, or remove the object again. */
    method Save(rec: Rec, cand: Cand, a: Answers) returns (done: Rec, ghost locked: Option<Row>)
      requires rec.newKey.Some? && rec.id == cand.id && rec.school == cand.school && rec.original == cand.photo
      requires rec.cleanup.None?
      requires Polite(r, a) && Safe(r, w, manifest, rec.newKey) && rec.newKey.value !in w.deletes
      requires r.certain ==> !Named(r, w, rec.newKey.value)
      modifies this`w, this`dbWrites
      ensures Safe(r, w, manifest + [done], None) && Since(old(w), w)
      ensures AtMostOneWrite(r, old(w.commits), w.commits, rec) && Spared(r, old(w.db), w.db, cand.id)
      ensures SameElsewhere(old(w.objects), w.objects, rec.newKey)
      ensures NamedIfInUse(r, w, done)
      ensures done == rec.(cleanup := done.cleanup, outcome := done.outcome, code := done.code, newDisplay := done.newDisplay)
      ensures w.commits != old(w.commits) <==> !a.lockRaises && Unchanged(locked, cand) && a.commit != RaisedUncommitted
      ensures w.commits != old(w.commits) ==> w.commits[|w.commits| - 1].before == locked.value
      ensures done.outcome == Some(Ok) <==> w.commits != old(w.commits) && a.commit == Committed
      ensures !a.lockRaises && !Unchanged(locked, cand) ==>
        done.outcome == Some(ConflictSkipped) || (Orphan(done) && done.code == Cause(ConflictSkipped))
      ensures r.still && !a.lockRaises ==> locked == Visible(old(w.db), cand)
      ensures done.newDisplay == if done.outcome == Some(Ok) then Some(ObjectUrl(r.c, rec.newKey.value)) else rec.newDisplay
      ensures dbWrites == old(dbWrites) + if done.outcome == Some(Ok) then 1 else 0
      ensures done.outcome.Some? && done.outcome.value in {Ok, OrphanCandidate, ConflictSkipped, DbUpdateFailed}
    {
      var failure;
      failure, locked := Write(rec, cand, a);
      if failure.Some? {
        done := FinishWithCleanup(rec, failure.value.0, failure.value.1, a);
      } else {
        dbWrites := dbWrites + 1;
        done := rec.(outcome := Some(Ok), newDisplay := Some(ObjectUrl(r.c, rec.newKey.value)));
        WrittenKeepsSafe(r, w, manifest, done);
      }
    }

    /** Everything before the upload: no store is touched, and the outcome says what stood in the way. `go` gives the size to upload. */
    method Prepare(cand: Cand, sizes: Option<Sizes>, a: Answers) returns (rec: Rec, raised: bool, go: Option<nat>)
      requires Polite(r, a) && Safe(r, w, manifest, None)
      modifies this`w
      ensures Safe(r, w, manifest, None) && Since(old(w), w) && w == old(w).(db := w.db, past := w.past)
      ensures rec == NewRec(cand).(source := rec.source, originalSize := rec.originalSize,
                                   displaySize := rec.displaySize, outcome := rec.outcome, code := rec.code)
      ensures r.still ==> w.db == old(w.db)
      ensures raised ==> go.None?
      ensures rec.outcome.None? ==> rec.code == NoCode
      ensures r.still ==> (go.Some? <==> ReadsWell(r.c, classify(OrEmpty(cand.photo)), w.db, cand, a, sizes))
      ensures raised || go.Some? <==> rec.outcome.None?
      ensures go.Some? ==> a.derived == Bytes(go.value) && go.value > 0 && rec.displaySize == go
      ensures rec.outcome.Some? ==> rec.outcome.value !in {Ok, WouldProcess, OrphanCandidate, UnexpectedError}
      ensures rec.source == Some(classify(OrEmpty(cand.photo)))
      ensures !MayBeRead(r.c, classify(OrEmpty(cand.photo)), a.localSize, sizes) ==> w == old(w)
      ensures Prepared(r.c, classify(OrEmpty(cand.photo)), cand, sizes, a, w.db, rec, raised, go)
    {
      raised, go := false, None;
      var original := classify(OrEmpty(cand.photo));
      var (size, skip) := ClassifySkip(r.c, original, a.localSize, sizes);
      SkipIsExplained(r.c, original, a.localSize, sizes);
      rec := NewRec(cand).(source := Some(original), originalSize := size);
      if skip.Some? {
        rec := rec.(outcome := Some(skip.value.0), code := skip.value.1);
        return;
      }
      if a.readRaises {
        raised := true;
        return;
      }
      EditKeepsSafe(r, w, manifest, None, BeforeRead, a.edit(BeforeRead, w));
      w := Turned(w, a.edit(BeforeRead, w));
      if !Unchanged(Visible(w.db, cand), cand) {
        rec := rec.(outcome := Some(ConflictSkipped), code := ChangedBeforeRead);
        return;
      }
      if a.fetched.Raised? {
        raised := true;
        return;
      }
      if original.Supabase? && a.fetched.value == 0 {
        rec := rec.(outcome := Some(StorageFetchFailed), code := FetchReturnedNothing);
        return;
      }
      if !original.Supabase? && a.fetched.value > r.c.maxOriginalBytes {
        rec := rec.(outcome := Some(UnsupportedImage), code := OriginalTooLarge);
        return;
      }
      rec := rec.(originalSize := Some(a.fetched.value));
      match a.derived
      case Failure(outcome, code) => rec := rec.(outcome := Some(outcome), code := code);
      case Bytes(n) =>
        if n == 0 {
          rec := rec.(outcome := Some(DecodeFailed), code := EmptyOutput);
        } else {
          rec := rec.(displaySize := Some(n));
          go := Some(n);
        }
    }

    /** Draw a key, upload under it and check what was stored; nothing refers to the object yet. */
    method Upload(rec: Rec, size: nat, a: Answers) returns (done: Rec, confirmed: Reply<Option<Code>>)
      requires Unique(r) && Safe(r, w, manifest, None)
      modifies this`w
      ensures done == rec.(newKey := Some(NextKey(r, old(w), rec.id.entity)))
      ensures w == Uploaded(old(w), done.newKey.value, a.stored)
      ensures Safe(r, w, manifest, done.newKey)
      ensures done.newKey.value !in w.deletes && !Referenced(r.c, w.db, done.newKey.value) && !Named(r, w, done.newKey.value)
      ensures confirmed == Returned(None) <==> StoresWell(r.c, done.newKey.value, size, a)
      ensures FoundBy(r.c, w.objects, done.newKey.value, size, a, confirmed)
    {
      var key := NextKey(r, w, rec.id.entity);
      MintedKeyMatches(r.c, rec.id.entity, r.uuid(w.minted));
      UploadKeepsSafe(r, w, manifest, key, a.stored);
      ConfirmedExactly(r.c, w, key, size, a);
      w := Uploaded(w, key, a.stored);
      done := rec.(newKey := Some(key));
      ConfirmationIsFound(r.c, w.objects, key, size, a);
      confirmed := Confirmation(r.c, w.objects, key, size, a);
    }

    /** Upload, confirm the stored object, and save its URL in the row. */
    method Deliver(prepared: Rec, cand: Cand, size: nat, a: Answers)
      returns (rec: Rec, raised: bool, ghost locked: Option<Row>)
      requires Unique(r) && Polite(r, a) && Safe(r, w, manifest, None)
      requires prepared == NewRec(cand).(source := prepared.source, originalSize := prepared.originalSize, displaySize := Some(size))
      requires a.derived == Bytes(size)
      modifies this`w, this`dbWrites
      ensures Ends(r, manifest, w, rec, raised) && Since(old(w), w)
      ensures NamedIfInUse(r, w, rec)
      ensures rec.id == cand.id && rec.school == cand.school && rec.original == cand.photo
      ensures raised ==> w.commits == old(w.commits) && rec.newKey.Some?
      ensures AtMostOneWrite(r, old(w.commits), w.commits, rec)
      ensures Saved(a, cand, locked, old(w), w, rec)
      ensures r.still && Unchanged(Visible(old(w.db), cand), cand) ==>
        (rec.outcome == Some(Ok) <==>
          StoresWell(r.c, NextKey(r, old(w), cand.id.entity), size, a) && !a.lockRaises && a.commit == Committed)
      ensures dbWrites == old(dbWrites) + if rec.outcome == Some(Ok) then 1 else 0
      ensures TouchesOnly(r, old(w), w, rec)
    {
      raised, locked := false, None;
      var confirmed;
      rec, confirmed := Upload(prepared, size, a);
      if confirmed.Raised? {
        raised := true;
      } else if confirmed.value.Some? {
        rec := FinishWithCleanup(rec, StorageUploadFailed, confirmed.value.value, a);
      } else {
        rec, locked := Save(rec, cand, a);
      }
    }

    method ApplySteps(cand: Cand, sizes: Option<Sizes>, a: Answers)
      returns (rec: Rec, raised: bool, ghost locked: Option<Row>)
      requires Unique(r) && Polite(r, a) && Safe(r, w, manifest, None)
      modifies this`w, this`dbWrites
      ensures Ends(r, manifest, w, rec, raised) && Since(old(w), w)
      ensures NamedIfInUse(r, w, rec)
      ensures rec.id == cand.id && rec.school == cand.school && rec.original == cand.photo
      ensures raised ==> w.commits == old(w.commits)
      ensures AtMostOneWrite(r, old(w.commits), w.commits, rec)
      ensures Saved(a, cand, locked, old(w), w, rec)
      ensures r.still ==> (rec.outcome == Some(Ok) <==> Succeeds(old(w), cand, sizes, a))
      ensures rec.outcome != Some(WouldProcess)
      ensures dbWrites == old(dbWrites) + if rec.outcome == Some(Ok) then 1 else 0
      ensures TouchesOnly(r, old(w), w, rec)
      ensures LeftAlone(r.c, classify(OrEmpty(cand.photo)), sizes, a, old(w), w, rec)
    {
      var go;
      locked := None;
      rec, raised, go := Prepare(cand, sizes, a);
      if go.Some? {
        rec, raised, locked := Deliver(rec, cand, go.value, a);
      } else if !raised {
        FileKeepsSafe(r, w, manifest, rec);
      }
    }

    /** One record in apply mode: whatever is raised, the record is finished and its object settled. */
    method ApplyOne(cand: Cand, sizes: Option<Sizes>, a: Answers) returns (rec: Rec, ghost locked: Option<Row>)
      requires Unique(r) && Polite(r, a) && Safe(r, w, manifest, None)
      modifies this`w, this`dbWrites
      ensures Safe(r, w, manifest + [rec], None) && rec.outcome.Some? && Since(old(w), w)
      ensures NamedIfInUse(r, w, rec)
      ensures rec.id == cand.id && rec.school == cand.school && rec.original == cand.photo
      ensures AtMostOneWrite(r, old(w.commits), w.commits, rec)
      ensures Saved(a, cand, locked, old(w), w, rec)
      ensures r.still ==> (rec.outcome == Some(Ok) <==> Succeeds(old(w), cand, sizes, a))
      ensures rec.outcome != Some(WouldProcess)
      ensures dbWrites == old(dbWrites) + if rec.outcome == Some(Ok) then 1 else 0
      ensures TouchesOnly(r, old(w), w, rec)
      ensures LeftAlone(r.c, classify(OrEmpty(cand.photo)), sizes, a, old(w), w, rec)
    {
      var raised;
      rec, raised, locked := ApplySteps(cand, sizes, a);
      if raised {
        if rec.newKey.Some? {
          rec := FinishWithCleanup(rec, UnexpectedError, ExceptionName, a);
        } else {
          rec := rec.(outcome := Some(UnexpectedError), code := ExceptionName);
          FileKeepsSafe(r, w, manifest, rec);
        }
      }
    }

    /** Everything works: reading and shrinking the original, storing the result, and committing its URL. */
    ghost predicate Succeeds(w: World, cand: Cand, sizes: Option<Sizes>, a: Answers)
      reads this
    {
      && ReadsWell(r.c, classify(OrEmpty(cand.photo)), w.db, cand, a, sizes)
      && StoresWell(r.c, NextKey(r, w, cand.id.entity), a.derived.size, a)
      && !a.lockRaises && a.commit == Committed
    }

    /** One record in a dry run: only the classification, so nothing is read or written. */
    method DryOne(cand: Cand, sizes: Option<Sizes>, a: Answers) returns (rec: Rec)
      requires Safe(r, w, manifest, None)
      ensures Safe(r, w, manifest + [rec], None)
      ensures rec.newKey.None? && rec.id == cand.id && rec.school == cand.school && rec.original == cand.photo
      ensures var original := classify(OrEmpty(cand.photo));
        && rec.source == Some(original) && SizeOf(r.c, original, a.localSize, sizes, rec.originalSize)
        && (rec.outcome == Some(WouldProcess) <==> MayBeRead(r.c, original, a.localSize, sizes))
        && (!MayBeRead(r.c, original, a.localSize, sizes) ==>
              && rec.outcome.Some?
              && RefusedFor(r.c, original, a.localSize, sizes, Some((rec.outcome.value, rec.code))))
      ensures rec.outcome.Some? && !InUse(rec)
    {
      var original := classify(OrEmpty(cand.photo));
      var (size, skip) := ClassifySkip(r.c, original, a.localSize, sizes);
      SkipIsExplained(r.c, original, a.localSize, sizes);
      rec := NewRec(cand).(source := Some(original), originalSize := size,
        outcome := Some(if skip.Some? then skip.value.0 else WouldProcess),
        code := if skip.Some? then skip.value.1 else NoCode);
      FileKeepsSafe(r, w, manifest, rec);
    }

    /** A runner over the given stores, whose names are new to both of them. */
    constructor (r: RunOf, classify: string -> Original, db: Db)
      requires Unique(r) && Bounded(r, db) && (r.c.limit.Some? ==> 1 <= r.c.limit.value)
      requires NewNames(r, db)
      ensures Valid() && this.r == r && this.classify == classify && stopped.None?
      ensures w == World(db, r.before, 0, {}, [], [db]) && manifest == []
    {
      this.r, this.classify := r, classify;
      w := World(db, r.before, 0, {}, [], [db]);
      manifest, processed, errors, dbWrites, stopped := [], 0, 0, 0, None;
      InitiallySafe(r, db);
    }

    ghost predicate Valid()
      reads this
    {
      && Unique(r) && Safe(r, w, manifest, None) && Explains(r, w.commits, manifest)
      && processed == |manifest| && errors == Errors(manifest) && dbWrites == Oks(manifest)
      && (forall i :: 0 <= i < |manifest| ==>
            manifest[i].outcome.Some? && InMode(r.c, manifest[i].outcome) && InScope(r.c, manifest[i].school))
      && (r.c.limit.Some? ==> processed <= r.c.limit.value)
    }

    /** The first waiting row after `after`. */
    method First(e: Entity, after: nat) returns (next: Option<Cand>)
      ensures IsFirst(r.c, w.db, e, after, next)
    {
      next := None;
      var rest := w.db.Keys;
      while rest != {}
        invariant rest <= w.db.Keys
        invariant next.Some? ==> Waiting(r.c, w.db, e, after, next.value.id)
        invariant next.Some? ==> next.value == CandOf(w.db, next.value.id)
        invariant forall id :: Waiting(r.c, w.db, e, after, id) && id !in rest ==>
          next.Some? && next.value.id.id <= id.id
        decreases |rest|
      {
        var id :| id in rest;
        if Waiting(r.c, w.db, e, after, id) && (next.None? || id.id < next.value.id.id) {
          next := Some(CandOf(w.db, id));
        }
        rest := rest - {id};
      }
    }

    method Candidates(e: Entity, after: nat, size: nat) returns (batch: seq<Cand>)
      ensures IsPage(r.c, w.db, e, after, size, batch)
    {
      batch := [];
      while |batch| < size
        invariant |batch| <= size && IsPage(r.c, w.db, e, after, |batch|, batch)
      {
        var next := First(e, Last(batch, after));
        if next.None? {
          PageEnds(r.c, w.db, e, after, size, batch);
          return;
        }
        PageGrows(r.c, w.db, e, after, batch, next.value);
        batch := batch + [next.value];
      }
    }

    method Account(rec: Rec)
      requires rec.outcome.Some? && errors == Errors(manifest) && processed == |manifest|
      modifies this`manifest, this`processed, this`errors
      ensures manifest == old(manifest) + [rec]
      ensures errors == Errors(manifest) && processed == |manifest|
      ensures errors <= old(errors) + 1
    {
      processed := processed + 1;
      if IsError(rec.outcome) {
        errors := errors + 1;
      }
      manifest := manifest + [rec];
      assert manifest[..|manifest| - 1] == old(manifest);
    }

    /** One candidate of a batch: apply or classify it, account for it and file it. */
    method ProcessCandidate(cand: Cand, sizes: Option<Sizes>, a: Answers)
      requires Valid() && Polite(r, a) && (r.c.limit.Some? ==> processed < r.c.limit.value) && InScope(r.c, cand.school)
      modifies this`w, this`dbWrites, this`manifest, this`processed, this`errors
      ensures Since(old(w), w)
      ensures Valid() && |manifest| == |old(manifest)| + 1 && manifest[..|old(manifest)|] == old(manifest)
      ensures manifest[|old(manifest)|].id == cand.id
      ensures r.c.apply && r.still ==>
        (manifest[|old(manifest)|].outcome == Some(Ok) <==> Succeeds(old(w), cand, sizes, a))
      ensures !r.c.apply ==>
        (manifest[|old(manifest)|].outcome == Some(WouldProcess) <==>
          MayBeRead(r.c, classify(OrEmpty(cand.photo)), a.localSize, sizes))
      ensures errors <= old(errors) + 1
      ensures Spared(r, old(w.db), w.db, cand.id)
      ensures !r.c.apply ==> w == old(w) && dbWrites == old(dbWrites)
    {
      var rec;
      if r.c.apply {
        ghost var locked;
        rec, locked := ApplyOne(cand, sizes, a);
        FileExplains(r, old(w.commits), w.commits, manifest, rec);
      } else {
        rec := DryOne(cand, sizes, a);
        FileExplains(r, w.commits, w.commits, manifest, rec);
      }
      Account(rec);
      assert manifest[..|manifest| - 1] == old(manifest);
    }

    /** Why the run must stop now, if so. */
    ghost predicate StopsFor(why: Stop)
      reads this
    {
      match why
      case MaxErrorsReached => r.c.apply && errors == r.c.maxErrors
      case LimitReached => r.c.limit.Some? && processed == r.c.limit.value && (r.c.apply ==> errors < r.c.maxErrors)
    }

    ghost predicate MayGoOn()
      reads this
    {
      && stopped.None?
      && (r.c.apply ==> errors < r.c.maxErrors)
      && (r.c.limit.Some? ==> processed < r.c.limit.value)
    }

    method ProcessBatch(e: Entity, batch: seq<Cand>, sizes: Option<Sizes>, oracle: nat -> Answers) returns (stop: bool)
      requires forall i :: 0 <= i < |batch| ==> InScope(r.c, batch[i].school)
      requires Valid() && MayGoOn() && forall n: nat :: Polite(r, oracle(n))
      modifies this
      ensures Since(old(w), w)
      ensures Valid() && |old(manifest)| <= |manifest| && manifest[..|old(manifest)|] == old(manifest)
      ensures Follows(manifest, |old(manifest)|, batch, |manifest| - |old(manifest)|)
      ensures if stop then stopped.Some? && StopsFor(stopped.value) else MayGoOn() && |manifest| == |old(manifest)| + |batch|
      ensures SparedOutside(r, old(w.db), w.db, batch)
      ensures !r.c.apply ==> w == old(w) && dbWrites == old(dbWrites)
    {
      stop := false;
      for i := 0 to |batch|
        invariant Valid() && MayGoOn() && Since(old(w), w)
        invariant |old(manifest)| <= |manifest| && manifest[..|old(manifest)|] == old(manifest)
        invariant Follows(manifest, |old(manifest)|, batch, i)
        invariant SparedOutside(r, old(w.db), w.db, batch)
        invariant !r.c.apply ==> w == old(w) && dbWrites == old(dbWrites)
      {
        ghost var before, db := manifest, w.db;
        ProcessCandidate(batch[i], sizes, oracle(processed));
        FollowsLonger(before, manifest, |old(manifest)|, batch, i);
        SparedLonger(r, old(w.db), db, w.db, batch, i);
        if r.c.apply && errors >= r.c.maxErrors {
          stopped := Some(MaxErrorsReached);
          return true;
        }
        if r.c.limit.Some? && processed >= r.c.limit.value {
          stopped := Some(LimitReached);
          return true;
        }
      }
    }

    /** One query and its batch; db is the rows the query saw. */
    method ProcessPage(e: Entity, afterId: nat, size: nat, oracle: nat -> Answers)
      returns (batch: seq<Cand>, stop: bool, ghost db: Db)
      requires Valid() && MayGoOn() && forall n: nat :: Polite(r, oracle(n))
      modifies this
      ensures Since(old(w), w)
      ensures Valid() && |old(manifest)| <= |manifest| && manifest[..|old(manifest)|] == old(manifest)
      ensures IsPage(r.c, db, e, afterId, size, batch) && Bounded(r, db) && (r.still ==> db == old(w.db))
      ensures Follows(manifest, |old(manifest)|, batch, |manifest| - |old(manifest)|)
      ensures if stop then stopped.Some? && StopsFor(stopped.value) else MayGoOn() && |manifest| == |old(manifest)| + |batch|
      ensures batch == [] ==> !stop
      ensures SparedOutside(r, db, w.db, batch)
      ensures !r.c.apply ==> dbWrites == old(dbWrites) && w == old(w).(db := w.db, past := w.past)
    {
      var a := oracle(processed);
      EditKeepsSafe(r, w, manifest, None, BeforeQuery, a.edit(BeforeQuery, w));
      w := Turned(w, a.edit(BeforeQuery, w));
      batch := Candidates(e, afterId, size);
      db := w.db;
      stop := false;
      PageIsInScope(r.c, db, e, afterId, size, batch);
      if batch != [] {
        stop := ProcessBatch(e, batch, a.listing, oracle);
      }
    }

    /** One turn of the paging loop: how far it comes, or that nothing is left. */
    method NextPage(e: Entity, afterId: nat, size: nat, oracle: nat -> Answers, ghost from: nat, ghost start: Db)
      returns (stop: bool, last: bool, next: nat)
      requires Valid() && MayGoOn() && 1 <= size && forall n: nat :: Polite(r, oracle(n))
      requires from <= |manifest| && Reached(r, start, w.db, manifest, from, e, afterId)
      modifies this
      ensures Since(old(w), w)
      ensures Valid() && |old(manifest)| <= |manifest| && manifest[..|old(manifest)|] == old(manifest)
      ensures InOrder(r, manifest, from, e)
      ensures if stop then stopped.Some? && StopsFor(stopped.value) else MayGoOn()
      ensures last ==> !stop && (r.still ==> Complete(r, start, manifest, from, e))
      ensures !stop && !last ==> afterId < next <= r.bound && Reached(r, start, w.db, manifest, from, e, next)
      ensures SparedOthers(r, old(w.db), w.db, e)
      ensures !r.c.apply ==> dbWrites == old(dbWrites) && w == old(w).(db := w.db, past := w.past)
    {
      ghost var m := manifest;
      var batch;
      ghost var saw;
      batch, stop, saw := ProcessPage(e, afterId, size, oracle);
      PageReaches(r, start, saw, w.db, m, manifest, from, e, afterId, size, batch, |manifest| - |m|);
      PageSparesOthers(r, saw, w.db, e, afterId, size, batch);
      last, next := batch == [], afterId;
      if !stop && !last {
        PageAdvances(r.c, saw, e, afterId, size, batch);
        next := batch[|batch| - 1].id.id;
      }
    }

    /** The keyset paging loop over one table; true when the whole run must stop. */
    method ProcessEntity(e: Entity, oracle: nat -> Answers) returns (stop: bool)
      requires Valid() && stopped.None? && forall n: nat :: Polite(r, oracle(n))
      requires 1 <= r.c.batchSize && 1 <= r.c.maxErrors && (r.c.apply ==> errors < r.c.maxErrors)
      modifies this
      ensures Since(old(w), w)
      ensures Valid() && |old(manifest)| <= |manifest| && manifest[..|old(manifest)|] == old(manifest)
      ensures InOrder(r, manifest, |old(manifest)|, e)
      ensures if stop then stopped.Some? && StopsFor(stopped.value) else MayGoOn()
      ensures !stop && r.still ==> Complete(r, old(w.db), manifest, |old(manifest)|, e)
      ensures SparedOthers(r, old(w.db), w.db, e)
      ensures !r.c.apply ==> dbWrites == old(dbWrites) && w == old(w).(db := w.db, past := w.past)
    {
      var afterId := Resume(r.c);
      ghost var from, start := |manifest|, w.db;
      while true
        invariant Since(old(w), w)
        invariant Valid() && stopped.None? && (r.c.apply ==> errors < r.c.maxErrors)
        invariant from <= |manifest| && manifest[..from] == old(manifest)
        invariant Reached(r, start, w.db, manifest, from, e, afterId)
        invariant SparedOthers(r, old(w.db), w.db, e)
        invariant !r.c.apply ==> dbWrites == old(dbWrites) && w == old(w).(db := w.db, past := w.past)
        decreases r.bound - afterId
      {
        var size := BatchSize(r.c, processed);
        if size <= 0 {
          assert Ascends(manifest, from, e, Resume(r.c), afterId);
          stopped := Some(LimitReached);
          return true;
        }
        ghost var m := manifest;
        var last, next;
        stop, last, next := NextPage(e, afterId, size, oracle, from, start);
        FollowsPrefix(m, manifest, from, |m|);
        if stop || last {
          return;
        }
        afterId := next;
      }
    }

    /** A whole run over the chosen tables, and its exit status. */
    method Run(entities: seq<Entity>, oracle: nat -> Answers) returns (status: nat)
      requires manifest == [] && stopped.None? && (!Refuses(r.c, entities) ==> Valid())
      requires forall n: nat :: Polite(r, oracle(n))
      modifies this
      ensures status == 2 <==> !Acceptable(r.c, entities)
      ensures status == 2 ==> w == old(w) && manifest == []
      ensures status != 2 ==> Valid() && AllAccounted(r, w, manifest)
      ensures Since(old(w), w)
      ensures status != 2 ==> (stopped.Some? ==> StopsFor(stopped.value)) && (r.c.apply ==> errors <= r.c.maxErrors)
      ensures status == 0 ==> forall i :: 0 <= i < |manifest| ==> Harmless(manifest[i].outcome)
      ensures status == 3 ==> exists i :: 0 <= i < |manifest| && !Harmless(manifest[i].outcome)
      ensures status == 4 <==> status != 2 && stopped == Some(MaxErrorsReached)
      ensures !r.c.apply ==> w == old(w).(db := w.db, past := w.past)
      ensures status != 2 && stopped.None? ==> TablesDone(r, old(w.db), w.db, manifest, entities)
    {
      if Refuses(r.c, entities) {
        return 2;
      }
      var stop, i := false, 0;
      while i < |entities| && !stop
        invariant Valid() && Since(old(w), w)
        invariant if stop then stopped.Some? && StopsFor(stopped.value) else stopped.None? && (r.c.apply ==> errors < r.c.maxErrors)
        invariant !r.c.apply ==> w == old(w).(db := w.db, past := w.past)
        invariant i <= |entities| && (!stop ==> TablesDone(r, old(w.db), w.db, manifest, entities[..i]))
        decreases |entities| - i
      {
        ghost var db, m := w.db, manifest;
        stop := ProcessEntity(entities[i], oracle);
        if !stop {
          OneMoreTable(r, old(w.db), db, w.db, m, manifest, entities[..i], entities[i]);
          assert entities[..i] + [entities[i]] == entities[..i + 1];
        }
        i := i + 1;
      }
      assert entities[..|entities|] == entities;
      NoErrors(manifest);
      forall k ensures k in w.objects && k !in r.before ==> Accounted(r, w, manifest, k) {
        EveryObjectIsAccountedFor(r, w, manifest, k);
      }
      status := if stopped == Some(MaxErrorsReached) then 4 else if errors > 0 then 3 else 0;
    }
  }
}
