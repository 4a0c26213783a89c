/** The embedded document database: its three collections, the one-time
    import of the legacy settings and JSONL files, and the module-level
    `db` / `_initPromise` pair that makes initialisation happen once until
    the database is closed. Collections are sequences of documents in
    insertion order; reading the legacy files and loading the database
    file are inputs. */
module Db {
  import opened Common
  import opened Json
  import opened UploadLog

  type Collection = seq<Json>

  /** The collections of a database, by name. */
  type Store = map<string, Collection>

  const SettingsName: string := "settings"
  const ReceivedName: string := "received"
  const DestinationsName: string := "destinations"

  const NotInitialized: string := "Database not initialized. Call initDatabase() first."

  function CollectionNotFound(name: string): string {
    "Collection \"" + name + "\" not found."
  }

  /** `ensureCollections`: adds whichever of the three collections is
      missing, empty, and leaves the others alone. */
  function EnsureCollections(s: Store): (r: Store)
    ensures SettingsName in r && ReceivedName in r && DestinationsName in r
    ensures forall n :: n in s ==> n in r && r[n] == s[n]
    ensures forall n :: n in r && n !in s ==> r[n] == []
    ensures r.Keys == s.Keys + {SettingsName, ReceivedName, DestinationsName}
  {
    var a := if SettingsName in s then s else s[SettingsName := []];
    var b := if ReceivedName in a then a else a[ReceivedName := []];
    if DestinationsName in b then b else b[DestinationsName := []]
  }

  /** The settings document a legacy `settings.json` becomes. */
  function MainRow(value: Json): Json {
    Obj(map["key" := Str("main"), "value" := value])
  }

  /** The legacy files as `fs.readFile` finds them. */
  datatype LegacyFiles = LegacyFiles(settings: FileState, received: FileState, destinations: FileState)

  /** What `settings.json` contributes to an empty settings collection:
      one main row, or nothing when the file is missing, unreadable or not
      JSON (each such error is caught). */
  function ImportSettings(f: FileState, parse: string -> Option<Json>): (rows: Collection)
    ensures |rows| <= 1
    ensures |rows| == 1 <==> f.Content? && parse(f.text).Some?
    ensures |rows| == 1 ==> rows[0] == MainRow(parse(f.text).value)
  {
    match f
    case Content(t) =>
      (match parse(t)
       case Some(v) => [MainRow(v)]
       case None => [])
    case _ => []
  }

  /** Whether LokiJS's `insert` takes a document: its `typeof` must be
      `'object'` (arrays included) and it must not be `null`. */
  predicate Storable(d: Json) {
    d.Obj? || d.Arr?
  }

  /** The value a unique index on `id` files a document under; `null` and
      `undefined` are not indexed. */
  function IdKey(d: Json): Option<Json> {
    if Member(d, "id") == Some(Null) then None else Member(d, "id")
  }

  /** Whether inserting `es[i]` right after `es[..i]` throws: it is not an
      object, or the collection has a unique `id` index and an earlier
      document already holds its id. */
  predicate Rejected(es: seq<Json>, i: nat, uniqueId: bool)
    requires i < |es|
  {
    || !Storable(es[i])
    || (uniqueId && IdKey(es[i]).Some? && exists j :: 0 <= j < i && IdKey(es[j]) == IdKey(es[i]))
  }

  /** The first position from `i` on whose document is rejected, or `|es|`. */
  function FirstRejected(es: seq<Json>, uniqueId: bool, i: nat): (n: nat)
    requires i <= |es|
    ensures i <= n <= |es|
    ensures forall j :: i <= j < n ==> !Rejected(es, j, uniqueId)
    ensures n < |es| ==> Rejected(es, n, uniqueId)
    decreases |es| - i
  {
    if i == |es| || Rejected(es, i, uniqueId) then i else FirstRejected(es, uniqueId, i + 1)
  }

  /** LokiJS's `insert(docs)` into an empty collection: the documents go
      in one at a time, and the first one rejected throws, keeping those
      inserted before it. */
  function InsertAll(es: seq<Json>, uniqueId: bool): (kept: Collection)
    ensures |kept| <= |es| && kept == es[..|kept|]
    ensures forall j :: 0 <= j < |kept| ==> Storable(kept[j])
    ensures uniqueId ==> forall i, j :: 0 <= i < j < |kept| && IdKey(kept[i]).Some? ==> IdKey(kept[i]) != IdKey(kept[j])
    ensures |kept| < |es| ==>
              || !Storable(es[|kept|])
              || (uniqueId && IdKey(es[|kept|]).Some? &&
                  exists j :: 0 <= j < |kept| && IdKey(kept[j]) == IdKey(es[|kept|]))
  {
    var n := FirstRejected(es, uniqueId, 0);
    var kept := es[..n];
    assert forall j :: 0 <= j < n ==> kept[j] == es[j] && !Rejected(es, j, uniqueId);
    kept
  }

  /** What a legacy JSONL file contributes to an empty collection, whose
      `unique: ['id']` index `uniqueId` says whether it has: the parsed
      lines, in file order, up to the first one LokiJS rejects. A missing
      or unreadable file, or any line that fails to parse, imports
      nothing. */
  function ImportLines(f: FileState, parse: string -> Option<Json>, uniqueId: bool): (docs: Collection)
    ensures f.Content? && ParseLines(ReadLines(f.text), parse).Some? ==>
              && |docs| <= |ReadLines(f.text)|
              && (forall i :: 0 <= i < |docs| ==> parse(ReadLines(f.text)[i]) == Some(docs[i]))
              && docs == InsertAll(ParseLines(ReadLines(f.text), parse).value, uniqueId)
    ensures !f.Content? ==> docs == []
    ensures f.Content? && (exists i :: 0 <= i < |ReadLines(f.text)| && parse(ReadLines(f.text)[i]).None?) ==>
              docs == []
  {
    match f
    case Content(t) =>
      (match ParseLines(ReadLines(t), parse)
       case Some(es) => InsertAll(es, uniqueId)
       case None => [])
    case _ => []
  }

  /** Imports into one collection only while it is empty. */
  function Guarded(current: Collection, imported: Collection): (r: Collection)
    ensures current != [] ==> r == current
    ensures current == [] ==> r == imported
  {
    if |current| == 0 then imported else current
  }

  /** `migrateFromFiles`, after `ensureCollections`. */
  function Migrate(s: Store, files: LegacyFiles, parse: string -> Option<Json>): (r: Store)
    requires SettingsName in s && ReceivedName in s && DestinationsName in s
    ensures r.Keys == s.Keys
    ensures forall n :: n in s && s[n] != [] ==> r[n] == s[n]
    ensures forall n :: n in s && n !in {SettingsName, ReceivedName, DestinationsName} ==> r[n] == s[n]
    ensures s[SettingsName] == [] ==> r[SettingsName] == ImportSettings(files.settings, parse)
    ensures s[ReceivedName] == [] ==> r[ReceivedName] == ImportLines(files.received, parse, true)
    ensures s[DestinationsName] == [] ==> r[DestinationsName] == ImportLines(files.destinations, parse, false)
  {
    s[SettingsName := Guarded(s[SettingsName], ImportSettings(files.settings, parse))]
     [ReceivedName := Guarded(s[ReceivedName], ImportLines(files.received, parse, true))]
     [DestinationsName := Guarded(s[DestinationsName], ImportLines(files.destinations, parse, false))]
  }

  /** Migrating again over the same files changes nothing: whatever the
      first run imported now fills its collection, and whatever it could not
      import it cannot import the second time either. */
  lemma MigrateIdempotent(s: Store, files: LegacyFiles, parse: string -> Option<Json>)
    requires SettingsName in s && ReceivedName in s && DestinationsName in s
    ensures Migrate(Migrate(s, files, parse), files, parse) == Migrate(s, files, parse)
  {
  }

  /** A missing legacy file is not an error and imports nothing. */
  lemma MissingFilesImportNothing(s: Store, parse: string -> Option<Json>)
    requires SettingsName in s && ReceivedName in s && DestinationsName in s
    ensures Migrate(s, LegacyFiles(Missing, Missing, Missing), parse) == s
  {
  }

  /** A JSONL file written by the upload log imports back exactly the
      entries logged, in order, when they are objects and, under a unique
      `id` index, their ids are distinct. */
  lemma ImportLinesReadsLog(f: FileState, es: seq<Json>, codec: Codec, uniqueId: bool)
    requires Sound(codec) && Holds(f, es, codec)
    requires forall i :: 0 <= i < |es| ==> Storable(es[i])
    requires uniqueId ==> forall i, j :: 0 <= i < j < |es| && IdKey(es[i]).Some? ==> IdKey(es[i]) != IdKey(es[j])
    ensures ImportLines(f, codec.parse, uniqueId) == es
  {
    ReadWritten(f, es, codec);
    InsertAllKeepsAll(es, uniqueId);
  }

  /** Nothing is rejected when every document is an object and, under a
      unique `id` index, the ids are distinct. */
  lemma InsertAllKeepsAll(es: seq<Json>, uniqueId: bool)
    requires forall i :: 0 <= i < |es| ==> Storable(es[i])
    requires uniqueId ==> forall i, j :: 0 <= i < j < |es| && IdKey(es[i]).Some? ==> IdKey(es[i]) != IdKey(es[j])
    ensures InsertAll(es, uniqueId) == es
  {
    var n := FirstRejected(es, uniqueId, 0);
    if n < |es| {
      assert false;
    }
    assert es[..|es|] == es;
  }

  /** A duplicate id stops the import of a log with a unique `id` index:
      only the documents before the second copy go in. */
  lemma DuplicateIdStopsImport(a: Json, b: Json, rest: seq<Json>)
    requires Storable(a) && Storable(b) && IdKey(a).Some? && IdKey(a) == IdKey(b)
    ensures InsertAll([a, b] + rest, true) == [a]
    ensures |InsertAll([a, b] + rest, false)| >= 2
  {
    var es := [a, b] + rest;
    assert es[0] == a && es[1] == b;
    assert Rejected(es, 1, true);
  }

  // ---------------------------------------------------------------------
  // Initialisation and access

  /** The module state: `db` (absent before initialisation and after a
      close) and the memoised outcome of `_initPromise`. */
  datatype DbState = DbState(db: Option<Store>, initPromise: Option<Outcome>)

  const Closed: DbState := DbState(None, None)

  /** `initDatabase()`. `load` is what autoloading the database file gives:
      its collections, or the error the load callback receives (the
      instance whose load failed keeps no collections). Migration is
      best-effort, so a successful load always resolves. */
  function InitDatabase(s: DbState, load: Result<Store>, files: LegacyFiles, parse: string -> Option<Json>)
    : (r: (DbState, Outcome))
    ensures s.initPromise.Some? ==> r == (s, s.initPromise.value)
    ensures s.initPromise.None? ==> (r.1.Pass? <==> load.Ok?) && r.0.db.Some?
    ensures r.0.initPromise == Some(r.1)
    ensures s.initPromise.None? && load.Ok? ==>
              r.0.db == Some(Migrate(EnsureCollections(load.value), files, parse))
  {
    if s.initPromise.Some? then (s, s.initPromise.value)
    else match load
      case Err(m) => (DbState(Some(map[]), Some(Fail(m))), Fail(m))
      case Ok(store) =>
        var ready := Migrate(EnsureCollections(store), files, parse);
        (DbState(Some(ready), Some(Pass)), Pass)
  }

  /** Calling `initDatabase` again hands back the same promise and touches
      nothing, whatever the disk holds by then. */
  lemma InitDatabaseMemoised(s: DbState, l1: Result<Store>, f1: LegacyFiles, l2: Result<Store>, f2: LegacyFiles,
                             parse: string -> Option<Json>)
    ensures var first := InitDatabase(s, l1, f1, parse);
            InitDatabase(first.0, l2, f2, parse) == first
  {
  }

  /** `getDb()`. */
  function GetDb(s: DbState): (r: Result<Store>)
    ensures r.Ok? <==> s.db.Some?
    ensures r.Err? ==> r.message == NotInitialized
  {
    match s.db
    case None => Err(NotInitialized)
    case Some(store) => Ok(store)
  }

  /** `getCollection(name)`. */
  function GetCollection(s: DbState, name: string): (r: Result<Collection>)
    ensures r.Ok? <==> s.db.Some? && name in s.db.value
    ensures r.Ok? ==> r.value == s.db.value[name]
    ensures s.db.None? ==> r == Err(NotInitialized)
    ensures s.db.Some? && name !in s.db.value ==> r == Err(CollectionNotFound(name))
  {
    match GetDb(s)
    case Err(m) => Err(m)
    case Ok(store) => if name in store then Ok(store[name]) else Err(CollectionNotFound(name))
  }

  /** After a successful initialisation every collection the rest of the
      program asks for exists. */
  lemma InitialisedHasCollections(s: DbState, load: Result<Store>, files: LegacyFiles, parse: string -> Option<Json>)
    requires s == Closed && load.Ok?
    ensures var t := InitDatabase(s, load, files, parse).0;
            && GetCollection(t, SettingsName).Ok?
            && GetCollection(t, ReceivedName).Ok?
            && GetCollection(t, DestinationsName).Ok?
  {
  }

  /** `closeDatabase()`; `closed` is the outcome of closing the instance.
      Only a successful close resets the state. */
  function CloseDatabase(s: DbState, closed: Outcome): (r: (DbState, Outcome))
    ensures s.db.None? ==> r == (s, Pass)
    ensures s.db.Some? && closed.Pass? ==> r == (Closed, Pass)
    ensures s.db.Some? && closed.Fail? ==> r == (s, closed)
  {
    if s.db.None? then (s, Pass)
    else if closed.Fail? then (s, closed)
    else (Closed, Pass)
  }

  /** Once closed, the database can be initialised afresh: the next
      `initDatabase` loads and migrates again. */
  lemma CloseResetsInit(s: DbState, load: Result<Store>, files: LegacyFiles, parse: string -> Option<Json>)
    requires s.db.Some?
    ensures var c := CloseDatabase(s, Pass).0;
            && GetDb(c).Err?
            && InitDatabase(c, load, files, parse) == InitDatabase(Closed, load, files, parse)
  {
  }
}
