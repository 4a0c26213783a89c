/** Upload destinations: the base class every destination extends, the
    local-disk destination in full, and the two Google destinations as
    names whose outcomes come from outside. Everything a destination does
    outside the process (directories, copies, remote calls) is an input
    collected in `Env`. */
module Destinations {
  import opened Common
  import opened Json
  import opened Placement

  const InitializeMissing: string := "initialize() must be implemented by subclass"
  const UploadMissing: string := "upload() must be implemented by subclass"
  const IsReadyMissing: string := "isReady() must be implemented by subclass"
  const LocalConfigMissing: string := "Local destination requires photosDir config"

  /** Whether a config value is a string (`None` is `undefined`). */
  predicate IsString(v: Option<Json>) {
    v.Some? && v.value.Str?
  }

  /** How Node's `ERR_INVALID_ARG_TYPE` describes the non-string value it
      received (`None` is `undefined`). */
  function ReceivedDescription(v: Option<Json>): string
    requires !IsString(v)
  {
    match v
    case None => "undefined"
    case Some(Null) => "null"
    case Some(Bool(b)) => "type boolean (" + (if b then "true" else "false") + ")"
    case Some(Num(n)) => "type number (" + IntToString(n) + ")"
    case Some(Str(_)) => assert false; ""
    case Some(Arr(_)) => "an instance of Array"
    case Some(Obj(_)) => "an instance of Object"
  }

  /** The `TypeError` of `path.join` given `v` as a segment. */
  function JoinTypeError(v: Option<Json>): string
    requires !IsString(v)
  {
    "The \"path\" argument must be of type string. Received " + ReceivedDescription(v)
  }

  /** The `TypeError` of `fs.mkdir` given `v` as its path. */
  function MkdirTypeError(v: Option<Json>): string
    requires !IsString(v)
  {
    "The \"path\" argument must be of type string or an instance of Buffer or URL. Received " + ReceivedDescription(v)
  }

  const BaseClassName: string := "base"
  const LocalName: string := "local"
  const GoogleDriveName: string := "google-drive"
  const GooglePhotosName: string := "google-photos"

  /** The class of a destination, with what that class keeps from its
      config: the local destination its `photosDir` (`None` when the
      config has none). */
  datatype Kind = Base | Local(photosDir: Option<Json>) | Remote

  /** A destination object: `name`, the `enabled` flag read for its
      truthiness as every caller reads it, and the config it was built
      from. */
  datatype Destination = Destination(name: string, enabled: bool, config: map<string, Json>, kind: Kind)

  /** `config.enabled ?? true`: an absent or `null` flag enables. */
  function EnabledFlag(config: map<string, Json>): (b: bool)
    ensures "enabled" !in config ==> b
    ensures "enabled" in config && config["enabled"].Null? ==> b
    ensures "enabled" in config && config["enabled"] == Bool(false) ==> !b
    ensures "enabled" in config && !config["enabled"].Null? ==> b == Truthy(config["enabled"])
  {
    match Member(Obj(config), "enabled")
    case None => true
    case Some(Null) => true
    case Some(v) => Truthy(v)
  }

  function NewBase(config: map<string, Json>): (d: Destination)
    ensures d.name == "base" && d.config == config && d.kind == Base
    ensures d.enabled == EnabledFlag(config)
  {
    Destination(BaseClassName, EnabledFlag(config), config, Base)
  }

  function NewLocal(config: map<string, Json>): (d: Destination)
    ensures d.name == "local" && d.config == config && d.enabled == EnabledFlag(config)
    ensures d.kind.Local? && d.kind.photosDir == Member(Obj(config), "photosDir")
  {
    Destination(LocalName, EnabledFlag(config), config, Local(Member(Obj(config), "photosDir")))
  }

  function NewGoogleDrive(config: map<string, Json>): (d: Destination)
    ensures d.name == "google-drive" && d.kind == Remote && d.enabled == EnabledFlag(config)
  {
    Destination(GoogleDriveName, EnabledFlag(config), config, Remote)
  }

  function NewGooglePhotos(config: map<string, Json>): (d: Destination)
    ensures d.name == "google-photos" && d.kind == Remote && d.enabled == EnabledFlag(config)
  {
    Destination(GooglePhotosName, EnabledFlag(config), config, Remote)
  }

  /** The outcomes of what destinations do outside the process. */
  datatype Env = Env(
    now: JsDate,                           // `new Date()`
    mkdir: Outcome,                        // `fs.mkdir(..., { recursive: true })`
    copy: Outcome,                         // `fs.copyFile`
    localReady: bool,                      // `fs.access(photosDir)` succeeds
    remoteInit: string -> Outcome,         // `initialize()` of the named remote destination
    remoteUpload: string -> Result<Json>,  // `upload()` of the named remote destination
    remoteReady: string -> bool)           // `isReady()` of the named remote destination

  /** The metadata handed to `upload`; `None` stands for `undefined`. */
  datatype Metadata = Metadata(
    originalFilename: Option<string>,
    destinationFilename: Option<string>,
    date: Option<JsDate>,
    mimeType: Option<string>,
    extension: Option<string>,
    receivedId: Option<Json>)

  /** `initialize()`. */
  function Initialize(d: Destination, env: Env): (o: Outcome)
    ensures d.kind.Base? ==> o == Fail(InitializeMissing)
    ensures d.kind.Local? && !(d.kind.photosDir.Some? && Truthy(d.kind.photosDir.value)) ==>
              o == Fail(LocalConfigMissing)
    ensures (d.kind.Local? && d.kind.photosDir.Some? && d.kind.photosDir.value.Str? &&
             d.kind.photosDir.value.s != "") ==> o == env.mkdir
    ensures (d.kind.Local? && d.kind.photosDir.Some? && Truthy(d.kind.photosDir.value) &&
             !d.kind.photosDir.value.Str?) ==> o == Fail(MkdirTypeError(d.kind.photosDir))
    ensures d.kind.Remote? ==> o == env.remoteInit(d.name)
  {
    match d.kind
    case Base => Fail(InitializeMissing)
    case Local(dir) =>
      if dir.None? || !Truthy(dir.value) then Fail(LocalConfigMissing)
      else if !dir.value.Str? then Fail(MkdirTypeError(dir))
      else env.mkdir
    case Remote => env.remoteInit(d.name)
  }

  /** `isReady()`; a rejected promise is `Err`. The local destination is
      ready when its directory is accessible (`fs.access` of anything but
      a string path fails, so such a destination is not ready). */
  function IsReady(d: Destination, env: Env): (r: Result<bool>)
    ensures r.Err? <==> d.kind.Base?
    ensures r.Err? ==> r.message == IsReadyMissing
    ensures d.kind.Local? ==> r == Ok(d.kind.photosDir.Some? && d.kind.photosDir.value.Str? && env.localReady)
    ensures d.kind.Remote? ==> r == Ok(env.remoteReady(d.name))
  {
    match d.kind
    case Base => Err(IsReadyMissing)
    case Local(dir) => Ok(dir.Some? && dir.value.Str? && env.localReady)
    case Remote => Ok(env.remoteReady(d.name))
  }

  /** The outcome of an upload together with the files on the local disk
      afterwards. */
  datatype Uploaded = Uploaded(result: Result<Json>, files: set<string>)

  predicate Given(s: Option<string>) {
    s.Some? && s.value != ""
  }

  /** `metadata.destinationFilename || metadata.originalFilename ||
      path.basename(filePath)`. */
  function SourceName(meta: Metadata, filePath: string): (n: string)
    ensures Given(meta.destinationFilename) ==> n == meta.destinationFilename.value
    ensures !Given(meta.destinationFilename) && Given(meta.originalFilename) ==> n == meta.originalFilename.value
    ensures !Given(meta.destinationFilename) && !Given(meta.originalFilename) ==> n == BaseName(filePath)
  {
    if Given(meta.destinationFilename) then meta.destinationFilename.value
    else if Given(meta.originalFilename) then meta.originalFilename.value
    else BaseName(filePath)
  }

  /** `photosDir/year/year-MM-DD` for the date of the file, or for now when
      the metadata has none. */
  function DayDir(photosDir: string, meta: Metadata, now: JsDate): string {
    var p := FormatDateForPath(meta.date.GetOr(now));
    PathJoin(PathJoin(photosDir, p.year), p.folder)
  }

  function LocalResult(destPath: string, folderPath: string, filename: string): Json {
    Obj(map["destinationPath" := Str(destPath), "folderPath" := Str(folderPath), "filename" := Str(filename)])
  }

  /** `LocalDestination.upload`: copies the file into its day directory
      under a name no existing file has, and describes where it went. */
  function LocalUpload(photosDir: Option<Json>, filePath: string, meta: Metadata, files: set<string>, env: Env): (u: Uploaded)
    ensures u.result.Ok? <==> photosDir.Some? && photosDir.value.Str? && env.mkdir.Pass? && env.copy.Pass?
    ensures u.result.Err? ==> u.files == files
    ensures !IsString(photosDir) ==> u.result == Err(JoinTypeError(photosDir))
    ensures u.result.Ok? ==>
              var date := meta.date.GetOr(env.now);
              var p := FormatDateForPath(date);
              var dir := DayDir(photosDir.value.s, meta, env.now);
              var c := ChooseFilename(dir, SourceName(meta, filePath), files);
              && u.result.value == LocalResult(PathJoin(dir, c.filename), p.year + "/" + p.folder, c.filename)
              && PathJoin(dir, c.filename) !in files
              && u.files == files + {PathJoin(dir, c.filename)}
  {
    if !IsString(photosDir) then Uploaded(Err(JoinTypeError(photosDir)), files)
    else
      var p := FormatDateForPath(meta.date.GetOr(env.now));
      var dir := DayDir(photosDir.value.s, meta, env.now);
      if env.mkdir.Fail? then Uploaded(Err(env.mkdir.message), files)
      else
        var c := ChooseFilename(dir, SourceName(meta, filePath), files);
        var destPath := PathJoin(dir, c.filename);
        if env.copy.Fail? then Uploaded(Err(env.copy.message), files)
        else Uploaded(Ok(LocalResult(destPath, p.year + "/" + p.folder, c.filename)), files + {destPath})
  }

  /** `upload(filePath, metadata)` of any destination. */
  function Upload(d: Destination, filePath: string, meta: Metadata, files: set<string>, env: Env): (u: Uploaded)
    ensures d.kind.Base? ==> u == Uploaded(Err(UploadMissing), files)
    ensures d.kind.Remote? ==> u == Uploaded(env.remoteUpload(d.name), files)
    ensures d.kind.Local? ==> u == LocalUpload(d.kind.photosDir, filePath, meta, files, env)
  {
    match d.kind
    case Base => Uploaded(Err(UploadMissing), files)
    case Local(dir) => LocalUpload(dir, filePath, meta, files, env)
    case Remote => Uploaded(env.remoteUpload(d.name), files)
  }

  /** The error an upload raises, if any. It does not depend on the files
      already on disk: the collision loop always finds a free name. */
  function UploadError(d: Destination, meta: Metadata, env: Env): Option<string> {
    match d.kind
    case Base => Some(UploadMissing)
    case Local(dir) =>
      if !IsString(dir) then Some(JoinTypeError(dir))
      else if env.mkdir.Fail? then Some(env.mkdir.message)
      else if env.copy.Fail? then Some(env.copy.message)
      else None
    case Remote => if env.remoteUpload(d.name).Err? then Some(env.remoteUpload(d.name).message) else None
  }

  lemma UploadErrorIsExact(d: Destination, filePath: string, meta: Metadata, files: set<string>, env: Env)
    ensures Upload(d, filePath, meta, files, env).result.Err? <==> UploadError(d, meta, env).Some?
    ensures Upload(d, filePath, meta, files, env).result.Err? ==>
              Upload(d, filePath, meta, files, env).result.message == UploadError(d, meta, env).value
  {
  }

  /** A copy never removes anything: every file there before an upload,
      the source among them, is still there afterwards. */
  lemma UploadKeepsFiles(d: Destination, filePath: string, meta: Metadata, files: set<string>, env: Env)
    ensures files <= Upload(d, filePath, meta, files, env).files
    ensures filePath in files ==> filePath in Upload(d, filePath, meta, files, env).files
  {
  }

  /** A successful local upload adds exactly one file, and it lies in the
      day directory of the file's date under the name reported in the
      result. */
  lemma LocalUploadAddsOneFile(dir: string, filePath: string, meta: Metadata, files: set<string>, env: Env)
    requires env.mkdir.Pass? && env.copy.Pass?
    ensures var u := LocalUpload(Some(Str(dir)), filePath, meta, files, env);
            && u.result.Ok?
            && Member(u.result.value, "filename").Some?
            && Member(u.result.value, "filename").value.Str?
            && var name := Member(u.result.value, "filename").value.s;
               && u.files - files == {PathJoin(DayDir(dir, meta, env.now), name)}
               && |u.files| == |files| + 1
  {
  }

  /** With its original name free in the day directory, a file keeps it. */
  lemma FreeNameIsKept(dir: string, filePath: string, meta: Metadata, files: set<string>, env: Env)
    requires env.mkdir.Pass? && env.copy.Pass?
    requires PathJoin(DayDir(dir, meta, env.now), SourceName(meta, filePath)) !in files
    ensures LocalUpload(Some(Str(dir)), filePath, meta, files, env).result.value
            == LocalResult(PathJoin(DayDir(dir, meta, env.now), SourceName(meta, filePath)),
                           FormatDateForPath(meta.date.GetOr(env.now)).year + "/" +
                           FormatDateForPath(meta.date.GetOr(env.now)).folder,
                           SourceName(meta, filePath))
  {
  }
}
