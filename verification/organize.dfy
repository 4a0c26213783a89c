/** `organizeFile`: what happens to a file once it has been received.
    A file whose extension is not supported is deleted. Otherwise it is
    handed to every enabled destination, or, when there is none, moved into
    the day directory of its capture date under a free name. The files on
    disk are a set of paths; unlinking or renaming a path that is not there
    fails. */
module Organize {
  import opened Common
  import opened Json
  import opened Placement
  import opened Exif
  import opened Destinations
  import opened Manager

  /** The error code of unlinking or renaming a missing path. */
  const NoSuchFile: string := "ENOENT"

  /** How a file was dealt with. */
  datatype Organized =
    | Discarded                                                      // unsupported: the source was unlinked
    | Distributed(results: seq<UploadResult>, sourceDeleted: bool)  // handed to the enabled destinations
    | Placed(destPath: string)                                       // no destinations: moved into place

  /** The metadata `organizeFile` builds. It carries no `receivedId`. */
  function OrganizeMetadata(originalFilename: string, fileDate: JsDate): (m: Metadata)
    ensures m.originalFilename == Some(originalFilename) && m.destinationFilename == m.originalFilename
    ensures m.receivedId.None?
    ensures m.mimeType.Some? && m.extension.Some? &&
            m.mimeType.value == GetMimeType(m.extension.value)
  {
    var ext := ToLower(ExtName(originalFilename));
    Metadata(Some(originalFilename), Some(originalFilename), Some(fileDate), Some(GetMimeType(ext)), Some(ext), None)
  }

  /** Every destination stores the file under its original name (before
      collisions), whatever the temporary upload path is called. */
  lemma DestinationsSeeOriginalName(originalFilename: string, fileDate: JsDate, sourcePath: string)
    requires originalFilename != ""
    ensures SourceName(OrganizeMetadata(originalFilename, fileDate), sourcePath) == originalFilename
    ensures FormatDateForPath(OrganizeMetadata(originalFilename, fileDate).date.value) == FormatDateForPath(fileDate)
  {
  }

  predicate AnySucceeded(results: seq<UploadResult>) {
    exists i :: 0 <= i < |results| && results[i].Succeeded?
  }

  /** The fallback with no destinations: `photosDir/year/year-MM-DD`, the
      collision loop, then `fs.rename`. `PHOTOS_DIR` may be any value:
      `path.join` throws its type error before anything is created when it
      is not a string. */
  function Fallback(sourcePath: string, originalFilename: string, photosDir: Option<Json>, fileDate: JsDate,
                    st: State, env: Env): (r: (Result<Organized>, State))
    ensures r.1.log == st.log && r.1.active == st.active
    ensures r.0.Ok? <==> IsString(photosDir) && env.mkdir.Pass? && sourcePath in st.files
    ensures r.0.Err? ==> r.1 == st
    ensures !IsString(photosDir) ==> r.0 == Err(JoinTypeError(photosDir))
    ensures r.0.Ok? ==>
              var p := FormatDateForPath(fileDate);
              var destDir := PathJoin(PathJoin(photosDir.value.s, p.year), p.folder);
              var c := ChooseFilename(destDir, originalFilename, st.files);
              && r.0.value == Placed(PathJoin(destDir, c.filename))
              && PathJoin(destDir, c.filename) !in st.files
              && r.1.files == st.files - {sourcePath} + {PathJoin(destDir, c.filename)}
  {
    if !IsString(photosDir) then (Err(JoinTypeError(photosDir)), st)
    else
      var p := FormatDateForPath(fileDate);
      var destDir := PathJoin(PathJoin(photosDir.value.s, p.year), p.folder);
      if env.mkdir.Fail? then (Err(env.mkdir.message), st)
      else
        var c := ChooseFilename(destDir, originalFilename, st.files);
        var destPath := PathJoin(destDir, c.filename);
        if sourcePath !in st.files then (Err(NoSuchFile), st)
        else (Ok(Placed(destPath)), st.(files := st.files - {sourcePath} + {destPath}))
  }

  /** `organizeFile(sourcePath, originalFilename, PHOTOS_DIR,
      SUPPORTED_EXTENSIONS)` against the registry `ds`. `tags` and `stat`
      feed the capture date, `env.now` is the current time and
      `deleteAfterUpload` the configuration flag. */
  function OrganizeFile(sourcePath: string, originalFilename: string, photosDir: Option<Json>, supported: seq<string>,
                        deleteAfterUpload: bool, ds: Registry,
                        tags: Result<map<string, Tag>>, stat: Result<Stat>,
                        st: State, env: Env, clock: Clock): (r: (Result<Organized>, State))
    ensures ToLower(ExtName(originalFilename)) !in supported ==>
              && (r.0.Ok? <==> sourcePath in st.files)
              && (r.0.Ok? ==> r.0.value == Discarded)
              && r.1 == st.(files := st.files - {sourcePath})
    ensures ToLower(ExtName(originalFilename)) in supported && EnabledDestinations(ds) != [] ==>
              var meta := OrganizeMetadata(originalFilename, ExtractDate(sourcePath, tags, stat, env.now));
              var up := UploadToAll(ds, sourcePath, meta, st, env, clock);
              && r.0.Ok? && r.0.value.Distributed?
              && r.0.value.results == up.0
              && (r.0.value.sourceDeleted <==> deleteAfterUpload && AnySucceeded(up.0) && sourcePath in up.1.files)
              && r.1.log == up.1.log && r.1.active == up.1.active
              && r.1.files == (if deleteAfterUpload && AnySucceeded(up.0) then up.1.files - {sourcePath} else up.1.files)
    ensures ToLower(ExtName(originalFilename)) in supported && EnabledDestinations(ds) == [] ==>
              r == Fallback(sourcePath, originalFilename, photosDir, ExtractDate(sourcePath, tags, stat, env.now), st, env)
  {
    var ext := ToLower(ExtName(originalFilename));
    if ext !in supported then
      if sourcePath in st.files then (Ok(Discarded), st.(files := st.files - {sourcePath}))
      else (Err(NoSuchFile), st.(files := st.files - {sourcePath}))
    else
      var fileDate := ExtractDate(sourcePath, tags, stat, env.now);
      var meta := OrganizeMetadata(originalFilename, fileDate);
      if |EnabledDestinations(ds)| > 0 then
        var up := UploadToAll(ds, sourcePath, meta, st, env, clock);
        // A failed unlink is caught and only logged.
        var unlink := deleteAfterUpload && AnySucceeded(up.0);
        var deleted := unlink && sourcePath in up.1.files;
        (Ok(Distributed(up.0, deleted)), if unlink then up.1.(files := up.1.files - {sourcePath}) else up.1)
      else
        Fallback(sourcePath, originalFilename, photosDir, fileDate, st, env)
  }

  /** With destinations, the received file survives the fan-out unless
      deletion is configured and at least one destination took it. */
  lemma SourceDeletedOnlyAfterSuccess(sourcePath: string, originalFilename: string, photosDir: Option<Json>,
                                      supported: seq<string>, deleteAfterUpload: bool, ds: Registry,
                                      tags: Result<map<string, Tag>>, stat: Result<Stat>,
                                      st: State, env: Env, clock: Clock)
    requires ToLower(ExtName(originalFilename)) in supported && EnabledDestinations(ds) != []
    requires sourcePath in st.files
    ensures var r := OrganizeFile(sourcePath, originalFilename, photosDir, supported, deleteAfterUpload, ds,
                                  tags, stat, st, env, clock);
            && (sourcePath !in r.1.files <==> deleteAfterUpload && AnySucceeded(r.0.value.results))
            && (r.0.value.sourceDeleted <==> sourcePath !in r.1.files)
  {
    var meta := OrganizeMetadata(originalFilename, ExtractDate(sourcePath, tags, stat, env.now));
    UploadEachFiles(EnabledDestinations(ds), sourcePath, meta, st, env, clock);
  }

  /** Each record a fan-out appends carries the metadata's
      `receivedId`. */
  lemma FanOutRecordsCarryId(ds: Registry, filePath: string, meta: Metadata, st: State, env: Env, clock: Clock)
    ensures var r := UploadEach(ds, filePath, meta, st, env, clock);
            && |st.log| <= |r.1.log|
            && r.1.log[..|st.log|] == st.log
            && forall k :: |st.log| <= k < |r.1.log| ==> r.1.log[k].receivedId == meta.receivedId
  {
    var r := UploadEach(ds, filePath, meta, st, env, clock);
    UploadEachLogs(ds, filePath, meta, st, env, clock);
    forall k | |st.log| <= k < |r.1.log|
      ensures r.1.log[k].receivedId == meta.receivedId
    {
      assert LoggedFor(r.1.log[|st.log| + (k - |st.log|)], ds[k - |st.log|], meta, env);
    }
  }

  /** Every record `organizeFile` logs has no `receivedId`, so the
      combined log never attaches these uploads to a received file. */
  lemma OrganizedUploadsAreUnlinked(sourcePath: string, originalFilename: string, photosDir: Option<Json>,
                                    supported: seq<string>, deleteAfterUpload: bool, ds: Registry,
                                    tags: Result<map<string, Tag>>, stat: Result<Stat>,
                                    st: State, env: Env, clock: Clock)
    ensures var r := OrganizeFile(sourcePath, originalFilename, photosDir, supported, deleteAfterUpload, ds,
                                  tags, stat, st, env, clock);
            && |st.log| <= |r.1.log|
            && r.1.log[..|st.log|] == st.log
            && forall k :: |st.log| <= k < |r.1.log| ==> r.1.log[k].receivedId.None?
  {
    if ToLower(ExtName(originalFilename)) in supported && EnabledDestinations(ds) != [] {
      var meta := OrganizeMetadata(originalFilename, ExtractDate(sourcePath, tags, stat, env.now));
      FanOutRecordsCarryId(EnabledDestinations(ds), sourcePath, meta, st, env, clock);
    }
  }

  /** Without destinations a file is moved, not copied: the number of
      files stays the same, the source is gone and the new path is one
      that did not exist. */
  lemma FallbackMovesFile(sourcePath: string, originalFilename: string, photosDir: Option<Json>, fileDate: JsDate,
                          st: State, env: Env)
    requires IsString(photosDir) && env.mkdir.Pass? && sourcePath in st.files
    ensures var r := Fallback(sourcePath, originalFilename, photosDir, fileDate, st, env);
            && r.0.Ok? && r.0.value.Placed?
            && sourcePath !in r.1.files
            && r.0.value.destPath in r.1.files && r.0.value.destPath !in st.files
            && |r.1.files| == |st.files|
  {
    var r := Fallback(sourcePath, originalFilename, photosDir, fileDate, st, env);
    var dest := r.0.value.destPath;
    assert dest != sourcePath;
    assert |st.files - {sourcePath}| == |st.files| - 1;
  }

  /** A file nobody else has taken keeps its original name in the
      fallback. */
  lemma FallbackKeepsFreeName(sourcePath: string, originalFilename: string, photosDir: Option<Json>, fileDate: JsDate,
                              st: State, env: Env)
    requires IsString(photosDir) && env.mkdir.Pass? && sourcePath in st.files
    requires var p := FormatDateForPath(fileDate);
             PathJoin(PathJoin(PathJoin(photosDir.value.s, p.year), p.folder), originalFilename) !in st.files
    ensures var p := FormatDateForPath(fileDate);
            Fallback(sourcePath, originalFilename, photosDir, fileDate, st, env).0
              == Ok(Placed(PathJoin(PathJoin(PathJoin(photosDir.value.s, p.year), p.folder), originalFilename)))
  {
  }

  /** A supported file with no destination registered and `PHOTOS_DIR`
      left undefined fails in `path.join` and stays where it is; nothing is
      created, moved or logged. */
  lemma UndefinedPhotosDirLeavesFile(sourcePath: string, originalFilename: string, supported: seq<string>,
                                     deleteAfterUpload: bool, ds: Registry,
                                     tags: Result<map<string, Tag>>, stat: Result<Stat>,
                                     st: State, env: Env, clock: Clock)
    requires ToLower(ExtName(originalFilename)) in supported && EnabledDestinations(ds) == []
    ensures OrganizeFile(sourcePath, originalFilename, None, supported, deleteAfterUpload, ds, tags, stat, st, env, clock)
              == (Err(JoinTypeError(None)), st)
  {
    var fileDate := ExtractDate(sourcePath, tags, stat, env.now);
    assert Fallback(sourcePath, originalFilename, None, fileDate, st, env) == (Err(JoinTypeError(None)), st);
  }
}
