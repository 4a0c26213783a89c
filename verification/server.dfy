/** The FTP server's start-up pieces: the extensions it accepts, the
    registration of destinations from the settings, and the login check. */
module Server {
  import opened Common
  import opened Json
  import opened Placement
  import opened Exif
  import opened Destinations
  import opened Manager
  import opened Db
  import opened Settings

  const VideoExtensions: seq<string> := [".mp4", ".mov", ".avi", ".mkv", ".m4v", ".3gp", ".wmv"]

  /** `SUPPORTED_EXTENSIONS`: photos first, then videos. */
  const SupportedExtensions: seq<string> := PhotoExtensions + VideoExtensions

  /** Every supported extension has a MIME type of its own, so no
      supported file is uploaded as `application/octet-stream`. */
  lemma SupportedHaveMimeTypes()
    ensures forall e :: e in SupportedExtensions ==> GetMimeType(e) != DefaultMimeType
  {
    forall e | e in SupportedExtensions
      ensures GetMimeType(e) != DefaultMimeType
    {
      KnownMimeType(e);
    }
  }

  lemma KnownMimeType(e: string)
    requires e in SupportedExtensions
    ensures ToLower(e) == e && e in MimeTypes
  {
    assert e in PhotoExtensions || e in VideoExtensions;
  }

  // ---------------------------------------------------------------------
  // Destinations from the settings

  /** Whether `settings.destinations[key].enabled` is truthy. */
  predicate Wanted(dest: Json, key: string) {
    TruthyAt(dest, [key, "enabled"])
  }

  /** The object `settings.destinations[key]` handed to a constructor. */
  function ConfigOf(dest: Json, key: string): map<string, Json> {
    Spread(Member(dest, key).GetOr(Null))
  }

  /** A destination registered because its flag is truthy starts out
      enabled: its constructor only turns off for `enabled === false`. */
  lemma WantedIsEnabled(dest: Json, key: string)
    requires Wanted(dest, key)
    ensures EnabledFlag(ConfigOf(dest, key))
  {
    assert [key, "enabled"] == [key] + ["enabled"];
    GetPathStep(dest, key, ["enabled"]);
    var v := Member(dest, key).value;
    GetPathStep(v, "enabled", []);
    assert Member(Obj(ConfigOf(dest, key)), "enabled") == Member(v, "enabled");
  }

  /** `register(d)` when the flag is truthy. */
  function RegisterIf(ds: Registry, want: bool, d: Destination): Registry {
    if want then Register(ds, d) else ds
  }

  /** Registering a name not yet present appends. */
  lemma RegisterAppends(ds: Registry, d: Destination)
    requires Lookup(ds, d.name).None?
    ensures Register(ds, d) == ds + [d]
  {
  }

  function Count(b: bool): nat {
    if b then 1 else 0
  }

  /** Three conditional registrations into an empty registry under three
      different names keep each one that was wanted, and nothing else. */
  lemma RegisterThree(l: Destination, dr: Destination, ph: Destination, wl: bool, wd: bool, wp: bool)
    requires l.name == LocalName && dr.name == GoogleDriveName && ph.name == GooglePhotosName
    requires (wl ==> l.enabled) && (wd ==> dr.enabled) && (wp ==> ph.enabled)
    ensures var r := RegisterIf(RegisterIf(RegisterIf([], wl, l), wd, dr), wp, ph);
            && DistinctNames(r) && |r| == Count(wl) + Count(wd) + Count(wp)
            && (forall i :: 0 <= i < |r| ==> r[i].enabled)
            && Lookup(r, LocalName) == (if wl then Some(l) else None)
            && Lookup(r, GoogleDriveName) == (if wd then Some(dr) else None)
            && Lookup(r, GooglePhotosName) == (if wp then Some(ph) else None)
            && (forall i :: 0 <= i < |r| ==>
                  r[i].name == LocalName || r[i].name == GoogleDriveName || r[i].name == GooglePhotosName)
  {
    RegisterIfStep([], wl, l);
    var a := RegisterIf([], wl, l);
    RegisterIfStep(a, wd, dr);
    var b := RegisterIf(a, wd, dr);
    RegisterIfStep(b, wp, ph);
  }

  /** Every destination is enabled and carries one of the three names. */
  predicate EnabledAmongThree(ds: Registry) {
    forall i :: 0 <= i < |ds| ==>
      ds[i].enabled && (ds[i].name == LocalName || ds[i].name == GoogleDriveName || ds[i].name == GooglePhotosName)
  }

  /** A conditional registration under a new name appends when wanted and
      touches no other name. */
  lemma RegisterIfStep(ds: Registry, want: bool, d: Destination)
    requires DistinctNames(ds) && EnabledAmongThree(ds) && Lookup(ds, d.name).None?
    requires want ==> d.enabled
    requires d.name == LocalName || d.name == GoogleDriveName || d.name == GooglePhotosName
    ensures var r := RegisterIf(ds, want, d);
            && DistinctNames(r) && EnabledAmongThree(r)
            && |r| == |ds| + Count(want)
            && Lookup(r, d.name) == (if want then Some(d) else None)
            && forall n :: n != d.name ==> Lookup(r, n) == Lookup(ds, n)
  {
    if want {
      RegisterAppends(ds, d);
      var r := ds + [d];
      assert forall i :: 0 <= i < |ds| ==> r[i] == ds[i];
    }
  }

  /** The `clear()` and conditional `register` calls of
      `setupDestinations`, before `initializeAll`. */
  function Registered(previous: Registry, dest: Json): (ds: Registry)
    ensures DistinctNames(ds)
    ensures RegisteredAsWanted(ds, Wanted(dest, "local"), Wanted(dest, "googleDrive"), Wanted(dest, "googlePhotos"))
    ensures |ds| == Count(Wanted(dest, "local")) + Count(Wanted(dest, "googleDrive")) + Count(Wanted(dest, "googlePhotos"))
    ensures forall i :: 0 <= i < |ds| ==> ds[i].enabled
    ensures forall i :: 0 <= i < |ds| ==>
              ds[i].name == LocalName || ds[i].name == GoogleDriveName || ds[i].name == GooglePhotosName
    ensures Lookup(ds, LocalName) ==
              (if Wanted(dest, "local") then Some(NewLocal(ConfigOf(dest, "local"))) else None)
    ensures Lookup(ds, GoogleDriveName) ==
              (if Wanted(dest, "googleDrive") then Some(NewGoogleDrive(ConfigOf(dest, "googleDrive"))) else None)
    ensures Lookup(ds, GooglePhotosName) ==
              (if Wanted(dest, "googlePhotos") then Some(NewGooglePhotos(ConfigOf(dest, "googlePhotos"))) else None)
  {
    var wl := Wanted(dest, "local");
    var wd := Wanted(dest, "googleDrive");
    var wp := Wanted(dest, "googlePhotos");
    var local := NewLocal(ConfigOf(dest, "local"));
    var drive := NewGoogleDrive(ConfigOf(dest, "googleDrive"));
    var photos := NewGooglePhotos(ConfigOf(dest, "googlePhotos"));
    WantedAreEnabled(dest);
    RegisterThree(local, drive, photos, wl, wd, wp);
    RegisterIf(RegisterIf(RegisterIf(Clear(previous), wl, local), wd, drive), wp, photos)
  }

  lemma WantedAreEnabled(dest: Json)
    ensures Wanted(dest, "local") ==> EnabledFlag(ConfigOf(dest, "local"))
    ensures Wanted(dest, "googleDrive") ==> EnabledFlag(ConfigOf(dest, "googleDrive"))
    ensures Wanted(dest, "googlePhotos") ==> EnabledFlag(ConfigOf(dest, "googlePhotos"))
  {
    if Wanted(dest, "local") { WantedIsEnabled(dest, "local"); }
    if Wanted(dest, "googleDrive") { WantedIsEnabled(dest, "googleDrive"); }
    if Wanted(dest, "googlePhotos") { WantedIsEnabled(dest, "googlePhotos"); }
  }

  /** `setupDestinations()`: the registry is rebuilt from the destination
      settings (`cache` the loaded settings, `cwd` the working directory)
      and then initialised. */
  function SetupDestinations(previous: Registry, cache: Option<Json>, cwd: string, env: Env): Registry {
    SetupFrom(previous, DestinationSettings(cache, cwd), env)
  }

  /** Set up from the destination settings `dest`: a destination is there
      exactly when its settings enable it, and it stays enabled exactly when
      it starts. */
  function SetupFrom(previous: Registry, dest: Json, env: Env): (r: Registry)
    ensures |r| <= 3
    ensures forall i :: 0 <= i < |r| ==>
              r[i].name == LocalName || r[i].name == GoogleDriveName || r[i].name == GooglePhotosName
    ensures (exists i :: 0 <= i < |r| && r[i].name == LocalName) <==> Wanted(dest, "local")
    ensures (exists i :: 0 <= i < |r| && r[i].name == GoogleDriveName) <==> Wanted(dest, "googleDrive")
    ensures (exists i :: 0 <= i < |r| && r[i].name == GooglePhotosName) <==> Wanted(dest, "googlePhotos")
    ensures forall i :: 0 <= i < |r| ==> (r[i].enabled <==> Initialize(r[i], env).Pass?)
  {
    var ds := Registered(previous, dest);
    InitializedNames(ds, env, Wanted(dest, "local"), Wanted(dest, "googleDrive"), Wanted(dest, "googlePhotos"));
    InitializeAll(ds, env)
  }

  /** `ds` holds, enabled, the destinations whose flags are set, and no
      others. */
  predicate RegisteredAsWanted(ds: Registry, wl: bool, wd: bool, wp: bool) {
    && |ds| == Count(wl) + Count(wd) + Count(wp)
    && EnabledAmongThree(ds)
    && Lookup(ds, LocalName).Some? == wl
    && Lookup(ds, GoogleDriveName).Some? == wd
    && Lookup(ds, GooglePhotosName).Some? == wp
  }

  /** `initializeAll` keeps the names of the registry it starts from. */
  lemma InitializedNames(ds: Registry, env: Env, wl: bool, wd: bool, wp: bool)
    requires RegisteredAsWanted(ds, wl, wd, wp)
    ensures var r := InitializeAll(ds, env);
            && |r| <= 3
            && (forall i :: 0 <= i < |r| ==>
                  r[i].name == LocalName || r[i].name == GoogleDriveName || r[i].name == GooglePhotosName)
            && ((exists i :: 0 <= i < |r| && r[i].name == LocalName) <==> wl)
            && ((exists i :: 0 <= i < |r| && r[i].name == GoogleDriveName) <==> wd)
            && ((exists i :: 0 <= i < |r| && r[i].name == GooglePhotosName) <==> wp)
            && (forall i :: 0 <= i < |r| ==> (r[i].enabled <==> Initialize(r[i], env).Pass?))
  {
    var r := InitializeAll(ds, env);
    forall i | 0 <= i < |r|
      ensures Initialize(r[i], env) == Initialize(ds[i], env)
    {
    }
  }

  /** What was registered before plays no part. */
  lemma SetupForgetsPrevious(p1: Registry, p2: Registry, cache: Option<Json>, cwd: string, env: Env)
    ensures SetupDestinations(p1, cache, cwd, env) == SetupDestinations(p2, cache, cwd, env)
  {
  }

  /** Before any settings are saved, only the local destination is set up,
      on the `photos` directory under the working directory. */
  lemma DefaultSetupIsLocalOnly(previous: Registry, cwd: string, env: Env)
    ensures var r := SetupDestinations(previous, None, cwd, env);
            && |r| == 1 && r[0].name == LocalName
            && r[0].kind == Local(Some(Str(PathJoin(cwd, "photos"))))
  {
    DefaultFlags(cwd);
    var dest := DestinationSettings(None, cwd);
    assert Wanted(dest, "local") && !Wanted(dest, "googleDrive") && !Wanted(dest, "googlePhotos");
    var ds := Registered(previous, dest);
    assert |ds| == 1;
    assert ds[0] == NewLocal(ConfigOf(dest, "local"));
    assert ConfigOf(dest, "local") == DefaultLocal(cwd);
  }

  // ---------------------------------------------------------------------
  // Login

  const InvalidCredentials: string := "Invalid username or password"
  const AuthenticationError: string := "Authentication error"

  datatype Login = Accepted | Rejected(code: nat, message: string)

  /** Whether `password` matches the stored one: through bcrypt when the
      stored value looks like a bcrypt hash, by equality otherwise. */
  predicate PasswordMatches(password: string, stored: string, h: Hasher) {
    if StartsWith(stored, "$2") then h.compare(password, stored) else password == stored
  }

  /** The FTP `login` handler against freshly reloaded settings `cache`
      (reloading never fails: `loadSettings` falls back to the defaults).
      `settings.ftpPassword` is `null` when no password is stored, and
      calling `startsWith` on anything but a string throws, which the
      handler turns into a 500. */
  function LoginCheck(username: string, password: string, cache: Option<Json>, h: Hasher): (r: Login)
    ensures r.Rejected? ==> (r.code == 401 && r.message == InvalidCredentials) ||
                            (r.code == 500 && r.message == AuthenticationError)
    ensures r.Rejected? && r.code == 500 <==> !FtpPassword(cache).Str?
    ensures r.Accepted? ==> FtpUsername(cache) == Str(username) && FtpPassword(cache).Str? &&
                            PasswordMatches(password, FtpPassword(cache).s, h)
    ensures (FtpPassword(cache).Str? && FtpUsername(cache) == Str(username) &&
             PasswordMatches(password, FtpPassword(cache).s, h)) ==> r.Accepted?
  {
    match FtpPassword(cache)
    case Str(stored) =>
      if FtpUsername(cache) == Str(username) && PasswordMatches(password, stored, h) then Accepted
      else Rejected(401, InvalidCredentials)
    case _ => Rejected(500, AuthenticationError)
  }

  /** Nothing stored, nothing accepted: without a password every login is
      an error. */
  lemma NoPasswordNoLogin(username: string, password: string, h: Hasher)
    ensures LoginCheck(username, password, None, h) == Rejected(500, AuthenticationError)
  {
  }

  /** Stored plain-text credentials let exactly their own password in. */
  lemma PlainCredentials(s: Json, user: string, p: string, other: string, h: Hasher)
    requires GetPath(s, ["ftp", "username"]) == Some(Str(user)) && user != ""
    requires GetPath(s, FtpPasswordPath) == Some(Str(p)) && p != "" && !StartsWith(p, "$2")
    requires other != p
    ensures LoginCheck(user, p, Some(s), h) == Accepted
    ensures LoginCheck(user, other, Some(s), h) == Rejected(401, InvalidCredentials)
  {
    assert FtpUsername(Some(s)) == Str(user);
    assert FtpPassword(Some(s)) == Str(p);
  }

  /** On the first start the default user logs in with the generated
      password, compared as plain text (it is alphanumeric, so it never
      looks like a bcrypt hash), and any other password is refused. */
  lemma FirstStartLogin(col: Collection, cwd: string, h: Hasher, bytes: seq<Byte>, other: string)
    requires HashSound(h) && FindMain(col) < 0 && |bytes| == PasswordLength
    requires other != GeneratePassword(bytes)
    ensures var s := LoadSettings(Ok(col), cwd, h, bytes).0;
            && LoginCheck(DefaultUsername, GeneratePassword(bytes), Some(s), h) == Accepted
            && LoginCheck(DefaultUsername, other, Some(s), h) == Rejected(401, InvalidCredentials)
  {
    FirstStartCredentials(col, cwd, h, bytes);
    GeneratedIsNotHash(bytes);
    PlainCredentials(LoadSettings(Ok(col), cwd, h, bytes).0, DefaultUsername, GeneratePassword(bytes), other, h);
  }

  /** A generated password is never taken for a bcrypt hash. */
  lemma GeneratedIsNotHash(bytes: seq<Byte>)
    requires |bytes| == PasswordLength
    ensures GeneratePassword(bytes) != "" && !StartsWith(GeneratePassword(bytes), "$2")
  {
    var p := GeneratePassword(bytes);
    assert IsAsciiAlnum(p[0]);
    AlnumIsNotHash(p);
  }

  lemma AlnumIsNotHash(p: string)
    requires |p| > 0 && IsAsciiAlnum(p[0])
    ensures !StartsWith(p, "$2")
  {
    assert p[0] != '$';
  }
}
