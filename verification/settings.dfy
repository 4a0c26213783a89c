/** The settings store: defaults, the recursive merge that lays saved and
    updated values over them, the first-run password, the password hash
    kept in step with the password, the single `main` row of the settings
    collection, and the getters the rest of the program reads. Random
    bytes, the working directory and bcrypt are inputs. */
module Settings {
  import opened Common
  import opened Json
  import opened Placement
  import opened Db

  // ---------------------------------------------------------------------
  // Passwords

  /** The alphabet of `generatePassword`, written as its three runs. */
  const PasswordChars: string := UpperLetters + LowerLetters + Digits
  const PasswordLength: nat := 12

  /** The character at position `k` of the password alphabet: the upper
      case letters, the lower case letters, then the digits. */
  function AlphabetChar(k: nat): (c: char)
    requires k < 62
    ensures IsAsciiAlnum(c)
  {
    if k < 26 then ('A' as int + k) as char
    else if k < 52 then ('a' as int + (k - 26)) as char
    else ('0' as int + (k - 52)) as char
  }

  const UpperLetters: string := "ABCDEFGHIJKLMNOPQRSTUVWXYZ"
  const LowerLetters: string := "abcdefghijklmnopqrstuvwxyz"
  const Digits: string := "0123456789"

  lemma UpperLettersInOrder()
    ensures forall k :: 0 <= k < 26 ==> UpperLetters[k] == ('A' as int + k) as char
  {
    forall k | 0 <= k < 26
      ensures UpperLetters[k] == ('A' as int + k) as char
    {
    }
  }

  lemma LowerLettersInOrder()
    ensures forall k :: 0 <= k < 26 ==> LowerLetters[k] == ('a' as int + k) as char
  {
    forall k | 0 <= k < 26
      ensures LowerLetters[k] == ('a' as int + k) as char
    {
    }
  }

  lemma DigitsInOrder()
    ensures forall k :: 0 <= k < 10 ==> Digits[k] == ('0' as int + k) as char
  {
    forall k | 0 <= k < 10
      ensures Digits[k] == ('0' as int + k) as char
    {
    }
  }

  /** The alphabet `generatePassword` draws from is the one `AlphabetChar`
      describes. */
  lemma PasswordCharsAreAlphabet()
    ensures |PasswordChars| == 62
    ensures forall k :: 0 <= k < 62 ==> PasswordChars[k] == AlphabetChar(k)
  {
    var all := PasswordChars;
    UpperLettersInOrder();
    LowerLettersInOrder();
    DigitsInOrder();
    forall k | 0 <= k < 62
      ensures PasswordChars[k] == AlphabetChar(k)
    {
      if k < 26 {
        assert all[k] == UpperLetters[k];
      } else if k < 52 {
        assert all[k] == LowerLetters[k - 26];
      } else {
        assert all[k] == Digits[k - 52];
      }
    }
  }

  /** `generatePassword(length)`, given the `length` random bytes. */
  function GeneratePassword(bytes: seq<Byte>): (p: string)
    ensures |p| == |bytes|
    ensures forall i :: 0 <= i < |p| ==> IsAsciiAlnum(p[i])
    ensures forall i :: 0 <= i < |p| ==> p[i] == AlphabetChar(bytes[i] % 62)
  {
    PasswordCharsAreAlphabet();
    seq(|bytes|, i requires 0 <= i < |bytes| => PasswordChars[bytes[i] % |PasswordChars|])
  }

  /** Only each byte's residue modulo 62 matters. */
  lemma PasswordDependsOnResidues(a: seq<Byte>, b: seq<Byte>)
    requires |a| == |b|
    requires forall i :: 0 <= i < |a| ==> a[i] % 62 == b[i] % 62
    ensures GeneratePassword(a) == GeneratePassword(b)
  {
  }

  // ---------------------------------------------------------------------
  // Defaults

  const DefaultUsername: string := "pd"

  function DefaultFtp(): map<string, Json> {
    map["username" := Str(DefaultUsername), "password" := Null]
  }

  function DefaultLocal(cwd: string): map<string, Json> {
    map["enabled" := Bool(true), "photosDir" := Str(PathJoin(cwd, "photos"))]
  }

  function DefaultGoogleDrive(): map<string, Json> {
    map["enabled" := Bool(false), "rootFolderId" := Null]
  }

  function DefaultGooglePhotos(): map<string, Json> {
    map["enabled" := Bool(false)]
  }

  function DefaultDestinations(cwd: string): Json {
    Obj(map["local" := Obj(DefaultLocal(cwd)),
            "googleDrive" := Obj(DefaultGoogleDrive()),
            "googlePhotos" := Obj(DefaultGooglePhotos())])
  }

  /** `defaultSettings`; `cwd` is `process.cwd()`. */
  function Defaults(cwd: string): Json {
    Obj(map["ftp" := Obj(DefaultFtp()),
            "deleteAfterUpload" := Bool(true),
            "destinations" := DefaultDestinations(cwd)])
  }

  // ---------------------------------------------------------------------
  // deepMerge

  /** `target[key] || {}`. */
  function MergeBase(target: Json, key: string): Json {
    match Member(target, key)
    case Some(v) => if Truthy(v) then v else Obj(map[])
    case None => Obj(map[])
  }

  /** `deepMerge(target, source)`, where `source` is what `Object.keys`
      enumerates. A source value that is a (necessarily truthy) non-array
      object is merged into the target's value; every other source value,
      arrays, `null`, `false`, `0` and strings included, replaces it. The
      target is copied with the object spread, so a string or an array
      target contributes its index keys. */
  function DeepMerge(target: Json, source: map<string, Json>): (r: map<string, Json>)
    ensures r.Keys == Spread(target).Keys + source.Keys
    ensures forall k :: k in Spread(target) && k !in source ==> r[k] == Spread(target)[k]
    ensures forall k :: k in source && !source[k].Obj? ==> r[k] == source[k]
    ensures forall k :: k in source && source[k].Obj? ==>
              r[k] == Obj(DeepMerge(MergeBase(target, k), source[k].fields))
    decreases Obj(source)
  {
    var t := Spread(target);
    map k | k in t.Keys + source.Keys ::
      if k in source then
        (if source[k].Obj? then Obj(DeepMerge(MergeBase(target, k), source[k].fields)) else source[k])
      else t[k]
  }

  /** Merging nothing copies the target. */
  lemma MergeNothing(target: Json)
    ensures DeepMerge(target, map[]) == Spread(target)
  {
  }

  /** Merging the same source twice is merging it once. */
  lemma {:induction false} MergeIdempotent(target: Json, source: map<string, Json>)
    ensures DeepMerge(Obj(DeepMerge(target, source)), source) == DeepMerge(target, source)
    decreases Obj(source), 1
  {
    var once := DeepMerge(target, source);
    var twice := DeepMerge(Obj(once), source);
    assert Spread(Obj(once)) == once;
    assert twice.Keys == once.Keys;
    forall k | k in once
      ensures twice[k] == once[k]
    {
      MergeIdempotentAt(target, source, k);
    }
  }

  /** One key of MergeIdempotent. */
  lemma {:induction false} MergeIdempotentAt(target: Json, source: map<string, Json>, k: string)
    requires k in DeepMerge(target, source)
    ensures DeepMerge(Obj(DeepMerge(target, source)), source)[k] == DeepMerge(target, source)[k]
    decreases Obj(source), 0
  {
    var once := DeepMerge(target, source);
    assert Spread(Obj(once)) == once;
    if k in source && source[k].Obj? {
      MergeIdempotent(MergeBase(target, k), source[k].fields);
      assert MergeBase(Obj(once), k) == once[k];
    }
  }

  /** A leaf the source sets is what the merged value holds at that path. */
  lemma {:induction false} MergedLeafWins(target: Json, source: map<string, Json>, keys: seq<string>, leaf: Json)
    requires |keys| > 0 && !leaf.Obj?
    requires GetPath(Obj(source), keys) == Some(leaf)
    ensures GetPath(Obj(DeepMerge(target, source)), keys) == Some(leaf)
    decreases |keys|
  {
    var k := keys[0];
    var r := DeepMerge(target, source);
    GetPathStep(Obj(source), k, keys[1..]);
    GetPathStep(Obj(r), k, keys[1..]);
    assert [k] + keys[1..] == keys;
    if source[k].Obj? && |keys| > 1 {
      MergedLeafWins(MergeBase(target, k), source[k].fields, keys[1..], leaf);
    }
  }

  /** The path `keys` leaves the source: some key along it is not there,
      going down only through objects the merge descends into. */
  predicate LeavesSource(source: map<string, Json>, keys: seq<string>)
    decreases |keys|
  {
    |keys| > 0 && (keys[0] !in source || (source[keys[0]].Obj? && LeavesSource(source[keys[0]].fields, keys[1..])))
  }

  /** Whatever the source does not reach keeps its value from the target. */
  lemma {:induction false} MergeKeepsUntouched(target: Json, source: map<string, Json>, keys: seq<string>)
    requires LeavesSource(source, keys)
    ensures GetPath(Obj(DeepMerge(target, source)), keys) == GetPath(target, keys)
    decreases |keys|
  {
    var k := keys[0];
    var rest := keys[1..];
    var r := DeepMerge(target, source);
    GetPathStep(Obj(r), k, rest);
    GetPathStep(target, k, rest);
    assert [k] + rest == keys;
    if k in source {
      MergeKeepsUntouched(MergeBase(target, k), source[k].fields, rest);
      BaseReadsLikeMember(target, k, rest);
    }
  }

  /** Below `key`, `target[key] || {}` reads like `target[key]`: where the
      target has nothing usable, both read nothing. */
  lemma BaseReadsLikeMember(target: Json, key: string, rest: seq<string>)
    requires |rest| > 0
    ensures GetPath(MergeBase(target, key), rest) ==
            (match Member(target, key) case None => None case Some(v) => GetPath(v, rest))
  {
    GetPathStep(MergeBase(target, key), rest[0], rest[1..]);
    assert [rest[0]] + rest[1..] == rest;
    match Member(target, key)
    case None =>
    case Some(v) =>
      GetPathStep(v, rest[0], rest[1..]);
  }

  /** `Object.keys(v)` on a settings value read from storage: `undefined`
      and `null` throw. */
  function KeysOf(v: Option<Json>): (r: Result<map<string, Json>>)
    ensures r.Err? <==> v.None? || v.value.Null?
    ensures r.Ok? ==> r.value == Spread(v.value)
  {
    match v
    case None => Err("Cannot convert undefined or null to object")
    case Some(Null) => Err("Cannot convert undefined or null to object")
    case Some(x) => Ok(Spread(x))
  }

  // ---------------------------------------------------------------------
  // Password hashing

  /** bcrypt as two uninterpreted functions; a `compare` that would reject
      (an argument that is not a string) reads as `false`, as the source's
      `.catch(() => false)` makes it. */
  datatype Hasher = Hasher(hash: string -> string, compare: (string, string) -> bool)

  /** What the model needs of bcrypt: a hash is never empty and always
      verifies the password it was made from. */
  ghost predicate HashSound(h: Hasher) {
    forall p :: h.hash(p) != "" && h.compare(p, h.hash(p))
  }

  /** What bcrypt's `hash` throws for data that is neither a string nor a
      buffer. */
  const HashTypeError: string :=
    "data must be a string or Buffer and salt must either be a salt string or a number of rounds"

  const FtpPasswordPath: seq<string> := ["ftp", "password"]
  const FtpHashPath: seq<string> := ["ftp", "passwordHash"]

  /** Whether the stored hash already verifies the stored password. */
  predicate HashMatches(data: Json, h: Hasher) {
    match (GetPath(data, FtpPasswordPath), GetPath(data, FtpHashPath))
    case (Some(Str(p)), Some(Str(stored))) => stored != "" && h.compare(p, stored)
    case _ => false
  }

  /** Stores `hv` as `ftp.passwordHash`. */
  function SetFtpHash(data: Json, hv: Json): (r: Json)
    ensures data.Obj? && "ftp" in data.fields && data.fields["ftp"].Obj? ==>
              && r.Obj? && r.fields.Keys == data.fields.Keys
              && r.fields["ftp"] == Obj(data.fields["ftp"].fields["passwordHash" := hv])
              && forall k :: k in data.fields && k != "ftp" ==> r.fields[k] == data.fields[k]
  {
    if data.Obj? && "ftp" in data.fields then
      SetField(data, "ftp", SetField(data.fields["ftp"], "passwordHash", hv))
    else data
  }

  /** The first half of `saveSettings`: a present password is (re)hashed
      when the stored hash is missing or does not verify it. */
  function EnsureHash(data: Json, h: Hasher): (r: Result<Json>)
    ensures !TruthyAt(data, FtpPasswordPath) ==> r == Ok(data)
    ensures HashMatches(data, h) ==> r == Ok(data)
    ensures TruthyAt(data, FtpPasswordPath) && !HashMatches(data, h) && StringAt(data, FtpPasswordPath).Some? ==>
              r == Ok(SetFtpHash(data, Str(h.hash(StringAt(data, FtpPasswordPath).value))))
    ensures TruthyAt(data, FtpPasswordPath) && !HashMatches(data, h) && StringAt(data, FtpPasswordPath).None? ==>
              r == Err(HashTypeError)
  {
    if !TruthyAt(data, FtpPasswordPath) || HashMatches(data, h) then Ok(data)
    else match GetPath(data, FtpPasswordPath).value
      case Str(p) => Ok(SetFtpHash(data, Str(h.hash(p))))
      case _ => Err(HashTypeError)
  }

  /** A present password lives in an object `ftp` of an object. */
  lemma PasswordLivesInObjects(data: Json)
    requires GetPath(data, FtpPasswordPath).Some?
    ensures data.Obj? && "ftp" in data.fields && data.fields["ftp"].Obj?
    ensures "password" in data.fields["ftp"].fields
  {
    GetPathStep(data, "ftp", ["password"]);
    assert FtpPasswordPath == ["ftp"] + ["password"];
    WordKeyNeedsObject(data, "ftp");
    var ftp := data.fields["ftp"];
    GetPathStep(ftp, "password", []);
    assert ["password"] == ["password"] + [];
    WordKeyNeedsObject(ftp, "password");
  }

  /** After hashing, the stored hash verifies the stored password, and
      nothing but `ftp.passwordHash` has changed. */
  lemma HashVerifiesPassword(data: Json, h: Hasher, p: string)
    requires HashSound(h)
    requires GetPath(data, FtpPasswordPath) == Some(Str(p)) && p != ""
    ensures EnsureHash(data, h).Ok?
    ensures GetPath(EnsureHash(data, h).value, FtpPasswordPath) == Some(Str(p))
    ensures var r := EnsureHash(data, h).value;
            && r.Obj? && r.fields.Keys == data.fields.Keys
            && (forall k :: k in data.fields && k != "ftp" ==> r.fields[k] == data.fields[k])
            && HashMatches(r, h)
  {
    PasswordLivesInObjects(data);
    var r := EnsureHash(data, h).value;
    if !HashMatches(data, h) {
      var ftp := data.fields["ftp"].fields;
      var hashed := h.hash(p);
      assert r.fields["ftp"] == Obj(ftp["passwordHash" := Str(hashed)]);
      assert GetPath(r, FtpPasswordPath) == Some(Str(p)) by {
        GetPathStep(r, "ftp", ["password"]);
        GetPathStep(r.fields["ftp"], "password", []);
        assert FtpPasswordPath == ["ftp"] + ["password"];
        assert ["password"] == ["password"] + [];
      }
      assert GetPath(r, FtpHashPath) == Some(Str(hashed)) by {
        GetPathStep(r, "ftp", ["passwordHash"]);
        GetPathStep(r.fields["ftp"], "passwordHash", []);
        assert FtpHashPath == ["ftp"] + ["passwordHash"];
        assert ["passwordHash"] == ["passwordHash"] + [];
      }
      assert h.compare(p, hashed);
    }
  }

  // ---------------------------------------------------------------------
  // The settings row

  predicate IsMain(row: Json) {
    Member(row, "key") == Some(Str("main"))
  }

  /** `col.findOne({ key: 'main' })`: the first main row, or -1. */
  function FindMain(col: Collection): (i: int)
    ensures -1 <= i < |col|
    ensures i >= 0 ==> IsMain(col[i])
    ensures forall j :: 0 <= j < |col| && (i < 0 || j < i) ==> !IsMain(col[j])
  {
    if |col| == 0 then -1
    else if IsMain(col[0]) then 0
    else var i := FindMain(col[1..]); if i < 0 then -1 else i + 1
  }

  /** `row.value` of the main row, if there is one. */
  function MainValue(col: Collection): Option<Json> {
    var i := FindMain(col);
    if i < 0 then None else Member(col[i], "value")
  }

  /** Writes `data` into the main row, or inserts one. */
  function PutMain(col: Collection, data: Json): (r: Collection)
    ensures FindMain(col) >= 0 ==> |r| == |col|
    ensures FindMain(col) < 0 ==> |r| == |col| + 1 && r[|col|] == MainRow(data)
    ensures forall j :: 0 <= j < |col| && j != FindMain(col) ==> r[j] == col[j]
    ensures MainValue(r) == Some(data)
    ensures forall j :: 0 <= j < |r| && IsMain(r[j]) ==>
              (j < |col| && IsMain(col[j])) || (j == |col| && FindMain(col) < 0)
  {
    var i := FindMain(col);
    if i >= 0 then
      WordKeyNeedsObject(col[i], "key");
      var r := col[i := SetField(col[i], "value", data)];
      assert IsMain(r[i]);
      assert FindMain(r) == i by { FindMainAt(r, i); }
      r
    else
      var r := col + [MainRow(data)];
      assert IsMain(r[|col|]);
      FindMainAt(r, |col|);
      r
  }

  lemma FindMainAt(col: Collection, i: nat)
    requires i < |col| && IsMain(col[i])
    requires forall j :: 0 <= j < i ==> !IsMain(col[j])
    ensures FindMain(col) == i
  {
    if i > 0 {
      FindMainAt(col[1..], i - 1);
    }
  }

  /** `saveSettings(data)`: hashes when needed, then writes the main row.
      `rows` is what `getCollection('settings')` gives. The result is the
      data as saved (with its hash) and the collection afterwards. */
  function SaveSettings(data: Json, rows: Result<Collection>, h: Hasher): (r: Result<(Json, Collection)>)
    ensures r.Ok? <==> EnsureHash(data, h).Ok? && rows.Ok?
    ensures r.Ok? ==> r.value.0 == EnsureHash(data, h).value && r.value.1 == PutMain(rows.value, r.value.0)
  {
    match EnsureHash(data, h)
    case Err(m) => Err(m)
    case Ok(d) =>
      match rows
      case Err(m) => Err(m)
      case Ok(col) => Ok((d, PutMain(col, d)))
  }

  /** What was saved is what the next load reads back, and no second main
      row appears. */
  lemma SavedSettingsReadBack(data: Json, col: Collection, h: Hasher)
    requires SaveSettings(data, Ok(col), h).Ok?
    ensures var r := SaveSettings(data, Ok(col), h).value;
            && MainValue(r.1) == Some(r.0)
            && (forall j :: 0 <= j < |r.1| && IsMain(r.1[j]) ==>
                  (j < |col| && IsMain(col[j])) || (j == |col| && FindMain(col) < 0))
  {
  }

  // ---------------------------------------------------------------------
  // Loading and updating

  /** The defaults with a freshly generated password, as the first start
      stores them. */
  function FirstRun(cwd: string, password: string): Json {
    Obj(Defaults(cwd).fields["ftp" := Obj(DefaultFtp()["password" := Str(password)])])
  }

  /** The rehash `loadSettings` does on what it merged: only when there is
      a password and no hash at all. A non-string password makes bcrypt
      throw. */
  function HashIfMissing(s: Json, h: Hasher): (r: Result<Json>)
    ensures !(TruthyAt(s, FtpPasswordPath) && !TruthyAt(s, FtpHashPath)) ==> r == Ok(s)
    ensures TruthyAt(s, FtpPasswordPath) && !TruthyAt(s, FtpHashPath) && StringAt(s, FtpPasswordPath).Some? ==>
              r == Ok(SetFtpHash(s, Str(h.hash(StringAt(s, FtpPasswordPath).value))))
    ensures TruthyAt(s, FtpPasswordPath) && !TruthyAt(s, FtpHashPath) && StringAt(s, FtpPasswordPath).None? ==>
              r == Err(HashTypeError)
  {
    if TruthyAt(s, FtpPasswordPath) && !TruthyAt(s, FtpHashPath) then
      match GetPath(s, FtpPasswordPath).value
      case Str(p) => Ok(SetFtpHash(s, Str(h.hash(p))))
      case _ => Err(HashTypeError)
    else Ok(s)
  }

  /** `loadSettings()`: the new `_settings` (which is also what it returns)
      and the settings collection afterwards. `rows` is what
      `getCollection('settings')` gives and `bytes` the random bytes of the
      first-run password. Every error falls back to the defaults. */
  function LoadSettings(rows: Result<Collection>, cwd: string, h: Hasher, bytes: seq<Byte>)
    : (r: (Json, Result<Collection>))
    ensures rows.Err? ==> r == (Defaults(cwd), rows)
    ensures rows.Ok? && FindMain(rows.value) < 0 ==>
              (var saved := SaveSettings(FirstRun(cwd, GeneratePassword(bytes)), rows, h);
               if saved.Ok? then r == (saved.value.0, Ok(saved.value.1)) else r == (Defaults(cwd), rows))
    ensures rows.Ok? && FindMain(rows.value) >= 0 ==> r.1 == rows
    ensures rows.Ok? && FindMain(rows.value) >= 0 ==>
              (var saved := KeysOf(MainValue(rows.value));
               var merged := if saved.Ok? then HashIfMissing(Obj(DeepMerge(Defaults(cwd), saved.value)), h)
                             else Err(saved.message);
               if merged.Ok? then r.0 == merged.value else r.0 == Defaults(cwd))
  {
    match rows
    case Err(_) => (Defaults(cwd), rows)
    case Ok(col) =>
      if FindMain(col) < 0 then
        match SaveSettings(FirstRun(cwd, GeneratePassword(bytes)), rows, h)
        case Ok(saved) => (saved.0, Ok(saved.1))
        case Err(_) => (Defaults(cwd), rows)
      else
        match KeysOf(MainValue(col))
        case Err(_) => (Defaults(cwd), rows)
        case Ok(saved) =>
          match HashIfMissing(Obj(DeepMerge(Defaults(cwd), saved)), h)
          case Ok(s) => (s, rows)
          case Err(_) => (Defaults(cwd), rows)
  }

  /** On the first start the username is `pd`, the password is 12 letters
      and digits drawn from the random bytes, its hash verifies it, and the
      collection gains the one main row holding exactly these settings. */
  lemma FirstStartCredentials(col: Collection, cwd: string, h: Hasher, bytes: seq<Byte>)
    requires HashSound(h) && FindMain(col) < 0 && |bytes| == PasswordLength
    ensures var r := LoadSettings(Ok(col), cwd, h, bytes);
            && GetPath(r.0, ["ftp", "username"]) == Some(Str(DefaultUsername))
            && GetPath(r.0, FtpPasswordPath) == Some(Str(GeneratePassword(bytes)))
            && |GeneratePassword(bytes)| == 12
            && HashMatches(r.0, h)
            && r.1.Ok? && |r.1.value| == |col| + 1 && MainValue(r.1.value) == Some(r.0)
  {
    var p := GeneratePassword(bytes);
    var initial := FirstRun(cwd, p);
    var ftp := DefaultFtp()["password" := Str(p)];
    assert initial.fields["ftp"] == Obj(ftp);
    assert GetPath(initial, FtpPasswordPath) == Some(Str(p)) by {
      GetPathStep(initial, "ftp", ["password"]);
      GetPathStep(Obj(ftp), "password", []);
      assert FtpPasswordPath == ["ftp"] + ["password"];
      assert ["password"] == ["password"] + [];
    }
    HashVerifiesPassword(initial, h, p);
    var saved := EnsureHash(initial, h).value;
    assert saved.fields["ftp"].Obj? && saved.fields["ftp"].fields["username"] == Str(DefaultUsername) by {
      if !HashMatches(initial, h) {
        assert saved.fields["ftp"] == Obj(ftp["passwordHash" := Str(h.hash(p))]);
      }
    }
    assert GetPath(saved, ["ftp", "username"]) == Some(Str(DefaultUsername)) by {
      GetPathStep(saved, "ftp", ["username"]);
      GetPathStep(saved.fields["ftp"], "username", []);
      assert ["ftp", "username"] == ["ftp"] + ["username"];
      assert ["username"] == ["username"] + [];
    }
  }

  /** `updateSettings(updates)`: loads, merges the updates over what was
      loaded and saves. The result pairs what the call returns (the saved
      settings) or throws (`null` or missing updates, or a failing save)
      with the collection afterwards: a failure after the load keeps the
      main row the load may already have inserted. */
  function UpdateSettings(updates: Option<Json>, rows: Result<Collection>, cwd: string, h: Hasher, bytes: seq<Byte>)
    : (r: (Result<Json>, Result<Collection>))
    ensures var current := LoadSettings(rows, cwd, h, bytes);
            KeysOf(updates).Err? ==> r == (Err(KeysOf(updates).message), current.1)
    ensures var current := LoadSettings(rows, cwd, h, bytes);
            KeysOf(updates).Ok? ==>
              (var saved := SaveSettings(Obj(DeepMerge(current.0, KeysOf(updates).value)), current.1, h);
               if saved.Ok? then r == (Ok(saved.value.0), Ok(saved.value.1))
               else r == (Err(saved.message), current.1))
    ensures r.0.Err? ==> r.1 == LoadSettings(rows, cwd, h, bytes).1
    ensures r.0.Ok? ==> r.1.Ok?
  {
    var current := LoadSettings(rows, cwd, h, bytes);
    match KeysOf(updates)
    case Err(m) => (Err(m), current.1)
    case Ok(u) =>
      match SaveSettings(Obj(DeepMerge(current.0, u)), current.1, h)
      case Ok(saved) => (Ok(saved.0), Ok(saved.1))
      case Err(m) => (Err(m), current.1)
  }

  /** On the first start, an update that throws (here: missing updates)
      still leaves the main row the load inserted, holding the generated
      credentials. */
  lemma FailedFirstUpdateKeepsRow(col: Collection, cwd: string, h: Hasher, bytes: seq<Byte>)
    requires HashSound(h) && FindMain(col) < 0 && |bytes| == PasswordLength
    ensures var r := UpdateSettings(None, Ok(col), cwd, h, bytes);
            && r.0.Err?
            && r.1.Ok? && |r.1.value| == |col| + 1
            && MainValue(r.1.value) == Some(LoadSettings(Ok(col), cwd, h, bytes).0)
  {
    FirstStartCredentials(col, cwd, h, bytes);
  }

  /** Hashing touches nothing outside `ftp`. */
  lemma EnsureHashKeepsOtherPaths(data: Json, h: Hasher, keys: seq<string>)
    requires |keys| > 0 && keys[0] != "ftp"
    requires EnsureHash(data, h).Ok?
    ensures GetPath(EnsureHash(data, h).value, keys) == GetPath(data, keys)
  {
    var saved := EnsureHash(data, h).value;
    if saved != data {
      PasswordLivesInObjects(data);
      assert saved == SetFtpHash(data, Str(h.hash(StringAt(data, FtpPasswordPath).value)));
      assert Member(saved, keys[0]) == Member(data, keys[0]);
      GetPathStep(data, keys[0], keys[1..]);
      GetPathStep(saved, keys[0], keys[1..]);
      assert [keys[0]] + keys[1..] == keys;
    }
  }

  /** An update's leaves outside `ftp` are what the saved settings hold
      afterwards, and the collection's main row holds those settings. */
  lemma UpdatedLeafReadsBack(updates: map<string, Json>, rows: Result<Collection>, cwd: string, h: Hasher,
                             bytes: seq<Byte>, keys: seq<string>, leaf: Json)
    requires |keys| > 0 && keys[0] != "ftp" && !leaf.Obj?
    requires GetPath(Obj(updates), keys) == Some(leaf)
    requires UpdateSettings(Some(Obj(updates)), rows, cwd, h, bytes).0.Ok?
    ensures var r := UpdateSettings(Some(Obj(updates)), rows, cwd, h, bytes);
            && GetPath(r.0.value, keys) == Some(leaf)
            && MainValue(r.1.value) == Some(r.0.value)
  {
    var current := LoadSettings(rows, cwd, h, bytes);
    assert KeysOf(Some(Obj(updates))) == Ok(updates);
    SavedLeafReadsBack(current.0, current.1, updates, h, keys, leaf);
  }

  /** The save half of UpdatedLeafReadsBack, for any loaded settings. */
  lemma SavedLeafReadsBack(current: Json, rows: Result<Collection>, updates: map<string, Json>, h: Hasher,
                           keys: seq<string>, leaf: Json)
    requires |keys| > 0 && keys[0] != "ftp" && !leaf.Obj?
    requires GetPath(Obj(updates), keys) == Some(leaf)
    requires SaveSettings(Obj(DeepMerge(current, updates)), rows, h).Ok?
    ensures var r := SaveSettings(Obj(DeepMerge(current, updates)), rows, h).value;
            && GetPath(r.0, keys) == Some(leaf)
            && MainValue(r.1) == Some(r.0)
  {
    var merged := Obj(DeepMerge(current, updates));
    MergedLeafWins(current, updates, keys, leaf);
    EnsureHashKeepsOtherPaths(merged, h, keys);
    SavedSettingsReadBack(merged, rows.value, h);
  }

  // ---------------------------------------------------------------------
  // Reading settings

  /** `getSetting(path)` on loaded settings: split on dots, then read
      member by member. */
  function GetSetting(settings: Json, path: string): Option<Json> {
    GetPath(settings, Split(path, '.'))
  }

  /** A dotted path reaches the value its keys name. */
  lemma GetSettingFollowsKeys(settings: Json, keys: seq<string>)
    requires |keys| >= 1
    requires forall i :: 0 <= i < |keys| ==> '.' !in keys[i]
    ensures GetSetting(settings, Join(keys, '.')) == GetPath(settings, keys)
  {
    SplitJoin(keys, '.');
  }

  /** `_settings?.<path>`, where the cache is `None` before the first load. */
  function Cached(cache: Option<Json>, keys: seq<string>): Option<Json> {
    match cache
    case None => None
    case Some(s) => GetPath(s, keys)
  }

  /** `_settings?.ftp?.username || 'pd'`. */
  function FtpUsername(cache: Option<Json>): (u: Json)
    ensures Truthy(u)
    ensures cache.None? ==> u == Str(DefaultUsername)
  {
    match Cached(cache, ["ftp", "username"])
    case Some(v) => if Truthy(v) then v else Str(DefaultUsername)
    case None => Str(DefaultUsername)
  }

  /** `_settings?.ftp?.password || null`. */
  function FtpPassword(cache: Option<Json>): (p: Json)
    ensures p.Null? || Truthy(p)
    ensures cache.None? ==> p == Null
  {
    match Cached(cache, FtpPasswordPath)
    case Some(v) => if Truthy(v) then v else Null
    case None => Null
  }

  /** `_settings?.ftp?.passwordHash`, `None` standing for `undefined`. */
  function FtpPasswordHash(cache: Option<Json>): Option<Json> {
    Cached(cache, FtpHashPath)
  }

  /** `{ ...defaults, ...saved }`: saved values win key by key. */
  function Overlay(defaults: map<string, Json>, saved: Option<Json>): (r: map<string, Json>)
    ensures r.Keys == defaults.Keys + (if saved.Some? then Spread(saved.value).Keys else {})
    ensures forall k :: k in r ==>
              r[k] == if saved.Some? && k in Spread(saved.value) then Spread(saved.value)[k] else defaults[k]
  {
    match saved
    case None => defaults
    case Some(v) => defaults + Spread(v)
  }

  /** The `destinations` getter: each destination's saved settings laid
      over its defaults, or the defaults when nothing is saved. */
  function DestinationSettings(cache: Option<Json>, cwd: string): Json {
    match Cached(cache, ["destinations"])
    case Some(d) =>
      if Truthy(d) then
        Obj(map["local" := Obj(Overlay(DefaultLocal(cwd), Member(d, "local"))),
                "googleDrive" := Obj(Overlay(DefaultGoogleDrive(), Member(d, "googleDrive"))),
                "googlePhotos" := Obj(Overlay(DefaultGooglePhotos(), Member(d, "googlePhotos")))])
      else DefaultDestinations(cwd)
    case None => DefaultDestinations(cwd)
  }

  /** The `enabled` flag the getter yields for one destination: the saved
      one when present, else the default (on for local, off for the Google
      destinations). */
  lemma EnabledFlagOverlay(cache: Option<Json>, cwd: string, key: string, saved: Json)
    requires key in {"local", "googleDrive", "googlePhotos"}
    requires cache.Some? && GetPath(cache.value, ["destinations", key, "enabled"]) == Some(saved)
    ensures GetPath(DestinationSettings(cache, cwd), [key, "enabled"]) == Some(saved)
  {
    var s := cache.value;
    GetPathStep(s, "destinations", [key, "enabled"]);
    assert ["destinations", key, "enabled"] == ["destinations"] + [key, "enabled"];
    var d := Member(s, "destinations").value;
    GetPathStep(d, key, ["enabled"]);
    assert [key, "enabled"] == [key] + ["enabled"];
    var dk := Member(d, key).value;
    GetPathStep(dk, "enabled", []);
    assert ["enabled"] == ["enabled"] + [];
    var out := DestinationSettings(cache, cwd);
    assert Cached(cache, ["destinations"]) == Some(d) by {
      GetPathStep(s, "destinations", []);
      assert ["destinations"] == ["destinations"] + [];
    }
    assert Truthy(d) by {
      WordKeyNeedsObject(d, key);
    }
    GetPathStep(out, key, ["enabled"]);
    GetPathStep(out.fields[key], "enabled", []);
  }

  /** With nothing saved for a destination, the getter yields its default
      flag. */
  lemma DefaultFlags(cwd: string)
    ensures GetPath(DestinationSettings(None, cwd), ["local", "enabled"]) == Some(Bool(true))
    ensures GetPath(DestinationSettings(None, cwd), ["googleDrive", "enabled"]) == Some(Bool(false))
    ensures GetPath(DestinationSettings(None, cwd), ["googlePhotos", "enabled"]) == Some(Bool(false))
  {
    var d := DefaultDestinations(cwd);
    assert ["local", "enabled"] == ["local"] + ["enabled"];
    assert ["googleDrive", "enabled"] == ["googleDrive"] + ["enabled"];
    assert ["googlePhotos", "enabled"] == ["googlePhotos"] + ["enabled"];
    assert ["enabled"] == ["enabled"] + [];
    GetPathStep(d, "local", ["enabled"]);
    GetPathStep(d, "googleDrive", ["enabled"]);
    GetPathStep(d, "googlePhotos", ["enabled"]);
    GetPathStep(d.fields["local"], "enabled", []);
    GetPathStep(d.fields["googleDrive"], "enabled", []);
    GetPathStep(d.fields["googlePhotos"], "enabled", []);
  }

  /** The `deleteAfterUpload` getter: the saved value unless it is
      `undefined`; a saved `null` is returned as `null`. */
  function DeleteAfterUpload(cache: Option<Json>): (v: Json)
    ensures Cached(cache, ["deleteAfterUpload"]).None? ==> v == Bool(true)
    ensures Cached(cache, ["deleteAfterUpload"]).Some? ==> Some(v) == Cached(cache, ["deleteAfterUpload"])
  {
    match Cached(cache, ["deleteAfterUpload"])
    case Some(v) => v
    case None => Bool(true)
  }

  /** Settings loaded from a saved row keep deletion on unless the row
      itself says otherwise. */
  lemma LoadedDeletionDefaultsOn(col: Collection, cwd: string, h: Hasher, bytes: seq<Byte>)
    requires FindMain(col) >= 0
    requires MainValue(col).Some? && MainValue(col).value.Obj?
    requires "deleteAfterUpload" !in MainValue(col).value.fields
    requires HashIfMissing(Obj(DeepMerge(Defaults(cwd), MainValue(col).value.fields)), h).Ok?
    ensures DeleteAfterUpload(Some(LoadSettings(Ok(col), cwd, h, bytes).0)) == Bool(true)
  {
    var saved := MainValue(col).value.fields;
    var merged := Obj(DeepMerge(Defaults(cwd), saved));
    assert merged.fields["deleteAfterUpload"] == Bool(true);
    var s := LoadSettings(Ok(col), cwd, h, bytes).0;
    if s != merged {
      PasswordLivesInObjects(merged);
    }
    assert s.Obj? && s.fields["deleteAfterUpload"] == Bool(true);
    GetPathStep(s, "deleteAfterUpload", []);
    assert ["deleteAfterUpload"] == ["deleteAfterUpload"] + [];
  }
}
