# photo-distributor in Dafny

A model of the decision logic of photo-distributor, an FTP server that
receives photos and videos and sends each file to one or more upload
destinations. The destinations are a local photo tree, Google Drive and
Google Photos. The model covers:

- the login rate limiter;
- the destination manager: the registry, initialisation, the fan-out of one
  file to every enabled destination, the single-destination retry, and the
  map of uploads in progress;
- the base and local destinations;
- date-partitioned placement with its `name_1`, `name_2`, ... collision loop;
- `organizeFile`;
- the settings store: `deepMerge`, defaults, the first-run password, password
  hashing, and the `main` row;
- the JSON Lines upload history and its queries;
- the database's one-time legacy migration and its initialisation state;
- the web server's transfer tracker and two of its request rules;
- EXIF capture-date selection;
- the server's destination setup and login check;
- the dashboard's retry, relative-time, tab and settings-editor rules.

Every operation is a pure function over immutable values. Anything the
program gets from outside enters as a parameter:

| Outside input | How it enters the model |
|---|---|
| the clock | integers and strings |
| random bytes | a sequence of bytes |
| the files on disk | a set of paths, or a `FileState` for each log file |
| bcrypt | two uninterpreted functions, `hash` and `compare` |
| `JSON.stringify` / `JSON.parse` | a codec whose parse undoes its encode |
| exiftool tags, `fs.stat` | values |
| initialisation, upload and readiness of the remote destinations | oracles keyed by destination name |

`Promise.all` is modelled as a sequential map that keeps the order of its
inputs. JavaScript property access and object spread are one function,
`Json.Spread`, so that strings and arrays behave as JavaScript spreads them:
each gives its index keys.

Modules follow the source files:

| Module | Source file(s) |
|---|---|
| `RateLimiter` | `lib/rate-limiter.js` |
| `Manager` | `lib/destinations/manager.js` |
| `Destinations` | `base.js` and `local.js` |
| `Placement` | `formatDateForPath`, the MIME table, path helpers, the collision loop |
| `Organize` | `lib/organize.js` |
| `Exif` | `lib/exif.js` |
| `Settings` | `lib/settings.js` |
| `UploadLog` | `lib/upload-log.js` |
| `Db` | `lib/db.js` |
| `Transfers` | `lib/web-server.js` |
| `Server` | `server.js` |
| `Dashboard` | `public/app.jsx` |

`Common` and `Json` hold the shared vocabulary: results, JavaScript strings
and numbers, and JSON values.

`lib/destinations/local.js:4` imports `formatDateForPath` from
`../distributor.js`. That file is not part of this model. It is taken to be
the function of `lib/organize.js:7-12`.

## Model

| member | source | states |
|---|---|---|
| RateLimiter.New | lib/rate-limiter.js:12-16 | a new limiter tracks no address; `maxAttempts` defaults to 5 and `windowMs` to 900000 (15 minutes), and a given option is kept |
| RateLimiter.IsBlocked | lib/rate-limiter.js:27-38 | an address without an entry is not blocked. An entry whose window has strictly elapsed is deleted and the address is not blocked, whatever its count. Inside the window the address is blocked exactly when `count >= maxAttempts`. Options are unchanged |
| RateLimiter.RecordFailure | lib/rate-limiter.js:44-53 | with no entry, or an expired one, the entry becomes `{count: 1, firstAttempt: now}`. Inside the window the count grows by one and `firstAttempt` is kept. Every other address is untouched |
| RateLimiter.RecordSuccess | lib/rate-limiter.js:59-61 | the address's entry is gone and every other address keeps its entry unchanged |
| RateLimiter.Cleanup | lib/rate-limiter.js:66-73 | exactly the expired entries are removed, and every surviving entry is unchanged |
| RateLimiter.CleanupPreservesVerdicts | lib/rate-limiter.js:27-73 | at the same instant the sweep changes no address's verdict |
| RateLimiter.IsBlockedStable | lib/rate-limiter.js:31-35 | asking `isBlocked` twice gives the same answer; the lazy deletion does not change the verdict |
| RateLimiter.FailuresAccumulate | lib/rate-limiter.js:44-53 | n failures inside one window leave a single entry with count n and the time of the first failure |
| RateLimiter.BlockedAfterMaxFailures | lib/rate-limiter.js:32-53 | after `maxAttempts` failures in one window the address is blocked for the rest of that window |
| RateLimiter.UnblockedAfterWindow | lib/rate-limiter.js:32-53 | once `now > firstAttempt + windowMs` the address is not blocked, with no `recordSuccess` needed |
| RateLimiter.NotBlockedBelowMax | lib/rate-limiter.js:37-53 | fewer than `maxAttempts` failures in one window never block |
| RateLimiter.SuccessForgives | lib/rate-limiter.js:59-61 | after a success the address is not blocked, and every other address's verdict is unchanged |
| Manager.IndexOf | lib/destinations/manager.js:55-63 | the position of the destination registered under a name is the first one carrying it, or -1 when no destination has that name |
| Manager.Lookup | lib/destinations/manager.js:170 | `destinations.get(name)` finds a destination exactly when one carries that name, and it is that destination |
| Manager.Register | lib/destinations/manager.js:62-65 | after `register(d)` looking up `d`'s name gives `d`, every other name looks up as before, and distinct names stay distinct. A new name grows the registry by one; a known name is replaced in place |
| Manager.LastRegistrationWins | lib/destinations/manager.js:62-65 | of two registrations under one name the later is kept, and the registry does not grow |
| Manager.Clear | lib/destinations/manager.js:245-247 | after `clear()` no name is found |
| Manager.EnabledDestinations | lib/destinations/manager.js:218-220 | exactly the registered destinations with `enabled` set are returned |
| Manager.EnabledInRegistryOrder | lib/destinations/manager.js:218-220 | the enabled destinations keep distinct names and come in registry order |
| Manager.EnabledDistinct | lib/destinations/manager.js:218-220 | filtering a registry with distinct names keeps the names distinct |
| Manager.EnabledOrdered | lib/destinations/manager.js:218-220 | filtering keeps the registry order |
| Manager.InitializeAll | lib/destinations/manager.js:71-91 | names, configs and classes are unchanged. A disabled destination stays disabled and is not initialised. An enabled one stays enabled exactly when its `initialize()` succeeds |
| Manager.InitializeAllSettles | lib/destinations/manager.js:71-91 | initialising a second time with the same outcomes changes nothing |
| Manager.InitializeOnlyDisables | lib/destinations/manager.js:71-91 | initialisation never enables anything: the enabled destinations afterwards are among those before, and there are no more of them |
| Manager.EnabledCountMonotone | lib/destinations/manager.js:218-220 | turning flags off never increases the number of enabled destinations |
| Manager.SetUpload | lib/destinations/manager.js:26-32 | `Map.set` under a fresh id appends the upload, and the upload is present afterwards |
| Manager.DeleteUpload | lib/destinations/manager.js:44 | `Map.delete(id)` removes exactly the uploads with that id |
| Manager.TrackUploadStart | lib/destinations/manager.js:21-36 | the destination gets an entry if it had none, the upload is added to it (appended under a fresh id), and no other destination changes |
| Manager.TrackUploadEnd | lib/destinations/manager.js:41-48 | the upload with that id is removed from its destination and the rest of its uploads stay. An unknown destination changes nothing. Other destinations are untouched |
| Manager.StartThenEnd | lib/destinations/manager.js:21-48 | starting and then ending an upload under a fresh id leaves the map as it was, except that the destination now has an (empty) entry if it had none |
| Manager.GetActiveUploads | lib/destinations/manager.js:10-16 | one array per tracked destination, holding its uploads in insertion order, each with status `uploading` |
| Manager.RecordOf | lib/destinations/manager.js:120-149 | the record logged for an upload names the destination and the metadata's `receivedId`. It is a success exactly when the upload resolved. A success carries the result and no error; a failure carries the error message and no result |
| Manager.UploadUnder | lib/destinations/manager.js:108-157 | one tracked upload gives the destination's outcome and its effect on the files, and appends exactly one record. Under a fresh upload id the active map ends settled |
| Manager.UploadEach | lib/destinations/manager.js:108-159 | the fan-out yields one result per destination |
| Manager.UploadEachLogs | lib/destinations/manager.js:108-159 | the fan-out keeps earlier records and appends one record per destination, in destination order, each naming its destination and the `receivedId` and saying whether that upload succeeded |
| Manager.UploadEachAppends | lib/destinations/manager.js:108-159 | the same as UploadEachLogs, in recursive form |
| Manager.LogsForAt | lib/destinations/manager.js:108-159 | the recursive per-record description gives the per-index one |
| Manager.UploadUnderLogs | lib/destinations/manager.js:120-149 | the single record one upload appends belongs to its destination |
| Manager.UploadEachResults | lib/destinations/manager.js:129-155 | result i names destination i. It is a failure exactly when that destination's upload fails, and then carries that error. A successful remote upload carries the remote result |
| Manager.UploadEachResultsFor | lib/destinations/manager.js:108-159 | the same as UploadEachResults, in recursive form |
| Manager.ResultsForAt | lib/destinations/manager.js:108-159 | the recursive per-result description gives the per-index one |
| Manager.UploadUnderResult | lib/destinations/manager.js:129-155 | one upload resolves to its destination's result object |
| Manager.UploadEachFiles | lib/destinations/manager.js:114 | the fan-out never removes a file |
| Manager.UploadEachActive | lib/destinations/manager.js:110-140 | with distinct names and fresh ids, every tracked upload is untracked again. The active map ends with only the destinations' (possibly new, empty) entries added |
| Manager.UploadToAll | lib/destinations/manager.js:99-160 | with no enabled destination nothing is uploaded, logged or tracked and the result is empty; otherwise the fan-out runs over the enabled destinations in registry order |
| Manager.FanOutIsComplete | lib/destinations/manager.js:99-160 | with N enabled destinations: N results in their order; exactly N records appended after the earlier ones, one per destination; each record agrees with its result on success, whatever fails |
| Manager.CompleteFrom | lib/destinations/manager.js:108-159 | results and records that each match their destination line up index by index |
| Manager.ResultMatchesLog | lib/destinations/manager.js:120-155 | an upload's result and its record name the same destination and agree on success |
| Manager.FailureIsIsolated | lib/destinations/manager.js:134-156 | whether a destination's upload succeeds does not depend on which other destinations take part or on the state they leave |
| Manager.FanOutLeavesNothingActive | lib/destinations/manager.js:110-140 | after `uploadToAll` no upload it started is still tracked |
| Manager.UploadTo | lib/destinations/manager.js:169-212 | an unknown name and a disabled destination are refused with their messages before anything is tracked or logged. Otherwise the call returns the destination's own upload result and leaves the files as that upload does. It appends one record, fails exactly when the destination's upload fails (raising its error), and leaves the active map settled |
| Manager.ReadyChecks | lib/destinations/manager.js:238 | `Promise.all` of `isReady()` rejects exactly when a base destination takes part; otherwise it gives each destination's answer in order |
| Manager.HasReadyDestinations | lib/destinations/manager.js:234-240 | false with nothing enabled; rejected exactly when an enabled base destination is asked; otherwise true exactly when some enabled destination reports ready |
| Manager.AnyReady | lib/destinations/manager.js:239 | `some(ready => ready)` over the answers holds exactly when some destination answered true |
| Destinations.EnabledFlag | lib/destinations/base.js:8 | `config.enabled ?? true`: an absent or null flag enables, an explicit `false` disables, any other value is read for its truthiness |
| Destinations.NewBase | lib/destinations/base.js:5-9 | a fresh base destination is named `base`, keeps its config, and takes its flag from it |
| Destinations.NewLocal | lib/destinations/local.js:11-15 | the local destination is named `local` and keeps `config.photosDir` |
| Destinations.NewGoogleDrive | lib/destinations/base.js:5-9 | the Google Drive destination is named `google-drive`, with its flag from the config |
| Destinations.NewGooglePhotos | lib/destinations/base.js:5-9 | the Google Photos destination is named `google-photos`, with its flag from the config |
| Destinations.Initialize | lib/destinations/base.js:15-17 | the base class always fails. The local destination fails without a truthy `photosDir`, fails with Node's `fs.mkdir` type error naming the received value when `photosDir` is truthy but not a string, and otherwise does what `mkdir` does. A remote destination gives its oracle's outcome |
| Destinations.IsReady | lib/destinations/base.js:33-35 | the base class rejects, with its message, and is the only one that does. The local destination is ready exactly when its directory is accessible |
| Destinations.SourceName | lib/destinations/local.js:48-51 | the name is `destinationFilename`, else `originalFilename`, else the base name of the source path |
| Destinations.LocalUpload | lib/destinations/local.js:43-73 | succeeds exactly when `photosDir` is a string and `mkdir` and the copy succeed. A non-string `photosDir` fails with `path.join`'s type error naming the received value. On success the file lands in `photosDir/year/year-MM-DD` under a name no existing file has, and the result reports that path, `year/folder` and the name. A failure changes no file |
| Destinations.Upload | lib/destinations/base.js:25-27 | the base class always fails and changes nothing; a remote destination gives its oracle's result; the local one uploads as LocalUpload |
| Destinations.UploadErrorIsExact | lib/destinations/local.js:43-73 | whether an upload fails, and with which message, does not depend on the files already present |
| Destinations.UploadKeepsFiles | lib/destinations/local.js:65-66 | an upload copies and never removes; in particular the source file is still there afterwards |
| Destinations.LocalUploadAddsOneFile | lib/destinations/local.js:44-72 | a successful local upload adds exactly one file, in the day directory, under the name it reports |
| Destinations.FreeNameIsKept | lib/destinations/local.js:54-72 | when the original name is free in the day directory it is used unchanged |
| Placement.FormatDateForPath | lib/organize.js:7-12 | `year` is the year in decimal, and the folder is that year, a dash, the two-digit 1-based month, a dash and the two-digit day |
| Placement.FormatDateRoundTrip | lib/organize.js:7-12 | the folder name determines the date: year, 1-based month and day read back exactly |
| Placement.GetMimeType | lib/organize.js:17-40 | a lower-cased extension in the table gives its type; anything else gives `application/octet-stream` |
| Placement.MimeTypeIgnoresCase | lib/organize.js:39 | an extension and its lower-cased form get the same type |
| Placement.LastIndexOf | lib/destinations/local.js:51-52 | the last occurrence of a character, or -1 exactly when there is none |
| Placement.BaseName | lib/destinations/local.js:51 | `path.basename` is the longest suffix of the path with no `/` in it: the whole path, or what follows a `/` |
| Placement.ExtName | lib/destinations/local.js:52 | `path.extname` is empty or a dot followed by no further dot, and ends the base name, so it starts at the base name's last dot |
| Placement.ExtNameFound | lib/destinations/local.js:52 | `path.extname` is non-empty exactly when the base name has a dot after its first character and is not `..` |
| Placement.JoinedBaseName | lib/destinations/local.js:51 | `path.basename` gives back a name without `/` joined onto any directory |
| Placement.AppendedExtName | lib/destinations/local.js:52 | `path.extname` gives back an extension appended to a non-empty stem |
| Placement.SuffixedPathInjective | lib/destinations/local.js:59-62 | different rounds of the loop try different paths |
| Placement.TakenShrinks | lib/destinations/local.js:58-63 | every collision removes one existing path from those the loop can still run into, so the loop terminates |
| Placement.FirstFree | lib/destinations/local.js:56-63 | the first free round from k on: its path is free and every earlier round's path is taken |
| Placement.ChooseFilename | lib/destinations/local.js:52-63 | the chosen path never exists yet. The original name is kept exactly when it is free. Otherwise the name is `<base>_<n><ext>`, for the least n >= 1 whose path is free, where `ext` is the lower-cased extension |
| Placement.UpperCaseExtensionKeepsWholeName | lib/destinations/local.js:52-59 | when the extension is not already lower case, `basename(name, ext)` strips nothing and the suffix goes after the whole name, so `IMG.JPG` collides into `IMG.JPG_1.jpg` |
| Placement.LowerCaseExtensionStripped | lib/destinations/local.js:52-60 | a lower-case extension is stripped, so `img.jpg` collides into `img_1.jpg` |
| Placement.CollisionTakesRoundOne | lib/destinations/local.js:56-63 | with only the original name taken, the loop stops at `_1` |
| Organize.OrganizeMetadata | lib/organize.js:55-64 | the metadata carries the original name as both names, the capture date, the lower-cased extension and its MIME type, and no `receivedId` |
| Organize.DestinationsSeeOriginalName | lib/organize.js:58-64 | every destination names the file after its original name, not after the temporary upload path, and dates it by the capture date |
| Organize.Fallback | lib/organize.js:97-116 | with no destinations the file is moved into `PHOTOS_DIR/year/year-MM-DD` under a free name. A `PHOTOS_DIR` that is not a string fails with `path.join`'s type error, changing nothing. Otherwise the move succeeds exactly when `mkdir` succeeds and the source exists, and then the source is gone and the new path added. No log or tracking changes |
| Organize.OrganizeFile | lib/organize.js:42-117 | an unsupported lower-cased extension unlinks the source and nothing is uploaded. With enabled destinations the file goes to `uploadToAll`, and the source is deleted only when deletion is configured and some upload succeeded (a failing unlink is swallowed). With none, the fallback runs on whatever `PHOTOS_DIR` is passed, string or not |
| Organize.SourceDeletedOnlyAfterSuccess | lib/organize.js:90-96 | with destinations, the source is gone exactly when deletion is configured and at least one destination took the file, and the result reports that |
| Organize.FanOutRecordsCarryId | lib/destinations/manager.js:120-149 | every record the fan-out appends carries the metadata's `receivedId`, after the earlier records |
| Organize.OrganizedUploadsAreUnlinked | lib/organize.js:58-71 | every record logged while organising has no `receivedId` |
| Organize.FallbackMovesFile | lib/organize.js:114 | the fallback moves rather than copies: the source is gone, the destination is new, and the number of files is unchanged |
| Organize.FallbackKeepsFreeName | lib/organize.js:103-114 | a free original name is kept by the fallback |
| Organize.UndefinedPhotosDirLeavesFile | lib/organize.js:97-100 | with no destination enabled and `PHOTOS_DIR` undefined, a supported file is not organised: `path.join` throws its type error and the file, the logs and the tracking are left as they were |
| Exif.ScanTags | lib/exif.js:32-42 | the first field, in order, that is neither absent, falsy nor unconvertible decides: its date, or a throw when its value has no `toDate`. Not found exactly when every field is skipped |
| Exif.StatDate | lib/exif.js:45-50 | the birth time when its time value is positive, otherwise the modification time |
| Exif.ExtractDate | lib/exif.js:18-55 | tags are consulted only for the ten photo extensions (lower-cased). A found tag date wins. A failing tag read or a tag without `toDate` gives now. Otherwise the stat date is used, or now when `stat` fails |
| Exif.OriginalDateWins | lib/exif.js:24-41 | a usable `DateTimeOriginal` decides, whatever the other tags say |
| Exif.UnconvertibleTagIsSkipped | lib/exif.js:33-40 | a tag that converts to nothing is passed over for the next field |
| Exif.NonPhotosIgnoreTags | lib/exif.js:21 | for files that are not photos the tags make no difference |
| Exif.ExtractedDateIsOffered | lib/exif.js:18-55 | the date is always one of those on offer: a tag's date, the birth or modification time, or now |
| Exif.FoundIsATag | lib/exif.js:26-36 | a date the tag scan finds is the date of one of the tags |
| Settings.AlphabetChar | lib/settings.js:10 | the password alphabet consists of ASCII letters and digits |
| Settings.PasswordCharsAreAlphabet | lib/settings.js:10 | the 62-character alphabet is the upper-case letters, then the lower-case letters, then the digits |
| Settings.GeneratePassword | lib/settings.js:9-13 | the password has one character per byte, character i being `chars[b_i % 62]`, always a letter or digit |
| Settings.PasswordDependsOnResidues | lib/settings.js:12 | only each byte's residue modulo 62 matters |
| Settings.DeepMerge | lib/settings.js:48-64 | the keys are those of the target and of the source. Keys only in the target keep their value. A source value that is an object is merged recursively into `target[key] \|\| {}`. Arrays, null, false, 0 and strings replace |
| Settings.MergeNothing | lib/settings.js:48-64 | `deepMerge(x, {})` is a copy of `x` |
| Settings.MergeIdempotent | lib/settings.js:48-64 | merging the same source twice equals merging it once |
| Settings.MergedLeafWins | lib/settings.js:51-61 | every non-object leaf of the source is what the result holds at its path |
| Settings.MergeKeepsUntouched | lib/settings.js:49-57 | every path the source does not reach reads as in the target |
| Settings.KeysOf | lib/settings.js:51 | `Object.keys` of undefined or null throws; otherwise it sees the value's own keys |
| Settings.SetFtpHash | lib/settings.js:117-120 | storing a hash changes `ftp.passwordHash` and nothing else |
| Settings.EnsureHash | lib/settings.js:109-122 | a falsy password, or a stored hash that verifies the password, leaves the settings as they are. Otherwise a string password is hashed into `ftp.passwordHash` and a non-string one makes bcrypt throw |
| Settings.HashVerifiesPassword | lib/settings.js:109-122 | with a password present, afterwards the stored hash verifies it. The password is unchanged and every top-level key but `ftp` is untouched |
| Settings.EnsureHashKeepsOtherPaths | lib/settings.js:109-122 | hashing changes nothing outside `ftp` |
| Settings.FindMain | lib/settings.js:73-125 | `findOne({key: 'main'})` gives the first main row, or -1 when there is none |
| Settings.PutMain | lib/settings.js:124-132 | an existing main row is updated in place and every other row kept. With none, a `{key: 'main', value}` row is appended. The main row then holds the data, and no second main row appears |
| Settings.SaveSettings | lib/settings.js:107-133 | saving succeeds exactly when hashing and the collection do, and the saved data is the hashed data, written into the main row |
| Settings.SavedSettingsReadBack | lib/settings.js:124-132 | what was saved is what the main row holds, and no second main row appears |
| Settings.HashIfMissing | lib/settings.js:90-92 | loaded settings are left alone unless there is a truthy password and no hash. In that case a string password's hash is stored as `ftp.passwordHash`, and a non-string password makes bcrypt throw its type error |
| Settings.LoadSettings | lib/settings.js:70-100 | every error falls back to the defaults. With no main row the defaults with a generated password are saved and returned. Otherwise the saved value is merged over the defaults, then hashed when the hash is missing |
| Settings.FirstStartCredentials | lib/settings.js:78-88 | on the first start the username is `pd`. The password is the 12 letters and digits drawn from the bytes, and its hash verifies it. The collection gains exactly one main row, holding these settings |
| Settings.UpdateSettings | lib/settings.js:140-146 | the update is merged over the loaded settings and saved, and the saved settings are returned. Null or missing updates throw, and so does a failing save. On every failure the collection stays as the load left it, including a main row the load inserted |
| Settings.FailedFirstUpdateKeepsRow | lib/settings.js:140-146 | on the first start, an update that throws still leaves the one main row the load inserted, holding the loaded settings |
| Settings.UpdatedLeafReadsBack | lib/settings.js:140-146 | every non-object leaf of an update outside `ftp` is in the saved settings, and the main row holds them |
| Settings.GetSettingFollowsKeys | lib/settings.js:161-164 | a dotted path reads the value its keys name, key by key |
| Settings.FtpUsername | lib/settings.js:185-187 | the username getter is always truthy and is `pd` before settings are loaded |
| Settings.FtpPassword | lib/settings.js:188-190 | the password getter is null or truthy, and null before settings are loaded |
| Settings.Overlay | lib/settings.js:198-211 | saved values win key by key over the destination's defaults, and nothing is lost from either side |
| Settings.EnabledFlagOverlay | lib/settings.js:196-214 | a saved `enabled` flag of a destination is what the getter reports |
| Settings.DefaultFlags | lib/settings.js:196-213 | with nothing loaded, local is enabled and both Google destinations are disabled |
| Settings.DeleteAfterUpload | lib/settings.js:217-222 | the saved value unless it is undefined; undefined means true |
| Settings.LoadedDeletionDefaultsOn | lib/settings.js:217-222 | settings loaded from a row that does not mention `deleteAfterUpload` keep deletion on |
| UploadLog.ReceivedJson | lib/upload-log.js:9-19 | a received record is an object of type `received` with its id, timestamp and an empty `destinations`. Defined metadata fields are kept; undefined ones are dropped; there are no other properties |
| UploadLog.DestinationJson | lib/upload-log.js:30-49 | an upload record is an object of type `destination` carrying the given `receivedId`, name, success, result, error and duration; undefined ones are dropped and there are no other properties |
| UploadLog.ReceivedFieldsKeys | lib/upload-log.js:10-19 | the received record's properties are exactly `type`, `id`, `timestamp`, `destinations` and the defined ones among `filename`, `size`, `mimeType` and `fileDate` |
| UploadLog.DestinationFieldsKeys | lib/upload-log.js:39-49 | the upload record's properties are exactly `type`, `timestamp`, `destination`, `success`, `duration` and the defined ones among `receivedId`, `filename`, `result` and `error` |
| UploadLog.AppendLine | lib/upload-log.js:20-53 | appending creates a missing file and adds the line and a newline; it fails only on an unreadable file |
| UploadLog.LogFileReceived | lib/upload-log.js:9-25 | logging a received file answers its id, and fails only when the file cannot be written |
| UploadLog.LogDestinationUpload | lib/upload-log.js:30-54 | logging an upload fails only when the file cannot be written |
| UploadLog.ParseLines | lib/upload-log.js:67-89 | either every line parses and the values come in line order, or some line fails and the whole read fails |
| UploadLog.ReadLog | lib/upload-log.js:60-75 | a missing file is an empty log. Another read error is raised. Otherwise there is one entry per non-blank line, in file order |
| UploadLog.ReadWritten | lib/upload-log.js:20-67 | reading back a log gives exactly the entries written, in order |
| UploadLog.AppendHolds | lib/upload-log.js:20-53 | appending an entry extends the log by exactly that entry |
| UploadLog.Newest | lib/upload-log.js:68-69 | newest first (the reversed file order), cut to `limit` as `slice(0, limit)` does |
| UploadLog.GetRecentReceived | lib/upload-log.js:59-76 | the newest `limit` received records, newest first; read errors as in ReadLog |
| UploadLog.WithKey | lib/upload-log.js:93-118 | a record is kept exactly when it carries the given `receivedId`, and there are never more kept than given |
| UploadLog.KeyPositions | lib/upload-log.js:93-94 | the positions of the records carrying the key, strictly ascending, and containing a position exactly when its record carries the key |
| UploadLog.WithKeyKeepsOrder | lib/upload-log.js:93-94 | the filter keeps order: its `j`-th record is the record at the `j`-th matching position |
| UploadLog.WithKeyCons | lib/upload-log.js:93-94 | filtering a record placed in front keeps it in front exactly when it carries the key |
| UploadLog.WithKeyReverse | lib/upload-log.js:85-94 | filtering the reversed log gives the filtered log reversed |
| UploadLog.UploadsFor | lib/upload-log.js:85-96 | newest first, filtered by `receivedId` only when one is given, filtering before the limit. With a truthy `receivedId` the result is the newest `limit` of the matching records, taken in reverse order. A limit covering the log keeps every wanted record |
| UploadLog.GetDestinationUploads | lib/upload-log.js:81-103 | the filtered, limited upload records; read errors as in ReadLog |
| UploadLog.CombinedFields | lib/upload-log.js:122-125 | a combined entry is the received record with `destinations` replaced by the upload records carrying its id |
| UploadLog.EntryIsCombined | lib/upload-log.js:113-125 | looking a record's id up in the grouping gives its combined entry |
| UploadLog.GroupByReceivedId | lib/upload-log.js:113-119 | one group per `receivedId` that occurs, each holding exactly that id's records in order |
| UploadLog.CombineEach | lib/upload-log.js:122-125 | one combined entry per received record, in order |
| UploadLog.CombineAllAt | lib/upload-log.js:122-125 | the recursive description of the combined list gives the per-index one |
| UploadLog.GetCombinedLogs | lib/upload-log.js:108-126 | fails when either read fails. Otherwise there is one entry per recent received record; entry i is record i with the uploads carrying its id among the newest `3 * limit` upload records |
| UploadLog.LoggedIsMostRecent | lib/upload-log.js:9-69 | a received file just logged is the first entry of the next `getRecentReceived` |
| UploadLog.LoggedUploadIsFound | lib/upload-log.js:30-96 | an upload just logged is found by `getDestinationUploads` for its own `receivedId` |
| Common.ToLower | lib/organize.js:48 | lower-casing keeps the length |
| Common.ToLowerIdempotent | lib/organize.js:39-48 | lower-casing twice is lower-casing once |
| Common.Split | lib/upload-log.js:65 | `split` never gives an empty list, and no piece holds the separator |
| Common.SplitJoin | lib/settings.js:163 | splitting undoes joining when no piece holds the separator |
| Common.DropEmpty | lib/upload-log.js:66 | `filter(Boolean)` keeps exactly the non-empty strings |
| Common.ReadLines | lib/upload-log.js:63-66 | the lines read from a file are non-empty and contain no newline |
| Common.ReadSerialised | lib/upload-log.js:20-66 | reading back a file written line by line yields exactly the lines written; an empty file yields none |
| Common.NatToString | lib/organize.js:8-10 | a number is written as at least one decimal digit |
| Common.Pad2 | lib/organize.js:9-10 | `padStart(2, '0')` gives two digits that read back as the number |
| Common.Reverse | lib/upload-log.js:68 | element i of the reversed list is element `n-1-i` of the list |
| Common.SliceEnd | lib/upload-log.js:69 | the end `slice` uses stays within the list |
| Json.Spread | lib/settings.js:49 | spreading an object gives its fields, and spreading null, a boolean or a number gives nothing |
| Json.IndexedAt | lib/settings.js:49 | spreading an array gives each item under its decimal index |
| Json.IndexedKeys | lib/settings.js:49 | spreading an array gives nothing but index keys |
| Json.Member | lib/settings.js:163 | `v?.[key]` is defined exactly when the key is among `v`'s own enumerable properties (an object's fields, or the indices of a string or array), and is that property |
| Json.WordKeyNeedsObject | lib/settings.js:163 | a key not starting with a digit can only be found on an object |
| Json.SetField | lib/settings.js:117-120 | after `v[key] = x` on an object, `key` reads as `x`, every other property reads as before, and the only key added is `key`. A non-object is left alone |
| Db.EnsureCollections | lib/db.js:50-70 | the three collections exist afterwards: missing ones are added empty and existing ones are kept |
| Db.ImportSettings | lib/db.js:82-94 | `settings.json` migrates as exactly one `{key: 'main', value}` row. A missing, unreadable or unparsable file imports nothing |
| Db.ImportLines | lib/db.js:97-118 | a JSONL file migrates the documents parsed from its non-blank lines, in file order, up to the first one the collection rejects. A missing file or any line that fails to parse imports nothing |
| Db.InsertAll | lib/db.js:108 | LokiJS's array insert keeps a prefix of the documents: all objects, with distinct ids under a unique `id` index, and stopping only at a non-object or a repeated id |
| Db.InsertAllKeepsAll | lib/db.js:108 | when every document is an object and the ids are distinct, everything is inserted |
| Db.DuplicateIdStopsImport | lib/db.js:57-60 | under the `received` collection's unique `id` index, a repeated id stops the import after the first copy. Without the index both copies go in |
| Db.Guarded | lib/db.js:82-121 | a collection is imported into only while it is empty |
| Db.Migrate | lib/db.js:76-146 | each legacy file is imported only into an empty collection; non-empty and other collections are untouched |
| Db.MigrateIdempotent | lib/db.js:76-146 | running the migration twice on the same files gives the collections of running it once |
| Db.MissingFilesImportNothing | lib/db.js:89-141 | missing legacy files leave every collection unchanged and are not an error |
| Db.ImportLinesReadsLog | lib/db.js:101-110 | a log written by the upload log imports exactly its entries, in order, when they are objects with distinct ids |
| Db.InitDatabase | lib/db.js:16-45 | a stored promise is returned untouched. Otherwise the outcome follows the load, and a successful load always resolves, migration errors included. The database then holds the migrated collections |
| Db.InitDatabaseMemoised | lib/db.js:17 | calling `initDatabase` again returns the same outcome and changes nothing, whatever the disk holds by then |
| Db.GetDb | lib/db.js:151-156 | `getDb` fails with its message exactly before initialisation |
| Db.GetCollection | lib/db.js:161-168 | a collection is found exactly when the database exists and has it; otherwise the not-initialised or the not-found error |
| Db.InitialisedHasCollections | lib/db.js:16-70 | after a successful initialisation the settings, received and destinations collections are all found |
| Db.CloseDatabase | lib/db.js:186-196 | closing without a database succeeds and changes nothing; a successful close resets the database and the promise; a failed close keeps both |
| Db.CloseResetsInit | lib/db.js:186-196 | after a close, `getDb` fails and the next `initDatabase` loads and migrates afresh |
| Transfers.InitialValid | lib/web-server.js:16-25 | the initial status has no transfers and balanced counters |
| Transfers.NewTransfer | lib/web-server.js:28-35 | a tracked transfer keeps the caller's fields, gets the clock's id unless it brings its own, and has the start time and status `in-progress` |
| Transfers.TrackTransfer | lib/web-server.js:28-35 | `trackTransfer` appends exactly one active entry and touches nothing else |
| Transfers.FindIndex | lib/web-server.js:39 | `findIndex` gives the first transfer with the id, or -1 when none has it |
| Transfers.PushRecent | lib/web-server.js:45-50 | the transfer goes to the front of `recent`, the others follow in order, and a list within the 50 cap stays within it |
| Transfers.CompleteTransfer | lib/web-server.js:38-60 | an unknown id changes nothing. For a known id, the first matching entry leaves `active` and heads `recent` with status `completed` or `failed`, the end time and the result. `lastUploadTime` is a second clock reading. `totalUploads` and exactly one of the two other counters grow by one. Valid statuses stay valid |
| Transfers.TrackThenComplete | lib/web-server.js:28-60 | a transfer tracked under a fresh id and then completed leaves `active` as it was and heads `recent` with its final status |
| Transfers.CompletionsAreCounted | lib/web-server.js:41-57 | a completion removes one active transfer, keeps `recent` within 50 (dropping the oldest at the cap), and keeps `total = successful + failed` |
| Transfers.DigitPrefixIsLongest | lib/web-server.js:112 | `parseInt` reads the longest run of digits |
| Transfers.ParseIntReadsIntToString | lib/web-server.js:112 | `parseInt` reads back every integer written in decimal |
| Transfers.NotANumber | lib/web-server.js:112 | text not starting with a digit, sign or white space is NaN |
| Transfers.LogsLimit | lib/web-server.js:112 | the limit is never 0, and an absent query gives 100 |
| Transfers.LimitReadsQuery | lib/web-server.js:112 | a limit written as an integer is taken at its value, except 0, which gives 100 |
| Transfers.GetLogs | lib/web-server.js:101-121 | a missing log is an empty list, another read error is a 500, and otherwise the newest records up to the limit |
| Transfers.LogsDefaultToHundred | lib/web-server.js:112-113 | without a limit the endpoint returns the 100 newest records, newest first |
| Transfers.AuthStartService | lib/web-server.js:166-175 | only `drive` and `photos` are accepted, each selecting its destination's credentials; any other service is a 400 `Invalid service` |
| Server.SupportedHaveMimeTypes | server.js:17-26 | every supported extension has a MIME type of its own |
| Server.KnownMimeType | server.js:17-26 | every supported extension is lower case and in the MIME table |
| Server.WantedIsEnabled | server.js:35-53 | a destination registered because its flag is truthy starts out enabled |
| Server.WantedAreEnabled | server.js:35-53 | the same for each of the three destinations |
| Server.RegisterAppends | lib/destinations/manager.js:62-65 | registering a name not yet present appends |
| Server.RegisterThree | server.js:35-53 | starting from an empty registry, three conditional registrations under different names keep exactly the wanted ones, each under its own name |
| Server.RegisterIfStep | server.js:35-53 | a conditional registration under a new name appends when wanted and touches no other name |
| Server.Registered | server.js:32-53 | after `clear()` and the three conditional registrations, the registry holds, enabled and under distinct names, exactly the destinations whose flags are truthy, each built from its settings |
| Server.InitializedNames | server.js:55-56 | initialisation keeps the set of names and leaves a destination enabled exactly when it starts |
| Server.SetupFrom | server.js:28-56 | after setup a destination is present exactly when its settings enable it, and it stays enabled exactly when it initialises |
| Server.SetupForgetsPrevious | server.js:31-32 | what was registered before setup plays no part |
| Server.DefaultSetupIsLocalOnly | server.js:32-56 | with no settings loaded, only the local destination is set up, on `cwd/photos` |
| Server.LoginCheck | server.js:96-137 | a login is accepted exactly when a string password is stored, the username matches, and the password matches (bcrypt for a stored value starting with `$2`, equality otherwise). A wrong login is a 401; a missing password is a 500 |
| Server.NoPasswordNoLogin | server.js:104-136 | with no stored password every login is a 500 |
| Server.PlainCredentials | server.js:104-128 | stored plain-text credentials accept exactly their own password and refuse any other with a 401 |
| Server.FirstStartLogin | server.js:101-128 | on the first start `pd` logs in with the generated password and any other password is refused |
| Server.GeneratedIsNotHash | server.js:107 | a generated password never looks like a bcrypt hash |
| Server.AlnumIsNotHash | server.js:107 | text starting with a letter or digit is never taken for a bcrypt hash |
| Dashboard.SucceededDests | public/app.jsx:517-519 | the set of succeeded destinations is exactly the destinations of the success records |
| Dashboard.RetryableMeansNeverSucceeded | public/app.jsx:629-630 | a failure shows the retry button exactly when no upload to its destination succeeded, before or after it |
| Dashboard.RetryableIgnoresOrder | public/app.jsx:520-522 | reordering a file's upload records does not change whether it has retryable failures |
| Dashboard.CountWhere | public/app.jsx:512-513 | a count never exceeds the number of records |
| Dashboard.CountsAddUp | public/app.jsx:511-513 | the success count plus the failure count is the number of records |
| Dashboard.NoFailuresMeansAllSucceeded | public/app.jsx:513 | no failures counted exactly when every record succeeded |
| Dashboard.AllSucceededNothingToRetry | public/app.jsx:513-522 | a file without failures has nothing to retry |
| Dashboard.RetryableIffButton | public/app.jsx:520-522 | a file has retryable failures exactly when one of its rows shows the retry button |
| Dashboard.AnyFailedMeansSomeButton | public/app.jsx:1102-1108 | `hasAnyFailedUploads` holds exactly when some received file shows a retry button |
| Dashboard.PickUnit | public/app.jsx:778-784 | "Just now" exactly when no unit has passed once; otherwise the first unit, largest first, with a count of at least 1, and that count |
| Dashboard.TimeAgoUsesLargestUnit | public/app.jsx:768-785 | under 60 seconds (or in the future) is "Just now"; otherwise the largest unit with a whole count |
| Dashboard.RenderPlural | public/app.jsx:781 | the text ends in the plural unit and " ago" exactly when the count is not 1 |
| Dashboard.RenderInjective | public/app.jsx:768-785 | different elapsed times never render to the same text |
| Dashboard.AgoInjective | public/app.jsx:781 | the rendered text determines the count and the unit |
| Dashboard.InitialTab | public/app.jsx:811-815 | the tab is always valid: the hash without `#` when it names one of the four tabs, else `status` |
| Dashboard.TabAddressOpensTab | public/app.jsx:811-815 | every tab's own address opens it |
| Dashboard.SetPath | public/app.jsx:1049-1054 | the copying loop keeps every sibling key at each level and adds the path's key |
| Dashboard.UpdateSetting | public/app.jsx:1045-1057 | the updated settings are an object |
| Dashboard.SetPathReadsBack | public/app.jsx:1049-1054 | the value is found at its path afterwards |
| Dashboard.SetPathKeepsOthers | public/app.jsx:1049-1054 | every path that leaves the edited one reads as before |
| Dashboard.CopyReadsLikeOriginal | public/app.jsx:1047-1051 | a shallow copy reads like the original |
| Dashboard.UpdateSettingReadsBack | public/app.jsx:1045-1057 | `updateSetting` stores the value under its dotted path and leaves every setting off that path as it was |
| Dashboard.Toggle | public/app.jsx:831-841 | toggling flips the row's membership and leaves every other row alone |
| Dashboard.ToggleTwice | public/app.jsx:831-841 | toggling a row twice restores the set |

## Left out

- I/O is not modelled. The file system, LokiJS persistence and autosave, FTP, HTTP routing, WebSockets and `broadcastStatusUpdate` are left out. Their outcomes are parameters.
- Node's `path.join` normalisation is not modelled. Joining is concatenation with `/`.
- Key order of JavaScript objects is not modelled; objects are maps.
- Floating point is not modelled. Numbers are integers, so NaN, fractions, exponents and `parseInt` precision limits are out. `formatSize` is out for the same reason.
- `toLowerCase` is modelled on ASCII letters only; other letters keep their case.
- Concurrency is not modelled. The uploads of `Promise.all` run one after another in input order. Interleavings of concurrent logins, uploads and settings reloads are out.
- bcrypt internals and the salt rounds are out. `hash` and `compare` are uninterpreted functions.
- `crypto.randomBytes`, `Date.now`, `Math.random` and time zones are out. Ids, bytes and calendar fields are inputs.
- The Google Drive and Google Photos destinations are names only. Their initialisation, upload and readiness are oracles; OAuth and token refresh are out.
- `lib/photos-fs.js`, `lib/tls.js`, `config.js` and `scripts/google-auth-setup.js` are not part of this model.
- `DestinationManager.cleanup` and `BaseDestination.cleanup` are out. They only log errors and change no modelled state.
- `getAllDestinations` and `getName` are the registry itself and a destination's `name` field.
- A failure of `logDestinationUpload` inside the manager is not modelled. Appends to the destination log are taken to succeed.
- A log line that parses to `null` is not modelled. Property reads on it would throw.
- `organizeFile` reads `config.deleteAfterUpload`, which `config.js` does not define. The flag is a parameter of `Organize.OrganizeFile`.
- `organizeFile`'s one visible caller, `lib/photos-fs.js:81`, passes `settings.photosDir`, which the settings module does not define, so the no-destination fallback always fails there (Organize.UndefinedPhotosDirLeavesFile). That caller's unlinking of the temporary file after the failure is not modelled; `lib/photos-fs.js` is not part of this model.
- LokiJS adds `$loki` and `meta` fields to stored documents; they are not modelled.
- `Set.has` in the dashboard compares destinations by value, not by reference. Destinations are strings in practice.
- Dashboard.UpdateSetting: states only that the result is an object. What it stores and what it keeps are in Dashboard.UpdateSettingReadsBack.
- Dashboard.UploadsOf: a `file.destinations` that is truthy but not an array is read as no uploads. The source would throw on `.filter`.
- Db.InitDatabase: after a failed load the database instance is kept with no collections. LokiJS's partial state after the failure is not modelled.
- Json.Member: only own enumerable properties are read. A string's or array's `length` and inherited members (prototype methods) read as undefined, including when such a key comes from user-supplied updates. A `__proto__` key is an ordinary field in the model, where JavaScript reaches the prototype on a plain read or assignment.
- Db.InsertAll: LokiJS files unique keys under their string form, so ids `1` and `"1"` collide there but not in the model. Its other rejections of a document, one already carrying `$loki` or a `meta` that is not an object, are not modelled.
- Node's description of the received value in the `path.join` and `fs.mkdir` type errors is modelled for plain objects and arrays. Node describes a URL-like object, or one with its own `constructor` field, differently.
- Placement.BaseName: trailing slashes are not stripped as Node's `path.basename` strips them. The paths it is applied to are file paths.
- Common.ToLower: states only that the length is kept. The case mapping itself is ASCII only, as above.
- Settings.PasswordCharsAreAlphabet: the alphabet constant is written as three runs (`A`–`Z`, `a`–`z`, `0`–`9`) joined together. It is the same 62-character string as `lib/settings.js:10`.
