/** The destination manager: a registry of destinations keyed by name, the
    initialisation that disables what fails to start, the fan-out of one
    file to every enabled destination, the single-destination retry, and
    the map of uploads in progress. `Promise.all` is a sequential map that
    keeps the order of its inputs. */
module Manager {
  import opened Common
  import opened Json
  import opened UploadLog
  import opened Destinations

  /** The registry in insertion order, as iterating a `Map` sees it. */
  type Registry = seq<Destination>

  predicate DistinctNames(ds: Registry) {
    forall i, j :: 0 <= i < j < |ds| ==> ds[i].name != ds[j].name
  }

  /** Position of the destination named `name`, or -1. */
  function IndexOf(ds: Registry, name: string): (i: int)
    ensures -1 <= i < |ds|
    ensures i >= 0 ==> ds[i].name == name
    ensures i >= 0 ==> forall k :: 0 <= k < i ==> ds[k].name != name
    ensures i < 0 ==> forall k :: 0 <= k < |ds| ==> ds[k].name != name
  {
    if |ds| == 0 then -1
    else if ds[0].name == name then 0
    else
      var j := IndexOf(ds[1..], name);
      if j < 0 then -1 else j + 1
  }

  /** `destinations.get(name)`. */
  function Lookup(ds: Registry, name: string): (r: Option<Destination>)
    ensures r.Some? <==> exists k :: 0 <= k < |ds| && ds[k].name == name
    ensures r.Some? ==> r.value in ds && r.value.name == name
  {
    var i := IndexOf(ds, name);
    if i < 0 then None else Some(ds[i])
  }

  /** `register(d)`: `Map.set` under `d.getName()`, which replaces an entry
      of the same name where it stands and otherwise appends. */
  function Register(ds: Registry, d: Destination): (r: Registry)
    ensures DistinctNames(ds) ==> DistinctNames(r)
    ensures Lookup(r, d.name) == Some(d)
    ensures forall n :: n != d.name ==> Lookup(r, n) == Lookup(ds, n)
    ensures |r| == if Lookup(ds, d.name).Some? then |ds| else |ds| + 1
    ensures forall k :: 0 <= k < |ds| && ds[k].name != d.name ==> r[k] == ds[k]
  {
    var i := IndexOf(ds, d.name);
    var r := if i < 0 then ds + [d] else ds[i := d];
    assert forall n :: n != d.name ==> IndexOf(r, n) == IndexOf(ds, n) by {
      forall n | n != d.name ensures IndexOf(r, n) == IndexOf(ds, n) {
        IndexOfAfterChange(ds, r, d.name, n);
      }
    }
    IndexOfFirst(r, d.name, if i < 0 then |ds| else i);
    r
  }

  lemma IndexOfFirst(ds: Registry, name: string, i: nat)
    requires i < |ds| && ds[i].name == name
    requires forall k :: 0 <= k < i ==> ds[k].name != name
    ensures IndexOf(ds, name) == i
  {
  }

  lemma IndexOfAfterChange(ds: Registry, r: Registry, changed: string, n: string)
    requires n != changed
    requires |ds| <= |r|
    requires forall k :: 0 <= k < |ds| && ds[k].name != changed ==> r[k] == ds[k]
    requires forall k :: 0 <= k < |ds| && ds[k].name == changed ==> r[k].name == changed
    requires forall k :: |ds| <= k < |r| ==> r[k].name == changed
    ensures IndexOf(r, n) == IndexOf(ds, n)
  {
    var i := IndexOf(ds, n);
    if i >= 0 {
      IndexOfFirst(r, n, i);
    }
  }

  /** The later of two registrations under one name is the one kept. */
  lemma LastRegistrationWins(ds: Registry, a: Destination, b: Destination)
    requires a.name == b.name
    ensures Lookup(Register(Register(ds, a), b), a.name) == Some(b)
    ensures |Register(Register(ds, a), b)| == |Register(ds, a)|
  {
  }

  /** `clear()`. */
  function Clear(ds: Registry): (r: Registry)
    ensures forall n :: Lookup(r, n).None?
  {
    []
  }

  /** `getEnabledDestinations()`. */
  function EnabledDestinations(ds: Registry): (r: Registry)
    ensures |r| <= |ds|
    ensures forall d :: d in r <==> d in ds && d.enabled
  {
    if |ds| == 0 then []
    else if ds[0].enabled then [ds[0]] + EnabledDestinations(ds[1..])
    else EnabledDestinations(ds[1..])
  }

  /** `r` lists destinations in the order they have in `ds`. */
  predicate OrderedIn(r: Registry, ds: Registry) {
    forall i, j :: 0 <= i < j < |r| ==> IndexOf(ds, r[i].name) < IndexOf(ds, r[j].name)
  }

  /** A destination behind the first one sits one place further in the
      whole registry than in its tail. */
  lemma IndexInTail(ds: Registry, d: Destination)
    requires DistinctNames(ds) && |ds| > 0 && d in ds[1..]
    ensures d.name != ds[0].name
    ensures IndexOf(ds, d.name) == IndexOf(ds[1..], d.name) + 1
  {
    var k :| 0 <= k < |ds[1..]| && ds[1..][k] == d;
    assert ds[k + 1] == d;
  }

  lemma DistinctTail(ds: Registry)
    requires DistinctNames(ds) && |ds| > 0
    ensures DistinctNames(ds[1..])
  {
    forall i, j | 0 <= i < j < |ds| - 1 ensures ds[1..][i].name != ds[1..][j].name {
      assert ds[1..][i] == ds[i + 1] && ds[1..][j] == ds[j + 1];
    }
  }

  /** A destination whose name none of `t` has can go in front of `t`. */
  lemma DistinctCons(d: Destination, t: Registry)
    requires DistinctNames(t) && forall x :: x in t ==> x.name != d.name
    ensures DistinctNames([d] + t)
  {
    var r := [d] + t;
    forall i, j | 0 <= i < j < |r| ensures r[i].name != r[j].name {
      assert r[j] == t[j - 1] && t[j - 1] in t;
      if i > 0 {
        assert r[i] == t[i - 1];
      }
    }
  }

  lemma {:induction false} EnabledDistinct(ds: Registry)
    requires DistinctNames(ds)
    ensures DistinctNames(EnabledDestinations(ds))
  {
    if |ds| > 0 {
      DistinctTail(ds);
      EnabledDistinct(ds[1..]);
      var t := EnabledDestinations(ds[1..]);
      if ds[0].enabled {
        forall x | x in t ensures x.name != ds[0].name {
          IndexInTail(ds, x);
        }
        DistinctCons(ds[0], t);
      }
    }
  }

  /** Destinations of the tail, in tail order, are in registry order too,
      and so they stay behind the first destination. */
  lemma OrderedCons(ds: Registry, t: Registry)
    requires DistinctNames(ds) && |ds| > 0
    requires forall x :: x in t ==> x in ds[1..]
    requires OrderedIn(t, ds[1..])
    ensures OrderedIn(t, ds)
    ensures OrderedIn([ds[0]] + t, ds)
  {
    forall k | 0 <= k < |t| ensures IndexOf(ds, t[k].name) == IndexOf(ds[1..], t[k].name) + 1 >= 1 {
      assert t[k] in t;
      IndexInTail(ds, t[k]);
    }
    var r := [ds[0]] + t;
    forall i, j | 0 <= i < j < |r| ensures IndexOf(ds, r[i].name) < IndexOf(ds, r[j].name) {
      assert r[j] == t[j - 1];
      if i > 0 {
        assert r[i] == t[i - 1];
      }
    }
  }

  lemma {:induction false} EnabledOrdered(ds: Registry)
    requires DistinctNames(ds)
    ensures OrderedIn(EnabledDestinations(ds), ds)
  {
    if |ds| > 0 {
      DistinctTail(ds);
      EnabledOrdered(ds[1..]);
      OrderedCons(ds, EnabledDestinations(ds[1..]));
    }
  }

  /** The enabled destinations come in registry order, and each of them
      once. */
  lemma EnabledInRegistryOrder(ds: Registry)
    requires DistinctNames(ds)
    ensures DistinctNames(EnabledDestinations(ds))
    ensures OrderedIn(EnabledDestinations(ds), ds)
  {
    EnabledDistinct(ds);
    EnabledOrdered(ds);
  }

  /** `initializeAll()`: every enabled destination is initialised and the
      ones whose initialisation fails are disabled; nothing else changes. */
  function InitializeAll(ds: Registry, env: Env): (r: Registry)
    ensures |r| == |ds|
    ensures forall i :: 0 <= i < |ds| ==>
              r[i].name == ds[i].name && r[i].config == ds[i].config && r[i].kind == ds[i].kind
    ensures forall i :: 0 <= i < |ds| && !ds[i].enabled ==> !r[i].enabled
    ensures forall i :: 0 <= i < |ds| && ds[i].enabled ==> (r[i].enabled <==> Initialize(ds[i], env).Pass?)
  {
    seq(|ds|, i requires 0 <= i < |ds| =>
      if ds[i].enabled && Initialize(ds[i], env).Fail? then ds[i].(enabled := false) else ds[i])
  }

  /** Initialising again with the same outcomes changes nothing more: what
      survived the first round starts again. */
  lemma InitializeAllSettles(ds: Registry, env: Env)
    ensures InitializeAll(InitializeAll(ds, env), env) == InitializeAll(ds, env)
  {
    var once := InitializeAll(ds, env);
    var twice := InitializeAll(once, env);
    forall i | 0 <= i < |ds| ensures twice[i] == once[i] {
      assert Initialize(once[i], env) == Initialize(ds[i], env);
    }
  }

  /** Initialisation never enables anything: the enabled destinations
      afterwards are among those before. */
  lemma InitializeOnlyDisables(ds: Registry, env: Env)
    ensures |EnabledDestinations(InitializeAll(ds, env))| <= |EnabledDestinations(ds)|
    ensures forall d :: d in EnabledDestinations(InitializeAll(ds, env)) ==> d in EnabledDestinations(ds)
  {
    var r := InitializeAll(ds, env);
    forall d | d in EnabledDestinations(r) ensures d in EnabledDestinations(ds) {
      var i :| 0 <= i < |r| && r[i] == d;
      assert ds[i] == d;
    }
    EnabledCountMonotone(ds, r);
  }

  lemma {:induction false} EnabledCountMonotone(ds: Registry, r: Registry)
    requires |r| == |ds|
    requires forall i :: 0 <= i < |ds| && r[i].enabled ==> ds[i].enabled
    ensures |EnabledDestinations(r)| <= |EnabledDestinations(ds)|
  {
    if |ds| > 0 {
      EnabledCountMonotone(ds[1..], r[1..]);
    }
  }

  // ---------------------------------------------------------------------
  // Uploads in progress

  /** One entry of the active-upload map (`status` is always
      `uploading`). */
  datatype ActiveUpload = ActiveUpload(id: string, filename: Option<string>, receivedId: Option<Json>, startTime: string)

  /** Destination name to its uploads in progress, in insertion order. */
  type Active = map<string, seq<ActiveUpload>>

  predicate FreshId(us: seq<ActiveUpload>, id: string) {
    forall k :: 0 <= k < |us| ==> us[k].id != id
  }

  /** `Map.set(u.id, u)` on one destination's uploads. */
  function SetUpload(us: seq<ActiveUpload>, u: ActiveUpload): (r: seq<ActiveUpload>)
    ensures FreshId(us, u.id) ==> r == us + [u]
    ensures u in r
  {
    if |us| == 0 then [u]
    else if us[0].id == u.id then [u] + us[1..]
    else [us[0]] + SetUpload(us[1..], u)
  }

  /** `Map.delete(id)`. */
  function DeleteUpload(us: seq<ActiveUpload>, id: string): (r: seq<ActiveUpload>)
    ensures FreshId(r, id)
    ensures forall x :: x in r <==> x in us && x.id != id
  {
    if |us| == 0 then []
    else if us[0].id == id then DeleteUpload(us[1..], id)
    else [us[0]] + DeleteUpload(us[1..], id)
  }

  lemma {:induction false} DeleteFresh(us: seq<ActiveUpload>, id: string)
    requires FreshId(us, id)
    ensures DeleteUpload(us, id) == us
  {
    if |us| > 0 {
      DeleteFresh(us[1..], id);
    }
  }

  function UploadsOf(active: Active, dest: string): seq<ActiveUpload> {
    if dest in active then active[dest] else []
  }

  /** `trackUploadStart`: the destination gets an (empty) entry if it had
      none, and the upload is added to it. */
  function TrackUploadStart(active: Active, dest: string, u: ActiveUpload): (r: Active)
    ensures dest in r && u in r[dest]
    ensures FreshId(UploadsOf(active, dest), u.id) ==> r[dest] == UploadsOf(active, dest) + [u]
    ensures forall n :: n != dest ==> (n in r <==> n in active) && (n in active ==> r[n] == active[n])
  {
    active[dest := SetUpload(UploadsOf(active, dest), u)]
  }

  /** `trackUploadEnd`: the upload is removed; a destination without an
      entry is left alone. */
  function TrackUploadEnd(active: Active, dest: string, id: string): (r: Active)
    ensures dest in active ==> dest in r && FreshId(r[dest], id)
    ensures dest in active ==> forall x :: x in r[dest] <==> x in active[dest] && x.id != id
    ensures dest !in active ==> r == active
    ensures forall n :: n != dest ==> (n in r <==> n in active) && (n in active ==> r[n] == active[n])
  {
    if dest in active then active[dest := DeleteUpload(active[dest], id)] else active
  }

  /** The map after an upload under a fresh id has started and ended: as
      before, except that the destination now has an entry, empty if it
      had none. */
  function Settled(active: Active, dest: string): Active {
    active[dest := UploadsOf(active, dest)]
  }

  lemma StartThenEnd(active: Active, dest: string, u: ActiveUpload)
    ensures FreshId(UploadsOf(active, dest), u.id) ==>
              TrackUploadEnd(TrackUploadStart(active, dest, u), dest, u.id) == Settled(active, dest)
  {
    var us := UploadsOf(active, dest);
    if FreshId(us, u.id) {
      DeleteFresh(us, u.id);
      DeleteAppended(us, u);
    }
  }

  lemma {:induction false} DeleteAppended(us: seq<ActiveUpload>, u: ActiveUpload)
    requires FreshId(us, u.id)
    ensures DeleteUpload(us + [u], u.id) == DeleteUpload(us, u.id)
  {
    if |us| == 0 {
      assert us + [u] == [u];
    } else {
      assert (us + [u])[1..] == us[1..] + [u];
      DeleteAppended(us[1..], u);
    }
  }

  function ActiveJson(u: ActiveUpload): Json {
    Obj(Put(Put(map["id" := Str(u.id), "startTime" := Str(u.startTime), "status" := Str("uploading")],
      "filename", StrOpt(u.filename)), "receivedId", u.receivedId))
  }

  /** `getActiveUploads()`: one array per destination, in insertion order. */
  function GetActiveUploads(active: Active): (j: Json)
    ensures j.Obj? && j.fields.Keys == active.Keys
    ensures forall n :: n in active ==>
              j.fields[n].Arr? && |j.fields[n].items| == |active[n]| &&
              forall k :: 0 <= k < |active[n]| ==> j.fields[n].items[k] == ActiveJson(active[n][k])
  {
    Obj(map n | n in active :: Arr(seq(|active[n]|, k requires 0 <= k < |active[n]| => ActiveJson(active[n][k]))))
  }

  // ---------------------------------------------------------------------
  // Uploading

  /** `Date.now()`-derived values of one upload, by destination name. */
  datatype Clock = Clock(
    uploadId: string -> string,
    startTime: string -> string,
    timestamp: string -> string,
    duration: string -> int)

  /** The state an upload touches: the local disk, the active map and the
      destination log (as its records). */
  datatype State = State(files: set<string>, active: Active, log: seq<DestinationRecord>)

  /** An element of the array `uploadToAll` resolves to. */
  datatype UploadResult = Succeeded(destination: string, result: Json) | Failed(destination: string, error: string)

  /** The record logged for an upload. */
  function RecordOf(name: string, meta: Metadata, outcome: Result<Json>, clock: Clock): (rec: DestinationRecord)
    ensures rec.destination == name && rec.receivedId == meta.receivedId
    ensures rec.success <==> outcome.Ok?
    ensures outcome.Ok? ==> rec.result == Some(outcome.value) && rec.error == None
    ensures outcome.Err? ==> rec.error == Some(outcome.message) && rec.result == None
  {
    DestinationRecord(
      meta.receivedId, clock.timestamp(name), StrOpt(meta.originalFilename), name,
      outcome.Ok?,
      if outcome.Ok? then Some(outcome.value) else None,
      if outcome.Err? then Some(outcome.message) else None,
      clock.duration(name))
  }

  /** One upload under `name`: tracked, performed, untracked and logged. */
  function UploadUnder(name: string, d: Destination, filePath: string, meta: Metadata, st: State, env: Env, clock: Clock)
    : (r: (Result<Json>, State))
    ensures r.0 == Upload(d, filePath, meta, st.files, env).result
    ensures r.1.files == Upload(d, filePath, meta, st.files, env).files
    ensures r.1.log == st.log + [RecordOf(name, meta, r.0, clock)]
    ensures FreshId(UploadsOf(st.active, name), clock.uploadId(name)) ==> r.1.active == Settled(st.active, name)
  {
    var u := ActiveUpload(clock.uploadId(name), meta.originalFilename, meta.receivedId, clock.startTime(name));
    var started := TrackUploadStart(st.active, name, u);
    var up := Upload(d, filePath, meta, st.files, env);
    var ended := TrackUploadEnd(started, name, u.id);
    StartThenEnd(st.active, name, u);
    (up.result, State(up.files, ended, st.log + [RecordOf(name, meta, up.result, clock)]))
  }

  function ResultOf(name: string, outcome: Result<Json>): UploadResult {
    match outcome
    case Ok(v) => Succeeded(name, v)
    case Err(m) => Failed(name, m)
  }

  /** The ids `clock` hands out are not in use by the destinations in
      `ds`. */
  predicate FreshIds(ds: Registry, active: Active, clock: Clock) {
    forall k :: 0 <= k < |ds| ==> FreshId(UploadsOf(active, ds[k].name), clock.uploadId(ds[k].name))
  }

  function SettledAll(active: Active, ds: Registry): Active
    decreases |ds|
  {
    if |ds| == 0 then active else SettledAll(Settled(active, ds[0].name), ds[1..])
  }

  /** The record logged for destination `d`: it names `d`, carries the
      file's `receivedId`, and says whether `d`'s upload succeeded. */
  predicate LoggedFor(rec: DestinationRecord, d: Destination, meta: Metadata, env: Env) {
    && rec.destination == d.name
    && rec.receivedId == meta.receivedId
    && (rec.success <==> UploadError(d, meta, env).None?)
  }

  /** The uploads of `uploadToAll`, one destination after another. */
  function UploadEach(ds: Registry, filePath: string, meta: Metadata, st: State, env: Env, clock: Clock)
    : (r: (seq<UploadResult>, State))
    ensures |r.0| == |ds|
    decreases |ds|
  {
    if |ds| == 0 then ([], st)
    else
      var one := UploadUnder(ds[0].name, ds[0], filePath, meta, st, env, clock);
      var rest := UploadEach(ds[1..], filePath, meta, one.1, env, clock);
      ([ResultOf(ds[0].name, one.0)] + rest.0, rest.1)
  }

  /** One upload appends its destination's record. */
  lemma UploadUnderLogs(d: Destination, filePath: string, meta: Metadata, st: State, env: Env, clock: Clock)
    ensures var one := UploadUnder(d.name, d, filePath, meta, st, env, clock);
            && |one.1.log| == |st.log| + 1 && st.log <= one.1.log
            && LoggedFor(one.1.log[|st.log|], d, meta, env)
  {
    UploadErrorIsExact(d, filePath, meta, st.files, env);
  }

  /** `log` holds, in order, one record per destination of `ds`. */
  predicate LogsFor(log: seq<DestinationRecord>, ds: Registry, meta: Metadata, env: Env)
    decreases |ds|
  {
    && |log| == |ds|
    && (|ds| == 0 || (LoggedFor(log[0], ds[0], meta, env) && LogsFor(log[1..], ds[1..], meta, env)))
  }

  lemma {:induction false} LogsForAt(log: seq<DestinationRecord>, ds: Registry, meta: Metadata, env: Env)
    requires LogsFor(log, ds, meta, env)
    ensures |log| == |ds| && forall i :: 0 <= i < |ds| ==> LoggedFor(log[i], ds[i], meta, env)
    decreases |ds|
  {
    if |ds| > 0 {
      LogsForAt(log[1..], ds[1..], meta, env);
      forall i | 1 <= i < |ds|
        ensures LoggedFor(log[i], ds[i], meta, env)
      {
        assert log[i] == log[1..][i - 1] && ds[i] == ds[1..][i - 1];
      }
    }
  }

  /** The fan-out keeps what was logged before and appends the records of
      its destinations. */
  lemma {:induction false} UploadEachAppends(ds: Registry, filePath: string, meta: Metadata, st: State, env: Env, clock: Clock)
    ensures var log := UploadEach(ds, filePath, meta, st, env, clock).1.log;
            st.log <= log && LogsFor(log[|st.log|..], ds, meta, env)
    decreases |ds|
  {
    if |ds| > 0 {
      var one := UploadUnder(ds[0].name, ds[0], filePath, meta, st, env, clock);
      UploadEachAppends(ds[1..], filePath, meta, one.1, env, clock);
      UploadUnderLogs(ds[0], filePath, meta, st, env, clock);
      var log := UploadEach(ds[1..], filePath, meta, one.1, env, clock).1.log;
      AppendStep(ds, meta, env, st.log, one.1.log, log);
    }
  }

  lemma AppendStep(ds: Registry, meta: Metadata, env: Env,
                   log0: seq<DestinationRecord>, log1: seq<DestinationRecord>, log2: seq<DestinationRecord>)
    requires |ds| > 0
    requires |log1| == |log0| + 1 && log0 <= log1 && LoggedFor(log1[|log0|], ds[0], meta, env)
    requires log1 <= log2 && LogsFor(log2[|log1|..], ds[1..], meta, env)
    ensures log0 <= log2
    ensures LogsFor(log2[|log0|..], ds, meta, env)
  {
  }


  /** The fan-out appends one record per destination, in destination
      order, and keeps what was logged before. */
  lemma UploadEachLogs(ds: Registry, filePath: string, meta: Metadata, st: State, env: Env, clock: Clock)
    ensures var r := UploadEach(ds, filePath, meta, st, env, clock);
            && |r.1.log| == |st.log| + |ds| && st.log <= r.1.log
            && forall i :: 0 <= i < |ds| ==> LoggedFor(r.1.log[|st.log| + i], ds[i], meta, env)
  {
    var log := UploadEach(ds, filePath, meta, st, env, clock).1.log;
    UploadEachAppends(ds, filePath, meta, st, env, clock);
    LogsForAt(log[|st.log|..], ds, meta, env);
  }


  /** One step of the fan-out: the first destination's upload, then the
      others on the state it leaves. */
  lemma UploadEachStep(ds: Registry, filePath: string, meta: Metadata, st: State, env: Env, clock: Clock)
    requires |ds| > 0
    ensures var one := UploadUnder(ds[0].name, ds[0], filePath, meta, st, env, clock);
            var rest := UploadEach(ds[1..], filePath, meta, one.1, env, clock);
            UploadEach(ds, filePath, meta, st, env, clock) == ([ResultOf(ds[0].name, one.0)] + rest.0, rest.1)
  {
  }

  /** `r` is what uploading to `d` resolves to: its name, and a failure
      exactly when the upload fails, with that error. */
  predicate ResultFor(r: UploadResult, d: Destination, meta: Metadata, env: Env) {
    && r.destination == d.name
    && (r.Failed? <==> UploadError(d, meta, env).Some?)
    && (r.Failed? ==> r.error == UploadError(d, meta, env).value)
    && (d.kind.Remote? && r.Succeeded? ==> r.result == env.remoteUpload(d.name).value)
  }

  /** `rs` holds, in order, one result per destination of `ds`. */
  predicate ResultsFor(rs: seq<UploadResult>, ds: Registry, meta: Metadata, env: Env)
    decreases |ds|
  {
    && |rs| == |ds|
    && (|ds| == 0 || (ResultFor(rs[0], ds[0], meta, env) && ResultsFor(rs[1..], ds[1..], meta, env)))
  }

  lemma {:induction false} ResultsForAt(rs: seq<UploadResult>, ds: Registry, meta: Metadata, env: Env)
    requires ResultsFor(rs, ds, meta, env)
    ensures |rs| == |ds| && forall i :: 0 <= i < |ds| ==> ResultFor(rs[i], ds[i], meta, env)
    decreases |ds|
  {
    if |ds| > 0 {
      ResultsForAt(rs[1..], ds[1..], meta, env);
      forall i | 1 <= i < |ds|
        ensures ResultFor(rs[i], ds[i], meta, env)
      {
        assert rs[i] == rs[1..][i - 1] && ds[i] == ds[1..][i - 1];
      }
    }
  }

  /** One upload resolves to its destination's result. */
  lemma UploadUnderResult(d: Destination, filePath: string, meta: Metadata, st: State, env: Env, clock: Clock)
    ensures ResultFor(ResultOf(d.name, UploadUnder(d.name, d, filePath, meta, st, env, clock).0), d, meta, env)
  {
    UploadErrorIsExact(d, filePath, meta, st.files, env);
  }

  lemma ResultsCons(x: UploadResult, rest: seq<UploadResult>, ds: Registry, meta: Metadata, env: Env)
    requires |ds| > 0 && ResultFor(x, ds[0], meta, env) && ResultsFor(rest, ds[1..], meta, env)
    ensures ResultsFor([x] + rest, ds, meta, env)
  {
    assert ([x] + rest)[1..] == rest;
  }

  lemma {:induction false} UploadEachResultsFor(ds: Registry, filePath: string, meta: Metadata, st: State, env: Env, clock: Clock)
    ensures ResultsFor(UploadEach(ds, filePath, meta, st, env, clock).0, ds, meta, env)
    decreases |ds|
  {
    if |ds| > 0 {
      var one := UploadUnder(ds[0].name, ds[0], filePath, meta, st, env, clock);
      UploadUnderResult(ds[0], filePath, meta, st, env, clock);
      UploadEachResultsFor(ds[1..], filePath, meta, one.1, env, clock);
      UploadEachStep(ds, filePath, meta, st, env, clock);
      var rest := UploadEach(ds[1..], filePath, meta, one.1, env, clock).0;
      ResultsCons(ResultOf(ds[0].name, one.0), rest, ds, meta, env);
    }
  }

  /** The results of the fan-out: one per destination, in order, whose
      failure depends only on that destination. */
  lemma UploadEachResults(ds: Registry, filePath: string, meta: Metadata, st: State, env: Env, clock: Clock)
    ensures var r := UploadEach(ds, filePath, meta, st, env, clock).0;
            forall i :: 0 <= i < |ds| ==>
              && r[i].destination == ds[i].name
              && (r[i].Failed? <==> UploadError(ds[i], meta, env).Some?)
              && (r[i].Failed? ==> r[i].error == UploadError(ds[i], meta, env).value)
              && (ds[i].kind.Remote? && r[i].Succeeded? ==> r[i].result == env.remoteUpload(ds[i].name).value)
  {
    UploadEachResultsFor(ds, filePath, meta, st, env, clock);
    ResultsForAt(UploadEach(ds, filePath, meta, st, env, clock).0, ds, meta, env);
  }

  /** The fan-out only adds files. */
  lemma {:induction false} UploadEachFiles(ds: Registry, filePath: string, meta: Metadata, st: State, env: Env, clock: Clock)
    ensures st.files <= UploadEach(ds, filePath, meta, st, env, clock).1.files
    decreases |ds|
  {
    if |ds| > 0 {
      var d := ds[0];
      var one := UploadUnder(d.name, d, filePath, meta, st, env, clock);
      UploadKeepsFiles(d, filePath, meta, st.files, env);
      UploadEachFiles(ds[1..], filePath, meta, one.1, env, clock);
    }
  }

  /** With distinct names and fresh ids, every upload the fan-out tracked
      has ended when it resolves. */
  lemma {:induction false} UploadEachActive(ds: Registry, filePath: string, meta: Metadata, st: State, env: Env, clock: Clock)
    requires DistinctNames(ds) && FreshIds(ds, st.active, clock)
    ensures UploadEach(ds, filePath, meta, st, env, clock).1.active == SettledAll(st.active, ds)
    decreases |ds|
  {
    if |ds| > 0 {
      var d := ds[0];
      var one := UploadUnder(d.name, d, filePath, meta, st, env, clock);
      assert FreshId(UploadsOf(st.active, d.name), clock.uploadId(d.name));
      assert one.1.active == Settled(st.active, d.name);
      assert DistinctNames(ds[1..]);
      forall k | 0 <= k < |ds[1..]|
        ensures FreshId(UploadsOf(one.1.active, ds[1..][k].name), clock.uploadId(ds[1..][k].name))
      {
        assert ds[1..][k] == ds[k + 1];
        assert ds[k + 1].name != d.name;
        assert FreshId(UploadsOf(st.active, ds[k + 1].name), clock.uploadId(ds[k + 1].name));
      }
      UploadEachActive(ds[1..], filePath, meta, one.1, env, clock);
    }
  }

  /** The enabled destinations, or no uploads at all when there are
      none. */
  function UploadToAll(ds: Registry, filePath: string, meta: Metadata, st: State, env: Env, clock: Clock)
    : (r: (seq<UploadResult>, State))
    ensures EnabledDestinations(ds) == [] ==> r == ([], st)
    ensures r == UploadEach(EnabledDestinations(ds), filePath, meta, st, env, clock)
  {
    var enabled := EnabledDestinations(ds);
    if |enabled| == 0 then ([], st) else UploadEach(enabled, filePath, meta, st, env, clock)
  }

  /** A failing destination fails alone: whether a destination succeeds
      does not depend on the other destinations. */
  lemma FailureIsIsolated(ds: Registry, others: Registry, i: nat, j: nat, filePath: string, meta: Metadata,
                          st: State, st': State, env: Env, clock: Clock)
    requires i < |ds| && j < |others| && ds[i] == others[j]
    ensures UploadEach(ds, filePath, meta, st, env, clock).0[i].Succeeded? ==
            UploadEach(others, filePath, meta, st', env, clock).0[j].Succeeded?
  {
    UploadEachResults(ds, filePath, meta, st, env, clock);
    UploadEachResults(others, filePath, meta, st', env, clock);
  }

  /** With N enabled destinations the fan-out yields N results, in order,
      and appends exactly N log records, whatever fails. */
  lemma FanOutIsComplete(ds: Registry, filePath: string, meta: Metadata, st: State, env: Env, clock: Clock)
    ensures var r := UploadToAll(ds, filePath, meta, st, env, clock);
            var enabled := EnabledDestinations(ds);
            && |r.0| == |enabled|
            && |r.1.log| == |st.log| + |enabled|
            && r.1.log[..|st.log|] == st.log
            && (forall i :: 0 <= i < |enabled| ==> r.0[i].destination == enabled[i].name)
            && (forall i :: 0 <= i < |enabled| ==> r.1.log[|st.log| + i].destination == enabled[i].name)
            && (forall i :: 0 <= i < |enabled| ==> (r.1.log[|st.log| + i].success <==> r.0[i].Succeeded?))
  {
    var enabled := EnabledDestinations(ds);
    var r := UploadToAll(ds, filePath, meta, st, env, clock);
    UploadEachResultsFor(enabled, filePath, meta, st, env, clock);
    UploadEachAppends(enabled, filePath, meta, st, env, clock);
    CompleteFrom(enabled, r.0, st.log, r.1.log, meta, env);
  }

  /** Results and records that each match their destination line up with
      each other. */
  lemma CompleteFrom(ds: Registry, results: seq<UploadResult>, log0: seq<DestinationRecord>,
                     log: seq<DestinationRecord>, meta: Metadata, env: Env)
    requires ResultsFor(results, ds, meta, env)
    requires log0 <= log && LogsFor(log[|log0|..], ds, meta, env)
    ensures |results| == |ds| && |log| == |log0| + |ds| && log[..|log0|] == log0
    ensures forall i :: 0 <= i < |ds| ==> results[i].destination == ds[i].name
    ensures forall i :: 0 <= i < |ds| ==> log[|log0| + i].destination == ds[i].name
    ensures forall i :: 0 <= i < |ds| ==> (log[|log0| + i].success <==> results[i].Succeeded?)
  {
    ResultsForAt(results, ds, meta, env);
    LogsForAt(log[|log0|..], ds, meta, env);
    forall i | 0 <= i < |ds|
      ensures results[i].destination == ds[i].name
      ensures log[|log0| + i].destination == ds[i].name
      ensures log[|log0| + i].success <==> results[i].Succeeded?
    {
      assert log[|log0| + i] == log[|log0|..][i];
      ResultMatchesLog(results[i], log[|log0| + i], ds[i], meta, env);
    }
  }

  /** The result and the log record of one upload agree on its outcome. */
  lemma ResultMatchesLog(res: UploadResult, rec: DestinationRecord, d: Destination, meta: Metadata, env: Env)
    requires ResultFor(res, d, meta, env) && LoggedFor(rec, d, meta, env)
    ensures res.destination == rec.destination == d.name
    ensures rec.success <==> res.Succeeded?
  {
  }

  /** When the registry has distinct names and the ids are fresh, every
      upload that started has ended once the fan-out resolves. */
  lemma FanOutLeavesNothingActive(ds: Registry, filePath: string, meta: Metadata, st: State, env: Env, clock: Clock)
    requires DistinctNames(ds)
    requires FreshIds(EnabledDestinations(ds), st.active, clock)
    ensures UploadToAll(ds, filePath, meta, st, env, clock).1.active == SettledAll(st.active, EnabledDestinations(ds))
  {
    EnabledInRegistryOrder(ds);
    UploadEachActive(EnabledDestinations(ds), filePath, meta, st, env, clock);
  }

  function NotFound(name: string): string { "Destination not found: " + name }
  function Disabled(name: string): string { "Destination is disabled: " + name }

  /** `uploadTo(name, ...)`: refuses an unknown or disabled destination
      before tracking or logging anything; otherwise one upload with one
      log record, whose failure is raised again. */
  function UploadTo(ds: Registry, name: string, filePath: string, meta: Metadata, st: State, env: Env, clock: Clock)
    : (r: (Result<Json>, State))
    ensures Lookup(ds, name).None? ==> r == (Err(NotFound(name)), st)
    ensures Lookup(ds, name).Some? && !Lookup(ds, name).value.enabled ==> r == (Err(Disabled(name)), st)
    ensures Lookup(ds, name).Some? && Lookup(ds, name).value.enabled ==>
              var d := Lookup(ds, name).value;
              && r.0 == Upload(d, filePath, meta, st.files, env).result
              && r.1.files == Upload(d, filePath, meta, st.files, env).files
              && (r.0.Err? <==> UploadError(d, meta, env).Some?)
              && (r.0.Err? ==> r.0.message == UploadError(d, meta, env).value)
              && r.1.log == st.log + [RecordOf(name, meta, r.0, clock)]
              && (FreshId(UploadsOf(st.active, name), clock.uploadId(name)) ==> r.1.active == Settled(st.active, name))
  {
    match Lookup(ds, name)
    case None => (Err(NotFound(name)), st)
    case Some(d) =>
      if !d.enabled then (Err(Disabled(name)), st)
      else
        UploadErrorIsExact(d, filePath, meta, st.files, env);
        UploadUnder(name, d, filePath, meta, st, env, clock)
  }

  /** `readyChecks`: the answers of `isReady` in order, or the first
      rejection. */
  function ReadyChecks(ds: Registry, env: Env): (r: Result<seq<bool>>)
    ensures r.Err? <==> exists d :: d in ds && d.kind.Base?
    ensures r.Err? ==> r.message == IsReadyMissing
    ensures r.Ok? ==> |r.value| == |ds| && forall i :: 0 <= i < |ds| ==> IsReady(ds[i], env) == Ok(r.value[i])
  {
    if |ds| == 0 then Ok([])
    else
      match IsReady(ds[0], env)
      case Err(m) => Err(m)
      case Ok(b) =>
        match ReadyChecks(ds[1..], env)
        case Err(m) =>
          var d :| d in ds[1..] && d.kind.Base?;
          assert d in ds;
          Err(m)
        case Ok(bs) =>
          assert forall d :: d in ds ==> d == ds[0] || d in ds[1..];
          Ok([b] + bs)
  }

  /** `hasReadyDestinations()`: false with nothing enabled, a rejection when
      an enabled destination cannot answer, else whether any is ready. */
  function HasReadyDestinations(ds: Registry, env: Env): (r: Result<bool>)
    ensures EnabledDestinations(ds) == [] ==> r == Ok(false)
    ensures r.Err? <==> exists d :: d in ds && d.enabled && d.kind.Base?
    ensures r.Ok? ==> (r.value <==> exists d :: d in ds && d.enabled && IsReady(d, env) == Ok(true))
  {
    var enabled := EnabledDestinations(ds);
    if |enabled| == 0 then
      assert forall d :: d in ds ==> !d.enabled;
      Ok(false)
    else
      match ReadyChecks(enabled, env)
      case Err(m) => Err(m)
      case Ok(bs) =>
        AnyReady(enabled, bs, env);
        Ok(true in bs)
  }

  /** `results.some(r => r)` over the answers of `readyChecks`. */
  lemma AnyReady(ds: Registry, bs: seq<bool>, env: Env)
    requires |bs| == |ds| && forall i :: 0 <= i < |ds| ==> IsReady(ds[i], env) == Ok(bs[i])
    ensures (true in bs) <==> exists d :: d in ds && IsReady(d, env) == Ok(true)
  {
    if true in bs {
      var i :| 0 <= i < |bs| && bs[i];
      assert ds[i] in ds;
    }
    if exists d :: d in ds && IsReady(d, env) == Ok(true) {
      var d :| d in ds && IsReady(d, env) == Ok(true);
      var i :| 0 <= i < |ds| && ds[i] == d;
      assert bs[i];
    }
  }
}
