/** The dashboard's own logic: which failed uploads of a received file may
    be retried, how long ago something happened, the tab opened from the
    address, the settings editor's path update and the expanded rows. */
module Dashboard {
  import opened Common
  import opened Json

  // ---------------------------------------------------------------------
  // Retryable failures

  /** `file.destinations || []`; a value that is not an array is read as
      none. */
  function UploadsOf(file: Json): seq<Json> {
    match Member(file, "destinations")
    case Some(Arr(xs)) => xs
    case _ => []
  }

  predicate Succeeded(d: Json) {
    Truthy(Member(d, "success").GetOr(Null))
  }

  /** `d.destination`, `None` for `undefined`. */
  function DestinationOf(d: Json): Option<Json> {
    Member(d, "destination")
  }

  /** `succeededDests`: the destinations with at least one success. */
  function SucceededDests(ds: seq<Json>): (r: set<Option<Json>>)
    ensures forall x :: x in r <==> exists d :: d in ds && Succeeded(d) && DestinationOf(d) == x
  {
    set d | d in ds && Succeeded(d) :: DestinationOf(d)
  }

  /** The retry button of one upload: it failed, no upload to the same
      destination has succeeded, and a retry handler exists. */
  predicate RetryShown(ds: seq<Json>, i: int, onRetry: bool)
    requires 0 <= i < |ds|
  {
    !Succeeded(ds[i]) && DestinationOf(ds[i]) !in SucceededDests(ds) && onRetry
  }

  /** `hasRetryableFailures`. */
  predicate HasRetryableFailures(ds: seq<Json>) {
    exists d :: d in ds && !Succeeded(d) && DestinationOf(d) !in SucceededDests(ds)
  }

  /** A failure is retryable exactly when no upload to its destination
      succeeded, before or after it. */
  lemma RetryableMeansNeverSucceeded(ds: seq<Json>, i: int)
    requires 0 <= i < |ds|
    ensures RetryShown(ds, i, true) <==>
              !Succeeded(ds[i]) &&
              forall j :: 0 <= j < |ds| && DestinationOf(ds[j]) == DestinationOf(ds[i]) ==> !Succeeded(ds[j])
  {
    if !RetryShown(ds, i, true) && !Succeeded(ds[i]) {
      var d :| d in ds && Succeeded(d) && DestinationOf(d) == DestinationOf(ds[i]);
      var j :| 0 <= j < |ds| && ds[j] == d;
    }
  }

  /** The order of a file's uploads does not matter. */
  lemma RetryableIgnoresOrder(a: seq<Json>, b: seq<Json>)
    requires multiset(a) == multiset(b)
    ensures HasRetryableFailures(a) <==> HasRetryableFailures(b)
  {
    assert forall d :: d in a <==> d in multiset(a);
    assert forall d :: d in b <==> d in multiset(b);
    assert SucceededDests(a) == SucceededDests(b);
  }

  /** `destinations.filter(p).length`. */
  function CountWhere(ds: seq<Json>, success: bool): (n: nat)
    ensures n <= |ds|
  {
    if |ds| == 0 then 0
    else (if Succeeded(ds[0]) == success then 1 else 0) + CountWhere(ds[1..], success)
  }

  /** Every upload is counted once, as a success or as a failure. */
  lemma {:induction false} CountsAddUp(ds: seq<Json>)
    ensures CountWhere(ds, true) + CountWhere(ds, false) == |ds|
  {
    if |ds| > 0 {
      CountsAddUp(ds[1..]);
    }
  }

  /** The successes are exactly the uploads counted as such. */
  lemma {:induction false} NoFailuresMeansAllSucceeded(ds: seq<Json>)
    ensures CountWhere(ds, false) == 0 <==> forall i :: 0 <= i < |ds| ==> Succeeded(ds[i])
  {
    if |ds| > 0 {
      NoFailuresMeansAllSucceeded(ds[1..]);
      assert forall i :: 1 <= i < |ds| ==> ds[i] == ds[1..][i - 1];
    }
  }

  /** A file without failures has nothing to retry. */
  lemma AllSucceededNothingToRetry(ds: seq<Json>)
    requires CountWhere(ds, false) == 0
    ensures !HasRetryableFailures(ds)
  {
    NoFailuresMeansAllSucceeded(ds);
  }

  /** `hasAnyFailedUploads` over the received files. */
  predicate HasAnyFailedUploads(files: seq<Json>) {
    exists k :: 0 <= k < |files| && HasRetryableFailures(UploadsOf(files[k]))
  }

  /** A file has a retryable failure exactly when one of its rows shows
      the retry button. */
  lemma RetryableIffButton(ds: seq<Json>)
    ensures HasRetryableFailures(ds) <==> exists i :: 0 <= i < |ds| && RetryShown(ds, i, true)
  {
    if HasRetryableFailures(ds) {
      var d :| d in ds && !Succeeded(d) && DestinationOf(d) !in SucceededDests(ds);
      var i :| 0 <= i < |ds| && ds[i] == d;
      assert RetryShown(ds, i, true);
    }
  }

  /** The page-wide warning is raised exactly when some received file
      shows a retry button. */
  lemma AnyFailedMeansSomeButton(files: seq<Json>)
    ensures HasAnyFailedUploads(files) <==>
              exists k, i :: 0 <= k < |files| && 0 <= i < |UploadsOf(files[k])| && RetryShown(UploadsOf(files[k]), i, true)
  {
    forall k | 0 <= k < |files| {
      RetryableIffButton(UploadsOf(files[k]));
    }
  }

  // ---------------------------------------------------------------------
  // Relative times

  const Units: seq<(string, nat)> :=
    [("year", 31536000), ("month", 2592000), ("day", 86400), ("hour", 3600), ("minute", 60)]

  datatype Elapsed = JustNow | Ago(count: nat, unit: string)

  /** The loop over `intervals` from position `k`: the first unit of which
      at least one whole one has passed. */
  function PickUnit(seconds: int, k: nat): (r: Elapsed)
    requires k <= |Units|
    decreases |Units| - k
    ensures r.JustNow? <==> forall j :: k <= j < |Units| ==> seconds < Units[j].1
    ensures r.Ago? ==> exists j :: k <= j < |Units| && r.unit == Units[j].0 && r.count == seconds / Units[j].1 &&
                                   r.count >= 1 && forall m :: k <= m < j ==> seconds < Units[m].1
  {
    if k == |Units| then JustNow
    else
      var count := seconds / Units[k].1;
      if count >= 1 then Ago(count, Units[k].0) else PickUnit(seconds, k + 1)
  }

  /** `getTimeAgo(date)` for a date `dateMs` milliseconds into the epoch,
      read at `nowMs`. */
  function TimeAgo(nowMs: int, dateMs: int): Elapsed {
    PickUnit((nowMs - dateMs) / 1000, 0)
  }

  function Render(a: Elapsed): string {
    match a
    case JustNow => "Just now"
    case Ago(count, unit) => NatToString(count) + " " + unit + (if count != 1 then "s" else "") + " ago"
  }

  /** Under a minute, or in the future, is "Just now"; otherwise the
      largest unit of which a whole one has passed, with how many. */
  lemma TimeAgoUsesLargestUnit(nowMs: int, dateMs: int)
    ensures var seconds := (nowMs - dateMs) / 1000;
            && (TimeAgo(nowMs, dateMs).JustNow? <==> seconds < 60)
            && (60 <= seconds < 3600 ==> TimeAgo(nowMs, dateMs) == Ago(seconds / 60, "minute"))
            && (3600 <= seconds < 86400 ==> TimeAgo(nowMs, dateMs) == Ago(seconds / 3600, "hour"))
            && (86400 <= seconds < 2592000 ==> TimeAgo(nowMs, dateMs) == Ago(seconds / 86400, "day"))
            && (2592000 <= seconds < 31536000 ==> TimeAgo(nowMs, dateMs) == Ago(seconds / 2592000, "month"))
            && (31536000 <= seconds ==> TimeAgo(nowMs, dateMs) == Ago(seconds / 31536000, "year"))
  {
    var seconds := (nowMs - dateMs) / 1000;
    assert PickUnit(seconds, 5) == JustNow;
  }

  /** Only a count of one reads as singular: the text ends with the plural
      unit exactly when the count is not one. */
  lemma RenderPlural(unit: string, count: nat)
    ensures EndsWith(Render(Ago(count, unit)), unit + "s ago") <==> count != 1
  {
    var t := Render(Ago(count, unit));
    if count == 1 {
      assert NatToString(1) == "1";
      assert t == "1" + (" " + unit + " ago");
      assert t[|t| - |unit + "s ago"|..] == " " + unit + " ago";
      SingularIsNotPlural(unit);
    } else {
      assert t == (NatToString(count) + " ") + (unit + "s ago");
    }
  }

  /** The singular tail has one more space than the plural one. */
  lemma SingularIsNotPlural(unit: string)
    ensures " " + unit + " ago" != unit + "s ago"
  {
    assert multiset(" " + unit + " ago")[' '] == multiset(unit)[' '] + 2;
    assert multiset(unit + "s ago")[' '] == multiset(unit)[' '] + 1;
  }

  /** How many digits `t` starts with. */
  function LeadingDigits(t: string): (n: nat)
    ensures n <= |t|
  {
    if |t| == 0 || !IsDigit(t[0]) then 0 else 1 + LeadingDigits(t[1..])
  }

  lemma {:induction false} DigitsThenSpace(d: string, rest: string)
    requires forall i :: 0 <= i < |d| ==> IsDigit(d[i])
    ensures LeadingDigits(d + " " + rest) == |d|
    decreases |d|
  {
    if |d| > 0 {
      assert (d + " " + rest)[1..] == d[1..] + " " + rest;
      DigitsThenSpace(d[1..], rest);
    }
  }

  /** Different elapsed times never render to the same text, so the text
      determines the count and the unit. */
  lemma RenderInjective(a: Elapsed, b: Elapsed)
    requires Render(a) == Render(b)
    ensures a == b
  {
    RenderStart(a);
    RenderStart(b);
    if a.Ago? && b.Ago? {
      AgoInjective(a.count, a.unit, b.count, b.unit);
    }
  }

  lemma AgoInjective(c1: nat, u1: string, c2: nat, u2: string)
    requires Render(Ago(c1, u1)) == Render(Ago(c2, u2))
    ensures c1 == c2 && u1 == u2
  {
    var d1, d2 := NatToString(c1), NatToString(c2);
    var rest1: string := u1 + (if c1 != 1 then "s" else "") + " ago";
    var rest2: string := u2 + (if c2 != 1 then "s" else "") + " ago";
    var t := Render(Ago(c1, u1));
    assert t == d1 + " " + rest1;
    assert t == d2 + " " + rest2;
    DigitsThenSpace(d1, rest1);
    DigitsThenSpace(d2, rest2);
    assert d1 == t[..|d1|] == d2;
    NatToStringInjective(c1, c2);
    assert rest1 == t[|d1| + 1..] == rest2;
    assert u1 == rest1[..|u1|];
  }

  /** Only a count starts with a digit. */
  lemma RenderStart(e: Elapsed)
    ensures |Render(e)| > 0
    ensures e.Ago? <==> IsDigit(Render(e)[0])
  {
    if e.Ago? {
      assert Render(e)[0] == NatToString(e.count)[0];
    }
  }

  // ---------------------------------------------------------------------
  // The tab in the address

  const ValidTabs: seq<string> := ["status", "logs", "destinations", "settings"]
  const DefaultTab: string := "status"

  /** `getInitialTab()`: `location.hash` without its `#`, when it names a
      tab. */
  function InitialTab(hash: string): (tab: string)
    ensures tab in ValidTabs
    ensures |hash| > 0 && hash[1..] in ValidTabs ==> tab == hash[1..]
    ensures (|hash| == 0 || hash[1..] !in ValidTabs) ==> tab == DefaultTab
  {
    var name := if |hash| > 0 then hash[1..] else "";
    if name in ValidTabs then name else DefaultTab
  }

  /** A tab's own address opens it. */
  lemma TabAddressOpensTab(tab: string)
    requires tab in ValidTabs
    ensures InitialTab("#" + tab) == tab
  {
    assert ("#" + tab)[1..] == tab;
  }

  // ---------------------------------------------------------------------
  // The settings editor

  /** The copying loop of `updateSetting` below one object: each level on
      the path is replaced by a shallow copy of what was there (`{}` for
      nothing), and the last key receives the value. */
  function SetPath(m: map<string, Json>, keys: seq<string>, value: Json): (r: map<string, Json>)
    requires |keys| >= 1
    decreases |keys|
    ensures r.Keys == m.Keys + {keys[0]}
    ensures forall k :: k in m && k != keys[0] ==> r[k] == m[k]
  {
    if |keys| == 1 then m[keys[0] := value]
    else
      var below := if keys[0] in m then Spread(m[keys[0]]) else map[];
      m[keys[0] := Obj(SetPath(below, keys[1..], value))]
  }

  /** `updateSetting(path, value)` on the previous settings. */
  function UpdateSetting(prev: Json, path: string, value: Json): (r: Json)
    ensures r.Obj?
  {
    Obj(SetPath(Spread(prev), Split(path, '.'), value))
  }

  /** A path diverges from `keys` when it leaves it before either ends. */
  predicate Diverges(keys: seq<string>, other: seq<string>) {
    |keys| > 0 && |other| > 0 && (keys[0] != other[0] || Diverges(keys[1..], other[1..]))
  }

  /** A shallow copy reads like the original. */
  lemma CopyReadsLikeOriginal(v: Json, path: seq<string>)
    requires |path| >= 1
    ensures GetPath(Obj(Spread(v)), path) == GetPath(v, path)
  {
    assert path == [path[0]] + path[1..];
    GetPathStep(Obj(Spread(v)), path[0], path[1..]);
    GetPathStep(v, path[0], path[1..]);
  }

  /** The value is found at the path afterwards. */
  lemma {:induction false} SetPathReadsBack(m: map<string, Json>, keys: seq<string>, value: Json)
    requires |keys| >= 1
    decreases |keys|
    ensures GetPath(Obj(SetPath(m, keys, value)), keys) == Some(value)
  {
    var r := SetPath(m, keys, value);
    assert keys == [keys[0]] + keys[1..];
    GetPathStep(Obj(r), keys[0], keys[1..]);
    if |keys| == 1 {
      assert GetPath(value, []) == Some(value);
    } else {
      var below := if keys[0] in m then Spread(m[keys[0]]) else map[];
      SetPathReadsBack(below, keys[1..], value);
    }
  }

  /** Every path that leaves the edited one before it ends reads as
      before. */
  lemma {:induction false} SetPathKeepsOthers(m: map<string, Json>, keys: seq<string>, value: Json,
                                              other: seq<string>)
    requires |keys| >= 1 && Diverges(keys, other)
    decreases |keys|
    ensures GetPath(Obj(SetPath(m, keys, value)), other) == GetPath(Obj(m), other)
  {
    var r := SetPath(m, keys, value);
    assert other == [other[0]] + other[1..];
    GetPathStep(Obj(r), other[0], other[1..]);
    GetPathStep(Obj(m), other[0], other[1..]);
    if keys[0] == other[0] {
      var below := if keys[0] in m then Spread(m[keys[0]]) else map[];
      SetPathKeepsOthers(below, keys[1..], value, other[1..]);
      if keys[0] in m {
        CopyReadsLikeOriginal(m[keys[0]], other[1..]);
      } else {
        assert other[1..] == [other[1]] + other[2..];
        GetPathStep(Obj(map[]), other[1], other[2..]);
      }
    }
  }

  /** `updateSetting` stores the value under its dotted path and leaves
      every setting off that path as it was. */
  lemma UpdateSettingReadsBack(prev: Json, path: string, value: Json, other: seq<string>)
    requires Diverges(Split(path, '.'), other)
    ensures GetPath(UpdateSetting(prev, path, value), Split(path, '.')) == Some(value)
    ensures GetPath(UpdateSetting(prev, path, value), other) == GetPath(prev, other)
  {
    SetPathReadsBack(Spread(prev), Split(path, '.'), value);
    SetPathKeepsOthers(Spread(prev), Split(path, '.'), value, other);
    CopyReadsLikeOriginal(prev, other);
  }

  // ---------------------------------------------------------------------
  // Expanded rows

  /** `toggleFileExpanded(id)`. */
  function Toggle(expanded: set<Json>, id: Json): (r: set<Json>)
    ensures id in r <==> id !in expanded
    ensures forall x :: x != id ==> (x in r <==> x in expanded)
  {
    if id in expanded then expanded - {id} else expanded + {id}
  }

  /** Toggling a row twice leaves the set of expanded rows as it was. */
  lemma ToggleTwice(expanded: set<Json>, id: Json)
    ensures Toggle(Toggle(expanded, id), id) == expanded
  {
  }
}
