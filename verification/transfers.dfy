/** The web server's in-memory transfer status (active transfers, the 50
    most recent finished ones and the counters), the limit rule of the
    upload-log endpoint and the service check of the Google sign-in route.
    Clock readings are inputs. */
module Transfers {
  import opened Common
  import opened Json
  import opened UploadLog

  const RecentCap: nat := 50
  const InProgress: string := "in-progress"
  const Completed: string := "completed"
  const FailedStatus: string := "failed"

  datatype Stats = Stats(totalUploads: nat, successfulUploads: nat, failedUploads: nat, lastUploadTime: Option<string>)

  /** `transferStatus`; transfers are the objects the server builds. */
  datatype TransferStatus = TransferStatus(active: seq<Json>, recent: seq<Json>, stats: Stats)

  const Initial: TransferStatus := TransferStatus([], [], Stats(0, 0, 0, None))

  /** What every reachable status satisfies. */
  predicate Valid(s: TransferStatus) {
    && |s.recent| <= RecentCap
    && s.stats.totalUploads == s.stats.successfulUploads + s.stats.failedUploads
  }

  lemma InitialValid()
    ensures Valid(Initial)
  {
  }

  /** `{ id: Date.now(), ...transfer, startTime, status: 'in-progress' }`:
      an `id` in the transfer overrides the clock's, its `startTime` and
      `status` do not survive. */
  function NewTransfer(transfer: Json, nowMs: int, isoNow: string): (t: Json)
    ensures t.Obj?
    ensures "status" in t.fields && t.fields["status"] == Str(InProgress)
    ensures "startTime" in t.fields && t.fields["startTime"] == Str(isoNow)
    ensures "id" in t.fields
    ensures "id" in Spread(transfer) ==> t.fields["id"] == Spread(transfer)["id"]
    ensures "id" !in Spread(transfer) ==> t.fields["id"] == Num(nowMs)
    ensures forall k :: k in Spread(transfer) && k != "startTime" && k != "status" ==>
              k in t.fields && t.fields[k] == Spread(transfer)[k]
    ensures t.fields.Keys == Spread(transfer).Keys + {"id", "startTime", "status"}
  {
    Obj((map["id" := Num(nowMs)] + Spread(transfer))["startTime" := Str(isoNow)]["status" := Str(InProgress)])
  }

  /** `trackTransfer(transfer)`. */
  function TrackTransfer(s: TransferStatus, transfer: Json, nowMs: int, isoNow: string): (r: TransferStatus)
    ensures r.active == s.active + [NewTransfer(transfer, nowMs, isoNow)]
    ensures r.recent == s.recent && r.stats == s.stats
    ensures Valid(s) ==> Valid(r)
  {
    s.(active := s.active + [NewTransfer(transfer, nowMs, isoNow)])
  }

  predicate HasId(t: Json, id: Json) {
    Member(t, "id") == Some(id)
  }

  /** `active.findIndex((t) => t.id === id)`; ids are compared by value. */
  function FindIndex(active: seq<Json>, id: Json): (i: int)
    ensures -1 <= i < |active|
    ensures i >= 0 ==> HasId(active[i], id)
    ensures forall j :: 0 <= j < |active| && (i < 0 || j < i) ==> !HasId(active[j], id)
  {
    if |active| == 0 then -1
    else if HasId(active[0], id) then 0
    else var i := FindIndex(active[1..], id); if i < 0 then -1 else i + 1
  }

  /** `recent.unshift(t)` followed by a `pop()` once over the cap. */
  function PushRecent(recent: seq<Json>, t: Json): (r: seq<Json>)
    ensures |recent| <= RecentCap ==> |r| <= RecentCap
    ensures 0 < |r| <= |recent| + 1 && r[0] == t
    ensures |recent| < RecentCap ==> r == [t] + recent
    ensures forall i :: 1 <= i < |r| ==> r[i] == recent[i - 1]
  {
    var r := [t] + recent;
    if |r| > RecentCap then r[..|r| - 1] else r
  }

  /** `completeTransfer(id, success, result = {})`; `result` is `None` when
      the argument is `undefined`. The end time and `lastUploadTime` come from
      two separate reads of the clock, `isoEnd` and `isoLast`. */
  function CompleteTransfer(s: TransferStatus, id: Json, success: bool, result: Option<Json>,
                            isoEnd: string, isoLast: string)
    : (r: TransferStatus)
    ensures FindIndex(s.active, id) < 0 ==> r == s
    ensures FindIndex(s.active, id) >= 0 ==>
              var i := FindIndex(s.active, id);
              && r.active == s.active[..i] + s.active[i + 1..]
              && |r.recent| > 0
              && r.recent[0] == SetField(SetField(SetField(s.active[i],
                   "status", Str(if success then Completed else FailedStatus)),
                   "endTime", Str(isoEnd)),
                   "result", result.GetOr(Obj(map[])))
              && r.stats.totalUploads == s.stats.totalUploads + 1
              && r.stats.successfulUploads == s.stats.successfulUploads + (if success then 1 else 0)
              && r.stats.failedUploads == s.stats.failedUploads + (if success then 0 else 1)
              && r.stats.lastUploadTime == Some(isoLast)
    ensures Valid(s) ==> Valid(r)
  {
    var i := FindIndex(s.active, id);
    if i < 0 then s
    else
      var t := s.active[i];
      var done := SetField(SetField(SetField(t,
                    "status", Str(if success then Completed else FailedStatus)),
                    "endTime", Str(isoEnd)),
                    "result", result.GetOr(Obj(map[])));
      var stats := Stats(
        s.stats.totalUploads + 1,
        s.stats.successfulUploads + (if success then 1 else 0),
        s.stats.failedUploads + (if success then 0 else 1),
        Some(isoLast));
      TransferStatus(s.active[..i] + s.active[i + 1..], PushRecent(s.recent, done), stats)
  }

  /** A transfer tracked under an id no active transfer has, then
      completed: the active list is back where it was and the transfer
      heads the recent list with its final status. */
  lemma TrackThenComplete(s: TransferStatus, transfer: Json, nowMs: int, isoStart: string,
                          success: bool, isoEnd: string, isoLast: string)
    requires forall j :: 0 <= j < |s.active| ==> !HasId(s.active[j], Num(nowMs))
    requires "id" !in Spread(transfer)
    ensures var t := TrackTransfer(s, transfer, nowMs, isoStart);
            var r := CompleteTransfer(t, Num(nowMs), success, None, isoEnd, isoLast);
            && r.active == s.active
            && Member(r.recent[0], "status") == Some(Str(if success then Completed else FailedStatus))
            && Member(r.recent[0], "id") == Some(Num(nowMs))
            && r.stats.totalUploads == s.stats.totalUploads + 1
  {
    var t := TrackTransfer(s, transfer, nowMs, isoStart);
    var entry := NewTransfer(transfer, nowMs, isoStart);
    assert t.active[|s.active|] == entry;
    assert HasId(entry, Num(nowMs));
    assert forall j :: 0 <= j < |s.active| ==> t.active[j] == s.active[j];
    assert FindIndex(t.active, Num(nowMs)) == |s.active| by {
      FindIndexAt(t.active, Num(nowMs), |s.active|);
    }
    assert t.active[..|s.active|] + t.active[|s.active| + 1..] == s.active;
  }

  lemma FindIndexAt(active: seq<Json>, id: Json, i: nat)
    requires i < |active| && HasId(active[i], id)
    requires forall j :: 0 <= j < i ==> !HasId(active[j], id)
    ensures FindIndex(active, id) == i
  {
    if i > 0 {
      FindIndexAt(active[1..], id, i - 1);
    }
  }

  /** A completion keeps the status valid: one transfer leaves the active
      list, and the recent list grows by one or, at the cap, drops its
      oldest entry. */
  lemma CompletionsAreCounted(s: TransferStatus, id: Json, success: bool, result: Option<Json>,
                              isoEnd: string, isoLast: string)
    requires Valid(s) && FindIndex(s.active, id) >= 0
    ensures var r := CompleteTransfer(s, id, success, result, isoEnd, isoLast);
            && Valid(r)
            && |r.active| == |s.active| - 1
            && (|s.recent| < RecentCap ==> |r.recent| == |s.recent| + 1)
            && (|s.recent| == RecentCap ==> |r.recent| == RecentCap && r.recent[1..] == s.recent[..RecentCap - 1])
  {
    var r := CompleteTransfer(s, id, success, result, isoEnd, isoLast);
    if |s.recent| == RecentCap {
      assert forall i :: 1 <= i < |r.recent| ==> r.recent[i] == s.recent[i - 1];
      assert r.recent[1..] == s.recent[..RecentCap - 1];
    }
  }

  // ---------------------------------------------------------------------
  // The upload-log endpoint

  predicate IsHexDigit(c: char) {
    IsDigit(c) || ('a' <= c <= 'f') || ('A' <= c <= 'F')
  }

  function DigitIn(c: char, radix: nat): (d: nat)
    requires radix == 10 || radix == 16
  {
    if IsDigit(c) then c as int - '0' as int
    else if radix == 16 && 'a' <= c <= 'f' then c as int - 'a' as int + 10
    else if radix == 16 && 'A' <= c <= 'F' then c as int - 'A' as int + 10
    else radix
  }

  /** The longest prefix of `s` made of digits of `radix`. */
  function DigitPrefix(s: string, radix: nat): (n: nat)
    requires radix == 10 || radix == 16
    ensures n <= |s|
  {
    if |s| == 0 || DigitIn(s[0], radix) >= radix then 0 else 1 + DigitPrefix(s[1..], radix)
  }

  /** The prefix is all digits and stops at the first character that is
      not one. */
  lemma {:induction false} DigitPrefixIsLongest(s: string, radix: nat)
    requires radix == 10 || radix == 16
    ensures var n := DigitPrefix(s, radix);
            && (forall i :: 0 <= i < n ==> DigitIn(s[i], radix) < radix)
            && (n < |s| ==> DigitIn(s[n], radix) >= radix)
  {
    if |s| > 0 && DigitIn(s[0], radix) < radix {
      DigitPrefixIsLongest(s[1..], radix);
      var n := DigitPrefix(s, radix);
      forall i | 1 <= i < n
        ensures DigitIn(s[i], radix) < radix
      {
        assert s[i] == s[1..][i - 1];
      }
    }
  }

  /** The value of a run of digits of `radix`, most significant first. */
  function ValueIn(s: string, radix: nat): nat
    requires radix == 10 || radix == 16
  {
    if |s| == 0 then 0 else ValueIn(s[..|s| - 1], radix) * radix + DigitIn(s[|s| - 1], radix)
  }

  /** The digits after the sign: a `0x` prefix selects hexadecimal, then
      as many digits as there are; `None` when there are none. */
  function ParseUnsigned(u: string): Option<nat> {
    var hex := |u| >= 2 && u[0] == '0' && (u[1] == 'x' || u[1] == 'X');
    var radix := if hex then 16 else 10;
    var body := if hex then u[2..] else u;
    var n := DigitPrefix(body, radix);
    if n == 0 then None else Some(ValueIn(body[..n], radix))
  }

  /** `parseInt(s)` without a radix: leading white space, an optional
      sign, then the digits; `None` is `NaN`. */
  function ParseIntJs(s: string): Option<int> {
    var t := TrimStart(s);
    var signed := |t| > 0 && (t[0] == '-' || t[0] == '+');
    var sign := if |t| > 0 && t[0] == '-' then -1 else 1;
    match ParseUnsigned(if signed then t[1..] else t)
    case None => None
    case Some(v) => Some(sign * v)
  }

  lemma {:induction false} ValueInDecimal(s: string)
    requires forall i :: 0 <= i < |s| ==> IsDigit(s[i])
    ensures ValueIn(s, 10) == ParseNat(s)
  {
    if |s| > 0 {
      ValueInDecimal(s[..|s| - 1]);
    }
  }

  lemma {:induction false} DecimalPrefixIsWhole(s: string)
    requires forall i :: 0 <= i < |s| ==> IsDigit(s[i])
    ensures DigitPrefix(s, 10) == |s|
  {
    if |s| > 0 {
      DecimalPrefixIsWhole(s[1..]);
    }
  }

  lemma ParseUnsignedDecimal(s: string)
    requires |s| > 0 && forall i :: 0 <= i < |s| ==> IsDigit(s[i])
    ensures ParseUnsigned(s) == Some(ParseNat(s))
  {
    assert !(|s| >= 2 && s[0] == '0' && (s[1] == 'x' || s[1] == 'X'));
    DecimalPrefixIsWhole(s);
    ValueInDecimal(s);
    assert s[..|s|] == s;
  }

  /** Text that does not start with white space is read from its first
      character on. */
  lemma NoLeadingSpace(t: string)
    requires |t| > 0 && (t[0] == '-' || IsDigit(t[0]))
    ensures TrimStart(t) == t
  {
    assert !IsJsSpace(t[0]);
  }

  /** Text read from its first character on, starting with a minus sign,
      is the negated number after the sign. */
  lemma ParseMinus(t: string, v: nat)
    requires |t| > 0 && t[0] == '-' && TrimStart(t) == t
    requires ParseUnsigned(t[1..]) == Some(v)
    ensures ParseIntJs(t) == Some(-(v as int))
  {
  }

  /** Text read from its first character on, starting with a digit, is
      the number it starts with. */
  lemma ParseUnsignedStart(t: string, v: nat)
    requires |t| > 0 && IsDigit(t[0]) && TrimStart(t) == t
    requires ParseUnsigned(t) == Some(v)
    ensures ParseIntJs(t) == Some(v as int)
  {
    assert t[0] != '-' && t[0] != '+';
  }

  /** The digits of `n` read back as `n`. */
  lemma ParsePositive(n: nat)
    ensures ParseIntJs(NatToString(n)) == Some(n as int)
  {
    var s := NatToString(n);
    ParseNatToString(n);
    ParseUnsignedDecimal(s);
    NoLeadingSpace(s);
    ParseUnsignedStart(s, n);
  }

  /** What follows a minus sign reads as the decimal digits it is. */
  lemma AfterSign(s: string)
    requires |s| > 0 && forall i :: 0 <= i < |s| ==> IsDigit(s[i])
    ensures ParseUnsigned(("-" + s)[1..]) == Some(ParseNat(s))
  {
    assert ("-" + s)[1..] == s;
    ParseUnsignedDecimal(s);
  }

  /** A minus sign before the digits of `n` reads back as `-n`. */
  lemma ParseNegative(n: nat)
    ensures ParseIntJs("-" + NatToString(n)) == Some(-(n as int))
  {
    var s := NatToString(n);
    ParseNatToString(n);
    AfterSign(s);
    NoLeadingSpace("-" + s);
    ParseMinus("-" + s, n);
  }

  /** `parseInt` reads back every integer `String` writes. */
  lemma ParseIntReadsIntToString(i: int)
    ensures ParseIntJs(IntToString(i)) == Some(i)
  {
    var m: nat := if i < 0 then -i else i;
    ParseNatToString(m);
    if i < 0 {
      ParseNegative(m);
    } else {
      ParsePositive(m);
    }
  }

  /** Text without a leading digit, sign or white space is `NaN`. */
  lemma NotANumber(s: string)
    requires |s| > 0 && !IsDigit(s[0]) && !IsJsSpace(s[0]) && s[0] != '-' && s[0] != '+'
    ensures ParseIntJs(s).None?
  {
  }

  /** `parseInt(req.query.limit) || 100`: `NaN` and `0` fall back. */
  function LogsLimit(query: Option<string>): (limit: int)
    ensures limit != 0
    ensures query.None? ==> limit == DefaultLimit
  {
    match query
    case None => DefaultLimit
    case Some(q) =>
      match ParseIntJs(q)
      case None => DefaultLimit
      case Some(n) => if n == 0 then DefaultLimit else n
  }

  /** A limit written as an integer is taken at its value, except `0`,
      which falls back to the default. */
  lemma LimitReadsQuery(n: int)
    ensures LogsLimit(Some(IntToString(n))) == (if n == 0 then DefaultLimit else n)
  {
    ParseIntReadsIntToString(n);
  }

  datatype Response = Ok200(body: seq<Json>) | Status(code: nat, error: string)

  /** `GET /api/logs`: the newest records of the upload log, up to the
      limit; a missing file is an empty list, any other failure a 500. */
  function GetLogs(f: FileState, query: Option<string>, codec: Codec): (r: Response)
    ensures f.Missing? ==> r == Ok200([])
    ensures ReadLog(f, codec).Err? ==> r == Status(500, ReadLog(f, codec).message)
    ensures ReadLog(f, codec).Ok? ==> r == Ok200(Newest(ReadLog(f, codec).value, LogsLimit(query)))
  {
    match ReadLog(f, codec)
    case Err(m) => Status(500, m)
    case Ok(logs) => Ok200(Newest(logs, LogsLimit(query)))
  }

  /** Without a usable limit the endpoint returns the 100 newest records. */
  lemma LogsDefaultToHundred(f: FileState, codec: Codec, logs: seq<Json>)
    requires ReadLog(f, codec) == Ok(logs)
    ensures var r := GetLogs(f, None, codec);
            && r.Ok200?
            && |r.body| == (if |logs| < 100 then |logs| else 100)
            && forall i :: 0 <= i < |r.body| ==> r.body[i] == logs[|logs| - 1 - i]
  {
  }

  // ---------------------------------------------------------------------
  // The Google sign-in route

  const InvalidService: string := "Invalid service"

  /** `GET /api/auth/google/:service/start`: which destination's
      credentials are used, or the 400 for any other service. */
  function AuthStartService(service: string): (r: Result<string>)
    ensures r.Ok? <==> service == "drive" || service == "photos"
    ensures service == "drive" ==> r == Ok("googleDrive")
    ensures service == "photos" ==> r == Ok("googlePhotos")
    ensures r.Err? ==> r.message == InvalidService
  {
    if service == "drive" then Ok("googleDrive")
    else if service == "photos" then Ok("googlePhotos")
    else Err(InvalidService)
  }
}
