/** The upload history: two append-only JSON Lines files, one record per
    received file and one per destination upload, and the queries the web
    interface runs over them. `JSON.stringify` and `JSON.parse` are a codec
    passed in as a parameter; the model only asks that parsing undoes
    encoding and that an encoded value is one trimmed line. */
module UploadLog {
  import opened Common
  import opened Json

  const DefaultLimit: int := 100

  /** The message of the `SyntaxError` raised by `JSON.parse`. */
  const SyntaxErrorMessage: string := "Unexpected token in JSON"

  datatype Codec = Codec(encode: Json -> string, parse: string -> Option<Json>)

  ghost predicate Sound(c: Codec) {
    forall v :: WellFormedLine(c.encode(v)) && c.parse(c.encode(v)) == Some(v)
  }

  /** Sets `key` only for a defined value: `JSON.stringify` drops properties
      whose value is `undefined` (here `None`). */
  function Put(m: map<string, Json>, key: string, v: Option<Json>): map<string, Json> {
    if v.Some? then m[key := v.value] else m
  }

  /** `{key}` when the property is written, otherwise nothing. */
  function KeyIf(present: bool, key: string): set<string> {
    if present then {key} else {}
  }

  function StrOpt(s: Option<string>): Option<Json> {
    if s.Some? then Some(Str(s.value)) else None
  }

  // ---------------------------------------------------------------------
  // Records

  /** What `logFileReceived` writes; `fileDate` is `date?.toISOString()`. */
  datatype ReceivedRecord = ReceivedRecord(
    id: string, timestamp: string,
    filename: Option<Json>, size: Option<Json>, mimeType: Option<Json>,
    fileDate: Option<string>)

  function ReceivedJson(r: ReceivedRecord): (j: Json)
    ensures j.Obj?
    ensures Member(j, "type") == Some(Str("received"))
    ensures Member(j, "id") == Some(Str(r.id))
    ensures Member(j, "timestamp") == Some(Str(r.timestamp))
    ensures Member(j, "destinations") == Some(Arr([]))
    ensures Member(j, "filename") == r.filename
    ensures Member(j, "size") == r.size
    ensures Member(j, "mimeType") == r.mimeType
    ensures Member(j, "fileDate") == StrOpt(r.fileDate)
    ensures j.fields.Keys == {"type", "id", "timestamp", "destinations"} + KeyIf(r.filename.Some?, "filename")
                             + KeyIf(r.size.Some?, "size") + KeyIf(r.mimeType.Some?, "mimeType")
                             + KeyIf(r.fileDate.Some?, "fileDate")
  {
    var m := ReceivedFields(r);
    ReceivedFieldsKeys(r);
    assert Spread(Obj(m)) == m;
    Obj(m)
  }

  /** The properties of a received record, as a map. */
  function ReceivedFields(r: ReceivedRecord): (m: map<string, Json>)
    ensures "type" in m && m["type"] == Str("received")
    ensures "id" in m && m["id"] == Str(r.id)
    ensures "timestamp" in m && m["timestamp"] == Str(r.timestamp)
    ensures "destinations" in m && m["destinations"] == Arr([])
    ensures ("filename" in m) == r.filename.Some? && ("filename" in m ==> m["filename"] == r.filename.value)
    ensures ("size" in m) == r.size.Some? && ("size" in m ==> m["size"] == r.size.value)
    ensures ("mimeType" in m) == r.mimeType.Some? && ("mimeType" in m ==> m["mimeType"] == r.mimeType.value)
    ensures ("fileDate" in m) == r.fileDate.Some? && ("fileDate" in m ==> m["fileDate"] == Str(r.fileDate.value))
  {
    var fixed := map[
      "type" := Str("received"), "id" := Str(r.id),
      "timestamp" := Str(r.timestamp), "destinations" := Arr([])];
    Put(Put(Put(Put(fixed, "filename", r.filename), "size", r.size),
      "mimeType", r.mimeType), "fileDate", StrOpt(r.fileDate))
  }

  /** What `logDestinationUpload` writes. */
  datatype DestinationRecord = DestinationRecord(
    receivedId: Option<Json>, timestamp: string, filename: Option<Json>,
    destination: string, success: bool,
    result: Option<Json>, error: Option<string>, duration: int)

  function DestinationJson(r: DestinationRecord): (j: Json)
    ensures j.Obj?
    ensures Member(j, "type") == Some(Str("destination"))
    ensures Member(j, "receivedId") == r.receivedId
    ensures Member(j, "timestamp") == Some(Str(r.timestamp))
    ensures Member(j, "filename") == r.filename
    ensures Member(j, "destination") == Some(Str(r.destination))
    ensures Member(j, "success") == Some(Bool(r.success))
    ensures Member(j, "result") == r.result
    ensures Member(j, "error") == StrOpt(r.error)
    ensures Member(j, "duration") == Some(Num(r.duration))
    ensures j.fields.Keys == {"type", "timestamp", "destination", "success", "duration"}
                             + KeyIf(r.receivedId.Some?, "receivedId") + KeyIf(r.filename.Some?, "filename")
                             + KeyIf(r.result.Some?, "result") + KeyIf(r.error.Some?, "error")
  {
    var m := DestinationFields(r);
    DestinationFieldsKeys(r);
    assert Spread(Obj(m)) == m;
    Obj(m)
  }

  /** The properties of a destination record, as a map. */
  function DestinationFields(r: DestinationRecord): (m: map<string, Json>)
    ensures "type" in m && m["type"] == Str("destination")
    ensures ("receivedId" in m) == r.receivedId.Some? && ("receivedId" in m ==> m["receivedId"] == r.receivedId.value)
    ensures "timestamp" in m && m["timestamp"] == Str(r.timestamp)
    ensures ("filename" in m) == r.filename.Some? && ("filename" in m ==> m["filename"] == r.filename.value)
    ensures "destination" in m && m["destination"] == Str(r.destination)
    ensures "success" in m && m["success"] == Bool(r.success)
    ensures ("result" in m) == r.result.Some? && ("result" in m ==> m["result"] == r.result.value)
    ensures ("error" in m) == r.error.Some? && ("error" in m ==> m["error"] == Str(r.error.value))
    ensures "duration" in m && m["duration"] == Num(r.duration)
  {
    var fixed := map[
      "type" := Str("destination"), "timestamp" := Str(r.timestamp),
      "destination" := Str(r.destination), "success" := Bool(r.success),
      "duration" := Num(r.duration)];
    Put(Put(Put(Put(fixed, "receivedId", r.receivedId), "filename", r.filename),
      "result", r.result), "error", StrOpt(r.error))
  }

  /** A received record has the fixed properties and the defined optional
      ones, and no others. */
  lemma ReceivedFieldsKeys(r: ReceivedRecord)
    ensures ReceivedFields(r).Keys == {"type", "id", "timestamp", "destinations"} + KeyIf(r.filename.Some?, "filename")
                                      + KeyIf(r.size.Some?, "size") + KeyIf(r.mimeType.Some?, "mimeType")
                                      + KeyIf(r.fileDate.Some?, "fileDate")
  {
    var fixed := map[
      "type" := Str("received"), "id" := Str(r.id),
      "timestamp" := Str(r.timestamp), "destinations" := Arr([])];
    var m1 := Put(fixed, "filename", r.filename);
    var m2 := Put(m1, "size", r.size);
    var m3 := Put(m2, "mimeType", r.mimeType);
    PutKeys(fixed, "filename", r.filename);
    PutKeys(m1, "size", r.size);
    PutKeys(m2, "mimeType", r.mimeType);
    PutKeys(m3, "fileDate", StrOpt(r.fileDate));
  }

  /** A destination record has the fixed properties and the defined
      optional ones, and no others. */
  lemma DestinationFieldsKeys(r: DestinationRecord)
    ensures DestinationFields(r).Keys == {"type", "timestamp", "destination", "success", "duration"}
                                         + KeyIf(r.receivedId.Some?, "receivedId") + KeyIf(r.filename.Some?, "filename")
                                         + KeyIf(r.result.Some?, "result") + KeyIf(r.error.Some?, "error")
  {
    var fixed := map[
      "type" := Str("destination"), "timestamp" := Str(r.timestamp),
      "destination" := Str(r.destination), "success" := Bool(r.success),
      "duration" := Num(r.duration)];
    var m1 := Put(fixed, "receivedId", r.receivedId);
    var m2 := Put(m1, "filename", r.filename);
    var m3 := Put(m2, "result", r.result);
    PutKeys(fixed, "receivedId", r.receivedId);
    PutKeys(m1, "filename", r.filename);
    PutKeys(m2, "result", r.result);
    PutKeys(m3, "error", StrOpt(r.error));
  }

  lemma PutKeys(m: map<string, Json>, key: string, v: Option<Json>)
    ensures Put(m, key, v).Keys == m.Keys + KeyIf(v.Some?, key)
  {
  }

  // ---------------------------------------------------------------------
  // Writing

  /** `fs.appendFile(path, line + '\n')`: creates a missing file. */
  function AppendLine(f: FileState, line: string): (r: Result<FileState>)
    ensures f.Unreadable? <==> r.Err?
    ensures f.Missing? ==> r == Ok(Content(line + "\n"))
    ensures f.Content? ==> r == Ok(Content(f.text + line + "\n"))
  {
    match f
    case Missing => Ok(Content(line + "\n"))
    case Content(t) => Ok(Content(t + line + "\n"))
    case Unreadable(m) => Err(m)
  }

  /** `logFileReceived`: appends the record and answers its id. */
  function LogFileReceived(f: FileState, rec: ReceivedRecord, codec: Codec): (r: Result<(string, FileState)>)
    ensures r.Ok? <==> !f.Unreadable?
    ensures r.Ok? ==> r.value.0 == rec.id
  {
    match AppendLine(f, codec.encode(ReceivedJson(rec)))
    case Ok(g) => Ok((rec.id, g))
    case Err(m) => Err(m)
  }

  function LogDestinationUpload(f: FileState, rec: DestinationRecord, codec: Codec): (r: Result<FileState>)
    ensures r.Ok? <==> !f.Unreadable?
  {
    AppendLine(f, codec.encode(DestinationJson(rec)))
  }

  // ---------------------------------------------------------------------
  // Reading

  function ParseLines(lines: seq<string>, parse: string -> Option<Json>): (r: Option<seq<Json>>)
    ensures r.Some? ==> |r.value| == |lines|
    ensures r.Some? ==> forall i :: 0 <= i < |lines| ==> parse(lines[i]) == Some(r.value[i])
    ensures r.None? <==> exists i :: 0 <= i < |lines| && parse(lines[i]).None?
  {
    if |lines| == 0 then Some([])
    else
      match parse(lines[0])
      case None => None
      case Some(v) =>
        var rest := ParseLines(lines[1..], parse);
        if rest.None? then
          var i :| 0 <= i < |lines[1..]| && parse(lines[1..][i]).None?;
          assert parse(lines[i + 1]).None?;
          None
        else Some([v] + rest.value)
  }

  /** Reads a whole log: a missing file is an empty log, blank lines are
      skipped, and any other read error or an unparsable line is raised. */
  function ReadLog(f: FileState, codec: Codec): (r: Result<seq<Json>>)
    ensures f.Missing? ==> r == Ok([])
    ensures f.Unreadable? ==> r == Err(f.message)
    ensures f.Content? && r.Ok? ==>
              var lines := ReadLines(f.text);
              |r.value| == |lines| && forall i :: 0 <= i < |lines| ==> codec.parse(lines[i]) == Some(r.value[i])
  {
    match f
    case Missing => Ok([])
    case Unreadable(m) => Err(m)
    case Content(t) =>
      match ParseLines(ReadLines(t), codec.parse)
      case None => Err(SyntaxErrorMessage)
      case Some(v) => Ok(v)
  }

  function EncodeAll(es: seq<Json>, encode: Json -> string): (lines: seq<string>)
    ensures |lines| == |es|
    ensures forall i :: 0 <= i < |es| ==> lines[i] == encode(es[i])
  {
    seq(|es|, i requires 0 <= i < |es| => encode(es[i]))
  }

  /** `f` is what logging the entries `es` in order produces. */
  predicate Holds(f: FileState, es: seq<Json>, codec: Codec) {
    (f.Missing? && es == []) || f == Content(Serialise(EncodeAll(es, codec.encode)))
  }

  /** Reading a log back gives exactly the entries written, in order. */
  lemma ReadWritten(f: FileState, es: seq<Json>, codec: Codec)
    requires Sound(codec) && Holds(f, es, codec)
    ensures ReadLog(f, codec) == Ok(es)
  {
    if f.Content? {
      var lines := EncodeAll(es, codec.encode);
      ReadSerialised(lines);
      var r := ParseLines(lines, codec.parse);
      assert forall i :: 0 <= i < |es| ==> codec.parse(lines[i]) == Some(es[i]);
      assert r.Some?;
      assert r.value == es;
    }
  }

  /** Appending an entry to a log keeps it in step with the entries. */
  lemma AppendHolds(f: FileState, es: seq<Json>, e: Json, codec: Codec)
    requires Holds(f, es, codec)
    ensures AppendLine(f, codec.encode(e)).Ok?
    ensures Holds(AppendLine(f, codec.encode(e)).value, es + [e], codec)
  {
    var lines := EncodeAll(es, codec.encode);
    assert EncodeAll(es + [e], codec.encode) == lines + [codec.encode(e)];
    SerialiseAppend(lines, codec.encode(e));
    if f.Missing? {
      assert lines == [];
      assert Serialise([codec.encode(e)]) == codec.encode(e) + "\n" + Serialise([]);
    }
  }

  /** The newest entries first, cut to `limit` as `slice(0, limit)` does
      (a negative limit counts from the end). */
  function Newest(logs: seq<Json>, limit: int): (r: seq<Json>)
    ensures |r| == SliceEnd(|logs|, limit)
    ensures 0 <= limit ==> |r| <= limit
    ensures 0 <= limit ==> |r| == if limit < |logs| then limit else |logs|
    ensures forall i :: 0 <= i < |r| ==> r[i] == logs[|logs| - 1 - i]
  {
    SliceTo(Reverse(logs), limit)
  }

  /** `getRecentReceived(limit)`. */
  function GetRecentReceived(f: FileState, limit: int, codec: Codec): (r: Result<seq<Json>>)
    ensures ReadLog(f, codec).Err? ==> r == ReadLog(f, codec)
    ensures ReadLog(f, codec).Ok? ==> r == Ok(Newest(ReadLog(f, codec).value, limit))
  {
    match ReadLog(f, codec)
    case Err(m) => Err(m)
    case Ok(logs) => Ok(Newest(logs, limit))
  }

  /** The `receivedId` an upload record carries (`None` when undefined). */
  function KeyOf(d: Json): Option<Json> {
    Member(d, "receivedId")
  }

  /** The positions in `s` of the records carrying `k`, ascending. */
  function KeyPositions(s: seq<Json>, k: Option<Json>): (p: seq<nat>)
    ensures forall j :: 0 <= j < |p| ==> p[j] < |s|
    ensures forall i, j :: 0 <= i < j < |p| ==> p[i] < p[j]
    ensures forall i :: 0 <= i < |s| ==> (i in p <==> KeyOf(s[i]) == k)
  {
    if |s| == 0 then []
    else
      var init := s[..|s| - 1];
      var p := KeyPositions(init, k);
      assert forall i :: 0 <= i < |init| ==> s[i] == init[i];
      p + (if KeyOf(s[|s| - 1]) == k then [|s| - 1] else [])
  }

  /** The records carrying `k`, in their original order. */
  function WithKey(s: seq<Json>, k: Option<Json>): (r: seq<Json>)
    ensures |r| <= |s|
    ensures forall x :: x in r <==> x in s && KeyOf(x) == k
  {
    if |s| == 0 then []
    else
      var init := s[..|s| - 1];
      var last := s[|s| - 1];
      assert s == init + [last];
      WithKey(init, k) + (if KeyOf(last) == k then [last] else [])
  }

  predicate Wanted(x: Json, receivedId: Json) {
    Truthy(receivedId) ==> KeyOf(x) == Some(receivedId)
  }

  /** What `getDestinationUploads` keeps of a log: newest first, only the
      records for `receivedId` when it is truthy, filtered before the
      limit is applied. */
  function UploadsFor(logs: seq<Json>, limit: int, receivedId: Json): (r: seq<Json>)
    ensures forall x :: x in r ==> x in logs && Wanted(x, receivedId)
    ensures limit >= |logs| ==> forall x :: x in logs && Wanted(x, receivedId) ==> x in r
    ensures 0 <= limit ==> |r| <= limit
    ensures !Truthy(receivedId) ==> r == Newest(logs, limit)
    ensures Truthy(receivedId) ==> r == Newest(WithKey(logs, Some(receivedId)), limit)
  {
    RevMembers(logs);
    WithKeyReverse(logs, Some(receivedId));
    var kept := if Truthy(receivedId) then WithKey(Reverse(logs), Some(receivedId)) else Reverse(logs);
    assert forall x :: x in kept <==> x in logs && Wanted(x, receivedId);
    SliceTo(kept, limit)
  }

  function GetDestinationUploads(f: FileState, limit: int, receivedId: Json, codec: Codec): (r: Result<seq<Json>>)
    ensures ReadLog(f, codec).Err? ==> r == ReadLog(f, codec)
    ensures ReadLog(f, codec).Ok? ==> r == Ok(UploadsFor(ReadLog(f, codec).value, limit, receivedId))
  {
    match ReadLog(f, codec)
    case Err(m) => Err(m)
    case Ok(logs) => Ok(UploadsFor(logs, limit, receivedId))
  }

  /** Filtering a prepended record keeps it in front exactly when it
      carries the key. */
  lemma {:induction false} WithKeyCons(x: Json, t: seq<Json>, k: Option<Json>)
    ensures WithKey([x] + t, k) == (if KeyOf(x) == k then [x] else []) + WithKey(t, k)
    decreases |t|
  {
    var head: seq<Json> := if KeyOf(x) == k then [x] else [];
    if |t| == 0 {
      assert [x] + t == [] + [x];
      WithKeySnoc([], x, k);
    } else {
      var init := t[..|t| - 1];
      var last := t[|t| - 1];
      var tail: seq<Json> := if KeyOf(last) == k then [last] else [];
      assert t == init + [last];
      calc {
        WithKey([x] + t, k);
        { assert [x] + t == ([x] + init) + [last]; WithKeySnoc([x] + init, last, k); }
        WithKey([x] + init, k) + tail;
        { WithKeyCons(x, init, k); }
        (head + WithKey(init, k)) + tail;
        head + (WithKey(init, k) + tail);
        { WithKeySnoc(init, last, k); }
        head + WithKey(t, k);
      }
    }
  }

  /** Filtering commutes with reversal, so reversing before or after the
      `receivedId` filter gives the same records. */
  lemma {:induction false} WithKeyReverse(s: seq<Json>, k: Option<Json>)
    ensures WithKey(Reverse(s), k) == Reverse(WithKey(s, k))
    decreases |s|
  {
    if |s| > 0 {
      var w := WithKey(s[1..], k);
      assert s == [s[0]] + s[1..];
      assert Reverse(s) == Reverse(s[1..]) + [s[0]];
      WithKeySnoc(Reverse(s[1..]), s[0], k);
      WithKeyReverse(s[1..], k);
      WithKeyCons(s[0], s[1..], k);
      if KeyOf(s[0]) == k {
        assert ([s[0]] + w)[1..] == w;
        assert Reverse([s[0]] + w) == Reverse(w) + [s[0]];
      } else {
        assert [] + w == w;
      }
    }
  }

  lemma RevMembers(s: seq<Json>)
    ensures forall x :: x in Reverse(s) <==> x in s
  {
    var r := Reverse(s);
    forall x | x in s ensures x in r {
      var i :| 0 <= i < |s| && s[i] == x;
      assert r[|s| - 1 - i] == x;
    }
  }

  /** One entry of `getCombinedLogs`: the received record with its
      `destinations` replaced by the upload records carrying its id. */
  function Combined(recv: Json, uploads: seq<Json>): Json {
    Attach(recv, WithKey(uploads, Member(recv, "id")))
  }

  /** A combined record is an object with the received record's own
      properties, except that `destinations` holds the uploads carrying its
      id. */
  lemma CombinedFields(recv: Json, uploads: seq<Json>)
    ensures Combined(recv, uploads).Obj?
    ensures Member(Combined(recv, uploads), "destinations") == Some(Arr(WithKey(uploads, Member(recv, "id"))))
    ensures forall k :: k != "destinations" ==> Member(Combined(recv, uploads), k) == Member(recv, k)
  {
  }

  /** A received record with `group` as its `destinations`. */
  function Attach(recv: Json, group: seq<Json>): Json {
    Obj(Spread(recv)["destinations" := Arr(group)])
  }

  lemma WithKeySnoc(s: seq<Json>, x: Json, k: Option<Json>)
    ensures WithKey(s + [x], k) == WithKey(s, k) + (if KeyOf(x) == k then [x] else [])
  {
    assert (s + [x])[..|s|] == s;
  }

  /** `WithKey` is an order-preserving filter: the `j`-th kept record is
      the one at the `j`-th matching position of `s`. */
  lemma {:induction false} WithKeyKeepsOrder(s: seq<Json>, k: Option<Json>)
    ensures |WithKey(s, k)| == |KeyPositions(s, k)|
    ensures forall j :: 0 <= j < |WithKey(s, k)| ==> WithKey(s, k)[j] == s[KeyPositions(s, k)[j]]
    decreases |s|
  {
    if |s| > 0 {
      var init := s[..|s| - 1];
      var last := s[|s| - 1];
      var w, p := WithKey(init, k), KeyPositions(init, k);
      var tail: seq<Json> := if KeyOf(last) == k then [last] else [];
      var ptail: seq<nat> := if KeyOf(last) == k then [|s| - 1] else [];
      assert WithKey(s, k) == w + tail;
      assert KeyPositions(s, k) == p + ptail;
      WithKeyKeepsOrder(init, k);
      forall j | 0 <= j < |w + tail| ensures (w + tail)[j] == s[(p + ptail)[j]] {
        if j < |w| {
          assert (p + ptail)[j] == p[j] < |init|;
          assert s[p[j]] == init[p[j]];
        }
      }
    }
  }

  lemma WithKeyEmpty(s: seq<Json>, k: Option<Json>)
    requires forall x :: x in s ==> KeyOf(x) != k
    ensures WithKey(s, k) == []
  {
  }

  /** One entry of the loop: the received record with the group its id
      finds in the `destinationMap`, or no uploads. */
  function Entry(g: map<Option<Json>, seq<Json>>, recv: Json): Json {
    var id := Member(recv, "id");
    Attach(recv, if id in g then g[id] else [])
  }

  /** With the groups of `dests`, each entry is the combined record. */
  lemma EntryIsCombined(g: map<Option<Json>, seq<Json>>, dests: seq<Json>, recv: Json)
    requires forall k :: k in g <==> exists d :: d in dests && KeyOf(d) == k
    requires forall k :: k in g ==> g[k] == WithKey(dests, k)
    ensures Entry(g, recv) == Combined(recv, dests)
  {
    var k := Member(recv, "id");
    if k !in g {
      WithKeyEmpty(dests, k);
    }
  }

  /** The `destinationMap` of `getCombinedLogs`: upload records grouped by
      `receivedId`, one group per id that occurs, each group in the order
      of `dests`. */
  method GroupByReceivedId(dests: seq<Json>) returns (g: map<Option<Json>, seq<Json>>)
    ensures forall k :: k in g <==> exists d :: d in dests && KeyOf(d) == k
    ensures forall k :: k in g ==> g[k] == WithKey(dests, k)
  {
    g := map[];
    var i := 0;
    while i < |dests|
      invariant 0 <= i <= |dests|
      invariant forall k :: k in g <==> WithKey(dests[..i], k) != []
      invariant forall k :: k in g ==> g[k] == WithKey(dests[..i], k)
    {
      var d := dests[i];
      var k := KeyOf(d);
      assert dests[..i + 1] == dests[..i] + [d];
      forall k' ensures WithKey(dests[..i + 1], k') == WithKey(dests[..i], k') + (if KeyOf(d) == k' then [d] else []) {
        WithKeySnoc(dests[..i], d, k');
      }
      g := g[k := (if k in g then g[k] else []) + [d]];
      i := i + 1;
    }
    assert dests[..|dests|] == dests;
    forall k ensures k in g <==> exists d :: d in dests && KeyOf(d) == k {
      var w := WithKey(dests, k);
      if w != [] {
        assert w[0] in w;
      }
    }
  }

  /** `getCombinedLogs(limit)`: the newest `limit` received records, each
      with the uploads carrying its id among the newest `3 * limit` upload
      records. */
  method GetCombinedLogs(received: FileState, uploads: FileState, limit: int, codec: Codec)
    returns (r: Result<seq<Json>>)
    ensures GetRecentReceived(received, limit, codec).Err? ==> r.Err?
    ensures (GetRecentReceived(received, limit, codec).Ok? &&
             GetDestinationUploads(uploads, limit * 3, Null, codec).Err?) ==> r.Err?
    ensures (GetRecentReceived(received, limit, codec).Ok? &&
             GetDestinationUploads(uploads, limit * 3, Null, codec).Ok?) ==>
              var recv := GetRecentReceived(received, limit, codec).value;
              var dests := GetDestinationUploads(uploads, limit * 3, Null, codec).value;
              r.Ok? && |r.value| == |recv| &&
              forall i :: 0 <= i < |recv| ==> r.value[i] == Combined(recv[i], dests)
  {
    var recv := GetRecentReceived(received, limit, codec);
    if recv.Err? {
      return Err(recv.message);
    }
    var dests := GetDestinationUploads(uploads, limit * 3, Null, codec);
    if dests.Err? {
      return Err(dests.message);
    }
    var combined := CombineEach(recv.value, dests.value);
    r := Ok(combined);
  }

  /** Every received record of `rv`, combined in order. */
  function CombineAll(rv: seq<Json>, dv: seq<Json>): seq<Json>
    decreases |rv|
  {
    if |rv| == 0 then [] else CombineAll(rv[..|rv| - 1], dv) + [Combined(rv[|rv| - 1], dv)]
  }

  lemma CombineAllSnoc(rv: seq<Json>, i: nat, dv: seq<Json>)
    requires i < |rv|
    ensures CombineAll(rv[..i + 1], dv) == CombineAll(rv[..i], dv) + [Combined(rv[i], dv)]
  {
    assert rv[..i + 1][..i] == rv[..i];
  }

  lemma {:induction false} CombineAllAt(rv: seq<Json>, dv: seq<Json>)
    ensures |CombineAll(rv, dv)| == |rv|
    ensures forall i :: 0 <= i < |rv| ==> CombineAll(rv, dv)[i] == Combined(rv[i], dv)
    decreases |rv|
  {
    if |rv| > 0 {
      CombineAllAt(rv[..|rv| - 1], dv);
    }
  }

  /** The loop of `getCombinedLogs`: each received record with its group
      of uploads, looked up in the `destinationMap`. */
  method CombineEach(rv: seq<Json>, dv: seq<Json>) returns (out: seq<Json>)
    ensures |out| == |rv|
    ensures forall i :: 0 <= i < |rv| ==> out[i] == Combined(rv[i], dv)
  {
    var g := GroupByReceivedId(dv);
    out := [];
    var i := 0;
    while i < |rv|
      invariant 0 <= i <= |rv|
      invariant out == CombineAll(rv[..i], dv)
    {
      EntryIsCombined(g, dv, rv[i]);
      CombineAllSnoc(rv, i, dv);
      out := out + [Entry(g, rv[i])];
      i := i + 1;
    }
    assert rv[..|rv|] == rv;
    CombineAllAt(rv, dv);
  }

  /** A received record that was just logged is the first entry of the
      next `getRecentReceived`. */
  lemma LoggedIsMostRecent(f: FileState, es: seq<Json>, rec: ReceivedRecord, limit: int, codec: Codec)
    requires Sound(codec) && Holds(f, es, codec) && limit >= 1
    ensures LogFileReceived(f, rec, codec).Ok?
    ensures var g := LogFileReceived(f, rec, codec).value.1;
            && GetRecentReceived(g, limit, codec).Ok?
            && |GetRecentReceived(g, limit, codec).value| > 0
            && GetRecentReceived(g, limit, codec).value[0] == ReceivedJson(rec)
  {
    AppendHolds(f, es, ReceivedJson(rec), codec);
    var g := LogFileReceived(f, rec, codec).value.1;
    var es' := es + [ReceivedJson(rec)];
    ReadWritten(g, es', codec);
    assert Newest(es', limit)[0] == es'[|es'| - 1];
  }

  /** An upload record that was just logged is found by
      `getDestinationUploads` for its own `receivedId`. */
  lemma LoggedUploadIsFound(f: FileState, es: seq<Json>, rec: DestinationRecord, limit: int, codec: Codec)
    requires Sound(codec) && Holds(f, es, codec)
    requires limit > |es|
    requires rec.receivedId.Some? && Truthy(rec.receivedId.value)
    ensures LogDestinationUpload(f, rec, codec).Ok?
    ensures var g := LogDestinationUpload(f, rec, codec).value;
            GetDestinationUploads(g, limit, rec.receivedId.value, codec).Ok? &&
            DestinationJson(rec) in GetDestinationUploads(g, limit, rec.receivedId.value, codec).value
  {
    AppendHolds(f, es, DestinationJson(rec), codec);
    var g := LogDestinationUpload(f, rec, codec).value;
    ReadWritten(g, es + [DestinationJson(rec)], codec);
    assert DestinationJson(rec) in es + [DestinationJson(rec)];
  }
}
