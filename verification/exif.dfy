/** The capture date of a received file: the first usable EXIF date tag of
    a photo, else the file's birth time when it is set, else its
    modification time, and the current time when anything throws. The
    tags exiftool reads and what `fs.stat` returns are inputs. */
module Exif {
  import opened Common
  import opened Placement

  const PhotoExtensions: seq<string> :=
    [".jpg", ".jpeg", ".png", ".heic", ".heif", ".webp", ".tiff", ".tif", ".cr2", ".cr3"]

  /** The tags consulted, most trusted first. */
  const DateFields: seq<string> :=
    ["DateTimeOriginal", "CreateDate", "DateTimeDigitized", "DateTime", "GPSDateStamp"]

  /** A tag value as the extraction sees it: falsy (skipped), an exiftool
      date whose `toDate()` gives a date or nothing, or a truthy value
      without `toDate` (calling it throws). */
  datatype Tag = Falsy | DateTag(converted: Option<JsDate>) | NoToDate

  datatype Stat = Stat(birthtime: Option<JsDate>, mtime: JsDate)

  /** Whether the loop moves past `field`: absent, falsy, or converting to
      nothing. */
  predicate Skips(tags: map<string, Tag>, field: string) {
    field !in tags || tags[field].Falsy? || tags[field] == DateTag(None)
  }

  datatype Scan = Found(date: JsDate) | Threw | NotFound

  /** The `for (const field of dateFields)` loop. */
  function ScanTags(tags: map<string, Tag>, fields: seq<string>): (r: Scan)
    ensures r.NotFound? <==> forall j :: 0 <= j < |fields| ==> Skips(tags, fields[j])
    ensures r.Found? ==> (exists k :: 0 <= k < |fields| &&
                           (forall j :: 0 <= j < k ==> Skips(tags, fields[j])) &&
                           fields[k] in tags && tags[fields[k]] == DateTag(Some(r.date)))
    ensures r.Threw? ==> (exists k :: 0 <= k < |fields| &&
                           (forall j :: 0 <= j < k ==> Skips(tags, fields[j])) &&
                           fields[k] in tags && tags[fields[k]].NoToDate?)
  {
    if |fields| == 0 then NotFound
    else if Skips(tags, fields[0]) then
      var r := ScanTags(tags, fields[1..]);
      assert forall j :: 1 <= j < |fields| ==> fields[j] == fields[1..][j - 1];
      if r.Found? then
        var k :| 0 <= k < |fields[1..]| && (forall j :: 0 <= j < k ==> Skips(tags, fields[1..][j])) &&
                 fields[1..][k] in tags && tags[fields[1..][k]] == DateTag(Some(r.date));
        assert forall j :: 0 <= j < k + 1 ==> Skips(tags, fields[j]);
        r
      else if r.Threw? then
        var k :| 0 <= k < |fields[1..]| && (forall j :: 0 <= j < k ==> Skips(tags, fields[1..][j])) &&
                 fields[1..][k] in tags && tags[fields[1..][k]].NoToDate?;
        assert forall j :: 0 <= j < k + 1 ==> Skips(tags, fields[j]);
        r
      else r
    else
      match tags[fields[0]]
      case DateTag(Some(d)) => Found(d)
      case _ => Threw
  }

  /** The `fs.stat` fallback: the birth time when its time value is
      positive, else the modification time. */
  function StatDate(s: Stat): (d: JsDate)
    ensures s.birthtime.Some? && s.birthtime.value.time > 0 ==> d == s.birthtime.value
    ensures !(s.birthtime.Some? && s.birthtime.value.time > 0) ==> d == s.mtime
  {
    if s.birthtime.Some? && s.birthtime.value.time > 0 then s.birthtime.value else s.mtime
  }

  function OrNow(s: Result<Stat>, now: JsDate): JsDate {
    match s
    case Ok(st) => StatDate(st)
    case Err(_) => now
  }

  /** `extractDateFromFile(filePath)`: `tags` is what `exiftool.read`
      gives (or its error), `stat` what `fs.stat` gives, `now` the current
      time. */
  function ExtractDate(filePath: string, tags: Result<map<string, Tag>>, stat: Result<Stat>, now: JsDate): (d: JsDate)
    ensures ToLower(ExtName(filePath)) !in PhotoExtensions ==> d == OrNow(stat, now)
    ensures ToLower(ExtName(filePath)) in PhotoExtensions && tags.Err? ==> d == now
    ensures ToLower(ExtName(filePath)) in PhotoExtensions && tags.Ok? ==>
              match ScanTags(tags.value, DateFields)
              case Found(t) => d == t
              case Threw => d == now
              case NotFound => d == OrNow(stat, now)
  {
    if ToLower(ExtName(filePath)) in PhotoExtensions then
      match tags
      case Err(_) => now
      case Ok(t) =>
        match ScanTags(t, DateFields)
        case Found(x) => x
        case Threw => now
        case NotFound => OrNow(stat, now)
    else OrNow(stat, now)
  }

  /** The capture date beats every later field: with a usable
      `DateTimeOriginal`, the other tags do not matter. */
  lemma OriginalDateWins(filePath: string, tags: map<string, Tag>, d: JsDate, stat: Result<Stat>, now: JsDate)
    requires ToLower(ExtName(filePath)) in PhotoExtensions
    requires "DateTimeOriginal" in tags && tags["DateTimeOriginal"] == DateTag(Some(d))
    ensures ExtractDate(filePath, Ok(tags), stat, now) == d
  {
  }

  /** A tag that converts to nothing is passed over for the next field. */
  lemma UnconvertibleTagIsSkipped(filePath: string, tags: map<string, Tag>, d: JsDate, stat: Result<Stat>, now: JsDate)
    requires ToLower(ExtName(filePath)) in PhotoExtensions
    requires "DateTimeOriginal" in tags && tags["DateTimeOriginal"] == DateTag(None)
    requires "CreateDate" in tags && tags["CreateDate"] == DateTag(Some(d))
    ensures ExtractDate(filePath, Ok(tags), stat, now) == d
  {
    var rest := DateFields[1..];
    assert rest[0] == "CreateDate" && !Skips(tags, rest[0]);
    assert ScanTags(tags, rest) == Found(d);
    assert Skips(tags, DateFields[0]);
    assert ScanTags(tags, DateFields) == ScanTags(tags, rest);
  }

  /** Files that are not photos never look at their tags. */
  lemma NonPhotosIgnoreTags(filePath: string, t1: Result<map<string, Tag>>, t2: Result<map<string, Tag>>,
                            stat: Result<Stat>, now: JsDate)
    requires ToLower(ExtName(filePath)) !in PhotoExtensions
    ensures ExtractDate(filePath, t1, stat, now) == ExtractDate(filePath, t2, stat, now)
  {
  }

  /** The result is always one of the dates on offer: a tag date, the
      birth or modification time, or now. */
  lemma ExtractedDateIsOffered(filePath: string, tags: Result<map<string, Tag>>, stat: Result<Stat>, now: JsDate)
    ensures var d := ExtractDate(filePath, tags, stat, now);
            || d == now
            || (stat.Ok? && (d == stat.value.mtime || stat.value.birthtime == Some(d)))
            || (tags.Ok? && exists f :: f in tags.value && tags.value[f] == DateTag(Some(d)))
  {
    if ToLower(ExtName(filePath)) in PhotoExtensions && tags.Ok? {
      FoundIsATag(tags.value, DateFields);
    }
  }

  /** A date the scan finds is the date of one of the tags. */
  lemma FoundIsATag(tags: map<string, Tag>, fields: seq<string>)
    ensures ScanTags(tags, fields).Found? ==>
              exists f :: f in tags && tags[f] == DateTag(Some(ScanTags(tags, fields).date))
  {
    var r := ScanTags(tags, fields);
    if r.Found? {
      var k :| 0 <= k < |fields| && (forall j :: 0 <= j < k ==> Skips(tags, fields[j])) &&
               fields[k] in tags && tags[fields[k]] == DateTag(Some(r.date));
      assert fields[k] in tags;
    }
  }
}
