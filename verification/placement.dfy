/** Date-partitioned placement: `formatDateForPath`, the MIME table, the
    Node path helpers the distributor uses, and the `name`, `name_1`,
    `name_2`, ... collision loop shared by the local destination and the
    no-destination fallback of `organizeFile`. */
module Placement {
  import opened Common

  /** A JavaScript Date reduced to what the distributor reads from it: the
      time value in milliseconds and the local calendar fields
      (`getFullYear`, the 0-based `getMonth`, `getDate`). */
  datatype Date = Date(time: int, year: int, monthIndex: int, day: int)

  predicate ValidDate(d: Date) {
    0 <= d.monthIndex < 12 && 1 <= d.day <= 31
  }

  /** The dates a JavaScript `Date` can denote: its calendar fields are
      always in range. */
  type JsDate = d: Date | ValidDate(d) witness Date(0, 1970, 0, 1)

  datatype DatePath = DatePath(year: string, folder: string)

  /** `year-MM-DD` as the distributor names its day folders. */
  predicate FolderShape(f: string) {
    && |f| >= 7
    && f[|f| - 6] == '-' && f[|f| - 3] == '-'
    && IsDigit(f[|f| - 5]) && IsDigit(f[|f| - 4])
    && IsDigit(f[|f| - 2]) && IsDigit(f[|f| - 1])
    && (f[0] == '-' || IsDigit(f[0]))
    && forall k :: 1 <= k < |f| - 6 ==> IsDigit(f[k])
  }

  /** Reads (year, 1-based month, day) back from a day folder name. */
  function DecodeFolder(f: string): (int, nat, nat)
    requires FolderShape(f)
  {
    (ParseInt(f[..|f| - 6]), ParseNat(f[|f| - 5..|f| - 3]), ParseNat(f[|f| - 2..]))
  }

  function FormatDateForPath(d: JsDate): (p: DatePath)
    ensures p.year == IntToString(d.year)
    ensures FolderShape(p.folder)
    ensures p.folder[..|p.folder| - 6] == p.year
  {
    var year := IntToString(d.year);
    var folder := year + "-" + Pad2(d.monthIndex + 1) + "-" + Pad2(d.day);
    assert folder[..|folder| - 6] == year;
    DatePath(year, folder)
  }

  /** The day folder encodes the date exactly: its year, its 1-based month
      and its day are recovered from the folder name. */
  lemma FormatDateRoundTrip(d: JsDate)
    ensures DecodeFolder(FormatDateForPath(d).folder) == (d.year, d.monthIndex + 1, d.day)
  {
    var p := FormatDateForPath(d);
    var f := p.folder;
    ParseIntToString(d.year);
    assert f[|f| - 5..|f| - 3] == Pad2(d.monthIndex + 1);
    assert f[|f| - 2..] == Pad2(d.day);
  }

  // ---------------------------------------------------------------------
  // MIME types

  const DefaultMimeType: string := "application/octet-stream"

  const MimeTypes: map<string, string> := map[
    ".jpg" := "image/jpeg",
    ".jpeg" := "image/jpeg",
    ".png" := "image/png",
    ".heic" := "image/heic",
    ".heif" := "image/heif",
    ".webp" := "image/webp",
    ".tiff" := "image/tiff",
    ".tif" := "image/tiff",
    ".cr2" := "image/x-canon-cr2",
    ".cr3" := "image/x-canon-cr3",
    ".mp4" := "video/mp4",
    ".mov" := "video/quicktime",
    ".avi" := "video/x-msvideo",
    ".mkv" := "video/x-matroska",
    ".m4v" := "video/x-m4v",
    ".3gp" := "video/3gpp",
    ".wmv" := "video/x-ms-wmv"
  ]

  function GetMimeType(ext: string): (m: string)
    ensures ToLower(ext) in MimeTypes ==> m == MimeTypes[ToLower(ext)] && m != DefaultMimeType
    ensures ToLower(ext) !in MimeTypes ==> m == DefaultMimeType
  {
    var key := ToLower(ext);
    if key in MimeTypes && MimeTypes[key] != "" then MimeTypes[key] else DefaultMimeType
  }

  /** The lookup ignores case: an extension and its lower-cased form get
      the same type. */
  lemma MimeTypeIgnoresCase(ext: string)
    ensures GetMimeType(ext) == GetMimeType(ToLower(ext))
  {
    ToLowerIdempotent(ext);
  }

  // ---------------------------------------------------------------------
  // Node's posix path helpers

  /** Index of the last occurrence of `c`, or -1. */
  function LastIndexOf(s: string, c: char): (i: int)
    ensures -1 <= i < |s|
    ensures i >= 0 ==> s[i] == c
    ensures forall k :: i < k < |s| ==> s[k] != c
    ensures i == -1 <==> c !in s
  {
    if |s| == 0 then -1
    else if s[|s| - 1] == c then |s| - 1
    else LastIndexOf(s[..|s| - 1], c)
  }

  /** `path.basename(p)`: what follows the last `/`. Trailing slashes are
      not stripped, so a path ending in `/` has an empty base name. */
  function BaseName(p: string): (b: string)
    ensures '/' !in b
    ensures EndsWith(p, b)
    ensures |b| == |p| || p[|p| - |b| - 1] == '/'
  {
    var i := LastIndexOf(p, '/');
    p[i + 1..]
  }

  /** `path.extname(p)`: from the last `.` of the base name, unless that dot
      starts the base name or the base name is `..`. */
  function ExtName(p: string): (e: string)
    ensures e == "" || (e[0] == '.' && '.' !in e[1..] && '/' !in e)
    ensures EndsWith(BaseName(p), e)
  {
    var b := BaseName(p);
    var d := LastIndexOf(b, '.');
    var e := if d <= 0 || b == ".." then "" else b[d..];
    ExtOfBase(b, e);
    e
  }

  /** `path.extname` is non-empty exactly when the base name has a dot
      after its first character and is not `..`. */
  lemma ExtNameFound(p: string)
    ensures ExtName(p) != "" <==> (exists j :: 0 < j < |BaseName(p)| && BaseName(p)[j] == '.') && BaseName(p) != ".."
  {
    ExtOfBase(BaseName(p), ExtName(p));
  }

  /** What ExtName states, for the base name `b`. */
  lemma ExtOfBase(b: string, e: string)
    requires '/' !in b
    requires var d := LastIndexOf(b, '.'); e == if d <= 0 || b == ".." then "" else b[d..]
    ensures e == "" || (e[0] == '.' && '.' !in e[1..] && '/' !in e)
    ensures EndsWith(b, e)
    ensures e != "" <==> (exists j :: 0 < j < |b| && b[j] == '.') && b != ".."
  {
    var d := LastIndexOf(b, '.');
    LastDotAfterStart(b);
    if d <= 0 || b == ".." {
      assert b[|b|..] == e;
    } else {
      LastDotSuffix(b, d);
    }
  }

  /** The suffix starting at the last dot of `b`. */
  lemma LastDotSuffix(b: string, d: int)
    requires '/' !in b && 0 <= d < |b| && b[d] == '.'
    requires forall k :: d < k < |b| ==> b[k] != '.'
    ensures var e := b[d..]; e[0] == '.' && '.' !in e[1..] && '/' !in e && EndsWith(b, e)
  {
    var e := b[d..];
    assert forall i :: 0 <= i < |e| ==> e[i] == b[d + i];
    assert forall i :: 0 <= i < |e[1..]| ==> e[1..][i] == b[d + 1 + i];
    assert b[|b| - |e|..] == e;
  }

  /** The last dot is past the first character exactly when some dot is. */
  lemma LastDotAfterStart(b: string)
    ensures LastIndexOf(b, '.') > 0 <==> exists j :: 0 < j < |b| && b[j] == '.'
  {
  }

  /** `path.basename(p, ext)`: the base name with `ext` removed when it ends
      with exactly `ext`, letter case included, and is longer than it. */
  function BaseNameWithout(p: string, ext: string): string {
    var b := BaseName(p);
    if ext != "" && |ext| < |b| && EndsWith(b, ext) then b[..|b| - |ext|] else b
  }

  /** `path.join(dir, name)`; Node's normalisation is not modelled. */
  function PathJoin(dir: string, name: string): string {
    dir + "/" + name
  }

  // ---------------------------------------------------------------------
  // The collision loop

  /** The name tried on round `n` of the loop: `<base>_<n><ext>`. */
  function SuffixedName(base: string, n: nat, ext: string): string {
    base + "_" + NatToString(n) + ext
  }

  lemma SuffixedPathInjective(dir: string, base: string, ext: string, m: nat, n: nat)
    requires PathJoin(dir, SuffixedName(base, m, ext)) == PathJoin(dir, SuffixedName(base, n, ext))
    ensures m == n
  {
    var a := dir + "/" + base + "_";
    var sm := NatToString(m);
    var sn := NatToString(n);
    assert PathJoin(dir, SuffixedName(base, m, ext)) == a + sm + ext;
    assert PathJoin(dir, SuffixedName(base, n, ext)) == a + sn + ext;
    assert |sm| == |sn|;
    assert (a + sm + ext)[|a|..|a| + |sm|] == sm;
    assert (a + sn + ext)[|a|..|a| + |sn|] == sn;
    NatToStringInjective(m, n);
  }

  /** The existing paths the loop may still run into from round `k` on. */
  ghost function Taken(dir: string, base: string, ext: string, existing: set<string>, k: nat): set<string>
  {
    set p | p in existing && exists n: nat :: k <= n && p == PathJoin(dir, SuffixedName(base, n, ext))
  }

  lemma TakenShrinks(dir: string, base: string, ext: string, existing: set<string>, k: nat)
    requires PathJoin(dir, SuffixedName(base, k, ext)) in existing
    ensures Taken(dir, base, ext, existing, k + 1) < Taken(dir, base, ext, existing, k)
    ensures |Taken(dir, base, ext, existing, k + 1)| < |Taken(dir, base, ext, existing, k)|
  {
    var hit := PathJoin(dir, SuffixedName(base, k, ext));
    var later := Taken(dir, base, ext, existing, k + 1);
    var now := Taken(dir, base, ext, existing, k);
    assert hit in now;
    if hit in later {
      var n: nat :| k + 1 <= n && hit == PathJoin(dir, SuffixedName(base, n, ext));
      SuffixedPathInjective(dir, base, ext, k, n);
    }
    assert later <= now - {hit};
    assert |now - {hit}| == |now| - 1;
    SubsetCardinality(later, now - {hit});
  }

  /** The first round from `k` on whose name is free. It exists because the
      names of different rounds are different and only finitely many paths
      exist. */
  function FirstFree(dir: string, base: string, ext: string, existing: set<string>, k: nat): (n: nat)
    ensures n >= k
    ensures PathJoin(dir, SuffixedName(base, n, ext)) !in existing
    ensures forall m :: k <= m < n ==> PathJoin(dir, SuffixedName(base, m, ext)) in existing
    decreases |Taken(dir, base, ext, existing, k)|
  {
    if PathJoin(dir, SuffixedName(base, k, ext)) !in existing then k
    else
      TakenShrinks(dir, base, ext, existing, k);
      FirstFree(dir, base, ext, existing, k + 1)
  }

  /** The name the loop settles on and the round it stopped at (0 when the
      original name was free). */
  datatype Choice = Choice(filename: string, round: nat)

  /** The extension used for suffixed names: `extname` lower-cased. */
  function LowerExt(original: string): string {
    ToLower(ExtName(original))
  }

  /** The loop of `local.js` and `organize.js`: keep the original name if
      it is free, else take `<base>_<n><ext>` for the least free `n >= 1`,
      where `ext` is the lower-cased extension and `base` is the name with
      that lower-cased extension removed only if it matches letter for
      letter. */
  function ChooseFilename(dir: string, original: string, existing: set<string>): (c: Choice)
    ensures PathJoin(dir, c.filename) !in existing
    ensures c.round == 0 <==> PathJoin(dir, original) !in existing
    ensures c.round == 0 ==> c.filename == original
    ensures c.round > 0 ==>
              && c.filename == SuffixedName(BaseNameWithout(original, LowerExt(original)), c.round, LowerExt(original))
              && forall m :: 1 <= m < c.round ==>
                   PathJoin(dir, SuffixedName(BaseNameWithout(original, LowerExt(original)), m, LowerExt(original))) in existing
  {
    if PathJoin(dir, original) !in existing then Choice(original, 0)
    else
      var ext := LowerExt(original);
      var base := BaseNameWithout(original, ext);
      var n := FirstFree(dir, base, ext, existing, 1);
      Choice(SuffixedName(base, n, ext), n)
  }

  lemma BaseNameOfPlainName(name: string)
    requires '/' !in name
    ensures BaseName(name) == name
  {
  }

  /** `path.basename` undoes `path.join` for a name without a `/`. */
  lemma JoinedBaseName(dir: string, name: string)
    requires '/' !in name
    ensures BaseName(PathJoin(dir, name)) == name
  {
    var p := PathJoin(dir, name);
    var b := BaseName(p);
    assert p == (dir + "/") + name;
    assert p[|p| - |name| - 1] == '/';
    assert b == p[|p| - |b|..] == name;
  }

  /** `path.extname` recovers an extension appended to a non-empty stem:
      the last dot wins. */
  lemma AppendedExtName(stem: string, ext: string)
    requires |stem| > 0 && '/' !in stem + ext
    requires |ext| > 0 && ext[0] == '.' && '.' !in ext[1..]
    requires stem + ext != ".."
    ensures ExtName(stem + ext) == ext
  {
    var b := stem + ext;
    BaseNameOfPlainName(b);
    var d := LastIndexOf(b, '.');
    assert b[|stem|] == '.';
    forall k | |stem| < k < |b| ensures b[k] != '.' {
      assert b[k] == ext[1..][k - |stem| - 1];
    }
    assert d == |stem|;
    assert b[d..] == ext;
  }

  /** Whenever the extension is not already lower case, the lower-cased
      extension does not match it letter for letter, so nothing is removed:
      the suffix goes after the whole original name. */
  lemma UpperCaseExtensionKeepsWholeName(name: string)
    requires '/' !in name
    requires ExtName(name) != LowerExt(name)
    ensures BaseNameWithout(name, LowerExt(name)) == name
  {
    BaseNameOfPlainName(name);
  }

  /** An extension that is already lower case is removed before the suffix
      is added: `img.jpg` becomes `img_<n>.jpg`. */
  lemma LowerCaseExtensionStripped(name: string)
    requires '/' !in name
    requires ExtName(name) == LowerExt(name) && ExtName(name) != ""
    ensures BaseNameWithout(name, LowerExt(name)) + LowerExt(name) == name
  {
    BaseNameOfPlainName(name);
    var e := ExtName(name);
    var d := LastIndexOf(name, '.');
    assert d > 0 && e == name[d..];
    assert name[..|name| - |e|] + e == name;
  }

  /** When only the original name is taken, the loop stops at round 1. */
  lemma CollisionTakesRoundOne(dir: string, name: string, base: string, ext: string)
    requires LowerExt(name) == ext && BaseNameWithout(name, ext) == base
    requires PathJoin(dir, SuffixedName(base, 1, ext)) != PathJoin(dir, name)
    ensures ChooseFilename(dir, name, {PathJoin(dir, name)}).filename == SuffixedName(base, 1, ext)
  {
    var c := ChooseFilename(dir, name, {PathJoin(dir, name)});
    assert c.round == 1;
  }
}
