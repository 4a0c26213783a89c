/** Shared vocabulary: optional values, error-carrying results, and the
    JavaScript string and number conversions the distributor relies on
    (ASCII lower-casing, `trim`, `split`/`join`, decimal `toString`). */
module Common {

  datatype Option<+T> = None | Some(value: T) {
    function GetOr(default: T): T {
      match this
      case Some(v) => v
      case None => default
    }
  }

  /** A value, or the message of the exception the source would throw. */
  datatype Result<+T> = Ok(value: T) | Err(message: string)

  /** The outcome of an operation that produces no value. */
  datatype Outcome = Pass | Fail(message: string)

  /** A file as `fs.readFile` finds it: absent (`ENOENT`), failing with
      some other error, or holding text. */
  datatype FileState = Missing | Unreadable(message: string) | Content(text: string)

  /** A byte as produced by `crypto.randomBytes`. */
  type Byte = b: int | 0 <= b < 256

  // ---------------------------------------------------------------------
  // Characters and case

  predicate IsDigit(c: char) { '0' <= c <= '9' }

  predicate IsAsciiAlnum(c: char) {
    ('A' <= c <= 'Z') || ('a' <= c <= 'z') || IsDigit(c)
  }

  /** `toLowerCase` restricted to ASCII letters. */
  function LowerChar(c: char): char {
    if 'A' <= c <= 'Z' then (c as int + 32) as char else c
  }

  function ToLower(s: string): (r: string)
    ensures |r| == |s|
  {
    seq(|s|, i requires 0 <= i < |s| => LowerChar(s[i]))
  }

  lemma ToLowerIdempotent(s: string)
    ensures ToLower(ToLower(s)) == ToLower(s)
  {
  }

  /** The characters `String.prototype.trim` removes: ECMAScript WhiteSpace
      (tab, vertical tab, form feed, space, no-break space, BOM and the
      space separators) and LineTerminator (LF, CR, LS, PS). */
  predicate IsJsSpace(c: char) {
    c == '\t' || c == '\n' || c == '\U{000B}' || c == '\U{000C}' || c == '\r'
    || c == ' ' || c == '\U{00A0}' || c == '\U{1680}'
    || ('\U{2000}' <= c <= '\U{200A}')
    || c == '\U{2028}' || c == '\U{2029}' || c == '\U{202F}' || c == '\U{205F}'
    || c == '\U{3000}' || c == '\U{FEFF}'
  }

  function TrimStart(s: string): string
    decreases |s|
  {
    if |s| > 0 && IsJsSpace(s[0]) then TrimStart(s[1..]) else s
  }

  function TrimEnd(s: string): string
    decreases |s|
  {
    if |s| > 0 && IsJsSpace(s[|s| - 1]) then TrimEnd(s[..|s| - 1]) else s
  }

  function Trim(s: string): string {
    TrimEnd(TrimStart(s))
  }

  predicate StartsWith(s: string, prefix: string) {
    |prefix| <= |s| && s[..|prefix|] == prefix
  }

  predicate EndsWith(s: string, suffix: string) {
    |suffix| <= |s| && s[|s| - |suffix|..] == suffix
  }

  // ---------------------------------------------------------------------
  // split / join

  /** `s.split(sep)` for a one-character separator: never empty, and no
      piece contains the separator. */
  function Split(s: string, sep: char): (parts: seq<string>)
    ensures |parts| >= 1
    ensures forall i :: 0 <= i < |parts| ==> sep !in parts[i]
    ensures forall p :: p in parts ==> sep !in p
    decreases |s|
  {
    if |s| == 0 then [""]
    else
      var rest := Split(s[1..], sep);
      if s[0] == sep then [""] + rest
      else [[s[0]] + rest[0]] + rest[1..]
  }

  /** `parts.join(sep)`. */
  function Join(parts: seq<string>, sep: char): string {
    if |parts| == 0 then ""
    else if |parts| == 1 then parts[0]
    else parts[0] + [sep] + Join(parts[1..], sep)
  }

  lemma {:induction false} SplitNoSeparator(p: string, sep: char)
    requires sep !in p
    ensures Split(p, sep) == [p]
    decreases |p|
  {
    if |p| > 0 {
      SplitNoSeparator(p[1..], sep);
      assert [p[0]] + p[1..] == p;
    }
  }

  lemma {:induction false} SplitAfterPiece(p: string, sep: char, rest: string)
    requires sep !in p
    ensures Split(p + [sep] + rest, sep) == [p] + Split(rest, sep)
    decreases |p|
  {
    var s := p + [sep] + rest;
    if |p| == 0 {
      assert s[1..] == rest;
    } else {
      assert s[1..] == p[1..] + [sep] + rest;
      SplitAfterPiece(p[1..], sep, rest);
      assert [p[0]] + p[1..] == p;
    }
  }

  /** Splitting undoes joining when no piece contains the separator. */
  lemma {:induction false} SplitJoin(parts: seq<string>, sep: char)
    requires |parts| >= 1
    requires forall i :: 0 <= i < |parts| ==> sep !in parts[i]
    ensures Split(Join(parts, sep), sep) == parts
  {
    if |parts| == 1 {
      SplitNoSeparator(parts[0], sep);
    } else {
      SplitJoin(parts[1..], sep);
      SplitAfterPiece(parts[0], sep, Join(parts[1..], sep));
      assert [parts[0]] + parts[1..] == parts;
    }
  }

  /** `.filter(Boolean)` on strings: the empty strings are dropped. */
  function DropEmpty(parts: seq<string>): (r: seq<string>)
    ensures forall i :: 0 <= i < |r| ==> r[i] != ""
    ensures forall x :: x in r <==> x in parts && x != ""
  {
    if |parts| == 0 then []
    else if parts[0] == "" then DropEmpty(parts[1..])
    else [parts[0]] + DropEmpty(parts[1..])
  }

  // ---------------------------------------------------------------------
  // Line-oriented files (JSONL)

  /** `content.trim().split('\n').filter(Boolean)`. */
  function ReadLines(content: string): (lines: seq<string>)
    ensures forall i :: 0 <= i < |lines| ==> lines[i] != "" && '\n' !in lines[i]
  {
    DropEmpty(Split(Trim(content), '\n'))
  }

  /** A line as `JSON.stringify` writes it: non-empty, one line, and not
      starting or ending with white space. */
  predicate WellFormedLine(line: string) {
    |line| > 0 && '\n' !in line && !IsJsSpace(line[0]) && !IsJsSpace(line[|line| - 1])
  }

  /** The content of a file to which each line was appended followed by a
      newline. */
  function Serialise(lines: seq<string>): string {
    if |lines| == 0 then "" else lines[0] + "\n" + Serialise(lines[1..])
  }

  lemma {:induction false} SerialiseAppend(lines: seq<string>, line: string)
    ensures Serialise(lines + [line]) == Serialise(lines) + line + "\n"
  {
    if |lines| > 0 {
      assert (lines + [line])[1..] == lines[1..] + [line];
      SerialiseAppend(lines[1..], line);
    }
  }

  lemma {:induction false} SerialiseIsJoin(lines: seq<string>)
    requires |lines| >= 1
    ensures Serialise(lines) == Join(lines, '\n') + "\n"
  {
    if |lines| > 1 {
      SerialiseIsJoin(lines[1..]);
    }
  }

  lemma {:induction false} JoinEnds(lines: seq<string>, sep: char)
    requires |lines| >= 1
    requires forall i :: 0 <= i < |lines| ==> |lines[i]| > 0
    ensures |Join(lines, sep)| > 0
    ensures Join(lines, sep)[0] == lines[0][0]
    ensures Join(lines, sep)[|Join(lines, sep)| - 1] == lines[|lines| - 1][|lines[|lines| - 1]| - 1]
  {
    if |lines| > 1 {
      JoinEnds(lines[1..], sep);
    }
  }

  lemma {:induction false} DropEmptyKeepsNonEmpty(parts: seq<string>)
    requires forall i :: 0 <= i < |parts| ==> parts[i] != ""
    ensures DropEmpty(parts) == parts
  {
    if |parts| > 0 {
      DropEmptyKeepsNonEmpty(parts[1..]);
    }
  }

  /** Reading back a file written line by line yields exactly the lines
      written, in order; in particular an empty file yields none. */
  lemma ReadSerialised(lines: seq<string>)
    requires forall i :: 0 <= i < |lines| ==> WellFormedLine(lines[i])
    ensures ReadLines(Serialise(lines)) == lines
  {
    if |lines| == 0 {
      assert Trim("") == "";
    } else {
      TrimSerialised(lines);
      SplitJoin(lines, '\n');
      DropEmptyKeepsNonEmpty(lines);
    }
  }

  /** Trimming a non-empty serialised file drops only its final newline. */
  lemma TrimSerialised(lines: seq<string>)
    requires |lines| >= 1
    requires forall i :: 0 <= i < |lines| ==> WellFormedLine(lines[i])
    ensures Trim(Serialise(lines)) == Join(lines, '\n')
  {
    SerialiseIsJoin(lines);
    var j := Join(lines, '\n');
    JoinEnds(lines, '\n');
    assert TrimStart(j + "\n") == j + "\n";
    assert (j + "\n")[..|j + "\n"| - 1] == j;
    assert TrimEnd(j + "\n") == j;
  }

  // ---------------------------------------------------------------------
  // Decimal numbers

  function DigitChar(d: nat): (c: char)
    requires d < 10
    ensures IsDigit(c)
  {
    ('0' as int + d) as char
  }

  function DigitValue(c: char): nat
    requires IsDigit(c)
  {
    c as int - '0' as int
  }

  /** `String(n)` for a non-negative integer. */
  function NatToString(n: nat): (s: string)
    ensures |s| >= 1
    ensures forall i :: 0 <= i < |s| ==> IsDigit(s[i])
  {
    if n < 10 then [DigitChar(n)] else NatToString(n / 10) + [DigitChar(n % 10)]
  }

  function ParseNat(s: string): nat
    requires forall i :: 0 <= i < |s| ==> IsDigit(s[i])
  {
    if |s| == 0 then 0 else ParseNat(s[..|s| - 1]) * 10 + DigitValue(s[|s| - 1])
  }

  lemma {:induction false} ParseNatToString(n: nat)
    ensures ParseNat(NatToString(n)) == n
  {
    if n >= 10 {
      var s := NatToString(n);
      assert s[..|s| - 1] == NatToString(n / 10);
      ParseNatToString(n / 10);
    }
  }

  lemma NatToStringInjective(m: nat, n: nat)
    requires NatToString(m) == NatToString(n)
    ensures m == n
  {
    ParseNatToString(m);
    ParseNatToString(n);
  }

  /** `String(i)` for any integer. */
  function IntToString(i: int): string {
    if i < 0 then "-" + NatToString(-i) else NatToString(i)
  }

  /** Reads back what IntToString writes. */
  function ParseInt(s: string): int
    requires |s| >= 1
    requires forall k :: 1 <= k < |s| ==> IsDigit(s[k])
    requires s[0] == '-' || IsDigit(s[0])
  {
    if s[0] == '-' then -(ParseNat(s[1..]) as int) else ParseNat(s)
  }

  lemma ParseIntToString(i: int)
    ensures ParseInt(IntToString(i)) == i
  {
    if i < 0 {
      assert IntToString(i)[1..] == NatToString(-i);
      ParseNatToString(-i);
    } else {
      ParseNatToString(i);
    }
  }

  /** `String(n).padStart(2, '0')` for a small non-negative number. */
  function Pad2(n: nat): (s: string)
    requires n < 100
    ensures |s| == 2 && IsDigit(s[0]) && IsDigit(s[1])
    ensures ParseNat(s) == n
  {
    var s := if n < 10 then ['0', DigitChar(n)] else [DigitChar(n / 10), DigitChar(n % 10)];
    assert s[..1][..0] == [] && s[..1] == [s[0]];
    assert ParseNat(s[..1]) == DigitValue(s[0]);
    assert ParseNat(s) == DigitValue(s[0]) * 10 + DigitValue(s[1]);
    s
  }

  lemma SubsetCardinality<T>(a: set<T>, b: set<T>)
    requires a <= b
    ensures |a| <= |b|
  {
    if a != {} {
      var x :| x in a;
      SubsetCardinality(a - {x}, b - {x});
    }
  }

  // ---------------------------------------------------------------------
  // Sequences

  function Reverse<T>(s: seq<T>): (r: seq<T>)
    ensures |r| == |s|
    ensures forall i :: 0 <= i < |s| ==> r[i] == s[|s| - 1 - i]
  {
    if |s| == 0 then [] else Reverse(s[1..]) + [s[0]]
  }

  /** The end index `slice(0, end)` uses: negative counts from the back,
      and the result is clamped to the sequence. */
  function SliceEnd(len: nat, end: int): (e: nat)
    ensures e <= len
  {
    if end < 0 then (if len + end < 0 then 0 else len + end)
    else if end > len then len else end
  }

  /** `s.slice(0, end)`. */
  function SliceTo<T>(s: seq<T>, end: int): seq<T> {
    s[..SliceEnd(|s|, end)]
  }
}
