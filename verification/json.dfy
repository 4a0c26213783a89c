/** JSON-like values as the distributor's JavaScript sees them: settings
    documents, database rows, upload results. Objects are maps (key order
    is not modelled) and numbers are integers. */
module Json {
  import opened Common

  datatype Json =
    | Null
    | Bool(b: bool)
    | Num(n: int)
    | Str(s: string)
    | Arr(items: seq<Json>)
    | Obj(fields: map<string, Json>)

  /** JavaScript truthiness: `null`, `false`, `0` and `""` are falsy,
      every array and object is truthy. */
  predicate Truthy(v: Json) {
    match v
    case Null => false
    case Bool(b) => b
    case Num(n) => n != 0
    case Str(s) => |s| > 0
    case Arr(_) => true
    case Obj(_) => true
  }

  /** The own enumerable properties of `v`, which is what both the object
      spread `{ ...v }` and `Object.keys(v)` see: the fields of an object,
      the index keys of a string or an array, and nothing for anything else. */
  function Spread(v: Json): (m: map<string, Json>)
    ensures v.Obj? ==> m == v.fields
    ensures !v.Obj? && !v.Str? && !v.Arr? ==> m == map[]
  {
    match v
    case Obj(fields) => fields
    case Str(s) => IndexedChars(s)
    case Arr(items) => Indexed(items)
    case _ => map[]
  }

  /** The index keys `"0"`, `"1"`, ... of an array, mapped to its items. */
  function Indexed(items: seq<Json>): map<string, Json>
    decreases |items|
  {
    if |items| == 0 then map[]
    else Indexed(items[..|items| - 1])[NatToString(|items| - 1) := items[|items| - 1]]
  }

  /** The index keys of a string, mapped to its one-character strings. */
  function IndexedChars(s: string): map<string, Json>
    decreases |s|
  {
    if |s| == 0 then map[]
    else IndexedChars(s[..|s| - 1])[NatToString(|s| - 1) := Str([s[|s| - 1]])]
  }

  /** Spreading an array gives each item under its decimal index. */
  lemma {:induction false} IndexedAt(items: seq<Json>, i: nat)
    requires i < |items|
    ensures NatToString(i) in Indexed(items) && Indexed(items)[NatToString(i)] == items[i]
    decreases |items|
  {
    if i < |items| - 1 {
      IndexedAt(items[..|items| - 1], i);
      if NatToString(i) == NatToString(|items| - 1) {
        NatToStringInjective(i, |items| - 1);
      }
    }
  }

  /** Spreading an array gives nothing but its index keys. */
  lemma {:induction false} IndexedKeys(items: seq<Json>, k: string)
    requires k in Indexed(items)
    ensures exists i :: 0 <= i < |items| && k == NatToString(i)
    decreases |items|
  {
    if k != NatToString(|items| - 1) {
      IndexedKeys(items[..|items| - 1], k);
    }
  }

  /** Spreading a string gives nothing but its index keys. */
  lemma {:induction false} IndexedCharsKeys(s: string, k: string)
    requires k in IndexedChars(s)
    ensures exists i :: 0 <= i < |s| && k == NatToString(i)
    decreases |s|
  {
    if k != NatToString(|s| - 1) {
      IndexedCharsKeys(s[..|s| - 1], k);
    }
  }

  /** `v?.[key]`, with `None` standing for `undefined`. The `length` of
      strings and arrays and inherited prototype members are not modelled. */
  function Member(v: Json, key: string): (r: Option<Json>)
    ensures r.Some? <==> key in Spread(v)
    ensures r.Some? ==> r.value == Spread(v)[key]
  {
    var m := Spread(v);
    if key in m then Some(m[key]) else None
  }

  /** `keys.reduce((obj, key) => obj?.[key], v)`. */
  function GetPath(v: Json, keys: seq<string>): Option<Json>
    decreases |keys|
  {
    if |keys| == 0 then Some(v)
    else match Member(v, keys[0])
      case None => None
      case Some(w) => GetPath(w, keys[1..])
  }

  /** Like GetPath, but an `undefined` value reads as falsy. */
  predicate TruthyAt(v: Json, keys: seq<string>) {
    match GetPath(v, keys)
    case None => false
    case Some(w) => Truthy(w)
  }

  /** The string at `keys`, if that value is a string. */
  function StringAt(v: Json, keys: seq<string>): Option<string> {
    match GetPath(v, keys)
    case Some(Str(s)) => Some(s)
    case _ => None
  }

  lemma GetPathStep(v: Json, k: string, rest: seq<string>)
    ensures GetPath(v, [k] + rest) ==
            (match Member(v, k) case None => None case Some(w) => GetPath(w, rest))
  {
    assert ([k] + rest)[1..] == rest;
  }

  /** A key that does not start with a digit is never an index key, so
      only an object can have it. */
  lemma WordKeyNeedsObject(v: Json, key: string)
    requires |key| > 0 && !IsDigit(key[0])
    requires key in Spread(v)
    ensures v.Obj?
  {
    match v
    case Arr(items) => IndexedKeys(items, key);
    case Str(t) => IndexedCharsKeys(t, key);
    case _ =>
  }

  /** `v[key] = x` on an object: afterwards `key` reads as `x` and every
      other property reads as before; anything else is left as it is. */
  function SetField(v: Json, key: string, x: Json): (r: Json)
    ensures v.Obj? ==> r.Obj? && r.fields.Keys == v.fields.Keys + {key}
    ensures v.Obj? ==> Member(r, key) == Some(x)
    ensures v.Obj? ==> forall k :: k != key ==> Member(r, k) == Member(v, k)
    ensures !v.Obj? ==> r == v
  {
    if v.Obj? then Obj(v.fields[key := x]) else v
  }
}
