/** Values exchanged by the client: optional values, results, and the decoded
    PHP/JSON values (`json_decode($body, true)`) that responses, request
    inputs and user attributes are made of. */
module Values {

  import Strings

  datatype Option<+T> = None | Some(value: T)

  datatype Result<+T, +E> = Ok(value: T) | Err(error: E)

  /** A decoded PHP value. An `Arr` is a PHP array: an ordered list of
      key/value entries. Floating-point numbers are not represented. */
  datatype Value =
    | Null
    | Bool(b: bool)
    | Int(i: int)
    | Str(s: string)
    | Arr(entries: seq<(string, Value)>)

  /** A value that is not an array: what a query-string field may hold. */
  type Scalar = v: Value | !v.Arr? witness Null

  /** The keys of an ordered list of entries, in order. */
  function Keys<V>(entries: seq<(string, V)>): (ks: seq<string>)
    ensures |ks| == |entries|
    ensures forall i :: 0 <= i < |entries| ==> ks[i] == entries[i].0
  {
    if entries == [] then [] else [entries[0].0] + Keys(entries[1..])
  }

  predicate Distinct(ks: seq<string>) {
    forall i, j :: 0 <= i < j < |ks| ==> ks[i] != ks[j]
  }

  /** A PHP array never holds the same key twice. */
  predicate UniqueKeys<V>(entries: seq<(string, V)>) {
    Distinct(Keys(entries))
  }

  /** The value stored under `key`, if any (the first entry with that key). */
  function Find<V>(entries: seq<(string, V)>, key: string): (r: Option<V>)
    ensures r.None? <==> key !in Keys(entries)
  {
    if entries == [] then None
    else if entries[0].0 == key then Some(entries[0].1)
    else Find(entries[1..], key)
  }

  /** In an array without repeated keys, looking up the key of an entry
      gives that entry's value. */
  lemma {:induction false} FindAt<V>(entries: seq<(string, V)>, i: nat)
    requires i < |entries| && UniqueKeys(entries)
    ensures Find(entries, entries[i].0) == Some(entries[i].1)
  {
    if i > 0 {
      assert Keys(entries) == [entries[0].0] + Keys(entries[1..]);
      assert Keys(entries)[0] != Keys(entries)[i];
      FindAt(entries[1..], i - 1);
    }
  }

  lemma {:induction false} FindSnoc<V>(entries: seq<(string, V)>, key: string, value: V, k: string)
    ensures Find(entries + [(key, value)], k) ==
            if k in Keys(entries) then Find(entries, k) else if k == key then Some(value) else None
  {
    if entries != [] {
      assert (entries + [(key, value)])[1..] == entries[1..] + [(key, value)];
      assert Keys(entries) == [entries[0].0] + Keys(entries[1..]);
      FindSnoc(entries[1..], key, value, k);
    }
  }

  /** `$array[$key] ?? null`, `Arr::get($array, $key)` and
      `isset($array[$key]) ? $array[$key] : null` all give this: the entry's
      value, or null when `v` is not an array or has no such key. */
  function Get(v: Value, key: string): Value {
    if v.Arr? then
      match Find(v.entries, key)
      case Some(x) => x
      case None => Null
    else Null
  }

  /** PHP's `isset($array[$key])`: the key is present and its value is not null. */
  predicate Isset(entries: seq<(string, Value)>, key: string) {
    Find(entries, key).Some? && Find(entries, key).value != Null
  }

  /** PHP's conversion of a value to boolean (`array_filter`'s default test). */
  predicate Truthy(v: Value) {
    match v
    case Null => false
    case Bool(b) => b
    case Int(i) => i != 0
    case Str(s) => s != "" && s != "0"
    case Arr(es) => es != []
  }

  /** PHP's conversion of a value to string, as `.` and `%s` perform it:
      null and false give "", true gives "1", an array gives "Array". */
  function Text(v: Value): string {
    match v
    case Null => ""
    case Bool(b) => if b then "1" else ""
    case Int(i) => Strings.IntToString(i)
    case Str(s) => s
    case Arr(_) => "Array"
  }
}
