/**
 * Decoded JSON values as the Python code sees them after `json.load` /
 * `ijson`: dictionaries keep their key order, and lookups follow
 * `dict.get`. Numbers are integers in this model.
 */
module Json {
  import opened Wrappers
  import Text

  datatype Value =
    | Null
    | Bool(b: bool)
    | Number(n: int)
    | String(s: string)
    | Array(items: seq<Value>)
    | Object(fields: seq<(string, Value)>)

  /** The key/value pairs of a dictionary, in insertion order. */
  type Fields = seq<(string, Value)>

  /** `d.get(key)`: the value stored under `key`, or `None`. */
  function Get(d: Fields, key: string): (r: Option<Value>)
    ensures r.None? <==> forall i :: 0 <= i < |d| ==> d[i].0 != key
    ensures r.Some? ==> exists i :: 0 <= i < |d| && d[i] == (key, r.value)
  {
    if |d| == 0 then None
    else if d[0].0 == key then Some(d[0].1)
    else Get(d[1..], key)
  }

  /** `d.get(key, default)`. */
  function GetOr(d: Fields, key: string, default: Value): (r: Value)
    ensures Get(d, key).Some? ==> r == Get(d, key).value
    ensures Get(d, key).None? ==> r == default
  {
    Get(d, key).GetOr(default)
  }

  /** Python truthiness: `None`, `False`, `0`, `""`, `[]` and `{}` are false. */
  predicate Truthy(v: Value) {
    match v
    case Null => false
    case Bool(b) => b
    case Number(n) => n != 0
    case String(s) => |s| > 0
    case Array(xs) => |xs| > 0
    case Object(fs) => |fs| > 0
  }

  /** `str(v)`, as an f-string renders a value. */
  function Display(v: Value): (r: string)
    ensures v.String? ==> r == v.s
    ensures v.Null? ==> r == "None"
  {
    match v
    case String(s) => s
    case _ => Repr(v)
  }

  /** `repr(v)`; strings are quoted with single quotes. */
  function Repr(v: Value): string {
    match v
    case Null => "None"
    case Bool(b) => if b then "True" else "False"
    case Number(n) => Text.IntToString(n)
    case String(s) => "'" + s + "'"
    case Array(xs) =>
      "[" + Text.Join(", ", seq(|xs|, i requires 0 <= i < |xs| => Repr(xs[i]))) + "]"
    case Object(fs) =>
      "{" + Text.Join(", ", seq(|fs|, i requires 0 <= i < |fs| => "'" + fs[i].0 + "': " + Repr(fs[i].1))) + "}"
  }

  /** The dictionary with every pair whose key is `key` dropped, order kept. */
  function Without(d: Fields, key: string): (r: Fields)
    ensures |r| <= |d|
    ensures forall k :: Get(r, k) == if k == key then None else Get(d, k)
  {
    if |d| == 0 then []
    else if d[0].0 == key then Without(d[1..], key)
    else [d[0]] + Without(d[1..], key)
  }
}

/** The Python exceptions the modelled code can raise on malformed input. */
module Errors {
  datatype PyError =
    | AttributeError   // a method called on a value of the wrong kind (`.get` on a list, `.strip()` on a number)
    | TypeError        // iterating or subscripting a value that does not support it
    | KeyError         // `d[key]` on a dictionary without `key`
    | IndexError       // `xs[i]` past the end of a list
}
