/**
 * The value tree that `yaml.safe_load`, `json.loads` and a pandas row produce:
 * None, booleans, integers, floats (exact reals here), `decimal.Decimal`,
 * strings, lists and dictionaries. A dictionary keeps its keys in insertion
 * order, as Python's `dict` does.
 */
module Values {
  import opened Common
  import opened Text

  datatype Value =
    | Null
    | Bool(b: bool)
    | Int(i: int)
    | Float(f: real)
    | Decimal(d: real)
    | Str(s: string)
    | List(items: seq<Value>)
    | Dict(entries: seq<(string, Value)>)

  function KeysOf(entries: seq<(string, Value)>): (keys: seq<string>)
    ensures |keys| == |entries|
    ensures forall i :: 0 <= i < |entries| ==> keys[i] == entries[i].0
  {
    if entries == [] then [] else [entries[0].0] + KeysOf(entries[1..])
  }

  /** `d.get(key)` */
  function Get(entries: seq<(string, Value)>, key: string): Option<Value>
    decreases |entries|
  {
    if entries == [] then None
    else if entries[0].0 == key then Some(entries[0].1)
    else Get(entries[1..], key)
  }

  /** A key is found exactly when it is one of the keys. */
  lemma {:induction false} GetFound(entries: seq<(string, Value)>, key: string)
    ensures Get(entries, key).None? <==> key !in KeysOf(entries)
    decreases |entries|
  {
    if entries != [] {
      GetFound(entries[1..], key);
      assert KeysOf(entries) == [entries[0].0] + KeysOf(entries[1..]);
    }
  }

  /** `d[key]` for a key that is present. */
  function Field(entries: seq<(string, Value)>, key: string): Value
    requires Get(entries, key).Some?
  {
    Get(entries, key).value
  }

  /** Entries before the first with the key do not matter to the lookup. */
  lemma {:induction false} GetSkip(entries: seq<(string, Value)>, key: string, n: nat)
    requires n <= |entries|
    requires forall i :: 0 <= i < n ==> entries[i].0 != key
    ensures Get(entries, key) == Get(entries[n..], key)
    decreases n
  {
    if n > 0 {
      GetSkip(entries[1..], key, n - 1);
      assert entries[1..][n - 1..] == entries[n..];
    }
  }

  /** `d.get(key, default)` */
  function GetOr(entries: seq<(string, Value)>, key: string, default: Value): Value {
    match Get(entries, key)
    case Some(v) => v
    case None => default
  }

  /**
   * `d[key] = v`: afterwards `key` maps to `v` and every other key to what it
   * mapped to before.
   */
  function Set(entries: seq<(string, Value)>, key: string, v: Value): (r: seq<(string, Value)>)
    ensures Get(r, key) == Some(v)
    ensures forall k :: k != key ==> Get(r, k) == Get(entries, k)
    decreases |entries|
  {
    if entries == [] then [(key, v)]
    else if entries[0].0 == key then [(key, v)] + entries[1..]
    else [entries[0]] + Set(entries[1..], key, v)
  }

  /** An existing key keeps its place; a new key goes last, as in a Python `dict`. */
  lemma {:induction false} SetKeys(entries: seq<(string, Value)>, key: string, v: Value)
    ensures key in KeysOf(entries) ==> KeysOf(Set(entries, key, v)) == KeysOf(entries)
    ensures key !in KeysOf(entries) ==> KeysOf(Set(entries, key, v)) == KeysOf(entries) + [key]
    decreases |entries|
  {
    if entries != [] && entries[0].0 != key {
      SetKeys(entries[1..], key, v);
      var rest := Set(entries[1..], key, v);
      assert KeysOf(entries) == [entries[0].0] + KeysOf(entries[1..]);
      assert KeysOf([entries[0]] + rest) == [entries[0].0] + KeysOf(rest);
    }
  }

  /** Python truthiness: None, False, zero, and empty strings and containers are false. */
  predicate Truthy(v: Value) {
    match v
    case Null => false
    case Bool(b) => b
    case Int(i) => i != 0
    case Float(f) => f != 0.0
    case Decimal(d) => d != 0.0
    case Str(s) => s != ""
    case List(items) => items != []
    case Dict(entries) => entries != []
  }

  /**
   * `str(v)` inside an f-string. None, booleans, integers and strings are
   * rendered here; the rendering of floats and containers (Python's `repr`) is
   * the supplied `repr`.
   */
  function Display(v: Value, repr: Value -> string): string {
    match v
    case Null => "None"
    case Bool(b) => if b then "True" else "False"
    case Int(i) => IntToString(i)
    case Str(s) => s
    case _ => repr(v)
  }

  /** A list of strings as a value. */
  function StrList(xs: seq<string>): (v: Value)
    ensures v.List? && |v.items| == |xs|
    ensures forall i :: 0 <= i < |xs| ==> v.items[i] == Str(xs[i])
  {
    if xs == [] then List([]) else List([Str(xs[0])] + StrList(xs[1..]).items)
  }
}
