/** Decoded JSON values as Python's `json` module hands them to the tool, the
    errors the tool lets propagate, and the few Python operations it applies
    to such values: `v[key]`, iteration, slicing and hashing. */
module Json {
  import opened PyDict

  /** Numbers are integers; objects are insertion-ordered dicts. */
  datatype Json =
    | JNull
    | JBool(b: bool)
    | JNum(n: int)
    | JStr(s: string)
    | JArr(items: seq<Json>)
    | JObj(obj: Dict<string, Json>)

  /** A path relative to the working directory, one component per name. */
  type Path = seq<string>

  /** The exceptions the tool raises and never catches. */
  datatype Error =
    | FileNotFound(path: Path)
    | IsADirectory(path: Path)
    | NotADirectory(path: Path)
    | FileExists(path: Path)
    | Unreadable(path: Path)
    | KeyError(key: string)
    | TypeError
    | AttributeError

  datatype Result<T> = Ok(value: T) | Err(error: Error) {
    predicate IsFailure() { Err? }
    function PropagateFailure<U>(): Result<U> requires Err? { Err(error) }
    function Extract(): T requires Ok? { value }
  }

  datatype Outcome = Pass | Fail(error: Error) {
    predicate IsFailure() { Fail? }
    function PropagateFailure(): Outcome requires Fail? { this }
  }

  /** `d[key]` on a dict: a missing key raises `KeyError`. */
  function Lookup(d: Dict<string, Json>, key: string): (r: Result<Json>)
    ensures r.Ok? <==> key in d.vals
    ensures r.Ok? ==> r.value == d.vals[key]
  {
    if key in d.vals then Ok(d.vals[key]) else Err(KeyError(key))
  }

  /** `v[key]` on a decoded value: only an object can be indexed by a string. */
  function Get(v: Json, key: string): (r: Result<Json>)
    ensures r.Ok? <==> v.JObj? && key in v.obj.vals
    ensures r.Ok? ==> r.value == v.obj.vals[key]
  {
    if v.JObj? then Lookup(v.obj, key) else Err(TypeError)
  }

  /** Lists and dicts cannot be dict keys. */
  predicate Hashable(v: Json) {
    !v.JArr? && !v.JObj?
  }

  /** `for x in v`: a list yields its items, a string its one-character
      strings, a dict its keys; anything else is not iterable. */
  function Iterate(v: Json): (r: Result<seq<Json>>)
    ensures v.JArr? ==> r == Ok(v.items)
    ensures r.Ok? <==> v.JArr? || v.JStr? || v.JObj?
  {
    match v
    case JArr(items) => Ok(items)
    case JStr(s) => Ok(seq(|s|, i requires 0 <= i < |s| => JStr([s[i]])))
    case JObj(d) => Ok(seq(|d.keys|, i requires 0 <= i < |d.keys| => JStr(d.keys[i])))
    case _ => Err(TypeError)
  }

  /** `v[0:1]`: at most the first item of a list or character of a string;
      other values cannot be sliced. */
  function SliceHead(v: Json): (r: Result<Json>)
    ensures r.Ok? <==> v.JArr? || v.JStr?
  {
    match v
    case JArr(xs) => Ok(JArr(if xs == [] then [] else xs[..1]))
    case JStr(s) => Ok(JStr(if s == [] then [] else s[..1]))
    case _ => Err(TypeError)
  }

  /** `v[1:]`: all but the first item of a list or character of a string. */
  function SliceTail(v: Json): (r: Result<Json>)
    ensures r.Ok? <==> v.JArr? || v.JStr?
  {
    match v
    case JArr(xs) => Ok(JArr(if xs == [] then [] else xs[1..]))
    case JStr(s) => Ok(JStr(if s == [] then [] else s[1..]))
    case _ => Err(TypeError)
  }

  /** `v[0:1] + v[1:] == v`, and `v[0:1]` holds at most one item. */
  lemma SliceSplits(v: Json)
    requires v.JArr?
    ensures SliceHead(v).Ok? && SliceHead(v).value.JArr? && SliceTail(v).Ok? && SliceTail(v).value.JArr?
    ensures SliceHead(v).value.items + SliceTail(v).value.items == v.items
    ensures |SliceHead(v).value.items| <= 1
  {
    if v.items != [] {
      assert v.items[..1] + v.items[1..] == v.items;
    }
  }
}
