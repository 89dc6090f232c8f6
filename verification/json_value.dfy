/** The Python values the scripts exchange with the backend and read from
    their configuration, restricted to what JSON can carry. `bool` is kept
    apart from `int`, as Python's `type(v) is int` does. */
module JsonValue {
  import opened Wrappers
  import opened Exceptions

  datatype Json =
    | JNull
    | JBool(b: bool)
    | JInt(i: int)
    | JReal(r: real)
    | JStr(s: string)
    | JArr(a: seq<Json>)
    | JObj(m: map<string, Json>)

  /** Python truth value: `None`, `False`, zero and empty containers are false. */
  predicate Truthy(v: Json) {
    match v
    case JNull => false
    case JBool(b) => b
    case JInt(i) => i != 0
    case JReal(r) => r != 0.0
    case JStr(s) => |s| > 0
    case JArr(a) => |a| > 0
    case JObj(m) => |m| > 0
  }

  /** Python `v == False`: also true of `0` and `0.0`. */
  predicate EqualsFalse(v: Json) {
    v == JBool(false) || v == JInt(0) || v == JReal(0.0)
  }

  /** Python `v[key]` with a string key: a dict lookup, a KeyError when the key
      is missing and a TypeError for any value that is not a dict. */
  function Subscript(v: Json, key: string): (r: Result<Json, Exception>)
    ensures r.Success? <==> v.JObj? && key in v.m
    ensures r.Success? ==> r.value == v.m[key]
    ensures r.Failure? ==> r.error == (if v.JObj? then KeyError else TypeError)
  {
    match v
    case JObj(m) => if key in m then Success(m[key]) else Failure(KeyError)
    case _ => Failure(TypeError)
  }

  /** `needle` occurs as a contiguous run of `hay`. */
  predicate IsSubstring(needle: string, hay: string) {
    |needle| <= |hay| && (hay[..|needle|] == needle || IsSubstring(needle, hay[1..]))
  }

  /** Python `key in v`: key membership for a dict, element membership for a
      list, substring for a string, and a TypeError for anything else. */
  function Contains(v: Json, key: string): (r: Result<bool, Exception>)
    ensures r.Failure? <==> !(v.JObj? || v.JArr? || v.JStr?)
    ensures v.JObj? ==> r == Success(key in v.m)
    ensures v.JArr? ==> r == Success(JStr(key) in v.a)
  {
    match v
    case JObj(m) => Success(key in m)
    case JArr(a) => Success(JStr(key) in a)
    case JStr(s) => Success(IsSubstring(key, s))
    case _ => Failure(TypeError)
  }

  /** A one-entry dict `{key: value}`. */
  function Entry(key: string, value: Json): (r: Json)
    ensures Subscript(r, key) == Success(value)
  {
    JObj(map[key := value])
  }

  /** `v[keys[0]][keys[1]]...`: nested subscripts, the first failure raised. */
  function Path(v: Json, keys: seq<string>): Result<Json, Exception>
    decreases |keys|
  {
    if |keys| == 0 then Success(v)
    else
      match Subscript(v, keys[0])
      case Failure(e) => Failure(e)
      case Success(w) => Path(w, keys[1..])
  }
}
