/**
 * JSON documents as `json.loads` hands them to Python code, and the parts of
 * Python's subscript and `dict.get` semantics that the application relies on.
 */
module PyJson {

  /** A decoded JSON value. Numbers are kept as integers: the application only
      ever tests whether a value is a string, a list or an object. */
  datatype Json =
    | JNull
    | JBool(b: bool)
    | JNum(n: int)
    | JStr(s: string)
    | JList(items: seq<Json>)
    | JObj(fields: map<string, Json>)

  /** The Python exceptions the application can raise while handling a reply. */
  datatype PyError = JSONDecodeError | IndexError | KeyError | TypeError | AttributeError

  /** A Python expression either yields a value or raises. */
  datatype Result<T> = Ok(value: T) | Raise(error: PyError)

  /** `v[key]` for a string key: only an object can be indexed by a string. */
  function Subscript(v: Json, key: string): (r: Result<Json>)
    ensures r.Ok? <==> v.JObj? && key in v.fields
    ensures r.Ok? ==> r.value == v.fields[key]
    ensures v.JObj? && key !in v.fields ==> r == Raise(KeyError)
    ensures !v.JObj? ==> r == Raise(TypeError)
  {
    match v
    case JObj(fields) => if key in fields then Ok(fields[key]) else Raise(KeyError)
    case _ => Raise(TypeError)
  }

  /** `v[0]`: a list or a string yields its first element, an object has no
      integer keys, anything else is not subscriptable. */
  function Index0(v: Json): (r: Result<Json>)
    ensures r.Ok? <==> (v.JList? && v.items != []) || (v.JStr? && v.s != [])
    ensures v.JList? && v.items != [] ==> r == Ok(v.items[0])
    ensures v.JStr? && v.s != [] ==> r == Ok(JStr(v.s[..1]))
    ensures (v.JList? && v.items == []) || (v.JStr? && v.s == []) ==> r == Raise(IndexError)
    ensures v.JObj? ==> r == Raise(KeyError)
    ensures !(v.JList? || v.JStr? || v.JObj?) ==> r == Raise(TypeError)
  {
    match v
    case JList(items) => if |items| > 0 then Ok(items[0]) else Raise(IndexError)
    case JStr(s) => if |s| > 0 then Ok(JStr(s[..1])) else Raise(IndexError)
    case JObj(_) => Raise(KeyError)
    case _ => Raise(TypeError)
  }

  /** `v.get(key, default)`: only an object has a `get` method. */
  function Get(v: Json, key: string, default: Json): (r: Result<Json>)
    ensures r.Raise? <==> !v.JObj?
    ensures r.Raise? ==> r.error == AttributeError
    ensures v.JObj? && key in v.fields ==> r == Ok(v.fields[key])
    ensures v.JObj? && key !in v.fields ==> r == Ok(default)
  {
    match v
    case JObj(fields) => Ok(if key in fields then fields[key] else default)
    case _ => Raise(AttributeError)
  }
}
