/** Values shared by every component: an optional value, and the dynamically
    typed values that the system keeps in its configuration dictionaries and
    writes as JSON records. */
module Values {

  datatype Option<+T> = None | Some(value: T)

  /** An octet, as held by Python `bytes`. */
  type byte = b: int | 0 <= b < 256

  /** A configuration or record value as the program sees it after JSON
      decoding (plus the callables a caller may place in a dictionary). */
  datatype Value =
    | Null
    | Bool(b: bool)
    | Int(i: int)
    | Float(r: real)
    | Str(s: string)
    | List(items: seq<Value>)
    | Dict(entries: map<string, Value>)
    | Callable(id: nat)

  /** Python truthiness of a value (`if v:`). */
  predicate Truthy(v: Value) {
    match v
    case Null => false
    case Bool(b) => b
    case Int(i) => i != 0
    case Float(r) => r != 0.0
    case Str(s) => s != []
    case List(items) => items != []
    case Dict(entries) => entries != map[]
    case Callable(_) => true
  }

  /** `d.get(key, default)` on a dictionary. */
  function GetOr(d: map<string, Value>, key: string, default: Value): (r: Value)
    ensures key in d ==> r == d[key]
    ensures key !in d ==> r == default
  {
    if key in d then d[key] else default
  }

  /** `d.get(key)`: a missing key reads as None. */
  function Get(d: map<string, Value>, key: string): Value {
    GetOr(d, key, Null)
  }
}
