/** The already-decoded JSON of a chat export, and the Python exceptions the core raises on it. */
module Export {

  /** A JSON value as the decoder hands it over (non-integer numbers are not modelled). */
  datatype Value =
    | Null
    | Bool(b: bool)
    | Int(i: int)
    | Str(s: string)
    | Arr(items: seq<Value>)
    | Obj(fields: map<string, Value>)

  /** Python truthiness of a decoded JSON value: only null, false, 0 and the empty containers are falsy. */
  predicate Truthy(v: Value)
    ensures !Truthy(v) <==> v in {Null, Bool(false), Int(0), Str(""), Arr([]), Obj(map[])}
  {
    match v
    case Null => false
    case Bool(b) => b
    case Int(i) => i != 0
    case Str(s) => s != ""
    case Arr(items) => items != []
    case Obj(fields) => fields != map[]
  }

  /** `d.get(key)`: the stored value, or None (JSON null) when the key is absent. */
  function Get(fields: map<string, Value>, key: string): Value {
    if key in fields then fields[key] else Null
  }

  /** The exceptions raised while building a chat: `KeyError` carries the missing key. */
  datatype Error =
    | KeyError(key: Value)
    | TypeError(context: string)
    | ValueError(context: string)
    | NotImplementedError
}
