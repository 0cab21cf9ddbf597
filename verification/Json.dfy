/** JSON values as `json.loads` delivers them, and the object bodies the system signs and stores. */
module Json {

  datatype Option<T> = None | Some(value: T)

  /** Python floats include the three non-finite values, and the JSON codec round-trips them. */
  datatype Number = Finite(r: real) | NaN | PosInf | NegInf

  datatype Value =
    | Null
    | Bool(b: bool)
    | Int(i: int)
    | Float(f: Number)
    | Str(s: string)
    | List(items: seq<Value>)
    | Object(fields: map<string, Value>)

  type Body = map<string, Value>

  /** `body.get(key)`, with None for an absent key. */
  function Get(body: Body, key: string): Option<Value> {
    if key in body then Some(body[key]) else None
  }
}
