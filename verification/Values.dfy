/** The JSON-like Go values that assets and findings carry. */
module Values {
  import opened Json

  /** `any` restricted to what JSON can hold: maps are unordered, lists ordered. */
  datatype Value =
    | Nil
    | Flag(b: bool)
    | Number(token: string)
    | Text(s: string)
    | List(items: seq<Value>)
    | Map(m: map<string, Value>)

  type Attrs = map<string, Value>

  /** Every number prints as a JSON number token. */
  ghost predicate Printable(v: Value) {
    match v
    case Number(token) => NumberToken(token)
    case List(items) => forall x :: x in items ==> Printable(x)
    case Map(m) => forall k :: k in m ==> Printable(m[k])
    case _ => true
  }
}
