/** The values the Graph surface renders: ordered objects, arrays and scalars. */
module JsonValue {
  /** Obj is insertion-ordered; Map is a Go map, its entries in arbitrary order. */
  datatype Value =
    | Null
    | Bool(b: bool)
    | Int(n: int)
    | Str(s: string)
    | Arr(items: seq<Value>)
    | Obj(fields: seq<Field>)
    | Map(entries: seq<Field>)

  datatype Field = Field(name: string, value: Value)
}
