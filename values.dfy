/** The Ruby values an application stores in the cache, and Ruby truthiness. */
module Values {

  /** A byte and a byte string (the contents of a `bytea` column). */
  type Byte = x: int | 0 <= x < 256
  type Bytes = seq<Byte>

  /**
   * The marshalable Ruby values the model covers: `nil`, `false`, `true`,
   * integers of any size, strings, and arrays of values.
   */
  datatype Value =
    | Nil
    | False
    | True
    | Int(i: int)
    | Str(s: string)
    | List(items: seq<Value>)

  /** Ruby truthiness: every value except `nil` and `false` is truthy, `0`, `""` and `[]` included. */
  predicate Truthy(v: Value)
    ensures Truthy(v) <==> v.True? || v.Int? || v.Str? || v.List?
  {
    !v.Nil? && !v.False?
  }
}
