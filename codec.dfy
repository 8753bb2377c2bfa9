/**
 * The value codec of the cache: `bytea_marshal` escapes the marshaled
 * value, `bytea_unmarshal` unescapes and loads it.
 */
module Codec {
  import opened Wrappers
  import opened Values
  import Marshal
  import Bytea

  /** `bytea_marshal`: the text sent as the `bytea` parameter of the write statement. */
  function Encode(v: Value): (raw: Bytes)
    ensures Bytea.Unescape(raw) == Some(Marshal.Dump(v))
  {
    Bytea.Escape(Marshal.Dump(v))
  }

  /** `bytea_unmarshal`: `None` stands for the exception raised on data that is not an encoded value. */
  function Decode(raw: Bytes): (r: Option<Value>)
    ensures forall v {:trigger Encode(v)} :: raw == Encode(v) ==> r == Some(v)
  {
    match Bytea.Unescape(raw)
    case None => None
    case Some(b) => Marshal.Load(b)
  }

  /** Every value survives the round trip through the table, `nil` and `false` included. */
  lemma DecodeEncode(v: Value)
    ensures Decode(Encode(v)) == Some(v)
  {
  }

  /** Distinct values are stored as distinct byte strings. */
  lemma EncodeInjective(v: Value, w: Value)
    ensures Encode(v) == Encode(w) <==> v == w
  {
    DecodeEncode(v);
    DecodeEncode(w);
  }
}
