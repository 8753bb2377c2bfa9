/**
 * A self-describing binary serialization standing in for Ruby's
 * `Marshal.dump` / `Marshal.load`: a two-byte version header (4, 8, as
 * Marshal writes), then one tag byte per value, with lengths and integer
 * magnitudes written as base-128 variable-length numbers.
 */
module Marshal {
  import opened Wrappers
  import opened Values

  const MajorVersion: Byte := 4
  const MinorVersion: Byte := 8

  const NilTag: Byte := 0
  const FalseTag: Byte := 1
  const TrueTag: Byte := 2
  const NonNegativeTag: Byte := 3
  const NegativeTag: Byte := 4
  const StringTag: Byte := 5
  const ArrayTag: Byte := 6

  /** Base-128 encoding of a natural number, low digit first; high bit set on all but the last byte. */
  function Varint(n: nat): (r: Bytes)
    ensures |r| >= 1
  {
    if n < 128 then [n] else [128 + n % 128] + Varint(n / 128)
  }

  function ParseVarint(b: Bytes): (r: Option<(nat, Bytes)>)
    ensures r.Some? ==> |r.value.1| < |b|
  {
    if |b| == 0 then None
    else if b[0] < 128 then Some((b[0], b[1..]))
    else
      match ParseVarint(b[1..])
      case None => None
      case Some((m, rest)) => Some((b[0] - 128 + 128 * m, rest))
  }

  lemma {:induction false} ParseVarintOfVarint(n: nat, rest: Bytes)
    ensures ParseVarint(Varint(n) + rest) == Some((n, rest))
  {
    if n >= 128 {
      var b := Varint(n) + rest;
      assert b[1..] == Varint(n / 128) + rest;
      ParseVarintOfVarint(n / 128, rest);
    } else {
      assert (Varint(n) + rest)[1..] == rest;
    }
  }

  /** True exactly for the integers that are Unicode scalar values, i.e. valid `char`s. */
  predicate IsScalarValue(n: nat) {
    n < 0xD800 || (0xE000 <= n < 0x11_0000)
  }

  function DumpChars(s: string): Bytes {
    if s == [] then [] else Varint(s[0] as int) + DumpChars(s[1..])
  }

  /** Reads `n` characters, failing on a byte string too short or on a non-scalar value. */
  function ParseChars(n: nat, b: Bytes): (r: Option<(string, Bytes)>)
    ensures r.Some? ==> |r.value.1| <= |b| && |r.value.0| == n
  {
    if n == 0 then Some(([], b))
    else
      match ParseVarint(b)
      case None => None
      case Some((c, rest)) =>
        if !IsScalarValue(c) then None
        else
          match ParseChars(n - 1, rest)
          case None => None
          case Some((cs, rest')) => Some(([c as char] + cs, rest'))
  }

  lemma {:induction false} ParseCharsOfDumpChars(s: string, rest: Bytes)
    ensures ParseChars(|s|, DumpChars(s) + rest) == Some((s, rest))
  {
    if s != [] {
      var tail := DumpChars(s[1..]) + rest;
      assert DumpChars(s) + rest == Varint(s[0] as int) + tail;
      ParseVarintOfVarint(s[0] as int, tail);
      assert IsScalarValue(s[0] as int) && (s[0] as int) as char == s[0];
      ParseCharsOfDumpChars(s[1..], rest);
      assert [s[0]] + s[1..] == s;
      assert ParseChars(|s|, Varint(s[0] as int) + tail) == Some(([s[0]] + s[1..], rest));
    } else {
      assert DumpChars(s) + rest == rest;
    }
  }

  function DumpValue(v: Value): (r: Bytes)
    decreases v, 1
  {
    match v
    case Nil => [NilTag]
    case False => [FalseTag]
    case True => [TrueTag]
    case Int(i) => if i >= 0 then [NonNegativeTag] + Varint(i) else [NegativeTag] + Varint(-i - 1)
    case Str(s) => [StringTag] + Varint(|s|) + DumpChars(s)
    case List(items) => [ArrayTag] + Varint(|items|) + DumpItems(items)
  }

  function DumpItems(items: seq<Value>): (r: Bytes)
    decreases items, 0
  {
    if items == [] then [] else DumpValue(items[0]) + DumpItems(items[1..])
  }

  /** Reads one value and returns it with the bytes that follow it. */
  function ParseValue(b: Bytes): (r: Option<(Value, Bytes)>)
    ensures r.Some? ==> |r.value.1| < |b|
    decreases |b|, 0
  {
    if |b| == 0 then None
    else
      var tag, body := b[0], b[1..];
      if tag == NilTag then Some((Nil, body))
      else if tag == FalseTag then Some((False, body))
      else if tag == TrueTag then Some((True, body))
      else if tag == NonNegativeTag || tag == NegativeTag then ParseInt(tag == NegativeTag, body)
      else if tag == StringTag then ParseString(body)
      else if tag == ArrayTag then ParseArray(body)
      else None
  }

  function ParseInt(negative: bool, body: Bytes): (r: Option<(Value, Bytes)>)
    ensures r.Some? ==> |r.value.1| < |body|
  {
    match ParseVarint(body)
    case None => None
    case Some((m, rest)) =>
      var i: int := if negative then -(m as int) - 1 else m;
      Some((Int(i), rest))
  }

  function ParseString(body: Bytes): (r: Option<(Value, Bytes)>)
    ensures r.Some? ==> |r.value.1| < |body|
  {
    match ParseVarint(body)
    case None => None
    case Some((n, rest)) =>
      match ParseChars(n, rest)
      case None => None
      case Some((s, rest')) => Some((Str(s), rest'))
  }

  function ParseArray(body: Bytes): (r: Option<(Value, Bytes)>)
    ensures r.Some? ==> |r.value.1| < |body|
    decreases |body|, 2
  {
    match ParseVarint(body)
    case None => None
    case Some((n, rest)) =>
      match ParseItems(n, rest)
      case None => None
      case Some((items, rest')) => Some((List(items), rest'))
  }

  /** Reads `n` consecutive values. */
  function ParseItems(n: nat, b: Bytes): (r: Option<(seq<Value>, Bytes)>)
    ensures r.Some? ==> |r.value.1| <= |b| && |r.value.0| == n
    decreases |b|, 1
  {
    if n == 0 then Some(([], b))
    else
      match ParseValue(b)
      case None => None
      case Some((v, rest)) =>
        match ParseItems(n - 1, rest)
        case None => None
        case Some((vs, rest')) => Some(([v] + vs, rest'))
  }

  lemma {:induction false} ParseValueOfDumpValue(v: Value, rest: Bytes)
    ensures ParseValue(DumpValue(v) + rest) == Some((v, rest))
    decreases v, 1
  {
    var b := DumpValue(v) + rest;
    match v
    case Nil =>
      assert b[1..] == rest;
    case False =>
      assert b[1..] == rest;
    case True =>
      assert b[1..] == rest;
    case Int(i) =>
      var m: nat := if i >= 0 then i else -i - 1;
      assert b[1..] == Varint(m) + rest;
      ParseVarintOfVarint(m, rest);
    case Str(s) =>
      assert b[1..] == Varint(|s|) + (DumpChars(s) + rest);
      ParseVarintOfVarint(|s|, DumpChars(s) + rest);
      ParseCharsOfDumpChars(s, rest);
    case List(items) =>
      assert b[1..] == Varint(|items|) + (DumpItems(items) + rest);
      ParseVarintOfVarint(|items|, DumpItems(items) + rest);
      ParseItemsOfDumpItems(items, rest);
  }

  lemma {:induction false} ParseItemsOfDumpItems(items: seq<Value>, rest: Bytes)
    ensures ParseItems(|items|, DumpItems(items) + rest) == Some((items, rest))
    decreases items, 0
  {
    if items != [] {
      var tail := DumpItems(items[1..]) + rest;
      assert DumpItems(items) + rest == DumpValue(items[0]) + tail;
      ParseValueOfDumpValue(items[0], tail);
      ParseItemsOfDumpItems(items[1..], rest);
      assert [items[0]] + items[1..] == items;
      assert ParseItems(|items|, DumpValue(items[0]) + tail) == Some(([items[0]] + items[1..], rest));
    } else {
      assert DumpItems(items) + rest == rest;
    }
  }

  /** `Marshal.dump`: the version header followed by the value; loading it gives the value back. */
  function Dump(v: Value): (r: Bytes)
    ensures |r| > 2 && r[0] == MajorVersion && r[1] == MinorVersion
    ensures Load(r) == Some(v)
  {
    var r := [MajorVersion, MinorVersion] + DumpValue(v);
    assert r[2..] == DumpValue(v) + [];
    ParseValueOfDumpValue(v, []);
    r
  }

  /**
   * `Marshal.load`: reads one value after the version header and ignores
   * any bytes after it. `None` stands for the exception Ruby raises on a
   * different major version, a newer minor version, or data that does not
   * start with a whole value.
   */
  function Load(b: Bytes): (r: Option<Value>)
    ensures r.Some? ==> |b| > 2 && b[0] == MajorVersion && b[1] <= MinorVersion
  {
    if |b| < 2 || b[0] != MajorVersion || b[1] > MinorVersion then None
    else
      match ParseValue(b[2..])
      case Some((v, _)) => Some(v)
      case None => None
  }

  /** Loading what was dumped gives back the value. */
  lemma LoadDump(v: Value)
    ensures Load(Dump(v)) == Some(v)
  {
  }

  /** Dumping is injective: distinct values have distinct serializations. */
  lemma DumpInjective(v: Value, w: Value)
    ensures Dump(v) == Dump(w) <==> v == w
  {
    LoadDump(v);
    LoadDump(w);
  }
}
