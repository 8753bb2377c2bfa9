/**
 * PostgreSQL's `bytea` hex format (section 8.4.1 of the PostgreSQL
 * manual), as produced by libpq's escape function and read back by its
 * unescape function: a backslash, the letter `x`, then two hex digits per
 * byte, high nibble first.
 */
module Bytea {
  import opened Wrappers
  import opened Values

  const Backslash: Byte := 92   // '\'
  const LetterX: Byte := 120    // 'x'

  /** The lower-case ASCII hex digit for a nibble. */
  function HexDigit(d: nat): (c: Byte)
    requires d < 16
    ensures HexValue(c) == Some(d)
  {
    if d < 10 then 48 + d else 87 + d
  }

  /** The nibble an ASCII hex digit stands for, either case; `None` for any other byte. */
  function HexValue(c: Byte): (r: Option<nat>)
    ensures r.Some? ==> r.value < 16
  {
    if 48 <= c <= 57 then Some(c - 48)        // '0'..'9'
    else if 97 <= c <= 102 then Some(c - 87)  // 'a'..'f'
    else if 65 <= c <= 70 then Some(c - 55)   // 'A'..'F'
    else None
  }

  /** Two hex digits per byte, high nibble first. */
  /** The nibble of a hex digit (0 for a byte that is not one). */
  function DigitValue(c: Byte): nat {
    match HexValue(c)
    case Some(d) => d
    case None => 0
  }

  /** Two hex digits per byte, high nibble first. */
  function HexEncode(b: Bytes): (r: Bytes)
    ensures |r| == 2 * |b|
    ensures forall j :: 0 <= j < |b| ==> r[2 * j] == HexDigit(b[j] / 16) && r[2 * j + 1] == HexDigit(b[j] % 16)
  {
    if b == [] then []
    else
      var tail := HexEncode(b[1..]);
      var r := [HexDigit(b[0] / 16), HexDigit(b[0] % 16)] + tail;
      assert forall j :: 0 < j < |b| ==> r[2 * j] == tail[2 * (j - 1)] && r[2 * j + 1] == tail[2 * (j - 1) + 1];
      r
  }

  /** Succeeds exactly on an even number of hex digits; each pair of digits gives one byte. */
  function HexDecode(s: Bytes): (r: Option<Bytes>)
    ensures r.Some? <==> (|s| % 2 == 0 && forall i :: 0 <= i < |s| ==> HexValue(s[i]).Some?)
    ensures r.Some? ==> 2 * |r.value| == |s|
    ensures r.Some? ==> forall j :: 0 <= j < |r.value| ==>
      r.value[j] == 16 * DigitValue(s[2 * j]) + DigitValue(s[2 * j + 1])
  {
    if |s| == 0 then Some([])
    else if |s| == 1 || HexValue(s[0]).None? || HexValue(s[1]).None? then None
    else
      var rest := s[2..];
      assert forall i :: 2 <= i < |s| ==> s[i] == rest[i - 2];
      match HexDecode(rest)
      case None => None
      case Some(t) =>
        var r := [16 * DigitValue(s[0]) + DigitValue(s[1])] + t;
        PairsShift(s, t, r);
        Some(r)
  }

  /** One more decoded byte in front: the pair-by-pair description of the tail carries over. */
  lemma PairsShift(s: Bytes, t: Bytes, r: Bytes)
    requires |s| >= 2 && HexValue(s[0]).Some? && HexValue(s[1]).Some? && 2 * |t| == |s| - 2
    requires forall j :: 0 <= j < |t| ==> t[j] == 16 * DigitValue(s[2..][2 * j]) + DigitValue(s[2..][2 * j + 1])
    requires r == [16 * DigitValue(s[0]) + DigitValue(s[1])] + t
    ensures forall j :: 0 <= j < |r| ==> r[j] == 16 * DigitValue(s[2 * j]) + DigitValue(s[2 * j + 1])
  {
    forall j | 0 < j < |r|
      ensures r[j] == 16 * DigitValue(s[2 * j]) + DigitValue(s[2 * j + 1])
    {
      assert r[j] == t[j - 1];
      assert s[2..][2 * (j - 1)] == s[2 * j] && s[2..][2 * (j - 1) + 1] == s[2 * j + 1];
    }
  }

  lemma {:induction false} HexDecodeEncode(b: Bytes)
    ensures HexDecode(HexEncode(b)) == Some(b)
  {
    if b != [] {
      var s := HexEncode(b);
      assert s[2..] == HexEncode(b[1..]);
      HexDecodeEncode(b[1..]);
      assert [b[0]] + b[1..] == b;
    }
  }

  /** `escape_bytea`: the text form of a byte string in the hex format; unescaping it gives the bytes back. */
  function Escape(b: Bytes): (r: Bytes)
    ensures |r| == 2 + 2 * |b| && r[0] == Backslash && r[1] == LetterX
    ensures forall j :: 0 <= j < |b| ==> r[2 + 2 * j] == HexDigit(b[j] / 16) && r[3 + 2 * j] == HexDigit(b[j] % 16)
    ensures Unescape(r) == Some(b)
  {
    var r := [Backslash, LetterX] + HexEncode(b);
    assert r[2..] == HexEncode(b);
    HexDecodeEncode(b);
    r
  }

  /**
   * `unescape_bytea`, for the hex format: succeeds exactly on `\x` followed
   * by an even number of hex digits, giving one byte per pair of digits.
   */
  function Unescape(raw: Bytes): (r: Option<Bytes>)
    ensures r.Some? <==> (|raw| >= 2 && raw[0] == Backslash && raw[1] == LetterX &&
      |raw| % 2 == 0 && forall i :: 2 <= i < |raw| ==> HexValue(raw[i]).Some?)
    ensures r.Some? ==> |raw| == 2 + 2 * |r.value|
    ensures r.Some? ==> forall j :: 0 <= j < |r.value| ==>
      r.value[j] == 16 * DigitValue(raw[2 + 2 * j]) + DigitValue(raw[3 + 2 * j])
  {
    if |raw| >= 2 && raw[0] == Backslash && raw[1] == LetterX then
      var digits := raw[2..];
      assert forall i :: 2 <= i < |raw| ==> raw[i] == digits[i - 2];
      HexDecode(digits)
    else None
  }

  /** Unescaping what was escaped gives back the bytes. */
  lemma UnescapeEscape(b: Bytes)
    ensures Unescape(Escape(b)) == Some(b)
  {
  }
}
