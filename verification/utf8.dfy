/** UTF-8, the encoding of Go string literals and of the Unicode text this
    model's strings hold. `url.QueryEscape` escapes a string byte by byte, so
    the escaping model needs the bytes of each character. */
module Utf8 {
  import opened Wrappers

  newtype byte = x: int | 0 <= x < 256

  type Bytes = seq<byte>

  /** Unicode scalar values: exactly the code points a Dafny `char` holds. */
  predicate IsScalar(v: int)
  {
    0 <= v < 0xD800 || 0xE000 <= v < 0x11_0000
  }

  /** A continuation byte `10xxxxxx`. */
  predicate IsContinuation(b: byte)
  {
    0x80 <= b < 0xC0
  }

  /** The shortest UTF-8 sequence of a scalar value. */
  function EncodeChar(c: char): (r: Bytes)
    ensures 1 <= |r| <= 4
    ensures (|r| == 1) == (c as int < 0x80)
    ensures |r| == 1 ==> r[0] as int == c as int
    ensures forall i :: 1 <= i < |r| ==> IsContinuation(r[i])
  {
    var v := c as int;
    if v < 0x80 then
      [v as byte]
    else if v < 0x800 then
      [(0xC0 + v / 64) as byte, (0x80 + v % 64) as byte]
    else if v < 0x1_0000 then
      [(0xE0 + v / 4096) as byte, (0x80 + v / 64 % 64) as byte, (0x80 + v % 64) as byte]
    else
      [(0xF0 + v / 262144) as byte, (0x80 + v / 4096 % 64) as byte,
       (0x80 + v / 64 % 64) as byte, (0x80 + v % 64) as byte]
  }

  function Encode(s: string): Bytes
  {
    if |s| == 0 then [] else EncodeChar(s[0]) + Encode(s[1..])
  }

  /** The scalar value of a 2-, 3- or 4-byte sequence starting with `lead`,
      or `None` when the continuation bytes are missing or malformed or the
      value is not a scalar. */
  function DecodeMulti(b: Bytes, n: nat, leadBits: int): (r: Option<char>)
    requires 2 <= n <= 4 && |b| >= n
  {
    if !IsContinuation(b[1]) || (n >= 3 && !IsContinuation(b[2])) || (n == 4 && !IsContinuation(b[3])) then None
    else
      var v :=
        if n == 2 then leadBits * 64 + (b[1] as int - 0x80)
        else if n == 3 then leadBits * 4096 + (b[1] as int - 0x80) * 64 + (b[2] as int - 0x80)
        else leadBits * 262144 + (b[1] as int - 0x80) * 4096 + (b[2] as int - 0x80) * 64 + (b[3] as int - 0x80);
      if IsScalar(v) then Some(v as char) else None
  }

  /** The first character of `b` and the number of bytes it occupies. */
  function DecodeChar(b: Bytes): (r: Option<(char, nat)>)
    requires |b| >= 1
    ensures r.Some? ==> 1 <= r.value.1 <= |b|
  {
    var lead := b[0] as int;
    var n := if lead < 0x80 then 1 else if 0xC0 <= lead < 0xE0 then 2
             else if 0xE0 <= lead < 0xF0 then 3 else if 0xF0 <= lead < 0xF8 then 4 else 0;
    if n == 1 then Some((lead as char, 1))
    else if n == 0 || |b| < n then None
    else
      var leadBits := if n == 2 then lead - 0xC0 else if n == 3 then lead - 0xE0 else lead - 0xF0;
      match DecodeMulti(b, n, leadBits)
      case None => None
      case Some(c) => Some((c, n))
  }

  function Decode(b: Bytes): Option<string>
    decreases |b|
  {
    if |b| == 0 then Some("")
    else
      match DecodeChar(b)
      case None => None
      case Some((c, n)) =>
        match Decode(b[n..])
        case None => None
        case Some(s) => Some([c] + s)
  }

  lemma DivMod64(v: int)
    requires v >= 0
    ensures v == v / 64 * 64 + v % 64
    ensures v / 4096 == v / 64 / 64
    ensures v / 262144 == v / 4096 / 64
  {
  }

  /** Decoding the encoding of one character recovers it, whatever follows. */
  lemma DecodeEncodeChar(c: char, rest: Bytes)
    ensures DecodeChar(EncodeChar(c) + rest) == Some((c, |EncodeChar(c)|))
  {
    var v := c as int;
    var b := EncodeChar(c) + rest;
    DivMod64(v);
    DivMod64(v / 64);
    DivMod64(v / 4096);
    if v < 0x80 {
    } else if v < 0x800 {
      assert b[0] as int == 0xC0 + v / 64;
      assert b[1] as int == 0x80 + v % 64;
      assert DecodeMulti(b, 2, v / 64) == Some(c);
    } else if v < 0x1_0000 {
      assert b[0] as int == 0xE0 + v / 4096;
      assert v / 4096 * 4096 + v / 64 % 64 * 64 + v % 64 == v;
      assert DecodeMulti(b, 3, v / 4096) == Some(c);
    } else {
      assert b[0] as int == 0xF0 + v / 262144;
      assert v / 262144 * 262144 + v / 4096 % 64 * 4096 + v / 64 % 64 * 64 + v % 64 == v;
      assert DecodeMulti(b, 4, v / 262144) == Some(c);
    }
  }

  /** UTF-8 round trip: decoding an encoded string gives the string back. */
  lemma {:induction false} DecodeEncode(s: string)
    ensures Decode(Encode(s)) == Some(s)
  {
    if |s| > 0 {
      var e := EncodeChar(s[0]);
      DecodeEncodeChar(s[0], Encode(s[1..]));
      assert (e + Encode(s[1..]))[|e|..] == Encode(s[1..]);
      DecodeEncode(s[1..]);
      assert [s[0]] + s[1..] == s;
    }
  }
}
