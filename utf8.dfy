/**
 * Bytes and the UTF-8 encoding of one character (RFC 3629, sections 3 and 4).
 * `KeyCode::Char(c)` is written to the pty as `c.to_string().as_bytes()`,
 * which is exactly this encoding.
 */
module Utf8 {
  import opened Wrappers

  newtype byte = x: int | 0 <= x < 0x100

  /** A byte of the form 10xxxxxx, the tail of a multi-byte sequence. */
  predicate IsContinuation(b: byte) {
    0x80 <= b <= 0xBF
  }

  /** The byte 10xxxxxx carrying the six low bits of `v`. */
  function Tail(v: int): (b: byte)
    requires 0 <= v
    ensures IsContinuation(b) && b as int - 0x80 == v % 64
  {
    (0x80 + v % 64) as byte
  }

  /** The UTF-8 encoding of the scalar value of `c` (RFC 3629, section 3). */
  function Encode(c: char): (bs: seq<byte>)
    ensures 1 <= |bs| <= 4
    ensures |bs| == 1 <==> c as int < 0x80
    ensures |bs| == 1 ==> bs[0] as int == c as int
    ensures forall i :: 1 <= i < |bs| ==> IsContinuation(bs[i])
  {
    var cp := c as int;
    if cp < 0x80 then
      [cp as byte]
    else if cp < 0x800 then
      [(0xC0 + cp / 64) as byte, Tail(cp)]
    else if cp < 0x10000 then
      [(0xE0 + cp / 4096) as byte, Tail(cp / 64), Tail(cp)]
    else
      [(0xF0 + cp / 262144) as byte, Tail(cp / 4096), Tail(cp / 64), Tail(cp)]
  }

  /**
   * Decodes a byte sequence that is exactly one well-formed UTF-8 character
   * (the UTF8-char rule of RFC 3629, section 4): overlong forms, surrogates
   * and values above U+10FFFF are refused.
   */
  function Decode(bs: seq<byte>): (r: Option<char>)
    ensures r.Some? ==> 1 <= |bs| <= 4
  {
    if |bs| == 1 && bs[0] < 0x80 then
      Some(bs[0] as int as char)
    else if |bs| == 2 && 0xC2 <= bs[0] <= 0xDF && IsContinuation(bs[1]) then
      Some(((bs[0] as int - 0xC0) * 64 + (bs[1] as int - 0x80)) as char)
    else if |bs| == 3 && 0xE0 <= bs[0] <= 0xEF && IsContinuation(bs[1]) && IsContinuation(bs[2]) then
      var cp := (bs[0] as int - 0xE0) * 4096 + (bs[1] as int - 0x80) * 64 + (bs[2] as int - 0x80);
      if cp < 0x800 || 0xD800 <= cp <= 0xDFFF then None else Some(cp as char)
    else if |bs| == 4 && 0xF0 <= bs[0] <= 0xF4 && IsContinuation(bs[1]) && IsContinuation(bs[2])
            && IsContinuation(bs[3]) then
      var cp := (bs[0] as int - 0xF0) * 262144 + (bs[1] as int - 0x80) * 4096
                + (bs[2] as int - 0x80) * 64 + (bs[3] as int - 0x80);
      if cp < 0x10000 || 0x10FFFF < cp then None else Some(cp as char)
    else
      None
  }

  /** Splitting a number into a quotient and a six-bit remainder, and back. */
  lemma DivMod64(q: int, r: int)
    requires 0 <= q && 0 <= r < 64
    ensures (q * 64 + r) / 64 == q && (q * 64 + r) % 64 == r
  {
  }

  /** Encoding and decoding are inverse: a byte sequence decodes to `c` exactly when it is the encoding of `c`. */
  lemma EncodeDecode(c: char, bs: seq<byte>)
    ensures Decode(bs) == Some(c) <==> Encode(c) == bs
  {
    DecodeEncode(c);
    if Decode(bs) == Some(c) {
      EncodeOfDecoded(bs);
    }
  }

  lemma DecodeEncode(c: char)
    ensures Decode(Encode(c)) == Some(c)
  {
    var cp := c as int;
    if cp < 0x80 {
    } else if cp < 0x800 {
      DecodeEncode2(c);
    } else if cp < 0x10000 {
      DecodeEncode3(c);
    } else {
      DecodeEncode4(c);
    }
  }

  lemma DecodeEncode2(c: char)
    requires 0x80 <= c as int < 0x800
    ensures Decode(Encode(c)) == Some(c)
  {
    var cp := c as int;
    var bs := Encode(c);
    var q1, r1 := cp / 64, cp % 64;
    assert cp == q1 * 64 + r1;
    assert bs[0] as int - 0xC0 == q1 && bs[1] as int - 0x80 == r1;
  }

  lemma DecodeEncode3(c: char)
    requires 0x800 <= c as int < 0x10000
    ensures Decode(Encode(c)) == Some(c)
  {
    var cp := c as int;
    var bs := Encode(c);
    var q1, r1 := cp / 64, cp % 64;
    var q2, r2 := q1 / 64, q1 % 64;
    assert cp == q1 * 64 + r1 && q1 == q2 * 64 + r2;
    assert q2 == cp / 4096;
    assert bs[0] as int - 0xE0 == q2 && bs[1] as int - 0x80 == r2 && bs[2] as int - 0x80 == r1;
    assert q2 * 4096 + r2 * 64 + r1 == cp;
  }

  lemma DecodeEncode4(c: char)
    requires 0x10000 <= c as int
    ensures Decode(Encode(c)) == Some(c)
  {
    var cp := c as int;
    var bs := Encode(c);
    var q1, r1 := cp / 64, cp % 64;
    var q2, r2 := q1 / 64, q1 % 64;
    var q3, r3 := q2 / 64, q2 % 64;
    assert cp == q1 * 64 + r1 && q1 == q2 * 64 + r2 && q2 == q3 * 64 + r3;
    assert q2 == cp / 4096 && q3 == cp / 262144;
    assert bs[0] as int - 0xF0 == q3 && bs[1] as int - 0x80 == r3;
    assert bs[2] as int - 0x80 == r2 && bs[3] as int - 0x80 == r1;
    assert q3 * 262144 + r3 * 4096 + r2 * 64 + r1 == cp;
  }

  lemma EncodeOfDecoded(bs: seq<byte>)
    requires Decode(bs).Some?
    ensures Encode(Decode(bs).value) == bs
  {
    if |bs| == 2 {
      EncodeOfDecoded2(bs);
    } else if |bs| == 3 {
      EncodeOfDecoded3(bs);
    } else if |bs| == 4 {
      EncodeOfDecoded4(bs);
    }
  }

  lemma EncodeOfDecoded2(bs: seq<byte>)
    requires |bs| == 2 && Decode(bs).Some?
    ensures Encode(Decode(bs).value) == bs
  {
    var q, r := bs[0] as int - 0xC0, bs[1] as int - 0x80;
    DivMod64(q, r);
    var e := Encode(Decode(bs).value);
    assert e[0] == bs[0] && e[1] == bs[1];
  }

  lemma EncodeOfDecoded3(bs: seq<byte>)
    requires |bs| == 3 && Decode(bs).Some?
    ensures Encode(Decode(bs).value) == bs
  {
    var x, y, z := bs[0] as int - 0xE0, bs[1] as int - 0x80, bs[2] as int - 0x80;
    DivMod64(x * 64 + y, z);
    DivMod64(x, y);
    var e := Encode(Decode(bs).value);
    assert e[0] == bs[0] && e[1] == bs[1] && e[2] == bs[2];
  }

  lemma EncodeOfDecoded4(bs: seq<byte>)
    requires |bs| == 4 && Decode(bs).Some?
    ensures Encode(Decode(bs).value) == bs
  {
    var w, x, y, z := bs[0] as int - 0xF0, bs[1] as int - 0x80, bs[2] as int - 0x80, bs[3] as int - 0x80;
    DivMod64((w * 64 + x) * 64 + y, z);
    DivMod64(w * 64 + x, y);
    DivMod64(w, x);
    var e := Encode(Decode(bs).value);
    assert e[0] == bs[0] && e[1] == bs[1] && e[2] == bs[2] && e[3] == bs[3];
  }
}
