/** UTF-8, as `String::from_utf8` checks it and as a Rust `&str` stores it.

    Decoding is strict: overlong forms, surrogates, values above U+10FFFF,
    stray continuation bytes and truncated sequences are all rejected. The
    two round-trip lemmas show that `Decode` and `Encode` are inverse
    bijections between valid byte strings and Dafny strings (whose
    characters are Unicode scalar values). */
module Utf8 {
  import opened Base

  type Byte = b: int | 0 <= b < 0x100

  predicate IsContinuation(b: Byte) {
    0x80 <= b <= 0xBF
  }

  /** The first scalar value encoded at the front of `b`, and its length. */
  function DecodeFirst(b: seq<Byte>): (r: Option<(char, nat)>)
    requires b != []
    ensures r.Some? ==> 1 <= r.value.1 <= 4 && r.value.1 <= |b|
  {
    var v: seq<int> := b;
    var b0 := v[0];
    if b0 < 0x80 then
      Some((b0 as char, 1))
    else if 0xC2 <= b0 <= 0xDF then
      if |b| >= 2 && IsContinuation(v[1])
      then Some((((b0 - 0xC0) * 64 + (v[1] - 0x80)) as char, 2))
      else None
    else if 0xE0 <= b0 <= 0xEF then
      var lo := if b0 == 0xE0 then 0xA0 else 0x80;
      var hi := if b0 == 0xED then 0x9F else 0xBF;
      if |b| >= 3 && lo <= v[1] <= hi && IsContinuation(v[2])
      then Some((((b0 - 0xE0) * 4096 + (v[1] - 0x80) * 64 + (v[2] - 0x80)) as char, 3))
      else None
    else if 0xF0 <= b0 <= 0xF4 then
      var lo := if b0 == 0xF0 then 0x90 else 0x80;
      var hi := if b0 == 0xF4 then 0x8F else 0xBF;
      if |b| >= 4 && lo <= v[1] <= hi && IsContinuation(v[2]) && IsContinuation(v[3])
      then Some((((b0 - 0xF0) * 262144 + (v[1] - 0x80) * 4096 + (v[2] - 0x80) * 64 + (v[3] - 0x80)) as char, 4))
      else None
    else
      None
  }

  /** `String::from_utf8`: the text `b` encodes, or `None` if it is not UTF-8. */
  function Decode(b: seq<Byte>): (r: Option<string>)
    ensures r.Some? ==> |r.value| <= |b|
    decreases |b|
  {
    if b == [] then Some([])
    else match DecodeFirst(b)
      case None => None
      case Some((c, n)) =>
        match Decode(b[n..])
        case None => None
        case Some(rest) => Some([c] + rest)
  }

  /** The UTF-8 bytes of one scalar value. */
  function EncodeChar(c: char): (r: seq<Byte>)
    ensures 1 <= |r| <= 4
  {
    var cp := c as int;
    var a := cp % 64;
    var q1 := cp / 64;
    var b := q1 % 64;
    var q2 := q1 / 64;
    var d := q2 % 64;
    var q3 := q2 / 64;
    if cp < 0x80 then [cp]
    else if cp < 0x800 then [0xC0 + q1, 0x80 + a]
    else if cp < 0x10000 then [0xE0 + q2, 0x80 + b, 0x80 + a]
    else [0xF0 + q3, 0x80 + d, 0x80 + b, 0x80 + a]
  }

  /** The bytes a Rust `&str` holding `s` consists of. */
  function Encode(s: string): (r: seq<Byte>)
    ensures |s| <= |r|
  {
    if s == [] then [] else EncodeChar(s[0]) + Encode(s[1..])
  }

  lemma DecodeFirstEncodeChar(c: char, rest: seq<Byte>)
    ensures DecodeFirst(EncodeChar(c) + rest) == Some((c, |EncodeChar(c)|))
  {
    var cp := c as int;
    if cp < 0x80 {
    } else if cp < 0x800 {
      DecodeFirstTwo(c, rest);
    } else if cp < 0x10000 {
      DecodeFirstThree(c, rest);
    } else {
      DecodeFirstFour(c, rest);
    }
  }

  lemma DecodeFirstTwo(c: char, rest: seq<Byte>)
    requires 0x80 <= c as int < 0x800
    ensures DecodeFirst(EncodeChar(c) + rest) == Some((c, 2))
  {
    var cp := c as int;
    var a, q1 := cp % 64, cp / 64;
    assert EncodeChar(c) == [0xC0 + q1, 0x80 + a];
    assert (0xC0 + q1 - 0xC0) * 64 + a == cp;
  }

  lemma DecodeFirstThree(c: char, rest: seq<Byte>)
    requires 0x800 <= c as int < 0x10000
    ensures DecodeFirst(EncodeChar(c) + rest) == Some((c, 3))
  {
    var cp := c as int;
    var a, q1 := cp % 64, cp / 64;
    var b, q2 := q1 % 64, q1 / 64;
    assert EncodeChar(c) == [0xE0 + q2, 0x80 + b, 0x80 + a];
    assert q2 * 4096 + b * 64 + a == cp;
  }

  lemma DecodeFirstFour(c: char, rest: seq<Byte>)
    requires 0x10000 <= c as int
    ensures DecodeFirst(EncodeChar(c) + rest) == Some((c, 4))
  {
    var cp := c as int;
    var a, q1 := cp % 64, cp / 64;
    var b, q2 := q1 % 64, q1 / 64;
    var d, q3 := q2 % 64, q2 / 64;
    assert EncodeChar(c) == [0xF0 + q3, 0x80 + d, 0x80 + b, 0x80 + a];
    assert q3 * 262144 + d * 4096 + b * 64 + a == cp;
  }

  /** Decoding the encoding of a string gives the string back. */
  lemma {:induction false} DecodeEncode(s: string)
    ensures Decode(Encode(s)) == Some(s)
  {
    if s != [] {
      var e := EncodeChar(s[0]);
      DecodeFirstEncodeChar(s[0], Encode(s[1..]));
      assert (e + Encode(s[1..]))[|e|..] == Encode(s[1..]);
      DecodeEncode(s[1..]);
      assert s == [s[0]] + s[1..];
    }
  }

  lemma DivMod64(n: int, q: int, r: int)
    requires 0 <= r < 64 && n == 64 * q + r
    ensures n / 64 == q && n % 64 == r
  {
  }

  lemma EncodeCharDecodeFirst(b: seq<Byte>)
    requires b != [] && DecodeFirst(b).Some?
    ensures EncodeChar(DecodeFirst(b).value.0) == b[..DecodeFirst(b).value.1]
  {
    if b[0] < 0x80 {
    } else if b[0] <= 0xDF {
      var x, y := b[0] as int - 0xC0, b[1] as int - 0x80;
      assert DecodeFirst(b).value.0 as int == x * 64 + y;
      DivMod64(x * 64 + y, x, y);
    } else if b[0] <= 0xEF {
      var x, y, z := b[0] as int - 0xE0, b[1] as int - 0x80, b[2] as int - 0x80;
      var cp := x * 4096 + y * 64 + z;
      assert DecodeFirst(b).value.0 as int == cp;
      DivMod64(cp, x * 64 + y, z);
      DivMod64(x * 64 + y, x, y);
      assert b[..3] == [b[0], b[1], b[2]];
    } else {
      var w, x, y, z := b[0] as int - 0xF0, b[1] as int - 0x80, b[2] as int - 0x80, b[3] as int - 0x80;
      var cp := w * 262144 + x * 4096 + y * 64 + z;
      assert DecodeFirst(b).value.0 as int == cp;
      DivMod64(cp, w * 4096 + x * 64 + y, z);
      DivMod64(w * 4096 + x * 64 + y, w * 64 + x, y);
      DivMod64(w * 64 + x, w, x);
      assert b[..4] == [b[0], b[1], b[2], b[3]];
    }
  }

  /** Whatever `Decode` accepts is exactly the encoding of what it returns:
      there is only one way to write a string in UTF-8. */
  lemma {:induction false} EncodeDecode(b: seq<Byte>)
    requires Decode(b).Some?
    ensures Encode(Decode(b).value) == b
    decreases |b|
  {
    if b != [] {
      DecodeCons(b);
      var c, n := DecodeFirst(b).value.0, DecodeFirst(b).value.1;
      EncodeCharDecodeFirst(b);
      EncodeDecode(b[n..]);
      EncodeCons(b, c, n, Decode(b[n..]).value);
    }
  }

  lemma EncodeCons(b: seq<Byte>, c: char, n: nat, t: string)
    requires n <= |b| && b[..n] == EncodeChar(c) && Encode(t) == b[n..]
    ensures Encode([c] + t) == b
  {
    assert ([c] + t)[1..] == t;
    assert b == b[..n] + b[n..];
  }

  /** A decoded string is its first scalar value followed by the decoding of
      the bytes after it. */
  lemma DecodeCons(b: seq<Byte>)
    requires b != [] && Decode(b).Some?
    ensures DecodeFirst(b).Some?
    ensures Decode(b[DecodeFirst(b).value.1..]).Some?
    ensures Decode(b).value == [DecodeFirst(b).value.0] + Decode(b[DecodeFirst(b).value.1..]).value
  {
  }

  /** Only U+0000 is encoded with a zero byte, so a `&str` has an interior
      zero byte exactly when it holds a NUL character. */
  lemma {:induction false} ZeroByteIffNul(s: string)
    ensures 0 in Encode(s) <==> '\0' in s
  {
    if s != [] {
      var e := EncodeChar(s[0]);
      assert 0 in e <==> s[0] == '\0';
      ZeroByteIffNul(s[1..]);
      assert s == [s[0]] + s[1..];
    }
  }
}
