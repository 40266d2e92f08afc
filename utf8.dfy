/**
 * UTF-8 as Rust's `str::as_bytes` produces it and `core::str::from_utf8` accepts it
 * (RFC 3629): a Dafny `char` is a Unicode scalar value, as a Rust `char` is.
 */
module Utf8 {
  import opened Base

  /** The bytes of one scalar value: 1, 2, 3 or 4 of them by the size of the code point. */
  function EncodeScalar(c: char): (r: seq<byte>)
    ensures 1 <= |r| <= 4
    ensures |r| == 1 <==> (c as int) < 0x80
  {
    var n := c as int;
    if n < 0x80 then [n]
    else if n < 0x800 then [0xC0 + n / 0x40, 0x80 + n % 0x40]
    else if n < 0x1_0000 then [0xE0 + n / 0x1000, 0x80 + (n / 0x40) % 0x40, 0x80 + n % 0x40]
    else [0xF0 + n / 0x4_0000, 0x80 + (n / 0x1000) % 0x40, 0x80 + (n / 0x40) % 0x40, 0x80 + n % 0x40]
  }

  /** `s.as_bytes()`: the scalars' encodings, in order. */
  function Encode(s: string): (r: seq<byte>)
  {
    if s == [] then [] else EncodeScalar(s[0]) + Encode(s[1..])
  }

  predicate IsContinuation(b: byte) { 0x80 <= b < 0xC0 }

  /** The code point a two-byte sequence carries: 5 bits from the lead byte, 6 from the continuation. */
  function TwoByteScalar(b0: int, b1: int): int { (b0 - 0xC0) * 0x40 + (b1 - 0x80) }

  function ThreeByteScalar(b0: int, b1: int, b2: int): int
  {
    (b0 - 0xE0) * 0x1000 + (b1 - 0x80) * 0x40 + (b2 - 0x80)
  }

  function FourByteScalar(b0: int, b1: int, b2: int, b3: int): int
  {
    (b0 - 0xF0) * 0x4_0000 + (b1 - 0x80) * 0x1000 + (b2 - 0x80) * 0x40 + (b3 - 0x80)
  }

  /**
   * The scalar value at the head of `b` and the number of bytes it occupies, when `b` starts
   * with a well-formed sequence: no overlong form, no surrogate, nothing above U+10FFFF.
   */
  function DecodeFirst(b: seq<byte>): (r: Option<(char, nat)>)
    ensures r.Some? ==> 1 <= r.value.1 <= |b| && r.value.1 <= 4
  {
    if b == [] then None
    else
      var b0: int := b[0];
      if b0 < 0x80 then Some((b0 as char, 1))
      else if 0xC2 <= b0 < 0xE0 then
        if |b| < 2 || !IsContinuation(b[1]) then None
        else Some((TwoByteScalar(b0, b[1]) as char, 2))
      else if 0xE0 <= b0 < 0xF0 then
        if |b| < 3 || !IsContinuation(b[1]) || !IsContinuation(b[2]) then None
        else if b0 == 0xE0 && b[1] < 0xA0 then None
        else if b0 == 0xED && b[1] >= 0xA0 then None
        else Some((ThreeByteScalar(b0, b[1], b[2]) as char, 3))
      else if 0xF0 <= b0 < 0xF5 then
        if |b| < 4 || !IsContinuation(b[1]) || !IsContinuation(b[2]) || !IsContinuation(b[3]) then None
        else if b0 == 0xF0 && b[1] < 0x90 then None
        else if b0 == 0xF4 && b[1] >= 0x90 then None
        else Some((FourByteScalar(b0, b[1], b[2], b[3]) as char, 4))
      else None
  }

  /** `core::str::from_utf8(b)`: the string when every byte belongs to a well-formed sequence. */
  function Decode(b: seq<byte>): (r: Option<string>)
    decreases |b|
  {
    if b == [] then Some([])
    else match DecodeFirst(b)
      case None => None
      case Some((c, k)) =>
        match Decode(b[k..])
        case None => None
        case Some(rest) => Some([c] + rest)
  }

  /** Decoding the head of an encoded scalar gives back that scalar and its length. */
  lemma DecodeFirstEncodeScalar(c: char, rest: seq<byte>)
    ensures DecodeFirst(EncodeScalar(c) + rest) == Some((c, |EncodeScalar(c)|))
  {
    var n := c as int;
    if n < 0x80 {
    } else if n < 0x800 {
      DecodeFirstTwo(c, rest);
    } else if n < 0x1_0000 {
      DecodeFirstThree(c, rest);
    } else {
      DecodeFirstFour(c, rest);
    }
  }

  lemma DecodeFirstTwo(c: char, rest: seq<byte>)
    requires 0x80 <= c as int < 0x800
    ensures DecodeFirst(EncodeScalar(c) + rest) == Some((c, 2))
  {
    var n := c as int;
    assert n == (n / 0x40) * 0x40 + n % 0x40;
  }

  lemma DecodeFirstThree(c: char, rest: seq<byte>)
    requires 0x800 <= c as int < 0x1_0000
    ensures DecodeFirst(EncodeScalar(c) + rest) == Some((c, 3))
  {
    var n := c as int;
    assert n / 0x40 == (n / 0x1000) * 0x40 + (n / 0x40) % 0x40;
    assert n == (n / 0x40) * 0x40 + n % 0x40;
  }

  lemma DecodeFirstFour(c: char, rest: seq<byte>)
    requires 0x1_0000 <= c as int
    ensures DecodeFirst(EncodeScalar(c) + rest) == Some((c, 4))
  {
    var n := c as int;
    assert n / 0x1000 == (n / 0x4_0000) * 0x40 + (n / 0x1000) % 0x40;
    assert n / 0x40 == (n / 0x1000) * 0x40 + (n / 0x40) % 0x40;
    assert n == (n / 0x40) * 0x40 + n % 0x40;
  }

  /** Round trip: `from_utf8(s.as_bytes())` is `Ok(s)` for every string. */
  lemma {:induction false} DecodeEncode(s: string)
    ensures Decode(Encode(s)) == Some(s)
  {
    if s != [] {
      var e := EncodeScalar(s[0]);
      DecodeFirstEncodeScalar(s[0], Encode(s[1..]));
      assert (e + Encode(s[1..]))[|e|..] == Encode(s[1..]);
      DecodeEncode(s[1..]);
      assert [s[0]] + s[1..] == s;
    }
  }

  /** Only encodings decode: a byte sequence `from_utf8` accepts is exactly the encoding of its result. */
  lemma {:induction false} EncodeDecode(b: seq<byte>)
    requires Decode(b).Some?
    ensures Encode(Decode(b).value) == b
    decreases |b|
  {
    if b != [] {
      var c, k := DecodeStep(b);
      var s := Decode(b).value;
      var rest := Decode(b[k..]).value;
      assert EncodeScalar(c) == b[..k] by {
        EncodeScalarOfDecodeFirst(b);
      }
      assert Encode(rest) == b[k..] by {
        EncodeDecode(b[k..]);
      }
      assert s[0] == c && s[1..] == rest;
      assert Encode(s) == b[..k] + b[k..];
      assert b == b[..k] + b[k..];
    }
  }

  /** A well-formed non-empty `b` decodes to its head scalar followed by the rest's decoding. */
  lemma DecodeStep(b: seq<byte>) returns (c: char, k: nat)
    requires b != [] && Decode(b).Some?
    ensures DecodeFirst(b) == Some((c, k)) && 1 <= k <= |b|
    ensures Decode(b[k..]).Some? && Decode(b).value == [c] + Decode(b[k..]).value
  {
    c, k := DecodeFirst(b).value.0, DecodeFirst(b).value.1;
  }

  /** The scalar `DecodeFirst` reads re-encodes to exactly the bytes it consumed. */
  lemma EncodeScalarOfDecodeFirst(b: seq<byte>)
    requires DecodeFirst(b).Some?
    ensures EncodeScalar(DecodeFirst(b).value.0) == b[..DecodeFirst(b).value.1]
  {
    var k := DecodeFirst(b).value.1;
    if k == 2 {
      SplitTwo(b[0], b[1]);
    } else if k == 3 {
      SplitThree(b[0], b[1], b[2]);
    } else if k == 4 {
      SplitFour(b[0], b[1], b[2], b[3]);
    }
  }

  lemma DivMod64(n: int, q: int, r: int)
    requires 0 <= r < 0x40 && n == q * 0x40 + r
    ensures n / 0x40 == q && n % 0x40 == r
  {
  }

  lemma DivMod4096(n: int, q: int, r: int)
    requires 0 <= r < 0x1000 && n == q * 0x1000 + r
    ensures n / 0x1000 == q
  {
  }

  lemma DivMod262144(n: int, q: int, r: int)
    requires 0 <= r < 0x4_0000 && n == q * 0x4_0000 + r
    ensures n / 0x4_0000 == q
  {
  }

  lemma SplitTwo(b0: int, b1: int)
    requires 0xC2 <= b0 < 0xE0 && 0x80 <= b1 < 0xC0
    ensures var n := TwoByteScalar(b0, b1); n / 0x40 == b0 - 0xC0 && n % 0x40 == b1 - 0x80
  {
    DivMod64(TwoByteScalar(b0, b1), b0 - 0xC0, b1 - 0x80);
  }

  lemma SplitThree(b0: int, b1: int, b2: int)
    requires 0xE0 <= b0 < 0xF0 && 0x80 <= b1 < 0xC0 && 0x80 <= b2 < 0xC0
    ensures var n := ThreeByteScalar(b0, b1, b2);
      n / 0x1000 == b0 - 0xE0 && (n / 0x40) % 0x40 == b1 - 0x80 && n % 0x40 == b2 - 0x80
  {
    var n := ThreeByteScalar(b0, b1, b2);
    DivMod64(n, (b0 - 0xE0) * 0x40 + (b1 - 0x80), b2 - 0x80);
    DivMod64(n / 0x40, b0 - 0xE0, b1 - 0x80);
    DivMod4096(n, b0 - 0xE0, (b1 - 0x80) * 0x40 + (b2 - 0x80));
  }

  lemma SplitFour(b0: int, b1: int, b2: int, b3: int)
    requires 0xF0 <= b0 < 0xF5 && 0x80 <= b1 < 0xC0 && 0x80 <= b2 < 0xC0 && 0x80 <= b3 < 0xC0
    ensures var n := FourByteScalar(b0, b1, b2, b3);
      && n / 0x4_0000 == b0 - 0xF0 && (n / 0x1000) % 0x40 == b1 - 0x80
      && (n / 0x40) % 0x40 == b2 - 0x80 && n % 0x40 == b3 - 0x80
  {
    var n := FourByteScalar(b0, b1, b2, b3);
    DivMod64(n, (b0 - 0xF0) * 0x1000 + (b1 - 0x80) * 0x40 + (b2 - 0x80), b3 - 0x80);
    DivMod64(n / 0x40, (b0 - 0xF0) * 0x40 + (b1 - 0x80), b2 - 0x80);
    DivMod4096(n, (b0 - 0xF0) * 0x40 + (b1 - 0x80), (b2 - 0x80) * 0x40 + (b3 - 0x80));
    DivMod64(n / 0x1000, b0 - 0xF0, b1 - 0x80);
    DivMod262144(n, b0 - 0xF0, (b1 - 0x80) * 0x1000 + (b2 - 0x80) * 0x40 + (b3 - 0x80));
  }

  /** Every scalar below U+0080 is one byte equal to its code: ASCII text is its own encoding. */
  lemma {:induction false} EncodeAscii(s: string)
    requires forall i :: 0 <= i < |s| ==> (s[i] as int) < 0x80
    ensures |Encode(s)| == |s|
    ensures forall i :: 0 <= i < |s| ==> Encode(s)[i] == s[i] as int
  {
    if s != [] {
      EncodeAscii(s[1..]);
    }
  }
}
