/**
 * The driver's string helpers: `to_u16_vec`, which turns a Rust string into NUL-terminated
 * UTF-16 as section 2.1 of RFC 2781 describes, and `create_unicode_string`, which wraps a
 * UTF-16 buffer in a Windows `UNICODE_STRING` whose lengths are counted in bytes.
 */
module DriverUtils {
  import opened Base

  /** How many UTF-16 units a scalar value needs: two for the supplementary planes. */
  function UnitCount(c: char): nat
  {
    if (c as int) < 0x1_0000 then 1 else 2
  }

  /**
   * `char::encode_utf16`: a code point below U+10000 is one unit equal to it; any other is
   * U' = U - 0x10000 split into a high surrogate 0xD800 + (U' >> 10) and a low surrogate
   * 0xDC00 + (U' & 0x3FF).
   */
  function EncodeScalar(c: char): (r: seq<uint16>)
    ensures |r| == UnitCount(c)
    ensures (c as int) < 0x1_0000 ==> r == [c as int]
    ensures (c as int) >= 0x1_0000 ==> 0xD800 <= r[0] < 0xDC00 <= r[1] < 0xE000
  {
    var n := c as int;
    if n < 0x1_0000 then [n]
    else
      var u := n - 0x1_0000;
      [0xD800 + u / 0x400, 0xDC00 + u % 0x400]
  }

  /** The UTF-16 form of a whole string: the scalars' units, in order. */
  function Encode(s: string): (r: seq<uint16>)
  {
    if s == [] then [] else EncodeScalar(s[0]) + Encode(s[1..])
  }

  /** Encoding one more character appends its units: what `to_u16_vec`'s loop relies on. */
  lemma {:induction false} EncodeAppend(s: string, c: char)
    ensures Encode(s + [c]) == Encode(s) + EncodeScalar(c)
  {
    if s != [] {
      assert (s + [c])[1..] == s[1..] + [c];
      EncodeAppend(s[1..], c);
    }
  }

  predicate IsHighSurrogate(w: uint16) { 0xD800 <= w < 0xDC00 }
  predicate IsLowSurrogate(w: uint16) { 0xDC00 <= w < 0xE000 }

  /** The code point a surrogate pair stands for. */
  function PairScalar(hi: uint16, lo: uint16): int
  {
    (hi - 0xD800) * 0x400 + (lo - 0xDC00) + 0x1_0000
  }

  /**
   * Section 2.2 of RFC 2781: a unit outside the surrogate range is a character by itself,
   * a high surrogate followed by a low surrogate is one character, any other surrogate is
   * an error.
   */
  function Decode(w: seq<uint16>): (r: Option<string>)
    decreases |w|
  {
    if w == [] then Some([])
    else if !IsHighSurrogate(w[0]) && !IsLowSurrogate(w[0]) then
      match Decode(w[1..])
      case None => None
      case Some(rest) => Some([w[0] as char] + rest)
    else if IsLowSurrogate(w[0]) || |w| < 2 || !IsLowSurrogate(w[1]) then None
    else
      match Decode(w[2..])
      case None => None
      case Some(rest) => Some([PairScalar(w[0], w[1]) as char] + rest)
  }

  /** Round trip: decoding the encoding of any string gives the string back. */
  lemma {:induction false} DecodeEncode(s: string)
    ensures Decode(Encode(s)) == Some(s)
  {
    if s != [] {
      var e := EncodeScalar(s[0]);
      var rest := Encode(s[1..]);
      assert (e + rest)[|e|..] == rest;
      DecodeEncode(s[1..]);
      if (s[0] as int) >= 0x1_0000 {
        var u := s[0] as int - 0x1_0000;
        assert u == (u / 0x400) * 0x400 + u % 0x400;
        assert PairScalar(e[0], e[1]) == s[0] as int;
      }
      assert [s[0]] + s[1..] == s;
    }
  }

  /** Only encodings decode: units that decode are exactly the encoding of what they decode to. */
  lemma {:induction false} EncodeDecode(w: seq<uint16>)
    requires Decode(w).Some?
    ensures Encode(Decode(w).value) == w
    decreases |w|
  {
    if w != [] {
      var s := Decode(w).value;
      if !IsHighSurrogate(w[0]) && !IsLowSurrogate(w[0]) {
        EncodeDecode(w[1..]);
        assert s[1..] == Decode(w[1..]).value;
        assert w == [w[0]] + w[1..];
      } else {
        EncodeDecode(w[2..]);
        assert s[1..] == Decode(w[2..]).value;
        PairSplits(w[0], w[1]);
        assert w == [w[0], w[1]] + w[2..];
      }
    }
  }

  lemma PairSplits(hi: uint16, lo: uint16)
    requires IsHighSurrogate(hi) && IsLowSurrogate(lo)
    ensures var u := PairScalar(hi, lo) - 0x1_0000;
      u / 0x400 == hi - 0xD800 && u % 0x400 == lo - 0xDC00
  {
  }

  /**
   * `to_u16_vec`: push the units of each character in turn, then one NUL unit. The result is
   * the string's UTF-16 encoding and a single appended 0, and everything but that 0 decodes
   * back to the string.
   */
  method ToU16Vec(s: string) returns (buf: seq<uint16>)
    ensures buf == Encode(s) + [0]
    ensures |buf| >= 1 && buf[|buf| - 1] == 0
    ensures Decode(buf[..|buf| - 1]) == Some(s)
  {
    buf := [];
    for i := 0 to |s|
      invariant buf == Encode(s[..i])
    {
      EncodeAppend(s[..i], s[i]);
      assert s[..i + 1] == s[..i] + [s[i]];
      buf := buf + EncodeScalar(s[i]);
    }
    assert s[..|s|] == s;
    buf := buf + [0];
    assert buf[..|buf| - 1] == Encode(s);
    DecodeEncode(s);
  }

  /** How many characters of `s` lie outside the Basic Multilingual Plane. */
  function WideCount(s: string): nat
  {
    if s == [] then 0 else (if (s[0] as int) >= 0x1_0000 then 1 else 0) + WideCount(s[1..])
  }

  /** The encoding's length is the number of characters plus one for each outside the BMP. */
  lemma {:induction false} EncodeLength(s: string)
    ensures |Encode(s)| == |s| + WideCount(s)
    ensures WideCount(s) == 0 ==> |Encode(s)| == |s|
  {
    if s != [] {
      EncodeLength(s[1..]);
    }
  }

  // ****************** UNICODE_STRING ******************

  /**
   * A Windows `UNICODE_STRING`: `Length` and `MaximumLength` in bytes, each a `u16`, and the
   * units `Buffer` points at.
   */
  datatype UnicodeString = UnicodeString(length: uint16, maximumLength: uint16, buffer: seq<uint16>)

  /** The units that count towards `Length`: all of them but one trailing NUL, if present. */
  function TextUnits(s: seq<uint16>): (r: seq<uint16>)
    ensures |s| > 0 && s[|s| - 1] == 0 ==> r + [0] == s
    ensures |s| == 0 || s[|s| - 1] != 0 ==> r == s
  {
    if |s| > 0 && s[|s| - 1] == 0 then s[..|s| - 1] else s
  }

  /**
   * `create_unicode_string`, as written: `None` for an empty buffer, otherwise `Length` twice
   * the unit count less a trailing NUL and `MaximumLength` twice the unit count, both cast
   * with `as u16`, which keeps the value modulo 2^16.
   */
  function CreateUnicodeString(s: seq<uint16>): (r: Option<UnicodeString>)
    ensures r.None? <==> s == []
    ensures r.Some? ==> r.value.buffer == s
  {
    var len := if |s| > 0 then |s| else 0;
    if len == 0 then None
    else
      var lenChecked := if s[len - 1] == 0 then len - 1 else len;
      Some(UnicodeString(AsU16(lenChecked * 2), AsU16(len * 2), s))
  }

  /**
   * While twice the unit count fits a `u16`, `Length` is the byte size of the text without
   * its terminator, `MaximumLength` the byte size of the whole buffer, and they differ by
   * exactly the two bytes of a terminator when there is one.
   */
  lemma UnicodeStringLengths(s: seq<uint16>)
    requires 0 < |s| <= 0x7FFF
    ensures var u := CreateUnicodeString(s).value;
      && u.maximumLength == 2 * |s|
      && u.length == 2 * |TextUnits(s)|
      && u.length <= u.maximumLength
      && (u.maximumLength - u.length == 2 <==> s[|s| - 1] == 0)
      && (u.maximumLength == u.length <==> s[|s| - 1] != 0)
  {
  }

  /**
   * Past that bound the casts wrap: a buffer of 0x8000 units ending in NUL gets
   * `MaximumLength` 0 and `Length` 0xFFFE, so `Length` exceeds the space it describes.
   */
  lemma UnicodeStringWraps(s: seq<uint16>)
    requires |s| == 0x8000 && s[|s| - 1] == 0
    ensures CreateUnicodeString(s).value.maximumLength == 0
    ensures CreateUnicodeString(s).value.length == 0xFFFE
  {
  }

  /**
   * `create_unicode_string` as evidently intended: refuse a buffer whose byte size does not
   * fit the `u16` fields, so the lengths are never truncated.
   */
  function CreateUnicodeStringChecked(s: seq<uint16>): (r: Option<UnicodeString>)
    ensures r.None? <==> s == [] || 2 * |s| > 0xFFFF
    ensures r.Some? ==> var u := r.value;
      && u.buffer == s
      && u.maximumLength == 2 * |s|
      && u.length == 2 * |TextUnits(s)|
      && u.length <= u.maximumLength
  {
    if 2 * |s| > 0xFFFF then None else CreateUnicodeString(s)
  }

  /**
   * On every non-empty buffer, `MaximumLength` is twice the unit count and `Length` twice the
   * count without a trailing NUL, each taken modulo 2^16 by the `as u16` cast.
   */
  lemma CreateUnicodeStringCasts(s: seq<uint16>)
    requires s != []
    ensures CreateUnicodeString(s).value.maximumLength == (2 * |s|) % 0x1_0000
    ensures CreateUnicodeString(s).value.length == (2 * |TextUnits(s)|) % 0x1_0000
  {
  }

  /** Where the byte size fits 16 bits the corrected function agrees with the one as written. */
  lemma CheckedAgrees(s: seq<uint16>)
    requires 2 * |s| <= 0xFFFF
    ensures CreateUnicodeStringChecked(s) == CreateUnicodeString(s)
  {
  }

  /**
   * The driver's composition `to_u16_vec` then `create_unicode_string`, as written: `Length`
   * counts the bytes of the string's UTF-16 units and `MaximumLength` adds the two of the
   * terminator.
   */
  lemma UnicodeStringOfU16Vec(s: string)
    requires |Encode(s)| < 0x7FFF
    ensures var u := CreateUnicodeString(Encode(s) + [0]);
      && u.Some?
      && u.value.length == 2 * |Encode(s)|
      && u.value.maximumLength == u.value.length + 2
      && Decode(u.value.buffer[..u.value.length / 2]) == Some(s)
  {
    var w := Encode(s) + [0];
    assert w[..|w| - 1] == Encode(s);
    DecodeEncode(s);
  }
}
