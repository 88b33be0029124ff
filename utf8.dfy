/**
 * The UTF-8 view of a Swift `String` (`s.utf8`), which the response body turns
 * into the `[UInt8]` buffer it writes and whose `count` it reports as the
 * content length. Dafny's `char` is a Unicode scalar value, as are the
 * elements a Swift string's UTF-8 view is produced from.
 *
 * A decoder is given beside the encoder as its partner: every encoding decodes
 * back to the string it came from, so two different strings never produce the
 * same body bytes.
 */
module Utf8 {
  import opened Wrappers

  /** Swift's `UInt8`. */
  newtype uint8 = x: int | 0 <= x < 0x100

  /** Number of bytes UTF-8 uses for the scalar value `c`. */
  function Width(c: char): (w: nat)
    ensures 1 <= w <= 4
    ensures w == 1 <==> (c as int) < 0x80
  {
    var n := c as int;
    if n < 0x80 then 1 else if n < 0x800 then 2 else if n < 0x1_0000 then 3 else 4
  }

  /** A continuation byte `10xxxxxx` carrying the six bits `k`. */
  function Cont(k: int): uint8
    requires 0 <= k < 64
  {
    (0x80 + k) as uint8
  }

  /** UTF-8 bytes of one scalar value. */
  function EncodeScalar(c: char): (b: seq<uint8>)
    ensures |b| == Width(c)
  {
    var n := c as int;
    if n < 0x80 then [n as uint8]
    else if n < 0x800 then [(0xC0 + n / 64) as uint8, Cont(n % 64)]
    else if n < 0x1_0000 then
      [(0xE0 + n / 4096) as uint8, Cont((n / 64) % 64), Cont(n % 64)]
    else
      [(0xF0 + n / 262144) as uint8, Cont((n / 4096) % 64), Cont((n / 64) % 64), Cont(n % 64)]
  }

  /** `Array(s.utf8)`: the UTF-8 bytes of a string, scalar by scalar. */
  function Encode(s: string): (b: seq<uint8>)
    ensures |b| >= |s|
  {
    if s == [] then [] else EncodeScalar(s[0]) + Encode(s[1..])
  }

  /** A UTF-8 continuation byte, `10xxxxxx`. */
  predicate IsCont(b: uint8) {
    0x80 <= b < 0xC0
  }

  /**
   * Decodes the first scalar value of `b`, returning it with the number of
   * bytes it took; None when `b` does not start with a well-formed sequence
   * (stray continuation byte, overlong form, surrogate, value past U+10FFFF).
   */
  function DecodeFirst(b: seq<uint8>): (r: Option<(char, nat)>)
    requires |b| > 0
    ensures r.Some? ==> 1 <= r.value.1 <= |b|
  {
    var b0 := b[0] as int;
    if b0 < 0x80 then Some((b0 as char, 1))
    else if 0xC2 <= b0 < 0xE0 && |b| >= 2 && IsCont(b[1]) then
      var n := (b0 - 0xC0) * 64 + (b[1] as int - 0x80);
      Some((n as char, 2))
    else if 0xE0 <= b0 < 0xF0 && |b| >= 3 && IsCont(b[1]) && IsCont(b[2]) then
      var n := (b0 - 0xE0) * 4096 + (b[1] as int - 0x80) * 64 + (b[2] as int - 0x80);
      if 0x800 <= n && !(0xD800 <= n < 0xE000) then Some((n as char, 3)) else None
    else if 0xF0 <= b0 < 0xF5 && |b| >= 4 && IsCont(b[1]) && IsCont(b[2]) && IsCont(b[3]) then
      var n := (b0 - 0xF0) * 262144 + (b[1] as int - 0x80) * 4096
               + (b[2] as int - 0x80) * 64 + (b[3] as int - 0x80);
      if 0x1_0000 <= n < 0x11_0000 then Some((n as char, 4)) else None
    else None
  }

  /** Decodes a whole byte buffer; None when any part of it is malformed. */
  function Decode(b: seq<uint8>): (r: Option<string>)
    decreases |b|
  {
    if b == [] then Some([])
    else
      match DecodeFirst(b)
      case None => None
      case Some((c, w)) =>
        match Decode(b[w..])
        case None => None
        case Some(rest) => Some([c] + rest)
  }

  /** A string all of whose scalars are ASCII. */
  predicate IsAscii(s: string) {
    forall i :: 0 <= i < |s| ==> (s[i] as int) < 0x80
  }

  /** The first scalar's encoding is read back, whatever follows it. */
  lemma DecodeFirstEncodeScalar(c: char, rest: seq<uint8>)
    ensures DecodeFirst(EncodeScalar(c) + rest) == Some((c, Width(c)))
  {
    var n := c as int;
    if n < 0x80 {
    } else if n < 0x800 {
      DecodeTwo(c, rest);
    } else if n < 0x1_0000 {
      DecodeThree(c, rest);
    } else {
      DecodeFour(c, rest);
    }
  }

  // The three lemmas below each read back one encoding width. Their assertions
  // spell out the byte values and the division and remainder steps the proofs
  // rely on.

  /** A two-byte encoding decodes to its scalar. */
  lemma DecodeTwo(c: char, rest: seq<uint8>)
    requires 0x80 <= c as int < 0x800
    ensures DecodeFirst(EncodeScalar(c) + rest) == Some((c, 2))
  {
    var n := c as int;
    var b := EncodeScalar(c) + rest;
    assert b[0] as int == 0xC0 + n / 64 && b[1] as int == 0x80 + n % 64;
    assert (n / 64) * 64 + n % 64 == n;
  }

  /** A three-byte encoding decodes to its scalar. */
  lemma DecodeThree(c: char, rest: seq<uint8>)
    requires 0x800 <= c as int < 0x1_0000
    ensures DecodeFirst(EncodeScalar(c) + rest) == Some((c, 3))
  {
    var n := c as int;
    var b := EncodeScalar(c) + rest;
    var hi, mid, lo := n / 4096, (n / 64) % 64, n % 64;
    assert b[0] as int == 0xE0 + hi && b[1] as int == 0x80 + mid && b[2] as int == 0x80 + lo;
    assert hi * 4096 + mid * 64 + lo == n by {
      assert n / 64 == hi * 64 + mid;
      assert (n / 64) * 64 + lo == n;
    }
  }

  /** A four-byte encoding decodes to its scalar. */
  lemma DecodeFour(c: char, rest: seq<uint8>)
    requires 0x1_0000 <= c as int
    ensures DecodeFirst(EncodeScalar(c) + rest) == Some((c, 4))
  {
    var n := c as int;
    var b := EncodeScalar(c) + rest;
    var top, hi, mid, lo := n / 262144, (n / 4096) % 64, (n / 64) % 64, n % 64;
    assert b[0] as int == 0xF0 + top && b[1] as int == 0x80 + hi;
    assert b[2] as int == 0x80 + mid && b[3] as int == 0x80 + lo;
    assert top * 262144 + hi * 4096 + mid * 64 + lo == n by {
      assert n / 4096 == top * 64 + hi;
      assert n / 64 == (n / 4096) * 64 + mid;
      assert (n / 64) * 64 + lo == n;
    }
  }

  /** Decoding undoes encoding: distinct strings have distinct UTF-8 bytes. */
  lemma {:induction false} DecodeEncode(s: string)
    ensures Decode(Encode(s)) == Some(s)
  {
    if s != [] {
      var head := EncodeScalar(s[0]);
      var b := Encode(s);
      assert b == head + Encode(s[1..]);
      DecodeFirstEncodeScalar(s[0], Encode(s[1..]));
      assert b[|head|..] == Encode(s[1..]);
      DecodeEncode(s[1..]);
      assert [s[0]] + s[1..] == s;
    }
  }

  /** Encoding a concatenation concatenates the encodings. */
  lemma {:induction false} EncodeAppend(s: string, t: string)
    ensures Encode(s + t) == Encode(s) + Encode(t)
  {
    if s == [] {
      assert s + t == t;
    } else {
      assert (s + t)[0] == s[0] && (s + t)[1..] == s[1..] + t;
      EncodeAppend(s[1..], t);
    }
  }

  /** An ASCII string encodes to one byte per character, each its own code. */
  lemma {:induction false} EncodeAscii(s: string)
    requires IsAscii(s)
    ensures |Encode(s)| == |s|
    ensures forall i :: 0 <= i < |s| ==> Encode(s)[i] as int == s[i] as int
  {
    if s != [] {
      assert IsAscii(s[1..]);
      EncodeAscii(s[1..]);
    }
  }
}
