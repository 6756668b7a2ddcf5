/** Unicode scalar values and their UTF-16 encoding, as in section 2.1 of
    RFC 2781.  Both hosts hand the replacement text to the OS as UTF-16 code
    units: macOS through `String.utf16`, Windows through the `char`s of a .NET
    string built by `char.ConvertFromUtf32`. */
module Utf16 {
  import opened Wrappers

  /** One UTF-16 code unit. */
  type Unit = x: int | 0 <= x < 0x1_0000

  /** A Unicode scalar value: a code point that is not a surrogate.  Swift's
      `Unicode.Scalar(UInt32)` is nil exactly outside this range, and .NET's
      `char.ConvertFromUtf32` throws exactly outside it. */
  predicate IsScalar(c: int) {
    (0 <= c <= 0xD7FF) || (0xE000 <= c <= 0x10FFFF)
  }

  predicate IsHighSurrogate(u: int) { 0xD800 <= u <= 0xDBFF }

  predicate IsLowSurrogate(u: int) { 0xDC00 <= u <= 0xDFFF }

  predicate AllScalars(cs: seq<int>) {
    forall i :: 0 <= i < |cs| ==> IsScalar(cs[i])
  }

  /** The scalar a surrogate pair stands for. */
  function Combine(high: int, low: int): int {
    0x1_0000 + (high - 0xD800) * 0x400 + (low - 0xDC00)
  }

  /** RFC 2781, section 2.1: a scalar below U+10000 is one unit; above it,
      U' = U - 0x10000 is split into a high surrogate carrying its upper ten
      bits and a low surrogate carrying its lower ten bits. */
  function EncodeScalar(c: int): (units: seq<Unit>)
    requires IsScalar(c)
    ensures |units| == (if c < 0x1_0000 then 1 else 2)
    ensures |units| == 1 ==> units[0] == c && !IsHighSurrogate(c) && !IsLowSurrogate(c)
    ensures |units| == 2 ==>
      IsHighSurrogate(units[0]) && IsLowSurrogate(units[1]) && Combine(units[0], units[1]) == c
  {
    if c < 0x1_0000 then [c]
    else
      var v := c - 0x1_0000;
      assert v == (v / 0x400) * 0x400 + v % 0x400;
      [0xD800 + v / 0x400, 0xDC00 + v % 0x400]
  }

  /** The UTF-16 form of a sequence of scalars, in order. */
  function Encode(cs: seq<int>): (units: seq<Unit>)
    requires AllScalars(cs)
    ensures |cs| <= |units| <= 2 * |cs|
  {
    if cs == [] then [] else EncodeScalar(cs[0]) + Encode(cs[1..])
  }

  /** Reads UTF-16 back into scalars; an unpaired surrogate is an error. */
  function Decode(units: seq<Unit>): (r: Option<seq<int>>)
    ensures r.Some? ==> AllScalars(r.value) && |r.value| <= |units|
    decreases |units|
  {
    if units == [] then Some([])
    else if IsHighSurrogate(units[0]) then
      if |units| >= 2 && IsLowSurrogate(units[1]) then
        match Decode(units[2..])
        case None => None
        case Some(rest) => Some([Combine(units[0], units[1])] + rest)
      else None
    else if IsLowSurrogate(units[0]) then None
    else
      match Decode(units[1..])
      case None => None
      case Some(rest) => Some([units[0]] + rest)
  }

  lemma {:induction false} EncodeAppend(a: seq<int>, b: seq<int>)
    requires AllScalars(a) && AllScalars(b)
    ensures AllScalars(a + b) && Encode(a + b) == Encode(a) + Encode(b)
  {
    if a == [] {
      assert a + b == b;
    } else {
      assert (a + b)[1..] == a[1..] + b;
      EncodeAppend(a[1..], b);
    }
  }

  /** Decoding undoes encoding: the units carry every scalar, in order. */
  lemma {:induction false} DecodeEncode(cs: seq<int>)
    requires AllScalars(cs)
    ensures Decode(Encode(cs)) == Some(cs)
  {
    if cs != [] {
      DecodeEncode(cs[1..]);
      var head, tail := EncodeScalar(cs[0]), Encode(cs[1..]);
      assert Encode(cs) == head + tail;
      if |head| == 1 {
        assert (head + tail)[1..] == tail;
        assert Decode(head + tail) == Some([cs[0]] + cs[1..]);
      } else {
        assert (head + tail)[2..] == tail;
        assert Decode(head + tail) == Some([cs[0]] + cs[1..]);
      }
      assert [cs[0]] + cs[1..] == cs;
    }
  }

  /** Encoding undoes decoding: well-formed UTF-16 is exactly the image of
      Encode, so the two are inverse bijections. */
  lemma {:induction false} EncodeDecode(units: seq<Unit>)
    requires Decode(units).Some?
    ensures Encode(Decode(units).value) == units
    decreases |units|
  {
    if units != [] {
      var cs := Decode(units).value;
      if IsHighSurrogate(units[0]) {
        EncodeDecode(units[2..]);
        var c := Combine(units[0], units[1]);
        assert cs == [c] + Decode(units[2..]).value;
        assert cs[1..] == Decode(units[2..]).value;
        assert c >= 0x1_0000;
        EncodeScalarPair(units[0], units[1]);
        assert units == units[..2] + units[2..];
      } else {
        EncodeDecode(units[1..]);
        assert cs[1..] == Decode(units[1..]).value;
        assert units == [units[0]] + units[1..];
      }
    }
  }

  lemma EncodeScalarPair(high: Unit, low: Unit)
    requires IsHighSurrogate(high) && IsLowSurrogate(low)
    ensures IsScalar(Combine(high, low)) && Combine(high, low) >= 0x1_0000
    ensures EncodeScalar(Combine(high, low)) == [high, low]
  {
    var v := Combine(high, low) - 0x1_0000;
    assert v == (high - 0xD800) * 0x400 + (low - 0xDC00);
    assert v / 0x400 == high - 0xD800;
    assert v % 0x400 == low - 0xDC00;
  }

  /** The scalars among `codes`, in order: what Swift keeps of the engine's
      code values when it builds `Character`s from them. */
  function Scalars(codes: seq<int>): (cs: seq<int>)
    ensures AllScalars(cs) && |cs| <= |codes|
  {
    if codes == [] then []
    else (if IsScalar(codes[0]) then [codes[0]] else []) + Scalars(codes[1..])
  }

  /** Filtering distributes over concatenation, so it keeps the relative
      order of the scalars it keeps. */
  lemma {:induction false} ScalarsAppend(a: seq<int>, b: seq<int>)
    ensures Scalars(a + b) == Scalars(a) + Scalars(b)
  {
    if a == [] {
      assert a + b == b;
    } else {
      var head := if IsScalar(a[0]) then [a[0]] else [];
      assert (a + b)[0] == a[0];
      assert (a + b)[1..] == a[1..] + b;
      ScalarsAppend(a[1..], b);
      calc {
        Scalars(a + b);
        head + Scalars(a[1..] + b);
        head + (Scalars(a[1..]) + Scalars(b));
        (head + Scalars(a[1..])) + Scalars(b);
      }
    }
  }

  /** A value is kept iff it occurs among the codes and is a scalar. */
  lemma {:induction false} ScalarsMembers(codes: seq<int>, c: int)
    ensures c in Scalars(codes) <==> c in codes && IsScalar(c)
  {
    if codes != [] {
      ScalarsMembers(codes[1..], c);
      assert codes == [codes[0]] + codes[1..];
    }
  }

  /** Nothing is dropped when every code is already a scalar. */
  lemma {:induction false} ScalarsOfScalars(codes: seq<int>)
    requires AllScalars(codes)
    ensures Scalars(codes) == codes
  {
    if codes != [] {
      ScalarsOfScalars(codes[1..]);
    }
  }
}
