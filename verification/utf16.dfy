/**
 UTF-16 (section 2 of RFC 2781) and the little-endian byte forms used in control data.
 */
module Utf16 {

  const REPLACEMENT := 0xFFFD as char

  function EncodeChar(c: char): seq<int> {
    var v := c as int;
    if v < 0x10000 then [v]
    else [0xD800 + (v - 0x10000) / 0x400, 0xDC00 + (v - 0x10000) % 0x400]
  }

  function Encode(s: string): seq<int> {
    if s == [] then [] else EncodeChar(s[0]) + Encode(s[1..])
  }

  predicate IsUnit(u: int) {
    0 <= u < 0x10000
  }

  predicate Units(units: seq<int>) {
    forall i :: 0 <= i < |units| ==> IsUnit(units[i])
  }

  predicate IsHigh(u: int) {
    0xD800 <= u < 0xDC00
  }

  predicate IsLow(u: int) {
    0xDC00 <= u < 0xE000
  }

  /** Lossy decoding: a surrogate that is not half of a pair becomes U+FFFD. */
  function DecodeLossy(units: seq<int>): string
    requires Units(units)
  {
    if units == [] then []
    else if IsHigh(units[0]) && |units| > 1 && IsLow(units[1]) then
      [(0x10000 + (units[0] - 0xD800) * 0x400 + (units[1] - 0xDC00)) as char] + DecodeLossy(units[2..])
    else if IsHigh(units[0]) || IsLow(units[0]) then [REPLACEMENT] + DecodeLossy(units[1..])
    else [units[0] as char] + DecodeLossy(units[1..])
  }

  lemma {:induction false} EncodeIsUnits(s: string)
    ensures Units(Encode(s))
  {
    if s != [] {
      EncodeIsUnits(s[1..]);
    }
  }

  /** Encoding loses nothing, surrogate pairs included. */
  lemma {:induction false} DecodeEncode(s: string)
    ensures Units(Encode(s))
    ensures DecodeLossy(Encode(s)) == s
  {
    EncodeIsUnits(s);
    if s != [] {
      DecodeEncode(s[1..]);
      var units := Encode(s);
      if s[0] as int < 0x10000 {
        assert units[1..] == Encode(s[1..]);
      } else {
        assert units[2..] == Encode(s[1..]);
      }
    }
  }

  /** A decoded text never encodes to more units than it was decoded from. */
  lemma {:induction false} DecodeNoLonger(units: seq<int>)
    requires Units(units)
    ensures |Encode(DecodeLossy(units))| <= |units|
    decreases |units|
  {
    if units != [] {
      var s := DecodeLossy(units);
      if IsHigh(units[0]) && |units| > 1 && IsLow(units[1]) {
        DecodeNoLonger(units[2..]);
        assert s[1..] == DecodeLossy(units[2..]);
      } else {
        DecodeNoLonger(units[1..]);
        assert s[1..] == DecodeLossy(units[1..]);
      }
    }
  }

  // ----- Little-endian bytes -------------------------------------------------------------

  function U16Le(u: int): seq<int>
    requires IsUnit(u)
  {
    [u % 0x100, u / 0x100]
  }

  function U32Le(u: int): seq<int>
    requires 0 <= u < 0x1_0000_0000
  {
    [u % 0x100, u / 0x100 % 0x100, u / 0x1_0000 % 0x100, u / 0x100_0000]
  }

  /** The least significant byte comes first. */
  lemma LittleEndian(u: int)
    ensures IsUnit(u) ==> U16Le(u)[0] + 0x100 * U16Le(u)[1] == u
    ensures 0 <= u < 0x1_0000_0000 ==>
      var b := U32Le(u);
      && 0 <= b[0] < 0x100 && 0 <= b[1] < 0x100 && 0 <= b[2] < 0x100 && 0 <= b[3] < 0x100
      && b[0] + 0x100 * b[1] + 0x1_0000 * b[2] + 0x100_0000 * b[3] == u
  {
    if 0 <= u < 0x1_0000_0000 {
      var high := u / 0x100;
      var top := high / 0x100;
      assert u == 0x100 * high + u % 0x100;
      assert high == 0x100 * top + high % 0x100;
      assert top == u / 0x1_0000;
      assert top / 0x100 == u / 0x100_0000;
      assert top == 0x100 * (top / 0x100) + top % 0x100;
    }
  }

  function UnitBytes(units: seq<int>): seq<int>
    requires Units(units)
  {
    if units == [] then [] else U16Le(units[0]) + UnitBytes(units[1..])
  }

  predicate IsByte(b: int) {
    0 <= b < 0x100
  }

  predicate Bytes(bytes: seq<int>) {
    forall i :: 0 <= i < |bytes| ==> IsByte(bytes[i])
  }

  /** The 16-bit units of whole byte pairs; an odd last byte is dropped. */
  function BytesUnits(bytes: seq<int>): (units: seq<int>)
    requires Bytes(bytes)
    ensures Units(units)
    ensures |units| == |bytes| / 2
  {
    if |bytes| < 2 then [] else [bytes[0] + 0x100 * bytes[1]] + BytesUnits(bytes[2..])
  }

  lemma {:induction false} BytesUnitsRoundTrip(units: seq<int>)
    requires Units(units)
    ensures |UnitBytes(units)| == 2 * |units|
    ensures Bytes(UnitBytes(units))
    ensures BytesUnits(UnitBytes(units)) == units
  {
    if units != [] {
      BytesUnitsRoundTrip(units[1..]);
      assert UnitBytes(units)[2..] == UnitBytes(units[1..]);
    }
  }

  /** Taking whole units takes twice as many bytes. */
  lemma {:induction false} UnitBytesPrefix(units: seq<int>, k: nat)
    requires Units(units)
    requires k <= |units|
    ensures 2 * k <= |UnitBytes(units)|
    ensures UnitBytes(units)[..2 * k] == UnitBytes(units[..k])
  {
    BytesUnitsRoundTrip(units);
    if k > 0 {
      UnitBytesPrefix(units[1..], k - 1);
      var head, tail := U16Le(units[0]), UnitBytes(units[1..]);
      assert (head + tail)[..2 * k] == head + tail[..2 * (k - 1)];
      assert units[..k][1..] == units[1..][..k - 1];
    }
  }
}
