/**
 The control data of a bookmark: a parameter set that holds the name as UTF-16 units after a
 16-bit count.
 */
module BookmarkCodec {
  import opened HwpModel
  import opened Utf16

  const HEADER := [0x1B, 0x02, 0x01, 0x00, 0x00, 0x00, 0x00, 0x40, 0x01, 0x00]

  /** The control data of a name; the count keeps only the low 16 bits of its length. */
  function MakeCtrlData(name: string): (data: seq<int>)
    ensures Bytes(data)
  {
    EncodeIsUnits(name);
    var units := Encode(name);
    BytesUnitsRoundTrip(units);
    HEADER + U16Le(|units| % 0x1_0000) + UnitBytes(units)
  }

  /** A 16-bit number in little-endian order. */
  function U16At(data: seq<int>, at: nat): int
    requires at + 2 <= |data|
  {
    data[at] + 0x100 * data[at + 1]
  }

  /** The layout: set id, item count, item id, type, length in units, and the units of the name. */
  lemma CtrlDataLayout(name: string)
    ensures var data, units := MakeCtrlData(name), Encode(name);
      && |data| == 12 + 2 * |units| && Bytes(data[12..])
      && U16At(data, 0) == 0x021B && U16At(data, 2) == 1
      && U16At(data, 4) == 0 && U16At(data, 6) == 0x4000 && U16At(data, 8) == 1
      && U16At(data, 10) == |units| % 0x1_0000 && BytesUnits(data[12..]) == units
  {
    hide Encode, UnitBytes, BytesUnits;
    EncodeIsUnits(name);
    BytesUnitsRoundTrip(Encode(name));
    assert MakeCtrlData(name)[12..] == UnitBytes(Encode(name));
  }

  /** The name in some control data; `None` when the data is too short for its count. */
  function DecodeName(data: seq<int>): Option<string>
    requires Bytes(data)
  {
    if |data| < 12 then None
    else
      var end := 12 + 2 * (data[10] + 0x100 * data[11]);
      if end > |data| then None else Some(DecodeLossy(BytesUnits(data[12..end])))
  }

  /** What decoding gives back: the units up to the count, and all of them while the count fits. */
  lemma DecodedPrefix(name: string)
    ensures var units := Encode(name);
      && Units(units) && Units(units[..|units| % 0x1_0000])
      && DecodeName(MakeCtrlData(name)) == Some(DecodeLossy(units[..|units| % 0x1_0000]))
  {
    hide Encode, DecodeLossy, UnitBytes, BytesUnits;
    EncodeIsUnits(name);
    var units := Encode(name);
    var k := |units| % 0x1_0000;
    var data := MakeCtrlData(name);
    BytesUnitsRoundTrip(units);
    assert data[10] == k % 0x100 && data[11] == k / 0x100;
    assert data[12..] == UnitBytes(units);
    assert data[12..12 + 2 * k] == UnitBytes(units)[..2 * k] by {
      UnitBytesPrefix(units, k);
    }
    UnitBytesPrefix(units, k);
    BytesUnitsRoundTrip(units[..k]);
  }

  /** A name survives exactly when it has at most 65535 units, surrogate pairs included. */
  lemma NameRoundTrip(name: string)
    ensures DecodeName(MakeCtrlData(name)) == Some(name) <==> |Encode(name)| <= 0xFFFF
  {
    hide DecodeName, MakeCtrlData, Encode, DecodeLossy;
    var units := Encode(name);
    DecodedPrefix(name);
    DecodeEncode(name);
    if |units| <= 0xFFFF {
      assert units[..|units| % 0x1_0000] == units;
    } else {
      DecodeNoLonger(units[..|units| % 0x1_0000]);
    }
  }
}
