/**
 A paragraph under construction: text, fields and controls are appended in place while the
 character-shape runs record which shape is in force.
 */
module ParagraphBuilding {
  import opened HwpModel
  import Utf16

  const U32_MAX := 0xFFFF_FFFF

  // ----- Character-shape runs ------------------------------------------------------------

  /** Runs start at 0, move strictly right, and never start beyond the text. */
  ghost predicate RunsOk(runs: seq<ShapeRun>, len: nat) {
    && runs != [] && runs[0].start == 0
    && (forall i, j :: 0 <= i < j < |runs| ==> runs[i].start < runs[j].start)
    && runs[|runs| - 1].start <= len
  }

  /** The shape in force at a WCHAR position: that of the last run starting at or before it. */
  function ShapeAt(runs: seq<ShapeRun>, pos: nat): nat
    requires runs != [] && runs[0].start == 0
  {
    var last := runs[|runs| - 1];
    if last.start <= pos || |runs| == 1 then last.shape else ShapeAt(runs[..|runs| - 1], pos)
  }

  /** The runs after asking for `shape` from `position` on. */
  function WithShape(runs: seq<ShapeRun>, position: nat, shape: nat): seq<ShapeRun> {
    if runs != [] && runs[|runs| - 1].shape == shape then runs
    else if runs != [] && runs[|runs| - 1].start == position then
      runs[..|runs| - 1] + [ShapeRun(position, shape)]
    else runs + [ShapeRun(position, shape)]
  }

  lemma ShapeAtSnoc(runs: seq<ShapeRun>, run: ShapeRun, pos: nat)
    requires runs != [] && runs[0].start == 0
    ensures ShapeAt(runs + [run], pos) == if run.start <= pos then run.shape else ShapeAt(runs, pos)
  {
    assert (runs + [run])[..|runs|] == runs;
  }

  lemma WithShapeKeeps(runs: seq<ShapeRun>, position: nat, shape: nat)
    requires RunsOk(runs, position)
    ensures RunsOk(WithShape(runs, position, shape), position)
    ensures forall pos: nat :: pos < position ==> ShapeAt(WithShape(runs, position, shape), pos) == ShapeAt(runs, pos)
    ensures forall pos: nat :: pos >= position ==> ShapeAt(WithShape(runs, position, shape), pos) == shape
  {
    var last := |runs| - 1;
    if runs[last].shape != shape {
      forall pos: nat
        ensures ShapeAt(WithShape(runs, position, shape), pos) == if pos < position then ShapeAt(runs, pos) else shape
      {
        if runs[last].start != position {
          ShapeAtSnoc(runs, ShapeRun(position, shape), pos);
        } else if last > 0 {
          ShapeAtSnoc(runs[..last], ShapeRun(position, shape), pos);
        }
      }
    }
  }

  // ----- Appended content ----------------------------------------------------------------

  function TextChar(c: char): HwpChar {
    if c == '\t' then InlineCtrl(TAB) else Text(c)
  }

  function TextChars(value: string): seq<HwpChar> {
    seq(|value|, i requires 0 <= i < |value| => TextChar(value[i]))
  }

  /** The control data of a click-here field: parameter set header and the name as a BSTR. */
  function FieldData(name: string): seq<int> {
    Utf16.EncodeIsUnits(name);
    var units := Utf16.Encode(name);
    [0, 0, 1, 0, 1, 0, 1, 0] + Utf16.U32Le(|units| % 0x1_0000_0000) + Utf16.UnitBytes(units)
  }

  function FieldControl(name: string): Control {
    Generic(GenericControl("%clk", seq(11, _ => 0), [], [OpaqueRecord(CTRL_DATA_TAG, FieldData(name))], None, None))
  }

  /** The layout of a click-here field's data: header, length of the name in units, and its units. */
  lemma FieldDataLayout(name: string)
    requires |Utf16.Encode(name)| < 0x1_0000
    ensures var data, units := FieldData(name), Utf16.Encode(name);
      && |data| == 12 + 2 * |units| && data[..8] == [0, 0, 1, 0, 1, 0, 1, 0]
      && data[8] + 0x100 * data[9] == |units| && data[10] == data[11] == 0
      && Utf16.Bytes(data[12..]) && Utf16.BytesUnits(data[12..]) == units
    ensures var c := FieldControl(name);
      && c.Generic? && CtrlId(c) == "%clk" && |c.generic.data| == 11
      && (forall i :: 0 <= i < 11 ==> c.generic.data[i] == 0)
      && c.generic.rawChildren == [OpaqueRecord(CTRL_DATA_TAG, FieldData(name))]
      && c.generic.lists == [] && c.generic.equation == None && c.generic.rawXml == None
  {
    hide Utf16.Encode, Utf16.UnitBytes, Utf16.BytesUnits;
    Utf16.EncodeIsUnits(name);
    Utf16.BytesUnitsRoundTrip(Utf16.Encode(name));
    assert FieldData(name)[12..] == Utf16.UnitBytes(Utf16.Encode(name));
  }

  /** Text takes as many WCHARs as UTF-16 units; controls with a payload take eight, the others one. */
  lemma WidthsAreUnits(ch: HwpChar)
    ensures ch.Text? ==> WcharWidth(ch) == |Utf16.EncodeChar(ch.c)|
    ensures ch.CharCtrl? ==> WcharWidth(ch) == 1
    ensures ch.InlineCtrl? || ch.ExtCtrl? ==> WcharWidth(ch) == 8
  {
  }

  function FieldChars(value: string, index: nat): seq<HwpChar> {
    [ExtCtrl(FIELD_START, "%clk", Some(index))] + TextChars(value) + [InlineCtrl(FIELD_END)]
  }

  function Repeat(x: nat, n: nat): seq<nat> {
    seq(n, _ => x)
  }

  class ParagraphBuilder {
    var paraShape: nat
    var style: nat
    var chars: seq<HwpChar>
    var runs: seq<ShapeRun>
    var controls: seq<Control>
    var breakType: nat
    /** For every character, the shape that was in force when it was appended. */
    ghost var inForce: seq<nat>

    ghost predicate Valid()
      reads this
    {
      && Linked(chars, controls)
      && runs != [] && RunsOk(runs, WcharLen(chars))
      && |inForce| == |chars|
      && forall i :: 0 <= i < |chars| ==> ShapeAt(runs, WcharLen(chars[..i])) == inForce[i]
    }

    /** The shape the next character gets. */
    ghost function Current(): nat
      reads this
      requires runs != []
    {
      runs[|runs| - 1].shape
    }

    constructor (paraShape: nat, style: nat, shape: nat, breakType: nat)
      ensures Valid() && Current() == shape
      ensures chars == [] && controls == [] && inForce == [] && runs == [ShapeRun(0, shape)]
      ensures this.paraShape == paraShape && this.style == style && this.breakType == breakType
    {
      this.paraShape, this.style, this.breakType := paraShape, style, breakType;
      chars, controls, inForce := [], [], [];
      runs := [ShapeRun(0, shape)];
    }

    /** The finished paragraph, moved out of the builder. */
    function Freeze(): Paragraph
      reads this
    {
      Paragraph(paraShape, style, chars, runs, controls, breakType, 0, [])
    }

    lemma Extend(ch: HwpChar)
      requires Valid()
      ensures RunsOk(runs, WcharLen(chars + [ch]))
      ensures WcharLen(chars + [ch]) > WcharLen(chars)
      ensures forall i :: 0 <= i <= |chars| ==>
        ShapeAt(runs, WcharLen((chars + [ch])[..i])) == (inForce + [Current()])[i]
    {
      var all := chars + [ch];
      WcharLenConcat(chars, [ch]);
      assert WcharLen([ch]) == WcharWidth(ch) > 0 by {
        assert [ch][..0] == [];
      }
      forall i | 0 <= i <= |chars| ensures ShapeAt(runs, WcharLen(all[..i])) == (inForce + [Current()])[i] {
        assert all[..i] == chars[..i];
        if i == |chars| {
          assert chars[..i] == chars;
        }
      }
    }

    method PushChar(ch: HwpChar)
      requires Valid() && !ch.ExtCtrl?
      modifies this`chars, this`inForce
      ensures Valid()
      ensures chars == old(chars) + [ch]
      ensures inForce == old(inForce) + [old(Current())]
    {
      Extend(ch);
      LinkedSnocPlain(chars, controls, ch);
      chars := chars + [ch];
      inForce := inForce + [Current()];
    }

    /** Appends a control and the character that points at it; fails past 2^32 controls. */
    method AppendControl(code: nat, control: Control) returns (ok: bool)
      requires Valid()
      modifies this`chars, this`controls, this`inForce
      ensures Valid()
      ensures ok <==> old(|controls|) <= U32_MAX
      ensures ok ==>
        && chars == old(chars) + [ExtCtrl(code, CtrlId(control), Some(old(|controls|)))]
        && controls == old(controls) + [control]
        && inForce == old(inForce) + [old(Current())]
      ensures !ok ==> chars == old(chars) && controls == old(controls) && inForce == old(inForce)
    {
      if |controls| > U32_MAX {
        return false;
      }
      var ch := ExtCtrl(code, CtrlId(control), Some(|controls|));
      Extend(ch);
      LinkedSnocControl(chars, controls, code, control);
      chars := chars + [ch];
      controls := controls + [control];
      inForce := inForce + [Current()];
      return true;
    }

    method SetRunShape(shape: nat)
      requires Valid()
      modifies this`runs
      ensures Valid()
      ensures Current() == shape
      ensures runs == WithShape(old(runs), WcharLen(chars), shape)
    {
      var position := WcharLen(chars);
      WithShapeKeeps(runs, position, shape);
      forall i | 0 <= i < |chars| ensures WcharLen(chars[..i]) < position {
        assert chars == chars[..i] + chars[i..];
        WcharLenConcat(chars[..i], chars[i..]);
        NonEmptyIsWide(chars[i..]);
      }
      if runs[|runs| - 1].shape == shape {
        return;
      }
      if runs[|runs| - 1].start == position {
        runs := runs[|runs| - 1 := ShapeRun(position, shape)];
        assert runs == WithShape(old(runs), position, shape);
      } else {
        runs := runs + [ShapeRun(position, shape)];
      }
    }

    method AppendText(value: string)
      requires Valid()
      modifies this`chars, this`inForce
      ensures Valid()
      ensures chars == old(chars) + TextChars(value)
      ensures inForce == old(inForce) + Repeat(old(Current()), |value|)
    {
      hide Linked, RunsOk, ShapeAt, WcharLen;
      var i := 0;
      while i < |value|
        invariant 0 <= i <= |value| && Valid()
        invariant chars == old(chars) + TextChars(value)[..i]
        invariant inForce == old(inForce) + Repeat(old(Current()), i)
      {
        var c := value[i];
        if c == '\t' {
          PushChar(InlineCtrl(TAB));
        } else {
          PushChar(Text(c));
        }
        i := i + 1;
      }
    }

    /** A field: its start character takes the shape before it, the rest takes `shape`. */
    method AppendField(name: string, value: string, shape: nat) returns (ok: bool)
      requires Valid()
      modifies this`chars, this`runs, this`controls, this`inForce
      ensures Valid()
      ensures ok <==> old(|controls|) <= U32_MAX
      ensures ok ==>
        && chars == old(chars) + FieldChars(value, old(|controls|))
        && controls == old(controls) + [FieldControl(name)]
        && inForce == old(inForce) + ([old(Current())] + Repeat(shape, |value|) + [shape])
        && Current() == shape
      ensures !ok ==> chars == old(chars) && controls == old(controls) && runs == old(runs) && inForce == old(inForce)
    {
      ghost var cs, fs := chars, inForce;
      ghost var start, first := ExtCtrl(FIELD_START, "%clk", Some(|controls|)), Current();
      ok := AppendControl(FIELD_START, FieldControl(name));
      if !ok {
        return;
      }
      SetRunShape(shape);
      AppendText(value);
      PushChar(InlineCtrl(FIELD_END));
      Regroup(cs, [start], TextChars(value), [InlineCtrl(FIELD_END)]);
      Regroup(fs, [first], Repeat(shape, |value|), [shape]);
    }
  }

  lemma Regroup<T>(a: seq<T>, b: seq<T>, c: seq<T>, d: seq<T>)
    ensures a + b + c + d == a + (b + c + d)
  {
  }

  lemma NonEmptyIsWide(chars: seq<HwpChar>)
    requires chars != []
    ensures WcharLen(chars) > 0
  {
  }
}
