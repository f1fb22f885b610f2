/**
 The document tree shared by the compiler, the certifier, the address resolver and the
 bookmark editor: sections of paragraphs, whose controls hold further paragraphs.
 */
module HwpModel {

  datatype Option<+T> = None | Some(value: T)

  // Control character codes.
  const SECTION_COLUMN_DEF := 2
  const FIELD_START := 3
  const FIELD_END := 4
  const TAB := 9
  const LINE_BREAK := 10
  const OBJECT := 11
  const HEADER_FOOTER := 16
  const PAGE_CONTROL := 21
  const BOOKMARK := 22

  const CTRL_DATA_TAG := 0x57

  datatype HwpChar =
    | Text(c: char)
    | CharCtrl(code: nat)
    | InlineCtrl(code: nat)
    | ExtCtrl(code: nat, ctrlId: string, ctrlIndex: Option<nat>)

  /** A character-shape run: the shape in force from WCHAR position `start` on. */
  datatype ShapeRun = ShapeRun(start: nat, shape: nat)

  datatype OpaqueRecord = OpaqueRecord(tag: nat, data: seq<int>)

  datatype Equation = Equation(script: string, width: int, height: int, isInline: bool)

  datatype Picture = Picture(itemRef: string, width: int, height: int, treatAsChar: bool, zOrder: nat)

  datatype Cell = Cell(col: nat, row: nat, colSpan: nat, rowSpan: nat, width: int, height: int,
    paragraphs: seq<Paragraph>)

  datatype Table = Table(rows: nat, cols: nat, rowCellCounts: seq<nat>, width: int, height: int, cells: seq<Cell>)

  datatype ParagraphList = ParagraphList(paragraphs: seq<Paragraph>)

  datatype GenericControl = GenericControl(
    ctrlId: string,
    data: seq<int>,
    lists: seq<ParagraphList>,
    rawChildren: seq<OpaqueRecord>,
    equation: Option<Equation>,
    rawXml: Option<string>)

  datatype Control =
    | SectionDef
    | TableControl(table: Table)
    | PictureControl(picture: Picture)
    | Generic(generic: GenericControl)

  datatype Paragraph = Paragraph(
    paraShape: nat,
    style: nat,
    chars: seq<HwpChar>,
    runs: seq<ShapeRun>,
    controls: seq<Control>,
    breakType: nat,
    ctrlMask: nat,
    lineSegs: seq<nat>)

  datatype Section = Section(paragraphs: seq<Paragraph>)

  datatype Document = Document(sections: seq<Section>)

  function CtrlId(control: Control): string {
    match control
    case SectionDef => "secd"
    case TableControl(_) => "tbl "
    case PictureControl(_) => "gso "
    case Generic(g) => g.ctrlId
  }

  lemma CtrlIds(table: Table, picture: Picture, generic: GenericControl)
    ensures CtrlId(SectionDef) == "secd" && CtrlId(TableControl(table)) == "tbl "
    ensures CtrlId(PictureControl(picture)) == "gso " && CtrlId(Generic(generic)) == generic.ctrlId
  {
  }

  // ----- WCHAR positions -----------------------------------------------------------------

  /** The number of WCHARs a character takes: one or two for text, eight for controls. */
  function WcharWidth(ch: HwpChar): nat {
    match ch
    case Text(c) => if c as int < 0x10000 then 1 else 2
    case CharCtrl(_) => 1
    case InlineCtrl(_) => 8
    case ExtCtrl(_, _, _) => 8
  }

  function WcharLen(chars: seq<HwpChar>): nat {
    if chars == [] then 0 else WcharLen(chars[..|chars| - 1]) + WcharWidth(chars[|chars| - 1])
  }

  lemma {:induction false} WcharLenConcat(a: seq<HwpChar>, b: seq<HwpChar>)
    ensures WcharLen(a + b) == WcharLen(a) + WcharLen(b)
  {
    if b == [] {
      assert a + b == a;
    } else {
      assert (a + b)[..|a + b| - 1] == a + b[..|b| - 1];
      WcharLenConcat(a, b[..|b| - 1]);
    }
  }

  // ----- Characters paired with controls -------------------------------------------------

  function ExtCount(chars: seq<HwpChar>): nat {
    if chars == [] then 0
    else ExtCount(chars[..|chars| - 1]) + if chars[|chars| - 1].ExtCtrl? then 1 else 0
  }

  lemma {:induction false} ExtCountConcat(a: seq<HwpChar>, b: seq<HwpChar>)
    ensures ExtCount(a + b) == ExtCount(a) + ExtCount(b)
  {
    if b == [] {
      assert a + b == a;
    } else {
      assert (a + b)[..|a + b| - 1] == a + b[..|b| - 1];
      ExtCountConcat(a, b[..|b| - 1]);
    }
  }

  lemma {:induction false} ExtCountPrefix(chars: seq<HwpChar>, i: nat)
    requires i < |chars|
    ensures ExtCount(chars[..i]) + (if chars[i].ExtCtrl? then 1 else 0) <= ExtCount(chars)
  {
    assert chars == chars[..i + 1] + chars[i + 1..];
    ExtCountConcat(chars[..i + 1], chars[i + 1..]);
    assert chars[..i + 1][..i] == chars[..i];
  }

  /** The `ExtCtrl` at position `i` names the control in its place of appearance. */
  predicate LinkedAt(chars: seq<HwpChar>, controls: seq<Control>, i: nat)
    requires i < |chars|
  {
    chars[i].ExtCtrl? ==>
      var k := ExtCount(chars[..i]);
      && chars[i].ctrlIndex == Some(k)
      && k < |controls| && chars[i].ctrlId == CtrlId(controls[k])
  }

  /** As many `ExtCtrl` characters as controls, paired in order. */
  ghost predicate Linked(chars: seq<HwpChar>, controls: seq<Control>) {
    && ExtCount(chars) == |controls|
    && forall i :: 0 <= i < |chars| ==> LinkedAt(chars, controls, i)
  }

  lemma LinkedSnocPlain(chars: seq<HwpChar>, controls: seq<Control>, ch: HwpChar)
    requires Linked(chars, controls) && !ch.ExtCtrl?
    ensures Linked(chars + [ch], controls)
  {
    var all := chars + [ch];
    assert all[..|all| - 1] == chars;
    forall i | 0 <= i < |all| ensures LinkedAt(all, controls, i) {
      if i < |chars| {
        assert LinkedAt(chars, controls, i);
        assert all[..i] == chars[..i];
      }
    }
  }

  lemma LinkedSnocControl(chars: seq<HwpChar>, controls: seq<Control>, code: nat, control: Control)
    requires Linked(chars, controls)
    ensures Linked(chars + [ExtCtrl(code, CtrlId(control), Some(|controls|))], controls + [control])
  {
    var all := chars + [ExtCtrl(code, CtrlId(control), Some(|controls|))];
    assert all[..|all| - 1] == chars;
    forall i | 0 <= i < |all| ensures LinkedAt(all, controls + [control], i) {
      if i < |chars| {
        assert LinkedAt(chars, controls, i);
        assert all[..i] == chars[..i];
      }
    }
  }

  // ----- Recursive statistics ------------------------------------------------------------

  /** What the recursive walks over a document count. */
  datatype Stats = Stats(paragraphs: nat, tables: nat, pictures: nat, equations: nat, fields: nat, unresolved: nat) {
    function Plus(that: Stats): Stats {
      Stats(paragraphs + that.paragraphs, tables + that.tables, pictures + that.pictures,
            equations + that.equations, fields + that.fields, unresolved + that.unresolved)
    }
  }

  const NO_STATS := Stats(0, 0, 0, 0, 0, 0)

  function FieldStarts(chars: seq<HwpChar>): nat {
    if chars == [] then 0
    else FieldStarts(chars[..|chars| - 1]) + if IsFieldStart(chars[|chars| - 1]) then 1 else 0
  }

  predicate IsFieldStart(ch: HwpChar) {
    ch.ExtCtrl? && ch.code == FIELD_START
  }

  /** A field start whose control index is missing or points at no control. */
  predicate IsUnresolved(ch: HwpChar, controls: nat) {
    IsFieldStart(ch) && !(ch.ctrlIndex.Some? && ch.ctrlIndex.value < controls)
  }

  function Unresolved(chars: seq<HwpChar>, controls: nat): nat {
    if chars == [] then 0
    else Unresolved(chars[..|chars| - 1], controls) + if IsUnresolved(chars[|chars| - 1], controls) then 1 else 0
  }

  function ParagraphStats(p: Paragraph): Stats
    decreases p
  {
    Stats(1, 0, 0, 0, FieldStarts(p.chars), Unresolved(p.chars, |p.controls|)).Plus(ControlsStats(p.controls))
  }

  function ControlsStats(controls: seq<Control>): Stats
    decreases controls
  {
    if controls == [] then NO_STATS
    else ControlsStats(controls[..|controls| - 1]).Plus(ControlStats(controls[|controls| - 1]))
  }

  function ControlStats(control: Control): Stats
    decreases control
  {
    match control
    case SectionDef => NO_STATS
    case TableControl(t) => Stats(0, 1, 0, 0, 0, 0).Plus(CellsStats(t.cells))
    case PictureControl(_) => Stats(0, 0, 1, 0, 0, 0)
    case Generic(g) => Stats(0, 0, 0, if g.equation.Some? then 1 else 0, 0, 0).Plus(ListsStats(g.lists))
  }

  function CellsStats(cells: seq<Cell>): Stats
    decreases cells
  {
    if cells == [] then NO_STATS
    else CellsStats(cells[..|cells| - 1]).Plus(ParagraphsStats(cells[|cells| - 1].paragraphs))
  }

  function ListsStats(lists: seq<ParagraphList>): Stats
    decreases lists
  {
    if lists == [] then NO_STATS
    else ListsStats(lists[..|lists| - 1]).Plus(ParagraphsStats(lists[|lists| - 1].paragraphs))
  }

  function ParagraphsStats(ps: seq<Paragraph>): Stats
    decreases ps
  {
    if ps == [] then NO_STATS
    else ParagraphsStats(ps[..|ps| - 1]).Plus(ParagraphStats(ps[|ps| - 1]))
  }

  function SectionsStats(sections: seq<Section>): Stats {
    if sections == [] then NO_STATS
    else SectionsStats(sections[..|sections| - 1]).Plus(ParagraphsStats(sections[|sections| - 1].paragraphs))
  }

  function DocumentStats(doc: Document): Stats {
    SectionsStats(doc.sections)
  }

  lemma ParagraphsStatsSnoc(ps: seq<Paragraph>, p: Paragraph)
    ensures ParagraphsStats(ps + [p]) == ParagraphsStats(ps).Plus(ParagraphStats(p))
  {
    assert (ps + [p])[..|ps + [p]| - 1] == ps;
  }

  lemma SectionsStatsSnoc(sections: seq<Section>, s: Section)
    ensures SectionsStats(sections + [s]) == SectionsStats(sections).Plus(ParagraphsStats(s.paragraphs))
  {
    assert (sections + [s])[..|sections + [s]| - 1] == sections;
  }

  lemma PlusAssociates(a: Stats, b: Stats, c: Stats)
    ensures a.Plus(b).Plus(c) == a.Plus(b.Plus(c))
  {
  }

  lemma {:induction false} ParagraphsStatsConcat(a: seq<Paragraph>, b: seq<Paragraph>)
    ensures ParagraphsStats(a + b) == ParagraphsStats(a).Plus(ParagraphsStats(b))
  {
    if b == [] {
      assert a + b == a;
    } else {
      var c, p := b[..|b| - 1], b[|b| - 1];
      assert a + b == (a + c) + [p] && b == c + [p];
      ParagraphsStatsSnoc(a + c, p);
      ParagraphsStatsSnoc(c, p);
      ParagraphsStatsConcat(a, c);
      PlusAssociates(ParagraphsStats(a), ParagraphsStats(c), ParagraphStats(p));
    }
  }

  lemma {:induction false} SectionsStatsConcat(a: seq<Section>, b: seq<Section>)
    ensures SectionsStats(a + b) == SectionsStats(a).Plus(SectionsStats(b))
  {
    if b == [] {
      assert a + b == a;
    } else {
      var c, s := b[..|b| - 1], b[|b| - 1];
      assert a + b == (a + c) + [s] && b == c + [s];
      SectionsStatsSnoc(a + c, s);
      SectionsStatsSnoc(c, s);
      SectionsStatsConcat(a, c);
      PlusAssociates(SectionsStats(a), SectionsStats(c), ParagraphsStats(s.paragraphs));
    }
  }

  lemma {:induction false} LinkedResolves(chars: seq<HwpChar>, controls: seq<Control>, upTo: nat)
    requires Linked(chars, controls) && upTo <= |chars|
    ensures Unresolved(chars[..upTo], |controls|) == 0
  {
    if upTo > 0 {
      LinkedResolves(chars, controls, upTo - 1);
      assert chars[..upTo][..upTo - 1] == chars[..upTo - 1];
      assert LinkedAt(chars, controls, upTo - 1);
    }
  }
}
