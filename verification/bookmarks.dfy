/**
 Bookmarks: listing them, and inserting one behind the first occurrence of an anchor text.
 */
module Bookmarks {
  import opened HwpModel
  import opened BookmarkCodec
  import opened TextSearch
  import Utf16
  import PB = ParagraphBuilding

  const BOKM := "bokm"
  const MARK_WIDTH := 8

  // ----- Listing -------------------------------------------------------------------------

  predicate IsMark(ch: HwpChar) {
    ch.ExtCtrl? && ch.code == BOOKMARK && ch.ctrlId == BOKM
  }

  /** The first control-data record. */
  function CtrlData(records: seq<OpaqueRecord>): Option<OpaqueRecord> {
    if records == [] then None
    else if records[0].tag == CTRL_DATA_TAG then Some(records[0])
    else CtrlData(records[1..])
  }

  function BookmarkName(control: Control): Option<string> {
    if !control.Generic? then None
    else
      var record := CtrlData(control.generic.rawChildren);
      if record.None? || !Utf16.Bytes(record.value.data) then None else DecodeName(record.value.data)
  }

  /** The name behind a bookmark character, empty when it leads to none. */
  function NameOf(ch: HwpChar, controls: seq<Control>): string {
    if ch.ExtCtrl? && ch.ctrlIndex.Some? && ch.ctrlIndex.value < |controls| then
      var name := BookmarkName(controls[ch.ctrlIndex.value]);
      if name.Some? then name.value else ""
    else ""
  }

  /** A mark without a control, or with one that has no readable name, stands for the empty name. */
  lemma NameOfMark(ch: HwpChar, controls: seq<Control>)
    requires IsMark(ch)
    ensures ch.ctrlIndex.None? ==> NameOf(ch, controls) == ""
    ensures ch.ctrlIndex.Some? && ch.ctrlIndex.value >= |controls| ==> NameOf(ch, controls) == ""
    ensures ch.ctrlIndex.Some? && ch.ctrlIndex.value < |controls| ==>
      match BookmarkName(controls[ch.ctrlIndex.value])
      case Some(name) => NameOf(ch, controls) == name
      case None => NameOf(ch, controls) == ""
  {
    hide BookmarkName;
  }

  /** The names in a paragraph's own text, in order. */
  function OwnNames(chars: seq<HwpChar>, controls: seq<Control>): seq<string> {
    if chars == [] then []
    else
      var last := chars[|chars| - 1];
      OwnNames(chars[..|chars| - 1], controls) + if IsMark(last) then [NameOf(last, controls)] else []
  }

  function Names(p: Paragraph): seq<string>
    decreases p
  {
    OwnNames(p.chars, p.controls) + ControlsNames(p.controls)
  }

  function ControlsNames(controls: seq<Control>): seq<string>
    decreases controls
  {
    if controls == [] then [] else ControlNames(controls[0]) + ControlsNames(controls[1..])
  }

  function ControlNames(control: Control): seq<string>
    decreases control
  {
    match control
    case TableControl(t) => CellsNames(t.cells)
    case Generic(g) => ListsNames(g.lists)
    case _ => []
  }

  function CellsNames(cells: seq<Cell>): seq<string>
    decreases cells
  {
    if cells == [] then [] else ParagraphsNames(cells[0].paragraphs) + CellsNames(cells[1..])
  }

  function ListsNames(lists: seq<ParagraphList>): seq<string>
    decreases lists
  {
    if lists == [] then [] else ParagraphsNames(lists[0].paragraphs) + ListsNames(lists[1..])
  }

  function ParagraphsNames(ps: seq<Paragraph>): seq<string>
    decreases ps
  {
    if ps == [] then [] else Names(ps[0]) + ParagraphsNames(ps[1..])
  }

  function SectionsNames(sections: seq<Section>): seq<string> {
    if sections == [] then [] else ParagraphsNames(sections[0].paragraphs) + SectionsNames(sections[1..])
  }

  // ----- Relinking -----------------------------------------------------------------------

  /** Every `ExtCtrl` gets its place of appearance as its index. */
  function Relinked(chars: seq<HwpChar>): (r: seq<HwpChar>)
    ensures |r| == |chars|
  {
    if chars == [] then []
    else
      var front, last := chars[..|chars| - 1], chars[|chars| - 1];
      Relinked(front) + [if last.ExtCtrl? then last.(ctrlIndex := Some(ExtCount(front))) else last]
  }

  lemma {:induction false} RelinkedAt(chars: seq<HwpChar>, i: nat)
    requires i < |chars|
    ensures Relinked(chars)[i] == if chars[i].ExtCtrl? then chars[i].(ctrlIndex := Some(ExtCount(chars[..i])))
      else chars[i]
  {
    if i < |chars| - 1 {
      RelinkedAt(chars[..|chars| - 1], i);
      assert chars[..|chars| - 1][..i] == chars[..i];
    }
  }

  lemma {:induction false} RelinkedCount(chars: seq<HwpChar>, i: nat)
    requires i <= |chars|
    ensures ExtCount(Relinked(chars)[..i]) == ExtCount(chars[..i])
    decreases i
  {
    if i > 0 {
      RelinkedCount(chars, i - 1);
      RelinkedAt(chars, i - 1);
      assert Relinked(chars)[..i][..i - 1] == Relinked(chars)[..i - 1];
      assert chars[..i][..i - 1] == chars[..i - 1];
    }
  }

  method Relink(chars: seq<HwpChar>) returns (out: seq<HwpChar>)
    ensures out == Relinked(chars)
  {
    out := [];
    var next, i := 0, 0;
    while i < |chars|
      invariant 0 <= i <= |chars| && out == Relinked(chars[..i]) && next == ExtCount(chars[..i])
    {
      assert chars[..i + 1][..i] == chars[..i];
      var ch := chars[i];
      if ch.ExtCtrl? {
        ch := ch.(ctrlIndex := Some(next));
        next := next + 1;
      }
      out := out + [ch];
      i := i + 1;
    }
    assert chars[..i] == chars;
  }

  /** As many `ExtCtrl` characters as controls, with matching ids in order; indices may be anything. */
  ghost predicate Paired(chars: seq<HwpChar>, controls: seq<Control>) {
    && ExtCount(chars) == |controls|
    && forall i :: 0 <= i < |chars| ==> PairedAt(chars, controls, i)
  }

  predicate PairedAt(chars: seq<HwpChar>, controls: seq<Control>, i: nat)
    requires i < |chars|
  {
    chars[i].ExtCtrl? ==> ExtCount(chars[..i]) < |controls| && chars[i].ctrlId == CtrlId(controls[ExtCount(chars[..i])])
  }

  lemma RelinkedIsLinked(chars: seq<HwpChar>, controls: seq<Control>)
    requires Paired(chars, controls)
    ensures Linked(Relinked(chars), controls)
  {
    RelinkedCount(chars, |chars|);
    assert Relinked(chars)[..|chars|] == Relinked(chars) && chars[..|chars|] == chars;
    forall i | 0 <= i < |chars| ensures LinkedAt(Relinked(chars), controls, i) {
      assert PairedAt(chars, controls, i);
      RelinkedAt(chars, i);
      RelinkedCount(chars, i);
    }
  }

  lemma LinkedIsPaired(chars: seq<HwpChar>, controls: seq<Control>)
    requires Linked(chars, controls)
    ensures Paired(chars, controls)
  {
    forall i | 0 <= i < |chars| ensures PairedAt(chars, controls, i) {
      assert LinkedAt(chars, controls, i);
    }
  }

  // ----- Insertion into one paragraph ----------------------------------------------------

  const MARK := ExtCtrl(BOOKMARK, BOKM, None)

  function BookmarkControl(name: string): Control {
    Generic(GenericControl(BOKM, [], [], [OpaqueRecord(CTRL_DATA_TAG, MakeCtrlData(name))], None, None))
  }

  /** The control holds one record, the control data of the name, and no paragraphs. */
  lemma BookmarkControlHolds(name: string)
    ensures var c := BookmarkControl(name);
      && c.Generic? && CtrlId(c) == "bokm" && c.generic.data == [] && c.generic.lists == []
      && |c.generic.rawChildren| == 1 && c.generic.rawChildren[0].tag == CTRL_DATA_TAG
      && c.generic.rawChildren[0].data == MakeCtrlData(name)
      && c.generic.equation == None && c.generic.rawXml == None
  {
    hide MakeCtrlData;
  }

  function Inserted<T>(s: seq<T>, i: nat, x: T): seq<T>
    requires i <= |s|
  {
    s[..i] + [x] + s[i..]
  }

  function Smaller(a: nat, b: nat): nat {
    if a < b then a else b
  }

  /** The paragraph with a bookmark inserted as character `ins`, at WCHAR position `w`. */
  function WithBookmark(p: Paragraph, ins: nat, w: nat, name: string): Paragraph
    requires ins <= |p.chars|
  {
    var ci := Smaller(ExtCount(p.chars[..ins]), |p.controls|);
    var runs := Adjusted(p.runs, w, 0, MARK_WIDTH);
    p.(chars := Relinked(Inserted(p.chars, ins, MARK)),
       controls := Inserted(p.controls, ci, BookmarkControl(name)),
       runs := if runs == [] then [ShapeRun(0, 0)] else runs,
       ctrlMask := 0, lineSegs := [])
  }

  /** Where an old place of a sequence is after an insertion. */
  function After(i: nat, at: nat): nat {
    if i < at then i else i + 1
  }

  lemma InsertedAt<T>(s: seq<T>, at: nat, x: T, i: nat)
    requires at <= |s| && i < |s|
    ensures After(i, at) < |Inserted(s, at, x)| && Inserted(s, at, x)[After(i, at)] == s[i]
      && Inserted(s, at, x)[at] == x
  {
  }

  lemma CountAfter(chars: seq<HwpChar>, ins: nat, i: nat)
    requires ins <= |chars| && i < |chars|
    ensures ExtCount(Inserted(chars, ins, MARK)[..After(i, ins)]) == ExtCount(chars[..i]) + if i < ins then 0 else 1
    ensures ExtCount(Inserted(chars, ins, MARK)[..ins]) == ExtCount(chars[..ins])
    ensures i < ins ==> ExtCount(chars[..i]) + (if chars[i].ExtCtrl? then 1 else 0) <= ExtCount(chars[..ins])
    ensures i >= ins ==> ExtCount(chars[..ins]) <= ExtCount(chars[..i])
  {
    var all := Inserted(chars, ins, MARK);
    assert all[..ins] == chars[..ins];
    if i < ins {
      assert all[..i] == chars[..i] && chars[..ins][..i] == chars[..i];
      ExtCountPrefix(chars[..ins], i);
    } else {
      assert chars[..i] == chars[..ins] + chars[ins..i];
      assert all[..i + 1] == chars[..ins] + [MARK] + chars[ins..i];
      ExtCountConcat(chars[..ins], chars[ins..i]);
      ExtCountConcat(chars[..ins] + [MARK], chars[ins..i]);
      ExtCountConcat(chars[..ins], [MARK]);
      OneControl(MARK);
    }
  }

  lemma OneControl(ch: HwpChar)
    requires ch.ExtCtrl?
    ensures ExtCount([ch]) == 1
  {
    assert [ch][..0] == [];
    assert ExtCount([]) == 0;
  }

  /** Every old control is still behind its old character. */
  lemma PairKept(chars: seq<HwpChar>, controls: seq<Control>, ins: nat, name: string, i: nat)
    requires Paired(chars, controls) && ins <= |chars| && i < |chars| && chars[i].ExtCtrl?
    ensures var all, k := Inserted(chars, ins, MARK), ExtCount(chars[..ins]);
      && k <= |controls| && ExtCount(chars[..i]) < |controls| && After(i, ins) < |all|
      && ExtCount(all[..After(i, ins)]) == After(ExtCount(chars[..i]), k)
      && Inserted(controls, k, BookmarkControl(name))[ExtCount(all[..After(i, ins)])] == controls[ExtCount(chars[..i])]
  {
    hide BookmarkControl;
    CountWithin(chars, ins);
    CountAfter(chars, ins, i);
    assert PairedAt(chars, controls, i);
    InsertedAt(controls, ExtCount(chars[..ins]), BookmarkControl(name), ExtCount(chars[..i]));
  }

  lemma CountWithin(chars: seq<HwpChar>, ins: nat)
    requires ins <= |chars|
    ensures ExtCount(chars[..ins]) <= ExtCount(chars)
  {
    assert chars == chars[..ins] + chars[ins..];
    ExtCountConcat(chars[..ins], chars[ins..]);
  }

  /** Characters and controls stay paired in order. */
  lemma InsertionPairs(chars: seq<HwpChar>, controls: seq<Control>, ins: nat, name: string)
    requires Paired(chars, controls) && ins <= |chars|
    ensures ExtCount(chars[..ins]) <= |controls|
    ensures Paired(Inserted(chars, ins, MARK), Inserted(controls, ExtCount(chars[..ins]), BookmarkControl(name)))
  {
    hide BookmarkControl;
    var all, k := Inserted(chars, ins, MARK), ExtCount(chars[..ins]);
    CountWithin(chars, ins);
    var after := Inserted(controls, k, BookmarkControl(name));
    assert chars == chars[..ins] + chars[ins..];
    ExtCountConcat(chars[..ins], chars[ins..]);
    ExtCountConcat(chars[..ins] + [MARK], chars[ins..]);
    ExtCountConcat(chars[..ins], [MARK]);
    OneControl(MARK);
    BookmarkControlId(name);
    forall j | 0 <= j < |all| ensures PairedAt(all, after, j) {
      if j == ins {
        assert all[..ins] == chars[..ins];
      } else {
        var i := if j < ins then j else j - 1;
        InsertedAt(chars, ins, MARK, i);
        if chars[i].ExtCtrl? {
          assert PairedAt(chars, controls, i);
          PairKept(chars, controls, ins, name, i);
        }
      }
    }
  }

  lemma BookmarkControlId(name: string)
    ensures CtrlId(BookmarkControl(name)) == BOKM
  {
  }

  /** The bookmark's own control gives its name back, as long as the name fits its count. */
  lemma BookmarkControlName(name: string)
    requires |Utf16.Encode(name)| <= 0xFFFF
    ensures BookmarkName(BookmarkControl(name)) == Some(name)
  {
    hide MakeCtrlData, DecodeName;
    NameRoundTrip(name);
  }

  /** After the insertion, characters and controls are linked in order. */
  lemma InsertionLinks(p: Paragraph, ins: nat, w: nat, name: string)
    requires Paired(p.chars, p.controls) && ins <= |p.chars|
    ensures var q := WithBookmark(p, ins, w, name);
      && Linked(q.chars, q.controls)
      && q.chars == Relinked(Inserted(p.chars, ins, MARK))
      && ExtCount(p.chars[..ins]) <= |p.controls|
      && q.controls == Inserted(p.controls, ExtCount(p.chars[..ins]), BookmarkControl(name))
  {
    hide BookmarkControl, Adjusted, Relinked, Inserted;
    InsertionPairs(p.chars, p.controls, ins, name);
    RelinkedIsLinked(Inserted(p.chars, ins, MARK),
      Inserted(p.controls, ExtCount(p.chars[..ins]), BookmarkControl(name)));
  }
}
