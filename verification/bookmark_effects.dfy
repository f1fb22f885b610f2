/**
 What inserting a bookmark does to a document, said without the search that finds its place:
 which text changes and how, and that nothing else does.
 */
module BookmarkEffects {
  import opened HwpModel
  import opened TextSearch
  import opened Bookmarks
  import opened BookmarkInsertion
  import Utf16

  // ----- All texts of a document ---------------------------------------------------------

  type CharSeq = seq<HwpChar>

  /** The characters of every paragraph, a paragraph before those inside its controls. */
  function Texts(p: Paragraph): seq<CharSeq>
    decreases p
  {
    [p.chars] + ControlsTexts(p.controls)
  }

  function ControlsTexts(controls: seq<Control>): seq<CharSeq>
    decreases controls
  {
    if controls == [] then [] else ControlTexts(controls[0]) + ControlsTexts(controls[1..])
  }

  function ControlTexts(control: Control): seq<CharSeq>
    decreases control
  {
    match control
    case TableControl(t) => CellsTexts(t.cells)
    case Generic(g) => ListsTexts(g.lists)
    case _ => []
  }

  function CellsTexts(cells: seq<Cell>): seq<CharSeq>
    decreases cells
  {
    if cells == [] then [] else ParagraphsTexts(cells[0].paragraphs) + CellsTexts(cells[1..])
  }

  function ListsTexts(lists: seq<ParagraphList>): seq<CharSeq>
    decreases lists
  {
    if lists == [] then [] else ParagraphsTexts(lists[0].paragraphs) + ListsTexts(lists[1..])
  }

  function ParagraphsTexts(ps: seq<Paragraph>): seq<CharSeq>
    decreases ps
  {
    if ps == [] then [] else Texts(ps[0]) + ParagraphsTexts(ps[1..])
  }

  function SectionsTexts(sections: seq<Section>): seq<CharSeq> {
    if sections == [] then [] else ParagraphsTexts(sections[0].paragraphs) + SectionsTexts(sections[1..])
  }

  // ----- The text that changes -----------------------------------------------------------

  ghost predicate HasMatch(chars: CharSeq, anchor: string) {
    exists k: nat :: MatchAt(chars, anchor, k)
  }

  ghost predicate FirstMatchAt(chars: CharSeq, anchor: string, k: nat) {
    MatchAt(chars, anchor, k) && forall j: nat :: j < k ==> !MatchAt(chars, anchor, j)
  }

  /** A mark stands right behind the first match; control characters are numbered anew. */
  ghost predicate MarkedText(before: CharSeq, after: CharSeq, anchor: string) {
    exists k: nat :: FirstMatchAt(before, anchor, k) && k + |anchor| <= |before|
      && after == Relinked(Inserted(before, k + |anchor|, MARK))
  }

  /** Text `j` is the first with a match, and the only one that changes. */
  ghost predicate FirstMarked(before: seq<CharSeq>, after: seq<CharSeq>, anchor: string, j: nat) {
    && j < |before| == |after|
    && (forall i :: 0 <= i < j ==> !HasMatch(before[i], anchor))
    && MarkedText(before[j], after[j], anchor)
    && after == before[j := after[j]]
  }

  ghost predicate AnyMatch(texts: seq<CharSeq>, anchor: string) {
    exists i :: 0 <= i < |texts| && HasMatch(texts[i], anchor)
  }

  ghost predicate NoMatch(texts: seq<CharSeq>, anchor: string) {
    forall i :: 0 <= i < |texts| ==> !HasMatch(texts[i], anchor)
  }

  ghost predicate Marked(before: seq<CharSeq>, after: seq<CharSeq>, anchor: string) {
    exists j: nat :: FirstMarked(before, after, anchor, j)
  }

  lemma NoMatchBefore(a: seq<CharSeq>, b: seq<CharSeq>, anchor: string)
    requires NoMatch(a, anchor) && NoMatch(b, anchor)
    ensures NoMatch(a + b, anchor)
  {
  }

  lemma MarkedBefore(a: seq<CharSeq>, a': seq<CharSeq>, b: seq<CharSeq>, anchor: string)
    requires Marked(a, a', anchor)
    ensures Marked(a + b, a' + b, anchor)
  {
    hide HasMatch, MarkedText;
    var j: nat :| FirstMarked(a, a', anchor, j);
    assert FirstMarked(a + b, a' + b, anchor, j);
  }

  lemma MarkedBehind(a: seq<CharSeq>, b: seq<CharSeq>, b': seq<CharSeq>, anchor: string)
    requires NoMatch(a, anchor) && Marked(b, b', anchor)
    ensures Marked(a + b, a + b', anchor)
  {
    hide HasMatch, MarkedText;
    var j: nat :| FirstMarked(b, b', anchor, j);
    assert FirstMarked(a + b, a + b', anchor, |a| + j);
  }

  lemma {:induction false} SearchIsFirst(chars: CharSeq, anchor: string, i: nat)
    ensures var r := SearchFrom(chars, anchor, i);
      && (r.None? ==> forall j: nat :: i <= j ==> !MatchAt(chars, anchor, j))
      && (r.Some? ==> forall j: nat :: i <= j < r.value ==> !MatchAt(chars, anchor, j))
    decreases |chars| - i
  {
    if i < |chars| {
      SearchIsFirst(chars, anchor, i + 1);
    }
  }

  lemma {:induction false} ControlsTextsConcat(a: seq<Control>, b: seq<Control>)
    ensures ControlsTexts(a + b) == ControlsTexts(a) + ControlsTexts(b)
  {
    hide ControlTexts;
    if a == [] {
      assert a + b == b;
    } else {
      assert (a + b)[1..] == a[1..] + b;
      ControlsTextsConcat(a[1..], b);
    }
  }

  lemma NoNestedTexts(name: string)
    ensures ControlsTexts([BookmarkControl(name)]) == []
  {
    var mark := BookmarkControl(name);
    assert [mark][1..] == [];
    assert ListsTexts([]) == [] && ControlsTexts([]) == [];
    assert ControlTexts(mark) == [];
  }

  lemma NestedTextsKept(controls: seq<Control>, k: nat, name: string)
    requires k <= |controls|
    ensures ControlsTexts(Inserted(controls, k, BookmarkControl(name))) == ControlsTexts(controls)
  {
    hide ControlsTexts, BookmarkControl;
    var mark := BookmarkControl(name);
    assert controls == controls[..k] + controls[k..];
    ControlsTextsConcat(controls[..k], controls[k..]);
    ControlsTextsConcat(controls[..k] + [mark], controls[k..]);
    ControlsTextsConcat(controls[..k], [mark]);
    NoNestedTexts(name);
  }

  /** What came of one text, then of those behind it. */
  ghost predicate Effect(before: seq<CharSeq>, found: bool, after: seq<CharSeq>, anchor: string) {
    if found then Marked(before, after, anchor) else NoMatch(before, anchor)
  }

  lemma NothingToMatch(anchor: string)
    ensures NoMatch([], anchor)
  {
  }

  lemma EffectThen(a: seq<CharSeq>, b: seq<CharSeq>, found: bool, b': seq<CharSeq>, anchor: string)
    requires NoMatch(a, anchor) && Effect(b, found, b', anchor)
    ensures Effect(a + b, found, a + b', anchor)
  {
    hide NoMatch, Marked;
    if found {
      MarkedBehind(a, b, b', anchor);
    } else {
      NoMatchBefore(a, b, anchor);
    }
  }

  lemma InParagraphMarks(p: Paragraph, anchor: string, name: string)
    ensures InParagraph(p, anchor, name).None? ==> !HasMatch(p.chars, anchor)
    ensures InParagraph(p, anchor, name).Some? ==>
      Marked(Texts(p), Texts(InParagraph(p, anchor, name).value), anchor)
  {
    hide MatchAt, Relinked, Adjusted, BookmarkControl, WcharLen, Utf16Length, SearchFrom, ControlsTexts;
    SearchIsFirst(p.chars, anchor, 0);
    if InParagraph(p, anchor, name).Some? {
      var k := SearchFrom(p.chars, anchor, 0).value;
      var q := InParagraph(p, anchor, name).value;
      MatchFits(p.chars, anchor, k);
      NestedTextsKept(p.controls, Smaller(ExtCount(p.chars[..k + |anchor|]), |p.controls|), name);
      assert FirstMatchAt(p.chars, anchor, k);
      assert MarkedText(p.chars, q.chars, anchor);
      assert FirstMarked([p.chars], [q.chars], anchor, 0);
      MarkedBefore([p.chars], [q.chars], ControlsTexts(p.controls), anchor);
    }
  }

  // ----- The walk finds the first match, wherever it is ----------------------------------

  lemma {:induction false} ParagraphMarks(p: Paragraph, anchor: string, name: string)
    ensures var r := Created(p, anchor, name);
      Effect(Texts(p), r.Some?, if r.Some? then Texts(r.value) else [], anchor)
    decreases p
  {
    hide HasMatch, Marked, InParagraph, CreatedInControls, ControlsTexts;
    InParagraphMarks(p, anchor, name);
    if InParagraph(p, anchor, name).None? {
      ControlsMark(p.controls, anchor, name);
      var r := CreatedInControls(p.controls, anchor, name);
      EffectThen([p.chars], ControlsTexts(p.controls), r.Some?,
        if r.Some? then ControlsTexts(r.value) else [], anchor);
    }
  }

  lemma {:induction false} ControlsMark(controls: seq<Control>, anchor: string, name: string)
    ensures var r := CreatedInControls(controls, anchor, name);
      Effect(ControlsTexts(controls), r.Some?, if r.Some? then ControlsTexts(r.value) else [], anchor)
    decreases controls
  {
    hide HasMatch, Marked, NoMatch, CreatedInControl, ControlTexts;
    if controls == [] {
      NothingToMatch(anchor);
    } else {
      var first, rest := controls[0], controls[1..];
      ControlMarks(first, anchor, name);
      if CreatedInControl(first, anchor, name).Some? {
        var after := CreatedInControl(first, anchor, name).value;
        assert ([after] + rest)[1..] == rest;
        MarkedBefore(ControlTexts(first), ControlTexts(after), ControlsTexts(rest), anchor);
      } else {
        ControlsMark(rest, anchor, name);
        var r := CreatedInControls(rest, anchor, name);
        assert r.Some? ==> ([controls[0]] + r.value)[1..] == r.value;
        EffectThen(ControlTexts(first), ControlsTexts(rest), r.Some?,
          if r.Some? then ControlsTexts(r.value) else [], anchor);
      }
    }
  }

  lemma {:induction false} ControlMarks(control: Control, anchor: string, name: string)
    ensures var r := CreatedInControl(control, anchor, name);
      Effect(ControlTexts(control), r.Some?, if r.Some? then ControlTexts(r.value) else [], anchor)
    decreases control
  {
    hide HasMatch, Marked, CreatedInCells, CreatedInLists, CellsTexts, ListsTexts;
    match control
    case TableControl(t) => CellsMark(t.cells, anchor, name);
    case Generic(g) => ListsMark(g.lists, anchor, name);
    case _ =>
  }

  lemma {:induction false} CellsMark(cells: seq<Cell>, anchor: string, name: string)
    ensures var r := CreatedInCells(cells, anchor, name);
      Effect(CellsTexts(cells), r.Some?, if r.Some? then CellsTexts(r.value) else [], anchor)
    decreases cells
  {
    hide HasMatch, Marked, NoMatch, CreatedInParagraphs, ParagraphsTexts;
    if cells == [] {
      NothingToMatch(anchor);
    } else {
      var first, rest := cells[0].paragraphs, cells[1..];
      ParagraphsMark(first, anchor, name);
      if CreatedInParagraphs(first, anchor, name).Some? {
        var after := CreatedInParagraphs(first, anchor, name).value;
        assert ([cells[0].(paragraphs := after)] + rest)[1..] == rest;
        MarkedBefore(ParagraphsTexts(first), ParagraphsTexts(after), CellsTexts(rest), anchor);
      } else {
        CellsMark(rest, anchor, name);
        var r := CreatedInCells(rest, anchor, name);
        assert r.Some? ==> ([cells[0]] + r.value)[1..] == r.value;
        EffectThen(ParagraphsTexts(first), CellsTexts(rest), r.Some?,
          if r.Some? then CellsTexts(r.value) else [], anchor);
      }
    }
  }

  lemma {:induction false} ListsMark(lists: seq<ParagraphList>, anchor: string, name: string)
    ensures var r := CreatedInLists(lists, anchor, name);
      Effect(ListsTexts(lists), r.Some?, if r.Some? then ListsTexts(r.value) else [], anchor)
    decreases lists
  {
    hide HasMatch, Marked, NoMatch, CreatedInParagraphs, ParagraphsTexts;
    if lists == [] {
      NothingToMatch(anchor);
    } else {
      var first, rest := lists[0].paragraphs, lists[1..];
      ParagraphsMark(first, anchor, name);
      if CreatedInParagraphs(first, anchor, name).Some? {
        var after := CreatedInParagraphs(first, anchor, name).value;
        assert ([ParagraphList(after)] + rest)[1..] == rest;
        MarkedBefore(ParagraphsTexts(first), ParagraphsTexts(after), ListsTexts(rest), anchor);
      } else {
        ListsMark(rest, anchor, name);
        var r := CreatedInLists(rest, anchor, name);
        assert r.Some? ==> ([lists[0]] + r.value)[1..] == r.value;
        EffectThen(ParagraphsTexts(first), ListsTexts(rest), r.Some?,
          if r.Some? then ListsTexts(r.value) else [], anchor);
      }
    }
  }

  lemma {:induction false} ParagraphsMark(ps: seq<Paragraph>, anchor: string, name: string)
    ensures var r := CreatedInParagraphs(ps, anchor, name);
      Effect(ParagraphsTexts(ps), r.Some?, if r.Some? then ParagraphsTexts(r.value) else [], anchor)
    decreases ps
  {
    hide HasMatch, Marked, NoMatch, Created, Texts;
    if ps == [] {
      NothingToMatch(anchor);
    } else {
      var first, rest := ps[0], ps[1..];
      ParagraphMarks(first, anchor, name);
      if Created(first, anchor, name).Some? {
        var after := Created(first, anchor, name).value;
        assert ([after] + rest)[1..] == rest;
        MarkedBefore(Texts(first), Texts(after), ParagraphsTexts(rest), anchor);
      } else {
        ParagraphsMark(rest, anchor, name);
        var r := CreatedInParagraphs(rest, anchor, name);
        assert r.Some? ==> ([ps[0]] + r.value)[1..] == r.value;
        EffectThen(Texts(first), ParagraphsTexts(rest), r.Some?,
          if r.Some? then ParagraphsTexts(r.value) else [], anchor);
      }
    }
  }

  lemma {:induction false} SectionsMark(sections: seq<Section>, anchor: string, name: string)
    ensures var r := CreatedInSections(sections, anchor, name);
      Effect(SectionsTexts(sections), r.Some?, if r.Some? then SectionsTexts(r.value) else [], anchor)
    decreases sections
  {
    hide HasMatch, Marked, NoMatch, CreatedInParagraphs, ParagraphsTexts;
    if sections == [] {
      NothingToMatch(anchor);
    } else {
      var first, rest := sections[0].paragraphs, sections[1..];
      ParagraphsMark(first, anchor, name);
      if CreatedInParagraphs(first, anchor, name).Some? {
        var after := CreatedInParagraphs(first, anchor, name).value;
        assert ([Section(after)] + rest)[1..] == rest;
        MarkedBefore(ParagraphsTexts(first), ParagraphsTexts(after), SectionsTexts(rest), anchor);
      } else {
        SectionsMark(rest, anchor, name);
        var r := CreatedInSections(rest, anchor, name);
        assert r.Some? ==> ([sections[0]] + r.value)[1..] == r.value;
        EffectThen(ParagraphsTexts(first), SectionsTexts(rest), r.Some?,
          if r.Some? then SectionsTexts(r.value) else [], anchor);
      }
    }
  }

  /**
   An insertion succeeds exactly when some text at some depth has the anchor. The first such text,
   and no other, then has a mark right behind its first match.
   */
  lemma InsertedAtFirstMatch(sections: seq<Section>, anchor: string, name: string)
    ensures var texts, r := SectionsTexts(sections), CreatedInSections(sections, anchor, name);
      && (r.Some? <==> AnyMatch(texts, anchor))
      && (r.Some? ==> Marked(texts, SectionsTexts(r.value), anchor))
  {
    hide SectionsTexts, CreatedInSections, MatchAt, Relinked;
    SectionsMark(sections, anchor, name);
    var texts, r := SectionsTexts(sections), CreatedInSections(sections, anchor, name);
    if r.Some? {
      var j: nat :| FirstMarked(texts, SectionsTexts(r.value), anchor, j);
      assert HasMatch(texts[j], anchor);
    }
  }

  // ----- Nothing else changes ------------------------------------------------------------

  function Without<T>(s: seq<T>, i: nat): seq<T>
    requires i < |s|
  {
    s[..i] + s[i + 1..]
  }

  /** The paragraph without the control character at `k` and without its control. */
  function TakenOut(p: Paragraph, k: nat): Paragraph
    requires k < |p.chars| && ExtCount(p.chars[..k]) < |p.controls|
  {
    p.(chars := Relinked(Without(p.chars, k)), controls := Without(p.controls, ExtCount(p.chars[..k])))
  }

  /**
   Character `k` of `after` is a mark of that name, and taking it out gives `before`, but for the
   moved shape runs and the layout hints that are dropped.
   */
  ghost predicate MarkAdded(before: Paragraph, after: Paragraph, name: string, k: nat) {
    && k < |after.chars| && IsMark(after.chars[k]) && NameOf(after.chars[k], after.controls) == name
    && ExtCount(after.chars[..k]) < |after.controls|
    && TakenOut(after, k) == before.(runs := after.runs, ctrlMask := 0, lineSegs := [])
  }

  /** `after` is `before` with a mark in one paragraph, here or below, and cleared XML on the way there. */
  ghost predicate OneMark(before: Paragraph, after: Paragraph, name: string)
    decreases before
  {
    || (exists k: nat :: MarkAdded(before, after, name, k))
    || (after == before.(controls := after.controls) && OneMarkInControls(before.controls, after.controls, name))
  }

  ghost predicate OneMarkInControls(before: seq<Control>, after: seq<Control>, name: string)
    decreases before
  {
    exists i :: 0 <= i < |before| == |after| && after == before[i := after[i]]
      && OneMarkInControl(before[i], after[i], name)
  }

  ghost predicate OneMarkInControl(before: Control, after: Control, name: string)
    decreases before
  {
    match before
    case TableControl(t) =>
      && after.TableControl? && after.table == t.(cells := after.table.cells)
      && OneMarkInCells(t.cells, after.table.cells, name)
    case Generic(g) =>
      && after.Generic? && after.generic == g.(lists := after.generic.lists, rawXml := None)
      && OneMarkInLists(g.lists, after.generic.lists, name)
    case _ => false
  }

  ghost predicate OneMarkInCells(before: seq<Cell>, after: seq<Cell>, name: string)
    decreases before
  {
    exists i :: 0 <= i < |before| == |after| && after == before[i := after[i]]
      && after[i] == before[i].(paragraphs := after[i].paragraphs)
      && OneMarkInParagraphs(before[i].paragraphs, after[i].paragraphs, name)
  }

  ghost predicate OneMarkInLists(before: seq<ParagraphList>, after: seq<ParagraphList>, name: string)
    decreases before
  {
    exists i :: 0 <= i < |before| == |after| && after == before[i := after[i]]
      && OneMarkInParagraphs(before[i].paragraphs, after[i].paragraphs, name)
  }

  ghost predicate OneMarkInParagraphs(before: seq<Paragraph>, after: seq<Paragraph>, name: string)
    decreases before
  {
    exists i :: 0 <= i < |before| == |after| && after == before[i := after[i]] && OneMark(before[i], after[i], name)
  }

  ghost predicate OneMarkInSections(before: seq<Section>, after: seq<Section>, name: string) {
    exists i :: 0 <= i < |before| == |after| && after == before[i := after[i]]
      && OneMarkInParagraphs(before[i].paragraphs, after[i].paragraphs, name)
  }

  predicate SameButIndex(a: HwpChar, b: HwpChar) {
    if a.ExtCtrl? then b.ExtCtrl? && a.(ctrlIndex := None) == b.(ctrlIndex := None) else a == b
  }

  lemma {:induction false} RelinkedAlike(a: CharSeq, b: CharSeq)
    requires |a| == |b| && forall i :: 0 <= i < |a| ==> SameButIndex(a[i], b[i])
    ensures Relinked(a) == Relinked(b) && ExtCount(a) == ExtCount(b)
  {
    if a != [] {
      var last := |a| - 1;
      assert SameButIndex(a[last], b[last]);
      RelinkedAlike(a[..last], b[..last]);
    }
  }

  lemma LinkedStays(chars: CharSeq, controls: seq<Control>)
    requires Linked(chars, controls)
    ensures Relinked(chars) == chars
  {
    hide Relinked, Linked;
    forall i | 0 <= i < |chars| ensures Relinked(chars)[i] == chars[i] {
      RelinkedAt(chars, i);
      LinkedHere(chars, controls, i);
    }
  }

  lemma LinkedHere(chars: CharSeq, controls: seq<Control>, i: nat)
    requires Linked(chars, controls) && i < |chars|
    ensures LinkedAt(chars, controls, i)
  {
  }

  /** Taking the mark out of the text and numbering anew gives the old text back. */
  lemma TextBack(chars: CharSeq, controls: seq<Control>, ins: nat)
    requires Linked(chars, controls) && ins <= |chars|
    ensures var all := Relinked(Inserted(chars, ins, MARK));
      && ins < |all| && Relinked(Without(all, ins)) == chars
      && ExtCount(all[..ins]) == ExtCount(chars[..ins])
  {
    hide Relinked, Linked, ExtCount;
    var before := Inserted(chars, ins, MARK);
    var all := Relinked(before);
    forall i | 0 <= i < |chars| ensures SameButIndex(Without(all, ins)[i], chars[i]) {
      InsertedAt(chars, ins, MARK, i);
      RelinkedAt(before, After(i, ins));
      assert Without(all, ins)[i] == all[After(i, ins)];
    }
    RelinkedAlike(Without(all, ins), chars);
    LinkedStays(chars, controls);
    RelinkedCount(before, ins);
    assert before[..ins] == chars[..ins];
  }

  lemma BookmarkIsMark(p: Paragraph, ins: nat, w: nat, name: string)
    requires Linked(p.chars, p.controls) && ins <= |p.chars| && Fits(name)
    ensures MarkAdded(p, WithBookmark(p, ins, w, name), name, ins)
  {
    hide Relinked, Linked, ExtCount, BookmarkControl, Adjusted, IsMark, NameOf;
    var q := WithBookmark(p, ins, w, name);
    MarkNamed(p, ins, w, name);
    LinkedIsPaired(p.chars, p.controls);
    InsertionLinks(p, ins, w, name);
    TextBack(p.chars, p.controls, ins);
    var k := ExtCount(p.chars[..ins]);
    assert Without(Inserted(p.controls, k, BookmarkControl(name)), k) == p.controls;
  }

  lemma InParagraphAdds(p: Paragraph, anchor: string, name: string)
    requires InParagraph(p, anchor, name).Some? && Linked(p.chars, p.controls) && Fits(name)
    ensures exists k: nat :: MarkAdded(p, InParagraph(p, anchor, name).value, name, k)
  {
    hide WithBookmark, Linked, MatchAt, MarkAdded, WcharLen, Utf16Length;
    var k := SearchFrom(p.chars, anchor, 0).value;
    MatchFits(p.chars, anchor, k);
    BookmarkIsMark(p, k + |anchor|, WcharLen(p.chars[..k]) + Utf16Length(anchor), name);
  }

  lemma {:induction false} CreatedAdds(p: Paragraph, anchor: string, name: string)
    requires Created(p, anchor, name).Some? && LinkedThroughout(p) && Fits(name)
    ensures OneMark(p, Created(p, anchor, name).value, name)
    decreases p
  {
    hide InParagraph, CreatedInControls, Fits, Linked, ControlsLinked, MarkAdded, OneMarkInControls;
    if InParagraph(p, anchor, name).Some? {
      InParagraphAdds(p, anchor, name);
    } else {
      ControlsAdd(p.controls, anchor, name);
    }
  }

  lemma {:induction false} ControlsAdd(controls: seq<Control>, anchor: string, name: string)
    requires CreatedInControls(controls, anchor, name).Some? && ControlsLinked(controls) && Fits(name)
    ensures OneMarkInControls(controls, CreatedInControls(controls, anchor, name).value, name)
    decreases controls
  {
    hide CreatedInControl, ControlLinked, OneMarkInControl, Fits;
    var rest, out := controls[1..], CreatedInControls(controls, anchor, name).value;
    if CreatedInControl(controls[0], anchor, name).Some? {
      ControlAdds(controls[0], anchor, name);
      assert out == controls[0 := out[0]];
    } else {
      ControlsAdd(rest, anchor, name);
      var after := CreatedInControls(rest, anchor, name).value;
      var i :| 0 <= i < |rest| == |after| && after == rest[i := after[i]]
        && OneMarkInControl(rest[i], after[i], name);
      assert out == controls[i + 1 := out[i + 1]];
    }
  }

  lemma {:induction false} ControlAdds(control: Control, anchor: string, name: string)
    requires CreatedInControl(control, anchor, name).Some? && ControlLinked(control) && Fits(name)
    ensures OneMarkInControl(control, CreatedInControl(control, anchor, name).value, name)
    decreases control
  {
    hide CreatedInCells, CreatedInLists, CellsLinked, ListsLinked, OneMarkInCells, OneMarkInLists, Fits;
    match control
    case TableControl(t) => CellsAdd(t.cells, anchor, name);
    case Generic(g) => ListsAdd(g.lists, anchor, name);
  }

  lemma FirstCell(cells: seq<Cell>, ps: seq<Paragraph>, name: string)
    requires cells != [] && OneMarkInParagraphs(cells[0].paragraphs, ps, name)
    ensures OneMarkInCells(cells, [cells[0].(paragraphs := ps)] + cells[1..], name)
  {
    hide OneMarkInParagraphs;
    var out := [cells[0].(paragraphs := ps)] + cells[1..];
    assert out == cells[0 := out[0]];
  }

  lemma LaterCell(cells: seq<Cell>, after: seq<Cell>, name: string)
    requires cells != [] && OneMarkInCells(cells[1..], after, name)
    ensures OneMarkInCells(cells, [cells[0]] + after, name)
  {
    hide OneMarkInParagraphs;
    var rest, out := cells[1..], [cells[0]] + after;
    var i :| 0 <= i < |rest| == |after| && after == rest[i := after[i]]
      && after[i] == rest[i].(paragraphs := after[i].paragraphs)
      && OneMarkInParagraphs(rest[i].paragraphs, after[i].paragraphs, name);
    assert out == cells[i + 1 := out[i + 1]];
  }

  lemma {:induction false} CellsAdd(cells: seq<Cell>, anchor: string, name: string)
    requires CreatedInCells(cells, anchor, name).Some? && CellsLinked(cells) && Fits(name)
    ensures OneMarkInCells(cells, CreatedInCells(cells, anchor, name).value, name)
    decreases cells
  {
    hide CreatedInParagraphs, ParagraphsLinked, OneMarkInParagraphs, OneMarkInCells, Fits;
    if CreatedInParagraphs(cells[0].paragraphs, anchor, name).Some? {
      ParagraphsAdd(cells[0].paragraphs, anchor, name);
      FirstCell(cells, CreatedInParagraphs(cells[0].paragraphs, anchor, name).value, name);
    } else {
      CellsAdd(cells[1..], anchor, name);
      LaterCell(cells, CreatedInCells(cells[1..], anchor, name).value, name);
    }
  }

  lemma FirstList(lists: seq<ParagraphList>, ps: seq<Paragraph>, name: string)
    requires lists != [] && OneMarkInParagraphs(lists[0].paragraphs, ps, name)
    ensures OneMarkInLists(lists, [ParagraphList(ps)] + lists[1..], name)
  {
    hide OneMarkInParagraphs;
    var out := [ParagraphList(ps)] + lists[1..];
    assert out == lists[0 := out[0]];
  }

  lemma LaterList(lists: seq<ParagraphList>, after: seq<ParagraphList>, name: string)
    requires lists != [] && OneMarkInLists(lists[1..], after, name)
    ensures OneMarkInLists(lists, [lists[0]] + after, name)
  {
    hide OneMarkInParagraphs;
    var rest, out := lists[1..], [lists[0]] + after;
    var i :| 0 <= i < |rest| == |after| && after == rest[i := after[i]]
      && OneMarkInParagraphs(rest[i].paragraphs, after[i].paragraphs, name);
    assert out == lists[i + 1 := out[i + 1]];
  }

  lemma {:induction false} ListsAdd(lists: seq<ParagraphList>, anchor: string, name: string)
    requires CreatedInLists(lists, anchor, name).Some? && ListsLinked(lists) && Fits(name)
    ensures OneMarkInLists(lists, CreatedInLists(lists, anchor, name).value, name)
    decreases lists
  {
    hide CreatedInParagraphs, ParagraphsLinked, OneMarkInParagraphs, OneMarkInLists, Fits;
    if CreatedInParagraphs(lists[0].paragraphs, anchor, name).Some? {
      ParagraphsAdd(lists[0].paragraphs, anchor, name);
      FirstList(lists, CreatedInParagraphs(lists[0].paragraphs, anchor, name).value, name);
    } else {
      ListsAdd(lists[1..], anchor, name);
      LaterList(lists, CreatedInLists(lists[1..], anchor, name).value, name);
    }
  }

  lemma {:induction false} ParagraphsAdd(ps: seq<Paragraph>, anchor: string, name: string)
    requires CreatedInParagraphs(ps, anchor, name).Some? && ParagraphsLinked(ps) && Fits(name)
    ensures OneMarkInParagraphs(ps, CreatedInParagraphs(ps, anchor, name).value, name)
    decreases ps
  {
    hide Created, LinkedThroughout, OneMark, Fits;
    var rest, out := ps[1..], CreatedInParagraphs(ps, anchor, name).value;
    if Created(ps[0], anchor, name).Some? {
      CreatedAdds(ps[0], anchor, name);
      assert out == ps[0 := out[0]];
    } else {
      ParagraphsAdd(rest, anchor, name);
      var after := CreatedInParagraphs(rest, anchor, name).value;
      var i :| 0 <= i < |rest| == |after| && after == rest[i := after[i]]
        && OneMark(rest[i], after[i], name);
      assert out == ps[i + 1 := out[i + 1]];
    }
  }

  lemma FirstSection(sections: seq<Section>, ps: seq<Paragraph>, name: string)
    requires sections != [] && OneMarkInParagraphs(sections[0].paragraphs, ps, name)
    ensures OneMarkInSections(sections, [Section(ps)] + sections[1..], name)
  {
    hide OneMarkInParagraphs;
    var out := [Section(ps)] + sections[1..];
    assert out == sections[0 := out[0]];
  }

  lemma LaterSection(sections: seq<Section>, after: seq<Section>, name: string)
    requires sections != [] && OneMarkInSections(sections[1..], after, name)
    ensures OneMarkInSections(sections, [sections[0]] + after, name)
  {
    hide OneMarkInParagraphs;
    var rest, out := sections[1..], [sections[0]] + after;
    var i :| 0 <= i < |rest| == |after| && after == rest[i := after[i]]
      && OneMarkInParagraphs(rest[i].paragraphs, after[i].paragraphs, name);
    assert out == sections[i + 1 := out[i + 1]];
  }

  /** A whole document: one paragraph has one mark more, and only stored XML above it is gone. */
  lemma {:induction false} NothingElseChanges(sections: seq<Section>, anchor: string, name: string)
    requires CreatedInSections(sections, anchor, name).Some? && SectionsLinked(sections) && Fits(name)
    ensures OneMarkInSections(sections, CreatedInSections(sections, anchor, name).value, name)
    decreases sections
  {
    hide CreatedInParagraphs, ParagraphsLinked, OneMarkInParagraphs, OneMarkInSections, Fits;
    if CreatedInParagraphs(sections[0].paragraphs, anchor, name).Some? {
      ParagraphsAdd(sections[0].paragraphs, anchor, name);
      FirstSection(sections, CreatedInParagraphs(sections[0].paragraphs, anchor, name).value, name);
    } else {
      NothingElseChanges(sections[1..], anchor, name);
      LaterSection(sections, CreatedInSections(sections[1..], anchor, name).value, name);
    }
  }
}
