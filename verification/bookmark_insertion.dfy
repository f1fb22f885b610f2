/**
 Inserting a bookmark into the first paragraph of a document, at any depth, whose text has
 the anchor: the paragraph tree before and after.
 */
module BookmarkInsertion {
  import opened HwpModel
  import opened BookmarkCodec
  import opened TextSearch
  import opened Bookmarks
  import Utf16
  import PB = ParagraphBuilding

  // ----- Names in the paragraph itself ---------------------------------------------------

  lemma {:induction false} OwnNamesConcat(a: seq<HwpChar>, b: seq<HwpChar>, controls: seq<Control>)
    ensures OwnNames(a + b, controls) == OwnNames(a, controls) + OwnNames(b, controls)
  {
    hide NameOf;
    if b == [] {
      assert a + b == a;
    } else {
      assert (a + b)[..|a + b| - 1] == a + b[..|b| - 1];
      OwnNamesConcat(a, b[..|b| - 1], controls);
    }
  }

  /** Two characters, each with its controls, that stand for the same bookmark or for none. */
  predicate SameName(a: HwpChar, ca: seq<Control>, b: HwpChar, cb: seq<Control>) {
    (IsMark(a) <==> IsMark(b)) && (IsMark(a) ==> NameOf(a, ca) == NameOf(b, cb))
  }

  lemma {:induction false} SameNames(a: seq<HwpChar>, ca: seq<Control>, b: seq<HwpChar>, cb: seq<Control>)
    requires |a| == |b| && forall i :: 0 <= i < |a| ==> SameName(a[i], ca, b[i], cb)
    ensures OwnNames(a, ca) == OwnNames(b, cb)
  {
    hide NameOf, IsMark;
    if a != [] {
      var last := |a| - 1;
      assert forall i :: 0 <= i < last ==> a[..last][i] == a[i] && b[..last][i] == b[i];
      SameNames(a[..last], ca, b[..last], cb);
      assert SameName(a[last], ca, b[last], cb);
    }
  }

  /** An old character stands for the same bookmark after the insertion. */
  lemma SameNameAfter(p: Paragraph, ins: nat, w: nat, name: string, i: nat)
    requires Linked(p.chars, p.controls) && ins <= |p.chars| && i < |p.chars|
    ensures var q := WithBookmark(p, ins, w, name);
      After(i, ins) < |q.chars| && SameName(p.chars[i], p.controls, q.chars[After(i, ins)], q.controls)
  {
    hide BookmarkControl, Adjusted, BookmarkName, Relinked, WithBookmark;
    LinkedIsPaired(p.chars, p.controls);
    InsertionLinks(p, ins, w, name);
    var all := Inserted(p.chars, ins, MARK);
    InsertedAt(p.chars, ins, MARK, i);
    RelinkedAt(all, After(i, ins));
    assert LinkedAt(p.chars, p.controls, i);
    if p.chars[i].ExtCtrl? {
      PairKept(p.chars, p.controls, ins, name, i);
    }
  }

  lemma MarkNamed(p: Paragraph, ins: nat, w: nat, name: string)
    requires Linked(p.chars, p.controls) && ins <= |p.chars| && |Utf16.Encode(name)| <= 0xFFFF
    ensures var q := WithBookmark(p, ins, w, name);
      ins < |q.chars| && IsMark(q.chars[ins]) && NameOf(q.chars[ins], q.controls) == name
  {
    hide BookmarkControl, Adjusted, BookmarkName, Relinked, WithBookmark;
    LinkedIsPaired(p.chars, p.controls);
    InsertionLinks(p, ins, w, name);
    var all := Inserted(p.chars, ins, MARK);
    RelinkedAt(all, ins);
    assert all[..ins] == p.chars[..ins];
    BookmarkControlName(name);
  }

  /** The paragraph's own names: the old ones, with the new name at its place. */
  lemma OwnNamesAfter(p: Paragraph, ins: nat, w: nat, name: string)
    requires Linked(p.chars, p.controls) && ins <= |p.chars| && |Utf16.Encode(name)| <= 0xFFFF
    ensures var q := WithBookmark(p, ins, w, name);
      && OwnNames(p.chars, p.controls) == OwnNames(p.chars[..ins], p.controls) + OwnNames(p.chars[ins..], p.controls)
      && OwnNames(q.chars, q.controls) ==
        OwnNames(p.chars[..ins], p.controls) + [name] + OwnNames(p.chars[ins..], p.controls)
  {
    hide OwnNames, WithBookmark, NameOf, IsMark, Linked;
    var q := WithBookmark(p, ins, w, name);
    InsertedLength(p, ins, w, name);
    NamesKept(p, ins, w, name);
    MarkNamed(p, ins, w, name);
    OneName(q.chars[ins], q.controls);
    assert p.chars == p.chars[..ins] + p.chars[ins..];
    assert q.chars == q.chars[..ins] + [q.chars[ins]] + q.chars[ins + 1..];
    OwnNamesConcat(p.chars[..ins], p.chars[ins..], p.controls);
    OwnNamesConcat(q.chars[..ins] + [q.chars[ins]], q.chars[ins + 1..], q.controls);
    OwnNamesConcat(q.chars[..ins], [q.chars[ins]], q.controls);
  }

  /** The names before and behind the new bookmark are the old ones. */
  lemma NamesKept(p: Paragraph, ins: nat, w: nat, name: string)
    requires Linked(p.chars, p.controls) && ins <= |p.chars|
    ensures var q := WithBookmark(p, ins, w, name);
      && ins < |q.chars|
      && OwnNames(q.chars[..ins], q.controls) == OwnNames(p.chars[..ins], p.controls)
      && OwnNames(q.chars[ins + 1..], q.controls) == OwnNames(p.chars[ins..], p.controls)
  {
    hide OwnNames, WithBookmark, SameName, Linked;
    var q := WithBookmark(p, ins, w, name);
    InsertedLength(p, ins, w, name);
    forall i | 0 <= i < ins ensures SameName(p.chars[..ins][i], p.controls, q.chars[..ins][i], q.controls) {
      SameNameAfter(p, ins, w, name, i);
    }
    SameNames(p.chars[..ins], p.controls, q.chars[..ins], q.controls);
    forall i | 0 <= i < |p.chars| - ins
      ensures SameName(p.chars[ins..][i], p.controls, q.chars[ins + 1..][i], q.controls)
    {
      SameNameAfter(p, ins, w, name, ins + i);
    }
    SameNames(p.chars[ins..], p.controls, q.chars[ins + 1..], q.controls);
  }

  lemma InsertedLength(p: Paragraph, ins: nat, w: nat, name: string)
    requires ins <= |p.chars|
    ensures |WithBookmark(p, ins, w, name).chars| == |p.chars| + 1
  {
  }

  lemma OneName(ch: HwpChar, controls: seq<Control>)
    requires IsMark(ch)
    ensures OwnNames([ch], controls) == [NameOf(ch, controls)]
  {
    assert [ch][..0] == [];
    assert OwnNames([], controls) == [];
  }

  // ----- Lists of names ------------------------------------------------------------------

  /** `after` is `before` with `name` put in once. */
  ghost predicate OneMore(before: seq<string>, after: seq<string>, name: string) {
    exists k: nat :: k <= |before| && after == Inserted(before, k, name)
  }

  lemma OneMoreBefore(a: seq<string>, a': seq<string>, b: seq<string>, name: string)
    requires OneMore(a, a', name)
    ensures OneMore(a + b, a' + b, name)
  {
    var k: nat :| k <= |a| && a' == Inserted(a, k, name);
    assert a' + b == Inserted(a + b, k, name);
  }

  lemma OneMoreAfter(a: seq<string>, b: seq<string>, b': seq<string>, name: string)
    requires OneMore(b, b', name)
    ensures OneMore(a + b, a + b', name)
  {
    var k: nat :| k <= |b| && b' == Inserted(b, k, name);
    assert a + b' == Inserted(a + b, |a| + k, name);
  }

  lemma OneMoreBetween(a: seq<string>, b: seq<string>, name: string)
    ensures OneMore(a + b, a + [name] + b, name)
  {
    assert a + [name] + b == Inserted(a + b, |a|, name);
  }

  lemma {:induction false} ControlsNamesConcat(a: seq<Control>, b: seq<Control>)
    ensures ControlsNames(a + b) == ControlsNames(a) + ControlsNames(b)
  {
    hide ControlNames;
    if a == [] {
      assert a + b == b;
    } else {
      assert (a + b)[1..] == a[1..] + b;
      ControlsNamesConcat(a[1..], b);
    }
  }

  lemma NoNestedNames(name: string)
    ensures ControlsNames([BookmarkControl(name)]) == []
  {
    var mark := BookmarkControl(name);
    assert [mark][1..] == [];
    assert ListsNames([]) == [] && ControlsNames([]) == [];
    assert ControlNames(mark) == [];
  }

  /** A bookmark's control holds no paragraphs, so nothing nested changes. */
  lemma NestedNamesKept(controls: seq<Control>, k: nat, name: string)
    requires k <= |controls|
    ensures ControlsNames(Inserted(controls, k, BookmarkControl(name))) == ControlsNames(controls)
  {
    hide ControlsNames, BookmarkControl;
    var mark := BookmarkControl(name);
    assert controls == controls[..k] + controls[k..];
    ControlsNamesConcat(controls[..k], controls[k..]);
    ControlsNamesConcat(controls[..k] + [mark], controls[k..]);
    ControlsNamesConcat(controls[..k], [mark]);
    NoNestedNames(name);
  }

  // ----- The tree ------------------------------------------------------------------------

  ghost predicate LinkedThroughout(p: Paragraph)
    decreases p
  {
    Linked(p.chars, p.controls) && ControlsLinked(p.controls)
  }

  ghost predicate ControlsLinked(controls: seq<Control>)
    decreases controls
  {
    controls == [] || (ControlLinked(controls[0]) && ControlsLinked(controls[1..]))
  }

  ghost predicate ControlLinked(control: Control)
    decreases control
  {
    match control
    case TableControl(t) => CellsLinked(t.cells)
    case Generic(g) => ListsLinked(g.lists)
    case _ => true
  }

  ghost predicate CellsLinked(cells: seq<Cell>)
    decreases cells
  {
    cells == [] || (ParagraphsLinked(cells[0].paragraphs) && CellsLinked(cells[1..]))
  }

  ghost predicate ListsLinked(lists: seq<ParagraphList>)
    decreases lists
  {
    lists == [] || (ParagraphsLinked(lists[0].paragraphs) && ListsLinked(lists[1..]))
  }

  ghost predicate ParagraphsLinked(ps: seq<Paragraph>)
    decreases ps
  {
    ps == [] || (LinkedThroughout(ps[0]) && ParagraphsLinked(ps[1..]))
  }

  lemma {:induction false} ControlsLinkedConcat(a: seq<Control>, b: seq<Control>)
    ensures ControlsLinked(a + b) <==> ControlsLinked(a) && ControlsLinked(b)
  {
    hide ControlLinked;
    if a == [] {
      assert a + b == b;
    } else {
      assert (a + b)[1..] == a[1..] + b;
      ControlsLinkedConcat(a[1..], b);
    }
  }

  lemma MarkControlsLinked(controls: seq<Control>, k: nat, name: string)
    requires k <= |controls| && ControlsLinked(controls)
    ensures ControlsLinked(Inserted(controls, k, BookmarkControl(name)))
  {
    var mark := BookmarkControl(name);
    assert controls == controls[..k] + controls[k..];
    ControlsLinkedConcat(controls[..k], controls[k..]);
    ControlsLinkedConcat(controls[..k] + [mark], controls[k..]);
    ControlsLinkedConcat(controls[..k], [mark]);
    assert ListsLinked([]);
    assert [mark][1..] == [];
    assert ControlsLinked([]);
  }

  // ----- The insertion -------------------------------------------------------------------

  ghost function SearchFrom(chars: seq<HwpChar>, anchor: string, i: nat): (r: Option<nat>)
    ensures r.Some? ==> MatchAt(chars, anchor, r.value)
    decreases |chars| - i
  {
    if i >= |chars| then None
    else if MatchAt(chars, anchor, i) then Some(i)
    else SearchFrom(chars, anchor, i + 1)
  }

  /** The insertion into one paragraph, behind the first match of the anchor. */
  ghost function InParagraph(p: Paragraph, anchor: string, name: string): Option<Paragraph> {
    match SearchFrom(p.chars, anchor, 0)
    case None => None
    case Some(k) =>
      Some(WithBookmark(p, k + |anchor|, WcharLen(p.chars[..k]) + Utf16Length(anchor), name))
  }

  ghost function Created(p: Paragraph, anchor: string, name: string): Option<Paragraph>
    decreases p
  {
    var here := InParagraph(p, anchor, name);
    if here.Some? then here
    else
      match CreatedInControls(p.controls, anchor, name)
      case None => None
      case Some(controls) => Some(p.(controls := controls))
  }

  ghost function CreatedInControls(controls: seq<Control>, anchor: string, name: string): Option<seq<Control>>
    decreases controls
  {
    if controls == [] then None
    else
      match CreatedInControl(controls[0], anchor, name)
      case Some(control) => Some([control] + controls[1..])
      case None => Behind([controls[0]], CreatedInControls(controls[1..], anchor, name))
  }

  ghost function CreatedInControl(control: Control, anchor: string, name: string): Option<Control>
    decreases control
  {
    match control
    case TableControl(t) =>
      (match CreatedInCells(t.cells, anchor, name)
       case None => None
       case Some(cells) => Some(TableControl(t.(cells := cells))))
    case Generic(g) =>
      (match CreatedInLists(g.lists, anchor, name)
       case None => None
       case Some(lists) => Some(Generic(g.(lists := lists, rawXml := None))))
    case _ => None
  }

  ghost function CreatedInCells(cells: seq<Cell>, anchor: string, name: string): Option<seq<Cell>>
    decreases cells
  {
    if cells == [] then None
    else
      match CreatedInParagraphs(cells[0].paragraphs, anchor, name)
      case Some(ps) => Some([cells[0].(paragraphs := ps)] + cells[1..])
      case None => Behind([cells[0]], CreatedInCells(cells[1..], anchor, name))
  }

  ghost function CreatedInLists(lists: seq<ParagraphList>, anchor: string, name: string): Option<seq<ParagraphList>>
    decreases lists
  {
    if lists == [] then None
    else
      match CreatedInParagraphs(lists[0].paragraphs, anchor, name)
      case Some(ps) => Some([ParagraphList(ps)] + lists[1..])
      case None => Behind([lists[0]], CreatedInLists(lists[1..], anchor, name))
  }

  ghost function CreatedInParagraphs(ps: seq<Paragraph>, anchor: string, name: string): Option<seq<Paragraph>>
    decreases ps
  {
    if ps == [] then None
    else
      match Created(ps[0], anchor, name)
      case Some(p) => Some([p] + ps[1..])
      case None => Behind([ps[0]], CreatedInParagraphs(ps[1..], anchor, name))
  }

  ghost function CreatedInSections(sections: seq<Section>, anchor: string, name: string): Option<seq<Section>> {
    if sections == [] then None
    else
      match CreatedInParagraphs(sections[0].paragraphs, anchor, name)
      case Some(ps) => Some([Section(ps)] + sections[1..])
      case None => Behind([sections[0]], CreatedInSections(sections[1..], anchor, name))
  }

  function Behind<T>(front: seq<T>, rest: Option<seq<T>>): Option<seq<T>> {
    if rest.None? then None else Some(front + rest.value)
  }

  // ----- What an insertion keeps ---------------------------------------------------------

  predicate Fits(name: string) {
    |Utf16.Encode(name)| <= 0xFFFF
  }

  lemma InParagraphKeeps(p: Paragraph, anchor: string, name: string)
    requires InParagraph(p, anchor, name).Some? && LinkedThroughout(p) && Fits(name)
    ensures var q := InParagraph(p, anchor, name).value;
      LinkedThroughout(q) && OneMore(Names(p), Names(q), name)
  {
    hide Linked, OwnNames, ControlsNames, ControlsLinked, WithBookmark, MatchAt, OneMore, Utf16Length, WcharLen,
      BookmarkControl, Relinked;
    var k := SearchFrom(p.chars, anchor, 0).value;
    MatchFits(p.chars, anchor, k);
    var ins, w := k + |anchor|, WcharLen(p.chars[..k]) + Utf16Length(anchor);
    var q := WithBookmark(p, ins, w, name);
    LinkedIsPaired(p.chars, p.controls);
    InsertionLinks(p, ins, w, name);
    OwnNamesAfter(p, ins, w, name);
    NestedNamesKept(p.controls, ExtCount(p.chars[..ins]), name);
    MarkControlsLinked(p.controls, ExtCount(p.chars[..ins]), name);
    OneMoreBetween(OwnNames(p.chars[..ins], p.controls), OwnNames(p.chars[ins..], p.controls), name);
    OneMoreBefore(OwnNames(p.chars, p.controls), OwnNames(q.chars, q.controls), ControlsNames(p.controls), name);
  }

  lemma MatchFits(chars: seq<HwpChar>, anchor: string, k: nat)
    requires MatchAt(chars, anchor, k)
    ensures k + |anchor| <= |chars|
  {
  }

  /** All characters stay linked, and the names are the old ones with the new one put in once. */
  lemma {:induction false} CreatedKeeps(p: Paragraph, anchor: string, name: string)
    requires Created(p, anchor, name).Some? && LinkedThroughout(p) && Fits(name)
    ensures var q := Created(p, anchor, name).value;
      LinkedThroughout(q) && OneMore(Names(p), Names(q), name)
    decreases p
  {
    hide InParagraph, OwnNames, ControlsNames, ControlsLinked, OneMore, CreatedInControls, Fits, Linked;
    if InParagraph(p, anchor, name).Some? {
      InParagraphKeeps(p, anchor, name);
    } else {
      ControlsKeep(p.controls, anchor, name);
      var q := Created(p, anchor, name).value;
      NamesWithControls(p, q.controls);
      OneMoreAfter(OwnNames(p.chars, p.controls), ControlsNames(p.controls), ControlsNames(q.controls), name);
    }
  }

  /** Changing what controls hold changes neither links nor own names. */
  lemma NamesWithControls(p: Paragraph, controls: seq<Control>)
    requires Alike(p.controls, controls)
    ensures OwnNames(p.chars, controls) == OwnNames(p.chars, p.controls)
    ensures Linked(p.chars, p.controls) ==> Linked(p.chars, controls)
  {
    hide BookmarkName;
    forall i | 0 <= i < |p.chars| ensures SameName(p.chars[i], p.controls, p.chars[i], controls) {
      if IsMark(p.chars[i]) && p.chars[i].ctrlIndex.Some? && p.chars[i].ctrlIndex.value < |controls| {
        assert AlikeControl(p.controls[p.chars[i].ctrlIndex.value], controls[p.chars[i].ctrlIndex.value]);
      }
    }
    SameNames(p.chars, p.controls, p.chars, controls);
    if Linked(p.chars, p.controls) {
      forall i | 0 <= i < |p.chars| ensures LinkedAt(p.chars, controls, i) {
        assert LinkedAt(p.chars, p.controls, i);
        if p.chars[i].ExtCtrl? {
          assert AlikeControl(p.controls[ExtCount(p.chars[..i])], controls[ExtCount(p.chars[..i])]);
        }
      }
    }
  }

  predicate AlikeControl(a: Control, b: Control) {
    CtrlId(a) == CtrlId(b) && BookmarkName(a) == BookmarkName(b)
  }

  predicate Alike(a: seq<Control>, b: seq<Control>) {
    |a| == |b| && forall i :: 0 <= i < |a| ==> AlikeControl(a[i], b[i])
  }

  lemma {:induction false} ControlsKeep(controls: seq<Control>, anchor: string, name: string)
    requires CreatedInControls(controls, anchor, name).Some? && ControlsLinked(controls) && Fits(name)
    ensures var after := CreatedInControls(controls, anchor, name).value;
      ControlsLinked(after) && OneMore(ControlsNames(controls), ControlsNames(after), name) && Alike(controls, after)
    decreases controls
  {
    hide ControlLinked, ControlNames, OneMore, CreatedInControl, Fits, AlikeControl;
    var rest := controls[1..];
    SameAlike(controls);
    if CreatedInControl(controls[0], anchor, name).Some? {
      var control := CreatedInControl(controls[0], anchor, name).value;
      ControlKeeps(controls[0], anchor, name);
      assert ([control] + rest)[1..] == rest;
      OneMoreBefore(ControlNames(controls[0]), ControlNames(control), ControlsNames(rest), name);
    } else {
      ControlsKeep(rest, anchor, name);
      var after := CreatedInControls(rest, anchor, name).value;
      assert ([controls[0]] + after)[1..] == after;
      OneMoreAfter(ControlNames(controls[0]), ControlsNames(rest), ControlsNames(after), name);
    }
  }

  lemma SameAlike(controls: seq<Control>)
    ensures Alike(controls, controls)
  {
  }

  lemma {:induction false} ControlKeeps(control: Control, anchor: string, name: string)
    requires CreatedInControl(control, anchor, name).Some? && ControlLinked(control) && Fits(name)
    ensures var after := CreatedInControl(control, anchor, name).value;
      ControlLinked(after) && OneMore(ControlNames(control), ControlNames(after), name) && AlikeControl(control, after)
    decreases control
  {
    hide CellsLinked, ListsLinked, CellsNames, ListsNames, OneMore, CreatedInCells, CreatedInLists, Fits, CtrlData,
      DecodeName;
    match control
    case TableControl(t) => CellsKeep(t.cells, anchor, name);
    case Generic(g) => ListsKeep(g.lists, anchor, name);
  }

  lemma {:induction false} CellsKeep(cells: seq<Cell>, anchor: string, name: string)
    requires CreatedInCells(cells, anchor, name).Some? && CellsLinked(cells) && Fits(name)
    ensures var after := CreatedInCells(cells, anchor, name).value;
      CellsLinked(after) && OneMore(CellsNames(cells), CellsNames(after), name)
    decreases cells
  {
    hide ParagraphsLinked, ParagraphsNames, OneMore, CreatedInParagraphs, Fits;
    var ps, rest := cells[0].paragraphs, cells[1..];
    if CreatedInParagraphs(ps, anchor, name).Some? {
      ParagraphsKeep(ps, anchor, name);
      var after := CreatedInParagraphs(ps, anchor, name).value;
      assert ([cells[0].(paragraphs := after)] + rest)[1..] == rest;
      OneMoreBefore(ParagraphsNames(ps), ParagraphsNames(after), CellsNames(rest), name);
    } else {
      CellsKeep(rest, anchor, name);
      var after := CreatedInCells(rest, anchor, name).value;
      assert ([cells[0]] + after)[1..] == after;
      OneMoreAfter(ParagraphsNames(ps), CellsNames(rest), CellsNames(after), name);
    }
  }

  lemma {:induction false} ListsKeep(lists: seq<ParagraphList>, anchor: string, name: string)
    requires CreatedInLists(lists, anchor, name).Some? && ListsLinked(lists) && Fits(name)
    ensures var after := CreatedInLists(lists, anchor, name).value;
      ListsLinked(after) && OneMore(ListsNames(lists), ListsNames(after), name)
    decreases lists
  {
    hide ParagraphsLinked, ParagraphsNames, OneMore, CreatedInParagraphs, Fits;
    var ps, rest := lists[0].paragraphs, lists[1..];
    if CreatedInParagraphs(ps, anchor, name).Some? {
      ParagraphsKeep(ps, anchor, name);
      var after := CreatedInParagraphs(ps, anchor, name).value;
      assert ([ParagraphList(after)] + rest)[1..] == rest;
      OneMoreBefore(ParagraphsNames(ps), ParagraphsNames(after), ListsNames(rest), name);
    } else {
      ListsKeep(rest, anchor, name);
      var after := CreatedInLists(rest, anchor, name).value;
      assert ([lists[0]] + after)[1..] == after;
      OneMoreAfter(ParagraphsNames(ps), ListsNames(rest), ListsNames(after), name);
    }
  }

  lemma {:induction false} ParagraphsKeep(ps: seq<Paragraph>, anchor: string, name: string)
    requires CreatedInParagraphs(ps, anchor, name).Some? && ParagraphsLinked(ps) && Fits(name)
    ensures var after := CreatedInParagraphs(ps, anchor, name).value;
      ParagraphsLinked(after) && OneMore(ParagraphsNames(ps), ParagraphsNames(after), name)
    decreases ps
  {
    hide LinkedThroughout, Names, OneMore, Created, Fits;
    var rest := ps[1..];
    if Created(ps[0], anchor, name).Some? {
      CreatedKeeps(ps[0], anchor, name);
      var p := Created(ps[0], anchor, name).value;
      assert ([p] + rest)[1..] == rest;
      OneMoreBefore(Names(ps[0]), Names(p), ParagraphsNames(rest), name);
    } else {
      ParagraphsKeep(rest, anchor, name);
      var after := CreatedInParagraphs(rest, anchor, name).value;
      assert ([ps[0]] + after)[1..] == after;
      OneMoreAfter(Names(ps[0]), ParagraphsNames(rest), ParagraphsNames(after), name);
    }
  }

  ghost predicate SectionsLinked(sections: seq<Section>) {
    sections == [] || (ParagraphsLinked(sections[0].paragraphs) && SectionsLinked(sections[1..]))
  }

  /** A whole document: every character stays linked, and one name is added, once. */
  lemma {:induction false} SectionsKeep(sections: seq<Section>, anchor: string, name: string)
    requires CreatedInSections(sections, anchor, name).Some? && SectionsLinked(sections) && Fits(name)
    ensures var after := CreatedInSections(sections, anchor, name).value;
      SectionsLinked(after) && OneMore(SectionsNames(sections), SectionsNames(after), name)
  {
    hide ParagraphsLinked, ParagraphsNames, OneMore, CreatedInParagraphs, Fits;
    var ps, rest := sections[0].paragraphs, sections[1..];
    if CreatedInParagraphs(ps, anchor, name).Some? {
      ParagraphsKeep(ps, anchor, name);
      var after := CreatedInParagraphs(ps, anchor, name).value;
      assert ([Section(after)] + rest)[1..] == rest;
      OneMoreBefore(ParagraphsNames(ps), ParagraphsNames(after), SectionsNames(rest), name);
    } else {
      SectionsKeep(rest, anchor, name);
      var after := CreatedInSections(rest, anchor, name).value;
      assert ([sections[0]] + after)[1..] == after;
      OneMoreAfter(ParagraphsNames(ps), SectionsNames(rest), SectionsNames(after), name);
    }
  }
}
