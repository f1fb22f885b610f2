/**
 The bookmark editor: the loops that list the bookmarks of a document and insert a new one.
 */
module BookmarkEditing {
  import opened HwpModel
  import opened BookmarkCodec
  import opened TextSearch
  import opened Bookmarks
  import opened BookmarkInsertion
  import opened BookmarkEffects
  import opened Realization
  import PB = ParagraphBuilding

  // ----- Shapes --------------------------------------------------------------------------

  lemma {:induction false} RelinkedWidth(chars: seq<HwpChar>, i: nat)
    requires i <= |chars|
    ensures WcharLen(Relinked(chars)[..i]) == WcharLen(chars[..i])
    decreases i
  {
    hide Relinked;
    if i > 0 {
      RelinkedWidth(chars, i - 1);
      RelinkedAt(chars, i - 1);
      assert Relinked(chars)[..i][..i - 1] == Relinked(chars)[..i - 1];
      assert chars[..i][..i - 1] == chars[..i - 1];
    }
  }

  lemma WidthAfter(chars: seq<HwpChar>, ins: nat, i: nat)
    requires ins <= |chars| && i <= |chars|
    ensures var all := Inserted(chars, ins, MARK);
      && WcharLen(all[..After(i, ins)]) == WcharLen(chars[..i]) + (if i < ins then 0 else MARK_WIDTH)
      && (i < ins ==> WcharLen(chars[..i]) < WcharLen(chars[..ins]))
      && (i >= ins ==> WcharLen(chars[..i]) >= WcharLen(chars[..ins]))
  {
    hide WcharLen;
    var all := Inserted(chars, ins, MARK);
    if i < ins {
      assert all[..i] == chars[..i];
      assert chars[..ins] == chars[..i] + chars[i..ins];
      WcharLenConcat(chars[..i], chars[i..ins]);
      PositiveWidth(chars[i..ins]);
    } else {
      assert chars[..i] == chars[..ins] + chars[ins..i];
      assert all[..i + 1] == chars[..ins] + [MARK] + chars[ins..i];
      WcharLenConcat(chars[..ins], chars[ins..i]);
      WcharLenConcat(chars[..ins] + [MARK], chars[ins..i]);
      WcharLenConcat(chars[..ins], [MARK]);
      MarkWidth();
    }
  }

  lemma PositiveWidth(chars: seq<HwpChar>)
    requires chars != []
    ensures WcharLen(chars) > 0
  {
  }

  lemma MarkWidth()
    ensures WcharLen([MARK]) == MARK_WIDTH
  {
    assert [MARK][..0] == [];
    assert WcharLen([]) == 0;
  }

  /** Every old character keeps its shape, and the paragraph stays sound. */
  lemma InsertionKeepsSound(p: Paragraph, ins: nat, name: string)
    requires Sound(p) && ins <= |p.chars|
    ensures var q := WithBookmark(p, ins, WcharLen(p.chars[..ins]), name);
      && Sound(q)
      && forall i :: 0 <= i < |p.chars| ==>
           PB.ShapeAt(q.runs, WcharLen(q.chars[..After(i, ins)])) == PB.ShapeAt(p.runs, WcharLen(p.chars[..i]))
  {
    hide WcharLen, Relinked, Adjusted, Linked, PB.ShapeAt, BookmarkControl;
    var w := WcharLen(p.chars[..ins]);
    var q := WithBookmark(p, ins, w, name);
    var all := Inserted(p.chars, ins, MARK);
    LinkedIsPaired(p.chars, p.controls);
    InsertionLinks(p, ins, w, name);
    InsertionKeepsShapes(p.runs, WcharLen(p.chars), w, MARK_WIDTH);
    WidthAfter(p.chars, ins, |p.chars|);
    assert p.chars[..|p.chars|] == p.chars && all[..|all|] == all && q.chars[..|all|] == q.chars;
    RelinkedWidth(all, |all|);
    forall i | 0 <= i < |p.chars|
      ensures PB.ShapeAt(q.runs, WcharLen(q.chars[..After(i, ins)])) == PB.ShapeAt(p.runs, WcharLen(p.chars[..i]))
    {
      WidthAfter(p.chars, ins, i);
      RelinkedWidth(all, After(i, ins));
    }
  }

  // ----- Listing -------------------------------------------------------------------------

  class BookmarkLister {
    var out: seq<string>

    constructor ()
      ensures out == []
    {
      out := [];
    }

    method CollectOwn(p: Paragraph)
      modifies this
      ensures out == old(out) + OwnNames(p.chars, p.controls)
    {
      hide NameOf;
      var i := 0;
      while i < |p.chars|
        invariant 0 <= i <= |p.chars| && out == old(out) + OwnNames(p.chars[..i], p.controls)
      {
        assert p.chars[..i + 1][..i] == p.chars[..i];
        var ch := p.chars[i];
        if ch.ExtCtrl? && ch.code == BOOKMARK && ch.ctrlId == BOKM {
          out := out + [NameOf(p.chars[i], p.controls)];
        }
        i := i + 1;
      }
      assert p.chars[..i] == p.chars;
    }

    /** The marks in the paragraph's own text first, then those inside its controls. */
    method CollectBookmarks(p: Paragraph)
      modifies this
      ensures out == old(out) + Names(p)
      decreases p
    {
      hide OwnNames, ControlNames;
      CollectOwn(p);
      ghost var here := out;
      var i := 0;
      assert p.controls[0..] == p.controls;
      while i < |p.controls|
        invariant 0 <= i <= |p.controls| && here + ControlsNames(p.controls) == out + ControlsNames(p.controls[i..])
      {
        assert p.controls[i..][1..] == p.controls[i + 1..];
        CollectControl(p.controls[i]);
        i := i + 1;
      }
      assert out + [] == out;
    }

    method CollectControl(control: Control)
      modifies this
      ensures out == old(out) + ControlNames(control)
      decreases control
    {
      match control
      case TableControl(t) =>
        var i := 0;
        assert t.cells[0..] == t.cells;
        while i < |t.cells|
          invariant 0 <= i <= |t.cells| && old(out) + CellsNames(t.cells) == out + CellsNames(t.cells[i..])
        {
          assert t.cells[i..][1..] == t.cells[i + 1..];
          CollectAll(t.cells[i].paragraphs);
          i := i + 1;
        }
        assert out + [] == out;
      case Generic(g) =>
        var i := 0;
        assert g.lists[0..] == g.lists;
        while i < |g.lists|
          invariant 0 <= i <= |g.lists| && old(out) + ListsNames(g.lists) == out + ListsNames(g.lists[i..])
        {
          assert g.lists[i..][1..] == g.lists[i + 1..];
          CollectAll(g.lists[i].paragraphs);
          i := i + 1;
        }
        assert out + [] == out;
      case _ =>
    }

    method CollectAll(ps: seq<Paragraph>)
      modifies this
      ensures out == old(out) + ParagraphsNames(ps)
      decreases ps
    {
      var i := 0;
      assert ps[0..] == ps;
      while i < |ps|
        invariant 0 <= i <= |ps| && old(out) + ParagraphsNames(ps) == out + ParagraphsNames(ps[i..])
      {
        assert ps[i..][1..] == ps[i + 1..];
        CollectBookmarks(ps[i]);
        i := i + 1;
      }
      assert out + [] == out;
    }
  }

  method ListBookmarks(doc: Document) returns (names: seq<string>)
    ensures names == SectionsNames(doc.sections)
  {
    var lister := new BookmarkLister();
    var i := 0;
    assert doc.sections[0..] == doc.sections;
    while i < |doc.sections|
      invariant 0 <= i <= |doc.sections| && SectionsNames(doc.sections) == lister.out + SectionsNames(doc.sections[i..])
      invariant fresh(lister)
    {
      assert doc.sections[i..][1..] == doc.sections[i + 1..];
      lister.CollectAll(doc.sections[i].paragraphs);
      i := i + 1;
    }
    return lister.out;
  }

  // ----- Inserting -----------------------------------------------------------------------

  lemma {:induction false} SearchFinds(chars: seq<HwpChar>, anchor: string, i: nat, k: nat)
    requires MatchAt(chars, anchor, k) && i <= k < |chars| && forall j: nat :: j < k ==> !MatchAt(chars, anchor, j)
    ensures SearchFrom(chars, anchor, i) == Some(k)
    decreases k - i
  {
    if i < k {
      SearchFinds(chars, anchor, i + 1, k);
    }
  }

  lemma {:induction false} SearchFails(chars: seq<HwpChar>, anchor: string, i: nat)
    requires forall j: nat :: !MatchAt(chars, anchor, j)
    ensures SearchFrom(chars, anchor, i) == None
    decreases |chars| - i
  {
    if i < |chars| {
      SearchFails(chars, anchor, i + 1);
    }
  }

  method CountControls(chars: seq<HwpChar>) returns (n: nat)
    ensures n == ExtCount(chars)
  {
    n := 0;
    var i := 0;
    while i < |chars|
      invariant 0 <= i <= |chars| && n == ExtCount(chars[..i])
    {
      assert chars[..i + 1][..i] == chars[..i];
      n := if chars[i].ExtCtrl? then n + 1 else n;
      i := i + 1;
    }
    assert chars[..i] == chars;
  }

  /** Inserts a bookmark behind the anchor, if the paragraph's own text has it. */
  method CreateInPara(p: Paragraph, anchor: string, name: string) returns (r: Option<Paragraph>)
    ensures r == InParagraph(p, anchor, name)
  {
    hide MatchAt, SearchFrom, Adjusted, Relinked, BookmarkControl, WcharLen, Utf16Length;
    var found := FindMatch(p.chars, anchor, 0);
    if found.None? {
      SearchFails(p.chars, anchor, 0);
      return None;
    }
    var (cidx, wpos) := found.value;
    MatchFits(p.chars, anchor, cidx);
    MatchInside(p.chars, anchor, cidx);
    SearchFinds(p.chars, anchor, 0, cidx);
    var ins := Smaller(cidx + |anchor|, |p.chars|);
    var iw := wpos + Utf16Length(anchor);
    var count := CountControls(p.chars[..ins]);
    var ci := Smaller(count, |p.controls|);
    var q := p.(controls := p.controls[..ci] + [BookmarkControl(name)] + p.controls[ci..]);
    q := q.(chars := q.chars[..ins] + [MARK] + q.chars[ins..]);
    var runs := AdjustRuns(q.runs, iw, 0, MARK_WIDTH);
    var chars := Relink(q.chars);
    q := q.(runs := runs, chars := chars);
    q := q.(ctrlMask := 0, lineSegs := []);
    return Some(q);
  }

  lemma MatchInside(chars: seq<HwpChar>, anchor: string, k: nat)
    requires MatchAt(chars, anchor, k)
    ensures k < |chars|
  {
  }

  /** The insertion position is right behind the anchor, in WCHARs as well. */
  lemma PositionBehindAnchor(p: Paragraph, anchor: string, name: string)
    requires InParagraph(p, anchor, name).Some?
    ensures var k := SearchFrom(p.chars, anchor, 0).value;
      && k + |anchor| <= |p.chars|
      && InParagraph(p, anchor, name).value == WithBookmark(p, k + |anchor|, WcharLen(p.chars[..k + |anchor|]), name)
  {
    hide WithBookmark, WcharLen, Utf16Length, MatchAt, InParagraph, SearchFrom;
    FoundInParagraph(p, anchor, name);
    WidthOfMatch(p.chars, anchor, SearchFrom(p.chars, anchor, 0).value);
  }

  lemma FoundInParagraph(p: Paragraph, anchor: string, name: string)
    requires InParagraph(p, anchor, name).Some?
    ensures var k := SearchFrom(p.chars, anchor, 0);
      && k.Some? && k.value + |anchor| <= |p.chars|
      && InParagraph(p, anchor, name).value
           == WithBookmark(p, k.value + |anchor|, WcharLen(p.chars[..k.value]) + Utf16Length(anchor), name)
  {
    hide WithBookmark, WcharLen, Utf16Length, SearchFrom;
  }

  lemma WidthOfMatch(chars: seq<HwpChar>, anchor: string, k: nat)
    requires MatchAt(chars, anchor, k)
    ensures k + |anchor| <= |chars|
    ensures WcharLen(chars[..k + |anchor|]) == WcharLen(chars[..k]) + Utf16Length(anchor)
  {
    hide WcharLen, Utf16Length;
    WidthOfText(chars, k, k + |anchor|, anchor);
  }

  lemma BehindStep<T>(whole: Option<seq<T>>, front: seq<T>, x: T, rest: Option<seq<T>>)
    requires whole == Behind(front, Behind([x], rest))
    ensures whole == Behind(front + [x], rest)
  {
    if rest.Some? {
      assert front + ([x] + rest.value) == front + [x] + rest.value;
    }
  }

  lemma Replaced<T>(s: seq<T>, i: nat, x: T)
    requires i < |s|
    ensures s[..i] + ([x] + s[i + 1..]) == s[i := x]
  {
  }

  lemma OneFurther<T>(s: seq<T>, i: nat)
    requires i < |s|
    ensures s[..i] + [s[i]] == s[..i + 1]
  {
  }

  lemma BehindNothing<T>(whole: Option<seq<T>>)
    ensures whole == Behind([], whole)
  {
    if whole.Some? {
      assert [] + whole.value == whole.value;
    }
  }

  lemma CreatedCases(p: Paragraph, anchor: string, name: string)
    ensures var here, inside := InParagraph(p, anchor, name), CreatedInControls(p.controls, anchor, name);
      Created(p, anchor, name) ==
        if here.Some? then here else if inside.Some? then Some(p.(controls := inside.value)) else None
  {
    hide InParagraph, CreatedInControls;
  }

  /** Tries the paragraph itself, then what its controls hold; stops at the first insertion. */
  method CreateRec(p: Paragraph, anchor: string, name: string) returns (r: Option<Paragraph>)
    ensures r == Created(p, anchor, name)
    decreases p
  {
    hide InParagraph, CreatedInControls, CreatedInControl, Created;
    CreatedCases(p, anchor, name);
    var here := CreateInPara(p, anchor, name);
    if here.Some? {
      return here;
    }
    var i := 0;
    assert p.controls[0..] == p.controls && p.controls[..0] == [];
    BehindNothing(CreatedInControls(p.controls, anchor, name));
    while i < |p.controls|
      invariant 0 <= i <= |p.controls|
      invariant CreatedInControls(p.controls, anchor, name) ==
        Behind(p.controls[..i], CreatedInControls(p.controls[i..], anchor, name))
    {
      ControlsStep(p.controls, i, anchor, name);
      var control := CreateInControl(p.controls[i], anchor, name);
      if control.Some? {
        Replaced(p.controls, i, control.value);
        return Some(p.(controls := p.controls[i := control.value]));
      }
      BehindStep(CreatedInControls(p.controls, anchor, name), p.controls[..i], p.controls[i],
        CreatedInControls(p.controls[i + 1..], anchor, name));
      OneFurther(p.controls, i);
      i := i + 1;
    }
    NoneLeft(anchor, name);
    assert p.controls[i..] == [];
    return None;
  }

  lemma NoneLeft(anchor: string, name: string)
    ensures CreatedInControls([], anchor, name) == None && CreatedInCells([], anchor, name) == None
    ensures CreatedInLists([], anchor, name) == None && CreatedInParagraphs([], anchor, name) == None
    ensures CreatedInSections([], anchor, name) == None
  {
  }

  lemma ControlsStep(controls: seq<Control>, i: nat, anchor: string, name: string)
    requires i < |controls|
    ensures CreatedInControls(controls[i..], anchor, name) ==
      match CreatedInControl(controls[i], anchor, name)
      case Some(control) => Some([control] + controls[i + 1..])
      case None => Behind([controls[i]], CreatedInControls(controls[i + 1..], anchor, name))
  {
    hide CreatedInControl;
    assert controls[i..][1..] == controls[i + 1..];
  }

  lemma CellsStep(cells: seq<Cell>, i: nat, anchor: string, name: string)
    requires i < |cells|
    ensures CreatedInCells(cells[i..], anchor, name) ==
      match CreatedInParagraphs(cells[i].paragraphs, anchor, name)
      case Some(ps) => Some([cells[i].(paragraphs := ps)] + cells[i + 1..])
      case None => Behind([cells[i]], CreatedInCells(cells[i + 1..], anchor, name))
  {
    hide CreatedInParagraphs;
    assert cells[i..][1..] == cells[i + 1..];
  }

  lemma ListsStep(lists: seq<ParagraphList>, i: nat, anchor: string, name: string)
    requires i < |lists|
    ensures CreatedInLists(lists[i..], anchor, name) ==
      match CreatedInParagraphs(lists[i].paragraphs, anchor, name)
      case Some(ps) => Some([ParagraphList(ps)] + lists[i + 1..])
      case None => Behind([lists[i]], CreatedInLists(lists[i + 1..], anchor, name))
  {
    hide CreatedInParagraphs;
    assert lists[i..][1..] == lists[i + 1..];
  }

  lemma ParagraphsStep(ps: seq<Paragraph>, i: nat, anchor: string, name: string)
    requires i < |ps|
    ensures CreatedInParagraphs(ps[i..], anchor, name) ==
      match Created(ps[i], anchor, name)
      case Some(p) => Some([p] + ps[i + 1..])
      case None => Behind([ps[i]], CreatedInParagraphs(ps[i + 1..], anchor, name))
  {
    hide Created;
    assert ps[i..][1..] == ps[i + 1..];
  }

  lemma SectionsStep(sections: seq<Section>, i: nat, anchor: string, name: string)
    requires i < |sections|
    ensures CreatedInSections(sections[i..], anchor, name) ==
      match CreatedInParagraphs(sections[i].paragraphs, anchor, name)
      case Some(ps) => Some([Section(ps)] + sections[i + 1..])
      case None => Behind([sections[i]], CreatedInSections(sections[i + 1..], anchor, name))
  {
    hide CreatedInParagraphs;
    assert sections[i..][1..] == sections[i + 1..];
  }

  method CreateInControl(control: Control, anchor: string, name: string) returns (r: Option<Control>)
    ensures r == CreatedInControl(control, anchor, name)
    decreases control
  {
    hide CreatedInCells, CreatedInLists, CreatedInParagraphs;
    NoneLeft(anchor, name);
    match control
    case TableControl(t) =>
      var i := 0;
      assert t.cells[0..] == t.cells && t.cells[..0] == [];
      BehindNothing(CreatedInCells(t.cells, anchor, name));
      while i < |t.cells|
        invariant 0 <= i <= |t.cells|
        invariant CreatedInCells(t.cells, anchor, name) ==
          Behind(t.cells[..i], CreatedInCells(t.cells[i..], anchor, name))
      {
        CellsStep(t.cells, i, anchor, name);
        var ps := CreateInAll(t.cells[i].paragraphs, anchor, name);
        if ps.Some? {
          var cell := t.cells[i].(paragraphs := ps.value);
          Replaced(t.cells, i, cell);
          return Some(TableControl(t.(cells := t.cells[i := cell])));
        }
        BehindStep(CreatedInCells(t.cells, anchor, name), t.cells[..i], t.cells[i],
          CreatedInCells(t.cells[i + 1..], anchor, name));
        OneFurther(t.cells, i);
        i := i + 1;
      }
      assert t.cells[i..] == [];
      return None;
    case Generic(g) =>
      var i := 0;
      assert g.lists[0..] == g.lists && g.lists[..0] == [];
      BehindNothing(CreatedInLists(g.lists, anchor, name));
      while i < |g.lists|
        invariant 0 <= i <= |g.lists|
        invariant CreatedInLists(g.lists, anchor, name) ==
          Behind(g.lists[..i], CreatedInLists(g.lists[i..], anchor, name))
      {
        ListsStep(g.lists, i, anchor, name);
        var ps := CreateInAll(g.lists[i].paragraphs, anchor, name);
        if ps.Some? {
          Replaced(g.lists, i, ParagraphList(ps.value));
          return Some(Generic(g.(lists := g.lists[i := ParagraphList(ps.value)], rawXml := None)));
        }
        BehindStep(CreatedInLists(g.lists, anchor, name), g.lists[..i], g.lists[i],
          CreatedInLists(g.lists[i + 1..], anchor, name));
        OneFurther(g.lists, i);
        i := i + 1;
      }
      assert g.lists[i..] == [];
      return None;
    case _ => return None;
  }

  method CreateInAll(ps: seq<Paragraph>, anchor: string, name: string) returns (r: Option<seq<Paragraph>>)
    ensures r == CreatedInParagraphs(ps, anchor, name)
    decreases ps
  {
    hide Created, CreatedInParagraphs;
    NoneLeft(anchor, name);
    var i := 0;
    assert ps[0..] == ps && ps[..0] == [];
    BehindNothing(CreatedInParagraphs(ps, anchor, name));
    while i < |ps|
      invariant 0 <= i <= |ps|
      invariant CreatedInParagraphs(ps, anchor, name) == Behind(ps[..i], CreatedInParagraphs(ps[i..], anchor, name))
    {
      ParagraphsStep(ps, i, anchor, name);
      var p := CreateRec(ps[i], anchor, name);
      if p.Some? {
        Replaced(ps, i, p.value);
        return Some(ps[i := p.value]);
      }
      BehindStep(CreatedInParagraphs(ps, anchor, name), ps[..i], ps[i], CreatedInParagraphs(ps[i + 1..], anchor, name));
      OneFurther(ps, i);
      i := i + 1;
    }
    assert ps[i..] == [];
    return None;
  }

  class Editor {
    var document: Document

    constructor (document: Document)
      ensures this.document == document
    {
      this.document := document;
    }

    /**
     Inserts a bookmark behind the first occurrence of the anchor, if it occurs in any text at all.
     Afterwards the document's bookmarks are the old ones with the new name put in once, every
     character is linked, and nothing else has changed.
     */
    method CreateBookmark(anchor: string, name: string) returns (ok: bool)
      modifies this
      ensures ok <==> CreatedInSections(old(document).sections, anchor, name).Some?
      ensures ok ==> document.sections == CreatedInSections(old(document).sections, anchor, name).value
      ensures ok <==> AnyMatch(SectionsTexts(old(document).sections), anchor)
      ensures ok ==> Marked(SectionsTexts(old(document).sections), SectionsTexts(document.sections), anchor)
      ensures !ok ==> document == old(document)
      ensures ok && SectionsLinked(old(document).sections) && Fits(name) ==>
        && OneMarkInSections(old(document).sections, document.sections, name)
        && SectionsLinked(document.sections)
        && OneMore(SectionsNames(old(document).sections), SectionsNames(document.sections), name)
    {
      hide CreatedInSections, CreatedInParagraphs, SectionsLinked, OneMore, SectionsNames, Fits,
        AnyMatch, Marked, SectionsTexts, OneMarkInSections;
      var sections := document.sections;
      InsertedAtFirstMatch(sections, anchor, name);
      if SectionsLinked(sections) && Fits(name) && CreatedInSections(sections, anchor, name).Some? {
        SectionsKeep(sections, anchor, name);
        NothingElseChanges(sections, anchor, name);
      }
      NoneLeft(anchor, name);
      var i := 0;
      assert sections[0..] == sections && sections[..0] == [];
      BehindNothing(CreatedInSections(sections, anchor, name));
      while i < |sections|
        invariant 0 <= i <= |sections| && document == old(document)
        invariant CreatedInSections(sections, anchor, name) ==
          Behind(sections[..i], CreatedInSections(sections[i..], anchor, name))
      {
        SectionsStep(sections, i, anchor, name);
        var ps := CreateInAll(sections[i].paragraphs, anchor, name);
        if ps.Some? {
          Replaced(sections, i, Section(ps.value));
          document := document.(sections := sections[i := Section(ps.value)]);
          return true;
        }
        BehindStep(CreatedInSections(sections, anchor, name), sections[..i], sections[i],
          CreatedInSections(sections[i + 1..], anchor, name));
        OneFurther(sections, i);
        i := i + 1;
      }
      assert sections[i..] == [];
      return false;
    }
  }
}
