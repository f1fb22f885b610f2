/**
 The walks that count a finished document: the compiler's recursive paragraph count, and the
 certifier's collector, which is handed every paragraph and adds to its counters in place.
 */
module DocumentCounts {
  import opened HwpModel

  // ----- One item more -------------------------------------------------------------------

  lemma ControlsStep(controls: seq<Control>, k: nat)
    requires k < |controls|
    ensures ControlsStats(controls[..k + 1]) == ControlsStats(controls[..k]).Plus(ControlStats(controls[k]))
  {
    hide Stats.Plus, ControlStats;
    assert controls[..k + 1][..k] == controls[..k];
  }

  lemma CellsStep(cells: seq<Cell>, k: nat)
    requires k < |cells|
    ensures CellsStats(cells[..k + 1]) == CellsStats(cells[..k]).Plus(ParagraphsStats(cells[k].paragraphs))
  {
    hide Stats.Plus, ParagraphsStats;
    assert cells[..k + 1][..k] == cells[..k];
  }

  lemma ListsStep(lists: seq<ParagraphList>, k: nat)
    requires k < |lists|
    ensures ListsStats(lists[..k + 1]) == ListsStats(lists[..k]).Plus(ParagraphsStats(lists[k].paragraphs))
  {
    hide Stats.Plus, ParagraphsStats;
    assert lists[..k + 1][..k] == lists[..k];
  }

  lemma ParagraphsStep(ps: seq<Paragraph>, k: nat)
    requires k < |ps|
    ensures ParagraphsStats(ps[..k + 1]) == ParagraphsStats(ps[..k]).Plus(ParagraphStats(ps[k]))
  {
    hide Stats.Plus, ParagraphStats;
    assert ps[..k + 1][..k] == ps[..k];
  }

  lemma SectionsStep(sections: seq<Section>, k: nat)
    requires k < |sections|
    ensures SectionsStats(sections[..k + 1]) ==
      SectionsStats(sections[..k]).Plus(ParagraphsStats(sections[k].paragraphs))
  {
    hide Stats.Plus, ParagraphsStats;
    assert sections[..k + 1][..k] == sections[..k];
  }

  lemma NoItems()
    ensures ControlsStats([]) == CellsStats([]) == ListsStats([]) == ParagraphsStats([]) == SectionsStats([]) ==
      NO_STATS
  {
  }

  // ----- The compiler's paragraph count --------------------------------------------------

  function CountParagraph(p: Paragraph): nat
    decreases p
  {
    1 + CountControls(p.controls)
  }

  function CountControls(controls: seq<Control>): nat
    decreases controls
  {
    if controls == [] then 0 else CountControls(controls[..|controls| - 1]) + CountControl(controls[|controls| - 1])
  }

  function CountControl(control: Control): nat
    decreases control
  {
    match control
    case TableControl(t) => CountCells(t.cells)
    case Generic(g) => CountLists(g.lists)
    case _ => 0
  }

  function CountCells(cells: seq<Cell>): nat
    decreases cells
  {
    if cells == [] then 0 else CountCells(cells[..|cells| - 1]) + CountParagraphs(cells[|cells| - 1].paragraphs)
  }

  function CountLists(lists: seq<ParagraphList>): nat
    decreases lists
  {
    if lists == [] then 0 else CountLists(lists[..|lists| - 1]) + CountParagraphs(lists[|lists| - 1].paragraphs)
  }

  function CountParagraphs(ps: seq<Paragraph>): nat
    decreases ps
  {
    if ps == [] then 0 else CountParagraphs(ps[..|ps| - 1]) + CountParagraph(ps[|ps| - 1])
  }

  function CountSections(sections: seq<Section>): nat {
    if sections == [] then 0
    else CountSections(sections[..|sections| - 1]) + CountParagraphs(sections[|sections| - 1].paragraphs)
  }

  lemma PlusParagraphs(a: Stats, b: Stats)
    ensures a.Plus(b).paragraphs == a.paragraphs + b.paragraphs
  {
  }

  lemma {:induction false} CountIsStat(p: Paragraph)
    ensures CountParagraph(p) == ParagraphStats(p).paragraphs
    decreases p
  {
    hide Stats.Plus, FieldStarts, Unresolved, ControlsStats, CountControls;
    CountControlsIsStat(p.controls);
    PlusParagraphs(Stats(1, 0, 0, 0, FieldStarts(p.chars), Unresolved(p.chars, |p.controls|)),
      ControlsStats(p.controls));
  }

  lemma {:induction false} CountControlsIsStat(controls: seq<Control>)
    ensures CountControls(controls) == ControlsStats(controls).paragraphs
    decreases controls
  {
    hide Stats.Plus, ControlStats, CountControl;
    if controls != [] {
      CountControlsIsStat(controls[..|controls| - 1]);
      CountControlIsStat(controls[|controls| - 1]);
      PlusParagraphs(ControlsStats(controls[..|controls| - 1]), ControlStats(controls[|controls| - 1]));
    }
  }

  lemma {:induction false} CountControlIsStat(control: Control)
    ensures CountControl(control) == ControlStats(control).paragraphs
    decreases control
  {
    hide Stats.Plus, CellsStats, ListsStats, CountCells, CountLists;
    match control
    case TableControl(t) =>
      CountCellsIsStat(t.cells);
      PlusParagraphs(Stats(0, 1, 0, 0, 0, 0), CellsStats(t.cells));
    case Generic(g) =>
      CountListsIsStat(g.lists);
      PlusParagraphs(Stats(0, 0, 0, if g.equation.Some? then 1 else 0, 0, 0), ListsStats(g.lists));
    case _ =>
  }

  lemma {:induction false} CountCellsIsStat(cells: seq<Cell>)
    ensures CountCells(cells) == CellsStats(cells).paragraphs
    decreases cells
  {
    hide Stats.Plus, ParagraphsStats, CountParagraphs;
    if cells != [] {
      CountCellsIsStat(cells[..|cells| - 1]);
      CountParagraphsIsStat(cells[|cells| - 1].paragraphs);
      PlusParagraphs(CellsStats(cells[..|cells| - 1]), ParagraphsStats(cells[|cells| - 1].paragraphs));
    }
  }

  lemma {:induction false} CountListsIsStat(lists: seq<ParagraphList>)
    ensures CountLists(lists) == ListsStats(lists).paragraphs
    decreases lists
  {
    hide Stats.Plus, ParagraphsStats, CountParagraphs;
    if lists != [] {
      CountListsIsStat(lists[..|lists| - 1]);
      CountParagraphsIsStat(lists[|lists| - 1].paragraphs);
      PlusParagraphs(ListsStats(lists[..|lists| - 1]), ParagraphsStats(lists[|lists| - 1].paragraphs));
    }
  }

  lemma {:induction false} CountParagraphsIsStat(ps: seq<Paragraph>)
    ensures CountParagraphs(ps) == ParagraphsStats(ps).paragraphs
    decreases ps
  {
    hide Stats.Plus, ParagraphStats, CountParagraph;
    if ps != [] {
      CountParagraphsIsStat(ps[..|ps| - 1]);
      CountIsStat(ps[|ps| - 1]);
      PlusParagraphs(ParagraphsStats(ps[..|ps| - 1]), ParagraphStats(ps[|ps| - 1]));
    }
  }

  /** The paragraph count of a report is the number of paragraphs at every depth. */
  lemma {:induction false} CountSectionsIsStat(sections: seq<Section>)
    ensures CountSections(sections) == SectionsStats(sections).paragraphs
  {
    hide Stats.Plus, ParagraphsStats, CountParagraphs;
    if sections != [] {
      CountSectionsIsStat(sections[..|sections| - 1]);
      CountParagraphsIsStat(sections[|sections| - 1].paragraphs);
      PlusParagraphs(SectionsStats(sections[..|sections| - 1]), ParagraphsStats(sections[|sections| - 1].paragraphs));
    }
  }

  lemma Whole<T>(s: seq<T>)
    ensures s[..|s|] == s
  {
  }

  // ----- The certifier's collector -------------------------------------------------------

  /** The part of the counts that the certifier collects. */
  function Seen(s: Stats): Stats {
    Stats(0, s.tables, s.pictures, 0, 0, s.unresolved)
  }

  lemma SeenPlus(a: Stats, b: Stats)
    ensures Seen(a.Plus(b)) == Seen(a).Plus(Seen(b))
  {
  }

  lemma NothingSeen(a: Stats)
    ensures Seen(NO_STATS) == NO_STATS && a.Plus(NO_STATS) == a && NO_STATS.Plus(a) == a
  {
  }

  class StatsCollector {
    var tables: nat
    var pictures: nat
    var unresolvedFields: nat

    constructor ()
      ensures Counters() == NO_STATS
    {
      tables, pictures, unresolvedFields := 0, 0, 0;
    }

    ghost function Counters(): Stats
      reads this
    {
      Stats(0, tables, pictures, 0, 0, unresolvedFields)
    }

    method CountUnresolved(chars: seq<HwpChar>, controls: nat)
      modifies this`unresolvedFields
      ensures unresolvedFields == old(unresolvedFields) + Unresolved(chars, controls)
    {
      var i := 0;
      while i < |chars|
        invariant 0 <= i <= |chars|
        invariant unresolvedFields == old(unresolvedFields) + Unresolved(chars[..i], controls)
      {
        assert chars[..i + 1][..i] == chars[..i];
        if chars[i].ExtCtrl? && chars[i].code == FIELD_START
           && (chars[i].ctrlIndex.None? || chars[i].ctrlIndex.value >= controls) {
          unresolvedFields := unresolvedFields + 1;
        }
        i := i + 1;
      }
      assert chars[..i] == chars;
    }

    method CollectParagraph(p: Paragraph)
      modifies this
      ensures Counters() == old(Counters()).Plus(Seen(ParagraphStats(p)))
      decreases p
    {
      hide Stats.Plus, Seen, Unresolved, FieldStarts, ControlsStats, ControlStats;
      ghost var start := Counters();
      ghost var own := Stats(1, 0, 0, 0, FieldStarts(p.chars), Unresolved(p.chars, |p.controls|));
      CountUnresolved(p.chars, |p.controls|);
      Bumped(start, own);
      NoItems();
      NothingSeen(start.Plus(Seen(own)));
      var k := 0;
      while k < |p.controls|
        invariant 0 <= k <= |p.controls|
        invariant Counters() == start.Plus(Seen(own)).Plus(Seen(ControlsStats(p.controls[..k])))
      {
        ControlsStep(p.controls, k);
        SeenPlus(ControlsStats(p.controls[..k]), ControlStats(p.controls[k]));
        PlusAssociates(start.Plus(Seen(own)), Seen(ControlsStats(p.controls[..k])), Seen(ControlStats(p.controls[k])));
        CollectControl(p.controls[k]);
        k := k + 1;
      }
      Whole(p.controls);
      SeenPlus(own, ControlsStats(p.controls));
      PlusAssociates(start, Seen(own), Seen(ControlsStats(p.controls)));
    }

    method CollectControl(control: Control)
      modifies this
      ensures Counters() == old(Counters()).Plus(Seen(ControlStats(control)))
      decreases control
    {
      hide Stats.Plus, Seen, CellsStats, ListsStats, ParagraphsStats;
      ghost var start := Counters();
      NoItems();
      match control
      case TableControl(t) =>
        ghost var own := Stats(0, 1, 0, 0, 0, 0);
        tables := tables + 1;
        Bumped(start, own);
        NothingSeen(start.Plus(Seen(own)));
        var i := 0;
        while i < |t.cells|
          invariant 0 <= i <= |t.cells|
          invariant Counters() == start.Plus(Seen(own)).Plus(Seen(CellsStats(t.cells[..i])))
        {
          CellsStep(t.cells, i);
          SeenPlus(CellsStats(t.cells[..i]), ParagraphsStats(t.cells[i].paragraphs));
          PlusAssociates(start.Plus(Seen(own)), Seen(CellsStats(t.cells[..i])),
            Seen(ParagraphsStats(t.cells[i].paragraphs)));
          CollectParagraphs(t.cells[i].paragraphs);
          i := i + 1;
        }
        Whole(t.cells);
        SeenPlus(own, CellsStats(t.cells));
        PlusAssociates(start, Seen(own), Seen(CellsStats(t.cells)));
      case PictureControl(_) =>
        pictures := pictures + 1;
        Bumped(start, Stats(0, 0, 1, 0, 0, 0));
      case Generic(g) =>
        ghost var own := Stats(0, 0, 0, if g.equation.Some? then 1 else 0, 0, 0);
        Bumped(start, own);
        NothingSeen(start.Plus(Seen(own)));
        var i := 0;
        while i < |g.lists|
          invariant 0 <= i <= |g.lists|
          invariant Counters() == start.Plus(Seen(own)).Plus(Seen(ListsStats(g.lists[..i])))
        {
          ListsStep(g.lists, i);
          SeenPlus(ListsStats(g.lists[..i]), ParagraphsStats(g.lists[i].paragraphs));
          PlusAssociates(start.Plus(Seen(own)), Seen(ListsStats(g.lists[..i])),
            Seen(ParagraphsStats(g.lists[i].paragraphs)));
          CollectParagraphs(g.lists[i].paragraphs);
          i := i + 1;
        }
        Whole(g.lists);
        SeenPlus(own, ListsStats(g.lists));
        PlusAssociates(start, Seen(own), Seen(ListsStats(g.lists)));
      case SectionDef =>
        NothingSeen(start);
    }

    method CollectParagraphs(ps: seq<Paragraph>)
      modifies this
      ensures Counters() == old(Counters()).Plus(Seen(ParagraphsStats(ps)))
      decreases ps
    {
      hide Stats.Plus, Seen, ParagraphsStats, ParagraphStats;
      ghost var start := Counters();
      NoItems();
      NothingSeen(start);
      var i := 0;
      while i < |ps|
        invariant 0 <= i <= |ps|
        invariant Counters() == start.Plus(Seen(ParagraphsStats(ps[..i])))
      {
        ParagraphsStep(ps, i);
        SeenPlus(ParagraphsStats(ps[..i]), ParagraphStats(ps[i]));
        PlusAssociates(start, Seen(ParagraphsStats(ps[..i])), Seen(ParagraphStats(ps[i])));
        CollectParagraph(ps[i]);
        i := i + 1;
      }
      Whole(ps);
    }
  }

  /** What `own` adds to the collected counters. */
  lemma Bumped(start: Stats, own: Stats)
    ensures start.Plus(Seen(own)) == Stats(start.paragraphs, start.tables + own.tables, start.pictures + own.pictures,
                                           start.equations, start.fields, start.unresolved + own.unresolved)
  {
  }

  /** A fresh collector ends with the counts over the whole document. */
  method CollectDocument(doc: Document) returns (stats: StatsCollector)
    ensures fresh(stats) && stats.Counters() == Seen(DocumentStats(doc))
  {
    hide Stats.Plus, Seen, SectionsStats, ParagraphsStats;
    stats := new StatsCollector();
    NoItems();
    NothingSeen(NO_STATS);
    var i := 0;
    while i < |doc.sections|
      invariant 0 <= i <= |doc.sections|
      invariant stats.Counters() == Seen(SectionsStats(doc.sections[..i]))
      invariant fresh(stats)
    {
      SectionsStep(doc.sections, i);
      SeenPlus(SectionsStats(doc.sections[..i]), ParagraphsStats(doc.sections[i].paragraphs));
      stats.CollectParagraphs(doc.sections[i].paragraphs);
      i := i + 1;
    }
    Whole(doc.sections);
  }
}
