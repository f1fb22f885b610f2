/**
 In a well-formed document every field start leads to its control, at every depth.
 */
module TidyFields {
  import opened HwpModel
  import opened Realization
  import opened RealizationFacts
  import opened Tidiness
  import opened SectionRealization

  lemma PlusUnresolved(a: Stats, b: Stats)
    ensures a.Plus(b).unresolved == a.unresolved + b.unresolved
  {
  }

  lemma {:induction false} TidyResolves(p: Paragraph)
    requires Tidy(p)
    ensures ParagraphStats(p).unresolved == 0
    decreases p
  {
    hide Stats.Plus, ControlsStats, ControlsTidy, Sound, Unresolved, FieldStarts;
    SoundResolves(p);
    ControlsResolve(p.controls);
    PlusUnresolved(Stats(1, 0, 0, 0, FieldStarts(p.chars), Unresolved(p.chars, |p.controls|)),
      ControlsStats(p.controls));
  }

  lemma {:induction false} ControlsResolve(controls: seq<Control>)
    requires ControlsTidy(controls)
    ensures ControlsStats(controls).unresolved == 0
    decreases controls
  {
    hide Stats.Plus, ControlStats, ControlTidy;
    if controls != [] {
      ControlsResolve(controls[..|controls| - 1]);
      ControlResolves(controls[|controls| - 1]);
      PlusUnresolved(ControlsStats(controls[..|controls| - 1]), ControlStats(controls[|controls| - 1]));
    }
  }

  lemma {:induction false} ControlResolves(control: Control)
    requires ControlTidy(control)
    ensures ControlStats(control).unresolved == 0
    decreases control
  {
    hide Stats.Plus, CellsStats, ListsStats, CellsTidy, ListsTidy, ExactTable;
    match control
    case TableControl(t) =>
      CellsResolve(t.cells);
      PlusUnresolved(Stats(0, 1, 0, 0, 0, 0), CellsStats(t.cells));
    case Generic(g) =>
      ListsResolve(g.lists);
      PlusUnresolved(Stats(0, 0, 0, if g.equation.Some? then 1 else 0, 0, 0), ListsStats(g.lists));
    case _ =>
  }

  lemma {:induction false} CellsResolve(cells: seq<Cell>)
    requires CellsTidy(cells)
    ensures CellsStats(cells).unresolved == 0
    decreases cells
  {
    hide Stats.Plus, ParagraphsStats, ParagraphsTidy;
    if cells != [] {
      CellsResolve(cells[..|cells| - 1]);
      ParagraphsResolve(cells[|cells| - 1].paragraphs);
      PlusUnresolved(CellsStats(cells[..|cells| - 1]), ParagraphsStats(cells[|cells| - 1].paragraphs));
    }
  }

  lemma {:induction false} ListsResolve(lists: seq<ParagraphList>)
    requires ListsTidy(lists)
    ensures ListsStats(lists).unresolved == 0
    decreases lists
  {
    hide Stats.Plus, ParagraphsStats, ParagraphsTidy;
    if lists != [] {
      ListsResolve(lists[..|lists| - 1]);
      ParagraphsResolve(lists[|lists| - 1].paragraphs);
      PlusUnresolved(ListsStats(lists[..|lists| - 1]), ParagraphsStats(lists[|lists| - 1].paragraphs));
    }
  }

  lemma {:induction false} ParagraphsResolve(ps: seq<Paragraph>)
    requires ParagraphsTidy(ps)
    ensures ParagraphsStats(ps).unresolved == 0
    decreases ps
  {
    hide Stats.Plus, ParagraphStats, Tidy;
    if ps != [] {
      ParagraphsResolve(ps[..|ps| - 1]);
      TidyResolves(ps[|ps| - 1]);
      PlusUnresolved(ParagraphsStats(ps[..|ps| - 1]), ParagraphStats(ps[|ps| - 1]));
    }
  }

  /** No field of a well-formed document is unresolved. */
  lemma {:induction false} SectionsResolve(sections: seq<Section>)
    requires SectionsTidy(sections)
    ensures SectionsStats(sections).unresolved == 0
  {
    hide Stats.Plus, ParagraphsStats, ParagraphsTidy;
    if sections != [] {
      SectionsResolve(sections[..|sections| - 1]);
      ParagraphsResolve(sections[|sections| - 1].paragraphs);
      PlusUnresolved(SectionsStats(sections[..|sections| - 1]), ParagraphsStats(sections[|sections| - 1].paragraphs));
    }
  }
}
