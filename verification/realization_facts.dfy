/**
 Consequences of realisation: the recursive counts of a compiled document are those of its
 specification, and every paragraph and table in it is well formed.
 */
module RealizationFacts {
  import opened HwpModel
  import opened Styles
  import opened TableGrid
  import opened TableMeasure
  import opened DocumentSpecs
  import opened Headers
  import opened Realization
  import PB = ParagraphBuilding

  // ----- What a specification asks for ---------------------------------------------------

  function RunStats(run: RunSpec): Stats {
    match run
    case FieldRun(_, _, _) => Stats(0, 0, 0, 0, 1, 0)
    case EquationRun(_, _, _) => Stats(0, 0, 0, 1, 0, 0)
    case ImageRun(_, _, _, _) => Stats(0, 0, 1, 0, 0, 0)
    case _ => NO_STATS
  }

  function RunsStats(runs: seq<RunSpec>): Stats {
    if runs == [] then NO_STATS else RunsStats(runs[..|runs| - 1]).Plus(RunStats(runs[|runs| - 1]))
  }

  /** The paragraphs, tables, pictures, equations and fields a block asks for, nested ones included. */
  function BlockStats(block: BlockSpec): Stats
    decreases block, 0
  {
    match block
    case ParagraphBlock(_, _, _, runs) => Stats(1, 0, 0, 0, 0, 0).Plus(RunsStats(runs))
    case TableBlock(_, _, rows) => Stats(1, 1, 0, 0, 0, 0).Plus(RowsStats(rows))
    case ImageBlock(_, _, _, _, _) => Stats(1, 0, 1, 0, 0, 0)
    case EquationBlock(_, _, _) => Stats(1, 0, 0, 1, 0, 0)
    case FieldBlock(_, _, _) => Stats(1, 0, 0, 0, 1, 0)
    case BreakBlock(_) => Stats(1, 0, 0, 0, 0, 0)
  }

  function BlocksStats(blocks: seq<BlockSpec>): Stats
    decreases blocks, 1
  {
    if blocks == [] then NO_STATS else BlocksStats(blocks[..|blocks| - 1]).Plus(BlockStats(blocks[|blocks| - 1]))
  }

  function ListStats(blocks: seq<BlockSpec>): Stats
    decreases blocks, 2
  {
    if blocks == [] then Stats(1, 0, 0, 0, 0, 0) else BlocksStats(blocks)
  }

  function RowStats(cells: seq<CellSpec>): Stats
    decreases cells, 0
  {
    if cells == [] then NO_STATS else RowStats(cells[..|cells| - 1]).Plus(ListStats(cells[|cells| - 1].blocks))
  }

  function RowsStats(rows: seq<RowSpec>): Stats
    decreases rows, 1
  {
    if rows == [] then NO_STATS else RowsStats(rows[..|rows| - 1]).Plus(RowStats(rows[|rows| - 1].cells))
  }

  // ----- Algebra -------------------------------------------------------------------------

  lemma NoStatsAdded(a: Stats)
    ensures a.Plus(NO_STATS) == a && NO_STATS.Plus(a) == a
  {
  }

  lemma {:induction false} CellsStatsConcat(a: seq<Cell>, b: seq<Cell>)
    ensures CellsStats(a + b) == CellsStats(a).Plus(CellsStats(b))
  {
    hide Stats.Plus, ParagraphsStats;
    if b == [] {
      assert a + b == a;
      NoStatsAdded(CellsStats(a));
    } else {
      var c, x := b[..|b| - 1], b[|b| - 1];
      assert (a + b)[..|a + b| - 1] == a + c;
      CellsStatsConcat(a, c);
      PlusAssociates(CellsStats(a), CellsStats(c), ParagraphsStats(x.paragraphs));
    }
  }

  lemma {:induction false} FieldStartsConcat(a: seq<HwpChar>, b: seq<HwpChar>)
    ensures FieldStarts(a + b) == FieldStarts(a) + FieldStarts(b)
  {
    if b == [] {
      assert a + b == a;
    } else {
      assert (a + b)[..|a + b| - 1] == a + b[..|b| - 1];
      FieldStartsConcat(a, b[..|b| - 1]);
    }
  }

  lemma {:induction false} NoFieldStarts(chars: seq<HwpChar>)
    requires forall i :: 0 <= i < |chars| ==> !IsFieldStart(chars[i])
    ensures FieldStarts(chars) == 0
  {
    if chars != [] {
      NoFieldStarts(chars[..|chars| - 1]);
    }
  }

  lemma OneFieldStart(ch: HwpChar)
    ensures FieldStarts([ch]) == if IsFieldStart(ch) then 1 else 0
  {
    assert [ch][..0] == [];
    assert FieldStarts([]) == 0;
  }

  lemma FieldCharsStarts(value: string, index: nat)
    ensures FieldStarts(PB.FieldChars(value, index)) == 1
  {
    var start := ExtCtrl(FIELD_START, "%clk", Some(index));
    FieldStartsConcat([start] + PB.TextChars(value), [InlineCtrl(FIELD_END)]);
    FieldStartsConcat([start], PB.TextChars(value));
    NoFieldStarts(PB.TextChars(value));
    OneFieldStart(start);
    OneFieldStart(InlineCtrl(FIELD_END));
  }

  lemma RunCharsStarts(run: RunSpec, index: nat)
    ensures FieldStarts(RunChars(run, index)) == RunStats(run).fields
  {
    match run
    case TextRun(text, _, _) => NoFieldStarts(PB.TextChars(text));
    case FieldRun(_, value, _) => FieldCharsStarts(value, index);
    case EquationRun(_, _, _) => OneFieldStart(RunChars(run, index)[0]);
    case ImageRun(_, _, _, _) => OneFieldStart(RunChars(run, index)[0]);
    case LineBreakRun => OneFieldStart(RunChars(run, index)[0]);
  }

  lemma {:induction false} RunsCharsStarts(runs: seq<RunSpec>)
    ensures FieldStarts(RunsChars(runs)) == RunsStats(runs).fields
  {
    if runs != [] {
      var front, run := runs[..|runs| - 1], runs[|runs| - 1];
      RunsCharsStarts(front);
      RunCharsStarts(run, ControlCount(front));
      FieldStartsConcat(RunsChars(front), RunChars(run, ControlCount(front)));
    }
  }

  lemma RunControlCounted(ctx: Context, env: Env, run: RunSpec, control: Control)
    requires RunControlOk(ctx, env, run, control)
    ensures ControlStats(control) == RunStats(run).(fields := 0)
  {
    hide ControlStats, PB.FieldData, ImageRealized;
    match run
    case FieldRun(name, _, _) => FieldControlStats(name);
    case EquationRun(script, width, height) => EquationStats(script, width, height);
    case ImageRun(path, width, height, _) => PictureStats(ctx, env, path, width, height, true, control);
    case _ =>
  }

  lemma FieldControlStats(name: string)
    ensures ControlStats(PB.FieldControl(name)) == NO_STATS
  {
    hide PB.FieldData;
    assert ListsStats([]) == NO_STATS;
  }

  lemma ControlsSnoc(controls: seq<Control>)
    requires controls != []
    ensures ControlsStats(controls) ==
      ControlsStats(controls[..|controls| - 1]).Plus(ControlStats(controls[|controls| - 1]))
  {
  }

  lemma RunsStatsSnoc(runs: seq<RunSpec>)
    requires runs != []
    ensures RunsStats(runs).(fields := 0)
      == RunsStats(runs[..|runs| - 1]).(fields := 0).Plus(RunStats(runs[|runs| - 1]).(fields := 0))
  {
  }

  lemma {:induction false} RunControlsCounted(ctx: Context, env: Env, runs: seq<RunSpec>, controls: seq<Control>)
    requires ControlsRealized(ctx, env, runs, controls)
    ensures ControlsStats(controls) == RunsStats(runs).(fields := 0)
  {
    hide RunControlOk, ControlStats, Stats.Plus, RunsStats, ControlsStats;
    if runs == [] {
      NoControls();
    } else {
      var front, run := runs[..|runs| - 1], runs[|runs| - 1];
      RunsStatsSnoc(runs);
      if HasControl(run) {
        ControlsSnoc(controls);
        RunControlCounted(ctx, env, run, controls[|controls| - 1]);
        RunControlsCounted(ctx, env, front, controls[..|controls| - 1]);
      } else {
        RunControlsCounted(ctx, env, front, controls);
        NoStatsAdded(RunsStats(front).(fields := 0));
      }
    }
  }

  lemma NoControls()
    ensures ControlsStats([]) == NO_STATS && RunsStats([]) == NO_STATS
  {
  }

  lemma SoundResolves(p: Paragraph)
    requires Sound(p)
    ensures Unresolved(p.chars, |p.controls|) == 0
  {
    LinkedResolves(p.chars, p.controls, |p.chars|);
    assert p.chars[..|p.chars|] == p.chars;
  }

  lemma ObjectStats(p: Paragraph, control: Control)
    requires Sound(p) && HoldsObject(p, control)
    ensures ParagraphStats(p) == Stats(1, 0, 0, 0, 0, 0).Plus(ControlStats(control))
  {
    hide ControlStats, Sound, Unresolved;
    SoundResolves(p);
    OneFieldStart(ObjectChar(control));
    ControlsSnoc([control]);
    assert [control][..0] == [];
    NoControls();
    NoStatsAdded(ControlStats(control));
  }

  lemma ParagraphStatsOfRuns(ctx: Context, env: Env, runs: seq<RunSpec>, p: Paragraph)
    requires Sound(p) && p.chars == RunsChars(runs) && ControlsRealized(ctx, env, runs, p.controls)
    ensures ParagraphStats(p) == Stats(1, 0, 0, 0, 0, 0).Plus(RunsStats(runs))
  {
    hide Sound, Unresolved, RunsStats, RunsChars, FieldStarts;
    SoundResolves(p);
    RunsCharsStarts(runs);
    RunControlsCounted(ctx, env, runs, p.controls);
    RunsHaveNoOther(runs);
  }

  lemma {:induction false} RunsHaveNoOther(runs: seq<RunSpec>)
    ensures RunsStats(runs).paragraphs == 0 && RunsStats(runs).tables == 0 && RunsStats(runs).unresolved == 0
  {
    if runs != [] {
      RunsHaveNoOther(runs[..|runs| - 1]);
    }
  }

  lemma FieldBlockStats(p: Paragraph, name: string, value: string)
    requires Sound(p) && p.chars == PB.FieldChars(value, 0) && p.controls == [PB.FieldControl(name)]
    ensures ParagraphStats(p) == Stats(1, 0, 0, 0, 1, 0)
  {
    hide Sound, Unresolved, FieldStarts, ControlStats, ControlsStats, Stats.Plus, PB.FieldControl, PB.FieldChars;
    SoundResolves(p);
    FieldCharsStarts(value, 0);
    ControlsSnoc([PB.FieldControl(name)]);
    assert [PB.FieldControl(name)][..0] == [];
    NoControls();
    FieldControlStats(name);
    NoStatsAdded(NO_STATS);
    NoStatsAdded(Stats(1, 0, 0, 0, 1, 0));
  }

  lemma EmptyParagraphStats(breakType: nat)
    ensures ParagraphStats(EMPTY_PARAGRAPH.(breakType := breakType)) == Stats(1, 0, 0, 0, 0, 0)
  {
    NoControls();
  }

  lemma TableStats(t: Table)
    ensures ControlStats(TableControl(t)) == Stats(0, 1, 0, 0, 0, 0).Plus(CellsStats(t.cells))
  {
  }

  /** A compiled block counts exactly what its specification asks for, and leaves no field unresolved. */
  lemma {:induction false} BlockCounted(ctx: Context, env: Env, block: BlockSpec, p: Paragraph)
    requires BlockRealized(ctx, env, block, p)
    ensures ParagraphStats(p) == BlockStats(block)
    decreases block, 0
  {
    hide Sound, TextShown, FormatsShown, ParaShapeOk, ControlsRealized, ImageRealized, FrameRealized, RowsRealized,
      RunsChars, ShownShapes, ParagraphStats, RowsStats, RunsStats, CellsStats, Stats.Plus;
    match block
    case ParagraphBlock(own, list, _, runs) => ParagraphStatsOfRuns(ctx, env, runs, p);
    case TableBlock(_, columns, rows) =>
      var t := p.controls[0].table;
      ObjectStats(p, p.controls[0]);
      RowsCounted(ctx, env, rows, t.cells);
      TableStats(t);
      PlusAssociates(Stats(1, 0, 0, 0, 0, 0), Stats(0, 1, 0, 0, 0, 0), RowsStats(rows));
      OneParagraph(Stats(0, 1, 0, 0, 0, 0));
    case ImageBlock(path, width, height, _, isInline) =>
      ObjectStats(p, p.controls[0]);
      PictureStats(ctx, env, path, width, height, isInline, p.controls[0]);
      OneParagraph(Stats(0, 0, 1, 0, 0, 0));
    case EquationBlock(script, width, height) =>
      ObjectStats(p, EquationControl(script, width, height));
      EquationStats(script, width, height);
      OneParagraph(Stats(0, 0, 0, 1, 0, 0));
    case FieldBlock(name, value, _) => FieldBlockStats(p, name, value);
    case BreakBlock(kind) => EmptyParagraphStats(p.breakType);
  }

  lemma OneParagraph(s: Stats)
    ensures Stats(1, 0, 0, 0, 0, 0).Plus(s) == s.(paragraphs := s.paragraphs + 1)
  {
  }

  lemma PictureStats(ctx: Context, env: Env, path: AssetPath, width: real, height: Option<real>, isInline: bool,
      control: Control)
    requires ImageRealized(ctx, env, path, width, height, isInline, control)
    ensures ControlStats(control) == Stats(0, 0, 1, 0, 0, 0)
  {
  }

  lemma EquationStats(script: string, width: Option<real>, height: Option<real>)
    ensures ControlStats(EquationControl(script, width, height)) == Stats(0, 0, 0, 1, 0, 0)
  {
    assert ListsStats([]) == NO_STATS;
  }

  lemma {:induction false} BlocksCounted(ctx: Context, env: Env, blocks: seq<BlockSpec>, ps: seq<Paragraph>)
    requires BlocksRealized(ctx, env, blocks, ps)
    ensures ParagraphsStats(ps) == BlocksStats(blocks)
    decreases blocks, 1
  {
    hide BlockRealized, BlockStats, ParagraphStats, Stats.Plus;
    if blocks != [] {
      BlocksCounted(ctx, env, blocks[..|blocks| - 1], ps[..|ps| - 1]);
      BlockCounted(ctx, env, blocks[|blocks| - 1], ps[|ps| - 1]);
    }
  }

  lemma {:induction false} ListCounted(ctx: Context, env: Env, blocks: seq<BlockSpec>, ps: seq<Paragraph>)
    requires ListRealized(ctx, env, blocks, ps)
    ensures ParagraphsStats(ps) == ListStats(blocks)
    decreases blocks, 2
  {
    hide BlocksRealized, BlocksStats, ParagraphStats;
    if blocks == [] {
      EmptyParagraphStats(0);
      assert [EMPTY_PARAGRAPH][..0] == [];
      assert ParagraphsStats([]) == NO_STATS;
    } else {
      BlocksCounted(ctx, env, blocks, ps);
    }
  }

  lemma {:induction false} RowCounted(ctx: Context, env: Env, specs: seq<CellSpec>, cells: seq<Cell>)
    requires RowRealized(ctx, env, specs, cells)
    ensures CellsStats(cells) == RowStats(specs)
    decreases specs, 0
  {
    hide ListRealized, ListStats, ParagraphsStats, Stats.Plus;
    if specs != [] {
      RowCounted(ctx, env, specs[..|specs| - 1], cells[..|cells| - 1]);
      ListCounted(ctx, env, specs[|specs| - 1].blocks, cells[|cells| - 1].paragraphs);
    }
  }

  lemma {:induction false} RowsCounted(ctx: Context, env: Env, rows: seq<RowSpec>, cells: seq<Cell>)
    requires RowsRealized(ctx, env, rows, cells)
    ensures CellsStats(cells) == RowsStats(rows)
    decreases rows, 1
  {
    hide RowRealized, RowStats, ParagraphsStats, Stats.Plus;
    if rows != [] {
      var last := |rows[|rows| - 1].cells|;
      var front, back := cells[..|cells| - last], cells[|cells| - last..];
      RowsCounted(ctx, env, rows[..|rows| - 1], front);
      RowCounted(ctx, env, rows[|rows| - 1].cells, back);
      CellsStatsConcat(front, back);
      assert front + back == cells;
    }
  }
}
