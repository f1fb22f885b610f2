/**
 Well-formedness of a whole document: characters paired with controls and shape runs in
 order in every paragraph, and every table an exact tiling with consistent counts and widths.
 */
module Tidiness {
  import opened HwpModel
  import opened TableGrid
  import opened TableMeasure
  import opened DocumentSpecs
  import opened Headers
  import opened Realization

  // ----- Tables --------------------------------------------------------------------------

  /** How many cells are anchored in row `r`. */
  function Anchored(ps: seq<Placed>, r: int): nat {
    if ps == [] then 0 else Anchored(ps[..|ps| - 1], r) + if ps[|ps| - 1].row == r then 1 else 0
  }

  /** The stored widths of the cells that cover row `r`, added up. */
  function StoredWidths(cells: seq<Cell>, r: int): int {
    if cells == [] then 0
    else
      var cell := cells[|cells| - 1];
      StoredWidths(cells[..|cells| - 1], r) + if cell.row <= r < cell.row + cell.rowSpan then cell.width else 0
  }

  /**
   The cells tile the grid exactly, in reading order; their areas add up to the grid, each
   row count is the number of cells anchored in that row, and each row is as wide as the table.
   */
  ghost predicate ExactTable(t: Table) {
    var ps := PlacedOf(t.cells);
    && ExactTiling(ps, t.rows, t.cols) && RowMajor(ps)
    && TotalArea(ps) == t.rows * t.cols
    && |t.rowCellCounts| == t.rows
    && (forall r :: 0 <= r < t.rows ==> t.rowCellCounts[r] == Anchored(ps, r))
    && (forall r :: 0 <= r < t.rows ==> StoredWidths(t.cells, r) == t.width)
  }

  lemma {:induction false} AnchoredConcat(a: seq<Placed>, b: seq<Placed>, r: int)
    ensures Anchored(a + b, r) == Anchored(a, r) + Anchored(b, r)
  {
    if b == [] {
      assert a + b == a;
    } else {
      assert (a + b)[..|a + b| - 1] == a + b[..|b| - 1];
      AnchoredConcat(a, b[..|b| - 1], r);
    }
  }

  lemma {:induction false} AnchoredAll(ps: seq<Placed>, s: int, r: int)
    requires forall i :: 0 <= i < |ps| ==> ps[i].row == s
    ensures Anchored(ps, r) == if r == s then |ps| else 0
  {
    if ps != [] {
      AnchoredAll(ps[..|ps| - 1], s, r);
    }
  }

  lemma {:induction false} AnchoredUpTo(ps: seq<Placed>, rows: seq<seq<Span>>, k: nat, r: nat)
    requires ListsCells(ps, rows) && k <= |rows| && CellsBefore(rows, k) <= |ps|
    ensures Anchored(ps[..CellsBefore(rows, k)], r) == if r < k then |rows[r]| else 0
  {
    if k > 0 {
      var a, b := CellsBefore(rows, k - 1), CellsBefore(rows, k);
      AnchoredUpTo(ps, rows, k - 1, r);
      assert ps[..b] == ps[..a] + ps[a..b];
      AnchoredConcat(ps[..a], ps[a..b], r);
      forall i | 0 <= i < b - a ensures ps[a..b][i].row == k - 1 {
        assert HoldsCell(ps, CellsBefore(rows, k - 1) + i, k - 1, rows[k - 1][i]);
      }
      AnchoredAll(ps[a..b], k - 1, r);
    }
  }

  lemma {:induction false} RowFitsBound(ps: seq<Placed>, r: nat, cursor: nat, spans: seq<Span>, rows: nat, n: nat)
    requires RowFits(ps, r, cursor, spans, rows, n)
    ensures cursor + |spans| <= n
    decreases |spans|
  {
    hide Occupied;
    if spans != [] {
      var c := FirstFree(ps, r, cursor, n);
      RowFitsBound(ps + [Placed(r, c, spans[0])], r, c + spans[0].colSpan, spans[1..], rows, n);
    }
  }

  lemma {:induction false} FitsBound(ps: seq<Placed>, r: nat, rows: seq<seq<Span>>, n: nat, s: nat)
    requires r <= s < |rows| && Fits(ps, r, rows, n)
    ensures |rows[s]| <= n
    decreases |rows| - r
  {
    if r == s {
      RowFitsBound(ps, r, 0, rows[r], |rows|, n);
    } else {
      FitsBound(LayoutRow(ps, r, 0, rows[r], n), r + 1, rows, n, s);
    }
  }

  lemma {:induction false} StoredWidthsAcross(widths: seq<int>, cells: seq<Cell>, r: int)
    requires forall i :: 0 <= i < |cells| ==> CellSized(widths, cells[i])
    ensures forall i :: 0 <= i < |PlacedOf(cells)| ==>
      PlacedOf(cells)[i].col + PlacedOf(cells)[i].span.colSpan <= |widths|
    ensures StoredWidths(cells, r) == WidthsAcross(widths, PlacedOf(cells), r)
  {
    if cells != [] {
      var front := cells[..|cells| - 1];
      StoredWidthsAcross(widths, front, r);
      assert PlacedOf(cells)[..|cells| - 1] == PlacedOf(front);
    }
  }

  /** A compiled table that passed the span checks is exact. */
  lemma FrameIsExact(columns: seq<real>, rows: seq<RowSpec>, t: Table)
    requires FrameRealized(columns, rows, t) && GridSizeOk(|columns|, |rows|)
    requires Fits([], 0, SpansOf(rows), |columns|)
    ensures ExactTable(t)
  {
    var spans, widths := SpansOf(rows), Columns(columns);
    var ps := PlacedOf(t.cells);
    FitsImpliesTiling(spans, |columns|);
    TilingArea(ps, t.rows, t.cols);
    forall r: nat | r < t.rows ensures t.rowCellCounts[r] == Anchored(ps, r) {
      FitsBound([], 0, spans, |columns|, r);
      AnchoredUpTo(ps, spans, |rows|, r);
      assert ps[..|ps|] == ps;
    }
    forall r: nat | r < t.rows ensures StoredWidths(t.cells, r) == t.width {
      StoredWidthsAcross(widths, t.cells, r);
      TilingRowWidths(widths, ps, t.rows, r);
    }
  }

  // ----- Documents -----------------------------------------------------------------------

  ghost predicate Tidy(p: Paragraph)
    decreases p
  {
    Sound(p) && ControlsTidy(p.controls)
  }

  ghost predicate ControlsTidy(controls: seq<Control>)
    decreases controls
  {
    controls == [] || (ControlsTidy(controls[..|controls| - 1]) && ControlTidy(controls[|controls| - 1]))
  }

  ghost predicate ControlTidy(control: Control)
    decreases control
  {
    match control
    case TableControl(t) => ExactTable(t) && CellsTidy(t.cells)
    case Generic(g) => ListsTidy(g.lists)
    case _ => true
  }

  ghost predicate CellsTidy(cells: seq<Cell>)
    decreases cells
  {
    cells == [] || (CellsTidy(cells[..|cells| - 1]) && ParagraphsTidy(cells[|cells| - 1].paragraphs))
  }

  ghost predicate ListsTidy(lists: seq<ParagraphList>)
    decreases lists
  {
    lists == [] || (ListsTidy(lists[..|lists| - 1]) && ParagraphsTidy(lists[|lists| - 1].paragraphs))
  }

  ghost predicate ParagraphsTidy(ps: seq<Paragraph>)
    decreases ps
  {
    ps == [] || (ParagraphsTidy(ps[..|ps| - 1]) && Tidy(ps[|ps| - 1]))
  }

  lemma {:induction false} ParagraphsTidyConcat(a: seq<Paragraph>, b: seq<Paragraph>)
    requires ParagraphsTidy(a) && ParagraphsTidy(b)
    ensures ParagraphsTidy(a + b)
  {
    hide Tidy;
    if b == [] {
      assert a + b == a;
    } else {
      assert (a + b)[..|a + b| - 1] == a + b[..|b| - 1];
      ParagraphsTidyConcat(a, b[..|b| - 1]);
    }
  }

  lemma {:induction false} CellsTidyConcat(a: seq<Cell>, b: seq<Cell>)
    requires CellsTidy(a) && CellsTidy(b)
    ensures CellsTidy(a + b)
  {
    hide ParagraphsTidy;
    if b == [] {
      assert a + b == a;
    } else {
      assert (a + b)[..|a + b| - 1] == a + b[..|b| - 1];
      CellsTidyConcat(a, b[..|b| - 1]);
    }
  }

  lemma OneControlTidy(control: Control)
    requires ControlTidy(control)
    ensures ControlsTidy([control])
  {
    hide ControlTidy;
    assert [control][..0] == [];
  }

  lemma PlainControlTidy(control: Control)
    requires control.SectionDef? || control.PictureControl? || (control.Generic? && control.generic.lists == [])
    ensures ControlTidy(control)
  {
  }

  lemma {:induction false} RunControlsTidy(ctx: Context, env: Env, runs: seq<RunSpec>, controls: seq<Control>)
    requires ControlsRealized(ctx, env, runs, controls)
    ensures ControlsTidy(controls)
  {
    hide ControlTidy;
    if runs != [] {
      var front, run := runs[..|runs| - 1], runs[|runs| - 1];
      if HasControl(run) {
        RunControlsTidy(ctx, env, front, controls[..|controls| - 1]);
        PlainControlTidy(controls[|controls| - 1]);
      } else {
        RunControlsTidy(ctx, env, front, controls);
      }
    }
  }

  lemma TidyFrom(p: Paragraph)
    requires Sound(p) && ControlsTidy(p.controls)
    ensures Tidy(p)
  {
  }

  lemma ObjectTidy(p: Paragraph, control: Control)
    requires Sound(p) && p.controls == [control] && ControlTidy(control)
    ensures Tidy(p)
  {
    hide ControlTidy, Sound;
    OneControlTidy(control);
    TidyFrom(p);
  }

  lemma EmptyTidy(breakType: nat)
    ensures Sound(EMPTY_PARAGRAPH.(breakType := breakType)) && Tidy(EMPTY_PARAGRAPH.(breakType := breakType))
  {
  }

  /** A compiled block of a validated specification is well formed throughout. */
  lemma {:induction false} BlockTidy(ctx: Context, env: Env, block: BlockSpec, p: Paragraph, depth: nat,
      sectionBreaks: bool, bodyWidth: real)
    requires BlockRealized(ctx, env, block, p) && BlockOk(ctx.spec, block, depth, sectionBreaks, bodyWidth)
    ensures Tidy(p)
    decreases block, 0
  {
    hide Sound, Tidy, ControlsTidy, ControlTidy, TextShown, ParaShapeOk, ControlsRealized, FrameRealized, RowsRealized,
      RunsChars, ShownShapes, ParagraphOk, TableWidthsOk, CellsOk, Fits;
    match block
    case ParagraphBlock(own, list, _, runs) =>
      RunControlsTidy(ctx, env, runs, p.controls);
      TidyFrom(p);
    case TableBlock(_, columns, rows) =>
      var t := p.controls[0].table;
      FrameIsExact(columns, rows, t);
      RowsTidy(ctx, env, rows, t.cells, depth, bodyWidth);
      TableTidy(t);
      ObjectTidy(p, p.controls[0]);
    case ImageBlock(_, _, _, _, _) =>
      PlainControlTidy(p.controls[0]);
      ObjectTidy(p, p.controls[0]);
    case EquationBlock(script, width, height) =>
      PlainControlTidy(EquationControl(script, width, height));
      ObjectTidy(p, EquationControl(script, width, height));
    case FieldBlock(_, _, _) =>
      PlainControlTidy(p.controls[0]);
      ObjectTidy(p, p.controls[0]);
    case BreakBlock(_) => EmptyTidy(p.breakType);
  }

  lemma TableTidy(t: Table)
    requires ExactTable(t) && CellsTidy(t.cells)
    ensures ControlTidy(TableControl(t))
  {
  }

  lemma {:induction false} BlocksTidy(ctx: Context, env: Env, blocks: seq<BlockSpec>, ps: seq<Paragraph>, depth: nat,
      sectionBreaks: bool, bodyWidth: real)
    requires BlocksRealized(ctx, env, blocks, ps) && EachBlockOk(ctx.spec, blocks, depth, sectionBreaks, bodyWidth)
    ensures ParagraphsTidy(ps)
    decreases blocks, 1
  {
    hide BlockRealized, BlockOk, Tidy;
    if blocks != [] {
      BlocksTidy(ctx, env, blocks[..|blocks| - 1], ps[..|ps| - 1], depth, sectionBreaks, bodyWidth);
      BlockTidy(ctx, env, blocks[|blocks| - 1], ps[|ps| - 1], depth, sectionBreaks, bodyWidth);
    }
  }

  lemma {:induction false} ListTidy(ctx: Context, env: Env, blocks: seq<BlockSpec>, ps: seq<Paragraph>, depth: nat,
      bodyWidth: real)
    requires ListRealized(ctx, env, blocks, ps) && BlocksOk(ctx.spec, blocks, depth, false, bodyWidth)
    ensures ParagraphsTidy(ps)
    decreases blocks, 2
  {
    hide BlocksRealized, EachBlockOk, Tidy;
    if blocks == [] {
      EmptyTidy(0);
      assert [EMPTY_PARAGRAPH][..0] == [];
    } else {
      BlocksTidy(ctx, env, blocks, ps, depth, false, bodyWidth);
    }
  }

  lemma {:induction false} RowTidy(ctx: Context, env: Env, specs: seq<CellSpec>, cells: seq<Cell>, depth: nat,
      bodyWidth: real)
    requires RowRealized(ctx, env, specs, cells) && CellsOk(ctx.spec, specs, 0, depth, bodyWidth)
    ensures CellsTidy(cells)
    decreases specs, 0
  {
    hide ListRealized, BlocksOk, ParagraphsTidy;
    if specs != [] {
      assert CellsOk(ctx.spec, specs[..|specs| - 1], 0, depth, bodyWidth);
      RowTidy(ctx, env, specs[..|specs| - 1], cells[..|cells| - 1], depth, bodyWidth);
      ListTidy(ctx, env, specs[|specs| - 1].blocks, cells[|cells| - 1].paragraphs, depth + 1, bodyWidth);
    }
  }

  lemma {:induction false} RowsTidy(ctx: Context, env: Env, rows: seq<RowSpec>, cells: seq<Cell>, depth: nat,
      bodyWidth: real)
    requires RowsRealized(ctx, env, rows, cells)
    requires forall s :: 0 <= s < |rows| ==> CellsOk(ctx.spec, rows[s].cells, 0, depth, bodyWidth)
    ensures CellsTidy(cells)
    decreases rows, 1
  {
    hide RowRealized, CellsOk;
    if rows != [] {
      var last := |rows[|rows| - 1].cells|;
      var front, back := cells[..|cells| - last], cells[|cells| - last..];
      RowsTidy(ctx, env, rows[..|rows| - 1], front, depth, bodyWidth);
      RowTidy(ctx, env, rows[|rows| - 1].cells, back, depth, bodyWidth);
      CellsTidyConcat(front, back);
      assert front + back == cells;
    }
  }
}
