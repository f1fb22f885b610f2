/**
 A realised block stays realised while the tables it refers to grow.
 */
module RealizationGrowth {
  import opened HwpModel
  import opened Styles
  import opened DocumentSpecs
  import opened Headers
  import opened Realization

  lemma ImageGrows(ctx: Context, a: Env, b: Env, path: AssetPath, width: real, height: Option<real>, isInline: bool,
      control: Control)
    requires Extends(a, b) && ImageRealized(ctx, a, path, width, height, isInline, control)
    ensures ImageRealized(ctx, b, path, width, height, isInline, control)
  {
    var stream := BinStream(AssetName(ctx.files[path]), ctx.files[path].data);
    var i :| 0 <= i < |a.streams| && a.streams[i] == stream;
    assert b.streams[i] == stream;
  }

  lemma {:induction false} ControlsGrow(ctx: Context, a: Env, b: Env, runs: seq<RunSpec>, controls: seq<Control>)
    requires Extends(a, b) && ControlsRealized(ctx, a, runs, controls)
    ensures ControlsRealized(ctx, b, runs, controls)
  {
    hide ImageRealized, Extends;
    if runs != [] {
      var front, run := runs[..|runs| - 1], runs[|runs| - 1];
      if HasControl(run) {
        var last := controls[|controls| - 1];
        ControlsGrow(ctx, a, b, front, controls[..|controls| - 1]);
        if run.ImageRun? {
          ImageGrows(ctx, a, b, run.path, run.imageWidth, run.imageHeight, true, last);
        }
      } else {
        ControlsGrow(ctx, a, b, front, controls);
      }
    }
  }

  lemma StyledRunGrows(ctx: Context, a: Env, b: Env, style: Option<string>, format: RunFormat, shape: nat)
    requires Extends(a, b) && StyledRun(ctx, a, style, format, shape)
    ensures StyledRun(ctx, b, style, format, shape)
  {
    hide Styled;
    var base := StyleOf(ctx, style).charShape;
    assert a.header.charShapes[base] == b.header.charShapes[base];
    ShowsGrows(a.header, b.header, shape, a.header.charShapes[base], FormatStyle(format));
  }

  lemma RunShapesGrow(ctx: Context, a: Env, b: Env, runs: seq<RunSpec>, style: Option<string>, initial: nat,
      shapes: seq<nat>)
    requires Extends(a, b) && RunShapesOk(ctx, a, runs, style, initial, shapes)
    ensures RunShapesOk(ctx, b, runs, style, initial, shapes)
  {
    hide StyledRun;
    forall i | 0 <= i < |runs| ensures RunShapeOk(ctx, b, runs[i], style, Before(initial, shapes[..i]), shapes[i]) {
      if runs[i].TextRun? {
        StyledRunGrows(ctx, a, b, Either(runs[i].style, style), runs[i].format, shapes[i]);
      }
    }
  }

  lemma TextGrows(ctx: Context, a: Env, b: Env, runs: seq<RunSpec>, style: Option<string>, p: Paragraph)
    requires Extends(a, b) && TextShown(ctx, a, runs, style, p)
    ensures TextShown(ctx, b, runs, style, p)
  {
    hide RunShapeOk, ShownShapes, RunsShapes;
    var initial := StyleOf(ctx, style).charShape;
    var shapes :| RunShapesOk(ctx, a, runs, style, initial, shapes)
      && ShownShapes(p) == RunsShapes(runs, initial, shapes);
    RunShapesGrow(ctx, a, b, runs, style, initial, shapes);
  }

  lemma ParaShapeGrows(ctx: Context, a: Env, b: Env, style: Option<string>, list: Option<ListRef>, shape: nat)
    requires Extends(a, b) && ParaShapeOk(ctx, a, style, list, shape)
    ensures ParaShapeOk(ctx, b, style, list, shape)
  {
  }

  lemma {:induction false} BlockGrows(ctx: Context, a: Env, b: Env, block: BlockSpec, p: Paragraph)
    requires Extends(a, b) && BlockRealized(ctx, a, block, p)
    ensures BlockRealized(ctx, b, block, p)
    decreases block, 0
  {
    hide Sound, TextShown, FormatsShown, ParaShapeOk, ControlsRealized, ImageRealized, FrameRealized, HoldsObject,
      RowsRealized, RunsChars, ShownShapes, Grows;
    match block
    case ParagraphBlock(own, list, _, runs) =>
      var style := Either(own, LevelStyle(ctx.spec, list));
      TextGrows(ctx, a, b, runs, style, p);
      TextShownAsAsked(ctx, b, runs, style, p);
      ParaShapeGrows(ctx, a, b, style, list, p.paraShape);
      ControlsGrow(ctx, a, b, runs, p.controls);
    case TableBlock(_, columns, rows) => RowsGrow(ctx, a, b, rows, p.controls[0].table.cells);
    case ImageBlock(path, width, height, _, isInline) =>
      ImageGrows(ctx, a, b, path, width, height, isInline, p.controls[0]);
    case EquationBlock(_, _, _) =>
    case FieldBlock(_, _, style) => ShapesGrow(a, b);
    case BreakBlock(_) =>
  }

  lemma ShapesGrow(a: Env, b: Env)
    requires Extends(a, b)
    ensures |a.header.charShapes| <= |b.header.charShapes|
  {
  }

  lemma {:induction false} BlocksGrow(ctx: Context, a: Env, b: Env, blocks: seq<BlockSpec>, ps: seq<Paragraph>)
    requires Extends(a, b) && BlocksRealized(ctx, a, blocks, ps)
    ensures BlocksRealized(ctx, b, blocks, ps)
    decreases blocks, 1
  {
    hide BlockRealized, Extends;
    if blocks != [] {
      BlocksGrow(ctx, a, b, blocks[..|blocks| - 1], ps[..|ps| - 1]);
      BlockGrows(ctx, a, b, blocks[|blocks| - 1], ps[|ps| - 1]);
    }
  }

  lemma {:induction false} ListGrows(ctx: Context, a: Env, b: Env, blocks: seq<BlockSpec>, ps: seq<Paragraph>)
    requires Extends(a, b) && ListRealized(ctx, a, blocks, ps)
    ensures ListRealized(ctx, b, blocks, ps)
    decreases blocks, 2
  {
    hide BlocksRealized, Extends;
    if blocks != [] {
      BlocksGrow(ctx, a, b, blocks, ps);
    }
  }

  lemma {:induction false} RowGrows(ctx: Context, a: Env, b: Env, specs: seq<CellSpec>, cells: seq<Cell>)
    requires Extends(a, b) && RowRealized(ctx, a, specs, cells)
    ensures RowRealized(ctx, b, specs, cells)
    decreases specs, 0
  {
    hide ListRealized, Extends;
    if specs != [] {
      RowGrows(ctx, a, b, specs[..|specs| - 1], cells[..|cells| - 1]);
      ListGrows(ctx, a, b, specs[|specs| - 1].blocks, cells[|cells| - 1].paragraphs);
    }
  }

  lemma {:induction false} RowsGrow(ctx: Context, a: Env, b: Env, rows: seq<RowSpec>, cells: seq<Cell>)
    requires Extends(a, b) && RowsRealized(ctx, a, rows, cells)
    ensures RowsRealized(ctx, b, rows, cells)
    decreases rows, 1
  {
    hide RowRealized, Extends;
    if rows != [] {
      var last := |rows[|rows| - 1].cells|;
      RowsGrow(ctx, a, b, rows[..|rows| - 1], cells[..|cells| - last]);
      RowGrows(ctx, a, b, rows[|rows| - 1].cells, cells[|cells| - last..]);
    }
  }
}
