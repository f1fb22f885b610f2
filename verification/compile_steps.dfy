/**
 Steps of the compiler, on values: what one more run, block, cell, row or asset adds.
 */
module CompileSteps {
  import opened HwpModel
  import opened Styles
  import opened TableGrid
  import opened TableMeasure
  import opened DocumentSpecs
  import opened Headers
  import opened Realization
  import opened RealizationGrowth
  import opened RealizationFacts
  import PB = ParagraphBuilding

  const MAX_TOTAL_ASSET_BYTES := 128 * 1024 * 1024

  datatype ComposeError =
    | AssetUnreadable | AssetUnsupported | AssetWithoutPixels | AssetBudget | ImageHeightRange
    | ShapeTableFull | StyleTableFull | ListTableFull
    | StyleMissing | StyleCycle | ListMissing | SectionBreakNested | TooManyControls

  datatype Outcome<+T> = Ok(value: T) | Err(error: ComposeError)

  datatype EmbeddedAsset = EmbeddedAsset(itemRef: string, pixelSize: (nat, nat))

  function TotalBytes(streams: seq<BinStream>): nat {
    if streams == [] then 0 else TotalBytes(streams[..|streams| - 1]) + |streams[|streams| - 1].data|
  }

  /** Files with the same digest are the same file. */
  ghost predicate DigestsInjective(files: Files) {
    forall p, q :: p in files && q in files && files[p].digest == files[q].digest ==> files[p] == files[q]
  }

  predicate Embeds(env: Env, file: AssetFile, asset: EmbeddedAsset) {
    && file.pixelSize == Some(asset.pixelSize) && asset.pixelSize.0 > 0
    && asset.itemRef == AssetName(file)
    && BinStream(AssetName(file), file.data) in env.streams
  }

  lemma EmbedsGrows(a: Env, b: Env, file: AssetFile, asset: EmbeddedAsset)
    requires Extends(a, b) && Embeds(a, file, asset)
    ensures Embeds(b, file, asset)
  {
    var i :| 0 <= i < |a.streams| && a.streams[i] == BinStream(AssetName(file), file.data);
    assert b.streams[i] == a.streams[i];
  }

  /** A style's shapes are made from its resolved values, and its entry in the table names them. */
  ghost predicate StyleMade(h: Header, made: CompiledStyle, name: string, style: StyleSpec) {
    && made.paraShape < |h.paraShapes| && 2 < |h.paraShapes|
    && ParaLaidOver(h.paraShapes[made.paraShape], h.paraShapes[2], style)
    && h.charShapes != [] && Shows(h, made.charShape, h.charShapes[0], style)
    && made.styleId < |h.styles| && h.styles[made.styleId] == StyleEntry(name, made.paraShape, made.charShape)
  }

  ghost predicate StyleReady(ctx: Context, env: Env, name: string) {
    && name in ctx.styles && name in ctx.resolved
    && StyleMade(env.header, ctx.styles[name], name, ctx.resolved[name])
  }

  ghost predicate StylesReady(ctx: Context, env: Env) {
    && ctx.styles.Keys == ctx.spec.styles.Keys
    && (forall name :: name in ctx.spec.styles ==> StyleReady(ctx, env, name))
    && (forall name :: name in ctx.spec.styles ==>
          name in ctx.resolved && ResolveStyle(ctx.spec.styles, name, {}) == Found(ctx.resolved[name]))
  }

  ghost predicate ListsReady(ctx: Context) {
    && ListsOk(ctx.spec) && ctx.lists.Keys == ctx.spec.lists.Keys
    && forall name :: name in ctx.spec.lists ==> |ctx.lists[name]| == |ctx.spec.lists[name].levels|
  }

  lemma StyleStaysMade(a: Header, b: Header, made: CompiledStyle, name: string, style: StyleSpec)
    requires StyleMade(a, made, name, style) && Grows(a, b)
    ensures StyleMade(b, made, name, style)
  {
    hide Styled, StyledPara;
    assert a.charShapes[0] == b.charShapes[0];
    assert a.paraShapes[2] == b.paraShapes[2];
    ShowsGrows(a, b, made.charShape, a.charShapes[0], style);
  }

  lemma StylesStayReady(ctx: Context, a: Env, b: Env)
    requires StylesReady(ctx, a) && Extends(a, b)
    ensures StylesReady(ctx, b)
  {
    hide StyleMade, ResolveStyle, Grows;
    forall name | name in ctx.spec.styles ensures StyleReady(ctx, b, name) {
      assert StyleReady(ctx, a, name);
      StyleStaysMade(a.header, b.header, ctx.styles[name], name, ctx.resolved[name]);
    }
  }

  lemma StyleShapeInRange(ctx: Context, env: Env, style: Option<string>)
    requires StylesReady(ctx, env) && HeaderOk(env.header)
    ensures StyleOf(ctx, style).charShape < |env.header.charShapes|
    ensures StyleOf(ctx, style).paraShape < |env.header.paraShapes|
  {
    hide Styled, StyledPara, ResolveStyle;
    assert style.Some? && style.value in ctx.spec.styles ==> StyleReady(ctx, env, style.value);
  }

  ghost predicate ListShapesReady(ctx: Context, env: Env, listShapes: map<(nat, string, nat), nat>) {
    forall base, name, level :: (base, name, level) in listShapes ==>
      ListShapeReady(ctx, env, base, name, level, listShapes[(base, name, level)])
  }

  predicate ListShapeReady(ctx: Context, env: Env, base: nat, name: string, level: nat, shape: nat) {
    && name in ctx.spec.lists && name in ctx.lists && level < |ctx.lists[name]|
    && base < |env.header.paraShapes| && shape < |env.header.paraShapes|
    && Numbered(env.header.paraShapes[shape], env.header.paraShapes[base], ctx.spec.lists[name].ordered, level,
                ctx.lists[name][level])
  }

  /** Both asset caches lead to streams that hold the bytes of the file asked for. */
  ghost predicate CachesReady(files: Files, env: Env, assets: map<string, EmbeddedAsset>,
      assetPaths: map<AssetPath, EmbeddedAsset>, sources: map<string, AssetPath>)
  {
    && (forall path :: path in assetPaths ==> FileUsable(files, path) && Embeds(env, files[path], assetPaths[path]))
    && assets.Keys == sources.Keys
    && (forall digest :: digest in assets ==>
          && sources[digest] in files && files[sources[digest]].digest == digest
          && Embeds(env, files[sources[digest]], assets[digest]))
  }

  lemma CachesStayReady(files: Files, a: Env, b: Env, assets: map<string, EmbeddedAsset>,
      assetPaths: map<AssetPath, EmbeddedAsset>, sources: map<string, AssetPath>)
    requires CachesReady(files, a, assets, assetPaths, sources) && Extends(a, b)
    ensures CachesReady(files, b, assets, assetPaths, sources)
  {
    hide Embeds, Extends;
    forall path | path in assetPaths ensures Embeds(b, files[path], assetPaths[path]) {
      EmbedsGrows(a, b, files[path], assetPaths[path]);
    }
    forall digest | digest in assets ensures Embeds(b, files[sources[digest]], assets[digest]) {
      EmbedsGrows(a, b, files[sources[digest]], assets[digest]);
    }
  }

  lemma CacheAdded(files: Files, env: Env, assets: map<string, EmbeddedAsset>,
      assetPaths: map<AssetPath, EmbeddedAsset>, sources: map<string, AssetPath>, path: AssetPath, asset: EmbeddedAsset)
    requires CachesReady(files, env, assets, assetPaths, sources)
    requires FileUsable(files, path) && Embeds(env, files[path], asset)
    ensures CachesReady(files, env, assets, assetPaths[path := asset], sources)
    ensures CachesReady(files, env, assets[files[path].digest := asset], assetPaths[path := asset],
      sources[files[path].digest := path])
  {
    hide Embeds;
  }

  function PictureOf(asset: EmbeddedAsset, width: real, heightMm: real, isInline: bool): Picture {
    Picture(asset.itemRef, MmToHwp(width), MmToHwp(heightMm), isInline, if isInline then 0 else 10)
  }

  /** An embedded file is usable at a size exactly when the height that follows can be stored. */
  lemma ImageMade(ctx: Context, env: Env, path: AssetPath, width: real, height: Option<real>, isInline: bool,
      asset: EmbeddedAsset)
    requires FileUsable(ctx.files, path) && Embeds(env, ctx.files[path], asset)
    ensures asset.pixelSize.0 > 0
    ensures var heightMm := ImageHeight(width, height, asset.pixelSize);
      && (ImageUsable(ctx.files, path, width, height) <==> DimensionOk(heightMm))
      && (DimensionOk(heightMm) ==>
            ImageRealized(ctx, env, path, width, height, isInline,
                          PictureControl(PictureOf(asset, width, heightMm, isInline))))
  {
    hide ImageHeight, MmToHwp, DimensionOk;
  }

  lemma StreamAdded(streams: seq<BinStream>, stream: BinStream)
    ensures TotalBytes(streams + [stream]) == TotalBytes(streams) + |stream.data|
  {
    assert (streams + [stream])[..|streams + [stream]| - 1] == streams;
  }

  // ----- Run by run ----------------------------------------------------------------------

  lemma RunsCharsStep(runs: seq<RunSpec>, i: nat)
    requires i < |runs|
    ensures RunsChars(runs[..i + 1]) == RunsChars(runs[..i]) + RunChars(runs[i], ControlCount(runs[..i]))
    ensures ControlCount(runs[..i + 1]) == ControlCount(runs[..i]) + if HasControl(runs[i]) then 1 else 0
    ensures RunsStats(runs[..i + 1]) == RunsStats(runs[..i]).Plus(RunStats(runs[i]))
  {
    hide RunChars, Stats.Plus;
    assert runs[..i + 1][..i] == runs[..i];
  }

  lemma RunsShapesStep(runs: seq<RunSpec>, i: nat, initial: nat, shapes: seq<nat>, shape: nat)
    requires i < |runs| && |shapes| == i
    ensures RunsShapes(runs[..i + 1], initial, shapes + [shape])
      == RunsShapes(runs[..i], initial, shapes) + RunShapes(runs[i], Before(initial, shapes), shape)
  {
    hide RunShapes;
    assert runs[..i + 1][..i] == runs[..i];
    assert (shapes + [shape])[..i] == shapes;
  }

  lemma RunShapesOkStep(ctx: Context, env: Env, runs: seq<RunSpec>, i: nat, style: Option<string>, initial: nat,
      shapes: seq<nat>, shape: nat)
    requires i < |runs| && RunShapesOk(ctx, env, runs[..i], style, initial, shapes)
    requires RunShapeOk(ctx, env, runs[i], style, Before(initial, shapes), shape)
    ensures RunShapesOk(ctx, env, runs[..i + 1], style, initial, shapes + [shape])
  {
    hide RunShapeOk;
    var all := shapes + [shape];
    forall j | 0 <= j < i + 1
      ensures RunShapeOk(ctx, env, runs[..i + 1][j], style, Before(initial, all[..j]), all[j])
    {
      assert all[..j] == shapes[..j];
      if j < i {
        assert RunShapeOk(ctx, env, runs[..i][j], style, Before(initial, shapes[..j]), shapes[j]);
      } else {
        assert shapes[..j] == shapes;
      }
    }
  }

  /** How one run's control extends the controls of the runs before it. */
  ghost predicate ControlAdded(ctx: Context, env: Env, run: RunSpec, before: seq<Control>, after: seq<Control>) {
    if HasControl(run) then
      |after| == |before| + 1 && after[..|before|] == before && RunControlOk(ctx, env, run, after[|before|])
    else after == before
  }

  lemma ControlsStep(ctx: Context, env: Env, runs: seq<RunSpec>, i: nat, before: seq<Control>, after: seq<Control>)
    requires i < |runs| && ControlsRealized(ctx, env, runs[..i], before)
    requires ControlAdded(ctx, env, runs[i], before, after)
    ensures ControlsRealized(ctx, env, runs[..i + 1], after)
  {
    hide RunControlOk;
    assert runs[..i + 1][..i] == runs[..i];
  }

  lemma {:induction false} ControlsCounted(ctx: Context, env: Env, runs: seq<RunSpec>, controls: seq<Control>)
    requires ControlsRealized(ctx, env, runs, controls)
    ensures |controls| == ControlCount(runs)
  {
    hide RunControlOk;
    if runs != [] {
      var front := runs[..|runs| - 1];
      ControlsCounted(ctx, env, front, if HasControl(runs[|runs| - 1]) then controls[..|controls| - 1] else controls);
    }
  }

  lemma {:induction false} ControlsBounded(runs: seq<RunSpec>)
    ensures ControlCount(runs) <= |runs|
  {
    if runs != [] {
      ControlsBounded(runs[..|runs| - 1]);
    }
  }

  lemma NothingBefore<T>(s: seq<T>)
    ensures [] + s == s
  {
  }

  lemma NothingBehind<T>(s: seq<T>)
    ensures s + [] == s
  {
  }

  lemma ExtendsTransitive(a: Env, b: Env, c: Env)
    requires Extends(a, b) && Extends(b, c)
    ensures Extends(a, c)
  {
  }

  lemma ExtendsSelf(env: Env)
    ensures Extends(env, env)
  {
  }

  function Reported(s: Stats): Stats {
    s.(paragraphs := 0)
  }

  ghost predicate AllSized(widths: seq<int>, cells: seq<Cell>) {
    forall i :: 0 <= i < |cells| ==> CellSized(widths, cells[i])
  }

  lemma ColumnCount(columns: seq<real>)
    ensures |Columns(columns)| == |columns|
  {
  }

  lemma LayoutDone(ps: seq<Placed>, rows: seq<seq<Span>>, n: nat)
    ensures Layout(ps, |rows|, rows, n) == ps
  {
  }

  lemma NoCellsRealized(ctx: Context, env: Env)
    ensures RowRealized(ctx, env, [], []) && RowsRealized(ctx, env, [], [])
    ensures Reported(RowStats([])) == Reported(RowsStats([])) == NO_STATS
    ensures PlacedOf([]) == []
  {
  }

  lemma PlacedSnoc(before: seq<Placed>, cells: seq<Cell>, cell: Cell)
    ensures before + PlacedOf(cells + [cell]) == before + PlacedOf(cells) + [PlacedCell(cell)]
  {
  }

  lemma PlacedConcat(a: seq<Cell>, b: seq<Cell>)
    ensures PlacedOf(a + b) == PlacedOf(a) + PlacedOf(b)
  {
  }

  lemma RowRealizedStep(ctx: Context, env: Env, specs: seq<CellSpec>, k: nat, cells: seq<Cell>, cell: Cell)
    requires k < |specs| && RowRealized(ctx, env, specs[..k], cells)
    requires ListRealized(ctx, env, specs[k].blocks, cell.paragraphs)
    ensures RowRealized(ctx, env, specs[..k + 1], cells + [cell])
  {
    hide ListRealized;
    assert specs[..k + 1][..k] == specs[..k];
    assert (cells + [cell])[..k] == cells;
  }

  lemma RowStatsStep(specs: seq<CellSpec>, k: nat)
    requires k < |specs|
    ensures Reported(RowStats(specs[..k + 1])) ==
      Reported(RowStats(specs[..k])).Plus(Reported(ListStats(specs[k].blocks)))
  {
    hide ListStats;
    assert specs[..k + 1][..k] == specs[..k];
  }

  lemma RowsRealizedStep(ctx: Context, env: Env, rows: seq<RowSpec>, r: nat, cells: seq<Cell>, row: seq<Cell>)
    requires r < |rows| && RowsRealized(ctx, env, rows[..r], cells) && RowRealized(ctx, env, rows[r].cells, row)
    ensures RowsRealized(ctx, env, rows[..r + 1], cells + row)
  {
    RowLength(ctx, env, rows[r].cells, row);
    hide RowRealized;
    assert rows[..r + 1][..r] == rows[..r];
    assert (cells + row)[..|cells + row| - |row|] == cells;
    assert (cells + row)[|cells + row| - |row|..] == row;
  }

  lemma RowLength(ctx: Context, env: Env, specs: seq<CellSpec>, cells: seq<Cell>)
    requires RowRealized(ctx, env, specs, cells)
    ensures |cells| == |specs|
  {
  }

  lemma RowsStatsStep(rows: seq<RowSpec>, r: nat)
    requires r < |rows|
    ensures Reported(RowsStats(rows[..r + 1])) == Reported(RowsStats(rows[..r])).Plus(Reported(RowStats(rows[r].cells)))
  {
    hide RowStats;
    assert rows[..r + 1][..r] == rows[..r];
  }

  lemma {:induction false} CellBudgetAt(cells: seq<CellSpec>, k: nat)
    requires k < |cells|
    ensures BlocksSum(cells[k].blocks).runs <= CellsBudget(cells).runs
  {
    hide BlocksSum;
    var last := cells[|cells| - 1];
    assert CellBudget(last).runs == BlocksSum(last.blocks).runs;
    assert CellsBudget(cells) == CellsBudget(cells[..|cells| - 1]).Plus(CellBudget(last));
    if k < |cells| - 1 {
      CellBudgetAt(cells[..|cells| - 1], k);
    }
  }

  lemma {:induction false} RowBudgetAt(rows: seq<RowSpec>, r: nat)
    requires r < |rows|
    ensures CellsBudget(rows[r].cells).runs <= RowsBudget(rows).runs
  {
    hide CellsBudget;
    if r < |rows| - 1 {
      RowBudgetAt(rows[..|rows| - 1], r);
    }
  }

  lemma FrameFrom(columns: seq<real>, rows: seq<RowSpec>, t: Table)
    requires t.rows == |rows| && t.cols == |columns| && t.rowCellCounts == CellCounts(rows)
    requires t.width == WidthOf(Columns(columns), 0, |columns|) && t.height == TableHeight(|rows|)
    requires PlacedOf(t.cells) == Layout([], 0, SpansOf(rows), |columns|)
    requires AllSized(Columns(columns), t.cells)
    ensures FrameRealized(columns, rows, t)
  {
  }

  lemma TableRealized(ctx: Context, env: Env, width: Option<real>, columns: seq<real>, rows: seq<RowSpec>, t: Table,
      p: Paragraph)
    requires Sound(p) && HoldsObject(p, TableControl(t)) && FrameRealized(columns, rows, t)
    requires RowsRealized(ctx, env, rows, t.cells)
    ensures BlockRealized(ctx, env, TableBlock(width, columns, rows), p)
  {
    hide Sound, FrameRealized, RowsRealized;
  }

  lemma ReportTable(s: Stats, rows: seq<RowSpec>)
    ensures s.Plus(Reported(RowsStats(rows))).Plus(Stats(0, 1, 0, 0, 0, 0))
      == s.Plus(Reported(Stats(1, 1, 0, 0, 0, 0).Plus(RowsStats(rows))))
  {
    hide RowsStats;
  }

  function PlacedCell(c: Cell): Placed {
    Placed(c.row, c.col, Span(c.colSpan, c.rowSpan))
  }

  lemma FewRuns(style: Option<string>, list: Option<ListRef>, keep: bool, runs: seq<RunSpec>)
    ensures BlockBudget(ParagraphBlock(style, list, keep, runs)).runs >= |runs|
  {
    hide RunsBudget;
  }

  lemma ReportParagraph(runs: seq<RunSpec>)
    ensures Reported(Stats(1, 0, 0, 0, 0, 0).Plus(RunsStats(runs))) == RunsStats(runs)
  {
    hide RunsStats;
    RunsHaveNoOther(runs);
  }

  lemma ObjectRealized(ctx: Context, env: Env, block: BlockSpec, p: Paragraph)
    requires Sound(p) && |p.controls| == 1 && |p.chars| == 1 && p.chars[0].ExtCtrl? && p.chars[0].code == OBJECT
    requires p.(chars := [], controls := []) == EMPTY_PARAGRAPH
    requires block.EquationBlock? || block.ImageBlock?
    requires block.EquationBlock? ==> p.controls[0] == EquationControl(block.script, block.width, block.height)
    requires block.ImageBlock? ==>
      ImageRealized(ctx, env, block.path, block.imageWidth, block.imageHeight, block.isInline, p.controls[0])
    ensures BlockRealized(ctx, env, block, p)
  {
    hide ImageRealized, EquationControl, PB.RunsOk;
    assert LinkedAt(p.chars, p.controls, 0);
    assert p.chars[..0] == [];
    assert ExtCount([]) == 0;
    assert p.chars == [ObjectChar(p.controls[0])];
  }

  lemma FieldRealized(ctx: Context, env: Env, name: string, value: string, style: Option<string>, p: Paragraph)
    requires Sound(p)
    requires p.(runs := []) ==
      EMPTY_PARAGRAPH.(chars := PB.FieldChars(value, 0), controls := [PB.FieldControl(name)], runs := [])
    requires var shape := StyleOf(ctx, style).charShape;
      shape < |env.header.charShapes| && ShownShapes(p) == [0] + PB.Repeat(shape, |value|) + [shape]
    ensures BlockRealized(ctx, env, FieldBlock(name, value, style), p)
  {
    hide PB.RunsOk, Linked, PB.FieldChars, PB.FieldControl, PB.Repeat, ShownShapes;
  }

  lemma BreakRealized(ctx: Context, env: Env, kind: BreakKind, p: Paragraph)
    requires !kind.SectionBreak? && p == EMPTY_PARAGRAPH.(breakType := if kind.PageBreak? then 4 else 8)
    ensures BlockRealized(ctx, env, BreakBlock(kind), p)
  {
  }

  lemma NoBlocksRealized(ctx: Context, env: Env)
    ensures BlocksRealized(ctx, env, [], []) && Reported(BlocksStats([])) == NO_STATS
  {
  }

  lemma BlocksRealizedStep(ctx: Context, env: Env, blocks: seq<BlockSpec>, i: nat, ps: seq<Paragraph>, p: Paragraph)
    requires i < |blocks| && BlocksRealized(ctx, env, blocks[..i], ps) && BlockRealized(ctx, env, blocks[i], p)
    ensures BlocksRealized(ctx, env, blocks[..i + 1], ps + [p])
  {
    hide BlockRealized;
    assert blocks[..i + 1][..i] == blocks[..i];
    assert (ps + [p])[..i] == ps;
  }

  lemma BlocksStatsStep(blocks: seq<BlockSpec>, i: nat)
    requires i < |blocks|
    ensures BlocksStats(blocks[..i + 1]) == BlocksStats(blocks[..i]).Plus(BlockStats(blocks[i]))
    ensures Reported(BlocksStats(blocks[..i + 1])) ==
      Reported(BlocksStats(blocks[..i])).Plus(Reported(BlockStats(blocks[i])))
  {
    hide BlockStats;
    assert blocks[..i + 1][..i] == blocks[..i];
  }

  lemma {:induction false} BlockBudgetAt(blocks: seq<BlockSpec>, i: nat)
    requires i < |blocks|
    ensures BlockBudget(blocks[i]).runs <= BlocksSum(blocks).runs
  {
    hide BlockBudget;
    if i < |blocks| - 1 {
      BlockBudgetAt(blocks[..|blocks| - 1], i);
    }
  }

  lemma EmptyRuns(ctx: Context, env: Env, style: Option<string>, initial: nat)
    ensures RunsChars([]) == [] && ControlsRealized(ctx, env, [], [])
    ensures RunsShapes([], initial, []) == [] && RunShapesOk(ctx, env, [], style, initial, [])
    ensures RunsStats([]) == NO_STATS
  {
  }

  /** A builder that has taken in all runs freezes to a realisation of the block. */
  lemma RealizedText(ctx: Context, env: Env, own: Option<string>, list: Option<ListRef>, keep: bool,
      runs: seq<RunSpec>, p: PB.ParagraphBuilder, initial: nat, shapes: seq<nat>)
    requires p.Valid() && p.breakType == 0
    requires var style := Either(own, LevelStyle(ctx.spec, list));
      && initial == StyleOf(ctx, style).charShape && initial < |env.header.charShapes|
      && p.style == StyleOf(ctx, style).styleId && ParaShapeOk(ctx, env, style, list, p.paraShape)
      && |shapes| == |runs|
      && p.chars == RunsChars(runs) && ControlsRealized(ctx, env, runs, p.controls)
      && p.inForce == RunsShapes(runs, initial, shapes) && RunShapesOk(ctx, env, runs, style, initial, shapes)
    ensures BlockRealized(ctx, env, ParagraphBlock(own, list, keep, runs), p.Freeze())
  {
    hide Linked, PB.ShapeAt, RunsChars, ControlsRealized, ParaShapeOk, RunShapesOk, RunsShapes, WcharLen, FormatsShown;
    FrozenShapes(p);
    var style := Either(own, LevelStyle(ctx.spec, list));
    assert TextShown(ctx, env, runs, style, p.Freeze());
    TextShownAsAsked(ctx, env, runs, style, p.Freeze());
  }

  lemma FrozenShapes(p: PB.ParagraphBuilder)
    requires p.Valid()
    ensures Sound(p.Freeze()) && ShownShapes(p.Freeze()) == p.inForce
  {
  }
}
