/**
 What it means for a compiled paragraph to realise a block of the specification, and what
 follows from it: the counts of the finished document, and its well-formedness.
 */
module Realization {
  import opened HwpModel
  import opened Styles
  import opened TableGrid
  import opened TableMeasure
  import opened DocumentSpecs
  import opened Headers
  import PB = ParagraphBuilding

  datatype BinStream = BinStream(name: string, data: seq<int>)

  datatype CompiledStyle = CompiledStyle(styleId: nat, paraShape: nat, charShape: nat)

  const PLAIN_STYLE := CompiledStyle(0, 2, 0)

  /** The compiler state that compiled paragraphs refer to. */
  datatype Env = Env(header: Header, streams: seq<BinStream>)

  predicate Extends(before: Env, after: Env) {
    Grows(before.header, after.header) && before.streams <= after.streams
  }

  /** An image file as read: its bytes and what is derived from them. */
  datatype AssetFile = AssetFile(data: seq<int>, digest: string, extension: string, pixelSize: Option<(nat, nat)>)

  type Files = map<AssetPath, AssetFile>

  /** Everything fixed while blocks are compiled. */
  datatype Context = Context(
    spec: DocumentSpec,
    files: Files,
    styles: map<string, CompiledStyle>,
    resolved: map<string, StyleSpec>,
    lists: map<string, seq<nat>>)

  function StyleOf(ctx: Context, style: Option<string>): CompiledStyle {
    if style.Some? && style.value in ctx.styles then ctx.styles[style.value] else PLAIN_STYLE
  }

  function Either(first: Option<string>, second: Option<string>): Option<string> {
    if first.Some? then first else second
  }

  /** The style a list level gives to its paragraphs. */
  function LevelStyle(spec: DocumentSpec, list: Option<ListRef>): Option<string> {
    if list.Some? && list.value.name in spec.lists && list.value.level < |spec.lists[list.value.name].levels|
    then spec.lists[list.value.name].levels[list.value.level].style
    else None
  }

  /** A run's own style counts before that of its paragraph, and that before the one of its list level. */
  lemma StylesInOrder(spec: DocumentSpec, run: Option<string>, own: Option<string>, list: ListRef)
    requires ListRefOk(spec, Some(list))
    ensures var style := Either(run, Either(own, LevelStyle(spec, Some(list))));
      && (run.Some? ==> style == run)
      && (run.None? && own.Some? ==> style == own)
      && (run.None? && own.None? ==> style == spec.lists[list.name].levels[list.level].style)
    ensures LevelStyle(spec, None) == None
  {
  }

  /** A compiled style is the one made for the name; without a style, the plain one. */
  lemma StyleByName(ctx: Context, name: string)
    requires name in ctx.styles
    ensures StyleOf(ctx, Some(name)) == ctx.styles[name]
    ensures StyleOf(ctx, None) == CompiledStyle(0, 2, 0)
  {
  }

  // ----- Characters and controls of a paragraph ------------------------------------------

  predicate HasControl(run: RunSpec) {
    run.FieldRun? || run.EquationRun? || run.ImageRun?
  }

  function ControlCount(runs: seq<RunSpec>): nat {
    if runs == [] then 0
    else ControlCount(runs[..|runs| - 1]) + if HasControl(runs[|runs| - 1]) then 1 else 0
  }

  /** The characters of one run whose control, if any, gets the given index. */
  function RunChars(run: RunSpec, index: nat): seq<HwpChar> {
    match run
    case TextRun(text, _, _) => PB.TextChars(text)
    case FieldRun(_, value, _) => PB.FieldChars(value, index)
    case EquationRun(_, _, _) => [ExtCtrl(OBJECT, "eqed", Some(index))]
    case ImageRun(_, _, _, _) => [ExtCtrl(OBJECT, "gso ", Some(index))]
    case LineBreakRun => [CharCtrl(LINE_BREAK)]
  }

  function RunsChars(runs: seq<RunSpec>): seq<HwpChar> {
    if runs == [] then []
    else
      var front := runs[..|runs| - 1];
      RunsChars(front) + RunChars(runs[|runs| - 1], ControlCount(front))
  }

  /** The shape each character of a run is shown in, between the shapes before and after it. */
  function RunShapes(run: RunSpec, before: nat, after: nat): seq<nat> {
    match run
    case TextRun(text, _, _) => PB.Repeat(after, |text|)
    case FieldRun(_, value, _) => [before] + PB.Repeat(after, |value|) + [after]
    case _ => [before]
  }

  function Before(initial: nat, shapes: seq<nat>): nat {
    if shapes == [] then initial else shapes[|shapes| - 1]
  }

  function RunsShapes(runs: seq<RunSpec>, initial: nat, shapes: seq<nat>): seq<nat>
    requires |shapes| == |runs|
  {
    if runs == [] then []
    else
      var last := |runs| - 1;
      RunsShapes(runs[..last], initial, shapes[..last])
        + RunShapes(runs[last], Before(initial, shapes[..last]), shapes[last])
  }

  /** The character shape a text or field run asks for; other runs keep the one before them. */
  ghost predicate RunShapeOk(ctx: Context, env: Env, run: RunSpec, style: Option<string>, before: nat, after: nat) {
    match run
    case TextRun(_, own, format) => StyledRun(ctx, env, Either(own, style), format, after)
    case FieldRun(_, _, own) => after == StyleOf(ctx, Either(own, style)).charShape && after < |env.header.charShapes|
    case _ => after == before
  }

  ghost predicate StyledRun(ctx: Context, env: Env, style: Option<string>, format: RunFormat, shape: nat) {
    var base := StyleOf(ctx, style).charShape;
    && base < |env.header.charShapes|
    && Shows(env.header, shape, env.header.charShapes[base], FormatStyle(format))
  }

  ghost predicate RunShapesOk(ctx: Context, env: Env, runs: seq<RunSpec>, style: Option<string>, initial: nat,
      shapes: seq<nat>)
  {
    && |shapes| == |runs|
    && forall i :: 0 <= i < |runs| ==> RunShapeOk(ctx, env, runs[i], style, Before(initial, shapes[..i]), shapes[i])
  }

  /** For every character of a paragraph, the shape its runs show it in. */
  ghost function ShownShapes(p: Paragraph): seq<nat>
    requires p.runs != [] && p.runs[0].start == 0
  {
    seq(|p.chars|, i requires 0 <= i < |p.chars| => PB.ShapeAt(p.runs, WcharLen(p.chars[..i])))
  }

  ghost predicate TextShown(ctx: Context, env: Env, runs: seq<RunSpec>, style: Option<string>, p: Paragraph) {
    var initial := StyleOf(ctx, style).charShape;
    && initial < |env.header.charShapes|
    && p.runs != [] && p.runs[0].start == 0
    && exists shapes ::
         RunShapesOk(ctx, env, runs, style, initial, shapes) && ShownShapes(p) == RunsShapes(runs, initial, shapes)
  }

  /** Character `k` of the paragraph belongs to run `i`. */
  predicate InRun(runs: seq<RunSpec>, i: nat, k: nat)
    requires i < |runs|
  {
    |RunsChars(runs[..i])| <= k < |RunsChars(runs[..i + 1])|
  }

  /** Shape `id` has every attribute that the format sets, as the format sets it. */
  predicate Asked(header: Header, id: nat, format: RunFormat) {
    && id < |header.charShapes|
    && var shape := header.charShapes[id];
    && (format.fontFamily.Some? ==> NamesFont(header.fonts, shape.face, format.fontFamily.value))
    && (format.fontSizePt.Some? ==> shape.baseSize == PtToHwp(format.fontSizePt.value))
    && (format.bold.Some? ==> shape.bold == format.bold.value)
    && (format.italic.Some? ==> shape.italic == format.italic.value)
    && (format.underline == Some(true) ==> shape.underlineKind == 1 && shape.underlineShape == 1)
    && (format.underline == Some(false) ==> shape.underlineKind == 0)
    && (format.strike.Some? ==> shape.strike == format.strike.value)
    && (format.color.Some? ==> shape.textColor == format.color.value)
    && (format.background.Some? ==> shape.shadeColor == format.background.value)
  }

  /** Every character of a text run is shown as the run's own format asks. */
  ghost predicate FormatsShown(header: Header, runs: seq<RunSpec>, p: Paragraph)
    requires p.runs != [] && p.runs[0].start == 0
  {
    forall i: nat, k: nat :: i < |runs| && k < |p.chars| && runs[i].TextRun? && InRun(runs, i, k) ==>
      Asked(header, ShownShapes(p)[k], runs[i].format)
  }

  lemma ShowsAsked(h: Header, id: nat, base: CharShape, format: RunFormat)
    requires Shows(h, id, base, FormatStyle(format))
    ensures Asked(h, id, format)
  {
    hide PtToHwp;
  }

  lemma {:induction false} RunsLength(runs: seq<RunSpec>, initial: nat, shapes: seq<nat>)
    requires |shapes| == |runs|
    ensures |RunsShapes(runs, initial, shapes)| == |RunsChars(runs)|
  {
    hide RunShapes, RunChars;
    if runs != [] {
      var front, last := runs[..|runs| - 1], |runs| - 1;
      RunsLength(front, initial, shapes[..last]);
      RunLength(runs[last], ControlCount(front), Before(initial, shapes[..last]), shapes[last]);
    }
  }

  lemma RunLength(run: RunSpec, index: nat, before: nat, after: nat)
    ensures |RunShapes(run, before, after)| == |RunChars(run, index)|
  {
  }

  lemma {:induction false} ShapeOfRun(runs: seq<RunSpec>, initial: nat, shapes: seq<nat>, i: nat, k: nat)
    requires |shapes| == |runs| && i < |runs| && runs[i].TextRun? && InRun(runs, i, k)
    ensures k < |RunsShapes(runs, initial, shapes)| && RunsShapes(runs, initial, shapes)[k] == shapes[i]
  {
    hide RunChars;
    var last := |runs| - 1;
    var front := runs[..last];
    RunsLength(front, initial, shapes[..last]);
    RunsLength(runs, initial, shapes);
    if i < last {
      assert front[..i] == runs[..i] && front[..i + 1] == runs[..i + 1];
      ShapeOfRun(front, initial, shapes[..last], i, k);
    } else {
      assert runs[..i + 1] == runs;
    }
  }

  /** Runs shown in their shapes are shown as their formats ask. */
  lemma TextShownAsAsked(ctx: Context, env: Env, runs: seq<RunSpec>, style: Option<string>, p: Paragraph)
    requires TextShown(ctx, env, runs, style, p) && p.chars == RunsChars(runs)
    ensures FormatsShown(env.header, runs, p)
  {
    hide RunsChars, RunsShapes, ShownShapes, Shows, Asked, InRun;
    var initial := StyleOf(ctx, style).charShape;
    var shapes :| RunShapesOk(ctx, env, runs, style, initial, shapes)
      && ShownShapes(p) == RunsShapes(runs, initial, shapes);
    forall i: nat, k: nat | i < |runs| && k < |p.chars| && runs[i].TextRun? && InRun(runs, i, k)
      ensures k < |ShownShapes(p)| && Asked(env.header, ShownShapes(p)[k], runs[i].format)
    {
      ShapeOfRun(runs, initial, shapes, i, k);
      assert RunShapeOk(ctx, env, runs[i], style, Before(initial, shapes[..i]), shapes[i]);
      ShowsAsked(env.header, shapes[i], env.header.charShapes[StyleOf(ctx, Either(runs[i].style, style)).charShape],
        runs[i].format);
    }
  }

  /** The paragraph shape: that of the style, numbered by the list if there is one. */
  ghost predicate ParaShapeOk(ctx: Context, env: Env, style: Option<string>, list: Option<ListRef>, shape: nat) {
    var base := StyleOf(ctx, style).paraShape;
    match list
    case None => shape == base
    case Some(l) =>
      && l.name in ctx.spec.lists && l.name in ctx.lists && l.level < |ctx.lists[l.name]|
      && base < |env.header.paraShapes| && shape < |env.header.paraShapes|
      && Numbered(env.header.paraShapes[shape], env.header.paraShapes[base], ctx.spec.lists[l.name].ordered, l.level,
                  ctx.lists[l.name][l.level])
  }

  // ----- Controls ------------------------------------------------------------------------

  function EquationControl(script: string, width: Option<real>, height: Option<real>): Control {
    Generic(GenericControl("eqed", [], [], [],
      Some(Equation(script, if width.Some? then MmToHwp(width.value) else 0, if height.Some? then MmToHwp(height.value)
        else 0, true)), None))
  }

  function AssetName(file: AssetFile): string {
    "asset-" + (if |file.digest| < 16 then file.digest else file.digest[..16]) + "." + file.extension
  }

  /** The height in millimetres: as given, or by the aspect ratio of the pixels. */
  function ImageHeight(width: real, height: Option<real>, pixels: (nat, nat)): real
    requires pixels.0 > 0
  {
    if height.Some? then height.value else width * (pixels.1 as real / pixels.0 as real)
  }

  /** Without a height, an image keeps the proportions of its pixels. */
  lemma ProportionsKept(width: real, height: Option<real>, pixels: (nat, nat))
    requires pixels.0 > 0
    ensures height.Some? ==> ImageHeight(width, height, pixels) == height.value
    ensures height.None? ==> ImageHeight(width, height, pixels) * pixels.0 as real == width * pixels.1 as real
  {
    var w, h := pixels.0 as real, pixels.1 as real;
    assert h / w * w == h;
    assert width * (h / w) * w == width * (h / w * w);
  }

  /** A stream is named by the first sixteen characters of its digest. */
  lemma AssetNameParts(file: AssetFile)
    ensures var name, n := AssetName(file), if |file.digest| < 16 then |file.digest| else 16;
      && |name| == 7 + n + |file.extension| && name[..6] == "asset-" && name[6..6 + n] == file.digest[..n]
      && name[6 + n] == '.' && name[7 + n..] == file.extension
  {
  }

  /** An equation holds its script and the sizes it was given, zero for none. */
  lemma EquationHolds(script: string, width: Option<real>, height: Option<real>)
    ensures var c := EquationControl(script, width, height);
      && c.Generic? && CtrlId(c) == "eqed" && c.generic.lists == [] && c.generic.data == []
      && c.generic.rawChildren == [] && c.generic.rawXml == None && c.generic.equation.Some?
      && var e := c.generic.equation.value;
      && e.script == script && e.isInline
      && (width.Some? ==> e.width == MmToHwp(width.value)) && (width.None? ==> e.width == 0)
      && (height.Some? ==> e.height == MmToHwp(height.value)) && (height.None? ==> e.height == 0)
  {
  }

  predicate HasPixels(file: AssetFile) {
    file.pixelSize.Some? && file.pixelSize.value.0 > 0 && file.pixelSize.value.1 > 0
  }

  /** The file is there and can be embedded. */
  predicate FileUsable(files: Files, path: AssetPath) {
    path in files && files[path].extension != "bin" && HasPixels(files[path])
  }

  /** The file is usable, and at this width the image gets a height that can be stored. */
  predicate ImageUsable(files: Files, path: AssetPath, width: real, height: Option<real>) {
    FileUsable(files, path) && DimensionOk(ImageHeight(width, height, files[path].pixelSize.value))
  }

  ghost predicate ImageRealized(ctx: Context, env: Env, path: AssetPath, width: real, height: Option<real>,
      isInline: bool, control: Control)
  {
    && ImageUsable(ctx.files, path, width, height) && control.PictureControl?
    && var file := ctx.files[path];
    && BinStream(AssetName(file), file.data) in env.streams
    && control.picture == Picture(AssetName(file), MmToHwp(width),
         MmToHwp(ImageHeight(width, height, file.pixelSize.value)), isInline, if isInline then 0 else 10)
  }

  ghost predicate RunControlOk(ctx: Context, env: Env, run: RunSpec, control: Control) {
    match run
    case FieldRun(name, _, _) => control == PB.FieldControl(name)
    case EquationRun(script, width, height) => control == EquationControl(script, width, height)
    case ImageRun(path, width, height, _) => ImageRealized(ctx, env, path, width, height, true, control)
    case _ => false
  }

  ghost predicate ControlsRealized(ctx: Context, env: Env, runs: seq<RunSpec>, controls: seq<Control>) {
    if runs == [] then controls == []
    else
      var front, run := runs[..|runs| - 1], runs[|runs| - 1];
      if HasControl(run) then
        && controls != [] && RunControlOk(ctx, env, run, controls[|controls| - 1])
        && ControlsRealized(ctx, env, front, controls[..|controls| - 1])
      else ControlsRealized(ctx, env, front, controls)
  }

  // ----- Blocks --------------------------------------------------------------------------

  /** Characters and controls paired in order, shape runs strictly increasing inside the text. */
  ghost predicate Sound(p: Paragraph) {
    Linked(p.chars, p.controls) && PB.RunsOk(p.runs, WcharLen(p.chars))
  }

  const EMPTY_PARAGRAPH := Paragraph(2, 0, [], [ShapeRun(0, 0)], [], 0, 0, [])

  function ObjectChar(control: Control): HwpChar {
    ExtCtrl(OBJECT, CtrlId(control), Some(0))
  }

  /** A paragraph that holds one object and nothing else. */
  predicate HoldsObject(p: Paragraph, control: Control) {
    p == EMPTY_PARAGRAPH.(chars := [ObjectChar(control)], controls := [control])
  }

  function Columns(columns: seq<real>): seq<int> {
    seq(|columns|, i requires 0 <= i < |columns| => MmToHwp(columns[i]))
  }

  function Height(lines: nat): int {
    var h := 1700 * (if lines == 0 then 1 else lines);
    if h > I32_MAX then I32_MAX else h
  }

  /** Columns are converted one by one, and every line or row takes 1700 units as long as they fit. */
  lemma TableMeasures(columns: seq<real>, n: nat)
    ensures |Columns(columns)| == |columns|
    ensures forall i :: 0 <= i < |columns| ==> Columns(columns)[i] == MmToHwp(columns[i])
    ensures Height(0) == Height(1) == TableHeight(1) == 1700
    ensures n >= 1 && 1700 * n <= I32_MAX ==> Height(n) == TableHeight(n) == 1700 * n
    ensures 1700 * n > I32_MAX ==> Height(n) == TableHeight(n) == I32_MAX
  {
  }

  function PlacedOf(cells: seq<Cell>): seq<Placed> {
    seq(|cells|, i requires 0 <= i < |cells| =>
      Placed(cells[i].row, cells[i].col, Span(cells[i].colSpan, cells[i].rowSpan)))
  }

  function CellCounts(rows: seq<RowSpec>): seq<nat> {
    seq(|rows|, r requires 0 <= r < |rows| => if |rows[r].cells| > U16_MAX then U16_MAX else |rows[r].cells|)
  }

  /** Everything about a compiled table except what its cells hold. */
  ghost predicate FrameRealized(columns: seq<real>, rows: seq<RowSpec>, t: Table) {
    var widths := Columns(columns);
    && t.rows == |rows| && t.cols == |columns| && t.rowCellCounts == CellCounts(rows)
    && t.width == WidthOf(widths, 0, |widths|) && t.height == TableHeight(|rows|)
    && PlacedOf(t.cells) == Layout([], 0, SpansOf(rows), |columns|)
    && forall i :: 0 <= i < |t.cells| ==> CellSized(widths, t.cells[i])
  }

  function TableHeight(rows: nat): int {
    if 1700 * rows > I32_MAX then I32_MAX else 1700 * rows
  }

  predicate CellSized(widths: seq<int>, cell: Cell) {
    && cell.col + cell.colSpan <= |widths| && cell.width == WidthOf(widths, cell.col, cell.col + cell.colSpan)
    && cell.height == Height(|cell.paragraphs|)
  }

  ghost predicate BlockRealized(ctx: Context, env: Env, block: BlockSpec, p: Paragraph)
    decreases block, 0
  {
    && Sound(p)
    && match block
       case ParagraphBlock(own, list, _, runs) =>
         var style := Either(own, LevelStyle(ctx.spec, list));
         && p.chars == RunsChars(runs) && ControlsRealized(ctx, env, runs, p.controls)
         && p.style == StyleOf(ctx, style).styleId && ParaShapeOk(ctx, env, style, list, p.paraShape)
         && TextShown(ctx, env, runs, style, p) && FormatsShown(env.header, runs, p) && p.breakType == 0
       case TableBlock(_, columns, rows) =>
         && |p.controls| == 1 && p.controls[0].TableControl? && HoldsObject(p, p.controls[0])
         && FrameRealized(columns, rows, p.controls[0].table)
         && RowsRealized(ctx, env, rows, p.controls[0].table.cells)
       case ImageBlock(path, width, height, _, isInline) =>
         && |p.controls| == 1 && HoldsObject(p, p.controls[0])
         && ImageRealized(ctx, env, path, width, height, isInline, p.controls[0])
       case EquationBlock(script, width, height) => HoldsObject(p, EquationControl(script, width, height))
       case FieldBlock(name, value, style) =>
         && p.(runs := []) == EMPTY_PARAGRAPH.(chars := PB.FieldChars(value, 0), controls := [PB.FieldControl(name)],
           runs := [])
         && StyleOf(ctx, style).charShape < |env.header.charShapes|
         && ShownShapes(p) == [0] + PB.Repeat(StyleOf(ctx, style).charShape, |value|) + [StyleOf(ctx, style).charShape]
       case BreakBlock(kind) =>
         && !kind.SectionBreak?
         && p == EMPTY_PARAGRAPH.(breakType := if kind.PageBreak? then 4 else 8)
  }

  /** One paragraph per block, in order. */
  ghost predicate BlocksRealized(ctx: Context, env: Env, blocks: seq<BlockSpec>, ps: seq<Paragraph>)
    decreases blocks, 1
  {
    && |ps| == |blocks|
    && (blocks == [] ||
        (&& BlocksRealized(ctx, env, blocks[..|blocks| - 1], ps[..|ps| - 1])
         && BlockRealized(ctx, env, blocks[|blocks| - 1], ps[|ps| - 1])))
  }

  /** A cell or header with no blocks still gets one empty paragraph. */
  ghost predicate ListRealized(ctx: Context, env: Env, blocks: seq<BlockSpec>, ps: seq<Paragraph>)
    decreases blocks, 2
  {
    if blocks == [] then ps == [EMPTY_PARAGRAPH] else BlocksRealized(ctx, env, blocks, ps)
  }

  ghost predicate RowRealized(ctx: Context, env: Env, specs: seq<CellSpec>, cells: seq<Cell>)
    decreases specs, 0
  {
    && |cells| == |specs|
    && (specs == [] ||
        (&& RowRealized(ctx, env, specs[..|specs| - 1], cells[..|cells| - 1])
         && ListRealized(ctx, env, specs[|specs| - 1].blocks, cells[|cells| - 1].paragraphs)))
  }

  /** The cells in row order, each holding its blocks. */
  ghost predicate RowsRealized(ctx: Context, env: Env, rows: seq<RowSpec>, cells: seq<Cell>)
    decreases rows, 1
  {
    if rows == [] then cells == []
    else
      var last := |rows[|rows| - 1].cells|;
      && |cells| >= last
      && RowsRealized(ctx, env, rows[..|rows| - 1], cells[..|cells| - last])
      && RowRealized(ctx, env, rows[|rows| - 1].cells, cells[|cells| - last..])
  }
}
