/**
 Document specifications: what an author may ask for, and what the validator accepts.
 */
module DocumentSpecs {
  import opened HwpModel
  import opened Styles
  import opened TableGrid

  const MAX_SECTIONS := 64
  const MAX_BLOCKS := 20_000
  const MAX_RUNS := 100_000
  const MAX_TABLE_CELLS := 100_000
  const MAX_NESTING := 16
  const MAX_TEXT_CHARS := 2_000_000
  const MAX_NAME_CHARS := 128
  const MAX_SHORT_TEXT_CHARS := 4096
  const MAX_EQUATION_CHARS := 100_000
  const U16_MAX := 0xFFFF

  datatype RunFormat = RunFormat(
    fontFamily: Option<string>,
    fontSizePt: Option<real>,
    bold: Option<bool>,
    italic: Option<bool>,
    underline: Option<bool>,
    strike: Option<bool>,
    color: Option<nat>,
    background: Option<nat>)

  const DEFAULT_FORMAT := RunFormat(None, None, None, None, None, None, None, None)

  /** An asset path; `normal` says that it is relative with only normal components. */
  datatype AssetPath = AssetPath(text: string, normal: bool)

  datatype RunSpec =
    | TextRun(text: string, style: Option<string>, format: RunFormat)
    | FieldRun(name: string, value: string, style: Option<string>)
    | EquationRun(script: string, width: Option<real>, height: Option<real>)
    | ImageRun(path: AssetPath, imageWidth: real, imageHeight: Option<real>, alt: Option<string>)
    | LineBreakRun

  datatype ListRef = ListRef(name: string, level: nat)

  datatype BreakKind = PageBreak | ColumnBreak | SectionBreak

  datatype CellSpec = CellSpec(span: Span, blocks: seq<BlockSpec>)

  datatype RowSpec = RowSpec(cells: seq<CellSpec>)

  datatype BlockSpec =
    | ParagraphBlock(style: Option<string>, list: Option<ListRef>, keepWithNext: bool, runs: seq<RunSpec>)
    | TableBlock(tableWidth: Option<real>, columns: seq<real>, rows: seq<RowSpec>)
    | ImageBlock(path: AssetPath, imageWidth: real, imageHeight: Option<real>, alt: Option<string>, isInline: bool)
    | EquationBlock(script: string, width: Option<real>, height: Option<real>)
    | FieldBlock(name: string, value: string, style: Option<string>)
    | BreakBlock(kind: BreakKind)

  datatype HeaderFooter = HeaderFooter(default: seq<BlockSpec>, first: seq<BlockSpec>, odd: seq<BlockSpec>,
    even: seq<BlockSpec>)

  /** A page-number position, as the code stored for it in one byte. */
  type PositionCode = code: nat | code < 0x100

  datatype PageNumber = PageNumber(position: PositionCode, decimal: bool, start: nat, prefix: Option<string>,
    suffix: Option<string>)

  datatype PageSpec = PageSpec(
    width: real, height: real, landscape: bool,
    marginLeft: real, marginRight: real, marginTop: real, marginBottom: real,
    marginHeader: real, marginFooter: real, gutter: real)

  datatype SectionSpec = SectionSpec(
    id: Option<string>,
    page: Option<PageSpec>,
    header: Option<HeaderFooter>,
    footer: Option<HeaderFooter>,
    pageNumber: Option<PageNumber>,
    blocks: seq<BlockSpec>)

  datatype ListLevel = ListLevel(marker: string, start: nat, style: Option<string>)

  datatype ListSpec = ListSpec(ordered: bool, levels: seq<ListLevel>)

  datatype DocumentSpec = DocumentSpec(
    page: PageSpec,
    styles: StyleTable,
    lists: map<string, ListSpec>,
    sections: seq<SectionSpec>)

  function SpansOf(rows: seq<RowSpec>): (spans: seq<seq<Span>>)
    ensures |spans| == |rows|
  {
    seq(|rows|, r requires 0 <= r < |rows| => RowSpans(rows[r].cells))
  }

  function RowSpans(cells: seq<CellSpec>): (spans: seq<Span>)
    ensures |spans| == |cells|
  {
    seq(|cells|, k requires 0 <= k < |cells| => cells[k].span)
  }

  // ----- What the validator accepts ------------------------------------------------------

  predicate NameOk(name: string) {
    1 <= |name| <= MAX_NAME_CHARS
  }

  predicate StyleRefOk(spec: DocumentSpec, style: Option<string>) {
    style.Some? ==> NameOk(style.value) && style.value in spec.styles
  }

  predicate DimensionOk(mm: real) {
    0.01 <= mm <= 2000.0
  }

  predicate OptionalDimensionOk(mm: Option<real>) {
    mm.Some? ==> DimensionOk(mm.value)
  }

  predicate IsControl(c: char) {
    var v := c as int;
    v < 0x20 || 0x7F <= v < 0xA0
  }

  predicate TextOk(text: string) {
    forall i :: 0 <= i < |text| ==> IsControl(text[i]) ==> text[i] == '\t'
  }

  predicate FieldOk(spec: DocumentSpec, name: string, value: string, style: Option<string>) {
    NameOk(name) && |value| <= MAX_SHORT_TEXT_CHARS && TextOk(value) && StyleRefOk(spec, style)
  }

  predicate EquationOk(script: string, width: Option<real>, height: Option<real>) {
    1 <= |script| <= MAX_EQUATION_CHARS && OptionalDimensionOk(width) && OptionalDimensionOk(height)
  }

  predicate AssetPathOk(path: AssetPath) {
    1 <= |path.text| <= MAX_SHORT_TEXT_CHARS && path.normal
  }

  predicate ImageOk(path: AssetPath, width: real, height: Option<real>, alt: Option<string>, bodyWidth: real) {
    && DimensionOk(width) && width <= bodyWidth && OptionalDimensionOk(height)
    && AssetPathOk(path) && (alt.Some? ==> alt.value == "")
  }

  predicate SizeOk(size: Option<real>) {
    size.Some? ==> 1.0 <= size.value <= 1000.0
  }

  predicate FontOk(font: Option<string>) {
    font.Some? ==> 1 <= |font.value| <= 256
  }

  predicate FormatOk(format: RunFormat) {
    SizeOk(format.fontSizePt) && FontOk(format.fontFamily)
  }

  predicate RunOk(spec: DocumentSpec, run: RunSpec, bodyWidth: real) {
    match run
    case TextRun(text, style, format) =>
      |text| <= MAX_TEXT_CHARS && TextOk(text) && StyleRefOk(spec, style) && FormatOk(format)
    case FieldRun(name, value, style) => FieldOk(spec, name, value, style)
    case EquationRun(script, width, height) => EquationOk(script, width, height)
    case ImageRun(path, width, height, alt) => ImageOk(path, width, height, alt, bodyWidth)
    case LineBreakRun => true
  }

  predicate RunsOk(spec: DocumentSpec, runs: seq<RunSpec>, bodyWidth: real) {
    if runs == [] then true else RunsOk(spec, runs[..|runs| - 1], bodyWidth) && RunOk(spec, runs[|runs| - 1], bodyWidth)
  }

  predicate ListRefOk(spec: DocumentSpec, list: Option<ListRef>) {
    list.Some? ==>
      && NameOk(list.value.name) && list.value.name in spec.lists
      && list.value.level < |spec.lists[list.value.name].levels|
  }

  function SumWidths(columns: seq<real>): real {
    if columns == [] then 0.0 else SumWidths(columns[..|columns| - 1]) + columns[|columns| - 1]
  }

  predicate GridSizeOk(columns: nat, rows: nat) {
    1 <= columns <= U16_MAX && 1 <= rows <= U16_MAX && rows * columns <= MAX_TABLE_CELLS
  }

  function Abs(x: real): (a: real)
    ensures a >= 0.0 && (a == x || a == -x)
  {
    if x < 0.0 then -x else x
  }

  predicate TableWidthsOk(tableWidth: Option<real>, columns: seq<real>, bodyWidth: real) {
    && (forall i :: 0 <= i < |columns| ==> DimensionOk(columns[i]))
    && SumWidths(columns) <= bodyWidth
    && (tableWidth.Some? ==>
          && DimensionOk(tableWidth.value) && tableWidth.value <= bodyWidth
          && Abs(tableWidth.value - SumWidths(columns)) <= 0.01)
  }

  predicate ParagraphOk(spec: DocumentSpec, style: Option<string>, list: Option<ListRef>, keepWithNext: bool,
      runs: seq<RunSpec>, bodyWidth: real)
  {
    && StyleRefOk(spec, style) && !keepWithNext && ListRefOk(spec, list)
    && runs != [] && RunsOk(spec, runs, bodyWidth)
  }

  /** The rows from `r` on fit below the cells already placed, and hold acceptable blocks. */
  ghost predicate GridOk(spec: DocumentSpec, ps: seq<Placed>, r: nat, rows: seq<RowSpec>, n: nat, depth: nat,
      bodyWidth: real)
    requires r <= |rows|
    decreases rows, 2
  {
    && Fits(ps, r, SpansOf(rows), n)
    && forall s :: r <= s < |rows| ==> CellsOk(spec, rows[s].cells, 0, depth, bodyWidth)
  }

  ghost predicate CellsOk(spec: DocumentSpec, cells: seq<CellSpec>, k: nat, depth: nat, bodyWidth: real)
    requires k <= |cells|
    decreases cells, 2
  {
    forall j :: k <= j < |cells| ==> BlocksOk(spec, cells[j].blocks, depth + 1, false, bodyWidth)
  }

  ghost predicate BlockOk(spec: DocumentSpec, block: BlockSpec, depth: nat, sectionBreaks: bool, bodyWidth: real)
    decreases block
  {
    match block
    case ParagraphBlock(style, list, keepWithNext, runs) =>
      ParagraphOk(spec, style, list, keepWithNext, runs, bodyWidth)
    case TableBlock(tableWidth, columns, rows) =>
      && GridSizeOk(|columns|, |rows|) && TableWidthsOk(tableWidth, columns, bodyWidth)
      && GridOk(spec, [], 0, rows, |columns|, depth, bodyWidth)
    case ImageBlock(path, width, height, alt, _) => ImageOk(path, width, height, alt, bodyWidth)
    case EquationBlock(script, width, height) => EquationOk(script, width, height)
    case FieldBlock(name, value, style) => FieldOk(spec, name, value, style)
    case BreakBlock(kind) => kind == SectionBreak ==> sectionBreaks
  }

  ghost predicate BlocksOk(spec: DocumentSpec, blocks: seq<BlockSpec>, depth: nat, sectionBreaks: bool, bodyWidth: real)
    decreases blocks, 1
  {
    depth <= MAX_NESTING && EachBlockOk(spec, blocks, depth, sectionBreaks, bodyWidth)
  }

  ghost predicate EachBlockOk(spec: DocumentSpec, blocks: seq<BlockSpec>, depth: nat, sectionBreaks: bool,
      bodyWidth: real)
    decreases blocks, 0
  {
    if blocks == [] then true
    else
      && EachBlockOk(spec, blocks[..|blocks| - 1], depth, sectionBreaks, bodyWidth)
      && BlockOk(spec, blocks[|blocks| - 1], depth, sectionBreaks, bodyWidth)
  }

  ghost predicate HeaderFooterOk(spec: DocumentSpec, part: Option<HeaderFooter>, bodyWidth: real) {
    part.Some? ==>
      && part.value.first == []
      && BlocksOk(spec, part.value.default, 1, false, bodyWidth)
      && BlocksOk(spec, part.value.odd, 1, false, bodyWidth)
      && BlocksOk(spec, part.value.even, 1, false, bodyWidth)
  }

  predicate PageNumberOk(number: PageNumber) {
    && 1 <= number.start <= U16_MAX && number.decimal
    && ((number.prefix == None && number.suffix == None)
        || (number.prefix.Some? && number.prefix == number.suffix && |number.prefix.value| == 1))
  }

  /** The page's width as it lies: the longer side on a landscape page, the shorter on a portrait one. */
  function PhysicalWidth(page: PageSpec): (w: real)
    ensures w == page.width || w == page.height
    ensures page.landscape ==> w >= page.width && w >= page.height
    ensures !page.landscape ==> w <= page.width && w <= page.height
  {
    if (page.width <= page.height) == page.landscape then page.height else page.width
  }

  /** The other side. */
  function PhysicalHeight(page: PageSpec): (h: real)
    ensures h == page.width || h == page.height
    ensures page.landscape ==> h <= page.width && h <= page.height
    ensures !page.landscape ==> h >= page.width && h >= page.height
    ensures h + PhysicalWidth(page) == page.width + page.height
  {
    if (page.width <= page.height) == page.landscape then page.width else page.height
  }

  function BodyWidth(page: PageSpec): real {
    PhysicalWidth(page) - page.marginLeft - page.marginRight - page.gutter
  }

  predicate MarginOk(mm: real) {
    0.0 <= mm <= 1000.0
  }

  predicate PageOk(page: PageSpec) {
    && 25.0 <= page.width <= 2000.0 && 25.0 <= page.height <= 2000.0
    && MarginOk(page.marginLeft) && MarginOk(page.marginRight) && MarginOk(page.marginTop)
    && MarginOk(page.marginBottom) && MarginOk(page.marginHeader) && MarginOk(page.marginFooter)
    && MarginOk(page.gutter)
    && page.marginLeft + page.marginRight + page.gutter < PhysicalWidth(page)
    && page.marginTop + page.marginBottom < PhysicalHeight(page)
  }

  /** In which order the sides of a page are given makes no difference. */
  lemma SidesExchanged(page: PageSpec)
    ensures var turned := page.(width := page.height, height := page.width);
      && PhysicalWidth(turned) == PhysicalWidth(page) && PhysicalHeight(turned) == PhysicalHeight(page)
      && BodyWidth(turned) == BodyWidth(page) && (PageOk(turned) <==> PageOk(page))
  {
  }

  /** What margins and gutter leave of the side that lies across. */
  lemma BodyAcross(page: PageSpec)
    requires PageOk(page)
    ensures var taken := page.marginLeft + page.marginRight + page.gutter;
      && BodyWidth(page) > 0.0 && {BodyWidth(page) + taken, PhysicalHeight(page)} == {page.width, page.height}
      && (BodyWidth(page) + taken < PhysicalHeight(page) ==> !page.landscape)
      && (BodyWidth(page) + taken > PhysicalHeight(page) ==> page.landscape)
  {
  }

  /** A section's own page, or the one of the whole document. */
  function SectionPage(spec: DocumentSpec, section: SectionSpec): (page: PageSpec)
    ensures section.page == Some(page) || (section.page == None && page == spec.page)
  {
    if section.page.Some? then section.page.value else spec.page
  }

  ghost predicate SectionOk(spec: DocumentSpec, section: SectionSpec) {
    var bodyWidth := BodyWidth(SectionPage(spec, section));
    && (section.page.Some? ==> PageOk(section.page.value))
    && (section.pageNumber.Some? ==> PageNumberOk(section.pageNumber.value))
    && (section.id.Some? ==> NameOk(section.id.value))
    && HeaderFooterOk(spec, section.header, bodyWidth)
    && HeaderFooterOk(spec, section.footer, bodyWidth)
    && BlocksOk(spec, section.blocks, 0, true, bodyWidth)
  }

  predicate StyleOk(spec: DocumentSpec, name: string)
    requires name in spec.styles
  {
    var style := spec.styles[name];
    && NameOk(name)
    && (style.basedOn.Some? ==> NameOk(style.basedOn.value) && style.basedOn.value in spec.styles)
    && style.keepWithNext != Some(true) && SizeOk(style.fontSizePt) && FontOk(style.fontFamily)
    && (style.marginLeftMm.Some? ==> MarginOk(style.marginLeftMm.value))
    && (style.marginRightMm.Some? ==> MarginOk(style.marginRightMm.value))
    && (style.spacingBeforePt.Some? ==> MarginOk(style.spacingBeforePt.value))
    && (style.spacingAfterPt.Some? ==> MarginOk(style.spacingAfterPt.value))
    && (style.lineHeightPercent.Some? ==> 50 <= style.lineHeightPercent.value <= 1000)
  }

  ghost predicate StylesOk(spec: DocumentSpec) {
    forall name :: name in spec.styles ==> StyleOk(spec, name)
  }

  ghost predicate ChainsOk(spec: DocumentSpec) {
    forall name :: name in spec.styles ==> ChainEnds(spec.styles, name)
  }

  predicate CounterAt(marker: string, i: nat) {
    i + 3 <= |marker| && marker[i..i + 3] == "{n}"
  }

  predicate HasCounter(marker: string) {
    exists i: nat :: i < |marker| && CounterAt(marker, i)
  }

  lemma CounterInside(marker: string)
    ensures HasCounter(marker) <==> exists front, back :: marker == front + "{n}" + back
  {
    if HasCounter(marker) {
      var i: nat :| i < |marker| && CounterAt(marker, i);
      assert marker == marker[..i] + "{n}" + marker[i + 3..];
    }
    if exists front, back :: marker == front + "{n}" + back {
      var front, back :| marker == front + "{n}" + back;
      assert CounterAt(marker, |front|);
    }
  }

  predicate LevelOk(spec: DocumentSpec, ordered: bool, level: ListLevel) {
    && 1 <= level.start && 1 <= |level.marker| <= 64
    && (if ordered then HasCounter(level.marker) else level.start == 1 && |level.marker| == 1)
    && StyleRefOk(spec, level.style)
  }

  predicate ListOk(spec: DocumentSpec, name: string)
    requires name in spec.lists
  {
    var list := spec.lists[name];
    && NameOk(name) && 1 <= |list.levels| <= 7
    && forall i :: 0 <= i < |list.levels| ==> LevelOk(spec, list.ordered, list.levels[i])
  }

  ghost predicate ListsOk(spec: DocumentSpec) {
    forall name :: name in spec.lists ==> ListOk(spec, name)
  }

  ghost predicate SectionsOk(spec: DocumentSpec, sections: seq<SectionSpec>) {
    forall i :: 0 <= i < |sections| ==> SectionOk(spec, sections[i])
  }

  ghost predicate IdsDistinct(sections: seq<SectionSpec>) {
    forall i, j :: 0 <= i < j < |sections| && sections[i].id.Some? ==> sections[i].id != sections[j].id
  }

  function IdsOf(sections: seq<SectionSpec>): set<string> {
    set s | s in sections && s.id.Some? :: s.id.value
  }

  // ----- Budgets -------------------------------------------------------------------------

  /** What the validator adds up over a whole specification. */
  datatype Budget = Budget(blocks: nat, runs: nat, cells: nat, textChars: nat) {
    function Plus(that: Budget): Budget {
      Budget(blocks + that.blocks, runs + that.runs, cells + that.cells, textChars + that.textChars)
    }
  }

  const NOTHING := Budget(0, 0, 0, 0)

  lemma AddedToNothing(a: Budget)
    ensures NOTHING.Plus(a) == a
  {
  }

  lemma BudgetsAssociate(a: Budget, b: Budget, c: Budget)
    ensures a.Plus(b).Plus(c) == a.Plus(b.Plus(c))
  {
  }

  lemma NothingAdded(a: Budget)
    ensures a.Plus(NOTHING) == a
  {
  }

  function RunBudget(run: RunSpec): Budget {
    match run
    case TextRun(text, _, _) => Budget(0, 0, 0, |text|)
    case FieldRun(_, value, _) => Budget(0, 0, 0, |value|)
    case _ => NOTHING
  }

  function RunsBudget(runs: seq<RunSpec>): Budget {
    if runs == [] then NOTHING else RunsBudget(runs[..|runs| - 1]).Plus(RunBudget(runs[|runs| - 1]))
  }

  function ItemsBudget(runs: seq<RunSpec>): Budget {
    Budget(0, |runs|, 0, 0).Plus(RunsBudget(runs))
  }

  function BlockBudget(block: BlockSpec): Budget
    decreases block
  {
    match block
    case ParagraphBlock(_, _, _, runs) => ItemsBudget(runs)
    case TableBlock(_, _, rows) => RowsBudget(rows)
    case FieldBlock(_, value, _) => Budget(0, 0, 0, |value|)
    case _ => NOTHING
  }

  function BlocksSum(blocks: seq<BlockSpec>): Budget
    decreases blocks, 0
  {
    if blocks == [] then NOTHING else BlocksSum(blocks[..|blocks| - 1]).Plus(BlockBudget(blocks[|blocks| - 1]))
  }

  function BlocksBudget(blocks: seq<BlockSpec>): Budget
    decreases blocks, 1
  {
    Budget(|blocks|, 0, 0, 0).Plus(BlocksSum(blocks))
  }

  function CellsBudget(cells: seq<CellSpec>): Budget
    decreases cells
  {
    if cells == [] then NOTHING
    else CellsBudget(cells[..|cells| - 1]).Plus(CellBudget(cells[|cells| - 1]))
  }

  function CellBudget(cell: CellSpec): Budget
    decreases cell, 2
  {
    Budget(0, 0, 1, 0).Plus(BlocksBudget(cell.blocks))
  }

  function RowsBudget(rows: seq<RowSpec>): Budget
    decreases rows
  {
    if rows == [] then NOTHING else RowsBudget(rows[..|rows| - 1]).Plus(CellsBudget(rows[|rows| - 1].cells))
  }

  function PartBudget(part: Option<HeaderFooter>): Budget {
    if part == None then NOTHING
    else
      BlocksBudget(part.value.default).Plus(BlocksBudget(part.value.first))
      .Plus(BlocksBudget(part.value.odd)).Plus(BlocksBudget(part.value.even))
  }

  function SectionBudget(section: SectionSpec): Budget {
    PartBudget(section.header).Plus(PartBudget(section.footer)).Plus(BlocksBudget(section.blocks))
  }

  function SectionsBudget(sections: seq<SectionSpec>): Budget {
    if sections == [] then NOTHING
    else SectionsBudget(sections[..|sections| - 1]).Plus(SectionBudget(sections[|sections| - 1]))
  }

  predicate WithinLimits(used: Budget) {
    && used.blocks <= MAX_BLOCKS && used.runs <= MAX_RUNS
    && used.cells <= MAX_TABLE_CELLS && used.textChars <= MAX_TEXT_CHARS
  }

  lemma RunsStep(spec: DocumentSpec, runs: seq<RunSpec>, i: nat, bodyWidth: real)
    requires i < |runs|
    ensures RunsOk(spec, runs[..i + 1], bodyWidth) <==>
      RunsOk(spec, runs[..i], bodyWidth) && RunOk(spec, runs[i], bodyWidth)
    ensures RunsBudget(runs[..i + 1]) == RunsBudget(runs[..i]).Plus(RunBudget(runs[i]))
  {
    assert runs[..i + 1][..i] == runs[..i];
  }

  lemma BlocksStep(spec: DocumentSpec, blocks: seq<BlockSpec>, i: nat, depth: nat, sectionBreaks: bool, bodyWidth: real)
    requires i < |blocks|
    ensures EachBlockOk(spec, blocks[..i + 1], depth, sectionBreaks, bodyWidth) <==>
      EachBlockOk(spec, blocks[..i], depth, sectionBreaks, bodyWidth)
        && BlockOk(spec, blocks[i], depth, sectionBreaks, bodyWidth)
    ensures BlocksSum(blocks[..i + 1]) == BlocksSum(blocks[..i]).Plus(BlockBudget(blocks[i]))
  {
    assert blocks[..i + 1][..i] == blocks[..i];
  }

  lemma {:induction false} RunOkAt(spec: DocumentSpec, runs: seq<RunSpec>, i: nat, bodyWidth: real)
    requires RunsOk(spec, runs, bodyWidth) && i < |runs|
    ensures RunOk(spec, runs[i], bodyWidth)
  {
    if i < |runs| - 1 {
      RunOkAt(spec, runs[..|runs| - 1], i, bodyWidth);
    }
  }

  lemma {:induction false} BlockOkAt(spec: DocumentSpec, blocks: seq<BlockSpec>, i: nat, depth: nat,
      sectionBreaks: bool, bodyWidth: real)
    requires EachBlockOk(spec, blocks, depth, sectionBreaks, bodyWidth) && i < |blocks|
    ensures BlockOk(spec, blocks[i], depth, sectionBreaks, bodyWidth)
  {
    hide BlockOk;
    if i < |blocks| - 1 {
      BlockOkAt(spec, blocks[..|blocks| - 1], i, depth, sectionBreaks, bodyWidth);
    }
  }

  lemma CellsStep(cells: seq<CellSpec>, k: nat)
    requires k < |cells|
    ensures CellsBudget(cells[..k + 1]) == CellsBudget(cells[..k]).Plus(CellBudget(cells[k]))
  {
    assert cells[..k + 1][..k] == cells[..k];
  }

  lemma RowsStep(rows: seq<RowSpec>, r: nat)
    requires r < |rows|
    ensures RowsBudget(rows[..r + 1]) == RowsBudget(rows[..r]).Plus(CellsBudget(rows[r].cells))
  {
    assert rows[..r + 1][..r] == rows[..r];
  }

  /** What is left to check once the first `k` cells of row `r` are placed. */
  ghost predicate RestOk(spec: DocumentSpec, ps: seq<Placed>, r: nat, cursor: nat, k: nat, rows: seq<RowSpec>, n: nat,
      depth: nat, bodyWidth: real)
    requires r < |rows| && k <= |rows[r].cells|
  {
    && RestFits(ps, r, cursor, k, SpansOf(rows), n)
    && CellsOk(spec, rows[r].cells, k, depth, bodyWidth)
    && forall s :: r + 1 <= s < |rows| ==> CellsOk(spec, rows[s].cells, 0, depth, bodyWidth)
  }

  lemma RowStart(spec: DocumentSpec, ps: seq<Placed>, r: nat, rows: seq<RowSpec>, n: nat, depth: nat, bodyWidth: real)
    requires r < |rows|
    ensures GridOk(spec, ps, r, rows, n, depth, bodyWidth) <==> RestOk(spec, ps, r, 0, 0, rows, n, depth, bodyWidth)
  {
    RestStart(ps, r, SpansOf(rows), n);
  }

  lemma NoBlocksOk(spec: DocumentSpec, bodyWidth: real)
    ensures BlocksOk(spec, [], 1, false, bodyWidth)
  {
  }

  lemma NoSections(spec: DocumentSpec)
    ensures SectionsOk(spec, []) && IdsDistinct([]) && SectionsBudget([]) == NOTHING && IdsOf([]) == {}
  {
  }

  lemma SectionsStep(spec: DocumentSpec, sections: seq<SectionSpec>, i: nat)
    requires i < |sections|
    ensures SectionsOk(spec, sections[..i + 1]) <==> SectionsOk(spec, sections[..i]) && SectionOk(spec, sections[i])
    ensures SectionsBudget(sections[..i + 1]) == SectionsBudget(sections[..i]).Plus(SectionBudget(sections[i]))
  {
    hide SectionOk, SectionBudget;
    var a, b := sections[..i], sections[..i + 1];
    assert b[..i] == a && b[i] == sections[i];
    forall j | 0 <= j < i ensures a[j] == b[j] {
    }
  }

  lemma IdsStep(sections: seq<SectionSpec>, i: nat)
    requires i < |sections|
    ensures var s := sections[i];
      && (IdsDistinct(sections[..i + 1]) <==>
            IdsDistinct(sections[..i]) && (s.id.Some? ==> s.id.value !in IdsOf(sections[..i])))
      && IdsOf(sections[..i + 1]) == IdsOf(sections[..i]) + (if s.id.Some? then {s.id.value} else {})
  {
    var a, b := sections[..i], sections[..i + 1];
    assert b == a + [sections[i]];
    forall j | 0 <= j < i ensures a[j] == b[j] && a[j] in a {
    }
    if sections[i].id.Some? && sections[i].id.value in IdsOf(a) {
      var j :| 0 <= j < i && a[j].id == sections[i].id;
      assert b[j].id == b[i].id;
    }
  }

  lemma GridDone(spec: DocumentSpec, ps: seq<Placed>, rows: seq<RowSpec>, n: nat, depth: nat, bodyWidth: real)
    ensures GridOk(spec, ps, |rows|, rows, n, depth, bodyWidth)
  {
  }

  lemma NoRuns(spec: DocumentSpec, bodyWidth: real)
    ensures RunsOk(spec, [], bodyWidth) && RunsBudget([]) == NOTHING
  {
  }

  lemma NoBlocks(spec: DocumentSpec, depth: nat, sectionBreaks: bool, bodyWidth: real)
    ensures EachBlockOk(spec, [], depth, sectionBreaks, bodyWidth) && BlocksSum([]) == NOTHING
  {
  }

  lemma EmptyBudgets()
    ensures RowsBudget([]) == CellsBudget([]) == NOTHING
  {
  }

  lemma CellStep(spec: DocumentSpec, ps: seq<Placed>, r: nat, cursor: nat, k: nat, rows: seq<RowSpec>, n: nat,
      depth: nat, bodyWidth: real)
    requires r < |rows| && k < |rows[r].cells| && cursor <= n
    ensures var p := Placed(r, FirstFree(ps, r, cursor, n), rows[r].cells[k].span);
      RestOk(spec, ps, r, cursor, k, rows, n, depth, bodyWidth) <==>
        && CellFits(ps, p, |rows|, n)
        && BlocksOk(spec, rows[r].cells[k].blocks, depth + 1, false, bodyWidth)
        && RestOk(spec, ps + [p], r, p.col + p.span.colSpan, k + 1, rows, n, depth, bodyWidth)
  {
    RestStep(ps, r, cursor, k, SpansOf(rows), n);
    assert CellsOk(spec, rows[r].cells, k, depth, bodyWidth) <==>
      && BlocksOk(spec, rows[r].cells[k].blocks, depth + 1, false, bodyWidth)
      && CellsOk(spec, rows[r].cells, k + 1, depth, bodyWidth);
  }

  lemma RowEnd(spec: DocumentSpec, ps: seq<Placed>, r: nat, cursor: nat, rows: seq<RowSpec>, n: nat, depth: nat,
      bodyWidth: real)
    requires r < |rows| && cursor <= n
    ensures RestOk(spec, ps, r, cursor, |rows[r].cells|, rows, n, depth, bodyWidth) <==>
      RowFull(ps, r, n) && GridOk(spec, ps, r + 1, rows, n, depth, bodyWidth)
  {
    RestEnd(ps, r, cursor, SpansOf(rows), n);
  }

  /** Everything a specification must satisfy for the validator to report no issue. */
  ghost predicate SpecOk(spec: DocumentSpec) {
    && 1 <= |spec.sections| <= MAX_SECTIONS && PageOk(spec.page)
    && |spec.styles| <= 256 && |spec.lists| <= 256
    && StylesOk(spec) && ChainsOk(spec) && ListsOk(spec)
    && SectionsOk(spec, spec.sections) && IdsDistinct(spec.sections)
    && WithinLimits(SectionsBudget(spec.sections))
  }
}
