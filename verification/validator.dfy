/**
 The validator: it walks a specification, reports every problem it meets, and adds up the
 blocks, runs, cells and text characters it has seen.
 */
module Validation {
  import opened HwpModel
  import opened Styles
  import opened TableGrid
  import opened DocumentSpecs

  datatype IssueCode =
    | Required | LimitExceeded | InvalidDimension | InvalidPage | InvalidName | UnknownReference
    | InvalidValue | UnsupportedNative | ReferenceCycle | InvalidList | InvalidMarker | DuplicateId
    | InvalidReference | LayoutOverflow | InvalidAsset | InvalidAssetPath | InvalidText
    | UnsupportedContext | InvalidTable | InconsistentWidth | InvalidSpan | OverlappingSpan
    | IncompleteTableRow

  /** `after` extends `before`, and nothing was reported exactly when `ok` holds. */
  ghost predicate Reports(before: seq<IssueCode>, after: seq<IssueCode>, ok: bool) {
    |before| <= |after| && (|before| == |after| <==> ok)
  }

  /** Nothing reported since `before`: `whole` depends on `rest` alone. Something: it is false. */
  ghost predicate Tracks(before: seq<IssueCode>, after: seq<IssueCode>, whole: bool, rest: bool) {
    && |before| <= |after|
    && (|before| == |after| ==> (whole <==> rest))
    && (|before| != |after| ==> !whole)
  }

  lemma TracksStep(before: seq<IssueCode>, mid: seq<IssueCode>, after: seq<IssueCode>, whole: bool, ok: bool,
      rest: bool)
    requires Tracks(before, mid, whole, ok && rest) && Reports(mid, after, ok)
    ensures Tracks(before, after, whole, rest)
  {
  }

  class Validator {
    const spec: DocumentSpec
    var issues: seq<IssueCode>
    /** Blocks, runs, cells and text characters met so far. */
    var used: Budget

    constructor (spec: DocumentSpec)
      ensures issues == [] && used == NOTHING && this.spec == spec
    {
      this.spec := spec;
      issues, used := [], NOTHING;
    }

    method Issue(code: IssueCode)
      modifies this`issues
      ensures issues == old(issues) + [code]
    {
      issues := issues + [code];
    }

    /** Reports `code` unless `ok`. */
    method Check(ok: bool, code: IssueCode)
      modifies this`issues
      ensures Reports(old(issues), issues, ok)
    {
      if !ok {
        Issue(code);
      }
    }

    method Count(more: Budget)
      modifies this`used
      ensures used == old(used).Plus(more)
    {
      used := used.Plus(more);
    }

    method ValidateName(name: string, code: IssueCode)
      modifies this`issues
      ensures Reports(old(issues), issues, NameOk(name))
    {
      if name == "" || |name| > MAX_NAME_CHARS {
        Issue(code);
      }
    }

    method ValidatePositiveDimension(mm: real)
      modifies this`issues
      ensures Reports(old(issues), issues, DimensionOk(mm))
    {
      if mm < 0.01 || mm > 2000.0 {
        Issue(InvalidDimension);
      }
    }

    method ValidateMargin(mm: real, code: IssueCode)
      modifies this`issues
      ensures Reports(old(issues), issues, MarginOk(mm))
    {
      if mm < 0.0 || mm > 1000.0 {
        Issue(code);
      }
    }

    method ValidateFontSize(size: Option<real>)
      modifies this`issues
      ensures Reports(old(issues), issues, SizeOk(size))
    {
      if size.Some? && (size.value < 1.0 || size.value > 1000.0) {
        Issue(InvalidValue);
      }
    }

    method ValidateFont(font: Option<string>)
      modifies this`issues
      ensures Reports(old(issues), issues, FontOk(font))
    {
      if font.Some? && (font.value == "" || |font.value| > 256) {
        Issue(InvalidValue);
      }
    }

    /** No control characters but tabs. */
    method ValidateText(text: string)
      modifies this`issues
      ensures Reports(old(issues), issues, TextOk(text))
    {
      var i := 0;
      while i < |text|
        invariant 0 <= i <= |text| && issues == old(issues)
        invariant forall j :: 0 <= j < i ==> IsControl(text[j]) ==> text[j] == '\t'
      {
        var v := text[i] as int;
        if (v <= 0x1F || (v >= 0x7F && v <= 0x9F)) && v != 9 {
          Issue(InvalidText);
          return;
        }
        i := i + 1;
      }
    }

    method ValidateStyleRef(style: Option<string>)
      modifies this`issues
      ensures Reports(old(issues), issues, StyleRefOk(spec, style))
    {
      if style.Some? {
        if style.value == "" || |style.value| > MAX_NAME_CHARS {
          Issue(InvalidName);
        } else if style.value !in spec.styles {
          Issue(UnknownReference);
        }
      }
    }

    method ValidateField(name: string, value: string, style: Option<string>)
      modifies this`issues, this`used
      ensures used == old(used).Plus(Budget(0, 0, 0, |value|))
      ensures Reports(old(issues), issues, FieldOk(spec, name, value, style))
    {
      ValidateName(name, InvalidValue);
      Count(Budget(0, 0, 0, |value|));
      Check(|value| <= MAX_SHORT_TEXT_CHARS, LimitExceeded);
      ValidateText(value);
      ValidateStyleRef(style);
    }

    method ValidateEquation(script: string, width: Option<real>, height: Option<real>)
      modifies this`issues
      ensures Reports(old(issues), issues, EquationOk(script, width, height))
    {
      Check(script != "", InvalidValue);
      Check(|script| <= MAX_EQUATION_CHARS, LimitExceeded);
      if width.Some? {
        ValidatePositiveDimension(width.value);
      }
      if height.Some? {
        ValidatePositiveDimension(height.value);
      }
    }

    method ValidateAsset(path: AssetPath)
      modifies this`issues
      ensures Reports(old(issues), issues, AssetPathOk(path))
    {
      if path.text == "" || |path.text| > MAX_SHORT_TEXT_CHARS {
        Issue(InvalidAsset);
        return;
      }
      Check(path.normal, InvalidAssetPath);
    }

    method ValidateImage(path: AssetPath, width: real, height: Option<real>, alt: Option<string>, bodyWidth: real)
      modifies this`issues
      ensures Reports(old(issues), issues, ImageOk(path, width, height, alt, bodyWidth))
    {
      ValidatePositiveDimension(width);
      Check(width <= bodyWidth, LayoutOverflow);
      if height.Some? {
        ValidatePositiveDimension(height.value);
      }
      ValidateAsset(path);
      Check(alt.Some? ==> |alt.value| <= MAX_SHORT_TEXT_CHARS, LimitExceeded);
      Check(alt.Some? ==> alt.value == "", UnsupportedNative);
    }

    method ValidateRun(run: RunSpec, bodyWidth: real)
      modifies this`issues, this`used
      ensures used == old(used).Plus(RunBudget(run))
      ensures Reports(old(issues), issues, RunOk(spec, run, bodyWidth))
    {
      match run
      case TextRun(text, style, format) =>
        Count(Budget(0, 0, 0, |text|));
        Check(|text| <= MAX_TEXT_CHARS, LimitExceeded);
        ValidateText(text);
        ValidateStyleRef(style);
        ValidateFontSize(format.fontSizePt);
        ValidateFont(format.fontFamily);
      case FieldRun(name, value, style) => ValidateField(name, value, style);
      case EquationRun(script, width, height) => ValidateEquation(script, width, height);
      case ImageRun(path, width, height, alt) => ValidateImage(path, width, height, alt, bodyWidth);
      case LineBreakRun =>
    }

    method ValidateListRef(list: Option<ListRef>)
      modifies this`issues
      ensures Reports(old(issues), issues, ListRefOk(spec, list))
    {
      if list.Some? {
        ValidateName(list.value.name, InvalidName);
        if list.value.name !in spec.lists {
          Issue(UnknownReference);
        } else if list.value.level >= |spec.lists[list.value.name].levels| {
          Issue(InvalidReference);
        }
      }
    }

    method ValidateRuns(items: seq<RunSpec>, bodyWidth: real)
      modifies this`issues, this`used
      ensures used == old(used).Plus(ItemsBudget(items))
      ensures Reports(old(issues), issues, items != [] && RunsOk(spec, items, bodyWidth))
    {
      hide RunsOk, RunOk, RunsBudget, RunBudget, Budget.Plus;
      NoRuns(spec, bodyWidth);
      Check(items != [], Required);
      Count(Budget(0, |items|, 0, 0));
      ghost var counted, checked := used, issues;
      assert items[..0] == [];
      NothingAdded(counted);
      var i := 0;
      while i < |items|
        invariant 0 <= i <= |items|
        invariant used == counted.Plus(RunsBudget(items[..i]))
        invariant Reports(checked, issues, RunsOk(spec, items[..i], bodyWidth))
      {
        ValidateRun(items[i], bodyWidth);
        RunsStep(spec, items, i, bodyWidth);
        BudgetsAssociate(counted, RunsBudget(items[..i]), RunBudget(items[i]));
        i := i + 1;
      }
      assert items[..i] == items;
      assert Reports(checked, issues, RunsOk(spec, items, bodyWidth));
      assert Reports(old(issues), issues, items != [] && RunsOk(spec, items, bodyWidth));
      BudgetsAssociate(old(used), Budget(0, |items|, 0, 0), RunsBudget(items));
    }

    method ValidateParagraph(style: Option<string>, list: Option<ListRef>, keepWithNext: bool, items: seq<RunSpec>,
        bodyWidth: real)
      modifies this`issues, this`used
      ensures used == old(used).Plus(ItemsBudget(items))
      ensures Reports(old(issues), issues, ParagraphOk(spec, style, list, keepWithNext, items, bodyWidth))
    {
      hide RunsOk, StyleRefOk, ListRefOk, RunsBudget;
      ValidateStyleRef(style);
      Check(!keepWithNext, UnsupportedNative);
      ValidateListRef(list);
      ValidateRuns(items, bodyWidth);
    }

    /** The table's size, column and width checks; `go` says whether the grid is looked at. */
    method ValidateTableFrame(tableWidth: Option<real>, columns: seq<real>, rowCount: nat, bodyWidth: real)
      returns (go: bool)
      modifies this`issues
      ensures go <==> GridSizeOk(|columns|, rowCount)
      ensures Reports(old(issues), issues,
        GridSizeOk(|columns|, rowCount) && TableWidthsOk(tableWidth, columns, bodyWidth))
    {
      if columns == [] || |columns| > U16_MAX || rowCount == 0 || rowCount > U16_MAX {
        Issue(InvalidTable);
        return false;
      }
      if rowCount * |columns| > MAX_TABLE_CELLS {
        Issue(LimitExceeded);
        return false;
      }
      var columnSum := 0.0;
      var i := 0;
      while i < |columns|
        invariant 0 <= i <= |columns| && columnSum == SumWidths(columns[..i])
        invariant Reports(old(issues), issues, forall j :: 0 <= j < i ==> DimensionOk(columns[j]))
      {
        ValidatePositiveDimension(columns[i]);
        columnSum := columnSum + columns[i];
        assert columns[..i + 1][..i] == columns[..i];
        i := i + 1;
      }
      assert columns[..i] == columns;
      Check(columnSum <= bodyWidth, LayoutOverflow);
      if tableWidth.Some? {
        ValidatePositiveDimension(tableWidth.value);
        Check(tableWidth.value <= bodyWidth, LayoutOverflow);
        Check(Abs(tableWidth.value - columnSum) <= 0.01, InconsistentWidth);
      }
      return true;
    }

    /** The span checks of one cell. On success the cell's slots are marked. */
    method PlaceCell(grid: array2<bool>, ghost ps: seq<Placed>, p: Placed) returns (placed: bool)
      requires Marks(grid, ps) && p.col <= grid.Length1 && p.row < grid.Length0
      modifies this`issues, grid
      ensures placed <==> CellFits(ps, p, grid.Length0, grid.Length1)
      ensures Reports(old(issues), issues, placed)
      ensures Marks(grid, if placed then ps + [p] else ps)
    {
      if p.span.colSpan == 0 || p.span.rowSpan == 0 {
        Issue(InvalidSpan);
        return false;
      }
      if p.col + p.span.colSpan > grid.Length1 || p.row + p.span.rowSpan > grid.Length0 {
        Issue(InvalidSpan);
        return false;
      }
      var overlaps := AnyOccupied(grid, p.row, p.row + p.span.rowSpan, p.col, p.col + p.span.colSpan);
      assert overlaps <==> exists r, c :: Covers(p, r, c) && grid[r, c];
      if overlaps {
        var r, c :| Covers(p, r, c) && grid[r, c];
        assert Occupied(ps, r, c);
        Issue(OverlappingSpan);
        return false;
      }
      Fill(grid, ps, p);
      return true;
    }

    method ValidateTable(tableWidth: Option<real>, columns: seq<real>, rows: seq<RowSpec>, depth: nat, bodyWidth: real)
      modifies this
      ensures Reports(old(issues), issues,
        && GridSizeOk(|columns|, |rows|) && TableWidthsOk(tableWidth, columns, bodyWidth)
        && GridOk(spec, [], 0, rows, |columns|, depth, bodyWidth))
      ensures |issues| == |old(issues)| ==> used == old(used).Plus(RowsBudget(rows))
      decreases rows, 3
    {
      var go := ValidateTableFrame(tableWidth, columns, |rows|, bodyWidth);
      if !go {
        return;
      }
      ValidateGrid(rows, |columns|, depth, bodyWidth);
    }

    method ValidateGrid(rows: seq<RowSpec>, n: nat, depth: nat, bodyWidth: real)
      modifies this
      ensures Reports(old(issues), issues, GridOk(spec, [], 0, rows, n, depth, bodyWidth))
      ensures |issues| == |old(issues)| ==> used == old(used).Plus(RowsBudget(rows))
      decreases rows, 2
    {
      hide GridOk, RowsBudget, CellsBudget, Budget.Plus;
      ghost var whole := GridOk(spec, [], 0, rows, n, depth, bodyWidth);
      EmptyBudgets();
      NothingAdded(used);
      assert rows[..0] == [];
      var grid := EmptyGrid(|rows|, n);
      ghost var ps: seq<Placed> := [];
      var r := 0;
      while r < |rows|
        invariant 0 <= r <= |rows|
        invariant fresh(grid) && grid.Length0 == |rows| && grid.Length1 == n && Marks(grid, ps)
        invariant Tracks(old(issues), issues, whole, GridOk(spec, ps, r, rows, n, depth, bodyWidth))
        invariant |issues| == |old(issues)| ==> used == old(used).Plus(RowsBudget(rows[..r]))
      {
        ps := ValidateRow(grid, ps, rows, r, depth, bodyWidth, whole, old(issues));
        RowsStep(rows, r);
        BudgetsAssociate(old(used), RowsBudget(rows[..r]), CellsBudget(rows[r].cells));
        r := r + 1;
      }
      assert rows[..r] == rows;
      GridDone(spec, ps, rows, n, depth, bodyWidth);
    }

    /** One row of the grid; returns the cells placed so far. */
    method ValidateRow(grid: array2<bool>, ghost before: seq<Placed>, rows: seq<RowSpec>, r: nat,
                       depth: nat, bodyWidth: real, ghost whole: bool, ghost start: seq<IssueCode>)
      returns (ghost ps: seq<Placed>)
      requires r < |rows| && grid.Length0 == |rows| && Marks(grid, before)
      requires Tracks(start, issues, whole, GridOk(spec, before, r, rows, grid.Length1, depth, bodyWidth))
      modifies this, grid
      ensures Marks(grid, ps) && |old(issues)| <= |issues|
      ensures Tracks(start, issues, whole, GridOk(spec, ps, r + 1, rows, grid.Length1, depth, bodyWidth))
      ensures |issues| == |old(issues)| ==> used == old(used).Plus(CellsBudget(rows[r].cells))
      decreases rows, 1
    {
      hide RestOk, GridOk, CellsBudget, CellBudget, BlocksOk, BlocksBudget, Budget.Plus;
      var n := grid.Length1;
      ps := before;
      EmptyBudgets();
      NothingAdded(used);
      assert rows[r].cells[..0] == [];
      var cursor: nat := 0;
      var k := 0;
      RowStart(spec, ps, r, rows, n, depth, bodyWidth);
      while k < |rows[r].cells|
        invariant 0 <= k <= |rows[r].cells| && cursor <= n && Marks(grid, ps) && |old(issues)| <= |issues|
        invariant Tracks(start, issues, whole, RestOk(spec, ps, r, cursor, k, rows, n, depth, bodyWidth))
        invariant |issues| == |old(issues)| ==> used == old(used).Plus(CellsBudget(rows[r].cells[..k]))
      {
        ghost var mid := issues;
        CellStep(spec, ps, r, cursor, k, rows, n, depth, bodyWidth);
        CellsStep(rows[r].cells, k);
        BudgetsAssociate(old(used), CellsBudget(rows[r].cells[..k]), CellBudget(rows[r].cells[k]));
        cursor := SkipOccupied(grid, ps, r, cursor);
        ghost var p := Placed(r, cursor, rows[r].cells[k].span);
        var placed := ValidateCell(grid, ps, r, cursor, rows[r].cells[k], depth, bodyWidth);
        if placed {
          cursor := cursor + rows[r].cells[k].span.colSpan;
          ps := ps + [p];
          TracksStep(start, mid, issues, whole, BlocksOk(spec, rows[r].cells[k].blocks, depth + 1, false, bodyWidth),
                     RestOk(spec, ps, r, cursor, k + 1, rows, n, depth, bodyWidth));
        }
        k := k + 1;
      }
      assert rows[r].cells[..k] == rows[r].cells;
      RowEnd(spec, ps, r, cursor, rows, n, depth, bodyWidth);
      var filled := IsRowFull(grid, ps, r);
      if !filled {
        Issue(IncompleteTableRow);
      }
    }

    /** One cell: its span checks and, when they hold, its slots and its blocks. */
    method ValidateCell(grid: array2<bool>, ghost ps: seq<Placed>, r: nat, cursor: nat, cell: CellSpec, depth: nat,
        bodyWidth: real) returns (placed: bool)
      requires Marks(grid, ps) && cursor <= grid.Length1 && r < grid.Length0
      modifies this, grid
      ensures placed <==> CellFits(ps, Placed(r, cursor, cell.span), grid.Length0, grid.Length1)
      ensures Marks(grid, if placed then ps + [Placed(r, cursor, cell.span)] else ps)
      ensures Reports(old(issues), issues, placed && BlocksOk(spec, cell.blocks, depth + 1, false, bodyWidth))
      ensures |issues| == |old(issues)| ==> used == old(used).Plus(CellBudget(cell))
      decreases cell, 0
    {
      hide BlocksOk, BlocksBudget, Budget.Plus;
      Count(Budget(0, 0, 1, 0));
      BudgetsAssociate(old(used), Budget(0, 0, 1, 0), BlocksBudget(cell.blocks));
      placed := PlaceCell(grid, ps, Placed(r, cursor, cell.span));
      if placed {
        ValidateBlocks(cell.blocks, depth + 1, false, bodyWidth);
      }
    }

    method ValidateBlocks(items: seq<BlockSpec>, depth: nat, sectionBreaks: bool, bodyWidth: real)
      modifies this
      ensures Reports(old(issues), issues, BlocksOk(spec, items, depth, sectionBreaks, bodyWidth))
      ensures |issues| == |old(issues)| ==> used == old(used).Plus(BlocksBudget(items))
      decreases items, 1
    {
      hide EachBlockOk, BlockOk, BlocksSum, BlockBudget, Budget.Plus;
      NoBlocks(spec, depth, sectionBreaks, bodyWidth);
      if depth > MAX_NESTING {
        Issue(LimitExceeded);
        return;
      }
      Count(Budget(|items|, 0, 0, 0));
      ghost var counted := used;
      assert items[..0] == [];
      NothingAdded(counted);
      var i := 0;
      while i < |items|
        invariant 0 <= i <= |items|
        invariant Reports(old(issues), issues, EachBlockOk(spec, items[..i], depth, sectionBreaks, bodyWidth))
        invariant |issues| == |old(issues)| ==> used == counted.Plus(BlocksSum(items[..i]))
      {
        ValidateBlock(items[i], depth, sectionBreaks, bodyWidth);
        BlocksStep(spec, items, i, depth, sectionBreaks, bodyWidth);
        BudgetsAssociate(counted, BlocksSum(items[..i]), BlockBudget(items[i]));
        i := i + 1;
      }
      assert items[..i] == items;
      assert Reports(old(issues), issues, BlocksOk(spec, items, depth, sectionBreaks, bodyWidth));
      BudgetsAssociate(old(used), Budget(|items|, 0, 0, 0), BlocksSum(items));
    }

    method ValidateBlock(block: BlockSpec, depth: nat, sectionBreaks: bool, bodyWidth: real)
      modifies this
      ensures Reports(old(issues), issues, BlockOk(spec, block, depth, sectionBreaks, bodyWidth))
      ensures |issues| == |old(issues)| ==> used == old(used).Plus(BlockBudget(block))
      decreases block, 0
    {
      match block
      case ParagraphBlock(style, list, keepWithNext, items) =>
        ValidateParagraph(style, list, keepWithNext, items, bodyWidth);
      case TableBlock(tableWidth, columns, rows) => ValidateTable(tableWidth, columns, rows, depth, bodyWidth);
      case ImageBlock(path, width, height, alt, _) => ValidateImage(path, width, height, alt, bodyWidth);
      case EquationBlock(script, width, height) => ValidateEquation(script, width, height);
      case FieldBlock(name, value, style) => ValidateField(name, value, style);
      case BreakBlock(kind) =>
        if kind == SectionBreak && !sectionBreaks {
          Issue(UnsupportedContext);
        }
    }

    method ValidateHeaderFooter(part: Option<HeaderFooter>, bodyWidth: real)
      modifies this
      ensures Reports(old(issues), issues, HeaderFooterOk(spec, part, bodyWidth))
      ensures |issues| == |old(issues)| ==> used == old(used).Plus(PartBudget(part))
    {
      hide BlocksOk, BlocksBudget, Budget.Plus;
      if part.None? {
        NothingAdded(used);
        return;
      }
      var p := part.value;
      Check(p.first == [], UnsupportedNative);
      ghost var start := used;
      ValidateBlocks(p.default, 1, false, bodyWidth);
      ValidateBlocks(p.first, 1, false, bodyWidth);
      ValidateBlocks(p.odd, 1, false, bodyWidth);
      ValidateBlocks(p.even, 1, false, bodyWidth);
      NoBlocksOk(spec, bodyWidth);
      var d, f, o, e := BlocksBudget(p.default), BlocksBudget(p.first), BlocksBudget(p.odd), BlocksBudget(p.even);
      BudgetsAssociate(start, d, f);
      BudgetsAssociate(start, d.Plus(f), o);
      BudgetsAssociate(start, d.Plus(f).Plus(o), e);
    }

    method ValidatePage(page: PageSpec)
      modifies this`issues
      ensures Reports(old(issues), issues, PageOk(page))
    {
      Check(25.0 <= page.width <= 2000.0, InvalidDimension);
      Check(25.0 <= page.height <= 2000.0, InvalidDimension);
      ValidateMargin(page.marginLeft, InvalidDimension);
      ValidateMargin(page.marginRight, InvalidDimension);
      ValidateMargin(page.marginTop, InvalidDimension);
      ValidateMargin(page.marginBottom, InvalidDimension);
      ValidateMargin(page.marginHeader, InvalidDimension);
      ValidateMargin(page.marginFooter, InvalidDimension);
      ValidateMargin(page.gutter, InvalidDimension);
      Check(page.marginLeft + page.marginRight + page.gutter < PhysicalWidth(page), InvalidPage);
      Check(page.marginTop + page.marginBottom < PhysicalHeight(page), InvalidPage);
    }

    method ValidatePageNumber(number: PageNumber)
      modifies this`issues
      ensures Reports(old(issues), issues, PageNumberOk(number))
    {
      Check(1 <= number.start <= U16_MAX, InvalidValue);
      Check(number.decimal, UnsupportedNative);
      Check((number.prefix == None && number.suffix == None)
            || (number.prefix.Some? && number.prefix == number.suffix && |number.prefix.value| == 1),
              UnsupportedNative);
    }

    method ValidateSection(section: SectionSpec, ids: set<string>) returns (seen: set<string>)
      modifies this
      ensures Reports(old(issues), issues,
        SectionOk(spec, section) && (section.id.Some? ==> section.id.value !in ids))
      ensures |issues| == |old(issues)| ==> used == old(used).Plus(SectionBudget(section))
      ensures |issues| == |old(issues)| ==> seen == if section.id.Some? then ids + {section.id.value} else ids
    {
      hide BlocksOk, BlocksBudget, HeaderFooterOk, PartBudget, PageOk, PageNumberOk, Budget.Plus;
      seen := ids;
      if section.page.Some? {
        ValidatePage(section.page.value);
      }
      if section.pageNumber.Some? {
        ValidatePageNumber(section.pageNumber.value);
      }
      if section.id.Some? {
        if !NameOk(section.id.value) {
          Issue(InvalidName);
        } else if section.id.value in seen {
          Issue(DuplicateId);
        } else {
          seen := seen + {section.id.value};
        }
      }
      var bodyWidth := BodyWidth(SectionPage(spec, section));
      ValidateHeaderFooter(section.header, bodyWidth);
      ValidateHeaderFooter(section.footer, bodyWidth);
      ValidateBlocks(section.blocks, 0, true, bodyWidth);
      BudgetsAssociate(old(used), PartBudget(section.header), PartBudget(section.footer));
      BudgetsAssociate(old(used), PartBudget(section.header).Plus(PartBudget(section.footer)),
        BlocksBudget(section.blocks));
    }

    method ValidateSections()
      modifies this
      ensures Reports(old(issues), issues, SectionsOk(spec, spec.sections) && IdsDistinct(spec.sections))
      ensures |issues| == |old(issues)| ==> used == old(used).Plus(SectionsBudget(spec.sections))
    {
      hide SectionOk, SectionsOk, SectionBudget, SectionsBudget, IdsDistinct, IdsOf, Budget.Plus;
      var sections := spec.sections;
      var ids: set<string> := {};
      NothingAdded(used);
      NoSections(spec);
      assert sections[..0] == [];
      var i := 0;
      while i < |sections|
        invariant 0 <= i <= |sections|
        invariant Reports(old(issues), issues, SectionsOk(spec, sections[..i]) && IdsDistinct(sections[..i]))
        invariant |issues| == |old(issues)| ==>
          && used == old(used).Plus(SectionsBudget(sections[..i]))
          && ids == IdsOf(sections[..i])
      {
        ids := ValidateSection(sections[i], ids);
        SectionsStep(spec, sections, i);
        IdsStep(sections, i);
        BudgetsAssociate(old(used), SectionsBudget(sections[..i]), SectionBudget(sections[i]));
        i := i + 1;
      }
      assert sections[..i] == sections;
      assert Reports(old(issues), issues, SectionsOk(spec, sections) && IdsDistinct(sections));
    }

    method ValidateStyle(name: string)
      requires name in spec.styles
      modifies this`issues
      ensures Reports(old(issues), issues, StyleOk(spec, name))
    {
      var style := spec.styles[name];
      ValidateName(name, InvalidName);
      if style.basedOn.Some? {
        if !NameOk(style.basedOn.value) {
          Issue(InvalidName);
        } else if style.basedOn.value !in spec.styles {
          Issue(UnknownReference);
        }
      }
      Check(style.keepWithNext != Some(true), UnsupportedNative);
      ValidateFontSize(style.fontSizePt);
      ValidateFont(style.fontFamily);
      if style.marginLeftMm.Some? {
        ValidateMargin(style.marginLeftMm.value, InvalidValue);
      }
      if style.marginRightMm.Some? {
        ValidateMargin(style.marginRightMm.value, InvalidValue);
      }
      if style.spacingBeforePt.Some? {
        ValidateMargin(style.spacingBeforePt.value, InvalidValue);
      }
      if style.spacingAfterPt.Some? {
        ValidateMargin(style.spacingAfterPt.value, InvalidValue);
      }
      Check(style.lineHeightPercent.Some? ==> 50 <= style.lineHeightPercent.value <= 1000, InvalidValue);
    }

    method ValidateStyles()
      modifies this`issues
      ensures Reports(old(issues), issues, StylesOk(spec))
    {
      hide StyleOk;
      var left := spec.styles.Keys;
      while left != {}
        invariant left <= spec.styles.Keys
        invariant Reports(old(issues), issues, forall name :: name in spec.styles && name !in left ==>
          StyleOk(spec, name))
        decreases |left|
      {
        var name :| name in left;
        ValidateStyle(name);
        left := left - {name};
      }
    }

    method ValidateStyleCycles()
      modifies this`issues
      ensures Reports(old(issues), issues, ChainsOk(spec))
    {
      hide ChainEnds;
      var left := spec.styles.Keys;
      while left != {}
        invariant left <= spec.styles.Keys
        invariant Reports(old(issues), issues, forall name :: name in spec.styles && name !in left ==>
          ChainEnds(spec.styles, name))
        decreases |left|
      {
        var name :| name in left;
        var found := FindCycle(spec.styles, name);
        Check(!found, ReferenceCycle);
        left := left - {name};
      }
    }

    method ValidateLevel(ordered: bool, level: ListLevel)
      modifies this`issues
      ensures Reports(old(issues), issues, LevelOk(spec, ordered, level))
    {
      Check(level.start != 0, InvalidValue);
      Check(!ordered ==> level.start == 1, InvalidValue);
      Check(1 <= |level.marker| <= 64, InvalidValue);
      Check(if ordered then HasCounter(level.marker) else |level.marker| == 1, InvalidMarker);
      ValidateStyleRef(level.style);
    }

    method ValidateList(name: string)
      requires name in spec.lists
      modifies this`issues
      ensures Reports(old(issues), issues, ListOk(spec, name))
    {
      hide LevelOk;
      var list := spec.lists[name];
      ValidateName(name, InvalidName);
      Check(1 <= |list.levels| <= 7, InvalidList);
      ghost var checked := issues;
      var i := 0;
      while i < |list.levels|
        invariant 0 <= i <= |list.levels|
        invariant Reports(checked, issues, forall j :: 0 <= j < i ==> LevelOk(spec, list.ordered, list.levels[j]))
      {
        ValidateLevel(list.ordered, list.levels[i]);
        i := i + 1;
      }
    }

    method ValidateLists()
      modifies this`issues
      ensures Reports(old(issues), issues, ListsOk(spec))
    {
      hide ListOk;
      var left := spec.lists.Keys;
      while left != {}
        invariant left <= spec.lists.Keys
        invariant Reports(old(issues), issues, forall name :: name in spec.lists && name !in left ==>
          ListOk(spec, name))
        decreases |left|
      {
        var name :| name in left;
        ValidateList(name);
        left := left - {name};
      }
    }

    /** A fresh validator ends with no issue exactly when the specification is acceptable. */
    method Validate()
      requires issues == [] && used == NOTHING
      modifies this
      ensures issues == [] <==> SpecOk(spec)
    {
      hide StylesOk, ChainsOk, ListsOk, SectionsOk, IdsDistinct, PageOk, SectionsBudget, Budget.Plus;
      AddedToNothing(SectionsBudget(spec.sections));
      Check(spec.sections != [], Required);
      Check(|spec.sections| <= MAX_SECTIONS, LimitExceeded);
      ValidatePage(spec.page);
      Check(|spec.styles| <= 256, LimitExceeded);
      Check(|spec.lists| <= 256, LimitExceeded);
      ValidateStyles();
      ValidateStyleCycles();
      ValidateLists();
      ValidateSections();
      Check(used.blocks <= MAX_BLOCKS, LimitExceeded);
      Check(used.runs <= MAX_RUNS, LimitExceeded);
      Check(used.cells <= MAX_TABLE_CELLS, LimitExceeded);
      Check(used.textChars <= MAX_TEXT_CHARS, LimitExceeded);
    }
  }
}
