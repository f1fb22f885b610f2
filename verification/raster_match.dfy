/**
 Ink matching between two raster images over a region of interest: summed-area tables answer,
 for every ink pixel of one image, whether the other has ink within a square neighbourhood.
 */
module RasterMatch {
  import opened FlatGrid
  import opened HwpModel

  /** The value at column `x` of row `y`; zero beyond the data. */
  function Pixel(data: seq<int>, width: nat, x: nat, y: nat): int {
    var i := Offset(y, width) + x;
    if i < |data| then data[i] else 0
  }

  predicate IsMask(mask: seq<int>) {
    forall i :: 0 <= i < |mask| ==> mask[i] == 0 || mask[i] == 1
  }

  predicate IsInk(mask: seq<int>, width: nat, x: nat, y: nat) {
    Pixel(mask, width, x, y) == 1
  }

  lemma MaskPixel(mask: seq<int>, width: nat, x: nat, y: nat)
    requires IsMask(mask)
    ensures Pixel(mask, width, x, y) == if IsInk(mask, width, x, y) then 1 else 0
  {
  }

  // ----- Sums ----------------------------------------------------------------------------

  function RowSum(mask: seq<int>, width: nat, y: nat, x: nat): int {
    if x == 0 then 0 else RowSum(mask, width, y, x - 1) + Pixel(mask, width, x - 1, y)
  }

  /** The sum over the rectangle from the corner to column `x` and row `y`, both excluded. */
  function Area(mask: seq<int>, width: nat, x: nat, y: nat): int {
    if y == 0 then 0 else Area(mask, width, x, y - 1) + RowSum(mask, width, y - 1, x)
  }

  lemma {:induction false} NoColumns(mask: seq<int>, width: nat, y: nat)
    ensures Area(mask, width, 0, y) == 0
  {
    if y > 0 {
      NoColumns(mask, width, y - 1);
    }
  }

  /** Four corners of the table give the sum over a rectangle. */
  function Rectangle(mask: seq<int>, width: nat, x0: nat, x1: nat, y0: nat, y1: nat): int {
    Area(mask, width, x1, y1) - Area(mask, width, x1, y0) - Area(mask, width, x0, y1) + Area(mask, width, x0, y0)
  }

  ghost predicate InkIn(mask: seq<int>, width: nat, x0: nat, x1: nat, y0: nat, y1: nat) {
    exists x: nat, y: nat :: x0 <= x < x1 && y0 <= y < y1 && IsInk(mask, width, x, y)
  }

  lemma {:induction false} RowDifference(mask: seq<int>, width: nat, y: nat, x0: nat, x1: nat)
    requires IsMask(mask) && x0 <= x1
    ensures RowSum(mask, width, y, x1) - RowSum(mask, width, y, x0) >= 0
    ensures RowSum(mask, width, y, x1) - RowSum(mask, width, y, x0) > 0 <==> InkIn(mask, width, x0, x1, y, y + 1)
    decreases x1
  {
    hide Pixel, IsMask, IsInk;
    if x0 < x1 {
      RowDifference(mask, width, y, x0, x1 - 1);
      MaskPixel(mask, width, x1 - 1, y);
      InkInLastColumn(mask, width, x0, x1, y, y + 1);
    }
  }

  lemma InkInLastColumn(mask: seq<int>, width: nat, x0: nat, x1: nat, y: nat, y1: nat)
    requires x0 < x1 && y1 == y + 1
    ensures InkIn(mask, width, x0, x1, y, y1) <==>
      InkIn(mask, width, x0, x1 - 1, y, y1) || IsInk(mask, width, x1 - 1, y)
  {
    hide IsInk;
    if InkIn(mask, width, x0, x1, y, y1) {
      var x: nat, r: nat :| x0 <= x < x1 && y <= r < y1 && IsInk(mask, width, x, r);
      assert x < x1 - 1 || x == x1 - 1;
    }
    if InkIn(mask, width, x0, x1 - 1, y, y1) {
      var x: nat, r: nat :| x0 <= x < x1 - 1 && y <= r < y1 && IsInk(mask, width, x, r);
    }
  }

  lemma InkInLastRow(mask: seq<int>, width: nat, x0: nat, x1: nat, y0: nat, y1: nat)
    requires y0 < y1
    ensures InkIn(mask, width, x0, x1, y0, y1) <==>
      InkIn(mask, width, x0, x1, y0, y1 - 1) || InkIn(mask, width, x0, x1, y1 - 1, y1)
  {
    hide IsInk;
    if InkIn(mask, width, x0, x1, y0, y1) {
      var x: nat, y: nat :| x0 <= x < x1 && y0 <= y < y1 && IsInk(mask, width, x, y);
      assert y < y1 - 1 || y == y1 - 1;
    }
    if InkIn(mask, width, x0, x1, y0, y1 - 1) {
      var x: nat, y: nat :| x0 <= x < x1 && y0 <= y < y1 - 1 && IsInk(mask, width, x, y);
    }
    if InkIn(mask, width, x0, x1, y1 - 1, y1) {
      var x: nat, y: nat :| x0 <= x < x1 && y1 - 1 <= y < y1 && IsInk(mask, width, x, y);
    }
  }

  /** The rectangle sum is positive exactly when there is ink in the rectangle. */
  lemma {:induction false} RectangleCounts(mask: seq<int>, width: nat, x0: nat, x1: nat, y0: nat, y1: nat)
    requires IsMask(mask) && x0 <= x1 && y0 <= y1
    ensures Rectangle(mask, width, x0, x1, y0, y1) >= 0
    ensures Rectangle(mask, width, x0, x1, y0, y1) > 0 <==> InkIn(mask, width, x0, x1, y0, y1)
    decreases y1
  {
    hide Pixel, IsMask, IsInk, RowSum;
    if y0 < y1 {
      hide InkIn;
      RectangleCounts(mask, width, x0, x1, y0, y1 - 1);
      RowDifference(mask, width, y1 - 1, x0, x1);
      InkInLastRow(mask, width, x0, x1, y0, y1);
    }
  }

  // ----- The table -----------------------------------------------------------------------

  /** Writing at column `x` of row `y` leaves everything before it. */
  lemma WrittenBefore(data: seq<int>, stride: nat, x: nat, y: nat, v: int, x': nat, y': nat)
    requires x < stride && x' < stride && Offset(y, stride) + x < |data|
    requires y' < y || (y' == y && x' < x)
    ensures Pixel(data[Offset(y, stride) + x := v], stride, x', y') == Pixel(data, stride, x', y')
  {
    hide Offset;
    if y' < y {
      OffsetStep(y', y, stride);
    }
  }

  /** Rows up to `y` and the first `x` columns of row `y` hold the sums. */
  ghost predicate Tabled(table: seq<int>, mask: seq<int>, width: nat, x: nat, y: nat) {
    forall x': nat, y': nat :: x' <= width && (y' < y || (y' == y && x' < x)) ==>
      Pixel(table, width + 1, x', y') == Area(mask, width, x', y')
  }

  lemma TabledStep(table: seq<int>, mask: seq<int>, width: nat, x: nat, y: nat, v: int)
    requires Tabled(table, mask, width, x, y) && x <= width && Offset(y, width + 1) + x < |table|
    requires v == Area(mask, width, x, y)
    ensures Tabled(table[Offset(y, width + 1) + x := v], mask, width, x + 1, y)
  {
    hide Area;
    var i := Offset(y, width + 1) + x;
    forall x': nat, y': nat | x' <= width && (y' < y || (y' == y && x' < x + 1))
      ensures Pixel(table[i := v], width + 1, x', y') == Area(mask, width, x', y')
    {
      if y' < y || x' < x {
        WrittenBefore(table, width + 1, x, y, v, x', y');
      }
    }
  }

  /** The summed-area table of a mask. */
  method Prefix(mask: seq<int>, width: nat, height: nat) returns (result: array<int>)
    requires |mask| == Offset(height, width)
    ensures result.Length == Offset(height + 1, width + 1)
    ensures Tabled(result[..], mask, width, 0, height + 1)
  {
    hide Offset, Tabled, Area;
    var stride := width + 1;
    result := new int[Offset(height + 1, stride)](_ => 0);
    NoOffset(stride);
    OffsetStep(0, height + 1, stride);
    FirstRow(result[..], mask, width);
    var row := 0;
    while row < height
      invariant 0 <= row <= height && Tabled(result[..], mask, width, 0, row + 1)
      invariant forall i :: Offset(row + 1, stride) <= i < result.Length ==> result[i] == 0
    {
      OffsetStep(row, height, width);
      OffsetStep(row, height + 1, stride);
      OffsetStep(row + 1, height + 1, stride);
      var rowSum := 0;
      var sourceOffset, currentOffset, previousOffset := Offset(row, width), Offset(row + 1, stride),
        Offset(row, stride);
      FirstColumn(result[..], mask, width, row);
      var column := 0;
      while column < width
        invariant 0 <= column <= width && rowSum == RowSum(mask, width, row, column)
        invariant Tabled(result[..], mask, width, column + 1, row + 1)
        invariant forall i :: Offset(row + 2, stride) <= i < result.Length ==> result[i] == 0
      {
        rowSum := rowSum + mask[sourceOffset + column];
        SumStep(result[..], mask, width, column, row);
        ghost var before := result[..];
        result[currentOffset + column + 1] := result[previousOffset + column + 1] + rowSum;
        assert result[..] == before[currentOffset + column + 1 := result[currentOffset + column + 1]];
        TabledStep(before, mask, width, column + 1, row + 1, result[currentOffset + column + 1]);
        column := column + 1;
      }
      RowDone(result[..], mask, width, row + 1);
      row := row + 1;
    }
  }

  lemma FirstRow(table: seq<int>, mask: seq<int>, width: nat)
    requires width + 1 <= |table| && forall i :: 0 <= i < |table| ==> table[i] == 0
    ensures Tabled(table, mask, width, 0, 1)
  {
    NoOffset(width + 1);
  }

  lemma FirstColumn(table: seq<int>, mask: seq<int>, width: nat, row: nat)
    requires Tabled(table, mask, width, 0, row + 1)
    requires Offset(row + 1, width + 1) < |table| && table[Offset(row + 1, width + 1)] == 0
    ensures Tabled(table, mask, width, 1, row + 1)
  {
    hide Area, Offset;
    NoColumns(mask, width, row + 1);
  }

  lemma RowDone(table: seq<int>, mask: seq<int>, width: nat, y: nat)
    requires Tabled(table, mask, width, width + 1, y)
    ensures Tabled(table, mask, width, 0, y + 1)
  {
    hide Area, Pixel;
  }

  lemma SumStep(table: seq<int>, mask: seq<int>, width: nat, column: nat, row: nat)
    requires Tabled(table, mask, width, column + 1, row + 1) && column < width
    requires Offset(row, width) + column < |mask| && Offset(row, width + 1) + column + 1 < |table|
    ensures RowSum(mask, width, row, column + 1) == RowSum(mask, width, row, column) + mask[Offset(row, width) + column]
    ensures table[Offset(row, width + 1) + column + 1] + RowSum(mask, width, row, column + 1) ==
      Area(mask, width, column + 1, row + 1)
  {
    hide Offset;
    assert Pixel(table, width + 1, column + 1, row) == Area(mask, width, column + 1, row);
    assert Pixel(mask, width, column, row) == mask[Offset(row, width) + column];
  }

  // ----- Neighbourhoods ------------------------------------------------------------------

  function Distance(a: int, b: int): (d: nat)
    ensures a - b == d || b - a == d
  {
    if a < b then b - a else a - b
  }

  /** Within `radius` columns and rows of (x, y). */
  predicate Close(x: int, y: int, x': int, y': int, radius: nat) {
    Distance(x, x') <= radius && Distance(y, y') <= radius
  }

  /** There is ink within `radius` columns and rows, inside the region. */
  ghost predicate InkNear(mask: seq<int>, width: nat, height: nat, x: nat, y: nat, radius: nat) {
    exists x': nat, y': nat :: x' < width && y' < height && Close(x, y, x', y', radius) && IsInk(mask, width, x', y')
  }

  function Low(c: nat, radius: nat): nat {
    if c < radius then 0 else c - radius
  }

  function High(c: nat, radius: nat, size: nat): nat {
    if c + radius + 1 > size then size else c + radius + 1
  }

  /** The clipped rectangle is the neighbourhood. */
  lemma NearIsInRectangle(mask: seq<int>, width: nat, height: nat, x: nat, y: nat, radius: nat)
    requires x < width && y < height
    ensures Low(x, radius) <= High(x, radius, width) <= width && Low(y, radius) <= High(y, radius, height) <= height
    ensures InkNear(mask, width, height, x, y, radius) <==>
      InkIn(mask, width, Low(x, radius), High(x, radius, width), Low(y, radius), High(y, radius, height))
  {
    hide IsInk;
    if InkNear(mask, width, height, x, y, radius) {
      var x': nat, y': nat :| x' < width && y' < height && Close(x, y, x', y', radius) && IsInk(mask, width, x', y');
      assert Low(x, radius) <= x' < High(x, radius, width) && Low(y, radius) <= y' < High(y, radius, height);
    }
    if InkIn(mask, width, Low(x, radius), High(x, radius, width), Low(y, radius), High(y, radius, height)) {
      var x': nat, y': nat :| Low(x, radius) <= x' < High(x, radius, width)
        && Low(y, radius) <= y' < High(y, radius, height) && IsInk(mask, width, x', y');
      assert x' < width && y' < height && Close(x, y, x', y', radius);
    }
  }

  lemma CornerInTable(x: nat, y: nat, width: nat, height: nat)
    requires x <= width && y <= height
    ensures Offset(y, width + 1) + x < Offset(height + 1, width + 1)
  {
    hide Offset;
    OffsetStep(y, height + 1, width + 1);
  }

  lemma CornerSum(table: seq<int>, mask: seq<int>, width: nat, height: nat, x: nat, y: nat)
    requires Tabled(table, mask, width, 0, height + 1) && |table| == Offset(height + 1, width + 1)
    requires x <= width && y <= height
    ensures Offset(y, width + 1) + x < |table|
    ensures table[Offset(y, width + 1) + x] == Area(mask, width, x, y)
  {
    hide Area, Offset;
    CornerInTable(x, y, width, height);
    assert Pixel(table, width + 1, x, y) == Area(mask, width, x, y);
  }

  /** Four lookups tell whether there is ink near (column, row). */
  method NearbyCount(table: array<int>, ghost mask: seq<int>, width: nat, height: nat, column: nat, row: nat,
      radius: nat) returns (count: int)
    requires IsMask(mask) && table.Length == Offset(height + 1, width + 1)
      && Tabled(table[..], mask, width, 0, height + 1)
    requires column < width && row < height
    ensures count >= 0
    ensures count != 0 <==> InkNear(mask, width, height, column, row, radius)
  {
    hide IsMask, Offset, Tabled, Area, InkNear, InkIn;
    var stride := width + 1;
    var x0, y0 := Low(column, radius), Low(row, radius);
    var x1, y1 := High(column, radius, width), High(row, radius, height);
    NearIsInRectangle(mask, width, height, column, row, radius);
    CornerSum(table[..], mask, width, height, x1, y1);
    CornerSum(table[..], mask, width, height, x1, y0);
    CornerSum(table[..], mask, width, height, x0, y1);
    CornerSum(table[..], mask, width, height, x0, y0);
    RectangleCounts(mask, width, x0, x1, y0, y1);
    count := table[Offset(y1, stride) + x1] - table[Offset(y0, stride) + x1] - table[Offset(y1, stride) + x0]
      + table[Offset(y0, stride) + x0];
  }

  // ----- Matches -------------------------------------------------------------------------

  /** An ink pixel of `a` with ink of `b` nearby. */
  ghost predicate Matched(a: seq<int>, b: seq<int>, width: nat, height: nat, x: nat, y: nat, radius: nat) {
    IsInk(a, width, x, y) && InkNear(b, width, height, x, y, radius)
  }

  ghost function RowMatches(a: seq<int>, b: seq<int>, width: nat, height: nat, radius: nat, y: nat, x: nat): nat {
    if x == 0 then 0
    else
      RowMatches(a, b, width, height, radius, y, x - 1)
      + (if Matched(a, b, width, height, x - 1, y, radius) then 1 else 0)
  }

  /** How many ink pixels of `a`, in the first `y` rows, have ink of `b` nearby. */
  ghost function Matches(a: seq<int>, b: seq<int>, width: nat, height: nat, radius: nat, y: nat): nat {
    if y == 0 then 0
    else Matches(a, b, width, height, radius, y - 1) + RowMatches(a, b, width, height, radius, y - 1, width)
  }

  /** A larger radius keeps every match. */
  lemma {:induction false} WiderRowMatches(a: seq<int>, b: seq<int>, width: nat, height: nat, r: nat, s: nat, y: nat,
      x: nat)
    requires r <= s
    ensures RowMatches(a, b, width, height, r, y, x) <= RowMatches(a, b, width, height, s, y, x)
  {
    hide IsInk;
    if x > 0 {
      WiderRowMatches(a, b, width, height, r, s, y, x - 1);
      if Matched(a, b, width, height, x - 1, y, r) {
        var x': nat, y': nat :| x' < width && y' < height && Close(x - 1, y, x', y', r) && IsInk(b, width, x', y');
        assert Close(x - 1, y, x', y', s);
      }
    }
  }

  /** Neither precision nor recall falls when the radius grows. */
  lemma {:induction false} WiderMatches(a: seq<int>, b: seq<int>, width: nat, height: nat, r: nat, s: nat, y: nat)
    requires r <= s
    ensures Matches(a, b, width, height, r, y) <= Matches(a, b, width, height, s, y)
  {
    if y > 0 {
      WiderMatches(a, b, width, height, r, s, y - 1);
      WiderRowMatches(a, b, width, height, r, s, y - 1, width);
    }
  }

  lemma {:induction false} RowMatchesInk(a: seq<int>, b: seq<int>, width: nat, height: nat, radius: nat, y: nat, x: nat)
    requires IsMask(a) && x <= width && y < height
    ensures RowMatches(a, b, width, height, radius, y, x) <= RowSum(a, width, y, x)
    ensures a == b ==> RowMatches(a, b, width, height, radius, y, x) == RowSum(a, width, y, x)
  {
    hide Pixel, IsInk, IsMask;
    if x > 0 {
      RowMatchesInk(a, b, width, height, radius, y, x - 1);
      MaskPixel(a, width, x - 1, y);
      if a == b && IsInk(a, width, x - 1, y) {
        assert Close(x - 1, y, x - 1, y, radius);
        assert InkNear(b, width, height, x - 1, y, radius);
      }
    }
  }

  /** At most all ink matches, and all of it when the images are equal. */
  lemma {:induction false} MatchesInk(a: seq<int>, b: seq<int>, width: nat, height: nat, radius: nat, y: nat)
    requires IsMask(a) && y <= height
    ensures Matches(a, b, width, height, radius, y) <= Area(a, width, width, y)
    ensures a == b ==> Matches(a, b, width, height, radius, y) == Area(a, width, width, y)
  {
    hide IsMask, RowMatches, RowSum;
    if y > 0 {
      MatchesInk(a, b, width, height, radius, y - 1);
      RowMatchesInk(a, b, width, height, radius, y - 1, width);
    }
  }

  /** The loop over the region: matches in both directions. */
  method CountMatches(ours: seq<int>, oracle: seq<int>, width: nat, height: nat, radius: nat)
    returns (precision: nat, recall: nat)
    requires IsMask(ours) && IsMask(oracle) && |ours| == |oracle| == Offset(height, width)
    ensures precision == Matches(ours, oracle, width, height, radius, height)
    ensures recall == Matches(oracle, ours, width, height, radius, height)
  {
    hide Offset, IsMask, Tabled, InkNear, RowMatches;
    var oursTable := Prefix(ours, width, height);
    var oracleTable := Prefix(oracle, width, height);
    precision, recall := 0, 0;
    var row := 0;
    while row < height
      invariant 0 <= row <= height
      invariant precision == Matches(ours, oracle, width, height, radius, row)
      invariant recall == Matches(oracle, ours, width, height, radius, row)
      invariant Tabled(oursTable[..], ours, width, 0, height + 1)
        && Tabled(oracleTable[..], oracle, width, 0, height + 1)
    {
      var p, r := CountRow(ours, oracle, oursTable, oracleTable, width, height, radius, row);
      precision, recall := precision + p, recall + r;
      row := row + 1;
    }
  }

  method CountRow(ours: seq<int>, oracle: seq<int>, oursTable: array<int>, oracleTable: array<int>, width: nat,
      height: nat, radius: nat, row: nat)
      returns (precision: nat, recall: nat)
    requires IsMask(ours) && IsMask(oracle) && |ours| == |oracle| == Offset(height, width) && row < height
    requires oursTable.Length == oracleTable.Length == Offset(height + 1, width + 1)
    requires Tabled(oursTable[..], ours, width, 0, height + 1) && Tabled(oracleTable[..], oracle, width, 0, height + 1)
    ensures precision == RowMatches(ours, oracle, width, height, radius, row, width)
    ensures recall == RowMatches(oracle, ours, width, height, radius, row, width)
  {
    hide Offset, IsMask, Tabled, InkNear;
    precision, recall := 0, 0;
    OffsetStep(row, height, width);
    var offset := Offset(row, width);
    var column := 0;
    while column < width
      invariant 0 <= column <= width
      invariant precision == RowMatches(ours, oracle, width, height, radius, row, column)
      invariant recall == RowMatches(oracle, ours, width, height, radius, row, column)
    {
      var index := offset + column;
      InkValue(ours, width, column, row);
      InkValue(oracle, width, column, row);
      if ours[index] != 0 {
        var near := NearbyCount(oracleTable, oracle, width, height, column, row, radius);
        precision := if near != 0 then precision + 1 else precision;
      }
      if oracle[index] != 0 {
        var near := NearbyCount(oursTable, ours, width, height, column, row, radius);
        recall := if near != 0 then recall + 1 else recall;
      }
      column := column + 1;
    }
  }

  lemma InkValue(mask: seq<int>, width: nat, x: nat, y: nat)
    requires IsMask(mask) && Offset(y, width) + x < |mask|
    ensures mask[Offset(y, width) + x] != 0 <==> IsInk(mask, width, x, y)
  {
  }

  // ----- Precision and recall ------------------------------------------------------------

  /** Pixels of an image region that are darker than the threshold. */
  function Dark(pixels: seq<int>, imageWidth: nat, left: nat, top: nat, x: nat, y: nat, threshold: int): int {
    if Pixel(pixels, imageWidth, left + x, top + y) < threshold then 1 else 0
  }

  /** The ink mask of the first `rows` rows of a region. */
  function MaskRows(pixels: seq<int>, imageWidth: nat, left: nat, top: nat, width: nat, rows: nat,
      threshold: int): seq<int>
  {
    if rows == 0 then []
    else
      MaskRows(pixels, imageWidth, left, top, width, rows - 1, threshold)
        + seq(width, x requires 0 <= x < width => Dark(pixels, imageWidth, left, top, x, rows - 1, threshold))
  }

  lemma {:induction false} MaskRowsSize(pixels: seq<int>, imageWidth: nat, left: nat, top: nat, width: nat, rows: nat,
      threshold: int)
    ensures IsMask(MaskRows(pixels, imageWidth, left, top, width, rows, threshold))
    ensures |MaskRows(pixels, imageWidth, left, top, width, rows, threshold)| == Offset(rows, width)
  {
    hide Offset, Pixel;
    if rows == 0 {
      NoOffset(width);
    } else {
      MaskRowsSize(pixels, imageWidth, left, top, width, rows - 1, threshold);
      OffsetStep(rows - 1, rows, width);
    }
  }

  /** The mask holds ink exactly where the image is darker than the threshold. */
  lemma {:induction false} MaskRowsPixel(pixels: seq<int>, imageWidth: nat, left: nat, top: nat, width: nat, rows: nat,
      threshold: int, x: nat, y: nat)
    requires x < width && y < rows
    ensures IsInk(MaskRows(pixels, imageWidth, left, top, width, rows, threshold), width, x, y)
      <==> Pixel(pixels, imageWidth, left + x, top + y) < threshold
    decreases rows
  {
    hide Offset;
    var front := MaskRows(pixels, imageWidth, left, top, width, rows - 1, threshold);
    MaskRowsSize(pixels, imageWidth, left, top, width, rows - 1, threshold);
    if y < rows - 1 {
      MaskRowsPixel(pixels, imageWidth, left, top, width, rows - 1, threshold, x, y);
      OffsetStep(y, rows - 1, width);
    }
  }

  lemma PixelInImage(pixels: seq<int>, imageWidth: nat, imageHeight: nat, x: nat, y: nat)
    requires |pixels| == Offset(imageHeight, imageWidth) && x < imageWidth && y < imageHeight
    ensures Offset(y, imageWidth) + x < |pixels| && Pixel(pixels, imageWidth, x, y) == pixels[Offset(y, imageWidth) + x]
  {
    hide Offset;
    OffsetStep(y, imageHeight, imageWidth);
  }

  /** Marks the ink of a region, one slice of the image per row. */
  method InkMask(pixels: seq<int>, imageWidth: nat, imageHeight: nat, left: nat, top: nat, right: nat, bottom: nat,
      threshold: int) returns (mask: seq<int>)
    requires |pixels| == Offset(imageHeight, imageWidth) && left <= right <= imageWidth && top <= bottom <= imageHeight
    ensures mask == MaskRows(pixels, imageWidth, left, top, right - left, bottom - top, threshold)
  {
    hide Offset;
    var width := right - left;
    mask := [];
    var row := top;
    while row < bottom
      invariant top <= row <= bottom
      invariant mask == MaskRows(pixels, imageWidth, left, top, width, row - top, threshold)
    {
      OffsetStep(row, imageHeight, imageWidth);
      var line := pixels[Offset(row, imageWidth) + left..Offset(row, imageWidth) + right];
      var ink := seq(width, x requires 0 <= x < width => if line[x] < threshold then 1 else 0);
      forall x | 0 <= x < width ensures ink[x] == Dark(pixels, imageWidth, left, top, x, row - top, threshold) {
        PixelInImage(pixels, imageWidth, imageHeight, left + x, row);
      }
      mask := mask + ink;
      row := row + 1;
    }
  }

  function Sum(s: seq<int>): int {
    if s == [] then 0 else Sum(s[..|s| - 1]) + s[|s| - 1]
  }

  lemma {:induction false} SumOfRow(mask: seq<int>, width: nat, y: nat, x: nat)
    requires Offset(y, width) + x <= |mask|
    ensures Sum(mask[..Offset(y, width) + x]) == Sum(mask[..Offset(y, width)]) + RowSum(mask, width, y, x)
    decreases x
  {
    hide Offset;
    if x > 0 {
      SumOfRow(mask, width, y, x - 1);
      var n := Offset(y, width) + x;
      assert mask[..n][..n - 1] == mask[..n - 1];
    }
  }

  /** Adding up the whole mask counts its ink. */
  lemma {:induction false} SumIsArea(mask: seq<int>, width: nat, height: nat, y: nat)
    requires |mask| == Offset(height, width) && y <= height
    ensures Offset(y, width) <= |mask| && Sum(mask[..Offset(y, width)]) == Area(mask, width, width, y)
    decreases y
  {
    hide Offset, Sum, RowSum;
    if y == 0 {
      NoOffset(width);
      NothingSummed();
      assert mask[..0] == [];
    } else {
      SumIsArea(mask, width, height, y - 1);
      OffsetStep(y - 1, height, width);
      SumOfRow(mask, width, y - 1, width);
    }
  }

  lemma NothingSummed()
    ensures Sum([]) == 0
  {
  }

  /** The share of `count` that `matches` is; of nothing, all when there is nothing else either. */
  ghost predicate IsShare(share: real, matches: nat, count: nat, other: nat) {
    if count > 0 then share * count as real == matches as real
    else if other == 0 then share == 1.0
    else share == 0.0
  }

  function Ratio(matches: nat, count: nat, other: nat): (share: real)
    ensures IsShare(share, matches, count, other)
  {
    if count > 0 then matches as real / count as real else if other == 0 then 1.0 else 0.0
  }

  /** A share of the ink: between nothing and all of it. */
  lemma RatioBounds(matches: nat, count: nat, other: nat)
    requires matches <= count
    ensures 0.0 <= Ratio(matches, count, other) <= 1.0
    ensures matches == count == other ==> Ratio(matches, count, other) == 1.0
  {
  }

  /** The share of the ink of `a` that has ink of `b` nearby. */
  ghost function Score(a: seq<int>, b: seq<int>, width: nat, height: nat, radius: nat): real
    requires IsMask(a) && IsMask(b)
  {
    MatchesInk(a, a, width, height, radius, height);
    MatchesInk(b, b, width, height, radius, height);
    Ratio(Matches(a, b, width, height, radius, height), Area(a, width, width, height), Area(b, width, width, height))
  }

  /** A score is a share, grows with the radius, and is full for equal images. */
  lemma ScoreLaws(a: seq<int>, b: seq<int>, width: nat, height: nat, r: nat, s: nat)
    requires IsMask(a) && IsMask(b) && r <= s
    ensures 0.0 <= Score(a, b, width, height, r) <= Score(a, b, width, height, s) <= 1.0
    ensures a == b ==> Score(a, b, width, height, r) == 1.0
  {
    hide IsMask, Matches, Area;
    MatchesInk(a, a, width, height, r, height);
    MatchesInk(b, b, width, height, r, height);
    MatchesInk(a, b, width, height, r, height);
    MatchesInk(a, b, width, height, s, height);
    WiderMatches(a, b, width, height, r, s, height);
    var m, n, ink, other := Matches(a, b, width, height, r, height), Matches(a, b, width, height, s, height),
      Area(a, width, width, height), Area(b, width, width, height);
    RatioBounds(m, ink, other);
    RatioBounds(n, ink, other);
    RatioGrows(m, n, ink, other);
  }

  lemma RatioGrows(m: nat, n: nat, count: nat, other: nat)
    requires m <= n
    ensures Ratio(m, count, other) <= Ratio(n, count, other)
  {
    if count > 0 {
      Quotients(m as real, n as real, count as real);
    }
  }

  lemma Quotients(m: real, n: real, c: real)
    requires m <= n && c > 0.0
    ensures m / c <= n / c
  {
  }

  /** Precision and recall of a region; swapping the images swaps the two. */
  method PrecisionRecall(ours: seq<int>, oursWidth: nat, oursHeight: nat, oracle: seq<int>, oracleWidth: nat,
      oracleHeight: nat,
      left: nat, top: nat, right: nat, bottom: nat, threshold: int, radius: nat) returns (r: Option<(real, real)>)
    requires |ours| == Offset(oursHeight, oursWidth) && |oracle| == Offset(oracleHeight, oracleWidth)
    requires left <= right <= oursWidth && right <= oracleWidth && top <= bottom <= oursHeight && bottom <= oracleHeight
    ensures r.None? <==> Distance(oursWidth, oracleWidth) > 2 || Distance(oursHeight, oracleHeight) > 2
    ensures r.Some? ==>
      var a := MaskRows(ours, oursWidth, left, top, right - left, bottom - top, threshold);
      var b := MaskRows(oracle, oracleWidth, left, top, right - left, bottom - top, threshold);
      && IsMask(a) && IsMask(b)
      && r.value == (Score(a, b, right - left, bottom - top, radius), Score(b, a, right - left, bottom - top, radius))
    ensures r.Some? ==>
      var width, height := right - left, bottom - top;
      var a := MaskRows(ours, oursWidth, left, top, width, height, threshold);
      var b := MaskRows(oracle, oracleWidth, left, top, width, height, threshold);
      && Area(a, width, width, height) >= 0 && Area(b, width, width, height) >= 0
      && IsShare(r.value.0, Matches(a, b, width, height, radius, height), Area(a, width, width, height),
                 Area(b, width, width, height))
      && IsShare(r.value.1, Matches(b, a, width, height, radius, height), Area(b, width, width, height),
                 Area(a, width, width, height))
  {
    hide Offset, IsMask, Matches, Area, MaskRows, IsShare, Ratio;
    if Distance(oursWidth, oracleWidth) > 2 || Distance(oursHeight, oracleHeight) > 2 {
      return None;
    }
    var width, height := right - left, bottom - top;
    var a := InkMask(ours, oursWidth, oursHeight, left, top, right, bottom, threshold);
    var b := InkMask(oracle, oracleWidth, oracleHeight, left, top, right, bottom, threshold);
    MaskRowsSize(ours, oursWidth, left, top, width, height, threshold);
    MaskRowsSize(oracle, oracleWidth, left, top, width, height, threshold);
    var oursCount, referenceCount := Ink(a, width, height), Ink(b, width, height);
    var precision, recall := CountMatches(a, b, width, height, radius);
    return Some((Ratio(precision, oursCount, referenceCount), Ratio(recall, referenceCount, oursCount)));
  }

  /** The number of ink pixels, added up over the whole mask. */
  function Ink(mask: seq<int>, width: nat, height: nat): (n: nat)
    requires IsMask(mask) && |mask| == Offset(height, width)
    ensures n == Area(mask, width, width, height)
  {
    SumIsArea(mask, width, height, height);
    assert mask[..Offset(height, width)] == mask;
    MatchesInk(mask, mask, width, height, 0, height);
    Sum(mask)
  }
}
