/**
 First-fit placement of table cells on a rectangular grid.

 A table in a document specification lists, row by row, cells that only say how many
 columns and rows they span. The validator and the compiler both place them first-fit over
 an occupancy grid. This module gives that placement as a function and shows what a table
 that passes the validator's span checks really is: the one and only row-major exact tiling
 of the grid by the given spans.
 */
module TableGrid {

  /** What a cell specification says about its extent. */
  datatype Span = Span(colSpan: nat, rowSpan: nat)

  /** A cell anchored at a grid position. */
  datatype Placed = Placed(row: nat, col: nat, span: Span)

  predicate Covers(p: Placed, r: int, c: int) {
    p.row <= r < p.row + p.span.rowSpan && p.col <= c < p.col + p.span.colSpan
  }

  ghost predicate Occupied(ps: seq<Placed>, r: int, c: int) {
    exists i :: 0 <= i < |ps| && Covers(ps[i], r, c)
  }

  lemma OccupiedSnoc(ps: seq<Placed>, p: Placed, r: int, c: int)
    ensures Occupied(ps + [p], r, c) <==> Occupied(ps, r, c) || Covers(p, r, c)
  {
    var qs := ps + [p];
    if Occupied(ps, r, c) {
      var i :| 0 <= i < |ps| && Covers(ps[i], r, c);
      assert Covers(qs[i], r, c);
    }
    if Covers(p, r, c) {
      assert Covers(qs[|ps|], r, c);
    }
  }

  // ----- First-fit placement -------------------------------------------------------------

  /** The first column at or after `cursor` that no placed cell covers in row `r`. */
  ghost function FirstFree(ps: seq<Placed>, r: nat, cursor: nat, n: nat): (c: nat)
    requires cursor <= n
    ensures cursor <= c <= n
    ensures c < n ==> !Occupied(ps, r, c)
    ensures forall d :: cursor <= d < c ==> Occupied(ps, r, d)
    decreases n - cursor
  {
    if cursor < n && Occupied(ps, r, cursor) then FirstFree(ps, r, cursor + 1, n) else cursor
  }

  lemma FirstFreeIsUnique(ps: seq<Placed>, r: nat, cursor: nat, n: nat, c: nat)
    requires cursor <= c <= n
    requires c < n ==> !Occupied(ps, r, c)
    requires forall d :: cursor <= d < c ==> Occupied(ps, r, d)
    ensures FirstFree(ps, r, cursor, n) == c
  {
    var f := FirstFree(ps, r, cursor, n);
    assert f < c ==> Occupied(ps, r, f);
    assert c < f ==> Occupied(ps, r, c);
  }

  predicate InGrid(p: Placed, rows: nat, n: nat) {
    && 1 <= p.span.colSpan && 1 <= p.span.rowSpan
    && p.col + p.span.colSpan <= n && p.row + p.span.rowSpan <= rows
  }

  predicate Disjoint(p: Placed, q: Placed) {
    || p.row + p.span.rowSpan <= q.row || q.row + q.span.rowSpan <= p.row
    || p.col + p.span.colSpan <= q.col || q.col + q.span.colSpan <= p.col
  }

  /** The span checks for one cell: non-empty, inside the grid, over free slots only. */
  ghost predicate CellFits(ps: seq<Placed>, p: Placed, rows: nat, n: nat) {
    InGrid(p, rows, n) && forall r, c :: Covers(p, r, c) ==> !Occupied(ps, r, c)
  }

  ghost predicate RowFull(ps: seq<Placed>, r: nat, n: nat) {
    forall c :: 0 <= c < n ==> Occupied(ps, r, c)
  }

  /** All placements made once the remaining cells of row `r` are placed from `cursor` on. */
  ghost function LayoutRow(ps: seq<Placed>, r: nat, cursor: nat, spans: seq<Span>, n: nat): seq<Placed>
    decreases |spans|
  {
    if spans == [] || cursor > n then ps
    else
      var c := FirstFree(ps, r, cursor, n);
      LayoutRow(ps + [Placed(r, c, spans[0])], r, c + spans[0].colSpan, spans[1..], n)
  }

  ghost predicate RowFits(ps: seq<Placed>, r: nat, cursor: nat, spans: seq<Span>, rows: nat, n: nat)
    decreases |spans|
  {
    if spans == [] then cursor <= n
    else
      && cursor <= n
      && var c := FirstFree(ps, r, cursor, n);
      && CellFits(ps, Placed(r, c, spans[0]), rows, n)
      && RowFits(ps + [Placed(r, c, spans[0])], r, c + spans[0].colSpan, spans[1..], rows, n)
  }

  /** The placements of a whole table, continuing from the ones already made above row `r`. */
  ghost function Layout(ps: seq<Placed>, r: nat, rows: seq<seq<Span>>, n: nat): seq<Placed>
    requires r <= |rows|
    decreases |rows| - r
  {
    if r == |rows| then ps
    else Layout(LayoutRow(ps, r, 0, rows[r], n), r + 1, rows, n)
  }

  /** The validator's span checks for the rows from `r` on: every cell fits, every row is full. */
  ghost predicate Fits(ps: seq<Placed>, r: nat, rows: seq<seq<Span>>, n: nat)
    requires r <= |rows|
    decreases |rows| - r
  {
    if r == |rows| then true
    else
      var qs := LayoutRow(ps, r, 0, rows[r], n);
      && RowFits(ps, r, 0, rows[r], |rows|, n)
      && RowFull(qs, r, n)
      && Fits(qs, r + 1, rows, n)
  }

  // ----- Placement in progress -----------------------------------------------------------

  /** The span checks that remain once the first `k` cells of row `r` are placed. */
  ghost predicate RestFits(ps: seq<Placed>, r: nat, cursor: nat, k: nat, rows: seq<seq<Span>>, n: nat)
    requires r < |rows| && k <= |rows[r]|
  {
    var qs := LayoutRow(ps, r, cursor, rows[r][k..], n);
    && RowFits(ps, r, cursor, rows[r][k..], |rows|, n)
    && RowFull(qs, r, n)
    && Fits(qs, r + 1, rows, n)
  }

  /** The finished placements once the first `k` cells of row `r` are placed. */
  ghost function RestLayout(ps: seq<Placed>, r: nat, cursor: nat, k: nat, rows: seq<seq<Span>>, n: nat): seq<Placed>
    requires r < |rows| && k <= |rows[r]|
  {
    Layout(LayoutRow(ps, r, cursor, rows[r][k..], n), r + 1, rows, n)
  }

  lemma RestStart(ps: seq<Placed>, r: nat, rows: seq<seq<Span>>, n: nat)
    requires r < |rows|
    ensures RestFits(ps, r, 0, 0, rows, n) <==> Fits(ps, r, rows, n)
    ensures RestLayout(ps, r, 0, 0, rows, n) == Layout(ps, r, rows, n)
  {
    assert rows[r][0..] == rows[r];
  }

  lemma RestStep(ps: seq<Placed>, r: nat, cursor: nat, k: nat, rows: seq<seq<Span>>, n: nat)
    requires r < |rows| && k < |rows[r]| && cursor <= n
    ensures var p := Placed(r, FirstFree(ps, r, cursor, n), rows[r][k]);
      && (RestFits(ps, r, cursor, k, rows, n) <==>
            CellFits(ps, p, |rows|, n) && RestFits(ps + [p], r, p.col + p.span.colSpan, k + 1, rows, n))
      && RestLayout(ps, r, cursor, k, rows, n) == RestLayout(ps + [p], r, p.col + p.span.colSpan, k + 1, rows, n)
  {
    assert rows[r][k..][1..] == rows[r][k + 1..];
  }

  lemma RestEnd(ps: seq<Placed>, r: nat, cursor: nat, rows: seq<seq<Span>>, n: nat)
    requires r < |rows| && cursor <= n
    ensures RestFits(ps, r, cursor, |rows[r]|, rows, n) <==> RowFull(ps, r, n) && Fits(ps, r + 1, rows, n)
    ensures RestLayout(ps, r, cursor, |rows[r]|, rows, n) == Layout(ps, r + 1, rows, n)
  {
    assert rows[r][|rows[r]|..] == [];
  }

  // ----- The occupancy grid --------------------------------------------------------------

  /** The grid marks exactly the slots covered by the placed cells. */
  ghost predicate Marks(grid: array2<bool>, ps: seq<Placed>)
    reads grid
  {
    forall r, c :: 0 <= r < grid.Length0 && 0 <= c < grid.Length1 ==> (grid[r, c] <==> Occupied(ps, r, c))
  }

  method EmptyGrid(rows: nat, n: nat) returns (grid: array2<bool>)
    ensures fresh(grid) && grid.Length0 == rows && grid.Length1 == n && Marks(grid, [])
  {
    grid := new bool[rows, n]((_, _) => false);
  }

  /** Moves the cursor past the occupied slots of a row. */
  method SkipOccupied(grid: array2<bool>, ghost ps: seq<Placed>, r: nat, start: nat) returns (cursor: nat)
    requires Marks(grid, ps) && r < grid.Length0 && start <= grid.Length1
    ensures cursor == FirstFree(ps, r, start, grid.Length1)
  {
    cursor := start;
    while cursor < grid.Length1 && grid[r, cursor]
      invariant cursor <= grid.Length1
      invariant FirstFree(ps, r, start, grid.Length1) == FirstFree(ps, r, cursor, grid.Length1)
    {
      cursor := cursor + 1;
    }
  }

  /** Whether some slot of the rectangle is taken. */
  method AnyOccupied(grid: array2<bool>, rowStart: nat, rowEnd: nat, colStart: nat, colEnd: nat) returns (any: bool)
    requires rowEnd <= grid.Length0 && colEnd <= grid.Length1
    ensures any <==> exists r, c :: rowStart <= r < rowEnd && colStart <= c < colEnd && grid[r, c]
  {
    var r := rowStart;
    while r < rowEnd
      invariant rowStart <= r
      invariant forall s, c :: rowStart <= s < r && s < rowEnd && colStart <= c < colEnd ==> !grid[s, c]
    {
      var c := colStart;
      while c < colEnd
        invariant colStart <= c
        invariant forall d :: colStart <= d < c && d < colEnd ==> !grid[r, d]
      {
        if grid[r, c] {
          return true;
        }
        c := c + 1;
      }
      r := r + 1;
    }
    return false;
  }

  /** Marks the slots of one more cell. */
  method Fill(grid: array2<bool>, ghost ps: seq<Placed>, p: Placed)
    requires Marks(grid, ps) && InGrid(p, grid.Length0, grid.Length1)
    modifies grid
    ensures Marks(grid, ps + [p])
  {
    var r := p.row;
    while r < p.row + p.span.rowSpan
      invariant p.row <= r <= p.row + p.span.rowSpan
      invariant forall s, d :: 0 <= s < grid.Length0 && 0 <= d < grid.Length1 ==>
        (grid[s, d] <==> old(grid[s, d]) || (Covers(p, s, d) && s < r))
    {
      var c := p.col;
      while c < p.col + p.span.colSpan
        invariant p.col <= c <= p.col + p.span.colSpan
        invariant forall s, d :: 0 <= s < grid.Length0 && 0 <= d < grid.Length1 ==>
          (grid[s, d] <==> old(grid[s, d]) || (Covers(p, s, d) && (s < r || (s == r && d < c))))
      {
        grid[r, c] := true;
        c := c + 1;
      }
      r := r + 1;
    }
    forall s, d | 0 <= s < grid.Length0 && 0 <= d < grid.Length1
      ensures grid[s, d] <==> Occupied(ps + [p], s, d)
    {
      OccupiedSnoc(ps, p, s, d);
    }
  }

  /** Whether every slot of a row is taken. */
  method IsRowFull(grid: array2<bool>, ghost ps: seq<Placed>, r: nat) returns (full: bool)
    requires Marks(grid, ps) && r < grid.Length0
    ensures full <==> RowFull(ps, r, grid.Length1)
  {
    var c := 0;
    while c < grid.Length1
      invariant 0 <= c <= grid.Length1
      invariant forall d :: 0 <= d < c ==> grid[r, d]
    {
      if !grid[r, c] {
        return false;
      }
      c := c + 1;
    }
    return true;
  }

  // ----- Row-major exact tilings ---------------------------------------------------------

  function CellsBefore(rows: seq<seq<Span>>, r: nat): nat
    requires r <= |rows|
  {
    if r == 0 then 0 else CellsBefore(rows, r - 1) + |rows[r - 1]|
  }

  /** Placement `i` is anchored in row `r` and has the given span. */
  predicate HoldsCell(ps: seq<Placed>, i: int, r: nat, span: Span) {
    0 <= i < |ps| && ps[i].row == r && ps[i].span == span
  }

  ghost predicate ListsRows(ps: seq<Placed>, rows: seq<seq<Span>>, upTo: nat)
    requires upTo <= |rows|
  {
    forall r: nat, k: nat :: r < upTo && k < |rows[r]| ==>
      HoldsCell(ps, CellsBefore(rows, r) + k, r, rows[r][k])
  }

  /** The cells are those of the specification, in its order, each anchored in its own row. */
  ghost predicate ListsCells(ps: seq<Placed>, rows: seq<seq<Span>>) {
    |ps| == CellsBefore(rows, |rows|) && ListsRows(ps, rows, |rows|)
  }

  ghost predicate RowMajor(ps: seq<Placed>) {
    forall i, j :: 0 <= i < j < |ps| ==>
      ps[i].row < ps[j].row || (ps[i].row == ps[j].row && ps[i].col < ps[j].col)
  }

  ghost predicate Packed(ps: seq<Placed>, rows: nat, n: nat) {
    && (forall i :: 0 <= i < |ps| ==> InGrid(ps[i], rows, n))
    && (forall i, j :: 0 <= i < j < |ps| ==> Disjoint(ps[i], ps[j]))
  }

  /** Inside the grid, pairwise disjoint, and leaving no slot uncovered. */
  ghost predicate ExactTiling(ps: seq<Placed>, rows: nat, n: nat) {
    Packed(ps, rows, n) && forall r, c :: 0 <= r < rows && 0 <= c < n ==> Occupied(ps, r, c)
  }

  lemma CellFitsDisjoint(ps: seq<Placed>, p: Placed, i: nat, rows: nat, n: nat)
    requires Packed(ps, rows, n) && CellFits(ps, p, rows, n) && i < |ps|
    ensures Disjoint(ps[i], p)
  {
    var q := ps[i];
    if !Disjoint(q, p) {
      var r := if q.row < p.row then p.row else q.row;
      var c := if q.col < p.col then p.col else q.col;
      assert Covers(q, r, c) && Covers(p, r, c);
      assert Occupied(ps, r, c);
    }
  }

  lemma PackedSnoc(ps: seq<Placed>, p: Placed, rows: nat, n: nat)
    requires Packed(ps, rows, n) && CellFits(ps, p, rows, n)
    ensures Packed(ps + [p], rows, n)
  {
    forall i | 0 <= i < |ps| ensures Disjoint(ps[i], p) {
      CellFitsDisjoint(ps, p, i, rows, n);
    }
  }

  /** Everything a partly placed row keeps: rows above are done, columns move right. */
  ghost predicate Progress(ps: seq<Placed>, r: nat, cursor: nat, rows: nat, n: nat) {
    && Packed(ps, rows, n) && RowMajor(ps)
    && forall i :: 0 <= i < |ps| ==>
         ps[i].row < r || (ps[i].row == r && ps[i].col + ps[i].span.colSpan <= cursor)
  }

  lemma {:induction false} LayoutRowProgress(ps: seq<Placed>, r: nat, cursor: nat, spans: seq<Span>, rows: nat, n: nat)
    requires Progress(ps, r, cursor, rows, n) && RowFits(ps, r, cursor, spans, rows, n)
    ensures var qs := LayoutRow(ps, r, cursor, spans, n);
      && Packed(qs, rows, n) && RowMajor(qs)
      && |qs| == |ps| + |spans| && qs[..|ps|] == ps
      && (forall i :: |ps| <= i < |qs| ==> qs[i].row == r && qs[i].span == spans[i - |ps|])
      && (forall i :: 0 <= i < |qs| ==> qs[i].row <= r)
    decreases |spans|
  {
    hide Occupied, Covers, Disjoint;
    if spans != [] {
      var c := FirstFree(ps, r, cursor, n);
      var p := Placed(r, c, spans[0]);
      PackedSnoc(ps, p, rows, n);
      LayoutRowProgress(ps + [p], r, c + spans[0].colSpan, spans[1..], rows, n);
      var qs := LayoutRow(ps, r, cursor, spans, n);
      assert qs[..|ps|] == qs[..|ps| + 1][..|ps|];
      forall i | |ps| <= i < |qs| ensures qs[i].row == r && qs[i].span == spans[i - |ps|] {
        if i == |ps| {
          assert qs[i] == qs[..|ps| + 1][i] == p;
        } else {
          assert spans[1..][i - |ps| - 1] == spans[i - |ps|];
        }
      }
    }
  }

  lemma OccupiedMono(ps: seq<Placed>, qs: seq<Placed>, r: int, c: int)
    requires ps <= qs && Occupied(ps, r, c)
    ensures Occupied(qs, r, c)
  {
    var i :| 0 <= i < |ps| && Covers(ps[i], r, c);
    assert Covers(qs[i], r, c);
  }

  ghost predicate RowsPlaced(ps: seq<Placed>, r: nat, rows: seq<seq<Span>>, n: nat)
    requires r <= |rows|
  {
    && Packed(ps, |rows|, n) && RowMajor(ps)
    && |ps| == CellsBefore(rows, r)
    && (forall i :: 0 <= i < |ps| ==> ps[i].row < r)
    && (forall s, c :: 0 <= s < r && 0 <= c < n ==> Occupied(ps, s, c))
    && ListsRows(ps, rows, r)
  }

  lemma {:induction false} CellsBeforeMono(rows: seq<seq<Span>>, a: nat, b: nat)
    requires a < b <= |rows|
    ensures CellsBefore(rows, a) + |rows[a]| <= CellsBefore(rows, b)
    decreases b
  {
    if a < b - 1 {
      CellsBeforeMono(rows, a, b - 1);
    }
  }

  lemma RowPlaced(ps: seq<Placed>, r: nat, rows: seq<seq<Span>>, n: nat)
    requires r < |rows| && RowsPlaced(ps, r, rows, n)
    requires RowFits(ps, r, 0, rows[r], |rows|, n)
    requires RowFull(LayoutRow(ps, r, 0, rows[r], n), r, n)
    ensures RowsPlaced(LayoutRow(ps, r, 0, rows[r], n), r + 1, rows, n)
  {
    LayoutRowProgress(ps, r, 0, rows[r], |rows|, n);
    var qs := LayoutRow(ps, r, 0, rows[r], n);
    assert ps <= qs;
    forall s, c | 0 <= s < r + 1 && 0 <= c < n ensures Occupied(qs, s, c) {
      if s < r {
        OccupiedMono(ps, qs, s, c);
      }
    }
    forall s: nat, k: nat | s < r + 1 && k < |rows[s]|
      ensures HoldsCell(qs, CellsBefore(rows, s) + k, s, rows[s][k])
    {
      assert s < r ==> HoldsCell(ps, CellsBefore(rows, s) + k, s, rows[s][k]);
    }
  }

  lemma {:induction false} LayoutTiles(ps: seq<Placed>, r: nat, rows: seq<seq<Span>>, n: nat)
    requires r <= |rows| && RowsPlaced(ps, r, rows, n) && Fits(ps, r, rows, n)
    ensures RowsPlaced(Layout(ps, r, rows, n), |rows|, rows, n)
    decreases |rows| - r
  {
    if r < |rows| {
      RowPlaced(ps, r, rows, n);
      LayoutTiles(LayoutRow(ps, r, 0, rows[r], n), r + 1, rows, n);
    }
  }

  /** A table that passes the span checks is placed as a row-major exact tiling. */
  lemma FitsImpliesTiling(rows: seq<seq<Span>>, n: nat)
    requires Fits([], 0, rows, n)
    ensures var ps := Layout([], 0, rows, n);
      ExactTiling(ps, |rows|, n) && RowMajor(ps) && ListsCells(ps, rows)
  {
    LayoutTiles([], 0, rows, n);
  }

  /** In any row-major exact tiling the next cell sits at the first free slot. */
  lemma NextCellIsFirstFree(t: seq<Placed>, m: nat, cursor: nat, rows: nat, n: nat)
    requires ExactTiling(t, rows, n) && RowMajor(t) && m < |t|
    requires AtCursor(t, m, cursor, t[m].row, rows, n)
    ensures cursor <= t[m].col < n
    ensures FirstFree(t[..m], t[m].row, cursor, n) == t[m].col
    ensures CellFits(t[..m], t[m], rows, n)
  {
    var r, c := t[m].row, t[m].col;
    forall s, d | Covers(t[m], s, d) ensures !Occupied(t[..m], s, d) {
      forall j | 0 <= j < m ensures !Covers(t[..m][j], s, d) {
        assert Disjoint(t[j], t[m]);
      }
    }
    assert Covers(t[m], r, c);
    if cursor > 0 {
      assert Disjoint(t[m - 1], t[m]);
    }
    forall d | cursor <= d < c ensures Occupied(t[..m], r, d) {
      forall j | m <= j < |t| ensures !Covers(t[j], r, d) {
        assert m == j || t[m].row < t[j].row || (t[m].row == t[j].row && t[m].col < t[j].col);
      }
      assert Occupied(t, r, d);
      var j :| 0 <= j < |t| && Covers(t[j], r, d);
      assert Covers(t[..m][j], r, d);
    }
    FirstFreeIsUnique(t[..m], r, cursor, n, c);
  }

  /** `cursor` is where the placement of row `r` stands after the first `m` cells of `t`. */
  ghost predicate AtCursor(t: seq<Placed>, m: nat, cursor: nat, r: nat, rows: nat, n: nat)
    requires m <= |t|
  {
    && cursor <= n && Progress(t[..m], r, cursor, rows, n)
    && (cursor == 0 || (m > 0 && t[m - 1].row == r && cursor == t[m - 1].col + t[m - 1].span.colSpan))
  }

  ghost predicate ListsRow(t: seq<Placed>, m: nat, r: nat, spans: seq<Span>) {
    && m + |spans| <= |t|
    && forall i {:trigger spans[i]} :: 0 <= i < |spans| ==> HoldsCell(t, m + i, r, spans[i])
  }

  lemma ListsRowTail(t: seq<Placed>, m: nat, r: nat, spans: seq<Span>)
    requires spans != [] && ListsRow(t, m, r, spans)
    ensures HoldsCell(t, m, r, spans[0])
    ensures ListsRow(t, m + 1, r, spans[1..])
  {
    assert HoldsCell(t, m + 0, r, spans[0]);
    forall i | 0 <= i < |spans[1..]| ensures HoldsCell(t, m + 1 + i, r, spans[1..][i]) {
      assert HoldsCell(t, m + (i + 1), r, spans[i + 1]);
    }
  }

  lemma CursorStep(t: seq<Placed>, m: nat, rows: nat, n: nat)
    requires ExactTiling(t, rows, n) && RowMajor(t) && m < |t|
    ensures AtCursor(t, m + 1, t[m].col + t[m].span.colSpan, t[m].row, rows, n)
  {
    forall i | 0 <= i < m + 1
      ensures t[i].row < t[m].row
        || (t[i].row == t[m].row && t[i].col + t[i].span.colSpan <= t[m].col + t[m].span.colSpan)
    {
      if i < m {
        assert Disjoint(t[i], t[m]);
        assert t[i].row < t[m].row || (t[i].row == t[m].row && t[i].col < t[m].col);
      }
    }
  }

  lemma {:induction false} TilingRowFits(t: seq<Placed>, m: nat, cursor: nat, r: nat, spans: seq<Span>, rows: nat,
      n: nat)
    requires ExactTiling(t, rows, n) && RowMajor(t) && ListsRow(t, m, r, spans)
    requires AtCursor(t, m, cursor, r, rows, n)
    ensures RowFits(t[..m], r, cursor, spans, rows, n)
    ensures LayoutRow(t[..m], r, cursor, spans, n) == t[..m + |spans|]
    decreases |spans|
  {
    hide ExactTiling, RowMajor, Progress, CellFits, ListsRow;
    if spans != [] {
      ListsRowTail(t, m, r, spans);
      NextCellIsFirstFree(t, m, cursor, rows, n);
      CursorStep(t, m, rows, n);
      var next := t[m].col + t[m].span.colSpan;
      TilingRowFits(t, m + 1, next, r, spans[1..], rows, n);
      assert t[..m] + [Placed(r, t[m].col, spans[0])] == t[..m + 1];
    }
  }

  lemma TilingFillsRow(t: seq<Placed>, rows: seq<seq<Span>>, r: nat, n: nat)
    requires ExactTiling(t, |rows|, n) && ListsCells(t, rows) && r < |rows| && RowMajor(t)
    requires CellsBefore(rows, r + 1) <= |t|
    ensures RowFull(t[..CellsBefore(rows, r + 1)], r, n)
  {
    var e := CellsBefore(rows, r + 1);
    forall c | 0 <= c < n ensures Occupied(t[..e], r, c) {
      forall j | e <= j < |t| ensures !Covers(t[j], r, c) {
        RowOfIndex(t, rows, r + 1, j);
      }
      assert Occupied(t, r, c);
      var j :| 0 <= j < |t| && Covers(t[j], r, c);
      assert Covers(t[..e][j], r, c);
    }
  }

  lemma {:induction false} RowOfIndex(t: seq<Placed>, rows: seq<seq<Span>>, r: nat, j: nat)
    requires ListsCells(t, rows) && r <= |rows| && CellsBefore(rows, r) <= j < |t|
    ensures t[j].row >= r
    decreases |rows| - r
  {
    if r < |rows| {
      if j < CellsBefore(rows, r + 1) {
        var k := j - CellsBefore(rows, r);
        assert HoldsCell(t, CellsBefore(rows, r) + k, r, rows[r][k]);
      } else {
        RowOfIndex(t, rows, r + 1, j);
      }
    }
  }

  lemma RowIndexBelow(t: seq<Placed>, rows: seq<seq<Span>>, r: nat, j: nat)
    requires ListsCells(t, rows) && r <= |rows| && j < CellsBefore(rows, r) <= |t|
    ensures t[j].row < r
    decreases r
  {
    if j >= CellsBefore(rows, r - 1) {
      var k := j - CellsBefore(rows, r - 1);
      assert HoldsCell(t, CellsBefore(rows, r - 1) + k, r - 1, rows[r - 1][k]);
    } else {
      RowIndexBelow(t, rows, r - 1, j);
    }
  }

  lemma CellsBeforeBound(rows: seq<seq<Span>>, r: nat)
    requires r <= |rows|
    ensures CellsBefore(rows, r) <= CellsBefore(rows, |rows|)
  {
    if r < |rows| {
      CellsBeforeMono(rows, r, |rows|);
    }
  }

  lemma RowsAbove(t: seq<Placed>, rows: seq<seq<Span>>, r: nat, n: nat)
    requires ExactTiling(t, |rows|, n) && RowMajor(t) && ListsCells(t, rows) && r < |rows|
    requires CellsBefore(rows, r + 1) <= |t|
    ensures AtCursor(t, CellsBefore(rows, r), 0, r, |rows|, n)
    ensures ListsRow(t, CellsBefore(rows, r), r, rows[r])
  {
    var m := CellsBefore(rows, r);
    forall i | 0 <= i < m ensures t[i].row < r {
      RowIndexBelow(t, rows, r, i);
    }
  }

  lemma {:induction false} TilingFits(t: seq<Placed>, rows: seq<seq<Span>>, r: nat, n: nat)
    requires ExactTiling(t, |rows|, n) && RowMajor(t) && ListsCells(t, rows) && r <= |rows|
    requires CellsBefore(rows, r) <= |t|
    ensures Fits(t[..CellsBefore(rows, r)], r, rows, n)
    ensures Layout(t[..CellsBefore(rows, r)], r, rows, n) == t
    decreases |rows| - r
  {
    hide ExactTiling, RowMajor, RowFits, RowFull;
    var m := CellsBefore(rows, r);
    if r == |rows| {
      assert t[..m] == t;
    } else {
      CellsBeforeBound(rows, r + 1);
      RowsAbove(t, rows, r, n);
      TilingRowFits(t, m, 0, r, rows[r], |rows|, n);
      TilingFillsRow(t, rows, r, n);
      TilingFits(t, rows, r + 1, n);
    }
  }

  /**
   The validator's span checks accept exactly the tables that have some row-major exact
   tiling with the given spans, and first-fit placement finds it.
   */
  lemma AcceptedIffTileable(rows: seq<seq<Span>>, n: nat)
    ensures Fits([], 0, rows, n) <==>
      exists t :: ExactTiling(t, |rows|, n) && RowMajor(t) && ListsCells(t, rows)
    ensures forall t :: ExactTiling(t, |rows|, n) && RowMajor(t) && ListsCells(t, rows) ==>
      t == Layout([], 0, rows, n)
  {
    if Fits([], 0, rows, n) {
      FitsImpliesTiling(rows, n);
    }
    forall t | ExactTiling(t, |rows|, n) && RowMajor(t) && ListsCells(t, rows)
      ensures Fits([], 0, rows, n) && t == Layout([], 0, rows, n)
    {
      assert t[..0] == [];
      TilingFits(t, rows, 0, n);
    }
  }
}
