/**
 Measures over an exact tiling: any weight given to the slots of a grid adds up to the same
 total slot by slot and cell by cell. Areas and row widths of a compiled table are two
 instances.
 */
module TableMeasure {
  import opened TableGrid

  /** Sum of `w` over the columns `[lo, hi)` of row `r`. */
  ghost function Segment(w: (int, int) -> int, r: int, lo: int, hi: int): int
    decreases hi - lo
  {
    if lo >= hi then 0 else Segment(w, r, lo, hi - 1) + w(r, hi - 1)
  }

  /** Sum of `w` over the rows `[lo, hi)` of the columns `[c, d)`. */
  ghost function Block(w: (int, int) -> int, lo: int, hi: int, c: int, d: int): int
    decreases hi - lo
  {
    if lo >= hi then 0 else Block(w, lo, hi - 1, c, d) + Segment(w, hi - 1, c, d)
  }

  ghost function CellWeight(w: (int, int) -> int, p: Placed): int {
    Block(w, p.row, p.row + p.span.rowSpan, p.col, p.col + p.span.colSpan)
  }

  ghost function TotalWeight(w: (int, int) -> int, ps: seq<Placed>): int {
    if ps == [] then 0 else TotalWeight(w, ps[..|ps| - 1]) + CellWeight(w, ps[|ps| - 1])
  }

  /** Sum of `w` over the occupied slots among the first `n` of row `r`. */
  ghost function OccupiedRow(w: (int, int) -> int, ps: seq<Placed>, r: int, n: nat): int {
    if n == 0 then 0
    else OccupiedRow(w, ps, r, n - 1) + if Occupied(ps, r, n - 1) then w(r, n - 1) else 0
  }

  ghost function OccupiedGrid(w: (int, int) -> int, ps: seq<Placed>, rows: nat, n: nat): int {
    if rows == 0 then 0 else OccupiedGrid(w, ps, rows - 1, n) + OccupiedRow(w, ps, rows - 1, n)
  }

  function Clamp(x: int, lo: int, hi: int): int {
    if x < lo then lo else if x > hi then hi else x
  }

  ghost predicate Free(ps: seq<Placed>, p: Placed) {
    forall r, c :: Covers(p, r, c) ==> !Occupied(ps, r, c)
  }

  lemma {:induction false} OccupiedRowSnoc(w: (int, int) -> int, ps: seq<Placed>, p: Placed, r: int, n: nat)
    requires Free(ps, p)
    ensures OccupiedRow(w, ps + [p], r, n) == OccupiedRow(w, ps, r, n)
      + if p.row <= r < p.row + p.span.rowSpan
        then Segment(w, r, p.col, Clamp(n, p.col, p.col + p.span.colSpan)) else 0
  {
    if n > 0 {
      OccupiedRowSnoc(w, ps, p, r, n - 1);
      OccupiedSnoc(ps, p, r, n - 1);
      assert Covers(p, r, n - 1) ==> !Occupied(ps, r, n - 1);
    }
  }

  lemma {:induction false} OccupiedGridSnoc(w: (int, int) -> int, ps: seq<Placed>, p: Placed, rows: nat, n: nat)
    requires Free(ps, p) && p.col + p.span.colSpan <= n
    ensures OccupiedGrid(w, ps + [p], rows, n) == OccupiedGrid(w, ps, rows, n)
      + Block(w, p.row, Clamp(rows, p.row, p.row + p.span.rowSpan), p.col, p.col + p.span.colSpan)
  {
    if rows > 0 {
      OccupiedGridSnoc(w, ps, p, rows - 1, n);
      OccupiedRowSnoc(w, ps, p, rows - 1, n);
    }
  }

  lemma PackedLastIsFree(ps: seq<Placed>, rows: nat, n: nat)
    requires ps != [] && Packed(ps, rows, n)
    ensures Packed(ps[..|ps| - 1], rows, n) && Free(ps[..|ps| - 1], ps[|ps| - 1])
  {
    var last := |ps| - 1;
    forall r, c | Covers(ps[last], r, c) ensures !Occupied(ps[..last], r, c) {
      forall i | 0 <= i < last ensures !Covers(ps[..last][i], r, c) {
        assert Disjoint(ps[i], ps[last]);
      }
    }
  }

  lemma {:induction false} WeightOfOccupied(w: (int, int) -> int, ps: seq<Placed>, rows: nat, n: nat)
    requires Packed(ps, rows, n)
    ensures TotalWeight(w, ps) == OccupiedGrid(w, ps, rows, n)
    decreases |ps|
  {
    if ps == [] {
      NothingOccupied(w, rows, n);
    } else {
      var last := |ps| - 1;
      PackedLastIsFree(ps, rows, n);
      WeightOfOccupied(w, ps[..last], rows, n);
      OccupiedGridSnoc(w, ps[..last], ps[last], rows, n);
      assert ps[..last] + [ps[last]] == ps;
      assert InGrid(ps[last], rows, n);
    }
  }

  lemma {:induction false} NothingOccupiedInRow(w: (int, int) -> int, r: int, n: nat)
    ensures OccupiedRow(w, [], r, n) == 0
  {
    if n > 0 {
      NothingOccupiedInRow(w, r, n - 1);
    }
  }

  lemma {:induction false} NothingOccupied(w: (int, int) -> int, rows: nat, n: nat)
    ensures OccupiedGrid(w, [], rows, n) == 0
  {
    if rows > 0 {
      NothingOccupied(w, rows - 1, n);
      NothingOccupiedInRow(w, rows - 1, n);
    }
  }

  lemma {:induction false} FullRow(w: (int, int) -> int, ps: seq<Placed>, r: int, n: nat)
    requires forall c :: 0 <= c < n ==> Occupied(ps, r, c)
    ensures OccupiedRow(w, ps, r, n) == Segment(w, r, 0, n)
  {
    if n > 0 {
      FullRow(w, ps, r, n - 1);
    }
  }

  lemma {:induction false} FullGrid(w: (int, int) -> int, ps: seq<Placed>, rows: nat, n: nat)
    requires forall r, c :: 0 <= r < rows && 0 <= c < n ==> Occupied(ps, r, c)
    ensures OccupiedGrid(w, ps, rows, n) == Block(w, 0, rows, 0, n)
  {
    if rows > 0 {
      FullGrid(w, ps, rows - 1, n);
      FullRow(w, ps, rows - 1, n);
    }
  }

  /** Whatever the slots weigh, the cells of an exact tiling weigh as much as the grid. */
  lemma TilingConservesWeight(w: (int, int) -> int, ps: seq<Placed>, rows: nat, n: nat)
    requires ExactTiling(ps, rows, n)
    ensures TotalWeight(w, ps) == Block(w, 0, rows, 0, n)
  {
    WeightOfOccupied(w, ps, rows, n);
    FullGrid(w, ps, rows, n);
  }

  // ----- Area ----------------------------------------------------------------------------

  ghost function TotalArea(ps: seq<Placed>): int {
    if ps == [] then 0
    else TotalArea(ps[..|ps| - 1]) + ps[|ps| - 1].span.colSpan * ps[|ps| - 1].span.rowSpan
  }

  lemma {:induction false} UnitSegment(r: int, lo: int, hi: int)
    requires lo <= hi
    ensures Segment((_, _) => 1, r, lo, hi) == hi - lo
    decreases hi - lo
  {
    if lo < hi {
      UnitSegment(r, lo, hi - 1);
    }
  }

  lemma {:induction false} UnitBlock(lo: int, hi: int, c: int, d: int)
    requires lo <= hi && c <= d
    ensures Block((_, _) => 1, lo, hi, c, d) == (hi - lo) * (d - c)
    decreases hi - lo
  {
    if lo < hi {
      UnitBlock(lo, hi - 1, c, d);
      UnitSegment(hi - 1, c, d);
      assert (hi - lo) * (d - c) == (hi - 1 - lo) * (d - c) + (d - c);
    }
  }

  lemma {:induction false} UnitWeightIsArea(ps: seq<Placed>)
    ensures TotalWeight((_, _) => 1, ps) == TotalArea(ps)
  {
    if ps != [] {
      var p := ps[|ps| - 1];
      UnitWeightIsArea(ps[..|ps| - 1]);
      UnitBlock(p.row, p.row + p.span.rowSpan, p.col, p.col + p.span.colSpan);
    }
  }

  /** The spans of an exact tiling multiply out to the number of grid slots. */
  lemma TilingArea(ps: seq<Placed>, rows: nat, n: nat)
    requires ExactTiling(ps, rows, n)
    ensures TotalArea(ps) == rows * n
  {
    TilingConservesWeight((_, _) => 1, ps, rows, n);
    UnitWeightIsArea(ps);
    UnitBlock(0, rows, 0, n);
  }

  // ----- Row widths ----------------------------------------------------------------------

  /** Sum of the column widths `[lo, hi)`. */
  function WidthOf(columns: seq<int>, lo: nat, hi: nat): int
    requires hi <= |columns|
    decreases hi
  {
    if lo >= hi then 0 else WidthOf(columns, lo, hi - 1) + columns[hi - 1]
  }

  /** The widths of the cells that cover row `r`, added up. */
  ghost function WidthsAcross(columns: seq<int>, ps: seq<Placed>, r: int): int
    requires forall i :: 0 <= i < |ps| ==> ps[i].col + ps[i].span.colSpan <= |columns|
  {
    if ps == [] then 0
    else
      var p := ps[|ps| - 1];
      WidthsAcross(columns, ps[..|ps| - 1], r)
        + if p.row <= r < p.row + p.span.rowSpan
          then WidthOf(columns, p.col, p.col + p.span.colSpan) else 0
  }

  /** The column widths, counted in row `r` only. */
  ghost function InRow(columns: seq<int>, r: int): (int, int) -> int {
    (s, c) => if s == r && 0 <= c < |columns| then columns[c] else 0
  }

  lemma {:induction false} RowSegment(columns: seq<int>, r: int, s: int, lo: nat, hi: nat)
    requires lo <= hi <= |columns|
    ensures Segment(InRow(columns, r), s, lo, hi) == if s == r then WidthOf(columns, lo, hi) else 0
    decreases hi
  {
    if lo < hi {
      RowSegment(columns, r, s, lo, hi - 1);
    }
  }

  lemma {:induction false} RowBlock(columns: seq<int>, r: int, lo: int, hi: int, c: nat, d: nat)
    requires lo <= hi && c <= d <= |columns|
    ensures Block(InRow(columns, r), lo, hi, c, d) == if lo <= r < hi then WidthOf(columns, c, d) else 0
    decreases hi - lo
  {
    if lo < hi {
      RowBlock(columns, r, lo, hi - 1, c, d);
      RowSegment(columns, r, hi - 1, c, d);
    }
  }

  lemma {:induction false} RowWeightIsWidth(columns: seq<int>, ps: seq<Placed>, r: int)
    requires forall i :: 0 <= i < |ps| ==> ps[i].col + ps[i].span.colSpan <= |columns|
    ensures TotalWeight(InRow(columns, r), ps) == WidthsAcross(columns, ps, r)
  {
    if ps != [] {
      var p := ps[|ps| - 1];
      RowWeightIsWidth(columns, ps[..|ps| - 1], r);
      RowBlock(columns, r, p.row, p.row + p.span.rowSpan, p.col, p.col + p.span.colSpan);
    }
  }

  /** In every row, the cells covering it are together as wide as the table. */
  lemma TilingRowWidths(columns: seq<int>, ps: seq<Placed>, rows: nat, r: nat)
    requires ExactTiling(ps, rows, |columns|) && r < rows
    ensures WidthsAcross(columns, ps, r) == WidthOf(columns, 0, |columns|)
  {
    forall i | 0 <= i < |ps| ensures ps[i].col + ps[i].span.colSpan <= |columns| {
      assert InGrid(ps[i], rows, |columns|);
    }
    TilingConservesWeight(InRow(columns, r), ps, rows, |columns|);
    RowWeightIsWidth(columns, ps, r);
    RowBlock(columns, r, 0, rows, 0, |columns|);
  }
}
