/**
 Every table of a document as comma-separated values, in order of appearance, a blank line
 between each two.
 */
module CsvTables {
  import opened HwpModel
  import opened CsvText

  // ----- Cell texts ----------------------------------------------------------------------

  predicate IsSpace(c: char) {
    var v := c as int;
    || 9 <= v <= 13 || v == 0x20 || v == 0x85 || v == 0xA0 || v == 0x1680 || 0x2000 <= v <= 0x200A
    || v == 0x2028 || v == 0x2029 || v == 0x202F || v == 0x205F || v == 0x3000
  }

  /** The twenty-five code points with the Unicode property White_Space. */
  lemma SpaceCodes(c: char)
    ensures IsSpace(c) <==>
      c as int in {0x09, 0x0A, 0x0B, 0x0C, 0x0D, 0x20, 0x85, 0xA0, 0x1680, 0x2000, 0x2001, 0x2002, 0x2003, 0x2004,
                   0x2005, 0x2006, 0x2007, 0x2008, 0x2009, 0x200A, 0x2028, 0x2029, 0x202F, 0x205F, 0x3000}
  {
  }

  function TrimEnd(s: string): string {
    if s != "" && IsSpace(s[|s| - 1]) then TrimEnd(s[..|s| - 1]) else s
  }

  function TrimStart(s: string): string {
    if s != "" && IsSpace(s[0]) then TrimStart(s[1..]) else s
  }

  function TextOf(chars: seq<HwpChar>): string {
    if chars == [] then ""
    else TextOf(chars[..|chars| - 1]) + if chars[|chars| - 1].Text? then [chars[|chars| - 1].c] else ""
  }

  function ParagraphTexts(ps: seq<Paragraph>): string {
    if ps == [] then "" else ParagraphTexts(ps[..|ps| - 1]) + TextOf(ps[|ps| - 1].chars) + " "
  }

  function CellText(cell: Cell): string {
    TrimStart(TrimEnd(ParagraphTexts(cell.paragraphs)))
  }

  /** Trimming the end leaves the part up to the last character that is not space. */
  lemma {:induction false} TrimmedEnd(s: string) returns (k: nat)
    ensures k <= |s| && TrimEnd(s) == s[..k] && (k > 0 ==> !IsSpace(s[k - 1]))
    ensures forall i :: k <= i < |s| ==> IsSpace(s[i])
  {
    hide IsSpace;
    if s != "" && IsSpace(s[|s| - 1]) {
      k := TrimmedEnd(s[..|s| - 1]);
    } else {
      k := |s|;
    }
  }

  /** Trimming the start leaves the part from the first such character on. */
  lemma {:induction false} TrimmedStart(s: string) returns (k: nat)
    ensures k <= |s| && TrimStart(s) == s[k..] && (k < |s| ==> !IsSpace(s[k]))
    ensures forall i :: 0 <= i < k ==> IsSpace(s[i])
  {
    hide IsSpace;
    if s != "" && IsSpace(s[0]) {
      k := TrimmedStart(s[1..]);
      k := k + 1;
      assert forall i :: 1 <= i < k ==> s[i] == s[1..][i - 1];
    } else {
      k := 0;
    }
  }

  /** The text of a cell: what its paragraphs hold, without the space around it. */
  lemma CellTextTrimmed(cell: Cell) returns (from: nat, to: nat)
    ensures var whole := ParagraphTexts(cell.paragraphs);
      && from <= to <= |whole| && CellText(cell) == whole[from..to]
      && (forall i :: 0 <= i < from || to <= i < |whole| ==> IsSpace(whole[i]))
      && (from < to ==> !IsSpace(whole[from]) && !IsSpace(whole[to - 1]))
  {
    hide IsSpace, TrimEnd, TrimStart;
    var whole := ParagraphTexts(cell.paragraphs);
    to := TrimmedEnd(whole);
    from := TrimmedStart(whole[..to]);
    assert forall i :: 0 <= i < from ==> whole[i] == whole[..to][i];
  }

  /** Every text character counts, in its place; every other character counts for nothing. */
  lemma {:induction false} TextOfAt(chars: seq<HwpChar>, i: nat)
    requires i < |chars|
    ensures TextOf(chars) ==
      TextOf(chars[..i]) + (if chars[i].Text? then [chars[i].c] else "") + TextOf(chars[i + 1..])
  {
    var last := |chars| - 1;
    if i < last {
      TextOfAt(chars[..last], i);
      assert chars[..last][..i] == chars[..i] && chars[..last][i + 1..] == chars[i + 1..][..last - i - 1];
    } else {
      assert TextOf(chars[i + 1..]) == "";
    }
  }

  /** Paragraphs follow one another with a space behind each. */
  lemma {:induction false} ParagraphTextsAt(ps: seq<Paragraph>, i: nat)
    requires i < |ps|
    ensures ParagraphTexts(ps) == ParagraphTexts(ps[..i]) + (TextOf(ps[i].chars) + " ") + ParagraphTexts(ps[i + 1..])
  {
    hide TextOf;
    var last := |ps| - 1;
    if i < last {
      ParagraphTextsAt(ps[..last], i);
      assert ps[..last][..i] == ps[..i] && ps[..last][i + 1..] == ps[i + 1..][..last - i - 1];
    } else {
      assert ParagraphTexts(ps[i + 1..]) == "";
    }
  }

  // ----- Grids ---------------------------------------------------------------------------

  /** The larger of one and the number. */
  function AtLeastOne(n: nat): (m: nat)
    ensures m >= 1 && m >= n && (m == 1 || m == n)
  {
    if n == 0 then 1 else n
  }

  /** A row of the grid: each slot holds the last cell stored at its place, or nothing. */
  function GridRow(cells: seq<Cell>, r: nat, cols: nat): (row: seq<string>)
    ensures |row| == cols
  {
    if cells == [] then seq(cols, _ => "")
    else
      var row, cell := GridRow(cells[..|cells| - 1], r, cols), cells[|cells| - 1];
      if cell.row == r && cell.col < cols then row[cell.col := CellText(cell)] else row
  }

  function Grid(t: Table): (rows: seq<seq<string>>)
    ensures |rows| == AtLeastOne(t.rows) && Records(rows)
  {
    seq(AtLeastOne(t.rows), r requires 0 <= r < AtLeastOne(t.rows) => GridRow(t.cells, r, AtLeastOne(t.cols)))
  }

  // ----- Tables in order of appearance ---------------------------------------------------

  function TablesIn(p: Paragraph): seq<Table>
    decreases p
  {
    TablesInControls(p.controls)
  }

  function TablesInControls(controls: seq<Control>): seq<Table>
    decreases controls
  {
    if controls == [] then []
    else TablesInControls(controls[..|controls| - 1]) + TablesInControl(controls[|controls| - 1])
  }

  function TablesInControl(control: Control): seq<Table>
    decreases control
  {
    match control
    case TableControl(t) => [t] + TablesInCells(t.cells)
    case Generic(g) => TablesInLists(g.lists)
    case _ => []
  }

  function TablesInCells(cells: seq<Cell>): seq<Table>
    decreases cells
  {
    if cells == [] then [] else TablesInCells(cells[..|cells| - 1]) + TablesInAll(cells[|cells| - 1].paragraphs)
  }

  function TablesInLists(lists: seq<ParagraphList>): seq<Table>
    decreases lists
  {
    if lists == [] then [] else TablesInLists(lists[..|lists| - 1]) + TablesInAll(lists[|lists| - 1].paragraphs)
  }

  function TablesInAll(ps: seq<Paragraph>): seq<Table>
    decreases ps
  {
    if ps == [] then [] else TablesInAll(ps[..|ps| - 1]) + TablesIn(ps[|ps| - 1])
  }

  function TablesInSections(sections: seq<Section>): seq<Table> {
    if sections == [] then []
    else TablesInSections(sections[..|sections| - 1]) + TablesInAll(sections[|sections| - 1].paragraphs)
  }

  // ----- The whole text ------------------------------------------------------------------

  const BLANK: seq<string> := [""]

  /** The records of the tables, a blank record before every table but the very first. */
  function Stacked(tables: seq<Table>, first: bool): (rows: seq<seq<string>>)
    ensures Records(rows)
  {
    if tables == [] then []
    else
      var front := tables[..|tables| - 1];
      Stacked(front, first) + (if first && front == [] then [] else [BLANK]) + Grid(tables[|tables| - 1])
  }

  lemma {:induction false} StackedConcat(a: seq<Table>, b: seq<Table>, first: bool)
    ensures Stacked(a + b, first) == Stacked(a, first) + Stacked(b, first && a == [])
  {
    hide Grid;
    if b == [] {
      assert a + b == a;
    } else {
      var c, t := b[..|b| - 1], b[|b| - 1];
      assert (a + b)[..|a + b| - 1] == a + c;
      StackedConcat(a, c, first);
      Regrouped(Stacked(a, first), Stacked(c, first && a == []), if first && a + c == [] then [] else [BLANK], Grid(t));
    }
  }

  lemma Regrouped<T>(a: seq<T>, b: seq<T>, c: seq<T>, d: seq<T>)
    ensures (a + b) + c + d == a + (b + c + d)
  {
  }

  lemma {:induction false} LinesConcat(a: seq<seq<string>>, b: seq<seq<string>>)
    requires Records(a) && Records(b)
    ensures Records(a + b) && Lines(a + b) == Lines(a) + Lines(b)
  {
    hide Line, Lines;
    if b == [] {
      NoLines();
      assert a + b == a && Lines(a) + "" == Lines(a);
    } else {
      var c, row := b[..|b| - 1], b[|b| - 1];
      assert a + b == (a + c) + [row] && b == c + [row];
      LinesConcat(a, c);
      LinesSnoc(a + c, row);
      LinesSnoc(c, row);
      assert Lines(a) + Lines(c) + (Line(row) + "\n") == Lines(a) + (Lines(c) + (Line(row) + "\n"));
    }
  }

  lemma LinesSnoc(rows: seq<seq<string>>, row: seq<string>)
    requires Records(rows) && row != []
    ensures Records(rows + [row]) && Lines(rows + [row]) == Lines(rows) + (Line(row) + "\n")
  {
    hide Line;
    assert (rows + [row])[..|rows|] == rows;
  }

  // ----- Reading the tables back ---------------------------------------------------------

  /** The records between blank ones. */
  function Split(rows: seq<seq<string>>): (groups: seq<seq<seq<string>>>)
    ensures groups != []
  {
    if rows == [] then [[]]
    else
      var groups, last := Split(rows[..|rows| - 1]), rows[|rows| - 1];
      if last == BLANK then groups + [[]]
      else groups[..|groups| - 1] + [groups[|groups| - 1] + [last]]
  }

  predicate NoBlank(rows: seq<seq<string>>) {
    forall r :: 0 <= r < |rows| ==> rows[r] != BLANK
  }

  lemma SplitSnoc(rows: seq<seq<string>>, row: seq<string>)
    requires row != BLANK
    ensures var groups := Split(rows);
      Split(rows + [row]) == groups[..|groups| - 1] + [groups[|groups| - 1] + [row]]
  {
    assert (rows + [row])[..|rows|] == rows;
  }

  lemma {:induction false} SplitAppend(rows: seq<seq<string>>, more: seq<seq<string>>)
    requires NoBlank(more)
    ensures var groups := Split(rows);
      Split(rows + more) == groups[..|groups| - 1] + [groups[|groups| - 1] + more]
  {
    hide Split;
    var groups := Split(rows);
    var last := groups[|groups| - 1];
    if more == [] {
      assert rows + more == rows && last + more == last;
    } else {
      var front, row := more[..|more| - 1], more[|more| - 1];
      SplitAppend(rows, front);
      SplitSnoc(rows + front, row);
      assert rows + more == rows + front + [row];
      assert last + more == last + front + [row];
    }
  }

  lemma SplitBlank(rows: seq<seq<string>>)
    ensures Split(rows + [BLANK]) == Split(rows) + [[]]
  {
    assert (rows + [BLANK])[..|rows|] == rows;
  }

  function Grids(tables: seq<Table>): seq<seq<seq<string>>> {
    seq(|tables|, i requires 0 <= i < |tables| => Grid(tables[i]))
  }

  predicate Tellable(tables: seq<Table>) {
    forall i :: 0 <= i < |tables| ==> NoBlank(Grid(tables[i]))
  }

  /** Blank lines tell the tables apart as long as no table has a blank row of its own. */
  lemma {:induction false} SplitStacked(tables: seq<Table>)
    requires tables != [] && Tellable(tables)
    ensures Split(Stacked(tables, true)) == Grids(tables)
  {
    hide Grid, NoBlank, Split;
    var front, t := tables[..|tables| - 1], tables[|tables| - 1];
    assert tables == front + [t];
    assert NoBlank(Grid(tables[|tables| - 1]));
    if front == [] {
      NothingSplit();
      SplitAppend([], Grid(t));
      assert [] + Grid(t) == Grid(t) && Stacked(tables, true) == [] + [] + Grid(t);
      assert Grids(tables) == [Grid(t)];
    } else {
      assert forall i :: 0 <= i < |front| ==> front[i] == tables[i];
      SplitStacked(front);
      SplitBlank(Stacked(front, true));
      SplitAppend(Stacked(front, true) + [BLANK], Grid(t));
      assert [] + Grid(t) == Grid(t);
      assert Grids(tables) == Grids(front) + [Grid(t)];
    }
  }

  lemma NothingSplit()
    ensures Split([]) == [[]]
  {
  }

  lemma {:induction false} SplitCount(rows: seq<seq<string>>)
    ensures |Split(rows)| == 1 + Blanks(rows)
  {
    if rows != [] {
      SplitCount(rows[..|rows| - 1]);
    }
  }

  function Blanks(rows: seq<seq<string>>): nat {
    if rows == [] then 0 else Blanks(rows[..|rows| - 1]) + if rows[|rows| - 1] == BLANK then 1 else 0
  }

  lemma {:induction false} BlanksConcat(a: seq<seq<string>>, b: seq<seq<string>>)
    ensures Blanks(a + b) == Blanks(a) + Blanks(b)
  {
    if b == [] {
      assert a + b == a;
    } else {
      assert (a + b)[..|a + b| - 1] == a + b[..|b| - 1];
      BlanksConcat(a, b[..|b| - 1]);
    }
  }

  lemma {:induction false} BlanksOf(rows: seq<seq<string>>)
    ensures Blanks(rows) == 0 <==> NoBlank(rows)
  {
    if rows != [] {
      BlanksOf(rows[..|rows| - 1]);
      assert forall r :: 0 <= r < |rows| - 1 ==> rows[..|rows| - 1][r] == rows[r];
    }
  }

  /** There are as many blank records as separators, and more when some table has a blank row. */
  lemma {:induction false} StackedBlanks(tables: seq<Table>)
    requires tables != []
    ensures Blanks(Stacked(tables, true)) >= |tables| - 1
    ensures Blanks(Stacked(tables, true)) == |tables| - 1 <==> Tellable(tables)
  {
    hide Grid, NoBlank, Blanks;
    var front, t := tables[..|tables| - 1], tables[|tables| - 1];
    assert tables == front + [t];
    BlanksOf(Grid(t));
    OneBlank();
    if front == [] {
      assert Stacked(tables, true) == [] + [] + Grid(t) == Grid(t);
    } else {
      StackedBlanks(front);
      BlanksConcat(Stacked(front, true) + [BLANK], Grid(t));
      BlanksConcat(Stacked(front, true), [BLANK]);
      TellableSnoc(front, t);
    }
  }

  lemma TellableSnoc(tables: seq<Table>, t: Table)
    ensures Tellable(tables + [t]) <==> Tellable(tables) && NoBlank(Grid(t))
  {
    hide Grid, NoBlank;
    var all := tables + [t];
    if Tellable(all) {
      assert NoBlank(Grid(all[|tables|]));
      forall i | 0 <= i < |tables| ensures NoBlank(Grid(tables[i])) {
        assert NoBlank(Grid(all[i]));
      }
    }
  }

  lemma OneBlank()
    ensures Blanks([BLANK]) == 1 && Blanks([]) == 0
  {
    assert [BLANK][..0] == [];
  }

  /** The tables can be told apart exactly when none of them has a blank row. */
  lemma TablesReadBack(tables: seq<Table>)
    requires tables != []
    ensures Split(Parsed(Lines(Stacked(tables, true)))) == Grids(tables) <==> Tellable(tables)
  {
    hide Grid, NoBlank, Blanks, Stacked, Split, Tellable, Parsed, Lines;
    RoundTrip(Stacked(tables, true));
    SplitCount(Stacked(tables, true));
    StackedBlanks(tables);
    if Tellable(tables) {
      SplitStacked(tables);
    }
  }

  /** One column and one empty row: the table reads as a separator between two empty tables. */
  lemma EmptyColumnIsLost()
    ensures var t := Table(1, 1, [1], 0, 0, []);
      !Tellable([t]) && Grid(t) == [BLANK]
  {
    var t := Table(1, 1, [1], 0, 0, []);
    assert GridRow([], 0, 1) == [""];
    assert Grid(t) == [BLANK];
    assert [t][0] == t && Grid(t)[0] == BLANK;
  }

  // ----- The writer ----------------------------------------------------------------------

  function EscapedRow(row: seq<string>): seq<string> {
    seq(|row|, i requires 0 <= i < |row| => Escaped(row[i]))
  }

  function Joined(parts: seq<string>): string {
    if parts == [] then "" else if |parts| == 1 then parts[0]
    else Joined(parts[..|parts| - 1]) + "," + parts[|parts| - 1]
  }

  lemma {:induction false} JoinedIsLine(row: seq<string>)
    requires row != []
    ensures Joined(EscapedRow(row)) == Line(row)
  {
    hide Escaped;
    if |row| > 1 {
      JoinedIsLine(row[..|row| - 1]);
      assert EscapedRow(row)[..|row| - 1] == EscapedRow(row[..|row| - 1]);
    }
  }

  class CsvWriter {
    var out: string
    var first: bool

    constructor ()
      ensures out == "" && first
    {
      out, first := "", true;
    }

    method WriteRow(cells: seq<Cell>, r: nat, cols: nat)
      requires cols > 0
      modifies this`out
      ensures out == old(out) + Line(GridRow(cells, r, cols)) + "\n"
    {
      hide CellText, Escaped;
      var line := seq(cols, _ => "");
      var i := 0;
      EmptyFields(cols);
      while i < |cells|
        invariant 0 <= i <= |cells| && |line| == cols
        invariant line == EscapedRow(GridRow(cells[..i], r, cols))
      {
        assert cells[..i + 1][..i] == cells[..i];
        ghost var row := GridRow(cells[..i], r, cols);
        if cells[i].row == r && cells[i].col < cols {
          line := line[cells[i].col := Escaped(CellText(cells[i]))];
          assert line == EscapedRow(row[cells[i].col := CellText(cells[i])]);
        }
        i := i + 1;
      }
      assert cells[..i] == cells;
      JoinedIsLine(GridRow(cells, r, cols));
      out := out + Joined(line);
      out := out + "\n";
    }

    /** Writes a table's rows; the tables inside its cells follow it. */
    method WriteTable(t: Table)
      modifies this
      ensures out == old(out) + Lines(Grid(t)) + Lines(Stacked(TablesInCells(t.cells), old(first)))
      ensures first <==> old(first) && TablesInCells(t.cells) == []
      decreases t, 1
    {
      hide GridRow, Line, Stacked;
      var cols, rows := AtLeastOne(t.cols), AtLeastOne(t.rows);
      var r := 0;
      NoLines();
      assert Grid(t)[..0] == [];
      while r < rows
        invariant 0 <= r <= rows && first == old(first)
        invariant Records(Grid(t)[..r]) && out == old(out) + Lines(Grid(t)[..r])
      {
        LinesStep(Grid(t), r);
        WriteRow(t.cells, r, cols);
        r := r + 1;
      }
      assert Grid(t)[..r] == Grid(t);
      WriteCells(t.cells);
    }

    method WriteCells(cells: seq<Cell>)
      modifies this
      ensures out == old(out) + Lines(Stacked(TablesInCells(cells), old(first)))
      ensures first <==> old(first) && TablesInCells(cells) == []
      decreases cells, 0
    {
      hide Stacked, Lines, TablesInAll;
      var i := 0;
      NothingStacked(first);
      assert cells[..0] == [];
      while i < |cells|
        invariant 0 <= i <= |cells|
        invariant out == old(out) + Lines(Stacked(TablesInCells(cells[..i]), old(first)))
        invariant first <==> old(first) && TablesInCells(cells[..i]) == []
      {
        assert cells[..i + 1][..i] == cells[..i];
        More(TablesInCells(cells[..i]), TablesInAll(cells[i].paragraphs), old(first));
        WriteAll(cells[i].paragraphs);
        i := i + 1;
      }
      assert cells[..i] == cells;
    }

    method WriteAll(ps: seq<Paragraph>)
      modifies this
      ensures out == old(out) + Lines(Stacked(TablesInAll(ps), old(first)))
      ensures first <==> old(first) && TablesInAll(ps) == []
      decreases ps, 0
    {
      hide Stacked, Lines, TablesIn;
      var i := 0;
      NothingStacked(first);
      assert ps[..0] == [];
      while i < |ps|
        invariant 0 <= i <= |ps|
        invariant out == old(out) + Lines(Stacked(TablesInAll(ps[..i]), old(first)))
        invariant first <==> old(first) && TablesInAll(ps[..i]) == []
      {
        assert ps[..i + 1][..i] == ps[..i];
        More(TablesInAll(ps[..i]), TablesIn(ps[i]), old(first));
        WriteParaTables(ps[i]);
        i := i + 1;
      }
      assert ps[..i] == ps;
    }

    method WriteParaTables(p: Paragraph)
      modifies this
      ensures out == old(out) + Lines(Stacked(TablesIn(p), old(first)))
      ensures first <==> old(first) && TablesIn(p) == []
      decreases p, 0
    {
      hide Stacked, Lines, TablesInControl;
      var i := 0;
      NothingStacked(first);
      assert p.controls[..0] == [];
      while i < |p.controls|
        invariant 0 <= i <= |p.controls|
        invariant out == old(out) + Lines(Stacked(TablesInControls(p.controls[..i]), old(first)))
        invariant first <==> old(first) && TablesInControls(p.controls[..i]) == []
      {
        assert p.controls[..i + 1][..i] == p.controls[..i];
        More(TablesInControls(p.controls[..i]), TablesInControl(p.controls[i]), old(first));
        WriteControl(p.controls[i]);
        i := i + 1;
      }
      assert p.controls[..i] == p.controls;
    }

    method WriteControl(control: Control)
      modifies this
      ensures out == old(out) + Lines(Stacked(TablesInControl(control), old(first)))
      ensures first <==> old(first) && TablesInControl(control) == []
      decreases control, 0
    {
      hide Stacked, Lines, TablesInCells, TablesInAll, Grid;
      ghost var before, was := out, first;
      NothingStacked(first);
      match control
      case TableControl(t) =>
        TableLines(t, TablesInCells(t.cells), first);
        if !first {
          out := out + "\n";
        }
        first := false;
        WriteTable(t);
      case Generic(g) =>
        var i := 0;
        assert g.lists[..0] == [];
        while i < |g.lists|
          invariant 0 <= i <= |g.lists|
          invariant out == before + Lines(Stacked(TablesInLists(g.lists[..i]), was))
          invariant first <==> was && TablesInLists(g.lists[..i]) == []
        {
          assert g.lists[..i + 1][..i] == g.lists[..i];
          More(TablesInLists(g.lists[..i]), TablesInAll(g.lists[i].paragraphs), was);
          WriteAll(g.lists[i].paragraphs);
          i := i + 1;
        }
        assert g.lists[..i] == g.lists;
      case _ =>
    }
  }

  lemma EmptyFields(cols: nat)
    ensures EscapedRow(seq(cols, _ => "")) == seq(cols, _ => "")
  {
  }

  lemma NoLines()
    ensures Lines([]) == ""
  {
  }

  lemma LinesStep(rows: seq<seq<string>>, r: nat)
    requires Records(rows) && r < |rows|
    ensures Records(rows[..r]) && Records(rows[..r + 1])
    ensures Lines(rows[..r + 1]) == Lines(rows[..r]) + Line(rows[r]) + "\n"
  {
    hide Line;
    assert rows[..r + 1][..r] == rows[..r];
  }

  lemma NothingStacked(first: bool)
    ensures Stacked([], first) == [] && Lines([]) == ""
  {
  }

  lemma More(a: seq<Table>, b: seq<Table>, first: bool)
    ensures Lines(Stacked(a + b, first)) == Lines(Stacked(a, first)) + Lines(Stacked(b, first && a == []))
  {
    hide Stacked, Lines;
    StackedConcat(a, b, first);
    LinesConcat(Stacked(a, first), Stacked(b, first && a == []));
  }

  /** The text of a table with what precedes and follows it. */
  lemma TableLines(t: Table, inner: seq<Table>, first: bool)
    ensures Lines(Stacked([t] + inner, first))
      == (if first then "" else "\n") + Lines(Grid(t)) + Lines(Stacked(inner, false))
  {
    hide Grid, Lines;
    More([t], inner, first);
    assert [t][..0] == [];
    var before := if first then [] else [BLANK];
    assert Stacked([t], first) == [] + before + Grid(t) == before + Grid(t);
    LinesConcat(before, Grid(t));
    BlankLine();
  }

  lemma BlankLine()
    ensures Lines([BLANK]) == "\n" && Lines([]) == ""
  {
    assert [BLANK][..0] == [];
  }

  /** All tables of a document, or the empty text. */
  method ToCsv(doc: Document) returns (text: string)
    ensures text == Lines(Stacked(TablesInSections(doc.sections), true))
  {
    hide Stacked, Lines, TablesInAll;
    var writer := new CsvWriter();
    var i := 0;
    NothingStacked(true);
    assert doc.sections[..0] == [];
    while i < |doc.sections|
      invariant 0 <= i <= |doc.sections| && fresh(writer)
      invariant writer.out == Lines(Stacked(TablesInSections(doc.sections[..i]), true))
      invariant writer.first <==> TablesInSections(doc.sections[..i]) == []
    {
      assert doc.sections[..i + 1][..i] == doc.sections[..i];
      More(TablesInSections(doc.sections[..i]), TablesInAll(doc.sections[i].paragraphs), true);
      writer.WriteAll(doc.sections[i].paragraphs);
      i := i + 1;
    }
    assert doc.sections[..i] == doc.sections;
    return writer.out;
  }
}
