/**
 Resolving an address: to a paragraph, or to a range of one of its character-shape runs, with
 an optional checksum that must still match.
 */
module AddressResolution {
  import opened HwpModel
  import opened Addressing
  import PB = ParagraphBuilding

  // ----- Canonical runs ------------------------------------------------------------------

  /** The runs without repeated shapes, the last of several runs at one place counting. */
  function Canonical(runs: seq<ShapeRun>): seq<ShapeRun> {
    if runs == [] then []
    else
      var last := runs[|runs| - 1];
      PB.WithShape(Canonical(runs[..|runs| - 1]), last.start, last.shape)
  }

  method CanonicalRuns(p: Paragraph) returns (out: seq<ShapeRun>)
    ensures out == Canonical(p.runs)
  {
    out := [];
    var i := 0;
    while i < |p.runs|
      invariant 0 <= i <= |p.runs| && out == Canonical(p.runs[..i])
    {
      var at, shape := p.runs[i].start, p.runs[i].shape;
      assert p.runs[..i + 1][..i] == p.runs[..i];
      i := i + 1;
      if out != [] && out[|out| - 1].shape == shape {
        continue;
      }
      if out != [] && out[|out| - 1].start == at {
        out := out[|out| - 1 := ShapeRun(at, shape)];
        assert out == out[..|out| - 1] + [ShapeRun(at, shape)];
      } else {
        out := out + [ShapeRun(at, shape)];
      }
    }
    assert p.runs[..i] == p.runs;
  }

  /** Runs as readers store them: from the start of the text, never going back. */
  predicate Stored(runs: seq<ShapeRun>) {
    && runs != [] && runs[0].start == 0
    && forall i, j :: 0 <= i < j < |runs| ==> runs[i].start <= runs[j].start
  }

  /** Canonical runs move strictly forward and show every place in the same shape. */
  lemma {:induction false} CanonicalShows(runs: seq<ShapeRun>)
    requires Stored(runs)
    ensures PB.RunsOk(Canonical(runs), runs[|runs| - 1].start)
    ensures forall pos: nat :: PB.ShapeAt(Canonical(runs), pos) == PB.ShapeAt(runs, pos)
  {
    var front, last := runs[..|runs| - 1], runs[|runs| - 1];
    if front == [] {
      assert Canonical(front) == [];
      assert Canonical(runs) == [] + [ShapeRun(0, last.shape)];
    } else {
      assert forall i :: 0 <= i < |front| ==> front[i] == runs[i];
      CanonicalShows(front);
      PB.WithShapeKeeps(Canonical(front), last.start, last.shape);
    }
  }

  predicate NoRepeats(runs: seq<ShapeRun>) {
    forall i :: 0 <= i < |runs| - 1 ==> runs[i].shape != runs[i + 1].shape
  }

  lemma WithShapeLength(runs: seq<ShapeRun>, position: nat, shape: nat)
    ensures |PB.WithShape(runs, position, shape)| <= |runs| + 1
    ensures |PB.WithShape(runs, position, shape)| == |runs| + 1 ==>
      && PB.WithShape(runs, position, shape) == runs + [ShapeRun(position, shape)]
      && (runs != [] ==> runs[|runs| - 1].shape != shape)
  {
  }

  lemma NoRepeatsSnoc(runs: seq<ShapeRun>, run: ShapeRun)
    requires NoRepeats(runs) && (runs != [] ==> runs[|runs| - 1].shape != run.shape)
    ensures NoRepeats(runs + [run])
  {
  }

  lemma {:induction false} CanonicalShrinks(runs: seq<ShapeRun>)
    ensures |Canonical(runs)| <= |runs|
    ensures |Canonical(runs)| == |runs| ==> Canonical(runs) == runs && NoRepeats(runs)
  {
    if runs != [] {
      var front, last := runs[..|runs| - 1], runs[|runs| - 1];
      CanonicalShrinks(front);
      hide NoRepeats;
      WithShapeLength(Canonical(front), last.start, last.shape);
      if |Canonical(runs)| == |runs| {
        assert runs == front + [last];
        NoRepeatsSnoc(front, last);
      }
    }
  }

  lemma {:induction false} CanonicalOfSteady(runs: seq<ShapeRun>, len: nat)
    requires PB.RunsOk(runs, len) && NoRepeats(runs)
    ensures Canonical(runs) == runs
  {
    var front, last := runs[..|runs| - 1], runs[|runs| - 1];
    assert runs == front + [last];
    if front == [] {
      assert Canonical(front) == [];
    } else {
      assert forall i :: 0 <= i < |front| ==> front[i] == runs[i];
      CanonicalOfSteady(front, front[|front| - 1].start);
    }
  }

  // ----- When canonical runs are canonical -----------------------------------------------

  /** The text is shown in another shape from `pos` on. */
  predicate Changes(runs: seq<ShapeRun>, pos: nat)
    requires Stored(runs) && pos > 0
  {
    PB.ShapeAt(runs, pos) != PB.ShapeAt(runs, pos - 1)
  }

  /** A stored run at `pos` asks for another shape than the one in force just before it. */
  predicate Opens(runs: seq<ShapeRun>, i: nat, pos: nat)
    requires Stored(runs) && i < |runs| && pos > 0
  {
    runs[i].start == pos && runs[i].shape != PB.ShapeAt(runs, pos - 1)
  }

  ghost predicate Opened(runs: seq<ShapeRun>, pos: nat)
    requires Stored(runs) && pos > 0
  {
    exists i: nat :: i < |runs| && Opens(runs, i, pos)
  }

  ghost predicate StartsAt(runs: seq<ShapeRun>, pos: nat) {
    exists j: nat :: j < |runs| && runs[j].start == pos
  }

  /** No place is given a new shape and then overwritten with the shape in force before it. */
  predicate NeverReverts(runs: seq<ShapeRun>)
    requires Stored(runs)
  {
    forall i :: 0 <= i < |runs| && runs[i].start > 0 ==>
      runs[i].shape != PB.ShapeAt(runs, runs[i].start - 1) ==> Changes(runs, runs[i].start)
  }

  lemma StoredFront(runs: seq<ShapeRun>)
    requires Stored(runs) && |runs| > 1
    ensures var front, last := runs[..|runs| - 1], runs[|runs| - 1];
      Stored(front) && runs == front + [last] && front[|front| - 1].start <= last.start
  {
  }

  lemma OpenedSnoc(front: seq<ShapeRun>, last: ShapeRun, pos: nat)
    requires Stored(front) && Stored(front + [last]) && 0 < pos <= last.start
    ensures Opened(front + [last], pos) <==>
      Opened(front, pos) || (last.start == pos && last.shape != PB.ShapeAt(front, pos - 1))
  {
    hide PB.ShapeAt;
    var runs := front + [last];
    PB.ShapeAtSnoc(front, last, pos - 1);
    if Opened(front, pos) {
      var i: nat :| i < |front| && Opens(front, i, pos);
      assert Opens(runs, i, pos);
    }
    if last.start == pos && last.shape != PB.ShapeAt(front, pos - 1) {
      assert Opens(runs, |front|, pos);
    }
    if Opened(runs, pos) {
      var i: nat :| i < |runs| && Opens(runs, i, pos);
      assert i < |front| ==> Opens(front, i, pos);
    }
  }

  lemma StartsAtSnoc(runs: seq<ShapeRun>, run: ShapeRun, pos: nat)
    ensures StartsAt(runs + [run], pos) <==> StartsAt(runs, pos) || run.start == pos
  {
    var all := runs + [run];
    if StartsAt(runs, pos) {
      var j: nat :| j < |runs| && runs[j].start == pos;
      assert all[j].start == pos;
    }
    if run.start == pos {
      assert all[|runs|].start == pos;
    }
  }

  /** One more stored run: the canonical runs start anew where it opens a shape. */
  lemma StartsWithShape(runs: seq<ShapeRun>, at: nat, shape: nat, pos: nat)
    requires PB.RunsOk(runs, at) && Stored(runs) && pos > 0
    ensures StartsAt(PB.WithShape(runs, at, shape), pos) <==>
      StartsAt(runs, pos) || (at == pos && shape != PB.ShapeAt(runs, pos - 1))
  {
    hide StartsAt, Stored;
    var front, last := runs[..|runs| - 1], runs[|runs| - 1];
    assert runs == front + [last];
    StartsAtSnoc(front, last, pos);
    StartsAtSnoc(front, ShapeRun(at, shape), pos);
    StartsAtSnoc(runs, ShapeRun(at, shape), pos);
  }

  lemma {:induction false} StartsWhereOpened(runs: seq<ShapeRun>, pos: nat)
    requires Stored(runs) && pos > 0
    ensures StartsAt(Canonical(runs), pos) <==> Opened(runs, pos)
  {
    hide PB.ShapeAt;
    var front, last := runs[..|runs| - 1], runs[|runs| - 1];
    if front == [] {
      assert Canonical(front) == [];
      assert Canonical(runs) == [] + [ShapeRun(0, last.shape)];
    } else {
      StoredFront(runs);
      CanonicalShows(front);
      CanonicalStored(front);
      StartsWhereOpened(front, pos);
      StartsWithShape(Canonical(front), last.start, last.shape, pos);
      if pos <= last.start {
        OpenedSnoc(front, last, pos);
      }
    }
  }

  lemma CanonicalStored(runs: seq<ShapeRun>)
    requires Stored(runs)
    ensures Stored(Canonical(runs))
  {
    CanonicalShows(runs);
  }

  lemma StartChanges(runs: seq<ShapeRun>, len: nat, j: nat)
    requires PB.RunsOk(runs, len) && Stored(runs) && 0 < j < |runs|
    ensures runs[j].start > 0
    ensures Changes(runs, runs[j].start) <==> runs[j - 1].shape != runs[j].shape
  {
    hide PB.ShapeAt;
    assert runs[j - 1].start < runs[j].start;
    assert j + 1 < |runs| ==> runs[j].start < runs[j + 1].start;
    ShapeInRun(runs, len, j, runs[j].start);
    ShapeInRun(runs, len, j - 1, runs[j].start - 1);
  }

  /** Neighbours differ exactly when every start changes the shape shown. */
  lemma NoRepeatsShown(runs: seq<ShapeRun>, len: nat)
    requires PB.RunsOk(runs, len) && Stored(runs)
    ensures NoRepeats(runs) <==> forall pos: nat :: pos > 0 && StartsAt(runs, pos) ==> Changes(runs, pos)
  {
    hide Changes, Stored;
    if NoRepeats(runs) {
      forall pos: nat | pos > 0 && StartsAt(runs, pos) ensures Changes(runs, pos) {
        var j: nat :| j < |runs| && runs[j].start == pos;
        StartChanges(runs, len, j);
        assert runs[j - 1].shape != runs[j - 1 + 1].shape;
      }
    }
    if forall pos: nat :: pos > 0 && StartsAt(runs, pos) ==> Changes(runs, pos) {
      forall i | 0 <= i < |runs| - 1 ensures runs[i].shape != runs[i + 1].shape {
        StartChanges(runs, len, i + 1);
        assert StartsAt(runs, runs[i + 1].start);
      }
    }
  }

  lemma CanonicalChanges(runs: seq<ShapeRun>, pos: nat)
    requires Stored(runs) && pos > 0
    ensures Stored(Canonical(runs))
    ensures Changes(Canonical(runs), pos) <==> Changes(runs, pos)
  {
    hide Canonical, PB.RunsOk, PB.ShapeAt;
    CanonicalStored(runs);
    CanonicalShows(runs);
  }

  /**
   Canonical runs repeat no shape exactly when no stored place is given a new shape and then
   overwritten with the shape in force before it.
   */
  lemma CanonicalRepeats(runs: seq<ShapeRun>)
    requires Stored(runs)
    ensures NoRepeats(Canonical(runs)) <==> NeverReverts(runs)
  {
    hide Canonical, NoRepeats, StartsAt, Changes;
    CanonicalStored(runs);
    CanonicalShows(runs);
    NoRepeatsShown(Canonical(runs), runs[|runs| - 1].start);
    forall pos: nat | pos > 0 && NeverReverts(runs) && StartsAt(Canonical(runs), pos)
      ensures Changes(Canonical(runs), pos)
    {
      StartsWhereOpened(runs, pos);
      CanonicalChanges(runs, pos);
      var i: nat :| i < |runs| && Opens(runs, i, pos);
    }
    if NoRepeats(Canonical(runs)) {
      forall i | 0 <= i < |runs| && runs[i].start > 0 && runs[i].shape != PB.ShapeAt(runs, runs[i].start - 1)
        ensures Changes(runs, runs[i].start)
      {
        assert Opens(runs, i, runs[i].start);
        StartsWhereOpened(runs, runs[i].start);
        CanonicalChanges(runs, runs[i].start);
      }
    }
  }

  /** Making runs canonical once more changes them exactly when some stored place reverts. */
  lemma CanonicalTwice(runs: seq<ShapeRun>)
    requires Stored(runs)
    ensures Canonical(Canonical(runs)) == Canonical(runs) <==> NeverReverts(runs)
  {
    CanonicalShows(runs);
    CanonicalRepeats(runs);
    CanonicalShrinks(Canonical(runs));
    if NoRepeats(Canonical(runs)) {
      CanonicalOfSteady(Canonical(runs), runs[|runs| - 1].start);
    }
  }

  /** A run that is overwritten with the shape before it leaves a repeated shape behind. */
  lemma CanonicalNotIdempotent()
    ensures var runs := [ShapeRun(0, 1), ShapeRun(5, 2), ShapeRun(5, 1)];
      && Stored(runs) && !NeverReverts(runs)
      && Canonical(runs) == [ShapeRun(0, 1), ShapeRun(5, 1)] && Canonical(Canonical(runs)) == [ShapeRun(0, 1)]
  {
    var a, b, c := ShapeRun(0, 1), ShapeRun(5, 2), ShapeRun(5, 1);
    assert [a, b, c][..2] == [a, b] && [a, b][..1] == [a] && [a, c][..1] == [a] && [a][..0] == [];
    assert Canonical([]) == [];
    assert Canonical([a]) == [a];
    assert Canonical([a, b]) == [a, b];
    assert Canonical([a, b, c]) == [a, c];
    assert Canonical([a, c]) == [a];
    CanonicalTwice([a, b, c]);
  }

  // ----- Resolution ----------------------------------------------------------------------

  datatype Granularity = ParagraphLevel | RunLevel

  datatype Address = Address(section: nat, indices: seq<nat>, checksum: Option<string>, chars: Option<(nat, nat)>)

  datatype TargetKind = ParagraphTarget | RunTarget(index: nat, start: nat, end: nat)

  datatype ResolveError = NoSuchPath | NoSuchRun | StaleChecksum | CharsOutOfRange

  datatype Resolution = Resolved(path: SegmentPath, kind: TargetKind, beforeId: string)
    | Unresolved(error: ResolveError)

  /** How ids are derived from what a path leads to. */
  datatype Ids = Ids(paragraph: (SegmentPath, Paragraph) -> string, run: (SegmentPath, Paragraph, nat) -> string)

  /** An id up to its first dot. */
  function ChecksumOf(id: string): (checksum: string)
    ensures checksum <= id && '.' !in checksum
    ensures checksum == id || id[|checksum|] == '.'
  {
    if id == "" || id[0] == '.' then "" else [id[0]] + ChecksumOf(id[1..])
  }

  predicate ChecksumOk(expected: Option<string>, id: string) {
    expected.Some? ==> ChecksumOf(id) == expected.value
  }

  /** The path of the paragraph: all indices, or all but the last one, which then is that of a run. */
  function PathOf(addr: Address, want: Granularity): (path: SegmentPath)
    ensures path.section == addr.section
    ensures want == RunLevel && addr.indices != [] ==>
      path.indices + [addr.indices[|addr.indices| - 1]] == addr.indices
    ensures want == ParagraphLevel || addr.indices == [] ==> path.indices == addr.indices
  {
    var n := |addr.indices|;
    SegmentPath(addr.section, if want == ParagraphLevel || n == 0 then addr.indices else addr.indices[..n - 1])
  }

  /** Where a run ends: at the start of the next one, the last one at the end of the text. */
  function RunEnd(runs: seq<ShapeRun>, index: nat, length: nat): nat {
    if index + 1 < |runs| then runs[index + 1].start else length
  }

  predicate InRun(runs: seq<ShapeRun>, index: nat, length: nat, pos: nat)
    requires index < |runs|
  {
    runs[index].start <= pos < RunEnd(runs, index, length)
  }

  /** The runs divide up the text: a position is in one run if it is in the text, and in none if it is not. */
  lemma RunsDivideText(runs: seq<ShapeRun>, length: nat, pos: nat)
    requires PB.RunsOk(runs, length)
    ensures pos < length <==> exists i: nat :: i < |runs| && InRun(runs, i, length, pos)
    ensures forall i: nat, j: nat :: i < j < |runs| ==> !(InRun(runs, i, length, pos) && InRun(runs, j, length, pos))
  {
    if pos < length {
      var i := |runs| - 1;
      while runs[i].start > pos
        invariant 0 <= i < |runs| && (i + 1 < |runs| ==> pos < runs[i + 1].start)
      {
        i := i - 1;
      }
      assert InRun(runs, i, length, pos);
    }
    if exists i: nat :: i < |runs| && InRun(runs, i, length, pos) {
      var i: nat :| i < |runs| && InRun(runs, i, length, pos);
      assert i + 1 < |runs| ==> runs[i + 1].start <= runs[|runs| - 1].start;
    }
    forall i: nat, j: nat | i < j < |runs|
      ensures !(InRun(runs, i, length, pos) && InRun(runs, j, length, pos))
    {
      assert i + 1 == j || runs[i + 1].start < runs[j].start;
    }
  }

  method Resolve(doc: Document, addr: Address, want: Granularity, ids: Ids) returns (r: Resolution)
    ensures r == Unresolved(NoSuchPath) <==> ParagraphAt(doc, PathOf(addr, want)).None?
    ensures r != Unresolved(NoSuchPath) && want == ParagraphLevel ==>
      var id := ids.paragraph(PathOf(addr, want), ParagraphAt(doc, PathOf(addr, want)).value);
      r == if ChecksumOk(addr.checksum, id) then Resolved(PathOf(addr, want), ParagraphTarget, id)
        else Unresolved(StaleChecksum)
    ensures r != Unresolved(NoSuchPath) && want == RunLevel ==>
      var p, index := ParagraphAt(doc, PathOf(addr, want)).value, addr.indices[|addr.indices| - 1];
      var runs := Canonical(p.runs);
      && (r == Unresolved(NoSuchRun) <==> index >= |runs|)
      && (r == Unresolved(StaleChecksum) <==>
        index < |runs| && !ChecksumOk(addr.checksum, ids.run(PathOf(addr, want), p, index)))
      && (r == Unresolved(CharsOutOfRange) <==>
            && index < |runs| && ChecksumOk(addr.checksum, ids.run(PathOf(addr, want), p, index)) && addr.chars.Some?
            && !(runs[index].start <= addr.chars.value.0 < addr.chars.value.1
                   <= RunEnd(runs, index, WcharLen(p.chars))))
    ensures r.Resolved? ==>
      && r.path == PathOf(addr, want) && ParagraphAt(doc, r.path).Some?
      && ChecksumOk(addr.checksum, r.beforeId)
      && (want == ParagraphLevel ==> r.kind == ParagraphTarget)
    ensures r.Resolved? && want == RunLevel ==>
      var p := ParagraphAt(doc, r.path).value;
      var runs := Canonical(p.runs);
      && r.kind.RunTarget? && r.kind.index == addr.indices[|addr.indices| - 1] < |runs|
      && r.beforeId == ids.run(r.path, p, r.kind.index)
      && (var start, end := runs[r.kind.index].start, RunEnd(runs, r.kind.index, WcharLen(p.chars));
          if addr.chars.None? then r.kind.start == start && r.kind.end == end
          else (r.kind.start, r.kind.end) == addr.chars.value && start <= r.kind.start < r.kind.end <= end)
  {
    hide ParagraphAt, Canonical, WcharLen;
    var path := PathOf(addr, want);
    if path.indices == [] {
      NoEmptyPath(doc, path);
      return Unresolved(NoSuchPath);
    }
    var found := Descend(doc, path.section, path.indices);
    if found.None? {
      return Unresolved(NoSuchPath);
    }
    var paragraph := found.value;
    if want == ParagraphLevel {
      var id := ids.paragraph(path, paragraph);
      if addr.checksum.Some? && ChecksumOf(id) != addr.checksum.value {
        return Unresolved(StaleChecksum);
      }
      return Resolved(path, ParagraphTarget, id);
    }
    var index := addr.indices[|addr.indices| - 1];
    var runs := CanonicalRuns(paragraph);
    if index >= |runs| {
      return Unresolved(NoSuchRun);
    }
    var start, end := runs[index].start, RunEnd(runs, index, WcharLen(paragraph.chars));
    var id := ids.run(path, paragraph, index);
    if addr.checksum.Some? && ChecksumOf(id) != addr.checksum.value {
      return Unresolved(StaleChecksum);
    }
    if addr.chars.Some? {
      var (s, e) := addr.chars.value;
      if s < start || e > end || s >= e {
        return Unresolved(CharsOutOfRange);
      }
      start, end := s, e;
    }
    return Resolved(path, RunTarget(index, start, end), id);
  }

  lemma NoEmptyPath(doc: Document, path: SegmentPath)
    requires path.indices == []
    ensures ParagraphAt(doc, path).None?
  {
  }

  lemma {:induction false} ShapeInRun(runs: seq<ShapeRun>, len: nat, i: nat, pos: nat)
    requires PB.RunsOk(runs, len) && i < |runs| && runs[i].start <= pos
    requires i + 1 < |runs| ==> pos < runs[i + 1].start
    ensures PB.ShapeAt(runs, pos) == runs[i].shape
  {
    var front := runs[..|runs| - 1];
    if i < |runs| - 1 {
      assert forall j :: 0 <= j < |front| ==> front[j] == runs[j];
      assert runs[i + 1].start <= runs[|runs| - 1].start;
      ShapeInRun(front, front[|front| - 1].start, i, pos);
    }
  }

  /** Every place of a resolved run is shown in the one shape of that run. */
  lemma RunIsUniform(p: Paragraph, index: nat, pos: nat)
    requires Stored(p.runs) && index < |Canonical(p.runs)|
    requires Canonical(p.runs)[index].start <= pos < RunEnd(Canonical(p.runs), index, WcharLen(p.chars))
    ensures PB.ShapeAt(p.runs, pos) == Canonical(p.runs)[index].shape
  {
    hide Canonical, WcharLen, PB.ShapeAt, PB.RunsOk;
    CanonicalShows(p.runs);
    ShapeInRun(Canonical(p.runs), p.runs[|p.runs| - 1].start, index, pos);
  }
}
