/**
 Finding text in a paragraph, and moving character-shape runs when characters are inserted.
 */
module TextSearch {
  import opened HwpModel
  import PB = ParagraphBuilding

  // ----- Search --------------------------------------------------------------------------

  /** `from` stands at offset `k` of a string. */
  predicate StandsAt(text: string, from: string, k: nat) {
    k + |from| <= |text| && text[k..k + |from|] == from
  }

  /** The first offset of `from`, if any. */
  method FindIn(text: string, from: string) returns (r: Option<nat>)
    ensures r.Some? ==> StandsAt(text, from, r.value) && forall k: nat :: k < r.value ==> !StandsAt(text, from, k)
    ensures r.Some? && text != "" ==> r.value < |text|
    ensures r.None? ==> forall k: nat :: !StandsAt(text, from, k)
  {
    var k := 0;
    while k + |from| <= |text|
      invariant 0 <= k && (from == "" ==> k == 0)
      invariant forall j: nat :: j < k ==> !StandsAt(text, from, j)
    {
      if text[k..k + |from|] == from {
        assert StandsAt(text, from, k);
        return Some(k);
      }
      k := k + 1;
    }
    return None;
  }

  predicate IsText(chars: seq<HwpChar>, i: nat) {
    i < |chars| && chars[i].Text?
  }

  /** The text characters from `i` on spell `from`; there is at least one text character. */
  ghost predicate MatchAt(chars: seq<HwpChar>, from: string, i: nat) {
    && IsText(chars, i) && i + |from| <= |chars|
    && forall j :: i <= j < i + |from| ==> chars[j] == Text(from[j - i])
  }

  /** Characters `i` to `j` are all text, and spell `seg`. */
  ghost predicate Spells(chars: seq<HwpChar>, i: nat, j: nat, seg: string) {
    && i <= j <= |chars| && |seg| == j - i
    && forall k :: i <= k < j ==> chars[k] == Text(seg[k - i])
  }

  lemma MatchIsText(chars: seq<HwpChar>, from: string, k: nat, j: nat)
    requires MatchAt(chars, from, k) && k <= j < k + |from|
    ensures IsText(chars, j)
  {
    assert chars[j] == Text(from[j - k]);
  }

  lemma MatchInSegment(chars: seq<HwpChar>, from: string, i: nat, j: nat, seg: string, k: nat)
    requires Spells(chars, i, j, seg) && i < j && !IsText(chars, j) && k < |seg|
    ensures MatchAt(chars, from, i + k) <==> StandsAt(seg, from, k)
  {
    if MatchAt(chars, from, i + k) {
      if i + k + |from| > j {
        MatchIsText(chars, from, i + k, j);
      }
      assert forall m :: 0 <= m < |from| ==> seg[k + m] == from[m] by {
        forall m | 0 <= m < |from| ensures seg[k + m] == from[m] {
          assert chars[i + k + m] == Text(from[m]) == Text(seg[k + m]);
        }
      }
      assert seg[k..k + |from|] == from;
    }
    if StandsAt(seg, from, k) {
      assert chars[i + k] == Text(seg[k]);
      forall m | i + k <= m < i + k + |from| ensures chars[m] == Text(from[m - (i + k)]) {
        assert seg[m - i] == seg[k..k + |from|][m - i - k];
      }
    }
  }

  /** Where the first match at or behind `start` begins, among the characters and in WCHARs. */
  method FindMatch(chars: seq<HwpChar>, from: string, start: nat) returns (r: Option<(nat, nat)>)
    ensures r.Some? ==>
      && start <= r.value.0 && MatchAt(chars, from, r.value.0)
      && r.value.0 <= |chars| && r.value.1 == WcharLen(chars[..r.value.0])
      && forall k: nat :: start <= k < r.value.0 ==> !MatchAt(chars, from, k)
    ensures r.None? ==> forall k: nat :: start <= k ==> !MatchAt(chars, from, k)
  {
    hide MatchAt, WcharLen;
    var wpos := WcharLen(chars[..if start <= |chars| then start else |chars|]);
    var i := start;
    while i < |chars|
      invariant start <= i && (start <= |chars| ==> i <= |chars| && wpos == WcharLen(chars[..i]))
      invariant forall k: nat :: start <= k < i ==> !MatchAt(chars, from, k)
    {
      if chars[i].Text? {
        var j, seg := Segment(chars, i);
        var found := FindIn(seg, from);
        forall k: nat | k < |seg| ensures MatchAt(chars, from, i + k) <==> StandsAt(seg, from, k) {
          MatchInSegment(chars, from, i, j, seg, k);
        }
        if found.Some? {
          var k := found.value;
          WidthOfText(chars, i, i + k, seg[..k]);
          forall m: nat | start <= m < i + k ensures !MatchAt(chars, from, m) {
            if m >= i {
              assert !StandsAt(seg, from, m - i);
              assert MatchAt(chars, from, i + (m - i)) <==> StandsAt(seg, from, m - i);
            }
          }
          return Some((i + k, wpos + Utf16Length(seg[..k])));
        }
        NotFoundInSegment(chars, from, i, j, seg);
        WidthOfText(chars, i, j, seg);
        wpos := wpos + Utf16Length(seg);
        i := j;
      } else {
        assert chars[..i + 1][..i] == chars[..i];
        NotTextNoMatch(chars, from, i);
        NextWidth(chars, i);
        wpos := wpos + WcharWidth(chars[i]);
        i := i + 1;
      }
    }
    forall k: nat | start <= k ensures !MatchAt(chars, from, k) {
      BeyondNoMatch(chars, from, k);
    }
    return None;
  }

  lemma NextWidth(chars: seq<HwpChar>, i: nat)
    requires i < |chars|
    ensures WcharLen(chars[..i + 1]) == WcharLen(chars[..i]) + WcharWidth(chars[i])
  {
    assert chars[..i + 1][..i] == chars[..i];
  }

  lemma NotTextNoMatch(chars: seq<HwpChar>, from: string, i: nat)
    requires !IsText(chars, i)
    ensures !MatchAt(chars, from, i)
  {
  }

  lemma BeyondNoMatch(chars: seq<HwpChar>, from: string, k: nat)
    ensures k >= |chars| ==> !MatchAt(chars, from, k)
  {
  }

  lemma NotFoundInSegment(chars: seq<HwpChar>, from: string, i: nat, j: nat, seg: string)
    requires Spells(chars, i, j, seg) && i < j && !IsText(chars, j)
    requires forall k: nat :: !StandsAt(seg, from, k)
    ensures forall k: nat :: i <= k < j ==> !MatchAt(chars, from, k)
  {
    forall k: nat | i <= k < j ensures !MatchAt(chars, from, k) {
      MatchInSegment(chars, from, i, j, seg, k - i);
      assert !StandsAt(seg, from, k - i);
    }
  }

  /** The longest stretch of text from `i` on. */
  method Segment(chars: seq<HwpChar>, i: nat) returns (j: nat, seg: string)
    requires IsText(chars, i)
    ensures i < j && Spells(chars, i, j, seg) && !IsText(chars, j)
  {
    j, seg := i, "";
    while j < |chars| && chars[j].Text?
      invariant i <= j <= |chars| && Spells(chars, i, j, seg)
      invariant j == i ==> IsText(chars, j)
    {
      seg := seg + [chars[j].c];
      j := j + 1;
    }
  }

  function Utf16Length(text: string): nat {
    if text == "" then 0
    else Utf16Length(text[..|text| - 1]) + if text[|text| - 1] as int < 0x10000 then 1 else 2
  }

  lemma {:induction false} WidthOfText(chars: seq<HwpChar>, i: nat, j: nat, seg: string)
    requires i <= j <= |chars| && |seg| == j - i
    requires forall k :: i <= k < j ==> chars[k] == Text(seg[k - i])
    ensures WcharLen(chars[..j]) == WcharLen(chars[..i]) + Utf16Length(seg)
    decreases j
  {
    if i < j {
      WidthOfText(chars, i, j - 1, seg[..|seg| - 1]);
      assert chars[..j][..j - 1] == chars[..j - 1];
      assert chars[j - 1] == Text(seg[|seg| - 1]);
    }
  }

  // ----- Runs ----------------------------------------------------------------------------

  /** One run after `removed` WCHARs at `p` have become `inserted`; a run inside the removed part goes. */
  function Moved(run: ShapeRun, p: nat, removed: nat, inserted: nat): Option<ShapeRun> {
    if run.start <= p then Some(run)
    else if run.start >= p + removed then Some(run.(start := run.start - removed + inserted))
    else None
  }

  /** Runs are taken over unless they start where, or show what, the run before them does. */
  function Adjusted(runs: seq<ShapeRun>, p: nat, removed: nat, inserted: nat): seq<ShapeRun> {
    if runs == [] then []
    else
      var out := Adjusted(runs[..|runs| - 1], p, removed, inserted);
      var run := Moved(runs[|runs| - 1], p, removed, inserted);
      if run.None? then out
      else if out != [] && (out[|out| - 1].start == run.value.start || out[|out| - 1].shape == run.value.shape) then out
      else out + [run.value]
  }

  method AdjustRuns(runs: seq<ShapeRun>, p: nat, removed: nat, inserted: nat) returns (out: seq<ShapeRun>)
    ensures out == if Adjusted(runs, p, removed, inserted) == [] then [ShapeRun(0, 0)]
      else Adjusted(runs, p, removed, inserted)
  {
    out := [];
    var i := 0;
    while i < |runs|
      invariant 0 <= i <= |runs| && out == Adjusted(runs[..i], p, removed, inserted)
    {
      assert runs[..i + 1][..i] == runs[..i];
      var run := runs[i];
      i := i + 1;
      var start := run.start;
      if run.start > p {
        if run.start < p + removed {
          continue;
        }
        start := run.start + inserted - removed;
      }
      if out == [] || (out[|out| - 1].start != start && out[|out| - 1].shape != run.shape) {
        out := out + [ShapeRun(start, run.shape)];
      }
    }
    assert runs[..i] == runs;
    if out == [] {
      out := [ShapeRun(0, 0)];
    }
  }

  lemma MovedByInsertion(run: ShapeRun, p: nat, inserted: nat)
    ensures Moved(run, p, 0, inserted) == Some(if run.start <= p then run else run.(start := run.start + inserted))
  {
  }

  lemma AdjustedSnoc(runs: seq<ShapeRun>, run: ShapeRun, p: nat, inserted: nat)
    ensures var out, moved := Adjusted(runs, p, 0, inserted), Moved(run, p, 0, inserted).value;
      Adjusted(runs + [run], p, 0, inserted) ==
        if out != [] && (out[|out| - 1].start == moved.start || out[|out| - 1].shape == moved.shape) then out
          else out + [moved]
  {
    assert (runs + [run])[..|runs|] == runs;
  }

  /**
   After an insertion, every place before it and the inserted places show the shape they are in,
   and every place behind it shows its old shape.
   */
  lemma {:induction false} InsertionKeepsShapes(runs: seq<ShapeRun>, len: nat, p: nat, inserted: nat)
    requires PB.RunsOk(runs, len) && inserted > 0
    ensures var out := Adjusted(runs, p, 0, inserted);
      && PB.RunsOk(out, (if runs[|runs| - 1].start <= p then 0 else inserted) + runs[|runs| - 1].start)
      && (forall pos: nat :: pos <= p + inserted ==>
        PB.ShapeAt(out, pos) == PB.ShapeAt(runs, if pos <= p then pos else p))
      && (forall pos: nat :: pos >= p ==> PB.ShapeAt(out, pos + inserted) == PB.ShapeAt(runs, pos))
  {
    hide Adjusted, PB.ShapeAt;
    var front, last := runs[..|runs| - 1], runs[|runs| - 1];
    assert runs == front + [last];
    if front == [] {
      assert runs == [last];
      OnlyRun(last, p, inserted);
    } else {
      assert forall i :: 0 <= i < |front| ==> front[i] == runs[i];
      InsertionKeepsShapes(front, front[|front| - 1].start, p, inserted);
      OneRunMore(front, last, p, inserted);
    }
  }

  lemma OnlyRun(run: ShapeRun, p: nat, inserted: nat)
    requires run.start == 0
    ensures Adjusted([run], p, 0, inserted) == [run]
    ensures forall pos: nat :: PB.ShapeAt([run], pos) == run.shape
  {
    assert [run][..0] == [];
    assert Adjusted([], p, 0, inserted) == [];
    assert Adjusted([run], p, 0, inserted) == [] + [run];
  }

  lemma OneRunMore(front: seq<ShapeRun>, last: ShapeRun, p: nat, inserted: nat)
    requires front != [] && front[0].start == 0 && front[|front| - 1].start < last.start && inserted > 0
    requires var out := Adjusted(front, p, 0, inserted);
      && PB.RunsOk(out, (if front[|front| - 1].start <= p then 0 else inserted) + front[|front| - 1].start)
      && (forall pos: nat :: pos <= p + inserted ==>
        PB.ShapeAt(out, pos) == PB.ShapeAt(front, if pos <= p then pos else p))
      && (forall pos: nat :: pos >= p ==> PB.ShapeAt(out, pos + inserted) == PB.ShapeAt(front, pos))
    ensures var out, runs := Adjusted(front + [last], p, 0, inserted), front + [last];
      && PB.RunsOk(out, (if last.start <= p then 0 else inserted) + last.start)
      && (forall pos: nat :: pos <= p + inserted ==>
        PB.ShapeAt(out, pos) == PB.ShapeAt(runs, if pos <= p then pos else p))
      && (forall pos: nat :: pos >= p ==> PB.ShapeAt(out, pos + inserted) == PB.ShapeAt(runs, pos))
  {
    hide Adjusted, PB.ShapeAt;
    AdjustedSnoc(front, last, p, inserted);
    MovedByInsertion(last, p, inserted);
    var out := Adjusted(front, p, 0, inserted);
    var moved := Moved(last, p, 0, inserted).value;
    forall pos: nat
      ensures PB.ShapeAt(front + [last], pos) == if last.start <= pos then last.shape else PB.ShapeAt(front, pos)
    {
      PB.ShapeAtSnoc(front, last, pos);
    }
    forall pos: nat ensures ShapeWith(out, moved, pos) {
      if out[|out| - 1].shape == moved.shape && pos >= moved.start {
        LastShape(out, pos);
      }
      PB.ShapeAtSnoc(out, moved, pos);
    }
    forall pos: nat
      ensures PB.ShapeAt(Adjusted(front + [last], p, 0, inserted), pos) ==
        if moved.start <= pos then last.shape else PB.ShapeAt(out, pos)
    {
      assert ShapeWith(out, moved, pos);
    }
  }

  /** Adding a run, or leaving it out because its shape is already shown, comes to the same. */
  ghost predicate ShapeWith(out: seq<ShapeRun>, run: ShapeRun, pos: nat)
    requires out != [] && out[0].start == 0
  {
    var shape := if run.start <= pos then run.shape else PB.ShapeAt(out, pos);
    && PB.ShapeAt(out + [run], pos) == shape
    && (out[|out| - 1].shape == run.shape ==> PB.ShapeAt(out, pos) == shape)
  }

  lemma LastShape(runs: seq<ShapeRun>, pos: nat)
    requires runs != [] && runs[0].start == 0 && pos >= runs[|runs| - 1].start
    ensures PB.ShapeAt(runs, pos) == runs[|runs| - 1].shape
  {
  }
}
