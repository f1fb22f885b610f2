/**
 PNG row filters (section 9 of the W3C PNG specification, section 6 of RFC 2083): two
 decoders that undo them, one row by row, one in a single buffer.
 */
module PngFilters {
  import opened HwpModel
  import opened Utf16
  import opened FlatGrid

  function Abs(x: int): (a: nat)
    ensures a == x || a == -x
  {
    if x < 0 then -x else x
  }

  /** The neighbour closest to `left + up - upperLeft`, in that order of preference. */
  function Paeth(left: int, up: int, upperLeft: int): (p: int)
    ensures p in {left, up, upperLeft}
    ensures var e := left + up - upperLeft;
      && Abs(e - p) <= Abs(e - left) && Abs(e - p) <= Abs(e - up) && Abs(e - p) <= Abs(e - upperLeft)
      && (p != left ==> Abs(e - p) < Abs(e - left))
      && (p != left && p != up ==> Abs(e - p) < Abs(e - up))
  {
    var estimate := left + up - upperLeft;
    var pa, pb, pc := Abs(estimate - left), Abs(estimate - up), Abs(estimate - upperLeft);
    if pa <= pb && pa <= pc then left else if pb <= pc then up else upperLeft
  }

  /** The predictor of each filter type. */
  function Predict(filter: int, left: int, up: int, upperLeft: int): int
    requires 0 <= filter <= 4
  {
    if filter == 0 then 0
    else if filter == 1 then left
    else if filter == 2 then up
    else if filter == 3 then (left + up) / 2
    else Paeth(left, up, upperLeft)
  }

  /** The byte `back` places before `i`, or zero outside the row. */
  function At(row: seq<int>, i: int, back: nat): int
    requires i - back < |row|
  {
    if i >= back then row[i - back] else 0
  }

  // ----- Filtering -----------------------------------------------------------------------

  /** A row as an encoder writes it, given the row above it. */
  function Filtered(filter: int, row: seq<int>, above: seq<int>, bpp: nat): (f: seq<int>)
    requires 0 <= filter <= 4 && |above| == |row| && bpp > 0
    ensures |f| == |row| && Bytes(f)
  {
    seq(|row|, i requires 0 <= i < |row| =>
      (row[i] - Predict(filter, At(row, i, bpp), above[i], At(above, i, bpp))) % 0x100)
  }

  /** What each filter writes: byte `i` of the row less what stands left of it, above it, or the two in the mean. */
  lemma FilteredBytes(filter: int, row: seq<int>, above: seq<int>, bpp: nat, i: nat)
    requires 0 <= filter <= 4 && |above| == |row| && bpp > 0 && Bytes(row) && i < |row|
    ensures var f := Filtered(filter, row, above, bpp)[i];
      var left := if i < bpp then 0 else row[i - bpp];
      var upperLeft := if i < bpp then 0 else above[i - bpp];
      && (filter == 0 ==> f == row[i])
      && (filter == 1 ==> f == (row[i] - left) % 0x100)
      && (filter == 2 ==> f == (row[i] - above[i]) % 0x100)
      && (filter == 3 ==> f == (row[i] - (left + above[i]) / 2) % 0x100)
      && (filter == 4 ==> f == (row[i] - Paeth(left, above[i], upperLeft)) % 0x100)
  {
    hide Paeth;
    ByteAt(row, i);
  }

  /** A tie that the order of preference decides: left and upper left are as close to the estimate. */
  lemma PaethPrefersLeft()
    ensures Paeth(8, 11, 10) == 8
  {
  }

  /** The first `k` bytes that undoing the filter gives. */
  function Restored(filter: int, raw: seq<int>, above: seq<int>, bpp: nat, k: nat): (row: seq<int>)
    requires 0 <= filter <= 4 && |above| == |raw| && bpp > 0 && k <= |raw|
    ensures |row| == k && Bytes(row)
  {
    if k == 0 then []
    else
      var row := Restored(filter, raw, above, bpp, k - 1);
      row + [(raw[k - 1] + Predict(filter, At(row, k - 1, bpp), above[k - 1], At(above, k - 1, bpp))) % 0x100]
  }

  lemma ModCancels(x: int, p: int)
    requires IsByte(x)
    ensures ((x - p) % 0x100 + p) % 0x100 == x
  {
    var q := (x - p) / 0x100;
    assert (x - p) % 0x100 + p == x - 0x100 * q;
  }

  lemma {:induction false} RestoredFiltered(filter: int, row: seq<int>, above: seq<int>, bpp: nat, k: nat)
    requires 0 <= filter <= 4 && |above| == |row| && bpp > 0 && k <= |row| && Bytes(row)
    ensures Restored(filter, Filtered(filter, row, above, bpp), above, bpp, k) == row[..k]
  {
    hide Predict, Bytes;
    if k > 0 {
      RestoredFiltered(filter, row, above, bpp, k - 1);
      var p := Predict(filter, At(row, k - 1, bpp), above[k - 1], At(above, k - 1, bpp));
      assert At(row[..k - 1], k - 1, bpp) == At(row, k - 1, bpp);
      ByteAt(row, k - 1);
      ModCancels(row[k - 1], p);
      assert row[..k] == row[..k - 1] + [row[k - 1]];
    }
  }

  lemma ByteAt(row: seq<int>, i: nat)
    requires Bytes(row) && i < |row|
    ensures IsByte(row[i])
  {
  }

  // ----- Images --------------------------------------------------------------------------

  predicate IsImage(rows: seq<seq<int>>, width: nat) {
    forall y :: 0 <= y < |rows| ==> |rows[y]| == width && Bytes(rows[y])
  }

  function Zeros(width: nat): seq<int> {
    seq(width, _ => 0)
  }

  /** The raster stream of an image: per row, its filter type and its filtered bytes. */
  function Stream(filters: seq<int>, rows: seq<seq<int>>, above: seq<int>, bpp: nat): seq<int>
    requires |filters| == |rows| && bpp > 0 && IsImage(rows, |above|)
    requires forall y :: 0 <= y < |filters| ==> 0 <= filters[y] <= 4
    decreases |rows|
  {
    if rows == [] then []
    else [filters[0]] + Filtered(filters[0], rows[0], above, bpp) + Stream(filters[1..], rows[1..], rows[0], bpp)
  }

  /** The rows of a stream; `None` at the first filter type over four, unless `lenient` takes it for four. */
  function Rows(stream: seq<int>, above: seq<int>, bpp: nat, lenient: bool): Option<seq<seq<int>>>
    requires bpp > 0 && Bytes(stream)
    decreases |stream|
  {
    var width := |above|;
    if |stream| < width + 1 then Some([])
    else if stream[0] > 4 && !lenient then None
    else
      var row := Restored(if stream[0] > 4 then 4 else stream[0], stream[1..width + 1], above, bpp, width);
      var rest := Rows(stream[width + 1..], row, bpp, lenient);
      if rest.None? then None else Some([row] + rest.value)
  }

  lemma {:induction false} StreamBytes(filters: seq<int>, rows: seq<seq<int>>, above: seq<int>, bpp: nat)
    requires |filters| == |rows| && bpp > 0 && IsImage(rows, |above|)
    requires forall y :: 0 <= y < |filters| ==> 0 <= filters[y] <= 4
    ensures Bytes(Stream(filters, rows, above, bpp))
    ensures |Stream(filters, rows, above, bpp)| == Offset(|rows|, |above| + 1)
    decreases |rows|
  {
    hide Filtered, Offset;
    if rows == [] {
      NoOffset(|above| + 1);
    } else {
      StreamBytes(filters[1..], rows[1..], rows[0], bpp);
      OffsetStep(|rows| - 1, |rows|, |above| + 1);
    }
  }

  /** Undoing the filters gives the image back, for every choice of filter in every row. */
  lemma {:induction false} RowsOfStream(filters: seq<int>, rows: seq<seq<int>>, above: seq<int>, bpp: nat,
      lenient: bool)
    requires |filters| == |rows| && bpp > 0 && IsImage(rows, |above|)
    requires forall y :: 0 <= y < |filters| ==> 0 <= filters[y] <= 4
    ensures Bytes(Stream(filters, rows, above, bpp))
    ensures Rows(Stream(filters, rows, above, bpp), above, bpp, lenient) == Some(rows)
    decreases |rows|
  {
    hide Filtered, Restored;
    StreamBytes(filters, rows, above, bpp);
    if rows != [] {
      var stream := Stream(filters, rows, above, bpp);
      var f := Filtered(filters[0], rows[0], above, bpp);
      RestoredFiltered(filters[0], rows[0], above, bpp, |above|);
      RowsOfStream(filters[1..], rows[1..], rows[0], bpp, lenient);
      assert stream[1..|above| + 1] == f;
      assert stream[|above| + 1..] == Stream(filters[1..], rows[1..], rows[0], bpp);
      assert rows[0][..|above|] == rows[0];
      assert rows == [rows[0]] + rows[1..];
    }
  }

  predicate KnownFilters(stream: seq<int>, width: nat)
    decreases |stream|
  {
    |stream| < width + 1 || (stream[0] <= 4 && KnownFilters(stream[width + 1..], width))
  }

  /** The strict reading fails exactly on an unknown filter type; otherwise both readings agree. */
  lemma {:induction false} StrictIffKnown(stream: seq<int>, above: seq<int>, bpp: nat)
    requires bpp > 0 && Bytes(stream)
    ensures Rows(stream, above, bpp, true).Some?
    ensures Rows(stream, above, bpp, false).Some? <==> KnownFilters(stream, |above|)
    ensures KnownFilters(stream, |above|) ==> Rows(stream, above, bpp, false) == Rows(stream, above, bpp, true)
    decreases |stream|
  {
    hide Restored;
    var width := |above|;
    if |stream| >= width + 1 {
      var row := Restored(if stream[0] > 4 then 4 else stream[0], stream[1..width + 1], above, bpp, width);
      StrictIffKnown(stream[width + 1..], row, bpp);
    }
  }

  // ----- Row by row ----------------------------------------------------------------------

  lemma RestoredSnoc(filter: int, raw: seq<int>, above: seq<int>, bpp: nat, i: nat, row: seq<int>, byte: int)
    requires 0 <= filter <= 4 && |above| == |raw| && bpp > 0 && i < |raw|
    requires row == Restored(filter, raw, above, bpp, i)
    requires byte == (raw[i] + Predict(filter, At(row, i, bpp), above[i], At(above, i, bpp))) % 0x100
    ensures row + [byte] == Restored(filter, raw, above, bpp, i + 1)
  {
  }

  /** Undoes one row in place; an unknown filter type is met at the row's first byte. */
  method UnfilterRow(filter: int, current: array<int>, previous: seq<int>, channels: nat) returns (ok: bool)
    requires 0 <= filter && current.Length == |previous| && channels > 0 && Bytes(current[..])
    modifies current
    ensures ok <==> filter <= 4 || current.Length == 0
    ensures ok && filter <= 4 ==> current[..] == Restored(filter, old(current[..]), previous, channels, |previous|)
  {
    hide Restored, Paeth, Bytes;
    ghost var raw := current[..];
    NothingRestored(filter, raw, previous, channels);
    var index := 0;
    while index < current.Length
      invariant 0 <= index <= current.Length
      invariant index > 0 ==> filter <= 4
      invariant filter <= 4 ==> current[..index] == Restored(filter, raw, previous, channels, index)
      invariant forall i :: index <= i < current.Length ==> current[i] == raw[i]
    {
      ghost var row := current[..index];
      var left := if index >= channels then current[index - channels] else 0;
      var up := previous[index];
      var upperLeft := if index >= channels then previous[index - channels] else 0;
      ByteAt(raw, index);
      if filter == 1 {
        current[index] := (current[index] + left) % 0x100;
      } else if filter == 2 {
        current[index] := (current[index] + up) % 0x100;
      } else if filter == 3 {
        current[index] := (current[index] + (left + up) / 2) % 0x100;
      } else if filter == 4 {
        current[index] := (current[index] + Paeth(left, up, upperLeft)) % 0x100;
      } else if filter != 0 {
        return false;
      }
      assert left == At(row, index, channels) && upperLeft == At(previous, index, channels);
      RestoredSnoc(filter, raw, previous, channels, index, row, current[index]);
      assert current[..index + 1] == row + [current[index]];
      index := index + 1;
    }
    assert current[..index] == current[..];
    return true;
  }

  lemma NothingRestored(filter: int, raw: seq<int>, above: seq<int>, bpp: nat)
    requires |above| == |raw| && bpp > 0
    ensures 0 <= filter <= 4 ==> Restored(filter, raw, above, bpp, 0) == []
  {
  }

  lemma RowStep(stream: seq<int>, above: seq<int>, bpp: nat, lenient: bool)
    requires bpp > 0 && Bytes(stream) && |stream| >= |above| + 1
    ensures var width, f := |above|, stream[0];
      Rows(stream, above, bpp, lenient) ==
        if f > 4 && !lenient then None
        else
          var row := Restored(if f > 4 then 4 else f, stream[1..width + 1], above, bpp, width);
          var rest := Rows(stream[width + 1..], row, bpp, lenient);
          if rest.None? then None else Some([row] + rest.value)
  {
    hide Restored;
  }

  lemma NoRows(stream: seq<int>, above: seq<int>, bpp: nat, lenient: bool)
    requires bpp > 0 && Bytes(stream) && |stream| < |above| + 1
    ensures Rows(stream, above, bpp, lenient) == Some([])
  {
  }

  /** Some rows done, the rest of the stream to come. */
  ghost predicate Ahead(whole: Option<seq<seq<int>>>, done: seq<seq<int>>, rest: Option<seq<seq<int>>>) {
    whole == if rest.None? then None else Some(done + rest.value)
  }

  lemma AheadStart(whole: Option<seq<seq<int>>>)
    ensures Ahead(whole, [], whole)
  {
    assert whole.Some? ==> [] + whole.value == whole.value;
  }

  lemma AheadEnd(whole: Option<seq<seq<int>>>, done: seq<seq<int>>)
    requires Ahead(whole, done, Some([]))
    ensures whole == Some(done)
  {
    assert done + [] == done;
  }

  lemma AheadStep(whole: Option<seq<seq<int>>>, done: seq<seq<int>>, row: seq<int>, rest: Option<seq<seq<int>>>)
    requires Ahead(whole, done, if rest.None? then None else Some([row] + rest.value))
    ensures Ahead(whole, done + [row], rest)
  {
    assert rest.Some? ==> done + [row] + rest.value == done + ([row] + rest.value);
  }

  /** Reading the row at `pos` moves one row from the rest of the stream to what is done. */
  lemma StreamStep(raw: seq<int>, pos: nat, above: seq<int>, bpp: nat, lenient: bool, whole: Option<seq<seq<int>>>,
      done: seq<seq<int>>)
    requires bpp > 0 && Bytes(raw) && pos + |above| + 1 <= |raw|
    requires Bytes(raw[pos..]) && Ahead(whole, done, Rows(raw[pos..], above, bpp, lenient))
    ensures raw[pos] >= 0 && Bytes(raw[pos + |above| + 1..])
    ensures raw[pos] > 4 && !lenient ==> whole.None?
    ensures raw[pos] <= 4 || lenient ==>
      var row := Restored(if raw[pos] > 4 then 4 else raw[pos], raw[pos + 1..pos + 1 + |above|], above, bpp, |above|);
      Ahead(whole, done + [row], Rows(raw[pos + |above| + 1..], row, bpp, lenient))
  {
    hide Rows, Restored, Bytes;
    var stream, width := raw[pos..], |above|;
    ByteAt(raw, pos);
    BytesOfRest(raw, pos + width + 1);
    RowStep(stream, above, bpp, lenient);
    assert stream[width + 1..] == raw[pos + width + 1..];
    assert raw[pos + 1..pos + 1 + width] == stream[1..width + 1];
    if raw[pos] <= 4 || lenient {
      var row := Restored(if raw[pos] > 4 then 4 else raw[pos], stream[1..width + 1], above, bpp, width);
      AheadStep(whole, done, row, Rows(raw[pos + width + 1..], row, bpp, lenient));
    }
  }

  /** The row at `cursor`: its filter type, then its bytes. */
  method NextRow(decoded: seq<int>, cursor: nat, previous: seq<int>, channels: nat) returns (row: Option<seq<int>>)
    requires cursor + |previous| + 1 <= |decoded| && previous != [] && channels > 0 && Bytes(decoded)
    ensures row == if decoded[cursor] > 4 then None
      else Some(Restored(decoded[cursor], decoded[cursor + 1..cursor + 1 + |previous|], previous, channels, |previous|))
  {
    hide Restored;
    var rowBytes := |previous|;
    var raw := decoded[cursor + 1..cursor + 1 + rowBytes];
    var current := new int[rowBytes](i requires 0 <= i < rowBytes => raw[i]);
    assert current[..] == raw;
    var ok := UnfilterRow(decoded[cursor], current, previous, channels);
    return if ok then Some(current[..]) else None;
  }

  /** What the first decoder makes of a raster: no empty image, the exact length, known filters only. */
  function StrictDecoded(decoded: seq<int>, height: nat, rowBytes: nat, channels: nat): Option<seq<seq<int>>>
    requires Bytes(decoded) && channels > 0
  {
    if height == 0 || rowBytes == 0 || |decoded| != Offset(height, rowBytes + 1) then None
    else Rows(decoded, Zeros(rowBytes), channels, false)
  }

  /** The first decoder: checks the length, then undoes row after row. */
  method DecodeRows(decoded: seq<int>, height: nat, rowBytes: nat, channels: nat) returns (r: Option<seq<seq<int>>>)
    requires Bytes(decoded) && channels > 0
    ensures r == StrictDecoded(decoded, height, rowBytes, channels)
  {
    hide Rows, Restored, Bytes, Offset, Ahead;
    NoOffset(rowBytes + 1);
    if height == 0 || rowBytes == 0 {
      return None;
    }
    if |decoded| != Offset(height, rowBytes + 1) {
      return None;
    }
    ghost var whole := Rows(decoded, Zeros(rowBytes), channels, false);
    var rows: seq<seq<int>> := [];
    var previous := Zeros(rowBytes);
    var cursor := 0;
    assert decoded[0..] == decoded;
    AheadStart(whole);
    var y := 0;
    while y < height
      invariant 0 <= y <= height && |previous| == rowBytes
      invariant cursor == Offset(y, rowBytes + 1) <= |decoded| == Offset(height, rowBytes + 1)
      invariant Bytes(decoded[cursor..])
      invariant Ahead(whole, rows, Rows(decoded[cursor..], previous, channels, false))
    {
      OffsetStep(y, height, rowBytes + 1);
      StreamStep(decoded, cursor, previous, channels, false, whole, rows);
      var row := NextRow(decoded, cursor, previous, channels);
      if row.None? {
        return None;
      }
      cursor := cursor + rowBytes + 1;
      rows := rows + [row.value];
      previous := row.value;
      y := y + 1;
    }
    NoRows(decoded[cursor..], previous, channels, false);
    AheadEnd(whole, rows);
    return Some(rows);
  }

  lemma BytesOfRest(s: seq<int>, i: nat)
    requires Bytes(s) && i <= |s|
    ensures Bytes(s[i..])
  {
  }

  /** A raster filtered by rows 0 to 4 comes back row for row. */
  lemma DecodesFiltered(filters: seq<int>, rows: seq<seq<int>>, width: nat, bpp: nat)
    requires |filters| == |rows| && bpp > 0 && IsImage(rows, width)
    requires forall y :: 0 <= y < |filters| ==> 0 <= filters[y] <= 4
    ensures var stream := Stream(filters, rows, Zeros(width), bpp);
      && Bytes(stream) && |stream| == Offset(|rows|, width + 1)
      && Rows(stream, Zeros(width), bpp, false) == Some(rows)
      && Rows(stream, Zeros(width), bpp, true) == Some(rows)
  {
    hide Stream, Rows, Zeros, Offset, Bytes;
    ZeroCount(width);
    StreamBytes(filters, rows, Zeros(width), bpp);
    RowsOfStream(filters, rows, Zeros(width), bpp, false);
    RowsOfStream(filters, rows, Zeros(width), bpp, true);
  }

  // ----- In one buffer -------------------------------------------------------------------

  function Flattened(rows: seq<seq<int>>): seq<int> {
    if rows == [] then [] else Flattened(rows[..|rows| - 1]) + rows[|rows| - 1]
  }

  lemma FlattenedSnoc(rows: seq<seq<int>>, row: seq<int>)
    ensures Flattened(rows + [row]) == Flattened(rows) + row
  {
    assert (rows + [row])[..|rows|] == rows;
  }

  method UnfilterByte(ft: int, v: int, a: int, b: int, c: int) returns (r: int)
    requires IsByte(v) && ft >= 0
    ensures r == (v + Predict(if ft > 4 then 4 else ft, a, b, c)) % 0x100
  {
    hide Paeth;
    if ft == 0 {
      r := v;
    } else if ft == 1 {
      r := (v + a) % 0x100;
    } else if ft == 2 {
      r := (v + b) % 0x100;
    } else if ft == 3 {
      r := (v + (a + b) / 2) % 0x100;
    } else {
      r := (v + Paeth(a, b, c)) % 0x100;
    }
  }

  /** The bytes of a row from `pos` on, with zeros behind the end. */
  function Padded(raw: seq<int>, pos: nat, stride: nat): (row: seq<int>)
    requires Bytes(raw)
    ensures |row| == stride
    ensures pos + stride <= |raw| ==> row == raw[pos..pos + stride]
  {
    seq(stride, i requires 0 <= i < stride => if pos + i < |raw| then raw[pos + i] else 0)
  }

  /**
   Writes the row at `base` of the buffer; the row above it, if any, is already there. It fails
   at the first byte behind the end of the raster.
   */
  method DecodeInto(raw: seq<int>, pos: nat, ft: int, out: array<int>, base: nat, stride: nat, ghost above: seq<int>)
    returns (ok: bool)
    requires Bytes(raw) && base + stride <= out.Length && |above| == stride && ft >= 0
    requires if base == 0 then above == Zeros(stride) else stride <= base && out[base - stride..base] == above
    modifies out
    ensures ok <==> pos + stride <= |raw| || stride == 0
    ensures out[..base] == old(out[..base])
    ensures pos + stride <= |raw| ==>
      out[base..base + stride] == Restored(if ft > 4 then 4 else ft, raw[pos..pos + stride], above, 4, stride)
  {
    hide Restored, Predict, Bytes, Padded;
    ghost var f := if ft > 4 then 4 else ft;
    ghost var bytes, before := Padded(raw, pos, stride), out[..];
    ghost var row: seq<int> := [];
    NothingRestored(f, bytes, above, 4);
    assert forall i :: 0 <= i < stride && base > 0 ==> above[i] == before[base - stride + i];
    var x := 0;
    while x < stride
      invariant 0 <= x <= stride && |row| == x
      invariant pos + x <= |raw| || x == 0
      invariant forall i :: 0 <= i < base ==> out[i] == before[i]
      invariant forall i :: base <= i < base + x ==> out[i] == row[i - base]
      invariant row == Restored(f, bytes, above, 4, x)
    {
      if pos + x >= |raw| {
        return false;
      }
      var v := raw[pos + x];
      ByteAt(raw, pos + x);
      PaddedAt(raw, pos, stride, x);
      var a := if x >= 4 then out[base + x - 4] else 0;
      var b := if base > 0 then out[base - stride + x] else 0;
      var c := if base > 0 && x >= 4 then out[base - stride + x - 4] else 0;
      assert a == At(row, x, 4) && b == above[x] && c == At(above, x, 4);
      var r := UnfilterByte(ft, v, a, b, c);
      out[base + x] := r;
      RestoredSnoc(f, bytes, above, 4, x, row, r);
      row := row + [r];
      x := x + 1;
    }
    assert out[base..base + stride] == row;
    return true;
  }

  lemma PaddedAt(raw: seq<int>, pos: nat, stride: nat, x: nat)
    requires Bytes(raw) && x < stride && pos + x < |raw|
    ensures Padded(raw, pos, stride)[x] == raw[pos + x]
  {
  }

  /** What the second decoder makes of a four-channel raster: the rows it needs, whatever follows them. */
  function LenientDecoded(raw: seq<int>, height: nat, stride: nat): Option<seq<seq<int>>>
    requires Bytes(raw)
  {
    var size := Offset(height, stride + 1);
    if |raw| < size then None else Rows(raw[..size], Zeros(stride), 4, true)
  }

  lemma LenientSome(raw: seq<int>, height: nat, stride: nat)
    requires Bytes(raw) && |raw| >= Offset(height, stride + 1)
    ensures Bytes(raw[..Offset(height, stride + 1)])
    ensures LenientDecoded(raw, height, stride) == Rows(raw[..Offset(height, stride + 1)], Zeros(stride), 4, true)
    ensures LenientDecoded(raw, height, stride).Some?
  {
    hide Rows, Offset;
    StrictIffKnown(raw[..Offset(height, stride + 1)], Zeros(stride), 4);
  }

  /**
   The second decoder, for four-channel rasters: it takes any filter type over four for four,
   stops with an index error at the end of a short raster and ignores the rest of a long one.
   */
  method DecodeBuffer(raw: seq<int>, height: nat, stride: nat) returns (ok: bool, out: array<int>)
    requires Bytes(raw)
    ensures ok <==> LenientDecoded(raw, height, stride).Some?
    ensures ok ==> out[..] == Flattened(LenientDecoded(raw, height, stride).value)
  {
    hide Rows, Restored, Bytes, Flattened, Offset, Ahead, Zeros, KnownFilters;
    ZeroCount(stride);
    NoOffset(stride + 1);
    NoOffset(stride);
    ghost var size := Offset(height, stride + 1);
    ghost var needed := if |raw| < size then raw else raw[..size];
    BytesOfPart(raw, |needed|);
    if |raw| >= size {
      LenientSome(raw, height, stride);
    }
    ghost var whole := Rows(needed, Zeros(stride), 4, true);
    out := new int[Offset(height, stride)];
    ghost var rows: seq<seq<int>> := [];
    ghost var above := Zeros(stride);
    var pos, base := 0, 0;
    NothingFlat();
    assert needed[0..] == needed;
    AheadStart(whole);
    var y := 0;
    while y < height
      invariant 0 <= y <= height && |above| == stride
      invariant pos == Offset(y, stride + 1) <= |needed| <= |raw| && base == Offset(y, stride) <= out.Length
      invariant Bytes(needed[pos..])
      invariant Ahead(whole, rows, Rows(needed[pos..], above, 4, true))
      invariant out.Length == Offset(height, stride)
      invariant out[..base] == Flattened(rows)
      invariant if base == 0 then above == Zeros(stride) else stride <= base && out[base - stride..base] == above
    {
      OffsetStep(y, height, stride + 1);
      OffsetStep(y, height, stride);
      if pos >= |raw| {
        return false, out;
      }
      var ft := raw[pos];
      ByteAt(raw, pos);
      pos := pos + 1;
      var row := DecodeInto(raw, pos, ft, out, base, stride, above);
      if !row {
        return false, out;
      }
      pos := pos + stride;
      StreamStep(needed, pos - stride - 1, above, 4, true, whole, rows);
      assert needed[pos - stride..pos] == raw[pos - stride..pos];
      ghost var bytes := out[base..base + stride];
      FlattenedSnoc(rows, bytes);
      assert out[..base + stride] == out[..base] + bytes;
      rows := rows + [bytes];
      above := bytes;
      base := base + stride;
      y := y + 1;
    }
    NoRows(needed[pos..], above, 4, true);
    AheadEnd(whole, rows);
    assert out[..] == out[..base];
    return true, out;
  }

  // ----- Both decoders -------------------------------------------------------------------

  /**
   For every byte sequence and every image size: the decoders do the same exactly when the raster
   is too short, or the image is not empty, the raster has exactly its length and every filter
   type is known.
   */
  lemma DecodersAgree(raw: seq<int>, height: nat, stride: nat)
    requires Bytes(raw)
    ensures var size := Offset(height, stride + 1);
      var strict, lenient := StrictDecoded(raw, height, stride, 4), LenientDecoded(raw, height, stride);
      && (lenient.Some? <==> |raw| >= size)
      && (strict.Some? <==> height > 0 && stride > 0 && |raw| == size && KnownFilters(raw, stride))
      && (strict == lenient <==>
            |raw| < size || (height > 0 && stride > 0 && |raw| == size && KnownFilters(raw, stride)))
  {
    hide Rows, Offset, KnownFilters, Zeros, Bytes;
    ZeroCount(stride);
    var size := Offset(height, stride + 1);
    if |raw| >= size {
      LenientSome(raw, height, stride);
    }
    if |raw| == size {
      assert raw[..size] == raw;
      StrictIffKnown(raw, Zeros(stride), 4);
    }
  }

  /** More bytes behind a raster both decoders accept: one refuses it, the other does not notice. */
  lemma OverlongDisagree(raw: seq<int>, extra: seq<int>, height: nat, stride: nat)
    requires Bytes(raw) && Bytes(extra) && extra != [] && StrictDecoded(raw, height, stride, 4).Some?
    ensures Bytes(raw + extra)
    ensures StrictDecoded(raw + extra, height, stride, 4).None?
    ensures LenientDecoded(raw + extra, height, stride) == StrictDecoded(raw, height, stride, 4)
  {
    hide Rows, Offset, KnownFilters, Zeros;
    ZeroCount(stride);
    assert raw == (raw + extra)[..|raw|];
    StrictIffKnown(raw, Zeros(stride), 4);
  }

  /** A filter type over four: one decoder refuses the raster, the other takes the type for four. */
  lemma UnknownFilterDisagree(raw: seq<int>, height: nat, stride: nat)
    requires Bytes(raw) && |raw| == Offset(height, stride + 1) && !KnownFilters(raw, stride)
    ensures StrictDecoded(raw, height, stride, 4).None?
    ensures LenientDecoded(raw, height, stride).Some?
  {
    hide KnownFilters;
    DecodersAgree(raw, height, stride);
  }

  lemma BytesOfPart(s: seq<int>, n: nat)
    requires Bytes(s) && n <= |s|
    ensures Bytes(s[..n])
  {
  }

  lemma ZeroCount(width: nat)
    ensures |Zeros(width)| == width
  {
  }

  lemma NothingFlat()
    ensures Flattened([]) == []
  {
  }
}
