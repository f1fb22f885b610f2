/**
 Comma-separated values (section 2 of RFC 4180): writing records, and the reader that shows
 that nothing is lost.
 */
module CsvText {

  // ----- Writing -------------------------------------------------------------------------

  predicate Special(c: char) {
    c == ',' || c == '"' || c == '\n' || c == '\r'
  }

  predicate Plain(s: string) {
    forall i :: 0 <= i < |s| ==> !Special(s[i])
  }

  /** Every quote written twice. */
  function Doubled(s: string): string {
    if s == "" then "" else Doubled(s[..|s| - 1]) + if s[|s| - 1] == '"' then "\"\"" else [s[|s| - 1]]
  }

  function Escaped(s: string): string {
    if Plain(s) then s else "\"" + Doubled(s) + "\""
  }

  /** A field stands between quotes exactly when it has a comma, a quote or a line break; else it stands as it is. */
  lemma QuotedIfNeeded(s: string)
    ensures ',' !in s && '"' !in s && '\n' !in s && '\r' !in s ==> Escaped(s) == s
    ensures ',' in s || '"' in s || '\n' in s || '\r' in s ==> Escaped(s) == "\"" + Doubled(s) + "\""
    ensures '"' !in s ==> Doubled(s) == s
  {
    hide Doubled;
    if ',' in s || '"' in s || '\n' in s || '\r' in s {
      var i :| 0 <= i < |s| && s[i] in {',', '"', '\n', '\r'};
      assert Special(s[i]);
    }
    if '"' !in s {
      NothingDoubled(s);
    }
  }

  lemma {:induction false} NothingDoubled(s: string)
    requires '"' !in s
    ensures Doubled(s) == s
  {
    if s != "" {
      NothingDoubled(s[..|s| - 1]);
    }
  }

  /** The fields with a comma between each two. */
  function Line(fields: seq<string>): string
    requires fields != []
  {
    if |fields| == 1 then Escaped(fields[0]) else Line(fields[..|fields| - 1]) + "," + Escaped(fields[|fields| - 1])
  }

  predicate Records(rows: seq<seq<string>>) {
    forall r :: 0 <= r < |rows| ==> rows[r] != []
  }

  function Lines(rows: seq<seq<string>>): string
    requires Records(rows)
  {
    if rows == [] then "" else Lines(rows[..|rows| - 1]) + Line(rows[|rows| - 1]) + "\n"
  }

  // ----- Reading -------------------------------------------------------------------------

  datatype Mode = FieldStart | Unquoted | Quoted | QuoteSeen

  /** Records read, fields of the current record, and the current field. */
  datatype Reader = Reader(records: seq<seq<string>>, fields: seq<string>, field: string, mode: Mode)

  const START := Reader([], [], "", FieldStart)

  function EndField(r: Reader): Reader {
    r.(fields := r.fields + [r.field], field := "", mode := FieldStart)
  }

  function EndRecord(r: Reader): Reader {
    Reader(r.records + [r.fields + [r.field]], [], "", FieldStart)
  }

  function Read(r: Reader, c: char): Reader {
    match r.mode
    case Quoted => if c == '"' then r.(mode := QuoteSeen) else r.(field := r.field + [c])
    case QuoteSeen =>
      if c == '"' then r.(field := r.field + [c], mode := Quoted)
      else if c == ',' then EndField(r)
      else if c == '\n' then EndRecord(r)
      else r.(field := r.field + [c], mode := Unquoted)
    case _ =>
      if c == '"' && r.mode == FieldStart then r.(mode := Quoted)
      else if c == ',' then EndField(r)
      else if c == '\n' then EndRecord(r)
      else r.(field := r.field + [c], mode := Unquoted)
  }

  function ReadAll(r: Reader, text: string): Reader {
    if text == "" then r else Read(ReadAll(r, text[..|text| - 1]), text[|text| - 1])
  }

  /** The records of a text whose every record ends with a line feed. */
  function Parsed(text: string): seq<seq<string>> {
    ReadAll(START, text).records
  }

  lemma {:induction false} ReadConcat(r: Reader, a: string, b: string)
    ensures ReadAll(r, a + b) == ReadAll(ReadAll(r, a), b)
  {
    hide Read;
    if b == "" {
      assert a + b == a;
    } else {
      assert (a + b)[..|a + b| - 1] == a + b[..|b| - 1];
      ReadConcat(r, a, b[..|b| - 1]);
    }
  }

  lemma ReadNothing(r: Reader)
    ensures ReadAll(r, "") == r
  {
  }

  lemma ReadOne(r: Reader, c: char)
    ensures ReadAll(r, [c]) == Read(r, c)
  {
    assert [c][..0] == "";
  }

  /** A field that reads as `value` whichever character ends it. */
  ghost predicate Holds(r: Reader, before: Reader, value: string) {
    && r.records == before.records && r.fields == before.fields && r.field == value
    && r.mode in {FieldStart, Unquoted, QuoteSeen} && (r.mode == FieldStart ==> value == "")
  }

  lemma {:induction false} ReadPlain(r: Reader, s: string)
    requires r.mode == FieldStart && r.field == "" && Plain(s)
    ensures Holds(ReadAll(r, s), r, s) && ReadAll(r, s).mode != QuoteSeen
  {
    if s != "" {
      var front := s[..|s| - 1];
      PlainParts(s);
      hide Plain, Special;
      ReadPlain(r, front);
      assert s == front + [s[|s| - 1]];
    }
  }

  lemma PlainParts(s: string)
    requires Plain(s) && s != ""
    ensures Plain(s[..|s| - 1])
    ensures s[|s| - 1] !in ",\"\n\r"
  {
    assert !Special(s[|s| - 1]);
  }

  lemma {:induction false} ReadDoubled(r: Reader, s: string)
    requires r.mode == Quoted && r.field == ""
    ensures ReadAll(r, Doubled(s)) == r.(field := s)
  {
    if s != "" {
      var front, last := s[..|s| - 1], s[|s| - 1];
      ReadDoubled(r, front);
      assert s == front + [last];
      if last == '"' {
        ReadConcat(r, Doubled(front), "\"\"");
        TwoQuotes(r.(field := front));
      } else {
        ReadConcat(r, Doubled(front), [last]);
        ReadOne(r.(field := front), last);
      }
    }
  }

  lemma TwoQuotes(r: Reader)
    requires r.mode == Quoted
    ensures ReadAll(r, "\"\"") == r.(field := r.field + "\"")
  {
    assert "\"\"" == "\"" + "\"";
    ReadConcat(r, "\"", "\"");
    ReadOne(r, '"');
    ReadOne(Read(r, '"'), '"');
  }

  /** An escaped field reads back as the field. */
  lemma ReadEscaped(r: Reader, s: string)
    requires r.mode == FieldStart && r.field == ""
    ensures Holds(ReadAll(r, Escaped(s)), r, s)
  {
    hide ReadAll, Doubled;
    if Plain(s) {
      ReadPlain(r, s);
    } else {
      ReadConcat(r, "\"" + Doubled(s), "\"");
      ReadConcat(r, "\"", Doubled(s));
      ReadOne(r, '"');
      ReadDoubled(r.(mode := Quoted), s);
      ReadOne(r.(mode := Quoted, field := s), '"');
    }
  }

  lemma FieldEnds(r: Reader, before: Reader, value: string)
    requires Holds(r, before, value)
    ensures ReadAll(r, ",") == Reader(before.records, before.fields + [value], "", FieldStart)
    ensures ReadAll(r, "\n") == Reader(before.records + [before.fields + [value]], [], "", FieldStart)
  {
    ReadOne(r, ',');
    ReadOne(r, '\n');
  }

  /** The last field of a line is being read, the others are there. */
  lemma {:induction false} ReadLine(r: Reader, fields: seq<string>)
    requires r.mode == FieldStart && r.field == "" && r.fields == [] && fields != []
    ensures Holds(ReadAll(r, Line(fields)), r.(fields := fields[..|fields| - 1]), fields[|fields| - 1])
  {
    hide ReadAll, Escaped;
    var last := |fields| - 1;
    if last == 0 {
      ReadEscaped(r, fields[0]);
    } else {
      var front := fields[..last];
      ReadLine(r, front);
      ReadConcat(r, Line(front) + ",", Escaped(fields[last]));
      ReadConcat(r, Line(front), ",");
      FieldEnds(ReadAll(r, Line(front)), r.(fields := front[..|front| - 1]), front[|front| - 1]);
      assert front[..|front| - 1] + [front[|front| - 1]] == front;
      ReadEscaped(r.(fields := front), fields[last]);
    }
  }

  lemma {:induction false} ReadLines(r: Reader, rows: seq<seq<string>>)
    requires r.mode == FieldStart && r.field == "" && r.fields == [] && Records(rows)
    ensures ReadAll(r, Lines(rows)) == r.(records := r.records + rows)
  {
    hide Line, Read, ReadAll, Holds;
    ReadNothing(r);
    if rows == [] {
      assert r.records + [] == r.records;
    } else {
      var front, row := rows[..|rows| - 1], rows[|rows| - 1];
      ReadLines(r, front);
      var s := r.(records := r.records + front);
      ReadConcat(r, Lines(front) + Line(row), "\n");
      ReadConcat(r, Lines(front), Line(row));
      ReadLine(s, row);
      FieldEnds(ReadAll(s, Line(row)), s.(fields := row[..|row| - 1]), row[|row| - 1]);
      assert row[..|row| - 1] + [row[|row| - 1]] == row;
      assert rows == front + [row];
      assert r.records + front + [row] == r.records + rows;
    }
  }

  /** Reading gives the records back, whatever the fields hold. */
  lemma RoundTrip(rows: seq<seq<string>>)
    requires Records(rows)
    ensures Parsed(Lines(rows)) == rows
  {
    hide ReadAll, Lines;
    ReadLines(START, rows);
  }
}
