/**
 Base64 (section 4 of RFC 4648). Encoding works on chunks of three bytes; decoding shifts six
 bits at a time through a 32-bit accumulator that silently loses its high bits.
 */
module Base64 {
  import opened HwpModel
  import opened Utf16

  const UPPER := "ABCDEFGHIJKLMNOPQRSTUVWXYZ"
  const LOWER := "abcdefghijklmnopqrstuvwxyz"
  const DIGITS := "0123456789"
  const TABLE := UPPER + LOWER + DIGITS + "+/"
  const WORD := 0x1_0000_0000

  predicate IsSextet(v: int) {
    0 <= v < 64
  }

  predicate SixBit(s: seq<int>) {
    forall i :: 0 <= i < |s| ==> IsSextet(s[i])
  }

  function Symbol(v: int): char
    requires IsSextet(v)
  {
    TABLE[v]
  }

  function ValueOf(c: char): (v: Option<int>)
    ensures v.Some? ==> IsSextet(v.value)
  {
    if 'A' <= c <= 'Z' then Some(c as int - 'A' as int)
    else if 'a' <= c <= 'z' then Some(c as int - 'a' as int + 26)
    else if '0' <= c <= '9' then Some(c as int - '0' as int + 52)
    else if c == '+' then Some(62)
    else if c == '/' then Some(63)
    else None
  }

  lemma UpperValue(v: int)
    requires 0 <= v < 26
    ensures ValueOf(UPPER[v]) == Some(v) && !Skipped(UPPER[v])
  {
    assert UPPER[v] as int == 'A' as int + v;
  }

  lemma LowerValue(v: int)
    requires 0 <= v < 26
    ensures ValueOf(LOWER[v]) == Some(v + 26) && !Skipped(LOWER[v])
  {
    assert LOWER[v] as int == 'a' as int + v;
  }

  lemma DigitValue(v: int)
    requires 0 <= v < 10
    ensures ValueOf(DIGITS[v]) == Some(v + 52) && !Skipped(DIGITS[v])
  {
    assert DIGITS[v] as int == '0' as int + v;
  }

  lemma SignValues()
    ensures ValueOf('+') == Some(62) && ValueOf('/') == Some(63) && !Skipped('+') && !Skipped('/')
  {
  }

  lemma SymbolValue(v: int)
    requires IsSextet(v)
    ensures ValueOf(Symbol(v)) == Some(v) && !Skipped(Symbol(v))
  {
    hide Symbol, ValueOf, Skipped;
    TableParts(v);
    SignValues();
    if v < 26 {
      UpperValue(v);
    } else if v < 52 {
      LowerValue(v - 26);
    } else if v < 62 {
      DigitValue(v - 52);
    }
  }

  lemma TableParts(v: int)
    requires IsSextet(v)
    ensures v < 26 ==> Symbol(v) == UPPER[v]
    ensures 26 <= v < 52 ==> Symbol(v) == LOWER[v - 26]
    ensures 52 <= v < 62 ==> Symbol(v) == DIGITS[v - 52]
    ensures v == 62 ==> Symbol(v) == '+'
    ensures v == 63 ==> Symbol(v) == '/'
  {
    PartAt(UPPER, LOWER, DIGITS, "+/", v);
  }

  lemma PartAt(a: string, b: string, c: string, d: string, v: nat)
    requires v < |a| + |b| + |c| + |d|
    ensures var all := a + b + c + d;
      && (v < |a| ==> all[v] == a[v])
      && (|a| <= v < |a| + |b| ==> all[v] == b[v - |a|])
      && (|a| + |b| <= v < |a| + |b| + |c| ==> all[v] == c[v - |a| - |b|])
      && (|a| + |b| + |c| <= v ==> all[v] == d[v - |a| - |b| - |c|])
  {
  }

  // ----- Encoding ------------------------------------------------------------------------

  /** The six-bit groups of up to three bytes, the last one filled up with zeros. */
  function Sextets(chunk: seq<int>): (s: seq<int>)
    requires 1 <= |chunk| <= 3 && Bytes(chunk)
    ensures |s| == |chunk| + 1 && SixBit(s)
  {
    var b0, b1, b2 := chunk[0], if |chunk| > 1 then chunk[1] else 0, if |chunk| > 2 then chunk[2] else 0;
    [b0 / 4, b0 % 4 * 16 + b1 / 16]
      + (if |chunk| > 1 then [b1 % 16 * 4 + b2 / 64] else [])
      + (if |chunk| > 2 then [b2 % 64] else [])
  }

  function Symbols(s: seq<int>): (text: string)
    requires SixBit(s)
    ensures |text| == |s|
  {
    seq(|s|, i requires 0 <= i < |s| => Symbol(s[i]))
  }

  function EncodeChunk(chunk: seq<int>): (text: string)
    requires 1 <= |chunk| <= 3 && Bytes(chunk)
    ensures |text| == 4
  {
    Symbols(Sextets(chunk)) + (if |chunk| == 1 then "==" else if |chunk| == 2 then "=" else "")
  }

  function Encoded(data: seq<int>): string
    requires Bytes(data)
  {
    if data == [] then ""
    else if |data| <= 3 then EncodeChunk(data)
    else EncodeChunk(data[..3]) + Encoded(data[3..])
  }

  /** How many characters the last chunk is short of. */
  function Padding(size: nat): nat {
    if size % 3 == 0 then 0 else 3 - size % 3
  }

  /** One chunk: symbols, and `=` for every byte it is short of. */
  lemma ChunkPadding(chunk: seq<int>, i: nat)
    requires 1 <= |chunk| <= 3 && Bytes(chunk) && i < 4
    ensures EncodeChunk(chunk)[i] == '=' <==> i > |chunk|
  {
    hide Symbol, ValueOf;
    NoPadSymbol();
    var s := Sextets(chunk);
    if i <= |chunk| {
      SymbolValue(s[i]);
      assert EncodeChunk(chunk)[i] == Symbol(s[i]);
    }
  }

  lemma NoPadSymbol()
    ensures ValueOf('=') == None
  {
  }

  /** The padding stands at the end, as long as it has to be, and nowhere else. */
  lemma {:induction false} PaddingAtEnd(data: seq<int>, i: nat)
    requires Bytes(data) && i < |Encoded(data)|
    ensures Encoded(data)[i] == '=' <==> i >= |Encoded(data)| - Padding(|data|)
  {
    hide EncodeChunk;
    EncodedLength(data);
    if |data| <= 3 {
      ChunkPadding(data, i);
    } else if i < 4 {
      ChunkPadding(data[..3], i);
    } else {
      PaddingAtEnd(data[3..], i - 4);
    }
  }

  /** Every chunk gives four characters. */
  lemma {:induction false} EncodedLength(data: seq<int>)
    requires Bytes(data)
    ensures |Encoded(data)| == 4 * ((|data| + 2) / 3)
  {
    hide EncodeChunk;
    if |data| > 3 {
      EncodedLength(data[3..]);
    }
  }

  lemma {:induction false} EncodedStep(data: seq<int>, k: nat)
    requires Bytes(data) && k < |data| && k % 3 == 0
    ensures var end := if k + 3 <= |data| then k + 3 else |data|;
      Encoded(data[..end]) == Encoded(data[..k]) + EncodeChunk(data[k..end])
    decreases k
  {
    hide EncodeChunk;
    var end := if k + 3 <= |data| then k + 3 else |data|;
    if k == 0 {
      assert data[..end] == data[0..end];
    } else {
      var rest := data[3..];
      EncodedStep(rest, k - 3);
      assert data[..end][3..] == rest[..end - 3] && data[..k][3..] == rest[..k - 3];
      assert data[..end][..3] == data[..k][..3] == data[..3];
      assert data[k..end] == rest[k - 3..end - 3];
      if k == 3 {
        assert Encoded(data[..k]) == EncodeChunk(data[..3]) + Encoded([]);
      }
    }
  }

  /** The chunk loop of the encoder. */
  method Encode(data: seq<int>) returns (out: string)
    requires Bytes(data)
    ensures out == Encoded(data)
  {
    hide Encoded, Symbol;
    out := "";
    var i := 0;
    NothingEncoded();
    assert data[..0] == [];
    while i < |data|
      invariant 0 <= i <= |data| && (i % 3 == 0 || i == |data|)
      invariant out == Encoded(data[..i])
    {
      var end := if i + 3 <= |data| then i + 3 else |data|;
      var chunk := data[i..end];
      var n := chunk[0] * 0x1_0000 + (if |chunk| > 1 then chunk[1] else 0) * 0x100 + if |chunk| > 2 then chunk[2]
        else 0;
      EncodedStep(data, i);
      Shifts(chunk, n);
      var four := [Symbol(n / 0x4_0000 % 64), Symbol(n / 0x1000 % 64),
                   if |chunk| > 1 then Symbol(n / 64 % 64) else '=', if |chunk| > 2 then Symbol(n % 64) else '='];
      assert four == EncodeChunk(chunk);
      out := out + four;
      i := end;
    }
    assert data[..i] == data;
  }

  lemma NothingEncoded()
    ensures Encoded([]) == ""
  {
  }

  /** Shifting a 24-bit word down gives the six-bit groups. */
  lemma Shifts(chunk: seq<int>, n: int)
    requires 1 <= |chunk| <= 3 && Bytes(chunk)
    requires n == chunk[0] * 0x1_0000 + (if |chunk| > 1 then chunk[1] else 0) * 0x100 +
      if |chunk| > 2 then chunk[2] else 0
    ensures var s := Sextets(chunk);
      && s[0] == n / 0x4_0000 % 64 && s[1] == n / 0x1000 % 64
      && (|chunk| > 1 ==> s[2] == n / 64 % 64) && (|chunk| > 2 ==> s[3] == n % 64)
  {
    ShiftsOf(chunk[0], if |chunk| > 1 then chunk[1] else 0, if |chunk| > 2 then chunk[2] else 0, n);
  }

  lemma ShiftsOf(b0: int, b1: int, b2: int, n: int)
    requires IsByte(b0) && IsByte(b1) && IsByte(b2) && n == b0 * 0x1_0000 + b1 * 0x100 + b2
    ensures n / 0x4_0000 % 64 == b0 / 4
    ensures n / 0x1000 % 64 == b0 % 4 * 16 + b1 / 16
    ensures n / 64 % 64 == b1 % 16 * 4 + b2 / 64
    ensures n % 64 == b2 % 64
  {
    var s0, s1, s2, s3 := b0 / 4, b0 % 4 * 16 + b1 / 16, b1 % 16 * 4 + b2 / 64, b2 % 64;
    Digits(s0, s1, s2, s3, n);
  }

  lemma Digits(s0: int, s1: int, s2: int, s3: int, n: int)
    requires IsSextet(s0) && IsSextet(s1) && IsSextet(s2) && IsSextet(s3)
    requires n == ((s0 * 64 + s1) * 64 + s2) * 64 + s3
    ensures n % 64 == s3 && n / 64 % 64 == s2 && n / 0x1000 % 64 == s1 && n / 0x4_0000 % 64 == s0
  {
    assert n / 64 == (s0 * 64 + s1) * 64 + s2;
    assert n / 0x1000 == s0 * 64 + s1;
    assert n / 0x4_0000 == s0;
  }

  // ----- Decoding ------------------------------------------------------------------------

  /** Bytes put out, and the bits that wait for the next sextet. */
  datatype Accumulator = Accumulator(out: seq<int>, rest: int, bits: int)

  predicate Pending(a: Accumulator) {
    a.bits in [0, 2, 4, 6] && 0 <= a.rest < Power(a.bits)
  }

  function Power(bits: int): int {
    if bits == 2 then 4 else if bits == 4 then 16 else if bits == 6 then 64 else 1
  }

  function Shift(a: Accumulator, v: int): (b: Accumulator)
    requires Pending(a) && IsSextet(v)
    ensures Pending(b)
  {
    var wide := a.rest * 64 + v;
    if a.bits == 0 then Accumulator(a.out, wide, 6)
    else if a.bits == 2 then Accumulator(a.out + [wide], 0, 0)
    else if a.bits == 4 then Accumulator(a.out + [wide / 4], wide % 4, 2)
    else Accumulator(a.out + [wide / 16], wide % 16, 4)
  }

  function ShiftAll(a: Accumulator, s: seq<int>): (b: Accumulator)
    requires Pending(a) && SixBit(s)
    ensures Pending(b)
  {
    if s == [] then a else Shift(ShiftAll(a, s[..|s| - 1]), s[|s| - 1])
  }

  const EMPTY := Accumulator([], 0, 0)

  predicate Skipped(c: char) {
    c == '=' || c == ' ' || c == '\t' || c == '\n' || c == 0xC as char || c == '\r'
  }

  /** Padding and the five ASCII whitespace bytes. */
  lemma SkippedBytes(c: char)
    ensures Skipped(c) <==> c == '=' || c as int in {0x20, 0x09, 0x0A, 0x0C, 0x0D}
  {
  }

  /** The characters that carry bits. */
  function Kept(text: string): string {
    if text == "" then ""
    else
      var last := text[|text| - 1];
      Kept(text[..|text| - 1]) + if Skipped(last) then "" else [last]
  }

  predicate Valid(text: string) {
    forall i :: 0 <= i < |text| ==> Skipped(text[i]) || ValueOf(text[i]).Some?
  }

  /** The values of the kept characters; `None` when one has no value. */
  function Values(text: string): (v: Option<seq<int>>)
    ensures v.Some? ==> SixBit(v.value)
  {
    if text == "" then Some([])
    else
      var front, last := Values(text[..|text| - 1]), ValueOf(text[|text| - 1]);
      if front.None? || last.None? then None else Some(front.value + [last.value])
  }

  function Decoded(text: string): Option<seq<int>> {
    var values := Values(Kept(text));
    if values.None? then None else Some(ShiftAll(EMPTY, values.value).out)
  }

  /** Only the low bits of the accumulator matter, so losing the high ones is harmless. */
  lemma LowBits(buf: int, bits: int, rest: int, v: int)
    requires 0 <= buf < WORD && bits in [0, 2, 4, 6] && buf % Power(bits) == rest && IsSextet(v)
    ensures var wide, low := buf * 64 % WORD + v, rest * 64 + v;
      && 0 <= wide < WORD
      && (bits == 0 ==> wide % 64 == low)
      && (bits == 2 ==> wide % 0x100 == low)
      && (bits == 4 ==> wide % 4 == low % 4 && wide / 4 % 0x100 == low / 4)
      && (bits == 6 ==> wide % 16 == low % 16 && wide / 16 % 0x100 == low / 16)
  {
    var high := buf * 64 / WORD;
    Wrapped(buf * 64, v);
    hide Power;
    var wide := buf * 64 % WORD + v;
    if bits == 0 {
      Cut64(buf - high * 0x400_0000, v, wide);
    } else if bits == 2 {
      Split4(buf);
      Cut256(buf / 4 - high * 0x100_0000, rest * 64 + v, wide);
    } else if bits == 4 {
      Split16(buf);
      Cut4(buf / 16 - high * 0x40_0000, rest * 64 + v, wide);
    } else {
      Split64(buf);
      Cut16(buf / 64 - high * 0x10_0000, rest * 64 + v, wide);
    }
  }

  lemma Wrapped(x: int, v: int)
    requires 0 <= x && x % 64 == 0 && IsSextet(v)
    ensures x % WORD + v == x - x / WORD * WORD + v
    ensures 0 <= x % WORD + v < WORD
  {
    assert x % WORD == 64 * (x / 64 - x / WORD * 0x400_0000);
  }

  lemma Split4(buf: int)
    ensures buf == 4 * (buf / 4) + buf % 4 && Power(2) == 4
  {
  }

  lemma Split16(buf: int)
    ensures buf == 16 * (buf / 16) + buf % 16 && Power(4) == 16
  {
  }

  lemma Split64(buf: int)
    ensures buf == 64 * (buf / 64) + buf % 64 && Power(6) == 64
  {
  }

  lemma Cut64(k: int, low: int, wide: int)
    requires IsSextet(low) && wide == 64 * k + low
    ensures wide % 64 == low
  {
  }

  lemma Cut256(k: int, low: int, wide: int)
    requires IsByte(low) && wide == 0x100 * k + low
    ensures wide % 0x100 == low
  {
  }

  lemma Cut4(k: int, low: int, wide: int)
    requires 0 <= low < 0x400 && wide == 0x400 * k + low
    ensures wide % 4 == low % 4 && wide / 4 % 0x100 == low / 4
  {
    assert wide / 4 == 0x100 * k + low / 4;
  }

  lemma Cut16(k: int, low: int, wide: int)
    requires 0 <= low < 0x1000 && wide == 0x1000 * k + low
    ensures wide % 16 == low % 16 && wide / 16 % 0x100 == low / 16
  {
    assert wide / 16 == 0x100 * k + low / 16;
  }

  lemma {:induction false} KeptSnoc(text: string, i: nat)
    requires i < |text|
    ensures Kept(text[..i + 1]) == Kept(text[..i]) + if Skipped(text[i]) then "" else [text[i]]
  {
    assert text[..i + 1][..i] == text[..i];
  }

  lemma ValuesSnoc(text: string, c: char)
    ensures Values(text + [c]) ==
      if Values(text).None? || ValueOf(c).None? then None else Some(Values(text).value + [ValueOf(c).value])
  {
    assert (text + [c])[..|text|] == text;
  }

  lemma ShiftSnoc(a: Accumulator, s: seq<int>, v: int)
    requires Pending(a) && SixBit(s) && IsSextet(v)
    ensures ShiftAll(a, s + [v]) == Shift(ShiftAll(a, s), v)
  {
    assert (s + [v])[..|s|] == s;
  }

  lemma {:induction false} BadPrefix(text: string, i: nat)
    requires i <= |text| && Values(Kept(text[..i])).None?
    ensures Decoded(text).None?
    decreases |text| - i
  {
    hide Kept, Values, Skipped, ShiftAll;
    if i < |text| {
      KeptSnoc(text, i);
      ValuesSnoc(Kept(text[..i]), text[i]);
      assert Kept(text[..i]) + "" == Kept(text[..i]);
      BadPrefix(text, i + 1);
    } else {
      assert text[..i] == text;
    }
  }

  /** The decoder's loop, with its 32-bit accumulator. */
  method Decode(text: string) returns (r: Option<seq<int>>)
    ensures r == Decoded(text)
  {
    hide Kept, Values, ShiftAll, Skipped, ValueOf;
    var out: seq<int> := [];
    var buf, bits := 0, 0;
    ghost var values: seq<int> := [];
    NothingDecoded();
    assert text[..0] == [];
    var i := 0;
    while i < |text|
      invariant 0 <= i <= |text| && 0 <= buf < WORD
      invariant Values(Kept(text[..i])) == Some(values)
      invariant var a := ShiftAll(EMPTY, values);
        bits == a.bits && out == a.out && buf % Power(bits) == a.rest
    {
      var c := text[i];
      KeptSnoc(text, i);
      SkippedBytes(c);
      if c != '=' && c as int !in {0x20, 0x09, 0x0A, 0x0C, 0x0D} {
        ValuesSnoc(Kept(text[..i]), c);
        assert Kept(text[..i + 1]) == Kept(text[..i]) + [c];
        var v := ValueOf(c);
        if v.None? {
          BadPrefix(text, i + 1);
          return None;
        }
        ghost var a := ShiftAll(EMPTY, values);
        LowBits(buf, bits, a.rest, v.value);
        ShiftSnoc(EMPTY, values, v.value);
        values := values + [v.value];
        buf := buf * 64 % WORD + v.value;
        bits := bits + 6;
        if bits >= 8 {
          bits := bits - 8;
          out := out + [buf / Power(bits) % 0x100];
        }
      } else {
        assert Kept(text[..i + 1]) == Kept(text[..i]);
      }
      i := i + 1;
    }
    assert text[..i] == text;
    return Some(out);
  }

  lemma NothingDecoded()
    ensures Kept("") == "" && Values("") == Some([]) && ShiftAll(EMPTY, []) == EMPTY
  {
  }

  // ----- Round trip ----------------------------------------------------------------------

  lemma {:induction false} KeptConcat(a: string, b: string)
    ensures Kept(a + b) == Kept(a) + Kept(b)
  {
    if b == "" {
      assert a + b == a;
    } else {
      assert (a + b)[..|a + b| - 1] == a + b[..|b| - 1];
      KeptConcat(a, b[..|b| - 1]);
    }
  }

  lemma {:induction false} ValuesOfSymbols(s: seq<int>)
    requires SixBit(s)
    ensures Values(Symbols(s)) == Some(s)
  {
    hide Symbol, Values;
    if s == [] {
      NothingDecoded();
    } else {
      var front, v := s[..|s| - 1], s[|s| - 1];
      ValuesOfSymbols(front);
      ValuesSnoc(Symbols(front), Symbol(v));
      SymbolValue(v);
      assert Symbols(s) == Symbols(front) + [Symbol(v)];
      assert s == front + [v];
    }
  }

  lemma {:induction false} SymbolsKept(s: seq<int>)
    requires SixBit(s)
    ensures Kept(Symbols(s)) == Symbols(s)
  {
    hide Symbol, ValueOf;
    if s != [] {
      SymbolsKept(s[..|s| - 1]);
      SymbolValue(s[|s| - 1]);
      hide Skipped;
      assert Symbols(s)[..|s| - 1] == Symbols(s[..|s| - 1]);
    }
  }

  lemma PaddingDropped(pad: string)
    requires pad in ["", "=", "=="]
    ensures Kept(pad) == ""
  {
    assert Kept("=") == "" by {
      assert "="[..0] == "";
    }
    assert "=="[..1] == "=";
  }

  lemma ChunkKept(chunk: seq<int>)
    requires 1 <= |chunk| <= 3 && Bytes(chunk)
    ensures Kept(EncodeChunk(chunk)) == Symbols(Sextets(chunk))
  {
    hide Kept, Symbols, Sextets;
    var pad := if |chunk| == 1 then "==" else if |chunk| == 2 then "=" else "";
    KeptConcat(Symbols(Sextets(chunk)), pad);
    SymbolsKept(Sextets(chunk));
    PaddingDropped(pad);
  }

  /** The sextets of a chunk put out its bytes; a full chunk leaves no bits behind. */
  lemma ChunkShifts(a: Accumulator, chunk: seq<int>)
    requires Pending(a) && a.bits == 0 && 1 <= |chunk| <= 3 && Bytes(chunk)
    ensures var b := ShiftAll(a, Sextets(chunk));
      b.out == a.out + chunk && (|chunk| == 3 ==> b.bits == 0)
  {
    hide Sextets, ShiftAll, Shift, Bytes;
    var s := Sextets(chunk);
    ChunkBytes(chunk);
    TwoShifted(a, s[0], s[1]);
    var two := ShiftAll(a, [s[0], s[1]]);
    if |chunk| == 1 {
      assert s == [s[0], s[1]] && a.out + [chunk[0]] == a.out + chunk;
    } else {
      ShiftSnoc(a, [s[0], s[1]], s[2]);
      ThirdShifted(two, s[2]);
      assert [s[0], s[1]] + [s[2]] == [s[0], s[1], s[2]];
      if |chunk| == 2 {
        assert s == [s[0], s[1], s[2]] && a.out + [chunk[0]] + [chunk[1]] == a.out + chunk;
      } else {
        ShiftSnoc(a, [s[0], s[1], s[2]], s[3]);
        FourthShifted(ShiftAll(a, [s[0], s[1], s[2]]), s[3]);
        assert s == [s[0], s[1], s[2]] + [s[3]];
        assert a.out + [chunk[0]] + [chunk[1]] + [chunk[2]] == a.out + chunk;
      }
    }
  }

  lemma ThirdShifted(a: Accumulator, v: int)
    requires Pending(a) && a.bits == 4 && IsSextet(v)
    ensures Shift(a, v) == Accumulator(a.out + [(a.rest * 64 + v) / 4], (a.rest * 64 + v) % 4, 2)
  {
  }

  lemma FourthShifted(a: Accumulator, v: int)
    requires Pending(a) && a.bits == 2 && IsSextet(v)
    ensures Shift(a, v) == Accumulator(a.out + [a.rest * 64 + v], 0, 0)
  {
  }

  lemma TwoShifted(a: Accumulator, v: int, w: int)
    requires Pending(a) && a.bits == 0 && IsSextet(v) && IsSextet(w)
    ensures ShiftAll(a, [v, w]) == Accumulator(a.out + [(v * 64 + w) / 16], (v * 64 + w) % 16, 4)
  {
    NothingShifted(a);
    ShiftSnoc(a, [], v);
    ShiftSnoc(a, [v], w);
    assert [] + [v] == [v] && [v] + [w] == [v, w];
  }

  lemma ChunkBytes(chunk: seq<int>)
    requires 1 <= |chunk| <= 3 && Bytes(chunk)
    ensures var s := Sextets(chunk);
      && chunk[0] == (s[0] * 64 + s[1]) / 16
      && (|chunk| > 1 ==> chunk[1] == ((s[0] * 64 + s[1]) % 16 * 64 + s[2]) / 4)
      && (|chunk| > 2 ==> chunk[2] == ((s[0] * 64 + s[1]) % 16 * 64 + s[2]) % 4 * 64 + s[3])
  {
    var b1, b2 := if |chunk| > 1 then chunk[1] else 0, if |chunk| > 2 then chunk[2] else 0;
    BytesOf(chunk[0], b1, b2);
  }

  lemma BytesOf(b0: int, b1: int, b2: int)
    requires IsByte(b0) && IsByte(b1) && IsByte(b2)
    ensures var s0, s1, s2, s3 := b0 / 4, b0 % 4 * 16 + b1 / 16, b1 % 16 * 4 + b2 / 64, b2 % 64;
      && (s0 * 64 + s1) / 16 == b0 && ((s0 * 64 + s1) % 16 * 64 + s2) / 4 == b1
      && ((s0 * 64 + s1) % 16 * 64 + s2) % 4 * 64 + s3 == b2
  {
    var wide := b0 / 4 * 64 + b0 % 4 * 16 + b1 / 16;
    assert wide == 16 * b0 + b1 / 16;
    assert wide / 16 == b0 && wide % 16 == b1 / 16;
    assert b1 / 16 * 64 + b1 % 16 * 4 + b2 / 64 == 4 * b1 + b2 / 64;
  }

  lemma {:induction false} ShiftConcat(a: Accumulator, s: seq<int>, t: seq<int>)
    requires Pending(a) && SixBit(s) && SixBit(t)
    ensures ShiftAll(a, s + t) == ShiftAll(ShiftAll(a, s), t)
  {
    if t == [] {
      assert s + t == s;
    } else {
      assert (s + t)[..|s + t| - 1] == s + t[..|t| - 1];
      ShiftConcat(a, s, t[..|t| - 1]);
    }
  }

  /** All six-bit groups of the data, in order. */
  function AllSextets(data: seq<int>): (s: seq<int>)
    requires Bytes(data)
    ensures SixBit(s)
  {
    if data == [] then []
    else if |data| <= 3 then Sextets(data)
    else Sextets(data[..3]) + AllSextets(data[3..])
  }

  lemma NoSymbols()
    ensures Symbols([]) == ""
  {
  }

  lemma SymbolsConcat(s: seq<int>, t: seq<int>)
    requires SixBit(s) && SixBit(t)
    ensures Symbols(s + t) == Symbols(s) + Symbols(t)
  {
    hide Symbol;
  }

  lemma {:induction false} EncodedKept(data: seq<int>)
    requires Bytes(data)
    ensures Kept(Encoded(data)) == Symbols(AllSextets(data))
  {
    hide Kept, EncodeChunk, Sextets, Symbols;
    if data == [] {
      NothingDecoded();
      NoSymbols();
    } else if |data| <= 3 {
      ChunkKept(data);
    } else {
      SymbolsConcat(Sextets(data[..3]), AllSextets(data[3..]));
      ChunkKept(data[..3]);
      EncodedKept(data[3..]);
      KeptConcat(EncodeChunk(data[..3]), Encoded(data[3..]));
    }
  }

  lemma {:induction false} AllShifted(a: Accumulator, data: seq<int>)
    requires Pending(a) && a.bits == 0 && Bytes(data)
    ensures ShiftAll(a, AllSextets(data)).out == a.out + data
    decreases |data|
  {
    hide Sextets, Shift, ShiftAll;
    if data == [] {
      NothingShifted(a);
    } else if |data| <= 3 {
      ChunkShifts(a, data);
    } else {
      ChunkShifts(a, data[..3]);
      var b := ShiftAll(a, Sextets(data[..3]));
      AllShifted(b, data[3..]);
      ShiftConcat(a, Sextets(data[..3]), AllSextets(data[3..]));
      assert data == data[..3] + data[3..];
    }
  }

  lemma NothingShifted(a: Accumulator)
    requires Pending(a)
    ensures ShiftAll(a, []) == a
  {
  }

  /** Decoding gives back what was encoded, whatever is skipped in between. */
  lemma DecodeEncoded(data: seq<int>, text: string)
    requires Bytes(data) && Kept(text) == Kept(Encoded(data))
    ensures Decoded(text) == Some(data)
  {
    hide Kept, Symbols, AllSextets, ShiftAll;
    EncodedKept(data);
    NothingDecoded();
    ValuesOfSymbols(AllSextets(data));
    AllShifted(EMPTY, data);
    assert [] + data == data;
  }

  predicate IsWhitespace(c: char) {
    Skipped(c) && c != '='
  }

  function WithoutWhitespace(text: string): string {
    if text == "" then ""
    else
      var last := text[|text| - 1];
      WithoutWhitespace(text[..|text| - 1]) + if IsWhitespace(last) then "" else [last]
  }

  lemma {:induction false} WhitespaceSkipped(text: string)
    ensures Kept(WithoutWhitespace(text)) == Kept(text)
  {
    if text != "" {
      var front, last := text[..|text| - 1], text[|text| - 1];
      WhitespaceSkipped(front);
      var t := WithoutWhitespace(front) + [last];
      assert t[..|t| - 1] == WithoutWhitespace(front);
      if IsWhitespace(last) {
        assert WithoutWhitespace(text) == WithoutWhitespace(front) + "" == WithoutWhitespace(front);
        assert Kept(text) == Kept(front) + "" == Kept(front);
      }
    }
  }

  /** Whitespace may be put in anywhere. */
  lemma RoundTrip(data: seq<int>, text: string)
    requires Bytes(data) && WithoutWhitespace(text) == Encoded(data)
    ensures Decoded(text) == Some(data)
  {
    WhitespaceSkipped(text);
    DecodeEncoded(data, text);
  }

  /** A text is refused exactly when it holds a character that is neither skipped nor in the table. */
  lemma {:induction false} DecodedIffValid(text: string)
    ensures Decoded(text).Some? <==> Valid(text)
  {
    hide ValueOf, Skipped, ShiftAll;
    if text == "" {
      NothingDecoded();
    } else {
      var front, last := text[..|text| - 1], text[|text| - 1];
      DecodedIffValid(front);
      hide Kept, Values;
      KeptSnoc(text, |text| - 1);
      assert text[..|text|] == text;
      assert Valid(text) <==> Valid(front) && (Skipped(last) || ValueOf(last).Some?);
      assert Kept(front) + "" == Kept(front);
      ValuesSnoc(Kept(front), last);
    }
  }
}
