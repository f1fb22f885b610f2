/**
 The artifact manifest states its own size and a total that includes it. Both are written as
 decimal numbers, so the size is a fixed point, looked for by rendering again and again.
 */
module Manifest {

  const MAX_MANIFEST_FILES := 258
  const MAX_PUBLISHED_TREE_ENTRIES := 259
  const MAX_ARTIFACT_TOTAL_BYTES := 512 * 1024 * 1024
  const U64_MAX := 0xFFFF_FFFF_FFFF_FFFF
  const ROUNDS := 16

  // ----- Decimal numbers -----------------------------------------------------------------

  function Decimal(n: nat): (text: string)
    ensures text != ""
  {
    if n < 10 then [('0' as int + n) as char] else Decimal(n / 10) + [('0' as int + n % 10) as char]
  }

  function Digits(n: nat): (d: nat)
    ensures d >= 1
  {
    if n < 10 then 1 else Digits(n / 10) + 1
  }

  lemma {:induction false} DecimalLength(n: nat)
    ensures |Decimal(n)| == Digits(n)
  {
    if n >= 10 {
      DecimalLength(n / 10);
    }
  }

  /** The number a decimal text stands for. */
  function Value(text: string): int {
    if text == "" then 0 else 10 * Value(text[..|text| - 1]) + (text[|text| - 1] as int - '0' as int)
  }

  lemma {:induction false} DecimalValue(n: nat)
    ensures Value(Decimal(n)) == n
  {
    if n >= 10 {
      DecimalValue(n / 10);
      var text := Decimal(n);
      assert text[..|text| - 1] == Decimal(n / 10);
    } else {
      assert Decimal(n)[..0] == "";
    }
  }

  lemma {:induction false} DigitsMonotone(m: nat, n: nat)
    requires m <= n
    ensures Digits(m) <= Digits(n)
  {
    if n >= 10 && m >= 10 {
      DigitsMonotone(m / 10, n / 10);
    }
  }

  /** Growing at most tenfold adds at most one digit. */
  lemma TenfoldDigits(m: nat, n: nat)
    requires 1 <= m && n <= 10 * m
    ensures Digits(n) <= Digits(m) + 1
  {
    DigitsMonotone(n, 10 * m);
  }

  lemma {:induction false} FewDigits(n: nat)
    requires n >= 1
    ensures Digits(n) <= n
  {
    if n >= 10 {
      FewDigits(n / 10);
    }
  }

  /** A sum has at most the digits of both parts together. */
  lemma {:induction false} DigitsOfSum(m: nat, n: nat)
    ensures Digits(m + n) <= Digits(m) + Digits(n)
    decreases m + n
  {
    if m < 10 && n < 10 {
      assert Digits((m + n) / 10) == 1 || m + n < 10;
    } else {
      var carry := if m % 10 + n % 10 >= 10 then 1 else 0;
      assert (m + n) / 10 == m / 10 + n / 10 + carry;
      SumOfTenths(m, n, carry);
    }
  }

  lemma SumOfTenths(m: nat, n: nat, carry: nat)
    requires m >= 10 || n >= 10
    requires carry == if m % 10 + n % 10 >= 10 then 1 else 0
    ensures Digits(m + n) <= Digits(m) + Digits(n)
  {
    var big := if m >= n then m else n;
    assert m + n <= 10 * big;
    TenfoldDigits(big, m + n);
  }

  // ----- The rendered manifest -----------------------------------------------------------

  /** What surrounds the two numbers; it depends on the files and their count only. */
  datatype Frame = Frame(head: string, middle: string, tail: string) {
    function Size(): nat {
      |head| + |middle| + |tail|
    }
  }

  function Rendered(frame: Frame, size: nat, total: nat): string {
    frame.head + Decimal(size) + frame.middle + Decimal(total) + frame.tail
  }

  /** A decimal number as it is written: digits, and a zero in front only when it stands alone. */
  predicate IsDecimal(text: string) {
    && text != "" && (forall i :: 0 <= i < |text| ==> '0' <= text[i] <= '9')
    && (text[0] == '0' ==> |text| == 1)
  }

  lemma {:induction false} DecimalWritten(n: nat)
    ensures IsDecimal(Decimal(n))
    ensures n > 0 ==> Decimal(n)[0] != '0'
  {
    if n >= 10 {
      DecimalWritten(n / 10);
    }
  }

  /** Between the parts of the frame stand two numbers: the length of the text, and the total with it. */
  ghost predicate StatesSizes(text: string, frame: Frame, files: nat) {
    exists size: string, total: string ::
      && IsDecimal(size) && IsDecimal(total)
      && text == frame.head + size + frame.middle + total + frame.tail
      && Value(size) == |text| && Value(total) == files + |text|
  }

  lemma RenderedStates(frame: Frame, files: nat, size: nat)
    requires |Rendered(frame, size, files + size)| == size
    ensures StatesSizes(Rendered(frame, size, files + size), frame, files)
  {
    hide Decimal, Value, IsDecimal;
    DecimalWritten(size);
    DecimalWritten(files + size);
    DecimalValue(size);
    DecimalValue(files + size);
  }

  /** The length of a manifest that states `size`, when the files take `files` bytes. */
  function Length(c: nat, files: nat, size: nat): nat {
    c + Digits(size) + Digits(files + size)
  }

  lemma RenderedLength(frame: Frame, files: nat, size: nat)
    ensures |Rendered(frame, size, files + size)| == Length(frame.Size(), files, size)
  {
    DecimalLength(size);
    DecimalLength(files + size);
  }

  function Iterate(c: nat, files: nat, k: nat): nat {
    if k == 0 then 0 else Length(c, files, Iterate(c, files, k - 1))
  }

  lemma {:induction false} IterateGrows(c: nat, files: nat, k: nat)
    ensures Iterate(c, files, k) <= Iterate(c, files, k + 1)
  {
    if k > 0 {
      IterateGrows(c, files, k - 1);
      DigitsMonotone(Iterate(c, files, k - 1), Iterate(c, files, k));
      DigitsMonotone(files + Iterate(c, files, k - 1), files + Iterate(c, files, k));
    }
  }

  /** From the second size on, sizes stay within a factor of ten, and digits within two. */
  lemma {:induction false} IterateBounded(c: nat, files: nat, k: nat)
    requires k >= 1
    ensures var s, one := Iterate(c, files, k), Iterate(c, files, 1);
      && 1 <= one <= s <= 10 * one
      && Digits(s) + Digits(files + s) <= Digits(one) + Digits(files + one) + 2
  {
    hide Digits, Iterate;
    FirstSize(c, files);
    var one := Iterate(c, files, 1);
    var s := Iterate(c, files, k);
    if k > 1 {
      IterateBounded(c, files, k - 1);
      IterateGrows(c, files, k - 1);
      NextSize(c, files, k);
      DigitsOfSum(files, one);
      FewDigits(one);
    }
    TenfoldDigits(one, s);
    TenfoldDigits(files + one, files + s);
  }

  lemma FirstSize(c: nat, files: nat)
    ensures Iterate(c, files, 1) == c + 1 + Digits(files) >= 2
  {
    assert Iterate(c, files, 0) == 0;
  }

  lemma NextSize(c: nat, files: nat, k: nat)
    requires k >= 1
    ensures var s := Iterate(c, files, k - 1);
      Iterate(c, files, k) == c + Digits(s) + Digits(files + s)
  {
  }

  /** The size the manifest settles on. */
  function FixedSize(c: nat, files: nat): nat {
    Iterate(c, files, 4)
  }

  /** Four roundings suffice: the fourth size states itself, whatever the files are. */
  lemma FourthIsFixed(c: nat, files: nat)
    ensures Length(c, files, FixedSize(c, files)) == FixedSize(c, files)
  {
    hide Digits, Iterate;
    var s1, s2, s3, s4, s5 := Iterate(c, files, 1), Iterate(c, files, 2), Iterate(c, files, 3), Iterate(c, files, 4),
      Iterate(c, files, 5);
    IterateGrows(c, files, 1);
    IterateGrows(c, files, 2);
    IterateGrows(c, files, 3);
    IterateGrows(c, files, 4);
    IterateBounded(c, files, 4);
    NextSize(c, files, 2);
    NextSize(c, files, 3);
    NextSize(c, files, 4);
    NextSize(c, files, 5);
    SameDigits(files, s1, s2);
    SameDigits(files, s2, s3);
    SameDigits(files, s3, s4);
  }

  lemma SameDigits(files: nat, s: nat, t: nat)
    requires s <= t
    ensures Digits(s) <= Digits(t) && Digits(files + s) <= Digits(files + t)
    ensures s == t ==> Digits(s) == Digits(t) && Digits(files + s) == Digits(files + t)
  {
    DigitsMonotone(s, t);
    DigitsMonotone(files + s, files + t);
  }

  lemma {:induction false} IterateReaches(c: nat, files: nat, k: nat)
    ensures Iterate(c, files, k) <= FixedSize(c, files)
    ensures k >= 4 ==> Iterate(c, files, k) == FixedSize(c, files)
  {
    if k > 4 {
      IterateReaches(c, files, k - 1);
      FourthIsFixed(c, files);
    } else if k < 4 {
      IterateGrows(c, files, 0);
      IterateGrows(c, files, 1);
      IterateGrows(c, files, 2);
      IterateGrows(c, files, 3);
    }
  }

  /** The first fixed size met is the one the sizes settle on. */
  lemma {:induction false} OnlyFixedSize(c: nat, files: nat, k: nat, j: nat)
    requires Iterate(c, files, k) == Iterate(c, files, k + 1)
    ensures Iterate(c, files, k + j) == Iterate(c, files, k)
  {
    if j > 0 {
      OnlyFixedSize(c, files, k, j - 1);
    }
  }

  datatype ManifestError = TooManyFiles | TotalOverflow | TooLarge | NotConverged

  datatype Built = Manifest(bytes: string) | Error(error: ManifestError)

  /**
   The manifest of some files: it states its own length and the total with that length. The
   search for the length never gives up.
   */
  method BuildManifest(frame: Frame, fileCount: nat, files: nat) returns (r: Built)
    ensures r != Error(NotConverged)
    ensures r == Error(TooManyFiles) <==> fileCount > MAX_MANIFEST_FILES
    ensures fileCount <= MAX_MANIFEST_FILES ==>
      var size := FixedSize(frame.Size(), files);
      && (r == Error(TotalOverflow) <==> files + size > U64_MAX)
      && (r == Error(TooLarge) <==> MAX_ARTIFACT_TOTAL_BYTES < files + size <= U64_MAX)
      && (r.Manifest? ==> r.bytes == Rendered(frame, size, files + size) && |r.bytes| == size)
    ensures r.Manifest? ==> StatesSizes(r.bytes, frame, files)
  {
    hide Rendered, Iterate, Length, StatesSizes;
    var count := fileCount + 1;
    if fileCount > MAX_MANIFEST_FILES || count > MAX_PUBLISHED_TREE_ENTRIES {
      return Error(TooManyFiles);
    }
    var size: nat := 0;
    ghost var c := frame.Size();
    NoSize(c, files);
    var round := 0;
    while round < ROUNDS
      invariant 0 <= round <= ROUNDS && size == Iterate(c, files, round)
      invariant round > 0 ==> Iterate(c, files, round - 1) != size
    {
      IterateReaches(c, files, round);
      IterateNext(c, files, round);
      var total := files + size;
      if total > U64_MAX {
        return Error(TotalOverflow);
      }
      var bytes := Rendered(frame, size, total);
      RenderedLength(frame, files, size);
      var next := |bytes|;
      if next == size {
        OnlyFixedSize(c, files, round, 4);
        IterateReaches(c, files, round + 4);
        if total > MAX_ARTIFACT_TOTAL_BYTES {
          return Error(TooLarge);
        }
        RenderedStates(frame, files, size);
        return Manifest(bytes);
      }
      size := next;
      round := round + 1;
    }
    IterateReaches(c, files, round);
    IterateReaches(c, files, round - 1);
    assert false;
  }

  lemma NoSize(c: nat, files: nat)
    ensures Iterate(c, files, 0) == 0
  {
  }

  lemma IterateNext(c: nat, files: nat, k: nat)
    ensures Iterate(c, files, k + 1) == Length(c, files, Iterate(c, files, k))
  {
  }
}
