/**
 Paths into the document tree: reading the paragraph a path names, writing it, and clearing
 the stored XML of the controls the path goes through.
 */
module Addressing {
  import opened HwpModel

  datatype SegmentPath = SegmentPath(section: nat, indices: seq<nat>)

  // ----- Flat indices over paragraph lists -----------------------------------------------

  function AllParagraphs(lists: seq<ParagraphList>): seq<Paragraph> {
    if lists == [] then [] else lists[0].paragraphs + AllParagraphs(lists[1..])
  }

  function FlatAt(lists: seq<ParagraphList>, k: nat): Option<Paragraph> {
    if k < |AllParagraphs(lists)| then Some(AllParagraphs(lists)[k]) else None
  }

  lemma FlatStep(lists: seq<ParagraphList>, i: nat, k: nat)
    requires i < |lists|
    ensures k < |lists[i].paragraphs| ==> FlatAt(lists[i..], k) == Some(lists[i].paragraphs[k])
    ensures k >= |lists[i].paragraphs| ==> FlatAt(lists[i..], k) == FlatAt(lists[i + 1..], k - |lists[i].paragraphs|)
  {
    assert lists[i..][1..] == lists[i + 1..];
  }

  lemma NoFlat(k: nat)
    ensures FlatAt([], k) == None
  {
  }

  /** The paragraph at index `k`, counting on from list to list. */
  method FlatParagraph(lists: seq<ParagraphList>, k: nat) returns (p: Option<Paragraph>)
    ensures p == FlatAt(lists, k)
  {
    hide FlatAt, AllParagraphs;
    var remaining: nat := k;
    var i := 0;
    assert lists[0..] == lists;
    while i < |lists|
      invariant 0 <= i <= |lists| && FlatAt(lists, k) == FlatAt(lists[i..], remaining)
    {
      FlatStep(lists, i, remaining);
      if remaining < |lists[i].paragraphs| {
        return Some(lists[i].paragraphs[remaining]);
      }
      remaining := remaining - |lists[i].paragraphs|;
      i := i + 1;
    }
    assert lists[i..] == [];
    NoFlat(remaining);
    return None;
  }

  /** The lists with the paragraph at flat index `k` replaced. */
  function PutFlat(lists: seq<ParagraphList>, k: nat, q: Paragraph): seq<ParagraphList>
    requires k < |AllParagraphs(lists)|
  {
    var n := |lists[0].paragraphs|;
    if k < n then lists[0 := ParagraphList(lists[0].paragraphs[k := q])]
    else [lists[0]] + PutFlat(lists[1..], k - n, q)
  }

  /** The lists after a write, or nothing when there is no such flat index. */
  function PutFlatAt(lists: seq<ParagraphList>, k: nat, q: Paragraph): Option<seq<ParagraphList>> {
    if k < |AllParagraphs(lists)| then Some(PutFlat(lists, k, q)) else None
  }

  lemma PutFlatStep(lists: seq<ParagraphList>, i: nat, k: nat, q: Paragraph)
    requires i < |lists|
    ensures var list, n := lists[i], |lists[i].paragraphs|;
      var rest := lists[i + 1..];
      && (k < n ==> PutFlatAt(lists[i..], k, q) == Some([ParagraphList(list.paragraphs[k := q])] + rest))
      && (k >= n ==> PutFlatAt(lists[i..], k, q) == Prepended([list], PutFlatAt(rest, k - n, q)))
  {
    assert lists[i..][1..] == lists[i + 1..];
    if k < |lists[i].paragraphs| {
      var written := ParagraphList(lists[i].paragraphs[k := q]);
      assert lists[i..][0 := written] == [written] + lists[i + 1..];
    }
  }

  function Prepended<T>(front: seq<T>, rest: Option<seq<T>>): Option<seq<T>> {
    if rest.None? then None else Some(front + rest.value)
  }

  lemma NothingPrepended<T>(rest: Option<seq<T>>)
    ensures Prepended([], rest) == rest
  {
    assert rest.Some? ==> [] + rest.value == rest.value;
  }

  lemma PrependedTwice<T>(a: seq<T>, b: seq<T>, rest: Option<seq<T>>)
    ensures Prepended(a, Prepended(b, rest)) == Prepended(a + b, rest)
  {
    assert rest.Some? ==> a + (b + rest.value) == a + b + rest.value;
  }

  lemma PutNoFlat(k: nat, q: Paragraph)
    ensures PutFlatAt([], k, q) == None
  {
  }

  /** Writes the paragraph at index `k`, counting on from list to list. */
  method FlatParagraphMut(lists: seq<ParagraphList>, k: nat, q: Paragraph) returns (r: Option<seq<ParagraphList>>)
    ensures r == PutFlatAt(lists, k, q)
  {
    hide PutFlatAt;
    var remaining: nat := k;
    var i := 0;
    assert lists[0..] == lists;
    NothingPrepended(PutFlatAt(lists, k, q));
    while i < |lists|
      invariant 0 <= i <= |lists|
      invariant PutFlatAt(lists, k, q) == Prepended(lists[..i], PutFlatAt(lists[i..], remaining, q))
    {
      var list := lists[i];
      PutFlatStep(lists, i, remaining, q);
      if remaining < |list.paragraphs| {
        var written := ParagraphList(list.paragraphs[remaining := q]);
        assert lists[i := written] == lists[..i] + ([written] + lists[i + 1..]);
        return Some(lists[i := written]);
      }
      remaining := remaining - |list.paragraphs|;
      PrependedTwice(lists[..i], [list], PutFlatAt(lists[i + 1..], remaining, q));
      assert lists[..i + 1] == lists[..i] + [list];
      i := i + 1;
    }
    assert lists[i..] == [];
    PutNoFlat(remaining, q);
    return None;
  }

  /** Writing a flat index is writing the concatenation. */
  lemma {:induction false} PutFlatIsPut(lists: seq<ParagraphList>, k: nat, q: Paragraph)
    requires k < |AllParagraphs(lists)|
    ensures AllParagraphs(PutFlat(lists, k, q)) == AllParagraphs(lists)[k := q]
    ensures |PutFlat(lists, k, q)| == |lists|
  {
    var n := |lists[0].paragraphs|;
    var after := PutFlat(lists, k, q);
    if k < n {
      assert after[1..] == lists[1..];
    } else {
      PutFlatIsPut(lists[1..], k - n, q);
      assert after[1..] == PutFlat(lists[1..], k - n, q);
    }
  }

  lemma {:induction false} PutFlatSame(lists: seq<ParagraphList>, k: nat)
    requires k < |AllParagraphs(lists)|
    ensures PutFlat(lists, k, AllParagraphs(lists)[k]) == lists
  {
    var n := |lists[0].paragraphs|;
    if k < n {
      assert lists[0].paragraphs[k := lists[0].paragraphs[k]] == lists[0].paragraphs;
    } else {
      PutFlatSame(lists[1..], k - n);
      assert lists == [lists[0]] + lists[1..];
    }
  }

  lemma {:induction false} PutFlatTwice(lists: seq<ParagraphList>, k: nat, q: Paragraph, r: Paragraph)
    requires k < |AllParagraphs(lists)|
    ensures k < |AllParagraphs(PutFlat(lists, k, q))|
    ensures PutFlat(PutFlat(lists, k, q), k, r) == PutFlat(lists, k, r)
  {
    PutFlatIsPut(lists, k, q);
    var n := |lists[0].paragraphs|;
    if k < n {
      assert lists[0].paragraphs[k := q][k := r] == lists[0].paragraphs[k := r];
    } else {
      PutFlatTwice(lists[1..], k - n, q, r);
      assert PutFlat(lists, k, q)[1..] == PutFlat(lists[1..], k - n, q);
    }
  }

  // ----- One step down -------------------------------------------------------------------

  /** How many indices a step through a control takes, or zero when it leads nowhere. */
  function StepLength(p: Paragraph, rest: seq<nat>): nat {
    if rest == [] || rest[0] >= |p.controls| then 0
    else
      match p.controls[rest[0]]
      case TableControl(t) =>
        if |rest| >= 3 && rest[1] < |t.cells| && rest[2] < |t.cells[rest[1]].paragraphs| then 3 else 0
      case Generic(g) =>
        if g.rawChildren == [] && |rest| >= 2 && rest[1] < |AllParagraphs(g.lists)| then 2 else 0
      case _ => 0
  }

  /** The paragraph one step down. */
  function Child(p: Paragraph, rest: seq<nat>): (q: Paragraph)
    requires StepLength(p, rest) > 0
    ensures q < p
  {
    match p.controls[rest[0]]
    case TableControl(t) =>
      assert t.cells[rest[1]].paragraphs[rest[2]] < t.cells[rest[1]];
      t.cells[rest[1]].paragraphs[rest[2]]
    case Generic(g) =>
      FlatIsInside(g.lists, rest[1]);
      AllParagraphs(g.lists)[rest[1]]
  }

  lemma {:induction false} FlatIsInside(lists: seq<ParagraphList>, k: nat)
    requires k < |AllParagraphs(lists)|
    ensures exists i :: 0 <= i < |lists| && AllParagraphs(lists)[k] in lists[i].paragraphs
    ensures forall g: GenericControl :: g.lists == lists ==> AllParagraphs(lists)[k] < g
  {
    var n := |lists[0].paragraphs|;
    if k >= n {
      FlatIsInside(lists[1..], k - n);
    }
  }

  /** The paragraph with the one below it, one step down, replaced. */
  function WithChild(p: Paragraph, rest: seq<nat>, q: Paragraph): Paragraph
    requires StepLength(p, rest) > 0
  {
    var c := rest[0];
    match p.controls[c]
    case TableControl(t) =>
      var cell := t.cells[rest[1]];
      p.(controls := p.controls[c :=
        TableControl(t.(cells := t.cells[rest[1] := cell.(paragraphs := cell.paragraphs[rest[2] := q])]))])
    case Generic(g) =>
      p.(controls := p.controls[c := Generic(g.(lists := PutFlat(g.lists, rest[1], q)))])
  }

  /** Whether two chains of indices take the same step from a paragraph. */
  predicate SameStep(p: Paragraph, a: seq<nat>, b: seq<nat>) {
    var n := StepLength(p, a);
    n > 0 && n <= |b| && a[..n] == b[..n]
  }

  lemma StepFits(p: Paragraph, rest: seq<nat>)
    ensures StepLength(p, rest) <= |rest|
  {
  }

  lemma SameStepSame(p: Paragraph, a: seq<nat>, b: seq<nat>)
    requires SameStep(p, a, b)
    ensures StepLength(p, b) == StepLength(p, a) && Child(p, a) == Child(p, b)
    ensures SameStep(p, b, a)
  {
    var n := StepLength(p, a);
    assert forall i :: 0 <= i < n ==> a[i] == a[..n][i] == b[..n][i] == b[i];
  }

  /** Replacing a child keeps the shape: the same steps lead somewhere. */
  lemma WithChildSteps(p: Paragraph, a: seq<nat>, q: Paragraph, b: seq<nat>)
    requires StepLength(p, a) > 0
    ensures StepLength(WithChild(p, a, q), b) == StepLength(p, b)
  {
    if p.controls[a[0]].Generic? {
      PutFlatIsPut(p.controls[a[0]].generic.lists, a[1], q);
    }
  }

  /** A replaced child is found at its own step and nowhere else. */
  lemma ChildOfWithChild(p: Paragraph, a: seq<nat>, q: Paragraph, b: seq<nat>)
    requires StepLength(p, a) > 0 && StepLength(p, b) > 0
    ensures StepLength(WithChild(p, a, q), b) > 0
    ensures Child(WithChild(p, a, q), b) == if SameStep(p, a, b) then q else Child(p, b)
  {
    WithChildSteps(p, a, q, b);
    if p.controls[a[0]].Generic? {
      PutFlatIsPut(p.controls[a[0]].generic.lists, a[1], q);
    }
  }

  lemma WithSameChild(p: Paragraph, a: seq<nat>)
    requires StepLength(p, a) > 0
    ensures WithChild(p, a, Child(p, a)) == p
  {
    var c := a[0];
    match p.controls[c]
    case TableControl(t) =>
      var cell := t.cells[a[1]];
      assert cell.paragraphs[a[2] := cell.paragraphs[a[2]]] == cell.paragraphs;
      assert t.cells[a[1] := cell] == t.cells;
      assert p.controls[c := TableControl(t)] == p.controls;
    case Generic(g) =>
      PutFlatSame(g.lists, a[1]);
      assert p.controls[c := Generic(g)] == p.controls;
  }

  lemma UpdatedTwice<T>(s: seq<T>, i: nat, x: T, y: T)
    requires i < |s|
    ensures s[i := x][i := y] == s[i := y]
  {
  }

  lemma WithChildTwice(p: Paragraph, a: seq<nat>, q: Paragraph, r: Paragraph)
    requires StepLength(p, a) > 0
    ensures StepLength(WithChild(p, a, q), a) > 0
    ensures WithChild(WithChild(p, a, q), a, r) == WithChild(p, a, r)
  {
    WithChildSteps(p, a, q, a);
    var c := a[0];
    match p.controls[c]
    case TableControl(t) =>
      var cell := t.cells[a[1]];
      var one, two := cell.(paragraphs := cell.paragraphs[a[2] := q]), cell.(paragraphs := cell.paragraphs[a[2] := r]);
      assert cell.paragraphs[a[2] := q][a[2] := r] == cell.paragraphs[a[2] := r];
      assert t.cells[a[1] := one][a[1] := two] == t.cells[a[1] := two];
      UpdatedTwice(p.controls, c, TableControl(t.(cells := t.cells[a[1] := one])),
        TableControl(t.(cells := t.cells[a[1] := two])));
    case Generic(g) =>
      PutFlatTwice(g.lists, a[1], q, r);
      UpdatedTwice(p.controls, c, Generic(g.(lists := PutFlat(g.lists, a[1], q))),
        Generic(g.(lists := PutFlat(g.lists, a[1], r))));
  }

  // ----- Paths ---------------------------------------------------------------------------

  /** The paragraph a chain of indices leads to. */
  function Below(p: Paragraph, rest: seq<nat>): Option<Paragraph>
    decreases p
  {
    if rest == [] then Some(p)
    else
      var n := StepLength(p, rest);
      StepFits(p, rest);
      if n == 0 then None else Below(Child(p, rest), rest[n..])
  }

  function PutBelow(p: Paragraph, rest: seq<nat>, q: Paragraph): Paragraph
    requires Below(p, rest).Some?
    decreases p
  {
    if rest == [] then q
    else
      var n := StepLength(p, rest);
      StepFits(p, rest);
      WithChild(p, rest, PutBelow(Child(p, rest), rest[n..], q))
  }

  /** Reading after writing: what was written. */
  lemma {:induction false} ReadWritten(p: Paragraph, a: seq<nat>, q: Paragraph)
    requires Below(p, a).Some?
    ensures Below(PutBelow(p, a, q), a) == Some(q)
    decreases p
  {
    hide StepLength, Child, WithChild;
    StepFits(p, a);
    if a != [] {
      var n := StepLength(p, a);
      ReadWritten(Child(p, a), a[n..], q);
      var child := PutBelow(Child(p, a), a[n..], q);
      WithChildSteps(p, a, child, a);
      ChildOfWithChild(p, a, child, a);
    }
  }

  /** Writing what is there changes nothing. */
  lemma {:induction false} WriteRead(p: Paragraph, a: seq<nat>)
    requires Below(p, a).Some?
    ensures PutBelow(p, a, Below(p, a).value) == p
    decreases p
  {
    hide StepLength, Child, WithChild;
    StepFits(p, a);
    if a != [] {
      WriteRead(Child(p, a), a[StepLength(p, a)..]);
      WithSameChild(p, a);
    }
  }

  /** The last write counts. */
  lemma {:induction false} WriteTwice(p: Paragraph, a: seq<nat>, q: Paragraph, r: Paragraph)
    requires Below(p, a).Some?
    ensures Below(PutBelow(p, a, q), a).Some?
    ensures PutBelow(PutBelow(p, a, q), a, r) == PutBelow(p, a, r)
    decreases p
  {
    hide StepLength, Child, WithChild;
    ReadWritten(p, a, q);
    StepFits(p, a);
    if a != [] {
      var n := StepLength(p, a);
      var child := PutBelow(Child(p, a), a[n..], q);
      WriteTwice(Child(p, a), a[n..], q, r);
      WithChildSteps(p, a, child, a);
      ChildOfWithChild(p, a, child, a);
      WithChildTwice(p, a, child, PutBelow(child, a[n..], r));
    }
  }

  /** A longer chain goes on from where a shorter one leads. */
  lemma {:induction false} BelowConcat(p: Paragraph, a: seq<nat>, b: seq<nat>)
    requires Below(p, a).Some?
    ensures Below(p, a + b) == Below(Below(p, a).value, b)
    decreases p
  {
    hide StepLength, Child;
    StepFits(p, a);
    if a == [] {
      assert a + b == b;
    } else {
      var n := StepLength(p, a);
      assert (a + b)[..n] == a[..n] && (a + b)[n..] == a[n..] + b;
      SameStepSame(p, a, a + b);
      BelowConcat(Child(p, a), a[n..], b);
    }
  }

  /** A write leaves every path that is neither a prefix nor an extension of its own. */
  lemma {:induction false} WriteElsewhere(p: Paragraph, a: seq<nat>, q: Paragraph, b: seq<nat>)
    requires Below(p, a).Some? && !(a <= b) && !(b <= a)
    ensures Below(PutBelow(p, a, q), b) == Below(p, b)
    decreases p
  {
    hide StepLength, Child, WithChild;
    StepFits(p, a);
    StepFits(p, b);
    var n := StepLength(p, a);
    var child := PutBelow(Child(p, a), a[n..], q);
    WithChildSteps(p, a, child, b);
    if SameStep(p, a, b) {
      SameStepSame(p, a, b);
      ChildOfWithChild(p, a, child, b);
      assert a == a[..n] + a[n..] && b == b[..n] + b[n..];
      WriteElsewhere(Child(p, a), a[n..], q, b[n..]);
    } else if StepLength(p, b) > 0 {
      ChildOfWithChild(p, a, child, b);
    }
  }

  /** A write below a path is a write into the paragraph there. */
  lemma {:induction false} WriteBelow(p: Paragraph, a: seq<nat>, b: seq<nat>, q: Paragraph)
    requires Below(p, a).Some? && Below(p, a + b).Some?
    ensures Below(Below(p, a).value, b).Some?
    ensures Below(PutBelow(p, a + b, q), a) == Some(PutBelow(Below(p, a).value, b, q))
    decreases p
  {
    hide StepLength, Child, WithChild;
    BelowConcat(p, a, b);
    StepFits(p, a);
    if a == [] {
      assert a + b == b;
    } else {
      var n := StepLength(p, a);
      assert (a + b)[..n] == a[..n] && (a + b)[n..] == a[n..] + b;
      SameStepSame(p, a, a + b);
      WriteBelow(Child(p, a), a[n..], b, q);
      var child := PutBelow(Child(p, a), a[n..] + b, q);
      WithChildSteps(p, a + b, child, a);
      ChildOfWithChild(p, a + b, child, a);
    }
  }

  lemma {:induction false} BelowIsSmaller(p: Paragraph, a: seq<nat>)
    requires Below(p, a).Some? && a != []
    ensures Below(p, a).value < p
    decreases p
  {
    hide StepLength, Child;
    StepFits(p, a);
    var n := StepLength(p, a);
    if a[n..] != [] {
      BelowIsSmaller(Child(p, a), a[n..]);
    }
  }

  lemma {:induction false} WrittenIsLarger(p: Paragraph, a: seq<nat>, q: Paragraph)
    requires Below(p, a).Some? && a != []
    ensures q < PutBelow(p, a, q)
  {
    ReadWritten(p, a, q);
    BelowIsSmaller(PutBelow(p, a, q), a);
  }

  /** Distinct paths name distinct paragraphs: a paragraph written at one shows up at no other. */
  lemma DistinctPlaces(p: Paragraph, a: seq<nat>, b: seq<nat>, q: Paragraph)
    requires Below(p, a).Some? && Below(p, b).Some? && a != b && Below(p, b) != Some(q)
    ensures Below(PutBelow(p, a, q), b) != Some(q)
  {
    if a <= b {
      var rest := b[|a|..];
      assert b == a + rest;
      ReadWritten(p, a, q);
      BelowConcat(PutBelow(p, a, q), a, rest);
      if Below(q, rest).Some? {
        BelowIsSmaller(q, rest);
      }
    } else if b <= a {
      var rest := a[|b|..];
      assert a == b + rest;
      WriteBelow(p, b, rest, q);
      WrittenIsLarger(Below(p, b).value, rest, q);
    } else {
      WriteElsewhere(p, a, q, b);
    }
  }

  // ----- Whole documents -----------------------------------------------------------------

  function ParagraphAt(doc: Document, path: SegmentPath): Option<Paragraph> {
    if path.indices == [] || path.section >= |doc.sections|
      || path.indices[0] >= |doc.sections[path.section].paragraphs| then None
    else Below(doc.sections[path.section].paragraphs[path.indices[0]], path.indices[1..])
  }

  /** What the document is once the paragraph at a path has been changed to `q`. */
  function WithParagraphAt(doc: Document, path: SegmentPath, q: Paragraph): Document
    requires ParagraphAt(doc, path).Some?
  {
    var ps := doc.sections[path.section].paragraphs;
    var i := path.indices[0];
    doc.(sections := doc.sections[path.section := Section(ps[i := PutBelow(ps[i], path.indices[1..], q)])])
  }

  lemma StepOf(p: Paragraph, indices: seq<nat>, i: nat)
    requires 1 <= i < |indices|
    ensures var n := StepLength(p, indices[i..]);
      && i + n <= |indices|
      && (n == 0 ==> Below(p, indices[i..]) == None)
      && (n > 0 ==> Below(p, indices[i..]) == Below(Child(p, indices[i..]), indices[i + n..]))
  {
    StepFits(p, indices[i..]);
    var n := StepLength(p, indices[i..]);
    assert indices[i..][n..] == indices[i + n..];
  }

  /** The resolver's loop down the tree; it returns at the first index that leads nowhere. */
  method Descend(doc: Document, section: nat, indices: seq<nat>) returns (r: Option<Paragraph>)
    requires indices != []
    ensures r == ParagraphAt(doc, SegmentPath(section, indices))
  {
    hide Below, AllParagraphs;
    if section >= |doc.sections| || indices[0] >= |doc.sections[section].paragraphs| {
      return None;
    }
    var para := doc.sections[section].paragraphs[indices[0]];
    var i := 1;
    while i < |indices|
      invariant 1 <= i <= |indices|
      invariant Below(para, indices[i..]) == ParagraphAt(doc, SegmentPath(section, indices))
    {
      StepOf(para, indices, i);
      if indices[i] >= |para.controls| {
        return None;
      }
      match para.controls[indices[i]] {
        case TableControl(t) =>
          if i + 1 >= |indices| || indices[i + 1] >= |t.cells| {
            return None;
          }
          var cell := t.cells[indices[i + 1]];
          if i + 2 >= |indices| || indices[i + 2] >= |cell.paragraphs| {
            return None;
          }
          para := cell.paragraphs[indices[i + 2]];
          i := i + 3;
        case Generic(g) =>
          if g.rawChildren != [] || i + 1 >= |indices| {
            return None;
          }
          var next := FlatParagraph(g.lists, indices[i + 1]);
          if next.None? {
            return None;
          }
          para := next.value;
          i := i + 2;
        case _ => return None;
      }
    }
    assert indices[i..] == [];
    FoundHere(para);
    return Some(para);
  }

  lemma FoundHere(p: Paragraph)
    ensures Below(p, []) == Some(p)
  {
  }

  lemma BelowStep(p: Paragraph, rest: seq<nat>, q: Paragraph)
    requires rest != []
    ensures var n := StepLength(p, rest);
      && n <= |rest|
      && (n == 0 ==> Below(p, rest).None?)
      && (n > 0 ==>
            && Below(p, rest) == Below(Child(p, rest), rest[n..])
            && (Below(p, rest).Some? ==>
                  PutBelow(p, rest, q) == WithChild(p, rest, PutBelow(Child(p, rest), rest[n..], q))))
  {
    StepFits(p, rest);
  }

  /**
   The writing walk below a paragraph, with bounds checks of its own: what `p` has become once
   the paragraph that the indices name has been changed to `q`.
   */
  method WriteWalk(p: Paragraph, indices: seq<nat>, q: Paragraph) returns (r: Option<Paragraph>)
    ensures r.Some? <==> Below(p, indices).Some?
    ensures r.Some? ==> r.value == PutBelow(p, indices, q)
    decreases p
  {
    hide Below, PutBelow, AllParagraphs, PutFlat;
    if indices == [] {
      FoundHere(p);
      WrittenHere(p, q);
      return Some(q);
    }
    BelowStep(p, indices, q);
    var c := indices[0];
    if c >= |p.controls| {
      return None;
    }
    match p.controls[c] {
      case TableControl(t) =>
        if 1 >= |indices| || indices[1] >= |t.cells| {
          return None;
        }
        var cell := t.cells[indices[1]];
        if 2 >= |indices| || indices[2] >= |cell.paragraphs| {
          return None;
        }
        var below := WriteWalk(cell.paragraphs[indices[2]], indices[3..], q);
        if below.None? {
          return None;
        }
        cell := cell.(paragraphs := cell.paragraphs[indices[2] := below.value]);
        var table := t.(cells := t.cells[indices[1] := cell]);
        return Some(p.(controls := p.controls[c := TableControl(table)]));
      case Generic(g) =>
        if g.rawChildren != [] || 1 >= |indices| {
          return None;
        }
        var found := FlatParagraph(g.lists, indices[1]);
        if found.None? {
          return None;
        }
        FlatIsInside(g.lists, indices[1]);
        var below := WriteWalk(found.value, indices[2..], q);
        if below.None? {
          return None;
        }
        var lists := FlatParagraphMut(g.lists, indices[1], below.value);
        return Some(p.(controls := p.controls[c := Generic(g.(lists := lists.value))]));
      case _ => return None;
    }
  }

  lemma WrittenHere(p: Paragraph, q: Paragraph)
    requires Below(p, []).Some?
    ensures PutBelow(p, [], q) == q
  {
  }

  /** Writing by path: it finds a paragraph exactly where reading does, and changes that one. */
  method ParagraphAtMut(doc: Document, path: SegmentPath, q: Paragraph) returns (r: Option<Document>)
    ensures r.Some? <==> ParagraphAt(doc, path).Some?
    ensures r.Some? ==> r.value == WithParagraphAt(doc, path, q)
  {
    hide Below, PutBelow;
    if path.section >= |doc.sections| {
      return None;
    }
    var paragraphs := doc.sections[path.section].paragraphs;
    if path.indices == [] {
      return None;
    }
    if path.indices[0] >= |paragraphs| {
      return None;
    }
    var written := WriteWalk(paragraphs[path.indices[0]], path.indices[1..], q);
    if written.None? {
      return None;
    }
    var section := Section(paragraphs[path.indices[0] := written.value]);
    return Some(doc.(sections := doc.sections[path.section := section]));
  }

  /** Reading and writing paths of a document agree as a lens. */
  lemma DocumentLens(doc: Document, path: SegmentPath, q: Paragraph, r: Paragraph)
    requires ParagraphAt(doc, path).Some?
    ensures ParagraphAt(WithParagraphAt(doc, path, q), path) == Some(q)
    ensures WithParagraphAt(doc, path, ParagraphAt(doc, path).value) == doc
    ensures WithParagraphAt(WithParagraphAt(doc, path, q), path, r) == WithParagraphAt(doc, path, r)
  {
    hide Below, PutBelow;
    var s, i, rest := path.section, path.indices[0], path.indices[1..];
    var ps := doc.sections[s].paragraphs;
    ReadWritten(ps[i], rest, q);
    WriteRead(ps[i], rest);
    WriteTwice(ps[i], rest, q, r);
    assert ps[i := ps[i]] == ps;
    assert doc.sections[s := Section(ps)] == doc.sections;
    UpdatedTwice(ps, i, PutBelow(ps[i], rest, q), PutBelow(ps[i], rest, r));
    UpdatedTwice(doc.sections, s, Section(ps[i := PutBelow(ps[i], rest, q)]),
      Section(ps[i := PutBelow(ps[i], rest, r)]));
  }

  predicate Related(a: SegmentPath, b: SegmentPath) {
    a.section == b.section && (a.indices <= b.indices || b.indices <= a.indices)
  }

  /** A write at one path changes no path that is neither a prefix nor an extension of it. */
  lemma DocumentElsewhere(doc: Document, a: SegmentPath, q: Paragraph, b: SegmentPath)
    requires ParagraphAt(doc, a).Some? && !Related(a, b)
    ensures ParagraphAt(WithParagraphAt(doc, a, q), b) == ParagraphAt(doc, b)
  {
    hide Below, PutBelow;
    if a.section == b.section && b.indices != [] && a.indices[0] == b.indices[0] {
      var p := doc.sections[a.section].paragraphs[a.indices[0]];
      assert a.indices == [a.indices[0]] + a.indices[1..] && b.indices == [b.indices[0]] + b.indices[1..];
      WriteElsewhere(p, a.indices[1..], q, b.indices[1..]);
    }
  }

  /** Distinct paths of a document name distinct paragraphs. */
  lemma DocumentDistinct(doc: Document, a: SegmentPath, b: SegmentPath, q: Paragraph)
    requires ParagraphAt(doc, a).Some? && ParagraphAt(doc, b).Some? && a != b && ParagraphAt(doc, b) != Some(q)
    ensures ParagraphAt(WithParagraphAt(doc, a, q), b) != Some(q)
  {
    hide Below, PutBelow;
    if Related(a, b) {
      var p := doc.sections[a.section].paragraphs[a.indices[0]];
      assert a.indices == [a.indices[0]] + a.indices[1..] && b.indices == [b.indices[0]] + b.indices[1..];
      DistinctPlaces(p, a.indices[1..], b.indices[1..], q);
    } else {
      DocumentElsewhere(doc, a, q, b);
    }
  }

  // ----- Clearing stored XML -------------------------------------------------------------

  /** The paragraph with the stored XML of one control cleared. */
  function Cleared(p: Paragraph, c: nat): Paragraph {
    if c < |p.controls| && p.controls[c].Generic?
    then p.(controls := p.controls[c := Generic(p.controls[c].generic.(rawXml := None))])
    else p
  }

  /** Clears the stored XML of every generic control a chain of indices goes through, as far as it leads. */
  function Invalidated(p: Paragraph, rest: seq<nat>): Paragraph
    decreases p
  {
    if rest == [] then p
    else
      var n := StepLength(p, rest);
      StepFits(p, rest);
      if n == 0 then Cleared(p, rest[0])
      else
        ClearedSteps(p, rest[0], rest);
        WithChild(Cleared(p, rest[0]), rest, Invalidated(Child(p, rest), rest[n..]))
  }

  lemma ClearedSteps(p: Paragraph, c: nat, rest: seq<nat>)
    ensures StepLength(Cleared(p, c), rest) == StepLength(p, rest)
    ensures StepLength(p, rest) > 0 ==> Child(Cleared(p, c), rest) == Child(p, rest)
  {
  }

  /** The same paragraphs are there afterwards, except that those above the path hold cleared controls. */
  lemma {:induction false} InvalidatedElsewhere(p: Paragraph, a: seq<nat>, b: seq<nat>)
    requires !(b < a)
    ensures Below(Invalidated(p, a), b) == Below(p, b)
    decreases p
  {
    hide StepLength, Child, WithChild, Cleared;
    StepFits(p, a);
    StepFits(p, b);
    if a != [] && b != [] {
      var n := StepLength(p, a);
      ClearedSteps(p, a[0], b);
      ClearedSteps(p, a[0], a);
      if n > 0 {
        var q := Cleared(p, a[0]);
        var child := Invalidated(Child(p, a), a[n..]);
        WithChildSteps(q, a, child, b);
        SameStepCleared(p, a[0], a, b);
        if SameStep(p, a, b) {
          SameStepSame(p, a, b);
          ChildOfWithChild(q, a, child, b);
          assert a == a[..n] + a[n..] && b == b[..n] + b[n..];
          InvalidatedElsewhere(Child(p, a), a[n..], b[n..]);
        } else if StepLength(p, b) > 0 {
          ChildOfWithChild(q, a, child, b);
        }
      }
    }
  }

  lemma SameStepCleared(p: Paragraph, c: nat, a: seq<nat>, b: seq<nat>)
    ensures SameStep(Cleared(p, c), a, b) <==> SameStep(p, a, b)
  {
    hide StepLength, Cleared;
    ClearedSteps(p, c, a);
  }

  /** Above the path, what is found is the old paragraph with the rest of the path cleared. */
  lemma {:induction false} InvalidatedAbove(p: Paragraph, b: seq<nat>, rest: seq<nat>)
    requires Below(p, b).Some?
    ensures Below(Invalidated(p, b + rest), b) == Some(Invalidated(Below(p, b).value, rest))
    decreases p
  {
    hide StepLength, Child, WithChild, Cleared;
    var a := b + rest;
    StepFits(p, b);
    if b == [] {
      assert a == rest;
    } else {
      var n := StepLength(p, b);
      assert a[..n] == b[..n] && a[n..] == b[n..] + rest;
      SameStepSame(p, b, a);
      InvalidatedAbove(Child(p, b), b[n..], rest);
      var q := Cleared(p, a[0]);
      var child := Invalidated(Child(p, a), a[n..]);
      ClearedSteps(p, a[0], a);
      ClearedSteps(p, a[0], b);
      WithChildSteps(q, a, child, b);
      SameStepCleared(p, a[0], a, b);
      ChildOfWithChild(q, a, child, b);
    }
  }

  /** One level of clearing: the control on the path loses its XML, its neighbours keep theirs. */
  lemma InvalidatedHere(p: Paragraph, rest: seq<nat>)
    requires rest != [] && rest[0] < |p.controls|
    ensures var q := Invalidated(p, rest);
      && q == p.(controls := p.controls[rest[0] := q.controls[rest[0]]])
      && (p.controls[rest[0]].Generic? ==>
            && q.controls[rest[0]].Generic?
            && q.controls[rest[0]].generic ==
              p.controls[rest[0]].generic.(lists := q.controls[rest[0]].generic.lists, rawXml := None))
  {
    hide AllParagraphs, PutFlat, Invalidated;
    InvalidatedStep(p, rest);
  }

  lemma InvalidatedStep(p: Paragraph, rest: seq<nat>)
    requires rest != []
    ensures StepLength(p, rest) == 0 ==> Invalidated(p, rest) == Cleared(p, rest[0])
    ensures StepLength(p, rest) > 0 ==>
      && StepLength(p, rest) <= |rest| && StepLength(Cleared(p, rest[0]), rest) > 0
      && Invalidated(p, rest) ==
        WithChild(Cleared(p, rest[0]), rest, Invalidated(Child(p, rest), rest[StepLength(p, rest)..]))
  {
    StepFits(p, rest);
    ClearedSteps(p, rest[0], rest);
  }

  // ----- Nothing but stored XML changes --------------------------------------------------

  /** The paragraph with all stored XML left out, at every depth. */
  function Bare(p: Paragraph): Paragraph
    decreases p
  {
    p.(controls := BareControls(p.controls))
  }

  function BareControls(controls: seq<Control>): (b: seq<Control>)
    ensures |b| == |controls|
    decreases controls
  {
    if controls == [] then [] else BareControls(controls[..|controls| - 1]) + [BareControl(controls[|controls| - 1])]
  }

  function BareControl(control: Control): Control
    decreases control
  {
    match control
    case TableControl(t) => TableControl(t.(cells := BareCells(t.cells)))
    case Generic(g) => Generic(g.(lists := BareLists(g.lists), rawXml := None))
    case _ => control
  }

  function BareCells(cells: seq<Cell>): (b: seq<Cell>)
    ensures |b| == |cells|
    decreases cells
  {
    if cells == [] then []
    else
      var last := cells[|cells| - 1];
      BareCells(cells[..|cells| - 1]) + [last.(paragraphs := BareParagraphs(last.paragraphs))]
  }

  function BareLists(lists: seq<ParagraphList>): (b: seq<ParagraphList>)
    ensures |b| == |lists|
    decreases lists
  {
    if lists == [] then []
    else BareLists(lists[..|lists| - 1]) + [ParagraphList(BareParagraphs(lists[|lists| - 1].paragraphs))]
  }

  function BareParagraphs(ps: seq<Paragraph>): (b: seq<Paragraph>)
    ensures |b| == |ps|
    decreases ps
  {
    if ps == [] then [] else BareParagraphs(ps[..|ps| - 1]) + [Bare(ps[|ps| - 1])]
  }

  lemma {:induction false} BareControlsUpdate(controls: seq<Control>, i: nat, control: Control)
    requires i < |controls| && BareControl(control) == BareControl(controls[i])
    ensures BareControls(controls[i := control]) == BareControls(controls)
  {
    hide BareControl;
    var last := |controls| - 1;
    if i == last {
      assert controls[i := control][..last] == controls[..last];
    } else {
      assert controls[i := control][..last] == controls[..last][i := control];
      BareControlsUpdate(controls[..last], i, control);
    }
  }

  lemma {:induction false} BareCellsUpdate(cells: seq<Cell>, i: nat, ps: seq<Paragraph>)
    requires i < |cells| && BareParagraphs(ps) == BareParagraphs(cells[i].paragraphs)
    ensures BareCells(cells[i := cells[i].(paragraphs := ps)]) == BareCells(cells)
  {
    hide BareParagraphs;
    var last := |cells| - 1;
    var cell := cells[i].(paragraphs := ps);
    if i == last {
      assert cells[i := cell][..last] == cells[..last];
    } else {
      assert cells[i := cell][..last] == cells[..last][i := cell];
      BareCellsUpdate(cells[..last], i, ps);
    }
  }

  lemma {:induction false} BareParagraphsUpdate(ps: seq<Paragraph>, i: nat, q: Paragraph)
    requires i < |ps| && Bare(q) == Bare(ps[i])
    ensures BareParagraphs(ps[i := q]) == BareParagraphs(ps)
  {
    hide Bare;
    var last := |ps| - 1;
    if i == last {
      assert ps[i := q][..last] == ps[..last];
    } else {
      assert ps[i := q][..last] == ps[..last][i := q];
      BareParagraphsUpdate(ps[..last], i, q);
    }
  }

  lemma {:induction false} BareListsFirst(lists: seq<ParagraphList>)
    requires lists != []
    ensures BareLists(lists) == [ParagraphList(BareParagraphs(lists[0].paragraphs))] + BareLists(lists[1..])
  {
    hide BareParagraphs;
    var last := |lists| - 1;
    if last == 0 {
      assert lists[..0] == [] && lists[1..] == [];
    } else {
      BareListsFirst(lists[..last]);
      assert lists[..last][1..] == lists[1..][..last - 1];
    }
  }

  lemma {:induction false} BareListsUpdate(lists: seq<ParagraphList>, k: nat, q: Paragraph)
    requires k < |AllParagraphs(lists)| && Bare(q) == Bare(AllParagraphs(lists)[k])
    ensures BareLists(PutFlat(lists, k, q)) == BareLists(lists)
  {
    hide Bare, BareLists, BareParagraphs;
    var n := |lists[0].paragraphs|;
    var after := PutFlat(lists, k, q);
    BareListsFirst(lists);
    BareListsFirst(after);
    if k < n {
      BareParagraphsUpdate(lists[0].paragraphs, k, q);
      assert after[1..] == lists[1..];
    } else {
      BareListsUpdate(lists[1..], k - n, q);
      assert after[1..] == PutFlat(lists[1..], k - n, q);
    }
  }

  lemma BareCleared(p: Paragraph, c: nat)
    ensures Bare(Cleared(p, c)) == Bare(p)
  {
    hide BareControls, BareLists;
    if c < |p.controls| && p.controls[c].Generic? {
      BareControlsUpdate(p.controls, c, Generic(p.controls[c].generic.(rawXml := None)));
    }
  }

  lemma BareWithChild(p: Paragraph, rest: seq<nat>, q: Paragraph)
    requires StepLength(p, rest) > 0 && Bare(q) == Bare(Child(p, rest))
    ensures Bare(WithChild(p, rest, q)) == Bare(p)
  {
    hide BareControls, BareLists, BareCells, BareParagraphs;
    var c := rest[0];
    match p.controls[c]
    case TableControl(t) =>
      var cell := t.cells[rest[1]];
      BareParagraphsUpdate(cell.paragraphs, rest[2], q);
      BareCellsUpdate(t.cells, rest[1], cell.paragraphs[rest[2] := q]);
      BareControlsUpdate(p.controls, c,
        TableControl(t.(cells := t.cells[rest[1] := cell.(paragraphs := cell.paragraphs[rest[2] := q])])));
    case Generic(g) =>
      BareListsUpdate(g.lists, rest[1], q);
      BareControlsUpdate(p.controls, c, Generic(g.(lists := PutFlat(g.lists, rest[1], q))));
  }

  /** Clearing along a path changes nothing but stored XML. */
  lemma {:induction false} OnlyXmlCleared(p: Paragraph, rest: seq<nat>)
    ensures Bare(Invalidated(p, rest)) == Bare(p)
    decreases p
  {
    hide StepLength, Child, WithChild, Cleared, Bare;
    if rest != [] {
      var n := StepLength(p, rest);
      StepFits(p, rest);
      BareCleared(p, rest[0]);
      ClearedSteps(p, rest[0], rest);
      if n > 0 {
        OnlyXmlCleared(Child(p, rest), rest[n..]);
        BareWithChild(Cleared(p, rest[0]), rest, Invalidated(Child(p, rest), rest[n..]));
      }
    }
  }

  /** The document after the controls along a path have lost their stored XML. */
  function InvalidatedDocument(doc: Document, path: SegmentPath): Document {
    if path.indices == [] || path.section >= |doc.sections|
      || path.indices[0] >= |doc.sections[path.section].paragraphs| then doc
    else
      var ps, i := doc.sections[path.section].paragraphs, path.indices[0];
      doc.(sections := doc.sections[path.section := Section(ps[i := Invalidated(ps[i], path.indices[1..])])])
  }

  /** The clearing walk below a paragraph: it clears as it goes and stops where an index leads nowhere. */
  method ClearingWalk(p: Paragraph, indices: seq<nat>) returns (r: Paragraph)
    ensures r == Invalidated(p, indices)
    decreases p
  {
    hide Invalidated, AllParagraphs, PutFlat;
    if indices == [] {
      NothingInvalidated(p);
      return p;
    }
    InvalidatedStep(p, indices);
    var c := indices[0];
    if c >= |p.controls| {
      return p;
    }
    match p.controls[c] {
      case TableControl(t) =>
        if 1 >= |indices| || indices[1] >= |t.cells| {
          return p;
        }
        var cell := t.cells[indices[1]];
        if 2 >= |indices| || indices[2] >= |cell.paragraphs| {
          return p;
        }
        var below := ClearingWalk(cell.paragraphs[indices[2]], indices[3..]);
        cell := cell.(paragraphs := cell.paragraphs[indices[2] := below]);
        return p.(controls := p.controls[c := TableControl(t.(cells := t.cells[indices[1] := cell]))]);
      case Generic(g) =>
        var cleared := g.(rawXml := None);
        r := p.(controls := p.controls[c := Generic(cleared)]);
        if g.rawChildren != [] || 1 >= |indices| {
          return;
        }
        var found := FlatParagraph(g.lists, indices[1]);
        if found.None? {
          return;
        }
        FlatIsInside(g.lists, indices[1]);
        var below := ClearingWalk(found.value, indices[2..]);
        var lists := FlatParagraphMut(g.lists, indices[1], below);
        return p.(controls := p.controls[c := Generic(cleared.(lists := lists.value))]);
      case _ => return p;
    }
  }

  lemma NothingInvalidated(p: Paragraph)
    ensures Invalidated(p, []) == p
  {
  }

  /** Clears the stored XML of the controls a path goes through, for any path at all. */
  method InvalidateAncestors(doc: Document, path: SegmentPath) returns (r: Document)
    ensures r == InvalidatedDocument(doc, path)
  {
    hide Invalidated;
    if path.section >= |doc.sections| {
      return doc;
    }
    var paragraphs := doc.sections[path.section].paragraphs;
    if path.indices == [] {
      return doc;
    }
    if path.indices[0] >= |paragraphs| {
      return doc;
    }
    var below := ClearingWalk(paragraphs[path.indices[0]], path.indices[1..]);
    var section := Section(paragraphs[path.indices[0] := below]);
    return doc.(sections := doc.sections[path.section := section]);
  }

  /** Paths that do not lie above the given one still name the same paragraphs. */
  lemma InvalidatedDocumentElsewhere(doc: Document, a: SegmentPath, b: SegmentPath)
    requires !(a.section == b.section && b.indices < a.indices)
    ensures ParagraphAt(InvalidatedDocument(doc, a), b) == ParagraphAt(doc, b)
  {
    hide Below, Invalidated;
    if HasStart(doc, a) && HasStart(doc, b) && a.section == b.section && a.indices[0] == b.indices[0] {
      assert a.indices == [a.indices[0]] + a.indices[1..] && b.indices == [b.indices[0]] + b.indices[1..];
      InvalidatedElsewhere(doc.sections[a.section].paragraphs[a.indices[0]], a.indices[1..], b.indices[1..]);
    }
  }

  predicate HasStart(doc: Document, path: SegmentPath) {
    path.indices != [] && path.section < |doc.sections| && path.indices[0] < |doc.sections[path.section].paragraphs|
  }
}
