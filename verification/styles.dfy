/**
 Style inheritance: the validator's search for cycles in the `based_on` chains, and the
 compiler's resolution of a style to the values it inherits.
 */
module Styles {
  import opened HwpModel

  datatype Alignment = Justify | Left | Right | Center | Distribute

  datatype StyleSpec = StyleSpec(
    basedOn: Option<string>,
    fontFamily: Option<string>,
    fontSizePt: Option<real>,
    bold: Option<bool>,
    italic: Option<bool>,
    underline: Option<bool>,
    strike: Option<bool>,
    color: Option<nat>,
    background: Option<nat>,
    align: Option<Alignment>,
    marginLeftMm: Option<real>,
    marginRightMm: Option<real>,
    spacingBeforePt: Option<real>,
    spacingAfterPt: Option<real>,
    lineHeightPercent: Option<nat>,
    keepWithNext: Option<bool>)

  const DEFAULT_STYLE := StyleSpec(None, None, None, None, None, None, None, None, None, None, None, None, None, None,
    None, None)

  type StyleTable = map<string, StyleSpec>

  function Parent(styles: StyleTable, name: string): Option<string> {
    if name in styles then styles[name].basedOn else None
  }

  // ----- Chains --------------------------------------------------------------------------

  /** The style reached after following `based_on` `k` times; `None` once the chain has ended. */
  function Ancestor(styles: StyleTable, name: string, k: nat): Option<string> {
    if k == 0 then Some(name)
    else
      match Ancestor(styles, name, k - 1)
      case None => None
      case Some(a) => Parent(styles, a)
  }

  /** The `based_on` chain of `name` comes to an end. */
  ghost predicate ChainEnds(styles: StyleTable, name: string) {
    exists k: nat :: Ancestor(styles, name, k) == None
  }

  /** Following `current` never meets a style of `seen` or the same style twice. */
  ghost predicate NeverRevisits(styles: StyleTable, current: Option<string>, seen: set<string>)
    decreases if current.None? then 0 else 1 + |styles.Keys - seen|
  {
    match current
    case None => true
    case Some(n) =>
      && n !in seen
      && if n in styles then
           assert styles.Keys - (seen + {n}) < styles.Keys - seen;
           CardinalityShrinks(styles.Keys - (seen + {n}), styles.Keys - seen);
           NeverRevisits(styles, styles[n].basedOn, seen + {n})
         else true
  }

  lemma CardinalityShrinks(a: set<string>, b: set<string>)
    requires a < b
    ensures |a| < |b|
  {
    var x :| x in b && x !in a;
    assert a <= b - {x};
    SubsetCardinality(a, b - {x});
  }

  lemma {:induction false} SubsetCardinality(a: set<string>, b: set<string>)
    requires a <= b
    ensures |a| <= |b|
    decreases |a|
  {
    if a != {} {
      var x :| x in a;
      SubsetCardinality(a - {x}, b - {x});
    }
  }

  lemma {:induction false} AncestorShift(styles: StyleTable, name: string, k: nat)
    requires name in styles && styles[name].basedOn.Some?
    ensures Ancestor(styles, name, k + 1) == Ancestor(styles, styles[name].basedOn.value, k)
  {
    if k > 0 {
      AncestorShift(styles, name, k - 1);
    }
  }

  lemma {:induction false} NoRevisitEnds(styles: StyleTable, name: string, seen: set<string>)
    requires NeverRevisits(styles, Some(name), seen)
    ensures ChainEnds(styles, name)
    decreases |styles.Keys - seen|
  {
    if name in styles && styles[name].basedOn.Some? {
      var parent := styles[name].basedOn.value;
      CardinalityShrinks(styles.Keys - (seen + {name}), styles.Keys - seen);
      NoRevisitEnds(styles, parent, seen + {name});
      var k: nat :| Ancestor(styles, parent, k) == None;
      AncestorShift(styles, name, k);
      assert Ancestor(styles, name, k + 1) == None;
    } else {
      assert Ancestor(styles, name, 0) == Some(name);
      assert Ancestor(styles, name, 1) == None;
    }
  }

  lemma {:induction false} EndedStaysEnded(styles: StyleTable, name: string, k: nat, m: nat)
    requires Ancestor(styles, name, k) == None && k <= m
    ensures Ancestor(styles, name, m) == None
    decreases m - k
  {
    if k < m {
      assert Ancestor(styles, name, k + 1) == None;
      EndedStaysEnded(styles, name, k + 1, m);
    }
  }

  lemma {:induction false} Repeats(styles: StyleTable, name: string, i: nat, j: nat, k: nat)
    requires i < j && Ancestor(styles, name, i) == Ancestor(styles, name, j)
    ensures Ancestor(styles, name, i + k) == Ancestor(styles, name, j + k)
  {
    if k > 0 {
      Repeats(styles, name, i, j, k - 1);
    }
  }

  /** A chain that meets a style twice goes on forever. */
  lemma {:induction false} RepeatNeverEnds(styles: StyleTable, name: string, i: nat, j: nat, k: nat)
    requires i < j && Ancestor(styles, name, i).Some?
    requires Ancestor(styles, name, i) == Ancestor(styles, name, j)
    ensures Ancestor(styles, name, k).Some?
    decreases k
  {
    if k < j {
      if Ancestor(styles, name, k) == None {
        EndedStaysEnded(styles, name, k, j);
      }
    } else {
      RepeatNeverEnds(styles, name, i, j, i + (k - j));
      Repeats(styles, name, i, j, k - j);
    }
  }

  /** The styles met in the first `m` steps from `name`. */
  ghost function PathSet(styles: StyleTable, name: string, m: nat): set<string> {
    if m == 0 then {}
    else
      var a := Ancestor(styles, name, m - 1);
      PathSet(styles, name, m - 1) + if a.Some? then {a.value} else {}
  }

  lemma {:induction false} PathMember(styles: StyleTable, name: string, m: nat, s: string) returns (i: nat)
    requires s in PathSet(styles, name, m)
    ensures i < m && Ancestor(styles, name, i) == Some(s)
  {
    if Ancestor(styles, name, m - 1) == Some(s) {
      i := m - 1;
    } else {
      i := PathMember(styles, name, m - 1, s);
    }
  }

  lemma PathIsSimple(styles: StyleTable, name: string, m: nat)
    requires ChainEnds(styles, name) && Ancestor(styles, name, m).Some?
    ensures Ancestor(styles, name, m).value !in PathSet(styles, name, m)
  {
    var end: nat :| Ancestor(styles, name, end) == None;
    var n := Ancestor(styles, name, m).value;
    if n in PathSet(styles, name, m) {
      var i := PathMember(styles, name, m, n);
      RepeatNeverEnds(styles, name, i, m, end);
    }
  }

  lemma {:induction false} EndsNoRevisit(styles: StyleTable, name: string, m: nat)
    requires ChainEnds(styles, name)
    ensures NeverRevisits(styles, Ancestor(styles, name, m), PathSet(styles, name, m))
    decreases if Ancestor(styles, name, m).None? then 0 else 1 + |styles.Keys - PathSet(styles, name, m)|
  {
    match Ancestor(styles, name, m)
    case None =>
    case Some(n) =>
      PathIsSimple(styles, name, m);
      if n in styles {
        var seen := PathSet(styles, name, m);
        assert PathSet(styles, name, m + 1) == seen + {n};
        CardinalityShrinks(styles.Keys - (seen + {n}), styles.Keys - seen);
        EndsNoRevisit(styles, name, m + 1);
      }
  }

  /** The cycle search reports a style exactly when its chain never ends. */
  lemma CycleFreeIffChainEnds(styles: StyleTable, name: string)
    ensures NeverRevisits(styles, Some(name), {}) <==> ChainEnds(styles, name)
  {
    if NeverRevisits(styles, Some(name), {}) {
      NoRevisitEnds(styles, name, {});
    }
    if ChainEnds(styles, name) {
      EndsNoRevisit(styles, name, 0);
    }
  }

  /** The validator's walk from one style; `found` says that it met a style twice. */
  method FindCycle(styles: StyleTable, name: string) returns (found: bool)
    ensures found <==> !ChainEnds(styles, name)
  {
    var seen: set<string> := {};
    var current: Option<string> := Some(name);
    found := false;
    while current.Some?
      invariant !found
      invariant NeverRevisits(styles, Some(name), {}) <==> NeverRevisits(styles, current, seen)
      decreases if current.None? then 0 else 1 + |styles.Keys - seen|
    {
      var styleName := current.value;
      if styleName in seen {
        found := true;
        break;
      }
      if styleName in styles {
        CardinalityShrinks(styles.Keys - (seen + {styleName}), styles.Keys - seen);
      }
      seen := seen + {styleName};
      current := Parent(styles, styleName);
    }
    CycleFreeIffChainEnds(styles, name);
  }

  // ----- Resolution ----------------------------------------------------------------------

  datatype StyleError = InheritanceCycle | StyleNotFound

  datatype Resolved = Found(style: StyleSpec) | Failed(error: StyleError)

  function Or<T>(own: Option<T>, inherited: Option<T>): Option<T> {
    if own.Some? then own else inherited
  }

  /** The inherited values, overridden by every value the style sets itself. */
  function MergeStyle(target: StyleSpec, own: StyleSpec): StyleSpec {
    target.(
      fontFamily := Or(own.fontFamily, target.fontFamily),
      fontSizePt := Or(own.fontSizePt, target.fontSizePt),
      bold := Or(own.bold, target.bold),
      italic := Or(own.italic, target.italic),
      underline := Or(own.underline, target.underline),
      strike := Or(own.strike, target.strike),
      color := Or(own.color, target.color),
      background := Or(own.background, target.background),
      align := Or(own.align, target.align),
      marginLeftMm := Or(own.marginLeftMm, target.marginLeftMm),
      marginRightMm := Or(own.marginRightMm, target.marginRightMm),
      spacingBeforePt := Or(own.spacingBeforePt, target.spacingBeforePt),
      spacingAfterPt := Or(own.spacingAfterPt, target.spacingAfterPt),
      lineHeightPercent := Or(own.lineHeightPercent, target.lineHeightPercent),
      keepWithNext := Or(own.keepWithNext, target.keepWithNext))
  }

  function Derive(inherited: StyleSpec, own: StyleSpec): StyleSpec {
    MergeStyle(inherited, own).(basedOn := None)
  }

  function ResolveStyle(styles: StyleTable, name: string, stack: set<string>): Resolved
    decreases |styles.Keys - stack|
  {
    if name in stack then Failed(InheritanceCycle)
    else if name !in styles then Failed(StyleNotFound)
    else
      var own := styles[name];
      CardinalityShrinks(styles.Keys - (stack + {name}), styles.Keys - stack);
      var inherited :=
        match own.basedOn
        case Some(parent) => ResolveStyle(styles, parent, stack + {name})
        case None => Found(DEFAULT_STYLE);
      if inherited.Failed? then inherited
      else Found(Derive(inherited.style, own))
  }

  /** What the validator demands of the inheritance links. */
  ghost predicate StyleLinksOk(styles: StyleTable) {
    forall name :: name in styles ==>
      && (styles[name].basedOn.Some? ==> styles[name].basedOn.value in styles)
      && ChainEnds(styles, name)
  }

  lemma {:induction false} ResolveSucceeds(styles: StyleTable, name: string, stack: set<string>)
    requires StyleLinksOk(styles) && name in styles && NeverRevisits(styles, Some(name), stack)
    ensures ResolveStyle(styles, name, stack).Found?
    ensures ResolveStyle(styles, name, stack).style.basedOn == None
    decreases |styles.Keys - stack|
  {
    if styles[name].basedOn.Some? {
      CardinalityShrinks(styles.Keys - (stack + {name}), styles.Keys - stack);
      ResolveSucceeds(styles, styles[name].basedOn.value, stack + {name});
    }
  }

  /** `value` is what the nearest style on the chain that sets the field sets it to. */
  ghost predicate IsNearest<T>(styles: StyleTable, name: string, field: StyleSpec -> Option<T>, value: Option<T>) {
    if value == None then
      forall k: nat :: SetsNothing(styles, name, k, field)
    else
      exists k: nat :: SetsTo(styles, name, k, field, value) && forall j: nat :: j < k ==>
        SetsNothing(styles, name, j, field)
  }

  ghost predicate SetsNothing<T>(styles: StyleTable, name: string, k: nat, field: StyleSpec -> Option<T>) {
    var a := Ancestor(styles, name, k);
    a.Some? && a.value in styles ==> field(styles[a.value]) == None
  }

  ghost predicate SetsTo<T>(styles: StyleTable, name: string, k: nat, field: StyleSpec -> Option<T>, value: Option<T>) {
    var a := Ancestor(styles, name, k);
    a.Some? && a.value in styles && field(styles[a.value]) == value
  }

  /** The field is one that merging overrides and that starts out unset. */
  ghost predicate Inheritable<T>(field: StyleSpec -> Option<T>) {
    && (forall t, o :: field(Derive(t, o)) == Or(field(o), field(t)))
    && field(DEFAULT_STYLE) == None
  }

  lemma RootNearest<T>(styles: StyleTable, name: string, field: StyleSpec -> Option<T>)
    requires name in styles && styles[name].basedOn == None
    ensures IsNearest(styles, name, field, field(styles[name]))
  {
    assert Ancestor(styles, name, 0) == Some(name);
    assert Ancestor(styles, name, 1) == None;
    forall k: nat | k > 0 ensures SetsNothing(styles, name, k, field) {
      EndedStaysEnded(styles, name, 1, k);
    }
    assert SetsTo(styles, name, 0, field, field(styles[name]));
  }

  lemma ResolveStep(styles: StyleTable, name: string, stack: set<string>)
    requires ResolveStyle(styles, name, stack).Found?
    ensures name in styles && name !in stack
    ensures match styles[name].basedOn
      case None => ResolveStyle(styles, name, stack).style == Derive(DEFAULT_STYLE, styles[name])
      case Some(parent) =>
        && ResolveStyle(styles, parent, stack + {name}).Found?
        && ResolveStyle(styles, name, stack).style ==
          Derive(ResolveStyle(styles, parent, stack + {name}).style, styles[name])
  {
  }

  lemma NearestCases<T>(styles: StyleTable, name: string, field: StyleSpec -> Option<T>, inherited: Option<T>)
    requires name in styles
    requires styles[name].basedOn == None ==> inherited == None
    requires styles[name].basedOn.Some? ==> IsNearest(styles, styles[name].basedOn.value, field, inherited)
    ensures IsNearest(styles, name, field, Or(field(styles[name]), inherited))
  {
    if styles[name].basedOn == None {
      RootNearest(styles, name, field);
    } else if field(styles[name]).Some? {
      assert Ancestor(styles, name, 0) == Some(name);
      assert SetsTo(styles, name, 0, field, field(styles[name]));
    } else {
      InheritNearest(styles, name, styles[name].basedOn.value, field, inherited);
    }
  }

  lemma {:induction false} ResolvesToNearest<T>(styles: StyleTable, name: string, stack: set<string>,
      field: StyleSpec -> Option<T>)
    requires Inheritable(field)
    requires ResolveStyle(styles, name, stack).Found?
    ensures IsNearest(styles, name, field, field(ResolveStyle(styles, name, stack).style))
    decreases |styles.Keys - stack|
  {
    ResolveStep(styles, name, stack);
    match styles[name].basedOn
    case None =>
      NearestCases(styles, name, field, None);
      assert field(Derive(DEFAULT_STYLE, styles[name])) == Or(field(styles[name]), None);
    case Some(parent) =>
      CardinalityShrinks(styles.Keys - (stack + {name}), styles.Keys - stack);
      ResolvesToNearest(styles, parent, stack + {name}, field);
      var inherited := ResolveStyle(styles, parent, stack + {name}).style;
      NearestCases(styles, name, field, field(inherited));
      assert field(Derive(inherited, styles[name])) == Or(field(styles[name]), field(inherited));
  }

  lemma InheritNearest<T>(styles: StyleTable, name: string, parent: string, field: StyleSpec -> Option<T>,
      value: Option<T>)
    requires name in styles && styles[name].basedOn == Some(parent) && field(styles[name]) == None
    requires IsNearest(styles, parent, field, value)
    ensures IsNearest(styles, name, field, value)
  {
    forall k: nat ensures SetsNothing(styles, name, k + 1, field) <==> SetsNothing(styles, parent, k, field) {
      AncestorShift(styles, name, k);
    }
    assert SetsNothing(styles, name, 0, field);
    if value == None {
      forall k: nat ensures SetsNothing(styles, name, k, field) {
        assert k > 0 ==> SetsNothing(styles, parent, k - 1, field);
        assert k > 0 ==> SetsNothing(styles, name, (k - 1) + 1, field);
      }
    } else {
      var k: nat :| SetsTo(styles, parent, k, field, value) && forall j: nat :: j < k ==>
        SetsNothing(styles, parent, j, field);
      AncestorShift(styles, name, k);
      assert SetsTo(styles, name, k + 1, field, value);
      forall j: nat | j < k + 1 ensures SetsNothing(styles, name, j, field) {
        assert j > 0 ==> SetsNothing(styles, parent, j - 1, field);
        assert j > 0 ==> SetsNothing(styles, name, (j - 1) + 1, field);
      }
    }
  }

  /** Each of the fifteen fields of `resolved` comes from the nearest style that sets it. */
  ghost predicate InheritsFromNearest(styles: StyleTable, name: string, resolved: StyleSpec) {
    && IsNearest(styles, name, (s: StyleSpec) => s.fontFamily, resolved.fontFamily)
    && IsNearest(styles, name, (s: StyleSpec) => s.fontSizePt, resolved.fontSizePt)
    && IsNearest(styles, name, (s: StyleSpec) => s.bold, resolved.bold)
    && IsNearest(styles, name, (s: StyleSpec) => s.italic, resolved.italic)
    && IsNearest(styles, name, (s: StyleSpec) => s.underline, resolved.underline)
    && IsNearest(styles, name, (s: StyleSpec) => s.strike, resolved.strike)
    && IsNearest(styles, name, (s: StyleSpec) => s.color, resolved.color)
    && IsNearest(styles, name, (s: StyleSpec) => s.background, resolved.background)
    && IsNearest(styles, name, (s: StyleSpec) => s.align, resolved.align)
    && IsNearest(styles, name, (s: StyleSpec) => s.marginLeftMm, resolved.marginLeftMm)
    && IsNearest(styles, name, (s: StyleSpec) => s.marginRightMm, resolved.marginRightMm)
    && IsNearest(styles, name, (s: StyleSpec) => s.spacingBeforePt, resolved.spacingBeforePt)
    && IsNearest(styles, name, (s: StyleSpec) => s.spacingAfterPt, resolved.spacingAfterPt)
    && IsNearest(styles, name, (s: StyleSpec) => s.lineHeightPercent, resolved.lineHeightPercent)
    && IsNearest(styles, name, (s: StyleSpec) => s.keepWithNext, resolved.keepWithNext)
  }

  /** Validated styles resolve without error, every field to its nearest definition. */
  lemma ValidatedStylesResolve(styles: StyleTable, name: string)
    requires StyleLinksOk(styles) && name in styles
    ensures ResolveStyle(styles, name, {}).Found?
    ensures InheritsFromNearest(styles, name, ResolveStyle(styles, name, {}).style)
  {
    CycleFreeIffChainEnds(styles, name);
    ResolveSucceeds(styles, name, {});
    ResolvesToNearest(styles, name, {}, (s: StyleSpec) => s.fontFamily);
    ResolvesToNearest(styles, name, {}, (s: StyleSpec) => s.fontSizePt);
    ResolvesToNearest(styles, name, {}, (s: StyleSpec) => s.bold);
    ResolvesToNearest(styles, name, {}, (s: StyleSpec) => s.italic);
    ResolvesToNearest(styles, name, {}, (s: StyleSpec) => s.underline);
    ResolvesToNearest(styles, name, {}, (s: StyleSpec) => s.strike);
    ResolvesToNearest(styles, name, {}, (s: StyleSpec) => s.color);
    ResolvesToNearest(styles, name, {}, (s: StyleSpec) => s.background);
    ResolvesToNearest(styles, name, {}, (s: StyleSpec) => s.align);
    ResolvesToNearest(styles, name, {}, (s: StyleSpec) => s.marginLeftMm);
    ResolvesToNearest(styles, name, {}, (s: StyleSpec) => s.marginRightMm);
    ResolvesToNearest(styles, name, {}, (s: StyleSpec) => s.spacingBeforePt);
    ResolvesToNearest(styles, name, {}, (s: StyleSpec) => s.spacingAfterPt);
    ResolvesToNearest(styles, name, {}, (s: StyleSpec) => s.lineHeightPercent);
    ResolvesToNearest(styles, name, {}, (s: StyleSpec) => s.keepWithNext);
  }
}
