/**
 Before any block is compiled: styles are resolved and given shapes, lists are given
 numbering or bullet definitions.
 */
module Preparation {
  import opened HwpModel
  import opened Styles
  import opened DocumentSpecs
  import opened Headers
  import opened Realization
  import opened CompileSteps

  // ----- Styles --------------------------------------------------------------------------

  lemma LinksOk(spec: DocumentSpec)
    requires StylesOk(spec) && ChainsOk(spec)
    ensures StyleLinksOk(spec.styles)
  {
    hide ChainEnds;
    forall name | name in spec.styles
      ensures spec.styles[name].basedOn.Some? ==> spec.styles[name].basedOn.value in spec.styles
    {
      assert StyleOk(spec, name);
    }
  }

  method ResolveStyles(styles: StyleTable) returns (r: Outcome<map<string, StyleSpec>>)
    requires StyleLinksOk(styles)
    ensures r.Ok? && r.value.Keys == styles.Keys
    ensures forall name :: name in styles ==> ResolveStyle(styles, name, {}) == Found(r.value[name])
  {
    hide ResolveStyle, ChainEnds, InheritsFromNearest;
    var resolved: map<string, StyleSpec> := map[];
    var left := styles.Keys;
    while left != {}
      invariant left <= styles.Keys && resolved.Keys == styles.Keys - left
      invariant forall name :: name in resolved ==> ResolveStyle(styles, name, {}) == Found(resolved[name])
      decreases |left|
    {
      var name :| name in left;
      ValidatedStylesResolve(styles, name);
      match ResolveStyle(styles, name, {}) {
        case Found(style) => resolved := resolved[name := style];
        case Failed(error) => return Err(if error.InheritanceCycle? then StyleCycle else StyleMissing);
      }
      left := left - {name};
    }
    return Ok(resolved);
  }

  /** Every table a style needs has its entries added one at a time; the error says which is full. */
  predicate NoMoreStyles(h: Header, error: ComposeError) {
    match error
    case ShapeTableFull => |h.charShapes| == TABLE_LIMIT || |h.paraShapes| == TABLE_LIMIT
    case StyleTableFull => |h.styles| >= TABLE_LIMIT
    case _ => false
  }

  predicate OneStyleMore(a: Header, b: Header) {
    && |b.charShapes| <= |a.charShapes| + 1 && |b.paraShapes| <= |a.paraShapes| + 1
    && |b.styles| == |a.styles| + 1 && b.numbering == a.numbering && b.bullets == a.bullets
  }

  /** At most `n` entries more in every table. */
  predicate StylesAdded(a: Header, b: Header, n: nat) {
    && |b.charShapes| <= |a.charShapes| + n && |b.paraShapes| <= |a.paraShapes| + n
    && |b.styles| == |a.styles| + n && b.numbering == a.numbering && b.bullets == a.bullets
  }

  /** One style: its two shapes and its entry in the style table. */
  method CompileStyle(header: Header, name: string, style: StyleSpec) returns (r: Outcome<(Header, CompiledStyle)>)
    requires HeaderOk(header)
    ensures r.Err? ==> NoMoreStyles(header, r.error)
    ensures r.Ok? ==>
      && HeaderOk(r.value.0) && Grows(header, r.value.0) && OneStyleMore(header, r.value.0)
      && StyleMade(r.value.0, r.value.1, name, style)
  {
    hide StyledPara, ParaLaidOver, LaidOver;
    var fonts := EnsureFont(header.fonts, style.fontFamily);
    var charShape := Styled(fonts, header.charShapes[0], style);
    hide Styled;
    var chars := FindOrPush(header.charShapes, charShape);
    if chars.None? {
      return Err(ShapeTableFull);
    }
    var paraShape := StyledPara(header.paraShapes[2], style);
    var paras := FindOrPush(header.paraShapes, paraShape);
    if paras.None? {
      return Err(ShapeTableFull);
    }
    var styleId := |header.styles|;
    if styleId > U16_MAX {
      return Err(StyleTableFull);
    }
    var made := CompiledStyle(styleId, paras.value.1, chars.value.1);
    var grown := header.(
      fonts := fonts, charShapes := chars.value.0, paraShapes := paras.value.0,
      styles := header.styles + [StyleEntry(name, made.paraShape, made.charShape)]);
    assert grown.charShapes[0] == header.charShapes[0] && grown.paraShapes[2] == header.paraShapes[2];
    ShowsStyled(grown, made.charShape, grown.charShapes[0], style);
    StyledParaIsLaidOver(grown.paraShapes[made.paraShape], grown.paraShapes[2], style);
    return Ok((grown, made));
  }

  method CompileStyles(resolved: map<string, StyleSpec>, base: Header)
    returns (r: Outcome<(Header, map<string, CompiledStyle>)>)
    requires HeaderOk(base)
    ensures r.Err? ==> exists h, n: nat :: n < |resolved| && StylesAdded(base, h, n) && NoMoreStyles(h, r.error)
    ensures r.Ok? ==>
      && HeaderOk(r.value.0) && Grows(base, r.value.0) && r.value.1.Keys == resolved.Keys
      && StylesAdded(base, r.value.0, |resolved|)
      && forall name :: name in resolved ==> StyleMade(r.value.0, r.value.1[name], name, resolved[name])
  {
    hide StyleMade, Grows, NoMoreStyles;
    var header := base;
    var styles: map<string, CompiledStyle> := map[];
    var left := resolved.Keys;
    GrowsSelf(base);
    while left != {}
      invariant left <= resolved.Keys && styles.Keys == resolved.Keys - left
      invariant HeaderOk(header) && Grows(base, header) && StylesAdded(base, header, |resolved| - |left|)
      invariant forall name :: name in styles ==> StyleMade(header, styles[name], name, resolved[name])
      decreases |left|
    {
      var name :| name in left;
      var made := CompileStyle(header, name, resolved[name]);
      if made.Err? {
        assert StylesAdded(base, header, |resolved| - |left|);
        return Err(made.error);
      }
      forall other | other in styles ensures StyleMade(made.value.0, styles[other], other, resolved[other]) {
        StyleStaysMade(header, made.value.0, styles[other], other, resolved[other]);
      }
      GrowsTransitive(base, header, made.value.0);
      header := made.value.0;
      styles := styles[name := made.value.1];
      left := left - {name};
    }
    return Ok((header, styles));
  }

  lemma GrowsSelf(h: Header)
    ensures Grows(h, h)
  {
  }

  // ----- Lists ---------------------------------------------------------------------------

  const NUMBERING_LEVELS := 7

  /** How a template refers to the number of a level. */
  function LevelNumber(level: nat): string
    requires level < NUMBERING_LEVELS
  {
    ['^', "1234567"[level]]
  }

  /** The marker with every `{n}` replaced by the number of the level. */
  function Template(marker: string, level: nat): string
    requires level < NUMBERING_LEVELS
  {
    if marker == "" then ""
    else if CounterAt(marker, 0) then LevelNumber(level) + Template(marker[3..], level)
    else [marker[0]] + Template(marker[1..], level)
  }

  lemma TemplateStep(marker: string, level: nat)
    requires level < NUMBERING_LEVELS && marker != ""
    ensures var t := Template(marker, level);
      if CounterAt(marker, 0) then t == LevelNumber(level) + Template(marker[3..], level) && t[0] == '^'
      else t == [marker[0]] + Template(marker[1..], level)
  {
  }

  lemma CounterInRest(first: string, rest: string, i: nat)
    requires |first| <= i
    ensures CounterAt(first + rest, i) <==> CounterAt(rest, i - |first|)
  {
    if i + 3 <= |first + rest| {
      assert (first + rest)[i..i + 3] == rest[i - |first|..i - |first| + 3];
    }
  }

  /** A template no longer holds a counter: none is overlooked, none comes about. */
  lemma {:induction false} NoCounterLeft(marker: string, level: nat, i: nat)
    requires level < NUMBERING_LEVELS
    ensures !CounterAt(Template(marker, level), i)
  {
    hide Template;
    if marker == "" {
      NothingToReplace(level);
    } else {
      TemplateStep(marker, level);
      if CounterAt(marker, 0) {
        if i < 2 {
          assert Template(marker, level)[i] == LevelNumber(level)[i] != '{';
        } else {
          CounterInRest(LevelNumber(level), Template(marker[3..], level), i);
          NoCounterLeft(marker[3..], level, i - 2);
        }
      } else if i >= 1 {
        CounterInRest([marker[0]], Template(marker[1..], level), i);
        NoCounterLeft(marker[1..], level, i - 1);
      } else if CounterAt(Template(marker, level), 0) {
        CounterKept(marker, level);
      }
    }
  }

  lemma NothingToReplace(level: nat)
    requires level < NUMBERING_LEVELS
    ensures Template("", level) == ""
  {
  }

  /** A counter at the start of a template would have stood at the start of the marker. */
  lemma CounterKept(marker: string, level: nat)
    requires level < NUMBERING_LEVELS && CounterAt(Template(marker, level), 0)
    ensures CounterAt(marker, 0)
  {
    hide Template, CounterAt;
    var t := Template(marker, level);
    CounterStart(t);
    NothingToReplace(level);
    TemplateStep(marker, level);
    if !CounterAt(marker, 0) {
      var rest := marker[1..];
      assert Template(rest, level) == t[1..];
      TemplateStep(rest, level);
      var last := rest[1..];
      assert Template(last, level) == t[2..];
      TemplateStep(last, level);
      assert marker[..3] == "{n}";
      CounterStart(marker);
    }
  }

  lemma CounterStart(text: string)
    ensures CounterAt(text, 0) <==> |text| >= 3 && text[0] == '{' && text[1] == 'n' && text[2] == '}'
  {
  }

  /** Every counter becomes the number of the level, and what stands before and behind it is kept apart. */
  lemma {:induction false} TemplateAt(marker: string, level: nat, i: nat)
    requires level < NUMBERING_LEVELS && CounterAt(marker, i)
    ensures Template(marker, level) ==
      Template(marker[..i], level) + LevelNumber(level) + Template(marker[i + 3..], level)
  {
    hide Template, LevelNumber;
    CounterStart(marker);
    TemplateStep(marker, level);
    if i == 0 {
      NothingToReplace(level);
      assert marker[..0] == "";
    } else {
      var n := if CounterAt(marker, 0) then 3 else 1;
      assert marker[i] == marker[i..i + 3][0] == '{';
      CounterInRest(marker[..n], marker[n..], i);
      assert marker == marker[..n] + marker[n..];
      TemplateAt(marker[n..], level, i - n);
      CounterStart(marker[..i]);
      TemplateStep(marker[..i], level);
      assert marker[..i][n..] == marker[n..][..i - n];
      assert marker[n..][i - n + 3..] == marker[i + 3..];
    }
  }

  /** The numbering definition of an ordered list; levels it does not define count from one. */
  function Numbering(list: ListSpec): seq<NumLevel> {
    seq(NUMBERING_LEVELS, i requires 0 <= i < NUMBERING_LEVELS =>
      if i < |list.levels| then NumLevel(list.levels[i].start, Template(list.levels[i].marker, i))
      else NumLevel(1, LevelNumber(i) + "."))
  }

  /** Seven levels: those of the list with its first numbers and templates, the others counting from one. */
  predicate Numbers(levels: seq<NumLevel>, list: ListSpec) {
    && |levels| == 7
    && forall i :: 0 <= i < 7 ==>
      if i < |list.levels| then
        levels[i].start == list.levels[i].start && levels[i].template == Template(list.levels[i].marker, i)
      else
        levels[i].start == 1 && levels[i].template == ['^', ('1' as int + i) as char, '.']
  }

  lemma NumberingNumbers(list: ListSpec)
    ensures Numbers(Numbering(list), list)
  {
    hide Template;
    forall i | 0 <= i < 7 ensures LevelNumber(i) == ['^', ('1' as int + i) as char] {
      LevelDigit(i);
    }
  }

  lemma LevelDigit(level: nat)
    requires level < NUMBERING_LEVELS
    ensures LevelNumber(level) == ['^', ('1' as int + level) as char]
  {
  }

  /** Definition `id` shows level `level` of the list. */
  predicate LevelDefined(h: Header, list: ListSpec, level: nat, id: nat)
    requires level < |list.levels|
  {
    if list.ordered then id < |h.numbering| && Numbers(h.numbering[id], list)
    else id < |h.bullets| && list.levels[level].marker != [] && h.bullets[id] == list.levels[level].marker[0]
  }

  predicate ListDefined(h: Header, list: ListSpec, ids: seq<nat>) {
    && |ids| == |list.levels|
    && (forall k :: 0 <= k < |ids| ==> LevelDefined(h, list, k, ids[k]))
    && (list.ordered ==> forall k :: 0 <= k < |ids| ==> ids[k] == ids[0])
  }

  lemma ListStaysDefined(a: Header, b: Header, list: ListSpec, ids: seq<nat>)
    requires ListDefined(a, list, ids) && Grows(a, b)
    ensures ListDefined(b, list, ids)
  {
    forall k | 0 <= k < |ids| ensures LevelDefined(b, list, k, ids[k]) {
      assert LevelDefined(a, list, k, ids[k]);
    }
  }

  /** One more list could be too much for a table. */
  predicate NoMoreLists(h: Header) {
    |h.numbering| >= TABLE_LIMIT || |h.bullets| + NUMBERING_LEVELS > TABLE_LIMIT
  }

  predicate ListsAdded(a: Header, b: Header, n: nat) {
    && b.charShapes == a.charShapes && b.paraShapes == a.paraShapes
    && |b.numbering| <= |a.numbering| + n && |b.bullets| <= |a.bullets| + NUMBERING_LEVELS * n
  }

  method CompileList(header: Header, list: ListSpec) returns (r: Outcome<(Header, seq<nat>)>)
    requires |list.levels| <= NUMBERING_LEVELS && forall k :: 0 <= k < |list.levels| ==> list.levels[k].marker != []
    ensures r.Err? ==> r.error == ListTableFull && NoMoreLists(header)
    ensures r.Ok? ==>
      && Grows(header, r.value.0) && ListDefined(r.value.0, list, r.value.1) && ListsAdded(header, r.value.0, 1)
      && r.value.0.charShapes == header.charShapes && r.value.0.paraShapes == header.paraShapes
  {
    if list.ordered {
      var id := |header.numbering|;
      if id > U16_MAX {
        return Err(ListTableFull);
      }
      NumberingNumbers(list);
      var grown := header.(numbering := header.numbering + [Numbering(list)]);
      var ids := seq(|list.levels|, _ => id);
      forall k | 0 <= k < |ids| ensures LevelDefined(grown, list, k, ids[k]) {
      }
      return Ok((grown, ids));
    }
    var grown := header;
    var ids: seq<nat> := [];
    var k := 0;
    while k < |list.levels|
      invariant 0 <= k <= |list.levels| && |ids| == k && Grows(header, grown) && |grown.bullets| == |header.bullets| + k
      invariant grown == header.(bullets := grown.bullets)
      invariant forall j :: 0 <= j < k ==> LevelDefined(grown, list, j, ids[j])
    {
      var id := |grown.bullets|;
      if id > U16_MAX {
        return Err(ListTableFull);
      }
      ghost var before := grown;
      grown := grown.(bullets := grown.bullets + [list.levels[k].marker[0]]);
      ids := ids + [id];
      forall j | 0 <= j < k + 1 ensures LevelDefined(grown, list, j, ids[j]) {
        assert j < k ==> LevelDefined(before, list, j, ids[j]);
      }
      k := k + 1;
    }
    return Ok((grown, ids));
  }

  method CompileLists(lists: map<string, ListSpec>, base: Header) returns (r: Outcome<(Header, map<string, seq<nat>>)>)
    requires HeaderOk(base)
    requires forall name :: name in lists ==> |lists[name].levels| <= NUMBERING_LEVELS
    requires forall name, k :: name in lists && 0 <= k < |lists[name].levels| ==> lists[name].levels[k].marker != []
    ensures r.Err? ==> r.error == ListTableFull && exists h, n: nat ::
      n < |lists| && ListsAdded(base, h, n) && NoMoreLists(h)
    ensures r.Ok? ==>
      && HeaderOk(r.value.0) && Grows(base, r.value.0) && r.value.1.Keys == lists.Keys
      && ListsAdded(base, r.value.0, |lists|)
      && forall name :: name in lists ==> ListDefined(r.value.0, lists[name], r.value.1[name])
  {
    hide ListDefined, Grows, NoMoreLists;
    var header := base;
    var ids: map<string, seq<nat>> := map[];
    var left := lists.Keys;
    GrowsSelf(base);
    while left != {}
      invariant left <= lists.Keys && ids.Keys == lists.Keys - left
      invariant HeaderOk(header) && Grows(base, header) && ListsAdded(base, header, |lists| - |left|)
      invariant forall name :: name in ids ==> ListDefined(header, lists[name], ids[name])
      decreases |left|
    {
      var name :| name in left;
      var made := CompileList(header, lists[name]);
      if made.Err? {
        assert ListsAdded(base, header, |lists| - |left|);
        return Err(made.error);
      }
      forall other | other in ids ensures ListDefined(made.value.0, lists[other], ids[other]) {
        ListStaysDefined(header, made.value.0, lists[other], ids[other]);
      }
      GrowsTransitive(base, header, made.value.0);
      header := made.value.0;
      ids := ids[name := made.value.1];
      left := left - {name};
    }
    return Ok((header, ids));
  }

  /** Markers of validated lists are not empty. */
  lemma MarkersOk(spec: DocumentSpec)
    requires ListsOk(spec)
    ensures forall name :: name in spec.lists ==> |spec.lists[name].levels| <= NUMBERING_LEVELS
    ensures forall name, k :: name in spec.lists && 0 <= k < |spec.lists[name].levels| ==>
      spec.lists[name].levels[k].marker != []
  {
    hide HasCounter;
    forall name | name in spec.lists ensures |spec.lists[name].levels| <= NUMBERING_LEVELS {
      assert ListOk(spec, name);
    }
    forall name, k | name in spec.lists && 0 <= k < |spec.lists[name].levels|
      ensures spec.lists[name].levels[k].marker != []
    {
      assert ListOk(spec, name);
      assert LevelOk(spec, spec.lists[name].ordered, spec.lists[name].levels[k]);
    }
  }
}
