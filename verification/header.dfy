/**
 The document header: shape, font and list tables that grow while a document is compiled.
 Entries are found or appended, never changed, so that an id stays good once it is given out.
 */
module Headers {
  import opened HwpModel
  import opened Styles
  import opened DocumentSpecs

  const TABLE_LIMIT := 0x1_0000
  const NO_COLOR := 0xFFFF_FFFF
  const PER_INCH := 7200.0
  const I32_MAX := 0x7FFF_FFFF

  datatype CharShape = CharShape(
    face: nat, baseSize: int, bold: bool, italic: bool, underlineKind: nat, underlineShape: nat,
    underlineColor: nat, strike: bool, textColor: nat, shadeColor: nat)

  datatype ParaShape = ParaShape(
    align: nat, marginLeft: int, marginRight: int, spacingTop: int, spacingBottom: int,
    lineSpacingType: nat, lineSpacing: int, headType: nat, headLevel: nat, numberingId: nat)

  datatype NumLevel = NumLevel(start: nat, template: string)

  datatype StyleEntry = StyleEntry(name: string, paraShape: nat, charShape: nat)

  datatype Header = Header(
    charShapes: seq<CharShape>,
    paraShapes: seq<ParaShape>,
    fonts: seq<string>,
    styles: seq<StyleEntry>,
    numbering: seq<seq<NumLevel>>,
    bullets: seq<char>)

  /** Later headers keep every entry of earlier ones, at its place. */
  predicate Grows(before: Header, after: Header) {
    && before.charShapes <= after.charShapes && before.paraShapes <= after.paraShapes
    && before.fonts <= after.fonts && before.styles <= after.styles
    && before.numbering <= after.numbering && before.bullets <= after.bullets
  }

  lemma GrowsTransitive(a: Header, b: Header, c: Header)
    requires Grows(a, b) && Grows(b, c)
    ensures Grows(a, c)
  {
  }

  /** What the compiler relies on; the base document satisfies it. */
  predicate HeaderOk(h: Header) {
    1 <= |h.charShapes| <= TABLE_LIMIT && 3 <= |h.paraShapes| <= TABLE_LIMIT
  }

  // ----- Lookup --------------------------------------------------------------------------

  /** The first place of `x`. */
  function IndexOf<T(==)>(s: seq<T>, x: T): (i: nat)
    requires x in s
    ensures i < |s| && s[i] == x
    ensures forall j :: 0 <= j < i ==> s[j] != x
  {
    if s[0] == x then 0 else 1 + IndexOf(s[1..], x)
  }

  lemma IndexOfGrows<T>(s: seq<T>, t: seq<T>, x: T)
    requires s <= t && x in s
    ensures x in t && IndexOf(s, x) == IndexOf(t, x)
  {
    var i, j := IndexOf(s, x), IndexOf(t, x);
    assert t[i] == s[i];
    forall k | 0 <= k < i ensures t[k] != x {
      assert s[k] == t[k];
    }
  }

  function Capped(index: nat): nat {
    if index > U16_MAX then U16_MAX else index
  }

  function EnsureFont(fonts: seq<string>, font: Option<string>): (grown: seq<string>)
    ensures fonts <= grown && (font.Some? ==> font.value in grown)
    ensures font.None? || font.value in fonts ==> grown == fonts
    ensures |grown| <= |fonts| + 1
  {
    if font.Some? && font.value !in fonts then fonts + [font.value] else fonts
  }

  // ----- Lengths -------------------------------------------------------------------------

  /** The nearest whole number; halves go away from zero. */
  function Round(x: real): (r: int)
    ensures r as real - 0.5 <= x <= r as real + 0.5
    ensures x == r as real - 0.5 ==> r > 0
    ensures x == r as real + 0.5 ==> r < 0
  {
    if x < 0.0 then -((0.5 - x).Floor) else (x + 0.5).Floor
  }

  /** Millimetres in units of which an inch, 25.4 mm, has 7200. */
  function MmToHwp(mm: real): (h: int)
    ensures 25.4 * (h as real - 0.5) <= 7200.0 * mm <= 25.4 * (h as real + 0.5)
  {
    Round(mm / 25.4 * PER_INCH)
  }

  /** Points in units of which a point has 100. */
  function PtToHwp(pt: real): (h: int)
    ensures h as real - 0.5 <= 100.0 * pt <= h as real + 0.5
  {
    Round(pt * 100.0)
  }

  // ----- Character shapes ----------------------------------------------------------------

  function FormatStyle(format: RunFormat): StyleSpec {
    DEFAULT_STYLE.(
      fontFamily := format.fontFamily, fontSizePt := format.fontSizePt, bold := format.bold,
      italic := format.italic, underline := format.underline, strike := format.strike,
      color := format.color, background := format.background)
  }

  function Get<T>(own: Option<T>, default: T): T {
    if own.Some? then own.value else default
  }

  /** A base shape with the character values of a style laid over it. */
  function Styled(fonts: seq<string>, base: CharShape, style: StyleSpec): CharShape
    requires style.fontFamily.Some? ==> style.fontFamily.value in fonts
  {
    var underlined := style.underline == Some(true);
    base.(
      face := if style.fontFamily.Some? then Capped(IndexOf(fonts, style.fontFamily.value)) else base.face,
      baseSize := if style.fontSizePt.Some? then PtToHwp(style.fontSizePt.value) else base.baseSize,
      bold := Get(style.bold, base.bold),
      italic := Get(style.italic, base.italic),
      underlineKind := if style.underline.Some? then (if underlined then 1 else 0) else base.underlineKind,
      underlineShape := if underlined then 1 else base.underlineShape,
      underlineColor := if underlined && base.underlineColor == NO_COLOR then base.textColor else base.underlineColor,
      strike := Get(style.strike, base.strike),
      textColor := Get(style.color, base.textColor),
      shadeColor := Get(style.background, base.shadeColor))
  }

  /** The face is the first place of the font, as far as 16 bits can tell. */
  predicate NamesFont(fonts: seq<string>, face: nat, font: string) {
    font in fonts && if IndexOf(fonts, font) <= U16_MAX then face == IndexOf(fonts, font) else face == U16_MAX
  }

  /** An underline that is set gives kind and shape, and the text colour where the base has no colour for it. */
  predicate Underlines(shape: CharShape, base: CharShape, underline: Option<bool>) {
    match underline
    case None =>
      && shape.underlineKind == base.underlineKind && shape.underlineShape == base.underlineShape
      && shape.underlineColor == base.underlineColor
    case Some(false) =>
      && shape.underlineKind == 0 && shape.underlineShape == base.underlineShape
      && shape.underlineColor == base.underlineColor
    case Some(true) =>
      && shape.underlineKind == 1 && shape.underlineShape == 1
      && (if base.underlineColor == NO_COLOR then shape.underlineColor == base.textColor
          else shape.underlineColor == base.underlineColor)
  }

  /** Attribute by attribute: what the style sets is as the style says, everything else as in the base. */
  predicate LaidOver(fonts: seq<string>, shape: CharShape, base: CharShape, style: StyleSpec) {
    && (if style.fontFamily.Some? then NamesFont(fonts, shape.face, style.fontFamily.value)
        else shape.face == base.face)
    && (if style.fontSizePt.Some? then shape.baseSize == PtToHwp(style.fontSizePt.value)
        else shape.baseSize == base.baseSize)
    && (if style.bold.Some? then shape.bold == style.bold.value else shape.bold == base.bold)
    && (if style.italic.Some? then shape.italic == style.italic.value else shape.italic == base.italic)
    && Underlines(shape, base, style.underline)
    && (if style.strike.Some? then shape.strike == style.strike.value else shape.strike == base.strike)
    && (if style.color.Some? then shape.textColor == style.color.value else shape.textColor == base.textColor)
    && (if style.background.Some? then shape.shadeColor == style.background.value
        else shape.shadeColor == base.shadeColor)
  }

  /** The computed shape is the one the attributes determine. */
  lemma StyledIsLaidOver(fonts: seq<string>, shape: CharShape, base: CharShape, style: StyleSpec)
    requires style.fontFamily.Some? ==> style.fontFamily.value in fonts
    ensures shape == Styled(fonts, base, style) <==> LaidOver(fonts, shape, base, style)
  {
    hide PtToHwp, IndexOf;
  }

  /** Character shape `id` is `base` with `style` laid over it. */
  ghost predicate Shows(h: Header, id: nat, base: CharShape, style: StyleSpec) {
    && id < |h.charShapes|
    && (style.fontFamily.Some? ==> style.fontFamily.value in h.fonts)
    && LaidOver(h.fonts, h.charShapes[id], base, style)
  }

  lemma ShowsStyled(h: Header, id: nat, base: CharShape, style: StyleSpec)
    requires id < |h.charShapes| && (style.fontFamily.Some? ==> style.fontFamily.value in h.fonts)
    ensures Shows(h, id, base, style) <==> h.charShapes[id] == Styled(h.fonts, base, style)
  {
    hide Styled, LaidOver;
    StyledIsLaidOver(h.fonts, h.charShapes[id], base, style);
  }

  lemma ShowsGrows(a: Header, b: Header, id: nat, base: CharShape, style: StyleSpec)
    requires Grows(a, b) && Shows(a, id, base, style)
    ensures Shows(b, id, base, style)
  {
    if style.fontFamily.Some? {
      IndexOfGrows(a.fonts, b.fonts, style.fontFamily.value);
    }
  }

  lemma PlainFormat(fonts: seq<string>, base: CharShape)
    ensures Styled(fonts, base, FormatStyle(DEFAULT_FORMAT)) == base
  {
  }

  // ----- Paragraph shapes ----------------------------------------------------------------

  function AlignCode(align: Alignment): nat {
    match align
    case Justify => 0
    case Left => 1
    case Right => 2
    case Center => 3
    case Distribute => 4
  }

  function StyledPara(base: ParaShape, style: StyleSpec): ParaShape {
    base.(
      align := if style.align.Some? then AlignCode(style.align.value) else base.align,
      marginLeft := if style.marginLeftMm.Some? then MmToHwp(style.marginLeftMm.value) else base.marginLeft,
      marginRight := if style.marginRightMm.Some? then MmToHwp(style.marginRightMm.value) else base.marginRight,
      spacingTop := if style.spacingBeforePt.Some? then PtToHwp(style.spacingBeforePt.value) else base.spacingTop,
      spacingBottom := if style.spacingAfterPt.Some? then PtToHwp(style.spacingAfterPt.value) else base.spacingBottom,
      lineSpacingType := if style.lineHeightPercent.Some? then 0 else base.lineSpacingType,
      lineSpacing := Get(style.lineHeightPercent, base.lineSpacing))
  }

  /** The five codes of paragraph alignment. */
  predicate Aligned(code: nat, align: Alignment) {
    && (align == Justify ==> code == 0) && (align == Left ==> code == 1) && (align == Right ==> code == 2)
    && (align == Center ==> code == 3) && (align == Distribute ==> code == 4)
  }

  /** Attribute by attribute, as for character shapes. */
  predicate ParaLaidOver(shape: ParaShape, base: ParaShape, style: StyleSpec) {
    && (if style.align.Some? then Aligned(shape.align, style.align.value) else shape.align == base.align)
    && (if style.marginLeftMm.Some? then shape.marginLeft == MmToHwp(style.marginLeftMm.value)
        else shape.marginLeft == base.marginLeft)
    && (if style.marginRightMm.Some? then shape.marginRight == MmToHwp(style.marginRightMm.value)
        else shape.marginRight == base.marginRight)
    && (if style.spacingBeforePt.Some? then shape.spacingTop == PtToHwp(style.spacingBeforePt.value)
        else shape.spacingTop == base.spacingTop)
    && (if style.spacingAfterPt.Some? then shape.spacingBottom == PtToHwp(style.spacingAfterPt.value)
        else shape.spacingBottom == base.spacingBottom)
    && (if style.lineHeightPercent.Some? then
          shape.lineSpacingType == 0 && shape.lineSpacing == style.lineHeightPercent.value
        else shape.lineSpacingType == base.lineSpacingType && shape.lineSpacing == base.lineSpacing)
    && shape.headType == base.headType && shape.headLevel == base.headLevel && shape.numberingId == base.numberingId
  }

  lemma StyledParaIsLaidOver(shape: ParaShape, base: ParaShape, style: StyleSpec)
    ensures shape == StyledPara(base, style) <==> ParaLaidOver(shape, base, style)
  {
    hide MmToHwp, PtToHwp;
  }

  /** A paragraph shape numbered by a list definition at a level. */
  function Listed(base: ParaShape, ordered: bool, level: nat, definition: nat): ParaShape {
    base.(headType := if ordered then 2 else 3, headLevel := level + 1, numberingId := definition)
  }

  /** A shape with a number or a bullet in front, at its level of its definition, and else as the base. */
  predicate Numbered(shape: ParaShape, base: ParaShape, ordered: bool, level: nat, definition: nat) {
    && (ordered ==> shape.headType == 2) && (!ordered ==> shape.headType == 3)
    && shape.headLevel == level + 1 && shape.numberingId == definition
    && shape.align == base.align && shape.marginLeft == base.marginLeft && shape.marginRight == base.marginRight
    && shape.spacingTop == base.spacingTop && shape.spacingBottom == base.spacingBottom
    && shape.lineSpacingType == base.lineSpacingType && shape.lineSpacing == base.lineSpacing
  }

  lemma ListedIsNumbered(shape: ParaShape, base: ParaShape, ordered: bool, level: nat, definition: nat)
    ensures shape == Listed(base, ordered, level, definition) <==> Numbered(shape, base, ordered, level, definition)
  {
  }

  // ----- Find or push --------------------------------------------------------------------

  /** The entry's place in the table, appended when new; `None` when the table is full. */
  function FindOrPush<T(==)>(table: seq<T>, entry: T): (r: Option<(seq<T>, nat)>)
    requires |table| <= TABLE_LIMIT
    ensures r.Some? ==>
      && table <= r.value.0 && |r.value.0| <= TABLE_LIMIT
      && r.value.1 < |r.value.0| && r.value.0[r.value.1] == entry
    ensures r.None? <==> entry !in table && |table| == TABLE_LIMIT
    ensures entry in table ==> r.value.0 == table
  {
    if entry in table then Some((table, Capped(IndexOf(table, entry))))
    else if |table| > U16_MAX then None
    else Some((table + [entry], |table|))
  }
}
