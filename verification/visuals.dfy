/**
 Version 2 of the composer: visuals are attached, one control each, to paragraphs of a
 compiled document, and counted in a second report.
 */
module Visuals {
  import opened HwpModel
  import opened Realization
  import opened RealizationFacts
  import PB = ParagraphBuilding

  datatype Target = Hwp | Hwpx

  datatype Policy = RequiredNative | PreferNative | ForceVisualFallback

  /** An image as it is (`plain`) or cropped or rotated, a vector graphic, or a text box. */
  datatype Content = ImageContent(plain: bool) | SvgContent | TextBoxContent(text: string)

  datatype Representation = NativeForm | FallbackForm

  /** `media` is the stream the picture will refer to; `None` when its file cannot be turned into one. */
  datatype Visual = Visual(
    content: Content, hwp: Policy, hwpx: Policy, section: nat, paragraph: nat,
    isInline: bool, width: int, height: int, media: Option<string>)

  datatype VisualError = NativeUnavailable | FallbackUnavailable | MediaUnavailable | LocationGone

  // ----- Capabilities --------------------------------------------------------------------

  predicate NativeCapable(content: Content, target: Target) {
    match content
    case ImageContent(plain) => plain
    case TextBoxContent(_) => target == Hwpx
    case SvgContent => false
  }

  predicate FallbackCapable(content: Content) {
    !content.TextBoxContent?
  }

  /** Native are plain images, and text boxes in the XML format; a picture can stand in for all but text. */
  lemma Capabilities(content: Content, target: Target)
    ensures NativeCapable(content, target) <==>
      content == ImageContent(true) || (content.TextBoxContent? && target == Hwpx)
    ensures FallbackCapable(content) <==> content.ImageContent? || content == SvgContent
  {
  }

  function PolicyFor(visual: Visual, target: Target): Policy {
    if target == Hwp then visual.hwp else visual.hwpx
  }

  /** The representation a policy leads to, or the reason there is none. */
  function Resolve(visual: Visual, target: Target): (r: Option<Representation>)
    ensures r == Some(NativeForm) ==> !visual.content.SvgContent?
    ensures r == Some(FallbackForm) ==> !visual.content.TextBoxContent?
  {
    var policy := PolicyFor(visual, target);
    if policy != ForceVisualFallback && NativeCapable(visual.content, target) then Some(NativeForm)
    else if policy != RequiredNative && FallbackCapable(visual.content) then Some(FallbackForm)
    else None
  }

  /** What the policy `p` for both targets would lead to. */
  function Under(visual: Visual, target: Target, p: Policy): Option<Representation> {
    Resolve(visual.(hwp := p, hwpx := p), target)
  }

  /**
   The policies compared: requiring and forcing lead to their own form or to nothing, preferring
   falls back from the one to the other, and fails only for a text box in the binary format. What
   the other target's policy says makes no difference.
   */
  lemma PoliciesCompared(visual: Visual, target: Target)
    ensures Under(visual, target, RequiredNative) in {None, Some(NativeForm)}
    ensures Under(visual, target, ForceVisualFallback) in {None, Some(FallbackForm)}
    ensures Under(visual, target, PreferNative) ==
      if Under(visual, target, RequiredNative).Some? then Some(NativeForm)
        else Under(visual, target, ForceVisualFallback)
    ensures Under(visual, target, PreferNative).None? <==> visual.content.TextBoxContent? && target == Hwp
    ensures Resolve(visual, Hwp) == Under(visual, Hwp, visual.hwp)
    ensures Resolve(visual, Hwpx) == Under(visual, Hwpx, visual.hwpx)
  {
  }

  /** Why a visual cannot be attached, if so: its policy first, then its media. */
  predicate Faulty(visual: Visual, target: Target, error: VisualError) {
    var policy := if target == Hwp then visual.hwp else visual.hwpx;
    match error
    case NativeUnavailable => policy == RequiredNative && !NativeCapable(visual.content, target)
    case FallbackUnavailable =>
      && !FallbackCapable(visual.content)
      && (policy == ForceVisualFallback || (policy == PreferNative && !NativeCapable(visual.content, target)))
    case MediaUnavailable =>
      && !visual.content.TextBoxContent? && visual.media.None?
      && (policy == RequiredNative ==> NativeCapable(visual.content, target))
    case LocationGone => false
  }

  predicate Faultless(visual: Visual, target: Target) {
    forall error :: !Faulty(visual, target, error)
  }

  // ----- Text boxes ----------------------------------------------------------------------

  /** The text between line feeds. */
  function Lines(text: string): (lines: seq<string>)
    ensures lines != []
  {
    if text == [] then [[]]
    else
      var front, c := Lines(text[..|text| - 1]), text[|text| - 1];
      if c == '\n' then front + [[]] else front[..|front| - 1] + [front[|front| - 1] + [c]]
  }

  function Joined(lines: seq<string>): string
    requires lines != []
  {
    if |lines| == 1 then lines[0] else Joined(lines[..|lines| - 1]) + "\n" + lines[|lines| - 1]
  }

  lemma JoinedLast(front: seq<string>, line: string)
    ensures Joined(front + [line]) == if front == [] then line else Joined(front) + "\n" + line
  {
    assert (front + [line])[..|front|] == front;
  }

  lemma JoinedSnoc(front: seq<string>, line: string, c: char)
    ensures Joined(front + [line + [c]]) == Joined(front + [line]) + [c]
  {
    hide Joined;
    JoinedLast(front, line);
    JoinedLast(front, line + [c]);
    if front != [] {
      Regrouped(Joined(front) + "\n", line, [c]);
    }
  }

  lemma Regrouped(a: string, b: string, c: string)
    ensures a + (b + c) == a + b + c
  {
  }

  /** Splitting loses nothing. */
  lemma {:induction false} LinesJoin(text: string)
    ensures Joined(Lines(text)) == text
  {
    if text == [] {
      assert Lines(text) == [[]];
    } else {
      var front, c := Lines(text[..|text| - 1]), text[|text| - 1];
      LinesJoin(text[..|text| - 1]);
      hide Joined;
      assert text == text[..|text| - 1] + [c];
      if c == '\n' {
        JoinedLast(front, []);
      } else {
        JoinedSnoc(front[..|front| - 1], front[|front| - 1], c);
        assert front[..|front| - 1] + [front[|front| - 1]] == front;
      }
    }
  }

  /** No line holds a line feed. */
  predicate Broken(lines: seq<string>) {
    forall i :: 0 <= i < |lines| ==> '\n' !in lines[i]
  }

  lemma {:induction false} LinesBroken(text: string)
    ensures Broken(Lines(text))
  {
    if text != [] {
      LinesBroken(text[..|text| - 1]);
    }
  }

  lemma {:induction false} LinesOfJoined(lines: seq<string>)
    requires lines != [] && Broken(lines)
    ensures Lines(Joined(lines)) == lines
    decreases |lines|, |lines[|lines| - 1]|
  {
    var front, line := lines[..|lines| - 1], lines[|lines| - 1];
    assert lines == front + [line];
    JoinedLast(front, line);
    if line != [] {
      var short, c := line[..|line| - 1], line[|line| - 1];
      assert line == short + [c] && c in line;
      JoinedSnoc(front, short, c);
      LinesOfJoined(front + [short]);
      LinesSnoc(Joined(front + [short]), c);
    } else if front != [] {
      LinesOfJoined(front);
      assert Joined(lines) == Joined(front) + ['\n'];
      LinesSnoc(Joined(front), '\n');
    }
  }

  lemma LinesSnoc(text: string, c: char)
    ensures var front := Lines(text);
      Lines(text + [c]) == if c == '\n' then front + [[]] else front[..|front| - 1] + [front[|front| - 1] + [c]]
  {
    assert (text + [c])[..|text|] == text;
  }

  /** The lines of a text are the one way to write it as lines without line feeds. */
  lemma LinesExactly(text: string, lines: seq<string>)
    requires lines != []
    ensures lines == Lines(text) <==> Broken(lines) && Joined(lines) == text
  {
    hide Lines, Joined, Broken;
    LinesJoin(text);
    LinesBroken(text);
    if Broken(lines) {
      LinesOfJoined(lines);
    }
  }

  function TextLine(line: string): Paragraph {
    Paragraph(0, 0, seq(|line|, i requires 0 <= i < |line| => Text(line[i])), [ShapeRun(0, 0)], [], 0, 0, [])
  }

  function TextLines(lines: seq<string>): seq<Paragraph> {
    if lines == [] then [] else TextLines(lines[..|lines| - 1]) + [TextLine(lines[|lines| - 1])]
  }

  function TextBox(text: string): Control {
    Generic(GenericControl("rect", [], [ParagraphList(TextLines(Lines(text)))], [], None, None))
  }

  function VisualControl(visual: Visual): Control
    requires !visual.content.TextBoxContent? ==> visual.media.Some?
  {
    if visual.content.TextBoxContent? then TextBox(visual.content.text)
    else PictureControl(Picture(visual.media.value, visual.width, visual.height, visual.isInline, 0))
  }

  // ----- Attaching -----------------------------------------------------------------------

  /** A control at the end of a paragraph; its index is cut to 32 bits. */
  function Attached(p: Paragraph, control: Control): Paragraph {
    p.(chars := p.chars + [ExtCtrl(OBJECT, CtrlId(control), Some(|p.controls| % 0x1_0000_0000))],
       controls := p.controls + [control], ctrlMask := 0, lineSegs := [])
  }

  predicate HasParagraph(doc: Document, section: nat, paragraph: nat) {
    section < |doc.sections| && paragraph < |doc.sections[section].paragraphs|
  }

  function WithParagraph(doc: Document, section: nat, paragraph: nat, p: Paragraph): Document
    requires HasParagraph(doc, section, paragraph)
  {
    var ps := doc.sections[section].paragraphs;
    doc.(sections := doc.sections[section := Section(ps[paragraph := p])])
  }

  lemma LongerText(chars: seq<HwpChar>, ch: HwpChar, runs: seq<ShapeRun>)
    requires PB.RunsOk(runs, WcharLen(chars))
    ensures PB.RunsOk(runs, WcharLen(chars + [ch]))
  {
    assert (chars + [ch])[..|chars|] == chars;
  }

  lemma WrongIndexUnlinked(chars: seq<HwpChar>, controls: seq<Control>, control: Control, index: nat)
    requires Linked(chars, controls) && index != |controls|
    ensures !Linked(chars + [ExtCtrl(OBJECT, CtrlId(control), Some(index))], controls + [control])
  {
    hide ExtCount;
    var all := chars + [ExtCtrl(OBJECT, CtrlId(control), Some(index))];
    assert all[..|chars|] == chars;
    assert !LinkedAt(all, controls + [control], |chars|);
  }

  /** The cut index is harmless exactly while a paragraph has fewer than 2^32 controls. */
  lemma AttachedSound(p: Paragraph, control: Control)
    requires Sound(p)
    ensures Sound(Attached(p, control)) <==> |p.controls| < 0x1_0000_0000
  {
    hide Linked, PB.RunsOk, WcharLen;
    LongerText(p.chars, ExtCtrl(OBJECT, CtrlId(control), Some(|p.controls| % 0x1_0000_0000)), p.runs);
    if |p.controls| < 0x1_0000_0000 {
      LinkedSnocControl(p.chars, p.controls, OBJECT, control);
    } else {
      WrongIndexUnlinked(p.chars, p.controls, control, |p.controls| % 0x1_0000_0000);
    }
  }

  lemma AttachedStats(p: Paragraph, control: Control)
    requires Sound(p) && |p.controls| < 0x1_0000_0000
    ensures ParagraphStats(Attached(p, control)) == ParagraphStats(p).Plus(ControlStats(control))
  {
    hide Sound, Linked, Unresolved, ControlStats, Stats.Plus;
    var q := Attached(p, control);
    AttachedSound(p, control);
    SoundResolves(p);
    SoundResolves(q);
    FieldStartsConcat(p.chars, [q.chars[|p.chars|]]);
    OneFieldStart(q.chars[|p.chars|]);
    ControlsSnoc(q.controls);
    assert q.controls[..|p.controls|] == p.controls;
    PlusAssociates(Stats(1, 0, 0, 0, FieldStarts(p.chars), 0), ControlsStats(p.controls), ControlStats(control));
  }

  lemma PlusCommutes(a: Stats, b: Stats, c: Stats)
    ensures a.Plus(b).Plus(c) == a.Plus(c).Plus(b)
  {
  }

  lemma {:induction false} ReplacedStats(ps: seq<Paragraph>, i: nat, q: Paragraph, more: Stats)
    requires i < |ps| && ParagraphStats(q) == ParagraphStats(ps[i]).Plus(more)
    ensures ParagraphsStats(ps[i := q]) == ParagraphsStats(ps).Plus(more)
  {
    hide Stats.Plus, ParagraphStats;
    var last := |ps| - 1;
    if i == last {
      assert ps[i := q][..last] == ps[..last];
      PlusAssociates(ParagraphsStats(ps[..last]), ParagraphStats(ps[i]), more);
    } else {
      ReplacedStats(ps[..last], i, q, more);
      assert ps[i := q][..last] == ps[..last][i := q];
      PlusCommutes(ParagraphsStats(ps[..last]), more, ParagraphStats(ps[last]));
    }
  }

  lemma {:induction false} ReplacedSectionStats(sections: seq<Section>, i: nat, s: Section, more: Stats)
    requires i < |sections| && ParagraphsStats(s.paragraphs) == ParagraphsStats(sections[i].paragraphs).Plus(more)
    ensures SectionsStats(sections[i := s]) == SectionsStats(sections).Plus(more)
  {
    hide Stats.Plus, ParagraphsStats;
    var last := |sections| - 1;
    if i == last {
      assert sections[i := s][..last] == sections[..last];
      PlusAssociates(SectionsStats(sections[..last]), ParagraphsStats(sections[i].paragraphs), more);
    } else {
      ReplacedSectionStats(sections[..last], i, s, more);
      assert sections[i := s][..last] == sections[..last][i := s];
      PlusCommutes(SectionsStats(sections[..last]), more, ParagraphsStats(sections[last].paragraphs));
    }
  }

  // ----- What visuals add ----------------------------------------------------------------

  /** A text box adds its lines as paragraphs; everything else is one picture. */
  function VisualStats(visual: Visual): Stats {
    if visual.content.TextBoxContent? then Stats(|Lines(visual.content.text)|, 0, 0, 0, 0, 0)
    else Stats(0, 0, 1, 0, 0, 0)
  }

  function VisualsStats(visuals: seq<Visual>): Stats {
    if visuals == [] then NO_STATS
    else VisualsStats(visuals[..|visuals| - 1]).Plus(VisualStats(visuals[|visuals| - 1]))
  }

  lemma {:induction false} TextLinesStats(lines: seq<string>)
    ensures ParagraphsStats(TextLines(lines)) == Stats(|lines|, 0, 0, 0, 0, 0)
  {
    hide Stats.Plus, ParagraphStats, ParagraphsStats;
    if lines == [] {
      assert TextLines(lines) == [];
      NoParagraphs();
    } else {
      OneLineMore(|lines| - 1);
      TextLinesStats(lines[..|lines| - 1]);
      TextLineStats(lines[|lines| - 1]);
      ParagraphsStatsSnoc(TextLines(lines[..|lines| - 1]), TextLine(lines[|lines| - 1]));
    }
  }

  lemma NoParagraphs()
    ensures ParagraphsStats([]) == NO_STATS
  {
  }

  lemma OneLineMore(n: nat)
    ensures Stats(n, 0, 0, 0, 0, 0).Plus(Stats(1, 0, 0, 0, 0, 0)) == Stats(n + 1, 0, 0, 0, 0, 0)
  {
  }

  lemma {:induction false} NothingUnresolved(chars: seq<HwpChar>, controls: nat)
    requires forall i :: 0 <= i < |chars| ==> !IsFieldStart(chars[i])
    ensures Unresolved(chars, controls) == 0
  {
    if chars != [] {
      NothingUnresolved(chars[..|chars| - 1], controls);
    }
  }

  lemma TextLineStats(line: string)
    ensures ParagraphStats(TextLine(line)) == Stats(1, 0, 0, 0, 0, 0)
  {
    hide FieldStarts, Unresolved;
    NoFieldStarts(TextLine(line).chars);
    NothingUnresolved(TextLine(line).chars, 0);
    NoControls();
  }

  lemma TextBoxStats(text: string)
    ensures ControlStats(TextBox(text)) == Stats(|Lines(text)|, 0, 0, 0, 0, 0)
  {
    hide TextLines, Lines, ParagraphsStats;
    var ps := TextLines(Lines(text));
    TextLinesStats(Lines(text));
    assert [ParagraphList(ps)][..0] == [];
    assert ListsStats([]) == NO_STATS;
    assert ListsStats([ParagraphList(ps)]) == NO_STATS.Plus(ParagraphsStats(ps));
  }

  lemma ControlCounted(visual: Visual)
    requires !visual.content.TextBoxContent? ==> visual.media.Some?
    ensures ControlStats(VisualControl(visual)) == VisualStats(visual)
  {
    hide TextBox, ControlStats, Lines;
    if visual.content.TextBoxContent? {
      TextBoxStats(visual.content.text);
    } else {
      PictureCounted(VisualControl(visual));
    }
  }

  lemma PictureCounted(control: Control)
    requires control.PictureControl?
    ensures ControlStats(control) == Stats(0, 0, 1, 0, 0, 0)
  {
  }

  lemma PlusParagraphs(a: Stats, b: Stats)
    ensures a.Plus(b).paragraphs == a.paragraphs + b.paragraphs
  {
  }

  /** The report's paragraph count, taken before visuals are attached, stays right exactly without text boxes. */
  lemma {:induction false} ParagraphsAddedIffTextBox(visuals: seq<Visual>)
    ensures VisualsStats(visuals).paragraphs == 0 <==>
      forall i :: 0 <= i < |visuals| ==> !visuals[i].content.TextBoxContent?
  {
    hide Stats.Plus, Lines;
    if visuals != [] {
      var front, last := visuals[..|visuals| - 1], visuals[|visuals| - 1];
      ParagraphsAddedIffTextBox(front);
      PlusParagraphs(VisualsStats(front), VisualStats(last));
      if forall i :: 0 <= i < |visuals| ==> !visuals[i].content.TextBoxContent? {
        assert forall i :: 0 <= i < |front| ==> front[i] == visuals[i];
      } else if !last.content.TextBoxContent? {
        var i :| 0 <= i < |visuals| && visuals[i].content.TextBoxContent?;
        assert front[i] == visuals[i];
      }
    }
  }

  // ----- The compiler of visuals ---------------------------------------------------------

  /** Every paragraph of the sections themselves is sound and far from 2^32 controls. */
  ghost predicate Roomy(doc: Document, more: nat) {
    forall s: nat, i: nat :: HasParagraph(doc, s, i) ==>
      Sound(doc.sections[s].paragraphs[i]) && |doc.sections[s].paragraphs[i].controls| + more < 0x1_0000_0000
  }

  predicate SameShape(a: Document, b: Document) {
    && |a.sections| == |b.sections|
    && forall s :: 0 <= s < |a.sections| ==> |a.sections[s].paragraphs| == |b.sections[s].paragraphs|
  }

  lemma AttachedRoomy(doc: Document, section: nat, paragraph: nat, control: Control, more: nat)
    requires Roomy(doc, more + 1) && HasParagraph(doc, section, paragraph)
    ensures var after := WithParagraph(doc, section, paragraph,
      Attached(doc.sections[section].paragraphs[paragraph], control));
      && Roomy(after, more) && SameShape(doc, after)
      && DocumentStats(after) == DocumentStats(doc).Plus(ControlStats(control))
  {
    hide Sound, ControlStats, Stats.Plus, ParagraphsStats, ParagraphStats, SectionsStats;
    var p := doc.sections[section].paragraphs[paragraph];
    var q := Attached(p, control);
    var after := WithParagraph(doc, section, paragraph, q);
    AttachedSound(p, control);
    AttachedStats(p, control);
    ReplacedStats(doc.sections[section].paragraphs, paragraph, q, ControlStats(control));
    ReplacedSectionStats(doc.sections, section, after.sections[section], ControlStats(control));
    forall s: nat, i: nat | HasParagraph(after, s, i)
      ensures Sound(after.sections[s].paragraphs[i])
        && |after.sections[s].paragraphs[i].controls| + more < 0x1_0000_0000
    {
      assert HasParagraph(doc, s, i);
    }
  }

  /** The paragraph count of a document grows by the lines of an attached text box. */
  lemma TextBoxAttached(doc: Document, section: nat, paragraph: nat, text: string)
    requires Roomy(doc, 1) && HasParagraph(doc, section, paragraph)
    ensures var p := doc.sections[section].paragraphs[paragraph];
      DocumentStats(WithParagraph(doc, section, paragraph, Attached(p, TextBox(text)))).paragraphs ==
        DocumentStats(doc).paragraphs + |Lines(text)|
  {
    hide Roomy, Stats.Plus, SectionsStats, ControlStats, Lines, TextBox, Attached;
    AttachedRoomy(doc, section, paragraph, TextBox(text), 0);
    TextBoxStats(text);
    PlusParagraphs(DocumentStats(doc), Stats(|Lines(text)|, 0, 0, 0, 0, 0));
  }

  const ONE_LINE_BOX :=
    Visual(TextBoxContent("a"), RequiredNative, RequiredNative, 0, 0, false, 1, 1, None)

  const ONE_PARAGRAPH := Document([Section([TextLine("")])])

  /**
   A text box of one line is accepted and attached to a document of one paragraph: the document
   then has two, one more than the report made before counts.
   */
  lemma TextBoxGrowsDocument()
    ensures Resolve(ONE_LINE_BOX, Hwpx) == Some(NativeForm) && HasParagraph(ONE_PARAGRAPH, 0, 0)
    ensures DocumentStats(ONE_PARAGRAPH).paragraphs == 1
    ensures DocumentStats(WithParagraph(ONE_PARAGRAPH, 0, 0,
      Attached(TextLine(""), VisualControl(ONE_LINE_BOX)))).paragraphs == 2
  {
    hide Stats.Plus, SectionsStats, ControlStats, Attached;
    OneParagraphIsRoomy();
    OneParagraphStats();
    TextBoxAttached(ONE_PARAGRAPH, 0, 0, "a");
    assert "a"[..0] == [];
    assert Lines([]) == [[]];
    assert |Lines("a")| == 1;
  }

  lemma OneParagraphIsRoomy()
    ensures Roomy(ONE_PARAGRAPH, 1)
  {
  }

  lemma OneParagraphStats()
    ensures DocumentStats(ONE_PARAGRAPH).paragraphs == 1
  {
    hide ParagraphStats;
    TextLineStats("");
    var ps := [TextLine("")];
    assert ps[..0] == [] && ONE_PARAGRAPH.sections[..0] == [];
    assert ParagraphsStats([]) == NO_STATS && SectionsStats([]) == NO_STATS;
    assert ParagraphsStats(ps) == NO_STATS.Plus(ParagraphStats(ps[0]));
    assert SectionsStats(ONE_PARAGRAPH.sections) == NO_STATS.Plus(ParagraphsStats(ps));
  }

  // ----- Where visuals go and what they hold ---------------------------------------------

  /** A paragraph of plain text that spells the line and holds nothing else. */
  predicate SpellsLine(p: Paragraph, line: string) {
    && |p.chars| == |line| && (forall i :: 0 <= i < |line| ==> p.chars[i] == Text(line[i]))
    && p == Paragraph(0, 0, p.chars, [ShapeRun(0, 0)], [], 0, 0, [])
  }

  /** The control of a visual: a text box with a paragraph per line, or a picture of its media and size. */
  predicate Depicts(control: Control, visual: Visual) {
    match visual.content
    case TextBoxContent(text) =>
      && control.Generic? && |control.generic.lists| == 1
      && control.generic == GenericControl("rect", [], control.generic.lists, [], None, None)
      && var ps := control.generic.lists[0].paragraphs;
      && |ps| == |Lines(text)| && forall k :: 0 <= k < |ps| ==> SpellsLine(ps[k], Lines(text)[k])
    case _ =>
      && control.PictureControl? && Some(control.picture.itemRef) == visual.media
      && control.picture.width == visual.width && control.picture.height == visual.height
      && control.picture.treatAsChar == visual.isInline && control.picture.zOrder == 0
  }

  lemma {:induction false} LinesSpelled(lines: seq<string>)
    ensures |TextLines(lines)| == |lines|
    ensures forall k :: 0 <= k < |lines| ==> SpellsLine(TextLines(lines)[k], lines[k])
  {
    if lines != [] {
      LinesSpelled(lines[..|lines| - 1]);
    }
  }

  lemma ControlDepicts(visual: Visual)
    requires !visual.content.TextBoxContent? ==> visual.media.Some?
    ensures Depicts(VisualControl(visual), visual)
  {
    hide Lines, TextLines, SpellsLine;
    if visual.content.TextBoxContent? {
      LinesSpelled(Lines(visual.content.text));
    }
  }

  /** Character `k` stands for control `k` of those added, behind the old ones. */
  predicate Stands(ch: HwpChar, control: Control, index: nat) {
    ch == ExtCtrl(OBJECT, CtrlId(control), Some(index))
  }

  /** The paragraph with the controls of these visuals at its end, in order, each behind its character. */
  ghost predicate Extended(before: Paragraph, after: Paragraph, added: seq<Visual>) {
    var n, m := |before.controls|, |before.chars|;
    && |after.controls| == n + |added| && after.controls[..n] == before.controls
    && |after.chars| == m + |added| && after.chars[..m] == before.chars
    && (forall k :: 0 <= k < |added| ==>
          Depicts(after.controls[n + k], added[k]) && Stands(after.chars[m + k], after.controls[n + k], n + k))
    && after.paraShape == before.paraShape && after.style == before.style && after.runs == before.runs
    && after.breakType == before.breakType
    && (if added == [] then after == before else after.ctrlMask == 0 && after.lineSegs == [])
  }

  lemma ExtendedByOne(before: Paragraph, mid: Paragraph, after: Paragraph, added: seq<Visual>, visual: Visual)
    requires Extended(before, mid, added) && Extended(mid, after, [visual])
    ensures Extended(before, after, added + [visual])
  {
    hide Depicts, Stands;
    var n, m := |before.controls|, |before.chars|;
    assert after.controls[..n] == mid.controls[..n] && after.chars[..m] == mid.chars[..m];
    forall k | 0 <= k < |added| + 1
      ensures Depicts(after.controls[n + k], (added + [visual])[k])
      ensures Stands(after.chars[m + k], after.controls[n + k], n + k)
    {
      if k < |added| {
        assert after.controls[n + k] == mid.controls[n + k] && after.chars[m + k] == mid.chars[m + k];
      } else {
        assert Depicts(after.controls[|mid.controls| + 0], [visual][0]);
      }
    }
    assert |added + [visual]| == |added| + 1;
    assert after.controls[..n] == before.controls && after.chars[..m] == before.chars;
  }

  /** The visuals located at one paragraph, in order. */
  function VisualsAt(visuals: seq<Visual>, section: nat, paragraph: nat): seq<Visual> {
    if visuals == [] then []
    else
      var last := visuals[|visuals| - 1];
      VisualsAt(visuals[..|visuals| - 1], section, paragraph)
        + if last.section == section && last.paragraph == paragraph then [last] else []
  }

  ghost predicate PlacedAt(before: Document, after: Document, visuals: seq<Visual>, s: nat, i: nat)
    requires HasParagraph(before, s, i) && HasParagraph(after, s, i)
  {
    Extended(before.sections[s].paragraphs[i], after.sections[s].paragraphs[i], VisualsAt(visuals, s, i))
  }

  /** Every paragraph has its old controls and then those of the visuals located there, in order. */
  ghost predicate VisualsPlaced(before: Document, after: Document, visuals: seq<Visual>) {
    && SameShape(before, after)
    && forall s: nat, i: nat :: HasParagraph(before, s, i) ==>
         HasParagraph(after, s, i) && PlacedAt(before, after, visuals, s, i)
  }

  lemma NothingPlaced(doc: Document)
    ensures VisualsPlaced(doc, doc, [])
  {
  }

  lemma VisualsAtStep(visuals: seq<Visual>, i: nat, s: nat, p: nat)
    requires i < |visuals|
    ensures VisualsAt(visuals[..i + 1], s, p) ==
      VisualsAt(visuals[..i], s, p) + VisualsAt([visuals[i]], s, p)
    ensures VisualsAt([visuals[i]], s, p) ==
      if visuals[i].section == s && visuals[i].paragraph == p then [visuals[i]] else []
  {
    assert visuals[..i + 1][..i] == visuals[..i];
    assert [visuals[i]][..0] == [];
    assert VisualsAt([], s, p) == [];
  }

  lemma OneMorePlaced(before: Document, mid: Document, after: Document, visuals: seq<Visual>, k: nat)
    requires k < |visuals| && VisualsPlaced(before, mid, visuals[..k]) && VisualsPlaced(mid, after, [visuals[k]])
    ensures VisualsPlaced(before, after, visuals[..k + 1])
  {
    hide Extended, VisualsAt;
    forall s: nat, i: nat | HasParagraph(before, s, i)
      ensures HasParagraph(after, s, i) && PlacedAt(before, after, visuals[..k + 1], s, i)
    {
      var p, q, r := before.sections[s].paragraphs[i], mid.sections[s].paragraphs[i], after.sections[s].paragraphs[i];
      assert PlacedAt(before, mid, visuals[..k], s, i) && PlacedAt(mid, after, [visuals[k]], s, i);
      VisualsAtStep(visuals, k, s, i);
      var added := VisualsAt(visuals[..k], s, i);
      if visuals[k].section == s && visuals[k].paragraph == i {
        ExtendedByOne(p, q, r, added, visuals[k]);
      } else {
        SameExtended(q, r);
        assert added + [] == added;
      }
    }
  }

  lemma SameExtended(before: Paragraph, after: Paragraph)
    requires Extended(before, after, [])
    ensures after == before
  {
  }

  /** One visual attached where it is located, and nothing else changed. */
  lemma AttachedPlaced(doc: Document, visual: Visual)
    requires HasParagraph(doc, visual.section, visual.paragraph)
    requires !visual.content.TextBoxContent? ==> visual.media.Some?
    requires |doc.sections[visual.section].paragraphs[visual.paragraph].controls| < 0x1_0000_0000
    ensures var s, i := visual.section, visual.paragraph;
      VisualsPlaced(doc, WithParagraph(doc, s, i, Attached(doc.sections[s].paragraphs[i], VisualControl(visual))),
                    [visual])
  {
    hide VisualControl, Depicts, VisualsAt;
    var s0, i0 := visual.section, visual.paragraph;
    var p := doc.sections[s0].paragraphs[i0];
    var q := Attached(p, VisualControl(visual));
    var after := WithParagraph(doc, s0, i0, q);
    ControlDepicts(visual);
    assert q.controls[..|p.controls|] == p.controls && q.chars[..|p.chars|] == p.chars;
    assert Depicts(q.controls[|p.controls|], [visual][0]);
    assert Extended(p, q, [visual]);
    forall s: nat, i: nat | HasParagraph(doc, s, i)
      ensures HasParagraph(after, s, i) && PlacedAt(doc, after, [visual], s, i)
    {
      VisualsAtStep([visual], 0, s, i);
    }
  }

  /** The error is that of the first visual that has one. */
  ghost predicate FirstFault(visuals: seq<Visual>, target: Target, error: VisualError) {
    exists i :: 0 <= i < |visuals| && Faulty(visuals[i], target, error)
      && forall j :: 0 <= j < i ==> Faultless(visuals[j], target)
  }

  class VisualCompiler {
    const target: Target
    var document: Document
    /** Reports of pictures: images, and anything shown by a fallback picture. */
    var images: nat

    constructor (document: Document, target: Target)
      ensures this.document == document && this.target == target && images == 0
    {
      this.document, this.target, images := document, target, 0;
    }

    method AttachControl(section: nat, paragraph: nat, control: Control) returns (ok: bool)
      modifies this`document
      ensures ok <==> HasParagraph(old(document), section, paragraph)
      ensures ok ==>
        document == WithParagraph(old(document), section, paragraph,
                                  Attached(old(document).sections[section].paragraphs[paragraph], control))
      ensures !ok ==> document == old(document)
    {
      if section >= |document.sections| || paragraph >= |document.sections[section].paragraphs| {
        return false;
      }
      var p := document.sections[section].paragraphs[paragraph];
      var index := |p.controls| % 0x1_0000_0000;
      p := p.(chars := p.chars + [ExtCtrl(OBJECT, CtrlId(control), Some(index))]);
      p := p.(controls := p.controls + [control]);
      p := p.(ctrlMask := 0, lineSegs := []);
      var paragraphs := document.sections[section].paragraphs[paragraph := p];
      document := document.(sections := document.sections[section := Section(paragraphs)]);
      return true;
    }

    method CompileVisual(visual: Visual, ghost more: nat) returns (error: Option<VisualError>)
      requires Roomy(document, more + 1) && HasParagraph(document, visual.section, visual.paragraph)
      modifies this`document, this`images
      ensures forall e :: error == Some(e) <==> Faulty(visual, target, e)
      ensures error.None? <==> Faultless(visual, target)
      ensures error.None? ==>
        && Roomy(document, more) && VisualsPlaced(old(document), document, [visual])
        && DocumentStats(document) == DocumentStats(old(document)).Plus(VisualStats(visual))
        && images == old(images) + VisualStats(visual).pictures
    {
      hide Roomy, VisualsPlaced, VisualControl, Stats.Plus, SectionsStats, Lines;
      var representation := Resolve(visual, target);
      if representation.None? {
        return Some(if PolicyFor(visual, target) == RequiredNative then NativeUnavailable else FallbackUnavailable);
      }
      if !visual.content.TextBoxContent? && visual.media.None? {
        return Some(MediaUnavailable);
      }
      ControlCounted(visual);
      RoomyHere(document, visual.section, visual.paragraph, more + 1);
      AttachedPlaced(document, visual);
      AttachedRoomy(document, visual.section, visual.paragraph, VisualControl(visual), more);
      var ok := AttachControl(visual.section, visual.paragraph, VisualControl(visual));
      if visual.content.ImageContent? || representation.value == FallbackForm {
        images := images + 1;
      }
      return None;
    }

    /**
     All visuals in order, each at the end of the paragraph where it is located. Locations checked
     against the compiled document never disappear, and the image count is the number of pictures
     added.
     */
    method CompileVisuals(visuals: seq<Visual>) returns (error: Option<VisualError>)
      requires Roomy(document, |visuals|) && images == 0
      requires forall i :: 0 <= i < |visuals| ==> HasParagraph(document, visuals[i].section, visuals[i].paragraph)
      modifies this`document, this`images
      ensures error.None? <==> forall i :: 0 <= i < |visuals| ==> Faultless(visuals[i], target)
      ensures error.Some? ==> FirstFault(visuals, target, error.value)
      ensures error.None? ==>
        && Roomy(document, 0) && VisualsPlaced(old(document), document, visuals)
        && DocumentStats(document) == DocumentStats(old(document)).Plus(VisualsStats(visuals))
        && images == VisualsStats(visuals).pictures
    {
      hide Roomy, Stats.Plus, SectionsStats, VisualStats, Resolve, VisualsStats, PlacedAt, Faulty;
      var i := 0;
      NothingPlaced(document);
      NothingAdded(DocumentStats(document));
      assert visuals[..0] == [];
      while i < |visuals|
        invariant 0 <= i <= |visuals|
        invariant Roomy(document, |visuals| - i) && VisualsPlaced(old(document), document, visuals[..i])
        invariant DocumentStats(document) == DocumentStats(old(document)).Plus(VisualsStats(visuals[..i]))
        invariant images == VisualsStats(visuals[..i]).pictures
        invariant forall j :: 0 <= j < i ==> Faultless(visuals[j], target)
      {
        VisualsStep(visuals, i);
        PlusAssociates(DocumentStats(old(document)), VisualsStats(visuals[..i]), VisualStats(visuals[i]));
        ghost var before := document;
        assert HasParagraph(old(document), visuals[i].section, visuals[i].paragraph);
        error := CompileVisual(visuals[i], |visuals| - i - 1);
        if error.Some? {
          return;
        }
        OneMorePlaced(old(document), before, document, visuals, i);
        i := i + 1;
      }
      assert visuals[..i] == visuals;
      return None;
    }
  }

  lemma RoomyHere(doc: Document, section: nat, paragraph: nat, more: nat)
    requires Roomy(doc, more) && HasParagraph(doc, section, paragraph) && more > 0
    ensures |doc.sections[section].paragraphs[paragraph].controls| < 0x1_0000_0000
  {
    hide Sound;
  }

  lemma NothingAdded(a: Stats)
    ensures VisualsStats([]) == NO_STATS && a.Plus(NO_STATS) == a
  {
  }

  lemma VisualsStep(visuals: seq<Visual>, i: nat)
    requires i < |visuals|
    ensures VisualsStats(visuals[..i + 1]) == VisualsStats(visuals[..i]).Plus(VisualStats(visuals[i]))
    ensures VisualsStats(visuals[..i + 1]).pictures ==
      VisualsStats(visuals[..i]).pictures + VisualStats(visuals[i]).pictures
  {
    hide VisualStats;
    assert visuals[..i + 1][..i] == visuals[..i];
  }
}
