/**
 What it means for compiled sections to realise the sections of a specification. A section
 break starts a further output section, which repeats the anchor paragraph.
 */
module SectionRealization {
  import opened HwpModel
  import opened DocumentSpecs
  import opened Headers
  import opened Realization
  import opened RealizationGrowth
  import opened RealizationFacts
  import opened CompileSteps
  import opened Tidiness
  import PB = ParagraphBuilding
  import Utf16

  // ----- Headers, footers and anchors ----------------------------------------------------

  const COLUMN_CONTROL := Generic(GenericControl("cold", [], [], [], None, None))

  function NonEmpty(apply: nat, blocks: seq<BlockSpec>): seq<(nat, seq<BlockSpec>)> {
    if blocks == [] then [] else [(apply, blocks)]
  }

  /** The header or footer variants that get a control: default, even and odd pages, in that order. */
  function Parts(part: Option<HeaderFooter>): seq<(nat, seq<BlockSpec>)> {
    match part
    case None => []
    case Some(p) => NonEmpty(0, p.default) + NonEmpty(1, p.even) + NonEmpty(2, p.odd)
  }

  function ApplyData(apply: nat): seq<int>
    requires apply < 3
  {
    Utf16.U32Le(apply) + Utf16.U32Le(0)
  }

  ghost predicate PartRealized(ctx: Context, env: Env, id: string, part: (nat, seq<BlockSpec>), control: Control) {
    && part.0 < 3 && control.Generic? && |control.generic.lists| == 1
    && control.generic == GenericControl(id, ApplyData(part.0), [ParagraphList(control.generic.lists[0].paragraphs)],
      [], None, None)
    && ListRealized(ctx, env, part.1, control.generic.lists[0].paragraphs)
  }

  ghost predicate PartsRealized(ctx: Context, env: Env, id: string, parts: seq<(nat, seq<BlockSpec>)>,
      controls: seq<Control>)
  {
    && |controls| == |parts|
    && (parts == [] ||
        (&& PartsRealized(ctx, env, id, parts[..|parts| - 1], controls[..|controls| - 1])
         && PartRealized(ctx, env, id, parts[|parts| - 1], controls[|controls| - 1])))
  }

  /** The page-number controls: where numbering starts, and where the number is shown. */
  function PageControls(number: Option<PageNumber>): seq<Control>
    requires number.Some? ==> PageNumberOk(number.value)
  {
    match number
    case None => []
    case Some(n) =>
      [Generic(GenericControl("nwno", Utf16.U32Le(0) + Utf16.U16Le(n.start), [], [], None, None)),
       Generic(GenericControl("pgnp",
         Utf16.U32Le(n.position * 0x100) + seq(6, _ => 0) + Utf16.U16Le(SideUnit(n)), [], [], None, None))]
  }

  function SideUnit(n: PageNumber): (u: int)
    ensures Utf16.IsUnit(u)
  {
    if n.suffix.Some? && n.suffix.value != [] then
      Utf16.EncodeIsUnits(n.suffix.value);
      Utf16.Encode(n.suffix.value)[0]
    else 0
  }

  lemma FirstUnit(c: char)
    ensures Utf16.Encode([c])[0] == if c as int < 0x10000 then c as int else 0xD800 + (c as int - 0x10000) / 0x400
  {
    assert [c][1..] == [];
    assert Utf16.Encode([]) == [];
  }

  /** The bytes of the controls: where a part applies; a first number, a position and a side character. */
  lemma AnchorData(apply: nat, n: PageNumber)
    requires apply < 3 && PageNumberOk(n)
    ensures ApplyData(apply) == [apply, 0, 0, 0, 0, 0, 0, 0]
    ensures var controls := PageControls(Some(n));
      && |controls| == 2 && controls[0].Generic? && controls[1].Generic?
      && CtrlId(controls[0]) == "nwno" && CtrlId(controls[1]) == "pgnp"
      && var start, shown := controls[0].generic.data, controls[1].generic.data;
      && |start| == 6 && start[..4] == [0, 0, 0, 0] && start[4] + 0x100 * start[5] == n.start
      && |shown| == 12 && shown[..10] == [0, n.position, 0, 0, 0, 0, 0, 0, 0, 0]
      && shown[10] + 0x100 * shown[11] == SideUnit(n)
    ensures n.suffix.None? ==> SideUnit(n) == 0
    ensures n.suffix.Some? ==>
      var c := n.suffix.value[0] as int;
      SideUnit(n) == if c < 0x10000 then c else 0xD800 + (c - 0x10000) / 0x400
  {
    hide Utf16.Encode;
    if n.suffix.Some? {
      FirstUnit(n.suffix.value[0]);
      assert n.suffix.value == [n.suffix.value[0]];
    }
  }

  function AnchorCode(control: Control): nat {
    var id := CtrlId(control);
    if id in ["head", "foot"] then HEADER_FOOTER
    else if id in ["nwno", "pgnp"] then PAGE_CONTROL
    else SECTION_COLUMN_DEF
  }

  function AnchorChars(controls: seq<Control>): seq<HwpChar> {
    if controls == [] then []
    else
      var last := |controls| - 1;
      AnchorChars(controls[..last]) + [ExtCtrl(AnchorCode(controls[last]), CtrlId(controls[last]), Some(last))]
  }

  ghost predicate AnchorRealized(ctx: Context, env: Env, section: SectionSpec, p: Paragraph)
    requires section.pageNumber.Some? ==> PageNumberOk(section.pageNumber.value)
  {
    var heads, feet := Parts(section.header), Parts(section.footer);
    var a := 2 + |heads|;
    var b := a + |feet|;
    && Sound(p) && p.(chars := [], controls := []) == Paragraph(0, 0, [], [ShapeRun(0, 0)], [], 3, 0, [])
    && p.chars == AnchorChars(p.controls) && b <= |p.controls|
    && p.controls[..2] == [SectionDef, COLUMN_CONTROL]
    && PartsRealized(ctx, env, "head", heads, p.controls[2..a])
    && PartsRealized(ctx, env, "foot", feet, p.controls[a..b])
    && p.controls[b..] == PageControls(section.pageNumber)
  }

  // ----- Sections ------------------------------------------------------------------------

  predicate IsSectionBreak(block: BlockSpec) {
    block == BreakBlock(SectionBreak)
  }

  /** The blocks between section breaks. */
  function Chunks(blocks: seq<BlockSpec>): (chunks: seq<seq<BlockSpec>>)
    ensures |chunks| == Breaks(blocks) + 1
  {
    if blocks == [] then [[]]
    else
      var front := Chunks(blocks[..|blocks| - 1]);
      var last := |front| - 1;
      if IsSectionBreak(blocks[|blocks| - 1]) then front + [[]]
      else front[..last] + [front[last] + [blocks[|blocks| - 1]]]
  }

  function Breaks(blocks: seq<BlockSpec>): nat {
    if blocks == [] then 0
    else Breaks(blocks[..|blocks| - 1]) + if IsSectionBreak(blocks[|blocks| - 1]) then 1 else 0
  }

  predicate NumberOk(section: SectionSpec) {
    section.pageNumber.Some? ==> PageNumberOk(section.pageNumber.value)
  }

  /** One output section: an anchor, then one paragraph per block of the chunk. */
  ghost predicate ChunkRealized(ctx: Context, env: Env, section: SectionSpec, chunk: seq<BlockSpec>, ps: seq<Paragraph>)
    requires NumberOk(section)
  {
    ps != [] && AnchorRealized(ctx, env, section, ps[0]) && BlocksRealized(ctx, env, chunk, ps[1..])
  }

  ghost predicate ChunksRealized(ctx: Context, env: Env, section: SectionSpec, chunks: seq<seq<BlockSpec>>,
      outs: seq<Section>)
    requires NumberOk(section)
  {
    && |outs| == |chunks|
    && (chunks == [] ||
        (&& ChunksRealized(ctx, env, section, chunks[..|chunks| - 1], outs[..|outs| - 1])
         && ChunkRealized(ctx, env, section, chunks[|chunks| - 1], outs[|outs| - 1].paragraphs)))
  }

  ghost predicate NumbersOk(sections: seq<SectionSpec>) {
    forall i :: 0 <= i < |sections| ==> NumberOk(sections[i])
  }

  /** The output sections of all specified sections, in order. */
  ghost predicate SectionsRealized(ctx: Context, env: Env, sections: seq<SectionSpec>, outs: seq<Section>)
    requires NumbersOk(sections)
  {
    if sections == [] then outs == []
    else
      var last := sections[|sections| - 1];
      var n := Breaks(last.blocks) + 1;
      && |outs| >= n
      && SectionsRealized(ctx, env, sections[..|sections| - 1], outs[..|outs| - n])
      && ChunksRealized(ctx, env, last, Chunks(last.blocks), outs[|outs| - n..])
  }

  // ----- Growth --------------------------------------------------------------------------

  lemma {:induction false} PartsGrow(ctx: Context, a: Env, b: Env, id: string, parts: seq<(nat, seq<BlockSpec>)>,
      controls: seq<Control>)
    requires Extends(a, b) && PartsRealized(ctx, a, id, parts, controls)
    ensures PartsRealized(ctx, b, id, parts, controls)
  {
    hide Extends, ListRealized;
    if parts != [] {
      PartsGrow(ctx, a, b, id, parts[..|parts| - 1], controls[..|controls| - 1]);
      ListGrows(ctx, a, b, parts[|parts| - 1].1, controls[|controls| - 1].generic.lists[0].paragraphs);
    }
  }

  lemma ChunkGrows(ctx: Context, a: Env, b: Env, section: SectionSpec, chunk: seq<BlockSpec>, ps: seq<Paragraph>)
    requires NumberOk(section) && Extends(a, b) && ChunkRealized(ctx, a, section, chunk, ps)
    ensures ChunkRealized(ctx, b, section, chunk, ps)
  {
    hide Extends, BlocksRealized, PartsRealized, Sound, PageControls, AnchorChars, NumberOk;
    var p := ps[0];
    var heads, feet := Parts(section.header), Parts(section.footer);
    var m := 2 + |heads|;
    PartsGrow(ctx, a, b, "head", heads, p.controls[2..m]);
    PartsGrow(ctx, a, b, "foot", feet, p.controls[m..m + |feet|]);
    BlocksGrow(ctx, a, b, chunk, ps[1..]);
  }

  lemma {:induction false} ChunksGrow(ctx: Context, a: Env, b: Env, section: SectionSpec, chunks: seq<seq<BlockSpec>>,
      outs: seq<Section>)
    requires NumberOk(section) && Extends(a, b) && ChunksRealized(ctx, a, section, chunks, outs)
    ensures ChunksRealized(ctx, b, section, chunks, outs)
  {
    hide Extends, ChunkRealized, NumberOk;
    if chunks != [] {
      ChunksGrow(ctx, a, b, section, chunks[..|chunks| - 1], outs[..|outs| - 1]);
      ChunkGrows(ctx, a, b, section, chunks[|chunks| - 1], outs[|outs| - 1].paragraphs);
    }
  }

  lemma {:induction false} SectionsGrow(ctx: Context, a: Env, b: Env, sections: seq<SectionSpec>, outs: seq<Section>)
    requires NumbersOk(sections) && Extends(a, b) && SectionsRealized(ctx, a, sections, outs)
    ensures SectionsRealized(ctx, b, sections, outs)
  {
    hide Extends, ChunksRealized, NumberOk, Chunks;
    if sections != [] {
      var last := sections[|sections| - 1];
      var n := Breaks(last.blocks) + 1;
      SectionsGrow(ctx, a, b, sections[..|sections| - 1], outs[..|outs| - n]);
      ChunksGrow(ctx, a, b, last, Chunks(last.blocks), outs[|outs| - n..]);
    }
  }

  // ----- Statistics ----------------------------------------------------------------------

  function PartsStats(parts: seq<(nat, seq<BlockSpec>)>): Stats {
    if parts == [] then NO_STATS else PartsStats(parts[..|parts| - 1]).Plus(ListStats(parts[|parts| - 1].1))
  }

  function AnchorStats(section: SectionSpec): Stats {
    Stats(1, 0, 0, 0, 0, 0).Plus(PartsStats(Parts(section.header)).Plus(PartsStats(Parts(section.footer))))
  }

  function ChunkStats(section: SectionSpec, chunk: seq<BlockSpec>): Stats {
    AnchorStats(section).Plus(BlocksStats(chunk))
  }

  function ChunksStats(section: SectionSpec, chunks: seq<seq<BlockSpec>>): Stats {
    if chunks == [] then NO_STATS
    else ChunksStats(section, chunks[..|chunks| - 1]).Plus(ChunkStats(section, chunks[|chunks| - 1]))
  }

  /** What a whole specification asks for. */
  function SpecStats(sections: seq<SectionSpec>): Stats {
    if sections == [] then NO_STATS
    else
      var last := sections[|sections| - 1];
      SpecStats(sections[..|sections| - 1]).Plus(ChunksStats(last, Chunks(last.blocks)))
  }

  lemma {:induction false} ControlsStatsConcat(a: seq<Control>, b: seq<Control>)
    ensures ControlsStats(a + b) == ControlsStats(a).Plus(ControlsStats(b))
  {
    hide Stats.Plus, ControlStats;
    if b == [] {
      assert a + b == a;
      NoStatsAdded(ControlsStats(a));
    } else {
      var c, x := b[..|b| - 1], b[|b| - 1];
      assert (a + b)[..|a + b| - 1] == a + c;
      ControlsStatsConcat(a, c);
      PlusAssociates(ControlsStats(a), ControlsStats(c), ControlStats(x));
    }
  }

  lemma OneList(g: GenericControl, ps: seq<Paragraph>)
    requires g.lists == [ParagraphList(ps)] && g.equation == None
    ensures ControlStats(Generic(g)) == ParagraphsStats(ps)
  {
    hide ParagraphsStats, Stats.Plus;
    assert g.lists[..0] == [];
    assert ListsStats([]) == NO_STATS;
    assert ListsStats(g.lists) == NO_STATS.Plus(ParagraphsStats(ps));
    NoStatsAdded(ParagraphsStats(ps));
  }

  lemma PartCounted(ctx: Context, env: Env, id: string, part: (nat, seq<BlockSpec>), control: Control)
    requires PartRealized(ctx, env, id, part, control)
    ensures ControlStats(control) == ListStats(part.1)
  {
    hide ListRealized, ListStats, ControlStats;
    OneList(control.generic, control.generic.lists[0].paragraphs);
    ListCounted(ctx, env, part.1, control.generic.lists[0].paragraphs);
  }

  lemma {:induction false} PartsCounted(ctx: Context, env: Env, id: string, parts: seq<(nat, seq<BlockSpec>)>,
      controls: seq<Control>)
    requires PartsRealized(ctx, env, id, parts, controls)
    ensures ControlsStats(controls) == PartsStats(parts)
  {
    hide PartRealized, Stats.Plus, ListStats, ControlStats;
    if parts != [] {
      PartsCounted(ctx, env, id, parts[..|parts| - 1], controls[..|controls| - 1]);
      PartCounted(ctx, env, id, parts[|parts| - 1], controls[|controls| - 1]);
    }
  }

  lemma PlainControlStats(control: Control)
    requires control.SectionDef?
      || (control.Generic? && control.generic.lists == [] && control.generic.equation == None)
    ensures ControlStats(control) == NO_STATS
  {
  }

  lemma PageControlsCount(number: Option<PageNumber>)
    requires number.Some? ==> PageNumberOk(number.value)
    ensures ControlsStats(PageControls(number)) == NO_STATS
  {
    hide ControlStats, Stats.Plus;
    var controls := PageControls(number);
    NoControls();
    if number.Some? {
      assert controls == [controls[0]] + [controls[1]];
      PlainPair(controls[0], controls[1]);
    }
  }

  lemma PlainPair(a: Control, b: Control)
    requires ControlIsPlain(a) && ControlIsPlain(b)
    ensures ControlsStats([a] + [b]) == NO_STATS
  {
    hide ControlStats, ControlsStats, Stats.Plus;
    PlainControlStats(a);
    PlainControlStats(b);
    assert ([a] + [b])[..1] == [a] && [a][..0] == [];
    NoControls();
    NoStatsAdded(NO_STATS);
    ControlsSnoc([a]);
    ControlsSnoc([a] + [b]);
  }

  predicate ControlIsPlain(control: Control) {
    control.SectionDef? || (control.Generic? && control.generic.lists == [] && control.generic.equation == None)
  }

  lemma {:induction false} AnchorCharsPlain(controls: seq<Control>)
    ensures |AnchorChars(controls)| == |controls|
    ensures forall i :: 0 <= i < |controls| ==> !IsFieldStart(AnchorChars(controls)[i])
  {
    if controls != [] {
      AnchorCharsPlain(controls[..|controls| - 1]);
    }
  }

  lemma AnchorCounted(ctx: Context, env: Env, section: SectionSpec, p: Paragraph)
    requires NumberOk(section) && AnchorRealized(ctx, env, section, p)
    ensures ParagraphStats(p) == AnchorStats(section)
  {
    hide Sound, Unresolved, FieldStarts, ControlsStats, PartsStats, PartsRealized, AnchorChars, PageControls,
      Stats.Plus, Parts;
    var heads, feet := Parts(section.header), Parts(section.footer);
    var a := 2 + |heads|;
    var b := a + |feet|;
    var c := p.controls;
    SoundResolves(p);
    AnchorCharsPlain(c);
    NoFieldStarts(p.chars);
    PartsCounted(ctx, env, "head", heads, c[2..a]);
    PartsCounted(ctx, env, "foot", feet, c[a..b]);
    PageControlsCount(section.pageNumber);
    PlainPair(SectionDef, COLUMN_CONTROL);
    assert c[..2] == [SectionDef] + [COLUMN_CONTROL];
    assert c == c[..2] + c[2..] && c[2..] == c[2..a] + c[a..] && c[a..] == c[a..b] + c[b..];
    ControlsStatsConcat(c[..2], c[2..]);
    ControlsStatsConcat(c[2..a], c[a..]);
    ControlsStatsConcat(c[a..b], c[b..]);
    NoStatsAdded(PartsStats(feet));
    NoStatsAdded(PartsStats(heads).Plus(PartsStats(feet)));
  }

  lemma ChunkCounted(ctx: Context, env: Env, section: SectionSpec, chunk: seq<BlockSpec>, ps: seq<Paragraph>)
    requires NumberOk(section) && ChunkRealized(ctx, env, section, chunk, ps)
    ensures ParagraphsStats(ps) == ChunkStats(section, chunk)
  {
    hide AnchorRealized, AnchorStats, BlocksRealized, BlocksStats, Stats.Plus, ParagraphStats, NumberOk;
    assert ps == [ps[0]] + ps[1..];
    ParagraphsStatsConcat([ps[0]], ps[1..]);
    AnchorCounted(ctx, env, section, ps[0]);
    BlocksCounted(ctx, env, chunk, ps[1..]);
    assert [ps[0]][..0] == [];
    NoStatsAdded(ParagraphStats(ps[0]));
    assert ParagraphsStats([]) == NO_STATS;
  }

  lemma {:induction false} ChunksCounted(ctx: Context, env: Env, section: SectionSpec, chunks: seq<seq<BlockSpec>>,
      outs: seq<Section>)
    requires NumberOk(section) && ChunksRealized(ctx, env, section, chunks, outs)
    ensures SectionsStats(outs) == ChunksStats(section, chunks)
  {
    hide ChunkRealized, ChunkStats, Stats.Plus, ParagraphsStats, NumberOk;
    if chunks != [] {
      ChunksCounted(ctx, env, section, chunks[..|chunks| - 1], outs[..|outs| - 1]);
      ChunkCounted(ctx, env, section, chunks[|chunks| - 1], outs[|outs| - 1].paragraphs);
    }
  }

  /** A compiled document counts exactly what its specification asks for, headers and footers included. */
  lemma {:induction false} SectionsCounted(ctx: Context, env: Env, sections: seq<SectionSpec>, outs: seq<Section>)
    requires NumbersOk(sections) && SectionsRealized(ctx, env, sections, outs)
    ensures SectionsStats(outs) == SpecStats(sections)
  {
    hide ChunksRealized, ChunksStats, Stats.Plus, ParagraphsStats, NumberOk, Chunks, Breaks, SectionsStats, SpecStats;
    if sections == [] {
      NothingCounted();
    } else {
      var last := sections[|sections| - 1];
      var n := Breaks(last.blocks) + 1;
      var front, back := outs[..|outs| - n], outs[|outs| - n..];
      SectionsCounted(ctx, env, sections[..|sections| - 1], front);
      ChunksCounted(ctx, env, last, Chunks(last.blocks), back);
      SectionsStatsConcat(front, back);
      SpecStatsSnoc(sections);
      assert front + back == outs;
    }
  }

  lemma NothingCounted()
    ensures SectionsStats([]) == SpecStats([]) == NO_STATS
  {
  }

  lemma SpecStatsSnoc(sections: seq<SectionSpec>)
    requires sections != []
    ensures var last := sections[|sections| - 1];
      SpecStats(sections) == SpecStats(sections[..|sections| - 1]).Plus(ChunksStats(last, Chunks(last.blocks)))
  {
    hide Chunks, ChunksStats, Stats.Plus;
  }

  // ----- Number of sections --------------------------------------------------------------

  function OutputSections(sections: seq<SectionSpec>): nat {
    if sections == [] then 0
    else OutputSections(sections[..|sections| - 1]) + Breaks(sections[|sections| - 1].blocks) + 1
  }

  lemma {:induction false} SectionsAreCounted(ctx: Context, env: Env, sections: seq<SectionSpec>, outs: seq<Section>)
    requires NumbersOk(sections) && SectionsRealized(ctx, env, sections, outs)
    ensures |outs| == OutputSections(sections)
  {
    hide ChunksRealized, NumberOk, Chunks;
    if sections != [] {
      var n := Breaks(sections[|sections| - 1].blocks) + 1;
      SectionsAreCounted(ctx, env, sections[..|sections| - 1], outs[..|outs| - n]);
    }
  }

  lemma {:induction false} BreaksAreBlocks(blocks: seq<BlockSpec>)
    ensures Breaks(blocks) <= |blocks|
  {
    if blocks != [] {
      BreaksAreBlocks(blocks[..|blocks| - 1]);
    }
  }

  lemma BreaksInBudget(section: SectionSpec)
    ensures Breaks(section.blocks) <= SectionBudget(section).blocks
  {
    hide BlocksSum;
    BreaksAreBlocks(section.blocks);
  }

  lemma {:induction false} OutputSectionsBounded(sections: seq<SectionSpec>)
    ensures OutputSections(sections) <= |sections| + SectionsBudget(sections).blocks
  {
    hide SectionBudget;
    if sections != [] {
      OutputSectionsBounded(sections[..|sections| - 1]);
      BreaksInBudget(sections[|sections| - 1]);
    }
  }

  // ----- Well-formedness -----------------------------------------------------------------

  ghost predicate SectionsTidy(outs: seq<Section>) {
    forall i :: 0 <= i < |outs| ==> ParagraphsTidy(outs[i].paragraphs)
  }

  lemma {:induction false} ControlsTidyConcat(a: seq<Control>, b: seq<Control>)
    requires ControlsTidy(a) && ControlsTidy(b)
    ensures ControlsTidy(a + b)
  {
    hide ControlTidy;
    if b == [] {
      assert a + b == a;
    } else {
      assert (a + b)[..|a + b| - 1] == a + b[..|b| - 1];
      ControlsTidyConcat(a, b[..|b| - 1]);
    }
  }

  lemma OneListTidy(g: GenericControl, ps: seq<Paragraph>)
    requires g.lists == [ParagraphList(ps)] && ParagraphsTidy(ps)
    ensures ControlTidy(Generic(g))
  {
    hide ParagraphsTidy;
    assert g.lists[..0] == [];
    assert ListsTidy([]);
  }

  lemma {:induction false} PartsTidy(ctx: Context, env: Env, id: string, parts: seq<(nat, seq<BlockSpec>)>,
      controls: seq<Control>, bodyWidth: real)
    requires PartsRealized(ctx, env, id, parts, controls)
    requires forall i :: 0 <= i < |parts| ==> BlocksOk(ctx.spec, parts[i].1, 1, false, bodyWidth)
    ensures ControlsTidy(controls)
  {
    hide ControlTidy, ListRealized, BlocksOk, ParagraphsTidy;
    if parts != [] {
      var g := controls[|controls| - 1].generic;
      PartsTidy(ctx, env, id, parts[..|parts| - 1], controls[..|controls| - 1], bodyWidth);
      ListTidy(ctx, env, parts[|parts| - 1].1, g.lists[0].paragraphs, 1, bodyWidth);
      OneListTidy(g, g.lists[0].paragraphs);
    }
  }

  lemma PartsAreOk(spec: DocumentSpec, part: Option<HeaderFooter>, bodyWidth: real)
    requires HeaderFooterOk(spec, part, bodyWidth)
    ensures forall i :: 0 <= i < |Parts(part)| ==> BlocksOk(spec, Parts(part)[i].1, 1, false, bodyWidth)
  {
    hide BlocksOk;
  }

  lemma PlainPairTidy(a: Control, b: Control)
    requires ControlIsPlain(a) && ControlIsPlain(b)
    ensures ControlsTidy([a, b])
  {
    hide ControlTidy;
    assert [a, b][..1] == [a] && [a][..0] == [];
    PlainControlTidy(a);
    PlainControlTidy(b);
    assert ControlsTidy([]);
    assert ControlsTidy([a]);
  }

  lemma AnchorTidy(ctx: Context, env: Env, section: SectionSpec, p: Paragraph, bodyWidth: real)
    requires NumberOk(section) && AnchorRealized(ctx, env, section, p)
    requires HeaderFooterOk(ctx.spec, section.header, bodyWidth) && HeaderFooterOk(ctx.spec, section.footer, bodyWidth)
    ensures Tidy(p)
  {
    hide Sound, ControlsTidy, PartsRealized, AnchorChars, BlocksOk, Parts, HeaderFooterOk;
    var heads, feet := Parts(section.header), Parts(section.footer);
    var a := 2 + |heads|;
    var b := a + |feet|;
    var c := p.controls;
    PartsAreOk(ctx.spec, section.header, bodyWidth);
    PartsAreOk(ctx.spec, section.footer, bodyWidth);
    PartsTidy(ctx, env, "head", heads, c[2..a], bodyWidth);
    PartsTidy(ctx, env, "foot", feet, c[a..b], bodyWidth);
    PlainPairTidy(SectionDef, COLUMN_CONTROL);
    PageControlsTidy(section.pageNumber);
    assert c == c[..2] + c[2..] && c[2..] == c[2..a] + c[a..] && c[a..] == c[a..b] + c[b..];
    ControlsTidyConcat(c[a..b], c[b..]);
    ControlsTidyConcat(c[2..a], c[a..]);
    ControlsTidyConcat(c[..2], c[2..]);
    TidyFrom(p);
  }

  lemma PageControlsTidy(number: Option<PageNumber>)
    requires number.Some? ==> PageNumberOk(number.value)
    ensures ControlsTidy(PageControls(number))
  {
    hide ControlsTidy;
    if number.Some? {
      var c := PageControls(number);
      PlainPairTidy(c[0], c[1]);
    } else {
      NoControlsTidy();
    }
  }

  lemma NoControlsTidy()
    ensures ControlsTidy([]) && ParagraphsTidy([])
  {
  }

  lemma ChunkTidy(ctx: Context, env: Env, section: SectionSpec, chunk: seq<BlockSpec>, ps: seq<Paragraph>,
      bodyWidth: real)
    requires NumberOk(section) && ChunkRealized(ctx, env, section, chunk, ps)
    requires HeaderFooterOk(ctx.spec, section.header, bodyWidth) && HeaderFooterOk(ctx.spec, section.footer, bodyWidth)
    requires EachBlockOk(ctx.spec, chunk, 0, true, bodyWidth)
    ensures ParagraphsTidy(ps)
  {
    hide AnchorRealized, BlocksRealized, Tidy, NumberOk, HeaderFooterOk, EachBlockOk;
    AnchorTidy(ctx, env, section, ps[0], bodyWidth);
    BlocksTidy(ctx, env, chunk, ps[1..], 0, true, bodyWidth);
    assert [ps[0]][..0] == [];
    NoControlsTidy();
    assert ps == [ps[0]] + ps[1..];
    ParagraphsTidyConcat([ps[0]], ps[1..]);
  }

  ghost predicate ChunksOk(spec: DocumentSpec, chunks: seq<seq<BlockSpec>>, bodyWidth: real) {
    forall i :: 0 <= i < |chunks| ==> EachBlockOk(spec, chunks[i], 0, true, bodyWidth)
  }

  lemma {:induction false} ChunksAreOk(spec: DocumentSpec, blocks: seq<BlockSpec>, bodyWidth: real)
    requires EachBlockOk(spec, blocks, 0, true, bodyWidth)
    ensures ChunksOk(spec, Chunks(blocks), bodyWidth)
  {
    hide BlockOk;
    if blocks != [] {
      ChunksAreOk(spec, blocks[..|blocks| - 1], bodyWidth);
      var front := Chunks(blocks[..|blocks| - 1]);
      var chunk := front[|front| - 1] + [blocks[|blocks| - 1]];
      assert chunk[..|chunk| - 1] == front[|front| - 1];
    }
  }

  lemma {:induction false} ChunksTidy(ctx: Context, env: Env, section: SectionSpec, chunks: seq<seq<BlockSpec>>,
      outs: seq<Section>, bodyWidth: real)
    requires NumberOk(section) && ChunksRealized(ctx, env, section, chunks, outs)
    requires HeaderFooterOk(ctx.spec, section.header, bodyWidth) && HeaderFooterOk(ctx.spec, section.footer, bodyWidth)
    requires ChunksOk(ctx.spec, chunks, bodyWidth)
    ensures SectionsTidy(outs)
  {
    hide ChunkRealized, NumberOk, HeaderFooterOk, EachBlockOk, ParagraphsTidy;
    if chunks != [] {
      ChunksTidy(ctx, env, section, chunks[..|chunks| - 1], outs[..|outs| - 1], bodyWidth);
      ChunkTidy(ctx, env, section, chunks[|chunks| - 1], outs[|outs| - 1].paragraphs, bodyWidth);
      var front := outs[..|outs| - 1];
      forall i | 0 <= i < |outs| ensures ParagraphsTidy(outs[i].paragraphs) {
        assert i < |front| ==> ParagraphsTidy(front[i].paragraphs);
      }
    }
  }

  /** Every paragraph and table of a compiled document is well formed. */
  lemma {:induction false} DocumentTidy(ctx: Context, env: Env, sections: seq<SectionSpec>, outs: seq<Section>)
    requires NumbersOk(sections) && SectionsRealized(ctx, env, sections, outs) && SectionsOk(ctx.spec, sections)
    ensures SectionsTidy(outs)
  {
    hide ChunksRealized, NumberOk, HeaderFooterOk, EachBlockOk, ParagraphsTidy, Chunks, PageOk, PageNumberOk;
    if sections != [] {
      var last := sections[|sections| - 1];
      var n := Breaks(last.blocks) + 1;
      var front, back := outs[..|outs| - n], outs[|outs| - n..];
      var bodyWidth := BodyWidth(SectionPage(ctx.spec, last));
      assert SectionOk(ctx.spec, last);
      assert SectionsOk(ctx.spec, sections[..|sections| - 1]);
      DocumentTidy(ctx, env, sections[..|sections| - 1], front);
      ChunksAreOk(ctx.spec, last.blocks, bodyWidth);
      ChunksTidy(ctx, env, last, Chunks(last.blocks), back, bodyWidth);
      forall i | 0 <= i < |outs| ensures ParagraphsTidy(outs[i].paragraphs) {
        assert i < |front| ==> ParagraphsTidy(front[i].paragraphs);
        assert i >= |front| ==> ParagraphsTidy(back[i - |front|].paragraphs);
      }
    }
  }
}
