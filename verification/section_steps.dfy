/**
 Steps of the section compiler, on values.
 */
module SectionSteps {
  import opened HwpModel
  import opened DocumentSpecs
  import opened Headers
  import opened Realization
  import opened RealizationGrowth
  import opened RealizationFacts
  import opened CompileSteps
  import opened SectionRealization

  /** One more control at the end of an anchor paragraph. */
  lemma AnchorCharsSnoc(controls: seq<Control>, control: Control)
    ensures AnchorChars(controls + [control])
      == AnchorChars(controls) + [ExtCtrl(AnchorCode(control), CtrlId(control), Some(|controls|))]
  {
    assert (controls + [control])[..|controls|] == controls;
  }

  lemma NoAnchorChars()
    ensures AnchorChars([]) == []
    ensures AnchorCode(SectionDef) == AnchorCode(COLUMN_CONTROL) == SECTION_COLUMN_DEF
  {
  }

  lemma NoParts(ctx: Context, env: Env, id: string)
    ensures PartsRealized(ctx, env, id, [], []) && PartsStats([]) == NO_STATS
  {
  }

  lemma PartsSnoc(ctx: Context, env: Env, id: string, parts: seq<(nat, seq<BlockSpec>)>, controls: seq<Control>,
      part: (nat, seq<BlockSpec>), control: Control)
    requires PartsRealized(ctx, env, id, parts, controls) && PartRealized(ctx, env, id, part, control)
    ensures PartsRealized(ctx, env, id, parts + [part], controls + [control])
    ensures PartsStats(parts + [part]) == PartsStats(parts).Plus(ListStats(part.1))
    ensures Reported(PartsStats(parts + [part])) == Reported(PartsStats(parts)).Plus(Reported(ListStats(part.1)))
  {
    hide PartRealized, ListStats;
    assert (parts + [part])[..|parts|] == parts;
    assert (controls + [control])[..|controls|] == controls;
  }

  lemma FreshChunk(ctx: Context, env: Env, section: SectionSpec, p: Paragraph)
    requires NumberOk(section) && AnchorRealized(ctx, env, section, p)
    ensures ChunkRealized(ctx, env, section, [], [p])
    ensures ChunksRealized(ctx, env, section, [[]], [Section([p])])
    ensures ChunksStats(section, [[]]) == AnchorStats(section)
  {
    hide AnchorRealized, AnchorStats, NumberOk;
    NoBlocksRealized(ctx, env);
    assert [p][1..] == [];
    assert [Section([p])][..0] == [];
    var empty: seq<seq<BlockSpec>> := [[]];
    assert empty[..0] == [];
    NoStatsAdded(AnchorStats(section));
    assert ChunkStats(section, []) == AnchorStats(section);
    assert ChunksStats(section, empty) == NO_STATS.Plus(AnchorStats(section));
  }

  /** A section break closes the current output section and starts the next. */
  lemma ChunkStarted(ctx: Context, env: Env, section: SectionSpec, chunks: seq<seq<BlockSpec>>, outs: seq<Section>,
      p: Paragraph)
    requires NumberOk(section) && ChunksRealized(ctx, env, section, chunks, outs)
      && AnchorRealized(ctx, env, section, p)
    ensures ChunksRealized(ctx, env, section, chunks + [[]], outs + [Section([p])])
    ensures Reported(ChunksStats(section, chunks + [[]])) ==
      Reported(ChunksStats(section, chunks)).Plus(Reported(AnchorStats(section)))
  {
    hide AnchorRealized, AnchorStats, NumberOk, ChunkRealized, ChunkStats;
    var more: seq<seq<BlockSpec>> := chunks + [[]];
    assert more[..|chunks|] == chunks;
    assert (outs + [Section([p])])[..|outs|] == outs;
    FreshChunk(ctx, env, section, p);
    EmptyChunkStats(section);
  }

  lemma EmptyChunkStats(section: SectionSpec)
    ensures ChunkStats(section, []) == AnchorStats(section)
  {
    hide AnchorStats;
    NoStatsAdded(AnchorStats(section));
  }

  /** Any other block adds its paragraph to the current output section. */
  lemma ChunkExtended(ctx: Context, env: Env, section: SectionSpec, chunks: seq<seq<BlockSpec>>, outs: seq<Section>,
      block: BlockSpec, p: Paragraph)
    requires NumberOk(section) && chunks != [] && ChunksRealized(ctx, env, section, chunks, outs)
    requires BlockRealized(ctx, env, block, p)
    ensures var last := |chunks| - 1;
      var more := chunks[..last] + [chunks[last] + [block]];
      && ChunksRealized(ctx, env, section, more, outs[..last] + [Section(outs[last].paragraphs + [p])])
      && Reported(ChunksStats(section, more)) ==
        Reported(ChunksStats(section, chunks)).Plus(Reported(BlockStats(block)))
  {
    hide AnchorRealized, AnchorStats, NumberOk, BlockRealized, BlocksRealized, ChunkStats, BlockStats;
    var last := |chunks| - 1;
    var chunk, ps := chunks[last], outs[last].paragraphs;
    var more := chunks[..last] + [chunk + [block]];
    var outs' := outs[..last] + [Section(ps + [p])];
    assert more[..last] == chunks[..last] && outs'[..last] == outs[..last];
    assert (ps + [p])[1..] == ps[1..] + [p] && (ps + [p])[0] == ps[0];
    BlocksSnoc(ctx, env, chunk, ps[1..], block, p);
    ChunkStatsSnoc(section, chunk, block);
  }

  lemma BlocksSnoc(ctx: Context, env: Env, blocks: seq<BlockSpec>, ps: seq<Paragraph>, block: BlockSpec, p: Paragraph)
    requires BlocksRealized(ctx, env, blocks, ps) && BlockRealized(ctx, env, block, p)
    ensures BlocksRealized(ctx, env, blocks + [block], ps + [p])
  {
    hide BlockRealized;
    assert (blocks + [block])[..|blocks|] == blocks;
    assert (ps + [p])[..|ps|] == ps;
  }

  lemma ChunkStatsSnoc(section: SectionSpec, chunk: seq<BlockSpec>, block: BlockSpec)
    ensures ChunkStats(section, chunk + [block]) == ChunkStats(section, chunk).Plus(BlockStats(block))
  {
    hide AnchorStats, BlockStats, Stats.Plus;
    assert (chunk + [block])[..|chunk|] == chunk;
    PlusAssociates(AnchorStats(section), BlocksStats(chunk), BlockStats(block));
  }

  lemma ChunksStep(blocks: seq<BlockSpec>, i: nat)
    requires i < |blocks|
    ensures var chunks := Chunks(blocks[..i]);
      var last := |chunks| - 1;
      Chunks(blocks[..i + 1]) ==
        if IsSectionBreak(blocks[i]) then chunks + [[]] else chunks[..last] + [chunks[last] + [blocks[i]]]
  {
    assert blocks[..i + 1][..i] == blocks[..i];
  }

  lemma SectionsSnoc(ctx: Context, env: Env, front: seq<SectionSpec>, section: SectionSpec, outs: seq<Section>,
      more: seq<Section>)
    requires NumbersOk(front + [section]) && NumbersOk(front) && NumberOk(section)
    requires SectionsRealized(ctx, env, front, outs) && |more| == Breaks(section.blocks) + 1
    requires ChunksRealized(ctx, env, section, Chunks(section.blocks), more)
    ensures SectionsRealized(ctx, env, front + [section], outs + more)
  {
    hide ChunksRealized, NumberOk, Chunks, Breaks;
    var all := outs + more;
    assert (front + [section])[..|front|] == front;
    assert all[..|all| - |more|] == outs && all[|all| - |more|..] == more;
  }

  lemma SpecStatsStep(sections: seq<SectionSpec>, i: nat)
    requires i < |sections|
    ensures Reported(SpecStats(sections[..i + 1]))
      == Reported(SpecStats(sections[..i])).Plus(Reported(ChunksStats(sections[i], Chunks(sections[i].blocks))))
  {
    hide ChunksStats, Chunks;
    assert sections[..i + 1][..i] == sections[..i];
  }

  lemma ChunksLength(ctx: Context, env: Env, section: SectionSpec, chunks: seq<seq<BlockSpec>>, outs: seq<Section>)
    requires NumberOk(section) && ChunksRealized(ctx, env, section, chunks, outs)
    ensures |outs| == |chunks|
  {
  }

  lemma NoSectionsRealized(ctx: Context, env: Env)
    ensures SectionsRealized(ctx, env, [], []) && Reported(SpecStats([])) == NO_STATS
  {
  }

  lemma {:induction false} SectionBudgetAt(sections: seq<SectionSpec>, i: nat)
    requires i < |sections|
    ensures SectionBudget(sections[i]).runs <= SectionsBudget(sections).runs
  {
    hide SectionBudget;
    if i < |sections| - 1 {
      SectionBudgetAt(sections[..|sections| - 1], i);
    }
  }

  lemma SectionRuns(section: SectionSpec)
    ensures PartBudget(section.header).runs <= SectionBudget(section).runs
    ensures PartBudget(section.footer).runs <= SectionBudget(section).runs
    ensures BlocksSum(section.blocks).runs <= SectionBudget(section).runs
  {
    hide PartBudget, BlocksSum;
  }

  lemma PartRuns(part: HeaderFooter)
    ensures BlocksSum(part.default).runs <= PartBudget(Some(part)).runs
    ensures BlocksSum(part.even).runs <= PartBudget(Some(part)).runs
    ensures BlocksSum(part.odd).runs <= PartBudget(Some(part)).runs
  {
    hide BlocksSum;
  }

  lemma OnePart(ctx: Context, env: Env, id: string, apply: nat, blocks: seq<BlockSpec>, control: Control)
    requires blocks != [] && PartRealized(ctx, env, id, (apply, blocks), control)
    ensures PartsStats(NonEmpty(apply, blocks)) == ListStats(blocks)
    ensures NonEmpty(apply, blocks) == [(apply, blocks)]
  {
    hide ListStats, Stats.Plus;
    assert [(apply, blocks)][..0] == [];
    NoStatsAdded(ListStats(blocks));
  }

  lemma {:induction false} PartsStatsConcat(a: seq<(nat, seq<BlockSpec>)>, b: seq<(nat, seq<BlockSpec>)>)
    ensures PartsStats(a + b) == PartsStats(a).Plus(PartsStats(b))
  {
    hide Stats.Plus, ListStats;
    if b == [] {
      assert a + b == a;
      NoStatsAdded(PartsStats(a));
    } else {
      var c, x := b[..|b| - 1], b[|b| - 1];
      assert (a + b)[..|a + b| - 1] == a + c;
      PartsStatsConcat(a, c);
      PlusAssociates(PartsStats(a), PartsStats(c), ListStats(x.1));
    }
  }

  lemma ReportedPlus(a: Stats, b: Stats)
    ensures Reported(a.Plus(b)) == Reported(a).Plus(Reported(b))
  {
  }

  lemma ThreeParts(s: Stats, d: seq<(nat, seq<BlockSpec>)>, e: seq<(nat, seq<BlockSpec>)>,
      o: seq<(nat, seq<BlockSpec>)>)
    ensures s.Plus(Reported(PartsStats(d))).Plus(Reported(PartsStats(e))).Plus(Reported(PartsStats(o)))
      == s.Plus(Reported(PartsStats(d + e + o)))
  {
    hide Stats.Plus, PartsStats, Reported;
    var x, y, z := Reported(PartsStats(d)), Reported(PartsStats(e)), Reported(PartsStats(o));
    PartsStatsConcat(d, e);
    PartsStatsConcat(d + e, o);
    ReportedPlus(PartsStats(d), PartsStats(e));
    ReportedPlus(PartsStats(d + e), PartsStats(o));
    PlusAssociates(s, x, y);
    PlusAssociates(s, x.Plus(y), z);
  }

  lemma AnchorReport(s: Stats, section: SectionSpec)
    ensures s.Plus(Reported(PartsStats(Parts(section.header)))).Plus(Reported(PartsStats(Parts(section.footer))))
      == s.Plus(Reported(AnchorStats(section)))
  {
    hide Parts, PartsStats;
  }

  lemma AnchorFrom(ctx: Context, env: Env, section: SectionSpec, p: Paragraph, a: nat, b: nat)
    requires NumberOk(section) && Sound(p) && 2 <= a <= b <= |p.controls|
    requires p.(chars := [], controls := []) == Paragraph(0, 0, [], [ShapeRun(0, 0)], [], 3, 0, [])
    requires p.chars == AnchorChars(p.controls) && p.controls[..2] == [SectionDef, COLUMN_CONTROL]
    requires PartsRealized(ctx, env, "head", Parts(section.header), p.controls[2..a])
    requires PartsRealized(ctx, env, "foot", Parts(section.footer), p.controls[a..b])
    requires p.controls[b..] == PageControls(section.pageNumber)
    ensures AnchorRealized(ctx, env, section, p)
  {
    hide Sound, AnchorChars, PageControls, Parts;
    PartsLength(ctx, env, "head", Parts(section.header), p.controls[2..a]);
    PartsLength(ctx, env, "foot", Parts(section.footer), p.controls[a..b]);
  }

  lemma PartsLength(ctx: Context, env: Env, id: string, parts: seq<(nat, seq<BlockSpec>)>, controls: seq<Control>)
    requires PartsRealized(ctx, env, id, parts, controls)
    ensures |controls| == |parts|
  {
  }

  lemma SectionNumberOk(spec: DocumentSpec, section: SectionSpec)
    requires SectionOk(spec, section)
    ensures NumberOk(section)
  {
    hide HeaderFooterOk, BlocksOk, PageOk, PageNumberOk;
  }

  lemma AllNumbersOk(spec: DocumentSpec, sections: seq<SectionSpec>)
    requires forall i :: 0 <= i < |sections| ==> SectionOk(spec, sections[i])
    ensures NumbersOk(sections)
  {
    hide SectionOk, NumberOk;
    forall i | 0 <= i < |sections| ensures NumberOk(sections[i]) {
      SectionNumberOk(spec, sections[i]);
    }
  }

  lemma TwoPageControls(number: Option<PageNumber>)
    requires number.Some? ==> PageNumberOk(number.value)
    ensures number.None? ==> PageControls(number) == []
    ensures number.Some? ==>
      && |PageControls(number)| == 2
      && AnchorCode(PageControls(number)[0]) == AnchorCode(PageControls(number)[1]) == PAGE_CONTROL
  {
    hide SideUnit;
  }

  lemma ChunksOfNothing()
    ensures Chunks([]) == [[]]
  {
  }
}
