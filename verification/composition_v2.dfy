/**
 Version 2 of the composer as a whole: the version 1 document, then its visuals, then a
 report made from the version 1 report and the pictures attached since.
 */
module CompositionV2 {
  import opened HwpModel
  import opened DocumentSpecs
  import opened Headers
  import opened Realization
  import opened RealizationFacts
  import opened CompileSteps
  import opened SectionRealization
  import opened Composition
  import opened Tidiness
  import opened Visuals
  import SectionSteps

  const MAX_VISUALS := 1000
  const FEW := MAX_RUNS + 16

  // ----- Controls of a composed document -------------------------------------------------

  ghost predicate FewControls(ps: seq<Paragraph>) {
    forall i :: 0 <= i < |ps| ==> |ps[i].controls| <= FEW
  }

  lemma BlockControls(ctx: Context, env: Env, block: BlockSpec, p: Paragraph)
    requires BlockRealized(ctx, env, block, p) && BlockBudget(block).runs <= MAX_RUNS
    ensures |p.controls| <= FEW
  {
    hide Sound, ControlsRealized, RunsBudget, TextShown, ParaShapeOk, RowsRealized, FrameRealized, ImageRealized;
    if block.ParagraphBlock? {
      FewRuns(block.style, block.list, block.keepWithNext, block.runs);
      ControlsCounted(ctx, env, block.runs, p.controls);
      ControlsBounded(block.runs);
    }
  }

  /** Every block of the list has at most `n` runs. */
  ghost predicate RunsWithin(blocks: seq<BlockSpec>, n: nat) {
    forall i :: 0 <= i < |blocks| ==> BlockBudget(blocks[i]).runs <= n
  }

  lemma {:induction false} BlocksControls(ctx: Context, env: Env, blocks: seq<BlockSpec>, ps: seq<Paragraph>)
    requires BlocksRealized(ctx, env, blocks, ps) && RunsWithin(blocks, MAX_RUNS)
    ensures FewControls(ps)
  {
    hide BlockRealized, BlockBudget;
    if blocks != [] {
      var front := ps[..|ps| - 1];
      BlocksControls(ctx, env, blocks[..|blocks| - 1], front);
      BlockControls(ctx, env, blocks[|blocks| - 1], ps[|ps| - 1]);
      assert forall i :: 0 <= i < |front| ==> front[i] == ps[i];
    }
  }

  lemma AnchorControls(ctx: Context, env: Env, section: SectionSpec, p: Paragraph)
    requires NumberOk(section) && AnchorRealized(ctx, env, section, p)
    ensures |p.controls| <= FEW
  {
    hide Sound, AnchorChars, PartsRealized;
    var b := 2 + |Parts(section.header)| + |Parts(section.footer)|;
    assert |p.controls| == b + |p.controls[b..]|;
  }

  lemma {:induction false} ChunksRuns(blocks: seq<BlockSpec>, n: nat)
    requires RunsWithin(blocks, n)
    ensures forall i :: 0 <= i < |Chunks(blocks)| ==> RunsWithin(Chunks(blocks)[i], n)
  {
    hide BlockBudget;
    if blocks != [] {
      var rest := blocks[..|blocks| - 1];
      assert RunsWithin(rest, n);
      ChunksRuns(rest, n);
    }
  }

  ghost predicate FewControlsEach(outs: seq<Section>) {
    forall s :: 0 <= s < |outs| ==> FewControls(outs[s].paragraphs)
  }

  lemma {:induction false} ChunksControls(ctx: Context, env: Env, section: SectionSpec, chunks: seq<seq<BlockSpec>>,
      outs: seq<Section>)
    requires NumberOk(section) && ChunksRealized(ctx, env, section, chunks, outs)
    requires forall i :: 0 <= i < |chunks| ==> RunsWithin(chunks[i], MAX_RUNS)
    ensures FewControlsEach(outs)
  {
    hide AnchorRealized, BlocksRealized, NumberOk, RunsWithin;
    if chunks != [] {
      var last, ps := |chunks| - 1, outs[|outs| - 1].paragraphs;
      ChunksControls(ctx, env, section, chunks[..last], outs[..last]);
      AnchorControls(ctx, env, section, ps[0]);
      BlocksControls(ctx, env, chunks[last], ps[1..]);
      assert ps == [ps[0]] + ps[1..];
    }
  }

  lemma {:induction false} SectionsControls(ctx: Context, env: Env, sections: seq<SectionSpec>, outs: seq<Section>)
    requires NumbersOk(sections) && SectionsRealized(ctx, env, sections, outs)
      && SectionsBudget(sections).runs <= MAX_RUNS
    ensures FewControlsEach(outs)
  {
    hide ChunksRealized, NumberOk, Chunks, SectionBudget, FewControls, BlocksSum, BlockBudget;
    if sections != [] {
      var last := sections[|sections| - 1];
      var n := Breaks(last.blocks) + 1;
      SectionsControls(ctx, env, sections[..|sections| - 1], outs[..|outs| - n]);
      SectionSteps.SectionRuns(last);
      forall i | 0 <= i < |last.blocks| ensures BlockBudget(last.blocks[i]).runs <= MAX_RUNS {
        BlockBudgetAt(last.blocks, i);
      }
      ChunksRuns(last.blocks, MAX_RUNS);
      ChunksControls(ctx, env, last, Chunks(last.blocks), outs[|outs| - n..]);
      forall s | 0 <= s < |outs| ensures FewControls(outs[s].paragraphs) {
        assert s < |outs| - n ==> FewControls(outs[..|outs| - n][s].paragraphs);
        assert s >= |outs| - n ==> FewControls(outs[|outs| - n..][s - (|outs| - n)].paragraphs);
      }
    }
  }

  lemma {:induction false} TidyAt(ps: seq<Paragraph>, i: nat)
    requires ParagraphsTidy(ps) && i < |ps|
    ensures Sound(ps[i])
  {
    hide Sound, ControlsTidy;
    if i < |ps| - 1 {
      TidyAt(ps[..|ps| - 1], i);
    }
  }

  /** A composed document has room for every visual that may be attached to it. */
  lemma ComposedIsRoomy(ctx: Context, env: Env, doc: Document, more: nat)
    requires SpecOk(ctx.spec) && Realizes(ctx, env, doc) && SectionsTidy(doc.sections) && more <= MAX_VISUALS
    ensures Roomy(doc, more)
  {
    hide SectionsRealized, SectionsBudget, Sound, ParagraphsTidy, StylesOk, ChainsOk, ListsOk, SectionsOk, IdsDistinct,
      PageOk, StylesReady, ListsDefined, OutputSections;
    SectionsControls(ctx, env, ctx.spec.sections, doc.sections);
    forall s: nat, i: nat | HasParagraph(doc, s, i)
      ensures Sound(doc.sections[s].paragraphs[i]) && |doc.sections[s].paragraphs[i].controls| + more < 0x1_0000_0000
    {
      TidyAt(doc.sections[s].paragraphs, i);
      assert FewControls(doc.sections[s].paragraphs);
    }
  }

  // ----- Composing -----------------------------------------------------------------------

  datatype ComposedV2 =
    | Attached(document: Document, report: ComposeReport)
    | Base(result: Composed)
    | VisualsRejected
    | VisualFailed(error: VisualError)

  /** What is checked of the visuals against the compiled document; `sane` stands for their other checks. */
  predicate VisualsOk(doc: Document, visuals: seq<Visual>, sane: bool) {
    && |visuals| <= MAX_VISUALS && sane
    && forall i :: 0 <= i < |visuals| ==> HasParagraph(doc, visuals[i].section, visuals[i].paragraph)
  }

  method AllLocated(doc: Document, visuals: seq<Visual>) returns (ok: bool)
    ensures ok <==> forall i :: 0 <= i < |visuals| ==> HasParagraph(doc, visuals[i].section, visuals[i].paragraph)
  {
    var i := 0;
    while i < |visuals|
      invariant 0 <= i <= |visuals|
      invariant forall j :: 0 <= j < i ==> HasParagraph(doc, visuals[j].section, visuals[j].paragraph)
    {
      var v := visuals[i];
      if v.section >= |doc.sections| || v.paragraph >= |doc.sections[v.section].paragraphs| {
        return false;
      }
      i := i + 1;
    }
    return true;
  }

  /**
   Composes a document with visuals: the compiled document, with the visuals at the ends
   of their paragraphs. Its report counts tables, images, equations and fields as the document
   holds them, and paragraphs exactly when no visual is a text box.
   */
  method ComposeWithVisuals(spec: DocumentSpec, files: Files, base: Header, visuals: seq<Visual>, sane: bool,
      target: Target) returns (r: ComposedV2, ghost ctx: Context, ghost first: Composed)
    requires HeaderOk(base) && DigestsInjective(files)
    ensures !SpecOk(spec) <==> first.Rejected?
    ensures r == Base(first) <==> !first.Compiled?
    ensures r.VisualsRejected? <==> first.Compiled? && !VisualsOk(first.result.document, visuals, sane)
    ensures r.VisualFailed? ==> FirstFault(visuals, target, r.error)
    ensures r.Attached? <==>
      && first.Compiled? && VisualsOk(first.result.document, visuals, sane)
      && forall i :: 0 <= i < |visuals| ==> Faultless(visuals[i], target)
    ensures r.Attached? ==>
      && first.Compiled? && ctx.spec == spec && ctx.files == files
      && Realizes(ctx, first.result.env, first.result.document)
      && VisualsPlaced(first.result.document, r.document, visuals)
    ensures r.Attached? ==>
      var stats := DocumentStats(r.document);
      && SpecOk(spec) && r.report.sections == |r.document.sections|
      && stats == SpecStats(spec.sections).Plus(VisualsStats(visuals))
      && r.report.tables == stats.tables && r.report.images == stats.pictures
      && r.report.equations == stats.equations && r.report.fields == stats.fields && stats.unresolved == 0
      && (r.report.paragraphs == stats.paragraphs <==>
            forall i :: 0 <= i < |visuals| ==> !visuals[i].content.TextBoxContent?)
  {
    hide SpecOk, Realizes, SectionsTidy, Stats.Plus, SpecStats, SectionsStats, DigestsInjective, TotalBytes, Grows,
      VisualsStats, PlacedAt, Faultless;
    var composed;
    composed, ctx := ComposeDocument(spec, files, base);
    first := composed;
    if !composed.Compiled? {
      return Base(composed), ctx, first;
    }
    var doc, report := composed.result.document, composed.result.report;
    var located := AllLocated(doc, visuals);
    if |visuals| > MAX_VISUALS || !sane || !located {
      return VisualsRejected, ctx, first;
    }
    ComposedIsRoomy(ctx, composed.result.env, doc, |visuals|);
    var compiler := new VisualCompiler(doc, target);
    var error := compiler.CompileVisuals(visuals);
    if error.Some? {
      return VisualFailed(error.value), ctx, first;
    }
    CountsAdded(DocumentStats(doc), visuals);
    return ComposedV2.Attached(compiler.document, report.(images := report.images + compiler.images)), ctx, first;
  }

  lemma CountsAdded(before: Stats, visuals: seq<Visual>)
    ensures var added, after := VisualsStats(visuals), before.Plus(VisualsStats(visuals));
      && after.tables == before.tables && after.equations == before.equations && after.fields == before.fields
      && after.pictures == before.pictures + added.pictures && after.unresolved == before.unresolved
      && (after.paragraphs == before.paragraphs <==>
            forall i :: 0 <= i < |visuals| ==> !visuals[i].content.TextBoxContent?)
  {
    hide VisualsStats;
    ParagraphsAddedIffTextBox(visuals);
    OnlyPicturesAndParagraphs(visuals);
  }

  lemma {:induction false} OnlyPicturesAndParagraphs(visuals: seq<Visual>)
    ensures var s := VisualsStats(visuals);
      s.tables == 0 && s.equations == 0 && s.fields == 0 && s.unresolved == 0
  {
    hide Stats.Plus, Lines;
    if visuals != [] {
      var front, last := VisualsStats(visuals[..|visuals| - 1]), VisualStats(visuals[|visuals| - 1]);
      OnlyPicturesAndParagraphs(visuals[..|visuals| - 1]);
      PlusCounts(front, last);
    }
  }

  lemma PlusCounts(a: Stats, b: Stats)
    ensures a.Plus(b).tables == a.tables + b.tables && a.Plus(b).equations == a.equations + b.equations
    ensures a.Plus(b).fields == a.fields + b.fields && a.Plus(b).unresolved == a.unresolved + b.unresolved
  {
  }
}
