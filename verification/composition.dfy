/**
 Composing a document: validate the specification, prepare styles and lists, compile every
 section, and report what the finished document holds.
 */
module Composition {
  import opened HwpModel
  import opened Styles
  import opened DocumentSpecs
  import opened Headers
  import opened Realization
  import opened RealizationFacts
  import opened CompileSteps
  import opened CompileLimits
  import opened SectionRealization
  import opened Preparation
  import opened Compilation
  import ImageRealization
  import Tidiness
  import Validation
  import DocumentCounts
  import TidyFields

  datatype ComposeReport = ComposeReport(sections: nat, paragraphs: nat, tables: nat, images: nat, equations: nat,
    fields: nat)

  datatype CompiledSpec = CompiledSpec(
    document: Document,
    env: Env,
    sectionCount: nat,
    report: ComposeReport)

  datatype Composed =
    | Compiled(result: CompiledSpec)
    | Rejected(issues: seq<Validation.IssueCode>)
    | Failed(error: ComposeError)

  /** The report states what the recursive counts find in the document, at every depth. */
  predicate ReportsDocument(report: ComposeReport, doc: Document) {
    var stats := DocumentStats(doc);
    && report.sections == |doc.sections| && report.paragraphs == stats.paragraphs
    && report.tables == stats.tables && report.images == stats.pictures
    && report.equations == stats.equations && report.fields == stats.fields
  }

  ghost predicate ListsDefined(ctx: Context, header: Header) {
    forall name :: name in ctx.spec.lists ==>
      name in ctx.lists && ListDefined(header, ctx.spec.lists[name], ctx.lists[name])
  }

  /** What a specification becomes: each block realised in place, styles and lists defined. */
  ghost predicate Realizes(ctx: Context, env: Env, doc: Document) {
    && StylesReady(ctx, env)
    && ListsDefined(ctx, env.header)
    && NumbersOk(ctx.spec.sections) && SectionsRealized(ctx, env, ctx.spec.sections, doc.sections)
    && |doc.sections| == OutputSections(ctx.spec.sections)
  }

  /** Every table and list the blocks refer to, before the first block is compiled. */
  method Prepare(spec: DocumentSpec, files: Files, base: Header) returns (r: Outcome<(Context, Header)>)
    requires SpecOk(spec) && HeaderOk(base)
    ensures r.Err? ==> Explained(spec, files, base, r.error)
    ensures r.Ok? ==> var (ctx, header) := r.value;
      && |header.charShapes| <= |base.charShapes| + |spec.styles|
      && |header.paraShapes| <= |base.paraShapes| + |spec.styles|
      && ctx.spec == spec && ctx.files == files && HeaderOk(header) && Grows(base, header)
      && StylesReady(ctx, Env(header, [])) && ListsReady(ctx) && ListsDefined(ctx, header)
  {
    hide Explained, NoMoreStyles, NoMoreLists, ResolveStyle, StyleMade, Grows, ListDefined, ListsOk, SectionsOk,
      SectionsBudget, IdsDistinct, PageOk, StylesOk, ChainsOk, StyleLinksOk;
    LinksOk(spec);
    var resolved := ResolveStyles(spec.styles);
    var styles := CompileStyles(resolved.value, base);
    SameSize(resolved.value, spec.styles);
    if styles.Err? {
      StylesBlamed(spec, files, base, styles.error);
      return Err(styles.error);
    }
    MarkersOk(spec);
    var lists := CompileLists(spec.lists, styles.value.0);
    if lists.Err? {
      ListsBlamed(spec, files, base, styles.value.0);
      return Err(lists.error);
    }
    GrowsTransitive(base, styles.value.0, lists.value.0);
    var ctx := Context(spec, files, styles.value.1, resolved.value, lists.value.1);
    var header := lists.value.0;
    forall name | name in spec.styles ensures StyleReady(ctx, Env(header, []), name) {
      StyleStaysMade(styles.value.0, header, styles.value.1[name], name, resolved.value[name]);
    }
    assert ctx.styles.Keys == spec.styles.Keys;
    forall name | name in spec.lists ensures |ctx.lists[name]| == |spec.lists[name].levels| {
      DefinedLength(header, spec.lists[name], ctx.lists[name]);
    }
    return Ok((ctx, header));
  }

  lemma SameSize<K, A, B>(a: map<K, A>, b: map<K, B>)
    requires a.Keys == b.Keys
    ensures |a| == |b|
  {
    assert |a| == |a.Keys| == |b.Keys| == |b|;
  }

  lemma StylesBlamed(spec: DocumentSpec, files: Files, base: Header, error: ComposeError)
    requires exists h, n: nat :: n < |spec.styles| && StylesAdded(base, h, n) && NoMoreStyles(h, error)
    ensures Explained(spec, files, base, error)
  {
    hide SpecUses, Formats, Listings;
  }

  lemma ListsBlamed(spec: DocumentSpec, files: Files, base: Header, header: Header)
    requires header.numbering == base.numbering && header.bullets == base.bullets
    requires exists h, n: nat :: n < |spec.lists| && ListsAdded(header, h, n) && NoMoreLists(h)
    ensures Explained(spec, files, base, ListTableFull)
  {
  }

  lemma DefinedLength(h: Header, list: ListSpec, ids: seq<nat>)
    requires ListDefined(h, list, ids)
    ensures |ids| == |list.levels|
  {
  }

  lemma ListsStayDefined(ctx: Context, a: Header, b: Header)
    requires ListsDefined(ctx, a) && Grows(a, b)
    ensures ListsDefined(ctx, b)
  {
    hide ListDefined, Grows;
    forall name | name in ctx.spec.lists ensures ListDefined(b, ctx.spec.lists[name], ctx.lists[name]) {
      ListStaysDefined(a, b, ctx.spec.lists[name], ctx.lists[name]);
    }
  }

  /** What follows for a whole document once its sections realise the specification. */
  lemma RealizedDocument(ctx: Context, env: Env, outs: seq<Section>)
    requires SpecOk(ctx.spec) && NumbersOk(ctx.spec.sections) && SectionsRealized(ctx, env, ctx.spec.sections, outs)
    ensures SectionsTidy(outs) && SectionsStats(outs).unresolved == 0
    ensures SectionsStats(outs) == SpecStats(ctx.spec.sections)
    ensures |outs| == OutputSections(ctx.spec.sections) <= MAX_SECTIONS + MAX_BLOCKS < U16_MAX
  {
    hide SectionsOk, SectionsRealized, NumbersOk, StylesOk, ChainsOk, ListsOk, IdsDistinct, PageOk, SectionsBudget,
      OutputSections, SectionsTidy;
    DocumentTidy(ctx, env, ctx.spec.sections, outs);
    TidyFields.SectionsResolve(outs);
    SectionsCounted(ctx, env, ctx.spec.sections, outs);
    SectionsAreCounted(ctx, env, ctx.spec.sections, outs);
    OutputSectionsBounded(ctx.spec.sections);
  }

  lemma AllImagesUsable(ctx: Context, env: Env, outs: seq<Section>)
    requires NumbersOk(ctx.spec.sections) && SectionsRealized(ctx, env, ctx.spec.sections, outs)
    ensures ImagesUsable(ctx.spec, ctx.files)
  {
    hide SectionsRealized, NumbersOk, UsesUsable, SectionsUses;
    ImageRealization.SectionsImages(ctx, env, ctx.spec.sections, outs);
  }

  lemma Excluded(spec: DocumentSpec, files: Files, base: Header, error: ComposeError)
    requires Explained(spec, files, base, error)
    ensures !(HasRoom(spec, files, base) && ImagesUsable(spec, files))
  {
    hide Explained, HasRoom, ImagesUsable;
    if HasRoom(spec, files, base) && ImagesUsable(spec, files) {
      NothingToBlame(spec, files, base, error);
    }
  }

  /**
   Composes a document. A rejected specification is exactly one that breaks a rule. Every other
   failure is explained by an image file, or by a table or the byte budget that is too small:
   where these have room, a document is composed exactly when the specification is accepted and
   all its images are usable. What is composed realises the specification, is well formed
   throughout, and is counted exactly.
   */
  method ComposeDocument(spec: DocumentSpec, files: Files, base: Header) returns (r: Composed, ghost ctx: Context)
    requires HeaderOk(base) && DigestsInjective(files)
    ensures r.Rejected? <==> !SpecOk(spec)
    ensures r.Failed? ==> Explained(spec, files, base, r.error)
    ensures r.Compiled? ==> ImagesUsable(spec, files)
    ensures HasRoom(spec, files, base) ==> (r.Compiled? <==> SpecOk(spec) && ImagesUsable(spec, files))
    ensures r.Compiled? ==> var c := r.result;
      && ctx.spec == spec && ctx.files == files && Grows(base, c.env.header)
      && Realizes(ctx, c.env, c.document)
      && SectionsTidy(c.document.sections)
      && ReportsDocument(c.report, c.document) && DocumentStats(c.document) == SpecStats(spec.sections)
      && DocumentStats(c.document).unresolved == 0
      && c.sectionCount == |c.document.sections| <= MAX_SECTIONS + MAX_BLOCKS
      && TotalBytes(c.env.streams) <= MAX_TOTAL_ASSET_BYTES
  {
    ctx := Context(spec, files, map[], map[], map[]);
    var validator := new Validation.Validator(spec);
    validator.Validate();
    if validator.issues != [] {
      return Rejected(validator.issues), ctx;
    }
    hide Explained, HasRoom, ImagesUsable, Sizes, FormatsMade, ListsMade, Charged, SpecOk, SectionsRealized, NumbersOk,
      StylesReady, ListsReady, ListsDefined, SectionsTidy, Grows, SectionsStats, SpecStats, OutputSections,
      DigestsInjective, CachesReady, ListShapesReady, TotalBytes, DocumentCounts.CountSections, Stats.Plus;
    var prepared := Prepare(spec, files, base);
    if prepared.Err? {
      Excluded(spec, files, base, prepared.error);
      return Composed.Failed(prepared.error), ctx;
    }
    ctx := prepared.value.0;
    var compiler := new Compiler(prepared.value.0, prepared.value.1, base);
    var sections := compiler.Compile();
    if sections.Err? {
      Excluded(spec, files, base, sections.error);
      return Composed.Failed(sections.error), ctx;
    }
    var doc := Document(sections.value);
    var sectionCount := if |doc.sections| > U16_MAX then U16_MAX else |doc.sections|;
    var counts := compiler.report;
    var report := ComposeReport(|doc.sections|, DocumentCounts.CountSections(doc.sections),
                                counts.tables, counts.pictures, counts.equations, counts.fields);
    RealizedDocument(ctx, compiler.env, doc.sections);
    AllImagesUsable(ctx, compiler.env, doc.sections);
    DocumentCounts.CountSectionsIsStat(doc.sections);
    ListsStayDefined(ctx, prepared.value.1, compiler.env.header);
    GrowsTransitive(base, prepared.value.1, compiler.env.header);
    return Compiled(CompiledSpec(doc, compiler.env, sectionCount, report)), ctx;
  }
}
