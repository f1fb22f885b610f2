/**
 What a specification makes the compiler look up or load, and how that bounds the tables and
 the embedded bytes: from it, why the compilation of an accepted specification can fail.
 */
module CompileLimits {
  import opened HwpModel
  import opened Styles
  import opened DocumentSpecs
  import opened Headers
  import opened Realization
  import opened RealizationGrowth
  import opened CompileSteps

  // ----- What a specification uses -------------------------------------------------------

  /** A format laid over a style, a list level applied to a style, an image at a size. */
  datatype Use =
    | FormatUse(style: Option<string>, format: RunFormat)
    | ListUse(style: Option<string>, list: ListRef)
    | ImageUse(path: AssetPath, width: real, height: Option<real>)

  function RunUses(style: Option<string>, run: RunSpec): set<Use> {
    match run
    case TextRun(_, own, format) => if format == DEFAULT_FORMAT then {} else {FormatUse(Either(own, style), format)}
    case ImageRun(path, width, height, _) => {ImageUse(path, width, height)}
    case _ => {}
  }

  function RunsUses(style: Option<string>, runs: seq<RunSpec>): set<Use> {
    if runs == [] then {} else RunsUses(style, runs[..|runs| - 1]) + RunUses(style, runs[|runs| - 1])
  }

  function ListUses(style: Option<string>, list: Option<ListRef>): set<Use> {
    if list.Some? then {ListUse(style, list.value)} else {}
  }

  function BlockUses(spec: DocumentSpec, block: BlockSpec): set<Use>
    decreases block
  {
    match block
    case ParagraphBlock(own, list, _, runs) =>
      var style := Either(own, LevelStyle(spec, list));
      ListUses(style, list) + RunsUses(style, runs)
    case TableBlock(_, _, rows) => RowsUses(spec, rows)
    case ImageBlock(path, width, height, _, _) => {ImageUse(path, width, height)}
    case _ => {}
  }

  function BlocksUses(spec: DocumentSpec, blocks: seq<BlockSpec>): set<Use>
    decreases blocks
  {
    if blocks == [] then {}
    else BlocksUses(spec, blocks[..|blocks| - 1]) + BlockUses(spec, blocks[|blocks| - 1])
  }

  function CellsUses(spec: DocumentSpec, cells: seq<CellSpec>): set<Use>
    decreases cells
  {
    if cells == [] then {}
    else CellsUses(spec, cells[..|cells| - 1]) + BlocksUses(spec, cells[|cells| - 1].blocks)
  }

  function RowsUses(spec: DocumentSpec, rows: seq<RowSpec>): set<Use>
    decreases rows
  {
    if rows == [] then {} else RowsUses(spec, rows[..|rows| - 1]) + CellsUses(spec, rows[|rows| - 1].cells)
  }

  function PartUses(spec: DocumentSpec, part: Option<HeaderFooter>): set<Use> {
    if part == None then {}
    else
      BlocksUses(spec, part.value.default) + BlocksUses(spec, part.value.odd) + BlocksUses(spec, part.value.even)
  }

  function SectionUses(spec: DocumentSpec, section: SectionSpec): set<Use> {
    PartUses(spec, section.header) + PartUses(spec, section.footer) + BlocksUses(spec, section.blocks)
  }

  function SectionsUses(spec: DocumentSpec, sections: seq<SectionSpec>): set<Use> {
    if sections == [] then {}
    else SectionsUses(spec, sections[..|sections| - 1]) + SectionUses(spec, sections[|sections| - 1])
  }

  function SpecUses(spec: DocumentSpec): set<Use> {
    SectionsUses(spec, spec.sections)
  }

  /** Uses of this kind occur in the specification. */
  ghost predicate Planned(spec: DocumentSpec, uses: set<Use>) {
    uses <= SpecUses(spec)
  }

  lemma {:induction false} RunPlanned(spec: DocumentSpec, style: Option<string>, runs: seq<RunSpec>, i: nat)
    requires Planned(spec, RunsUses(style, runs)) && i < |runs|
    ensures Planned(spec, RunUses(style, runs[i]))
  {
    hide SpecUses, RunUses;
    if i < |runs| - 1 {
      RunPlanned(spec, style, runs[..|runs| - 1], i);
    }
  }

  lemma {:induction false} BlockPlanned(spec: DocumentSpec, blocks: seq<BlockSpec>, i: nat)
    requires Planned(spec, BlocksUses(spec, blocks)) && i < |blocks|
    ensures Planned(spec, BlockUses(spec, blocks[i]))
  {
    hide SpecUses, BlockUses;
    if i < |blocks| - 1 {
      BlockPlanned(spec, blocks[..|blocks| - 1], i);
    }
  }

  lemma {:induction false} CellPlanned(spec: DocumentSpec, cells: seq<CellSpec>, i: nat)
    requires Planned(spec, CellsUses(spec, cells)) && i < |cells|
    ensures Planned(spec, BlocksUses(spec, cells[i].blocks))
  {
    hide SpecUses, BlocksUses;
    if i < |cells| - 1 {
      CellPlanned(spec, cells[..|cells| - 1], i);
    }
  }

  lemma {:induction false} RowPlanned(spec: DocumentSpec, rows: seq<RowSpec>, i: nat)
    requires Planned(spec, RowsUses(spec, rows)) && i < |rows|
    ensures Planned(spec, CellsUses(spec, rows[i].cells))
  {
    hide SpecUses, CellsUses;
    if i < |rows| - 1 {
      RowPlanned(spec, rows[..|rows| - 1], i);
    }
  }

  lemma ParagraphPlanned(spec: DocumentSpec, own: Option<string>, list: Option<ListRef>, keep: bool, runs: seq<RunSpec>)
    requires Planned(spec, BlockUses(spec, ParagraphBlock(own, list, keep, runs)))
    ensures var style := Either(own, LevelStyle(spec, list));
      Planned(spec, ListUses(style, list)) && Planned(spec, RunsUses(style, runs))
  {
    hide SpecUses, RunsUses, ListUses, LevelStyle;
  }

  lemma PartPlanned(spec: DocumentSpec, part: HeaderFooter)
    requires Planned(spec, PartUses(spec, Some(part)))
    ensures Planned(spec, BlocksUses(spec, part.default))
    ensures Planned(spec, BlocksUses(spec, part.odd)) && Planned(spec, BlocksUses(spec, part.even))
  {
    hide SpecUses, BlocksUses;
  }

  lemma SectionPlanned(spec: DocumentSpec, section: SectionSpec)
    requires Planned(spec, SectionUses(spec, section))
    ensures Planned(spec, PartUses(spec, section.header)) && Planned(spec, PartUses(spec, section.footer))
    ensures Planned(spec, BlocksUses(spec, section.blocks))
  {
    hide SpecUses, PartUses, BlocksUses;
  }

  lemma {:induction false} SectionInAll(spec: DocumentSpec, sections: seq<SectionSpec>, i: nat)
    requires i < |sections|
    ensures SectionUses(spec, sections[i]) <= SectionsUses(spec, sections)
  {
    hide SectionUses;
    if i < |sections| - 1 {
      SectionInAll(spec, sections[..|sections| - 1], i);
    }
  }

  lemma SpecSectionPlanned(spec: DocumentSpec, i: nat)
    requires i < |spec.sections|
    ensures Planned(spec, SectionUses(spec, spec.sections[i]))
  {
    hide SectionUses;
    SectionInAll(spec, spec.sections, i);
  }

  // ----- Counting ------------------------------------------------------------------------

  function Formats(uses: set<Use>): set<Use> {
    set u | u in uses && u.FormatUse?
  }

  function Listings(uses: set<Use>): set<Use> {
    set u | u in uses && u.ListUse?
  }

  function Paths(uses: set<Use>): set<AssetPath> {
    set u | u in uses && u.ImageUse? :: u.path
  }

  lemma {:induction false} SubsetSize<T>(a: set<T>, b: set<T>)
    requires a <= b
    ensures |a| <= |b|
  {
    if a != {} {
      var x :| x in a;
      SubsetSize(a - {x}, b - {x});
    }
  }

  lemma SmallerSets(a: set<Use>, b: set<Use>)
    requires a <= b
    ensures |Formats(a)| <= |Formats(b)| && |Listings(a)| <= |Listings(b)| && Paths(a) <= Paths(b)
  {
    SubsetSize(Formats(a), Formats(b));
    SubsetSize(Listings(a), Listings(b));
  }

  lemma OneUseMore(uses: set<Use>, use: Use)
    requires use !in uses
    ensures use.FormatUse? ==> |Formats(uses + {use})| == |Formats(uses)| + 1
    ensures !use.FormatUse? ==> Formats(uses + {use}) == Formats(uses)
    ensures use.ListUse? ==> |Listings(uses + {use})| == |Listings(uses)| + 1
    ensures !use.ListUse? ==> Listings(uses + {use}) == Listings(uses)
    ensures Paths(uses + {use}) == Paths(uses) + if use.ImageUse? then {use.path} else {}
  {
    if use.FormatUse? {
      assert Formats(uses + {use}) == Formats(uses) + {use};
    }
    if use.ListUse? {
      assert Listings(uses + {use}) == Listings(uses) + {use};
    }
  }

  function Bytes(files: Files, path: AssetPath): nat {
    if path in files then |files[path].data| else 0
  }

  ghost function TotalOf(files: Files, paths: set<AssetPath>): nat {
    if paths == {} then 0
    else
      var path :| path in paths;
      Bytes(files, path) + TotalOf(files, paths - {path})
  }

  lemma {:induction false} TotalWithout(files: Files, paths: set<AssetPath>, path: AssetPath)
    requires path in paths
    ensures TotalOf(files, paths) == Bytes(files, path) + TotalOf(files, paths - {path})
    decreases |paths|
  {
    hide Bytes;
    var first :| first in paths && TotalOf(files, paths) == Bytes(files, first) + TotalOf(files, paths - {first});
    if first != path {
      TotalWithout(files, paths - {first}, path);
      TotalWithout(files, paths - {path}, first);
      assert paths - {first} - {path} == paths - {path} - {first};
    }
  }

  lemma {:induction false} TotalGrows(files: Files, a: set<AssetPath>, b: set<AssetPath>)
    requires a <= b
    ensures TotalOf(files, a) <= TotalOf(files, b)
    decreases |a|
  {
    hide Bytes;
    if a != {} {
      var path :| path in a;
      TotalWithout(files, a, path);
      TotalWithout(files, b, path);
      TotalGrows(files, a - {path}, b - {path});
    }
  }

  lemma TotalWith(files: Files, paths: set<AssetPath>, path: AssetPath)
    requires path !in paths
    ensures TotalOf(files, paths + {path}) == TotalOf(files, paths) + Bytes(files, path)
  {
    TotalWithout(files, paths + {path}, path);
    assert paths + {path} - {path} == paths;
  }

  // ----- Why compiling fails -------------------------------------------------------------

  /** An image of the specification is at fault, in the way the error says. */
  predicate ImageAtFault(files: Files, use: Use, error: ComposeError) {
    && use.ImageUse?
    && match error
       case AssetUnreadable => use.path !in files
       case AssetUnsupported => use.path in files && files[use.path].extension == "bin"
       case AssetWithoutPixels => use.path in files && !HasPixels(files[use.path])
       case ImageHeightRange => FileUsable(files, use.path) && !ImageUsable(files, use.path, use.width, use.height)
       case _ => false
  }

  predicate ShapesFit(spec: DocumentSpec, base: Header) {
    && |base.charShapes| + |spec.styles| + |Formats(SpecUses(spec))| <= TABLE_LIMIT
    && |base.paraShapes| + |spec.styles| + |Listings(SpecUses(spec))| <= TABLE_LIMIT
  }

  predicate StylesFit(spec: DocumentSpec, base: Header) {
    |base.styles| + |spec.styles| <= TABLE_LIMIT
  }

  predicate ListsFit(spec: DocumentSpec, base: Header) {
    |base.numbering| + |spec.lists| <= TABLE_LIMIT && |base.bullets| + 7 * |spec.lists| <= TABLE_LIMIT
  }

  ghost predicate BytesFit(spec: DocumentSpec, files: Files) {
    TotalOf(files, Paths(SpecUses(spec))) <= MAX_TOTAL_ASSET_BYTES
  }

  /** The reason behind every error that an accepted specification can meet. */
  ghost predicate Explained(spec: DocumentSpec, files: Files, base: Header, error: ComposeError) {
    match error
    case AssetBudget => !BytesFit(spec, files)
    case ShapeTableFull => !ShapesFit(spec, base)
    case StyleTableFull => !StylesFit(spec, base)
    case ListTableFull => !ListsFit(spec, base)
    case _ => exists use :: use in SpecUses(spec) && ImageAtFault(files, use, error)
  }

  ghost predicate UsesUsable(files: Files, uses: set<Use>) {
    forall use :: use in uses && use.ImageUse? ==> ImageUsable(files, use.path, use.width, use.height)
  }

  ghost predicate ImagesUsable(spec: DocumentSpec, files: Files) {
    UsesUsable(files, SpecUses(spec))
  }

  /** The tables have room for everything the specification uses, and its files are small enough. */
  ghost predicate HasRoom(spec: DocumentSpec, files: Files, base: Header) {
    ShapesFit(spec, base) && StylesFit(spec, base) && ListsFit(spec, base) && BytesFit(spec, files)
  }

  lemma NothingToBlame(spec: DocumentSpec, files: Files, base: Header, error: ComposeError)
    requires HasRoom(spec, files, base) && ImagesUsable(spec, files)
    ensures !Explained(spec, files, base, error)
  {
    hide SpecUses, ImageHeight;
  }

  // ----- What the compiler keeps track of ------------------------------------------------

  /** Some character shape shows the format laid over the style. */
  ghost predicate FormatMade(ctx: Context, env: Env, style: Option<string>, format: RunFormat) {
    exists shape: nat :: StyledRun(ctx, env, style, format, shape)
  }

  ghost predicate FormatsMade(ctx: Context, env: Env, used: set<Use>) {
    forall style, format :: FormatUse(style, format) in used ==> FormatMade(ctx, env, style, format)
  }

  ghost predicate ListsMade(ctx: Context, listShapes: map<(nat, string, nat), nat>, used: set<Use>) {
    forall style, list :: ListUse(style, list) in used ==>
      (StyleOf(ctx, style).paraShape, list.name, list.level) in listShapes
  }

  ghost predicate Charged(files: Files, env: Env, assetPaths: map<AssetPath, EmbeddedAsset>, used: set<Use>) {
    && TotalBytes(env.streams) == TotalOf(files, Paths(used))
    && forall path :: path in Paths(used) ==> path in assetPaths
  }

  /** Every use in `used` has had its table entry or stream, and there are no more of them. */
  ghost predicate Sizes(spec: DocumentSpec, base: Header, header: Header, used: set<Use>) {
    && Planned(spec, used)
    && |header.charShapes| <= |base.charShapes| + |spec.styles| + |Formats(used)|
    && |header.paraShapes| <= |base.paraShapes| + |spec.styles| + |Listings(used)|
  }

  lemma NothingUsed(ctx: Context, base: Header, header: Header)
    requires |header.charShapes| <= |base.charShapes| + |ctx.spec.styles|
    requires |header.paraShapes| <= |base.paraShapes| + |ctx.spec.styles|
    ensures Sizes(ctx.spec, base, header, {}) && FormatsMade(ctx, Env(header, []), {}) && ListsMade(ctx, map[], {})
    ensures Charged(ctx.files, Env(header, []), map[], {})
    ensures ListShapesReady(ctx, Env(header, []), map[]) && TotalBytes([]) == 0
    ensures CachesReady(ctx.files, Env(header, []), map[], map[], map[])
  {
    hide SpecUses, FileUsable, Embeds;
  }

  lemma FormatsStayMade(ctx: Context, a: Env, b: Env, used: set<Use>)
    requires FormatsMade(ctx, a, used) && Extends(a, b)
    ensures FormatsMade(ctx, b, used)
  {
    hide StyledRun, Extends;
    forall style, format | FormatUse(style, format) in used ensures FormatMade(ctx, b, style, format) {
      assert FormatMade(ctx, a, style, format);
      var shape: nat :| StyledRun(ctx, a, style, format, shape);
      StyledRunGrows(ctx, a, b, style, format, shape);
    }
  }

  /** The format laid over the style, once its font is in the table. */
  function FormatShape(ctx: Context, header: Header, style: Option<string>, format: RunFormat): CharShape
    requires StyleOf(ctx, style).charShape < |header.charShapes|
  {
    Styled(EnsureFont(header.fonts, format.fontFamily), header.charShapes[StyleOf(ctx, style).charShape],
           FormatStyle(format))
  }

  predicate NewFormat(ctx: Context, header: Header, style: Option<string>, format: RunFormat)
    requires StyleOf(ctx, style).charShape < |header.charShapes|
  {
    FormatShape(ctx, header, style, format) !in header.charShapes
  }

  lemma MadeIsNotNew(ctx: Context, env: Env, style: Option<string>, format: RunFormat)
    requires StyleOf(ctx, style).charShape < |env.header.charShapes| && FormatMade(ctx, env, style, format)
    ensures !NewFormat(ctx, env.header, style, format)
  {
    hide Styled, LaidOver;
    var shape: nat :| StyledRun(ctx, env, style, format, shape);
    ShowsStyled(env.header, shape, env.header.charShapes[StyleOf(ctx, style).charShape], FormatStyle(format));
    assert env.header.charShapes[shape] == FormatShape(ctx, env.header, style, format);
  }

  lemma NewFormatUnused(ctx: Context, env: Env, used: set<Use>, style: Option<string>, format: RunFormat)
    requires StyleOf(ctx, style).charShape < |env.header.charShapes|
    requires FormatsMade(ctx, env, used) && NewFormat(ctx, env.header, style, format)
    ensures FormatUse(style, format) !in used
  {
    hide NewFormat, FormatMade;
    if FormatMade(ctx, env, style, format) {
      MadeIsNotNew(ctx, env, style, format);
    }
  }

  /** The shape of a format as it is found in, or appended to, the table. */
  lemma FormatLaid(ctx: Context, env: Env, style: Option<string>, format: RunFormat, found: (seq<CharShape>, nat))
    requires HeaderOk(env.header) && StyleOf(ctx, style).charShape < |env.header.charShapes|
    requires FindOrPush(env.header.charShapes, FormatShape(ctx, env.header, style, format)) == Some(found)
    ensures var h := env.header;
      var header := h.(fonts := EnsureFont(h.fonts, format.fontFamily), charShapes := found.0);
      && HeaderOk(header) && Grows(h, header) && StyledRun(ctx, Env(header, env.streams), style, format, found.1)
      && |found.0| <= |h.charShapes| + if NewFormat(ctx, h, style, format) then 1 else 0
  {
    hide Styled, LaidOver;
    var header := env.header.(fonts := EnsureFont(env.header.fonts, format.fontFamily), charShapes := found.0);
    var base := StyleOf(ctx, style).charShape;
    assert header.charShapes[base] == env.header.charShapes[base];
    ShowsStyled(header, found.1, header.charShapes[base], FormatStyle(format));
  }

  lemma DefaultRun(ctx: Context, env: Env, style: Option<string>)
    requires StyleOf(ctx, style).charShape < |env.header.charShapes|
    ensures StyledRun(ctx, env, style, DEFAULT_FORMAT, StyleOf(ctx, style).charShape)
  {
    hide Styled, LaidOver;
    ShowsStyled(env.header, StyleOf(ctx, style).charShape, env.header.charShapes[StyleOf(ctx, style).charShape],
      FormatStyle(DEFAULT_FORMAT));
    PlainFormat(env.header.fonts, env.header.charShapes[StyleOf(ctx, style).charShape]);
  }

  lemma FormatIsMade(ctx: Context, env: Env, style: Option<string>, format: RunFormat, shape: nat)
    requires StyledRun(ctx, env, style, format, shape)
    ensures FormatMade(ctx, env, style, format)
  {
  }

  lemma FormatAdded(ctx: Context, env: Env, used: set<Use>, style: Option<string>, format: RunFormat)
    requires FormatsMade(ctx, env, used) && FormatMade(ctx, env, style, format)
    ensures FormatsMade(ctx, env, used + {FormatUse(style, format)})
  {
    hide FormatMade;
  }

  lemma ListAdded(ctx: Context, listShapes: map<(nat, string, nat), nat>, used: set<Use>, style: Option<string>,
      list: ListRef, shape: nat)
    requires ListsMade(ctx, listShapes, used)
    ensures ListsMade(ctx,
      listShapes[(StyleOf(ctx, style).paraShape, list.name, list.level) := shape], used + {ListUse(style, list)})
  {
    hide StyleOf;
  }

  /** A use of another kind changes nothing about formats, or lists, or charged files. */
  lemma OtherUse(ctx: Context, env: Env, listShapes: map<(nat, string, nat), nat>,
      assetPaths: map<AssetPath, EmbeddedAsset>, used: set<Use>, use: Use)
    requires use !in used
    ensures FormatsMade(ctx, env, used) && !use.FormatUse? ==> FormatsMade(ctx, env, used + {use})
    ensures ListsMade(ctx, listShapes, used) && !use.ListUse? ==> ListsMade(ctx, listShapes, used + {use})
    ensures Charged(ctx.files, env, assetPaths, used) && !use.ImageUse? ==>
      Charged(ctx.files, env, assetPaths, used + {use})
  {
    hide FormatMade, StyleOf, TotalOf, TotalBytes, Paths;
    OneUseMore(used, use);
    assert Paths(used) + {} == Paths(used);
  }

  /** One more entry, for a use that had none: there is still no more of them than uses. */
  lemma SizesAdded(spec: DocumentSpec, base: Header, a: Header, b: Header, used: set<Use>, use: Use)
    requires Sizes(spec, base, a, used) && use !in used && Planned(spec, {use})
    requires |b.charShapes| <= |a.charShapes| + if use.FormatUse? then 1 else 0
    requires |b.paraShapes| <= |a.paraShapes| + if use.ListUse? then 1 else 0
    ensures Sizes(spec, base, b, used + {use})
  {
    hide SpecUses, Formats, Listings, Paths;
    OneUseMore(used, use);
  }

  lemma SizesKept(spec: DocumentSpec, base: Header, a: Header, b: Header, used: set<Use>)
    requires Sizes(spec, base, a, used)
    requires |b.charShapes| <= |a.charShapes| && |b.paraShapes| <= |a.paraShapes|
    ensures Sizes(spec, base, b, used)
  {
    hide SpecUses, Formats, Listings;
  }

  /** A full table, and still a use without an entry: there are more uses than fit. */
  lemma FullTable(spec: DocumentSpec, base: Header, header: Header, used: set<Use>, use: Use)
    requires Sizes(spec, base, header, used) && use !in used && Planned(spec, {use})
    requires use.FormatUse? || use.ListUse?
    requires use.FormatUse? ==> |header.charShapes| == TABLE_LIMIT
    requires use.ListUse? ==> |header.paraShapes| == TABLE_LIMIT
    ensures !ShapesFit(spec, base)
  {
    hide SpecUses, Formats, Listings, Paths;
    OneUseMore(used, use);
    SmallerSets(used + {use}, SpecUses(spec));
  }

  lemma TooManyBytes(spec: DocumentSpec, files: Files, used: set<Use>, use: Use)
    requires Planned(spec, used) && Planned(spec, {use}) && use.ImageUse? && use.path !in Paths(used)
    requires TotalOf(files, Paths(used)) + Bytes(files, use.path) > MAX_TOTAL_ASSET_BYTES
    ensures !BytesFit(spec, files)
  {
    hide SpecUses, TotalOf;
    TotalWith(files, Paths(used), use.path);
    TotalGrows(files, Paths(used) + {use.path}, Paths(SpecUses(spec)));
  }

  lemma NotCharged(files: Files, env: Env, assetPaths: map<AssetPath, EmbeddedAsset>, used: set<Use>, use: Use)
    requires Charged(files, env, assetPaths, used) && use.ImageUse? && use.path !in assetPaths
    ensures use.path !in Paths(used) && use !in used
  {
  }

  lemma FileCharged(files: Files, a: Env, b: Env, assetPaths: map<AssetPath, EmbeddedAsset>, used: set<Use>, use: Use,
      asset: EmbeddedAsset)
    requires Charged(files, a, assetPaths, used) && use.ImageUse? && use.path !in Paths(used)
    requires TotalBytes(b.streams) == TotalBytes(a.streams) + Bytes(files, use.path)
    ensures use !in used
    ensures Charged(files, b, assetPaths[use.path := asset], used + {use})
  {
    hide TotalOf, TotalBytes, Bytes;
    assert use !in used;
    OneUseMore(used, use);
    TotalWith(files, Paths(used), use.path);
  }

  lemma StreamsStayCharged(files: Files, a: Env, b: Env, assetPaths: map<AssetPath, EmbeddedAsset>, used: set<Use>)
    requires Charged(files, a, assetPaths, used) && a.streams == b.streams
    ensures Charged(files, b, assetPaths, used)
  {
  }

  lemma CacheStaysCharged(files: Files, env: Env, assetPaths: map<AssetPath, EmbeddedAsset>, used: set<Use>,
      path: AssetPath, asset: EmbeddedAsset)
    requires Charged(files, env, assetPaths, used)
    ensures Charged(files, env, assetPaths[path := asset], used)
  {
  }
}
