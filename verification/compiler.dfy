/**
 The compiler: it turns a validated specification into a document, growing the header tables
 and the embedded assets as it goes, and counting what it makes.
 */
module Compilation {
  import opened HwpModel
  import opened Styles
  import opened TableGrid
  import opened TableMeasure
  import opened DocumentSpecs
  import opened Headers
  import opened Realization
  import opened RealizationGrowth
  import opened RealizationFacts
  import opened CompileSteps
  import opened CompileLimits
  import opened SectionRealization
  import opened SectionSteps
  import PB = ParagraphBuilding

  class Compiler {
    const ctx: Context
    /** The header before styles and lists were added. */
    ghost const base: Header
    var env: Env
    var listShapes: map<(nat, string, nat), nat>
    var assets: map<string, EmbeddedAsset>
    var assetPaths: map<AssetPath, EmbeddedAsset>
    var assetBytes: nat
    var report: Stats
    /** The first page number, as the last compiled anchor set it. */
    var startNumber: nat
    /** For every embedded digest, a path that holds it. */
    ghost var sources: map<string, AssetPath>
    /** What has been given a table entry or a stream of its own. */
    ghost var used: set<Use>

    ghost predicate Ready()
      reads this`env, this`listShapes, this`assets, this`assetPaths, this`assetBytes, this`sources, this`used
    {
      Sane() && Tracked()
    }

    ghost predicate Tracked()
      reads this`env, this`listShapes, this`assetPaths, this`used
    {
      && Sizes(ctx.spec, base, env.header, used)
      && FormatsMade(ctx, env, used) && ListsMade(ctx, listShapes, used)
      && Charged(ctx.files, env, assetPaths, used)
    }

    /** The reason behind an error lies in the specification, its files or the tables given. */
    ghost predicate Blamed(error: ComposeError) {
      Explained(ctx.spec, ctx.files, base, error)
    }

    ghost predicate Sane()
      reads this`env, this`listShapes, this`assets, this`assetPaths, this`assetBytes, this`sources
    {
      && HeaderOk(env.header) && StylesReady(ctx, env) && ListsReady(ctx)
      && ListShapesReady(ctx, env, listShapes)
      && CachesReady(ctx.files, env, assets, assetPaths, sources)
      && assetBytes == TotalBytes(env.streams) <= MAX_TOTAL_ASSET_BYTES
      && DigestsInjective(ctx.files)
    }

    /** Nothing compiled yet: empty caches, no streams, a report of zeros. */
    constructor (ctx: Context, header: Header, ghost base: Header)
      requires HeaderOk(header) && StylesReady(ctx, Env(header, [])) && ListsReady(ctx) && DigestsInjective(ctx.files)
      requires |header.charShapes| <= |base.charShapes| + |ctx.spec.styles|
      requires |header.paraShapes| <= |base.paraShapes| + |ctx.spec.styles|
      ensures this.ctx == ctx && this.base == base && env == Env(header, []) && Ready()
      ensures report == NO_STATS && startNumber == 1
    {
      hide StylesReady, ListsReady, DigestsInjective, ListShapesReady, CachesReady, TotalBytes,
        Sizes, FormatsMade, ListsMade, Charged;
      NothingUsed(ctx, base, header);
      this.ctx, this.base, env := ctx, base, Env(header, []);
      listShapes, assets, assetPaths, assetBytes := map[], map[], map[], 0;
      report, startNumber, sources, used := NO_STATS, 1, map[], {};
    }

    /** Replaces the header by a grown one. */
    method GrowHeader(header: Header)
      requires Sane() && HeaderOk(header) && Grows(env.header, header)
      modifies this`env
      ensures Sane() && env == old(env).(header := header) && Extends(old(env), env)
    {
      hide Styled, StyledPara, ResolveStyle, CachesReady, StylesReady, DigestsInjective, Listed, Numbered;
      ghost var before := env;
      env := env.(header := header);
      StylesStayReady(ctx, before, env);
      CachesStayReady(ctx.files, before, env, assets, assetPaths, sources);
    }

    function CharShapeForStyle(style: Option<string>): Outcome<nat> {
      if style == None then Ok(0)
      else if style.value in ctx.styles then Ok(ctx.styles[style.value].charShape)
      else Err(StyleMissing)
    }

    /** The shape of a text run: its style's shape, with the run's own format laid over it. */
    method ResolveRunShape(style: Option<string>, format: RunFormat) returns (r: Outcome<nat>)
      requires Ready() && StyleRefOk(ctx.spec, style)
      requires format == DEFAULT_FORMAT || Planned(ctx.spec, {FormatUse(style, format)})
      modifies this`env, this`used
      ensures r.Ok? ==> Ready() && Extends(old(env), env)
      ensures r.Ok? ==> StyledRun(ctx, env, style, format, r.value) && r.value < |env.header.charShapes|
      ensures r.Err? ==> Blamed(r.error)
    {
      hide Styled, Sane, Tracked, StyledRun, Extends, Explained, NameOk, Planned;
      StyleInRange(style);
      var base := CharShapeForStyle(style);
      if base.Err? {
        return base;
      }
      if format == DEFAULT_FORMAT {
        DefaultRun(ctx, env, style);
        ExtendsSelf(env);
        return base;
      }
      var overlay := FormatStyle(format);
      var fonts := EnsureFont(env.header.fonts, overlay.fontFamily);
      var shape := Styled(fonts, env.header.charShapes[base.value], overlay);
      assert shape == FormatShape(ctx, env.header, style, format);
      var found := FindOrPush(env.header.charShapes, shape);
      if found.None? {
        FormatFull(style, format);
        env := env.(header := env.header.(fonts := fonts));
        return Err(ShapeTableFull);
      }
      FormatLaid(ctx, env, style, format, found.value);
      GrowForFormat(style, format, env.header.(fonts := fonts, charShapes := found.value.0), found.value.1);
      return Ok(found.value.1);
    }

    /** A format whose shape is not in the full table has not been used before. */
    lemma FormatFull(style: Option<string>, format: RunFormat)
      requires Ready() && StyleRefOk(ctx.spec, style) && Planned(ctx.spec, {FormatUse(style, format)})
      requires StyleOf(ctx, style).charShape < |env.header.charShapes| == TABLE_LIMIT
      requires NewFormat(ctx, env.header, style, format)
      ensures Blamed(ShapeTableFull)
    {
      hide Sane, StyledRun, Sizes, ListsMade, Charged, ShapesFit, NewFormat, Planned;
      NewFormatUnused(ctx, env, used, style, format);
      FullTable(ctx.spec, base, env.header, used, FormatUse(style, format));
    }

    /** Takes over a header that shows the format, with one entry more at most. */
    method GrowForFormat(style: Option<string>, format: RunFormat, header: Header, shape: nat)
      requires Ready() && HeaderOk(header) && Grows(env.header, header) && Planned(ctx.spec, {FormatUse(style, format)})
      requires StyleOf(ctx, style).charShape < |env.header.charShapes|
      requires StyledRun(ctx, Env(header, env.streams), style, format, shape)
      requires header.paraShapes == env.header.paraShapes
      requires |header.charShapes| <= |env.header.charShapes| +
        if NewFormat(ctx, env.header, style, format) then 1 else 0
      modifies this`env, this`used
      ensures Ready() && env == old(env).(header := header) && Extends(old(env), env)
    {
      hide Sane, StyledRun, Extends, Sizes, FormatsMade, ListsMade, Charged, NewFormat, Planned, FormatMade;
      ghost var before, use := env, FormatUse(style, format);
      GrowHeader(header);
      FormatsStayMade(ctx, before, env, used);
      StreamsStayCharged(ctx.files, before, env, assetPaths, used);
      if NewFormat(ctx, before.header, style, format) {
        NewFormatUnused(ctx, before, used, style, format);
        SizesAdded(ctx.spec, base, before.header, env.header, used, use);
        FormatIsMade(ctx, env, style, format, shape);
        FormatAdded(ctx, env, used, style, format);
        OtherUse(ctx, env, listShapes, assetPaths, used, use);
        used := used + {use};
      } else {
        SizesKept(ctx.spec, base, before.header, env.header, used);
      }
    }

    lemma StyleInRange(style: Option<string>)
      requires Ready() && StyleRefOk(ctx.spec, style)
      ensures HeaderOk(env.header)
      ensures CharShapeForStyle(style) == Ok(StyleOf(ctx, style).charShape)
      ensures StyleOf(ctx, style).charShape < |env.header.charShapes|
      ensures StyleOf(ctx, style).paraShape < |env.header.paraShapes|
    {
      hide Styled, StyledPara, ResolveStyle, CachesReady, ListShapesReady, DigestsInjective, NameOk, StyleReady;
      StyleShapeInRange(ctx, env, style);
    }

    /** The paragraph shape of a list item, made once per base shape, list and level. */
    method ListParaShape(base: nat, list: ListRef, ghost style: Option<string>) returns (r: Outcome<nat>)
      requires Ready() && ListRefOk(ctx.spec, Some(list)) && base < |env.header.paraShapes|
      requires base == StyleOf(ctx, style).paraShape && Planned(ctx.spec, {ListUse(style, list)})
      modifies this`env, this`listShapes, this`used
      ensures r.Ok? ==> Ready() && Extends(old(env), env)
      ensures r.Ok? ==> ListShapeReady(ctx, env, base, list.name, list.level, r.value)
      ensures r.Err? ==> Blamed(r.error)
    {
      hide Styled, StyledPara, ResolveStyle, CachesReady, StylesReady, DigestsInjective, Listed, Numbered, NameOk,
        Explained, Sizes, FormatsMade, Charged, Planned;
      var key := (base, list.name, list.level);
      if key in listShapes {
        return Ok(listShapes[key]);
      }
      if list.name !in ctx.lists || list.level >= |ctx.lists[list.name]| {
        return Err(ListMissing);
      }
      var shape := Listed(env.header.paraShapes[base], ctx.spec.lists[list.name].ordered, list.level,
        ctx.lists[list.name][list.level]);
      var found := FindOrPush(env.header.paraShapes, shape);
      assert ListUse(style, list) !in used;
      ListedIsNumbered(shape, env.header.paraShapes[base], ctx.spec.lists[list.name].ordered, list.level,
        ctx.lists[list.name][list.level]);
      if found.None? {
        ListsFull(style, list);
        return Err(ShapeTableFull);
      }
      ghost var before := env;
      GrowHeader(env.header.(paraShapes := found.value.0));
      TrackList(before, style, list, found.value.1);
      CacheListShape(base, list, found.value.1, used + {ListUse(style, list)});
      return Ok(found.value.1);
    }

    lemma ListsFull(style: Option<string>, list: ListRef)
      requires Ready() && ListUse(style, list) !in used && Planned(ctx.spec, {ListUse(style, list)})
      requires |env.header.paraShapes| == TABLE_LIMIT
      ensures Blamed(ShapeTableFull)
    {
      hide Sane, Sizes, ListsMade, Charged, ShapesFit, FormatsMade, Planned;
      FullTable(ctx.spec, base, env.header, used, ListUse(style, list));
    }

    lemma TrackList(before: Env, style: Option<string>, list: ListRef, shape: nat)
      requires Sizes(ctx.spec, base, before.header, used) && FormatsMade(ctx, before, used)
      requires ListsMade(ctx, listShapes, used) && Charged(ctx.files, before, assetPaths, used)
      requires Extends(before, env) && env.streams == before.streams
      requires env.header.charShapes == before.header.charShapes
      requires |env.header.paraShapes| <= |before.header.paraShapes| + 1
      requires ListUse(style, list) !in used && Planned(ctx.spec, {ListUse(style, list)})
      ensures var now := used + {ListUse(style, list)};
        && Sizes(ctx.spec, base, env.header, now) && FormatsMade(ctx, env, now)
        && ListsMade(ctx, listShapes[(StyleOf(ctx, style).paraShape, list.name, list.level) := shape], now)
        && Charged(ctx.files, env, assetPaths, now)
    {
      hide Extends, Sizes, FormatsMade, ListsMade, Charged, Planned;
      SizesAdded(ctx.spec, base, before.header, env.header, used, ListUse(style, list));
      FormatsStayMade(ctx, before, env, used);
      StreamsStayCharged(ctx.files, before, env, assetPaths, used);
      ListAdded(ctx, listShapes, used, style, list, shape);
      OtherUse(ctx, env, listShapes, assetPaths, used, ListUse(style, list));
    }

    method CacheListShape(base: nat, list: ListRef, shape: nat, ghost now: set<Use>)
      requires Sane() && ListShapeReady(ctx, env, base, list.name, list.level, shape)
      requires Sizes(ctx.spec, this.base, env.header, now) && FormatsMade(ctx, env, now)
      requires ListsMade(ctx, listShapes[(base, list.name, list.level) := shape], now)
      requires Charged(ctx.files, env, assetPaths, now)
      modifies this`listShapes, this`used
      ensures Ready()
    {
      hide Styled, StyledPara, ResolveStyle, CachesReady, StylesReady, DigestsInjective, Listed, Numbered,
        ListShapeReady, Sizes, FormatsMade, ListsMade, Charged;
      listShapes := listShapes[(base, list.name, list.level) := shape];
      used := now;
    }

    // ----- Assets ------------------------------------------------------------------------

    method LoadAsset(path: AssetPath, ghost use: Use) returns (r: Outcome<EmbeddedAsset>)
      requires Ready() && use.ImageUse? && use.path == path && Planned(ctx.spec, {use})
      modifies this`env, this`assets, this`assetPaths, this`assetBytes, this`sources, this`used
      ensures r.Ok? ==> Ready() && Extends(old(env), env) && path in ctx.files && Embeds(env, ctx.files[path], r.value)
      ensures r.Ok? ==> FileUsable(ctx.files, path)
      ensures r.Ok? ==> env.header == old(env).header
      ensures r.Err? ==> Blamed(r.error)
    {
      hide Styled, StyledPara, ResolveStyle, StylesReady, ListShapesReady, Embeds, AssetName, Explained,
        Sizes, FormatsMade, ListsMade, Charged, Planned;
      if path in assetPaths {
        return Ok(assetPaths[path]);
      }
      if path !in ctx.files {
        ImageBlamed(use, AssetUnreadable);
        return Err(AssetUnreadable);
      }
      var file := ctx.files[path];
      if file.extension == "bin" {
        ImageBlamed(use, AssetUnsupported);
        return Err(AssetUnsupported);
      }
      if file.pixelSize == None || file.pixelSize.value.0 == 0 || file.pixelSize.value.1 == 0 {
        ImageBlamed(use, AssetWithoutPixels);
        return Err(AssetWithoutPixels);
      }
      if file.digest in assets {
        var asset := assets[file.digest];
        assert ctx.files[sources[file.digest]] == file;
        CacheAdded(ctx.files, env, assets, assetPaths, sources, path, asset);
        CacheStaysCharged(ctx.files, env, assetPaths, used, path, asset);
        assetPaths := assetPaths[path := asset];
        return Ok(asset);
      }
      if assetBytes + |file.data| > MAX_TOTAL_ASSET_BYTES {
        BytesBlamed(use);
        assetBytes := assetBytes + |file.data|;
        return Err(AssetBudget);
      }
      EmbedAsset(path, use);
      return Ok(assetPaths[path]);
    }

    lemma ImageBlamed(use: Use, error: ComposeError)
      requires Planned(ctx.spec, {use}) && ImageAtFault(ctx.files, use, error)
      ensures Blamed(error)
    {
      hide SpecUses, ImageHeight;
    }

    lemma BytesBlamed(use: Use)
      requires Ready() && Planned(ctx.spec, {use}) && use.ImageUse? && use.path !in assetPaths && use.path in ctx.files
      requires assetBytes + |ctx.files[use.path].data| > MAX_TOTAL_ASSET_BYTES
      ensures Blamed(AssetBudget)
    {
      hide StylesReady, ListsReady, ListShapesReady, CachesReady, DigestsInjective, FormatsMade, ListsMade,
        SpecUses, TotalOf, TotalBytes, BytesFit;
      TooManyBytes(ctx.spec, ctx.files, used, use);
    }

    method EmbedAsset(path: AssetPath, ghost use: Use)
      requires Ready() && path in ctx.files && path !in assetPaths && ctx.files[path].digest !in assets
      requires FileUsable(ctx.files, path)
      requires assetBytes + |ctx.files[path].data| <= MAX_TOTAL_ASSET_BYTES
      requires use.ImageUse? && use.path == path && Planned(ctx.spec, {use})
      modifies this`env, this`assets, this`assetPaths, this`assetBytes, this`sources, this`used
      ensures Ready() && Extends(old(env), env) && env.header == old(env).header
      ensures path in assetPaths && Embeds(env, ctx.files[path], assetPaths[path])
      ensures env.streams == old(env).streams + [BinStream(AssetName(ctx.files[path]), ctx.files[path].data)]
    {
      hide Styled, StyledPara, ResolveStyle, StylesReady, Listed, AssetName, DigestsInjective, CachesReady, TotalBytes,
        Sizes, FormatsMade, ListsMade, Charged, Planned;
      var file := ctx.files[path];
      ghost var before := env;
      var stream := BinStream(AssetName(file), file.data);
      var asset := EmbeddedAsset(AssetName(file), file.pixelSize.value);
      StreamAdded(env.streams, stream);
      assetBytes := assetBytes + |file.data|;
      env := env.(streams := env.streams + [stream]);
      StylesStayReady(ctx, before, env);
      CachesStayReady(ctx.files, before, env, assets, assetPaths, sources);
      assert env.streams[|before.streams|] == stream;
      CacheAdded(ctx.files, env, assets, assetPaths, sources, path, asset);
      TrackFile(before, use, asset);
      assets := assets[file.digest := asset];
      sources := sources[file.digest := path];
      assetPaths := assetPaths[path := asset];
      used := used + {use};
    }

    lemma TrackFile(before: Env, use: Use, asset: EmbeddedAsset)
      requires Sizes(ctx.spec, base, before.header, used) && FormatsMade(ctx, before, used)
      requires ListsMade(ctx, listShapes, used) && Charged(ctx.files, before, assetPaths, used)
      requires Extends(before, env) && env.header == before.header
      requires use.ImageUse? && use.path !in assetPaths && Planned(ctx.spec, {use})
      requires TotalBytes(env.streams) == TotalBytes(before.streams) + Bytes(ctx.files, use.path)
      ensures var now := used + {use};
        && Sizes(ctx.spec, base, env.header, now) && FormatsMade(ctx, env, now)
        && ListsMade(ctx, listShapes, now) && Charged(ctx.files, env, assetPaths[use.path := asset], now)
    {
      hide Extends, Sizes, FormatsMade, ListsMade, Charged, Planned, TotalBytes, Bytes;
      NotCharged(ctx.files, before, assetPaths, used, use);
      FileCharged(ctx.files, before, env, assetPaths, used, use, asset);
      SizesAdded(ctx.spec, base, before.header, env.header, used, use);
      FormatsStayMade(ctx, before, env, used);
      OtherUse(ctx, env, listShapes, assetPaths, used, use);
    }

    // ----- Objects -----------------------------------------------------------------------

    method AppendEquation(p: PB.ParagraphBuilder, script: string, width: Option<real>, height: Option<real>)
      returns (r: Outcome<()>)
      requires p.Valid()
      modifies this`report, p`chars, p`controls, p`inForce
      ensures p.Valid()
      ensures r.Ok? <==> old(|p.controls|) <= PB.U32_MAX
      ensures r.Ok? ==>
        && p.chars == old(p.chars) + [ExtCtrl(OBJECT, "eqed", Some(old(|p.controls|)))]
        && p.controls == old(p.controls) + [EquationControl(script, width, height)]
        && p.inForce == old(p.inForce) + [old(p.Current())]
        && report == old(report).Plus(Stats(0, 0, 0, 1, 0, 0))
      ensures r.Err? ==> r.error == TooManyControls
    {
      hide Linked, PB.RunsOk, PB.ShapeAt;
      var ok := p.AppendControl(OBJECT, EquationControl(script, width, height));
      if !ok {
        return Err(TooManyControls);
      }
      report := report.Plus(Stats(0, 0, 0, 1, 0, 0));
      return Ok(());
    }

    method AppendImage(p: PB.ParagraphBuilder, path: AssetPath, width: real, height: Option<real>, isInline: bool)
      returns (r: Outcome<()>)
      requires Ready() && p.Valid() && Planned(ctx.spec, {ImageUse(path, width, height)})
      modifies this`env, this`used, this`assets, this`assetPaths, this`assetBytes, this`sources, this`report
      modifies p`chars, p`controls, p`inForce
      ensures p.Valid()
      ensures r.Ok? ==>
        && Ready() && Extends(old(env), env)
        && p.chars == old(p.chars) + [ExtCtrl(OBJECT, "gso ", Some(old(|p.controls|)))]
        && |p.controls| == old(|p.controls|) + 1 && p.controls[..|p.controls| - 1] == old(p.controls)
        && ImageRealized(ctx, env, path, width, height, isInline, p.controls[|p.controls| - 1])
        && p.inForce == old(p.inForce) + [old(p.Current())]
        && report == old(report).Plus(Stats(0, 0, 1, 0, 0, 0))
      ensures r.Err? ==> Blamed(r.error) || (r.error == TooManyControls && old(|p.controls|) > PB.U32_MAX)
    {
      hide Linked, PB.RunsOk, PB.ShapeAt, Ready, AssetName, MmToHwp, Extends, Blamed, Planned, ImageHeight, DimensionOk,
        ImageRealized, Embeds, FileUsable, ImageUsable;
      var loaded := LoadAsset(path, ImageUse(path, width, height));
      if loaded.Err? {
        return Err(loaded.error);
      }
      var asset := loaded.value;
      ImageMade(ctx, env, path, width, height, isInline, asset);
      var heightMm := ImageHeight(width, height, asset.pixelSize);
      if !DimensionOk(heightMm) {
        ImageBlamed(ImageUse(path, width, height), ImageHeightRange);
        return Err(ImageHeightRange);
      }
      var picture := PictureOf(asset, width, heightMm, isInline);
      var ok := p.AppendControl(OBJECT, PictureControl(picture));
      if !ok {
        return Err(TooManyControls);
      }
      report := report.Plus(Stats(0, 0, 1, 0, 0, 0));
      return Ok(());
    }

    // ----- Paragraphs --------------------------------------------------------------------

    method CompileText(p: PB.ParagraphBuilder, text: string, style: Option<string>, format: RunFormat)
      returns (r: Outcome<nat>)
      requires Ready() && p.Valid() && StyleRefOk(ctx.spec, style)
      requires format == DEFAULT_FORMAT || Planned(ctx.spec, {FormatUse(style, format)})
      modifies this`env, this`used, p`chars, p`runs, p`inForce
      ensures r.Err? ==> Blamed(r.error)
      ensures r.Ok? ==>
        && Ready() && Extends(old(env), env) && p.Valid() && p.Current() == r.value
        && p.chars == old(p.chars) + PB.TextChars(text)
        && p.inForce == old(p.inForce) + PB.Repeat(r.value, |text|)
        && StyledRun(ctx, env, style, format, r.value)
    {
      hide Linked, PB.RunsOk, PB.ShapeAt, Ready, Blamed, Planned, StyledRun, Extends, NameOk;
      r := ResolveRunShape(style, format);
      if r.Ok? {
        p.SetRunShape(r.value);
        p.AppendText(text);
      }
    }

    method CompileField(p: PB.ParagraphBuilder, name: string, value: string, style: Option<string>)
      returns (r: Outcome<nat>)
      requires Ready() && p.Valid() && StyleRefOk(ctx.spec, style) && |p.controls| < MAX_RUNS
      modifies this`report, p`chars, p`runs, p`controls, p`inForce
      ensures r == Ok(StyleOf(ctx, style).charShape) && r.value < |env.header.charShapes|
      ensures Ready() && p.Valid() && p.Current() == r.value
      ensures p.chars == old(p.chars) + PB.FieldChars(value, old(|p.controls|))
      ensures p.controls == old(p.controls) + [PB.FieldControl(name)]
      ensures p.inForce == old(p.inForce) + ([old(p.Current())] + PB.Repeat(r.value, |value|) + [r.value])
      ensures report == old(report).Plus(Stats(0, 0, 0, 0, 1, 0))
    {
      hide Linked, PB.RunsOk, PB.ShapeAt, Ready, Blamed, Planned, Stats.Plus, NameOk;
      StyleInRange(style);
      r := CharShapeForStyle(style);
      var ok := p.AppendField(name, value, r.value);
      report := report.Plus(Stats(0, 0, 0, 0, 1, 0));
    }

    /** One run; returns the shape in force after it. */
    method CompileRun(p: PB.ParagraphBuilder, run: RunSpec, style: Option<string>, current: nat, ghost bodyWidth: real)
      returns (r: Outcome<nat>)
      requires Ready() && p.Valid() && p.Current() == current && |p.controls| < MAX_RUNS
      requires StyleRefOk(ctx.spec, style) && RunOk(ctx.spec, run, bodyWidth)
      requires Planned(ctx.spec, RunUses(style, run))
      modifies this`env, this`used, this`assets, this`assetPaths, this`assetBytes, this`sources, this`report
      modifies p`chars, p`runs, p`controls, p`inForce
      ensures r.Err? ==> Blamed(r.error)
      ensures r.Ok? ==>
        && Ready() && Extends(old(env), env) && p.Valid() && p.Current() == r.value
        && p.chars == old(p.chars) + RunChars(run, old(|p.controls|))
        && ControlAdded(ctx, env, run, old(p.controls), p.controls)
        && p.inForce == old(p.inForce) + RunShapes(run, current, r.value)
        && RunShapeOk(ctx, env, run, style, current, r.value)
        && report == old(report).Plus(RunStats(run))
    {
      hide Linked, PB.RunsOk, PB.ShapeAt, Ready, Blamed, Planned, StyledRun, ImageRealized, Extends, Stats.Plus,
        NameOk, EquationOk, ImageOk, TextOk, FormatOk;
      match run
      case TextRun(text, own, format) =>
        NoStatsAdded(report);
        r := CompileText(p, text, Either(own, style), format);
      case FieldRun(name, value, own) =>
        ExtendsSelf(env);
        r := CompileField(p, name, value, Either(own, style));
      case EquationRun(script, width, height) =>
        ExtendsSelf(env);
        p.SetRunShape(current);
        var done := AppendEquation(p, script, width, height);
        if done.Err? {
          return Err(TooManyControls);
        }
        return Ok(current);
      case ImageRun(path, width, height, _) =>
        p.SetRunShape(current);
        var done := AppendImage(p, path, width, height, true);
        if done.Err? {
          return Err(done.error);
        }
        return Ok(current);
      case LineBreakRun =>
        ExtendsSelf(env);
        p.PushChar(CharCtrl(LINE_BREAK));
        NoStatsAdded(report);
        return Ok(current);
    }

    lemma LevelStyleOk(list: Option<ListRef>)
      requires Ready() && ListRefOk(ctx.spec, list)
      ensures StyleRefOk(ctx.spec, LevelStyle(ctx.spec, list))
    {
      hide CachesReady, StylesReady, ListShapesReady, DigestsInjective, NameOk;
      if list.Some? {
        assert ListOk(ctx.spec, list.value.name);
        assert LevelOk(ctx.spec, ctx.spec.lists[list.value.name].ordered,
          ctx.spec.lists[list.value.name].levels[list.value.level]);
      }
    }

    /** A fresh paragraph in the given style, numbered by the given list. */
    method StartParagraph(style: Option<string>, list: Option<ListRef>) returns (r: Outcome<PB.ParagraphBuilder>)
      requires Ready() && StyleRefOk(ctx.spec, style) && ListRefOk(ctx.spec, list)
      requires Planned(ctx.spec, ListUses(style, list))
      modifies this`env, this`used, this`listShapes
      ensures r.Err? ==> Blamed(r.error)
      ensures r.Ok? ==> Ready() && Extends(old(env), env) && StyleOf(ctx, style).charShape < |env.header.charShapes|
      ensures r.Ok? ==> var p := r.value;
        && fresh(p) && p.Valid() && p.chars == [] && p.controls == [] && p.inForce == []
        && p.Current() == StyleOf(ctx, style).charShape
        && p.style == StyleOf(ctx, style).styleId && p.breakType == 0
        && ParaShapeOk(ctx, env, style, list, p.paraShape)
    {
      hide Ready, Blamed, Planned, Linked, PB.RunsOk, PB.ShapeAt, NameOk, Listed, Numbered;
      var compiled := StyleOf(ctx, style);
      var shape := compiled.paraShape;
      StyleInRange(style);
      ExtendsSelf(env);
      if list.Some? {
        var listed := ListParaShape(shape, list.value, style);
        if listed.Err? {
          return Err(listed.error);
        }
        shape := listed.value;
      }
      var p := new PB.ParagraphBuilder(shape, compiled.styleId, compiled.charShape, 0);
      return Ok(p);
    }

    method CompileParagraph(own: Option<string>, list: Option<ListRef>, keep: bool, runs: seq<RunSpec>,
        ghost bodyWidth: real) returns (r: Outcome<Paragraph>)
      requires Ready() && ParagraphOk(ctx.spec, own, list, keep, runs, bodyWidth) && |runs| <= MAX_RUNS
      requires Planned(ctx.spec, BlockUses(ctx.spec, ParagraphBlock(own, list, keep, runs)))
      modifies this`env, this`used, this`listShapes, this`assets, this`assetPaths, this`assetBytes, this`sources,
        this`report
      ensures r.Err? ==> Blamed(r.error)
      ensures r.Ok? ==>
        && Ready() && Extends(old(env), env)
        && BlockRealized(ctx, env, ParagraphBlock(own, list, keep, runs), r.value)
        && report == old(report).Plus(RunsStats(runs))
    {
      hide Ready, Blamed, Planned, Linked, PB.RunsOk, PB.ShapeAt, NameOk, Listed, Numbered, RunsOk, RunOk, RunShapeOk,
        RunShapesOk, RunsShapes, RunsChars, RunChars, RunShapes, ControlCount, ControlsRealized, ControlAdded,
        ParaShapeOk, Stats.Plus, RunsStats, RunStats, Extends, WcharLen;
      LevelStyleOk(list);
      ParagraphPlanned(ctx.spec, own, list, keep, runs);
      var style := Either(own, LevelStyle(ctx.spec, list));
      var started := StartParagraph(style, list);
      if started.Err? {
        return Err(started.error);
      }
      var p := started.value;
      var current := StyleOf(ctx, style).charShape;
      ghost var initial := current;
      ghost var shapes: seq<nat> := [];
      var i := 0;
      EmptyRuns(ctx, env, style, initial);
      NoStatsAdded(report);
      assert runs[..0] == [];
      while i < |runs|
        invariant 0 <= i <= |runs| && |shapes| == i && fresh(p)
        invariant Ready() && Extends(old(env), env) && p.Valid()
        invariant p.Current() == current == Before(initial, shapes)
        invariant p.style == StyleOf(ctx, style).styleId && p.breakType == 0
        invariant ParaShapeOk(ctx, env, style, list, p.paraShape)
        invariant initial < |env.header.charShapes|
        invariant p.chars == RunsChars(runs[..i])
        invariant ControlsRealized(ctx, env, runs[..i], p.controls)
        invariant p.inForce == RunsShapes(runs[..i], initial, shapes)
        invariant RunShapesOk(ctx, env, runs[..i], style, initial, shapes)
        invariant report == old(report).Plus(RunsStats(runs[..i]))
      {
        ghost var before, controls, counted := env, p.controls, report;
        ControlsCounted(ctx, env, runs[..i], p.controls);
        ControlsBounded(runs[..i]);
        RunOkAt(ctx.spec, runs, i, bodyWidth);
        RunPlanned(ctx.spec, style, runs, i);
        var done := CompileRun(p, runs[i], style, current, bodyWidth);
        if done.Err? {
          return Err(done.error);
        }
        ExtendsTransitive(old(env), before, env);
        ShapesGrow(before, env);
        ParaShapeGrows(ctx, before, env, style, list, p.paraShape);
        ControlsGrow(ctx, before, env, runs[..i], controls);
        ControlsStep(ctx, env, runs, i, controls, p.controls);
        RunShapesGrow(ctx, before, env, runs[..i], style, initial, shapes);
        RunShapesOkStep(ctx, env, runs, i, style, initial, shapes, done.value);
        RunsShapesStep(runs, i, initial, shapes, done.value);
        RunsCharsStep(runs, i);
        PlusAssociates(old(report), RunsStats(runs[..i]), RunStats(runs[i]));
        current := done.value;
        shapes := shapes + [done.value];
        i := i + 1;
      }
      assert runs[..i] == runs;
      RealizedText(ctx, env, own, list, keep, runs, p, initial, shapes);
      return Ok(p.Freeze());
    }

    // ----- Blocks ------------------------------------------------------------------------

    /** A paragraph that holds nothing but one picture. */
    method CompileImageBlock(path: AssetPath, width: real, height: Option<real>, alt: Option<string>, isInline: bool)
      returns (r: Outcome<Paragraph>)
      requires Ready() && Planned(ctx.spec, {ImageUse(path, width, height)})
      modifies this`env, this`used, this`assets, this`assetPaths, this`assetBytes, this`sources, this`report
      ensures r.Err? ==> Blamed(r.error)
      ensures r.Ok? ==>
        && Ready() && Extends(old(env), env)
        && BlockRealized(ctx, env, ImageBlock(path, width, height, alt, isInline), r.value)
        && report == old(report).Plus(Stats(0, 0, 1, 0, 0, 0))
    {
      hide Ready, Blamed, Planned, Linked, PB.RunsOk, PB.ShapeAt, Extends, Stats.Plus, ImageRealized, BlockRealized;
      var p := new PB.ParagraphBuilder(2, 0, 0, 0);
      var done := AppendImage(p, path, width, height, isInline);
      if done.Err? {
        return Err(done.error);
      }
      FrozenShapes(p);
      ObjectRealized(ctx, env, ImageBlock(path, width, height, alt, isInline), p.Freeze());
      return Ok(p.Freeze());
    }

    /** A paragraph that holds nothing but one equation. */
    method CompileEquationBlock(script: string, width: Option<real>, height: Option<real>)
      returns (r: Outcome<Paragraph>)
      requires Ready()
      modifies this`report
      ensures Ready() && r.Ok? && BlockRealized(ctx, env, EquationBlock(script, width, height), r.value)
      ensures report == old(report).Plus(Stats(0, 0, 0, 1, 0, 0))
    {
      hide Ready, Blamed, Planned, Linked, PB.RunsOk, PB.ShapeAt, Stats.Plus, EquationControl, BlockRealized;
      var p := new PB.ParagraphBuilder(2, 0, 0, 0);
      var done := AppendEquation(p, script, width, height);
      FrozenShapes(p);
      ObjectRealized(ctx, env, EquationBlock(script, width, height), p.Freeze());
      return Ok(p.Freeze());
    }

    /** A paragraph that holds nothing but one field. */
    method CompileFieldBlock(name: string, value: string, style: Option<string>) returns (r: Outcome<Paragraph>)
      requires Ready() && StyleRefOk(ctx.spec, style)
      modifies this`report
      ensures Ready() && r.Ok? && BlockRealized(ctx, env, FieldBlock(name, value, style), r.value)
      ensures report == old(report).Plus(Stats(0, 0, 0, 0, 1, 0))
    {
      hide Ready, Blamed, Planned, Linked, PB.RunsOk, PB.ShapeAt, PB.FieldChars, PB.FieldControl, Stats.Plus, NameOk,
        BlockRealized, PB.Repeat, Sound, ShownShapes, StyleOf, WcharLen;
      var p := new PB.ParagraphBuilder(2, 0, 0, 0);
      var shape := CompileField(p, name, value, style);
      FrozenShapes(p);
      NothingBefore([0] + PB.Repeat(shape.value, |value|) + [shape.value]);
      NothingBefore([PB.FieldControl(name)]);
      NothingBefore(PB.FieldChars(value, 0));
      FieldRealized(ctx, env, name, value, style, p.Freeze());
      return Ok(p.Freeze());
    }

    method CompileBlock(block: BlockSpec, ghost depth: nat, ghost sectionBreaks: bool, ghost bodyWidth: real)
      returns (r: Outcome<seq<Paragraph>>)
      requires Ready() && BlockOk(ctx.spec, block, depth, sectionBreaks, bodyWidth)
        && BlockBudget(block).runs <= MAX_RUNS
      requires Planned(ctx.spec, BlockUses(ctx.spec, block))
      modifies this`env, this`used, this`listShapes, this`assets, this`assetPaths, this`assetBytes, this`sources,
        this`report
      ensures r.Err? ==>
        || Blamed(r.error)
        || (sectionBreaks && block == BreakBlock(SectionBreak) && r.error == SectionBreakNested)
      ensures r.Ok? ==>
        && Ready() && Extends(old(env), env)
        && |r.value| == 1 && BlockRealized(ctx, env, block, r.value[0])
        && report == old(report).Plus(Reported(BlockStats(block)))
      decreases block, 0
    {
      hide Ready, Blamed, Planned, Extends, Stats.Plus, ParagraphOk, TableWidthsOk, GridOk, EquationOk, ImageOk,
        TextOk, NameOk, BlockRealized, RunsBudget, RunsStats, RowsStats;
      match block
      case ParagraphBlock(style, list, keep, runs) =>
        FewRuns(style, list, keep, runs);
        var done := CompileParagraph(style, list, keep, runs, bodyWidth);
        if done.Err? {
          return Err(done.error);
        }
        ReportParagraph(runs);
        return Ok([done.value]);
      case TableBlock(width, columns, rows) =>
        var done := CompileTable(width, columns, rows, depth, bodyWidth);
        if done.Err? {
          return Err(done.error);
        }
        ReportTable(old(report), rows);
        return Ok([done.value]);
      case ImageBlock(path, width, height, alt, isInline) =>
        var done := CompileImageBlock(path, width, height, alt, isInline);
        if done.Err? {
          return Err(done.error);
        }
        return Ok([done.value]);
      case EquationBlock(script, width, height) =>
        ExtendsSelf(env);
        var done := CompileEquationBlock(script, width, height);
        return Ok([done.value]);
      case FieldBlock(name, value, style) =>
        ExtendsSelf(env);
        var done := CompileFieldBlock(name, value, style);
        return Ok([done.value]);
      case BreakBlock(kind) =>
        ExtendsSelf(env);
        NoStatsAdded(report);
        if kind.SectionBreak? {
          return Err(SectionBreakNested);
        }
        var p := EMPTY_PARAGRAPH.(breakType := if kind.PageBreak? then 4 else 8);
        BreakRealized(ctx, env, kind, p);
        return Ok([p]);
    }

    /** The paragraphs of a cell, header or footer: one per block, or one empty paragraph. */
    method CompileList(blocks: seq<BlockSpec>, ghost depth: nat, ghost bodyWidth: real)
      returns (r: Outcome<seq<Paragraph>>)
      requires Ready() && EachBlockOk(ctx.spec, blocks, depth, false, bodyWidth) && BlocksSum(blocks).runs <= MAX_RUNS
      requires Planned(ctx.spec, BlocksUses(ctx.spec, blocks))
      modifies this`env, this`used, this`listShapes, this`assets, this`assetPaths, this`assetBytes, this`sources,
        this`report
      ensures r.Err? ==> Blamed(r.error)
      ensures r.Ok? ==>
        && Ready() && Extends(old(env), env) && ListRealized(ctx, env, blocks, r.value)
        && report == old(report).Plus(Reported(ListStats(blocks)))
      decreases blocks, 1
    {
      hide Ready, Blamed, Planned, Extends, Stats.Plus, BlockOk, EachBlockOk, BlockBudget, BlocksSum, BlockRealized,
        BlocksRealized, BlockStats, BlocksStats;
      var ps: seq<Paragraph> := [];
      var i := 0;
      NoBlocksRealized(ctx, env);
      NoStatsAdded(report);
      ExtendsSelf(env);
      assert blocks[..0] == [];
      while i < |blocks|
        invariant 0 <= i <= |blocks| && |ps| == i
        invariant Ready() && Extends(old(env), env)
        invariant BlocksRealized(ctx, env, blocks[..i], ps)
        invariant report == old(report).Plus(Reported(BlocksStats(blocks[..i])))
      {
        ghost var before := env;
        BlockOkAt(ctx.spec, blocks, i, depth, false, bodyWidth);
        BlockPlanned(ctx.spec, blocks, i);
        BlockBudgetAt(blocks, i);
        var done := CompileBlock(blocks[i], depth, false, bodyWidth);
        if done.Err? {
          return done;
        }
        ExtendsTransitive(old(env), before, env);
        BlocksGrow(ctx, before, env, blocks[..i], ps);
        BlocksRealizedStep(ctx, env, blocks, i, ps, done.value[0]);
        BlocksStatsStep(blocks, i);
        PlusAssociates(old(report), Reported(BlocksStats(blocks[..i])), Reported(BlockStats(blocks[i])));
        assert done.value == [done.value[0]];
        ps := ps + done.value;
        i := i + 1;
      }
      assert blocks[..i] == blocks;
      if ps == [] {
        ps := [EMPTY_PARAGRAPH];
      }
      return Ok(ps);
    }

    // ----- Tables ------------------------------------------------------------------------

    /** The first free column of a row; there is one, so no bound is checked. */
    method NextFree(grid: array2<bool>, ghost ps: seq<Placed>, r: nat, start: nat) returns (cursor: nat)
      requires Marks(grid, ps) && r < grid.Length0 && start <= grid.Length1
      requires FirstFree(ps, r, start, grid.Length1) < grid.Length1
      ensures cursor == FirstFree(ps, r, start, grid.Length1)
    {
      cursor := start;
      while grid[r, cursor]
        invariant cursor <= FirstFree(ps, r, start, grid.Length1)
        invariant FirstFree(ps, r, start, grid.Length1) == FirstFree(ps, r, cursor, grid.Length1)
        decreases grid.Length1 - cursor
      {
        cursor := cursor + 1;
      }
    }

    method CompileCell(grid: array2<bool>, ghost ps: seq<Placed>, widths: seq<int>, r: nat, cursor: nat,
        cell: CellSpec, ghost depth: nat, ghost bodyWidth: real) returns (out: Outcome<Cell>)
      requires Ready() && Marks(grid, ps) && grid.Length1 == |widths|
      requires InGrid(Placed(r, cursor, cell.span), grid.Length0, grid.Length1)
      requires BlocksOk(ctx.spec, cell.blocks, depth + 1, false, bodyWidth) && BlocksSum(cell.blocks).runs <= MAX_RUNS
      requires Planned(ctx.spec, BlocksUses(ctx.spec, cell.blocks))
      modifies this`env, this`used, this`listShapes, this`assets, this`assetPaths, this`assetBytes, this`sources,
        this`report, grid
      ensures out.Err? ==> Blamed(out.error)
      ensures Marks(grid, ps + [Placed(r, cursor, cell.span)])
      ensures out.Ok? ==> var c := out.value;
        && Ready() && Extends(old(env), env)
        && PlacedCell(c) == Placed(r, cursor, cell.span) && CellSized(widths, c)
        && ListRealized(ctx, env, cell.blocks, c.paragraphs)
        && report == old(report).Plus(Reported(ListStats(cell.blocks)))
      decreases cell, 0
    {
      hide Ready, Blamed, Planned, Extends, Stats.Plus, ListRealized, EachBlockOk, BlocksSum, ListStats, WidthOf,
        Occupied, Height;
      var colEnd := cursor + cell.span.colSpan;
      Fill(grid, ps, Placed(r, cursor, cell.span));
      var paragraphs := CompileList(cell.blocks, depth + 1, bodyWidth);
      if paragraphs.Err? {
        return Err(paragraphs.error);
      }
      var width := WidthOf(widths, cursor, colEnd);
      return Ok(Cell(cursor, r, cell.span.colSpan, cell.span.rowSpan, width, Height(|paragraphs.value|),
        paragraphs.value));
    }

    /** One row: its cells, the number of them, and all cells placed so far. */
    method CompileRow(grid: array2<bool>, ghost before: seq<Placed>, widths: seq<int>, rows: seq<RowSpec>, r: nat,
        ghost depth: nat, ghost bodyWidth: real)
      returns (out: Outcome<seq<Cell>>, anchors: nat, ghost ps: seq<Placed>)
      requires Ready() && r < |rows| && Marks(grid, before) && grid.Length0 == |rows| && grid.Length1 == |widths|
      requires GridOk(ctx.spec, before, r, rows, grid.Length1, depth, bodyWidth)
      requires CellsBudget(rows[r].cells).runs <= MAX_RUNS && Planned(ctx.spec, CellsUses(ctx.spec, rows[r].cells))
      modifies this`env, this`used, this`listShapes, this`assets, this`assetPaths, this`assetBytes, this`sources,
        this`report, grid
      ensures out.Err? ==> Blamed(out.error)
      ensures out.Ok? ==>
        && Ready() && Extends(old(env), env)
        && Marks(grid, ps) && ps == before + PlacedOf(out.value)
        && GridOk(ctx.spec, ps, r + 1, rows, grid.Length1, depth, bodyWidth)
        && Layout(ps, r + 1, SpansOf(rows), grid.Length1) == Layout(before, r, SpansOf(rows), grid.Length1)
        && RowRealized(ctx, env, rows[r].cells, out.value) && AllSized(widths, out.value)
        && anchors == Capped(|rows[r].cells|)
        && report == old(report).Plus(Reported(RowStats(rows[r].cells)))
      decreases rows, 0
    {
      hide Ready, Blamed, Planned, Extends, Stats.Plus, RestOk, GridOk, RestLayout, Layout, RowRealized, ListRealized,
        ListStats, RowStats, CellsBudget, BlocksSum, BlocksOk, CellSized, Marks, Occupied, PlacedOf;
      var n := grid.Length1;
      var specs := rows[r].cells;
      var cells: seq<Cell> := [];
      var cursor: nat := 0;
      var k := 0;
      anchors, ps := 0, before;
      RowStart(ctx.spec, ps, r, rows, n, depth, bodyWidth);
      RestStart(ps, r, SpansOf(rows), n);
      NoCellsRealized(ctx, env);
      NoStatsAdded(report);
      ExtendsSelf(env);
      assert specs[..0] == [];
      while k < |specs|
        invariant 0 <= k <= |specs| && cursor <= n && |cells| == k
        invariant Ready() && Extends(old(env), env) && Marks(grid, ps) && ps == before + PlacedOf(cells)
        invariant RestOk(ctx.spec, ps, r, cursor, k, rows, n, depth, bodyWidth)
        invariant RestLayout(ps, r, cursor, k, SpansOf(rows), n) == Layout(before, r, SpansOf(rows), n)
        invariant RowRealized(ctx, env, specs[..k], cells) && AllSized(widths, cells)
        invariant anchors == Capped(k)
        invariant report == old(report).Plus(Reported(RowStats(specs[..k])))
      {
        ghost var env0 := env;
        CellStep(ctx.spec, ps, r, cursor, k, rows, n, depth, bodyWidth);
        RestStep(ps, r, cursor, k, SpansOf(rows), n);
        CellBudgetAt(specs, k);
        CellPlanned(ctx.spec, specs, k);
        cursor := NextFree(grid, ps, r, cursor);
        ghost var p := Placed(r, cursor, specs[k].span);
        var cell := CompileCell(grid, ps, widths, r, cursor, specs[k], depth, bodyWidth);
        if cell.Err? {
          return Err(cell.error), anchors, ps;
        }
        ExtendsTransitive(old(env), env0, env);
        RowGrows(ctx, env0, env, specs[..k], cells);
        RowRealizedStep(ctx, env, specs, k, cells, cell.value);
        RowStatsStep(specs, k);
        PlusAssociates(old(report), Reported(RowStats(specs[..k])), Reported(ListStats(specs[k].blocks)));
        PlacedSnoc(before, cells, cell.value);
        ps := ps + [p];
        cells := cells + [cell.value];
        anchors := if anchors == U16_MAX then anchors else anchors + 1;
        cursor := cursor + specs[k].span.colSpan;
        k := k + 1;
      }
      assert specs[..k] == specs;
      RowEnd(ctx.spec, ps, r, cursor, rows, n, depth, bodyWidth);
      RestEnd(ps, r, cursor, SpansOf(rows), n);
      return Ok(cells), anchors, ps;
    }

    /** All rows of a table, placed first-fit on a fresh grid. */
    method CompileRows(widths: seq<int>, rows: seq<RowSpec>, ghost depth: nat, ghost bodyWidth: real)
      returns (out: Outcome<seq<Cell>>, counts: seq<nat>)
      requires Ready() && GridOk(ctx.spec, [], 0, rows, |widths|, depth, bodyWidth) && RowsBudget(rows).runs <= MAX_RUNS
      requires Planned(ctx.spec, RowsUses(ctx.spec, rows))
      modifies this`env, this`used, this`listShapes, this`assets, this`assetPaths, this`assetBytes, this`sources,
        this`report
      ensures out.Err? ==> Blamed(out.error)
      ensures out.Ok? ==>
        && Ready() && Extends(old(env), env)
        && PlacedOf(out.value) == Layout([], 0, SpansOf(rows), |widths|)
        && RowsRealized(ctx, env, rows, out.value) && AllSized(widths, out.value)
        && counts == CellCounts(rows)
        && report == old(report).Plus(Reported(RowsStats(rows)))
      decreases rows, 1
    {
      hide Ready, Blamed, Planned, Extends, Stats.Plus, GridOk, Layout, RowRealized, RowsRealized, RowStats, RowsStats,
        CellsBudget, RowsBudget, CellSized, Marks, PlacedOf;
      var n := |widths|;
      var grid := EmptyGrid(|rows|, n);
      ghost var ps: seq<Placed> := [];
      var cells: seq<Cell> := [];
      counts := [];
      var r := 0;
      NoCellsRealized(ctx, env);
      NoStatsAdded(report);
      ExtendsSelf(env);
      assert rows[..0] == [];
      while r < |rows|
        invariant 0 <= r <= |rows| && |counts| == r
        invariant fresh(grid) && grid.Length0 == |rows| && grid.Length1 == n
        invariant Ready() && Extends(old(env), env) && Marks(grid, ps) && ps == PlacedOf(cells)
        invariant GridOk(ctx.spec, ps, r, rows, n, depth, bodyWidth)
        invariant Layout(ps, r, SpansOf(rows), n) == Layout([], 0, SpansOf(rows), n)
        invariant RowsRealized(ctx, env, rows[..r], cells) && AllSized(widths, cells)
        invariant forall s :: 0 <= s < r ==> counts[s] == CellCounts(rows)[s]
        invariant report == old(report).Plus(Reported(RowsStats(rows[..r])))
      {
        ghost var env0 := env;
        var row, anchors;
        RowBudgetAt(rows, r);
        RowPlanned(ctx.spec, rows, r);
        row, anchors, ps := CompileRow(grid, ps, widths, rows, r, depth, bodyWidth);
        if row.Err? {
          return Err(row.error), counts;
        }
        ExtendsTransitive(old(env), env0, env);
        RowsGrow(ctx, env0, env, rows[..r], cells);
        RowsRealizedStep(ctx, env, rows, r, cells, row.value);
        RowsStatsStep(rows, r);
        PlusAssociates(old(report), Reported(RowsStats(rows[..r])), Reported(RowStats(rows[r].cells)));
        PlacedConcat(cells, row.value);
        cells := cells + row.value;
        counts := counts + [anchors];
        r := r + 1;
      }
      assert rows[..r] == rows;
      LayoutDone(ps, SpansOf(rows), n);
      return Ok(cells), counts;
    }

    method CompileTable(width: Option<real>, columns: seq<real>, rows: seq<RowSpec>, ghost depth: nat,
        ghost bodyWidth: real) returns (r: Outcome<Paragraph>)
      requires Ready() && GridSizeOk(|columns|, |rows|) && RowsBudget(rows).runs <= MAX_RUNS
      requires Planned(ctx.spec, RowsUses(ctx.spec, rows))
      requires GridOk(ctx.spec, [], 0, rows, |columns|, depth, bodyWidth)
      modifies this`env, this`used, this`listShapes, this`assets, this`assetPaths, this`assetBytes, this`sources,
        this`report
      ensures r.Err? ==> Blamed(r.error)
      ensures r.Ok? ==>
        && Ready() && Extends(old(env), env) && BlockRealized(ctx, env, TableBlock(width, columns, rows), r.value)
        && report == old(report).Plus(Reported(RowsStats(rows))).Plus(Stats(0, 1, 0, 0, 0, 0))
      decreases rows, 2
    {
      hide Ready, Blamed, Planned, Linked, PB.RunsOk, PB.ShapeAt, Extends, Stats.Plus, GridOk, RowsRealized, RowsStats,
        RowsBudget, AllSized, Layout, PlacedOf, CellCounts, WidthOf, Columns;
      var widths := Columns(columns);
      ColumnCount(columns);
      var out, counts := CompileRows(widths, rows, depth, bodyWidth);
      if out.Err? {
        return Err(out.error);
      }
      var table := Table(|rows|, |columns|, counts, WidthOf(widths, 0, |widths|), TableHeight(|rows|), out.value);
      var p := new PB.ParagraphBuilder(2, 0, 0, 0);
      var ok := p.AppendControl(OBJECT, TableControl(table));
      report := report.Plus(Stats(0, 1, 0, 0, 0, 0));
      FrozenShapes(p);
      FrameFrom(columns, rows, table);
      TableRealized(ctx, env, width, columns, rows, table, p.Freeze());
      return Ok(p.Freeze());
    }

    // ----- Sections ----------------------------------------------------------------------

    /** One variant of a header or footer; none when it has no blocks. */
    method AppendPart(p: PB.ParagraphBuilder, id: string, apply: nat, blocks: seq<BlockSpec>, ghost base: nat,
        ghost done: seq<(nat, seq<BlockSpec>)>, ghost bodyWidth: real)
      returns (r: Outcome<()>)
      requires Ready() && p.Valid() && id in ["head", "foot"] && apply < 3
      requires p.chars == AnchorChars(p.controls) && base <= |p.controls| <= 16
      requires PartsRealized(ctx, env, id, done, p.controls[base..])
      requires BlocksOk(ctx.spec, blocks, 1, false, bodyWidth) && BlocksSum(blocks).runs <= MAX_RUNS
      requires Planned(ctx.spec, BlocksUses(ctx.spec, blocks))
      modifies this`env, this`used, this`listShapes, this`assets, this`assetPaths, this`assetBytes, this`sources,
        this`report, p`chars, p`controls, p`inForce
      ensures r.Err? ==> Blamed(r.error)
      ensures r.Ok? ==>
        && Ready() && Extends(old(env), env) && p.Valid()
        && p.chars == AnchorChars(p.controls) && old(|p.controls|) <= |p.controls| <= old(|p.controls|) + 1
        && p.controls[..old(|p.controls|)] == old(p.controls)
        && PartsRealized(ctx, env, id, done + NonEmpty(apply, blocks), p.controls[base..])
        && report == old(report).Plus(Reported(PartsStats(NonEmpty(apply, blocks))))
    {
      hide Ready, Blamed, Planned, Linked, PB.RunsOk, PB.ShapeAt, Extends, Stats.Plus, EachBlockOk, BlocksSum,
        PartsRealized, PartsStats, ListStats, ListRealized, AnchorChars;
      ExtendsSelf(env);
      NoParts(ctx, env, id);
      NoStatsAdded(report);
      if blocks == [] {
        assert done + [] == done;
        return Ok(());
      }
      ghost var controls, counted := p.controls, report;
      var paragraphs := CompileList(blocks, 1, bodyWidth);
      if paragraphs.Err? {
        return Err(paragraphs.error);
      }
      var control := Generic(GenericControl(id, ApplyData(apply), [ParagraphList(paragraphs.value)], [], None, None));
      var ok := p.AppendControl(HEADER_FOOTER, control);
      AnchorCharsSnoc(controls, control);
      PartsGrow(ctx, old(env), env, id, done, controls[base..]);
      PartsSnoc(ctx, env, id, done, controls[base..], (apply, blocks), control);
      assert controls[base..] + [control] == p.controls[base..];
      OnePart(ctx, env, id, apply, blocks, control);
      return Ok(());
    }

    method AppendHeaderFooter(p: PB.ParagraphBuilder, part: Option<HeaderFooter>, id: string, ghost bodyWidth: real)
      returns (r: Outcome<()>)
      requires Ready() && p.Valid() && id in ["head", "foot"]
      requires p.chars == AnchorChars(p.controls) && |p.controls| <= 8
      requires HeaderFooterOk(ctx.spec, part, bodyWidth) && PartBudget(part).runs <= MAX_RUNS
      requires Planned(ctx.spec, PartUses(ctx.spec, part))
      modifies this`env, this`used, this`listShapes, this`assets, this`assetPaths, this`assetBytes, this`sources,
        this`report, p`chars, p`controls, p`inForce
      ensures r.Err? ==> Blamed(r.error)
      ensures r.Ok? ==>
        && Ready() && Extends(old(env), env) && p.Valid()
        && p.chars == AnchorChars(p.controls) && old(|p.controls|) <= |p.controls| <= old(|p.controls|) + 3
        && p.controls[..old(|p.controls|)] == old(p.controls)
        && PartsRealized(ctx, env, id, Parts(part), p.controls[old(|p.controls|)..])
        && report == old(report).Plus(Reported(PartsStats(Parts(part))))
    {
      hide Ready, Blamed, Planned, Linked, PB.RunsOk, PB.ShapeAt, Extends, Stats.Plus, BlocksOk, BlocksSum, PartBudget,
        PartsRealized, PartsStats, AnchorChars, NonEmpty;
      ghost var base, start, before := |p.controls|, p.controls, report;
      ExtendsSelf(env);
      NoParts(ctx, env, id);
      NoStatsAdded(report);
      assert p.controls[base..] == [];
      if part == None {
        return Ok(());
      }
      var variants := part.value;
      PartRuns(variants);
      PartPlanned(ctx.spec, variants);
      ghost var d, e, o := NonEmpty(0, variants.default), NonEmpty(1, variants.even), NonEmpty(2, variants.odd);
      r := AppendPart(p, id, 0, variants.default, base, [], bodyWidth);
      if r.Err? {
        return r;
      }
      ghost var env1, controls1 := env, p.controls;
      assert [] + d == d;
      r := AppendPart(p, id, 1, variants.even, base, d, bodyWidth);
      if r.Err? {
        return r;
      }
      ghost var env2, controls2 := env, p.controls;
      ExtendsTransitive(old(env), env1, env2);
      r := AppendPart(p, id, 2, variants.odd, base, d + e, bodyWidth);
      if r.Err? {
        return r;
      }
      ExtendsTransitive(old(env), env2, env);
      assert p.controls[..base] == controls2[..base] == controls1[..base] == start;
      ThreeParts(before, d, e, o);
      return r;
    }

    /** Headers, then footers; `a` and `b` are where the controls of each end. */
    method AppendParts(p: PB.ParagraphBuilder, section: SectionSpec, ghost bodyWidth: real)
      returns (r: Outcome<()>, ghost a: nat, ghost b: nat)
      requires Ready() && p.Valid() && SectionBudget(section).runs <= MAX_RUNS
      requires p.controls == [SectionDef, COLUMN_CONTROL] && p.chars == AnchorChars(p.controls)
      requires HeaderFooterOk(ctx.spec, section.header, bodyWidth)
        && HeaderFooterOk(ctx.spec, section.footer, bodyWidth)
      requires Planned(ctx.spec, SectionUses(ctx.spec, section))
      modifies this`env, this`used, this`listShapes, this`assets, this`assetPaths, this`assetBytes, this`sources,
        this`report, p`chars, p`controls, p`inForce
      ensures r.Err? ==> Blamed(r.error)
      ensures r.Ok? ==>
        && Ready() && Extends(old(env), env) && p.Valid() && p.chars == AnchorChars(p.controls)
        && 2 <= a <= b == |p.controls| <= 8 && p.controls[..2] == [SectionDef, COLUMN_CONTROL]
        && PartsRealized(ctx, env, "head", Parts(section.header), p.controls[2..a])
        && PartsRealized(ctx, env, "foot", Parts(section.footer), p.controls[a..b])
        && report == old(report).Plus(Reported(AnchorStats(section)))
    {
      hide Ready, Blamed, Planned, Linked, PB.RunsOk, PB.ShapeAt, Extends, Stats.Plus, HeaderFooterOk, PartBudget,
        SectionBudget, PartsRealized, PartsStats, AnchorChars, Parts, AnchorStats;
      a, b := 2, 2;
      SectionRuns(section);
      SectionPlanned(ctx.spec, section);
      ghost var report0 := report;
      r := AppendHeaderFooter(p, section.header, "head", bodyWidth);
      if r.Err? {
        return;
      }
      ghost var env1, controls1 := env, p.controls;
      r := AppendHeaderFooter(p, section.footer, "foot", bodyWidth);
      if r.Err? {
        return;
      }
      a, b := |controls1|, |p.controls|;
      ExtendsTransitive(old(env), env1, env);
      PartsGrow(ctx, env1, env, "head", Parts(section.header), controls1[2..]);
      assert p.controls[..2] == controls1[..2] == [SectionDef, COLUMN_CONTROL];
      assert p.controls[2..a] == controls1[2..];
      assert p.controls[a..b] == p.controls[a..];
      AnchorReport(report0, section);
    }

    /** The paragraph a section starts with: definitions, headers and footers, page numbering. */
    method CompileSectionAnchor(section: SectionSpec, ghost bodyWidth: real) returns (r: Outcome<Paragraph>)
      requires Ready() && NumberOk(section) && SectionBudget(section).runs <= MAX_RUNS
      requires HeaderFooterOk(ctx.spec, section.header, bodyWidth)
        && HeaderFooterOk(ctx.spec, section.footer, bodyWidth)
      requires Planned(ctx.spec, SectionUses(ctx.spec, section))
      modifies this
      ensures r.Err? ==> Blamed(r.error)
      ensures r.Ok? ==>
        && Ready() && Extends(old(env), env) && AnchorRealized(ctx, env, section, r.value)
        && report == old(report).Plus(Reported(AnchorStats(section)))
        && startNumber == if section.pageNumber.Some? then section.pageNumber.value.start else old(startNumber)
    {
      hide Ready, Blamed, Planned, Linked, PB.RunsOk, PB.ShapeAt, Extends, Stats.Plus, HeaderFooterOk, SectionBudget,
        PartsRealized, AnchorChars, Parts, PageControls, PageNumberOk, AnchorStats, AnchorRealized;
      var p := new PB.ParagraphBuilder(0, 0, 0, 3);
      StartAnchor(p);
      var done;
      ghost var a, b;
      done, a, b := AppendParts(p, section, bodyWidth);
      if done.Err? {
        return Err(done.error);
      }
      ghost var controls := p.controls;
      AppendPageNumber(p, section.pageNumber);
      assert p.controls[..2] == controls[..2] && p.controls[2..a] == controls[2..a]
        && p.controls[a..b] == controls[a..b];
      FrozenShapes(p);
      AnchorFrom(ctx, env, section, p.Freeze(), a, b);
      return Ok(p.Freeze());
    }

    method StartAnchor(p: PB.ParagraphBuilder)
      requires p.Valid() && p.chars == [] && p.controls == []
      modifies p`chars, p`controls, p`inForce
      ensures p.Valid() && p.controls == [SectionDef, COLUMN_CONTROL] && p.chars == AnchorChars(p.controls)
    {
      hide Linked, PB.RunsOk, PB.ShapeAt, AnchorChars, AnchorCode;
      NoAnchorChars();
      AnchorCharsSnoc([], SectionDef);
      AnchorCharsSnoc([SectionDef], COLUMN_CONTROL);
      var ok := p.AppendControl(SECTION_COLUMN_DEF, SectionDef);
      assert p.controls == [] + [SectionDef] == [SectionDef];
      ok := p.AppendControl(SECTION_COLUMN_DEF, COLUMN_CONTROL);
      assert p.controls == [SectionDef] + [COLUMN_CONTROL] == [SectionDef, COLUMN_CONTROL];
    }

    method AppendPageNumber(p: PB.ParagraphBuilder, number: Option<PageNumber>)
      requires p.Valid() && p.chars == AnchorChars(p.controls) && |p.controls| <= 16
      requires number.Some? ==> PageNumberOk(number.value)
      modifies this`startNumber, p`chars, p`controls, p`inForce
      ensures p.Valid() && p.chars == AnchorChars(p.controls)
      ensures p.controls == old(p.controls) + PageControls(number)
      ensures startNumber == if number.Some? then number.value.start else old(startNumber)
    {
      hide Linked, PB.RunsOk, PB.ShapeAt, AnchorChars, PageControls, AnchorCode, WcharLen;
      TwoPageControls(number);
      NothingBehind(p.controls);
      if number.Some? {
        ghost var before := p.controls;
        var controls := PageControls(number);
        startNumber := number.value.start;
        var ok := p.AppendControl(PAGE_CONTROL, controls[0]);
        AnchorCharsSnoc(before, controls[0]);
        ok := p.AppendControl(PAGE_CONTROL, controls[1]);
        AnchorCharsSnoc(before + [controls[0]], controls[1]);
        assert controls == [controls[0]] + [controls[1]];
        assert before + [controls[0]] + [controls[1]] == before + controls;
      }
    }

    method CompileSection(section: SectionSpec) returns (r: Outcome<seq<Section>>)
      requires Ready() && SectionOk(ctx.spec, section) && SectionBudget(section).runs <= MAX_RUNS
      requires Planned(ctx.spec, SectionUses(ctx.spec, section))
      modifies this
      ensures r.Err? ==> Blamed(r.error)
      ensures r.Ok? ==>
        && Ready() && Extends(old(env), env)
        && ChunksRealized(ctx, env, section, Chunks(section.blocks), r.value)
        && report == old(report).Plus(Reported(ChunksStats(section, Chunks(section.blocks))))
    {
      hide Ready, Blamed, Planned, Extends, Stats.Plus, HeaderFooterOk, PageOk, PageNumberOk, EachBlockOk, BlockOk,
        BlockBudget, BlocksSum, SectionBudget, ChunksRealized, ChunksStats, Chunks, AnchorRealized, AnchorStats,
        BlockRealized, BlockStats, NumberOk;
      ghost var bodyWidth := BodyWidth(SectionPage(ctx.spec, section));
      var blocks := section.blocks;
      SectionRuns(section);
      SectionPlanned(ctx.spec, section);
      SectionNumberOk(ctx.spec, section);
      var anchor := CompileSectionAnchor(section, bodyWidth);
      if anchor.Err? {
        return Err(anchor.error);
      }
      var output: seq<Section> := [];
      var paragraphs := [anchor.value];
      ghost var all := [Section(paragraphs)];
      FreshChunk(ctx, env, section, anchor.value);
      assert blocks[..0] == [];
      ChunksOfNothing();
      var i := 0;
      while i < |blocks|
        invariant 0 <= i <= |blocks|
        invariant Ready() && Extends(old(env), env)
        invariant all == output + [Section(paragraphs)]
        invariant ChunksRealized(ctx, env, section, Chunks(blocks[..i]), all) && |all| == |Chunks(blocks[..i])|
        invariant report == old(report).Plus(Reported(ChunksStats(section, Chunks(blocks[..i]))))
      {
        ghost var before, chunks, counted := env, Chunks(blocks[..i]),
          Reported(ChunksStats(section, Chunks(blocks[..i])));
        ChunksStep(blocks, i);
        if IsSectionBreak(blocks[i]) {
          output := output + [Section(paragraphs)];
          anchor := CompileSectionAnchor(section, bodyWidth);
          if anchor.Err? {
            return Err(anchor.error);
          }
          paragraphs := [anchor.value];
          ExtendsTransitive(old(env), before, env);
          ChunksGrow(ctx, before, env, section, chunks, all);
          ChunkStarted(ctx, env, section, chunks, all, anchor.value);
          PlusAssociates(old(report), counted, Reported(AnchorStats(section)));
          all := all + [Section(paragraphs)];
        } else {
          BlockOkAt(ctx.spec, blocks, i, 0, true, bodyWidth);
          BlockPlanned(ctx.spec, blocks, i);
          BlockBudgetAt(blocks, i);
          var done := CompileBlock(blocks[i], 0, true, bodyWidth);
          if done.Err? {
            return Err(done.error);
          }
          ExtendsTransitive(old(env), before, env);
          ChunksGrow(ctx, before, env, section, chunks, all);
          ChunkExtended(ctx, env, section, chunks, all, blocks[i], done.value[0]);
          PlusAssociates(old(report), counted, Reported(BlockStats(blocks[i])));
          assert done.value == [done.value[0]];
          paragraphs := paragraphs + done.value;
          assert all[..|all| - 1] == output;
          all := output + [Section(paragraphs)];
        }
        i := i + 1;
      }
      assert blocks[..i] == blocks;
      return Ok(output + [Section(paragraphs)]);
    }

    /** All sections, and the counts over the finished document. */
    method Compile() returns (r: Outcome<seq<Section>>)
      requires Ready() && SpecOk(ctx.spec) && report == NO_STATS
      modifies this
      ensures r.Err? ==> Blamed(r.error)
      ensures r.Ok? ==>
        && Ready() && Extends(old(env), env) && NumbersOk(ctx.spec.sections)
        && SectionsRealized(ctx, env, ctx.spec.sections, r.value)
        && report == Reported(SpecStats(ctx.spec.sections))
    {
      hide Ready, Blamed, Planned, Extends, Stats.Plus, SectionOk, SectionBudget, SectionsBudget, SectionsRealized,
        ChunksRealized, ChunksStats, Chunks, SpecStats, NumberOk, PageOk, StylesOk, ChainsOk, ListsOk, IdsDistinct;
      var sections := ctx.spec.sections;
      var outs: seq<Section> := [];
      AllNumbersOk(ctx.spec, sections);
      NoSectionsRealized(ctx, env);
      ExtendsSelf(env);
      NoStatsAdded(NO_STATS);
      assert sections[..0] == [];
      var i := 0;
      while i < |sections|
        invariant 0 <= i <= |sections| && NumbersOk(sections[..i])
        invariant Ready() && Extends(old(env), env)
        invariant SectionsRealized(ctx, env, sections[..i], outs)
        invariant report == Reported(SpecStats(sections[..i]))
      {
        ghost var before := env;
        SectionBudgetAt(sections, i);
        SpecSectionPlanned(ctx.spec, i);
        assert SectionOk(ctx.spec, sections[i]);
        SectionNumberOk(ctx.spec, sections[i]);
        var more := CompileSection(sections[i]);
        if more.Err? {
          return Err(more.error);
        }
        ExtendsTransitive(old(env), before, env);
        SectionsGrow(ctx, before, env, sections[..i], outs);
        ChunksLength(ctx, env, sections[i], Chunks(sections[i].blocks), more.value);
        assert sections[..i] + [sections[i]] == sections[..i + 1];
        AllNumbersOk(ctx.spec, sections[..i + 1]);
        SectionsSnoc(ctx, env, sections[..i], sections[i], outs, more.value);
        SpecStatsStep(sections, i);
        outs := outs + more.value;
        i := i + 1;
      }
      assert sections[..i] == sections;
      return Ok(outs);
    }
  }
}
