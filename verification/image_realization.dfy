/**
 A realised specification has only usable images: wherever a block asks for one, its file is
 there and can be embedded at the size asked for.
 */
module ImageRealization {
  import opened HwpModel
  import opened DocumentSpecs
  import opened Realization
  import opened SectionRealization
  import opened CompileLimits

  lemma NoneUsable(files: Files)
    ensures UsesUsable(files, {})
  {
  }

  lemma BothUsable(files: Files, a: set<Use>, b: set<Use>)
    requires UsesUsable(files, a) && UsesUsable(files, b)
    ensures UsesUsable(files, a + b)
  {
  }

  lemma OneUsable(files: Files, use: Use)
    requires use.ImageUse? ==> ImageUsable(files, use.path, use.width, use.height)
    ensures UsesUsable(files, {use})
  {
  }

  lemma RunImage(ctx: Context, env: Env, run: RunSpec, style: Option<string>, control: Control)
    requires HasControl(run) ==> RunControlOk(ctx, env, run, control)
    ensures UsesUsable(ctx.files, RunUses(style, run))
  {
    hide ImageUsable;
  }

  lemma {:induction false} RunsImages(ctx: Context, env: Env, runs: seq<RunSpec>, style: Option<string>,
      controls: seq<Control>)
    requires ControlsRealized(ctx, env, runs, controls)
    ensures UsesUsable(ctx.files, RunsUses(style, runs))
  {
    hide UsesUsable, RunControlOk, RunUses;
    if runs == [] {
      NoneUsable(ctx.files);
    } else {
      var front, run := runs[..|runs| - 1], runs[|runs| - 1];
      if HasControl(run) {
        RunsImages(ctx, env, front, style, controls[..|controls| - 1]);
        RunImage(ctx, env, run, style, controls[|controls| - 1]);
      } else {
        RunsImages(ctx, env, front, style, controls);
        RunImage(ctx, env, run, style, SectionDef);
      }
      BothUsable(ctx.files, RunsUses(style, front), RunUses(style, run));
    }
  }

  lemma {:induction false} BlockImages(ctx: Context, env: Env, block: BlockSpec, p: Paragraph)
    requires BlockRealized(ctx, env, block, p)
    ensures UsesUsable(ctx.files, BlockUses(ctx.spec, block))
    decreases block, 0
  {
    hide UsesUsable, ControlsRealized, RunsUses, RowsUses, RowsRealized, FrameRealized, TextShown, ParaShapeOk, Sound,
      ImageUsable, LevelStyle;
    NoneUsable(ctx.files);
    match block
    case ParagraphBlock(own, list, _, runs) =>
      var style := Either(own, LevelStyle(ctx.spec, list));
      RunsImages(ctx, env, runs, style, p.controls);
      if list.Some? {
        OneUsable(ctx.files, ListUse(style, list.value));
      }
      BothUsable(ctx.files, ListUses(style, list), RunsUses(style, runs));
    case TableBlock(_, _, rows) => RowsImages(ctx, env, rows, p.controls[0].table.cells);
    case ImageBlock(path, width, height, _, _) => OneUsable(ctx.files, ImageUse(path, width, height));
    case _ =>
  }

  lemma {:induction false} BlocksImages(ctx: Context, env: Env, blocks: seq<BlockSpec>, ps: seq<Paragraph>)
    requires BlocksRealized(ctx, env, blocks, ps)
    ensures UsesUsable(ctx.files, BlocksUses(ctx.spec, blocks))
    decreases blocks, 1
  {
    hide UsesUsable, BlockRealized, BlockUses;
    if blocks == [] {
      NoneUsable(ctx.files);
    } else {
      var front, last := blocks[..|blocks| - 1], blocks[|blocks| - 1];
      BlocksImages(ctx, env, front, ps[..|ps| - 1]);
      BlockImages(ctx, env, last, ps[|ps| - 1]);
      BothUsable(ctx.files, BlocksUses(ctx.spec, front), BlockUses(ctx.spec, last));
    }
  }

  lemma {:induction false} ListImages(ctx: Context, env: Env, blocks: seq<BlockSpec>, ps: seq<Paragraph>)
    requires ListRealized(ctx, env, blocks, ps)
    ensures UsesUsable(ctx.files, BlocksUses(ctx.spec, blocks))
    decreases blocks, 2
  {
    hide UsesUsable, BlocksRealized;
    if blocks == [] {
      NoneUsable(ctx.files);
    } else {
      BlocksImages(ctx, env, blocks, ps);
    }
  }

  lemma {:induction false} RowImages(ctx: Context, env: Env, specs: seq<CellSpec>, cells: seq<Cell>)
    requires RowRealized(ctx, env, specs, cells)
    ensures UsesUsable(ctx.files, CellsUses(ctx.spec, specs))
    decreases specs, 0
  {
    hide UsesUsable, ListRealized, BlocksUses;
    if specs == [] {
      NoneUsable(ctx.files);
    } else {
      var front, last := specs[..|specs| - 1], specs[|specs| - 1];
      RowImages(ctx, env, front, cells[..|cells| - 1]);
      ListImages(ctx, env, last.blocks, cells[|cells| - 1].paragraphs);
      BothUsable(ctx.files, CellsUses(ctx.spec, front), BlocksUses(ctx.spec, last.blocks));
    }
  }

  lemma {:induction false} RowsImages(ctx: Context, env: Env, rows: seq<RowSpec>, cells: seq<Cell>)
    requires RowsRealized(ctx, env, rows, cells)
    ensures UsesUsable(ctx.files, RowsUses(ctx.spec, rows))
    decreases rows, 1
  {
    hide UsesUsable, RowRealized, CellsUses;
    if rows == [] {
      NoneUsable(ctx.files);
    } else {
      var front, last := rows[..|rows| - 1], rows[|rows| - 1].cells;
      RowsImages(ctx, env, front, cells[..|cells| - |last|]);
      RowImages(ctx, env, last, cells[|cells| - |last|..]);
      BothUsable(ctx.files, RowsUses(ctx.spec, front), CellsUses(ctx.spec, last));
    }
  }

  // ----- Sections ------------------------------------------------------------------------

  ghost predicate BlocksUsable(ctx: Context, blocks: seq<BlockSpec>) {
    UsesUsable(ctx.files, BlocksUses(ctx.spec, blocks))
  }

  lemma {:induction false} PartsImages(ctx: Context, env: Env, id: string, parts: seq<(nat, seq<BlockSpec>)>,
      controls: seq<Control>)
    requires PartsRealized(ctx, env, id, parts, controls)
    ensures forall part :: part in parts ==> BlocksUsable(ctx, part.1)
  {
    hide UsesUsable, ListRealized, BlocksUses, ApplyData;
    if parts != [] {
      var last := parts[|parts| - 1];
      PartsImages(ctx, env, id, parts[..|parts| - 1], controls[..|controls| - 1]);
      ListImages(ctx, env, last.1, controls[|controls| - 1].generic.lists[0].paragraphs);
      assert parts == parts[..|parts| - 1] + [last];
    }
  }

  lemma NonEmptyUsable(ctx: Context, parts: seq<(nat, seq<BlockSpec>)>, apply: nat, blocks: seq<BlockSpec>)
    requires forall part :: part in parts ==> BlocksUsable(ctx, part.1)
    requires forall part :: part in NonEmpty(apply, blocks) ==> part in parts
    ensures BlocksUsable(ctx, blocks)
  {
    hide UsesUsable;
    if blocks == [] {
      NoneUsable(ctx.files);
    } else {
      assert (apply, blocks) in parts;
    }
  }

  lemma PartImages(ctx: Context, env: Env, id: string, part: Option<HeaderFooter>, controls: seq<Control>)
    requires PartsRealized(ctx, env, id, Parts(part), controls)
    ensures UsesUsable(ctx.files, PartUses(ctx.spec, part))
  {
    hide UsesUsable, PartsRealized, BlocksUses, NonEmpty;
    var parts := Parts(part);
    PartsImages(ctx, env, id, parts, controls);
    if part.Some? {
      var p := part.value;
      NonEmptyUsable(ctx, parts, 0, p.default);
      NonEmptyUsable(ctx, parts, 1, p.even);
      NonEmptyUsable(ctx, parts, 2, p.odd);
      var d, o, e := BlocksUses(ctx.spec, p.default), BlocksUses(ctx.spec, p.odd), BlocksUses(ctx.spec, p.even);
      BothUsable(ctx.files, d, o);
      BothUsable(ctx.files, d + o, e);
    } else {
      NoneUsable(ctx.files);
    }
  }

  lemma AnchorImages(ctx: Context, env: Env, section: SectionSpec, p: Paragraph)
    requires NumberOk(section) && AnchorRealized(ctx, env, section, p)
    ensures UsesUsable(ctx.files, PartUses(ctx.spec, section.header) + PartUses(ctx.spec, section.footer))
  {
    hide UsesUsable, PartsRealized, PartUses, Sound, AnchorChars, PageControls, Parts;
    var a := 2 + |Parts(section.header)|;
    var b := a + |Parts(section.footer)|;
    PartImages(ctx, env, "head", section.header, p.controls[2..a]);
    PartImages(ctx, env, "foot", section.footer, p.controls[a..b]);
    BothUsable(ctx.files, PartUses(ctx.spec, section.header), PartUses(ctx.spec, section.footer));
  }

  lemma {:induction false} ChunksImages(ctx: Context, env: Env, section: SectionSpec, chunks: seq<seq<BlockSpec>>,
      outs: seq<Section>)
    requires NumberOk(section) && ChunksRealized(ctx, env, section, chunks, outs)
    ensures forall i :: 0 <= i < |chunks| ==> BlocksUsable(ctx, chunks[i])
    ensures chunks != [] ==>
      UsesUsable(ctx.files, PartUses(ctx.spec, section.header) + PartUses(ctx.spec, section.footer))
  {
    hide UsesUsable, PartUses, AnchorRealized, BlocksRealized, NumberOk, BlocksUses;
    if chunks != [] {
      var last, ps := |chunks| - 1, outs[|outs| - 1].paragraphs;
      ChunksImages(ctx, env, section, chunks[..last], outs[..last]);
      AnchorImages(ctx, env, section, ps[0]);
      BlocksImages(ctx, env, chunks[last], ps[1..]);
      forall i | 0 <= i < |chunks| ensures BlocksUsable(ctx, chunks[i]) {
        assert i < last ==> chunks[i] == chunks[..last][i];
      }
    }
  }

  lemma BlocksUsableSnoc(ctx: Context, blocks: seq<BlockSpec>, block: BlockSpec)
    ensures BlocksUsable(ctx, blocks + [block]) <==>
      BlocksUsable(ctx, blocks) && UsesUsable(ctx.files, BlockUses(ctx.spec, block))
  {
    hide BlockUses;
    assert (blocks + [block])[..|blocks|] == blocks;
  }

  /** Blocks whose chunks are usable are usable themselves: breaks use nothing. */
  lemma {:induction false} ChunksTogether(ctx: Context, blocks: seq<BlockSpec>)
    requires forall i :: 0 <= i < |Chunks(blocks)| ==> BlocksUsable(ctx, Chunks(blocks)[i])
    ensures BlocksUsable(ctx, blocks)
  {
    hide UsesUsable, BlocksUses, BlocksUsable;
    if blocks == [] {
      assert Chunks(blocks)[0] == [];
    } else {
      var front, last := blocks[..|blocks| - 1], blocks[|blocks| - 1];
      var chunks, before := Chunks(blocks), Chunks(front);
      var n := |before| - 1;
      assert blocks == front + [last];
      BlocksUsableSnoc(ctx, front, last);
      if IsSectionBreak(last) {
        forall i | 0 <= i < |before| ensures BlocksUsable(ctx, before[i]) {
          assert chunks[i] == before[i];
        }
        NoneUsable(ctx.files);
      } else {
        assert chunks[n] == before[n] + [last];
        BlocksUsableSnoc(ctx, before[n], last);
        forall i | 0 <= i < |before| ensures BlocksUsable(ctx, before[i]) {
          assert i < n ==> chunks[i] == before[i];
        }
      }
      ChunksTogether(ctx, front);
    }
  }

  lemma SectionImages(ctx: Context, env: Env, section: SectionSpec, outs: seq<Section>)
    requires NumberOk(section) && ChunksRealized(ctx, env, section, Chunks(section.blocks), outs)
    ensures UsesUsable(ctx.files, SectionUses(ctx.spec, section))
  {
    hide UsesUsable, ChunksRealized, Chunks, PartUses, BlocksUses, NumberOk;
    ChunksImages(ctx, env, section, Chunks(section.blocks), outs);
    ChunksTogether(ctx, section.blocks);
    BothUsable(ctx.files, PartUses(ctx.spec, section.header) + PartUses(ctx.spec, section.footer),
      BlocksUses(ctx.spec, section.blocks));
  }

  /** What has been realised used nothing but usable images. */
  lemma {:induction false} SectionsImages(ctx: Context, env: Env, sections: seq<SectionSpec>, outs: seq<Section>)
    requires NumbersOk(sections) && SectionsRealized(ctx, env, sections, outs)
    ensures UsesUsable(ctx.files, SectionsUses(ctx.spec, sections))
  {
    hide UsesUsable, ChunksRealized, Chunks, SectionUses, NumberOk;
    if sections == [] {
      NoneUsable(ctx.files);
    } else {
      var front, last := sections[..|sections| - 1], sections[|sections| - 1];
      var n := Breaks(last.blocks) + 1;
      SectionsImages(ctx, env, front, outs[..|outs| - n]);
      SectionImages(ctx, env, last, outs[|outs| - n..]);
      BothUsable(ctx.files, SectionsUses(ctx.spec, front), SectionUses(ctx.spec, last));
    }
  }
}
