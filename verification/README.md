# Verified model of the HWP toolkit

A Dafny model of the parts of this repository whose correctness is not visible in one
function: the document composer, the address resolver, the bookmark editor, the codecs, the
raster metrics, the publisher and the certification arithmetic.

`dafny verify dfyconfig.toml` checks everything.

## Main results

- **Composing** (`composition.dfy`). A specification that the validator passes compiles into a
  document that realises it block by block: tables placed first-fit without bounds checks are
  exact tilings, styles resolve to the nearest definition, every character shows the shape its
  run asks for, attribute by attribute, every control sits behind its character, and the report equals the recursive
  counts over the finished document. Every failure that is left has its cause in an image file,
  in a table or in the byte budget (`compile_limits.dfy`); where these have room for the distinct
  uses of the specification, it is composed exactly when all its images are usable.
- **Tables** (`table_grid.dfy`, `table_measure.dfy`). The validator's span checks pass exactly
  when the spans tile the grid in row-major order; that tiling is unique, is what the compiler
  builds, and conserves every weight put on cells.
- **Version 2 visuals** (`visuals.dfy`, `composition_v2.dfy`). Every paragraph keeps its controls
  and gains the visuals located there, in order; pictures are counted exactly. The reported paragraph count is taken before visuals are attached, so it is right exactly when
  no visual is a text box.
- **Addresses** (`addressing.dfy`, `address_resolution.dfy`). Paths are a lawful lens over the
  document tree, and the walks for reading and writing find the same paragraphs; clearing stored
  XML along a path touches nothing else. Canonical shape runs keep every shape shown, but making
  them canonical a second time changes them, exactly when some stored place is given a new shape
  and then overwritten with the shape in force before it.
- **Bookmarks** (`bookmark_editor.dfy`, `bookmark_effects.dfy`). Inserting one succeeds exactly when
  some text at some depth has the anchor; it keeps all links and shapes, changes one paragraph and
  no other, and adds the name to the list exactly once, for names of up to 65535 UTF-16 units,
  and for no longer name does the stored name come back.
- **Codecs** (`base64.dfy`, `csv_text.dfy`, `png_filters.dfy`, `utf16.dfy`). Round trips on all inputs.
  For every byte sequence it is stated exactly when the two PNG decoders have the same outcome:
  they part on empty images, on rasters that are too long and on unknown filters. CSV tables are
  told apart exactly when no table has a blank row.
- **Raster metrics, publisher, certification** (`raster_match.dfy`, `publisher.dfy`,
  `manifest.dfy`, `evidence.dfy`, `xml_budget.dfy`). Summed-area lookups equal the brute-force
  test; publishing is all or nothing; the manifest's own size is a fixed point found within
  five rounds; sums and budgets are exact.

Where the code and its documentation differ, the model follows the code: the version 2 report
(`crates/hwp-cli/src/document_spec_v2.rs:293-313`), the canonical runs
(`crates/hwp-convert/src/segment_id.rs:108-132`) and the blank lines of the CSV export
(`crates/hwp-convert/src/csv.rs:3-6`).

## Layout

| files | what they model |
|---|---|
| `hwp_model`, `utf16`, `paragraph_builder`, `document_counts` | the document tree, its recursive statistics, paragraphs under construction |
| `document_spec`, `validator`, `styles`, `table_grid`, `table_measure` | specifications and what the validator accepts |
| `header`, `realization*`, `tidiness`, `tidy_fields`, `section_*`, `compile_steps`, `compile_limits`, `preparation`, `compiler`, `image_realization`, `composition` | the compiler and what its output realises |
| `visuals`, `composition_v2`, `asset_store` | version 2 |
| `addressing`, `address_resolution` | addresses |
| `text_search`, `bookmark_codec`, `bookmarks`, `bookmark_insertion`, `bookmark_effects`, `bookmark_editor` | bookmarks |
| `base64`, `csv_text`, `csv_tables`, `flat_grid`, `png_filters`, `raster_match`, `publisher` | codecs, raster metrics, publishing |
| `manifest`, `evidence`, `xml_budget` | certification |

A method of the source that loops or updates state is a method proved against a specification
function; what the source promises is then proved about that function. Objects that the
source updates in place (`Validator`, `Compiler`, the paragraph builder, the collector, the
asset store, the publisher) are classes. Counters that the source keeps in machine words are
natural numbers; where a word's width matters (the base64 accumulator, 16- and 32-bit
indices and counts, id tables, the evidence sums, the manifest total) it is written out.

## Model

| member | source | states |
|---|---|---|
| Composition.ComposeDocument | crates/hwp-cli/src/document_spec.rs:1646-1665 | Composing as a whole. A specification is rejected exactly when it breaks a rule of `SpecOk`; every other failure is explained by an image file, a table or the byte budget, and where tables and budget have room a document is composed exactly when the specification is accepted and all its images are usable; the composed document realises every block in place, shows every character of a text run with exactly the attributes its format sets, is tidy at every depth, leaves no field unresolved, and its reported sections, paragraphs, tables, images, equations and fields are the recursive counts over it; the section count never saturates |
| Composition.RealizedDocument | crates/hwp-cli/src/document_spec.rs:1754-1767 | From realisation alone: tidy sections, statistics equal to those of the specification, and at most 64 + 20,000 output sections, so `section_count` fits 16 bits |
| Composition.Prepare | crates/hwp-cli/src/document_spec.rs:1701-1752 | Before the first block: every style resolved and given a char shape, a para shape and a table entry that name it, every list level given its definition |
| Validation.Validator.Validate | crates/hwp-cli/src/document_spec.rs:600-826 | A fresh validator ends without an issue exactly when the specification meets `SpecOk` (names, references, budgets, spans, chains, pages); a page is as wide as its orientation says, whichever way its sides are given |
| Validation.Validator.ValidateTable | crates/hwp-cli/src/document_spec.rs:1420-1561 | No issue exactly when size, widths and first-fit span checks all hold, every row is full and the nested blocks are acceptable; cells and nested budgets are added up |
| Validation.Validator.ValidateRow | crates/hwp-cli/src/document_spec.rs:1495-1558 | One row of the span checks on the grid in place: what is reported decides whether the rows from here on are acceptable, and the grid marks exactly the placed cells |
| Validation.Validator.ValidateBlocks | crates/hwp-cli/src/document_spec.rs:1030-1264 | The nesting depth and every block are acceptable exactly when nothing is reported |
| Validation.Validator.ValidateSections | crates/hwp-cli/src/document_spec.rs:743-784 | Sections acceptable and their ids distinct exactly when nothing is reported |
| DocumentSpecs.CounterInside | crates/hwp-cli/src/document_spec.rs:726-731 | An ordered marker has its counter exactly when {n} stands somewhere in it |
| DocumentSpecs.PhysicalWidth | crates/hwp-cli/src/document_spec.rs:1627-1638 | The longer of the two given sides on a landscape page and the shorter on a portrait one |
| DocumentSpecs.SidesExchanged | crates/hwp-cli/src/document_spec.rs:1622-1638 | Exchanging the given sides of a page changes neither the width of its body nor whether it is acceptable |
| DocumentSpecs.BodyAcross | crates/hwp-cli/src/document_spec.rs:1622-1625 | Margins, gutter and body lie side by side across the page |
| TableGrid.AcceptedIffTileable | crates/hwp-cli/src/document_spec.rs:1495-1558 | The span checks pass exactly when the spans have a row-major exact tiling of the grid, and then first fit finds it: there is only one |
| TableGrid.FitsImpliesTiling | crates/hwp-cli/src/document_spec.rs:1495-1558 | A layout that passes covers every slot exactly once, in reading order, each cell in its own row |
| TableGrid.SkipOccupied | crates/hwp-cli/src/document_spec.rs:1500-1502 | The cursor stops at the first free column of the row |
| TableGrid.AnyOccupied | crates/hwp-cli/src/document_spec.rs:1530-1532 | The overlap scan reports exactly whether some slot of the rectangle is taken |
| TableGrid.Fill | crates/hwp-cli/src/document_spec.rs:1541-1543 | Filling a cell marks its slots and no other |
| TableMeasure.TilingConservesWeight | crates/hwp-cli/src/document_spec.rs:2503-2549 | Any weight added up per cell of an exact tiling equals the weight added up per slot |
| TableMeasure.TilingArea | crates/hwp-cli/src/document_spec.rs:2503-2549 | The sum of col_span * row_span over the cells is rows * columns |
| TableMeasure.TilingRowWidths | crates/hwp-cli/src/document_spec.rs:2498-2550 | The widths of the cells that cover a row add up to the width of the table, for every row |
| Tidiness.FrameIsExact | crates/hwp-cli/src/document_spec.rs:2492-2590 | A compiled table of a validated block is an exact tiling with consistent row counts, areas and widths |
| Tidiness.BlockTidy | crates/hwp-cli/src/document_spec.rs:2090-2170 | A compiled block of a validated specification is sound and exact throughout, nested tables included |
| Compilation.Compiler.NextFree | crates/hwp-cli/src/document_spec.rs:2510-2512 | The compiler's unchecked search never leaves the grid and finds the slot the validator found |
| Compilation.Compiler.CompileRow | crates/hwp-cli/src/document_spec.rs:2506-2549 | One row without span checks: its cells sit where the validated layout puts them, sized by the columns they span, and `row_cell_counts` is the number of cells anchored in the row |
| Compilation.Compiler.CompileTable | crates/hwp-cli/src/document_spec.rs:2492-2590 | A validated table compiles to a paragraph with one table that realises it, and one table more in the report |
| Realization.TableMeasures | crates/hwp-cli/src/document_spec.rs:2492-2590 | Columns are converted one by one; a height is 1700 units per line, at least one and at most what 31 bits hold |
| Styles.FindCycle | crates/hwp-cli/src/document_spec.rs:938-958 | The validator's walk reports a style exactly when its based_on chain never ends |
| Styles.CycleFreeIffChainEnds | crates/hwp-cli/src/document_spec.rs:938-958 | Never meeting a style twice is the same as the chain coming to an end |
| Styles.ValidatedStylesResolve | crates/hwp-cli/src/document_spec.rs:1824-1851 | Validated styles resolve without the cycle or not-found error, each of the fifteen fields to the nearest definition on the chain |
| Preparation.ResolveStyles | crates/hwp-cli/src/document_spec.rs:1769-1773 | All styles of a validated table resolve |
| Preparation.CompileStyle | crates/hwp-cli/src/document_spec.rs:1774-1820 | The shapes of a style are the base shapes with its resolved values laid over them, attribute by attribute; only a full table stops it |
| Preparation.CompileList | crates/hwp-cli/src/document_spec.rs:1853-1902 | Ordered lists share one numbering definition, its template per level the marker with the counter replaced, bullet lists get one definition per level; both can be looked up by the ids handed out, and only a full table stops it |
| Preparation.NumberingNumbers | crates/hwp-cli/src/document_spec.rs:1863-1874 | The definition of an ordered list has seven levels: start and template of the list where it has the level, 1 and the digit of the level with a full stop where it has none |
| Preparation.TemplateAt | crates/hwp-cli/src/document_spec.rs:1869-1872 | Wherever the marker has a counter, the template has the number of the level, between the templates of what stands before and behind it |
| Preparation.NoCounterLeft | crates/hwp-cli/src/document_spec.rs:1869-1872 | A template holds no counter: none is overlooked and none comes about by replacing |
| Headers.ShowsGrows | crates/hwp-cli/src/document_spec.rs:2704-2760 | A shape id keeps its meaning while fonts and shape tables grow |
| Headers.FindOrPush | crates/hwp-cli/src/document_spec.rs:2720-2760 | The entry is found or appended; it fails exactly when the table is full and the entry is new |
| Headers.StyledIsLaidOver | crates/hwp-cli/src/document_spec.rs:2616-2650 | A character shape is a style's exactly when each attribute is the value of the style where that is set and the base's where it is not, with the rule for the colour of a new underline |
| Headers.StyledParaIsLaidOver | crates/hwp-cli/src/document_spec.rs:2674-2702 | The same for paragraph shapes: alignment by its code, margins, spacing and line height |
| Headers.ListedIsNumbered | crates/hwp-cli/src/document_spec.rs:2287-2294 | A list item's shape differs from its base in head type, level and definition only |
| Headers.MmToHwp | crates/hwp-cli/src/document_spec.rs:2915-2917 | The nearest whole number of units, 7200 to 25.4 mm |
| Headers.PtToHwp | crates/hwp-cli/src/document_spec.rs:2919-2921 | The nearest whole number of units, 100 to a point |
| ParagraphBuilding.ParagraphBuilder.AppendControl | crates/hwp-cli/src/document_spec.rs:2809-2831 | Appends a control and the character that points at it; characters and controls stay paired in order |
| ParagraphBuilding.ParagraphBuilder.AppendField | crates/hwp-cli/src/document_spec.rs:2833-2869 | A field start in the shape before it, its text and end in the field's shape, one control more |
| ParagraphBuilding.FieldDataLayout | crates/hwp-convert/src/field.rs:587-596 | The control of a field: its data count the units of the name and hold exactly these |
| ParagraphBuilding.ParagraphBuilder.AppendText | crates/hwp-cli/src/document_spec.rs:2871-2882 | Text and tabs are appended in the shape in force |
| ParagraphBuilding.ParagraphBuilder.SetRunShape | crates/hwp-cli/src/document_spec.rs:2884-2900 | The next character gets the shape; earlier characters keep theirs |
| ParagraphBuilding.WithShapeKeeps | crates/hwp-cli/src/document_spec.rs:2884-2900 | Runs start at 0 and strictly increase within the text; positions before the change show what they showed, later ones the new shape |
| ParagraphBuilding.WidthsAreUnits | crates/hwp-model/src/paragraph.rs:114-120 | A text character is as wide as its UTF-16 encoding, a control character one unit or eight |
| CompileSteps.FrozenShapes | crates/hwp-cli/src/document_spec.rs:2203-2254 | Looking up any appended character in the finished runs gives the shape in force when it was appended |
| Compilation.Compiler.CompileRun | crates/hwp-cli/src/document_spec.rs:2203-2251 | One run: its characters, its control if it has one, the shapes asked for, and what it adds to the report |
| Compilation.Compiler.CompileParagraph | crates/hwp-cli/src/document_spec.rs:2171-2254 | A validated paragraph compiles to exactly its runs, in its style and list shape, every character in the shape its run asks for |
| Realization.TextShownAsAsked | crates/hwp-cli/src/document_spec.rs:2203-2254 | Every character of a text run is shown in a shape that has each attribute its format sets, exactly as set |
| Realization.StylesInOrder | crates/hwp-cli/src/document_spec.rs:2178-2185 | A run's own style counts first, then the paragraph's, then that of its list level |
| Compilation.Compiler.ResolveRunShape | crates/hwp-cli/src/document_spec.rs:2317-2335 | The shape of a run has every attribute its format sets, as set there, and the others as its style's shape has them |
| Compilation.Compiler.ListParaShape | crates/hwp-cli/src/document_spec.rs:2256-2298 | The paragraph shape of a list item, cached per base shape, list and level |
| Compilation.Compiler.LoadAsset | crates/hwp-cli/src/document_spec.rs:2428-2490 | A loaded asset leads to a stream with exactly the bytes of its file, through both caches; distinct contents are charged once; an error means an unusable file of the specification or too many bytes |
| Realization.AssetNameParts | crates/hwp-cli/src/document_spec.rs:2477 | A stream is named by the first sixteen digits of the digest and the extension of its file |
| Realization.ProportionsKept | crates/hwp-cli/src/document_spec.rs:2386-2392 | A height that is not given keeps the proportions of the pixels |
| Realization.EquationHolds | crates/hwp-cli/src/document_spec.rs:2337-2373 | An equation control holds its script and the sizes given, zero where none is |
| CompileLimits.FullTable | crates/hwp-cli/src/document_spec.rs:2720-2760 | A shape table that is full while a use still lacks its entry: the base entries, the styles and the distinct uses are more than fit |
| ImageRealization.SectionsImages | crates/hwp-cli/src/document_spec.rs:2428-2490 | What realises a specification has used only images that are usable, in every cell, header and footer |
| Compilation.Compiler.CompileBlock | crates/hwp-cli/src/document_spec.rs:2090-2170 | Each block but a section break gives exactly one paragraph that realises it, and is counted in the report |
| Compilation.Compiler.CompileSectionAnchor | crates/hwp-cli/src/document_spec.rs:1938-2039 | The first paragraph of a section: definitions, non-empty header and footer variants in order, page numbering |
| SectionRealization.AnchorData | crates/hwp-cli/src/document_spec.rs:2006-2036 | The bytes of the page number controls: the start in 16 bits, the position code, the first UTF-16 unit of the suffix; and those that say where a part applies |
| Compilation.Compiler.CompileSection | crates/hwp-cli/src/document_spec.rs:1904-1936 | One output section per chunk between section breaks, each starting with its own anchor |
| Compilation.Compiler.Compile | crates/hwp-cli/src/document_spec.rs:1754-1760 | All sections in order; the running report equals the statistics asked for |
| RealizationFacts.BlockCounted | crates/hwp-cli/src/document_spec.rs:2090-2254 | The recursive counts of a compiled block are those of its specification |
| SectionRealization.SectionsCounted | crates/hwp-cli/src/document_spec.rs:1754-1767 | The recursive counts of all sections, headers and footers included, are those of the specification |
| SectionRealization.OutputSectionsBounded | crates/hwp-cli/src/document_spec.rs:1759-1760 | Output sections are at most the specified sections plus the counted blocks |
| SectionRealization.DocumentTidy | crates/hwp-cli/src/document_spec.rs:1754-1767 | Every paragraph and table of a compiled document is well formed |
| HwpModel.LinkedResolves | crates/hwp-cli/src/certification.rs:1606-1617 | Characters paired with controls in order leave no field start without a control |
| TidyFields.SectionsResolve | crates/hwp-cli/src/certification.rs:1606-1617 | The unresolved-field count of a tidy document is 0 |
| DocumentCounts.CountSectionsIsStat | crates/hwp-cli/src/document_spec.rs:2923-2951 | The compiler's recursive paragraph count is the number of paragraphs at every depth |
| DocumentCounts.StatsCollector.CollectParagraph | crates/hwp-cli/src/certification.rs:1592-1667 | The collector adds the tables, pictures and unresolved fields of a paragraph, nested ones included, to its counters |
| DocumentCounts.CollectDocument | crates/hwp-cli/src/certification.rs:1576-1590 | A fresh collector ends with the counts over the whole document |
| CompositionV2.ComposeWithVisuals | crates/hwp-cli/src/document_spec_v2.rs:265-315 | With visuals: each outcome under its exact condition; the controls of every paragraph are those of the version 1 document followed by the visuals located there, in order; images, tables, equations and fields are reported as the document holds them, no location disappears, and the reported paragraphs are right exactly when no visual is a text box |
| Visuals.AttachedSound | crates/hwp-cli/src/document_spec_v2.rs:1076-1098 | Attaching a control keeps a paragraph sound exactly while it has fewer than 2^32 controls |
| Visuals.AttachedStats | crates/hwp-cli/src/document_spec_v2.rs:1076-1098 | Attaching adds exactly the statistics of the attached control |
| Visuals.AttachedPlaced | crates/hwp-cli/src/document_spec_v2.rs:1076-1098 | Attaching places one visual: its paragraph gains the control, all others keep theirs |
| Visuals.ControlDepicts | crates/hwp-cli/src/document_spec_v2.rs:968-1074 | A picture has the stream, sizes and placement of its visual; a text box has one paragraph per line whose characters spell the line |
| Visuals.ParagraphsAddedIffTextBox | crates/hwp-cli/src/document_spec_v2.rs:293-313 | Visuals add paragraphs exactly when one of them is a text box |
| Visuals.TextBoxAttached | crates/hwp-cli/src/document_spec_v2.rs:1018-1098 | Attaching a text box to any paragraph makes the document's paragraph count grow by the number of its lines |
| Visuals.TextBoxGrowsDocument | crates/hwp-cli/src/document_spec_v2.rs:293-313 | A native text box of one line attached to a document of one paragraph: the document has two, the report made before says one |
| Visuals.PoliciesCompared | crates/hwp-cli/src/document_spec_v2.rs:693-735 | Requiring and forcing lead to their own form or nothing, preferring falls back from one to the other and fails only for a text box in the binary format, and the other target's policy makes no difference |
| Visuals.Capabilities | crates/hwp-cli/src/document_spec_v2.rs:816-842 | What can be native: a plain image, and a text box in the zipped format; what can fall back: images and vector graphics |
| Visuals.VisualCompiler.CompileVisual | crates/hwp-cli/src/document_spec_v2.rs:700-735 | A visual is attached, behind the controls of exactly the paragraph it is located at, exactly when its policy leads to a representation and its media are there; each policy error under its exact condition |
| Visuals.LinesExactly | crates/hwp-cli/src/document_spec_v2.rs:1045-1056 | The lines of a text box are the one way to write its text as lines without line feeds |
| Visuals.VisualCompiler.CompileVisuals | crates/hwp-cli/src/document_spec_v2.rs:276-280 | Every paragraph gains the visuals located there, in order, and nothing else changes; the first visual at fault decides the error; the image count is the number of pictures added |
| AssetStores.AssetStore.ReadAsset | crates/hwp-cli/src/document_spec_v2.rs:386-422 | While no read has failed, the charge is the total length of the distinct contents, within budget; a path read before gives its first bytes at no charge; past the budget the bytes are not kept but stay charged |
| Addressing.FlatParagraph | crates/hwp-convert/src/address.rs:263-272 | The flat index counts through the concatenation of the lists |
| Addressing.FlatParagraphMut | crates/hwp-convert/src/address.rs:274-283 | The loop of the writing walk finds a flat index exactly where it exists and replaces that paragraph |
| Addressing.PutFlatIsPut | crates/hwp-convert/src/address.rs:274-283 | Writing a flat index writes the concatenation at that index |
| Addressing.Descend | crates/hwp-convert/src/address.rs:219-258 | The loop down the tree returns what the path leads to, and nothing for a path that leads nowhere |
| Addressing.WriteWalk | crates/hwp-convert/src/address.rs:297-320 | The writing walk, with its own bounds checks, succeeds exactly where reading finds a paragraph and changes that one |
| Addressing.ParagraphAtMut | crates/hwp-convert/src/address.rs:291-321 | A path can be written exactly when it can be read, and the write is the one below |
| Addressing.DocumentLens | crates/hwp-convert/src/address.rs:291-321 | Reading after writing gives what was written, writing what is there changes nothing, the last write counts |
| Addressing.DocumentElsewhere | crates/hwp-convert/src/address.rs:291-321 | A write changes no path that is neither a prefix nor an extension of its own |
| Addressing.DocumentDistinct | crates/hwp-convert/src/address.rs:219-258 | Distinct valid paths name distinct paragraphs |
| Addressing.BelowConcat | crates/hwp-convert/src/address.rs:219-258 | A longer path goes on from where a shorter one leads |
| Addressing.WriteBelow | crates/hwp-convert/src/address.rs:291-321 | A write below a path is a write into the paragraph there |
| Addressing.ClearingWalk | crates/hwp-convert/src/address.rs:342-376 | The clearing walk clears as it goes and stops where an index leads nowhere, for any indices |
| Addressing.InvalidateAncestors | crates/hwp-convert/src/address.rs:327-377 | Clearing by path computes the cleared document, for any path at all |
| Addressing.OnlyXmlCleared | crates/hwp-convert/src/address.rs:327-377 | Clearing along a path changes nothing but stored XML, at any depth |
| Addressing.InvalidatedHere | crates/hwp-convert/src/address.rs:352-370 | The control on the path loses its XML; its neighbours and its other fields stay |
| Addressing.InvalidatedAbove | crates/hwp-convert/src/address.rs:327-377 | Above the path, what is found is the old paragraph with the rest of the path cleared |
| Addressing.InvalidatedDocumentElsewhere | crates/hwp-convert/src/address.rs:327-377 | Every path that does not lie above the cleared one names the same paragraph as before |
| AddressResolution.Resolve | crates/hwp-convert/src/address.rs:132-198 | Each error exactly under its condition, a missing path exactly when the walk finds none; a resolved run lies within its boundaries, carries the id of its path and index, and the checksum part of an id that was asked for matches |
| AddressResolution.RunsDivideText | crates/hwp-convert/src/address.rs:164-174 | The canonical runs divide the text: every position lies in exactly one of them |
| AddressResolution.CanonicalShows | crates/hwp-convert/src/segment_id.rs:120-132 | Canonical runs strictly increase and show every position in the shape the stored runs do |
| AddressResolution.RunIsUniform | crates/hwp-convert/src/address.rs:161-197 | Every position of a resolved run is shown in the one shape of that run |
| AddressResolution.CanonicalRepeats | crates/hwp-convert/src/segment_id.rs:108-132 | Neighbouring canonical runs repeat a shape exactly when some stored place is given a new shape and then overwritten with the shape in force before it |
| AddressResolution.CanonicalTwice | crates/hwp-convert/src/segment_id.rs:108-132 | Canonicalising again changes the runs exactly under that condition on the stored runs |
| AddressResolution.CanonicalNotIdempotent | crates/hwp-convert/src/segment_id.rs:108-132 | Such a place: a run overwritten with the shape before it, whose canonical form is not canonical |
| BookmarkCodec.NameRoundTrip | crates/hwp-convert/src/bookmark.rs:93-124 | A name survives its control data exactly when it has at most 65535 UTF-16 units |
| BookmarkCodec.DecodedPrefix | crates/hwp-convert/src/bookmark.rs:93-124 | What comes back of any name: its first units, as many as the 16-bit count says |
| BookmarkCodec.CtrlDataLayout | crates/hwp-convert/src/bookmark.rs:116-124 | The ten fixed bytes, the 16-bit count of units and the units, each with its low byte first |
| Utf16.DecodeEncode | crates/hwp-convert/src/bookmark.rs:105-124 | Lossy UTF-16 decoding undoes encoding, surrogate pairs included |
| TextSearch.FindMatch | crates/hwp-convert/src/edit.rs:332-362 | The first occurrence of the anchor within text characters at or behind the start, with its WCHAR position |
| TextSearch.AdjustRuns | crates/hwp-convert/src/edit.rs:367-390 | Boundaries behind a replacement move, those inside it go, repeated places and shapes are left out |
| TextSearch.InsertionKeepsShapes | crates/hwp-convert/src/edit.rs:367-390 | An insertion keeps the shape of every position before it and, moved, of every position behind it |
| Bookmarks.RelinkedIsLinked | crates/hwp-convert/src/field.rs:716-724 | Relinking pairs every control character with the control in its place |
| Bookmarks.PairKept | crates/hwp-convert/src/bookmark.rs:158-179 | Every old control is still behind its old character after the insertion |
| Bookmarks.InsertionLinks | crates/hwp-convert/src/bookmark.rs:158-179 | After an insertion characters and controls are linked in order |
| BookmarkEditing.InsertionKeepsSound | crates/hwp-convert/src/bookmark.rs:158-179 | The paragraph stays sound and every old character keeps its shape |
| BookmarkEditing.PositionBehindAnchor | crates/hwp-convert/src/bookmark.rs:159-163 | The bookmark stands right behind the anchor, among the characters and in WCHARs |
| BookmarkInsertion.OwnNamesAfter | crates/hwp-convert/src/bookmark.rs:158-179 | The paragraph's bookmark names are the old ones with the new one at its place |
| BookmarkInsertion.SectionsKeep | crates/hwp-convert/src/bookmark.rs:182-225 | A document stays linked throughout and its bookmark list gains the name exactly once, at whatever depth the anchor is found |
| BookmarkEditing.ListBookmarks | crates/hwp-convert/src/bookmark.rs:30-77 | The list of names in order of appearance, nested paragraphs included |
| Bookmarks.NameOfMark | crates/hwp-convert/src/bookmark.rs:42-57 | The name of a mark is that in its control, and empty when it has none |
| BookmarkEffects.InsertedAtFirstMatch | crates/hwp-convert/src/bookmark.rs:182-225 | An insertion succeeds exactly when some paragraph at some depth has the anchor; the first such text, and no other, gets a mark right behind its first match |
| BookmarkEffects.NothingElseChanges | crates/hwp-convert/src/bookmark.rs:158-212 | Taking the mark and its control out of one paragraph gives the old document back, but for that paragraph's shape runs and layout hints and the stored XML of the objects around it |
| BookmarkEditing.CreateRec | crates/hwp-convert/src/bookmark.rs:182-212 | The recursive walk computes that insertion |
| BookmarkEditing.Editor.CreateBookmark | crates/hwp-convert/src/bookmark.rs:216-225 | It succeeds exactly when some text has the anchor; then the document is linked, has one bookmark more and is otherwise the same; otherwise it is unchanged |
| Base64.Encode | crates/hwp-convert/src/base64.rs:10-33 | The chunk loop gives the encoding of section 4 of RFC 4648 |
| Base64.EncodedLength | crates/hwp-convert/src/base64.rs:10-33 | Four characters for every three bytes begun |
| Base64.PaddingAtEnd | crates/hwp-convert/src/base64.rs:10-33 | Padding stands at the end only: two signs for one byte left over, one for two |
| Base64.Decode | crates/hwp-convert/src/base64.rs:36-63 | The loop with its 32-bit accumulator computes the exact bit stream |
| Base64.LowBits | crates/hwp-convert/src/base64.rs:50-60 | Only the low bits of the accumulator matter, so the high bits it drops are harmless |
| Base64.RoundTrip | crates/hwp-convert/src/base64.rs:10-63 | Decoding gives back every byte sequence, with whitespace inserted anywhere |
| Base64.DecodedIffValid | crates/hwp-convert/src/base64.rs:36-63 | Decoding fails exactly on a character that is neither in the table nor skipped |
| CsvText.RoundTrip | crates/hwp-convert/src/csv.rs:55-57 | Reading the written records back gives the fields, whatever they hold |
| CsvText.ReadEscaped | crates/hwp-convert/src/csv.rs:78-84 | An escaped field reads back as the field |
| CsvText.QuotedIfNeeded | crates/hwp-convert/src/csv.rs:78-84 | A field is quoted exactly when it has a comma, a quote or a line break, and else left as it is |
| CsvTables.ToCsv | crates/hwp-convert/src/csv.rs:10-60 | The text is the grids of all tables, nested ones included, in order of appearance, a blank line between each two |
| CsvTables.CellTextTrimmed | crates/hwp-convert/src/csv.rs:64-75 | The text of a cell is the text of its paragraphs, a space behind each, without whitespace at either end and with nothing else taken away |
| CsvTables.TextOfAt | crates/hwp-convert/src/csv.rs:64-75 | The text of a paragraph is its text characters in order, one by one |
| CsvTables.TablesReadBack | crates/hwp-convert/src/csv.rs:3-6 | Blank lines tell the tables apart exactly when no table has a blank row |
| CsvTables.EmptyColumnIsLost | crates/hwp-convert/src/csv.rs:43-59 | A one-column table with an empty row has such a row |
| PngFilters.DecodesFiltered | tools/pdf_parity.py:855-882 | Undoing the filters gives the image back for every size, channel count and choice of filters, in both decoders (section 9 of the PNG specification) |
| PngFilters.UnfilterRow | tools/pdf_parity.py:858-880 | One row undone in place; an unknown filter is refused |
| PngFilters.DecodeRows | tools/pdf_parity.py:843-882 | An image that is not empty, with a raster of exactly its length, decodes row by row; any other is refused |
| PngFilters.DecodeBuffer | tools/gen_effects_cases.py:952-977 | The single-buffer decoder, for rasters of any length: too short is an index error, otherwise it computes the rows of the prefix it needs, taking filters over 4 for 4 |
| PngFilters.DecodersAgree | tools/gen_effects_cases.py:952-977 | For every byte sequence and image size the two decoders have the same outcome exactly when the raster is too short, or the image is not empty, the raster has exactly its length and every filter is known |
| PngFilters.OverlongDisagree | tools/gen_effects_cases.py:952-977 | Bytes behind a good raster: one decoder refuses it, the other returns the image |
| PngFilters.UnknownFilterDisagree | tools/gen_effects_cases.py:965-975 | A filter over 4: one decoder refuses the raster, the other decodes it |
| PngFilters.Paeth | tools/gen_effects_cases.py:925-928 | The predictor is the neighbour closest to left + up - upper left; of neighbours equally close, left comes before up and up before upper left |
| PngFilters.FilteredBytes | tools/pdf_parity.py:858-880 | What each filter writes for a byte: the byte itself, or its difference to the left one, to the one above, to the floor of their mean, or to the predictor |
| RasterMatch.Prefix | tools/pdf_parity.py:949-962 | The table holds, for every corner, the ink of the rectangle up to it |
| RasterMatch.RectangleCounts | tools/pdf_parity.py:964-975 | Four corners give a count that is positive exactly when the rectangle has ink |
| RasterMatch.NearbyCount | tools/pdf_parity.py:964-975 | The lookups stay in the table and tell exactly whether there is ink within the radius |
| RasterMatch.CountMatches | tools/pdf_parity.py:977-989 | Both counters are the brute-force match counts |
| RasterMatch.WiderMatches | tools/pdf_parity.py:902-992 | A larger radius never loses a match |
| RasterMatch.ScoreLaws | tools/pdf_parity.py:979-992 | Scores lie between 0 and 1, grow with the radius and are 1 for equal regions |
| RasterMatch.PrecisionRecall | tools/pdf_parity.py:902-992 | Precision times the ink of ours is the ink matched; without ink it is 1 exactly if the other image has none either, else 0; recall the same the other way round, so swapping the images swaps them; too different sizes are refused |
| RasterMatch.MaskRowsPixel | tools/pdf_parity.py:934-947 | The mask has ink exactly where the image is darker than the threshold |
| Publishing.Publisher.Publish | tools/pdf_parity.py:1515-1544 | All or nothing: on success every name holds its staged content and nothing else changed; on failure the output directory is as before; it fails exactly for a missing staged file, an unsafe destination or a failing move |
| Publishing.Publisher.RollBack | tools/pdf_parity.py:1537-1544 | The rollback restores the output directory from any point of the loop |
| Manifest.FourthIsFixed | crates/hwp-cli/src/certification.rs:3051-3080 | The fourth size states itself, for all files |
| Manifest.BuildManifest | crates/hwp-cli/src/certification.rs:3043-3080 | The decimal number right behind the first part of the frame stands for the length of the manifest, the one right behind the middle part for the total with it, and the rest is the frame; `did not converge` is unreachable; each other error exactly under its condition |
| Manifest.RenderedStates | crates/hwp-cli/src/certification.rs:3056-3071 | The text states the manifest's length before the total |
| Manifest.DecimalValue | crates/hwp-cli/src/certification.rs:3057-3070 | The decimal numbers in the text stand for the numbers they state |
| Evidence.PerCode | crates/hwp-cli/src/certification.rs:2201-2210 | The map adds up exactly, per code and in total, and no addition overflows |
| Evidence.Evaluate | crates/hwp-cli/src/certification.rs:2169-2232 | Accepted evidence has the exact total, at most 1000 * 1000000, and passes exactly within budget |
| Evidence.OrderIrrelevant | crates/hwp-cli/src/certification.rs:2201-2218 | The order of events changes neither total nor verdict |
| Evidence.EvaluatedIsConsistent | crates/hwp-cli/src/certification.rs:2282-2296 | Such a section never trips the later report invariant |
| XmlBudget.ReadPackage | crates/hwp-cli/src/certification.rs:1268-1281 | A package is accepted exactly when every entry is readable, balanced and shallow and all nodes together are within budget |
| XmlBudget.Preflight.ReadEntry | crates/hwp-cli/src/certification.rs:1304-1348 | One entry: accepted exactly when well formed and within what is left of the budget |

## Left out

- Floating point: lengths are exact reals, rounded where the source rounds; NaN, infinities and
  the rounding of sums and quotients are not modelled, nor is the conversion of region corners
  to pixels, whose integer bounds are taken as given.
- Issue paths and messages, which of its codes an issue carries, which of several failures the XML
  preflight reports, parsing of JSON and YAML, colours (taken as parsed), and the checks on
  parsed input sizes.
- The saturating `usize` counters of the validator are exact here; they differ only past 2^64.
- Image files arrive with digest, extension and pixel size; the digest is taken to tell contents
  apart, and an asset path says whether its components are normal. The asset sandbox, sizes of
  single files and symbolic links are outside.
- The base document with which the compiler starts is a parameter with at least one character
  shape and three paragraph shapes.
- Page definitions, metadata, payload bytes of control characters, margins and captions of tables
  and pictures: fields of the document model that only pass through.
- Ids in the order in which maps are walked: styles and lists are prepared in any order.
- `ensure_font` caps font ids at 65535; shapes are stated through the capped id.
- Composition.ComposeDocument: the intermediate paragraph count of the report is replaced at the end, as in the source, and only the final one is stated. Room in the tables is sufficient, not necessary: equal shapes of different uses, and equal contents under different paths, are counted apart, and every bullet list as seven levels.
- DocumentCounts.StatsCollector.CollectParagraph: only tables, pictures and unresolved fields; links, shapes, descriptions, styles and numbering are collected beside them in the source.
- DocumentCounts.CollectDocument: the same three counts, over the whole document.
- Version 2: rendering of vector graphics, transformation of images, streams of attached pictures,
  drawing of text boxes (size, fill, border) and table placement; a visual carries the stream its picture will refer to. Checks of visuals
  other than their number and locations are one flag.
- AddressResolution.Resolve: how ids are hashed is a parameter; only their checksum part is compared.
- The `&mut` walks of the address resolver and the bookmark editor replace values in the tree
  here; aliasing is not modelled.
- Indices that `relink_ctrl_index` counts in 32 bits are natural numbers.
- `adjust_runs` computes its runs for any replacement; what they show is proved for insertions,
  which is all a bookmark needs.
- PNG containers, decompression, interlacing and the conversion to grey; the raster arrives
  as bytes.
- Publishing.Publisher.Publish: a failure is a move that does not happen, rollback steps do not fail, an interruption between a move and its bookkeeping is not modelled, names are distinct plain names and staged entries are plain files.
- Manifest.BuildManifest: the rendered JSON around the two numbers is a frame that depends on the files only; its text is taken as ASCII.
- XML events arrive from the reader; attribute scanning, macros and external links are outside.
- CSV: the reader is that of section 2 of RFC 4180 for texts whose lines end in a line feed.
- Certificates, checks of rendered pages, receipts, markdown, DOCX, ODT, HTML, forms, merging and
  all command-line and server code.
