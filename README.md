# DoGe colour-tagging pipeline in Dafny

DocumentGenerator_DoGe builds synthetic document images with word-level bounding boxes. It fetches Wikipedia pages and rebuilds each page as a Word document. Every word gets its own fill and text colour from a colour table. The document is rendered, and the coloured rectangles on the rendered pages are matched back to their words through the colour-to-word registry. The colours are then stripped and the same document is rendered again, so the clean pages keep the layout the boxes were read from. Each page is augmented and saved with its annotation. Worker processes write into staging folders, and a final pass merges these into one numbered dataset.

This project models the deterministic bookkeeping of that pipeline and proves properties of it:

- `Colors` (src/docx_document.py `_init_colors`, original.py `__init_different_colors`): the colour table, built by the three nested loops as a cumulative mod-256 recurrence. It also covers the `'#{:02x}{:02x}{:02x}'` formatter and the `int(_, 16)` parser.
- `TextSplit` and `DocxWords` (src/docx_document.py): bracket removal, whitespace tokenising, the spacing rule of `add_words`, and the word-by-word placement of coloured runs.
- `DocxDocumentModel` (src/docx_document.py): the `DocxDocument` class. Its colour cursor and registry are fields, its paragraphs and tables are sequence fields, and it covers `add_text`, `add_heading`, the table size gate, `convert_to_uncolored_docx` and `get_num_words`.
- `DocumentGeneratorModel` (src/document_generator.py): the contour filter and colour lookup of `get_bboxes`, the word budget of `create_doc`, the box remap around augmentation, the numbered output files, and the sequential `generate_`.
- `BoxUtils` (src/utils.py): the box conversions and normalisation.
- `ManagerModel` (src/manager.py): the URL chunk partition, the port pairing, annotation validation, and the merge over an abstract file system.
- `UrlParserModel` (src/url_parser.py): the URL filter and the breadth-first link collection.
- `TestAugModel` (test_aug.py): the even-index box filter and the coordinate swap.
- `LegacyModel` (original.py): the single-process `WikiDatasetGenerator`.
- `Common` and `FileStore`: shared datatypes (errors, `Result`, `Option`) and the file system as a map from (folder, name) to contents.

Where the source changes state in place, the model is a class whose methods carry `modifies` clauses. These are `DocxDocument`, `DocumentGenerator`, `Manager` and `WikiDatasetGenerator`. Each such method is proved against a function of the old state, and the properties are lemmas about those functions. Rendering, contour detection, augmentation, fetching and link extraction are parameters of the model: functions the caller supplies.

The description and the code disagree in a few places. The model follows the code:
- The description gives the side of the colour table as `ceil(capacity^(1/3)) + 1`. The code takes `int(...) + 1`, a floor. Here the side is a parameter either way.
- The description promises that no colour is handed out twice. The table does repeat (see below).
- The description leaves URL collection to an outside collaborator. It is modelled here because the pipeline's input list comes from it.

## Behaviour the proofs pin down

- The colour table is not made of distinct colours. With side 8, the side a word budget of 400 gives (`int(400 ** (1/3)) + 1`), entries 219 and 292 are both `#14c4fa` (`Colors.ColorTableRepeats`). Two words can then share a fill. The registry keeps the later word, so the earlier word's rectangles are annotated with the wrong text.
- The language test of `is_valid_url` holds for any host once some language string occurs in "wikipedia.org". "or", the Odia code, does (`UrlParserModel.LanguageInHostName`, `UrlParserModel.OrInWikipedia`).
- The merge sorts names as strings, so `im_10.png.json` is merged before `im_2.png.json` (`ManagerModel.MergeOrderNotNumeric`). Dataset numbers therefore do not follow worker page order.
- The legacy `init_doc` never clears `color2word`. A colour not reached on the current page still maps to a word of an earlier page (`LegacyModel.PipelineKeepsRegistry`).
- In the legacy pipeline, a page whose request does not return 200 is still rendered and saved, as an empty document (`LegacyModel.PipelineSpec`). A request that raises ends that URL before anything is written (`LegacyModel.PipelineCounts`). The current `create_doc` returns before any write (`DocumentGeneratorModel.CreateSpecBadResponse`).
- In the legacy save loop, more images than annotation lists raise IndexError after the first image without annotations is written, and its `.json` file is left empty (`LegacyModel.LegacySaveOutcome`).
- The legacy `parse_urls` keeps the URLs it reached in the generator's `urls` field even when it returns None or raises (`LegacyModel.WikiDatasetGenerator.ParseUrls`, `LegacyModel.LegacyCrawlReach`).
- The word budget can be exceeded by the words of one element (`DocumentGeneratorModel.BuildSpecBudget`).

## Model

| member | source | states |
|---|---|---|
| Common.DecimalString | src/manager.py:136-137 | `str(n)` of a counter is a non-empty string of decimal digits, two or more of them exactly when n >= 10 |
| Common.DecimalStringInjective | src/manager.py:136-137 | different counters print as different decimal strings, so `image_{counter}` names never repeat |
| Common.ContainsWitness | src/url_parser.py:40-43 | `sub in s` holds only when `sub` occurs at some offset of `s` |
| Common.ContainsAt | src/url_parser.py:40-43 | an occurrence of `sub` at any offset makes `sub in s` true |
| FileStore.NamesDistinct | src/document_generator.py:116-132 | `im_{n}.png` and `im_{n}.png.json` are different for different n, an image name is never an annotation name, and dropping the last five characters of the annotation name gives the image name |
| BoxUtils.ConvertXywhToCorners | src/utils.py:6-8 | one box out per box in, in order, with the first corner equal to the (x, y) of the input |
| BoxUtils.ConvertCornersToXywh | src/utils.py:17-19 | one box out per box in, in order, with (x, y) equal to the first corner of the input |
| BoxUtils.NormalizeBoxes | src/utils.py:28-30 | one normalised box per box; a zero width or height raises ZeroDivisionError exactly when the list is non-empty, and an empty list comes back empty |
| BoxUtils.UnnormalizeBoxes | src/utils.py:39-41 | one unnormalised box per box |
| BoxUtils.CornersRoundTrip | src/utils.py:6-25 | xywh-to-corners and corners-to-xywh undo each other, in both orders |
| BoxUtils.NormalizeRoundTrip | src/utils.py:28-47 | for a non-zero width and height, normalising succeeds and normalising and unnormalising by the same size undo each other, in both orders |
| BoxUtils.NormalizeInUnitSquare | src/utils.py:28-30 | a box whose coordinates lie inside the page normalises into the unit square |
| TestAugModel.EvensSpec | test_aug.py:60 | the filter keeps ceil(m/2) boxes and the t-th kept box is box 2t, so order is kept |
| TestAugModel.SuppressCount | test_aug.py:59-60 | boxes are left alone unless more came back than went in; otherwise ceil(m/2) remain, which need not restore the input count (2 in, 5 out gives 3) |
| TestAugModel.OrderCorners | test_aug.py:81-84 | after the swaps x1 <= x2 and y1 <= y2, and each axis keeps its pair of values |
| TestAugModel.Rectangles | test_aug.py:64-86 | one rectangle per box, in order, each ordered and made of the box's own x values and y values |
| Colors.TwoHexRoundTrip | src/docx_document.py:93 | `{:02x}` of a channel is two lower-case hex digits that `int(_, 16)` reads back as the channel |
| Colors.FormatHex | src/docx_document.py:93 | definition: `#` and two lower-case hex digits per channel |
| Colors.ParseHex | src/docx_document.py:209 | definition: the three two-digit fields after `#` read base 16, None where `int(..., 16)` raises |
| Colors.ParseFormatHex | src/docx_document.py:93 | formatting a colour as '#' and three two-digit hex pairs and parsing the pairs at offsets 1, 3, 5 (as line 209 does) gives the colour back, and the string is well formed |
| Colors.FormatParseHex | src/docx_document.py:85-93 | formatting a parsed well-formed colour string gives the same string back |
| Colors.FormatHexInjective | src/document_generator.py:159-161 | different colours format to different strings, so a registry keyed by colour strings tells colours apart |
| Colors.IndicesOf | src/docx_document.py:81-83 | the pass numbered i*x*x + j*x + k of the three nested loops runs with loop indices (i, j, k) |
| Colors.IndicesDecompose | src/docx_document.py:81-83 | every pass number splits into loop indices (i, j, k) with j and k below x |
| Colors.Acc | src/docx_document.py:85-94 | definition: the colour of pass n is the previous one (black before pass 0) bumped by that pass's loop indices, each channel mod 256 |
| Colors.ColorTable | src/docx_document.py:77-95 | definition: the formatted colours of passes 0 to x^3 - 1 |
| Colors.ColorTableShape | src/docx_document.py:77-95 | the table has x^3 entries and its first entry is "#000000" |
| Colors.InitColors | src/docx_document.py:77-95 | the nested loops build exactly the table (each colour the previous one with channels advanced by i, j, k mod 256), x^3 well-formed colour strings |
| Colors.TablePrefixStep | src/docx_document.py:85-94 | one pass of the inner loop: the previous colour string parses, and appending its bumped colour extends the table prefix by one entry |
| Colors.TableUpToEntries | src/docx_document.py:77-95 | entry n of the table is the formatted n-th colour of the recurrence |
| Colors.AccClosedForm | src/docx_document.py:85-94 | the n-th colour of the recurrence has channels equal to the running sums of i, j and k reduced mod 256 |
| Colors.PrevIndices | src/docx_document.py:81-83 | the pass before (i, j, k) is (i, j, k-1), or (i, j-1, x-1) at a row start, or (i-1, x-1, x-1) at a block start |
| Colors.StepInner | src/docx_document.py:90-92 | within a row the running sums grow by i, j and k |
| Colors.StepMiddle | src/docx_document.py:90-92 | at a row start the running sums grow by i, j and 0 |
| Colors.StepOuter | src/docx_document.py:90-92 | at a block start the running sums grow by i, 0 and 0 |
| Colors.ColorTableRepeats | src/docx_document.py:77-95 | the table is not made of distinct colours: for side 8 (512 entries) entries 219 and 292 are both "#14c4fa" |
| Colors.ClosedValues | src/docx_document.py:90-92 | passes (3, 3, 3) and (4, 4, 4) of side 8 yield the same channels (20, 196, 250) |
| TextSplit.CloseFrom | src/docx_document.py:164 | the lazy `.*?\]` after a '[' stops at the first ']' on the same line, and finds none only when every ']' is preceded by a newline |
| TextSplit.StripBrackets | src/docx_document.py:164 | removing bracketed segments never lengthens the text |
| TextSplit.StripBracketsNoOpen | src/docx_document.py:164 | text without '[' is left unchanged |
| TextSplit.StripBracketsComplete | src/docx_document.py:164 | after the substitution no '[' is followed by a ']' on the same line |
| TextSplit.StripBracketsFixed | src/docx_document.py:164 | text with nothing left to match is a fixed point of the substitution |
| TextSplit.StripBracketsIdempotent | src/docx_document.py:164 | applying the substitution twice gives the same result as once |
| TextSplit.FirstSpaceSpec | src/docx_document.py:165 | the split point is the first whitespace character, and nothing before it is whitespace |
| TextSplit.SkipSpacesSuffix | src/docx_document.py:165 | skipping a whitespace run leaves a suffix of the text and drops only whitespace |
| TextSplit.SplitWs | src/docx_document.py:165 | `re.split(r'\s+', t)` always gives at least one piece |
| TextSplit.SplitWsSpaceFree | src/docx_document.py:165 | no piece of the split contains whitespace |
| TextSplit.SplitWsFlatten | src/docx_document.py:165 | the pieces joined back together are the text with all whitespace removed, so splitting loses nothing but whitespace |
| TextSplit.NonEmpty | src/docx_document.py:167-168 | the `if word:` filter keeps only non-empty pieces and never adds any |
| TextSplit.NonEmptyAppend | src/docx_document.py:167-168 | filtering distributes over concatenation |
| TextSplit.TokensSpec | src/docx_document.py:165-168 | every word visited is non-empty and free of whitespace, and the words joined together are the text minus its whitespace |
| TextSplit.TokensSkipSpaces | src/docx_document.py:165-168 | leading whitespace gives an empty first piece, which is skipped |
| TextSplit.TokensWord | src/docx_document.py:165-168 | a non-empty string without whitespace is one word |
| TextSplit.TokensSplitAt | src/docx_document.py:165-168 | a whitespace character separates words: the words of a + c + b are the words of a followed by those of b |
| TextSplit.LStripSpec | src/docx_document.py:136 | the left strip removes a whitespace prefix and leaves a string that does not start with whitespace |
| TextSplit.RStripSpec | src/docx_document.py:136 | the right strip removes a whitespace suffix and leaves a string that does not end with whitespace |
| TextSplit.StripSpec | src/docx_document.py:136 | `cell.text.strip()` is a slice of the text with only whitespace removed at both ends, and with no whitespace at either end |
| DocxWords.WordRunColor | src/docx_document.py:189-209 | a word tagged with a colour of the table carries that colour string as its shading fill and, read back as RGB, that colour as its font colour |
| DocxWords.PlaceWord | src/docx_document.py:167-187 | one loop iteration keeps a non-empty previous word |
| DocxWords.PlaceAll | src/docx_document.py:163-187 | the loop keeps a non-empty previous word |
| DocxWords.TaggedTextsAppend | src/docx_document.py:175-177 | the tagged texts and fills of appended runs are those of each part, in order |
| DocxWords.PlaceAllFailed | src/docx_document.py:190 | once `colors[color_ptr]` has raised, the rest of the loop changes nothing |
| DocxWords.PlaceWordTagged | src/docx_document.py:169-184 | one word with a colour left: the cursor advances by one, the word becomes the previous word, the separator runs and the tagged run are appended, and the metadata maps the colour to the word |
| DocxWords.PlaceWordTexts | src/docx_document.py:175-177 | the run added for a word carries the word and the next colour of the table |
| DocxWords.PlaceAllCount | src/docx_document.py:164-192 | colouring succeeds exactly when the non-empty tokens do not outnumber the colours left; then the cursor moves by the token count, otherwise it stops at the end of the table |
| DocxWords.PlaceAllTexts | src/docx_document.py:167-187 | with enough colours, the tagged runs carry exactly the non-empty tokens in order, and the returned word is the last token or the incoming `prev_word` when there is none |
| DocxWords.PlaceAllFills | src/docx_document.py:175-201 | with enough colours, the tagged runs carry the next colours of the table in order, one per token |
| DocxWords.PlaceAllRuns | src/docx_document.py:167-187 | the runs appended are, word by word, the separator (four spaces when `first_word`, one otherwise, none when the word opens with a closing mark or the previous word ends with an opening one) followed by the tagged word run |
| DocxWords.ExpectedRunsCons | src/docx_document.py:169-175 | the runs for a word followed by more words are its separator and tagged run, then the runs of the rest with the word as previous word |
| DocxWords.PlaceAllMetadata | src/docx_document.py:166-177 | the returned metadata records each token under the colour it was given, in order |
| DocxWords.RegisterKeys | src/docx_document.py:177 | the metadata keys are the old keys plus the colours used |
| DocxWords.RegisterLastWins | src/docx_document.py:177 | the word recorded for a colour is the last word given that colour |
| DocxWords.RegisterUntouched | src/docx_document.py:177 | a key that no later word's colour hits keeps its word |
| DocxWords.RegisterCollision | src/docx_document.py:177 | when two words get the same colour, the earlier word is lost from the registry, here and in the document-level `update` of line 121 |
| DocxDocumentModel.AddWordsKeys | src/docx_document.py:163-192 | `add_words` only moves the cursor forward, never past the colour list, and on success every metadata key is a colour already handed out |
| DocxDocumentModel.ChildrenSpecStep | src/docx_document.py:157-161 | one child of `add_text`: on success the loop goes on with the next child, the metadata merged into the registry and the returned word as previous word; on failure it ends there |
| DocxDocumentModel.ChildrenSpec | src/docx_document.py:157-161 | definition: the children of a paragraph from child i on, the first-word flag only on child 0; a child's colours are registered after its words are placed, and a child that runs out of colours ends the loop unregistered |
| DocxDocumentModel.TextSpec | src/docx_document.py:153-161 | definition: a new Normal paragraph holding the runs of the children's words, the colours of every child that finished registered |
| DocxDocumentModel.WordsOfPieces | src/docx_document.py:164-168 | the pieces `add_words` keeps are the words of the text |
| DocxDocumentModel.ChildrenSpecCount | src/docx_document.py:157-161 | the children loop fails exactly when the children's words outnumber the colours left, and on success the cursor moves by the word count |
| DocxDocumentModel.ChildStep | src/docx_document.py:157-161 | with enough colours, one child places exactly its words with the next colours, and the loop continues from the next child |
| DocxDocumentModel.ChildrenSpecTexts | src/docx_document.py:157-161 | when the loop succeeds the paragraph's tagged runs gain exactly the children's words, in order |
| DocxDocumentModel.ChildrenSpecFills | src/docx_document.py:157-161 | when the loop succeeds the tagged runs gain the next colours of the table, in order |
| DocxDocumentModel.TextSpecWords | src/docx_document.py:153-161 | `add_text` appends exactly one Normal paragraph and leaves the rest alone; it succeeds exactly when the words fit in the colours left, and then the paragraph's tagged runs are the words with the next colours |
| DocxDocumentModel.ChildrenSpecInv | src/docx_document.py:157-161 | the loop keeps the cursor inside the colour list and every registered colour among those handed out |
| DocxDocumentModel.RegistryGrows | src/docx_document.py:192 | registered colours stay among those handed out when the cursor advances |
| DocxDocumentModel.TextSpecInv | src/docx_document.py:153-161 | `add_text` keeps the bookkeeping invariant |
| DocxDocumentModel.HeadingSpecWords | src/docx_document.py:111-127 | a heading that is not skipped appends a heading paragraph of its level carrying exactly the words, coloured with the next colours, then an empty Normal paragraph; it succeeds exactly when the words fit |
| DocxDocumentModel.HeadingSpec | src/docx_document.py:111-127 | definition: skipped right after a heading and for "Contents"; else a heading paragraph with the words, then an empty Normal paragraph |
| DocxDocumentModel.ConsecutiveHeadingSkipped | src/docx_document.py:115-116 | a heading right after a heading is skipped, because the paragraph before the last is then a heading |
| DocxDocumentModel.HeadingSpecInv | src/docx_document.py:111-127 | `add_heading` keeps the bookkeeping invariant |
| DocxDocumentModel.MaxLenSpec | src/docx_document.py:140 | `max(len(row) for row in parsed_table)` is at least every row's length and equal to one of them |
| DocxDocumentModel.CellsSpecShape | src/docx_document.py:146-149 | the cell loops touch only the last table's cells, keeping its borders, size and shape, the paragraphs and the other tables |
| DocxDocumentModel.CellsSpec | src/docx_document.py:146-149 | definition: cells from (i, j) on in row-major order, each holding the runs of its words and registering their colours; running out of colours raises |
| DocxDocumentModel.TableSpec | src/docx_document.py:129-149 | definition: no rows raises, a table over the size limits is skipped, otherwise a white-bordered table with every cell filled |
| DocxDocumentModel.CellsSpecRegistry | src/docx_document.py:146-149 | the cell loops keep the cursor inside the colour list and every registered colour among those handed out |
| DocxDocumentModel.TableSpecShape | src/docx_document.py:129-149 | no rows raises (the `max` of an empty sequence); a table over either limit leaves the document unchanged; otherwise one table is appended with white borders, one row per HTML row and as many columns as the widest row |
| DocxDocumentModel.CellsSpecOk | src/docx_document.py:146-149 | the cell loops end with success or with the exhaustion error and nothing else |
| DocxDocumentModel.TableSpecInv | src/docx_document.py:129-149 | `add_table` keeps the bookkeeping invariant |
| DocxDocumentModel.UncolorRunsSpec | src/docx_document.py:251-258 | the strip pass keeps the number of runs and every text and format, makes every font black, keeps which runs have a shading element and sets those fills to "#FFFFFF" |
| DocxDocumentModel.Uncolor | src/docx_document.py:254-258 | definition: black font, and a white fill exactly where the run had a shading element |
| DocxDocumentModel.UncolorRuns | src/docx_document.py:253-258 | definition: every run of a list stripped, in order |
| DocxDocumentModel.UncolorParagraph | src/docx_document.py:252-258 | definition: a paragraph with its runs stripped and nothing else changed |
| DocxDocumentModel.UncolorTable | src/docx_document.py:260-269 | definition: a black border element appended and every cell's runs stripped |
| DocxDocumentModel.UncolorIdempotent | src/docx_document.py:251-269 | stripping twice gives the same as stripping once |
| DocxDocumentModel.UncolorHidesRegistry | src/docx_document.py:251-269 | after the strip pass no fill is a registered colour, since fills are white and registered keys are colour strings of the table |
| DocxDocumentModel.UncolorKeepsTagged | src/docx_document.py:251-269 | the strip pass keeps the tagged texts and turns every tagged fill white |
| DocxDocumentModel.ParseTable | src/docx_document.py:130-137 | the parsed table has one row per HTML row and one stripped text per cell |
| DocxDocumentModel.UncolorRunList | src/docx_document.py:253-258 | the run loop strips each run in place, in order |
| DocxDocumentModel.UncolorTableCells | src/docx_document.py:260-269 | the table loop appends a black border element and strips every cell's runs |
| DocxDocumentModel.DocxDocument.constructor | src/docx_document.py:25-33 | a new document has the colour table of side x, an empty registry, the cursor at 0 and no content |
| DocxDocumentModel.DocxDocument.ColorWord | src/docx_document.py:189-192 | `color_word` returns `colors[color_ptr]` and advances the cursor by exactly one; past the end it raises and the cursor stays |
| DocxDocumentModel.DocxDocument.AddWords | src/docx_document.py:163-187 | the method's runs, previous word, metadata and cursor are those of the `add_words` description |
| DocxDocumentModel.DocxDocument.AddText | src/docx_document.py:153-161 | the new document state and outcome are those of the `add_text` description, and the invariant is kept |
| DocxDocumentModel.DocxDocument.AddChildren | src/docx_document.py:155-161 | the children loop computes the runs, cursor, registry and outcome of the description, with `prev_word` starting as " " |
| DocxDocumentModel.DocxDocument.AddChild | src/docx_document.py:158-161 | one turn of the loop: `first_word` only for child 0, and the registry updated only on success |
| DocxDocumentModel.DocxDocument.AddHeading | src/docx_document.py:111-127 | the new document state and outcome are those of the `add_heading` description, and the invariant is kept |
| DocxDocumentModel.DocxDocument.AddTable | src/docx_document.py:129-149 | the new document state and outcome are those of the `add_table` description, and the invariant is kept |
| DocxDocumentModel.DocxDocument.AddCells | src/docx_document.py:146-149 | the nested cell loops compute the state of the row-major description |
| DocxDocumentModel.DocxDocument.AddCell | src/docx_document.py:147-149 | one cell: on success the loops continue with the next cell, on failure they end with the exhaustion error |
| DocxDocumentModel.DocxDocument.ConvertToUncolored | src/docx_document.py:251-269 | every paragraph and every table is replaced by its stripped copy, and nothing else changes |
| DocxDocumentModel.NumWordsBound | src/docx_document.py:271-272 | `get_num_words` never exceeds the number of colours handed out |
| DocumentGeneratorModel.ApplyCons | src/document_generator.py:84-90 | applying the first j elements is applying the first one, then the next j-1 |
| DocumentGeneratorModel.ElementSpec | src/document_generator.py:85-90 | definition: headings go to `add_heading`, tables to `add_table`, every other element to `add_text` |
| DocumentGeneratorModel.BuildSpec | src/document_generator.py:84-93 | definition: the elements in order, stopping at the first error or right after the element that takes the word count over `max_words` |
| DocumentGeneratorModel.BuildSpecBudget | src/document_generator.py:84-93 | for any per-element step (in particular `create_doc`'s): when the loop ends without error after k elements, the document is the first k elements applied in order, each of them succeeded, the word count stayed within `max_words` after every element before the k-th, and the loop stopped early only because the k-th element took the count over the budget, so the budget can be overshot by one element |
| DocumentGeneratorModel.ElementSpecInv | src/document_generator.py:85-90 | each element kind keeps the document's bookkeeping invariant |
| DocumentGeneratorModel.BuildSpecInv | src/document_generator.py:84-93 | the whole element loop keeps the bookkeeping invariant |
| DocumentGeneratorModel.AddElement | src/document_generator.py:85-90 | an `h*` element goes to `add_heading`, a table to `add_table` and anything else to `add_text`; the new state is that element's step |
| DocumentGeneratorModel.BuildStep | src/document_generator.py:84-93 | from element i on, the loop is element i followed by the budget check and the rest |
| DocumentGeneratorModel.ContinueShifted | src/document_generator.py:84-93 | counted from element i: an error ends the loop, a word count over the budget ends it after i+1 elements, and otherwise it goes on with element i+1 |
| DocumentGeneratorModel.AddElements | src/document_generator.py:84-93 | the element loop leaves the document and the element count of the loop description |
| DocumentGeneratorModel.AddStep | src/document_generator.py:84-93 | one element and its budget check: either the loop ends here with its final result, or it continues from the next element |
| DocumentGeneratorModel.Kept | src/document_generator.py:148-162 | the contours kept are among the input, in order, and each has four vertices and a registered colour |
| DocumentGeneratorModel.Extract | src/document_generator.py:148-169 | definition: the contours in order, each four-vertex one whose sampled colour is registered giving its word and its box divided by the page size |
| DocumentGeneratorModel.KeptAppend | src/document_generator.py:148-162 | filtering a concatenation filters each part |
| DocumentGeneratorModel.ExtractIsKept | src/document_generator.py:141-169 | the contour loop emits, in order, the registry word and the normalised corner box of each kept contour, so words and boxes have the same length |
| DocumentGeneratorModel.KeptMembers | src/document_generator.py:152-160 | a contour is kept exactly when it is in the input, has four vertices and has a registered colour |
| DocumentGeneratorModel.ColorDecodes | src/document_generator.py:158-162 | a four-vertex contour whose sampled pixel is a registered colour yields that colour's word on its page |
| DocumentGeneratorModel.CornerBoxSpec | src/document_generator.py:163-169 | the emitted box is the xywh rectangle converted to corners and normalised by the page size, and lies in the unit square when the rectangle lies in the page |
| DocumentGeneratorModel.TruncSpec | src/document_generator.py:121 | `astype(int)` truncates toward zero: it stays within one of the value, below it for positive values and above it for negative ones |
| DocumentGeneratorModel.RenormIsUtils | src/document_generator.py:121-129 | the output column arithmetic is truncation, then corners-to-xywh, then `normalize_bboxes` by the page size, which succeeds there since page sizes are positive |
| DocumentGeneratorModel.SaveFromCounter | src/document_generator.py:101-134 | the page loop raises the counter once per annotation written, by the page count when no page fails, and never removes a file |
| DocumentGeneratorModel.SaveFrom | src/document_generator.py:101-134 | definition: from page i on, the page's annotation remapped and augmented, the image saved as `im_{n}.png`, then its renormalised boxes and words as `im_{n}.png.json`; a missing annotation, one without boxes or an augmentation without boxes raises |
| DocumentGeneratorModel.SaveFromKeeps | src/document_generator.py:116-133 | a file whose name is not numbered from the counter on is left as it was |
| DocumentGeneratorModel.SaveFromChanged | src/document_generator.py:116-133 | every file the page loop adds or rewrites is `im_{n}.png` or `im_{n}.png.json` in the output folder for a counter value n reached by the loop |
| DocumentGeneratorModel.SaveFromJson | src/document_generator.py:101-134 | the annotation written as `im_{n}.png.json` is page (n - counter)'s annotation with the augmented boxes truncated, turned into xywh and normalised |
| DocumentGeneratorModel.CreateSpecBadResponse | src/document_generator.py:77-80 | a failed request or a status other than 200 writes no file and leaves the counter alone |
| DocumentGeneratorModel.AnnotationWords | src/document_generator.py:160-162 | every word of a page annotation is a registered word |
| DocumentGeneratorModel.UncolorState | src/docx_document.py:251-269 | definition: every paragraph and every table of the document stripped |
| DocumentGeneratorModel.ProcessSpec | src/document_generator.py:82-134 | definition: elements added to a fresh document, coloured pages annotated, colours stripped, plain pages saved |
| DocumentGeneratorModel.CreateSpec | src/document_generator.py:75-134 | definition: a failed request raises and a status other than 200 returns, both with a fresh document; otherwise the processing above |
| DocumentGeneratorModel.GenerateSpec | src/document_generator.py:53-59 | definition: `create_doc` on each URL in turn, the files and counter carried over whatever it raised |
| DocumentGeneratorModel.SavedWords | src/document_generator.py:97-133 | every annotation the page loop writes holds only registered words |
| DocumentGeneratorModel.ProcessSpecWords | src/document_generator.py:82-134 | every annotation `create_doc` writes holds only words of the document's registry |
| DocumentGeneratorModel.CreateSpecWords | src/document_generator.py:75-134 | the same for the whole `create_doc`, including the early return |
| DocumentGeneratorModel.CreateSpecOutputs | src/document_generator.py:75-134 | `create_doc` never removes a file, never lowers the counter, and adds or rewrites only numbered outputs in its folder |
| DocumentGeneratorModel.GenerateSpecOutputs | src/document_generator.py:53-59 | across URLs the counter never goes back, no file is removed, and every change is a numbered output in the folder |
| DocumentGeneratorModel.Remap | src/document_generator.py:103-107 | scaling columns 0 and 2 by the width and 1 and 3 by the height in place is the unnormalisation of the boxes |
| DocumentGeneratorModel.RenormBoxes | src/document_generator.py:121-129 | the per-box output arithmetic computes the normalised, truncated xywh boxes |
| DocumentGeneratorModel.DocumentGenerator.constructor | src/document_generator.py:35-45 | a new generator has no document, the counter at 0 and the given settings |
| DocumentGeneratorModel.DocumentGenerator.GetBboxes | src/document_generator.py:136-172 | one annotation per page, in page order, each the contour-loop result against the current registry |
| DocumentGeneratorModel.DocumentGenerator.SavePages | src/document_generator.py:101-134 | the page loop leaves the files, counter and error of its description |
| DocumentGeneratorModel.DocumentGenerator.SavePage | src/document_generator.py:102-134 | one page: either the loop continues with the next page, or it ends with this page's error |
| DocumentGeneratorModel.DocumentGenerator.Process | src/document_generator.py:82-134 | `create_doc` after a 200 answer: elements, extraction on the coloured rendering, strip pass, and the page loop, as described |
| DocumentGeneratorModel.DocumentGenerator.CreateDoc | src/document_generator.py:75-134 | `create_doc` for one URL computes the document, files, counter and error of its description |
| DocumentGeneratorModel.DocumentGenerator.Generate | src/document_generator.py:53-59 | `generate_` runs `create_doc` on each URL in order, an error ending only that URL |
| ManagerModel.ChunkTiles | src/manager.py:88-92 | chunk 0 starts at 0, each chunk ends where the next begins, and the last chunk ends at n |
| ManagerModel.PortPairs | src/manager.py:42-49 | definition: process i gets `ports[i]` and `ports[k + i]`, an index past the list raising |
| ManagerModel.ChunkLength | src/manager.py:85-91 | chunk i has n // k elements, plus one when i < n % k |
| ManagerModel.ChunkBounds | src/manager.py:90-92 | chunk i is the slice `urls[start:end]` with start <= end <= n, and its end is the start of chunk i+1 |
| ManagerModel.ConcatSnoc | src/manager.py:92 | appending the slice after a covered prefix covers up to the slice's end |
| ManagerModel.PortPairsDistinct | src/manager.py:42-49 | pairing succeeds exactly when there are at least 2k ports; then process i gets `ports[i]` and `ports[k+i]`, and with distinct ports no two of the 2k ports handed out are equal |
| ManagerModel.StrLtAsym | src/manager.py:132 | Python's string order is irreflexive and asymmetric |
| ManagerModel.StrLtTrans | src/manager.py:132 | Python's string order is transitive |
| ManagerModel.StrLtTotal | src/manager.py:132 | any two different strings are ordered one way or the other |
| ManagerModel.LeastUnique | src/manager.py:132 | a set of names has at most one least name |
| ManagerModel.SortedOfSpec | src/manager.py:132 | `sorted()` lists every name of the set exactly once, in strictly increasing order |
| ManagerModel.SortedNames | src/manager.py:132 | the selection loop computes the sorted list of the names |
| ManagerModel.MergeOrderNotNumeric | src/manager.py:132 | sorting is by characters, not numbers: `im_10.png.json` is merged before `im_2.png.json` |
| ManagerModel.ValidateIff | src/manager.py:109-124 | the pair is valid exactly when the image and the annotation exist, the annotation parses, and it has as many words as boxes; it raises exactly when both exist and the annotation does not parse |
| ManagerModel.Validate | src/manager.py:109-124 | definition: false for a missing image or annotation, an error where `json.load` or the key lookups raise, else words and boxes equally many |
| ManagerModel.TmpFolderDistinct | src/manager.py:96 | process folders are never the output folder and differ for different processes |
| ManagerModel.NumberOfJsonName | src/manager.py:149-150 | the number read back from `im_{n}.png.json`, the name the generator writes, is the decimal string of n |
| ManagerModel.MergeNamesStep | src/manager.py:132-158 | from name j on, the inner loop is name j followed by the rest, unless name j raised |
| ManagerModel.JsonNamesLong | src/manager.py:132-135 | every listed `.png.json` name is at least five characters long, so `json_path[:-5]` is the image path |
| ManagerModel.RemoveFoldersSpec | src/manager.py:160-161 | the removal loop succeeds exactly when every process folder exists; it then removes those folders and their files and keeps every other file |
| ManagerModel.MergeFileFrame | src/manager.py:135-158 | one merge step changes no directory and touches only files of its folder and of the output folder |
| ManagerModel.MergeFile | src/manager.py:135-158 | definition: a valid pair moves to the next output number with its coloured twin if present; an invalid one counts as bad |
| ManagerModel.MergeNames | src/manager.py:132-158 | definition: the sorted annotation names of one folder in order, stopping at the first error |
| ManagerModel.MergeFolders | src/manager.py:126-158 | definition: every folder that is a directory in list order, its annotations in sorted order |
| ManagerModel.MergeSpec | src/manager.py:126-161 | definition: merge every folder, then remove every process folder |
| ManagerModel.MergeFileCount | src/manager.py:135-158 | without an error a merge step counts the pair once, as good or as bad, and the counter never goes back |
| ManagerModel.OutNamesDistinct | src/manager.py:136-154 | the image, annotation and coloured-twin names of the merge never collide, and different numbers give different names |
| ManagerModel.NotTwin | src/manager.py:136-154 | a merged image or annotation name is never a coloured-twin name |
| ManagerModel.OutJsonInjective | src/manager.py:137 | different counters give different merged annotation names |
| ManagerModel.OutImageInjective | src/manager.py:136 | different counters give different merged image names |
| ManagerModel.MergeFileOutputs | src/manager.py:135-156 | a merge step keeps the pairs merged before it and, when it counts a good pair, leaves the image and a valid annotation under the counter |
| ManagerModel.MergeNamesSpec | src/manager.py:132-158 | the names loop counts every name once without an error, keeps earlier merged pairs, leaves a merged pair under every new number, and touches only its folder and the output folder |
| ManagerModel.ListedFrame | src/manager.py:129-132 | the number of listed annotations depends only on the directories and the names in them |
| ManagerModel.MergeFoldersSpec | src/manager.py:126-158 | over distinct folders other than the output folder, without an error good plus bad counts every listed annotation, and every number below the counter holds a merged pair |
| ManagerModel.TmpFoldersDistinct | src/manager.py:96 | the process folders are pairwise distinct and none is the output folder |
| ManagerModel.MergeSpecResult | src/manager.py:126-161 | without an error `_merge_all_folders` counts every listed annotation as good or bad, numbers 0 to counter-1 each hold a merged pair, and no process folder or file in one is left |
| ManagerModel.Manager.constructor | src/manager.py:15-41 | a new manager has one process folder `tmp_process_i` per process |
| ManagerModel.Manager.SplitUrlsToChunks | src/manager.py:83-93 | with no processes the floor division raises; otherwise exactly `num_processes` chunks, chunk i of length n // k plus one when i < n % k, chunk i the contiguous slice, and the chunks concatenated are the URLs |
| ManagerModel.Manager.AppendChunk | src/manager.py:89-92 | one turn appends chunk i, computed from `i * chunk_size + min(i, remainder)`, and the chunks then cover the URLs up to chunk i+1's start |
| ManagerModel.Manager.MergeOne | src/manager.py:133-158 | one annotation: the file system and counts after it are those of the merge step |
| ManagerModel.Manager.MergeFolder | src/manager.py:130-158 | one folder: its `.png.json` names in sorted order, merged one after another as described |
| ManagerModel.Manager.MergeAt | src/manager.py:133-158 | one turn of the folder loop: either the loop goes on with the next name, or it ends with this name's error |
| ManagerModel.Manager.RemoveProcessFolders | src/manager.py:160-161 | the removal loop leaves the file system and error of its description |
| ManagerModel.Manager.MergeAllFolders | src/manager.py:126-161 | `_merge_all_folders` leaves the file system and counts of its description |
| UrlParserModel.NoLanguagesNoUrls | src/url_parser.py:40-41 | with an empty language list no URL is valid |
| UrlParserModel.IsValidUrl | src/url_parser.py:37-45 | definition: an http(s) host containing "wikipedia.org" and one of the languages, a path under "/wiki/" without ":" and not the main page |
| UrlParserModel.ContainsTrans | src/url_parser.py:40-41 | a substring of a substring is a substring |
| UrlParserModel.LanguageInHostName | src/url_parser.py:37-45 | when some language string occurs in "wikipedia.org", the language test is vacuous: validity is then the scheme, host and path tests alone |
| UrlParserModel.OrInWikipedia | src/url_parser.py:40-41 | "or" (the Odia language code) occurs in "wikipedia.org" |
| UrlParserModel.AddLinks | src/url_parser.py:28-33 | the link loop only appends to the URL list |
| UrlParserModel.AddLinksSpec | src/url_parser.py:28-33 | the link loop appends only links of the page that are valid, not yet listed and within `max_urls`, so the list stays duplicate-free, valid and bounded |
| UrlParserModel.AddLinksFresh | src/url_parser.py:28-33 | the links pass never takes the list past `max_urls` once it grows, and each URL it appends is valid and not already in the list |
| UrlParserModel.Crawl | src/url_parser.py:14-35 | definition: stop at `max_urls` and drop the start URL; a page index past the list raises, a failed fetch gives None, else add page ptr's links and go on |
| UrlParserModel.ParseSpec | src/url_parser.py:8-35 | definition: the crawl of `[start_url]` from page 0 |
| UrlParserModel.CrawlSpec | src/url_parser.py:14-35 | a crawl that finishes returns the collected list without the start URL, where the list has exactly `max_urls` entries (or just the start URL), is duplicate-free and valid, and every URL came from a page listed before it |
| UrlParserModel.ParseResult | src/url_parser.py:8-35 | a finished `parse` returns `max_urls - 1` distinct valid URLs, none of them the start URL |
| UrlParserModel.ParseFetchFails | src/url_parser.py:16-21 | a start page whose fetch fails gives None, unless `max_urls` is already reached |
| UrlParserModel.AddPageLinks | src/url_parser.py:28-33 | the link loop, one link at a time, computes the description |
| UrlParserModel.Parse | src/url_parser.py:8-35 | the while loop expanding pages in insertion order, `ptr` advancing by one per page, computes the crawl description |
| LegacyModel.AddWordsOutcome | original.py:185-203 | the legacy word loop succeeds exactly when there are no words, or there are enough colours left for all of them and the first word can be spaced (it starts with closing punctuation or the previous word is non-empty), the colour lookup raising "Need more colors" otherwise; on success the colour cursor advanced by one per word and the previous word is the last word |
| LegacyModel.AddWordsFrom | original.py:185-203 | definition: per word a space run when the rule asks for one, the word's run, then its colour; reading an empty previous word raises, and so does a colour past the table, after the word's run |
| LegacyModel.AddWordsRuns | original.py:188-192 | on success the runs added are, word by word, a single-space run (unless the word starts with one of `,.?!:;)»` or the word before starts with `«`) followed by the word |
| LegacyModel.AddWordsKeys | original.py:141-146 | on success the colour-to-word map gains exactly the colours the words took, `colors[ptr..ptr+n]`, and nothing else |
| LegacyModel.AddWordsLastWord | original.py:141-146 | word i takes colour `ptr + i`, and that colour maps to word i afterwards unless a later word reused the same colour |
| LegacyModel.PiecesCons | original.py:187-200 | the runs of a word list are the first word's runs, decided by the given previous word, followed by the rest decided by the first word |
| LegacyModel.AddWordsKeeps | original.py:141-146 | the word loop only moves the colour cursor forward within the table, never removes a colour, and leaves every colour it did not hand out mapped as before |
| LegacyModel.AddTextsKeeps | original.py:291-295 | the same for the texts of one paragraph, the previous word carried from text to text |
| LegacyModel.FillFromKeeps | original.py:272-295 | the same for the whole coloured document, paragraph by paragraph |
| LegacyModel.PairsOfKeptSnoc | original.py:328-342 | the pairs of the kept contours of two contour lists are the pairs of the first followed by those of the second |
| LegacyModel.LegacyPageMatches | original.py:316-343 | a page's legacy annotation lists the same words, in the same order, as the current annotator, each with the current corner box converted to normalised (x, y, w, h) |
| LegacyModel.LegacySaveOutcome | original.py:347-352 | the save loop raises IndexError exactly when there are more images than annotation lists; otherwise the image counter advanced by the number of images; on the error the first image without annotations is saved and its `.json` file is left empty |
| LegacyModel.LegacySave | original.py:347-352 | definition: image i resized under `im_{counter}.png`, then annotation i under `im_{counter}.png.json`; a missing annotation raises after the image is saved and its annotation file opened |
| LegacyModel.LegacySaveKeeps | original.py:347-352 | the save loop leaves every file not named `im_{n}.png` or `im_{n}.png.json` for a number n at or past the counter as it was |
| LegacyModel.LaterNamesUntouched | original.py:349-350 | the image and annotation names of one number are not the names of any later number |
| LegacyModel.LegacySaveWrites | original.py:348-352 | image j is written resized to the configured side under `im_{counter+j}.png`, and annotation list j as `im_{counter+j}.png.json` |
| LegacyModel.PipelineKeepsRegistry | original.py:105-107 | `pipeline` resets the colour cursor but not the colour-to-word map, which only `__init__` creates: every colour not handed out for this URL keeps the word of an earlier URL |
| LegacyModel.PipelineSpec | original.py:354-364 | definition: reset the cursor, fetch (a raising request ends there, a non-200 answer leaves the document empty), fill, annotate the coloured pages, save the plain ones |
| LegacyModel.LegacyGenerate | original.py:366-372 | definition: the pipeline on each URL in turn, the state carried over whatever it raised |
| LegacyModel.PipelineCounts | original.py:354-364 | a raising request ends the pipeline with only the colour cursor reset; when filling succeeds, the annotations are read off the coloured pages, the pipeline fails exactly when the uncoloured rendering has more pages than the coloured one, and otherwise the counter grew by the number of uncoloured pages |
| LegacyModel.PipelineFiles | original.py:347-364 | when filling succeeds, uncoloured page j is saved resized under number `counter + j`, with the annotation of coloured page j beside it |
| LegacyModel.LegacyValidIsUnfiltered | original.py:374-381 | the legacy URL filter is the current one with the language list `[""]`, so it accepts a Wikipedia article of any language |
| LegacyModel.LegacyValid | original.py:374-381 | definition: an http(s) host containing "wikipedia.org" and a path under "/wiki/" without ":" and not the main page |
| LegacyModel.LegacyCrawl | original.py:387-409 | definition: as the current crawl, the whole list returned, and the list reached given back on every exit |
| LegacyModel.LegacyCrawlReach | original.py:383-409 | the reached list extends the given one, stays within `max_urls` once it grows, every URL it appends is valid and new, and a finished crawl returns exactly that list |
| LegacyModel.LegacyCrawlIsCrawl | original.py:383-409 | the legacy crawl visits the same pages and collects the same list as the current crawler, which only drops the start URL; the list it returns starts with the list it was given |
| LegacyModel.LegacyParseFresh | original.py:383-409 | from an empty URL list a finished `parse_urls` returns the start URL followed by distinct valid URLs, `max_urls` of them in all (one when `max_urls <= 1`) |
| LegacyModel.WikiDatasetGenerator.constructor | original.py:34-90 | the colour table is the cube-root-sided table, and the counter, colour cursor, colour map, annotations and URL list start empty |
| LegacyModel.WikiDatasetGenerator.InitDoc | original.py:105-107 | `init_doc` resets the colour cursor to 0 |
| LegacyModel.WikiDatasetGenerator.ColorWord | original.py:139-146 | with a colour left, the next colour is mapped to the word and the cursor advances; past the end of the table it raises "Need more colors" and changes nothing |
| LegacyModel.WikiDatasetGenerator.AddText | original.py:185-203 | `add_text` changes the colour state and the paragraph's runs as the word loop description says, and returns the last word |
| LegacyModel.WikiDatasetGenerator.AddTexts | original.py:291-295 | a paragraph starts with `" "` as the previous word, and its texts are added one after another |
| LegacyModel.WikiDatasetGenerator.Fill | original.py:272-298 | `create_colored_docx` fills the paragraphs in order, and the first error stops it |
| LegacyModel.WikiDatasetGenerator.GetBboxes | original.py:316-343 | `get_bboxes` replaces the annotations with one pair list per page, read with the current colour map |
| LegacyModel.WikiDatasetGenerator.SaveImagesAndAnnotations | original.py:347-352 | the new files, counter and error are those of the save loop from image 0, including the empty annotation file the IndexError leaves |
| LegacyModel.WikiDatasetGenerator.Pipeline | original.py:354-364 | the new cursor, registry, annotations, files and counter, and the error, are those of the pipeline from the old state, a raising request included |
| LegacyModel.WikiDatasetGenerator.Generate | original.py:366-372 | the new state is the pipeline run on each collected URL in order from the old state, an exception ending that URL only |
| LegacyModel.WikiDatasetGenerator.ParseUrls | original.py:383-409 | the new `urls` field and the result are the legacy crawl of the old list plus the start URL from entry 0, so the field keeps every URL reached even when the crawl returns None or raises |

## Left out

- Rendering to pages (UNO conversion, pdf2image) and the launch of the unoserver process are foreign calls and process spawning. The renderer is a function parameter from document to pages.
- OpenCV thresholding, contour finding, polygon approximation and `getpixel` are library image processing. A contour is an input record holding its vertex count, rectangle and sampled colour.
- The augraphy pipeline, `cv2.resize`, `imwrite` and the box-drawing helpers of src/utils.py are library image processing. The augmenter and the resizer are function parameters; a saved image is the value they return.
- `np.random` sampling of fonts, sizes, alignment and column count, `_normalize_probabilities` and the enumeration of system fonts are left out as randomness and system I/O. So are the font size, name, bold, italic and alignment they set on runs, which do not affect colours, words or boxes.
- The float cube root that picks the side of the colour table is left out; the side is a parameter. Normalised boxes are real numbers rather than IEEE floats, and the `astype(int)` of the box remap is a floor on non-negative values.
- `requests.get`, BeautifulSoup parsing, `urljoin` and `urlparse` are network and library calls. In the current generator a page is a list of abstract elements (tag name, child texts, table cells), a failed request or a status other than 200 being distinguished. In the legacy generator a page is the texts of its paragraphs, nothing for a status other than 200, or an error when the request raises. Links come from an oracle, and URL splitting is a parameter.
- The `ThreadPoolExecutor` of `DocumentGenerator.generate` and the `multiprocessing` pool of `Manager.generate` are concurrency. The sequential `generate_` is modelled. The merge is modelled over whatever the staging folders hold when it starts, so `Manager.generate` itself is not modelled.
- Timing, throughput and profiling output, print_profiling_stats.py, main.py (argument parsing), show_image_annotations.py (drawing) and scripts/ttt.py (a scratch copy of the spacing rule) are not part of this model.
- Folder creation and removal at start-up are modelled only as directories in the file-system map. The file system is flat: one level of folders, each a map of names.
- The wiring in `Manager.__init__` passes seven arguments to the five-parameter `DocumentGenerator` constructor. The model builds each component from its own parameters instead.
- The `debug_mode` branches that save extra images or draw rectangles are left out, except the coloured twin that the merge moves when it exists.
- Connection exceptions of the crawler are folded into the oracle's "no page" answer.
- Paragraphs and tables are kept as two sequences, so the order in which they interleave in the document body is not modelled.
- `set_table_border_color` is modelled as the colour given to the six borders; the rest of the border XML is not modelled.
- In original.py, the element dispatch of `create_colored_docx` (headings, tables, column layout) is left out. A page is given as the texts of its paragraphs, and the uncoloured rendering is the renderer called with colours off.
