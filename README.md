# ObsidianDataWeave core, modelled in Dafny

ObsidianDataWeave turns a Word document into a set of linked Obsidian notes.
The pipeline fetches the document, then runs four scripts on it. This
project models the deterministic logic of each of the four scripts and proves
what it promises. File I/O and the call to the `claude` command-line tool
are abstracted (see Left out):

- **Document-structure extraction** (`scripts/parse_docx.py`). A document
  body is a sequence of paragraph, table and other nodes. The model covers
  heading levels, the heading-depth offset, list items, images, inline bold
  and italic, GitHub-flavoured markdown tables, and where each table is
  inserted. The section walker is an imperative `SectionList` class with a
  current-section index. Each method of it is proved against the
  specification function `Walk`, and the lemmas about `Walk` state the shape
  of the result.
- **Atom-plan validation** (`scripts/atomize.py`). The model covers the
  errors of `validate_atom_plan`, the non-canonical tag warnings, orphaned
  `[[wikilinks]]`, code-fence stripping in `extract_json`, the flattening in
  `load_tags` and the proposed-tag collection. Each builder is a loop method,
  proved equal to a recursive function. Each function has lemmas stating
  when it is empty and what exactly it contains.
- **Note generation** (`scripts/generate_notes.py`). `sanitize_filename` is
  modelled down to UTF-8 byte counting (section 3 of RFC 3629). The
  frontmatter serialiser `render_note_md` is modelled character for
  character.
- **Vault writing** (`scripts/vault_writer.py`). The model covers the
  line-by-line frontmatter parser, folder routing, the MOC-last sort, the
  dedup loop of the entry point and the registry merge. The round trip
  `parse_frontmatter(render_note_md(n))` is proved in `round_trip.dfy`.

Files: `text.dfy` (Python `str` operations on `seq<char>`, with
`str.isspace` as CPython defines it), `sorting.dfy` (Python string order,
`sorted`), `docx_blocks.dfy`, `docx_layout.dfy`, `docx_walk.dfy`,
`docx_output.dfy`, `docx_placement.dfy`, `atomize.dfy`, `generate_notes.dfy`,
`frontmatter.dfy`, `vault_writer.dfy`, `round_trip.dfy`.

The table walker follows the code, not its comments. Table key `i` is
injected at the start of paragraph `i`'s step, so a table comes out before
the paragraph it follows. A table ahead of every paragraph (key -1) is
dropped. The end-of-document injection is never reached. `Parsed` models
this as written. `CorrectedParsed` models the evident intent, and the
model proves that it keeps body order (see Findings).

## Model

| member | source | states |
|---|---|---|
| `DocxBlocks.HeadingLevel` | scripts/parse_docx.py:46-49 | a level is returned only for a style of the form "Heading", whitespace, digits (any case), and it is the value of those digits |
| `DocxBlocks.HeadingLevelOf` | scripts/parse_docx.py:46-49 | conversely, "heading" in any case + non-empty whitespace + digits + a non-digit rest yields exactly the digits' value |
| `DocxBlocks.HeadingLevelOfShape` | scripts/parse_docx.py:48-49 | every style of heading shape yields the value of its digits |
| `DocxBlocks.HeadingLevelNeedsPrefix` | scripts/parse_docx.py:48-49 | a style not starting with "heading" (any case) has no level |
| `DocxBlocks.RunsToMarkdown` | scripts/parse_docx.py:54-68 | the loop over runs computes `RunsMd`, the concatenation of each run's wrapped text |
| `DocxBlocks.RunsMdAppend` | scripts/parse_docx.py:56-68 | rendering is a homomorphism: runs `a + b` render as the rendering of `a` then of `b`, no separator |
| `DocxBlocks.RunsMdPlain` | scripts/parse_docx.py:61-67 | runs without bold or italic render as the plain concatenation of their texts |
| `DocxBlocks.RunsMdEmptyIff` | scripts/parse_docx.py:58-60 | the rendering is empty exactly when every run's text is empty |
| `DocxBlocks.BulletPrefix` | scripts/parse_docx.py:76 | the bullet match has length 2 exactly when a bullet glyph and a whitespace start the text, else 0 |
| `DocxBlocks.NumberPrefix` | scripts/parse_docx.py:77 | the match is non-zero exactly when the text starts with digits, `.` or `)`, and one whitespace, and then it spans exactly those characters |
| `DocxBlocks.TrailingNumber` | scripts/parse_docx.py:99-100 | a number is found exactly when the style ends (or ends before a final newline) with a digit, and it is the value of the whole maximal digit run there |
| `DocxBlocks.IsListItemIff` | scripts/parse_docx.py:79-88 | a paragraph is a list item exactly when its lower-cased style contains one of the four list style names, or its text starts with a bullet glyph and a whitespace, or with digits, `.` or `)`, and a whitespace |
| `DocxBlocks.ListMarkdown` | scripts/parse_docx.py:91-102 | a non-empty line is never blank and is the style's indent, `- `, then a non-empty body with no edge whitespace |
| `DocxBlocks.HasInlineImageIff` | scripts/parse_docx.py:107-111 | a paragraph has an inline image exactly when its XML contains `w:drawing` or `pic:pic` somewhere |
| `DocxBlocks.ListMarkdownIs` | scripts/parse_docx.py:91-102 | the line is empty exactly when the stripped rendered text is; otherwise it is the indent, `- `, then the text with the bullet and the number marker removed, stripped |
| `DocxBlocks.ListMarkdownOfBullet` | scripts/parse_docx.py:93-102 | a plain paragraph "• x" becomes indent + "- x" |
| `DocxBlocks.ListMarkdownOfNumber` | scripts/parse_docx.py:93-102 | a plain paragraph "12. x" becomes indent + "- x" |
| `DocxBlocks.NumberPrefixOf` | scripts/parse_docx.py:77 | "digits. x" has a number prefix of exactly the digits plus two characters |
| `DocxBlocks.CellMd` | scripts/parse_docx.py:120 | a cell is its stripped text with each newline turned into a space: same length, no newline left |
| `DocxBlocks.Cells` | scripts/parse_docx.py:119-121 | one cell string per cell, in order |
| `DocxBlocks.ConvertRow` | scripts/parse_docx.py:119-121 | the cell loop computes `Cells(row)` |
| `DocxBlocks.TableToMarkdown` | scripts/parse_docx.py:116-136 | the row loop and join compute `TableMd` |
| `DocxBlocks.ConvertTable` | scripts/parse_docx.py:118-121 | the row loop computes every row's converted cells, in order |
| `DocxBlocks.RenderLines` | scripts/parse_docx.py:126-134 | the lines are the header, a separator of as many `---` cells as the header has, then one line per further row |
| `DocxBlocks.TableLineAt` | scripts/parse_docx.py:126-134 | line 0 renders the header, line 1 the separator, line `k` row `k - 1` |
| `DocxBlocks.TableLines` | scripts/parse_docx.py:123-136 | zero rows give no line; otherwise one line per row plus the separator line |
| `DocxBlocks.Dashes` | scripts/parse_docx.py:128 | the separator has one `---` per header cell |
| `DocxBlocks.TableLinesOneLine` | scripts/parse_docx.py:129-134 | no table line contains a newline |
| `DocxBlocks.TableMdLines` | scripts/parse_docx.py:123-136 | the table is empty iff it has no rows; otherwise splitting it at newlines gives back exactly its lines |
| `DocxBlocks.TableMdNotBlank` | scripts/parse_docx.py:129-136 | a table with rows renders non-blank and starts with a pipe character |
| `DocxLayout.PositionMap` | scripts/parse_docx.py:141-143 | every paragraph's id maps to an index below the number of paragraphs |
| `DocxLayout.PositionMapAgrees` | scripts/parse_docx.py:141-143 | with unique ids, the map gives each paragraph node its index among the paragraphs |
| `DocxLayout.FirstTable` | scripts/parse_docx.py:161-167 | the first body node that is the table, or the body length when it is absent |
| `DocxLayout.TableKey` | scripts/parse_docx.py:146-171 | the key is in [-1, n-1] |
| `DocxLayout.FindTableInsertPosition` | scripts/parse_docx.py:146-171 | the loop over body children computes `TableKey`: the index of the last paragraph before the table, or -1 |
| `DocxLayout.BuildInjections` | scripts/parse_docx.py:209-215 | `table_injections` holds, per key, the non-empty markdown of the tables with that key, in `doc.tables` order |
| `DocxLayout.InjectionsKeyed` | scripts/parse_docx.py:210-215 | the map the loop builds holds exactly the keys that have tables, each with its tables' markdown in order |
| `DocxLayout.InjectTable` | scripts/parse_docx.py:211-215 | one turn of the loop gives `SetDefaultAppend(old map, TableKey(body, t.id), TableMd(t.rows))`: the table's markdown is appended under its key (the last paragraph before it, or -1) when non-empty, and the map is otherwise unchanged |
| `DocxLayout.InjectStep` | scripts/parse_docx.py:211-215 | one `setdefault`/`append` step extends the invariant by one table; an empty table adds nothing |
| `DocxLayout.KeyedRange` | scripts/parse_docx.py:146-171 | a key with tables lies in [-1, n-1] |
| `DocxLayout.TablesFound` | scripts/parse_docx.py:161-167 | every table of `doc.tables` is found among the body children |
| `DocxLayout.KeyedIsPlaced` | scripts/parse_docx.py:146-215 | the tables keyed `k` are exactly the non-empty tables between paragraph `k` and paragraph `k+1`, in body order |
| `DocxWalk.HeadingLevels` | scripts/parse_docx.py:199-203 | the levels list contains the level of every heading paragraph (empty ones included) and nothing else |
| `DocxWalk.MinOf` | scripts/parse_docx.py:204 | the minimum is in the list and below every element |
| `DocxWalk.HeadingDepthOffset` | scripts/parse_docx.py:199-205 | the offset is 0 without headings and otherwise at least -1; every heading's level minus the offset is at least 1, and the smallest becomes exactly 1 |
| `DocxWalk.ParaEffectImage` | scripts/parse_docx.py:240-269 | an image paragraph that is empty or not a heading yields exactly "[image]"; an empty paragraph without an image yields nothing |
| `DocxWalk.ParaEffectHeading` | scripts/parse_docx.py:249-260 | a section is opened exactly for a non-empty heading paragraph, headed by its stripped text, which is not blank, at its level less the offset |
| `DocxWalk.TextEffect` | scripts/parse_docx.py:271-281 | a body paragraph without an image adds one non-blank string or nothing, and never opens a section |
| `DocxWalk.ParaEffectNotBlank` | scripts/parse_docx.py:240-281 | every string a paragraph adds is non-blank |
| `DocxWalk.ClassifyParagraph` | scripts/parse_docx.py:240-281 | the branching on one paragraph computes `ParaEffect` |
| `DocxWalk.EnsureOpen` | scripts/parse_docx.py:232-235 | the section list is non-empty afterwards |
| `DocxWalk.AddItems` | scripts/parse_docx.py:236-237 | appending to the current section keeps the number of sections and every earlier section |
| `DocxWalk.AddItemsNil` | scripts/parse_docx.py:236-237 | appending nothing changes nothing |
| `DocxWalk.AddItemsSnoc` | scripts/parse_docx.py:236-237 | appending items one at a time is appending the list |
| `DocxWalk.Effects` | scripts/parse_docx.py:225 | one effect per paragraph |
| `DocxWalk.Lookups` | scripts/parse_docx.py:229 | one table lookup per step |
| `DocxWalk.SectionList.constructor` | scripts/parse_docx.py:222-223 | the walker starts with no sections and no current one |
| `DocxWalk.SectionList.OpenSection` | scripts/parse_docx.py:253-259 | a new empty section is appended and becomes current |
| `DocxWalk.SectionList.EnsureCurrent` | scripts/parse_docx.py:232-235 | without a current section, a level-0 section with no heading is opened |
| `DocxWalk.SectionList.Append` | scripts/parse_docx.py:236-237 | the item is appended to the current section, which the list shares |
| `DocxWalk.InjectTables` | scripts/parse_docx.py:229-237 | the tables keyed at this step go, in order, into the current section, which is opened if needed |
| `DocxWalk.ApplyEffect` | scripts/parse_docx.py:240-281 | the new section list is `Apply(old list, effect)` |
| `DocxWalk.StepAt` | scripts/parse_docx.py:225-281 | one iteration of the loop (the injection for key `i`, then paragraph `i`'s step) advances the walk by one step |
| `DocxWalk.WalkSteps` | scripts/parse_docx.py:225-281 | the loop over the paragraphs computes the walk of all their steps |
| `DocxWalk.WalkParagraphs` | scripts/parse_docx.py:221-290 | the whole loop computes `Walk` of the paragraphs' effects and the lookups as written (key `i` at step `i`, key `n` at the end) |
| `DocxWalk.LastIndexOf` | scripts/parse_docx.py:193 | the last occurrence of the character, or none when it does not occur |
| `DocxWalk.SuffixIsDocx` | scripts/parse_docx.py:193 | the suffix is `.docx` in any case exactly when the name is longer than `.docx` and ends with it |
| `DocxWalk.InjectionsAre` | scripts/parse_docx.py:209-215 | the map the loop builds is the unique `Injections(body)` |
| `DocxWalk.ParseDocxToJson` | scripts/parse_docx.py:176-292 | a missing file gives FileNotFound; otherwise a non-`.docx` suffix gives NotDocx; otherwise the parsed document |
| `DocxOutput.WalkPreambleFirst` | scripts/parse_docx.py:232-235 | the walk keeps "a headless section is first and has level 0" |
| `DocxOutput.ParsedPreambleFirst` | scripts/parse_docx.py:221-290 | a parsed document's section without a heading, if any, is its first section and has level 0 |
| `DocxOutput.HeadsStep` | scripts/parse_docx.py:229-281 | injecting tables adds no heading; a step adds only the heading of its own effect |
| `DocxOutput.WalkHeads` | scripts/parse_docx.py:225-290 | the walk's headings are exactly the effects' headings, in order |
| `DocxOutput.EffectsHeads` | scripts/parse_docx.py:240-259 | the effects' headings are those of the non-empty heading paragraphs, in order |
| `DocxOutput.ParsedHeads` | scripts/parse_docx.py:221-290 | every non-empty heading paragraph opens exactly one section, in document order, with its stripped text and its level minus the offset; no other section has a heading |
| `DocxOutput.ParsedLevels` | scripts/parse_docx.py:199-259 | every section with a heading has a non-blank heading and a level of 1 or more |
| `DocxOutput.FlattenStep` | scripts/parse_docx.py:229-281 | one step adds the injected tables, then the paragraph's items, to the flattened content |
| `DocxOutput.WalkContent` | scripts/parse_docx.py:225-290 | the flattened content is, step by step, the tables and then the items, followed by the end tables |
| `DocxOutput.EmittedAgree` | scripts/parse_docx.py:225-290 | the content depends only on the effects and lookups of the steps taken |
| `DocxOutput.ParsedNotBlank` | scripts/parse_docx.py:221-290 | every content string of a parsed document is non-blank |
| `DocxOutput.KeyedNotBlank` | scripts/parse_docx.py:211-215 | every injected table string is non-blank |
| `DocxPlacement.PlacedRange` | scripts/parse_docx.py:146-171 | a key with placed tables lies in [-1, n-1] |
| `DocxPlacement.InjectionsArePlaced` | scripts/parse_docx.py:209-215 | the injection map equals the tables read off the body between consecutive paragraphs |
| `DocxPlacement.AsWrittenContent` | scripts/parse_docx.py:225-290 | as written, step `k` emits the tables that follow paragraph `k`, before that paragraph's items, and no step emits the tables before the first paragraph |
| `DocxPlacement.CorrectedKeepsBodyOrder` | scripts/parse_docx.py:146-171 | with key `k` injected after paragraph `k` instead, the content is exactly the body's tables and paragraph items in document order |
| `DocxPlacement.CorrectedHeads` | scripts/parse_docx.py:253-259 | the correction changes neither the headings nor the preamble shape |
| `DocxPlacement.LaggedInOrder` | scripts/parse_docx.py:229-237 | with lagged lookups the step-by-step content equals the body-order reference |
| `DocxPlacement.OneImageAsWritten` | scripts/parse_docx.py:225-290 | with one image paragraph, the script's output is the tables keyed 0 followed by "[image]" |
| `DocxPlacement.OneImageCorrected` | scripts/parse_docx.py:225-290 | with one image paragraph, the corrected output is the body-order reference |
| `DocxPlacement.TableBeforeItsParagraph` | scripts/parse_docx.py:146-237 | for [image paragraph, table] the script emits the table first; the corrected walk emits the image first |
| `DocxPlacement.LeadingTableLost` | scripts/parse_docx.py:146-290 | for [table, image paragraph] the script drops the table; the corrected walk keeps it first |
| `Atomize.RequiredFieldsIncreasing` | scripts/atomize.py:221-225 | the required fields are listed in sorted name order |
| `Atomize.MissingFieldsAre` | scripts/atomize.py:221 | a field is reported missing exactly when the note lacks it |
| `Atomize.MissingFieldsSorted` | scripts/atomize.py:224 | the missing fields come in `sorted` order |
| `Atomize.MissingFieldsEmpty` | scripts/atomize.py:221-222 | nothing is missing exactly when all eight required keys are present |
| `Atomize.CheckNote` | scripts/atomize.py:218-249 | one iteration gives the note's id (or `<note[i]>`) and its errors in source order |
| `Atomize.ValidateAtomPlan` | scripts/atomize.py:205-257 | the loop computes `PlanErrors` |
| `Atomize.NoteErrorsEmpty` | scripts/atomize.py:220-249 | a note adds no error exactly when its fields, type and tag count are valid and its id is new |
| `Atomize.NotesErrorsEmpty` | scripts/atomize.py:217-249 | the loop adds no error exactly when every note is valid and the ids are distinct |
| `Atomize.PlanValidIff` | scripts/atomize.py:205-257 | no errors exactly when the notes exist, every note is valid, the ids are distinct and there is exactly one MOC |
| `Atomize.MissingNotesOnly` | scripts/atomize.py:209-211 | without notes the result is exactly the one missing-notes error, and that error occurs only then |
| `Atomize.NotesErrorsPerNote` | scripts/atomize.py:217-249 | the loop adds per-note errors only |
| `Atomize.MocErrorLast` | scripts/atomize.py:251-255 | the MOC-count error is last, present exactly when the count is not 1, and carries the count |
| `Atomize.DuplicateCountAppend` | scripts/atomize.py:247-248 | duplicate errors of two lists add up |
| `Atomize.NoteDuplicates` | scripts/atomize.py:247-248 | a note adds one duplicate error exactly when its id was seen |
| `Atomize.SeenIdsStep` | scripts/atomize.py:249 | each checked note's id joins the seen set |
| `Atomize.SeenIdsGrow` | scripts/atomize.py:247-249 | the seen set grows by one exactly when the note's id is new |
| `Atomize.DuplicatesStep` | scripts/atomize.py:247-249 | note `i` adds one duplicate error exactly when its id is among the ids of the notes before it |
| `Atomize.DuplicatesReported` | scripts/atomize.py:214-249 | the duplicate errors number exactly the notes whose id occurred earlier |
| `Atomize.RepeatedPlusDistinct` | scripts/atomize.py:214-249 | the notes whose id occurred earlier plus the distinct ids equal the number of notes |
| `Atomize.DuplicatesCounted` | scripts/atomize.py:214-249 | duplicate errors plus distinct ids equal the number of notes: one error per occurrence after the first |
| `Atomize.ValidateTags` | scripts/atomize.py:260-272 | the nested loop computes the warnings, note by note and tag by tag |
| `Atomize.TagWarningsAre` | scripts/atomize.py:266-271 | a note's warnings are exactly its tags that are not valid |
| `Atomize.NotesTagWarningsAre` | scripts/atomize.py:264-271 | a warning is reported exactly for a note's non-canonical tag |
| `Atomize.NoTagWarningsIff` | scripts/atomize.py:260-272 | no warning exactly when every tag is canonical |
| `Atomize.RunEnd` | scripts/atomize.py:284 | the end of a run of non-`]` characters |
| `Atomize.LinksAreBracketed` | scripts/atomize.py:284-289 | every match is non-empty, has no `]`, and occurs as `[[t]]` in the body |
| `Atomize.NoOpenerNoLinks` | scripts/atomize.py:284-289 | a body without `[[` has no match |
| `Atomize.StripAll` | scripts/atomize.py:290 | one stripped string per string |
| `Atomize.StripAllAt` | scripts/atomize.py:290 | the k-th stripped string is the strip of the k-th |
| `Atomize.CheckLinks` | scripts/atomize.py:289-295 | the loop over one note's matches computes its errors |
| `Atomize.ValidateWikilinks` | scripts/atomize.py:275-296 | the nested loop computes the errors against the set of all titles |
| `Atomize.LinkErrorsAre` | scripts/atomize.py:289-295 | a note's errors are exactly its stripped targets that are not titles |
| `Atomize.NotesLinkErrorsAre` | scripts/atomize.py:286-295 | an error is reported exactly for some note's orphaned target |
| `Atomize.NoLinkErrorsIff` | scripts/atomize.py:275-296 | no error exactly when every stripped target is a title of the plan |
| `Atomize.TargetsHaveNoBracket` | scripts/atomize.py:284-290 | targets contain no `]` |
| `Atomize.OrphanTargetsHaveNoBracket` | scripts/atomize.py:284-295 | no reported target contains `]` |
| `Atomize.NoOpenerNoErrors` | scripts/atomize.py:284-295 | a body without `[[` yields no error |
| `Atomize.FenceSpan` | scripts/atomize.py:181-190 | a found span starts after the opening fence and ends at the next closing fence |
| `Atomize.FenceStrip` | scripts/atomize.py:177-191 | the text is either the stripped response or a fence-free piece of it |
| `Atomize.JsonFenceCaptured` | scripts/atomize.py:181-184 | with a `json` fence, the text is the stripped content up to the next fence, whatever precedes the opening and follows the closing |
| `Atomize.PlainFenceCaptured` | scripts/atomize.py:185-188 | with no `json` fence anywhere, the text is the stripped content between the first two plain fences |
| `Atomize.JsonFenceUnclosed` | scripts/atomize.py:181-190 | a `json` fence with no closing fence after it leaves the text as it is |
| `Atomize.PlainFenceUnclosed` | scripts/atomize.py:185-190 | a single plain fence with no `json` fence leaves the text as it is |
| `Atomize.NoFenceOnlyStrips` | scripts/atomize.py:179-191 | without a fence the response is only stripped |
| `Atomize.FirstClosing` | scripts/atomize.py:183-188 | when the body holds no fence, the closing fence found after the body's start is the one right after the body |
| `Atomize.PaddedFenceStrips` | scripts/atomize.py:177-191 | a fence-free text wrapped in a `json` fence, with whitespace around, comes back stripped |
| `Atomize.StripFenced` | scripts/atomize.py:179 | stripping a response of blank padding around a fence keeps exactly the fenced part |
| `Atomize.DomainPaths` | scripts/atomize.py:77-78 | one `domain/subtag` per subtag, in order |
| `Atomize.LoadTags` | scripts/atomize.py:68-79 | the result is sorted and a permutation of the flattened paths |
| `Atomize.TagPathsAre` | scripts/atomize.py:75-78 | a path is produced exactly for each (domain, subtag) pair, one per pair |
| `Atomize.LoadTagsDeterminate` | scripts/atomize.py:79 | any two sorted permutations of the paths are equal, so the result is determined |
| `Atomize.CollectProposedTags` | scripts/atomize.py:321-325 | the loops compute `Gather` of the top-level list and the notes' entries |
| `Atomize.GatherEntries` | scripts/atomize.py:323-325 | the loop over one note's `proposed_new_tags` turns `Gather(top, before)` into `Gather(top, before + entries)`: each entry not yet collected is appended, in order |
| `Atomize.GatherIsDedup` | scripts/atomize.py:321-325 | the top-level list is a verbatim prefix; the result holds exactly the entries seen; each later entry is new and appears once |
| `Atomize.NothingCollectedIff` | scripts/atomize.py:321-328 | nothing is collected exactly when neither list has an entry |
| `GenerateNotes.Utf8Len` | scripts/generate_notes.py:74-75 | one to four bytes per code point, one exactly for ASCII |
| `GenerateNotes.Utf8SizeAppend` | scripts/generate_notes.py:74-75 | the encoded size of a concatenation is the sum |
| `GenerateNotes.FitLen` | scripts/generate_notes.py:76-80 | the kept prefix fits in the byte budget, and one more code point would not |
| `GenerateNotes.FitLenLongest` | scripts/generate_notes.py:76-80 | every longer prefix is over the budget |
| `GenerateNotes.DashedAt` | scripts/generate_notes.py:67-72 | after the replacement loop, each forbidden character is `-` and every other character is unchanged |
| `GenerateNotes.SanitizeFilename` | scripts/generate_notes.py:58-83 | the method computes `Sanitized` |
| `GenerateNotes.CleanedIsClean` | scripts/generate_notes.py:66-73 | the cleaned name has no NUL and no forbidden character |
| `GenerateNotes.CleanedDashes` | scripts/generate_notes.py:66-73 | NUL is removed, every forbidden character becomes `-`, and the result is stripped |
| `GenerateNotes.SanitizedShape` | scripts/generate_notes.py:58-83 | the result has no NUL or forbidden character, no edge whitespace, and at most `max_bytes` UTF-8 bytes |
| `GenerateNotes.SanitizedTruncates` | scripts/generate_notes.py:74-81 | an over-long name becomes the strip of the longest whole-code-point prefix that fits |
| `GenerateNotes.CleanIsCleaned` | scripts/generate_notes.py:66-73 | a clean name without edge whitespace passes the cleaning unchanged |
| `GenerateNotes.SanitizeIdempotent` | scripts/generate_notes.py:58-83 | sanitising twice equals sanitising once |
| `GenerateNotes.RenderNoteMd` | scripts/generate_notes.py:89-125 | the note starts with `---`, then `tags:`, and ends with the closing `---`, a blank line, the body and a newline |
| `GenerateNotes.TagLines` | scripts/generate_notes.py:104-106 | one `  - tag` line per tag, in order |
| `Frontmatter.Step` | scripts/vault_writer.py:136-159 | a step never adds `tags` to the scalar values |
| `Frontmatter.BlockFrontmatter` | scripts/vault_writer.py:129-165 | `tags` is never a scalar key, and a present tag list is non-empty |
| `Frontmatter.ParseFrontmatter` | scripts/vault_writer.py:114-165 | the loop over lines computes `FrontmatterOf` |
| `Frontmatter.ReadLine` | scripts/vault_writer.py:136-159 | one iteration computes `Step` |
| `Frontmatter.RunAppend` | scripts/vault_writer.py:135 | running over `a + b` is running over `a`, then over `b` |
| `Frontmatter.NoClosingDelimiter` | scripts/vault_writer.py:124-126 | with fewer than two `---`, the result is empty |
| `Frontmatter.OnlyFirstBlock` | scripts/vault_writer.py:124-129 | only the text between the first and second `---` matters |
| `Frontmatter.RunTagBlock` | scripts/vault_writer.py:136-139 | in the tag list, items append their stripped text and other non-key lines are ignored without ending the list |
| `Frontmatter.TagsAfterKey` | scripts/vault_writer.py:142-163 | a `tags:` key line followed by items gives exactly the stripped items; the inline value and any earlier list are dropped |
| `Frontmatter.KeyLineSets` | scripts/vault_writer.py:142-159 | `k: v` sets the stripped key to the stripped, unquoted value, colons in `v` included, overwriting an earlier value |
| `RoundTrip.UnescapeEscape` | scripts/generate_notes.py:96-97 | turning `\"` back into `"` undoes the escaping of `source_doc` |
| `RoundTrip.UnquoteQuoted` | scripts/vault_writer.py:150-151 | unquoting a quoted, escaped value gives it back |
| `RoundTrip.BareKeyLine` | scripts/vault_writer.py:142-159 | a line `k:` with a plain key opens an empty tag list when `k` is `tags`, and otherwise sets `k` to the empty string |
| `RoundTrip.RenderShape` | scripts/generate_notes.py:89-125 | the rendered note is `---`, the block's lines, `---`, then the body |
| `RoundTrip.RenderedBlock` | scripts/vault_writer.py:124-129 | parsing a rendered note reads exactly its block lines |
| `RoundTrip.ItemTagsOfTagLines` | scripts/vault_writer.py:136-139 | the tag lines the renderer writes parse back to the stripped tags |
| `RoundTrip.RunBlock` | scripts/vault_writer.py:135-163 | the parser's loop over the rendered block ends with `date`, `source_doc` and `note_type` set and the stripped tags collected |
| `RoundTrip.RenderParseRoundTrip` | scripts/vault_writer.py:114-165 | for fields without line breaks or `---` and a non-empty tag list, parsing the rendered note gives the stripped tags, the stripped `date` and `note_type`, and `source_doc` exactly |
| `RoundTrip.RenderParseExact` | scripts/generate_notes.py:89-125 | when the tags, date and type are already stripped and unquoted, parsing the rendered note recovers every field exactly |
| `VaultWriter.GetVaultDest` | scripts/vault_writer.py:204-224 | the destination is the pair `Dest(vaultPath, folder)` with the configured vault path; a `moc` goes to the MOC folder and a `source` to the sources folder (defaults "MOCs", "Sources"), anything else to the notes folder |
| `VaultWriter.RoutingFallback` | scripts/vault_writer.py:216-222 | every type other than `moc` and `source` routes like `atomic`, to the notes folder (default "Notes") |
| `VaultWriter.MocSortKey` | scripts/vault_writer.py:230-242 | the key's first part is 1 exactly for a MOC file (frontmatter type `moc` or stem ending " — MOC"; an unreadable file is not one), and its second part is the name |
| `VaultWriter.FileLeTotalOrder` | scripts/vault_writer.py:230-242 | the key order on files is total |
| `VaultWriter.SortedFiles` | scripts/vault_writer.py:316 | the sort is a permutation ordered by the key |
| `VaultWriter.MocsLast` | scripts/vault_writer.py:316 | after sorting, no MOC precedes a non-MOC, and names are ordered within each group |
| `VaultWriter.NoteFiles` | scripts/vault_writer.py:304-307 | every staged file except `proposed-tags.md` |
| `VaultWriter.BuildPlanContext` | scripts/vault_writer.py:287-295 | the loop computes `PlanContextOf` |
| `VaultWriter.PlanContextLastWins` | scripts/vault_writer.py:292-295 | a title is known exactly when some note has it, and it maps to the values of the last such note |
| `VaultWriter.FirstHeading` | scripts/vault_writer.py:336-339 | the index of the first `# ` line, or none when no line starts so |
| `VaultWriter.ExtractTitle` | scripts/vault_writer.py:334-339 | the loop yields the first `# ` line without its marker, stripped, or else the stem |
| `VaultWriter.PlanFillsEmpty` | scripts/vault_writer.py:341-349 | the plan changes the note type or source document only when the frontmatter leaves it empty and the title is in the plan |
| `VaultWriter.ReadInfo` | scripts/vault_writer.py:333-349 | the reading of one file computes `Info` |
| `VaultWriter.RecordWrite` | scripts/vault_writer.py:370-376 | the title is appended to its source document's session entry, created with the file's date when new |
| `VaultWriter.CopyOne` | scripts/vault_writer.py:326-381 | one iteration computes `ProcessFile` |
| `VaultWriter.CopyAll` | scripts/vault_writer.py:326-381 | the loop computes `Process` |
| `VaultWriter.CountsAddUp` | scripts/vault_writer.py:322-381 | skipped + created atomic + created MOC + unreadable equals the number of files, and one copy is made per created note |
| `VaultWriter.SkipIff` | scripts/vault_writer.py:351-359 | a file is skipped exactly when it is readable, not a MOC, names a source document, has a recorded title, and the resolver says skip |
| `VaultWriter.CopiedToRoute` | scripts/vault_writer.py:362-367 | a created file is copied into the folder its type routes to |
| `VaultWriter.SessionStep` | scripts/vault_writer.py:369-376 | one file adds exactly its own (source document, title) pair |
| `VaultWriter.SessionIsWrites` | scripts/vault_writer.py:318-381 | the session records exactly the pairs of the files copied, and every recorded document has a title |
| `VaultWriter.MergeEntry` | scripts/vault_writer.py:384-399 | titles become the sorted, duplicate-free union of old and new; the count is their number; the date is filled only when the old one is empty and the new one is not |
| `VaultWriter.Merged` | scripts/vault_writer.py:384-399 | written documents get the merged entry; every other entry is untouched |
| `VaultWriter.MergeRegistry` | scripts/vault_writer.py:384-399 | the loop over the session computes `Merged` |
| `VaultWriter.AscendingUnique` | scripts/vault_writer.py:395 | two strictly ascending lists with the same elements are equal |
| `VaultWriter.MergeEntryIdempotent` | scripts/vault_writer.py:384-399 | merging the same titles into an entry twice changes nothing more |
| `VaultWriter.MergeIdempotent` | scripts/vault_writer.py:384-399 | merging the same session into the registry twice changes nothing more |
| `VaultWriter.WriteStaged` | scripts/vault_writer.py:303-402 | the run sorts the note files MOC-last and processes them; it reports the counts and copies, merges the session into the registry, and saves only when something was written |

## Left out

- I/O: reading and writing files, `glob`, `mkdir`, `shutil.copy2`, JSON encoding and decoding, printing, summaries and exit codes. A file is given as its name, its stem and its content, or as unreadable. The name and the stem are given separately, and the model does not tie the stem to the name without `.md`. "Unreadable" stands for the `OSError` the writer catches. A file that is not valid UTF-8 raises `UnicodeDecodeError`, which ends the run, and that case is not modelled. A copy is recorded as a (destination, name) pair.
- `resolve_conflict` (scripts/vault_writer.py:171-198) is interactive. It is a parameter of the writer: a function from (title, source document) to skip or overwrite. As a function, it always gives the same answer for a repeated pair, which the interactive prompt does not guarantee.
- `parse_frontmatter` keeps `current_key` (scripts/vault_writer.py:131, 156, 159), which nothing ever reads. It is not modelled.
- The messages of `validate_atom_plan`, `validate_tags` and `validate_wikilinks` (scripts/atomize.py:205-296) are f-strings. They are modelled as the `PlanError`, `TagWarning` and `LinkError` datatypes, which carry the values each message interpolates; the message wording is not modelled.
- `pathlib`: `vault_path / folder` is the pair `Dest(vaultPath, folder)`. Path joining is not modelled, so an absolute configured folder, which `/` would put in place of the vault path (scripts/vault_writer.py:224), is not distinguished. `Path.suffix` is modelled; `Path.exists` is a flag.
- python-docx and lxml: loading the document, XML serialisation and how `para.text` is derived. A paragraph's text is the concatenation of its run texts. Its XML is an opaque string in which `w:drawing` and `pic:pic` are looked up.
- CPython `id()` identity: nodes carry explicit unique ids (`UniqueIds`), and lookups in the position map always hit. In the program, the map is keyed by `id(p._p)` of lxml proxies that are freed once `doc.paragraphs` is dropped (scripts/parse_docx.py:141-143). The lookups use `id(child)` of fresh proxies (scripts/parse_docx.py:160-165). CPython may reuse addresses, so a real lookup can miss or hit a stale entry. The table-placement description above and the Findings row describe the behaviour when every lookup hits.
- Regular expressions are hand-coded for the fixed patterns used. `re.IGNORECASE`, `.lower()` and `\d` are modelled as ASCII-only. In Python 3 they are Unicode-aware on `str`; for example, IGNORECASE also lets `ı` and `İ` match `i`. Non-ASCII case folding and non-ASCII decimal digits are therefore left out.
- `load_config`, `tomllib`, the YAML read in `load_tags`, `load_skill_md`, `load_rules`, `assemble_prompt`, `call_claude`, every `main` apart from the vault writer's loop and merge, and `scripts/process.py`.
- `extract_json`'s `json.loads` is left out; only the text handed to it is modelled.
- The file written by `write_proposed_tags`: its header, its `date.today()` section and its formatting. Only the collection of entries is modelled.
- JSON `null` in a plan or registry, and extra registry keys beyond the four read. A missing key is `None`; a present key has the expected type.
- GenerateNotes.SanitizeFilename: `max_bytes` is a `nat`; a negative budget is not modelled. Strings are sequences of code points, so lone surrogates, which `encode("utf-8")` rejects, are not modelled.
- RoundTrip.RenderParseRoundTrip: requires that `date` and `note_type`, once stripped, are not wrapped in double quotes. The parser would unquote them, so the weaker statement would not hold.
- RoundTrip.RenderParseRoundTrip: requires that no field contains a line break or `---`. Otherwise the parser reads a different block, which the program does not guard against.
- RoundTrip.RenderParseRoundTrip: requires a non-empty tag list. With no tags the renderer writes a bare `tags:` line with no items, and `if tag_list:` (scripts/vault_writer.py:162-163) leaves `tags` out of the parsed result, so the tags do not come back as an empty list.

## Findings

| source | as written | input that shows it | evidently intended | confidence | as-written member | corrected member |
|---|---|---|---|---|---|---|
| scripts/parse_docx.py:146-171, 229-237, 284-290 | tables keyed `i` (the last paragraph before them is `i`) are injected at the start of paragraph `i`'s step, before that paragraph; key -1 is never looked up and the end block never fires | body [image paragraph, table] gives the table before "[image]"; body [table, image paragraph] loses the table | each table appears right after the paragraph it follows, and a leading table appears before the first paragraph (document order) | not executed | `DocxPlacement.TableBeforeItsParagraph` | `DocxPlacement.CorrectedKeepsBodyOrder` |
