# Vitamin brand index: the data pipeline and its helpers, in Dafny

The repository publishes a directory of vitamin and supplement brands. Its
brand data are built offline. `tools/merge-brands.mjs` merges three CSV exports
(brands, sources, verifications) into one sorted array of brand records. Two
scripts then check the result: `scripts/validate-brands.mjs` and
`scripts/check-testing-details.mjs`. The web site reads the records through
small helpers:

- `extractOfficialSite` picks a brand's official site from its source URLs.
- `extractKeywordsFromBrand` extracts attribute keywords.
- The product directory infers categories, builds a category index and filters by category.

This project models those parts and proves what they promise.

Modules, one per source file (plus shared helpers):

| module | models |
|---|---|
| `Normalizers` | the cell normalizers of the merge tool: whitespace, punctuation, booleans, integers, lists, testing notes, URLs, brand references, reference-column detection |
| `DateParsing` | `parseDate`: the format list tried in order, and the `new Date` fallback as a parameter |
| `MergeBrands` | `processFiles` as class `Merge`, whose fields are the brand list, the slug, name and ID indexes, the warning and error lists and the counters; its methods are the ingest, source-merge, verification and sort stages |
| `MergeOutcomes` | what decides the exit code of `processFiles`: which rows report errors, and which warnings fail a strict run |
| `OfficialSite` | `extractOfficialSite`: the URL score, the stable ordering and the threshold |
| `Keywords` | `KEYWORDS` and `extractKeywordsFromBrand` |
| `Categories` | `CATEGORY_RULES`, `inferCategories`, `buildCategoryIndex`, `uniqueCategories`, `toggleCat` and the category filter of `ProductDirectory` |
| `ValidateBrands` | the per-brand check loop and exit decision of `validate-brands.mjs` |
| `TestingCoverage` | the partition loop, `formatBrandList`, the coverage percentage and the status of `check-testing-details.mjs` |
| `Text`, `Seqs`, `Sorting`, `Wrappers`, `Urls`, `Patterns`, `Json` | JavaScript string operations; sequence facts; a stable insertion sort as the meaning of `Array.prototype.sort`; `Option`; the parsed-URL record; the abstract regex test; JSON values |

Four things the runtime provides are passed in as parameters and not modelled:

- The URL parser of the WHATWG URL Standard (`new URL`) is `Urls.UrlParser`, a partial function to the URL's parts.
- The `new Date` fallback of `parseDate` is `DateParsing.DateFallback`.
- The regular-expression engine is `Patterns.RegexTest`. Each pattern is kept by its source text and flags.
- Which entries the engine's `Array.prototype.sort` passes to a comparator as its first argument is `TestingCoverage.SortReceivers`. It decides whether the coverage report's comparator meets a slug that is not a string. All the model requires of it (`TestingCoverage.EngineReceivers`) is that a list of two or more entries is compared at least once.

CSV rows are maps from column name to cell. A cell the CSV reader did not
produce is the empty string, and every normalizer treats that like
`undefined`. JavaScript's object references from the lookup maps to brand
records become positions in the brand list.

The code does some things that look unintended. The model follows the code as
written in each case:

- `harmonizePunctuation` (tools/merge-brands.mjs:38-39): the two quote rules replace each character by itself, so only the en/em-dash rule has an effect. `Normalizers.HarmonizeKeepsCurlyQuotes` states this.
- The fourth date format (tools/merge-brands.mjs:227-234) uses the same pattern as the second, so it is never reached. `D-M-YYYY` is read day first. `DateParsing.MonthDayDashUnreachable` and `DateParsing.DashIsDayFirst` state this.
- Duplicate slugs are detected on the lower-cased, whitespace-normalized slug, but the stored slug is also punctuation-harmonized. A slug with an en dash and the same slug with a hyphen are therefore both kept and print alike.
- The `Info:` message for the `sustainablity` migration is pushed to `warnings`, so in strict mode it makes the exit code 1.
- When no reference column is found in the sources file, the source loop still runs and reads the column named `null`. `MergeBrands.ProcessFiles` reports the error and still merges.
- Verification references are looked up lower-cased or trimmed, without `normalizeBrandRef`. A verification row with an empty status is dropped before the lookup and is not counted as orphaned.

## Model

| member | source | states |
|---|---|---|
| `Text.NormalizeWhitespaceShape` | tools/merge-brands.mjs:30-33 | the result is normalized (no leading or trailing whitespace, only single spaces between words), keeps the input's non-space characters in order, and is empty exactly for an all-whitespace input |
| `Text.NormalizeWhitespaceIdempotent` | tools/merge-brands.mjs:30-33 | an already-normalized string is returned unchanged |
| `Text.NormalizeWhitespacePadded` | tools/merge-brands.mjs:30-33 | whitespace around a string does not change its normalization |
| `Text.TrimEmpty` | tools/merge-brands.mjs:193 | trimming gives the empty string exactly when the input is all whitespace |
| `Text.Lower` | tools/merge-brands.mjs:56 | `toLowerCase` keeps the length and lower-cases character by character |
| `Text.Split` | tools/merge-brands.mjs:76 | the pieces never hold the separator and joining them back with it gives the input |
| `Text.LexLeqTotal` | tools/merge-brands.mjs:790 | the string order used for `localeCompare` is total |
| `Sorting.StableSortHead` | tools/merge-brands.mjs:766-776 | the head of the stable sort is the first entry no other entry precedes |
| `Sorting.InsertionSortStable` | tools/merge-brands.mjs:789-791 | elements that compare equal come out in their input order, so brands with the same name keep their file order |
| `Normalizers.HarmonizePunctuation` | tools/merge-brands.mjs:35-41 | the result has the input's length and maps each character on its own |
| `Normalizers.HarmonizeEffect` | tools/merge-brands.mjs:35-41 | no en or em dash survives, every other character is kept, and harmonizing twice is harmonizing once |
| `Normalizers.HarmonizeKeepsCurlyQuotes` | tools/merge-brands.mjs:38-40 | curly quotes pass through unchanged while an en dash becomes `-` |
| `Normalizers.ParseBoolean` | tools/merge-brands.mjs:53-62 | `true` exactly for true/yes/y/1 and `false` exactly for false/no/n/0 after normalizing and lower-casing; nothing for a blank cell |
| `Normalizers.ParseBooleanIgnoresCase` | tools/merge-brands.mjs:56 | the letter case of the cell does not matter |
| `Normalizers.ParseBooleanIgnoresPadding` | tools/merge-brands.mjs:56 | whitespace around the word does not matter |
| `Normalizers.TrueExamples` | tools/merge-brands.mjs:309-313 | `Yes`, `TRUE` and `1` give `true` |
| `Normalizers.FalseExamples` | tools/merge-brands.mjs:310-312 | `no` and `0` give `false` |
| `Normalizers.NoAnswerExamples` | tools/merge-brands.mjs:314-315 | the empty cell and `maybe` give nothing |
| `Normalizers.NormalizeBrandRefShape` | tools/merge-brands.mjs:73-78 | the reference is lower-case, whitespace-normalized and holds no `(` |
| `Normalizers.NormalizeBrandRefDropsSuffix` | tools/merge-brands.mjs:75-76 | everything from the first `(` on is ignored |
| `Normalizers.NormalizeBrandRefIdempotent` | tools/merge-brands.mjs:73-78 | normalizing a normalized reference changes nothing |
| `Normalizers.NonEmptyItems` | tools/merge-brands.mjs:93 | `filter(Boolean)` keeps exactly the non-empty items, in order |
| `Normalizers.ArrayItems` | tools/merge-brands.mjs:92-93 | every split item is non-empty and whitespace-normalized |
| `Normalizers.ParseArray` | tools/merge-brands.mjs:89-102 | an empty cell gives no items; the items are non-empty, normalized and pairwise distinct; they are exactly the split items, in order of first occurrence |
| `Normalizers.ParseArrayOfJoined` | tools/merge-brands.mjs:89-102 | a list of distinct clean items joined by commas parses back to itself |
| `Normalizers.ParseArrayOfFour` | tools/merge-brands.mjs:89-102 | a normalized, dash-free cell of four tokens between runs of `,`/`;` parses to its normalized non-empty tokens, each once, in first-occurrence order |
| `Normalizers.OrganicExample` | tools/merge-brands.mjs:328-331 | `Organic, Vegan ; USP Verified, Vegan` gives `Organic`, `Vegan`, `USP Verified` |
| `Normalizers.ItemsExample` | tools/merge-brands.mjs:332-335 | `Item1,,Item2, item1 ,Item3` gives `Item1`, `Item2`, `item1`, `Item3`: the doubled comma adds no item and case matters for duplicates |
| `Normalizers.ReadInteger` | tools/merge-brands.mjs:117 | `parseInt` succeeds exactly when digits follow the optional sign |
| `Normalizers.ParseInteger` | tools/merge-brands.mjs:113-120 | a number exactly for a non-empty cell whose normalized text starts with optional sign and digits |
| `Normalizers.ParseIntegerOfIntToString` | tools/merge-brands.mjs:113-120 | every integer's decimal numeral parses back to it |
| `Normalizers.ReadIntegerOfDigits` | tools/merge-brands.mjs:117 | a sign followed by digits reads as the signed digit value |
| `Normalizers.ReplaceCrLfPositions` | tools/merge-brands.mjs:138 | the text shrinks by one per CRLF pair; each character moves back by the number of pairs before it and is kept, except the CR of a pair, which becomes the newline |
| `Normalizers.ReplaceCrLfNoCr` | tools/merge-brands.mjs:138 | text without a CR in front of the rest is kept as it is |
| `Normalizers.ReplaceCr` | tools/merge-brands.mjs:138 | each lone CR becomes a newline and nothing else changes |
| `Normalizers.CollapseNewlines` | tools/merge-brands.mjs:141 | no run of three newlines remains, emptiness is kept, and the result starts with a newline exactly when the input does |
| `Normalizers.CollapseNewlinesRunThen` | tools/merge-brands.mjs:141 | a run of `k` newlines before other text becomes exactly two when `k >= 3` and stays as it is otherwise |
| `Normalizers.CollapseNewlinesTextThen` | tools/merge-brands.mjs:141 | text without newlines in front of the rest is kept as it is |
| `Normalizers.CollapseNewlinesAtText` | tools/merge-brands.mjs:141 | runs never join across another character: the text on either side is collapsed on its own |
| `Normalizers.CollapseNewlinesKeepsText` | tools/merge-brands.mjs:141 | the characters other than newlines are kept, in order |
| `Normalizers.CollapseNewlinesOfNoTriple` | tools/merge-brands.mjs:141 | text without a run of three newlines is unchanged |
| `Normalizers.NormalizeTestingNotes` | tools/merge-brands.mjs:132-145 | no notes exactly for an all-whitespace cell; otherwise the notes are non-empty, start and end with a non-space, and hold no CR and no run of three newlines |
| `Normalizers.NotesOfTrimmed` | tools/merge-brands.mjs:135-144 | a non-blank cell's notes are its trimmed text with line endings turned into newlines and newline runs cut to two |
| `Normalizers.NormalizeTestingNotesIdempotent` | tools/merge-brands.mjs:132-145 | normalizing normalized notes changes nothing |
| `Normalizers.PaddedNotesExample` | tools/merge-brands.mjs:382 | `  Notes with spaces  ` gives `Notes with spaces` |
| `Normalizers.CrLfNotesExample` | tools/merge-brands.mjs:383 | `Line 1\r\nLine 2\r\nLine 3` gives `Line 1\nLine 2\nLine 3` |
| `Normalizers.BlankLinesNotesExample` | tools/merge-brands.mjs:384 | `Line 1\n\n\n\nLine 2` gives `Line 1\n\nLine 2` |
| `Normalizers.BlankNotesExamples` | tools/merge-brands.mjs:385-387 | the empty cell and an all-space cell give no notes |
| `Normalizers.StripTrailingSlash` | tools/merge-brands.mjs:177-179 | exactly one trailing `/` is removed, and nothing else |
| `Normalizers.NormalizeUrl` | tools/merge-brands.mjs:166-185 | a result exactly when the URL validates as http or https |
| `Normalizers.NormalizeUrlParts` | tools/merge-brands.mjs:170-180 | the result is the scheme, user info, lower-cased host and port, then the path, query and fragment as parsed, less one trailing `/` |
| `Normalizers.NormalizeUrlHostCase` | tools/merge-brands.mjs:173 | URLs that differ only in the case of the host normalize alike |
| `Normalizers.NormalizeUrlOfParts` | tools/merge-brands.mjs:170-180 | an http(s) URL normalizes to the serialization of its parts with the host lower-cased, less one trailing `/` |
| `Normalizers.NormalizeUrlExampleRoot` | tools/merge-brands.mjs:367 | `https://Example.com/` normalizes to `https://example.com` |
| `Normalizers.NormalizeUrlExamplePath` | tools/merge-brands.mjs:368 | `http://test.org/Path/To/Resource/` gives `http://test.org/Path/To/Resource`, path case kept |
| `Normalizers.NormalizeUrlExampleNotUrl` | tools/merge-brands.mjs:369 | `not a url`, which the parser rejects, gives nothing |
| `Normalizers.CanonicalUrlKey` | tools/merge-brands.mjs:187-190 | the key is the whole URL lower-cased, character by character |
| `Normalizers.FirstIdColumn` | tools/merge-brands.mjs:423 | the first header mentioning `id` but not `slug`, or none when no header does |
| `Normalizers.FindBrandRefKey` | tools/merge-brands.mjs:407-429 | the preferred column when present; otherwise the first of `brand_slug`, `slug`, `brand` present, then the first ID-like column; none exactly when none of these exists |
| `DateParsing.Pad2` | tools/merge-brands.mjs:204 | zero-padding keeps the number and gives two digits |
| `DateParsing.IsoDate` | tools/merge-brands.mjs:202-205 | the date is `YYYY-MM-DD`, with the year as given and the month and day values kept |
| `DateParsing.TryFormat` | tools/merge-brands.mjs:198-235 | every format that matches yields `YYYY-MM-DD` |
| `DateParsing.FirstFormat` | tools/merge-brands.mjs:237-240 | a result exactly when some format matches, and it is an ISO date |
| `DateParsing.ParseDate` | tools/merge-brands.mjs:192-253 | a blank cell gives no date |
| `DateParsing.ParseDateOfWord` | tools/merge-brands.mjs:195 | a cell without whitespace is parsed as it stands |
| `DateParsing.FirstFormatShadowed` | tools/merge-brands.mjs:237-240 | a format that matches only where an earlier one does adds nothing to the list |
| `DateParsing.MonthDayDashUnreachable` | tools/merge-brands.mjs:209-234 | the fourth format never decides the result |
| `DateParsing.SlashIsMonthFirst` | tools/merge-brands.mjs:200-207 | `M/D/YYYY` is read month first |
| `DateParsing.DashIsDayFirst` | tools/merge-brands.mjs:209-216 | `D-M-YYYY` is read day first |
| `DateParsing.YearFirstAccepted` | tools/merge-brands.mjs:218-225 | `YYYY-M-D`, with or without a `T…` time holding no line terminator, is read year first |
| `DateParsing.SlashExample` | tools/merge-brands.mjs:351 | `9/3/2025` gives `2025-09-03` |
| `DateParsing.TimestampExample` | tools/merge-brands.mjs:352 | `2025-09-03T12:00:00Z` gives `2025-09-03` |
| `DateParsing.DashExample` | tools/merge-brands.mjs:353 | `03-09-2025` gives `2025-09-03` |
| `DateParsing.InvalidExample` | tools/merge-brands.mjs:354 | `invalid date` matches no format, so it gives nothing when the `new Date` fallback rejects it too |
| `DateParsing.NoDigitNoFormat` | tools/merge-brands.mjs:198-240 | a cell that does not start with a digit matches no format |
| `MergeBrands.FieldsOfEntries` | tools/merge-brands.mjs:596-636 | the record holds exactly the schema fields whose non-empty cell converts, each with its converted value |
| `MergeBrands.FieldWarningsOfShape` | tools/merge-brands.mjs:607-620 | at most one warning per field, each about a boolean or number cell that does not parse |
| `MergeBrands.FieldLoop` | tools/merge-brands.mjs:596-636 | the field loop builds exactly the record and the warnings of the field-by-field definition |
| `MergeBrands.BuildRecord` | tools/merge-brands.mjs:592-645 | the record and the warnings of a kept row, including the `sustainablity` migration |
| `MergeBrands.IdKeys` | tools/merge-brands.mjs:653-658 | no ID key is empty |
| `MergeBrands.IdsIndexedEntries` | tools/merge-brands.mjs:653-658 | each non-blank trimmed ID cell now leads to the new brand; other entries are kept |
| `MergeBrands.NewSource` | tools/merge-brands.mjs:709-716 | a source keeps its URL and carries a title exactly when the cleaned title is non-empty and differs from the URL ignoring case |
| `MergeBrands.AddSource` | tools/merge-brands.mjs:698-717 | the sources only grow at the end, by one entry exactly when the canonical key is new |
| `MergeBrands.AddSourceDistinct` | tools/merge-brands.mjs:698-717 | adding a source keeps the canonical keys pairwise distinct |
| `MergeBrands.SourceTarget` | tools/merge-brands.mjs:667-682 | the brand found is one of the indexed brands; a row without a reference finds none |
| `MergeBrands.SourcesAfterAppends` | tools/merge-brands.mjs:684-717 | only brand `i` changes, and only by appending one source under a new key for a valid URL |
| `MergeBrands.SourcesAfterDistinct` | tools/merge-brands.mjs:698-717 | no brand ever holds two sources with one canonical key |
| `MergeBrands.UrlWarnings` | tools/merge-brands.mjs:690-695 | one warning exactly for a present URL that fails validation |
| `MergeBrands.EventOrderTotal` | tools/merge-brands.mjs:766-774 | the event order (dated before undated, later dates first) is a total preorder |
| `MergeBrands.LatestIndex` | tools/merge-brands.mjs:766-776 | the chosen event ranks at least as high as every other, and no earlier event ties with it |
| `MergeBrands.LatestIsSortHead` | tools/merge-brands.mjs:766-776 | the chosen event is the head of the stable sort |
| `MergeBrands.VerificationTarget` | tools/merge-brands.mjs:746-748 | no brand found exactly when the lower-cased reference is neither slug nor name and the trimmed one is no ID |
| `MergeBrands.VerificationRowShape` | tools/merge-brands.mjs:725-761 | a row yields an event exactly when it has a reference, a status and a brand; it is orphaned exactly when the reference is empty or names no brand; at most two warnings |
| `MergeBrands.AddEvent` | tools/merge-brands.mjs:756-760 | the event is appended to its brand's list and the other lists are untouched |
| `MergeBrands.TalliesAppend` | tools/merge-brands.mjs:725-761 | warnings and orphan counts accumulate row by row |
| `MergeBrands.GroupOutcomes` | tools/merge-brands.mjs:725-761 | the grouping loop collects every row's event under its brand, in row order, with the row warnings and orphan count |
| `MergeBrands.Applied` | tools/merge-brands.mjs:776-784 | the status is written when non-empty and the date only when present; every other field and the sources are untouched |
| `MergeBrands.ApplyEvents` | tools/merge-brands.mjs:764-785 | each brand with events takes its latest event and the rest are untouched |
| `MergeBrands.BrandOrderTotal` | tools/merge-brands.mjs:789-791 | the brand-name order is a total preorder |
| `MergeBrands.Merge.constructor` | tools/merge-brands.mjs:460-474 | no brands, empty indexes, zero counters and the column-check messages |
| `MergeBrands.Merge.IngestRow` | tools/merge-brands.mjs:570-661 | a row without brand or slug adds exactly the error naming the missing field and is skipped; a repeated slug (ignoring case) adds exactly the duplicate-slug warning and is skipped as a duplicate; otherwise a record with no sources is appended and indexed by slug, name and IDs, and exactly its field and migration warnings are added; the counters follow |
| `MergeBrands.Merge.Keep` | tools/merge-brands.mjs:647-660 | the kept record takes the next position and is indexed |
| `MergeBrands.Merge.IndexIds` | tools/merge-brands.mjs:653-658 | the ID loop adds the row's IDs to the ID index |
| `MergeBrands.IngestedKeepsRows` | tools/merge-brands.mjs:570-661 | no brand row with a brand and a slug is lost: its lower-cased slug is indexed afterwards; earlier brands are kept and each row adds at most one |
| `MergeBrands.Merge.Ingest` | tools/merge-brands.mjs:570-661 | the brands and the indexes are those of the row rule (`IngestStep`) applied row after row; the errors gain exactly `IngestErrors` and the warnings exactly `IngestWarnings`, each row's messages in row order; `duplicateSlugs` grows by `DuplicateCount`, one row is processed per input row, and the orphan counters are unchanged |
| `MergeBrands.Merge.FindSourceBrand` | tools/merge-brands.mjs:665-682 | the target brand is the one the slug, name or ID index gives, and orphans are counted |
| `MergeBrands.Merge.AttachUrl` | tools/merge-brands.mjs:684-717 | the brand's sources and the warnings change as the source-merge definition says |
| `MergeBrands.Merge.SourceRow` | tools/merge-brands.mjs:664-718 | the brands become `SourceStep`: the row's URL is attached to the brand its reference names, and an orphaned row changes no brand; sources only grow; the warnings gain exactly the invalid-URL warning of a row reaching a brand (`SourceRowWarnings`); the row is processed, counted as orphaned exactly when no brand is found, and no other counter changes |
| `MergeBrands.Merge.GrowSources` | tools/merge-brands.mjs:684-717 | the brands become `SourcesAfter` for the target brand, so fields are kept and sources only grow; the warnings gain exactly `UrlWarnings`: one warning for a present URL that fails validation |
| `MergeBrands.Merge.MergeSources` | tools/merge-brands.mjs:664-718 | the brands are those of `SourceStep` applied row after row; indexes and errors are left alone, sources only grow; the warnings gain exactly `SourceWarnings`, every row is processed and `sourcesOrphaned` grows by `SourceOrphans`, the rows naming no brand |
| `MergeBrands.Merge.GroupVerifications` | tools/merge-brands.mjs:725-761 | the events, warnings and counters are those of the row-by-row definition, and every event names a kept brand |
| `MergeBrands.Merge.ApplyVerifications` | tools/merge-brands.mjs:764-785 | each brand with events takes its latest event |
| `MergeBrands.Merge.SortBrands` | tools/merge-brands.mjs:789-791 | the brands are the stable sort by name of the previous brands |
| `MergeBrands.Merge.LoadRows` | tools/merge-brands.mjs:570-718 | the indexes are those the brand rows build, and the brands are the ingested brands with the source rows applied; the errors gain exactly `IngestErrors`, the warnings exactly `IngestWarnings` then `SourceWarnings`; `duplicateSlugs` and `sourcesOrphaned` grow by `DuplicateCount` and `SourceOrphans` |
| `MergeBrands.Merge.LoadVerifications` | tools/merge-brands.mjs:721-785 | the indexes are unchanged and each brand takes the status and date of the latest event of the rows naming it (`Verified`); the warnings gain exactly each row's date and orphan warnings in row order (`VerificationWarnings`); every row is processed and `verificationsOrphaned` grows by the orphaned rows (`OrphanCount`) |
| `MergeBrands.Merge.Run` | tools/merge-brands.mjs:570-791 | the brands are the stable sort by name of `Loaded`, the three stages applied to the previous state; the output is sorted, no brand holds two sources with one key; the errors gain exactly `IngestErrors`, the warnings exactly `LoadedWarnings` (brand, source, then verification rows); every counter grows by its exact count |
| `MergeBrands.RunStages` | tools/merge-brands.mjs:460-791 | from an empty merger the output is `MergedBrands`; the warnings are the column checks' followed by `StageWarnings`, the errors the column checks' followed by `IngestErrors`; every counter has its exact value (`CountsRun`) |
| `MergeBrands.UnknownColumnsOf` | tools/merge-brands.mjs:541 | exactly the headers outside the schema |
| `MergeBrands.VerificationKey` | tools/merge-brands.mjs:548 | a reference column exactly when there is a verifications file with one |
| `MergeBrands.ProcessFiles` | tools/merge-brands.mjs:459-826 | the output is `MergedBrands`: the brand, source and verification stages from an empty state, then the stable sort by name, with distinct source keys; the warnings are exactly `MergedWarnings` and the errors exactly `MergedErrors`; every counter is exact (`CountsRun`); the exit code is `ExitCode`: 1 exactly when there are errors or, in strict mode, warnings |
| `MergeBrands.IngestErrors` | tools/merge-brands.mjs:577-581 | the brand rows' errors: at most one per row, each a missing-field error |
| `MergeBrands.DuplicateCount` | tools/merge-brands.mjs:584-589 | the duplicate count never exceeds the number of rows |
| `MergeBrands.SourceOrphans` | tools/merge-brands.mjs:667-682 | the orphan count never exceeds the number of source rows |
| `MergeOutcomes.IngestErrorsExactly` | tools/merge-brands.mjs:577-581 | the brand rows report an error exactly when one of them lacks its brand or its slug |
| `MergeOutcomes.IngestErrorsFromMissing` | tools/merge-brands.mjs:577-581 | every error of the brand rows comes from a row lacking its brand or its slug |
| `MergeOutcomes.IngestErrorsReport` | tools/merge-brands.mjs:577-578 | a row lacking its brand or slug reports that field among the errors |
| `MergeOutcomes.MissingFieldFails` | tools/merge-brands.mjs:823-826 | a brand row without brand or slug puts its error (line 578) in the run's errors, so the exit code is 1, strict or not |
| `MergeOutcomes.LenientExitCode` | tools/merge-brands.mjs:815-826 | outside strict mode the exit code is 1 exactly when the sources file has no reference column (lines 550-553) or a brand row lacks its brand or slug (lines 577-581) |
| `MergeOutcomes.MergedWarningsParts` | tools/merge-brands.mjs:459-761 | the run's warnings are the column checks', then the brand rows', the source rows' and the verification rows', in that order |
| `MergeOutcomes.IngestWarningsInclude` | tools/merge-brands.mjs:570-661 | every warning of a brand row is among the warnings of all the brand rows |
| `MergeOutcomes.SourceWarningsInclude` | tools/merge-brands.mjs:664-718 | every warning of a source row is among the warnings of all the source rows |
| `MergeOutcomes.InvalidUrlReported` | tools/merge-brands.mjs:690-695 | a source row reaching a brand with a URL that does not validate leaves an invalid-URL warning for that URL among the source rows' warnings |
| `MergeOutcomes.VerificationWarningsInclude` | tools/merge-brands.mjs:725-761 | every warning of a verification row is among the warnings of all the verification rows |
| `MergeOutcomes.StrictBrandRowFails` | tools/merge-brands.mjs:585-643 | a brand row that warns (duplicate slug, unparseable boolean or number, migration) has its warnings reported, so a strict run exits with 1 (lines 816-820) |
| `MergeOutcomes.DuplicateSlugFailsStrict` | tools/merge-brands.mjs:584-589 | of two complete rows whose slugs agree up to case, the later one is reported as a duplicate, which fails a strict run (lines 816-820) |
| `MergeOutcomes.InvalidUrlFailsStrict` | tools/merge-brands.mjs:690-695 | a source row reaching a kept brand with a URL that does not validate is reported, which fails a strict run (lines 816-820) |
| `MergeOutcomes.OrphanedVerificationFailsStrict` | tools/merge-brands.mjs:744-754 | a verification row with a status whose reference names no brand is reported as orphaned, which fails a strict run (lines 816-820) |
| `MergeOutcomes.BadDateFailsStrict` | tools/merge-brands.mjs:736-741 | a verification row with a reference and a non-empty date that does not parse is reported, which fails a strict run (lines 816-820) |
| `OfficialSite.RegistrableDomainSuffix` | src/lib/extractOfficialSite.ts:38-41 | the registrable domain ends the host name and is the whole name or follows a dot |
| `OfficialSite.RegistrableDomainDots` | src/lib/extractOfficialSite.ts:38-41 | it holds at most one dot, and exactly one unless it is the whole host name |
| `OfficialSite.UrlScore` | src/lib/extractOfficialSite.ts:51-74 | the score of a parsed URL lies between -7 and 8 |
| `OfficialSite.AnyTokenIn` | src/lib/extractOfficialSite.ts:57-62 | the token loop finds a token exactly when some brand token is in the domain |
| `OfficialSite.Score` | src/lib/extractOfficialSite.ts:50-74 | the step-by-step score equals the sum of the rules, within -7 to 8 |
| `OfficialSite.Candidate` | src/lib/extractOfficialSite.ts:33-85 | an unparseable URL scores -999 with infinite length; a parsed one scores -7 to 8 with its own length |
| `OfficialSite.BeforeTotal` | src/lib/extractOfficialSite.ts:88-91 | the candidate order (higher score, then shorter) is a total preorder |
| `OfficialSite.ScoreSources` | src/lib/extractOfficialSite.ts:33-85 | one candidate per source, in order |
| `OfficialSite.ExtractOfficialSite` | src/lib/extractOfficialSite.ts:11-95 | none for no sources or no brand name; otherwise a result exactly when some score exceeds -5, and it is a source with the highest score, the shortest among those, and the earliest among ties; none when no URL parses |
| `Keywords.HaystackCoversFields` | src/lib/normalizeAttributes.ts:39-48 | the haystack contains the brand, every certification, every source and the notes |
| `Keywords.AnyPatternMatches` | src/lib/normalizeAttributes.ts:52-57 | the pattern loop finds a match exactly when one of the patterns matches |
| `Keywords.ExtractKeywords` | src/lib/normalizeAttributes.ts:51-60 | labels appear at most once, in table order, and a label is present exactly when one of its patterns matches |
| `Keywords.ExtractKeywordsFromBrand` | src/lib/normalizeAttributes.ts:34-61 | the same over the brand's haystack, so at most seven labels |
| `Categories.RuleNamesDistinct` | src/components/ProductDirectory.tsx:13-27 | the rule names are distinct and none is `Other` |
| `Categories.MatchedNamesMembers` | src/components/ProductDirectory.tsx:31 | a name is matched exactly when its rule's pattern matches |
| `Categories.MatchedNamesOrdered` | src/components/ProductDirectory.tsx:31 | matched names follow the rule order |
| `Categories.CategoriesByShape` | src/components/ProductDirectory.tsx:29-33 | categories of distinct rules are non-empty, distinct and in rule order; `Other` exactly when no rule matches |
| `Categories.InferCategoriesShape` | src/components/ProductDirectory.tsx:29-33 | `inferCategories` is never empty, has no duplicates, is `["Other"]` exactly when no rule matches, follows the rule order, and holds exactly the matching rules' names |
| `Categories.FileUnderShape` | src/components/ProductDirectory.tsx:38-41 | filing a slug adds it under each of its categories and nowhere else |
| `Categories.VisitedCategoriesMembers` | src/components/ProductDirectory.tsx:37-38 | the visited categories are exactly those of some product |
| `Categories.CategoryIndexShape` | src/components/ProductDirectory.tsx:35-44 | the keys are exactly the inferred categories, and a slug is under a category exactly when some product with that slug has it |
| `Categories.FileProduct` | src/components/ProductDirectory.tsx:38-41 | the inner loop files one product and adds its new categories to the keys in first-seen order |
| `Categories.BuildCategoryIndex` | src/components/ProductDirectory.tsx:35-44 | the nested loops build the index of the definition, with keys in insertion order |
| `Categories.CategoryLeTotal` | src/components/ProductDirectory.tsx:47-51 | the menu order is a total preorder |
| `Categories.UniqueCategories` | src/components/ProductDirectory.tsx:46-52 | a permutation of the keys with `Other` last and the others ascending |
| `Categories.ToggleCat` | src/components/ProductDirectory.tsx:81-85 | the category's membership flips, other memberships stay, and the other entries keep their order; an absent category is appended once, at the end |
| `Categories.ToggleCatTwice` | src/components/ProductDirectory.tsx:81-85 | toggling an absent category twice gives back the selection |
| `Categories.FilterByCategories` | src/components/ProductDirectory.tsx:70-79 | no selection gives the base list; otherwise exactly the base products, in order, with a selected category |
| `ValidateBrands.CheckBrandMeaning` | scripts/validate-brands.mjs:53-80 | a falsy slug gives exactly the missing-slug error; absent notes give no error; non-string notes give the type error; blank strings give the emptiness error; counted notes give no error |
| `ValidateBrands.ErrorsAndCountBounded` | scripts/validate-brands.mjs:48-80 | errors plus counted notes never exceed the number of brands |
| `ValidateBrands.ErrorsOfEmpty` | scripts/validate-brands.mjs:53-80 | no error exactly when every brand passes |
| `ValidateBrands.CheckBrands` | scripts/validate-brands.mjs:53-80 | the loop crashes exactly on a null entry; otherwise it collects every brand's error and counts the valid notes |
| `ValidateBrands.Validate` | scripts/validate-brands.mjs:42-96 | exit 0 exactly for an array with no null entry whose brands all pass; 1 otherwise |
| `TestingCoverage.ListingSizes` | scripts/check-testing-details.mjs:57-75 | the two lists together hold one entry per well-formed brand, at most the total |
| `TestingCoverage.ListingMembers` | scripts/check-testing-details.mjs:57-75 | a well-formed brand is in the with-notes list exactly when its notes are an own non-blank string, and in the other list otherwise |
| `TestingCoverage.Partition` | scripts/check-testing-details.mjs:57-75 | the loop crashes exactly on a null entry; otherwise it builds both lists of the definition |
| `TestingCoverage.SlugLeTotal` | scripts/check-testing-details.mjs:92 | the slug order is a total preorder |
| `TestingCoverage.ShownShape` | scripts/check-testing-details.mjs:89-93 | the shown entries number `min(n, maxCount)`, are sorted by slug, come from the list, and none sorts after a left-out one |
| `TestingCoverage.BulletLinesCount` | scripts/check-testing-details.mjs:89-95 | one bullet line per shown entry |
| `TestingCoverage.FormatBrandListEllipsis` | scripts/check-testing-details.mjs:97-100 | the text ends with the `… and N more` line exactly when entries were left out |
| `TestingCoverage.CoveragePercent` | scripts/check-testing-details.mjs:119-120 | 0 for no brands; otherwise the exact percentage rounded half up, at most 100 |
| `TestingCoverage.StatusMonotone` | scripts/check-testing-details.mjs:127-133 | a higher percentage never gives a lower status |
| `TestingCoverage.SortThrows` | scripts/check-testing-details.mjs:92 | sorting a list throws only when it has two or more entries and one of them has a slug that is not a string |
| `TestingCoverage.CompletesWithStringSlugs` | scripts/check-testing-details.mjs:57-116 | when every listed slug is a string, the report runs to the end for every array without a null entry, whatever the engine's sort does |
| `TestingCoverage.NonStringSlugsThrow` | scripts/check-testing-details.mjs:92 | whatever the engine, sorting two or more entries none of whose slugs is a string throws |
| `TestingCoverage.NonStringSlugsFail` | scripts/check-testing-details.mjs:57-116 | two or more well-formed brands in one list and no string slug: the report does not complete, so the exit code is 1 |
| `TestingCoverage.CheckTestingDetails` | scripts/check-testing-details.mjs:48-133 | for an engine whose sort compares any list of two or more entries: exit 0 exactly for an array with no null entry whose two lists sort without the comparator meeting a non-string slug; then the lists, the total, the percentage and the status of the definitions; 1 otherwise with no report |

## Left out

- Reading files, CSV parsing, JSON parsing, writing the output, dry-run temp files, console output, command-line parsing and `process.exit` are not modelled. CSV rows are given as sequences of maps, and JSON input is given as an optional value, absent when parsing fails. Exit codes are returned values.
- The `(none)` lines and the printed summaries of the two scripts are not modelled.
- The merge tool's built-in self-test runner (`runTests`) and its messages are not modelled. Each of its cases is a lemma: `Normalizers.TrueExamples`, `FalseExamples`, `NoAnswerExamples`, `OrganicExample`, `ItemsExample`, the `DateParsing` examples, the `NormalizeUrlExample` lemmas and the notes examples. The URL cases take the parser's answer as a premise, and `invalid date` takes the `new Date` fallback's. A `null` notes cell is the empty cell in the model, so that case is the empty one.
- The WHATWG URL parser, the `new Date` fallback of `parseDate` and the regular-expression engine are parameters. Their results are not modelled.
- `toLowerCase` is modelled on ASCII letters only. `\s` is the set of JavaScript whitespace characters, compared by code point.
- `localeCompare` is modelled as code-unit lexicographic order.
- The in-place sorts (verification events, brands, categories, slugs, candidates) are modelled as a stable sort of a copy. The brand indexes are not read after the sort, so positions stay valid.
- The `Fuse.js` search is not modelled. `FilterByCategories` takes its base list as given.
- `MergeBrands.Merge.Run`: the brand-name sort is stated on the name strings, without `(a.brand || '')` for a missing name. Kept brands always have a name.
- `TestingCoverage.CoveragePercent`: states exact round-half-up of `100 * with / total`. The floating-point `Math.round` can differ on ties that are not exact in binary.
- `TestingCoverage.FormatBrandList` takes entries whose slug and brand are strings, the documented parameter type. Printing the partition's JSON values through template strings is not modelled.
- `Categories.UniqueCategories`: the comparator's answer for two `Other` keys is not modelled, because the keys of a map are distinct.
- `Categories.BuildCategoryIndex`: setting an empty set and then adding the slug is one map update.
- `DateParsing.ParseDate`: states only that blank cells give no date. The formats are covered by the lemmas about `FirstFormat`. The fallback is a parameter.
- `ValidateBrands.Validate` and `TestingCoverage.CheckTestingDetails`: a `null` entry in the array makes the scripts throw when reading `slug`. This is modelled as a crash with exit code 1.
- `Normalizers.ParseInteger`: integers are exact and unbounded. `parseInt` returns a double, so values above 2^53 are rounded (`9007199254740993` reads as `9007199254740992`), and a run of about 310 digits or more gives `Infinity`, which the JSON output writes as `null`.
- `Normalizers.ReadIntegerOfDigits`: the exact digit value, with the same double rounding left out as for `ParseInteger`.
- `Normalizers.ParseIntegerOfIntToString`: the round trip holds for the exact integers of the model; for the doubles of `parseInt` it holds only up to 2^53 in magnitude.
- `TestingCoverage.CheckTestingDetails`: which entries the engine's sort hands to the comparator first is a parameter, required only to include one entry of any list of two or more. The model proves that lists of strings, and lists under two entries, never make it throw, and that lists of two or more with no string slug always do; for mixed lists the outcome depends on the engine.
- `OfficialSite.ExtractOfficialSite`: tokens are split on whitespace runs and lower-cased on ASCII letters, like the rest of the model.
- `OfficialSite.ExtractOfficialSite`: the shorter-URL tie-break compares `|url|`, the number of characters, while `url.length` (src/lib/extractOfficialSite.ts:79, :90) counts UTF-16 code units. The two differ only for source URLs holding characters outside the Basic Multilingual Plane, which count once here and twice in JavaScript.
