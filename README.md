# PDF merger — a Dafny model

This project models the logic of the browser-side PDF merger tool. A user
builds a list of up to 10 PDF files of at most 10 MB each. Each file gets a
page-range text, "1-N" by default. The merge then copies the selected pages
of every file, in list order, into one downloaded document.

The model has four parts.

- `JsBuiltins` (js_builtins.dfy): the JavaScript semantics the code relies on.
  - `Number` on text: the `String.prototype.trim` whitespace is ignored, blank text is 0, and a sign, `Infinity`, 0x/0o/0b literals and decimal literals with a fraction or an exponent are read (a value that is not an integer lies outside the model).
  - NaN and the infinities.
  - `Math.max` and `Math.min`, which propagate NaN.
  - The `ToLength` conversion and the RangeError of `Array.from`.
  - `split` on one character.
- `PageRange` (page_range.dfy): `parseRange` as a pure function. `PageRangeProperties` (page_range_properties.dfy) proves what it promises. `PageRangeExamples` (page_range_examples.dfy) resolves concrete texts for small documents.
- `PdfMerger` (pdf_merger.dfy): the state of the merger component, as the class `DocumentList`.
  - Its fields are the three aligned lists `files`, `pageCounts` and `pageRanges`, plus `merging` and `error`.
  - Its handlers are batch admission, removal, the two moves, range edits and the merge.
  - The merge loop is a `while` loop, proved against the specification function `Merge`.
- `FileUploader` (file_uploader.dfy): the upload zone's PDF-only gate and its guards against dropping or picking files while merging or at the file limit.

pdf-lib is abstracted as the page count each file yields when it is loaded (`File.pages`, None when loading fails). The download is modelled as its file name and the sequence of (file position, page index) pairs it holds.

## Model

| member | source | states |
|---|---|---|
| JsBuiltins.Max | src/tools/pdf-merger/PdfMerger.js:24-25 | `Math.max` of two numbers: NaN when either is NaN, otherwise the larger; its properties are stated by `MaxMin` |
| JsBuiltins.Min | src/tools/pdf-merger/PdfMerger.js:24-25 | `Math.min` of two numbers: NaN when either is NaN, otherwise the smaller; its properties are stated by `MaxMin` |
| JsBuiltins.Add | src/tools/pdf-merger/PdfMerger.js:26 | `+` on numbers, with NaN and the infinities; its properties are stated by `AddSub` |
| JsBuiltins.Sub | src/tools/pdf-merger/PdfMerger.js:26 | `-` on numbers, as addition of the negation; its properties are stated by `AddSub` |
| JsBuiltins.ToLength | src/tools/pdf-merger/PdfMerger.js:26 | The length conversion `Array.from` applies to `length`; its range is stated by `ToLengthRange` |
| JsBuiltins.LessOrder | src/tools/pdf-merger/PdfMerger.js:24-28 | Relational comparison of numbers is a strict order on non-NaN values, and NaN compares with nothing |
| JsBuiltins.MaxMin | src/tools/pdf-merger/PdfMerger.js:24-28 | `Math.max`/`Math.min` are NaN exactly when an argument is NaN; otherwise they return the larger or smaller argument |
| JsBuiltins.AddSub | src/tools/pdf-merger/PdfMerger.js:26 | Addition and subtraction are exact on finite values; they are NaN exactly for a NaN operand or opposite infinities |
| JsBuiltins.ToLengthRange | src/tools/pdf-merger/PdfMerger.js:26 | The array length `Array.from` derives is 0 for NaN, negative values and -Infinity, and the value itself up to 2^53-1, where it saturates |
| JsBuiltins.Split | src/tools/pdf-merger/PdfMerger.js:20 | Splitting on one character always yields at least one piece |
| JsBuiltins.SplitNoSeparator | src/tools/pdf-merger/PdfMerger.js:20 | A text without the separator splits into itself alone |
| JsBuiltins.SplitConcat | src/tools/pdf-merger/PdfMerger.js:20 | Splitting `a + sep + b` gives the pieces of `a` followed by the pieces of `b` |
| JsBuiltins.SplitPieces | src/tools/pdf-merger/PdfMerger.js:23 | No piece of a split contains the separator |
| JsBuiltins.JoinSplit | src/tools/pdf-merger/PdfMerger.js:20 | Joining the pieces of a split with the separator gives back the text |
| JsBuiltins.NatToString | src/tools/pdf-merger/PdfMerger.js:61 | The decimal text of a count is non-empty, all digits, with no leading zero |
| JsBuiltins.ToNumber | src/tools/pdf-merger/PdfMerger.js:23-28 | `Number` on text: surrounding whitespace is ignored, blank text is 0, otherwise the value of the numeric literal, or NaN. Its properties are stated by the `ToNumber…` lemmas below |
| JsBuiltins.NumericLiteral | src/tools/pdf-merger/PdfMerger.js:23-28 | The literal grammar `Number` reads after trimming: 0x/0o/0b integers without a sign, otherwise an optional sign before `Infinity` or a decimal literal, and NaN for anything else. Stated through `ToNumberOfLiteral`, `ToNumberOfDecimal` and the `ToNumber…` lemmas |
| JsBuiltins.DecimalValue | src/tools/pdf-merger/PdfMerger.js:23-28 | A decimal literal: digits, an optional fraction after '.' and an optional exponent after 'e' or 'E'. An integer value is exact; a value that is not an integer is NaN (see "Left out") |
| JsBuiltins.DigitsValue | src/tools/pdf-merger/PdfMerger.js:23-28 | A plain digit string is read as the integer it spells |
| JsBuiltins.ToNumberOfDecimal | src/tools/pdf-merger/PdfMerger.js:23-28 | A literal that starts with a digit and has no 0x/0o/0b prefix is read as a decimal literal |
| JsBuiltins.ZeroFractionValue | src/tools/pdf-merger/PdfMerger.js:28 | Digits followed by ".0" have the value of the digits |
| JsBuiltins.ExponentValue | src/tools/pdf-merger/PdfMerger.js:28 | Digits w, then "e" and digits x, have the value w·10^x |
| JsBuiltins.ToNumberBlank | src/tools/pdf-merger/PdfMerger.js:28 | `Number` of empty or whitespace-only text is 0 |
| JsBuiltins.ToNumberIgnoresSurroundingWhitespace | src/tools/pdf-merger/PdfMerger.js:23 | Whitespace before and after a token does not change the number it denotes |
| JsBuiltins.ToNumberOfNatToString | src/tools/pdf-merger/PdfMerger.js:61 | The decimal text of a count reads back as that count |
| JsBuiltins.ToNumberOfZeroFraction | src/tools/pdf-merger/PdfMerger.js:28 | `Number(String(n) + ".0")` is n |
| JsBuiltins.ToNumberOfExponent | src/tools/pdf-merger/PdfMerger.js:28 | `Number(String(n) + "e" + String(x))` is n·10^x |
| PageRange.ParseRange | src/tools/pdf-merger/PdfMerger.js:17-36 | `parseRange`: the comma tokens expanded in order and filtered to valid indices, or [] when the expansion throws. Its properties are stated by the `PageRangeProperties` lemmas below |
| PageRange.Run | src/tools/pdf-merger/PdfMerger.js:26 | `Array.from` of the run from start-1 for `ToLength(end - start + 1)` values, or a throw when that length exceeds 2^32-1; its values are stated by `RunToken` |
| PageRange.ExpandPart | src/tools/pdf-merger/PdfMerger.js:21-31 | The `flatMap` callback: a token with '-' gives the run between its clamped ends, any other token its clamped page minus one. Stated by `RangeToken`, `RangeTokenNaN` and `SingleToken` |
| PageRange.FlatMap | src/tools/pdf-merger/PdfMerger.js:21-31 | `flatMap`: the callback results concatenated in order, or a throw when any callback throws; stated by `FlatMapConcat` and `FlatMapSingle` |
| PageRange.ExpandParts | src/tools/pdf-merger/PdfMerger.js:19-31 | `flatMap` of the callback over the comma tokens; that it never throws for real page counts is stated by `NoPartThrows` |
| PageRange.KeepIndices | src/tools/pdf-merger/PdfMerger.js:32 | The filter keeps the finite values in [0, max), in order; stated by `KeepIndicesBound`, `KeepIndicesAllValid` and `KeepIndicesConcat` |
| PageRange.Numbers | src/tools/pdf-merger/PdfMerger.js:23 | `map(Number)` gives one number per piece: number k is `Number` of piece k |
| PageRange.RangeEnds | src/tools/pdf-merger/PdfMerger.js:23 | The start and end of a range token: the numbers of its first two '-' pieces, the end NaN when there is no second piece; stated by `RangeEndsOfText` |
| PageRange.ExpandRange | src/tools/pdf-merger/PdfMerger.js:24-26 | The run between the start raised to 1 and the end lowered to max; stated by `ClampEnds`, `RunToken` and `RangeToken` |
| PageRange.ExpandPage | src/tools/pdf-merger/PdfMerger.js:28-29 | A page token's one value, `Math.max(1, Math.min(max, n)) - 1`; stated by `PageValue` and `KeptPage` |
| PageRange.DefaultRange | src/tools/pdf-merger/PdfMerger.js:61 | The default text "1-" followed by the page count; that it selects every page is stated by `FullRange` |
| PageRangeProperties.ParseRangeBounds | src/tools/pdf-merger/PdfMerger.js:17-36 | Every returned index is below the page count; a thrown error yields [] |
| PageRangeProperties.NoPages | src/tools/pdf-merger/PdfMerger.js:32 | For a document with no pages, every range text selects nothing |
| PageRangeProperties.KeepIndicesBound | src/tools/pdf-merger/PdfMerger.js:32 | The filter keeps at most its input, and only indices below max |
| PageRangeProperties.KeepIndicesAllValid | src/tools/pdf-merger/PdfMerger.js:32 | Values that are all valid indices pass the filter unchanged, in order |
| PageRangeProperties.KeepIndicesConcat | src/tools/pdf-merger/PdfMerger.js:32 | The filter distributes over concatenation, so order and repeats survive it |
| PageRangeProperties.FlatMapConcat | src/tools/pdf-merger/PdfMerger.js:21-31 | flatMap over `p + q` is flatMap over p followed by flatMap over q, and throws if either part throws |
| PageRangeProperties.FlatMapSingle | src/tools/pdf-merger/PdfMerger.js:21-31 | flatMap over one token is the callback's result for that token |
| PageRangeProperties.OneToken | src/tools/pdf-merger/PdfMerger.js:19-32 | A text without commas is resolved as one token |
| PageRangeProperties.RangeEndsOfText | src/tools/pdf-merger/PdfMerger.js:23 | In `x-y…`, the start is Number(x) and the end is Number of the text between the first and second '-' |
| PageRangeProperties.ClampEnds | src/tools/pdf-merger/PdfMerger.js:24-25 | A range start below 1 is raised to 1 and an end above max is lowered to max |
| PageRangeProperties.RunToken | src/tools/pdf-merger/PdfMerger.js:26 | A run between clamped ends is the indices s-1 … e-1, empty when e < s or when the run is longer than an Array may be |
| PageRangeProperties.RangeToken | src/tools/pdf-merger/PdfMerger.js:22-26 | A range token with integer ends a and b resolves to the reference run `ClampedRun(a, b, max)` |
| PageRangeProperties.RangeTokenNaN | src/tools/pdf-merger/PdfMerger.js:26 | A range with a NaN end, such as "3-x", contributes nothing |
| PageRangeProperties.ClampedRange | src/tools/pdf-merger/PdfMerger.js:22-26 | The text "x-y" with integer texts x and y resolves to the clamped run |
| PageRangeProperties.ClampedRunInside | src/tools/pdf-merger/PdfMerger.js:24-26 | When 1 <= a <= b <= max, the clamped run is exactly a-1 … b-1 |
| PageRangeProperties.ExactRange | src/tools/pdf-merger/PdfMerger.js:22-26 | For 1 <= a <= b <= max, "a-b" resolves to exactly [a-1, …, b-1] |
| PageRangeProperties.FullRange | src/tools/pdf-merger/PdfMerger.js:61 | The default "1-N" of an N-page file resolves to every page index 0 … N-1 |
| PageRangeProperties.PageValue | src/tools/pdf-merger/PdfMerger.js:28-29 | The value of a page token: NaN stays NaN, an integer is clamped into [1, max] and lowered by one, +Infinity gives max-1 and -Infinity gives 0 |
| PageRangeProperties.KeptPage | src/tools/pdf-merger/PdfMerger.js:28-32 | What survives of a page token: nothing for NaN or max = 0, the clamped page minus one for an integer, the last page for +Infinity |
| PageRangeProperties.SingleToken | src/tools/pdf-merger/PdfMerger.js:27-32 | A single-number token selects the page clamped into [1, max], and nothing for NaN or an empty document |
| PageRangeProperties.BlankText | src/tools/pdf-merger/PdfMerger.js:28 | Blank text selects the first page whenever the document has one, because `Number("")` is 0 |
| PageRangeProperties.CommaConcat | src/tools/pdf-merger/PdfMerger.js:19-32 | "a,b" resolves to a's pages followed by b's, with no sorting and no removal of repeats, unless either part throws |
| PageRangeProperties.TokensConcat | src/tools/pdf-merger/PdfMerger.js:19-32 | For any real page count, "a,b" resolves to a's pages followed by b's |
| PageRangeProperties.TrailingComma | src/tools/pdf-merger/PdfMerger.js:19-32 | A trailing comma appends the first page |
| PageRangeProperties.ExpandRangeNeverThrows | src/tools/pdf-merger/PdfMerger.js:26 | For a page count up to 2^32-1, the clamped run is never too long for `Array.from` |
| PageRangeProperties.ExpandPartNeverThrows | src/tools/pdf-merger/PdfMerger.js:21-31 | For such a page count, no token's callback throws |
| PageRangeProperties.NoPartThrows | src/tools/pdf-merger/PdfMerger.js:21-31 | For such a page count, flatMap over any tokens completes |
| PageRangeProperties.NeverThrows | src/tools/pdf-merger/PdfMerger.js:33-35 | The catch is reached only with more than 2^32-1 pages |
| PageRangeExamples.NinetyNine | src/tools/pdf-merger/PdfMerger.js:28 | "99" on 5 pages selects [4] |
| PageRangeExamples.Reversed | src/tools/pdf-merger/PdfMerger.js:26 | "9-2" on 5 pages selects nothing |
| PageRangeExamples.PastTheEnd | src/tools/pdf-merger/PdfMerger.js:25-26 | "6-10" on 5 pages selects nothing |
| PageRangeExamples.OpenStart | src/tools/pdf-merger/PdfMerger.js:23-26 | "-3" on 5 pages means 1-3: [0, 1, 2] |
| PageRangeExamples.OpenEnd | src/tools/pdf-merger/PdfMerger.js:23-26 | "3-" on 5 pages selects nothing |
| PageRangeExamples.RepeatedPage | src/tools/pdf-merger/PdfMerger.js:19-32 | "2,2" on 5 pages selects [1, 1]: repeats are kept |
| PageRangeExamples.NotANumber | src/tools/pdf-merger/PdfMerger.js:28-32 | "x" on 5 pages is NaN and selects nothing |
| PageRangeExamples.TwoPointZero | src/tools/pdf-merger/PdfMerger.js:28 | `Number("2.0")` is 2 |
| PageRangeExamples.DecimalPage | src/tools/pdf-merger/PdfMerger.js:28-29 | "2.0" on 5 pages is page 2 and selects [1] |
| PageRangeExamples.OneEOne | src/tools/pdf-merger/PdfMerger.js:28 | `Number("1e1")` is 10 |
| PageRangeExamples.ExponentPage | src/tools/pdf-merger/PdfMerger.js:28-29 | "1e1" on 20 pages is page 10 and selects [9] |
| PageRangeExamples.TwoPointFive | src/tools/pdf-merger/PdfMerger.js:23 | The model reads "2.5" as NaN (see "Left out": JavaScript reads 2.5) |
| PageRangeExamples.FractionalEnd | src/tools/pdf-merger/PdfMerger.js:23-26 | The model resolves "1-2.5" on 5 pages to [], where JavaScript gives [0, 1] (see "Left out") |

| PdfMerger.DocumentList.constructor | src/tools/pdf-merger/PdfMerger.js:7-11 | The component starts with three empty lists, not merging and no error |
| PdfMerger.DocumentList.HandleFileChange | src/tools/pdf-merger/PdfMerger.js:39-67 | Admission is all or nothing. A rejected batch sets the cap's message, and an unloadable batch clears the error; both leave the lists unchanged. An admitted batch appends its new files, their counts and their "1-N" ranges, and the lists stay aligned |
| PdfMerger.Admit | src/tools/pdf-merger/PdfMerger.js:42-59 | Admission of a batch: the count cap, then the size cap, then the dedup against the listed files and the page counting. Its outcomes are stated by `AdmitOutcome` |
| PdfMerger.IsDuplicate | src/tools/pdf-merger/PdfMerger.js:52 | A listed file with the same name and size exists; its use in the dedup is stated by `NewFilesMembers` |
| PdfMerger.NewFiles | src/tools/pdf-merger/PdfMerger.js:51-53 | The dedup filter; stated by `NewFilesMembers`, `NewFilesConcat` and `NewFilesAllNew` |
| PdfMerger.PageCounts | src/tools/pdf-merger/PdfMerger.js:55-59 | `Promise.all` of the page counts; stated by `PageCountsSpec` |
| PdfMerger.DefaultRanges | src/tools/pdf-merger/PdfMerger.js:61 | One "1-N" text per count; that each selects every page of its file is stated by `FullRange` |
| PdfMerger.AdmitOutcome | src/tools/pdf-merger/PdfMerger.js:40-59 | A batch is rejected exactly when a cap is exceeded: the count cap first, then the size cap. Otherwise it fails exactly when a new file does not load |
| PdfMerger.CountBeforeDedup | src/tools/pdf-merger/PdfMerger.js:42-53 | The count cap applies to the whole batch before duplicates are dropped: re-adding listed files can still exceed it |
| PdfMerger.CapMessages | src/tools/pdf-merger/PdfMerger.js:43-47 | The messages read "Maximum 10 files allowed." and "Each file must be under 10 MB." |
| PdfMerger.NewFilesMembers | src/tools/pdf-merger/PdfMerger.js:51-53 | The dedup keeps exactly the batch files with no listed file of the same name and size |
| PdfMerger.NewFilesConcat | src/tools/pdf-merger/PdfMerger.js:51-53 | The dedup keeps batch order: it distributes over concatenated batches |
| PdfMerger.NewFilesAllNew | src/tools/pdf-merger/PdfMerger.js:51-53 | Duplicates are looked for among the listed files only: a batch with no listed twin is kept whole, twins inside it included |
| PdfMerger.PageCountsSpec | src/tools/pdf-merger/PdfMerger.js:55-59 | The counts exist exactly when every file loads, and they are each file's page count, in order |
| PdfMerger.AdmittedKeepsValid | src/tools/pdf-merger/PdfMerger.js:42-64 | An admitted list stays within 10 files of at most 10 MB, with every added file's count recorded |
| PdfMerger.RecordedConcat | src/tools/pdf-merger/PdfMerger.js:63-64 | Appending files and their counts keeps the counts aligned with the files |
| PdfMerger.RemoveAt | src/tools/pdf-merger/PdfMerger.js:71-73 | Filtering out position idx shortens the list by one and shifts the later entries down; any other idx changes nothing |
| PdfMerger.DocumentList.RemoveFile | src/tools/pdf-merger/PdfMerger.js:70-74 | Removal drops the same position from all three lists and keeps them aligned |
| PdfMerger.RemoveKeepsValid | src/tools/pdf-merger/PdfMerger.js:70-74 | Removal keeps the caps and the recorded counts of the files that stay |
| PdfMerger.Swap | src/tools/pdf-merger/PdfMerger.js:79 | Exchanging two positions leaves everything else in place and is a permutation |
| PdfMerger.SwapCopy | src/tools/pdf-merger/PdfMerger.js:77-81 | Swapping in a fresh copy of the list yields the exchanged list |
| PdfMerger.SwapKeepsBounded | src/tools/pdf-merger/PdfMerger.js:75-96 | Reordering keeps the caps |
| PdfMerger.DocumentList.MoveUp | src/tools/pdf-merger/PdfMerger.js:75-85 | Moving the first file up changes nothing; otherwise it exchanges it with its predecessor in all three lists |
| PdfMerger.DocumentList.MoveDown | src/tools/pdf-merger/PdfMerger.js:86-96 | Moving the last file down changes nothing; otherwise it exchanges it with its successor in all three lists |
| PdfMerger.ReplaceAt | src/tools/pdf-merger/PdfMerger.js:98 | Mapping over the list replaces position idx and nothing else |
| PdfMerger.DocumentList.OnRangeChange | src/tools/pdf-merger/PdfMerger.js:97-98 | A range edit replaces only that file's range text |
| PdfMerger.CopySelectedPages | src/tools/pdf-merger/PdfMerger.js:110-121 | The loop yields exactly `Merge`: every file's selected pages in list order, or failure at the first file that does not load or selects nothing |
| PdfMerger.DocumentList.MergePdfs | src/tools/pdf-merger/PdfMerger.js:101-136 | With no file, the "Select at least one" error is set. Otherwise the download has the merged pages and the output name, or on failure there is no download and the generic error is set; `merging` is cleared |
| PdfMerger.Selections | src/tools/pdf-merger/PdfMerger.js:113-115 | One selection per listed file |
| PdfMerger.SelectionAt | src/tools/pdf-merger/PdfMerger.js:113-118 | The selection of file i is its range resolved against its page count; it lets the loop go on exactly when the file loads and selects something |
| PdfMerger.Collect | src/tools/pdf-merger/PdfMerger.js:110-121 | The merge loop after n iterations; stated by `CollectSucceedsIff`, `CollectPages`, `CollectMembers`, `CollectOrder` and `CollectLength` |
| PdfMerger.Merge | src/tools/pdf-merger/PdfMerger.js:110-121 | The merge of the whole list; stated by `MergeSucceedsIff`, `MergeContents`, `MergeLength` and `MergeDefaults` |
| PdfMerger.OutputName | src/tools/pdf-merger/PdfMerger.js:127 | A single file keeps its own name, a longer list is named "merged.pdf"; stated by `SingleFileMerge` and `MergePdfs` |
| PdfMerger.CollectFailureSticks | src/tools/pdf-merger/PdfMerger.js:116-118 | Once an iteration throws, the merge has failed |
| PdfMerger.CollectSucceedsIff | src/tools/pdf-merger/PdfMerger.js:110-121 | The loop completes exactly when every file has a non-empty selection |
| PdfMerger.PagesOfConcat | src/tools/pdf-merger/PdfMerger.js:119-120 | The pages of one file in an appended output are its pages in each part, in order |
| PdfMerger.PagesOfRefs | src/tools/pdf-merger/PdfMerger.js:119-120 | The pages copied for file j are its selection, and there are none for any other file |
| PdfMerger.AppendPages | src/tools/pdf-merger/PdfMerger.js:119-120 | Appending file m's pages adds its selection to file m and nothing to any other file |
| PdfMerger.CollectPages | src/tools/pdf-merger/PdfMerger.js:110-121 | After n files, each visited file contributes exactly its selection, in order, and later files contribute nothing |
| PdfMerger.CollectMembers | src/tools/pdf-merger/PdfMerger.js:110-121 | Every output page is a selected page of a visited file |
| PdfMerger.CollectOrder | src/tools/pdf-merger/PdfMerger.js:110-121 | The output groups the pages by file, in list order |
| PdfMerger.CollectLength | src/tools/pdf-merger/PdfMerger.js:110-121 | The output has as many pages as the selections name together |
| PdfMerger.MergeSucceedsIff | src/tools/pdf-merger/PdfMerger.js:108-121 | A merge succeeds exactly when every file loads and its range selects at least one page |
| PdfMerger.MergeContents | src/tools/pdf-merger/PdfMerger.js:110-121 | A successful merge holds, per file, exactly the pages its range resolves to. The files follow list order, and every page exists in its file |
| PdfMerger.MergeLength | src/tools/pdf-merger/PdfMerger.js:110-121 | The merged document has as many pages as the resolved ranges together |
| PdfMerger.MergeDefaults | src/tools/pdf-merger/PdfMerger.js:108-121 | A list whose ranges are all still "1-N" merges every page of every file, in list order |
| PdfMerger.SingleFileMerge | src/tools/pdf-merger/PdfMerger.js:127 | One file with its default range yields all its N pages in order, downloaded under the file's own name |
| FileUploader.PdfOnly | src/tools/pdf-merger/FileUploader.js:12 | The type filter; stated by the `PdfOnly…` lemmas below |
| FileUploader.PdfOnlyMembers | src/tools/pdf-merger/FileUploader.js:12 | The type filter keeps exactly the PDF files of the batch |
| FileUploader.PdfOnlyShorter | src/tools/pdf-merger/FileUploader.js:12 | The filter never yields more files than the batch has |
| FileUploader.PdfOnlyAll | src/tools/pdf-merger/FileUploader.js:12 | A batch of PDFs passes the filter unchanged, in order |
| FileUploader.PdfOnlyDrops | src/tools/pdf-merger/FileUploader.js:12-13 | A batch holding another type loses a file in the filter |
| FileUploader.PdfOnlyLength | src/tools/pdf-merger/FileUploader.js:12-13 | The length check fails exactly when some file is not a PDF |
| FileUploader.Uploader.constructor | src/tools/pdf-merger/FileUploader.js:8 | The upload zone starts with no error |
| FileUploader.Uploader.HandleFiles | src/tools/pdf-merger/FileUploader.js:11-19 | A batch holding a non-PDF sets "Only PDF files are allowed." and forwards nothing. Otherwise it clears the error and forwards the very same files, an empty batch included |
| FileUploader.Uploader.HandleDrop | src/tools/pdf-merger/FileUploader.js:22-26 | A drop while merging or at the file limit is ignored, error included; any other drop is handled as a batch |
| FileUploader.Uploader.HandleButtonClick | src/tools/pdf-merger/FileUploader.js:29-31 | The file picker opens exactly when not merging and below the file limit |
| FileUploader.LimitReached | src/tools/pdf-merger/PdfMerger.js:154 | The `fileLimitReached` flag, `files.length >= maxFiles`; stated by `LimitGuardAgreesWithCap` and `ClickOnto` |
| FileUploader.LimitGuardAgreesWithCap | src/tools/pdf-merger/FileUploader.js:24 | At the file limit every non-empty batch would be refused by the count cap anyway |
| FileUploader.DropOnto | src/tools/pdf-merger/PdfMerger.js:151-156 | A drop on the merger. An ignored drop keeps the upload zone's message, and a type-refused drop shows the type error; both leave all of the list's state unchanged. An accepted drop clears the message and is admitted by the list's admission rules, with a rejected or unloadable batch leaving the three lists unchanged |
| FileUploader.ClickOnto | src/tools/pdf-merger/PdfMerger.js:151-156 | A click on the merger's upload button opens the file picker exactly when no merge runs and the list holds fewer than 10 files |

## Left out

- pdf-lib: `PDFDocument.load`, `getPageCount`, `copyPages`, `addPage` and `save` are reduced to each file's page count (`File.pages`, None when loading fails). A failure of `copyPages` or `save` on a file that loads is not modelled.
- The merge loads every file again and uses the count it reads then, not the stored `pageCounts`. The model reads the same `File.pages` both times, as if every load of a file yields the same count.
- `file.arrayBuffer()`, the Blob, the object URL and the anchor click that start the download (PdfMerger.js:122-131). The download is modelled as its name and page list.
- `async`/`await` and `Promise.all`. Page counting is modelled as an order-preserving map, and each handler runs to completion as one step. In the code, `handleFileChange` appends to the lists it captured before its `await` (PdfMerger.js:63-65): a removal, range edit or second batch that completes while pages are counted is overwritten. The model does not capture that interleaving. The component state in the middle of a merge (`merging` true while pages are copied) is not observable in the model either, which sets and clears it within one call.
- The "Invalid page range" error at PdfMerger.js:117: the catch replaces its text with the generic merge message, so only that message is modelled.
- JsBuiltins.DecimalValue: decimal and exponent literals with an integer value, such as "2.0", "3." or "1e1", are read as JavaScript reads them. A literal whose value is not an integer, such as "2.5" or ".5", is read as NaN, so a page token, range start or range end written that way selects nothing. JavaScript keeps working with the fraction instead, and what it selects depends on where the fraction sits:
  - A single token such as "2.5" yields the fraction 1.5, which passes the filter.
  - A fractional range end still selects whole pages, because `Array.from` truncates the length: "1-2.5" on 5 pages gives [0, 1].
  - A fractional start below 1 is raised to 1, so "0.5-2" gives [0, 1]. A larger fractional start shifts the run onto fractions: "1.5-3" gives [0.5, 1.5].
  - A file whose range holds such a token can therefore merge in JavaScript and fail in the model.
  - A literal that JavaScript rounds to an integer ("2.0000000000000001" is 2) is read as NaN, where JavaScript selects a real page. A negative exponent never reaches the number reader, because its '-' makes the token a range.
  - Integers beyond 2^53 are exact in the model, where JavaScript rounds them or yields Infinity.
- `handleInputChange` (FileUploader.js:34-37) is `handleFiles` followed by clearing the input element. Clearing the input (also PdfMerger.js:66) is a DOM side effect. The file picker itself is outside the model: `HandleButtonClick` only says whether it opens.
- DocumentList.MoveUp and DocumentList.MoveDown require an index within the list, as the file list passes them. For an index outside the list the JavaScript swap would write to entries that do not exist; the file list never passes one.
- All rendering (PdfMerger.js:138-184, FileUploader.js:39-78, PdfFileList.js, PdfFileItem.js), including the float `toFixed` of the shown sizes.

Two behaviours of the code worth noting:

- Duplicates are looked for among the files already listed, not within the batch.
- The count cap is checked before duplicates are dropped.
