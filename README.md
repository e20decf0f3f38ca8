# Positional document comparison — a Dafny model

This project models the comparison core of a small document-comparison web
application. The core has three pieces:

- **File processing** (`src/lib/fileProcessor.ts`). The lower-cased file
  extension picks a format adapter. The adapter turns the file into a
  sequence of lines: text is split on `'\n'`, CSV rows are joined with `,`,
  and spreadsheet, Word, PDF and image files get fixed placeholder lines.
  `performComparison` then compares the two line sequences position by
  position. A missing line counts as `""`. Each differing index yields one
  `added`, `removed` or `modified` record. Three counters and
  `totalChanges` summarise the result.
- **Detailed view** (`src/components/DetailedDiffView.tsx`).
  `renderCharacterDiff` is a two-cursor loop. At each position it shows a
  kept character, or a struck-through old character followed by a
  highlighted new one. The view also decides which body each difference
  gets.
- **Spreadsheet view** (`src/components/ExcelComparisonView.tsx`).
  `parseExcelLine` sorts a display line into a worksheet header, a
  `Row N: ...` row or other content. `parseCellData` splits `A1:value`
  cells.

Files:

- `Wrappers.dfy`: the `Option` and `Result` types.
- `Strings.dfy`: the JavaScript string built-ins the code uses (`split`,
  `join`, `startsWith`, ASCII `toLowerCase`, number rendering) and their
  round-trip lemmas. `split` is defined through `IndexOfFrom`, the
  leftmost search for the separator that `split` performs.
- `FileProcessor.dfy`: the adapters, adapter selection, the specification
  `Diff` of the line diff, the imperative `PerformComparison` proved equal to
  it, and `CompareFiles`.
- `DetailedDiffView.dfy`: the specification `CharDiff`, the `while`-loop
  method `RenderCharacterDiff` proved equal to it, and the body choice.
- `ExcelComparisonView.dfy`: the two regular expressions, written out as
  leftmost-match searches, and the two parsers.

Points of the code worth knowing, which the model follows as written:

- `wordDiffs` is declared in the props of the detailed view
  (`src/components/DetailedDiffView.tsx:10`) but `performComparison`
  never fills it, so there is no word-level diff.
- The spreadsheet adapter is a placeholder, as its comment says
  (`src/lib/fileProcessor.ts:59`): it returns fixed lines and never emits
  the `=== WORKSHEET:` and `Row N:` lines the spreadsheet view parses.
- When the CSV parser calls its `error` callback, the comparison is
  rejected. A failed read in the
  spreadsheet adapter becomes a single line.
- Both regular expressions of the spreadsheet view are unanchored: a row
  line whose first `Row ` has no number takes the next `Row <n>: ` further
  on, and a cell's reference may start after leading characters.

## Model

| member | source | states |
|---|---|---|
| `FileProcessor.Extension` | src/lib/fileProcessor.ts:12 | the extension contains no `.`; it is the whole lower-cased name when there is no `.`, and otherwise exactly the lower-cased text after the last `.` |
| `FileProcessor.AdapterFor` | src/lib/fileProcessor.ts:14-35 | each adapter is chosen exactly for its listed extensions; `txt` and every unrecognised extension select the text adapter |
| `FileProcessor.TextLines` | src/lib/fileProcessor.ts:38-41 | the text adapter yields one more line than the text has `'\n'` characters, no line contains `'\n'`, and joining the lines with `'\n'` gives back the text |
| `FileProcessor.TextLinesOfJoin` | src/lib/fileProcessor.ts:40 | inverse direction: splitting the `'\n'`-join of a non-empty list of lines without `'\n'` gives back the lines |
| `FileProcessor.EmptyTextIsOneEmptyLine` | src/lib/fileProcessor.ts:40 | an empty text becomes the single line `""` |
| `FileProcessor.CsvLine` | src/lib/fileProcessor.ts:48 | a scalar row is its own text and an array row its fields joined with `,`; when the row is non-empty and no field holds a `,`, splitting the line at `,` gives back the fields |
| `FileProcessor.CsvLineLosesQuotedComma` | src/lib/fileProcessor.ts:48 | a field holding a `,` (a quoted CSV field) is not recoverable: `["a,b","c"]` and `["a","b","c"]` render as the same line, and splitting it does not give back `["a,b","c"]` |
| `FileProcessor.CsvLines` | src/lib/fileProcessor.ts:47-49 | one line per parsed row, in the parser's order, each the rendering `CsvLine` of its row |
| `FileProcessor.ExcelLines` | src/lib/fileProcessor.ts:58-66 | the spreadsheet placeholder gives three lines naming the file and its size when the file can be read, and one line when reading fails |
| `FileProcessor.WordLines` | src/lib/fileProcessor.ts:68-71 | the Word placeholder gives three lines, the second naming the file and the third its size |
| `FileProcessor.PdfLines` | src/lib/fileProcessor.ts:73-76 | the PDF placeholder gives three lines, the second naming the file and the third its size |
| `FileProcessor.ImageLines` | src/lib/fileProcessor.ts:78-87 | the image adapter gives five lines: `Image file detected: ` with the name, the size, the MIME type, the modification time and the fixed note that visual comparison is not implemented |
| `FileProcessor.ProcessFile` | src/lib/fileProcessor.ts:11-87 | the adapter chosen by the extension decides the result: a failed text read gives a read error and a readable text its `'\n'`-split `TextLines`; the CSV parser's `error` callback gives a CSV error and parsed rows their `CsvLines`; the spreadsheet, Word, PDF and image extensions always give their placeholder lines. Only the text and CSV adapters can fail |
| `FileProcessor.UnknownExtensionReadAsText` | src/lib/fileProcessor.ts:32-34 | a file with an unrecognised extension is processed exactly as a text file |
| `FileProcessor.DiffUpToSound` | src/lib/fileProcessor.ts:102-133 | after `n` indices there are at most `n` entries; their lines are strictly increasing and below `n`, and each entry is correctly classified |
| `FileProcessor.DiffUpToComplete` | src/lib/fileProcessor.ts:102-106 | every index below `n` whose padded lines differ has an entry |
| `FileProcessor.DiffCharacterised` | src/lib/fileProcessor.ts:97-133 | the differences are exactly the indices below `max(|L|,|R|)` whose padded lines differ, in increasing order, so there are at most `max(|L|,|R|)` of them. `added` holds exactly when the left line is `""` and the right is not, and carries only the right text. `removed` is the mirror case and carries only the left text. `modified` holds when both lines are non-empty and carries both texts |
| `FileProcessor.CountsAddUp` | src/lib/fileProcessor.ts:98-146 | additions + deletions + modifications equals the number of entries |
| `FileProcessor.CompareSelf` | src/lib/fileProcessor.ts:102-146 | comparing any sequence with itself gives no differences, all-zero counts, and both inputs returned unchanged |
| `FileProcessor.PaddingIsNotADifference` | src/lib/fileProcessor.ts:103-106 | `["a"]` against `["a", ""]` gives no differences, because a missing index reads as `""` |
| `FileProcessor.InsertedLineShiftsEverything` | src/lib/fileProcessor.ts:102-134 | one line inserted at the head shifts every comparison: three `modified` entries and one `added` entry, not a single `added` entry |
| `FileProcessor.PerformComparison` | src/lib/fileProcessor.ts:89-148 | the loop returns exactly the specification `Compare`: the inputs unchanged, `Diff` as the differences, `totalChanges` equal to their number, and the three counters adding up to it |
| `FileProcessor.CompareFiles` | src/lib/fileProcessor.ts:4-9 | the comparison fails exactly when an adapter fails, reporting the left failure if there is one and the right failure otherwise; on success the result is `Compare` of the two adapters' lines, so its contents are those lines and its summary counts add up |
| `Strings.JoinSplit` | src/lib/fileProcessor.ts:40 | `split` followed by `join` with the same non-empty separator gives back the text |
| `Strings.SplitPiecesAvoid` | src/components/ExcelComparisonView.tsx:23 | no piece of a `split` contains the separator |
| `Strings.SplitCount` | src/lib/fileProcessor.ts:40 | splitting on one character gives one more piece than that character occurs |
| `Strings.SplitJoin` | src/lib/fileProcessor.ts:40 | splitting the join of pieces without the separator character gives back the pieces |
| `Strings.LastPieceIsSuffix` | src/lib/fileProcessor.ts:12 | the piece `pop()` takes after a split is a suffix of the text |
| `Strings.LastPieceWhole` | src/lib/fileProcessor.ts:12 | when the separator does not occur, `pop()` after the split gives the whole text |
| `Strings.LastPiecePreceded` | src/lib/fileProcessor.ts:12 | when the separator occurs, the piece `pop()` takes is immediately preceded by an occurrence of the separator |
| `Strings.IndexOfFrom` | src/components/ExcelComparisonView.tsx:23 | the separator search inside `split`: it returns the leftmost occurrence at or after the start, or nothing when there is none |
| `DetailedDiffView.RenderCharacterDiff` | src/components/DetailedDiffView.tsx:18-53 | the loop returns exactly the specification `CharDiff` and runs exactly `max(|old|,|new|)` rounds, with `i = min(k,|old|)` and `j = min(k,|new|)` after `k` rounds; its kept and removed characters spell the old text, its kept and added characters the new text |
| `DetailedDiffView.SidesAt` | src/components/DetailedDiffView.tsx:26-48 | a position contributes its old character, if any, to the old side and its new character, if any, to the new side |
| `DetailedDiffView.OldSideUpTo` | src/components/DetailedDiffView.tsx:25-50 | after `k` positions, the kept and removed characters are the first `min(k,|old|)` characters of the old text |
| `DetailedDiffView.NewSideUpTo` | src/components/DetailedDiffView.tsx:25-50 | after `k` positions, the kept and added characters are the first `min(k,|new|)` characters of the new text |
| `DetailedDiffView.Reconstruction` | src/components/DetailedDiffView.tsx:19-47 | the character diff is lossless for both sides |
| `DetailedDiffView.CharDiffSelf` | src/components/DetailedDiffView.tsx:26-30 | equal texts are shown as one kept span per character |
| `DetailedDiffView.TrailingAdditions` | src/components/DetailedDiffView.tsx:41-47 | when the new text is longer, the diff is the diff against its prefix followed only by added spans for the rest |
| `DetailedDiffView.TrailingRemovals` | src/components/DetailedDiffView.tsx:33-40 | when the old text is longer, the diff is the diff of its prefix followed only by removed spans for the rest |
| `DetailedDiffView.DetailCard` | src/components/DetailedDiffView.tsx:62-111 | the badge is the kind and the label is `line + 1`. The character diff is shown exactly for a modified entry with two non-empty texts; it is `CharDiff` of the two texts and reconstructs both of them. An added entry shows its right text and a removed entry its left text |
| `DetailedDiffView.EveryDifferenceHasBody` | src/components/DetailedDiffView.tsx:80-111 | every difference the line diff produces gets a body: modified lines their character diff, added lines the new line, removed lines the old line |
| `ExcelComparisonView.RunFrom` | src/components/ExcelComparisonView.tsx:31 | a greedy run of a character class: all characters in it belong to the class and the next character does not |
| `ExcelComparisonView.RowMatchAt` | src/components/ExcelComparisonView.tsx:20 | a match of `Row (\d+): (.+)` at a position is sound: a non-empty digit group, a non-empty tail without line terminators, the text there is `Row <digits>: <tail>`, and the tail ends at a terminator or the end |
| `ExcelComparisonView.RowMatchAtFinds` | src/components/ExcelComparisonView.tsx:20 | completeness: wherever the text at a position has the row shape, the pattern matches there, with exactly that digit group and at least that much tail |
| `ExcelComparisonView.FirstRowMatchAtShape` | src/components/ExcelComparisonView.tsx:20 | the search stops at the first position with the row shape and captures its digit group |
| `ExcelComparisonView.RowMatchNotAnchored` | src/components/ExcelComparisonView.tsx:19-24 | `Row x: Row 5: a` is a row with number `5` and the single cell `a`: the unanchored pattern skips the first `Row ` |
| `ExcelComparisonView.FirstRowMatch` | src/components/ExcelComparisonView.tsx:20 | the leftmost position where the row pattern matches, or none |
| `ExcelComparisonView.CellMatchAt` | src/components/ExcelComparisonView.tsx:31 | a match of `([A-Z]+\d+):(.+)` at a position is sound: the cell is capital letters then digits, the value is non-empty without line terminators and runs to a terminator or the end, and the text there is `<cell>:<value>` |
| `ExcelComparisonView.CellMatchAtFinds` | src/components/ExcelComparisonView.tsx:31 | completeness: wherever the text at a position has the cell shape, the pattern matches there, with exactly that reference and at least that much value |
| `ExcelComparisonView.FirstCellMatchAtShape` | src/components/ExcelComparisonView.tsx:31 | the search stops at the first position with the cell shape and captures its reference |
| `ExcelComparisonView.CellMatchValue` | src/components/ExcelComparisonView.tsx:33 | the captured value is the text right after the reference and `:` |
| `ExcelComparisonView.FirstCellAfterOneChar` | src/components/ExcelComparisonView.tsx:31 | after one character that cannot start a reference, the leftmost match is the reference and value that follow it |
| `ExcelComparisonView.CellMatchNotAnchored` | src/components/ExcelComparisonView.tsx:30-36 | a cell such as ` A1:v` parses to reference `A1` and value `v`: the unanchored pattern skips the leading character |
| `ExcelComparisonView.FirstCellMatch` | src/components/ExcelComparisonView.tsx:31 | the leftmost position where the cell pattern matches, or none |
| `ExcelComparisonView.ParseExcelLine` | src/components/ExcelComparisonView.tsx:15-28 | a worksheet header exactly when the line starts with `=== WORKSHEET:`, which takes precedence. A row exactly when it starts with `Row ` and the pattern matches; the row number is then the captured non-empty digit string, and the cells are exactly the ` \| `-split of the captured tail: a non-empty list whose pieces contain no ` \| ` and join back to the tail. Everything else is other content equal to the line |
| `ExcelComparisonView.ParseCellData` | src/components/ExcelComparisonView.tsx:30-36 | when the pattern matches: the cell is a non-empty letter run followed by a non-empty digit run, and the value is non-empty; otherwise an empty cell and the whole input as value |
| `ExcelComparisonView.ParseRowLine` | src/components/ExcelComparisonView.tsx:19-24 | a line `Row <digits>: <tail>` parses to that row number and the ` \| `-split of the tail |
| `ExcelComparisonView.WorksheetTakesPrecedence` | src/components/ExcelComparisonView.tsx:16-18 | any line beginning with the worksheet marker is a worksheet header with the line as content |
| `ExcelComparisonView.ParseCellOfRef` | src/components/ExcelComparisonView.tsx:31-33 | a cell written `<letters><digits>:<value>` parses back into that reference and value |
| `ExcelComparisonView.ParseSide` | src/components/ExcelComparisonView.tsx:81-110 | a side is `parseExcelLine` of its text; a row side carries `parseCellData` of each of its cell strings, in order; other sides carry none |
| `ExcelComparisonView.ExcelDiffCard` | src/components/ExcelComparisonView.tsx:38-110 | the badge is the kind and the label is `line + 1`; a side is shown exactly when its text is present and non-empty, and it is then `ParseSide` of that text, with its parsed line and its parsed cells |
| `ExcelComparisonView.ExcelCardsShowTheirSides` | src/components/ExcelComparisonView.tsx:39-40 | for the line diff's output, added entries show only the new side, removed entries only the old side, and modified entries both, each parsed from the line at that index |

## Left out

- Reading files (`file.text()`, `async`/`await`) is not modelled. A file's text is an input, with `None` standing for a read that fails.
- The CSV parser is a foreign library. Its output (the rows it hands to `complete`, or the message it hands to `error`) is an input to `ProcessFile`. Skipping blank rows, CSV quoting and the `results.errors` it reports for malformed input inside `complete` are its job; that list is not read by the code.
- The image adapter's modification time is rendered by the locale and the clock. The rendered string is an input.
- Report export and the summary display (src/components/ComparisonView.tsx) are not modelled: they use JSON serialisation, blobs, the DOM and the clock.
- File-size formatting (src/components/FileUpload.tsx) is not modelled because it uses floating point. The rest of that file is drag-and-drop UI.
- Page state and notifications (src/pages/Index.tsx) are not modelled.
- Word-level diffs (`wordDiffs`) are not modelled because the code never produces them. A real spreadsheet, Word or PDF reader is not modelled because the code only has placeholders.
- Strings are sequences of `char`, and `toLowerCase` is modelled on ASCII letters only. JavaScript also lowercases other letters and splits strings into UTF-16 code units; neither is modelled.
- The rendered spans' React keys, CSS classes and JSX layout are not modelled. A span is its kind and its character.
- `DetailedDiffView.RenderCharacterDiff`: its round count is a ghost output, because the source keeps no such counter.
