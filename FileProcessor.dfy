/** The comparison engine of src/lib/fileProcessor.ts: choosing a format
    adapter by file extension, turning each file into a sequence of lines,
    and the positional line diff with its summary counts. */
module FileProcessor {
  import opened Wrappers
  import opened Strings

  // ---------------------------------------------------------------------
  // Data model
  // ---------------------------------------------------------------------

  datatype ChangeKind = Added | Removed | Modified

  /** One difference record; `leftText`/`rightText` are the optional fields
      of the object literal pushed by the comparison loop. */
  datatype DiffEntry = DiffEntry(line: nat, kind: ChangeKind, leftText: Option<string>, rightText: Option<string>)

  /** A text field of an entry is truthy in JavaScript when it is present
      and non-empty; the views test it before showing it. */
  predicate Truthy(t: Option<string>)
  {
    t.Some? && t.value != ""
  }

  datatype Summary = Summary(totalChanges: nat, additions: nat, deletions: nat, modifications: nat)

  datatype ComparisonResult = ComparisonResult(
    resultType: string,
    leftContent: seq<string>,
    rightContent: seq<string>,
    differences: seq<DiffEntry>,
    summary: Summary)

  /** An uploaded file as the adapters see it. `text` is what `file.text()`
      resolves to, `None` when reading fails; `lastModified` is the
      locale-dependent rendering of the modification time. */
  datatype File = File(name: string, size: nat, mimeType: string, lastModified: string, text: Option<string>)

  /** A row as the CSV parser hands it over: an array of fields or a
      single non-array value. */
  datatype CsvRow = Fields(fields: seq<string>) | Scalar(value: string)

  datatype AdapterError = ReadFailed(fileName: string) | CsvFailed(message: string)

  datatype Adapter = TextAdapter | CsvAdapter | ExcelAdapter | WordAdapter | PdfAdapter | ImageAdapter

  // ---------------------------------------------------------------------
  // Adapter selection
  // ---------------------------------------------------------------------

  /** The lower-cased text after the last '.' of the file name
      (`name.toLowerCase().split('.').pop()`). */
  function Extension(name: string): (ext: string)
    ensures '.' !in ext
    ensures '.' !in name ==> ext == ToLower(name)
    ensures '.' in name ==>
      |ext| < |name| && ToLower(name)[|name| - |ext| - 1] == '.' && ToLower(name)[|name| - |ext|..] == ext
  {
    LastPieceOfLowerName(name);
    LastPiece(ToLower(name), ".")
  }

  lemma LastPieceOfLowerName(name: string)
    ensures var lower, ext := ToLower(name), LastPiece(ToLower(name), ".");
      && '.' !in ext
      && ('.' !in name ==> ext == lower)
      && ('.' in name ==> |ext| < |name| && lower[|name| - |ext| - 1] == '.' && lower[|name| - |ext|..] == ext)
  {
    var lower := ToLower(name);
    LastPieceIsSuffix(lower, ".");
    LastPieceAvoids(lower, ".");
    NoDotWhenAvoided(LastPiece(lower, "."));
    if '.' in name {
      var i :| 0 <= i < |name| && name[i] == '.';
      DotOccurs(lower, i);
      LastPiecePreceded(lower, ".");
      DotOccurs(lower, |name| - |LastPiece(lower, ".")| - 1);
    } else {
      forall q: nat ensures !OccursAt(lower, ".", q) {
        DotOccurs(lower, q);
      }
      LastPieceWhole(lower, ".");
    }
  }

  /** A one-character occurrence of '.' is the character '.' itself. */
  lemma DotOccurs(t: string, q: nat)
    ensures OccursAt(t, ".", q) <==> q < |t| && t[q] == '.'
  {
    if q < |t| {
      assert t[q..q + 1] == [t[q]];
    }
  }

  lemma NoDotWhenAvoided(t: string)
    requires Avoids(t, ".")
    ensures '.' !in t
  {
    forall i | 0 <= i < |t| ensures t[i] != '.' {
      DotOccurs(t, i);
    }
  }

  const TextExtensions: set<string> := {"txt"}
  const CsvExtensions: set<string> := {"csv"}
  const ExcelExtensions: set<string> := {"xlsx", "xls"}
  const WordExtensions: set<string> := {"docx", "doc"}
  const PdfExtensions: set<string> := {"pdf"}
  const ImageExtensions: set<string> := {"jpg", "jpeg", "png", "gif"}

  /** The `switch` on the extension; every unrecognised extension falls
      through to the text adapter. */
  function AdapterFor(ext: string): (a: Adapter)
    ensures a == CsvAdapter <==> ext in CsvExtensions
    ensures a == ExcelAdapter <==> ext in ExcelExtensions
    ensures a == WordAdapter <==> ext in WordExtensions
    ensures a == PdfAdapter <==> ext in PdfExtensions
    ensures a == ImageAdapter <==> ext in ImageExtensions
    ensures a == TextAdapter <==>
      ext !in CsvExtensions + ExcelExtensions + WordExtensions + PdfExtensions + ImageExtensions
  {
    if ext == "txt" then TextAdapter
    else if ext == "csv" then CsvAdapter
    else if ext == "xlsx" || ext == "xls" then ExcelAdapter
    else if ext == "docx" || ext == "doc" then WordAdapter
    else if ext == "pdf" then PdfAdapter
    else if ext == "jpg" || ext == "jpeg" || ext == "png" || ext == "gif" then ImageAdapter
    else TextAdapter
  }

  // ---------------------------------------------------------------------
  // Adapters
  // ---------------------------------------------------------------------

  /** The text adapter: `text.split('\n')`. */
  function TextLines(text: string): (lines: seq<string>)
    ensures |lines| == multiset(text)['\n'] + 1
    ensures forall i :: 0 <= i < |lines| ==> '\n' !in lines[i]
    ensures Join(lines, "\n") == text
  {
    var lines := Split(text, "\n");
    SplitCount(text, '\n');
    JoinSplit(text, "\n");
    SplitPiecesAvoid(text, "\n");
    forall i | 0 <= i < |lines| ensures '\n' !in lines[i] {
      forall k | 0 <= k < |lines[i]| ensures lines[i][k] != '\n' {
        assert !OccursAt(lines[i], "\n", k);
        assert lines[i][k..k + 1] == [lines[i][k]];
      }
    }
    lines
  }

  /** The text adapter and joining with '\n' are inverse to each other. */
  lemma TextLinesOfJoin(lines: seq<string>)
    requires |lines| >= 1
    requires forall i :: 0 <= i < |lines| ==> '\n' !in lines[i]
    ensures TextLines(Join(lines, "\n")) == lines
  {
    SplitJoin(lines, '\n');
  }

  /** An empty document is a single empty line. */
  lemma EmptyTextIsOneEmptyLine()
    ensures TextLines("") == [""]
  {
    assert multiset("")['\n'] == 0;
  }

  /** One CSV row rendered as a line: `row.join(',')` or `String(row)`.
      A row of comma-free fields can be read back by splitting at ','; a
      field that itself holds a ',' (a quoted CSV field) cannot be. */
  function CsvLine(row: CsvRow): (line: string)
    ensures row.Scalar? ==> line == row.value
    ensures row.Fields? ==> line == Join(row.fields, ",")
    ensures row.Fields? && |row.fields| >= 1 && NoCommaIn(row.fields) ==> Split(line, ",") == row.fields
  {
    match row
    case Fields(fs) =>
      FieldsSplitBack(fs);
      Join(fs, ",")
    case Scalar(v) => v
  }

  predicate NoCommaIn(fs: seq<string>)
  {
    forall i :: 0 <= i < |fs| ==> ',' !in fs[i]
  }

  lemma FieldsSplitBack(fs: seq<string>)
    ensures |fs| >= 1 && NoCommaIn(fs) ==> Split(Join(fs, ","), ",") == fs
  {
    if |fs| >= 1 && NoCommaIn(fs) {
      SplitJoin(fs, ',');
    }
  }

  /** Joining with ',' is lossy once a field holds a ',': the quoted field
      `"a,b"` followed by `c` renders as the three fields `a`, `b`, `c` do. */
  lemma CsvLineLosesQuotedComma()
    ensures CsvLine(Fields(["a,b", "c"])) == CsvLine(Fields(["a", "b", "c"]))
    ensures Split(CsvLine(Fields(["a,b", "c"])), ",") != ["a,b", "c"]
  {
    var line := CsvLine(Fields(["a,b", "c"]));
    assert Join(["a", "b", "c"], ",") == "a,b,c";
    assert Join(["a,b", "c"], ",") == "a,b,c";
    FieldsSplitBack(["a", "b", "c"]);
    assert NoCommaIn(["a", "b", "c"]);
  }

  /** The CSV adapter's lines: one per parsed row, in order. */
  function CsvLines(rows: seq<CsvRow>): (lines: seq<string>)
    ensures |lines| == |rows|
    ensures forall i :: 0 <= i < |rows| ==> lines[i] == CsvLine(rows[i])
  {
    seq(|rows|, i requires 0 <= i < |rows| => CsvLine(rows[i]))
  }

  function SizeLine(f: File): string
  {
    "Size: " + NatToString(f.size) + " bytes"
  }

  function ExcelLines(f: File): (lines: seq<string>)
    ensures |lines| == (if f.text.None? then 1 else 3)
    ensures f.text.Some? ==> lines[1] == "File name: " + f.name && lines[2] == SizeLine(f)
  {
    if f.text.None? then ["Unable to process Excel file: " + f.name]
    else ["Excel file processing not fully implemented yet.", "File name: " + f.name, SizeLine(f)]
  }

  function WordLines(f: File): (lines: seq<string>)
    ensures |lines| == 3 && lines[1] == "File name: " + f.name && lines[2] == SizeLine(f)
  {
    ["Word document processing not fully implemented yet.", "File name: " + f.name, SizeLine(f)]
  }

  function PdfLines(f: File): (lines: seq<string>)
    ensures |lines| == 3 && lines[1] == "File name: " + f.name && lines[2] == SizeLine(f)
  {
    ["PDF processing not fully implemented yet.", "File name: " + f.name, SizeLine(f)]
  }

  function ImageLines(f: File): (lines: seq<string>)
    ensures |lines| == 5 && lines[0] == "Image file detected: " + f.name && lines[1] == SizeLine(f)
    ensures lines[4] == "Note: Visual image comparison not yet implemented"
    ensures lines[2] == "Type: " + f.mimeType && lines[3] == "Last modified: " + f.lastModified
  {
    [ "Image file detected: " + f.name,
      SizeLine(f),
      "Type: " + f.mimeType,
      "Last modified: " + f.lastModified,
      "Note: Visual image comparison not yet implemented" ]
  }

  /** `processFile`: the adapter chosen by the extension, applied to the
      file. `csv` is what the CSV parser delivers for this file: its rows,
      or the message of its `error` callback. Only the text adapter (a
      failed read) and the CSV adapter (the parser's `error` callback) can
      fail; the spreadsheet adapter turns a failed read into a line. */
  function ProcessFile(f: File, csv: Result<seq<CsvRow>, string>): (r: Result<seq<string>, AdapterError>)
    ensures AdapterFor(Extension(f.name)) == TextAdapter ==>
      r == if f.text.None? then Err(ReadFailed(f.name)) else Ok(TextLines(f.text.value))
    ensures AdapterFor(Extension(f.name)) == CsvAdapter ==>
      r == if csv.Err? then Err(CsvFailed(csv.error)) else Ok(CsvLines(csv.value))
    ensures AdapterFor(Extension(f.name)) == ExcelAdapter ==> r == Ok(ExcelLines(f))
    ensures AdapterFor(Extension(f.name)) == WordAdapter ==> r == Ok(WordLines(f))
    ensures AdapterFor(Extension(f.name)) == PdfAdapter ==> r == Ok(PdfLines(f))
    ensures AdapterFor(Extension(f.name)) == ImageAdapter ==> r == Ok(ImageLines(f))
  {
    match AdapterFor(Extension(f.name))
    case TextAdapter =>
      (match f.text
       case None => Err(ReadFailed(f.name))
       case Some(t) => Ok(TextLines(t)))
    case CsvAdapter =>
      (match csv
       case Err(msg) => Err(CsvFailed(msg))
       case Ok(rows) => Ok(CsvLines(rows)))
    case ExcelAdapter => Ok(ExcelLines(f))
    case WordAdapter => Ok(WordLines(f))
    case PdfAdapter => Ok(PdfLines(f))
    case ImageAdapter => Ok(ImageLines(f))
  }

  /** A file whose extension is not recognised is read as text. */
  lemma UnknownExtensionReadAsText(f: File, csv: Result<seq<CsvRow>, string>)
    requires Extension(f.name) !in CsvExtensions + ExcelExtensions + WordExtensions + PdfExtensions + ImageExtensions
    ensures ProcessFile(f, csv) == (match f.text case None => Err(ReadFailed(f.name)) case Some(t) => Ok(TextLines(t)))
  {
  }

  // ---------------------------------------------------------------------
  // Positional line diff: specification
  // ---------------------------------------------------------------------

  function Max(a: nat, b: nat): nat
  {
    if a < b then b else a
  }

  /** `lines[i] || ''`: a missing index reads as the empty line. */
  function LineAt(lines: seq<string>, i: nat): string
  {
    if i < |lines| then lines[i] else ""
  }

  /** What the comparison loop pushes for index `i`, if anything. */
  function EntryAt(left: seq<string>, right: seq<string>, i: nat): Option<DiffEntry>
  {
    var l := LineAt(left, i);
    var r := LineAt(right, i);
    if l == r then None
    else if l == "" && r != "" then Some(DiffEntry(i, Added, None, Some(r)))
    else if l != "" && r == "" then Some(DiffEntry(i, Removed, Some(l), None))
    else Some(DiffEntry(i, Modified, Some(l), Some(r)))
  }

  function EntriesAt(left: seq<string>, right: seq<string>, i: nat): seq<DiffEntry>
  {
    match EntryAt(left, right, i)
    case None => []
    case Some(e) => [e]
  }

  /** The differences found at the indices below `n`, in index order. */
  function DiffUpTo(left: seq<string>, right: seq<string>, n: nat): seq<DiffEntry>
  {
    if n == 0 then [] else DiffUpTo(left, right, n - 1) + EntriesAt(left, right, n - 1)
  }

  function Diff(left: seq<string>, right: seq<string>): seq<DiffEntry>
  {
    DiffUpTo(left, right, Max(|left|, |right|))
  }

  function CountKind(ds: seq<DiffEntry>, k: ChangeKind): nat
  {
    if ds == [] then 0
    else CountKind(ds[..|ds| - 1], k) + (if ds[|ds| - 1].kind == k then 1 else 0)
  }

  function Summarize(ds: seq<DiffEntry>): Summary
  {
    Summary(|ds|, CountKind(ds, Added), CountKind(ds, Removed), CountKind(ds, Modified))
  }

  /** The result `performComparison` returns. */
  function Compare(left: seq<string>, right: seq<string>): ComparisonResult
  {
    ComparisonResult("text", left, right, Diff(left, right), Summarize(Diff(left, right)))
  }

  /** An entry that correctly describes its index: the padded lines there
      differ, and the kind and the texts carried follow from which side is
      empty. Stated independently of EntryAt. */
  predicate Classified(left: seq<string>, right: seq<string>, e: DiffEntry)
  {
    var l := LineAt(left, e.line);
    var r := LineAt(right, e.line);
    && l != r
    && (e.kind == Added <==> l == "" && r != "")
    && (e.kind == Removed <==> l != "" && r == "")
    && (e.kind == Modified <==> l != "" && r != "")
    && (e.kind == Added ==> e.leftText == None && e.rightText == Some(r))
    && (e.kind == Removed ==> e.leftText == Some(l) && e.rightText == None)
    && (e.kind == Modified ==> e.leftText == Some(l) && e.rightText == Some(r))
  }

  // ---------------------------------------------------------------------
  // Positional line diff: properties
  // ---------------------------------------------------------------------

  /** Entries come in strictly increasing line order, below `n`, and each
      one correctly classifies its index. */
  lemma {:induction false} DiffUpToSound(left: seq<string>, right: seq<string>, n: nat)
    ensures |DiffUpTo(left, right, n)| <= n
    ensures forall k :: 0 <= k < |DiffUpTo(left, right, n)| ==> DiffUpTo(left, right, n)[k].line < n
    ensures forall a, b :: 0 <= a < b < |DiffUpTo(left, right, n)| ==>
      DiffUpTo(left, right, n)[a].line < DiffUpTo(left, right, n)[b].line
    ensures forall k :: 0 <= k < |DiffUpTo(left, right, n)| ==> Classified(left, right, DiffUpTo(left, right, n)[k])
  {
    if n > 0 {
      DiffUpToSound(left, right, n - 1);
    }
  }

  /** Every index below `n` whose padded lines differ has an entry. */
  lemma {:induction false} DiffUpToComplete(left: seq<string>, right: seq<string>, n: nat, i: nat)
    requires i < n
    requires LineAt(left, i) != LineAt(right, i)
    ensures exists k :: 0 <= k < |DiffUpTo(left, right, n)| && DiffUpTo(left, right, n)[k].line == i
  {
    var d := DiffUpTo(left, right, n);
    if i == n - 1 {
      assert d[|d| - 1].line == i;
    } else {
      DiffUpToComplete(left, right, n - 1, i);
      var k :| 0 <= k < |DiffUpTo(left, right, n - 1)| && DiffUpTo(left, right, n - 1)[k].line == i;
      assert d[k] == DiffUpTo(left, right, n - 1)[k];
    }
  }

  /** The differences are exactly the indices whose padded lines differ,
      in increasing order, each classified correctly; hence there are at
      most `max(|left|, |right|)` of them. */
  lemma DiffCharacterised(left: seq<string>, right: seq<string>)
    ensures |Diff(left, right)| <= Max(|left|, |right|)
    ensures forall a, b :: 0 <= a < b < |Diff(left, right)| ==> Diff(left, right)[a].line < Diff(left, right)[b].line
    ensures forall k :: 0 <= k < |Diff(left, right)| ==>
      Diff(left, right)[k].line < Max(|left|, |right|) && Classified(left, right, Diff(left, right)[k])
    ensures forall i: nat :: i < Max(|left|, |right|) && LineAt(left, i) != LineAt(right, i) ==>
      exists k :: 0 <= k < |Diff(left, right)| && Diff(left, right)[k].line == i
  {
    var n := Max(|left|, |right|);
    assert Diff(left, right) == DiffUpTo(left, right, n);
    DiffUpToSound(left, right, n);
    forall i: nat | i < n && LineAt(left, i) != LineAt(right, i)
      ensures exists k :: 0 <= k < |Diff(left, right)| && Diff(left, right)[k].line == i
    {
      DiffUpToComplete(left, right, n, i);
    }
  }

  /** The three counters add up to the number of entries. */
  lemma {:induction false} CountsAddUp(ds: seq<DiffEntry>)
    ensures CountKind(ds, Added) + CountKind(ds, Removed) + CountKind(ds, Modified) == |ds|
  {
    if ds != [] {
      CountsAddUp(ds[..|ds| - 1]);
    }
  }

  /** Comparing a sequence with itself finds nothing. */
  lemma {:induction false} DiffUpToSelf(lines: seq<string>, n: nat)
    ensures DiffUpTo(lines, lines, n) == []
  {
    if n > 0 {
      DiffUpToSelf(lines, n - 1);
    }
  }

  lemma CompareSelf(lines: seq<string>)
    ensures Compare(lines, lines).differences == []
    ensures Compare(lines, lines).summary == Summary(0, 0, 0, 0)
    ensures Compare(lines, lines).leftContent == lines && Compare(lines, lines).rightContent == lines
  {
    DiffUpToSelf(lines, |lines|);
  }

  /** A trailing empty line on one side is not a difference. */
  lemma PaddingIsNotADifference()
    ensures Diff(["a"], ["a", ""]) == []
  {
    var l, r := ["a"], ["a", ""];
    assert EntriesAt(l, r, 0) == [] && EntriesAt(l, r, 1) == [];
    assert DiffUpTo(l, r, 1) == [];
    assert DiffUpTo(l, r, 2) == [];
  }

  /** The diff is positional: one line inserted at the head of the right
      side shifts every later comparison. */
  lemma InsertedLineShiftsEverything()
    ensures Diff(["a", "b", "c"], ["x", "a", "b", "c"]) == [
      DiffEntry(0, Modified, Some("a"), Some("x")),
      DiffEntry(1, Modified, Some("b"), Some("a")),
      DiffEntry(2, Modified, Some("c"), Some("b")),
      DiffEntry(3, Added, None, Some("c"))]
  {
    var l, r := ["a", "b", "c"], ["x", "a", "b", "c"];
    assert EntriesAt(l, r, 0) == [DiffEntry(0, Modified, Some("a"), Some("x"))];
    assert EntriesAt(l, r, 1) == [DiffEntry(1, Modified, Some("b"), Some("a"))];
    assert EntriesAt(l, r, 2) == [DiffEntry(2, Modified, Some("c"), Some("b"))];
    assert EntriesAt(l, r, 3) == [DiffEntry(3, Added, None, Some("c"))];
    assert DiffUpTo(l, r, 1) == EntriesAt(l, r, 0);
    assert DiffUpTo(l, r, 2) == EntriesAt(l, r, 0) + EntriesAt(l, r, 1);
    assert DiffUpTo(l, r, 3) == EntriesAt(l, r, 0) + EntriesAt(l, r, 1) + EntriesAt(l, r, 2);
    assert DiffUpTo(l, r, 4) == EntriesAt(l, r, 0) + EntriesAt(l, r, 1) + EntriesAt(l, r, 2) + EntriesAt(l, r, 3);
  }

  // ---------------------------------------------------------------------
  // Positional line diff: the loop
  // ---------------------------------------------------------------------

  /** `performComparison`: walks every index up to the longer length,
      pushes one record per differing index and bumps the counter of its
      kind. */
  method PerformComparison(leftLines: seq<string>, rightLines: seq<string>) returns (res: ComparisonResult)
    ensures res == Compare(leftLines, rightLines)
    ensures res.leftContent == leftLines && res.rightContent == rightLines
    ensures res.summary.totalChanges == |res.differences|
    ensures res.summary.additions + res.summary.deletions + res.summary.modifications == res.summary.totalChanges
  {
    var differences: seq<DiffEntry> := [];
    var maxLength := Max(|leftLines|, |rightLines|);
    var additions, deletions, modifications := 0, 0, 0;
    for i := 0 to maxLength
      invariant differences == DiffUpTo(leftLines, rightLines, i)
      invariant additions == CountKind(differences, Added)
      invariant deletions == CountKind(differences, Removed)
      invariant modifications == CountKind(differences, Modified)
    {
      var leftLine := LineAt(leftLines, i);
      var rightLine := LineAt(rightLines, i);
      ghost var before := differences;
      if leftLine != rightLine {
        var e;
        if leftLine == "" && rightLine != "" {
          e := DiffEntry(i, Added, None, Some(rightLine));
          additions := additions + 1;
        } else if leftLine != "" && rightLine == "" {
          e := DiffEntry(i, Removed, Some(leftLine), None);
          deletions := deletions + 1;
        } else {
          e := DiffEntry(i, Modified, Some(leftLine), Some(rightLine));
          modifications := modifications + 1;
        }
        differences := differences + [e];
        assert EntriesAt(leftLines, rightLines, i) == [e];
        assert differences[..|differences| - 1] == before;
      }
    }
    CountsAddUp(differences);
    res := ComparisonResult("text", leftLines, rightLines, differences,
      Summary(|differences|, additions, deletions, modifications));
  }

  /** `compareFiles`: both files go through their adapters, left first; an
      adapter failure rejects the whole comparison. */
  function CompareFiles(left: File, leftCsv: Result<seq<CsvRow>, string>,
                        right: File, rightCsv: Result<seq<CsvRow>, string>): (r: Result<ComparisonResult, AdapterError>)
    ensures r.Err? <==> ProcessFile(left, leftCsv).Err? || ProcessFile(right, rightCsv).Err?
    ensures r.Err? && ProcessFile(left, leftCsv).Err? ==> r.error == ProcessFile(left, leftCsv).error
    ensures r.Err? && ProcessFile(left, leftCsv).Ok? ==> r.error == ProcessFile(right, rightCsv).error
    ensures r.Ok? ==> r.value == Compare(ProcessFile(left, leftCsv).value, ProcessFile(right, rightCsv).value)
    ensures r.Ok? ==>
      && r.value.leftContent == ProcessFile(left, leftCsv).value
      && r.value.rightContent == ProcessFile(right, rightCsv).value
    ensures r.Ok? ==>
      && r.value.summary.totalChanges == |r.value.differences|
      && r.value.summary.additions + r.value.summary.deletions + r.value.summary.modifications == r.value.summary.totalChanges
  {
    match ProcessFile(left, leftCsv)
    case Err(e) => Err(e)
    case Ok(leftContent) =>
      match ProcessFile(right, rightCsv)
      case Err(e) => Err(e)
      case Ok(rightContent) =>
        CountsAddUp(Diff(leftContent, rightContent));
        Ok(Compare(leftContent, rightContent))
  }
}
