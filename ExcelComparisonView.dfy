/** The line parsers of src/components/ExcelComparisonView.tsx. They sort a
    display line into a worksheet header, a `Row N: ...` row or anything
    else, and split a cell `A1:value` into its reference and value. The two
    regular expressions are spelled out as searches for the leftmost match;
    as in JavaScript, `.` matches any character but a line terminator. */
module ExcelComparisonView {
  import opened Wrappers
  import opened Strings
  import opened FileProcessor

  // ---------------------------------------------------------------------
  // Character classes and runs
  // ---------------------------------------------------------------------

  /** The characters `.` does not match in a JavaScript regular expression. */
  predicate IsLineTerminator(c: char)
  {
    c == '\n' || c == '\r' || c == '\U{2028}' || c == '\U{2029}'
  }

  /** `\d`, `[A-Z]` and `.`. */
  datatype CharClass = Digits | Uppers | AnyButTerminator

  predicate InClass(c: char, cls: CharClass)
  {
    match cls
    case Digits => '0' <= c <= '9'
    case Uppers => 'A' <= c <= 'Z'
    case AnyButTerminator => !IsLineTerminator(c)
  }

  predicate AllIn(s: string, cls: CharClass)
  {
    forall i :: 0 <= i < |s| ==> InClass(s[i], cls)
  }

  /** The length of the longest run of `cls` characters starting at `p`:
      what a greedy `x+` (or `x*`) consumes there. */
  function RunFrom(s: string, p: nat, cls: CharClass): (n: nat)
    requires p <= |s|
    decreases |s| - p
    ensures p + n <= |s|
    ensures forall q :: p <= q < p + n ==> InClass(s[q], cls)
    ensures p + n == |s| || !InClass(s[p + n], cls)
  {
    if p == |s| || !InClass(s[p], cls) then 0 else 1 + RunFrom(s, p + 1, cls)
  }

  /** A run that is followed by the end or by a character outside the class
      is exactly what RunFrom measures. */
  lemma RunFromExact(s: string, p: nat, cls: CharClass, n: nat)
    requires p + n <= |s|
    requires forall q :: p <= q < p + n ==> InClass(s[q], cls)
    requires p + n == |s| || !InClass(s[p + n], cls)
    ensures RunFrom(s, p, cls) == n
  {
  }

  // ---------------------------------------------------------------------
  // /Row (\d+): (.+)/
  // ---------------------------------------------------------------------

  /** A match of the row pattern starting at `start`, with its two groups. */
  datatype RowMatch = RowMatch(start: nat, rowNum: string, tail: string)

  /** The text at `p` has the shape of the row pattern with a digit group
      of length `d` and a tail of at least `t` characters. */
  predicate RowShape(s: string, p: nat, d: nat, t: nat)
  {
    && d >= 1 && t >= 1 && p + 4 + d + 2 + t <= |s|
    && s[p..p + 4] == "Row " && AllIn(s[p + 4..p + 4 + d], Digits)
    && s[p + 4 + d..p + 4 + d + 2] == ": " && AllIn(s[p + 4 + d + 2..p + 4 + d + 2 + t], AnyButTerminator)
  }

  /** `m` is a match of the row pattern at `p`: a non-empty digit group, a
      non-empty tail without line terminators that runs up to a terminator
      or the end, and the text there reads `Row <digits>: <tail>`. */
  predicate IsRowMatch(s: string, p: nat, m: RowMatch)
  {
    var end := p + 4 + |m.rowNum| + 2 + |m.tail|;
    && m.start == p
    && |m.rowNum| >= 1 && AllIn(m.rowNum, Digits)
    && |m.tail| >= 1 && AllIn(m.tail, AnyButTerminator)
    && end <= |s| && s[p..end] == "Row " + m.rowNum + ": " + m.tail
    && (end == |s| || IsLineTerminator(s[end]))
  }

  /** A run of at least `n` characters of the class starting at `p`. */
  lemma RunFromAtLeast(s: string, p: nat, cls: CharClass, n: nat)
    requires p + n <= |s|
    requires AllIn(s[p..p + n], cls)
    ensures RunFrom(s, p, cls) >= n
    decreases n
  {
    if n > 0 {
      assert InClass(s[p..p + n][0], cls);
      assert s[p + 1..p + 1 + (n - 1)] == s[p..p + n][1..];
      RunFromAtLeast(s, p + 1, cls, n - 1);
    }
  }

  /** Wherever the row shape is present at `p`, the row pattern matches
      there, with exactly that digit group and at least that much tail. */
  lemma RowMatchAtFinds(s: string, p: nat, d: nat, t: nat)
    requires RowShape(s, p, d, t)
    ensures RowMatchAt(s, p).Some?
    ensures RowMatchAt(s, p).value.rowNum == s[p + 4..p + 4 + d] && |RowMatchAt(s, p).value.tail| >= t
  {
    assert s[p + 4 + d] == s[p + 4 + d..p + 4 + d + 2][0];
    RunFromExact(s, p + 4, Digits, d);
    RunFromAtLeast(s, p + 4 + d + 2, AnyButTerminator, t);
  }

  /** The row pattern tried at position `p`. Backtracking cannot help: a
      shorter digit run would leave a digit where ':' is needed, and the
      final `.+` ends the pattern, so it keeps its longest run. */
  function RowMatchAt(s: string, p: nat): (m: Option<RowMatch>)
    ensures m.Some? ==> IsRowMatch(s, p, m.value)
  {
    if p + 4 > |s| || s[p..p + 4] != "Row " then None
    else
      var d := RunFrom(s, p + 4, Digits);
      var q := p + 4 + d;
      if d == 0 || q + 2 > |s| || s[q..q + 2] != ": " then None
      else
        var t := RunFrom(s, q + 2, AnyButTerminator);
        if t == 0 then None
        else
          Some(FoundRow(s, p, d, t))
  }

  /** The match the row pattern makes at `p` once its runs are measured. */
  function FoundRow(s: string, p: nat, d: nat, t: nat): (m: RowMatch)
    requires p + 4 <= |s| && s[p..p + 4] == "Row " && d == RunFrom(s, p + 4, Digits) && 0 < d
    requires p + 4 + d + 2 <= |s| && s[p + 4 + d..p + 4 + d + 2] == ": "
    requires t == RunFrom(s, p + 4 + d + 2, AnyButTerminator) && 0 < t
    ensures IsRowMatch(s, p, m)
  {
    RowMatchShape(s, p, d, t);
    RowMatch(p, s[p + 4..p + 4 + d], s[p + 4 + d + 2..p + 4 + d + 2 + t])
  }

  lemma RowMatchShape(s: string, p: nat, d: nat, t: nat)
    requires 0 < d && 0 < t && p + 4 + d + 2 + t <= |s|
    requires s[p..p + 4] == "Row " && s[p + 4 + d..p + 4 + d + 2] == ": "
    requires forall i :: p + 4 <= i < p + 4 + d ==> InClass(s[i], Digits)
    requires forall i :: p + 4 + d + 2 <= i < p + 4 + d + 2 + t ==> InClass(s[i], AnyButTerminator)
    requires p + 4 + d + 2 + t == |s| || !InClass(s[p + 4 + d + 2 + t], AnyButTerminator)
    ensures IsRowMatch(s, p, RowMatch(p, s[p + 4..p + 4 + d], s[p + 4 + d + 2..p + 4 + d + 2 + t]))
  {
    var q := p + 4 + d;
    RunIsAllIn(s, p + 4, d, Digits);
    RunIsAllIn(s, q + 2, t, AnyButTerminator);
    assert s[p..q + 2 + t] == s[p..p + 4] + s[p + 4..q] + s[q..q + 2] + s[q + 2..q + 2 + t];
  }

  /** The leftmost match at or after `p`, as `String.prototype.match` finds it. */
  function FirstRowMatch(s: string, p: nat): (m: Option<RowMatch>)
    decreases |s| + 1 - p
    ensures m.Some? ==> p <= m.value.start && RowMatchAt(s, m.value.start) == m
    ensures m.Some? ==> forall q: nat :: p <= q < m.value.start ==> RowMatchAt(s, q).None?
    ensures m.None? ==> forall q: nat :: p <= q ==> RowMatchAt(s, q).None?
  {
    if p > |s| then None
    else if RowMatchAt(s, p).Some? then RowMatchAt(s, p)
    else FirstRowMatch(s, p + 1)
  }

  // ---------------------------------------------------------------------
  // /([A-Z]+\d+):(.+)/
  // ---------------------------------------------------------------------

  /** A cell reference: a non-empty run of capital letters followed by a
      non-empty run of digits. */
  ghost predicate IsCellRef(c: string)
  {
    exists k :: 0 < k < |c| && AllIn(c[..k], Uppers) && AllIn(c[k..], Digits)
  }

  datatype CellMatch = CellMatch(start: nat, cell: string, value: string)

  /** `m` is a match of the cell pattern at `p`: a cell reference, then
      ':', then a non-empty value without line terminators that runs up to
      a terminator or the end. */
  ghost predicate IsCellMatch(s: string, p: nat, m: CellMatch)
  {
    var end := p + |m.cell| + 1 + |m.value|;
    && m.start == p
    && IsCellRef(m.cell)
    && |m.value| >= 1 && AllIn(m.value, AnyButTerminator)
    && end <= |s| && s[p..end] == m.cell + ":" + m.value
    && (end == |s| || IsLineTerminator(s[end]))
  }

  /** The text at `p` has the shape of the cell pattern: `u` capitals, `d`
      digits, ':' and a value of at least `t` characters. */
  predicate CellShape(s: string, p: nat, u: nat, d: nat, t: nat)
  {
    && u >= 1 && d >= 1 && t >= 1 && p + u + d + 1 + t <= |s|
    && AllIn(s[p..p + u], Uppers) && AllIn(s[p + u..p + u + d], Digits)
    && s[p + u + d] == ':' && AllIn(s[p + u + d + 1..p + u + d + 1 + t], AnyButTerminator)
  }

  /** The cell pattern tried at position `p`; as for rows, the greedy runs
      leave nothing to backtrack into. */
  function CellMatchAt(s: string, p: nat): (m: Option<CellMatch>)
    ensures m.Some? ==> IsCellMatch(s, p, m.value)
  {
    if p > |s| then None
    else
      var u := RunFrom(s, p, Uppers);
      var d := RunFrom(s, p + u, Digits);
      var q := p + u + d;
      if u == 0 || d == 0 || q >= |s| || s[q] != ':' then None
      else
        var t := RunFrom(s, q + 1, AnyButTerminator);
        if t == 0 then None
        else
          Some(FoundCell(s, p, u, d, t))
  }

  /** Wherever the cell shape is present at `p`, the cell pattern matches
      there, with exactly that reference and at least that much value. */
  lemma CellMatchAtFinds(s: string, p: nat, u: nat, d: nat, t: nat)
    requires CellShape(s, p, u, d, t)
    ensures CellMatchAt(s, p).Some?
    ensures CellMatchAt(s, p).value.cell == s[p..p + u + d] && |CellMatchAt(s, p).value.value| >= t
  {
    assert s[p + u] == s[p + u..p + u + d][0];
    RunFromExact(s, p, Uppers, u);
    RunFromExact(s, p + u, Digits, d);
    RunFromAtLeast(s, p + u + d + 1, AnyButTerminator, t);
  }

  /** A run found by RunFrom, taken out of the text, is all of its class. */
  lemma RunIsAllIn(s: string, p: nat, n: nat, cls: CharClass)
    requires p + n <= |s|
    requires forall q :: p <= q < p + n ==> InClass(s[q], cls)
    ensures AllIn(s[p..p + n], cls)
  {
  }

  /** The match the cell pattern makes at `p` once its runs are measured. */
  function FoundCell(s: string, p: nat, u: nat, d: nat, t: nat): (m: CellMatch)
    requires p <= |s| && u == RunFrom(s, p, Uppers) && d == RunFrom(s, p + u, Digits)
    requires 0 < u && 0 < d && p + u + d < |s| && s[p + u + d] == ':'
    requires t == RunFrom(s, p + u + d + 1, AnyButTerminator) && 0 < t
    ensures IsCellMatch(s, p, m)
  {
    CellMatchShape(s, p, u, d, t);
    CellMatch(p, s[p..p + u + d], s[p + u + d + 1..p + u + d + 1 + t])
  }

  lemma CellMatchShape(s: string, p: nat, u: nat, d: nat, t: nat)
    requires 0 < u && 0 < d && 0 < t && p + u + d + 1 + t <= |s|
    requires forall i :: p <= i < p + u ==> InClass(s[i], Uppers)
    requires forall i :: p + u <= i < p + u + d ==> InClass(s[i], Digits)
    requires forall i :: p + u + d + 1 <= i < p + u + d + 1 + t ==> InClass(s[i], AnyButTerminator)
    requires s[p + u + d] == ':'
    requires p + u + d + 1 + t == |s| || !InClass(s[p + u + d + 1 + t], AnyButTerminator)
    ensures IsCellMatch(s, p, CellMatch(p, s[p..p + u + d], s[p + u + d + 1..p + u + d + 1 + t]))
  {
    var q := p + u + d;
    var cell := s[p..q];
    RunIsAllIn(s, q + 1, t, AnyButTerminator);
    assert AllIn(cell[..u], Uppers);
    assert AllIn(cell[u..], Digits);
    assert s[p..q + 1 + t] == cell + [s[q]] + s[q + 1..q + 1 + t];
  }

  function FirstCellMatch(s: string, p: nat): (m: Option<CellMatch>)
    decreases |s| + 1 - p
    ensures m.Some? ==> p <= m.value.start && CellMatchAt(s, m.value.start) == m
    ensures m.Some? ==> forall q: nat :: p <= q < m.value.start ==> CellMatchAt(s, q).None?
    ensures m.None? ==> forall q: nat :: p <= q ==> CellMatchAt(s, q).None?
  {
    if p > |s| then None
    else if CellMatchAt(s, p).Some? then CellMatchAt(s, p)
    else FirstCellMatch(s, p + 1)
  }

  // ---------------------------------------------------------------------
  // The two parsers
  // ---------------------------------------------------------------------

  datatype ParsedLine =
    | Worksheet(content: string)
    | Row(rowNum: string, cellData: seq<string>)
    | Other(content: string)

  const WorksheetPrefix: string := "=== WORKSHEET:"
  const RowPrefix: string := "Row "
  const CellSeparator: string := " | "

  /** `parseExcelLine`. */
  function ParseExcelLine(line: string): (r: ParsedLine)
    ensures r.Worksheet? <==> StartsWith(line, WorksheetPrefix)
    ensures r.Row? <==> !StartsWith(line, WorksheetPrefix) && StartsWith(line, RowPrefix) && FirstRowMatch(line, 0).Some?
    ensures r.Worksheet? || r.Other? ==> r.content == line
    ensures r.Row? ==>
      && r.rowNum == FirstRowMatch(line, 0).value.rowNum
      && r.cellData == Split(FirstRowMatch(line, 0).value.tail, CellSeparator)
      && |r.rowNum| >= 1 && AllIn(r.rowNum, Digits)
      && |r.cellData| >= 1
      && Join(r.cellData, CellSeparator) == FirstRowMatch(line, 0).value.tail
      && forall i :: 0 <= i < |r.cellData| ==> Avoids(r.cellData[i], CellSeparator)
  {
    if StartsWith(line, WorksheetPrefix) then Worksheet(line)
    else if StartsWith(line, RowPrefix) && FirstRowMatch(line, 0).Some? then
      var m := FirstRowMatch(line, 0).value;
      JoinSplit(m.tail, CellSeparator);
      SplitPiecesAvoid(m.tail, CellSeparator);
      Row(m.rowNum, Split(m.tail, CellSeparator))
    else Other(line)
  }

  datatype CellData = CellData(cell: string, value: string)

  /** `parseCellData`. */
  function ParseCellData(cellStr: string): (r: CellData)
    ensures r.cell != "" <==> FirstCellMatch(cellStr, 0).Some?
    ensures r.cell != "" ==>
      && r.cell == FirstCellMatch(cellStr, 0).value.cell && r.value == FirstCellMatch(cellStr, 0).value.value
      && IsCellRef(r.cell) && |r.value| >= 1 && AllIn(r.value, AnyButTerminator)
    ensures r.cell == "" ==> r.value == cellStr
  {
    match FirstCellMatch(cellStr, 0)
    case Some(m) => CellData(m.cell, m.value)
    case None => CellData("", cellStr)
  }

  // ---------------------------------------------------------------------
  // Round trips with the display formats
  // ---------------------------------------------------------------------

  lemma RowLineMatchesAtStart(rowNum: string, tail: string)
    requires |rowNum| >= 1 && AllIn(rowNum, Digits)
    requires |tail| >= 1 && AllIn(tail, AnyButTerminator)
    ensures RowMatchAt("Row " + rowNum + ": " + tail, 0) == Some(RowMatch(0, rowNum, tail))
  {
    var s := "Row " + rowNum + ": " + tail;
    var q := 4 + |rowNum|;
    assert s[..4] == "Row ";
    assert s[4..q] == rowNum;
    assert s[q..q + 2] == ": ";
    assert s[q + 2..q + 2 + |tail|] == tail;
    RunFromExact(s, 4, Digits, |rowNum|);
    RunFromExact(s, q + 2, AnyButTerminator, |tail|);
  }

  lemma NotWorksheet(s: string)
    requires StartsWith(s, RowPrefix)
    ensures !StartsWith(s, WorksheetPrefix)
  {
    assert s[0] == s[..4][0] == 'R';
    assert |s| < 14 || s[..14][0] == 'R';
  }

  /** A line in the row format parses back into its row number and the
      cells of its tail. */
  lemma ParseRowLine(rowNum: string, tail: string)
    requires |rowNum| >= 1 && AllIn(rowNum, Digits)
    requires |tail| >= 1 && AllIn(tail, AnyButTerminator)
    ensures ParseExcelLine("Row " + rowNum + ": " + tail) == Row(rowNum, Split(tail, CellSeparator))
  {
    var s := "Row " + rowNum + ": " + tail;
    assert s[..4] == "Row ";
    NotWorksheet(s);
    RowLineMatchesAtStart(rowNum, tail);
    assert FirstRowMatch(s, 0) == Some(RowMatch(0, rowNum, tail));
  }

  /** A worksheet header wins over the row check. */
  lemma WorksheetTakesPrecedence(name: string)
    ensures ParseExcelLine(WorksheetPrefix + name) == Worksheet(WorksheetPrefix + name)
  {
    assert (WorksheetPrefix + name)[..|WorksheetPrefix|] == WorksheetPrefix;
  }

  /** A cell written as `<letters><digits>:<value>` parses back into its
      reference and value. */
  lemma ParseCellOfRef(letters: string, digits: string, value: string)
    requires |letters| >= 1 && AllIn(letters, Uppers)
    requires |digits| >= 1 && AllIn(digits, Digits)
    requires |value| >= 1 && AllIn(value, AnyButTerminator)
    ensures ParseCellData(letters + digits + ":" + value) == CellData(letters + digits, value)
  {
    CellMatchesAtStart(letters, digits, value);
    var s := letters + digits + ":" + value;
    assert FirstCellMatch(s, 0) == Some(CellMatch(0, letters + digits, value));
  }

  lemma CellMatchesAtStart(letters: string, digits: string, value: string)
    requires |letters| >= 1 && AllIn(letters, Uppers)
    requires |digits| >= 1 && AllIn(digits, Digits)
    requires |value| >= 1 && AllIn(value, AnyButTerminator)
    ensures CellMatchAt(letters + digits + ":" + value, 0) == Some(CellMatch(0, letters + digits, value))
  {
    var s := letters + digits + ":" + value;
    var u := |letters|;
    var q := u + |digits|;
    assert s[..u] == letters;
    assert s[u..q] == digits;
    assert s[q + 1..q + 1 + |value|] == value;
    assert CellShape(s, 0, u, |digits|, |value|);
    CellMatchAtFinds(s, 0, u, |digits|, |value|);
    var m := CellMatchAt(s, 0).value;
    assert s[..q] == letters + digits;
    assert m.cell == letters + digits;
    assert s[..q + 1 + |m.value|] == m.cell + ":" + m.value;
    assert m.value == s[q + 1..];
  }

  lemma NoRowAt(s: string, q: nat)
    requires q < |s| && s[q] != 'R'
    ensures RowMatchAt(s, q).None?
  {
    if q + 4 <= |s| {
      assert s[q..q + 4][0] == s[q];
    }
  }

  /** The leftmost place where the row shape is present is where the
      search stops, with the digit group found there. */
  lemma FirstRowMatchAtShape(s: string, p: nat, d: nat, t: nat)
    requires RowShape(s, p, d, t)
    requires forall q: nat :: q < p ==> RowMatchAt(s, q).None?
    ensures FirstRowMatch(s, 0).Some? && FirstRowMatch(s, 0).value.start == p
    ensures FirstRowMatch(s, 0).value.rowNum == s[p + 4..p + 4 + d]
  {
    RowMatchAtFinds(s, p, d, t);
  }

  const UnanchoredRow: string := "Row x: Row 5: a"

  lemma NoRowBeforeSeven()
    ensures forall q: nat :: q < 7 ==> RowMatchAt(UnanchoredRow, q).None?
  {
    var s := UnanchoredRow;
    assert RunFrom(s, 4, Digits) == 0;
    forall q: nat | q < 7 ensures RowMatchAt(s, q).None? {
      if q > 0 {
        NoRowAt(s, q);
      }
    }
  }

  lemma RowAtSeven()
    ensures FirstRowMatch(UnanchoredRow, 0) == Some(RowMatch(7, "5", "a"))
  {
    var s := UnanchoredRow;
    NoRowBeforeSeven();
    assert s[7..11] == "Row " && s[11..12] == "5" && s[12..14] == ": " && s[14..15] == "a";
    FirstRowMatchAtShape(s, 7, 1, 1);
    var m := FirstRowMatch(s, 0).value;
    assert m.tail == s[14..15];
  }

  /** The row pattern is not anchored: a line starting with "Row " whose
      first row number is missing takes the first match further on. */
  lemma RowMatchNotAnchored()
    ensures ParseExcelLine(UnanchoredRow) == Row("5", ["a"])
  {
    var s := UnanchoredRow;
    assert s[..4] == "Row ";
    NotWorksheet(s);
    RowAtSeven();
    assert Split("a", CellSeparator) == ["a"];
  }

  /** The leftmost place where the cell shape is present is where the
      search stops, with the reference found there. */
  lemma FirstCellMatchAtShape(s: string, p: nat, u: nat, d: nat, t: nat)
    requires CellShape(s, p, u, d, t)
    requires forall q: nat :: q < p ==> CellMatchAt(s, q).None?
    ensures FirstCellMatch(s, 0).Some? && FirstCellMatch(s, 0).value.start == p
    ensures FirstCellMatch(s, 0).value.cell == s[p..p + u + d]
    ensures |FirstCellMatch(s, 0).value.value| >= t
  {
    CellMatchAtFinds(s, p, u, d, t);
  }

  /** The value of a cell match is the text after the reference and ':'. */
  lemma CellMatchValue(s: string, p: nat, m: CellMatch)
    requires IsCellMatch(s, p, m)
    ensures m.value == s[p + |m.cell| + 1..p + |m.cell| + 1 + |m.value|]
  {
    var end := p + |m.cell| + 1 + |m.value|;
    assert s[p..end][|m.cell| + 1..] == m.value;
  }

  /** The cell pattern is not anchored: a character that cannot start a
      reference is skipped, and the reference after it is found. */
  lemma CellMatchNotAnchored(c: char, letters: string, digits: string, value: string)
    requires !InClass(c, Uppers)
    requires |letters| >= 1 && AllIn(letters, Uppers)
    requires |digits| >= 1 && AllIn(digits, Digits)
    requires |value| >= 1 && AllIn(value, AnyButTerminator)
    ensures ParseCellData([c] + letters + digits + ":" + value) == CellData(letters + digits, value)
  {
    FirstCellAfterOneChar(c, letters, digits, value);
  }

  lemma FirstCellAfterOneChar(c: char, letters: string, digits: string, value: string)
    requires !InClass(c, Uppers)
    requires |letters| >= 1 && AllIn(letters, Uppers)
    requires |digits| >= 1 && AllIn(digits, Digits)
    requires |value| >= 1 && AllIn(value, AnyButTerminator)
    ensures FirstCellMatch([c] + letters + digits + ":" + value, 0) == Some(CellMatch(1, letters + digits, value))
  {
    var s := [c] + letters + digits + ":" + value;
    CellShapeOf([c], letters, digits, value);
    NoCellAt(s, 0);
    FirstCellMatchAtShape(s, 1, |letters|, |digits|, |value|);
    var m := FirstCellMatch(s, 0).value;
    var q := 1 + |letters| + |digits|;
    assert m.cell == letters + digits;
    assert IsCellMatch(s, 1, m);
    assert |m.value| == |value|;
    CellMatchValue(s, 1, m);
    assert m.value == s[q + 1..];
  }

  /** A text `<pre><letters><digits>:<value>` has the cell shape after `pre`. */
  lemma CellShapeOf(pre: string, letters: string, digits: string, value: string)
    requires |letters| >= 1 && AllIn(letters, Uppers)
    requires |digits| >= 1 && AllIn(digits, Digits)
    requires |value| >= 1 && AllIn(value, AnyButTerminator)
    ensures var s := pre + letters + digits + ":" + value;
      && CellShape(s, |pre|, |letters|, |digits|, |value|)
      && s[|pre|..|pre| + |letters| + |digits|] == letters + digits
      && s[|pre| + |letters| + |digits| + 1..] == value
  {
    var s := pre + letters + digits + ":" + value;
    var p := |pre|;
    var u := |letters|;
    var q := p + u + |digits|;
    assert s[p..p + u] == letters;
    assert s[p + u..q] == digits;
    assert s[q + 1..] == value;
    assert s[q + 1..q + 1 + |value|] == value;
    assert s[p..q] == letters + digits;
  }

  lemma NoCellAt(s: string, p: nat)
    requires p < |s| && !InClass(s[p], Uppers)
    ensures CellMatchAt(s, p).None?
  {
    assert RunFrom(s, p, Uppers) == 0;
  }

  // ---------------------------------------------------------------------
  // What is shown for one difference
  // ---------------------------------------------------------------------

  /** One side of a card: the parsed line and, for a row, its parsed cells. */
  datatype Side = Side(parsed: ParsedLine, cells: seq<CellData>)

  datatype ExcelCard = ExcelCard(badge: ChangeKind, lineNumber: nat, left: Option<Side>, right: Option<Side>)

  function ParseSide(text: string): (side: Side)
    ensures side.parsed == ParseExcelLine(text)
    ensures side.parsed.Row? ==> |side.cells| == |side.parsed.cellData|
    ensures side.parsed.Row? ==> forall i :: 0 <= i < |side.cells| ==> side.cells[i] == ParseCellData(side.parsed.cellData[i])
    ensures !side.parsed.Row? ==> side.cells == []
  {
    var parsed := ParseExcelLine(text);
    if parsed.Row? then
      Side(parsed, seq(|parsed.cellData|, i requires 0 <= i < |parsed.cellData| => ParseCellData(parsed.cellData[i])))
    else Side(parsed, [])
  }

  /** `renderExcelDiff`: a side is parsed only when its text is truthy. */
  function ExcelDiffCard(e: DiffEntry): (c: ExcelCard)
    ensures c.badge == e.kind && c.lineNumber == e.line + 1
    ensures c.left.Some? <==> Truthy(e.leftText)
    ensures c.right.Some? <==> Truthy(e.rightText)
    ensures c.left.Some? ==> c.left.value == ParseSide(e.leftText.value)
    ensures c.right.Some? ==> c.right.value == ParseSide(e.rightText.value)
  {
    ExcelCard(e.kind, e.line + 1,
      if Truthy(e.leftText) then Some(ParseSide(e.leftText.value)) else None,
      if Truthy(e.rightText) then Some(ParseSide(e.rightText.value)) else None)
  }

  /** For the differences the line diff produces, an added line shows only
      the new side, a removed line only the old side, a modified line both,
      each parsed from the line at that index. */
  lemma ExcelCardsShowTheirSides(left: seq<string>, right: seq<string>)
    ensures forall k :: 0 <= k < |Diff(left, right)| ==>
      var e := Diff(left, right)[k];
      var c := ExcelDiffCard(e);
      && (c.left.Some? <==> e.kind != Added)
      && (c.right.Some? <==> e.kind != Removed)
      && (c.left.Some? ==> c.left.value.parsed == ParseExcelLine(LineAt(left, e.line)))
      && (c.right.Some? ==> c.right.value.parsed == ParseExcelLine(LineAt(right, e.line)))
  {
    DiffCharacterised(left, right);
  }
}
