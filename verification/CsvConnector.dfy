/** CSV import of index values (apps/api/src/pricing/index-connector.ts, `CsvIndexConnector.parse`). */
module CsvConnector {
  import opened Outcomes
  import opened DecimalText
  import opened Calendar
  import opened Indexes
  import opened CsvText
  import opened IndexStore

  const MAX_IMPORT_ROWS: nat := 1000

  // --------------------------------------------------------------------- cells

  predicate PeriodCell(s: string) {
    |s| == 7 && AllDigits(s[..4]) && s[4] == '-' && AllDigits(s[5..]) && 1 <= DigitsValue(s[5..]) <= 12
  }

  function PeriodOf(s: string): int
    requires PeriodCell(s)
  {
    DigitsValue(s[..4]) * 100 + DigitsValue(s[5..])
  }

  /** At most twelve digits before the point and six after it, and more than zero. */
  predicate ValueCell(s: string) {
    var p := Split(s);
    WellFormed(p) && !p.negative && |p.whole| <= 12 && |p.fraction| <= 6 && Value(p) > 0.0
  }

  predicate DayCell(s: string) {
    && |s| == 10 && PeriodCell(s[..7]) && s[7] == '-' && AllDigits(s[8..])
    && 1 <= DigitsValue(s[8..]) <= DaysInMonth(DigitsValue(s[..7][..4]), DigitsValue(s[..7][5..]))
  }

  function DayOf(s: string): Day
    requires DayCell(s)
  {
    PeriodOf(s[..7]) * 100 + DigitsValue(s[8..])
  }

  function CellAt(cells: seq<string>, i: nat): string { if i < |cells| then cells[i] else "" }

  /** A publication date is absent, or a real day not before the first of its period. */
  predicate PublicationCell(published: string, period: string) {
    published == "" || (DayCell(published) && (PeriodCell(period) ==> DayOf(published) >= PeriodOf(period) * 100 + 1))
  }

  predicate ReadableCells(cells: seq<string>) {
    && 2 <= |cells| <= 3
    && PeriodCell(cells[0]) && ValueCell(cells[1]) && PublicationCell(CellAt(cells, 2), cells[0])
  }

  function RowOf(cells: seq<string>, line: nat): ImportRow
    requires ReadableCells(cells)
  {
    ImportRow(line, PeriodOf(cells[0]), Value(Split(cells[1])), if CellAt(cells, 2) == "" then None else Some(DayOf(cells[2])))
  }

  // ---------------------------------------------------------------------- lines

  datatype State = State(rows: seq<ImportRow>, errors: seq<nat>, seen: set<int>, stopped: bool)

  const START := State([], [], {}, false)

  function Refuse(st: State, line: nat): State { st.(errors := st.errors + [line]) }

  /** A line of two or three cells: any period it shows is seen, even when the line is refused. */
  function Cells(st: State, cells: seq<string>, line: nat): State
    requires 2 <= |cells| <= 3
  {
    var repeated := PeriodCell(cells[0]) && PeriodOf(cells[0]) in st.seen;
    var noted := if PeriodCell(cells[0]) then st.(seen := st.seen + {PeriodOf(cells[0])}) else st;
    if !ReadableCells(cells) || repeated then Refuse(noted, line)
    else noted.(rows := noted.rows + [RowOf(cells, line)])
  }

  function Next(st: State, l: SourceLine, line: nat): State {
    if st.stopped || l.Blank? then st
    else if st.rows == [] && st.errors == [] && l.titled then st
    else if |st.rows| + |st.errors| >= MAX_IMPORT_ROWS then Refuse(st, line).(stopped := true)
    else if !(2 <= |l.cells| <= 3) then Refuse(st, line)
    else Cells(st, l.cells, line)
  }

  function ParseState(lines: seq<SourceLine>): State {
    if lines == [] then START else Next(ParseState(lines[..|lines| - 1]), lines[|lines| - 1], |lines|)
  }

  function ParseFile(lines: seq<SourceLine>): Parsed {
    Parsed(ParseState(lines).rows, ParseState(lines).errors)
  }

  function ParseText(text: string, c: Config): Parsed { ParseFile(SourceLines(text, c)) }

  method Parse(text: string, c: Config) returns (p: Parsed)
    ensures p == ParseText(text, c)
  {
    hide ReadableCells, RowOf, PeriodCell, SourceLines;
    var lines := SourceLines(text, c);
    var rows: seq<ImportRow>, errors: seq<nat>, seen: set<int>, stopped := [], [], {}, false;
    var i := 0;
    while i < |lines| && !stopped
      invariant 0 <= i <= |lines|
      invariant ParseState(lines[..i]) == State(rows, errors, seen, stopped)
    {
      var l, line := lines[i], i + 1;
      assert lines[..i + 1][..i] == lines[..i];
      i := i + 1;
      if l.Blank? || (rows == [] && errors == [] && l.titled) {
        continue;
      }
      if |rows| + |errors| >= MAX_IMPORT_ROWS {
        errors := errors + [line];
        stopped := true;
        continue;
      }
      if !(2 <= |l.cells| <= 3) {
        errors := errors + [line];
        continue;
      }
      var after := Cells(State(rows, errors, seen, stopped), l.cells, line);
      rows, errors, seen := after.rows, after.errors, after.seen;
    }
    StoppedStays(lines, i);
    p := Parsed(rows, errors);
  }

  lemma {:induction false} StoppedStays(lines: seq<SourceLine>, n: nat)
    requires n <= |lines|
    ensures ParseState(lines[..n]).stopped || n == |lines| ==> ParseState(lines) == ParseState(lines[..n])
    decreases |lines|
  {
    hide Cells;
    if n == |lines| {
      assert lines[..n] == lines;
    } else if ParseState(lines[..n]).stopped {
      assert lines[..|lines| - 1][..n] == lines[..n];
      StoppedStays(lines[..|lines| - 1], n);
    }
  }

  // --------------------------------------------------------------------- properties

  ghost predicate Consistent(st: State) {
    && DistinctPeriods(st.rows)
    && (forall r :: r in st.rows ==> r.period in st.seen && r.value > 0.0 && (r.publishedAt.Some? ==> r.publishedAt.value >= r.period * 100 + 1))
    && |st.rows| + |st.errors| <= MAX_IMPORT_ROWS + (if st.stopped then 1 else 0)
    && (st.stopped ==> st.errors != [])
  }

  lemma CellsStayConsistent(st: State, cells: seq<string>, line: nat)
    requires Consistent(st) && 2 <= |cells| <= 3 && |st.rows| + |st.errors| < MAX_IMPORT_ROWS
    ensures Consistent(Cells(st, cells, line))
  {
    hide PeriodCell, ValueCell, PeriodOf, DayOf, DayCell;
    var after := Cells(st, cells, line);
    if ReadableCells(cells) && PeriodOf(cells[0]) !in st.seen {
      var r := RowOf(cells, line);
      assert after.rows == st.rows + [r];
      assert r.value > 0.0 by { ReadableValue(cells); }
      forall i | 0 <= i < |st.rows|
        ensures after.rows[i].period != r.period
      {
        assert st.rows[i] in st.rows;
      }
    }
  }

  lemma ReadableValue(cells: seq<string>)
    requires ReadableCells(cells)
    ensures Value(Split(cells[1])) > 0.0
  {
  }

  lemma {:induction false} ParseStaysConsistent(lines: seq<SourceLine>)
    ensures Consistent(ParseState(lines))
  {
    hide Cells;
    if lines != [] {
      var before, l := ParseState(lines[..|lines| - 1]), lines[|lines| - 1];
      ParseStaysConsistent(lines[..|lines| - 1]);
      if l.Content? && 2 <= |l.cells| <= 3 && |before.rows| + |before.errors| < MAX_IMPORT_ROWS {
        CellsStayConsistent(before, l.cells, |lines|);
      }
    }
  }

  /**
   * Whatever the file, a parse gives each period at most once, positive values not published before
   * their period, and at most a thousand rows and errors plus the one that says so.
   */
  lemma ParsedFileIsSafe(lines: seq<SourceLine>)
    ensures var p := ParseFile(lines);
            && DistinctPeriods(p.rows)
            && (forall r :: r in p.rows ==> r.value > 0.0 && (r.publishedAt.Some? ==> r.publishedAt.value >= r.period * 100 + 1))
            && |p.rows| + |p.errors| <= MAX_IMPORT_ROWS + 1
  {
    hide ParseState;
    ParseStaysConsistent(lines);
  }

  /** Is this line, at this place, data? The title line only counts as such before any row or error. */
  predicate IsData(lines: seq<SourceLine>, i: nat)
    requires i < |lines|
  {
    lines[i].Content? && !(lines[i].titled && ParseState(lines[..i]).rows == [] && ParseState(lines[..i]).errors == [])
  }

  /** The rows that the data lines say, in order. */
  function DataRows(lines: seq<SourceLine>): seq<ImportRow> {
    if lines == [] then []
    else
      var n := |lines| - 1;
      DataRows(lines[..n]) + if IsData(lines, n) && ReadableCells(lines[n].cells) then [RowOf(lines[n].cells, n + 1)] else []
  }

  /**
   * A file without errors was read in full: every data line is readable and is one row, nothing is
   * dropped and nothing chosen between two values of a period.
   */
  lemma {:induction false} AcceptedFileIsReadInFull(lines: seq<SourceLine>)
    requires ParseFile(lines).errors == []
    ensures ParseFile(lines).rows == DataRows(lines)
    ensures forall i :: 0 <= i < |lines| && IsData(lines, i) ==> ReadableCells(lines[i].cells)
  {
    hide ReadableCells, RowOf, PeriodCell;
    if lines != [] {
      var n := |lines| - 1;
      ParseStaysConsistent(lines);
      ErrorsGrow(lines);
      AcceptedFileIsReadInFull(lines[..n]);
      assert lines[..n] == lines[..|lines| - 1];
      forall i | 0 <= i < |lines| && IsData(lines, i)
        ensures ReadableCells(lines[i].cells)
      {
        if i < n {
          assert lines[..n][..i] == lines[..i];
          assert IsData(lines[..n], i);
        }
      }
    }
  }

  lemma CellsKeepErrors(st: State, cells: seq<string>, line: nat)
    requires 2 <= |cells| <= 3
    ensures Cells(st, cells, line).errors == st.errors || Cells(st, cells, line).errors == st.errors + [line]
  {
    hide ReadableCells, RowOf, PeriodCell, PeriodOf;
  }

  lemma ErrorsGrow(lines: seq<SourceLine>)
    requires lines != []
    ensures ParseState(lines).errors == [] ==> ParseState(lines[..|lines| - 1]).errors == []
  {
    hide Cells;
    var l := lines[|lines| - 1];
    if l.Content? && 2 <= |l.cells| <= 3 {
      CellsKeepErrors(ParseState(lines[..|lines| - 1]), l.cells, |lines|);
    }
  }

  // ------------------------------------------------------------- what is written is read

  /** A value of the series as a file writes it. */
  datatype Record = Record(period: string, value: string, published: string) {
    function Texts(): seq<string> { [period, value, published] }

    /** As cells of a line: the publication date is left out when it is absent. */
    function Written(c: Config): seq<string> {
      var shown := if c.decimalComma then CommaForPoint(value) else value;
      if published == "" then [period, shown] else [period, shown, published]
    }
  }

  function CommaForPoint(s: string): string {
    var n := Find(s, '.');
    if n == |s| then s else s[..n] + "," + s[n + 1..]
  }

  function LinesOf(records: seq<Record>, c: Config): seq<string> {
    seq(|records|, i requires 0 <= i < |records| => Joined(records[i].Written(c), c.delimiter))
  }

  predicate IsDigit(x: char) { '0' <= x <= '9' }

  /** One character that no cell holds and that is no blank. */
  predicate Separates(c: Config) {
    |c.delimiter| == 1 && var x := c.delimiter[0];
    !IsDigit(x) && x != '-' && x != '.' && !IsSpace(x) && (c.decimalComma ==> x != ',')
  }

  predicate CellChar(x: char) { IsDigit(x) || x == '-' || x == '.' || x == ',' }

  predicate CellChars(s: string) { forall i :: 0 <= i < |s| ==> CellChar(s[i]) }

  lemma PeriodChars(s: string)
    requires PeriodCell(s)
    ensures s != [] && CellChars(s) && IsDigit(s[0]) && Lacks(s, ',')
  {
    hide DigitsValue;
    forall i | 0 <= i < |s|
      ensures CellChar(s[i]) && s[i] != ','
    {
      if i < 4 {
        assert s[..4][i] == s[i];
      } else if i > 4 {
        assert s[5..][i - 5] == s[i];
      }
    }
    assert s[..4][0] == s[0];
  }

  lemma DayChars(s: string)
    requires DayCell(s)
    ensures CellChars(s) && Lacks(s, ',')
  {
    hide DigitsValue, PeriodCell;
    PeriodChars(s[..7]);
    forall i | 0 <= i < |s|
      ensures CellChar(s[i]) && s[i] != ','
    {
      if i < 7 {
        assert s[..7][i] == s[i];
      } else if i > 7 {
        assert s[8..][i - 8] == s[i];
      }
    }
  }

  /** A value is digits with at most one point inside. */
  lemma ValueChars(s: string) returns (n: nat)
    requires ValueCell(s)
    ensures s != [] && n <= |s| && forall i :: 0 <= i < |s| && i != n ==> IsDigit(s[i])
    ensures n < |s| ==> s[n] == '.'
  {
    hide DigitsValue, Value;
    var p := Split(s);
    n := IntegerLength(s);
    forall i | 0 <= i < |s| && i != n
      ensures IsDigit(s[i])
    {
      if i < n {
        assert p.whole[i] == s[i];
      } else {
        assert p.fraction[i - n - 1] == s[i];
      }
    }
  }

  /** Written with a comma or a point, a value holds no other sign, and is read back with its point. */
  lemma ShownValue(s: string, comma: bool)
    requires ValueCell(s)
    ensures var shown := if comma then CommaForPoint(s) else s;
            && CellChars(shown) && shown != [] && (!comma ==> Lacks(shown, ',')) && (comma ==> PointForComma(shown) == s)
  {
    hide ValueCell, Split;
    var n := ValueChars(s);
    if comma {
      if n < |s| {
        FindAt(s, '.', n);
        var shown := s[..n] + "," + s[n + 1..];
        FindAt(shown, ',', n);
        assert shown[..n] + "." + shown[n + 1..] == s;
      } else {
        FindNone(s, '.');
        FindNone(s, ',');
      }
    }
  }

  lemma FindAt(s: string, c: char, n: nat)
    requires n < |s| && s[n] == c && forall i :: 0 <= i < n ==> s[i] != c
    ensures Find(s, c) == n
  {
  }

  lemma FindNone(s: string, c: char)
    requires Lacks(s, c)
    ensures Find(s, c) == |s|
  {
  }

  lemma WrittenCells(r: Record, c: Config)
    requires Separates(c) && ReadableCells(r.Texts())
    ensures forall x :: x in r.Written(c) ==> x != [] && CellChars(x) && Lacks(x, c.delimiter[0])
    ensures IsDigit(r.period[0]) && r.period != []
  {
    hide ValueCell, PeriodCell, DayCell, CommaForPoint, CellChars, Separates, Lacks;
    PeriodChars(r.period);
    ShownValue(r.value, c.decimalComma);
    var shown := if c.decimalComma then CommaForPoint(r.value) else r.value;
    CommaSeparates(c);
    LacksDelimiter(r.period, c);
    LacksDelimiter(shown, c);
    if r.published != "" {
      DayChars(r.published);
      LacksDelimiter(r.published, c);
    }
  }

  lemma CommaSeparates(c: Config)
    requires Separates(c)
    ensures c.delimiter[0] == ',' ==> !c.decimalComma
  {
  }

  lemma LacksDelimiter(s: string, c: Config)
    requires Separates(c) && CellChars(s) && (c.delimiter[0] == ',' ==> Lacks(s, ','))
    ensures Lacks(s, c.delimiter[0])
  {
    forall i | 0 <= i < |s|
      ensures s[i] != c.delimiter[0]
    {
      assert CellChar(s[i]);
    }
  }

  lemma CellIsUnpadded(s: string)
    requires CellChars(s) && s != []
    ensures Unpadded(s) && IsPlain(s)
  {
    assert CellChar(s[0]) && CellChar(s[|s| - 1]);
  }

  lemma {:induction false} JoinedEnds(cells: seq<string>, d: string)
    requires cells != [] && cells[0] != [] && |d| == 1 && !IsSpace(d[0]) && forall x :: x in cells ==> x != [] && CellChars(x)
    ensures var line := Joined(cells, d);
            line != [] && line[0] == cells[0][0] && Unpadded(line) && IsPlain(line)
  {
    assert cells[0] in cells;
    CellIsUnpadded(cells[0]);
    if |cells| > 1 {
      assert forall x :: x in cells[1..] ==> x in cells;
      assert cells[1..][0] in cells[1..];
      JoinedEnds(cells[1..], d);
      var rest := Joined(cells[1..], d);
      assert Joined(cells, d) == cells[0] + d + rest;
      assert forall i :: 0 <= i < |cells[0] + d + rest| ==>
        (cells[0] + d + rest)[i] == if i < |cells[0]| then cells[0][i] else if i == |cells[0]| then d[0] else rest[i - |cells[0]| - 1];
    }
  }

  /** A written line is read as its cells, value and date included. */
  lemma WrittenLine(r: Record, c: Config)
    requires Separates(c) && ReadableCells(r.Texts())
    ensures IsPlain(Joined(r.Written(c), c.delimiter))
    ensures ToSource(Joined(r.Written(c), c.delimiter), c) == Content(false, if r.published == "" then r.Texts()[..2] else r.Texts())
  {
    hide ReadableCells, Joined, SplitCells, Trim, TrimAll, CommaForPoint, PointForComma, IsSpace, CellChars, Lacks, Unpadded, IsPlain, ToSource;
    WrittenCells(r, c);
    var cells, line := r.Written(c), Joined(r.Written(c), c.delimiter);
    JoinedEnds(cells, c.delimiter);
    TrimKeeps(line);
    JoinedCellsSplit(cells, c.delimiter[0]);
    assert c.delimiter == [c.delimiter[0]];
    CellsAreTrimmed(cells);
    LineToSource(line, c, cells);
    ReadableParts(r.Texts());
    hide ValueCell, PeriodCell;
    ShownValue(r.value, c.decimalComma);
  }

  /** A line that begins with a digit and is cut into trimmed cells is data. */
  lemma LineToSource(line: string, c: Config, cells: seq<string>)
    requires line != [] && IsDigit(line[0]) && Trim(line) == line && |cells| >= 2
    requires SplitCells(line, c.delimiter) == cells && TrimAll(cells) == cells
    ensures ToSource(line, c)
         == Content(false, if c.decimalComma && c.delimiter != "," then cells[1 := PointForComma(cells[1])] else cells)
  {
    hide Trim, TrimAll, SplitCells, PointForComma;
  }

  lemma ReadableParts(cells: seq<string>)
    requires ReadableCells(cells)
    ensures 2 <= |cells| <= 3 && PeriodCell(cells[0]) && ValueCell(cells[1])
  {
  }

  lemma CellsAreTrimmed(cells: seq<string>)
    requires forall x :: x in cells ==> x != [] && CellChars(x)
    ensures TrimAll(cells) == cells
  {
    hide Trim;
    forall i | 0 <= i < |cells|
      ensures Trim(cells[i]) == cells[i]
    {
      CellIsUnpadded(cells[i]);
      TrimKeeps(cells[i]);
    }
  }

  ghost predicate Writable(records: seq<Record>) {
    && |records| <= MAX_IMPORT_ROWS
    && (forall r :: r in records ==> ReadableCells(r.Texts()))
    && forall i, j :: 0 <= i < j < |records| ==> PeriodAt(records, i) != PeriodAt(records, j)
  }

  function PeriodAt(records: seq<Record>, i: nat): int
    requires i < |records|
  {
    if PeriodCell(records[i].period) then PeriodOf(records[i].period) else 0
  }

  /** The rows that the records stand for, numbered as their lines. */
  function RowsOf(records: seq<Record>): seq<ImportRow>
    requires forall r :: r in records ==> ReadableCells(r.Texts())
  {
    seq(|records|, i requires 0 <= i < |records| => RowOf(records[i].Texts(), i + 1))
  }

  function SourceOf(r: Record): SourceLine {
    Content(false, if r.published == "" then r.Texts()[..2] else r.Texts())
  }

  function Sources(records: seq<Record>): seq<SourceLine> {
    seq(|records|, i requires 0 <= i < |records| => SourceOf(records[i]))
  }

  lemma TwoOrThreeCells(r: Record, line: nat)
    requires ReadableCells(r.Texts())
    ensures ReadableCells(SourceOf(r).cells) && RowOf(SourceOf(r).cells, line) == RowOf(r.Texts(), line) && SourceOf(r).cells[0] == r.period
  {
    hide PeriodCell, ValueCell, DayCell, PeriodOf, DayOf;
  }

  lemma RecordIsRead(st: State, r: Record, line: nat)
    requires ReadableCells(r.Texts()) && !st.stopped && st.errors == [] && |st.rows| < MAX_IMPORT_ROWS
    requires PeriodCell(r.period) && PeriodOf(r.period) !in st.seen
    ensures Next(st, SourceOf(r), line) == st.(rows := st.rows + [RowOf(r.Texts(), line)], seen := st.seen + {PeriodOf(r.period)})
  {
    hide ReadableCells, PeriodCell, PeriodOf, RowOf;
    TwoOrThreeCells(r, line);
  }

  lemma {:induction false} SourcesAreRead(records: seq<Record>)
    requires Writable(records)
    ensures var st := ParseState(Sources(records));
            st.rows == RowsOf(records) && st.errors == [] && !st.stopped && st.seen == Seen(records)
  {
    if records != [] {
      var n := |records| - 1;
      var init, r := records[..n], records[n];
      WritableInit(records);
      hide *;
      SourcesAreRead(init);
      var st := ParseState(Sources(init));
      LastIsNew(records);
      RowsSoFar(records);
      RecordIsRead(st, r, n + 1);
      LastSource(records);
    } else {
      assert Sources(records) == [];
    }
  }

  /** The periods met so far. */
  function Seen(records: seq<Record>): set<int> {
    set i | 0 <= i < |records| :: PeriodAt(records, i)
  }

  lemma SeenGrows(records: seq<Record>)
    requires records != []
    ensures Seen(records) == Seen(records[..|records| - 1]) + {PeriodAt(records, |records| - 1)}
  {
    hide PeriodCell, PeriodOf;
    var n := |records| - 1;
    assert forall i :: 0 <= i < n ==> PeriodAt(records[..n], i) == PeriodAt(records, i);
    forall p
      ensures p in Seen(records) <==> p in Seen(records[..n]) || p == PeriodAt(records, n)
    {
      if p in Seen(records) {
        var i :| 0 <= i < |records| && PeriodAt(records, i) == p;
        assert i < n ==> PeriodAt(records[..n], i) == p;
      }
      if p in Seen(records[..n]) {
        var i :| 0 <= i < n && PeriodAt(records[..n], i) == p;
        assert PeriodAt(records, i) == p;
      }
    }
  }

  lemma RowsSoFar(records: seq<Record>)
    requires records != [] && forall r :: r in records ==> ReadableCells(r.Texts())
    ensures (forall r :: r in records[..|records| - 1] ==> r in records) && records[|records| - 1] in records
    ensures RowsOf(records) == RowsOf(records[..|records| - 1]) + [RowOf(records[|records| - 1].Texts(), |records|)]
    ensures |RowsOf(records)| == |records|
  {
    hide ReadableCells, RowOf;
    var init := records[..|records| - 1];
    assert forall r :: r in init ==> r in records;
  }

  lemma LastSource(records: seq<Record>)
    requires records != []
    ensures var init, r := records[..|records| - 1], records[|records| - 1];
            ParseState(Sources(records)) == Next(ParseState(Sources(init)), SourceOf(r), |records|)
  {
    hide Next, SourceOf;
    var n := |records| - 1;
    assert Sources(records)[..n] == Sources(records[..n]);
  }

  lemma WritableInit(records: seq<Record>)
    requires Writable(records) && records != []
    ensures Writable(records[..|records| - 1]) && |records| <= MAX_IMPORT_ROWS
    ensures forall r :: r in records ==> ReadableCells(r.Texts())
  {
    hide ReadableCells, PeriodCell, PeriodOf;
    var init := records[..|records| - 1];
    assert forall r :: r in init ==> r in records;
    assert forall i :: 0 <= i < |init| ==> PeriodAt(init, i) == PeriodAt(records, i);
  }

  lemma LastIsNew(records: seq<Record>)
    requires Writable(records) && records != []
    ensures var r := records[|records| - 1];
            && ReadableCells(r.Texts()) && PeriodCell(r.period)
            && PeriodOf(r.period) !in Seen(records[..|records| - 1]) && Seen(records) == Seen(records[..|records| - 1]) + {PeriodOf(r.period)}
  {
    hide ReadableCells, PeriodCell, PeriodOf;
    var n := |records| - 1;
    assert records[n] in records;
    ReadableParts(records[n].Texts());
    SeenGrows(records);
    assert forall i :: 0 <= i < n ==> PeriodAt(records[..n], i) == PeriodAt(records, i);
  }

  /**
   * What is written is read: a file of distinct periods, with either line end, any delimiter that no cell
   * holds and either decimal sign, is parsed back to exactly its records, in order and without error.
   */
  lemma WrittenFileIsRead(records: seq<Record>, c: Config, eol: string)
    requires Writable(records) && records != [] && Separates(c) && LineEnd(eol)
    ensures ParseText(Joined(LinesOf(records, c), eol), c) == Parsed(RowsOf(records), [])
  {
    hide ReadableCells, Joined, SplitLines, ToSource, RowOf, Separates, ParseState;
    var lines := LinesOf(records, c);
    forall i | 0 <= i < |records|
      ensures IsPlain(lines[i]) && ToSource(lines[i], c) == SourceOf(records[i])
    {
      WrittenLine(records[i], c);
    }
    JoinedSplits(lines, eol);
    NoMark(records, c, eol);
    assert SourceLines(Joined(lines, eol), c) == Sources(records);
    SourcesAreRead(records);
  }

  /** A written file begins with a digit. */
  lemma NoMark(records: seq<Record>, c: Config, eol: string)
    requires Writable(records) && records != [] && Separates(c)
    ensures WithoutMark(Joined(LinesOf(records, c), eol)) == Joined(LinesOf(records, c), eol)
  {
    hide ReadableCells;
    var r := records[0];
    WrittenCells(r, c);
    JoinedEnds(r.Written(c), c.delimiter);
    assert LinesOf(records, c)[0] == Joined(r.Written(c), c.delimiter);
    assert Joined(LinesOf(records, c), eol)[0] == r.period[0];
  }

  // ------------------------------------------------------------- files into the store

  /** What an administrator does to a series: enter or correct a value, or load a file. */
  datatype FileStep = Enters(e: Entry) | Loads(text: string, c: Config, today: Day)

  function StepOf(s: FileStep): IndexStore.Step {
    match s
    case Enters(e) => Add(e)
    case Loads(text, c, today) => Import(ParseText(text, c), today)
  }

  function StepsOf(steps: seq<FileStep>): seq<IndexStore.Step> {
    seq(|steps|, i requires 0 <= i < |steps| => StepOf(steps[i]))
  }

  lemma FilesAreFromConnector(steps: seq<FileStep>)
    ensures FromConnector(StepsOf(steps))
  {
    hide ParseFile, SourceLines;
    forall s | s in StepsOf(steps) && s.Import?
      ensures DistinctPeriods(s.parsed.rows)
    {
      var i :| 0 <= i < |steps| && StepOf(steps[i]) == s;
      ParsedFileIsSafe(SourceLines(steps[i].text, steps[i].c));
    }
  }

  /**
   * Whatever is entered, corrected and loaded from files, one after the other, every period keeps one linear
   * chain of corrections, and the engine is given one value per period.
   */
  lemma FilesKeepOneValuePerPeriod(steps: seq<FileStep>, dec: real -> string)
    ensures Sound(Run(StepsOf(steps)))
    ensures var values := CurrentValues(Run(StepsOf(steps)), dec);
            && (forall i, j :: 0 <= i < j < |values| ==> values[i].period != values[j].period)
            && CheckValues(values) != Err(DUPLICATE_INDEX_VALUE)
  {
    hide Sound, CheckValues, FromConnector, Run, CurrentValues;
    FilesAreFromConnector(steps);
    RunsStaySound(StepsOf(steps));
    OneCurrentValuePerPeriod(StepsOf(steps), dec);
  }
}
