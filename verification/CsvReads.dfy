/**
 * What a CSV import makes of each line (apps/api/src/pricing/index-connector.ts, `CsvIndexConnector.parse`), told
 * from its cells: months and days as the calendar writes them, and which lines are rows, errors or neither.
 */
module CsvReads {
  import opened Outcomes
  import opened DecimalText
  import opened Calendar
  import opened CsvText
  import opened IndexStore
  import opened CsvConnector

  // ---------------------------------------------------------------------- one cell

  /** A month as the calendar writes it, "YYYY-MM". */
  ghost predicate MonthReads(s: string, period: int) {
    && 0 <= period / 100 <= 9999 && 1 <= period % 100 <= 12
    && s == Digits(period / 100, 4) + "-" + Digits(period % 100, 2)
  }

  /** A day that exists, "YYYY-MM-DD". */
  ghost predicate DayReads(s: string, day: Day) {
    && 0 <= day / 10000 <= 9999 && 1 <= day / 100 % 100 <= 12 && 1 <= day % 100 <= DaysInMonth(day / 10000, day / 100 % 100)
    && s == Digits(day / 10000, 4) + "-" + Digits(day / 100 % 100, 2) + "-" + Digits(day % 100, 2)
  }

  /** A decimal above zero, of at most twelve digits before the point and six after. */
  ghost predicate ValueReads(s: string, v: real) {
    ParseDecimal(s, 6, false) == Ok(v) && v > 0.0 && exists n :: WholeDigits(s, n) && n <= 12
  }

  predicate WholeDigits(s: string, n: int) {
    0 <= n <= |s| && (n < |s| ==> s[n] == '.') && forall i :: 0 <= i < n ==> s[i] != '.'
  }

  lemma {:induction false} DigitsOfValue(s: string)
    requires AllDigits(s)
    ensures DigitsValue(s) >= 0 && Digits(DigitsValue(s), |s|) == s && DigitsValue(s) < Pow(|s|)
  {
    if s != [] {
      var init := s[..|s| - 1];
      DigitsOfValue(init);
      assert s == init + [s[|s| - 1]];
      var d := s[|s| - 1] as int - '0' as int;
      assert DigitsValue(s) / 10 == DigitsValue(init) && DigitsValue(s) % 10 == d;
    }
  }

  lemma {:induction false} ValueOfDigits(v: nat, n: nat)
    requires v < Pow(n)
    ensures AllDigits(Digits(v, n)) && DigitsValue(Digits(v, n)) == v
  {
    if n > 0 {
      ValueOfDigits(v / 10, n - 1);
      assert Digits(v, n)[..n - 1] == Digits(v / 10, n - 1);
    }
  }

  lemma SmallPowers()
    ensures Pow(2) == 100 && Pow(4) == 10000
  {
  }

  lemma MonthExactly(s: string, period: int)
    ensures PeriodCell(s) && PeriodOf(s) == period <==> MonthReads(s, period)
  {
    SmallPowers();
    hide Digits, DigitsValue, Pow, AllDigits;
    if PeriodCell(s) {
      DigitsOfValue(s[..4]);
      DigitsOfValue(s[5..]);
      assert s == s[..4] + "-" + s[5..];
    }
    if MonthReads(s, period) {
      ValueOfDigits(period / 100, 4);
      ValueOfDigits(period % 100, 2);
      assert s[..4] == Digits(period / 100, 4) && s[5..] == Digits(period % 100, 2);
    }
  }

  lemma DayExactly(s: string, day: Day)
    ensures DayCell(s) && DayOf(s) == day <==> DayReads(s, day)
  {
    SmallPowers();
    hide Digits, DigitsValue, Pow, AllDigits, DaysInMonth, PeriodCell, PeriodOf;
    if DayCell(s) {
      var period := PeriodOf(s[..7]);
      MonthExactly(s[..7], period);
      PartsOfMonth(s[..7], period);
      DigitsOfValue(s[8..]);
      assert s == s[..7] + "-" + s[8..];
      Thousands(period, DigitsValue(s[8..]));
    }
    if DayReads(s, day) {
      Thousands(day / 100, day % 100);
      ValueOfDigits(day % 100, 2);
      assert s[..7] == Digits(day / 10000, 4) + "-" + Digits(day / 100 % 100, 2) && s[8..] == Digits(day % 100, 2);
      MonthExactly(s[..7], day / 100);
      PartsOfMonth(s[..7], day / 100);
    }
  }

  lemma Thousands(period: int, d: int)
    requires 0 <= d < 100
    ensures (period * 100 + d) / 100 == period && (period * 100 + d) % 100 == d && (period * 100 + d) / 10000 == period / 100
  {
  }

  lemma PartsOfMonth(s: string, period: int)
    requires PeriodCell(s) && PeriodOf(s) == period
    ensures DigitsValue(s[..4]) == period / 100 && DigitsValue(s[5..]) == period % 100
  {
    hide DigitsValue;
    DigitsOfValue(s[5..]);
  }

  lemma WholeOf(s: string)
    ensures forall n :: WholeDigits(s, n) <==> n == IntegerLength(s)
  {
    hide IntegerLength;
  }

  lemma ValueExactly(s: string, v: real)
    ensures ValueCell(s) && Value(Split(s)) == v <==> ValueReads(s, v)
  {
    WholeOf(s);
    hide Value, AllDigits, IntegerLength, WholeDigits;
    assert WholeDigits(s, IntegerLength(s));
  }

  // ----------------------------------------------------------------------- one line

  /** The row that two or three cells say. */
  ghost predicate RowReads(cells: seq<string>, line: nat, r: ImportRow) {
    && 2 <= |cells| <= 3 && r.line == line && MonthReads(cells[0], r.period) && ValueReads(cells[1], r.value)
    && if |cells| == 2 || cells[2] == "" then r.publishedAt.None?
       else r.publishedAt.Some? && DayReads(cells[2], r.publishedAt.value) && r.period <= r.publishedAt.value / 100
  }

  lemma RowExactly(cells: seq<string>, line: nat, r: ImportRow)
    ensures 2 <= |cells| <= 3 && ReadableCells(cells) && RowOf(cells, line) == r <==> RowReads(cells, line, r)
  {
    if 2 <= |cells| <= 3 {
      MonthExactly(cells[0], r.period);
      ValueExactly(cells[1], r.value);
      if PeriodCell(cells[0]) {
        MonthExactly(cells[0], PeriodOf(cells[0]));
      }
      if |cells| == 3 {
        if r.publishedAt.Some? {
          DayExactly(cells[2], r.publishedAt.value);
        }
        if DayCell(cells[2]) {
          DayExactly(cells[2], DayOf(cells[2]));
        }
      }
      hide MonthReads, DayReads, ValueReads, PeriodCell, PeriodOf, DayCell, DayOf, ValueCell, Value, Split;
      if r.publishedAt.Some? && DayReads(CellAt(cells, 2), r.publishedAt.value) {
        FirstDay(CellAt(cells, 2), r.publishedAt.value, r.period);
      }
    }
  }

  lemma FirstDay(s: string, day: Day, period: int)
    requires DayReads(s, day)
    ensures day >= period * 100 + 1 <==> period <= day / 100
  {
    hide Digits;
  }

  // ----------------------------------------------------------------------- the file

  /** Data: any content but the title lines that come before all other content. */
  ghost predicate Data(lines: seq<SourceLine>, i: int) {
    0 <= i < |lines| && lines[i].Content? && exists j :: 0 <= j <= i && lines[j].Content? && !lines[j].titled
  }

  /** An earlier line of data shows the same month. */
  ghost predicate Repeats(lines: seq<SourceLine>, i: int)
    requires 0 <= i < |lines| && lines[i].Content? && |lines[i].cells| >= 1
  {
    exists j :: 0 <= j < i && Shows(lines, j) && lines[j].cells[0] == lines[i].cells[0]
  }

  /** A line of data that shows a month. */
  ghost predicate Shows(lines: seq<SourceLine>, j: int) {
    Data(lines, j) && 2 <= |lines[j].cells| <= 3 && exists period :: MonthReads(lines[j].cells[0], period)
  }

  /** A line of data that is a row: its cells are read, and its month is new. */
  ghost predicate IsRow(lines: seq<SourceLine>, i: int, r: ImportRow) {
    Data(lines, i) && RowReads(lines[i].cells, i + 1, r) && !Repeats(lines, i)
  }

  ghost predicate HasRow(lines: seq<SourceLine>, i: int) { exists r :: IsRow(lines, i, r) }

  /** So many lines of data before this place. */
  ghost function DataBefore(lines: seq<SourceLine>, n: nat): nat
    requires n <= |lines|
  {
    if n == 0 then 0 else DataBefore(lines, n - 1) + if Data(lines, n - 1) then 1 else 0
  }

  /** Up to a place, each line of data is a row or an error, in order. */
  ghost predicate ReadUpTo(lines: seq<SourceLine>, n: nat, rows: seq<ImportRow>, errors: seq<nat>)
    requires n <= |lines|
  {
    && |rows| + |errors| == DataBefore(lines, n)
    && (forall r :: r in rows <==> 0 < r.line <= n && IsRow(lines, r.line - 1, r))
    && (forall e :: e in errors <==> 0 < e <= n && Data(lines, e - 1) && !HasRow(lines, e - 1))
    && RowsInOrder(rows) && InOrder(errors)
  }

  ghost predicate RowsInOrder(rows: seq<ImportRow>) { forall i, j :: 0 <= i < j < |rows| ==> rows[i].line < rows[j].line }

  ghost predicate InOrder(errors: seq<nat>) { forall i, j :: 0 <= i < j < |errors| ==> errors[i] < errors[j] }

  lemma RowsStayInOrder(rows: seq<ImportRow>, r: ImportRow)
    requires RowsInOrder(rows) && forall x :: x in rows ==> x.line < r.line
    ensures RowsInOrder(rows + [r])
  {
  }

  lemma StillInOrder(errors: seq<nat>, e: nat)
    requires InOrder(errors) && forall x :: x in errors ==> x < e
    ensures InOrder(errors + [e])
  {
    forall i | 0 <= i < |errors|
      ensures errors[i] < e
    {
      assert errors[i] in errors;
    }
  }

  /** The months seen so far. */
  ghost predicate SeenUpTo(lines: seq<SourceLine>, n: nat, seen: set<int>)
    requires n <= |lines|
  {
    forall period :: period in seen <==> exists j :: 0 <= j < n && Shows(lines, j) && MonthReads(lines[j].cells[0], period)
  }

  lemma RepeatedIsSeen(lines: seq<SourceLine>, i: nat, seen: set<int>)
    requires i < |lines| && lines[i].Content? && 2 <= |lines[i].cells| <= 3 && SeenUpTo(lines, i, seen)
    ensures PeriodCell(lines[i].cells[0]) ==> (PeriodOf(lines[i].cells[0]) in seen <==> Repeats(lines, i))
  {
    var s := lines[i].cells[0];
    if PeriodCell(s) {
      var period := PeriodOf(s);
      MonthExactly(s, period);
      hide MonthReads, PeriodCell, PeriodOf, Data;
      if period in seen {
        var j :| 0 <= j < i && Shows(lines, j) && MonthReads(lines[j].cells[0], period);
        OneText(lines[j].cells[0], s, period);
      }
      if Repeats(lines, i) {
        var j :| 0 <= j < i && Shows(lines, j) && lines[j].cells[0] == s;
        assert MonthReads(lines[j].cells[0], period);
      }
    }
  }

  lemma OneText(s: string, t: string, period: int)
    requires MonthReads(s, period) && MonthReads(t, period)
    ensures s == t
  {
  }

  lemma SeenGrows(lines: seq<SourceLine>, n: nat, seen: set<int>, after: set<int>)
    requires n < |lines| && SeenUpTo(lines, n, seen)
    requires after == if Data(lines, n) && 2 <= |lines[n].cells| <= 3 && PeriodCell(lines[n].cells[0]) then seen + {PeriodOf(lines[n].cells[0])} else seen
    ensures SeenUpTo(lines, n + 1, after)
  {
    var s := if Data(lines, n) && 2 <= |lines[n].cells| <= 3 then lines[n].cells[0] else "";
    forall period
      ensures PeriodCell(s) && PeriodOf(s) == period <==> MonthReads(s, period)
    {
      MonthExactly(s, period);
    }
    hide MonthReads, PeriodCell, PeriodOf, Data;
    forall period
      ensures period in after <==> exists j :: 0 <= j < n + 1 && Shows(lines, j) && MonthReads(lines[j].cells[0], period)
    {
      if period in after {
        if period in seen {
          var j :| 0 <= j < n && Shows(lines, j) && MonthReads(lines[j].cells[0], period);
        } else {
          assert MonthReads(s, period);
          assert Shows(lines, n);
        }
      }
      if j :| 0 <= j < n + 1 && Shows(lines, j) && MonthReads(lines[j].cells[0], period) {
        if j == n {
          assert MonthReads(s, period);
        }
      }
    }
  }

  /** One more line that is no data. */
  lemma SkippedLine(lines: seq<SourceLine>, n: nat, rows: seq<ImportRow>, errors: seq<nat>)
    requires n < |lines| && ReadUpTo(lines, n, rows, errors) && !Data(lines, n)
    ensures ReadUpTo(lines, n + 1, rows, errors)
  {
    hide HasRow, RowReads, Repeats, Data;
  }

  lemma RefusedLine(lines: seq<SourceLine>, n: nat, rows: seq<ImportRow>, errors: seq<nat>)
    requires n < |lines| && ReadUpTo(lines, n, rows, errors) && Data(lines, n) && !HasRow(lines, n)
    ensures ReadUpTo(lines, n + 1, rows, errors + [n + 1])
  {
    hide IsRow, Data, InOrder, RowsInOrder;
    StillInOrder(errors, n + 1);
  }

  lemma ReadLine(lines: seq<SourceLine>, n: nat, rows: seq<ImportRow>, errors: seq<nat>, r: ImportRow)
    requires n < |lines| && ReadUpTo(lines, n, rows, errors) && IsRow(lines, n, r)
    ensures ReadUpTo(lines, n + 1, rows + [r], errors)
  {
    OnlyRow(lines, n, r);
    RowIsData(lines, n, r);
    hide IsRow, Data, InOrder, RowsInOrder;
    assert HasRow(lines, n);
    hide HasRow;
    RowsStayInOrder(rows, r);
    RowsGrow(lines, n, rows, r);
    ErrorsStay(lines, n, errors);
    hide *;
    UpToNext(lines, n, rows, errors, r);
  }

  lemma ErrorsStay(lines: seq<SourceLine>, n: nat, errors: seq<nat>)
    requires HasRow(lines, n) && forall e :: e in errors <==> 0 < e <= n && Data(lines, e - 1) && !HasRow(lines, e - 1)
    ensures forall e :: e in errors <==> 0 < e <= n + 1 && Data(lines, e - 1) && !HasRow(lines, e - 1)
  {
    hide HasRow, Data;
    forall e
      ensures e in errors <==> 0 < e <= n + 1 && Data(lines, e - 1) && !HasRow(lines, e - 1)
    {
      if e == n + 1 {
        assert e - 1 == n;
      }
    }
  }

  lemma UpToNext(lines: seq<SourceLine>, n: nat, rows: seq<ImportRow>, errors: seq<nat>, r: ImportRow)
    requires n < |lines| && ReadUpTo(lines, n, rows, errors) && Data(lines, n) && RowsInOrder(rows + [r])
    requires forall x :: x in rows + [r] <==> 0 < x.line <= n + 1 && IsRow(lines, x.line - 1, x)
    requires forall e :: e in errors <==> 0 < e <= n + 1 && Data(lines, e - 1) && !HasRow(lines, e - 1)
    ensures ReadUpTo(lines, n + 1, rows + [r], errors)
  {
    hide IsRow, Data, HasRow, InOrder, RowsInOrder;
  }

  lemma RowsGrow(lines: seq<SourceLine>, n: nat, rows: seq<ImportRow>, r: ImportRow)
    requires forall x :: x in rows <==> 0 < x.line <= n && IsRow(lines, x.line - 1, x)
    requires r.line == n + 1 && forall x :: IsRow(lines, n, x) <==> x == r
    ensures forall x :: x in rows + [r] <==> 0 < x.line <= n + 1 && IsRow(lines, x.line - 1, x)
  {
    hide IsRow;
    forall x
      ensures x in rows + [r] <==> 0 < x.line <= n + 1 && IsRow(lines, x.line - 1, x)
    {
      assert x in rows + [r] <==> x in rows || x == r;
      if x.line == n + 1 {
        assert IsRow(lines, n, x) <==> x == r;
      }
    }
  }

  lemma RowIsData(lines: seq<SourceLine>, n: nat, r: ImportRow)
    requires IsRow(lines, n, r)
    ensures Data(lines, n) && r.line == n + 1
  {
    hide Repeats, ValueReads, MonthReads, DayReads;
  }

  lemma OnlyRow(lines: seq<SourceLine>, n: nat, r: ImportRow)
    requires IsRow(lines, n, r)
    ensures forall x :: IsRow(lines, n, x) <==> x == r
  {
    hide Repeats, RowReads, ReadableCells;
    forall x
      ensures IsRow(lines, n, x) <==> x == r
    {
      RowExactly(lines[n].cells, n + 1, r);
      RowExactly(lines[n].cells, n + 1, x);
    }
  }

  lemma {:induction false} SomeData(lines: seq<SourceLine>, n: nat)
    requires n <= |lines|
    ensures DataBefore(lines, n) > 0 <==> exists j :: 0 <= j < n && Data(lines, j)
  {
    hide Data;
    if n > 0 {
      SomeData(lines, n - 1);
    }
  }

  /** Once a line is data, so is all content after it; before that, content is data unless it is titled. */
  lemma NextIsData(lines: seq<SourceLine>, n: nat)
    requires n < |lines| && lines[n].Content?
    ensures Data(lines, n) <==> !lines[n].titled || DataBefore(lines, n) > 0
  {
    SomeData(lines, n);
    if Data(lines, n) && lines[n].titled {
      var j :| 0 <= j <= n && lines[j].Content? && !lines[j].titled;
      assert Data(lines, j);
    }
  }

  /** Where the import stopped: a thousand lines of data before, and this one refused. */
  ghost predicate StoppedAt(lines: seq<SourceLine>, m: int, rows: seq<ImportRow>, errors: seq<nat>) {
    && 0 <= m < |lines| && Data(lines, m) && DataBefore(lines, m) == 1000
    && errors != [] && errors[|errors| - 1] == m + 1 && ReadUpTo(lines, m, rows, errors[..|errors| - 1])
  }

  ghost predicate StateReads(lines: seq<SourceLine>, n: nat, st: State)
    requires n <= |lines|
  {
    if st.stopped then exists m :: m < n && StoppedAt(lines, m, st.rows, st.errors)
    else DataBefore(lines, n) <= 1000 && ReadUpTo(lines, n, st.rows, st.errors) && SeenUpTo(lines, n, st.seen)
  }

  lemma NothingRead(lines: seq<SourceLine>)
    ensures StateReads(lines, 0, START)
  {
  }

  lemma NextReads(lines: seq<SourceLine>, n: nat, st: State)
    requires n < |lines| && StateReads(lines, n, st) && !st.stopped
    ensures StateReads(lines, n + 1, Next(st, lines[n], n + 1))
  {
    var l := lines[n];
    var after := Next(st, l, n + 1);
    hide SeenUpTo, HasRow, IsRow, RowsInOrder, InOrder, RowReads, ReadableCells, RowOf, PeriodCell, PeriodOf;
    if l.Content? {
      NextIsData(lines, n);
    }
    hide Data, DataBefore;
    if !Data(lines, n) {
      SkippedLine(lines, n, st.rows, st.errors);
      SeenGrows(lines, n, st.seen, st.seen);
      StepCount(lines, n);
    } else if |st.rows| + |st.errors| >= MAX_IMPORT_ROWS {
      assert after.errors[..|after.errors| - 1] == st.errors;
      assert StoppedAt(lines, n, after.rows, after.errors);
    } else {
      StepCount(lines, n);
      DataLineReads(lines, n, st);
    }
  }

  lemma StepCount(lines: seq<SourceLine>, n: nat)
    requires n < |lines|
    ensures DataBefore(lines, n + 1) == DataBefore(lines, n) + if Data(lines, n) then 1 else 0
  {
  }

  lemma DataLineReads(lines: seq<SourceLine>, n: nat, st: State)
    requires n < |lines| && Data(lines, n) && !st.stopped && |st.rows| + |st.errors| < MAX_IMPORT_ROWS
    requires ReadUpTo(lines, n, st.rows, st.errors) && SeenUpTo(lines, n, st.seen)
    ensures var l := lines[n];
            var after := if !(2 <= |l.cells| <= 3) then Refuse(st, n + 1) else Cells(st, l.cells, n + 1);
            !after.stopped && ReadUpTo(lines, n + 1, after.rows, after.errors) && SeenUpTo(lines, n + 1, after.seen)
  {
    var l := lines[n];
    DataIsContent(lines, n);
    hide Data, DataBefore, SeenUpTo, ReadUpTo, RowReads, PeriodCell, PeriodOf, ReadableCells, RowOf, HasRow, Repeats;
    if !(2 <= |l.cells| <= 3) {
      NoRow(lines, n);
      RefusedLine(lines, n, st.rows, st.errors);
      SeenGrows(lines, n, st.seen, st.seen);
    } else {
      var after := Cells(st, l.cells, n + 1);
      SeenGrows(lines, n, st.seen, after.seen);
      RepeatedIsSeen(lines, n, st.seen);
      RowOrNot(lines, n);
      if ReadableCells(l.cells) && !Repeats(lines, n) {
        ReadableMonth(l.cells);
        ReadLine(lines, n, st.rows, st.errors, RowOf(l.cells, n + 1));
      } else {
        RefusedLine(lines, n, st.rows, st.errors);
      }
    }
  }

  lemma ReadableMonth(cells: seq<string>)
    requires ReadableCells(cells)
    ensures PeriodCell(cells[0])
  {
  }

  lemma DataIsContent(lines: seq<SourceLine>, n: nat)
    requires n < |lines| && Data(lines, n)
    ensures lines[n].Content?
  {
  }

  lemma NoRow(lines: seq<SourceLine>, n: nat)
    requires n < |lines| && Data(lines, n) && !(2 <= |lines[n].cells| <= 3)
    ensures !HasRow(lines, n)
  {
    hide MonthReads, ValueReads, DayReads, Repeats;
  }

  lemma RowOrNot(lines: seq<SourceLine>, n: nat)
    requires n < |lines| && Data(lines, n) && 2 <= |lines[n].cells| <= 3
    ensures HasRow(lines, n) <==> ReadableCells(lines[n].cells) && !Repeats(lines, n)
    ensures HasRow(lines, n) ==> IsRow(lines, n, RowOf(lines[n].cells, n + 1))
  {
    hide RowReads, ReadableCells, Repeats, RowOf;
    if ReadableCells(lines[n].cells) {
      RowExactly(lines[n].cells, n + 1, RowOf(lines[n].cells, n + 1));
    }
    forall r | IsRow(lines, n, r)
      ensures ReadableCells(lines[n].cells)
    {
      RowExactly(lines[n].cells, n + 1, r);
    }
    if ReadableCells(lines[n].cells) && !Repeats(lines, n) {
      assert IsRow(lines, n, RowOf(lines[n].cells, n + 1));
    }
  }

  lemma ParseStep(lines: seq<SourceLine>, n: nat)
    requires 0 < n <= |lines|
    ensures ParseState(lines[..n]) == Next(ParseState(lines[..n - 1]), lines[n - 1], n)
  {
    hide Next;
    assert lines[..n][..n - 1] == lines[..n - 1] && lines[..n][n - 1] == lines[n - 1];
  }

  lemma {:induction false} ParseReads(lines: seq<SourceLine>, n: nat)
    requires n <= |lines|
    ensures StateReads(lines, n, ParseState(lines[..n]))
  {
    if n == 0 {
      NothingRead(lines);
    } else {
      hide *;
      ParseStep(lines, n);
      ParseReads(lines, n - 1);
      var st := ParseState(lines[..n - 1]);
      if st.stopped {
        StoppedFile(lines, n - 1, st);
      } else {
        NextReads(lines, n - 1, st);
      }
    }
  }

  lemma StoppedFile(lines: seq<SourceLine>, n: nat, st: State)
    requires n < |lines| && StateReads(lines, n, st) && st.stopped
    ensures StateReads(lines, n + 1, Next(st, lines[n], n + 1))
  {
    hide StoppedAt;
  }

  /**
   * Every file, line by line: its first thousand lines of data are each a row, in order, when their cells are read
   * and their month is new, and an error otherwise; one more line of data is an error that ends the import.
   */
  lemma FileIsRead(lines: seq<SourceLine>)
    ensures var p := ParseFile(lines);
            if DataBefore(lines, |lines|) <= 1000 then ReadUpTo(lines, |lines|, p.rows, p.errors)
            else exists m :: StoppedAt(lines, m, p.rows, p.errors)
  {
    hide ParseState, StateReads, ReadUpTo, StoppedAt, Data, DataBefore;
    ParseReads(lines, |lines|);
    assert lines[..|lines|] == lines;
    var st := ParseState(lines);
    EndOfFile(lines, st);
    if DataBefore(lines, |lines|) > 1000 {
      var m :| StoppedAt(lines, m, st.rows, st.errors);
      assert StoppedAt(lines, m, ParseFile(lines).rows, ParseFile(lines).errors);
    }
  }

  lemma EndOfFile(lines: seq<SourceLine>, st: State)
    requires StateReads(lines, |lines|, st)
    ensures if DataBefore(lines, |lines|) <= 1000 then ReadUpTo(lines, |lines|, st.rows, st.errors)
            else exists m :: StoppedAt(lines, m, st.rows, st.errors)
  {
    hide ReadUpTo, SeenUpTo, Data, DataBefore;
    if st.stopped {
      var m :| m < |lines| && StoppedAt(lines, m, st.rows, st.errors);
      CountGrows(lines, m + 1, |lines|);
      StepCount(lines, m);
    }
  }

  lemma {:induction false} CountGrows(lines: seq<SourceLine>, m: nat, n: nat)
    requires m <= n <= |lines|
    ensures DataBefore(lines, m) <= DataBefore(lines, n)
  {
    hide Data;
    if m < n {
      CountGrows(lines, m, n - 1);
    }
  }
}
