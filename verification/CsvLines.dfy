/**
 * How the text of a CSV file is cut (apps/api/src/pricing/index-connector.ts): lines, blanks, title and cells,
 * each told by what it is put back together from.
 */
module CsvLines {
  import opened CsvText

  // ---------------------------------------------------------------------- trimming

  predicate AllSpaces(s: string) { forall i :: 0 <= i < |s| ==> Space(s[i]) }

  /** The blanks and line ends of JavaScript. */
  predicate Space(c: char) {
    || c in {'\t', '\n', '\U{000B}', '\U{000C}', '\r', ' ', '\U{00A0}', '\U{1680}', '\U{2028}', '\U{2029}', '\U{202F}', '\U{205F}', '\U{3000}', '\U{FEFF}'}
    || '\U{2000}' <= c <= '\U{200A}'
  }

  lemma SpacesAreSpaces(c: char)
    ensures IsSpace(c) <==> Space(c)
  {
  }

  /** What is left between the blanks of both ends. */
  ghost predicate TrimmedTo(s: string, core: string) {
    exists from, to :: 0 <= from <= to <= |s| && Cut(s, from, to, core)
  }

  predicate Cut(s: string, from: int, to: int, core: string)
    requires 0 <= from <= to <= |s|
  {
    && core == s[from..to] && AllSpaces(s[..from]) && AllSpaces(s[to..])
    && (core != "" ==> !Space(core[0]) && !Space(core[|core| - 1]))
  }

  lemma {:induction false} StartCut(s: string) returns (from: nat)
    ensures from <= |s| && TrimStart(s) == s[from..] && AllSpaces(s[..from])
    ensures from < |s| ==> !Space(s[from])
  {
    hide IsSpace, Space;
    if s != [] && IsSpace(s[0]) {
      SpacesAreSpaces(s[0]);
      from := StartCut(s[1..]);
      from := from + 1;
      assert s[..from] == [s[0]] + s[1..][..from - 1];
    } else {
      from := 0;
      if s != [] {
        SpacesAreSpaces(s[0]);
      }
    }
  }

  lemma {:induction false} EndCut(s: string) returns (to: nat)
    ensures to <= |s| && TrimEnd(s) == s[..to] && AllSpaces(s[to..])
    ensures to > 0 ==> !Space(s[to - 1])
  {
    hide IsSpace, Space;
    if s != [] && IsSpace(s[|s| - 1]) {
      SpacesAreSpaces(s[|s| - 1]);
      to := EndCut(s[..|s| - 1]);
      assert s[to..] == s[..|s| - 1][to..] + [s[|s| - 1]];
    } else {
      to := |s|;
      if s != [] {
        SpacesAreSpaces(s[|s| - 1]);
      }
    }
  }

  lemma TrimExactly(s: string, core: string)
    ensures Trim(s) == core <==> TrimmedTo(s, core)
  {
    hide Space;
    var from := StartCut(s);
    var rest := TrimStart(s);
    var to := EndCut(rest);
    hide TrimStart, TrimEnd;
    assert rest[to..] == s[from + to..] && rest[..to] == s[from..from + to];
    assert to > 0 ==> rest[..to][0] == s[from] && rest[..to][to - 1] == rest[to - 1];
    assert Cut(s, from, from + to, Trim(s));
    forall a, b | 0 <= a <= b <= |s| && Cut(s, a, b, core)
      ensures core == Trim(s)
    {
      SameCut(s, a, b, core, from, from + to, Trim(s));
    }
  }

  lemma SameCut(s: string, a: int, b: int, x: string, c: int, d: int, y: string)
    requires 0 <= a <= b <= |s| && 0 <= c <= d <= |s| && Cut(s, a, b, x) && Cut(s, c, d, y)
    ensures x == y
  {
    hide Space;
    if x != "" {
      EndsInside(s, a, b, x, c, d, y);
      EndsInside(s, c, d, y, a, b, x);
    } else if y != "" {
      EndsInside(s, c, d, y, a, b, x);
    }
  }

  lemma SpacesAround(s: string, from: int, to: int)
    requires 0 <= from <= to <= |s| && AllSpaces(s[..from]) && AllSpaces(s[to..])
    ensures forall k :: 0 <= k < from || to <= k < |s| ==> Space(s[k])
  {
    hide Space;
    forall k | 0 <= k < from || to <= k < |s|
      ensures Space(s[k])
    {
      if k < from {
        assert s[..from][k] == s[k];
      } else {
        assert s[to..][k - to] == s[k];
      }
    }
  }

  /** The ends of a piece that is not empty are no blanks, so they lie inside any other such piece. */
  lemma EndsInside(s: string, a: int, b: int, x: string, c: int, d: int, y: string)
    requires 0 <= a <= b <= |s| && 0 <= c <= d <= |s| && Cut(s, a, b, x) && Cut(s, c, d, y) && x != ""
    ensures c <= a < b <= d && y != ""
  {
    hide Space;
    SpacesAround(s, c, d);
    assert x[0] == s[a] && x[|x| - 1] == s[b - 1];
  }

  // ---------------------------------------------------------------------- cutting

  /** Pieces that lack a character, put back together with it. */
  ghost predicate CutAt(s: string, c: char, pieces: seq<string>) {
    pieces != [] && Joined(pieces, [c]) == s && forall x :: x in pieces ==> Lacks(x, c)
  }

  lemma {:induction false} TextFound(s: string, c: char)
    ensures FindText(s, [c]) == if Lacks(s, c) then -1 else Find(s, c)
    decreases |s|
  {
    if s != [] {
      assert s[..1] == [s[0]];
      TextFound(s[1..], c);
      assert s == [s[0]] + s[1..];
    }
  }

  lemma {:induction false} CellsExactly(s: string, c: char, pieces: seq<string>)
    ensures SplitCells(s, [c]) == pieces <==> CutAt(s, c, pieces)
    decreases |s|
  {
    if CutAt(s, c, pieces) {
      JoinedCellsSplit(pieces, c);
    }
    if SplitCells(s, [c]) == pieces {
      CellsRejoin(s, c);
    }
  }

  lemma OneMorePiece(first: string, c: char, s: string, rest: seq<string>)
    requires Lacks(first, c) && CutAt(s, c, rest)
    ensures CutAt(first + [c] + s, c, [first] + rest)
  {
    var pieces := [first] + rest;
    assert pieces[1..] == rest;
    assert forall x :: x in pieces ==> x == first || x in rest;
  }

  lemma {:induction false} CellsRejoin(s: string, c: char)
    ensures CutAt(s, c, SplitCells(s, [c]))
    decreases |s|
  {
    TextFound(s, c);
    var n := FindText(s, [c]);
    if n >= 0 {
      CellsRejoin(s[n + 1..], c);
      assert s == s[..n] + [c] + s[n + 1..];
      OneMorePiece(s[..n], c, s[n + 1..], SplitCells(s[n + 1..], [c]));
    }
  }

  predicate OccursAt(s: string, d: string, n: int) { 0 <= n && n + |d| <= |s| && s[n..n + |d|] == d }

  ghost predicate FirstAt(s: string, d: string, n: int) { OccursAt(s, d, n) && forall m :: 0 <= m < n ==> !OccursAt(s, d, m) }

  ghost predicate Missing(s: string, d: string) { forall m :: !OccursAt(s, d, m) }

  /** Pieces put back together with the delimiter, each ending where the delimiter next begins, the last one without it. */
  ghost predicate CutBy(s: string, d: string, pieces: seq<string>) {
    && pieces != [] && Joined(pieces, d) == s && Missing(pieces[|pieces| - 1], d)
    && forall i :: 0 <= i < |pieces| - 1 ==> FirstAt(Joined(pieces[i..], d), d, |pieces[i]|)
  }

  lemma OccursLater(s: string, d: string, n: int)
    requires s != "" && n > 0
    ensures OccursAt(s, d, n) <==> OccursAt(s[1..], d, n - 1)
  {
    if n + |d| <= |s| {
      assert s[n..n + |d|] == s[1..][n - 1..n - 1 + |d|];
    }
  }

  lemma {:induction false} TextFoundAt(s: string, d: string)
    requires d != ""
    ensures FindText(s, d) >= 0 ==> FirstAt(s, d, FindText(s, d))
    ensures FindText(s, d) < 0 ==> Missing(s, d)
    decreases |s|
  {
    hide OccursAt;
    assert OccursAt(s, d, 0) <==> |d| <= |s| && s[..|d|] == d by { OccursFirst(s, d); }
    if !OccursAt(s, d, 0) && s != "" {
      TextFoundAt(s[1..], d);
      forall m | m != 0
        ensures m > 0 ==> (OccursAt(s, d, m) <==> OccursAt(s[1..], d, m - 1))
        ensures m < 0 ==> !OccursAt(s, d, m)
      {
        if m > 0 {
          OccursLater(s, d, m);
        } else {
          OccursWithin(s, d, m);
        }
      }
    }
    if s == "" {
      forall m
        ensures !OccursAt(s, d, m)
      {
        OccursWithin(s, d, m);
      }
    }
  }

  lemma OccursFirst(s: string, d: string)
    ensures OccursAt(s, d, 0) <==> |d| <= |s| && s[..|d|] == d
  {
  }

  lemma OccursWithin(s: string, d: string, m: int)
    requires d != ""
    ensures OccursAt(s, d, m) ==> 0 <= m < |s|
  {
  }

  lemma OnlyFirst(s: string, d: string, m: int, n: int)
    requires FirstAt(s, d, m) && FirstAt(s, d, n)
    ensures m == n
  {
    hide OccursAt;
    assert 0 <= m && 0 <= n by { assert OccursAt(s, d, m) && OccursAt(s, d, n); NotNegative(s, d, m); NotNegative(s, d, n); }
  }

  lemma NotNegative(s: string, d: string, m: int)
    ensures OccursAt(s, d, m) ==> 0 <= m && m + |d| <= |s| && s[m..m + |d|] == d
  {
  }

  /** One piece, the delimiter, and the rest cut in the same way. */
  lemma CutOneMore(first: string, d: string, rest: seq<string>)
    requires rest != []
    ensures var s := first + d + Joined(rest, d);
            CutBy(s, d, [first] + rest) <==> FirstAt(s, d, |first|) && CutBy(Joined(rest, d), d, rest)
  {
    var pieces := [first] + rest;
    assert pieces[1..] == rest && pieces[0..] == pieces;
    assert Joined(pieces, d) == first + d + Joined(rest, d);
    hide FirstAt, Missing, Joined;
    assert forall i :: 0 <= i < |rest| ==> pieces[i + 1..] == rest[i..] && pieces[i + 1] == rest[i];
    if CutBy(Joined(pieces, d), d, pieces) {
      forall i | 0 <= i < |rest| - 1
        ensures FirstAt(Joined(rest[i..], d), d, |rest[i]|)
      {
        assert FirstAt(Joined(pieces[i + 1..], d), d, |pieces[i + 1]|);
      }
    }
    if FirstAt(Joined(pieces, d), d, |first|) && CutBy(Joined(rest, d), d, rest) {
      forall i | 0 <= i < |pieces| - 1
        ensures FirstAt(Joined(pieces[i..], d), d, |pieces[i]|)
      {
        if i > 0 {
          assert FirstAt(Joined(rest[i - 1..], d), d, |rest[i - 1]|);
          assert pieces[i - 1 + 1..] == rest[i - 1..];
        }
      }
    }
  }

  lemma OnePiece(s: string, d: string)
    ensures forall pieces :: |pieces| == 1 ==> (CutBy(s, d, pieces) <==> pieces == [s] && Missing(s, d))
  {
  }

  lemma {:induction false} CutExactly(s: string, d: string, pieces: seq<string>)
    requires d != ""
    ensures SplitCells(s, d) == pieces <==> CutBy(s, d, pieces)
    decreases |s|
  {
    TextFoundAt(s, d);
    OnePiece(s, d);
    var n := FindText(s, d);
    if n >= 0 {
      NotNegative(s, d, n);
      var tail := s[n + |d|..];
      assert s == s[..n] + d + tail;
      CutExactly(tail, d, SplitCells(tail, d));
      CutAfter(s, d, n, SplitCells(tail, d));
      if CutBy(s, d, pieces) {
        CutsThere(s, d, n, pieces);
        CutExactly(tail, d, pieces[1..]);
        assert pieces == [s[..n]] + pieces[1..];
      }
    } else if CutBy(s, d, pieces) {
      NoCut(s, d, pieces);
    }
  }

  lemma CutAfter(s: string, d: string, n: nat, rest: seq<string>)
    requires d != "" && FirstAt(s, d, n) && n + |d| <= |s| && s == s[..n] + d + s[n + |d|..] && CutBy(s[n + |d|..], d, rest)
    ensures CutBy(s, d, [s[..n]] + rest)
  {
    hide FirstAt;
    CutOneMore(s[..n], d, rest);
  }

  lemma CutsThere(s: string, d: string, n: nat, pieces: seq<string>)
    requires d != "" && FirstAt(s, d, n) && n + |d| <= |s| && CutBy(s, d, pieces)
    ensures pieces != [] && pieces[1..] != [] && pieces[0] == s[..n] && CutBy(s[n + |d|..], d, pieces[1..])
  {
    assert pieces[0..] == pieces;
    if |pieces| == 1 {
      assert false;
    } else {
      OnlyFirst(s, d, n, |pieces[0]|);
      var rest := pieces[1..];
      assert pieces == [pieces[0]] + rest;
      assert s == pieces[0] + d + Joined(rest, d);
      CutOneMore(pieces[0], d, rest);
      hide FirstAt, Joined;
      assert s[n + |d|..] == Joined(rest, d);
    }
  }

  lemma NoCut(s: string, d: string, pieces: seq<string>)
    requires Missing(s, d) && CutBy(s, d, pieces)
    ensures pieces == [s]
  {
    assert pieces[0..] == pieces;
    if |pieces| > 1 {
      assert false;
    }
  }

  /** An empty delimiter cuts between all characters. */
  ghost predicate CutInto(s: string, d: string, pieces: seq<string>) {
    if d == "" then |pieces| == |s| && forall i :: 0 <= i < |s| ==> pieces[i] == [s[i]] else CutBy(s, d, pieces)
  }

  lemma CutIntoExactly(s: string, d: string, pieces: seq<string>)
    ensures SplitCells(s, d) == pieces <==> CutInto(s, d, pieces)
  {
    if d != "" {
      CutExactly(s, d, pieces);
    }
  }

  /** Lines end with a line feed, or with a return and a line feed. */
  ghost predicate LinesCut(text: string, lines: seq<string>) {
    exists raw :: CutAt(text, '\n', raw) && EndsCut(raw, lines)
  }

  /** The return of a line end goes with it; the last line has none. */
  predicate EndCutOff(raw: string, line: string, last: bool) {
    line == if !last && raw != "" && raw[|raw| - 1] == '\r' then raw[..|raw| - 1] else raw
  }

  lemma {:induction false} LinesAreCut(text: string) returns (raw: seq<string>)
    ensures CutAt(text, '\n', raw) && EndsCut(raw, SplitLines(text))
    decreases |text|
  {
    var n := Find(text, '\n');
    LinesUnfold(text);
    if n == |text| {
      raw := [text];
    } else {
      var rest := LinesAreCut(text[n + 1..]);
      raw := [text[..n]] + rest;
      assert text == text[..n] + ['\n'] + text[n + 1..];
      OneMorePiece(text[..n], '\n', text[n + 1..], rest);
      OneMoreEnd(text[..n], rest, SplitLines(text[n + 1..]));
    }
  }

  ghost predicate EndsCut(raw: seq<string>, lines: seq<string>) {
    |raw| == |lines| && forall i :: 0 <= i < |raw| ==> EndCutOff(raw[i], lines[i], i == |raw| - 1)
  }

  lemma LinesUnfold(text: string)
    ensures var n := Find(text, '\n');
            SplitLines(text) == if n == |text| then [text] else [WithoutReturn(text[..n])] + SplitLines(text[n + 1..])
  {
    hide Find, WithoutReturn;
  }

  lemma OneMoreEnd(first: string, rest: seq<string>, lines: seq<string>)
    requires rest != [] && EndsCut(rest, lines)
    ensures EndsCut([first] + rest, [WithoutReturn(first)] + lines)
  {
    ReturnCutOff(first);
    hide EndCutOff, WithoutReturn;
  }

  lemma ReturnCutOff(s: string)
    ensures EndCutOff(s, WithoutReturn(s), false)
  {
  }

  /** A text is cut into lines in exactly this way. */
  lemma LinesExactly(text: string, lines: seq<string>)
    ensures SplitLines(text) == lines <==> LinesCut(text, lines)
  {
    var raw := LinesAreCut(text);
    hide SplitLines, CutAt, EndCutOff;
    if LinesCut(text, lines) {
      var other :| CutAt(text, '\n', other) && EndsCut(other, lines);
      CellsExactly(text, '\n', raw);
      CellsExactly(text, '\n', other);
      forall i | 0 <= i < |lines|
        ensures lines[i] == SplitLines(text)[i]
      {
        OneEnd(raw[i], lines[i], SplitLines(text)[i], i == |raw| - 1);
      }
    }
  }

  lemma OneEnd(raw: string, x: string, y: string, last: bool)
    requires EndCutOff(raw, x, last) && EndCutOff(raw, y, last)
    ensures x == y
  {
  }

  // ------------------------------------------------------------------- one line

  /** Whatever its case, and with or without its accent. */
  function Plain(c: char): char {
    if 'A' <= c <= 'Z' then c - 'A' + 'a' else if c == '\U{00E9}' || c == '\U{00C9}' then 'e' else c
  }

  /** It begins like the title of the first column. */
  predicate Titled(s: string) {
    |s| >= 6 && [Plain(s[0]), Plain(s[1]), Plain(s[2]), Plain(s[3]), Plain(s[4]), Plain(s[5])] == "period"
  }

  lemma TitleExactly(s: string)
    ensures IsTitle(s) <==> Titled(s)
  {
    if |s| >= 6 {
      var folded := [Plain(s[0]), Plain(s[1]), Plain(s[2]), Plain(s[3]), Plain(s[4]), Plain(s[5])];
      assert "period" == ['p', 'e', 'r', 'i', 'o', 'd'];
      assert folded == "period" <==> folded[0] == 'p' && folded[1] == 'e' && folded[2] == 'r' && folded[3] == 'i' && folded[4] == 'o' && folded[5] == 'd';
    }
  }

  /** The decimal sign of a value: its first comma, if it has one, is read as a point. */
  ghost predicate PointRead(s: string, t: string) {
    if Lacks(s, ',') then t == s
    else exists n :: 0 <= n < |s| && s[n] == ',' && Lacks(s[..n], ',') && t == s[..n] + "." + s[n + 1..]
  }

  lemma PointExactly(s: string, t: string)
    ensures PointForComma(s) == t <==> PointRead(s, t)
  {
    var n := Find(s, ',');
    hide Find, Lacks;
    CommaAtFind(s);
    if n < |s| {
      forall m | 0 <= m < |s| && s[m] == ',' && Lacks(s[..m], ',')
        ensures m == n
      {
        LacksBefore(s, m, ',');
        LacksBefore(s, n, ',');
      }
    }
  }

  lemma CommaAtFind(s: string)
    ensures var n := Find(s, ','); (Lacks(s, ',') <==> n == |s|) && Lacks(s[..n], ',')
  {
    var n := Find(s, ',');
    assert forall i :: 0 <= i < n ==> s[..n][i] == s[i];
  }

  lemma LacksBefore(s: string, m: nat, c: char)
    requires m <= |s|
    ensures Lacks(s[..m], c) <==> forall k :: 0 <= k < m ==> s[k] != c
  {
    assert forall k :: 0 <= k < m ==> s[..m][k] == s[k];
  }

  /** The cell of the value, where commas are decimal signs and no delimiters. */
  predicate CommaAt(i: int, c: Config) { i == 1 && c.decimalComma && c.delimiter != "," }

  /** Cells, trimmed, the second with a point for its decimal comma when there is one. */
  ghost predicate CellsRead(core: string, c: Config, cells: seq<string>) {
    exists pieces :: CutInto(core, c.delimiter, pieces) && |cells| == |pieces|
      && forall i :: 0 <= i < |cells| ==> CellRead(pieces[i], CommaAt(i, c), cells[i])
  }

  ghost predicate CellRead(piece: string, comma: bool, cell: string) {
    if comma then exists t :: TrimmedTo(piece, t) && PointRead(t, cell) else TrimmedTo(piece, cell)
  }

  lemma CellExactly(piece: string, comma: bool, cell: string)
    ensures CellRead(piece, comma, cell) <==> cell == if comma then PointForComma(Trim(piece)) else Trim(piece)
  {
    hide Trim, PointForComma, TrimmedTo, PointRead;
    TrimExactly(piece, cell);
    TrimExactly(piece, Trim(piece));
    PointExactly(Trim(piece), cell);
    forall t | TrimmedTo(piece, t)
      ensures t == Trim(piece)
    {
      TrimExactly(piece, t);
    }
  }

  lemma CellsAreRead(core: string, c: Config, cells: seq<string>)
    ensures CellsOf(core, c) == cells <==> CellsRead(core, c, cells)
  {
    hide Trim, PointForComma, CutInto, CellRead, SplitCells;
    var pieces := SplitCells(core, c.delimiter);
    CutIntoExactly(core, c.delimiter, pieces);
    forall other | CutInto(core, c.delimiter, other)
      ensures other == pieces
    {
      CutIntoExactly(core, c.delimiter, other);
    }
    forall i, cell | 0 <= i < |pieces|
      ensures CellRead(pieces[i], CommaAt(i, c), cell)
              <==> cell == if CommaAt(i, c) then PointForComma(Trim(pieces[i])) else Trim(pieces[i])
    {
      CellExactly(pieces[i], CommaAt(i, c), cell);
    }
    var found := CellsOf(core, c);
    assert |found| == |pieces|;
    if |cells| == |pieces| && forall i :: 0 <= i < |cells| ==> CellRead(pieces[i], CommaAt(i, c), cells[i]) {
      assert forall i :: 0 <= i < |cells| ==> cells[i] == found[i];
    }
  }

  /** Nothing to read on a blank line or after a hash sign; otherwise cells, and perhaps a title. */
  ghost predicate LineReads(raw: string, c: Config, l: SourceLine)
  {
    exists core :: TrimmedTo(raw, core)
      && if core == "" || core[0] == '#' then l == Blank
         else l.Content? && (l.titled <==> Titled(core)) && CellsRead(core, c, l.cells)
  }

  /** Each line is read in exactly this way. */
  lemma LineExactly(raw: string, c: Config, l: SourceLine)
    ensures ToSource(raw, c) == l <==> LineReads(raw, c, l)
  {
    hide Trim, TrimmedTo, CellsOf, CellsRead, IsTitle, Titled;
    var core := Trim(raw);
    TrimExactly(raw, core);
    TitleExactly(core);
    if l.Content? {
      CellsAreRead(core, c, l.cells);
    }
    forall other | TrimmedTo(raw, other)
      ensures other == core
    {
      TrimExactly(raw, other);
    }
  }

  /** The text after its byte order mark, if it has one. */
  predicate Body(text: string, body: string) {
    if text != "" && text[0] == '\U{FEFF}' then text == "\U{FEFF}" + body else body == text
  }

  /** A whole text is cut into lines, each read on its own. */
  lemma TextIsRead(text: string, c: Config, body: string, raw: seq<string>)
    requires Body(text, body) && LinesCut(body, raw)
    ensures |SourceLines(text, c)| == |raw| && forall i :: 0 <= i < |raw| ==> LineReads(raw[i], c, SourceLines(text, c)[i])
  {
    assert WithoutMark(text) == body;
    LinesExactly(body, raw);
    hide SplitLines, ToSource, LineReads;
    forall i | 0 <= i < |raw|
      ensures LineReads(raw[i], c, SourceLines(text, c)[i])
    {
      LineExactly(raw[i], c, ToSource(raw[i], c));
    }
  }
}
