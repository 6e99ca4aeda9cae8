/** The text of a CSV file (apps/api/src/pricing/index-connector.ts): lines, cells, blanks and the header. */
module CsvText {

  /** A line of the file: nothing to read, or cells; `titled` when it begins like a header. */
  datatype SourceLine = Blank | Content(titled: bool, cells: seq<string>)

  datatype Config = Config(delimiter: string := ";", decimalComma: bool := false)

  /** What `trim` removes: the blanks and line ends of JavaScript. */
  predicate IsSpace(c: char) {
    var n := c as int;
    9 <= n <= 13 || n == 32 || n == 0xA0 || n == 0x1680 || 0x2000 <= n <= 0x200A || n == 0x2028 || n == 0x2029 || n == 0x202F
    || n == 0x205F || n == 0x3000 || n == 0xFEFF
  }

  function TrimStart(s: string): string {
    if s != [] && IsSpace(s[0]) then TrimStart(s[1..]) else s
  }

  function TrimEnd(s: string): string {
    if s != [] && IsSpace(s[|s| - 1]) then TrimEnd(s[..|s| - 1]) else s
  }

  function Trim(s: string): string { TrimEnd(TrimStart(s)) }

  function WithoutReturn(s: string): string {
    if s != [] && s[|s| - 1] == '\r' then s[..|s| - 1] else s
  }

  /** Where `c` first is, or the length. */
  function Find(s: string, c: char): (n: nat)
    ensures n <= |s| && forall i :: 0 <= i < n ==> s[i] != c
    ensures n < |s| ==> s[n] == c
  {
    if s == [] || s[0] == c then 0 else 1 + Find(s[1..], c)
  }

  /** `split(/\r?\n/)`. */
  function SplitLines(text: string): seq<string> {
    var n := Find(text, '\n');
    if n == |text| then [text] else [WithoutReturn(text[..n])] + SplitLines(text[n + 1..])
  }

  /** Where `d` first begins, or none. */
  function FindText(s: string, d: string): (n: int)
    ensures -1 <= n && (n >= 0 ==> n + |d| <= |s|)
  {
    if |d| <= |s| && s[..|d|] == d then 0
    else if s == [] then -1
    else
      var n := FindText(s[1..], d);
      if n < 0 then -1 else n + 1
  }

  /** `split(delimiter)`: an empty delimiter cuts between all characters. */
  function SplitCells(s: string, d: string): seq<string> {
    if d == "" then seq(|s|, i requires 0 <= i < |s| => [s[i]])
    else
      var n := FindText(s, d);
      if n < 0 then [s] else [s[..n]] + SplitCells(s[n + |d|..], d)
  }

  function TrimAll(cells: seq<string>): seq<string> {
    seq(|cells|, i requires 0 <= i < |cells| => Trim(cells[i]))
  }

  /** `replace(',', '.')`: the first comma only. */
  function PointForComma(s: string): string {
    var n := Find(s, ',');
    if n == |s| then s else s[..n] + "." + s[n + 1..]
  }

  predicate IsEither(c: char, low: char, up: char) { c == low || c == up }

  /** `/^p[eé]riod/i`. */
  predicate IsTitle(s: string) {
    && |s| >= 6 && IsEither(s[0], 'p', 'P')
    && (IsEither(s[1], 'e', 'E') || s[1] as int == 0xE9 || s[1] as int == 0xC9)
    && IsEither(s[2], 'r', 'R') && IsEither(s[3], 'i', 'I') && IsEither(s[4], 'o', 'O') && IsEither(s[5], 'd', 'D')
  }

  function CellsOf(trimmed: string, c: Config): seq<string> {
    var cells := TrimAll(SplitCells(trimmed, c.delimiter));
    if |cells| >= 2 && c.decimalComma && c.delimiter != "," then cells[1 := PointForComma(cells[1])] else cells
  }

  function ToSource(raw: string, c: Config): SourceLine {
    var trimmed := Trim(raw);
    if trimmed == "" || trimmed[0] == '#' then Blank else Content(IsTitle(trimmed), CellsOf(trimmed, c))
  }

  function WithoutMark(text: string): string {
    if text != [] && text[0] as int == 0xFEFF then text[1..] else text
  }

  function SourceLines(text: string, c: Config): seq<SourceLine> {
    var lines := SplitLines(WithoutMark(text));
    seq(|lines|, i requires 0 <= i < |lines| => ToSource(lines[i], c))
  }

  // ------------------------------------------------------------- what is joined is split

  predicate Lacks(s: string, c: char) { forall i :: 0 <= i < |s| ==> s[i] != c }

  lemma {:induction false} FindAppend(s: string, c: char, rest: string)
    requires Lacks(s, c)
    ensures Find(s + [c] + rest, c) == |s|
    ensures Find(s, c) == |s|
  {
    if s == [] {
      assert s + [c] + rest == [c] + rest;
    } else {
      FindAppend(s[1..], c, rest);
      assert (s + [c] + rest)[1..] == s[1..] + [c] + rest;
    }
  }

  /** Lines, each but the last followed by a line end. */
  function Joined(lines: seq<string>, eol: string): string {
    if lines == [] then "" else if |lines| == 1 then lines[0] else lines[0] + eol + Joined(lines[1..], eol)
  }

  predicate LineEnd(eol: string) { eol == "\n" || eol == "\r\n" }

  predicate IsPlain(s: string) { Lacks(s, '\n') && Lacks(s, '\r') }

  lemma {:induction false} JoinedSplits(lines: seq<string>, eol: string)
    requires lines != [] && LineEnd(eol) && forall l :: l in lines ==> IsPlain(l)
    ensures SplitLines(Joined(lines, eol)) == lines
  {
    assert lines[0] in lines && forall l :: l in lines[1..] ==> l in lines;
    hide *;
    if |lines| == 1 {
      OneLine(lines, eol);
    } else {
      JoinedSplits(lines[1..], eol);
      FirstLine(lines, eol);
      assert lines == [lines[0]] + lines[1..];
    }
  }

  lemma OneLine(lines: seq<string>, eol: string)
    requires |lines| == 1 && IsPlain(lines[0])
    ensures SplitLines(Joined(lines, eol)) == lines
  {
    FindAppend(lines[0], '\n', "");
  }

  lemma FirstLine(lines: seq<string>, eol: string)
    requires |lines| > 1 && LineEnd(eol) && IsPlain(lines[0])
    ensures SplitLines(Joined(lines, eol)) == [lines[0]] + SplitLines(Joined(lines[1..], eol))
  {
    hide Joined, SplitLines, WithoutReturn;
    var first, rest := lines[0], Joined(lines[1..], eol);
    var before := if eol == "\n" then first else first + "\r";
    LineThenRest(lines, eol);
    ReturnDropped(first);
    assert first + eol + rest == before + ['\n'] + rest;
    OneSplit(before, rest);
  }

  lemma LineThenRest(lines: seq<string>, eol: string)
    requires |lines| > 1
    ensures Joined(lines, eol) == lines[0] + eol + Joined(lines[1..], eol)
  {
  }

  lemma OneSplit(before: string, rest: string)
    requires Lacks(before, '\n')
    ensures SplitLines(before + ['\n'] + rest) == [WithoutReturn(before)] + SplitLines(rest)
  {
    var text := before + ['\n'] + rest;
    FindAppend(before, '\n', rest);
    hide Find, WithoutReturn;
    assert text[..|before|] == before && text[|before| + 1..] == rest;
  }

  lemma ReturnDropped(s: string)
    requires IsPlain(s)
    ensures WithoutReturn(s) == s && WithoutReturn(s + "\r") == s && Lacks(s + "\r", '\n')
  {
    assert (s + "\r")[..|s|] == s;
  }

  lemma {:induction false} FindDelimiter(s: string, c: char, rest: string)
    requires Lacks(s, c)
    ensures FindText(s + [c] + rest, [c]) == |s|
    ensures FindText(s, [c]) == -1
  {
    var text := s + [c] + rest;
    if s == [] {
      assert text[..1] == [c];
    } else {
      FindDelimiter(s[1..], c, rest);
      assert text[1..] == s[1..] + [c] + rest;
      assert text[..1][0] == s[0] && s[..1][0] == s[0];
    }
  }

  lemma {:induction false} JoinedCellsSplit(cells: seq<string>, c: char)
    requires cells != [] && forall x :: x in cells ==> Lacks(x, c)
    ensures SplitCells(Joined(cells, [c]), [c]) == cells
  {
    var first := cells[0];
    assert first in cells;
    if |cells| == 1 {
      FindDelimiter(first, c, "");
    } else {
      var rest := Joined(cells[1..], [c]);
      assert forall x :: x in cells[1..] ==> x in cells;
      JoinedCellsSplit(cells[1..], c);
      FindDelimiter(first, c, rest);
      var text := first + [c] + rest;
      assert text[..|first|] == first && text[|first| + 1..] == rest;
      assert cells == [first] + cells[1..];
    }
  }

  predicate Unpadded(s: string) { s == "" || (!IsSpace(s[0]) && !IsSpace(s[|s| - 1])) }

  lemma TrimKeeps(s: string)
    requires Unpadded(s)
    ensures Trim(s) == s
  {
  }
}
