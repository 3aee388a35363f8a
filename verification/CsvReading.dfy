/** Reading a text assembled from cells, with any choice of quotes and of line
    breaks: exactly when the cells are read back. */
module CsvReading {
  import opened CsvText
  import opened CsvDocument

  predicate Plain(p: Params) {
    p.separator != QUOTE && p.separator != CR && p.separator != LF
  }

  /** Nothing is trimmed or skipped. */
  predicate Strict(p: Params) {
    Plain(p) && !p.trim && !p.skipCommentLines && !p.skipEmptyLines
  }

  // ---------- Texts assembled from cells ----------

  /** A cell with the choice to write it inside quotes. */
  datatype Cell = Cell(text: string, quoted: bool)

  /** A line with the choice of its line break. */
  datatype Line = Line(cells: seq<Cell>, hasCR: bool)

  function Source(c: Cell): string {
    if c.quoted then "\"" + Escape(c.text) + "\"" else c.text
  }

  function CellsSource(p: Params, cells: seq<Cell>): string {
    if cells == [] then ""
    else if |cells| == 1 then Source(cells[0])
    else Source(cells[0]) + [p.separator] + CellsSource(p, cells[1..])
  }

  function Ending(hasCR: bool): string {
    if hasCR then "\r\n" else "\n"
  }

  function LinesSource(p: Params, lines: seq<Line>): string {
    if lines == [] then ""
    else CellsSource(p, lines[0].cells) + Ending(lines[0].hasCR) + LinesSource(p, lines[1..])
  }

  function Texts(cells: seq<Cell>): (texts: seq<string>)
    ensures |texts| == |cells| && forall i :: 0 <= i < |cells| ==> texts[i] == cells[i].text
  {
    seq(|cells|, i requires 0 <= i < |cells| => cells[i].text)
  }

  // ---------- What can be read back ----------

  predicate HasLineBreak(text: string) {
    CR in text || LF in text
  }

  /** Line breaks can be text only where the reader accepts quoted ones. */
  predicate Storable(p: Params, text: string) {
    HasLineBreak(text) ==> p.quotedLinebreaks
  }

  function QuoteCount(s: string): nat {
    if s == "" then 0 else QuoteCount(s[..|s| - 1]) + if s[|s| - 1] == QUOTE then 1 else 0
  }

  /** Begins with a quote and holds an odd number of them. */
  predicate IsOpen(s: string) {
    s != "" && s[0] == QUOTE && QuoteCount(s) % 2 == 1
  }

  predicate IsControl(p: Params, c: char) {
    c == p.separator || c == CR || c == LF
  }

  /** Every separator and line break comes after an odd number of quotes, the
      first of them at the front: to the reader it is quoted. */
  predicate ControlsAreQuoted(p: Params, text: string) {
    forall i :: 0 <= i < |text| && IsControl(p, text[i]) ==> IsOpen(text[..i])
  }

  /** The reader is still inside quotes behind the cell. */
  predicate LeavesOpen(cell: Cell) {
    !cell.quoted && IsOpen(cell.text)
  }

  /** Behind the cell the reader takes its end for text. */
  predicate Swallows(p: Params, cell: Cell, last: bool) {
    LeavesOpen(cell) && (!last || p.quotedLinebreaks)
  }

  /** The condition on a cell. Line breaks must be accepted inside quotes. A
      quoted cell needs a reader that takes quotes off. A bare one may hold
      separators and line breaks only behind quotes of its own; it must not be
      enclosed in quotes that are taken off, must not leave the reader inside
      quotes unless its end is recognised there, and must not be trimmed. */
  predicate Legible(p: Params, cell: Cell, last: bool) {
    && Storable(p, cell.text)
    && if cell.quoted then p.autoQuote
       else
         && ControlsAreQuoted(p, cell.text) && !Swallows(p, cell, last)
         && (p.autoQuote ==> !IsQuoted(cell.text)) && Trimmed(p, cell.text) == cell.text
  }

  predicate LegibleFrom(p: Params, cells: seq<Cell>, c: nat)
    requires c <= |cells|
  {
    forall i :: c <= i < |cells| ==> Legible(p, cells[i], i == |cells| - 1)
  }

  predicate LegibleRow(p: Params, cells: seq<Cell>) {
    cells != [] && LegibleFrom(p, cells, 0)
  }

  predicate AllLegible(p: Params, lines: seq<Line>) {
    forall i :: 0 <= i < |lines| ==> LegibleRow(p, lines[i].cells)
  }

  // ---------- Scanning one cell ----------

  lemma StepQuote(p: Params, r: Reader)
    ensures Step(p, r, QUOTE)
         == r.(quoted := if r.cell == "" || r.cell[0] == QUOTE then !r.quoted else r.quoted, cell := r.cell + [QUOTE])
  {
  }

  lemma StepText(p: Params, r: Reader, c: char)
    requires Plain(p) && c != QUOTE
    requires c == p.separator ==> r.quoted
    requires c == CR || c == LF ==> r.quoted && p.quotedLinebreaks
    ensures Step(p, r, c) == r.(cell := r.cell + [c])
  {
  }

  lemma OpenGrows(s: string, c: char)
    ensures IsOpen(s + [c]) == if c == QUOTE && (s == "" || s[0] == QUOTE) then !IsOpen(s) else IsOpen(s)
  {
    assert (s + [c])[..|s + [c]| - 1] == s;
    assert QuoteCount(s + [c]) == QuoteCount(s) + if c == QUOTE then 1 else 0;
    assert s != "" ==> (s + [c])[0] == s[0];
  }

  lemma ScanLast(p: Params, r: Reader, text: string, c: char)
    ensures Scan(p, r, text + [c]) == Step(p, Scan(p, r, text), c)
  {
    ScanConcat(p, r, text, [c]);
    ScanOne(p, Scan(p, r, text), c);
  }

  lemma FrontControlsAreQuoted(p: Params, text: string)
    requires text != "" && ControlsAreQuoted(p, text)
    ensures ControlsAreQuoted(p, text[..|text| - 1])
  {
    hide IsOpen;
    var front := text[..|text| - 1];
    assert forall i :: 0 <= i < |front| ==> front[..i] == text[..i];
  }

  lemma {:induction false} ScanBare(p: Params, r: Reader, text: string)
    requires Plain(p) && Storable(p, text) && ControlsAreQuoted(p, text)
    requires r.cell == "" && !r.quoted
    ensures Scan(p, r, text) == r.(cell := text, quoted := IsOpen(text))
    decreases |text|
  {
    hide Step, Scan, IsOpen;
    if text == "" {
      ScanNothing(p, r);
      NothingIsClosed();
    } else {
      var front, c := text[..|text| - 1], text[|text| - 1];
      assert c in text && forall x :: x in front ==> x in text;
      FrontControlsAreQuoted(p, text);
      ScanBare(p, r, front);
      assert front + [c] == text;
      ScanLast(p, r, front, c);
      OpenGrows(front, c);
      if c == QUOTE {
        StepQuote(p, Scan(p, r, front));
      } else {
        StepText(p, Scan(p, r, front), c);
      }
    }
  }

  lemma NothingIsClosed()
    ensures !IsOpen("")
  {
  }

  lemma {:induction false} ScanEscaped(p: Params, r: Reader, s: string)
    requires Plain(p) && Storable(p, s)
    requires r.cell != "" && r.cell[0] == QUOTE && r.quoted
    ensures Scan(p, r, Escape(s)) == r.(cell := r.cell + Escape(s))
    decreases |s|
  {
    hide Step, Scan, Escape;
    if s == "" {
      EscapeNothing();
      ScanNothing(p, r);
      assert r.cell + "" == r.cell;
    } else {
      EscapeFront(s);
      var c, rest := s[0], s[1..];
      assert c in s && forall x :: x in rest ==> x in s;
      if c == QUOTE {
        var r1 := Step(p, r, QUOTE);
        StepQuote(p, r);
        StepQuote(p, r1);
        assert Escape(s) == [QUOTE] + ([QUOTE] + Escape(rest));
        ScanFront(p, r, QUOTE, [QUOTE] + Escape(rest));
        ScanFront(p, r1, QUOTE, Escape(rest));
        ScanEscaped(p, Step(p, r1, QUOTE), rest);
        assert r.cell + Escape(s) == r.cell + [QUOTE] + [QUOTE] + Escape(rest);
      } else {
        StepText(p, r, c);
        ScanFront(p, r, c, Escape(rest));
        ScanEscaped(p, Step(p, r, c), rest);
        assert r.cell + Escape(s) == r.cell + [c] + Escape(rest);
      }
    }
  }

  lemma EscapeNothing()
    ensures Escape("") == ""
  {
  }

  lemma ScanNothing(p: Params, r: Reader)
    ensures Scan(p, r, "") == r
  {
  }

  /** Behind a cell the reader holds its source, open or closed. */
  lemma ScanCell(p: Params, r: Reader, cell: Cell)
    requires Plain(p) && Storable(p, cell.text) && (!cell.quoted ==> ControlsAreQuoted(p, cell.text))
    requires r.cell == "" && !r.quoted
    ensures Scan(p, r, Source(cell)) == r.(cell := Source(cell), quoted := LeavesOpen(cell))
  {
    hide Step, Scan, Escape, QuoteCount;
    if cell.quoted {
      var r1 := Step(p, r, QUOTE);
      StepQuote(p, r);
      assert r1.cell == [QUOTE] && r1.quoted;
      var inner := Escape(cell.text) + [QUOTE];
      assert Source(cell) == [QUOTE] + inner;
      ScanFront(p, r, QUOTE, inner);
      ScanConcat(p, r1, Escape(cell.text), [QUOTE]);
      ScanEscaped(p, r1, cell.text);
      var r2 := Scan(p, r1, Escape(cell.text));
      ScanOne(p, r2, QUOTE);
      StepQuote(p, r2);
    } else {
      ScanBare(p, r, cell.text);
    }
  }

  /** A quoted cell is read as its text, whether or not it needed the quotes. */
  lemma QuotedIsRead(p: Params, text: string)
    requires p.autoQuote
    ensures CellValue(p, "\"" + Escape(text) + "\"") == text
  {
    var w := "\"" + Escape(text) + "\"";
    assert w[1..|w| - 1] == Escape(text);
    UnescapeInvertsEscape(text);
    hide Escape, Unescape;
    QuotedIsNotTrimmed(w);
  }

  lemma QuotedIsNotTrimmed(w: string)
    requires |w| >= 2 && w[0] == QUOTE && w[|w| - 1] == QUOTE
    ensures TrimRight(TrimLeft(w)) == w
  {
  }

  /** Space around the quotes is trimmed off where the reader is told to trim. */
  lemma {:induction false} PaddedIsRead(p: Params, before: string, text: string, after: string)
    requires p.autoQuote && p.trim
    requires (forall c :: c in before ==> IsSpace(c)) && (forall c :: c in after ==> IsSpace(c))
    ensures CellValue(p, before + ("\"" + Escape(text) + "\"") + after) == text
  {
    var w := "\"" + Escape(text) + "\"";
    TrimLeftPadding(before, w + after);
    assert before + (w + after) == before + w + after;
    TrimRightPadding(w, after);
    hide TrimLeft, TrimRight;
    QuotedIsNotTrimmed(w);
    FrontIsKept(w + after);
    QuotedIsRead(p, text);
  }

  lemma FrontIsKept(s: string)
    requires s != "" && !IsSpace(s[0])
    ensures TrimLeft(s) == s
  {
  }

  lemma {:induction false} TrimLeftPadding(before: string, s: string)
    requires forall c :: c in before ==> IsSpace(c)
    ensures TrimLeft(before + s) == TrimLeft(s)
    decreases |before|
  {
    if before == "" {
      assert before + s == s;
    } else {
      assert before[0] in before;
      assert (before + s)[1..] == before[1..] + s;
      TrimLeftPadding(before[1..], s);
    }
  }

  lemma {:induction false} TrimRightPadding(s: string, after: string)
    requires forall c :: c in after ==> IsSpace(c)
    ensures TrimRight(s + after) == TrimRight(s)
    decreases |after|
  {
    if after == "" {
      assert s + after == s;
    } else {
      var n := |after| - 1;
      assert after[n] in after;
      assert (s + after)[..|s + after| - 1] == s + after[..n];
      TrimRightPadding(s, after[..n]);
    }
  }

  lemma LegibleValue(p: Params, cell: Cell, last: bool)
    requires Legible(p, cell, last)
    ensures CellValue(p, Source(cell)) == cell.text
  {
    hide Escape, Unescape;
    if cell.quoted {
      QuotedIsRead(p, cell.text);
    }
  }

  /** Where nothing is trimmed the condition is exact: an illegible cell whose
      separators and line breaks are quoted gets another value or runs on. */
  lemma LegibleExactly(p: Params, cell: Cell, last: bool)
    requires Strict(p) && Storable(p, cell.text) && (!cell.quoted ==> ControlsAreQuoted(p, cell.text))
    ensures Legible(p, cell, last) <==> CellValue(p, Source(cell)) == cell.text && !Swallows(p, cell, last)
  {
    hide Unescape, Escape;
    if Legible(p, cell, last) {
      LegibleValue(p, cell, last);
    } else if cell.quoted {
      EscapeGrows(cell.text);
    } else if p.autoQuote && IsQuoted(cell.text) {
      UnescapeShrinks(cell.text[1..|cell.text| - 1]);
    }
  }

  lemma {:induction false} EscapeGrows(s: string)
    ensures |Escape(s)| >= |s|
  {
    if s != "" {
      EscapeFront(s);
      EscapeGrows(s[1..]);
    }
  }

  // ---------- Scanning one row ----------

  lemma SourceSplits(p: Params, cells: seq<Cell>, c: nat)
    requires c < |cells|
    ensures c == |cells| - 1 ==> CellsSource(p, cells[c..]) == Source(cells[c])
    ensures c < |cells| - 1 ==>
      CellsSource(p, cells[c..]) == Source(cells[c]) + ([p.separator] + CellsSource(p, cells[c + 1..]))
  {
    assert cells[c..][1..] == cells[c + 1..];
  }

  /** A separator the reader recognises stores the cell. */
  lemma ScanSeparator(p: Params, r: Reader)
    requires Plain(p) && !r.quoted
    ensures Scan(p, r, [p.separator]) == r.(row := r.row + [CellValue(p, r.cell)], cell := "")
  {
    ScanOne(p, r, p.separator);
  }

  /** A row up to its end, or to the end of the text. */
  lemma {:induction false} ScanCells(p: Params, r: Reader, cells: seq<Cell>, c: nat)
    requires Plain(p) && c < |cells| && LegibleFrom(p, cells, c)
    requires r.row == Texts(cells)[..c] && r.cell == "" && !r.quoted
    ensures var n := |cells| - 1;
      Scan(p, r, CellsSource(p, cells[c..]))
      == r.(row := Texts(cells)[..n], cell := Source(cells[n]), quoted := LeavesOpen(cells[n]))
    decreases |cells| - c
  {
    hide Scan, Source, CellsSource, CellValue, QuoteCount;
    var cell, texts := cells[c], Texts(cells);
    assert Legible(p, cell, c == |cells| - 1);
    SourceSplits(p, cells, c);
    ScanCell(p, r, cell);
    if c < |cells| - 1 {
      LegibleValue(p, cell, false);
      var rest := CellsSource(p, cells[c + 1..]);
      ScanConcat(p, r, Source(cell), [p.separator] + rest);
      var s := r.(cell := Source(cell), quoted := false);
      ScanConcat(p, s, [p.separator], rest);
      ScanSeparator(p, s);
      assert texts[..c] + [cell.text] == texts[..c + 1];
      ScanCells(p, r.(row := texts[..c + 1]), cells, c + 1);
    }
  }

  lemma ScanTwo(p: Params, r: Reader, a: char, b: char)
    ensures Scan(p, r, [a, b]) == Step(p, Step(p, r, a), b)
  {
    assert [a, b] == [a] + [b];
    ScanFront(p, r, a, [b]);
    ScanOne(p, Step(p, r, a), b);
  }

  function Ended(p: Params, r: Reader, hasCR: bool): Reader {
    var r1 := r.(cr := r.cr + (if hasCR then 1 else 0), lf := r.lf + 1);
    if p.skipEmptyLines && r.row == [] && r.cell == "" then r1 else EndRow(p, r1)
  }

  /** A line break the reader recognises ends the row. */
  lemma ScanEnding(p: Params, r: Reader, hasCR: bool)
    requires Plain(p) && (r.quoted ==> !p.quotedLinebreaks)
    ensures Scan(p, r, Ending(hasCR)) == Ended(p, r, hasCR)
  {
    hide EndRow;
    assert "\r\n" == [CR, LF] && "\n" == [LF];
    if hasCR {
      ScanTwo(p, r, CR, LF);
    } else {
      ScanOne(p, r, LF);
    }
  }

  /** Lines without content, and comments, are left out where the reader is told
      so; a line with a quoted empty cell has content. */
  predicate Dropped(p: Params, line: Line) {
    || (p.skipEmptyLines && line.cells == [Cell("", false)])
    || (p.skipCommentLines && line.cells != [] && line.cells[0].text != "" && line.cells[0].text[0] == p.commentPrefix)
  }

  function AfterLine(p: Params, r: Reader, line: Line): Reader {
    Reader(if Dropped(p, line) then r.rows else r.rows + [Texts(line.cells)], [], "", false,
           r.cr + (if line.hasCR then 1 else 0), r.lf + 1)
  }

  lemma EndedLine(p: Params, r: Reader, line: Line, s: Reader)
    requires LegibleRow(p, line.cells)
    requires var n := |line.cells| - 1;
      s == r.(row := Texts(line.cells)[..n], cell := Source(line.cells[n]), quoted := LeavesOpen(line.cells[n]))
    ensures Ended(p, s, line.hasCR) == AfterLine(p, r.(row := [], cell := "", quoted := false), line)
  {
    hide CellValue, Escape, ControlsAreQuoted;
    var cells, n := line.cells, |line.cells| - 1;
    assert Legible(p, cells[n], true);
    LegibleValue(p, cells[n], true);
    assert Texts(cells)[..n] + [cells[n].text] == Texts(cells);
    if s.cell == "" && s.row == [] {
      assert cells == [cells[0]];
      NothingIsClosed();
    }
  }

  /** A legible line is read as its texts, or left out. */
  lemma {:induction false} ScanLine(p: Params, r: Reader, line: Line, rest: string)
    requires Plain(p) && LegibleRow(p, line.cells)
    requires r.row == [] && r.cell == "" && !r.quoted
    ensures Scan(p, r, CellsSource(p, line.cells) + Ending(line.hasCR) + rest) == Scan(p, AfterLine(p, r, line), rest)
  {
    hide Scan, Source, CellsSource, Ended, AfterLine, QuoteCount, Ending;
    var cells, n := line.cells, |line.cells| - 1;
    assert cells[0..] == cells;
    assert Legible(p, cells[n], true);
    ScanCells(p, r, cells, 0);
    var s := r.(row := Texts(cells)[..n], cell := Source(cells[n]), quoted := LeavesOpen(cells[n]));
    ScanConcat(p, r, CellsSource(p, cells) + Ending(line.hasCR), rest);
    ScanConcat(p, r, CellsSource(p, cells), Ending(line.hasCR));
    ScanEnding(p, s, line.hasCR);
    EndedLine(p, r, line, s);
    assert r.(row := [], cell := "", quoted := false) == r;
  }

  // ---------- Scanning whole texts ----------

  function KeptTexts(p: Params, lines: seq<Line>): seq<Row> {
    if lines == [] then []
    else (if Dropped(p, lines[0]) then [] else [Texts(lines[0].cells)]) + KeptTexts(p, lines[1..])
  }

  function CRs(lines: seq<Line>): nat {
    if lines == [] then 0 else (if lines[0].hasCR then 1 else 0) + CRs(lines[1..])
  }

  function AfterLines(p: Params, r: Reader, lines: seq<Line>): Reader {
    Reader(r.rows + KeptTexts(p, lines), [], "", false, r.cr + CRs(lines), r.lf + |lines|)
  }

  lemma AfterOneMore(p: Params, r: Reader, lines: seq<Line>)
    requires lines != []
    ensures AfterLines(p, AfterLine(p, r, lines[0]), lines[1..]) == AfterLines(p, r, lines)
  {
    hide Dropped, Texts;
    var kept := if Dropped(p, lines[0]) then [] else [Texts(lines[0].cells)];
    assert AfterLine(p, r, lines[0]).rows == r.rows + kept;
    assert r.rows + kept + KeptTexts(p, lines[1..]) == r.rows + (kept + KeptTexts(p, lines[1..]));
  }

  lemma {:induction false} ScanLines(p: Params, r: Reader, lines: seq<Line>, rest: string)
    requires Plain(p) && AllLegible(p, lines)
    requires r.row == [] && r.cell == "" && !r.quoted
    ensures Scan(p, r, LinesSource(p, lines) + rest) == Scan(p, AfterLines(p, r, lines), rest)
    decreases |lines|
  {
    if lines == [] {
      assert LinesSource(p, lines) + rest == rest;
      assert r.rows + [] == r.rows;
    } else {
      hide Scan, CellsSource, Ending, AfterLines, LegibleRow;
      var tail := LinesSource(p, lines[1..]) + rest;
      var front := CellsSource(p, lines[0].cells) + Ending(lines[0].hasCR);
      assert front + LinesSource(p, lines[1..]) + rest == front + tail;
      ScanLine(p, r, lines[0], tail);
      ScanLines(p, AfterLine(p, r, lines[0]), lines[1..], rest);
      AfterOneMore(p, r, lines);
    }
  }

  /** Every table is read back from a text with any quotes around its cells, as
      long as those are quoted that have to be, and any line breaks; the breaks
      are recognised by what the most lines have. */
  lemma {:induction false} ReadsBack(p: Params, lines: seq<Line>)
    requires Plain(p) && AllLegible(p, lines)
    ensures Parsed(p, LinesSource(p, lines)) == KeptTexts(p, lines)
    ensures ParsedHasCR(p, LinesSource(p, lines)) == (CRs(lines) > |lines| / 2)
  {
    hide Scan, LinesSource;
    assert LinesSource(p, lines) + "" == LinesSource(p, lines);
    ScanLines(p, Fresh([]), lines, "");
    ScanNothing(p, AfterLines(p, Fresh([]), lines));
    assert [] + KeptTexts(p, lines) == KeptTexts(p, lines);
  }

  /** A last line without a line break is read too, unless it has no content; it
      is never taken for a comment. */
  lemma {:induction false} ReadsBackUnended(p: Params, lines: seq<Line>, cells: seq<Cell>)
    requires Plain(p) && AllLegible(p, lines) && LegibleRow(p, cells)
    ensures var text := LinesSource(p, lines) + CellsSource(p, cells);
      && Parsed(p, text) == KeptTexts(p, lines) + (if cells == [Cell("", false)] then [] else [Texts(cells)])
      && ParsedHasCR(p, text) == (CRs(lines) > |lines| / 2)
  {
    hide Scan, LinesSource, CellsSource, CellValue, Escape, ControlsAreQuoted;
    var n, r := |cells| - 1, AfterLines(p, Fresh([]), lines);
    ScanLines(p, Fresh([]), lines, CellsSource(p, cells));
    assert cells[0..] == cells;
    assert Legible(p, cells[n], true);
    ScanCells(p, r, cells, 0);
    LegibleValue(p, cells[n], true);
    assert Texts(cells)[..n] + [cells[n].text] == Texts(cells);
    assert [] + KeptTexts(p, lines) == KeptTexts(p, lines);
    assert n == 0 ==> cells == [cells[0]];
  }
}
