/** Texts assembled from cells that are not read back: the condition of CsvReading
    is exact where nothing is trimmed or skipped. */
module CsvExact {
  import opened CsvText
  import opened CsvDocument
  import opened CsvReading

  // ---------- What is stored stays stored ----------

  ghost predicate Keeps(r: Reader, rows: seq<Row>) {
    && r.rows <= rows
    && (r.row != [] ==> |rows| > |r.rows| && r.row <= rows[|r.rows|])
  }

  lemma StepKeeps(p: Params, r: Reader, c: char, rows: seq<Row>)
    requires Strict(p) && Keeps(Step(p, r, c), rows)
    ensures Keeps(r, rows)
  {
    hide CellValue;
    var next := Step(p, r, c);
    if next.rows != r.rows {
      assert next.rows[|r.rows|] == rows[|r.rows|];
    }
  }

  /** Nothing the reader has stored is changed by the rest of the input. */
  lemma {:induction false} StoredIsKept(p: Params, r: Reader, text: string)
    requires Strict(p)
    ensures Keeps(r, Finished(p, Scan(p, r, text)))
    decreases |text|
  {
    if text == "" {
      ScanNothing(p, r);
    } else {
      hide Keeps, Step, Scan, Finished;
      ScanFront(p, r, text[0], text[1..]);
      assert text == [text[0]] + text[1..];
      StoredIsKept(p, Step(p, r, text[0]), text[1..]);
      StepKeeps(p, r, text[0], Finished(p, Scan(p, r, text)));
    }
  }

  ghost predicate StoredUnder(p: Params, r: Reader, rows: seq<Row>, w: string) {
    && r.cell <= w && |rows| > |r.rows| && |rows[|r.rows|]| > |r.row|
    && rows[|r.rows|][|r.row|] == CellValue(p, w)
  }

  /** One character extends the collected text or stores it. */
  lemma StepCollects(p: Params, r: Reader, c: char, rows: seq<Row>)
    requires Strict(p) && r.cell != "" && Keeps(Step(p, r, c), rows)
    ensures var next := Step(p, r, c);
      if next.cell == "" then StoredUnder(p, r, rows, r.cell)
      else next.rows == r.rows && next.row == r.row && r.cell <= next.cell
  {
    hide CellValue;
    var next := Step(p, r, c);
    if next.rows != r.rows {
      assert next.rows[|r.rows|] == rows[|r.rows|];
    }
  }

  /** Collected text is eventually stored, extended at its end. */
  lemma {:induction false} CollectedIsStored(p: Params, r: Reader, text: string) returns (w: string)
    requires Strict(p) && r.cell != ""
    ensures StoredUnder(p, r, Finished(p, Scan(p, r, text)), w)
    decreases |text|
  {
    if text == "" {
      w := r.cell;
      ScanNothing(p, r);
    } else {
      hide Scan, Step, Finished, CellValue;
      assert text == [text[0]] + text[1..];
      ScanFront(p, r, text[0], text[1..]);
      var next := Step(p, r, text[0]);
      StoredIsKept(p, next, text[1..]);
      StepCollects(p, r, text[0], Finished(p, Scan(p, r, text)));
      if next.cell == "" {
        w := r.cell;
      } else {
        w := CollectedIsStored(p, next, text[1..]);
      }
    }
  }

  /** Storing text removes nothing but quotes, and adds nothing. */
  lemma ValueKeeps(p: Params, w: string, z: char)
    requires Strict(p) && z != QUOTE
    ensures Count(CellValue(p, w), z) == Count(w, z) && |CellValue(p, w)| <= |w|
  {
    if p.autoQuote && IsQuoted(w) {
      var inner := w[1..|w| - 1];
      assert w == [QUOTE] + inner + [QUOTE];
      CountConcat([QUOTE] + inner, [QUOTE], z);
      CountConcat([QUOTE], inner, z);
      CountOne(QUOTE, z);
      UnescapeKeeps(inner, z);
      UnescapeShrinks(inner);
    }
  }

  /** Text that extends `collected` holds at least as many of each character. */
  lemma ExtensionHolds(collected: string, w: string, z: char)
    requires collected <= w
    ensures Count(collected, z) <= Count(w, z)
  {
    assert w == collected + w[|collected|..];
    CountConcat(collected, w[|collected|..], z);
  }

  // ---------- Rows that are spoilt ----------

  function Terminator(p: Params, hasCR: bool, last: bool): string {
    if last then Ending(hasCR) else [p.separator]
  }

  /** The rest of the text from cell c of a line on. */
  function Remaining(p: Params, line: Line, c: nat, rest: string): string
    requires c <= |line.cells|
  {
    CellsSource(p, line.cells[c..]) + Ending(line.hasCR) + rest
  }

  lemma RemainingSplits(p: Params, line: Line, c: nat, rest: string)
    requires c < |line.cells|
    ensures var last := c == |line.cells| - 1;
      Remaining(p, line, c, rest)
      == Source(line.cells[c]) + (Terminator(p, line.hasCR, last) + if last then rest else Remaining(p, line, c + 1, rest))
  {
    SourceSplits(p, line.cells, c);
    hide CellsSource, Source, Ending;
  }

  ghost predicate Misread(r: Reader, row: Row, rows: seq<Row>) {
    |rows| <= |r.rows| || rows[|r.rows|] != row
  }

  /** An end the reader recognises stores the cell. */
  lemma ScanTerminator(p: Params, r: Reader, hasCR: bool, last: bool)
    requires Strict(p) && (r.quoted ==> last && !p.quotedLinebreaks)
    ensures var s, row := Scan(p, r, Terminator(p, hasCR, last)), r.row + [CellValue(p, r.cell)];
      if last then s.rows == r.rows + [row] else s == r.(row := row, cell := "")
  {
    if last {
      ScanEnding(p, r, hasCR);
    } else {
      ScanSeparator(p, r);
    }
  }

  /** An end the reader takes for text is collected. */
  lemma ScanSwallowed(p: Params, r: Reader, hasCR: bool, last: bool)
    requires Plain(p) && r.quoted && (last ==> p.quotedLinebreaks)
    ensures Scan(p, r, Terminator(p, hasCR, last)) == r.(cell := r.cell + Terminator(p, hasCR, last))
  {
    assert "\r\n" == [CR, LF] && "\n" == [LF];
    if !last {
      ScanOne(p, r, p.separator);
    } else if hasCR {
      ScanTwo(p, r, CR, LF);
      assert r.cell + [CR] + [LF] == r.cell + [CR, LF];
    } else {
      ScanOne(p, r, LF);
    }
  }

  /** What is taken for text behind a cell makes the stored value hold more of
      the end's last character than the cell does. */
  lemma {:induction false} SwallowedIsMisread(p: Params, r: Reader, open: Reader, line: Line, c: nat, tail: string)
    requires Strict(p) && c < |line.cells| && r.row == Texts(line.cells)[..c]
    requires open.rows == r.rows && open.row == r.row && open.quoted && (c == |line.cells| - 1 ==> p.quotedLinebreaks)
    requires var z := if c == |line.cells| - 1 then LF else p.separator;
      Count(open.cell, z) == Count(line.cells[c].text, z)
    ensures Misread(r, Texts(line.cells),
                    Finished(p, Scan(p, open, Terminator(p, line.hasCR, c == |line.cells| - 1) + tail)))
  {
    hide Scan, Finished, CellValue, Count;
    var last := c == |line.cells| - 1;
    var end, z := Terminator(p, line.hasCR, last), if last then LF else p.separator;
    ScanConcat(p, open, end, tail);
    ScanSwallowed(p, open, line.hasCR, last);
    var after := open.(cell := open.cell + end);
    var w := CollectedIsStored(p, after, tail);
    CountConcat(open.cell, end, z);
    EndHolds(p, line.hasCR, last);
    CountHolds(end, z);
    ExtensionHolds(after.cell, w, z);
    ValueKeeps(p, w, z);
    assert Count(CellValue(p, w), z) > Count(line.cells[c].text, z);
  }

  lemma EndHolds(p: Params, hasCR: bool, last: bool)
    ensures var end := Terminator(p, hasCR, last); end != "" && (if last then LF else p.separator) in end
  {
    var end := Terminator(p, hasCR, last);
    assert end[|end| - 1] == if last then LF else p.separator;
  }

  /** A value that differs from the cell spoils the row. */
  lemma {:induction false} StoredIsMisread(p: Params, r: Reader, open: Reader, line: Line, c: nat, tail: string)
    requires Strict(p) && c < |line.cells| && r.row == Texts(line.cells)[..c]
    requires open.rows == r.rows && open.row == r.row
    requires open.quoted ==> c == |line.cells| - 1 && !p.quotedLinebreaks
    requires CellValue(p, open.cell) != line.cells[c].text
    ensures Misread(r, Texts(line.cells),
                    Finished(p, Scan(p, open, Terminator(p, line.hasCR, c == |line.cells| - 1) + tail)))
  {
    hide Scan, Finished, CellValue;
    var end := Terminator(p, line.hasCR, c == |line.cells| - 1);
    ScanConcat(p, open, end, tail);
    ScanTerminator(p, open, line.hasCR, c == |line.cells| - 1);
    StoredIsKept(p, Scan(p, open, end), tail);
    assert (r.row + [CellValue(p, open.cell)])[c] != line.cells[c].text;
  }

  /** The first illegible cell of a row spoils the row: here it is stored with
      another value. */
  lemma {:induction false} MisvaluedIsMisread(p: Params, r: Reader, line: Line, c: nat, rest: string)
    requires Strict(p) && c < |line.cells| && r.row == Texts(line.cells)[..c] && r.cell == "" && !r.quoted
    requires var cell := line.cells[c];
      && Storable(p, cell.text) && (!cell.quoted ==> ControlsAreQuoted(p, cell.text))
      && CellValue(p, Source(cell)) != cell.text && !Swallows(p, cell, c == |line.cells| - 1)
    ensures Misread(r, Texts(line.cells), Finished(p, Scan(p, r, Remaining(p, line, c, rest))))
  {
    hide Scan, Finished, Remaining, CellValue, QuoteCount, Terminator, ControlsAreQuoted, Source;
    var last, cell := c == |line.cells| - 1, line.cells[c];
    var tail := if last then rest else Remaining(p, line, c + 1, rest);
    RemainingSplits(p, line, c, rest);
    ScanConcat(p, r, Source(cell), Terminator(p, line.hasCR, last) + tail);
    ScanCell(p, r, cell);
    StoredIsMisread(p, r, r.(cell := Source(cell), quoted := LeavesOpen(cell)), line, c, tail);
  }

  /** The first illegible cell of a row spoils the row: here it runs on over its
      end. */
  lemma {:induction false} RunOnIsMisread(p: Params, r: Reader, line: Line, c: nat, rest: string)
    requires Strict(p) && c < |line.cells| && r.row == Texts(line.cells)[..c] && r.cell == "" && !r.quoted
    requires var cell := line.cells[c];
      Storable(p, cell.text) && ControlsAreQuoted(p, cell.text) && Swallows(p, cell, c == |line.cells| - 1)
    ensures Misread(r, Texts(line.cells), Finished(p, Scan(p, r, Remaining(p, line, c, rest))))
  {
    hide Scan, Finished, Remaining, CellValue, QuoteCount, Terminator, ControlsAreQuoted;
    var last, cell := c == |line.cells| - 1, line.cells[c];
    var tail := if last then rest else Remaining(p, line, c + 1, rest);
    RemainingSplits(p, line, c, rest);
    ScanConcat(p, r, cell.text, Terminator(p, line.hasCR, last) + tail);
    ScanCell(p, r, cell);
    SwallowedIsMisread(p, r, r.(cell := cell.text, quoted := true), line, c, tail);
  }

  // ---------- Bare cells with separators or line breaks outside quotes ----------

  /** The reader, started in r and now in s, has ended the cell too early. */
  ghost predicate EndedShort(r: Reader, s: Reader, length: nat) {
    exists v :: |v| < length && StoredFirst(r, s, v)
  }

  ghost predicate StoredFirst(r: Reader, s: Reader, v: string) {
    || (s.rows == r.rows && r.row + [v] <= s.row)
    || (|s.rows| > |r.rows| && r.rows <= s.rows && r.row + [v] <= s.rows[|r.rows|])
  }

  /** Behind n characters of a bare cell: ended too early, or a character short,
      with every separator and line feed so far collected. */
  ghost predicate Short(p: Params, r: Reader, s: Reader, text: string, n: nat)
    requires n <= |text|
  {
    || EndedShort(r, s, |text|)
    || (&& s.rows == r.rows && s.row == r.row && |s.cell| < n
        && Count(s.cell, LF) == Count(text[..n], LF) && Count(s.cell, p.separator) == Count(text[..n], p.separator))
  }

  lemma CountNext(text: string, n: nat, c: char)
    requires n < |text|
    ensures Count(text[..n + 1], c) == Count(text[..n], c) + if text[n] == c then 1 else 0
  {
    assert text[..n + 1][..n] == text[..n];
  }

  lemma StepStaysEnded(p: Params, r: Reader, s: Reader, c: char, length: nat)
    requires Strict(p) && EndedShort(r, s, length)
    ensures EndedShort(r, Step(p, s, c), length)
  {
    var v :| |v| < length && StoredFirst(r, s, v);
    hide CellValue, EndedShort;
    StoredStaysFirst(p, r, s, c, v);
    hide Step, StoredFirst;
    EndsWithin(r, Step(p, s, c), v, length);
  }

  lemma EndsWithin(r: Reader, s: Reader, v: string, length: nat)
    requires |v| < length && StoredFirst(r, s, v)
    ensures EndedShort(r, s, length)
  {
  }

  lemma StoredStaysFirst(p: Params, r: Reader, s: Reader, c: char, v: string)
    requires Strict(p) && StoredFirst(r, s, v)
    ensures StoredFirst(r, Step(p, s, c), v)
  {
    hide CellValue;
  }

  /** A separator or line break that is not quoted ends the cell. */
  lemma EndsShort(p: Params, r: Reader, s: Reader, c: char, length: nat)
    requires Strict(p) && s.rows == r.rows && s.row == r.row && |s.cell| < length
    requires (c == p.separator && !s.quoted) || (c == LF && !(p.quotedLinebreaks && s.quoted))
    ensures EndedShort(r, Step(p, s, c), length)
  {
    ValueKeeps(p, s.cell, LF);
    var v := CellValue(p, s.cell);
    hide CellValue;
    assert StoredFirst(r, Step(p, s, c), v);
  }

  lemma StepStaysShort(p: Params, r: Reader, s: Reader, text: string, n: nat)
    requires Strict(p) && n < |text| && Short(p, r, s, text, n)
    ensures Short(p, r, Step(p, s, text[n]), text, n + 1)
  {
    hide CellValue, Count, EndedShort, EndRow;
    var c := text[n];
    if EndedShort(r, s, |text|) {
      StepStaysEnded(p, r, s, c, |text|);
    } else if (c == p.separator && !s.quoted) || (c == LF && !(p.quotedLinebreaks && s.quoted)) {
      EndsShort(p, r, s, c, |text|);
    } else {
      CountNext(text, n, LF);
      CountNext(text, n, p.separator);
      CountConcat(s.cell, [c], LF);
      CountConcat(s.cell, [c], p.separator);
      CountOne(c, LF);
      CountOne(c, p.separator);
    }
  }

  /** The first of them outside quotes ends the cell or is dropped. */
  lemma ControlIsShort(p: Params, r: Reader, text: string, n: nat)
    requires Strict(p) && n < |text| && IsControl(p, text[n]) && !IsOpen(text[..n])
    ensures Short(p, r, Step(p, r.(cell := text[..n], quoted := false), text[n]), text, n + 1)
  {
    hide CellValue, Count, IsOpen, EndedShort, EndRow;
    var s := r.(cell := text[..n], quoted := false);
    if text[n] == CR {
      CountNext(text, n, LF);
      CountNext(text, n, p.separator);
    } else {
      EndsShort(p, r, s, text[n], |text|);
    }
  }

  lemma {:induction false} ScanBroken(p: Params, r: Reader, text: string, n: nat)
    requires Strict(p) && Storable(p, text) && n <= |text|
    requires r.cell == "" && !r.quoted && !ControlsAreQuoted(p, text[..n])
    ensures Short(p, r, Scan(p, r, text[..n]), text, n)
    decreases n
  {
    hide Step, Scan, Short, IsOpen;
    assert n > 0;
    var front, c := text[..n - 1], text[n - 1];
    assert text[..n] == front + [c];
    ScanLast(p, r, front, c);
    assert forall x :: x in front ==> x in text;
    if ControlsAreQuoted(p, front) {
      assert forall i :: 0 <= i < n - 1 ==> text[..n][..i] == front[..i];
      assert text[..n][..n - 1] == front;
      ScanBare(p, r, front);
      ControlIsShort(p, r, text, n - 1);
    } else {
      ScanBroken(p, r, text, n - 1);
      StepStaysShort(p, r, Scan(p, r, front), text, n - 1);
    }
  }

  /** A cell that has ended too early stays spoilt. */
  lemma {:induction false} EndedIsMisread(p: Params, r: Reader, s: Reader, row: Row, c: nat, text: string)
    requires Strict(p) && c < |row| && r.row == row[..c] && EndedShort(r, s, |row[c]|)
    ensures Misread(r, row, Finished(p, Scan(p, s, text)))
  {
    hide Scan, Finished;
    var v :| |v| < |row[c]| && StoredFirst(r, s, v);
    StoredIsKept(p, s, text);
    var rows := Finished(p, Scan(p, s, text));
    assert (r.row + [v])[c] == v;
    assert r.row + [v] <= rows[|r.rows|];
    assert rows[|r.rows|][c] == v;
  }

  /** The first illegible cell of a row spoils the row: here a separator or a line
      break is no text to the reader. */
  lemma {:induction false} BrokenIsMisread(p: Params, r: Reader, line: Line, c: nat, rest: string)
    requires Strict(p) && c < |line.cells| && r.row == Texts(line.cells)[..c] && r.cell == "" && !r.quoted
    requires var cell := line.cells[c]; Storable(p, cell.text) && !cell.quoted && !ControlsAreQuoted(p, cell.text)
    ensures Misread(r, Texts(line.cells), Finished(p, Scan(p, r, Remaining(p, line, c, rest))))
  {
    hide Scan, Finished, Remaining, CellValue, Terminator, IsOpen, Count, EndedShort, ControlsAreQuoted;
    var last, text := c == |line.cells| - 1, line.cells[c].text;
    var end := Terminator(p, line.hasCR, last);
    var tail := if last then rest else Remaining(p, line, c + 1, rest);
    RemainingSplits(p, line, c, rest);
    ScanConcat(p, r, text, end + tail);
    assert text[..|text|] == text;
    ScanBroken(p, r, text, |text|);
    var s := Scan(p, r, text);
    if EndedShort(r, s, |text|) {
      EndedIsMisread(p, r, s, Texts(line.cells), c, end + tail);
    } else if s.quoted && (!last || p.quotedLinebreaks) {
      SwallowedIsMisread(p, r, s, line, c, tail);
    } else {
      ValueKeeps(p, s.cell, LF);
      StoredIsMisread(p, r, s, line, c, tail);
    }
  }

  // ---------- The first illegible cell, and the first illegible row ----------

  lemma {:induction false} BadRowIsMisread(p: Params, r: Reader, line: Line, c: nat, rest: string)
    requires Strict(p) && (forall i :: 0 <= i < |line.cells| ==> Storable(p, line.cells[i].text))
    requires c <= |line.cells| && !LegibleFrom(p, line.cells, c)
    requires r.row == Texts(line.cells)[..c] && r.cell == "" && !r.quoted
    ensures Misread(r, Texts(line.cells), Finished(p, Scan(p, r, Remaining(p, line, c, rest))))
    decreases |line.cells| - c
  {
    hide Scan, Finished, Remaining, Source, CellValue, QuoteCount, ControlsAreQuoted, Storable, Legible;
    var last, cell := c == |line.cells| - 1, line.cells[c];
    if !cell.quoted && !ControlsAreQuoted(p, cell.text) {
      BrokenIsMisread(p, r, line, c, rest);
    } else {
      LegibleExactly(p, cell, last);
      if Swallows(p, cell, last) {
        RunOnIsMisread(p, r, line, c, rest);
      } else if CellValue(p, Source(cell)) != cell.text {
        MisvaluedIsMisread(p, r, line, c, rest);
      } else {
        assert !last;
        var tail := Remaining(p, line, c + 1, rest);
        RemainingSplits(p, line, c, rest);
        ScanConcat(p, r, Source(cell), [p.separator] + tail);
        ScanCell(p, r, cell);
        var s := r.(cell := Source(cell), quoted := false);
        ScanConcat(p, s, [p.separator], tail);
        ScanSeparator(p, s);
        assert Texts(line.cells)[..c] + [cell.text] == Texts(line.cells)[..c + 1];
        BadRowIsMisread(p, r.(row := Texts(line.cells)[..c + 1]), line, c + 1, rest);
      }
    }
  }

  /** A line without cells is read as a row with one empty cell. */
  lemma {:induction false} EmptyRowIsMisread(p: Params, r: Reader, hasCR: bool, rest: string)
    requires Strict(p) && r.row == [] && r.cell == "" && !r.quoted
    ensures Misread(r, [], Finished(p, Scan(p, r, Ending(hasCR) + rest)))
  {
    hide Scan, Finished, CellValue;
    ScanConcat(p, r, Ending(hasCR), rest);
    ScanTerminator(p, r, hasCR, true);
    StoredIsKept(p, Scan(p, r, Ending(hasCR)), rest);
  }

  function AllTexts(lines: seq<Line>): (rows: seq<Row>)
    ensures |rows| == |lines| && forall i :: 0 <= i < |lines| ==> rows[i] == Texts(lines[i].cells)
  {
    seq(|lines|, i requires 0 <= i < |lines| => Texts(lines[i].cells))
  }

  predicate AllStorable(p: Params, lines: seq<Line>) {
    forall i, c :: 0 <= i < |lines| && 0 <= c < |lines[i].cells| ==> Storable(p, lines[i].cells[c].text)
  }

  lemma {:induction false} IllegibleIsMisread(p: Params, r: Reader, lines: seq<Line>)
    requires Strict(p) && AllStorable(p, lines) && !AllLegible(p, lines)
    requires r.row == [] && r.cell == "" && !r.quoted
    ensures Finished(p, Scan(p, r, LinesSource(p, lines))) != r.rows + AllTexts(lines)
    decreases |lines|
  {
    hide Scan, LinesSource, Finished, Remaining, LegibleFrom, Storable, AfterLine, CellsSource, Ending;
    var line, rest := lines[0], LinesSource(p, lines[1..]);
    FrontLine(p, lines);
    assert (r.rows + AllTexts(lines))[|r.rows|] == Texts(line.cells);
    if line.cells == [] {
      EmptyRowIsMisread(p, r, line.hasCR, rest);
    } else if !LegibleRow(p, line.cells) {
      BadRowIsMisread(p, r, line, 0, rest);
    } else {
      ScanLine(p, r, line, rest);
      NextIsBehind(p, r, line);
      assert AllStorable(p, lines[1..]);
      assert !AllLegible(p, lines[1..]) by {
        var bad :| 0 <= bad < |lines| && !LegibleRow(p, lines[bad].cells);
        assert lines[1..][bad - 1] == lines[bad];
      }
      IllegibleIsMisread(p, AfterLine(p, r, line), lines[1..]);
      assert r.rows + AllTexts(lines) == r.rows + [Texts(line.cells)] + AllTexts(lines[1..]);
    }
  }

  lemma NextIsBehind(p: Params, r: Reader, line: Line)
    requires Strict(p)
    ensures var s := AfterLine(p, r, line);
      s.rows == r.rows + [Texts(line.cells)] && s.row == [] && s.cell == "" && !s.quoted
  {
  }

  lemma {:induction false} FrontLine(p: Params, lines: seq<Line>)
    requires lines != []
    ensures var line, rest := lines[0], LinesSource(p, lines[1..]);
      && LinesSource(p, lines) == CellsSource(p, line.cells) + Ending(line.hasCR) + rest == Remaining(p, line, 0, rest)
      && (line.cells == [] ==> LinesSource(p, lines) == Ending(line.hasCR) + rest)
  {
    assert lines[0].cells[0..] == lines[0].cells;
    NoCells(p);
    hide Ending, CellsSource;
  }

  lemma NoCells(p: Params)
    ensures CellsSource(p, []) == ""
  {
  }

  // ---------- Readers that accept no line breaks ----------

  predicate Unbroken(cells: seq<string>) {
    forall c :: 0 <= c < |cells| ==> !HasLineBreak(cells[c])
  }

  ghost predicate Clean(r: Reader) {
    && !HasLineBreak(r.cell) && Unbroken(r.row)
    && forall i :: 0 <= i < |r.rows| ==> Unbroken(r.rows[i])
  }

  lemma ValueIsUnbroken(p: Params, w: string)
    requires Strict(p) && !HasLineBreak(w)
    ensures !HasLineBreak(CellValue(p, w))
  {
    ValueKeeps(p, w, CR);
    ValueKeeps(p, w, LF);
    CountHolds(w, CR);
    CountHolds(w, LF);
    CountHolds(CellValue(p, w), CR);
    CountHolds(CellValue(p, w), LF);
  }

  lemma StepIsClean(p: Params, r: Reader, c: char)
    requires Strict(p) && !p.quotedLinebreaks && Clean(r)
    ensures Clean(Step(p, r, c))
  {
    hide CellValue;
    ValueIsUnbroken(p, r.cell);
  }

  lemma {:induction false} ScanIsClean(p: Params, r: Reader, text: string)
    requires Strict(p) && !p.quotedLinebreaks && Clean(r)
    ensures Clean(Scan(p, r, text))
    decreases |text|
  {
    if text == "" {
      ScanNothing(p, r);
    } else {
      hide Scan, Step, Clean;
      var front, c := text[..|text| - 1], text[|text| - 1];
      assert front + [c] == text;
      ScanIsClean(p, r, front);
      ScanLast(p, r, front, c);
      StepIsClean(p, Scan(p, r, front), c);
    }
  }

  /** A reader that accepts no line breaks inside quotes stores none. */
  lemma ParsedIsUnbroken(p: Params, text: string, i: nat)
    requires Strict(p) && !p.quotedLinebreaks && i < |Parsed(p, text)|
    ensures Unbroken(Parsed(p, text)[i])
  {
    hide Scan, CellValue;
    var r := Scan(p, Fresh([]), text);
    ScanIsClean(p, Fresh([]), text);
    ValueIsUnbroken(p, r.cell);
  }

  // ---------- Exactly the legible texts ----------

  lemma {:induction false} NothingIsDropped(p: Params, lines: seq<Line>)
    requires Strict(p)
    ensures KeptTexts(p, lines) == AllTexts(lines)
    decreases |lines|
  {
    if lines != [] {
      NothingIsDropped(p, lines[1..]);
      assert AllTexts(lines) == [Texts(lines[0].cells)] + AllTexts(lines[1..]);
    }
  }

  lemma StorableIsKept(p: Params, text: string, i: nat, c: nat)
    requires Strict(p) && i < |Parsed(p, text)| && c < |Parsed(p, text)[i]|
    ensures Storable(p, Parsed(p, text)[i][c])
  {
    hide Parsed, HasLineBreak;
    if !p.quotedLinebreaks {
      ParsedIsUnbroken(p, text, i);
    }
  }

  /** A text assembled from cells, with any choice of quotes and line breaks, is
      read back exactly when every line has a cell and every cell is legible. */
  lemma {:induction false} ReadExactly(p: Params, lines: seq<Line>)
    requires Strict(p)
    ensures Parsed(p, LinesSource(p, lines)) == AllTexts(lines) <==> AllLegible(p, lines)
  {
    hide Scan, LinesSource, Legible, Storable;
    if AllLegible(p, lines) {
      ReadsBack(p, lines);
      NothingIsDropped(p, lines);
    } else if AllStorable(p, lines) {
      IllegibleIsMisread(p, Fresh([]), lines);
      assert Fresh([]).rows + AllTexts(lines) == AllTexts(lines);
    } else {
      var i, c :| 0 <= i < |lines| && 0 <= c < |lines[i].cells| && !Storable(p, lines[i].cells[c].text);
      hide Parsed;
      if Parsed(p, LinesSource(p, lines)) == AllTexts(lines) {
        StorableIsKept(p, LinesSource(p, lines), i, c);
      }
    }
  }
}
