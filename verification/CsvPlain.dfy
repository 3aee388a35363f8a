/** Text without quotes: the reader is plain splitting. */
module CsvPlain {
  import opened CsvText
  import opened CsvDocument

  /** The pieces between the delimiters; always at least one. */
  function Split(s: string, delimiter: char): (pieces: seq<string>)
    ensures pieces != []
  {
    if s == "" then [""]
    else
      var front, last := Split(s[..|s| - 1], delimiter), s[|s| - 1];
      if last == delimiter then front + [""]
      else front[..|front| - 1] + [front[|front| - 1] + [last]]
  }

  function Without(s: string, c: char): string {
    if s == "" then ""
    else Without(s[..|s| - 1], c) + if s[|s| - 1] == c then "" else [s[|s| - 1]]
  }

  // ---------- Trimming ----------

  /** The white space of the C locale. */
  predicate IsBlank(c: char) {
    c == ' ' || c == '\t' || c == '\n' || c as int == 11 || c as int == 12 || c == '\r'
  }

  /** t is s without the blanks at both ends. */
  ghost predicate IsStripped(s: string, t: string) {
    exists i, j :: Strips(s, i, j) && t == s[i..j]
  }

  lemma {:induction false} LeftTrimmed(s: string) returns (i: nat)
    ensures i <= |s| && TrimLeft(s) == s[i..] && forall k :: 0 <= k < i ==> IsBlank(s[k])
    ensures i < |s| ==> !IsBlank(s[i])
    decreases |s|
  {
    if s != "" && IsSpace(s[0]) {
      i := LeftTrimmed(s[1..]);
      i := i + 1;
      assert s[1..][i - 1..] == s[i..];
      assert forall k :: 1 <= k < i ==> s[1..][k - 1] == s[k];
    } else {
      i := 0;
    }
  }

  lemma {:induction false} RightTrimmed(s: string) returns (j: nat)
    ensures j <= |s| && TrimRight(s) == s[..j] && forall k :: j <= k < |s| ==> IsBlank(s[k])
    ensures j > 0 ==> !IsBlank(s[j - 1])
    decreases |s|
  {
    if s != "" && IsSpace(s[|s| - 1]) {
      j := RightTrimmed(s[..|s| - 1]);
      assert s[..|s| - 1][..j] == s[..j];
    } else {
      j := |s|;
    }
  }

  /** Trimming removes the blanks at both ends, all of them and nothing else. */
  lemma TrimStrips(s: string)
    ensures IsStripped(s, TrimRight(TrimLeft(s)))
  {
    var i := LeftTrimmed(s);
    var t := s[i..];
    var j := RightTrimmed(t);
    assert t[..j] == s[i..i + j];
    assert forall k :: i + j <= k < |s| ==> s[k] == t[k - i];
    if j > 0 {
      assert t[0] == s[i] && t[j - 1] == s[i + j - 1];
    }
    assert Strips(s, i, i + j);
  }

  ghost predicate Strips(s: string, i: int, j: int) {
    && 0 <= i <= j <= |s| && (forall k :: 0 <= k < i || j <= k < |s| ==> IsBlank(s[k]))
    && (i < j ==> !IsBlank(s[i]) && !IsBlank(s[j - 1]))
  }

  lemma StripsWithin(s: string, i: int, j: int, a: int, b: int)
    requires Strips(s, i, j) && Strips(s, a, b) && i < j
    ensures a <= i && j <= b
  {
    hide IsBlank;
    assert !IsBlank(s[i]) && !IsBlank(s[j - 1]);
  }

  /** The blanks at the ends determine what is left. */
  lemma StrippedIsUnique(s: string, t: string, u: string)
    requires IsStripped(s, t) && IsStripped(s, u)
    ensures t == u
  {
    hide IsBlank;
    var i, j :| Strips(s, i, j) && t == s[i..j];
    var a, b :| Strips(s, a, b) && u == s[a..b];
    hide Strips;
    if i < j {
      StripsWithin(s, i, j, a, b);
    }
    if a < b {
      StripsWithin(s, a, b, i, j);
    }
  }

  lemma TrimHolds(p: Params, s: string, c: char)
    requires c in Trimmed(p, s)
    ensures c in s
  {
    var i := LeftTrimmed(s);
    var j := RightTrimmed(s[i..]);
  }

  // ---------- Rows and lines ----------

  /** The cells of a line, trimmed where the reader is told to. */
  function PlainRow(p: Params, line: string): (row: Row)
    ensures row != []
  {
    var pieces := Split(line, p.separator);
    seq(|pieces|, i requires 0 <= i < |pieces| => if p.trim then TrimRight(TrimLeft(pieces[i])) else pieces[i])
  }

  /** Empty lines and comments are left out where the reader is told so. */
  predicate LeftOut(p: Params, line: string) {
    || (p.skipEmptyLines && line == "")
    || (p.skipCommentLines && PlainRow(p, line)[0] != "" && PlainRow(p, line)[0][0] == p.commentPrefix)
  }

  function PlainLines(p: Params, lines: seq<string>): seq<Row> {
    if lines == [] then []
    else
      var last := lines[|lines| - 1];
      PlainLines(p, lines[..|lines| - 1]) + if LeftOut(p, last) then [] else [PlainRow(p, last)]
  }

  /** Lines end with a line feed; the text behind the last one counts as a line
      only if there is some, and is never taken for a comment. */
  function PlainRows(p: Params, text: string): seq<Row> {
    var lines := Split(Without(text, CR), LF);
    var n := |lines| - 1;
    PlainLines(p, lines[..n]) + if lines[n] == "" then [] else [PlainRow(p, lines[n])]
  }

  predicate Simple(p: Params) {
    p.separator != CR && p.separator != LF
  }

  /** The reader in terms of the text read so far. */
  ghost predicate Tracks(p: Params, r: Reader, text: string) {
    var lines := Split(Without(text, CR), LF);
    var n := |lines| - 1;
    && r.rows == PlainLines(p, lines[..n]) && InLine(p, r, lines[n])
    && r.cr == Count(text, CR) && r.lf == Count(text, LF)
  }

  /** The reader within a line. */
  ghost predicate InLine(p: Params, r: Reader, line: string) {
    var cells, row := Split(line, p.separator), PlainRow(p, line);
    && r.row == row[..|row| - 1] && r.cell == cells[|cells| - 1]
    && !r.quoted && QUOTE !in r.cell
  }

  lemma SplitLast(s: string, c: char, delimiter: char)
    ensures var front := Split(s, delimiter);
      Split(s + [c], delimiter) ==
      if c == delimiter then front + [""] else front[..|front| - 1] + [front[|front| - 1] + [c]]
  {
    assert (s + [c])[..|s + [c]| - 1] == s;
  }

  lemma SplitNothing(delimiter: char)
    ensures Split("", delimiter) == [""]
  {
  }

  lemma SplitHoldsText(s: string, delimiter: char)
    ensures s == "" <==> Split(s, delimiter) == [""]
  {
    if s != "" {
      var front := Split(s[..|s| - 1], delimiter);
    }
  }

  /** Without quotes the stored value is the trimmed text. */
  lemma PlainValue(p: Params, cell: string)
    requires QUOTE !in cell
    ensures CellValue(p, cell) == if p.trim then TrimRight(TrimLeft(cell)) else cell
  {
    if QUOTE in Trimmed(p, cell) {
      TrimHolds(p, cell, QUOTE);
    }
  }

  lemma EndsLine(p: Params, r: Reader, line: string)
    requires InLine(p, r, line)
    ensures r.row + [CellValue(p, r.cell)] == PlainRow(p, line)
    ensures r.row == [] && r.cell == "" <==> line == ""
  {
    hide CellValue, TrimLeft, TrimRight, Split;
    PlainValue(p, r.cell);
    SplitHoldsText(line, p.separator);
    var cells := Split(line, p.separator);
    assert |cells| == 1 ==> cells == [cells[0]];
  }

  /** One character of a line that is not its end. */
  lemma StepInLine(p: Params, r: Reader, line: string, c: char)
    requires Simple(p) && InLine(p, r, line) && c != QUOTE && c != CR && c != LF
    ensures var s := Step(p, r, c);
      InLine(p, s, line + [c]) && s.rows == r.rows && s.cr == r.cr && s.lf == r.lf
  {
    hide CellValue, TrimLeft, TrimRight, Split;
    EndsLine(p, r, line);
    SplitLast(line, c, p.separator);
    var cells, cells' := Split(line, p.separator), Split(line + [c], p.separator);
    var row, row' := PlainRow(p, line), PlainRow(p, line + [c]);
    if c == p.separator {
      assert row'[..|row'| - 1] == row;
    } else {
      assert row'[..|row'| - 1] == row[..|row| - 1];
    }
  }

  lemma StepEndsLine(p: Params, r: Reader, line: string)
    requires Simple(p) && InLine(p, r, line)
    ensures var s := Step(p, r, LF);
      && s.rows == r.rows + (if LeftOut(p, line) then [] else [PlainRow(p, line)])
      && InLine(p, s, "") && s.cr == r.cr && s.lf == r.lf + 1
  {
    hide CellValue, TrimLeft, TrimRight;
    EndsLine(p, r, line);
    SplitNothing(p.separator);
    if p.skipEmptyLines && line == "" {
      assert r.rows + [] == r.rows;
    }
  }

  lemma PlainLinesLast(p: Params, lines: seq<string>, line: string)
    ensures PlainLines(p, lines + [line]) == PlainLines(p, lines) + if LeftOut(p, line) then [] else [PlainRow(p, line)]
  {
    assert (lines + [line])[..|lines|] == lines;
  }

  lemma StepTracks(p: Params, r: Reader, text: string, c: char)
    requires Simple(p) && c != QUOTE && Tracks(p, r, text)
    ensures Tracks(p, Step(p, r, c), text + [c])
  {
    hide Split, PlainLines, InLine, LeftOut, PlainRow;
    var t := text + [c];
    assert t[..|t| - 1] == text;
    assert Without(t, CR) == if c == CR then Without(text, CR) else Without(text, CR) + [c];
    assert Count(t, CR) == r.cr + (if c == CR then 1 else 0) && Count(t, LF) == r.lf + if c == LF then 1 else 0;
    var lines := Split(Without(text, CR), LF);
    var n := |lines| - 1;
    if c == CR {
      StepDropsCR(p, r, lines[n]);
    } else {
      hide Step;
      SplitLast(Without(text, CR), c, LF);
      var lines' := Split(Without(t, CR), LF);
      if c == LF {
        StepEndsLine(p, r, lines[n]);
        PlainLinesLast(p, lines[..n], lines[n]);
        assert lines'[..n + 1] == lines[..n] + [lines[n]];
      } else {
        StepInLine(p, r, lines[n], c);
        assert lines'[..n] == lines[..n];
      }
    }
  }

  lemma StepDropsCR(p: Params, r: Reader, line: string)
    requires Simple(p) && InLine(p, r, line)
    ensures var s := Step(p, r, CR);
      InLine(p, s, line) && s.rows == r.rows && s.cr == r.cr + 1 && s.lf == r.lf
  {
    hide CellValue, TrimLeft, TrimRight, Split;
  }

  lemma {:induction false} ScanTracks(p: Params, text: string)
    requires Simple(p) && QUOTE !in text
    ensures Tracks(p, Scan(p, Fresh([]), text), text)
  {
    if text == "" {
      assert Split("", LF) == [""] && Split("", p.separator) == [""];
    } else {
      hide Tracks, Step;
      var n := |text| - 1;
      assert text == text[..n] + [text[n]];
      ScanTracks(p, text[..n]);
      StepTracks(p, Scan(p, Fresh([]), text[..n]), text[..n], text[n]);
    }
  }

  /** On quote-free text, whatever the reader is told, parsing is dropping the
      carriage returns, splitting at line feeds and separators, trimming, and
      leaving out lines. */
  lemma {:induction false} QuoteFreeIsSplitting(p: Params, text: string)
    requires Simple(p) && QUOTE !in text
    ensures Parsed(p, text) == PlainRows(p, text)
    ensures ParsedHasCR(p, text) == (Count(text, CR) > Count(text, LF) / 2)
  {
    hide Scan, InLine, CellValue, PlainLines, Split, PlainRow;
    ScanTracks(p, text);
    var r := Scan(p, Fresh([]), text);
    var lines := Split(Without(text, CR), LF);
    EndsLine(p, r, lines[|lines| - 1]);
  }

  // ---------- Comments in any text ----------

  /** A comment begins with the prefix; its row is not stored. */
  function WithoutComments(p: Params, rows: seq<Row>): seq<Row> {
    if rows == [] then []
    else
      var last := rows[|rows| - 1];
      WithoutComments(p, rows[..|rows| - 1])
      + if last != [] && last[0] != "" && last[0][0] == p.commentPrefix then [] else [last]
  }

  lemma OneMoreRow(p: Params, rows: seq<Row>, row: Row)
    requires row != []
    ensures WithoutComments(p, rows + [row])
         == WithoutComments(p, rows) + if row[0] != "" && row[0][0] == p.commentPrefix then [] else [row]
  {
    assert (rows + [row])[..|rows|] == rows;
    assert WithoutComments(p, rows) + [] == WithoutComments(p, rows);
  }

  function CommentsOut(p: Params, r: Reader): Reader {
    r.(rows := WithoutComments(p, r.rows))
  }

  lemma EndRowSkipsComments(p: Params, off: Params, on: Params, r: Reader)
    requires off == p.(skipCommentLines := false) && on == p.(skipCommentLines := true)
    ensures EndRow(on, CommentsOut(p, r)) == CommentsOut(p, EndRow(off, r))
  {
    SameValue(off, on, r.cell);
    OneMoreRow(p, r.rows, r.row + [CellValue(off, r.cell)]);
    hide CellValue, WithoutComments;
  }

  lemma StepSkipsComments(p: Params, off: Params, on: Params, r: Reader, c: char)
    requires off == p.(skipCommentLines := false) && on == p.(skipCommentLines := true)
    ensures Step(on, CommentsOut(p, r), c) == CommentsOut(p, Step(off, r, c))
  {
    hide CellValue, EndRow, WithoutComments, Step;
    if c == LF && c != p.separator && !(p.quotedLinebreaks && r.quoted) {
      hide CommentsOut;
      EndRowSkipsComments(p, off, on, r.(lf := r.lf + 1));
      LineFeed(on, CommentsOut(p, r));
      LineFeed(off, r);
      CommentsOutKeeps(p, r);
    } else {
      StepKeepsRows(off, on, r, c, WithoutComments(p, r.rows));
    }
  }

  /** Only a line feed has to do with rows. */
  lemma StepKeepsRows(off: Params, on: Params, r: Reader, c: char, rows: seq<Row>)
    requires off == on.(skipCommentLines := false)
    requires c == LF ==> c == on.separator || (on.quotedLinebreaks && r.quoted)
    ensures Step(off, r, c).rows == r.rows
    ensures Step(on, r.(rows := rows), c) == Step(off, r, c).(rows := rows)
  {
    SameValue(off, on, r.cell);
    hide CellValue, EndRow;
  }

  lemma CommentsOutKeeps(p: Params, r: Reader)
    ensures var s := CommentsOut(p, r);
      && s.row == r.row && s.cell == r.cell && s.quoted == r.quoted
      && s.(lf := s.lf + 1) == CommentsOut(p, r.(lf := r.lf + 1))
  {
    hide WithoutComments;
  }

  lemma LineFeed(p: Params, r: Reader)
    requires p.separator != LF && !(p.quotedLinebreaks && r.quoted)
    ensures Step(p, r, LF) ==
      var s := r.(lf := r.lf + 1);
      if p.skipEmptyLines && r.row == [] && r.cell == "" then s else EndRow(p, s)
  {
    hide EndRow;
  }

  lemma SameValue(p: Params, q: Params, cell: string)
    requires p.trim == q.trim && p.autoQuote == q.autoQuote
    ensures CellValue(p, cell) == CellValue(q, cell)
  {
  }

  /** In any text, quoted or not, skipping comments is leaving out the rows that
      begin with the prefix, and nothing else changes. */
  lemma {:induction false} CommentsAreLeftOut(p: Params, text: string)
    ensures Scan(p.(skipCommentLines := true), Fresh([]), text)
         == CommentsOut(p, Scan(p.(skipCommentLines := false), Fresh([]), text))
    decreases |text|
  {
    if text != "" {
      hide Step, CommentsOut;
      var n := |text| - 1;
      CommentsAreLeftOut(p, text[..n]);
      StepSkipsComments(p, p.(skipCommentLines := false), p.(skipCommentLines := true),
                        Scan(p.(skipCommentLines := false), Fresh([]), text[..n]), text[n]);
    }
  }
}
