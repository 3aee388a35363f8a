/** The CSV document: the character-level reader, fed one buffer at a time,
    and the writer that quotes selectively. */
module CsvDocument {
  import opened CsvText

  type Row = seq<string>

  const CR := '\r'
  const LF := '\n'

  datatype Params = Params(
    separator: char,
    trim: bool,
    quotedLinebreaks: bool,
    autoQuote: bool,
    skipCommentLines: bool,
    commentPrefix: char,
    skipEmptyLines: bool)

  // ---------- The reader as a state machine over characters ----------

  datatype Reader = Reader(rows: seq<Row>, row: Row, cell: string, quoted: bool, cr: nat, lf: nat)

  function Trimmed(p: Params, s: string): string {
    if p.trim then TrimRight(TrimLeft(s)) else s
  }

  predicate IsQuoted(s: string) {
    |s| >= 2 && s[0] == QUOTE && s[|s| - 1] == QUOTE
  }

  function Unquoted(p: Params, s: string): string {
    if p.autoQuote && IsQuoted(s) then Unescape(s[1..|s| - 1]) else s
  }

  /** The value under which the text collected for a cell is stored. */
  function CellValue(p: Params, s: string): string {
    Unquoted(p, Trimmed(p, s))
  }

  function EndRow(p: Params, r: Reader): Reader {
    var row := r.row + [CellValue(p, r.cell)];
    var comment := p.skipCommentLines && row[0] != "" && row[0][0] == p.commentPrefix;
    Reader(if comment then r.rows else r.rows + [row], [], "", false, r.cr, r.lf)
  }

  function Step(p: Params, r: Reader, c: char): Reader {
    if c == QUOTE then
      r.(quoted := if r.cell == "" || r.cell[0] == QUOTE then !r.quoted else r.quoted, cell := r.cell + [c])
    else if c == p.separator then
      if !r.quoted then r.(row := r.row + [CellValue(p, r.cell)], cell := "")
      else r.(cell := r.cell + [c])
    else if (c == CR || c == LF) && p.quotedLinebreaks && r.quoted then r.(cell := r.cell + [c])
    else if c == CR then r.(cr := r.cr + 1)
    else if c == LF then
      var r' := r.(lf := r.lf + 1);
      if p.skipEmptyLines && r.row == [] && r.cell == "" then r' else EndRow(p, r')
    else r.(cell := r.cell + [c])
  }

  function Scan(p: Params, r: Reader, text: string): Reader {
    if text == "" then r
    else Step(p, Scan(p, r, text[..|text| - 1]), text[|text| - 1])
  }

  /** The rows once the input has ended: a last line needs no line break. */
  function Finished(p: Params, r: Reader): seq<Row> {
    if r.cell != "" || r.row != [] then r.rows + [r.row + [CellValue(p, r.cell)]] else r.rows
  }

  /** More carriage returns than half the line feeds, rounded down: one of two
      lines is not enough, although the comment in the source says so. */
  predicate MostlyCR(r: Reader) {
    r.cr > r.lf / 2
  }

  function Fresh(rows: seq<Row>): Reader {
    Reader(rows, [], "", false, 0, 0)
  }

  function Parsed(p: Params, text: string): seq<Row> {
    Finished(p, Scan(p, Fresh([]), text))
  }

  function ParsedHasCR(p: Params, text: string): bool {
    MostlyCR(Scan(p, Fresh([]), text))
  }

  // ---------- The writer ----------

  predicate NeedsQuotes(p: Params, cell: string) {
    p.autoQuote && (p.separator in cell || ' ' in cell)
  }

  function WrittenCell(p: Params, cell: string): string {
    if NeedsQuotes(p, cell) then [QUOTE] + Escape(cell) + [QUOTE] else cell
  }

  function WrittenCells(p: Params, row: Row): string {
    if row == [] then ""
    else if |row| == 1 then WrittenCell(p, row[0])
    else WrittenCell(p, row[0]) + [p.separator] + WrittenCells(p, row[1..])
  }

  function LineBreak(hasCR: bool): string {
    if hasCR then [CR, LF] else [LF]
  }

  function Written(p: Params, hasCR: bool, rows: seq<Row>): string {
    if rows == [] then ""
    else WrittenCells(p, rows[0]) + LineBreak(hasCR) + Written(p, hasCR, rows[1..])
  }

  // ---------- Composition ----------

  lemma {:induction false} ScanConcat(p: Params, r: Reader, a: string, b: string)
    ensures Scan(p, r, a + b) == Scan(p, Scan(p, r, a), b)
  {
    if b == "" {
      assert a + b == a;
    } else {
      var n := |b| - 1;
      ScanConcat(p, r, a, b[..n]);
      assert (a + b)[..|a + b| - 1] == a + b[..n];
    }
  }

  function Joined(chunks: seq<string>): string {
    if chunks == [] then "" else Joined(chunks[..|chunks| - 1]) + chunks[|chunks| - 1]
  }

  /** The reader fed chunk after chunk, its state carried across. */
  function ScanChunks(p: Params, r: Reader, chunks: seq<string>): Reader {
    if chunks == [] then r
    else Scan(p, ScanChunks(p, r, chunks[..|chunks| - 1]), chunks[|chunks| - 1])
  }

  /** Where a text is cut into buffers makes no difference to the reader. */
  lemma {:induction false} ChunksDoNotMatter(p: Params, r: Reader, chunks: seq<string>)
    ensures ScanChunks(p, r, chunks) == Scan(p, r, Joined(chunks))
  {
    if chunks != [] {
      var n := |chunks| - 1;
      ChunksDoNotMatter(p, r, chunks[..n]);
      ScanConcat(p, r, Joined(chunks[..n]), chunks[n]);
    }
  }

  lemma ScanNext(p: Params, r: Reader, text: string, n: nat)
    requires n < |text|
    ensures Scan(p, r, text[..n + 1]) == Step(p, Scan(p, r, text[..n]), text[n])
  {
    assert text[..n + 1][..n] == text[..n];
  }

  lemma WrittenRest(p: Params, hasCR: bool, rows: seq<Row>, n: nat)
    requires n < |rows|
    ensures Written(p, hasCR, rows[n..])
         == WrittenCells(p, rows[n]) + LineBreak(hasCR) + Written(p, hasCR, rows[n + 1..])
  {
    assert rows[n..][1..] == rows[n + 1..];
  }

  lemma WrittenCellsRest(p: Params, row: Row, n: nat)
    requires n < |row|
    ensures WrittenCells(p, row[n..])
         == WrittenCell(p, row[n]) + (if |row| - n > 1 then [p.separator] else "") + WrittenCells(p, row[n + 1..])
  {
    assert row[n..][1..] == row[n + 1..];
  }

  lemma ScanOne(p: Params, r: Reader, c: char)
    ensures Scan(p, r, [c]) == Step(p, r, c)
  {
    assert [c][..0] == "";
  }

  lemma ScanFront(p: Params, r: Reader, c: char, text: string)
    ensures Scan(p, r, [c] + text) == Scan(p, Step(p, r, c), text)
  {
    ScanOne(p, r, c);
    ScanConcat(p, r, [c], text);
  }

  function InFront(rows: seq<Row>, r: Reader): Reader {
    r.(rows := rows + r.rows)
  }

  lemma StepBehind(p: Params, rows: seq<Row>, r: Reader, c: char)
    ensures Step(p, InFront(rows, r), c) == InFront(rows, Step(p, r, c))
  {
    hide CellValue;
    var row := r.row + [CellValue(p, r.cell)];
    assert rows + r.rows + [row] == rows + (r.rows + [row]);
  }

  lemma FinishedBehind(p: Params, rows: seq<Row>, r: Reader)
    ensures Finished(p, InFront(rows, r)) == rows + Finished(p, r)
  {
    hide CellValue;
  }

  lemma {:induction false} ScanBehind(p: Params, rows: seq<Row>, r: Reader, text: string)
    ensures Scan(p, InFront(rows, r), text) == InFront(rows, Scan(p, r, text))
    decreases |text|
  {
    hide Step, InFront;
    if text != "" {
      ScanBehind(p, rows, r, text[..|text| - 1]);
      StepBehind(p, rows, Scan(p, r, text[..|text| - 1]), text[|text| - 1]);
    }
  }

  /** Rows already in the document stay in front and influence nothing. */
  lemma EarlierRows(p: Params, rows: seq<Row>, text: string)
    ensures var r, s := Scan(p, Fresh(rows), text), Scan(p, Fresh([]), text);
      r == s.(rows := rows + s.rows) && Finished(p, r) == rows + Finished(p, s)
  {
    hide Scan, Finished;
    assert InFront(rows, Fresh([])) == Fresh(rows);
    ScanBehind(p, rows, Fresh([]), text);
    FinishedBehind(p, rows, Scan(p, Fresh([]), text));
  }

  lemma Associate(a: string, b: string, c: string, d: string)
    ensures a + b + c + d == a + (b + c + d) && a + b + "" == a + b
  {
  }

  lemma WrittenNothing(p: Params, hasCR: bool, row: Row, rows: seq<Row>)
    ensures WrittenCells(p, row[|row|..]) == "" && Written(p, hasCR, rows[|rows|..]) == ""
  {
  }

  lemma StartsWith(p: Params, r: Reader, stream: string)
    ensures Scan(p, r, stream[..0]) == r
  {
  }

  lemma EndsWith(p: Params, r: Reader, row: Row)
    requires row == r.row
    ensures Finished(p, r) == if r.cell != "" || row != [] then r.rows + [row + [CellValue(p, r.cell)]] else r.rows
  {
  }

  // ---------- The document ----------

  function Min(a: int, b: int): int {
    if a <= b then a else b
  }

  class Document {
    const p: Params
    var data: seq<Row>
    var hasCR: bool

    constructor (p: Params, hasCR: bool)
      ensures this.p == p && data == [] && this.hasCR == hasCR
    {
      this.p := p;
      this.data := [];
      this.hasCR := hasCR;
    }

    /** Reads `fileLength` characters of the stream, or fewer where it ends
        early, through a buffer of `bufferLength` (64 * 1024 in the source). */
    method ParseCsv(stream: string, fileLength: int, bufferLength: nat)
      requires bufferLength > 0
      modifies this
      ensures var text := stream[..if fileLength < 0 then 0 else Min(fileLength, |stream|)];
        data == old(data) + Parsed(p, text) && hasCR == ParsedHasCR(p, text)
    {
      hide Scan, CellValue, Finished;
      ghost var text := stream[..if fileLength < 0 then 0 else Min(fileLength, |stream|)];
      ghost var start := Fresh(data);
      StartsWith(p, start, stream);
      EarlierRows(p, data, text);
      var row: Row, cell: string, quoted := [], "", false;
      var cr: nat, lf: nat := 0, 0;
      var remaining, at: nat := fileLength, 0;
      while remaining > 0
        invariant at <= |stream| && remaining == fileLength - at
        invariant at == 0 || remaining >= 0
        invariant Reader(data, row, cell, quoted, cr, lf) == Scan(p, start, stream[..at])
        decreases remaining
      {
        var toRead := Min(remaining, bufferLength);
        var buffer := stream[at..Min(at + toRead, |stream|)];
        if |buffer| == 0 {
          break;
        }
        for i := 0 to |buffer|
          invariant at + |buffer| <= |stream|
          invariant Reader(data, row, cell, quoted, cr, lf) == Scan(p, start, stream[..at + i])
        {
          ScanNext(p, start, stream, at + i);
          if buffer[i] == QUOTE {
            if cell == "" || cell[0] == QUOTE {
              quoted := !quoted;
            }
            cell := cell + [buffer[i]];
          } else if buffer[i] == p.separator {
            if !quoted {
              row := row + [CellValue(p, cell)];
              cell := "";
            } else {
              cell := cell + [buffer[i]];
            }
          } else if buffer[i] == CR {
            if p.quotedLinebreaks && quoted {
              cell := cell + [buffer[i]];
            } else {
              cr := cr + 1;
            }
          } else if buffer[i] == LF {
            if p.quotedLinebreaks && quoted {
              cell := cell + [buffer[i]];
            } else {
              lf := lf + 1;
              if p.skipEmptyLines && row == [] && cell == "" {
                // skip empty line
              } else {
                row := row + [CellValue(p, cell)];
                if p.skipCommentLines && row[0] != "" && row[0][0] == p.commentPrefix {
                  // skip comment line
                } else {
                  data := data + [row];
                }
                cell, row, quoted := "", [], false;
              }
            }
          } else {
            cell := cell + [buffer[i]];
          }
        }
        remaining := remaining - |buffer|;
        at := at + |buffer|;
      }
      assert text == stream[..at];
      EndsWith(p, Scan(p, start, text), row);
      if cell != "" || row != [] {
        row := row + [CellValue(p, cell)];
        data := data + [row];
      }
      hasCR := cr > lf / 2;
    }

    method WriteCsv() returns (out: string)
      ensures out == Written(p, hasCR, data)
    {
      hide WrittenCells, Written;
      out := "";
      assert data[0..] == data;
      for r := 0 to |data|
        invariant out + Written(p, hasCR, data[r..]) == Written(p, hasCR, data)
      {
        WrittenRest(p, hasCR, data, r);
        var row := data[r];
        ghost var before, goal := out, out + WrittenCells(p, row);
        assert row[0..] == row;
        for c := 0 to |row|
          invariant out + WrittenCells(p, row[c..]) == goal
        {
          WrittenCellsRest(p, row, c);
          var cell := row[c];
          ghost var start, tail := out, WrittenCells(p, row[c + 1..]);
          if p.autoQuote && (p.separator in cell || ' ' in cell) {
            var str := ReplaceString(cell, [QUOTE], [QUOTE, QUOTE]);
            out := out + [QUOTE] + str + [QUOTE];
          } else {
            out := out + cell;
          }
          assert out == start + WrittenCell(p, cell);
          if |row| - c > 1 {
            out := out + [p.separator];
          }
          Associate(start, WrittenCell(p, cell), if |row| - c > 1 then [p.separator] else "", tail);
        }
        WrittenNothing(p, hasCR, row, data);
        assert out == goal;
        out := out + if hasCR then [CR, LF] else [LF];
        assert out == before + (WrittenCells(p, row) + LineBreak(hasCR));
      }
      WrittenNothing(p, hasCR, [], data);
    }
  }
}
