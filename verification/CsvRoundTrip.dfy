/** Reading back what was written: exactly which tables survive. */
module CsvRoundTrip {
  import opened CsvText
  import opened CsvDocument
  import opened CsvReading
  import opened CsvExact

  /** What the writer does about a cell: quotes around it only where automatic
      quoting is on and the cell holds a separator or a space. */
  function Chosen(p: Params, text: string): Cell {
    Cell(text, p.autoQuote && (p.separator in text || ' ' in text))
  }

  function ChosenRow(p: Params, row: Row): (cells: seq<Cell>)
    ensures |cells| == |row| && forall i :: 0 <= i < |row| ==> cells[i] == Chosen(p, row[i])
  {
    seq(|row|, i requires 0 <= i < |row| => Chosen(p, row[i]))
  }

  /** All line breaks are alike. */
  function ChosenLines(p: Params, hasCR: bool, rows: seq<Row>): (lines: seq<Line>)
    ensures |lines| == |rows| && forall i :: 0 <= i < |rows| ==> lines[i] == Line(ChosenRow(p, rows[i]), hasCR)
  {
    seq(|rows|, i requires 0 <= i < |rows| => Line(ChosenRow(p, rows[i]), hasCR))
  }

  predicate ReadableTable(p: Params, rows: seq<Row>) {
    forall r :: 0 <= r < |rows| ==> ReadableRow(p, rows[r])
  }

  predicate ReadableRow(p: Params, row: Row) {
    row != [] && forall c :: 0 <= c < |row| ==> Legible(p, Chosen(p, row[c]), c == |row| - 1)
  }

  lemma {:induction false} RowIsSource(p: Params, row: Row)
    ensures WrittenCells(p, row) == CellsSource(p, ChosenRow(p, row))
    decreases |row|
  {
    hide Escape;
    assert "\"" == [QUOTE];
    if |row| > 1 {
      RowIsSource(p, row[1..]);
      assert ChosenRow(p, row)[1..] == ChosenRow(p, row[1..]);
    }
  }

  /** What is written is the text assembled from the cells as chosen. */
  lemma {:induction false} WrittenIsSource(p: Params, hasCR: bool, rows: seq<Row>)
    ensures Written(p, hasCR, rows) == LinesSource(p, ChosenLines(p, hasCR, rows))
    decreases |rows|
  {
    assert "\r\n" == [CR, LF] && "\n" == [LF];
    hide WrittenCells, CellsSource, Chosen;
    if rows != [] {
      RowIsSource(p, rows[0]);
      WrittenIsSource(p, hasCR, rows[1..]);
      assert ChosenLines(p, hasCR, rows)[1..] == ChosenLines(p, hasCR, rows[1..]);
    }
  }

  lemma {:induction false} AllBreaksAlike(p: Params, hasCR: bool, rows: seq<Row>)
    ensures CRs(ChosenLines(p, hasCR, rows)) == if hasCR then |rows| else 0
    decreases |rows|
  {
    hide Chosen;
    if rows != [] {
      AllBreaksAlike(p, hasCR, rows[1..]);
      assert ChosenLines(p, hasCR, rows)[1..] == ChosenLines(p, hasCR, rows[1..]);
    }
  }

  lemma ChosenTexts(p: Params, hasCR: bool, rows: seq<Row>)
    ensures AllTexts(ChosenLines(p, hasCR, rows)) == rows
  {
    forall i | 0 <= i < |rows|
      ensures Texts(ChosenRow(p, rows[i])) == rows[i]
    {
    }
  }

  lemma ReadableIsLegible(p: Params, hasCR: bool, rows: seq<Row>)
    ensures ReadableTable(p, rows) <==> AllLegible(p, ChosenLines(p, hasCR, rows))
  {
    hide Legible, Chosen;
    var lines := ChosenLines(p, hasCR, rows);
    forall r | 0 <= r < |rows|
      ensures ReadableRow(p, rows[r]) <==> LegibleRow(p, lines[r].cells)
    {
      var cells := lines[r].cells;
      assert forall c :: 0 <= c < |cells| ==> cells[c] == Chosen(p, rows[r][c]);
    }
  }

  /** For every table: reading back what was written gives the same table exactly
      when every row has a cell and every cell is readable; then the line breaks
      are recognised too, if there is a row. */
  lemma {:induction false} RoundTrip(p: Params, hasCR: bool, rows: seq<Row>)
    requires Strict(p)
    ensures Parsed(p, Written(p, hasCR, rows)) == rows <==> ReadableTable(p, rows)
    ensures ReadableTable(p, rows) ==> ParsedHasCR(p, Written(p, hasCR, rows)) == (hasCR && rows != [])
  {
    hide Parsed, ParsedHasCR, Written, LinesSource, ReadableTable, AllLegible;
    var lines := ChosenLines(p, hasCR, rows);
    WrittenIsSource(p, hasCR, rows);
    ReadableIsLegible(p, hasCR, rows);
    ReadExactly(p, lines);
    AllBreaksAlike(p, hasCR, rows);
    ChosenTexts(p, hasCR, rows);
    if ReadableTable(p, rows) {
      ReadsBack(p, lines);
    }
  }

  /** The usual case: nonempty rows without line breaks, where a cell that
      begins with a quote also holds a separator or a space. */
  lemma {:induction false} RoundTripOfUsualTables(p: Params, hasCR: bool, rows: seq<Row>)
    requires Strict(p) && p.autoQuote
    requires forall r :: 0 <= r < |rows| ==> rows[r] != []
    requires forall r, c :: 0 <= r < |rows| && 0 <= c < |rows[r]| ==>
      var cell := rows[r][c];
      && CR !in cell && LF !in cell
      && (cell != "" && cell[0] == QUOTE ==> p.separator in cell || ' ' in cell)
    ensures Parsed(p, Written(p, hasCR, rows)) == rows
    ensures ParsedHasCR(p, Written(p, hasCR, rows)) == (hasCR && rows != [])
  {
    hide Parsed, ParsedHasCR, Written;
    forall r, c | 0 <= r < |rows| && 0 <= c < |rows[r]|
      ensures Legible(p, Chosen(p, rows[r][c]), c == |rows[r]| - 1)
    {
      var cell := rows[r][c];
      assert forall i :: 0 <= i < |cell| ==> cell[i] in cell;
    }
    RoundTrip(p, hasCR, rows);
  }

  /** Saving and loading on documents. */
  method SaveAndLoad(d: Document, bufferLength: nat) returns (e: Document)
    requires bufferLength > 0 && Strict(d.p)
    ensures fresh(e) && (e.data == d.data <==> ReadableTable(d.p, d.data))
    ensures e.data == d.data ==> e.hasCR == (d.hasCR && d.data != [])
  {
    hide Parsed, Written, ReadableTable;
    var out := d.WriteCsv();
    e := new Document(d.p, false);
    e.ParseCsv(out, |out|, bufferLength);
    RoundTrip(d.p, d.hasCR, d.data);
    assert out[..|out|] == out;
  }
}
