/** The laws of recording one ledger cell: what reads back, what does not move, and in which order. */
module RecordLaws {
  import opened Text
  import opened Cells
  import opened Rows
  import opened Scan
  import opened ScanEdits
  import opened Section
  import opened Record

  // ---------------------------------------------------------------- the recorded line

  lemma TokenOneLine(value: string)
    requires Token(value)
    ensures OneLine(value)
  {
    Text.Blank('\n');
  }

  lemma RecordedOneLine(raw: string, value: string)
    requires OneLine(raw) && Token(value)
    ensures OneLine(Recorded(raw, value))
  {
    hide Trim, Token;
    TokenOneLine(value);
  }

  lemma RecordInOneLine(line: string, i: nat, value: string)
    requires IsRow(line) && OneLine(line) && i < |RawCells(line)| && Token(value)
    ensures HasCell(line, i) && OneLine(RecordIn(line, i, value))
  {
    hide RawCells, Trim, Token, IsRow, Recorded;
    CellInLine(line, i);
    RecordedOneLine(RawCells(line)[i], value);
  }

  /** The cells of a data row stay a data row when a recordable value takes the place of one. */
  lemma UpdatedData(cells: seq<string>, i: nat, value: string)
    requires IsData(cells) && i < |cells| && Recordable(value)
    ensures IsData(cells[i := value])
  {
    hide Placeholder;
    var cells' := cells[i := value];
    assert cells'[i] == value;
    assert !IsSeparator(cells');
    if i == 0 {
      assert Trim(value) == value by {
        TrimBare(value);
      }
    }
  }

  // ---------------------------------------------------------------- the recorded section

  /** The lines with one row of a section recorded: the section reads back with that cell, every other section
      reads as before, and no heading moved. */
  lemma RowRecorded(lines: seq<string>, name: string, m: nat, i: nat, value: string)
    requires m < |ScanSection(lines, name).rows| && AllOneLine(lines) && Recordable(value)
    requires 1 <= ScanSection(lines, name).rows[m].line <= |lines|
    requires i < |RawCells(lines[ScanSection(lines, name).rows[m].line - 1])|
    ensures var s := ScanSection(lines, name);
            var k := s.rows[m].line - 1;
            IsRow(lines[k]) && HasCell(lines[k], i) && i < |s.rows[m].cells| &&
            var lines' := lines[k := RecordIn(lines[k], i, value)];
            AllOneLine(lines') && SameHeadings(lines, lines') && IsRow(lines'[k]) &&
            |RawCells(lines'[k])| == |RawCells(lines[k])| &&
            ScanSection(lines', name) == s.(rows := s.rows[m := Row(k + 1, s.rows[m].cells[i := value])])
  {
    hide ScanLines, RawCells, IsRow, IsData, RegionOf, Trim, RecordIn, IsHeading, KindOf, Token, ScanKinds, Placeholder;
    var s, r := ScanSection(lines, name), RegionOf(lines, name);
    RowLine(lines, name, m);
    var k := s.rows[m].line - 1;
    var line := lines[k];
    RecordReads(line, i, value);
    RecordInOneLine(line, i, value);
    var line' := RecordIn(line, i, value);
    RowKind(line');
    RowKind(line);
    UpdatedData(s.rows[m].cells, i, value);
    var lines' := lines[k := line'];
    RegionSame(lines, lines', name);
    ScanUpdated(lines, r, k, line', m);
  }

  lemma ScanUpdated(lines: seq<string>, r: Region, k: nat, line': string, m: nat)
    requires r.Region? && r.heading < r.end <= |lines| && r.heading + 1 <= k < r.end
    requires m < |ScanLines(lines, r.heading + 1, r.end).rows|
    requires ScanLines(lines, r.heading + 1, r.end).rows[m].line == k + 1
    requires KindOf(line').Pipe? && IsData(KindOf(line').cells)
    ensures var s := ScanLines(lines, r.heading + 1, r.end);
            ScanLines(lines[k := line'], r.heading + 1, r.end) == s.(rows := s.rows[m := Row(k + 1, KindOf(line').cells)])
  {
    hide ScanKinds, KindOf, IsData;
    var at := r.heading + 1;
    var ks := Kinds(lines[at..r.end]);
    var lines' := lines[k := line'];
    assert lines'[at..r.end] == lines[at..r.end][k - at := line'];
    assert Kinds(lines'[at..r.end]) == ks[k - at := KindOf(line')];
    assert KindOf(line') == Pipe(KindOf(line').cells);
    RowRewritten(ks, at, m, k - at, KindOf(line').cells);
  }

  lemma OtherSections(lines: seq<string>, lines': seq<string>, name: string, other: string, k: nat, line': string)
    requires SameHeadings(lines, lines') && k < |lines| && lines' == lines[k := line'] && !FoldEq(name, other)
    requires RegionOf(lines, name).Region? && RegionOf(lines, name).heading < k < RegionOf(lines, name).end
    ensures ScanSection(lines', other) == ScanSection(lines, other)
  {
    hide RegionOf, ScanSection, SameHeadings, FoldEq;
    if RegionOf(lines, other).Region? {
      RegionsApart(lines, name, other);
    }
    SectionSame(lines, lines', other);
  }

  // ---------------------------------------------------------------- the laws

  /** The row `recordCell` writes to, when it writes. */
  function RowOf(lines: seq<string>, id: string): nat {
    FindRow(ScanSection(lines, LEDGER).rows, id, 0)
  }

  lemma PlaceIs(lines: seq<string>, id: string, column: string)
    requires PlaceOf(lines, id, column).Place?
    ensures var p, s, m := PlaceOf(lines, id, column), ScanSection(lines, LEDGER), RowOf(lines, id);
            RegionOf(lines, LEDGER).Region? && s.header != [] && m < |s.rows| && s.rows[m].line == p.line + 1 &&
            p.cell == ColumnIndex(s.header, column) && Cell(s.rows[m].cells, 0) == id &&
            RegionOf(lines, LEDGER).heading < p.line < RegionOf(lines, LEDGER).end
  {
    hide PlaceOf, ScanSection, ColumnIndex, RegionOf, IsRow, RawCells, IsData, CellsOf, IsHeading, Cell;
    PlaceMeans(lines, id, column);
    RowLine(lines, LEDGER, RowOf(lines, id));
  }

  /** What a recording leaves in the document: the ledger reads back identical except for the named cell of the
      first row with that id, every other section reads back identical, and every other line is the same. */
  lemma RecordReadsBack(doc: string, id: string, column: string, value: string)
    requires Recordable(value) && RecordCell(doc, id, column, value).Ok?
    ensures var lines, p := Lines(doc), PlaceOf(Lines(doc), id, column);
            var s, m := ScanSection(lines, LEDGER), RowOf(lines, id);
            p.Place? && m < |s.rows| && p.cell < |s.rows[m].cells| &&
            var lines' := Lines(RecordCell(doc, id, column, value).doc);
            lines' == RecordLines(lines, p, value) && SameHeadings(lines, lines') &&
            ScanSection(lines', LEDGER) == s.(rows := s.rows[m := Row(s.rows[m].line, s.rows[m].cells[p.cell := value])])
  {
    hide PlaceOf, ScanSection, RowOf, RegionOf, IsRow, RawCells, Recordable, ColumnIndex, RecordIn, SameHeadings, Lines, Unlines;
    var lines, p := Lines(doc), PlaceOf(Lines(doc), id, column);
    PlaceIs(lines, id, column);
    RowRecorded(lines, LEDGER, RowOf(lines, id), p.cell, value);
    LinesUnlines(RecordLines(lines, p, value));
  }

  lemma RecordElsewhere(doc: string, id: string, column: string, value: string, other: string)
    requires Recordable(value) && RecordCell(doc, id, column, value).Ok? && !FoldEq(LEDGER, other)
    ensures ScanSection(Lines(RecordCell(doc, id, column, value).doc), other) == ScanSection(Lines(doc), other)
  {
    hide PlaceOf, ScanSection, RowOf, RegionOf, IsRow, RawCells, Recordable, ColumnIndex, RecordIn, SameHeadings, Lines, FoldEq;
    RecordReadsBack(doc, id, column, value);
    var lines, p := Lines(doc), PlaceOf(Lines(doc), id, column);
    PlaceIs(lines, id, column);
    var lines' := RecordLines(lines, p, value);
    assert lines' == lines[p.line := lines'[p.line]];
    OtherSections(lines, lines', LEDGER, other, p.line, lines'[p.line]);
  }

  lemma FindRowSame(a: seq<Row>, b: seq<Row>, id: string, m: nat)
    requires |a| == |b| && m <= |a|
    requires forall k | 0 <= k < |a| :: Cell(a[k].cells, 0) == Cell(b[k].cells, 0)
    ensures FindRow(a, id, m) == FindRow(b, id, m)
    decreases |a| - m
  {
    hide Cell;
    if m < |a| {
      FindRowSame(a, b, id, m + 1);
    }
  }

  /** Recording a cell that is not the id moves no row: every id and column is found where it was. */
  lemma PlaceKept(lines: seq<string>, p: Place, lines': seq<string>, s: TableScan, s': TableScan, m: nat, value: string,
                  id: string, column: string)
    requires p.Place? && p.line < |lines| == |lines'| && SameHeadings(lines, lines')
    requires s == ScanSection(lines, LEDGER) && s' == ScanSection(lines', LEDGER) && m < |s.rows|
    requires 0 < p.cell < |s.rows[m].cells| && s.rows[m].line == p.line + 1
    requires s' == s.(rows := s.rows[m := Row(s.rows[m].line, s.rows[m].cells[p.cell := value])])
    requires lines' == lines[p.line := lines'[p.line]] && |RawCells(lines'[p.line])| == |RawCells(lines[p.line])|
    ensures PlaceOf(lines', id, column) == PlaceOf(lines, id, column)
  {
    hide PlaceOf, ScanSection, ColumnIndex, RegionOf, IsRow, RawCells, SameHeadings, Trim;
    RegionSame(lines, lines', LEDGER);
    FindRowSame(s.rows, s'.rows, id, 0);
    PlaceMeans(lines, id, column);
    PlaceMeans(lines', id, column);
  }

  lemma PlacesKept(doc: string, id: string, column: string, value: string, id': string, column': string)
    requires Recordable(value) && RecordCell(doc, id, column, value).Ok? && PlaceOf(Lines(doc), id, column).cell > 0
    ensures PlaceOf(Lines(RecordCell(doc, id, column, value).doc), id', column') == PlaceOf(Lines(doc), id', column')
  {
    hide PlaceOf, ScanSection, RegionOf, IsRow, RawCells, CellsOf, Recordable, ColumnIndex, SameHeadings, Lines, Unlines,
         FindRow, RecordIn, RowOf, Token;
    RecordReadsBack(doc, id, column, value);
    var lines, p := Lines(doc), PlaceOf(Lines(doc), id, column);
    var lines' := RecordLines(lines, p, value);
    PlaceIs(lines, id, column);
    TokensOf(value, value);
    RecordReads(lines[p.line], p.cell, value);
    assert lines' == lines[p.line := lines'[p.line]];
    PlaceKept(lines, p, lines', ScanSection(lines, LEDGER), ScanSection(lines', LEDGER), RowOf(lines, id), value, id', column');
  }

  /** Recording the same value again rewrites nothing. */
  lemma RecordAgain(doc: string, id: string, column: string, value: string)
    requires Recordable(value) && RecordCell(doc, id, column, value).Ok? && PlaceOf(Lines(doc), id, column).cell > 0
    ensures var doc' := RecordCell(doc, id, column, value).doc; RecordCell(doc', id, column, value) == Ok(doc')
  {
    hide PlaceOf, ScanSection, RegionOf, IsRow, RawCells, Recordable, ColumnIndex, SameHeadings, Lines, Unlines, FindRow, RowOf, RecordIn;
    var doc' := RecordCell(doc, id, column, value).doc;
    var lines, lines', p := Lines(doc), Lines(doc'), PlaceOf(Lines(doc), id, column);
    RecordReadsBack(doc, id, column, value);
    PlacesKept(doc, id, column, value, id, column);
    TokensOf(value, value);
    RecordTwice(lines[p.line], p.cell, value, value);
    assert RecordLines(lines', p, value) == lines';
    UnlinesLines(doc');
  }

  /** Two recordings at different places commute: the digest and the mode of a row, or two rows' cells. */
  lemma RecordCommutes(doc: string, id: string, column: string, v: string, id': string, column': string, w: string)
    requires Recordable(v) && Recordable(w)
    requires RecordCell(doc, id, column, v).Ok? && RecordCell(doc, id', column', w).Ok?
    requires var p, q := PlaceOf(Lines(doc), id, column), PlaceOf(Lines(doc), id', column');
             p != q && p.cell > 0 && q.cell > 0
    ensures var r, r' := RecordCell(RecordCell(doc, id, column, v).doc, id', column', w),
                         RecordCell(RecordCell(doc, id', column', w).doc, id, column, v);
            r == r' && r.Ok?
  {
    hide PlaceOf, ScanSection, RegionOf, IsRow, RawCells, Recordable, ColumnIndex, SameHeadings, Lines, Unlines, FindRow, RowOf, RecordIn;
    var lines, p, q := Lines(doc), PlaceOf(Lines(doc), id, column), PlaceOf(Lines(doc), id', column');
    RecordReadsBack(doc, id, column, v);
    RecordReadsBack(doc, id', column', w);
    PlacesKept(doc, id, column, v, id', column');
    PlacesKept(doc, id', column', w, id, column);
    var a, b := RecordLines(lines, p, v), RecordLines(lines, q, w);
    TokensOf(v, w);
    LinesSwap(lines, p, v, q, w);
  }

  lemma TokensOf(v: string, w: string)
    requires Recordable(v) && Recordable(w)
    ensures Token(v) && Token(w)
  {}

  lemma LinesSwap(lines: seq<string>, p: Place, v: string, q: Place, w: string)
    requires p.Place? && p.line < |lines| && IsRow(lines[p.line]) && p.cell < |RawCells(lines[p.line])|
    requires q.Place? && q.line < |lines| && IsRow(lines[q.line]) && q.cell < |RawCells(lines[q.line])|
    requires p != q && Token(v) && Token(w)
    ensures var a, b := RecordLines(lines, p, v), RecordLines(lines, q, w);
            IsRow(a[q.line]) && q.cell < |RawCells(a[q.line])| && IsRow(b[p.line]) && p.cell < |RawCells(b[p.line])| &&
            RecordLines(a, q, w) == RecordLines(b, p, v)
  {
    hide IsRow, RawCells, RecordIn, Token, Recorded, Trim, HasCell, Exchange;
    RecordReads(lines[p.line], p.cell, v);
    RecordReads(lines[q.line], q.cell, w);
    if p.line == q.line {
      RecordSwap(lines[p.line], p.cell, v, q.cell, w);
    }
  }

  /** The two cells of a pin: the digest and the mode of a row, whose columns differ. */
  lemma DigestAndModeCommute(doc: string, id: string, digest: string, mode: string)
    requires RecordDigest(doc, id, digest).Ok? && RecordMode(doc, id, mode).Ok?
    requires var header := ScanSection(Lines(doc), LEDGER).header;
             var d, m := ColumnIndex(header, "digest"), ColumnIndex(header, "mode");
             d != m && d > 0 && m > 0
    ensures RecordMode(RecordDigest(doc, id, digest).doc, id, mode) == RecordDigest(RecordMode(doc, id, mode).doc, id, digest)
    ensures RecordMode(RecordDigest(doc, id, digest).doc, id, mode).Ok?
  {
    hide PlaceOf, ScanSection, ColumnIndex, Recordable, Lines, IsDigest, IsMode, RowOf;
    DigestRecordable(digest);
    ModeRecordable(mode);
    PlaceIs(Lines(doc), id, "digest");
    PlaceIs(Lines(doc), id, "mode");
    RecordCommutes(doc, id, "digest", digest, id, "mode", mode);
  }
}
