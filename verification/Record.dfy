/** Recording one cell of the Evidence ledger (internal/plan/plan.go: RecordDigest, RecordMode, recordCell). */
module Record {
  import opened Text
  import opened Cells
  import opened Rows
  import opened Scan
  import opened ScanMeaning
  import opened Section

  datatype Refusal = BadValue | NoSection | NoTable | NoColumn | NoCell | NoRow

  datatype Result = Ok(doc: string) | Refused(why: Refusal)

  /** The first row with this id, or the number of rows when no row has it. */
  function FindRow(rows: seq<Row>, id: string, m: nat): (r: nat)
    requires m <= |rows|
    ensures m <= r <= |rows| && (r < |rows| ==> Cell(rows[r].cells, 0) == id)
    ensures forall k | m <= k < r :: Cell(rows[k].cells, 0) != id
    decreases |rows| - m
  {
    if m == |rows| || Cell(rows[m].cells, 0) == id then m else FindRow(rows, id, m + 1)
  }

  // ---------------------------------------------------------------- the rows of a scan are rows of the text

  /** A row that was read is a line of the section whose cells can be cut and spliced. */
  lemma RowLine(lines: seq<string>, name: string, m: nat)
    requires m < |ScanSection(lines, name).rows|
    ensures var row, r := ScanSection(lines, name).rows[m], RegionOf(lines, name);
            r.Region? && r.heading + 2 <= row.line <= r.end && row.cells == CellsOf(lines[row.line - 1]) &&
            IsRow(lines[row.line - 1]) && IsData(row.cells) && !IsHeading(lines[row.line - 1])
  {
    hide ScanLines, IsData, CellsOf, IsHeading, IsRow, KindOf, RegionOf;
    var r := RegionOf(lines, name);
    RowsAreRead(lines, r.heading + 1, r.end, m);
    var k := ScanLines(lines, r.heading + 1, r.end).rows[m].line - 1;
    assert Kinds(lines[r.heading + 1..r.end])[k - r.heading - 1] == KindOf(lines[k]);
    DataLine(lines[k]);
  }

  lemma DataLine(line: string)
    requires KindOf(line).Pipe? && IsData(CellsOf(line))
    ensures IsRow(line) && !IsHeading(line) && KindOf(line).cells == CellsOf(line)
  {
    hide IsSeparator, Placeholder;
    assert Trim(line)[0] == '|';
    if Trim(line) == "|" {
      LonePipe(line);
    }
  }

  lemma LonePipe(line: string)
    requires Trim(line) == "|"
    ensures !IsData(CellsOf(line))
  {
    var t := Trim(line);
    assert t[0..] == t;
    assert TrimSuffix(t, "|") == "" && Inner(t) == "";
    assert RawCells(line) == [""] && CellsOf(line) == [""];
    assert Cell([""], 0) == "";
  }

  lemma RowKind(line: string)
    requires IsRow(line)
    ensures KindOf(line) == Pipe(CellsOf(line)) && !IsHeading(line)
  {
    hide CellsOf;
    assert Trim(line)[0] == '|';
  }

  // ---------------------------------------------------------------- recordCell

  /** The ledger row `recordCell` writes, and the cell of it, or why there is none. */
  datatype Place = Place(line: nat, cell: nat) | Nowhere(why: Refusal)

  function PlaceIn(lines: seq<string>, line: int, i: nat): (p: Place)
    requires 0 <= line < |lines| && IsRow(lines[line])
    ensures p.Place? ==> p.line < |lines| && IsRow(lines[p.line]) && p.cell < |RawCells(lines[p.line])|
  {
    if i >= |RawCells(lines[line])| then Nowhere(NoCell) else Place(line, i)
  }

  lemma LedgerRowIsRow(lines: seq<string>, m: nat)
    requires m < |ScanSection(lines, LEDGER).rows|
    ensures 1 <= ScanSection(lines, LEDGER).rows[m].line <= |lines| && IsRow(lines[ScanSection(lines, LEDGER).rows[m].line - 1])
  {
    hide ScanSection, RegionOf, IsRow, IsData, CellsOf, IsHeading;
    RowLine(lines, LEDGER, m);
  }

  function PlaceOf(lines: seq<string>, id: string, column: string): (p: Place)
    ensures p.Place? ==> p.line < |lines| && IsRow(lines[p.line]) && p.cell < |RawCells(lines[p.line])|
  {
    hide ScanSection, RegionOf, IsRow, RawCells, ColumnIndex, FindRow;
    if RegionOf(lines, LEDGER) == Missing then Nowhere(NoSection)
    else
      var scan := ScanSection(lines, LEDGER);
      if scan.header == [] then Nowhere(NoTable)
      else
        var i := ColumnIndex(scan.header, column);
        if i < 0 then Nowhere(NoColumn)
        else
          var m := FindRow(scan.rows, id, 0);
          if m == |scan.rows| then Nowhere(NoRow)
          else
            LedgerRowIsRow(lines, m);
            PlaceIn(lines, scan.rows[m].line - 1, i)
  }

  /** What each refusal of `PlaceOf` and its one answer are decided by. */
  lemma PlaceMeans(lines: seq<string>, id: string, column: string)
    ensures var p, scan := PlaceOf(lines, id, column), ScanSection(lines, LEDGER);
            var i, m := ColumnIndex(scan.header, column), FindRow(scan.rows, id, 0);
            if RegionOf(lines, LEDGER) == Missing then p == Nowhere(NoSection)
            else if scan.header == [] then p == Nowhere(NoTable)
            else if i < 0 then p == Nowhere(NoColumn)
            else if m == |scan.rows| then p == Nowhere(NoRow)
            else
              1 <= scan.rows[m].line <= |lines| && IsRow(lines[scan.rows[m].line - 1]) &&
              p == if i >= |RawCells(lines[scan.rows[m].line - 1])| then Nowhere(NoCell) else Place(scan.rows[m].line - 1, i)
  {
    hide ScanSection, ColumnIndex, FindRow, RegionOf, IsRow, RawCells, ColumnMatches, Cell, Trim, Heads, CellsOf;
    var scan := ScanSection(lines, LEDGER);
    var m := FindRow(scan.rows, id, 0);
    if m < |scan.rows| {
      LedgerRowIsRow(lines, m);
    }
  }

  function RecordLines(lines: seq<string>, p: Place, value: string): (r: seq<string>)
    requires p.Place? && p.line < |lines| && IsRow(lines[p.line]) && p.cell < |RawCells(lines[p.line])|
    ensures |r| == |lines|
  {
    CellInLine(lines[p.line], p.cell);
    lines[p.line := RecordIn(lines[p.line], p.cell, value)]
  }

  function RecordCell(doc: string, id: string, column: string, value: string): Result {
    var lines := Lines(doc);
    var p := PlaceOf(lines, id, column);
    if p.Nowhere? then Refused(p.why) else Ok(Unlines(RecordLines(lines, p, value)))
  }

  /** `digestRe`. */
  predicate IsDigest(v: string) {
    |v| == 71 && v[..7] == "sha256:" && forall i | 7 <= i < 71 :: '0' <= v[i] <= '9' || 'a' <= v[i] <= 'f'
  }

  /** `modeRe`. */
  predicate IsMode(v: string) {
    v == "host" || v == "sandbox"
  }

  /** A digest is the name of the hash and 64 small hexadecimal digits; a mode is one of two words; and nothing else is
      ever recorded. */
  lemma ValuesAre(v: string, doc: string, id: string)
    ensures IsDigest(v) <==> exists hex :: v == "sha256:" + hex && |hex| == 64 && forall c | c in hex :: c in "0123456789abcdef"
    ensures IsMode(v) <==> v == "host" || v == "sandbox"
    ensures RecordDigest(doc, id, v) == if IsDigest(v) then RecordCell(doc, id, "digest", v) else Refused(BadValue)
    ensures RecordMode(doc, id, v) == if v == "host" || v == "sandbox" then RecordCell(doc, id, "mode", v) else Refused(BadValue)
  {
    hide RecordCell;
    if IsDigest(v) {
      assert v == "sha256:" + v[7..] && forall c | c in v[7..] :: c in "0123456789abcdef";
    }
    if hex :| v == "sha256:" + hex && |hex| == 64 && forall c | c in hex :: c in "0123456789abcdef" {
      assert v[..7] == "sha256:";
      forall i | 7 <= i < 71 ensures '0' <= v[i] <= '9' || 'a' <= v[i] <= 'f' {
        assert v[i] == hex[i - 7] && v[i] in "0123456789abcdef";
      }
    }
  }

  function RecordDigest(doc: string, id: string, digest: string): Result {
    if !IsDigest(digest) then Refused(BadValue) else RecordCell(doc, id, "digest", digest)
  }

  function RecordMode(doc: string, id: string, mode: string): Result {
    if !IsMode(mode) then Refused(BadValue) else RecordCell(doc, id, "mode", mode)
  }

  /** A value the recorder accepts: it reads back as it stands, and can make a row neither a separator nor a
      placeholder. */
  predicate Recordable(v: string) {
    Token(v) && !Placeholder(v) && exists i | 0 <= i < |v| :: v[i] !in "-: "
  }

  lemma DigestRecordable(v: string)
    requires IsDigest(v)
    ensures Recordable(v)
  {
    assert v[..7][0] == v[0] && v[..7][1] == v[1] && v[..7][2] == v[2] && v[..7][3] == v[3] && v[..7][4] == v[4];
    assert v[..7][5] == v[5] && v[..7][6] == v[6];
    assert v[0] !in "-: ";
    forall i | 0 <= i < |v| ensures v[i] != '|' && v[i] != '\\' && !IsSpace(v[i]) {
      Printable(v[i]);
    }
    assert |Fold(v)| == 71;
  }

  lemma ModeRecordable(v: string)
    requires IsMode(v)
    ensures Recordable(v)
  {
    forall i | 0 <= i < |v| ensures v[i] != '|' && v[i] != '\\' && !IsSpace(v[i]) {
      Printable(v[i]);
    }
    assert v[0] !in "-: ";
    assert Fold(v)[0] == FoldChar(v[0]);
    assert Fold(v)[0] in "hs";
  }

  lemma SpanOfRow(line: string, i: nat, span: Span)
    requires IsRow(line) && IsSpanOf(line, i, span)
    ensures span.NoSpan? <==> i >= |RawCells(line)|
    ensures span.Span? ==> HasCell(line, i) && span.start == CellStart(line, i) && span.end == span.start + |RawCells(line)[i]|
    ensures span.Span? ==> span.start <= span.end <= |line| && line[span.start..span.end] == RawCells(line)[i]
  {
    hide RawCells, CellStart;
    assert Trim(line) != "";
    if i < |RawCells(line)| {
      CellInLine(line, i);
    }
  }

  /** A splice of line `k` between columns `s` and `e` is a splice of the document. */
  lemma SpliceInDoc(doc: string, lines: seq<string>, k: nat, at: nat, s: nat, e: nat, a: nat, b: nat, text: string, line: string)
    requires lines != [] && k < |lines| && doc == Unlines(lines) && at == PartStart(lines, "\n", k)
    requires s <= e <= |lines[k]| && a == at + s && b == at + e
    requires line == lines[k][..s] + text + lines[k][e..]
    ensures b <= |doc| && doc[a..b] == lines[k][s..e]
    ensures Unlines(lines[k := line]) == doc[..a] + text + doc[b..]
  {
    var end := at + |lines[k]|;
    DocParts(doc, lines, k, at, end, line);
    SpliceParts(doc, doc[..at], lines[k], doc[end..], s, e, a, b, text);
  }

  lemma DocParts(doc: string, lines: seq<string>, k: nat, at: nat, end: nat, line: string)
    requires lines != [] && k < |lines| && doc == Unlines(lines)
    requires at == PartStart(lines, "\n", k) && end == at + |lines[k]|
    ensures end <= |doc| && |doc[..at]| == at && doc == doc[..at] + lines[k] + doc[end..]
    ensures Unlines(lines[k := line]) == doc[..at] + line + doc[end..]
  {
    JoinUpdate(lines, "\n", k, line);
    Resplice(doc, at, end);
  }

  lemma SpliceParts(doc: string, pre: string, line: string, post: string, s: nat, e: nat, a: nat, b: nat, text: string)
    requires doc == pre + line + post && s <= e <= |line| && a == |pre| + s && b == |pre| + e
    ensures b <= |doc| && doc[a..b] == line[s..e]
    ensures doc[..a] + text + doc[b..] == pre + (line[..s] + text + line[e..]) + post
  {
    MidSlice(pre, line, post, s, e - s);
    MidSplice(pre, line, post, s, e - s, text);
  }

  /** The three shapes of the splice: into no width, into blanks, over content. */
  lemma SpliceShape(doc: string, a: nat, b: nat, raw: string, value: string)
    requires a <= b <= |doc| && doc[a..b] == raw
    ensures var all := doc[..a] + Recorded(raw, value) + doc[b..];
            (raw == "" ==> all == doc[..a] + value + doc[b..]) &&
            (raw != "" && Trim(raw) == "" ==> all == doc[..a] + " " + value + " " + doc[b..])
  {
    hide Trim;
  }

  lemma SpliceContent(doc: string, a: nat, b: nat, raw: string, value: string, first: nat, last: nat)
    requires a <= b <= |doc| && doc[a..b] == raw && Trim(raw) != ""
    requires first == a + Lead(raw) && last == first + |Trim(raw)|
    ensures last <= |doc| && doc[..a] + Recorded(raw, value) + doc[b..] == doc[..first] + value + doc[last..]
  {
    hide IsSpace, Trim, Lead, Last;
    var l, n := Lead(raw), Last(raw);
    TrimLength(raw);
    SpliceMiddle(doc, a, b, raw, value, l, n);
  }

  lemma TrimLength(raw: string)
    requires Trim(raw) != ""
    ensures Lead(raw) < Last(raw) && |Trim(raw)| == Last(raw) - Lead(raw)
  {
    hide IsSpace, Spaces;
  }

  lemma SpliceMiddle(doc: string, a: nat, b: nat, raw: string, value: string, l: nat, n: nat)
    requires a <= b <= |doc| && doc[a..b] == raw && l <= n <= |raw|
    ensures a + n <= |doc| && doc[..a] + (raw[..l] + value + raw[n..]) + doc[b..] == doc[..a + l] + value + doc[a + n..]
  {
    Resplice(doc, a, b);
    MidSplice(doc[..a], raw, doc[b..], l, n - l, value);
  }

  /** The splice of `recordCell`: the offsets of one cell, and the document with its content exchanged. */
  method RecordInLine(doc: string, lines: seq<string>, lineIndex: nat, lineStart: nat, iColumn: nat, value: string)
    returns (r: Result)
    requires lines == Lines(doc) && lineIndex < |lines| && lineStart == PartStart(lines, "\n", lineIndex)
    requires IsRow(lines[lineIndex]) && Token(value)
    ensures r == if iColumn < |RawCells(lines[lineIndex])|
                 then Ok(Unlines(RecordLines(lines, Place(lineIndex, iColumn), value))) else Refused(NoCell)
  {
    hide IsRow, RawCells, Token, CellStart, Trim, Recorded, IsSpanOf, Unlines, Lines, PartStart, HasCell, IndexFrom, LeadFrom, LastTo;
    var line := lines[lineIndex];
    var span := CellSpan(line, iColumn);
    SpanOfRow(line, iColumn, span);
    if span.NoSpan? {
      return Refused(NoCell);
    }
    var raw := line[span.start..span.end];
    var a, b := lineStart + span.start, lineStart + span.end;
    UnlinesLines(doc);
    SpliceInDoc(doc, lines, lineIndex, lineStart, span.start, span.end, a, b, Recorded(raw, value), RecordIn(line, iColumn, value));
    SpliceShape(doc, a, b, raw, value);
    var content := Trim(raw);
    if content == "" {
      if raw == "" {
        return Ok(doc[..a] + value + doc[b..]);
      }
      return Ok(doc[..a] + " " + value + " " + doc[b..]);
    }
    TrimIndex(raw);
    var first := a + Index(raw, content);
    SpliceContent(doc, a, b, raw, value, first, first + |content|);
    return Ok(doc[..first] + value + doc[first + |content|..]);
  }

  lemma SectionScan(lines: seq<string>, name: string, r: Region)
    requires r.Region? && r == RegionOf(lines, name)
    ensures ScanSection(lines, name) == ScanLines(lines, r.heading + 1, r.end)
  {
    hide RegionOf, ScanLines;
  }

  lemma FirstStart(lines: seq<string>)
    ensures PartStart(lines, "\n", 0) == 0
  {}

  lemma StartNext(lines: seq<string>, k: nat)
    requires k < |lines|
    ensures PartStart(lines, "\n", k + 1) == PartStart(lines, "\n", k) + |lines[k]| + 1
  {}

  /** The offset each line of the document starts at. */
  method LineStarts(lines: seq<string>) returns (starts: seq<nat>)
    requires lines != []
    ensures |starts| == |lines| && forall k | 0 <= k < |lines| :: starts[k] == PartStart(lines, "\n", k)
  {
    hide PartStart;
    starts := [0];
    FirstStart(lines);
    for i := 1 to |lines|
      invariant |starts| == i
      invariant forall k | 0 <= k < i :: starts[k] == PartStart(lines, "\n", k)
    {
      StartNext(lines, i - 1);
      starts := starts + [starts[i - 1] + |lines[i - 1]| + 1];
    }
  }

  /** The first row with the id. */
  method RowWithId(rows: seq<Row>, id: string) returns (m: nat)
    ensures m == FindRow(rows, id, 0)
  {
    hide Cell;
    for i := 0 to |rows|
      invariant FindRow(rows, id, i) == FindRow(rows, id, 0)
    {
      if Cell(rows[i].cells, 0) == id {
        return i;
      }
    }
    return |rows|;
  }

  /** What `RecordCell` answers, case by case. */
  lemma RecordCellMeans(doc: string, id: string, column: string, value: string)
    ensures var lines, r := Lines(doc), RecordCell(doc, id, column, value);
            var scan := ScanSection(lines, LEDGER);
            var i, m := ColumnIndex(scan.header, column), FindRow(scan.rows, id, 0);
            if RegionOf(lines, LEDGER) == Missing then r == Refused(NoSection)
            else if scan.header == [] then r == Refused(NoTable)
            else if i < 0 then r == Refused(NoColumn)
            else if m == |scan.rows| then r == Refused(NoRow)
            else
              var at := scan.rows[m].line - 1;
              0 <= at < |lines| && IsRow(lines[at]) &&
              r == if i >= |RawCells(lines[at])| then Refused(NoCell) else Ok(Unlines(RecordLines(lines, Place(at, i), value)))
  {
    hide Lines, Unlines, ScanSection, PlaceOf, IsRow, RawCells, ColumnIndex, RecordLines, RegionOf, FindRow;
    PlaceMeans(Lines(doc), id, column);
  }

  /** `recordCell`. */
  method RecordOneCell(doc: string, id: string, column: string, value: string) returns (r: Result)
    requires Token(value)
    ensures r == RecordCell(doc, id, column, value)
  {
    hide RecordCell, Lines, Unlines, ScanSection, PartStart, ScanLines, IsRow, RawCells, Token, ColumnIndex, RecordLines, RegionOf, IsData, CellsOf, IsHeading, FindRow, Cell, ColumnMatches, HasCell, RecordIn, Heads, FirstHeads, NextHeading, Interrupted, Trim;
    RecordCellMeans(doc, id, column, value);
    var lines := Lines(doc);
    var region := SectionRegion(lines, LEDGER);
    if region == Missing {
      return Refused(NoSection);
    }
    var scan := ScanTable(lines, region.heading + 1, region.end);
    SectionScan(lines, LEDGER, region);
    if scan.header == [] {
      return Refused(NoTable);
    }
    var iColumn := ColumnIndex(scan.header, column);
    if iColumn < 0 {
      return Refused(NoColumn);
    }
    var lineStarts := LineStarts(lines);
    var m := RowWithId(scan.rows, id);
    if m < |scan.rows| {
      LedgerRowIsRow(lines, m);
      var lineIndex := scan.rows[m].line - 1;
      r := RecordInLine(doc, lines, lineIndex, lineStarts[lineIndex], iColumn, value);
      return;
    }
    return Refused(NoRow);
  }
}
