/** What recording any number of pins leaves in the ledger, cell by cell. */
module Pins {
  import opened Text
  import opened Cells
  import opened Rows
  import opened Scan
  import opened Section
  import opened Record
  import opened RecordLaws
  import opened Recording

  // ---------------------------------------------------------------- the ledger a run may record in

  /** The columns an admission reads, besides the pin's own two. */
  const READ := ["admit", "normalize", "mutate", "expect"]

  /** The Digest column and, if there is one, the Mode column are columns of their own: neither the first, which
      holds the id, nor the last, which holds the label, nor one an admission reads under another name. */
  predicate PinColumns(header: seq<string>) {
    var d, m := ColumnIndex(header, "digest"), ColumnIndex(header, "mode");
    && 0 < d < |header| - 1 && m != d && (m < 0 || 0 < m < |header| - 1)
    && forall i | 0 <= i < |READ| :: ColumnIndex(header, READ[i]) != d && (m >= 0 ==> ColumnIndex(header, READ[i]) != m)
  }

  function IdOf(r: Row): string {
    Cell(r.cells, 0)
  }

  predicate UniqueIds(rows: seq<Row>) {
    forall i, j | 0 <= i < j < |rows| :: IdOf(rows[i]) != IdOf(rows[j])
  }

  // ---------------------------------------------------------------- the cells a recording leaves

  function PinRow(cells: seq<string>, header: seq<string>, pin: Pin, mode: string): (r: seq<string>)
    ensures |r| == |cells|
  {
    var d, m := ColumnIndex(header, "digest"), ColumnIndex(header, "mode");
    var pinned := if 0 <= d < |cells| then cells[d := pin.digest] else cells;
    if 0 <= m < |cells| then pinned[m := mode] else pinned
  }

  /** A row after the pins: the last one that names it is the one it carries. */
  function PinAll(cells: seq<string>, header: seq<string>, pins: seq<Pin>, mode: string): (r: seq<string>)
    ensures |r| == |cells|
  {
    if pins == [] then cells
    else
      var pin := pins[|pins| - 1];
      var before := PinAll(cells, header, pins[..|pins| - 1], mode);
      if pin.id == Cell(cells, 0) then PinRow(before, header, pin, mode) else before
  }

  ghost predicate ScanPinned(s: TableScan, s': TableScan, pins: seq<Pin>, mode: string) {
    && s'.header == s.header && |s'.rows| == |s.rows|
    && forall i | 0 <= i < |s.rows| :: s'.rows[i] == Row(s.rows[i].line, PinAll(s.rows[i].cells, s.header, pins, mode))
  }

  lemma {:induction false} PinAllShape(cells: seq<string>, header: seq<string>, pins: seq<Pin>, mode: string)
    requires PinColumns(header)
    ensures Cell(PinAll(cells, header, pins, mode), 0) == Cell(cells, 0)
  {
    hide ColumnIndex, Trim;
    if pins != [] {
      PinAllShape(cells, header, pins[..|pins| - 1], mode);
    }
  }

  /** A row no pin names is as it was. */
  lemma {:induction false} Unpinned(cells: seq<string>, header: seq<string>, pins: seq<Pin>, mode: string)
    requires forall k | 0 <= k < |pins| :: pins[k].id != Cell(cells, 0)
    ensures PinAll(cells, header, pins, mode) == cells
  {
    hide ColumnIndex, Cell;
    if pins != [] {
      Unpinned(cells, header, pins[..|pins| - 1], mode);
    }
  }

  /** A row the pins name carries the digest of the last pin that names it. */
  lemma {:induction false} PinnedBy(cells: seq<string>, header: seq<string>, pins: seq<Pin>, mode: string, k: nat)
    requires k < |pins| && pins[k].id == Cell(cells, 0)
    requires forall j | k < j < |pins| :: pins[j].id != Cell(cells, 0)
    ensures PinAll(cells, header, pins, mode) == PinRow(PinAll(cells, header, pins[..k], mode), header, pins[k], mode)
    decreases |pins|
  {
    hide ColumnIndex, Cell, PinRow;
    var n := |pins| - 1;
    if k < n {
      assert pins[..n][..k] == pins[..k];
      PinnedBy(cells, header, pins[..n], mode, k);
    }
  }

  // ---------------------------------------------------------------- one pin

  lemma FindUnique(rows: seq<Row>, id: string, i: nat)
    requires UniqueIds(rows) && i < |rows| && IdOf(rows[i]) == id
    ensures FindRow(rows, id, 0) == i
  {
    hide Cell;
  }

  /** One cell recorded, as a scan. */
  lemma OneRecorded(doc: string, id: string, column: string, value: string, i: nat)
    requires Recordable(value)
    requires var s := ScanSection(Lines(doc), LEDGER);
             i < |s.rows| && UniqueIds(s.rows) && IdOf(s.rows[i]) == id && s.header != [] &&
             0 <= ColumnIndex(s.header, column) < |s.rows[i].cells|
    ensures var s, r := ScanSection(Lines(doc), LEDGER), RecordCell(doc, id, column, value);
            r.Ok? && ScanSection(Lines(r.doc), LEDGER) ==
            s.(rows := s.rows[i := Row(s.rows[i].line, s.rows[i].cells[ColumnIndex(s.header, column) := value])])
  {
    hide ScanSection, Lines, Recordable, ColumnIndex, PlaceOf, RegionOf, IsRow, RawCells, RecordLines, Unlines, Cell, UniqueIds, IdOf, FindRow, SameHeadings, RecordIn, ColumnMatches;
    var lines := Lines(doc);
    var s := ScanSection(lines, LEDGER);
    assert IdOf(s.rows[i]) == Cell(s.rows[i].cells, 0) by { IdIs(s.rows[i]); }
    FindUnique(s.rows, id, i);
    PlaceMeans(lines, id, column);
    LedgerLine(lines, i);
    RecordReadsBack(doc, id, column, value);
    PlaceIs(lines, id, column);
  }

  lemma IdIs(r: Row)
    ensures IdOf(r) == Cell(r.cells, 0)
  {}

  /** A ledger row is a line with as many raw cells as it has cells. */
  lemma LedgerLine(lines: seq<string>, i: nat)
    requires i < |ScanSection(lines, LEDGER).rows|
    ensures var row := ScanSection(lines, LEDGER).rows[i];
            RegionOf(lines, LEDGER).Region? && 1 <= row.line <= |lines| && |RawCells(lines[row.line - 1])| == |row.cells|
  {
    hide ScanSection, RegionOf, IsRow, IsData, IsHeading, Trim, RawCells;
    RowLine(lines, LEDGER, i);
  }

  /** What the digest and the mode of a row ask of each other. */
  lemma PinRowIs(cells: seq<string>, header: seq<string>, pin: Pin, mode: string)
    requires PinColumns(header) && |cells| == |header|
    ensures var d, m := ColumnIndex(header, "digest"), ColumnIndex(header, "mode");
            0 < d < |cells| && m < |cells| &&
            PinRow(cells, header, pin, mode) ==
            (if m < 0 then cells[d := pin.digest] else cells[d := pin.digest][m := mode]) &&
            Cell(cells[d := pin.digest], 0) == Cell(cells, 0)
  {
    hide ColumnIndex, Trim;
  }

  /** One pin recorded in a row as wide as the header: its digest and its mode, and nothing else. */
  lemma PinRecorded(doc: string, pin: Pin, mode: string, i: nat)
    requires IsDigest(pin.digest) && IsMode(mode)
    requires var s := ScanSection(Lines(doc), LEDGER);
             PinColumns(s.header) && (ColumnIndex(s.header, "mode") < 0 ==> mode == HOST) && i < |s.rows| &&
             UniqueIds(s.rows) && IdOf(s.rows[i]) == pin.id && |s.rows[i].cells| == |s.header|
    ensures var s, r := ScanSection(Lines(doc), LEDGER), RecordPin(doc, pin, mode);
            r.Ok? && ScanSection(Lines(r.doc), LEDGER) ==
            s.(rows := s.rows[i := Row(s.rows[i].line, PinRow(s.rows[i].cells, s.header, pin, mode))])
  {
    hide ScanSection, Lines, Recordable, ColumnIndex, RecordCell, IsDigest, IsMode, UniqueIds, Cell, PinColumns, PinRow;
    var s := ScanSection(Lines(doc), LEDGER);
    DigestRecordable(pin.digest);
    ModeRecordable(mode);
    PinRowIs(s.rows[i].cells, s.header, pin, mode);
    HeaderIs(s.header);
    OneRecorded(doc, pin.id, "digest", pin.digest, i);
    var updated := RecordDigest(doc, pin.id, pin.digest).doc;
    var s' := ScanSection(Lines(updated), LEDGER);
    UniqueKept(s.rows, s'.rows, i);
    if ColumnIndex(s.header, "mode") < 0 {
      NoModeColumn(updated, pin.id, mode);
    } else {
      OneRecorded(updated, pin.id, "mode", mode, i);
      var d, m := ColumnIndex(s.header, "digest"), ColumnIndex(s.header, "mode");
      SameRow(s, s', i, d, m, pin.digest, mode);
    }
  }

  lemma HeaderIs(header: seq<string>)
    requires PinColumns(header)
    ensures header != []
  {
    hide ColumnIndex;
  }

  lemma SameRow(s: TableScan, s': TableScan, i: nat, d: nat, m: nat, digest: string, mode: string)
    requires i < |s.rows| && d < |s.rows[i].cells| && m < |s.rows[i].cells|
    requires s' == s.(rows := s.rows[i := Row(s.rows[i].line, s.rows[i].cells[d := digest])])
    ensures s'.(rows := s'.rows[i := Row(s'.rows[i].line, s'.rows[i].cells[m := mode])]) ==
            s.(rows := s.rows[i := Row(s.rows[i].line, s.rows[i].cells[d := digest][m := mode])])
  {}

  lemma UniqueKept(rows: seq<Row>, rows': seq<Row>, i: nat)
    requires UniqueIds(rows) && i < |rows| && |rows'| == |rows| && IdOf(rows'[i]) == IdOf(rows[i])
    requires forall k | 0 <= k < |rows| && k != i :: rows'[k] == rows[k]
    ensures UniqueIds(rows')
  {
    hide IdOf;
  }

  lemma NoModeColumn(doc: string, id: string, mode: string)
    requires IsMode(mode) && ScanSection(Lines(doc), LEDGER).header != []
    requires ColumnIndex(ScanSection(Lines(doc), LEDGER).header, "mode") < 0 && |ScanSection(Lines(doc), LEDGER).rows| > 0
    ensures RecordMode(doc, id, mode) == Refused(NoColumn)
  {
    hide ScanSection, Lines, ColumnIndex, PlaceOf, RegionOf, IsRow, RawCells, RecordLines, Unlines, IsMode;
    PlaceMeans(Lines(doc), id, "mode");
    LedgerLine(Lines(doc), 0);
  }

  // ---------------------------------------------------------------- all pins

  /** The pins name rows as wide as the header, each with a digest. */
  ghost predicate PinsFit(s: TableScan, pins: seq<Pin>) {
    forall k | 0 <= k < |pins| :: IsDigest(pins[k].digest) && PinFits(s, pins[k])
  }

  ghost predicate PinFits(s: TableScan, pin: Pin) {
    exists i | 0 <= i < |s.rows| :: IdOf(s.rows[i]) == pin.id && |s.rows[i].cells| == |s.header|
  }

  ghost predicate CanPin(s: TableScan, mode: string) {
    PinColumns(s.header) && UniqueIds(s.rows) && IsMode(mode) && (ColumnIndex(s.header, "mode") < 0 ==> mode == HOST)
  }

  /** Recording all pins succeeds, and leaves every row with the cells of the pins that name it. */
  lemma {:induction false} PinsRecorded(doc: string, pins: seq<Pin>, mode: string)
    requires var s := ScanSection(Lines(doc), LEDGER); CanPin(s, mode) && PinsFit(s, pins)
    ensures RecordAll(doc, pins, mode).Ok?
    ensures ScanPinned(ScanSection(Lines(doc), LEDGER), ScanSection(Lines(RecordAll(doc, pins, mode).doc), LEDGER), pins, mode)
  {
    hide ScanSection, Lines, RecordPin, CanPin, IsDigest, PinAll, PinFits, ScanPinned;
    var s := ScanSection(Lines(doc), LEDGER);
    if pins == [] {
      NothingPinned(s, mode);
    } else {
      var n := |pins| - 1;
      PinsRecorded(doc, pins[..n], mode);
      var doc' := RecordAll(doc, pins[..n], mode).doc;
      assert PinFits(s, pins[n]);
      PinNext(s, doc', pins, mode);
    }
  }

  lemma NothingPinned(s: TableScan, mode: string)
    ensures ScanPinned(s, s, [], mode)
  {}

  lemma PinNext(s: TableScan, doc: string, pins: seq<Pin>, mode: string)
    requires pins != [] && CanPin(s, mode) && PinFits(s, pins[|pins| - 1]) && IsDigest(pins[|pins| - 1].digest)
    requires ScanPinned(s, ScanSection(Lines(doc), LEDGER), pins[..|pins| - 1], mode)
    ensures var r := RecordPin(doc, pins[|pins| - 1], mode);
            r.Ok? && ScanPinned(s, ScanSection(Lines(r.doc), LEDGER), pins, mode)
  {
    hide ScanSection, Lines, RecordPin, IsDigest, PinAll, PinRow, PinColumns, ColumnIndex, Cell, IsMode;
    var pin, s' := pins[|pins| - 1], ScanSection(Lines(doc), LEDGER);
    var i :| 0 <= i < |s.rows| && IdOf(s.rows[i]) == pin.id && |s.rows[i].cells| == |s.header|;
    IdsKept(s, s', pins[..|pins| - 1], mode);
    PinRecorded(doc, pin, mode, i);
    forall k | 0 <= k < |s.rows| ensures PinAll(s.rows[k].cells, s.header, pins, mode) ==
      (if k == i then PinRow(PinAll(s.rows[i].cells, s.header, pins[..|pins| - 1], mode), s.header, pin, mode)
       else PinAll(s.rows[k].cells, s.header, pins[..|pins| - 1], mode))
    {
      PinAllNext(s.rows[k].cells, s.header, pins, mode);
      if k != i {
        assert IdOf(s.rows[k]) != IdOf(s.rows[i]) by {
          assert k < i || i < k;
        }
      }
    }
  }

  lemma PinAllNext(cells: seq<string>, header: seq<string>, pins: seq<Pin>, mode: string)
    requires pins != []
    ensures var before := PinAll(cells, header, pins[..|pins| - 1], mode);
            PinAll(cells, header, pins, mode) ==
            if pins[|pins| - 1].id == Cell(cells, 0) then PinRow(before, header, pins[|pins| - 1], mode) else before
  {
    hide PinRow, Cell;
  }

  lemma IdsKept(s: TableScan, s': TableScan, pins: seq<Pin>, mode: string)
    requires ScanPinned(s, s', pins, mode) && PinColumns(s.header) && UniqueIds(s.rows)
    ensures forall i | 0 <= i < |s.rows| :: IdOf(s'.rows[i]) == IdOf(s.rows[i]) && |s'.rows[i].cells| == |s.rows[i].cells|
    ensures UniqueIds(s'.rows)
  {
    hide PinAll, PinColumns, Cell;
    forall i | 0 <= i < |s.rows| ensures IdOf(s'.rows[i]) == IdOf(s.rows[i]) && |s'.rows[i].cells| == |s.rows[i].cells| {
      PinAllShape(s.rows[i].cells, s.header, pins, mode);
      IdIs(s'.rows[i]);
      IdIs(s.rows[i]);
    }
  }
}
