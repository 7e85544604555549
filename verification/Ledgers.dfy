/** The Evidence ledger as rows of named cells (internal/plan/plan.go: Ledger). */
module Ledgers {
  import opened Text
  import opened Cells
  import opened Scan
  import opened ScanMeaning
  import opened Section

  datatype LedgerRow = LedgerRow(
    id: string, claim: string, executed: string, admit: string, inputs: string, observed: string, digest: string,
    normalize: string, mode: string, mutate: string, expect_: string, mutation: string, reproduction: string,
    kind: string, cells: nat, headerCells: nat)

  /** A cell read by the name of its column. */
  function Named(header: seq<string>, cells: seq<string>, name: string): string {
    Cell(cells, ColumnIndex(header, name))
  }

  function RowOfCells(header: seq<string>, cells: seq<string>): LedgerRow {
    LedgerRow(
      Cell(cells, 0), Named(header, cells, "claim"), Named(header, cells, "executed"), Named(header, cells, "admit"),
      Named(header, cells, "inputs"), Named(header, cells, "observed"), Named(header, cells, "digest"),
      Named(header, cells, "normalize"), Named(header, cells, "mode"), Named(header, cells, "mutate"),
      Named(header, cells, "expect"), Named(header, cells, "mutation"), Named(header, cells, "reproduction"),
      Cell(cells, |cells| - 1), |cells|, |header|)
  }

  function LedgerOf(s: TableScan): (r: seq<LedgerRow>)
    ensures s.header != [] ==> |r| == |s.rows| && forall i | 0 <= i < |r| :: r[i] == RowOfCells(s.header, s.rows[i].cells)
    ensures s.header == [] ==> r == []
  {
    if s.header == [] then [] else seq(|s.rows|, i requires 0 <= i < |s.rows| => RowOfCells(s.header, s.rows[i].cells))
  }

  function Ledger(doc: string): seq<LedgerRow> {
    LedgerOf(ScanSection(Lines(doc), LEDGER))
  }

  /** The loop of `Ledger`: a row appended for each row of the scan. */
  method ReadLedger(doc: string) returns (ledger: seq<LedgerRow>)
    ensures ledger == Ledger(doc)
  {
    hide ScanSection, Lines, RowOfCells;
    var scan := ScanSection(Lines(doc), LEDGER);
    ledger := [];
    if scan.header == [] {
      return;
    }
    for i := 0 to |scan.rows|
      invariant |ledger| == i && forall k | 0 <= k < i :: ledger[k] == RowOfCells(scan.header, scan.rows[k].cells)
    {
      ledger := ledger + [RowOfCells(scan.header, scan.rows[i].cells)];
    }
  }

  /** The cell of a line in the column of that name, and nothing if there is none. */
  function CellUnder(header: seq<string>, line: string, name: string): string {
    var c := ColumnIndex(header, name);
    if 0 <= c < |CellsOf(line)| then Trim(CellsOf(line)[c]) else ""
  }

  lemma NamedIs(header: seq<string>, line: string, name: string)
    ensures Named(header, CellsOf(line), name) == CellUnder(header, line, name)
  {
    hide CellsOf, ColumnIndex, Trim;
  }

  lemma RowStands(doc: string, i: nat)
    requires i < |Ledger(doc)|
    ensures var lines, scan := Lines(doc), ScanSection(Lines(doc), LEDGER);
            i < |scan.rows| && 1 <= scan.rows[i].line <= |lines| &&
            Ledger(doc)[i] == RowOfCells(scan.header, CellsOf(lines[scan.rows[i].line - 1]))
  {
    hide Lines, RegionOf, ScanLines, CellsOf, RowOfCells, Kinds, IsData, FirstPipe, LivePipe;
    var lines := Lines(doc);
    var region := RegionOf(lines, LEDGER);
    RowsAreRead(lines, region.heading + 1, region.end, i);
  }

  /** Each row of the ledger stands for one line of the section: its id is the first cell, its label the last, and every
      other field the cell under the column of its own name. */
  lemma LedgerIs(doc: string, i: nat)
    requires i < |Ledger(doc)|
    ensures var lines, scan, r := Lines(doc), ScanSection(Lines(doc), "Evidence ledger"), Ledger(doc)[i];
            i < |scan.rows| && 1 <= scan.rows[i].line <= |lines| &&
            var line := lines[scan.rows[i].line - 1];
            && r.cells == |CellsOf(line)| && r.headerCells == |scan.header|
            && r.id == Cell(CellsOf(line), 0) && r.kind == Cell(CellsOf(line), |CellsOf(line)| - 1)
            && r.claim == CellUnder(scan.header, line, "claim") && r.executed == CellUnder(scan.header, line, "executed")
            && r.admit == CellUnder(scan.header, line, "admit") && r.inputs == CellUnder(scan.header, line, "inputs")
            && r.observed == CellUnder(scan.header, line, "observed") && r.digest == CellUnder(scan.header, line, "digest")
            && r.normalize == CellUnder(scan.header, line, "normalize") && r.mode == CellUnder(scan.header, line, "mode")
            && r.mutate == CellUnder(scan.header, line, "mutate") && r.expect_ == CellUnder(scan.header, line, "expect")
            && r.mutation == CellUnder(scan.header, line, "mutation")
            && r.reproduction == CellUnder(scan.header, line, "reproduction")
  {
    hide Lines, ScanSection, CellsOf, CellUnder, Named, Cell, Ledger;
    var lines, scan := Lines(doc), ScanSection(Lines(doc), LEDGER);
    RowStands(doc, i);
    var line := lines[scan.rows[i].line - 1];
    NamedIs(scan.header, line, "claim");
    NamedIs(scan.header, line, "executed");
    NamedIs(scan.header, line, "admit");
    NamedIs(scan.header, line, "inputs");
    NamedIs(scan.header, line, "observed");
    NamedIs(scan.header, line, "digest");
    NamedIs(scan.header, line, "normalize");
    NamedIs(scan.header, line, "mode");
    NamedIs(scan.header, line, "mutate");
    NamedIs(scan.header, line, "expect");
    NamedIs(scan.header, line, "mutation");
    NamedIs(scan.header, line, "reproduction");
  }
}
