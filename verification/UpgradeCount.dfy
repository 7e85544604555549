/** Stamping the breadth tables with a run moves their count to that run, and changes none of it. */
module UpgradeCount {
  import opened Text
  import opened Cells
  import opened Rows
  import opened Scan
  import opened Section
  import opened Gaps
  import opened Upgrade
  import opened UpgradeScan
  import opened UpgradeLaws

  /** The table as `Gaps` reads it: a header without a Run column and rows as wide as the header. */
  ghost predicate Plainly(s: TableScan) {
    && s.header != [] && ColumnIndex(s.header, "run") < 0
    && forall i | 0 <= i < |s.rows| :: |s.rows[i].cells| == |s.header|
  }

  lemma ColumnsKept(s: TableScan, run: string)
    requires s.header != []
    ensures ColumnsOf(WithRun(s, run)) == ColumnsOf(s)
  {
    hide ColumnIndex;
    Letters("skill");
    Letters("status");
    NotRun("skill");
    NotRun("status");
    OtherColumn(s.header, "skill");
    OtherColumn(s.header, "status");
  }

  lemma Letters(s: string)
    requires s == "skill" || s == "status"
    ensures Bare(s)
  {
    Printable(s[0]);
    Printable(s[|s| - 1]);
  }

  lemma RowKept(table: Table, r: Row, run: string, s: TableScan)
    requires |r.cells| == |s.header| && s.header != [] && (run == "" || ValidRun(run))
    ensures CountRow(table, Row(r.line, r.cells + [run]), ColumnsOf(s)) == CountRow(table, r, ColumnsOf(s))
    ensures run != "" ==> OwnerOf(Row(r.line, r.cells + [run]), |s.header|) == Of(run)
  {
    hide IsNa, IsDone, IsUnknown, ColumnIndex, ValidRun, Trim;
    var more := r.cells + [run];
    assert forall i | 0 <= i < |r.cells| :: more[i] == r.cells[i];
    var cols := ColumnsOf(s);
    assert Cell(more, 0) == Cell(r.cells, 0);
    assert Cell(more, cols.status) == Cell(r.cells, cols.status);
    assert Cell(more, cols.skill) == Cell(r.cells, cols.skill);
    RunPlain(run);
    assert more[|s.header|] == run;
  }

  /** Every row stamped with the run is the run's, and counts as it did. */
  lemma {:induction false} RowsKept(table: Table, rows: seq<Row>, run: string, s: TableScan)
    requires s.header != [] && (run == "" || ValidRun(run))
    requires forall i | 0 <= i < |rows| :: |rows[i].cells| == |s.header|
    ensures CountRows(table, MoreCells(rows, run), ColumnsOf(s)) == CountRows(table, rows, ColumnsOf(s))
    ensures run != "" ==> RowsOf(MoreCells(rows, run), |s.header|, Of(run)) == MoreCells(rows, run)
    ensures run != "" ==> AllLeftOut(table, MoreCells(rows, run), |s.header|) == EMPTY_TABLE
  {
    hide CountRow, OwnerOf, ColumnsOf, ValidRun, Sum, Add;
    if rows != [] {
      var n := |rows| - 1;
      var more := MoreCells(rows, run);
      RowsKept(table, rows[..n], run, s);
      assert more[..n] == MoreCells(rows[..n], run);
      RowKept(table, rows[n], run, s);
      SumEmpty(EMPTY_TABLE);
    }
  }

  lemma SumEmpty(t: TableGaps)
    requires t.count.owed == [] && t.count.unknown == [] && t.problems == []
    requires t.count.total == 0 && t.count.done == 0 && t.unscoped == 0
    ensures Sum(t, t) == t
  {
    hide EMPTY_TABLE, NOTHING, WHITE_SPACE;
    var u := Sum(t, t);
    assert u.count.owed == t.count.owed && u.count.unknown == t.count.unknown && u.problems == t.problems;
  }

  /** One table: the same count, and the run owns it if it has a row at all. */
  lemma TableKept(table: Table, s: TableScan, run: string)
    requires Plainly(s) && (run == "" || ValidRun(run))
    ensures TableGapsOf(table, WithRun(s, run), run) ==
            TableGapsOf(table, s, "").(matched := run != "" && s.rows != [])
    ensures CutsOf(table, WithRun(s, run)) == CutsOf(table, s)
  {
    hide CountRows, ColumnIndex, ColumnsOf, RowsOf, AllLeftOut, MoreCells, ValidRun;
    RowsKept(table, s.rows, run, s);
    ColumnsKept(s, run);
    RunColumn(s.header);
  }

  lemma EditPlainly(lines: seq<string>, name: string, run: string)
    requires TableEdit(lines, name, run).Edit? && Rectangular(lines, name)
    ensures Plainly(ScanSection(lines, name))
  {
    hide ScanSection, ColumnIndex, HeadLines, EditsOf, Interrupted, EndsClosed;
    var s := ScanSection(lines, name);
    forall i | 0 <= i < |s.rows| ensures |s.rows[i].cells| == |s.header| {
      assert RowFits(lines, s, i);
    }
  }

  /** Both breadth tables are to be stamped, and can be. */
  ghost predicate StampsBoth(doc: string, run: string) {
    && TableEdit(Lines(doc), LAYERS, run).Edit? && Rectangular(Lines(doc), LAYERS)
    && TableEdit(Lines(doc), RANKED, run).Edit? && Rectangular(Lines(doc), RANKED)
  }

  /** Stamping both tables gives the run the whole plan's report, word for word; the one exception is a plan
      with no row at all, where the run owns nothing and the report says so. */
  lemma UpgradeKeepsCount(doc: string, run: string, micro: string -> string)
    requires StampsBoth(doc, run) && (run == "" || ValidRun(run))
    ensures UpgradeDoc(doc, run).Upgraded? && UpgradeDoc(doc, run).changed == 2
    ensures var before := GapsForRun(doc, "", micro);
            var noRows := ScanSection(Lines(doc), LAYERS).rows == [] && ScanSection(Lines(doc), RANKED).rows == [];
            before.Gaps? && GapsForRun(UpgradeDoc(doc, run).doc, run, micro) ==
            Gaps(before.report.(run := run, runMissing := run != "" && noRows))
  {
    hide TableEdit, Rectangular, Lines, Unlines, ScanSection, ValidRun, TableGapsOf, CutsOf, WithRun, ColumnIndex;
    var doc' := UpgradeDoc(doc, run).doc;
    var layers, ranked := ScanSection(Lines(doc), LAYERS), ScanSection(Lines(doc), RANKED);
    OneWidened(doc, run, LAYERS, RANKED);
    OneWidened(doc, run, RANKED, LAYERS);
    EditPlainly(Lines(doc), LAYERS, run);
    EditPlainly(Lines(doc), RANKED, run);
    TableKept(Layers, layers, run);
    TableKept(Targets, ranked, run);
    KeepsHeader(layers, run);
    KeepsHeader(ranked, run);
    Unmatched(layers, ranked);
  }

  lemma KeepsHeader(s: TableScan, run: string)
    requires s.header != []
    ensures WithRun(s, run).header != []
  {}

  lemma Unmatched(layers: TableScan, ranked: TableScan)
    ensures !TableGapsOf(Layers, layers, "").matched && !TableGapsOf(Targets, ranked, "").matched
  {
    hide CountRows, ColumnIndex, ColumnsOf;
  }
}
