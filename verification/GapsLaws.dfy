/** Scoping by run loses no row: what the whole document owes is what its runs owe, and what nobody owns. */
module GapsLaws {
  import opened Text
  import opened Cells
  import opened Scan
  import opened Section
  import opened Gaps

  /** A count without the order of its lists. */
  datatype Bag = Bag(total: nat, done: nat, owed: multiset<Owed>, unknown: multiset<Unknown>)

  const NO_BAG := Bag(0, 0, multiset{}, multiset{})

  function BagOf(c: Count): Bag {
    Bag(c.total, c.done, multiset(c.owed), multiset(c.unknown))
  }

  function Plus(a: Bag, b: Bag): Bag {
    Bag(a.total + b.total, a.done + b.done, a.owed + b.owed, a.unknown + b.unknown)
  }

  /** What the rows of one owner owe. */
  function OwnerBag(table: Table, rows: seq<Row>, iRun: int, cols: Columns, owner: Owner): Bag {
    BagOf(CountRows(table, RowsOf(rows, iRun, owner), cols))
  }

  function SumRuns(table: Table, rows: seq<Row>, iRun: int, cols: Columns, runs: seq<string>): Bag {
    if runs == [] then NO_BAG
    else Plus(OwnerBag(table, rows, iRun, cols, Of(runs[0])), SumRuns(table, rows, iRun, cols, runs[1..]))
  }

  predicate Distinct(runs: seq<string>) {
    forall i, j | 0 <= i < j < |runs| :: runs[i] != runs[j]
  }

  /** Every run a row names is among `runs`. */
  predicate Covers(rows: seq<Row>, iRun: int, runs: seq<string>) {
    forall i | 0 <= i < |rows| :: OwnerOf(rows[i], iRun).Of? ==> OwnerOf(rows[i], iRun).run in runs
  }

  lemma BagAdd(a: Count, b: Count)
    ensures BagOf(Add(a, b)) == Plus(BagOf(a), BagOf(b))
  {}

  lemma PlusMoves(a: Bag, b: Bag, x: Bag)
    ensures Plus(Plus(a, x), b) == Plus(Plus(a, b), x) && Plus(a, Plus(b, x)) == Plus(Plus(a, b), x)
  {}

  lemma PlusNothing(a: Bag)
    ensures Plus(NO_BAG, a) == a && Plus(a, NO_BAG) == a
  {}

  lemma OwnerNext(table: Table, rows: seq<Row>, iRun: int, cols: Columns, owner: Owner)
    requires rows != []
    ensures var before, last := rows[..|rows| - 1], rows[|rows| - 1];
            OwnerBag(table, rows, iRun, cols, owner) ==
            if OwnerOf(last, iRun) == owner
            then Plus(OwnerBag(table, before, iRun, cols, owner), BagOf(CountRow(table, last, cols)))
            else OwnerBag(table, before, iRun, cols, owner)
  {
    hide OwnerOf, CountRow, BagOf, Plus, Add;
    var before, last := rows[..|rows| - 1], rows[|rows| - 1];
    if OwnerOf(last, iRun) == owner {
      var mine := RowsOf(before, iRun, owner);
      assert (mine + [last])[..|mine|] == mine;
      BagAdd(CountRows(table, mine, cols), CountRow(table, last, cols));
    }
  }

  lemma {:induction false} RunsNext(table: Table, rows: seq<Row>, iRun: int, cols: Columns, runs: seq<string>)
    requires rows != [] && Distinct(runs)
    ensures var before, owner := rows[..|rows| - 1], OwnerOf(rows[|rows| - 1], iRun);
            var x := BagOf(CountRow(table, rows[|rows| - 1], cols));
            SumRuns(table, rows, iRun, cols, runs) ==
            if owner.Of? && owner.run in runs then Plus(SumRuns(table, before, iRun, cols, runs), x)
            else SumRuns(table, before, iRun, cols, runs)
  {
    hide OwnerOf, CountRow, OwnerBag, BagOf, Plus;
    if runs != [] {
      var before, owner := rows[..|rows| - 1], OwnerOf(rows[|rows| - 1], iRun);
      var x := BagOf(CountRow(table, rows[|rows| - 1], cols));
      assert runs[0] !in runs[1..];
      RunsNext(table, rows, iRun, cols, runs[1..]);
      OwnerNext(table, rows, iRun, cols, Of(runs[0]));
      assert owner.Of? ==> (owner.run in runs <==> owner.run == runs[0] || owner.run in runs[1..]);
      PlusMoves(OwnerBag(table, before, iRun, cols, Of(runs[0])), SumRuns(table, before, iRun, cols, runs[1..]), x);
    }
  }

  /** Every row is counted once: the whole table owes what its runs owe together, plus the rows of nobody and the
      rows whose Run cell is malformed. */
  lemma {:induction false} EveryRowIsSomebodys(table: Table, rows: seq<Row>, iRun: int, cols: Columns, runs: seq<string>)
    requires Distinct(runs) && Covers(rows, iRun, runs)
    ensures BagOf(CountRows(table, rows, cols)) ==
            Plus(SumRuns(table, rows, iRun, cols, runs),
                 Plus(OwnerBag(table, rows, iRun, cols, Nobody), OwnerBag(table, rows, iRun, cols, Malformed)))
  {
    hide OwnerOf, CountRow, BagOf, Plus, SumRuns, OwnerBag;
    if rows == [] {
      NoRowsOf(table, iRun, cols, Nobody);
      NoRowsOf(table, iRun, cols, Malformed);
      NoRuns(table, iRun, cols, runs);
      NothingCounted(table, cols);
      PlusNothing(NO_BAG);
    } else {
      var before, last := rows[..|rows| - 1], rows[|rows| - 1];
      var x, sum := BagOf(CountRow(table, last, cols)), SumRuns(table, before, iRun, cols, runs);
      var n, m := OwnerBag(table, before, iRun, cols, Nobody), OwnerBag(table, before, iRun, cols, Malformed);
      EveryRowIsSomebodys(table, before, iRun, cols, runs);
      BagAdd(CountRows(table, before, cols), CountRow(table, last, cols));
      RunsNext(table, rows, iRun, cols, runs);
      OwnerNext(table, rows, iRun, cols, Nobody);
      OwnerNext(table, rows, iRun, cols, Malformed);
      PlusMoves(sum, Plus(n, m), x);
      PlusMoves(n, m, x);
    }
  }

  lemma NothingCounted(table: Table, cols: Columns)
    ensures BagOf(CountRows(table, [], cols)) == NO_BAG
  {}

  lemma NoRowsOf(table: Table, iRun: int, cols: Columns, owner: Owner)
    ensures OwnerBag(table, [], iRun, cols, owner) == NO_BAG
  {
    hide OwnerOf;
  }

  lemma {:induction false} NoRuns(table: Table, iRun: int, cols: Columns, runs: seq<string>)
    ensures SumRuns(table, [], iRun, cols, runs) == NO_BAG
  {
    hide OwnerBag, Plus;
    if runs != [] {
      NoRowsOf(table, iRun, cols, Of(runs[0]));
      NoRuns(table, iRun, cols, runs[1..]);
      PlusNothing(NO_BAG);
    }
  }

  function NameOf(table: Table): string {
    if table.Layers? then LAYERS else RANKED
  }

  /** What a report counts for one table: all, done and owed. */
  function CountedFor(g: Report, table: Table): (nat, nat, seq<Owed>) {
    if table.Layers? then (g.layersTotal, g.layersDone, g.unswept) else (g.targetsTotal, g.targetsDone, g.pending)
  }

  function SumReports(table: Table, doc: string, micro: string -> string, runs: seq<string>): (nat, nat, multiset<Owed>) {
    if runs == [] then (0, 0, multiset{})
    else
      var rest := SumReports(table, doc, micro, runs[1..]);
      match GapsForRun(doc, runs[0], micro)
      case BadSlug => rest
      case Gaps(g) =>
        var c := CountedFor(g, table);
        (c.0 + rest.0, c.1 + rest.1, multiset(c.2) + rest.2)
  }

  /** The same over reports, for either breadth table: what `GapsIn` counts for a table with a Run column is the sum
      of what `GapsForRun` counts for its runs, plus the rows no run is counted for. */
  lemma ReportsAreConserved(table: Table, doc: string, micro: string -> string, runs: seq<string>)
    requires var scan := ScanSection(Lines(doc), NameOf(table));
             scan.header != [] && ColumnIndex(scan.header, "run") >= 0 &&
             Covers(scan.rows, ColumnIndex(scan.header, "run"), runs)
    requires Distinct(runs) && forall i | 0 <= i < |runs| :: ValidRun(runs[i])
    ensures GapsForRun(doc, "", micro).Gaps?
    ensures var scan := ScanSection(Lines(doc), NameOf(table));
            var iRun, cols := ColumnIndex(scan.header, "run"), ColumnsOf(scan);
            var whole, sum := CountedFor(GapsForRun(doc, "", micro).report, table), SumReports(table, doc, micro, runs);
            var rest := Plus(OwnerBag(table, scan.rows, iRun, cols, Nobody), OwnerBag(table, scan.rows, iRun, cols, Malformed));
            whole.0 == sum.0 + rest.total && whole.1 == sum.1 + rest.done && multiset(whole.2) == sum.2 + rest.owed
  {
    hide ScanSection, Lines, ColumnIndex, CountRow, OwnerOf, ValidRun, CutsOf, LeftOf, CountedFor, GapsForRun;
    var scan := ScanSection(Lines(doc), NameOf(table));
    var iRun, cols := ColumnIndex(scan.header, "run"), ColumnsOf(scan);
    EveryRowIsSomebodys(table, scan.rows, iRun, cols, runs);
    SumIsSum(table, doc, micro, runs, scan, iRun, cols);
    WholeTable(table, doc, micro, scan);
  }

  lemma LeftCountsNothing(table: Table, scan: TableScan, iRun: int, run: string)
    ensures LeftOf(table, scan, iRun, run).count == NOTHING
  {
    hide OwnerOf;
    if run != "" && iRun >= 0 {
      NothingLeft(table, scan.rows, iRun);
    }
  }

  lemma {:induction false} NothingLeft(table: Table, rows: seq<Row>, iRun: int)
    ensures AllLeftOut(table, rows, iRun).count == NOTHING
  {
    hide LeftOut, Add;
    if rows != [] {
      NothingLeft(table, rows[..|rows| - 1], iRun);
      LeftOutCounts(table, rows[|rows| - 1], iRun);
      AddZero(NOTHING);
    }
  }

  lemma LeftOutCounts(table: Table, r: Row, iRun: int)
    ensures LeftOut(table, r, iRun).count == NOTHING
  {
    hide OwnerOf;
  }

  lemma WholeTable(table: Table, doc: string, micro: string -> string, scan: TableScan)
    requires scan == ScanSection(Lines(doc), NameOf(table)) && scan.header != []
    ensures GapsForRun(doc, "", micro).Gaps?
    ensures var g, c := CountedFor(GapsForRun(doc, "", micro).report, table), CountRows(table, scan.rows, ColumnsOf(scan));
            g == (c.total, c.done, c.owed)
  {
    hide ScanSection, Lines, CountRows, ColumnsOf, ColumnIndex, CutsOf;
    AddZero(CountRows(table, scan.rows, ColumnsOf(scan)));
  }

  lemma AddZero(c: Count)
    ensures Add(NOTHING, c) == c
  {}

  lemma RunTable(table: Table, doc: string, micro: string -> string, scan: TableScan, run: string)
    requires scan == ScanSection(Lines(doc), NameOf(table)) && scan.header != [] && ColumnIndex(scan.header, "run") >= 0
    requires ValidRun(run)
    ensures GapsForRun(doc, run, micro).Gaps?
    ensures var g := CountedFor(GapsForRun(doc, run, micro).report, table);
            var c := CountRows(table, RowsOf(scan.rows, ColumnIndex(scan.header, "run"), Of(run)), ColumnsOf(scan));
            g == (c.total, c.done, c.owed)
  {
    hide ScanSection, Lines, CountRows, ColumnsOf, ColumnIndex, CutsOf, RowsOf, LeftOf;
    assert run != "";
    var iRun := ColumnIndex(scan.header, "run");
    LeftCountsNothing(table, scan, iRun, run);
    AddZero(CountRows(table, RowsOf(scan.rows, iRun, Of(run)), ColumnsOf(scan)));
  }

  lemma {:induction false} SumIsSum(table: Table, doc: string, micro: string -> string, runs: seq<string>, scan: TableScan, iRun: int, cols: Columns)
    requires scan == ScanSection(Lines(doc), NameOf(table)) && scan.header != []
    requires iRun == ColumnIndex(scan.header, "run") >= 0 && cols == ColumnsOf(scan)
    requires forall i | 0 <= i < |runs| :: ValidRun(runs[i])
    ensures var sum, bag := SumReports(table, doc, micro, runs), SumRuns(table, scan.rows, iRun, cols, runs);
            sum.0 == bag.total && sum.1 == bag.done && sum.2 == bag.owed
  {
    hide ScanSection, Lines, CountRows, ColumnsOf, ColumnIndex, RowsOf, ValidRun, GapsForRun, CountedFor;
    if runs != [] {
      assert ValidRun(runs[0]);
      SumIsSum(table, doc, micro, runs[1..], scan, iRun, cols);
      RunTable(table, doc, micro, scan, runs[0]);
    }
  }

  // ---------------------------------------------------------------- what is owed

  /** The row is done, or not to be done. */
  predicate Settled(r: Row, cols: Columns) {
    IsDone(Cell(r.cells, cols.status)) || IsNa(Cell(r.cells, cols.status))
  }

  /** One row: done, not to be done, or owed under its line and its first cell. */
  lemma RowOwes(table: Table, r: Row, cols: Columns)
    ensures var c := CountRow(table, r, cols);
            c.total == c.done + |c.owed| && |c.unknown| <= |c.owed| <= 1 && (c.owed == [] <==> Settled(r, cols)) &&
            (c.owed != [] ==> c.owed[0].line == r.line && c.owed[0].name == Cell(r.cells, 0))
  {
    hide IsDone, IsNa, IsUnknown, Cell;
  }

  /** An owed entry stands for a row that is not settled. */
  ghost predicate OwedBy(o: Owed, rows: seq<Row>, cols: Columns) {
    exists i | 0 <= i < |rows| :: !Settled(rows[i], cols) && o.line == rows[i].line && o.name == Cell(rows[i].cells, 0)
  }

  lemma OwedLater(o: Owed, rows: seq<Row>, cols: Columns)
    requires rows != [] && OwedBy(o, rows[..|rows| - 1], cols)
    ensures OwedBy(o, rows, cols)
  {
    hide Settled, Cell;
    var less := rows[..|rows| - 1];
    var i :| 0 <= i < |less| && !Settled(less[i], cols) && o.line == less[i].line && o.name == Cell(less[i].cells, 0);
    assert rows[i] == less[i];
  }

  /** The rows that count are the done ones and the owed ones, and nothing is owed exactly when every row is
      settled. */
  lemma {:induction false} OwedIsTheRest(table: Table, rows: seq<Row>, cols: Columns)
    ensures var c := CountRows(table, rows, cols);
            c.total == c.done + |c.owed| && |c.unknown| <= |c.owed| &&
            (c.owed == [] <==> forall i | 0 <= i < |rows| :: Settled(rows[i], cols))
  {
    hide CountRow, Settled;
    if rows != [] {
      var n := |rows| - 1;
      OwedIsTheRest(table, rows[..n], cols);
      RowOwes(table, rows[n], cols);
      assert forall i | 0 <= i < n :: rows[..n][i] == rows[i];
    }
  }

  /** Every owed entry names a row that is not settled, by its line and its first cell. */
  lemma {:induction false} OwedAreRows(table: Table, rows: seq<Row>, cols: Columns)
    ensures forall i | 0 <= i < |CountRows(table, rows, cols).owed| :: OwedBy(CountRows(table, rows, cols).owed[i], rows, cols)
  {
    hide CountRow, Settled, OwedBy;
    if rows != [] {
      var n := |rows| - 1;
      OwedAreRows(table, rows[..n], cols);
      RowOwes(table, rows[n], cols);
      var a, b := CountRows(table, rows[..n], cols).owed, CountRow(table, rows[n], cols).owed;
      forall i | 0 <= i < |a + b| ensures OwedBy((a + b)[i], rows, cols) {
        if i < |a| {
          OwedLater(a[i], rows, cols);
        } else {
          LastOwed(b[0], rows, cols);
        }
      }
    }
  }

  lemma LastOwed(o: Owed, rows: seq<Row>, cols: Columns)
    requires rows != [] && !Settled(rows[|rows| - 1], cols)
    requires o.line == rows[|rows| - 1].line && o.name == Cell(rows[|rows| - 1].cells, 0)
    ensures OwedBy(o, rows, cols)
  {}

  lemma TableAddsUp(table: Table, scan: TableScan, run: string)
    ensures var c := TableGapsOf(table, scan, run).count; c.total == c.done + |c.owed|
  {
    hide CountRows, ColumnIndex, OwnedOf, LeftOf;
    var iRun := ColumnIndex(scan.header, "run");
    LeftCountsNothing(table, scan, iRun, run);
    var c := CountRows(table, OwnedOf(scan, iRun, run), ColumnsOf(scan));
    OwedIsTheRest(table, OwnedOf(scan, iRun, run), ColumnsOf(scan));
    AddZero(c);
  }

  /** Every report adds up: what a run is counted for is what it has done and what it still owes. */
  lemma ReportsAddUp(doc: string, run: string, micro: string -> string)
    requires GapsForRun(doc, run, micro).Gaps?
    ensures var g := GapsForRun(doc, run, micro).report;
            g.layersTotal == g.layersDone + |g.unswept| && g.targetsTotal == g.targetsDone + |g.pending|
  {
    hide TableGapsOf, ScanSection, Lines, CutsOf, ValidRun;
    TableAddsUp(Layers, ScanSection(Lines(doc), LAYERS), run);
    TableAddsUp(Targets, ScanSection(Lines(doc), RANKED), run);
  }
}
