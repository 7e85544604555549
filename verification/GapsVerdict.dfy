/** When a report of a run says that nothing is owed, told by the cells of the plan and the words of its vocabulary. */
module GapsVerdict {
  import opened Text
  import opened Cells
  import opened Scan
  import opened Section
  import opened Gaps
  import opened GapsLaws

  // ---------------------------------------------------------------- the words

  /** The text is that word in letters of either case. */
  predicate Says(s: string, word: string) {
    |s| == |word| && forall i | 0 <= i < |s| :: Spells(s[i], word[i])
  }

  predicate SaysDone(s: string) {
    Says(s, "done") || Says(s, "fixed") || Says(s, "closed")
  }

  predicate SaysNotAsked(s: string) {
    Says(s, "n/a") || Says(s, "na") || Says(s, "none") || Says(s, "skipped")
  }

  predicate SaysOwed(s: string) {
    Says(s, "pending") || Says(s, "inprogress") || Says(s, "in progress") || Says(s, "in-progress") || Says(s, "blocked")
  }

  /** The three lists of status words. */
  lemma StatusWords(s: string)
    ensures (IsDone(s) <==> SaysDone(s)) && (IsNa(s) <==> SaysNotAsked(s)) && (IsOwed(s) <==> SaysOwed(s))
  {
    hide Says, Fold;
    FoldSays(s, "done");
    FoldSays(s, "fixed");
    FoldSays(s, "closed");
    FoldSays(s, "n/a");
    FoldSays(s, "na");
    FoldSays(s, "none");
    FoldSays(s, "skipped");
    FoldSays(s, "pending");
    FoldSays(s, "inprogress");
    FoldSays(s, "in progress");
    FoldSays(s, "in-progress");
    FoldSays(s, "blocked");
  }

  lemma FoldSays(s: string, word: string)
    requires forall i | 0 <= i < |word| :: word[i] as int < 128 && !('A' <= word[i] <= 'Z')
    ensures Fold(s) == word <==> Says(s, word)
  {
    FoldIs(s, word);
  }

  /** What one row is counted for: not at all, as done, or as owed under its line, its name and, in the layer matrix, the
      skill that owns it; an owed row whose status is a word of no list is named as such. */
  lemma RowCounts(table: Table, r: Row, cols: Columns)
    ensures var status, name := Cell(r.cells, cols.status), Cell(r.cells, 0);
            var owed := Owed(r.line, name, if table == Layers then Cell(r.cells, cols.skill) else "");
            var odd := Trim(status) != "" && !SaysOwed(status);
            CountRow(table, r, cols) ==
            if SaysNotAsked(status) then Count(0, 0, [], [])
            else if SaysDone(status) then Count(1, 1, [], [])
            else Count(1, 0, [owed], if odd then [Unknown(table, status, r.line, name)] else [])
  {
    hide SaysDone, SaysNotAsked, SaysOwed, IsDone, IsNa, IsOwed, Trim;
    StatusWords(Cell(r.cells, cols.status));
  }

  /** A run's name: 2 to 64 small letters, digits and dashes, no dash first, and neither of two words. */
  lemma RunNames(s: string)
    ensures ValidRun(s) <==>
            && |s| >= 2 && |s| <= 64 && s[0] != '-' && s != "all" && s != "none"
            && forall i | 0 <= i < |s| :: s[i] == '-' || '0' <= s[i] <= '9' || 'a' <= s[i] <= 'z'
  {}

  // ---------------------------------------------------------------- one table

  function RunCell(scan: TableScan, i: nat): string
    requires i < |scan.rows|
  {
    Cell(scan.rows[i].cells, ColumnIndex(scan.header, "run"))
  }

  function StatusCell(scan: TableScan, i: nat): string
    requires i < |scan.rows|
  {
    Cell(scan.rows[i].cells, ColumnIndex(scan.header, "status"))
  }

  /** Every row of the run, or every row when no run is asked about, says it is done or not asked for. */
  ghost predicate AllSettled(scan: TableScan, run: string) {
    forall i | 0 <= i < |scan.rows| && (run == "" || RunCell(scan, i) == run) ::
      SaysDone(StatusCell(scan, i)) || SaysNotAsked(StatusCell(scan, i))
  }

  /** Whose each row is can be read: the table has the column, and no cell of it is malformed. */
  ghost predicate RunsReadable(scan: TableScan, run: string) {
    run != "" ==> ColumnIndex(scan.header, "run") >= 0 && Readable(scan.rows, ColumnIndex(scan.header, "run"))
  }

  ghost predicate NamesRun(scan: TableScan, run: string) {
    ColumnIndex(scan.header, "run") >= 0 && Named(scan.rows, ColumnIndex(scan.header, "run"), run)
  }

  ghost predicate Readable(rows: seq<Row>, iRun: int) {
    forall i | 0 <= i < |rows| :: Cell(rows[i].cells, iRun) == "" || ValidRun(Cell(rows[i].cells, iRun))
  }

  ghost predicate Named(rows: seq<Row>, iRun: int, run: string) {
    exists i | 0 <= i < |rows| :: Cell(rows[i].cells, iRun) == run
  }

  lemma {:induction false} RowsSettled(rows: seq<Row>, iRun: int, run: string, cols: Columns)
    requires ValidRun(run)
    ensures (forall r | r in RowsOf(rows, iRun, Of(run)) :: Settled(r, cols)) <==>
            (forall i | 0 <= i < |rows| && Cell(rows[i].cells, iRun) == run :: Settled(rows[i], cols))
    ensures RowsOf(rows, iRun, Of(run)) != [] <==> Named(rows, iRun, run)
  {
    hide Settled, Cell, ValidRun;
    if rows != [] {
      var less, last := rows[..|rows| - 1], rows[|rows| - 1];
      RowsSettled(less, iRun, run, cols);
      OwnsIff(last, iRun, run);
      assert rows == less + [last];
      assert forall i | 0 <= i < |less| :: rows[i] == less[i];
    }
  }

  lemma OwnsIff(r: Row, iRun: int, run: string)
    requires ValidRun(run)
    ensures OwnerOf(r, iRun) == Of(run) <==> Cell(r.cells, iRun) == run
  {
    hide Cell;
  }

  lemma {:induction false} LeftProblems(table: Table, rows: seq<Row>, iRun: int)
    ensures AllLeftOut(table, rows, iRun).problems == [] <==> Readable(rows, iRun)
    ensures !AllLeftOut(table, rows, iRun).matched
  {
    hide Cell, ValidRun;
    if rows != [] {
      var less := rows[..|rows| - 1];
      LeftProblems(table, less, iRun);
      assert rows == less + [rows[|rows| - 1]];
      assert forall i | 0 <= i < |less| :: rows[i] == less[i];
    }
  }

  /** What one table leaves in the report. */
  lemma TableVerdict(table: Table, scan: TableScan, run: string)
    requires run == "" || ValidRun(run)
    ensures var t := TableGapsOf(table, scan, run);
            && (t.count.owed == [] <==> AllSettled(scan, run)) && (t.problems == [] <==> RunsReadable(scan, run))
            && (t.matched <==> run != "" && NamesRun(scan, run))
            && t.count.total == t.count.done + |t.count.owed|
  {
    hide ValidRun, TableGapsOf, AllSettled, RunsReadable, NamesRun, ColumnIndex;
    TableAddsUp(table, scan, run);
    TableOwes(table, scan, run);
    TableProblems(table, scan, run);
    TableMatches(table, scan, run);
  }

  lemma TableOwes(table: Table, scan: TableScan, run: string)
    requires run == "" || ValidRun(run)
    ensures TableGapsOf(table, scan, run).count.owed == [] <==> AllSettled(scan, run)
  {
    hide ValidRun, Cell, CountRows, ColumnIndex, LeftOf, RowsOf, Settled, SaysDone, SaysNotAsked;
    var iRun, cols := ColumnIndex(scan.header, "run"), ColumnsOf(scan);
    var owned := OwnedOf(scan, iRun, run);
    LeftCountsNothing(table, scan, iRun, run);
    AddZero(CountRows(table, owned, cols));
    OwedIsTheRest(table, owned, cols);
    SettledWords(scan, cols);
    if run != "" {
      RowsSettled(scan.rows, iRun, run, cols);
      if iRun < 0 {
        NoRunCell(scan, run);
      }
      MembersSettled(owned, cols);
    }
  }

  lemma TableShape(table: Table, scan: TableScan, run: string)
    ensures var iRun, t := ColumnIndex(scan.header, "run"), TableGapsOf(table, scan, run);
            t.problems == LeftOf(table, scan, iRun, run).problems && t.matched == (run != "" && OwnedOf(scan, iRun, run) != [])
  {
    hide LeftOf, OwnedOf, CountRows, ColumnIndex, Add;
  }

  lemma TableProblems(table: Table, scan: TableScan, run: string)
    ensures TableGapsOf(table, scan, run).problems == [] <==> RunsReadable(scan, run)
  {
    hide Readable, TableGapsOf, ColumnIndex, AllLeftOut;
    TableShape(table, scan, run);
    LeftProblems(table, scan.rows, ColumnIndex(scan.header, "run"));
  }

  lemma TableMatches(table: Table, scan: TableScan, run: string)
    requires run == "" || ValidRun(run)
    ensures TableGapsOf(table, scan, run).matched <==> run != "" && NamesRun(scan, run)
  {
    hide ValidRun, Named, Cell, TableGapsOf, ColumnIndex, RowsOf, Settled;
    TableShape(table, scan, run);
    if run != "" {
      RowsSettled(scan.rows, ColumnIndex(scan.header, "run"), run, ColumnsOf(scan));
    }
  }

  lemma MembersSettled(rows: seq<Row>, cols: Columns)
    ensures (forall i | 0 <= i < |rows| :: Settled(rows[i], cols)) <==> (forall r | r in rows :: Settled(r, cols))
  {
    hide Settled;
  }

  /** A table without the column has no row of a run. */
  lemma NoRunCell(scan: TableScan, run: string)
    requires run != "" && ColumnIndex(scan.header, "run") < 0
    ensures forall i | 0 <= i < |scan.rows| :: RunCell(scan, i) != run
  {
    hide ColumnIndex;
  }

  lemma SettledWords(scan: TableScan, cols: Columns)
    requires cols == ColumnsOf(scan)
    ensures forall i | 0 <= i < |scan.rows| ::
              Settled(scan.rows[i], cols) <==> SaysDone(StatusCell(scan, i)) || SaysNotAsked(StatusCell(scan, i))
  {
    hide ColumnIndex, IsDone, IsNa, SaysDone, SaysNotAsked, Cell;
    forall i | 0 <= i < |scan.rows|
      ensures Settled(scan.rows[i], cols) <==> SaysDone(StatusCell(scan, i)) || SaysNotAsked(StatusCell(scan, i))
    {
      StatusWords(StatusCell(scan, i));
    }
  }

  // ---------------------------------------------------------------- the report

  /** The rows of the table were read to its end. */
  predicate Whole(scan: TableScan) {
    scan.resumed == 0 && scan.fenceLine == 0
  }

  /** The targets count unless the plan is a micro plan without a table of them. */
  predicate TargetsCount(layers: TableScan, ranked: TableScan, target: string) {
    layers.header != [] || target == "" || ranked.header != []
  }

  /** A report says that nothing is owed exactly when the breadth was planned, by a layer matrix or by an activated micro
      plan; every row of the run says it is done or not asked for; the tables are whole; and, when a run is asked about,
      somebody opened it and whose each row is can be read. */
  lemma NothingOwedIff(doc: string, run: string, micro: string -> string)
    requires run == "" || ValidRun(run)
    ensures GapsForRun(doc, run, micro).Gaps?
    ensures var layers, ranked := ScanSection(Lines(doc), "Layer matrix"), ScanSection(Lines(doc), "Ranked targets");
            var swept, targets := layers.header != [], TargetsCount(layers, ranked, micro(doc));
            !Any(GapsForRun(doc, run, micro).report) <==>
            && (swept || micro(doc) != "")
            && (swept ==> AllSettled(layers, run) && RunsReadable(layers, run))
            && (targets ==> AllSettled(ranked, run) && RunsReadable(ranked, run) && Whole(ranked))
            && Whole(layers)
            && (run == "" || (swept && NamesRun(layers, run)) || (targets && NamesRun(ranked, run)) || (!swept && micro(doc) != ""))
  {
    hide ValidRun, AllSettled, RunsReadable, NamesRun, TableGapsOf, ScanSection, Lines, ColumnIndex;
    var layers, ranked := ScanSection(Lines(doc), LAYERS), ScanSection(Lines(doc), RANKED);
    TableVerdict(Layers, layers, run);
    TableVerdict(Targets, ranked, run);
  }

  /** A cut is reported at the line that ended the block when rows were left behind it, and else at the fence that was
      never closed. */
  lemma CutsAre(table: Table, s: TableScan, line: nat)
    ensures (table, line) in CutsOf(table, s) <==>
            (s.resumed != 0 && line == s.ended) || (s.resumed == 0 && s.fenceLine != 0 && line == s.fenceLine)
    ensures |CutsOf(table, s)| <= 1 && forall c | c in CutsOf(table, s) :: c.0 == table
  {}
}
