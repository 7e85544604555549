/** What a run still owes (internal/plan/gaps.go). The prose of the report is left out: an owed row is its line,
    its name and its owner. */
module Gaps {
  import opened Text
  import opened Cells
  import opened Scan
  import opened Section

  datatype Table = Layers | Targets

  datatype Owed = Owed(line: nat, name: string, owner: string)
  datatype Unknown = Unknown(table: Table, status: string, line: nat, name: string)
  datatype Problem = NoRunColumn(table: Table) | BadRun(table: Table, line: nat, raw: string)

  datatype Report = Report(
    run: string, noLayerMatrix: bool, micro: string,
    unswept: seq<Owed>, layersDone: nat, layersTotal: nat,
    pending: seq<Owed>, targetsDone: nat, targetsTotal: nat,
    unrecognized: seq<Unknown>, interrupted: seq<(Table, nat)>,
    unscopedLayers: nat, unscopedTargets: nat, runMissing: bool, problems: seq<Problem>)

  predicate IsDone(s: string) {
    Fold(s) in {"done", "fixed", "closed"}
  }

  predicate IsNa(s: string) {
    Fold(s) in {"n/a", "na", "none", "skipped"}
  }

  predicate IsOwed(s: string) {
    Fold(s) in {"pending", "inprogress", "in progress", "in-progress", "blocked"}
  }

  /** `ValidateRun`: a slug of 2 to 64 characters, and neither reserved word. */
  predicate ValidRun(s: string) {
    && 2 <= |s| <= 64 && SlugStart(s[0])
    && (forall i | 1 <= i < |s| :: SlugStart(s[i]) || s[i] == '-')
    && s != "all" && s != "none"
  }

  predicate SlugStart(c: char) {
    'a' <= c <= 'z' || '0' <= c <= '9'
  }

  // ---------------------------------------------------------------- one row

  /** Where a breadth table keeps what a row is counted by. */
  datatype Columns = Columns(skill: int, status: int)

  /** The status is no word of the breadth vocabulary. */
  predicate IsUnknown(s: string) {
    Trim(s) != "" && !IsDone(s) && !IsNa(s) && !IsOwed(s)
  }

  /** What one row adds to a report. */
  datatype Count = Count(total: nat, done: nat, owed: seq<Owed>, unknown: seq<Unknown>)

  const NOTHING := Count(0, 0, [], [])

  function CountRow(table: Table, r: Row, cols: Columns): Count {
    var status, name := Cell(r.cells, cols.status), Cell(r.cells, 0);
    if IsNa(status) then NOTHING
    else if IsDone(status) then Count(1, 1, [], [])
    else Count(1, 0, [Owed(r.line, name, if table.Layers? then Cell(r.cells, cols.skill) else "")],
               if IsUnknown(status) then [Unknown(table, status, r.line, name)] else [])
  }

  function Add(a: Count, b: Count): Count {
    Count(a.total + b.total, a.done + b.done, a.owed + b.owed, a.unknown + b.unknown)
  }

  function CountRows(table: Table, rows: seq<Row>, cols: Columns): Count {
    if rows == [] then NOTHING
    else Add(CountRows(table, rows[..|rows| - 1], cols), CountRow(table, rows[|rows| - 1], cols))
  }

  // ---------------------------------------------------------------- which rows a run owns

  /** Who a row's Run cell gives it to. */
  datatype Owner = Nobody | Malformed | Of(run: string)

  function OwnerOf(r: Row, iRun: int): Owner {
    var raw := Cell(r.cells, iRun);
    if raw == "" then Nobody else if !ValidRun(raw) then Malformed else Of(raw)
  }

  function RowsOf(rows: seq<Row>, iRun: int, owner: Owner): seq<Row> {
    if rows == [] then []
    else
      var before := RowsOf(rows[..|rows| - 1], iRun, owner);
      if OwnerOf(rows[|rows| - 1], iRun) == owner then before + [rows[|rows| - 1]] else before
  }

  // ---------------------------------------------------------------- one table

  /** What one table adds to a report: its rows, the ones left out, the problems, and whether the run owns any. */
  datatype TableGaps = TableGaps(count: Count, unscoped: nat, problems: seq<Problem>, matched: bool)

  const EMPTY_TABLE := TableGaps(NOTHING, 0, [], false)

  function Counted(c: Count): TableGaps {
    TableGaps(c, 0, [], false)
  }

  function Sum(a: TableGaps, b: TableGaps): TableGaps {
    TableGaps(Add(a.count, b.count), a.unscoped + b.unscoped, a.problems + b.problems, a.matched || b.matched)
  }

  /** What a row no run is asked about adds: a row of nobody, a problem, or nothing. */
  function LeftOut(table: Table, r: Row, iRun: int): TableGaps {
    match OwnerOf(r, iRun)
    case Nobody => TableGaps(NOTHING, 1, [], false)
    case Malformed => TableGaps(NOTHING, 0, [BadRun(table, r.line, Cell(r.cells, iRun))], false)
    case Of(_) => EMPTY_TABLE
  }

  function AllLeftOut(table: Table, rows: seq<Row>, iRun: int): TableGaps {
    if rows == [] then EMPTY_TABLE
    else Sum(AllLeftOut(table, rows[..|rows| - 1], iRun), LeftOut(table, rows[|rows| - 1], iRun))
  }

  function OwnedOf(scan: TableScan, iRun: int, run: string): seq<Row> {
    if run == "" then scan.rows else if iRun < 0 then [] else RowsOf(scan.rows, iRun, Of(run))
  }

  function LeftOf(table: Table, scan: TableScan, iRun: int, run: string): TableGaps {
    if run == "" then EMPTY_TABLE
    else if iRun < 0 then TableGaps(NOTHING, 0, [NoRunColumn(table)], false)
    else AllLeftOut(table, scan.rows, iRun)
  }

  function ColumnsOf(scan: TableScan): Columns {
    Columns(ColumnIndex(scan.header, "skill"), ColumnIndex(scan.header, "status"))
  }

  function TableGapsOf(table: Table, scan: TableScan, run: string): TableGaps {
    var iRun := ColumnIndex(scan.header, "run");
    var owned := OwnedOf(scan, iRun, run);
    Sum(LeftOf(table, scan, iRun, run), Counted(CountRows(table, owned, ColumnsOf(scan)))).(matched := run != "" && owned != [])
  }

  function CutsOf(table: Table, s: TableScan): seq<(Table, nat)> {
    if !Interrupted(s) then [] else [(table, if s.resumed != 0 then s.ended else s.fenceLine)]
  }

  datatype Gaps = Gaps(report: Report) | BadSlug

  /** `GapsForRun`. `micro` answers the file an activated micro plan names, and nothing for any other plan. */
  function GapsForRun(doc: string, run: string, micro: string -> string): Gaps {
    if run != "" && !ValidRun(run) then BadSlug
    else
      var lines := Lines(doc);
      var layers, ranked := ScanSection(lines, LAYERS), ScanSection(lines, RANKED);
      var target := if layers.header == [] then micro(doc) else "";
      var l := if layers.header != [] then TableGapsOf(Layers, layers, run) else EMPTY_TABLE;
      var ranks := target == "" || ranked.header != [];
      var t := if ranks then TableGapsOf(Targets, ranked, run) else EMPTY_TABLE;
      Gaps(ReportOf(run, layers.header == [] && target == "", target, l, t,
                    CutsOf(Layers, layers) + if ranks then CutsOf(Targets, ranked) else []))
  }

  function ReportOf(run: string, noMatrix: bool, micro: string, l: TableGaps, t: TableGaps, cuts: seq<(Table, nat)>): Report {
    Report(
      run, noMatrix, micro,
      l.count.owed, l.count.done, l.count.total, t.count.owed, t.count.done, t.count.total,
      l.count.unknown + t.count.unknown, cuts, l.unscoped, t.unscoped,
      run != "" && !l.matched && !t.matched && micro == "", l.problems + t.problems)
  }

  /** `Gaps.Any`. */
  predicate Any(g: Report) {
    g.noLayerMatrix || g.unswept != [] || g.targetsDone < g.targetsTotal || g.interrupted != [] || g.runMissing || g.problems != []
  }

  // ---------------------------------------------------------------- the passes, over one shared report

  function AddTable(g: Report, table: Table, t: TableGaps): Report {
    var h := g.(unrecognized := g.unrecognized + t.count.unknown, problems := g.problems + t.problems);
    if table.Layers? then
      h.(unswept := g.unswept + t.count.owed, layersDone := g.layersDone + t.count.done,
         layersTotal := g.layersTotal + t.count.total, unscopedLayers := g.unscopedLayers + t.unscoped)
    else
      h.(pending := g.pending + t.count.owed, targetsDone := g.targetsDone + t.count.done,
         targetsTotal := g.targetsTotal + t.count.total, unscopedTargets := g.unscopedTargets + t.unscoped)
  }

  lemma AddTwice(g: Report, table: Table, a: TableGaps, b: TableGaps)
    ensures AddTable(AddTable(g, table, a), table, b) == AddTable(g, table, Sum(a, b))
  {
    assert (g.unrecognized + a.count.unknown) + b.count.unknown == g.unrecognized + (a.count.unknown + b.count.unknown);
    assert (g.problems + a.problems) + b.problems == g.problems + (a.problems + b.problems);
    assert (g.unswept + a.count.owed) + b.count.owed == g.unswept + (a.count.owed + b.count.owed);
    assert (g.pending + a.count.owed) + b.count.owed == g.pending + (a.count.owed + b.count.owed);
  }

  /** `matched` is not part of the report. */
  lemma AddMatched(g: Report, table: Table, t: TableGaps, matched: bool)
    ensures AddTable(g, table, t.(matched := matched)) == AddTable(g, table, t)
  {}

  lemma AddNothing(g: Report, table: Table, matched: bool)
    ensures AddTable(g, table, TableGaps(NOTHING, 0, [], matched)) == g
  {
    assert g.unrecognized + [] == g.unrecognized && g.problems + [] == g.problems;
    assert g.unswept + [] == g.unswept && g.pending + [] == g.pending;
  }

  class Tally {
    var g: Report

    constructor (run: string)
      ensures g == Report(run, false, "", [], 0, 0, [], 0, 0, [], [], 0, 0, false, [])
    {
      g := Report(run, false, "", [], 0, 0, [], 0, 0, [], [], 0, 0, false, []);
    }

    /** `layerRowGaps`. */
    method LayerRowGaps(r: Row, cols: Columns)
      modifies this
      ensures g == AddTable(old(g), Layers, Counted(CountRow(Layers, r, cols)))
    {
      hide IsNa, IsDone, IsUnknown, Cell;
      AddNothing(g, Layers, false);
      var status := Cell(r.cells, cols.status);
      if IsNa(status) {
        return;
      }
      g := g.(layersTotal := g.layersTotal + 1);
      if IsDone(status) {
        g := g.(layersDone := g.layersDone + 1);
        return;
      }
      g := g.(unswept := g.unswept + [Owed(r.line, Cell(r.cells, 0), Cell(r.cells, cols.skill))]);
      if IsUnknown(status) {
        g := g.(unrecognized := g.unrecognized + [Unknown(Layers, status, r.line, Cell(r.cells, 0))]);
      }
    }

    /** `rankedRowGaps`. */
    method RankedRowGaps(r: Row, cols: Columns)
      modifies this
      ensures g == AddTable(old(g), Targets, Counted(CountRow(Targets, r, cols)))
    {
      hide IsNa, IsDone, IsUnknown, Cell;
      AddNothing(g, Targets, false);
      var status := Cell(r.cells, cols.status);
      if IsNa(status) {
        return;
      }
      g := g.(targetsTotal := g.targetsTotal + 1);
      if IsDone(status) {
        g := g.(targetsDone := g.targetsDone + 1);
        return;
      }
      g := g.(pending := g.pending + [Owed(r.line, Cell(r.cells, 0), "")]);
      if IsUnknown(status) {
        g := g.(unrecognized := g.unrecognized + [Unknown(Targets, status, r.line, Cell(r.cells, 0))]);
      }
    }

    /** `scopedRow`. */
    method ScopedRow(table: Table, r: Row, iRun: int, run: string) returns (owned: bool)
      requires iRun >= 0 && ValidRun(run)
      modifies this
      ensures owned == (OwnerOf(r, iRun) == Of(run))
      ensures g == AddTable(old(g), table, LeftOut(table, r, iRun))
    {
      hide ValidRun, Cell;
      AddNothing(g, table, false);
      var raw := Cell(r.cells, iRun);
      if raw == "" {
        if table.Layers? {
          g := g.(unscopedLayers := g.unscopedLayers + 1);
        } else {
          g := g.(unscopedTargets := g.unscopedTargets + 1);
        }
        return false;
      }
      if !ValidRun(raw) {
        g := g.(problems := g.problems + [BadRun(table, r.line, raw)]);
        return false;
      }
      return raw == run;
    }

    /** `ownedRows`: the rows a run owns, and what the others leave in the report. */
    method OwnedRows(table: Table, scan: TableScan, iRun: int, run: string) returns (rows: seq<Row>, matched: bool)
      requires run == "" || ValidRun(run)
      modifies this
      ensures rows == OwnedOf(scan, iRun, run) && matched == (run != "" && rows != [])
      ensures g == AddTable(old(g), table, LeftOf(table, scan, iRun, run))
    {
      hide ValidRun, AddTable, OwnerOf, Sum, LeftOut;
      AddNothing(g, table, false);
      if run == "" {
        return scan.rows, false;
      }
      if iRun < 0 {
        MissingColumn(g, table);
        g := g.(problems := g.problems + [NoRunColumn(table)]);
        return [], false;
      }
      rows := [];
      ghost var g0 := g;
      for k := 0 to |scan.rows|
        invariant rows == RowsOf(scan.rows[..k], iRun, Of(run))
        invariant g == AddTable(g0, table, AllLeftOut(table, scan.rows[..k], iRun))
      {
        assert scan.rows[..k + 1][..k] == scan.rows[..k];
        AddTwice(g0, table, AllLeftOut(table, scan.rows[..k], iRun), LeftOut(table, scan.rows[k], iRun));
        var owned := ScopedRow(table, scan.rows[k], iRun, run);
        if owned {
          rows := rows + [scan.rows[k]];
        }
      }
      assert scan.rows[..|scan.rows|] == scan.rows;
      return rows, rows != [];
    }

    /** `layersGaps` and `rankedGaps`, which differ in the row pass. */
    method TablePass(table: Table, scan: TableScan, run: string) returns (matched: bool)
      requires run == "" || ValidRun(run)
      modifies this
      ensures var t := if table.Layers? && scan.header == [] then EMPTY_TABLE else TableGapsOf(table, scan, run);
              matched == t.matched && g == AddTable(old(g), table, t).(interrupted := old(g).interrupted + CutsOf(table, scan))
    {
      hide ValidRun, AddTable, OwnedOf, LeftOf, ColumnIndex, CountRow, Interrupted, Sum;
      matched := false;
      ghost var g0 := g;
      AddNothing(g, table, false);
      if table.Targets? || scan.header != [] {
        var iRun := ColumnIndex(scan.header, "run");
        var cols := Columns(ColumnIndex(scan.header, "skill"), ColumnIndex(scan.header, "status"));
        var rows;
        rows, matched := OwnedRows(table, scan, iRun, run);
        ghost var left := g;
        AddNothing(g, table, false);
        for k := 0 to |rows|
          invariant g == AddTable(left, table, Counted(CountRows(table, rows[..k], cols)))
        {
          assert rows[..k + 1][..k] == rows[..k];
          AddTwice(left, table, Counted(CountRows(table, rows[..k], cols)), Counted(CountRow(table, rows[k], cols)));
          CountedNext(table, rows[..k + 1], cols);
          if table.Layers? {
            LayerRowGaps(rows[k], cols);
          } else {
            RankedRowGaps(rows[k], cols);
          }
        }
        assert rows[..|rows|] == rows;
        AddTwice(g0, table, LeftOf(table, scan, iRun, run), Counted(CountRows(table, rows, cols)));
        AddMatched(g0, table, Sum(LeftOf(table, scan, iRun, run), Counted(CountRows(table, rows, cols))), matched);
      }
      KeepsCuts(g0, table, if table.Layers? && scan.header == [] then EMPTY_TABLE else TableGapsOf(table, scan, run));
      if Interrupted(scan) {
        g := g.(interrupted := g.interrupted + [(table, if scan.resumed != 0 then scan.ended else scan.fenceLine)]);
      } else {
        assert g.interrupted + [] == g.interrupted;
      }
    }
  }

  lemma CountedNext(table: Table, rows: seq<Row>, cols: Columns)
    requires rows != []
    ensures Counted(CountRows(table, rows, cols)) ==
            Sum(Counted(CountRows(table, rows[..|rows| - 1], cols)), Counted(CountRow(table, rows[|rows| - 1], cols)))
  {
    hide CountRow;
  }

  lemma MissingColumn(g: Report, table: Table)
    ensures AddTable(g, table, TableGaps(NOTHING, 0, [NoRunColumn(table)], false)) ==
            g.(problems := g.problems + [NoRunColumn(table)])
  {
    AddNothing(g, table, false);
  }

  lemma KeepsCuts(g: Report, table: Table, t: TableGaps)
    ensures AddTable(g, table, t).interrupted == g.interrupted
  {}

  /** `GapsForRun`, over one shared report. */
  method Compute(doc: string, run: string, micro: string -> string) returns (r: Gaps)
    ensures r == GapsForRun(doc, run, micro)
  {
    hide ScanLines, ValidRun, TableGapsOf, CutsOf, Lines, RegionOf, ScanSection, Interrupted, FirstHeads;
    if run != "" && !ValidRun(run) {
      return BadSlug;
    }
    var lines := Lines(doc);
    var tally := new Tally(run);
    var layers := ScanSection(lines, LAYERS);
    var target := "";
    if layers.header == [] {
      target := micro(doc);
      if target != "" {
        tally.g := tally.g.(micro := target);
      } else {
        tally.g := tally.g.(noLayerMatrix := true);
      }
    }
    var matched := tally.TablePass(Layers, layers, run);
    var ranked := ScanSection(lines, RANKED);
    if tally.g.micro == "" || ranked.header != [] {
      var m := tally.TablePass(Targets, ranked, run);
      matched := m || matched;
    }
    if run != "" && !matched && tally.g.micro == "" {
      tally.g := tally.g.(runMissing := true);
    }
    return Gaps(tally.g);
  }
}
