/** What an upgrade leaves: the same gaps under the stamped run, nothing to do a second time, and every other
    section as it was. */
module UpgradeLaws {
  import opened Text
  import opened Cells
  import opened Rows
  import opened Scan
  import opened ScanMeaning
  import opened Section
  import opened Record
  import opened Gaps
  import opened Upgrade
  import opened UpgradeScan

  // ---------------------------------------------------------------- one table

  /** The table can be widened as it stands: its header, its first separator and its rows end in a pipe of their
      own, and every row has as many cells as the header. */
  ghost predicate Rectangular(lines: seq<string>, name: string) {
    var s, hs := ScanSection(lines, name), HeadLines(lines, name);
    && (hs.0 < |lines| ==> EndsClosed(lines[hs.0]))
    && (hs.1 < |lines| ==> EndsClosed(lines[hs.1]))
    && forall m | 0 <= m < |s.rows| :: RowFits(lines, s, m)
  }

  ghost predicate RowFits(lines: seq<string>, s: TableScan, m: nat)
    requires m < |s.rows|
  {
    1 <= s.rows[m].line <= |lines| && EndsClosed(lines[s.rows[m].line - 1]) && |s.rows[m].cells| == |s.header|
  }

  lemma AppendKind(line: string, value: string, separator: bool)
    requires EndsClosed(line) && Plain(value)
    ensures KindOf(AppendCell(line, value, separator)) ==
            Pipe(CellsOf(line) + [if separator then "---" else Trim(value)])
  {
    hide EndsClosed, AppendCell, CellsOf, KindOf, IsRow;
    AppendReads(line, value, separator);
    RowKind(AppendCell(line, value, separator));
  }

  lemma RunPlain(run: string)
    requires run == "" || ValidRun(run)
    ensures Plain(run) && OneLine(run) && Trim(run) == run
  {
    if run != "" {
      forall i | 0 <= i < |run| ensures run[i] != '|' && run[i] != '\\' && !IsSpace(run[i]) && run[i] != '\n' {
        assert i == 0 || i >= 1;
        Printable(run[i]);
      }
      TrimBare(run);
    } else {
      TrimEmptyIff(run);
    }
  }

  lemma RunWord()
    ensures Plain("Run") && Trim("Run") == "Run"
  {
    Printable('R');
    Printable('n');
    TrimBare("Run");
  }

  lemma PipeCells(lines: seq<string>)
    ensures forall j | 0 <= j < |lines| :: Kinds(lines)[j].Pipe? ==> Kinds(lines)[j].cells != []
  {
    hide Trim;
  }

  /** A data row of the block is a row of the scan, and the other way around. */
  lemma DataIsRow(ks: seq<Kind>, at: nat, i: nat)
    requires i < |ks|
    ensures DataAt(ks, i) <==> exists m | 0 <= m < |ScanKinds(ks, at).rows| :: ScanKinds(ks, at).rows[m].line == at + i + 1
  {
    hide ScanKinds, DataRows, HeadBefore, IsData;
    var h, e := ScanBlock(ks, at);
    var rows := ScanKinds(ks, at).rows;
    if DataAt(ks, i) {
      DataRowsAre(ks, at, h + 1, e, i);
    }
    if m :| 0 <= m < |rows| && rows[m].line == at + i + 1 {
      var j := DataRowPlace(ks, at, h + 1, e, m);
    }
  }

  /** The kind of a line `EditsOf` may have rewritten. */
  lemma EditedKind(lines: seq<string>, name: string, run: string, i: nat, ks: seq<Kind>, start: nat, line: string)
    requires Rectangular(lines, name) && TableEdit(lines, name, run).Edit? && (run == "" || ValidRun(run))
    requires RegionOf(lines, name).Region? && start == RegionOf(lines, name).heading + 1
    requires ks == Kinds(lines[start..RegionOf(lines, name).end]) && i < |ks|
    requires var m := TableEdit(lines, name, run).lines; line == if start + i in m then m[start + i] else lines[start + i]
    ensures WidenedAt(ks, i, KindOf(line), run)
  {
    hide RegionOf, EndsClosed, AppendCell, CellsOf, KindOf, ColumnIndex, Interrupted, IsSeparator, IsData, FirstPipe, FirstSeparator,
         DataAt, ScanKinds, ValidRun, Trim;
    var k, s, hs := start + i, ScanSection(lines, name), HeadLines(lines, name);
    assert ks[i] == KindOf(lines[k]);
    RowsInLines(lines, name);
    RowEditsAre(lines, s.rows, run, k);
    DataIsRow(ks, start, i);
    RunPlain(run);
    RunWord();
    var m := TableEdit(lines, name, run).lines;
    assert m == EditsOf(lines, hs.0, hs.1, s.rows, run);
    HeadsOf(lines, name, ks, start);
    if k in RowEdits(lines, s.rows, run) {
      RowEditedKind(lines, name, run, i, ks, start);
    } else if k == hs.1 {
      SeparatorNotHead(ks, i);
      PipeKind(lines[k]);
      AppendKind(lines[k], "", true);
    } else if k == hs.0 {
      PipeKind(lines[k]);
      AppendKind(lines[k], "Run", false);
    }
  }

  lemma RowEditedKind(lines: seq<string>, name: string, run: string, i: nat, ks: seq<Kind>, start: nat)
    requires Rectangular(lines, name) && (run == "" || ValidRun(run)) && RegionOf(lines, name).Region?
    requires start == RegionOf(lines, name).heading + 1
    requires ks == Kinds(lines[start..RegionOf(lines, name).end]) && i < |ks|
    requires exists j | 0 <= j < |ScanSection(lines, name).rows| :: ScanSection(lines, name).rows[j].line == start + i + 1
    requires DataAt(ks, i)
    ensures WidenedAt(ks, i, KindOf(AppendCell(lines[start + i], run, false)), run)
  {
    hide RegionOf, EndsClosed, AppendCell, CellsOf, KindOf, IsSeparator, IsData, FirstPipe, DataAt, ScanSection, ValidRun, Trim, IsRow;
    var k, s := start + i, ScanSection(lines, name);
    assert ks[i] == KindOf(lines[start..RegionOf(lines, name).end][i]);
    var j :| 0 <= j < |s.rows| && s.rows[j].line == k + 1;
    assert RowFits(lines, s, j);
    RunPlain(run);
    RowLine(lines, name, j);
    RowKind(lines[k]);
    AppendKind(lines[k], run, false);
    DataNotHead(ks, i);
  }

  lemma DataNotHead(ks: seq<Kind>, i: nat)
    requires i < |ks| && DataAt(ks, i)
    ensures i != FirstPipe(ks, 0)
  {
    hide IsData;
  }

  lemma SeparatorNotHead(ks: seq<Kind>, i: nat)
    requires FirstPipe(ks, 0) < |ks| && i == FirstSeparator(ks, FirstPipe(ks, 0) + 1) < |ks|
    ensures i != FirstPipe(ks, 0) && !DataAt(ks, i) && ks[i].Pipe? && IsSeparator(ks[i].cells)
  {
    hide IsSeparator, Live, FirstPipe, DataAt, FirstSeparator;
    SeparatorNoData(ks, i);
  }

  lemma SeparatorNoData(ks: seq<Kind>, i: nat)
    requires i < |ks| && ks[i].Pipe? && IsSeparator(ks[i].cells)
    ensures !DataAt(ks, i)
  {
    hide IsSeparator, Placeholder, LivePipe, FirstPipe, FirstClose;
  }

  /** The header line and the separator line, as positions of the region. */
  lemma HeadsOf(lines: seq<string>, name: string, ks: seq<Kind>, start: nat)
    requires RegionOf(lines, name).Region? && start == RegionOf(lines, name).heading + 1
    requires ks == Kinds(lines[start..RegionOf(lines, name).end])
    requires HeadLines(lines, name).0 < |lines| && HeadLines(lines, name).1 < |lines|
    ensures var h := FirstPipe(ks, 0);
            h < |ks| && ks[h].Pipe? && HeadLines(lines, name).0 == start + h &&
            FirstSeparator(ks, h + 1) < |ks| && HeadLines(lines, name).1 == start + FirstSeparator(ks, h + 1)
  {
    hide RegionOf, IsSeparator, KindOf, FirstSeparator;
  }

  /** One table of an upgrade: it reads back with the Run column, whatever the rest of the edits does to other
      lines. */
  lemma TableWidened(lines: seq<string>, lines': seq<string>, name: string, run: string)
    requires Rectangular(lines, name) && TableEdit(lines, name, run).Edit? && (run == "" || ValidRun(run))
    requires SameHeadings(lines, lines')
    requires var r, m := RegionOf(lines, name), TableEdit(lines, name, run).lines;
             r.Region? ==> forall k | r.heading < k < r.end :: lines'[k] == if k in m then m[k] else lines[k]
    ensures RegionOf(lines, name).Region?
    ensures ScanSection(lines', name) == WithRun(ScanSection(lines, name), run)
  {
    hide RegionOf, Rectangular, SameHeadings, ScanKinds, WidenedAt, KindOf, WithRun, ValidRun, ColumnIndex, Interrupted, EditsOf;
    RegionSame(lines, lines', name);
    var r := RegionOf(lines, name);
    assert r.Region?;
    var start := r.heading + 1;
    var ks, ks' := Kinds(lines[start..r.end]), Kinds(lines'[start..r.end]);
    forall i | 0 <= i < |ks| ensures WidenedAt(ks, i, ks'[i], run) {
      EditedKind(lines, name, run, i, ks, start, lines'[start + i]);
      assert lines'[start..r.end][i] == lines'[start + i];
    }
    PipeCells(lines[start..r.end]);
    ScanWidened(ks, ks', start, run);
  }

  // ---------------------------------------------------------------- both tables

  function EditLines(e: Edit): map<nat, string> {
    if e.Edit? then e.lines else map[]
  }

  function AllEdits(lines: seq<string>, run: string): map<nat, string> {
    EditLines(TableEdit(lines, LAYERS, run)) + EditLines(TableEdit(lines, RANKED, run))
  }

  /** A line whose first character that is no space is a pipe heads no section. */
  lemma PipeNoHeading(line: string, a: nat)
    requires a < |line| && Spaces(line, 0, a) && line[a] == '|'
    ensures !IsHeading(line)
  {
    hide Spaces, IsSpace, LastTo;
    Printable('|');
    if Trim(line) != "" {
      LeadIs(line, a);
      assert Trim(line)[0] == '|';
    }
  }

  lemma LeadIs(line: string, a: nat)
    requires a < |line| && Spaces(line, 0, a) && !IsSpace(line[a])
    ensures Lead(line) == a
  {
    hide IsSpace;
  }

  lemma PipeLead(line: string)
    requires KindOf(line).Pipe?
    ensures Lead(line) < |line| && line[Lead(line)] == '|' && !IsHeading(line)
  {
    hide CellsOf, IsSpace, Spaces, LeadFrom, LastTo;
    assert Trim(line)[0] == '|';
    PipeNoHeading(line, Lead(line));
  }

  lemma PipeNotStripped(line: string, a: nat)
    requires a < |line| && line[a] == '|'
    ensures a < StripTo(line, |line|)
  {}

  lemma AppendedPrefix(line: string, value: string, separator: bool)
    ensures var n := StripTo(line, |line|);
            n <= |AppendCell(line, value, separator)| && AppendCell(line, value, separator)[..n] == line[..n]
  {
    hide StripTo;
  }

  lemma AppendedOneLine(line: string, value: string, separator: bool)
    requires OneLine(line) && OneLine(value)
    ensures OneLine(AppendCell(line, value, separator))
  {
    hide StripTo;
  }

  /** An appended cell leaves a row a row of one line. */
  lemma AppendKeeps(line: string, value: string, separator: bool)
    requires KindOf(line).Pipe? && OneLine(line) && OneLine(value)
    ensures !IsHeading(line) && !IsHeading(AppendCell(line, value, separator)) && OneLine(AppendCell(line, value, separator))
  {
    hide CellsOf, KindOf, IsHeading, Trim, IsSpace, LeadFrom, AppendCell, StripTo, OneLine;
    PipeLead(line);
    var a := Lead(line);
    PipeNotStripped(line, a);
    AppendedPrefix(line, value, separator);
    AppendedOneLine(line, value, separator);
    var line' := AppendCell(line, value, separator);
    var n := StripTo(line, |line|);
    assert forall i | 0 <= i < n :: line'[i] == line'[..n][i];
    assert forall i | 0 <= i < n :: line[i] == line[..n][i];
    PipeNoHeading(line', a);
  }

  /** The line an edit rewrites, and what it rewrites it to. */
  ghost predicate Rewritten(lines: seq<string>, name: string, k: nat, line: string) {
    var r := RegionOf(lines, name);
    && r.Region? && r.heading < k < r.end && KindOf(lines[k]).Pipe?
    && exists value, separator :: OneLine(value) && line == AppendCell(lines[k], value, separator)
  }

  lemma RowEdited(lines: seq<string>, name: string, run: string, k: nat)
    requires InLines(lines, ScanSection(lines, name).rows) && k in RowEdits(lines, ScanSection(lines, name).rows, run)
    requires run == "" || ValidRun(run)
    ensures Rewritten(lines, name, k, RowEdits(lines, ScanSection(lines, name).rows, run)[k])
  {
    hide RegionOf, AppendCell, CellsOf, KindOf, ScanSection, ValidRun, Trim, InLines, IsData, RowEdits;
    var rows := ScanSection(lines, name).rows;
    RowEditsAre(lines, rows, run, k);
    RunPlain(run);
    var j :| 0 <= j < |rows| && rows[j].line == k + 1;
    RowLine(lines, name, j);
    RowKind(lines[k]);
  }

  lemma HeadEdited(lines: seq<string>, name: string, k: nat, value: string, separator: bool)
    requires HeadLines(lines, name).0 < |lines| && HeadLines(lines, name).1 < |lines| && OneLine(value)
    requires k == HeadLines(lines, name).0 || k == HeadLines(lines, name).1
    ensures Rewritten(lines, name, k, AppendCell(lines[k], value, separator))
  {
    hide AppendCell, KindOf, RegionOf, HeadLines, OneLine;
    HeadsArePipes(lines, name, k);
    assert OneLine(value) && AppendCell(lines[k], value, separator) == AppendCell(lines[k], value, separator);
  }

  lemma HeadsArePipes(lines: seq<string>, name: string, k: nat)
    requires HeadLines(lines, name).0 < |lines| && HeadLines(lines, name).1 < |lines|
    requires k == HeadLines(lines, name).0 || k == HeadLines(lines, name).1
    ensures var r := RegionOf(lines, name); r.Region? && r.heading < k < r.end && KindOf(lines[k]).Pipe?
  {
    hide KindOf, FirstPipe, FirstSeparator, RegionOf, HeadLines;
    NoHeadLines(lines, name);
    var r := RegionOf(lines, name);
    var start := r.heading + 1;
    var ks := Kinds(lines[start..r.end]);
    HeadsOf(lines, name, ks, start);
    PipeAt(ks, k - start);
    assert ks[k - start] == KindOf(lines[start..r.end][k - start]);
  }

  lemma NoHeadLines(lines: seq<string>, name: string)
    requires HeadLines(lines, name).0 < |lines|
    ensures RegionOf(lines, name).Region?
  {
    hide RegionOf, HeaderAndSeparator;
  }

  lemma EditRewrites(lines: seq<string>, name: string, run: string, k: nat)
    requires (run == "" || ValidRun(run)) && k in EditLines(TableEdit(lines, name, run))
    ensures Rewritten(lines, name, k, EditLines(TableEdit(lines, name, run))[k])
  {
    hide RegionOf, AppendCell, ColumnIndex, Interrupted, ScanSection, HeadLines, ValidRun, Rewritten, RowEdits, InLines;
    var s, hs := ScanSection(lines, name), HeadLines(lines, name);
    RowsInLines(lines, name);
    assert EditLines(TableEdit(lines, name, run)) == EditsOf(lines, hs.0, hs.1, s.rows, run);
    if k in RowEdits(lines, s.rows, run) {
      RowEdited(lines, name, run, k);
    } else if k == hs.1 {
      HeadEdited(lines, name, k, "", true);
    } else {
      HeadEdited(lines, name, k, "Run", false);
    }
  }

  /** Every edit of a table rewrites a row of its own section, by appending a cell. */
  lemma EditInside(lines: seq<string>, name: string, run: string, k: nat)
    requires AllOneLine(lines) && (run == "" || ValidRun(run)) && k in EditLines(TableEdit(lines, name, run))
    ensures var r, line := RegionOf(lines, name), EditLines(TableEdit(lines, name, run))[k];
            r.Region? && r.heading < k < r.end && !IsHeading(lines[k]) && !IsHeading(line) && OneLine(line)
  {
    hide RegionOf, AppendCell, KindOf, ValidRun, IsHeading, EditLines, TableEdit, OneLine;
    EditRewrites(lines, name, run, k);
    var value, separator :| OneLine(value) && EditLines(TableEdit(lines, name, run))[k] == AppendCell(lines[k], value, separator);
    assert OneLine(lines[k]);
    AppendKeeps(lines[k], value, separator);
  }

  lemma PipeAt(ks: seq<Kind>, i: nat)
    requires i < |ks| && FirstPipe(ks, 0) < |ks|
    requires i == FirstPipe(ks, 0) || i == FirstSeparator(ks, FirstPipe(ks, 0) + 1)
    ensures ks[i].Pipe?
  {
    hide IsSeparator;
  }

  lemma NamesDiffer()
    ensures !FoldEq(LAYERS, RANKED) && !FoldEq(FINDINGS, LAYERS) && !FoldEq(FINDINGS, RANKED)
    ensures !FoldEq(LEDGER, FINDINGS) && !FoldEq(LEDGER, LAYERS) && !FoldEq(LEDGER, RANKED)
  {
    hide Fold, FoldEq;
    DifferFirst(LAYERS, RANKED);
    DifferFirst(FINDINGS, LAYERS);
    DifferFirst(FINDINGS, RANKED);
    DifferFirst(LEDGER, FINDINGS);
    DifferFirst(LEDGER, LAYERS);
    DifferFirst(LEDGER, RANKED);
  }

  lemma DifferFirst(a: string, b: string)
    requires a != "" && b != "" && FoldChar(a[0]) != FoldChar(b[0])
    ensures !FoldEq(a, b)
  {
    assert Fold(a)[0] == FoldChar(a[0]) && Fold(b)[0] == FoldChar(b[0]);
  }

  lemma EditsKeepHeadings(lines: seq<string>, run: string)
    requires AllOneLine(lines) && (run == "" || ValidRun(run))
    ensures SameHeadings(lines, Apply(lines, AllEdits(lines, run))) && AllOneLine(Apply(lines, AllEdits(lines, run)))
  {
    hide TableEdit, IsHeading, ValidRun, RegionOf, OneLine;
    var m := AllEdits(lines, run);
    forall k | 0 <= k < |lines| && k in m ensures !IsHeading(lines[k]) && !IsHeading(m[k]) && OneLine(m[k]) {
      EditInside(lines, if k in EditLines(TableEdit(lines, RANKED, run)) then RANKED else LAYERS, run, k);
    }
  }

  /** The lines of an upgraded document. */
  lemma UpgradedLines(doc: string, run: string)
    requires UpgradeDoc(doc, run).Upgraded?
    ensures run == "" || ValidRun(run)
    ensures Lines(UpgradeDoc(doc, run).doc) == Apply(Lines(doc), AllEdits(Lines(doc), run))
    ensures SameHeadings(Lines(doc), Lines(UpgradeDoc(doc, run).doc))
    ensures UpgradeDoc(doc, run).changed == 2 <==> TableEdit(Lines(doc), LAYERS, run).Edit? && TableEdit(Lines(doc), RANKED, run).Edit?
    ensures !TableEdit(Lines(doc), LAYERS, run).Halt? && !TableEdit(Lines(doc), RANKED, run).Halt?
  {
    hide TableEdit, ValidRun, Lines, Unlines, SameHeadings;
    var lines := Lines(doc);
    EditsKeepHeadings(lines, run);
    var l, t := TableEdit(lines, LAYERS, run), TableEdit(lines, RANKED, run);
    if l.Skip? && t.Skip? {
      assert Apply(lines, map[]) == lines;
    } else {
      assert AllEdits(lines, run) == if l.Skip? then t.lines else if t.Skip? then l.lines else l.lines + t.lines;
      LinesUnlines(Apply(lines, AllEdits(lines, run)));
    }
  }

  /** No other section is touched. */
  lemma UpgradeElsewhere(doc: string, run: string, other: string)
    requires UpgradeDoc(doc, run).Upgraded? && !FoldEq(LAYERS, other) && !FoldEq(RANKED, other)
    ensures ScanSection(Lines(UpgradeDoc(doc, run).doc), other) == ScanSection(Lines(doc), other)
  {
    hide UpgradeDoc, TableEdit, ValidRun, Lines, RegionOf, ScanSection, FoldEq, SameHeadings, IsHeading, OneLine;
    UpgradedLines(doc, run);
    var lines, lines' := Lines(doc), Lines(UpgradeDoc(doc, run).doc);
    var r := RegionOf(lines, other);
    if r.Region? {
      forall k | r.heading < k < r.end ensures lines[k] == lines'[k] {
        if k in AllEdits(lines, run) {
          var name := if k in EditLines(TableEdit(lines, RANKED, run)) then RANKED else LAYERS;
          EditInside(lines, name, run, k);
          RegionsApart(lines, name, other);
        }
      }
    }
    SectionSame(lines, lines', other);
  }

  /** The table is one the edit can widen, if it edits it at all. */
  ghost predicate CanWiden(lines: seq<string>, name: string, run: string) {
    TableEdit(lines, name, run).Edit? ==> Rectangular(lines, name)
  }

  ghost predicate BreadthTables(name: string, other: string) {
    (name == LAYERS && other == RANKED) || (name == RANKED && other == LAYERS)
  }

  lemma OneWidened(doc: string, run: string, name: string, other: string)
    requires UpgradeDoc(doc, run).Upgraded? && BreadthTables(name, other)
    requires TableEdit(Lines(doc), name, run).Edit? && Rectangular(Lines(doc), name)
    ensures ScanSection(Lines(UpgradeDoc(doc, run).doc), name) == WithRun(ScanSection(Lines(doc), name), run)
  {
    hide UpgradeDoc, TableEdit, ValidRun, Lines, RegionOf, ScanSection, FoldEq, SameHeadings, IsHeading, OneLine, Rectangular, WithRun;
    UpgradedLines(doc, run);
    var lines, lines' := Lines(doc), Lines(UpgradeDoc(doc, run).doc);
    var r, m := RegionOf(lines, name), TableEdit(lines, name, run).lines;
    if r.Region? {
      forall k | r.heading < k < r.end ensures lines'[k] == if k in m then m[k] else lines[k] {
        if k in EditLines(TableEdit(lines, other, run)) {
          EditInside(lines, other, run, k);
          Apart(lines, name, other);
        }
      }
    }
    TableWidened(lines, lines', name, run);
  }

  lemma OneKept(doc: string, run: string, name: string, other: string)
    requires UpgradeDoc(doc, run).Upgraded? && BreadthTables(name, other) && TableEdit(Lines(doc), name, run).Skip?
    ensures ScanSection(Lines(UpgradeDoc(doc, run).doc), name) == ScanSection(Lines(doc), name)
  {
    hide UpgradeDoc, TableEdit, ValidRun, Lines, RegionOf, ScanSection, FoldEq, SameHeadings, IsHeading, OneLine;
    UpgradedLines(doc, run);
    var lines, lines' := Lines(doc), Lines(UpgradeDoc(doc, run).doc);
    var r := RegionOf(lines, name);
    if r.Region? {
      forall k | r.heading < k < r.end ensures lines'[k] == lines[k] {
        if k in AllEdits(lines, run) {
          EditInside(lines, other, run, k);
          Apart(lines, name, other);
        }
      }
    }
    SectionSame(lines, lines', name);
  }

  lemma Apart(lines: seq<string>, a: string, b: string)
    requires BreadthTables(a, b) && RegionOf(lines, a).Region? && RegionOf(lines, b).Region?
    ensures var r, q := RegionOf(lines, a), RegionOf(lines, b);
            (r.heading < q.heading && r.end <= q.heading) || (q.heading < r.heading && q.end <= r.heading)
  {
    hide RegionOf, FoldEq;
    NamesDiffer();
    RegionsApart(lines, LAYERS, RANKED);
  }

  /** Where the new column is found, and that the others stay where they were. */
  lemma RunColumn(header: seq<string>)
    requires ColumnIndex(header, "run") < 0
    ensures ColumnIndex(header + ["Run"], "run") == |header|
  {
    RunMatches();
    var more := header + ["Run"];
    assert more[|header|] == "Run";
    forall j | 0 <= j < |header| ensures !ColumnMatches(more[j], "run") {
      assert more[j] == header[j];
    }
    ColumnIs(more, "run", |header|);
  }

  lemma ColumnIs(header: seq<string>, name: string, i: int)
    requires -1 <= i < |header| && (i >= 0 ==> ColumnMatches(header[i], name))
    requires forall j | 0 <= j < |header| && (i < 0 || j < i) :: !ColumnMatches(header[j], name)
    ensures ColumnIndex(header, name) == i
  {
    hide ColumnMatches;
  }

  lemma RunMatches()
    ensures ColumnMatches("Run", "run")
  {
    RunWord();
    Printable('r');
    Printable('n');
    TrimBare("run");
    assert Fold("Run") == Fold("run");
  }

  /** A column that is not Run keeps its place, or its absence. */
  lemma OtherColumn(header: seq<string>, name: string)
    requires !ColumnMatches("Run", name)
    ensures ColumnIndex(header + ["Run"], name) == ColumnIndex(header, name)
  {
    hide ColumnMatches, ColumnIndex;
    var i, more := ColumnIndex(header, name), header + ["Run"];
    assert forall j | 0 <= j < |header| :: more[j] == header[j];
    ColumnIs(more, name, i);
  }

  /** `Run` is no other word a table's columns are found by. */
  lemma NotRun(name: string)
    requires |name| > 3 && Bare(name)
    ensures !ColumnMatches("Run", name)
  {
    hide IsSpace, Trim, IndexFrom;
    TrimBare(name);
    assert |Fold(name)| == |name| && |Fold("run")| == 3;
    assert |Lower("Run")| == 3 && |Lower(name)| == |name|;
    assert !Contains(Lower("Run"), Lower(name));
  }

  /** An upgrade is idempotent: whatever run the second one names, it has nothing to do. */
  lemma UpgradeTwice(doc: string, run: string, again: string)
    requires UpgradeDoc(doc, run).Upgraded? && (again == "" || ValidRun(again))
    requires CanWiden(Lines(doc), LAYERS, run) && CanWiden(Lines(doc), RANKED, run)
    ensures UpgradeDoc(UpgradeDoc(doc, run).doc, again) == Upgraded(UpgradeDoc(doc, run).doc, 0)
  {
    hide TableEdit, ValidRun, Lines, Unlines, Rectangular;
    SkipsAgain(doc, run, again, LAYERS, RANKED);
    SkipsAgain(doc, run, again, RANKED, LAYERS);
  }

  lemma SkipsAgain(doc: string, run: string, again: string, name: string, other: string)
    requires UpgradeDoc(doc, run).Upgraded? && BreadthTables(name, other) && CanWiden(Lines(doc), name, run)
    ensures TableEdit(Lines(UpgradeDoc(doc, run).doc), name, again).Skip?
  {
    hide UpgradeDoc, ValidRun, Lines, ScanSection, ColumnIndex, Interrupted, EditsOf, HeadLines, Rectangular, BreadthTables;
    var s := ScanSection(Lines(doc), name);
    UpgradedLines(doc, run);
    if TableEdit(Lines(doc), name, run).Skip? {
      OneKept(doc, run, name, other);
    } else {
      NotHalted(doc, run, name, other);
      OneWidened(doc, run, name, other);
      RunColumn(s.header);
    }
  }

  lemma NotHalted(doc: string, run: string, name: string, other: string)
    requires UpgradeDoc(doc, run).Upgraded? && BreadthTables(name, other)
    ensures !TableEdit(Lines(doc), name, run).Halt?
  {
    hide UpgradeDoc, TableEdit, Lines;
    UpgradedLines(doc, run);
  }
}
