/** Adding the Run column to the breadth tables (internal/plan/upgrade.go). */
module Upgrade {
  import opened Text
  import opened Cells
  import opened Rows
  import opened Scan
  import opened ScanMeaning
  import opened Section
  import opened Record
  import opened Gaps

  // ---------------------------------------------------------------- the lines a table's header sits on

  function FirstSeparator(ks: seq<Kind>, from: nat): (i: nat)
    requires from <= |ks|
    ensures from <= i <= |ks| && (i < |ks| ==> LivePipe(ks, i) && IsSeparator(ks[i].cells))
    decreases |ks| - from
  {
    if from == |ks| || (LivePipe(ks, from) && IsSeparator(ks[from].cells)) then from else FirstSeparator(ks, from + 1)
  }

  /** The header line and the separator line of a section's table; `none` stands for no line. */
  function HeadAndSeparator(ks: seq<Kind>, start: nat, none: nat): (nat, nat) {
    var h := FirstPipe(ks, 0);
    if h == |ks| then (none, none)
    else
      var s := FirstSeparator(ks, h + 1);
      (start + h, if s == |ks| then none else start + s)
  }

  function HeaderAndSeparator(lines: seq<string>, start: nat, end: nat): (nat, nat)
    requires start <= end <= |lines|
  {
    HeadAndSeparator(Kinds(lines[start..end]), start, |lines|)
  }

  lemma FenceStep(ks: seq<Kind>, i: nat)
    requires i < |ks|
    ensures FenceAt(ks, i + 1) == if FenceAt(ks, i) != "" then (if ks[i] == Fence(FenceAt(ks, i)) then "" else FenceAt(ks, i))
                                  else if ks[i].Fence? then ks[i].marker else ""
  {}

  /** One step of both searches. */
  lemma SearchStep(ks: seq<Kind>, i: nat)
    requires i < |ks|
    ensures FirstPipe(ks, i) == if LivePipe(ks, i) then i else FirstPipe(ks, i + 1)
    ensures FirstSeparator(ks, i) == if LivePipe(ks, i) && IsSeparator(ks[i].cells) then i else FirstSeparator(ks, i + 1)
    ensures LivePipe(ks, i) <==> FenceAt(ks, i) == "" && ks[i].Pipe?
  {
    hide IsSeparator, FenceAt;
  }

  /** The search at line `i`: the header found so far, and nothing it could have returned before. */
  ghost predicate Searching(ks: seq<Kind>, start: nat, none: nat, i: nat, header: nat) {
    && i <= |ks| && (header == none <==> header >= start + i)
    && (if header == none then FirstPipe(ks, 0) == FirstPipe(ks, i)
        else start <= header && header == start + FirstPipe(ks, 0) &&
             FirstSeparator(ks, header - start + 1) == FirstSeparator(ks, i))
  }

  lemma SearchOn(ks: seq<Kind>, start: nat, none: nat, i: nat, header: nat)
    requires Searching(ks, start, none, i, header) && i < |ks| && start + |ks| <= none
    ensures !LivePipe(ks, i) ==> Searching(ks, start, none, i + 1, header)
    ensures LivePipe(ks, i) && header == none ==> Searching(ks, start, none, i + 1, start + i)
    ensures LivePipe(ks, i) && header != none && !IsSeparator(ks[i].cells) ==> Searching(ks, start, none, i + 1, header)
    ensures LivePipe(ks, i) && header != none && IsSeparator(ks[i].cells) ==>
              FirstPipe(ks, 0) == header - start && FirstSeparator(ks, FirstPipe(ks, 0) + 1) == i
  {
    hide IsSeparator, FenceAt, FirstPipe, FirstSeparator, LivePipe;
    SearchStep(ks, i);
  }

  /** `tableHeaderAndSeparator`. */
  method TableHeaderAndSeparator(lines: seq<string>, start: nat, end: nat) returns (header: nat, separator: nat)
    requires start <= end <= |lines|
    ensures (header, separator) == HeaderAndSeparator(lines, start, end)
  {
    hide CellsOf, Trim, IsSeparator, FenceAt, KindOf, LivePipe, FirstPipe, FirstSeparator, FenceMarker, HeadAndSeparator;
    header, separator := |lines|, |lines|;
    ghost var ks := Kinds(lines[start..end]);
    var fence := "";
    NoFence(ks);
    for i := start to end
      invariant fence == FenceAt(ks, i - start) && (fence != "" ==> IsMarker(fence))
      invariant separator == |lines| && Searching(ks, start, |lines|, i - start, header)
    {
      var t := Trim(lines[i]);
      assert ks[i - start] == KindOf(lines[i]);
      FenceStep(ks, i - start);
      LineKind(lines[i]);
      SearchStep(ks, i - start);
      SearchOn(ks, start, |lines|, i - start, header);
      if fence != "" {
        FencePrefix(lines[i], fence);
        if HasPrefix(t, fence) {
          fence := "";
        }
        continue;
      }
      var marker := FenceMarker(t);
      if marker != "" {
        fence := marker;
        continue;
      }
      if !HasPrefix(t, "|") {
        continue;
      }
      if header == |lines| {
        header := i;
        continue;
      }
      CellsOfTrim(lines[i]);
      var cells := Split(t);
      if IsSeparator(cells) {
        FoundBoth(ks, start, |lines|, header, i);
        return header, i;
      }
    }
    FoundOne(ks, start, |lines|, header);
  }

  lemma FoundBoth(ks: seq<Kind>, start: nat, none: nat, header: nat, separator: nat)
    requires start <= header <= separator < start + |ks| <= none
    requires FirstPipe(ks, 0) == header - start && FirstSeparator(ks, FirstPipe(ks, 0) + 1) == separator - start
    ensures HeadAndSeparator(ks, start, none) == (header, separator)
  {
    hide FirstPipe, FirstSeparator;
  }

  lemma FoundOne(ks: seq<Kind>, start: nat, none: nat, header: nat)
    requires start + |ks| <= none && Searching(ks, start, none, |ks|, header)
    ensures HeadAndSeparator(ks, start, none) == (header, none)
  {
    hide FenceAt, IsSeparator, LivePipe;
  }

  lemma NoFence(ks: seq<Kind>)
    ensures FenceAt(ks, 0) == ""
  {}

  lemma LineKind(line: string)
    ensures var t, k := Trim(line), KindOf(line);
            (FenceMarker(t) != "" <==> k.Fence?) && (k.Fence? ==> k.marker == FenceMarker(t) && IsMarker(k.marker)) &&
            (FenceMarker(t) == "" ==> (k.Pipe? <==> HasPrefix(t, "|"))) && (k.Pipe? ==> k.cells == CellsOf(line))
  {
    hide CellsOf, Trim;
  }

  // ---------------------------------------------------------------- one table

  datatype Stop = Cut(name: string) | NoHeader(name: string)

  /** The new lines of one table, or why it cannot have them. */
  datatype Edit = Skip | Edit(lines: map<nat, string>) | Halt(why: Stop)

  predicate InLines(lines: seq<string>, rows: seq<Row>) {
    forall i | 0 <= i < |rows| :: 1 <= rows[i].line <= |lines|
  }

  function RowEdits(lines: seq<string>, rows: seq<Row>, run: string): map<nat, string>
    requires InLines(lines, rows)
  {
    if rows == [] then map[]
    else
      var n := |rows| - 1;
      var at := rows[n].line - 1;
      RowEdits(lines, rows[..n], run)[at := AppendCell(lines[at], run, false)]
  }

  /** The rows' edits: each row's line gets the run, and no other line has one. */
  lemma {:induction false} RowEditsAre(lines: seq<string>, rows: seq<Row>, run: string, k: nat)
    requires InLines(lines, rows)
    ensures k in RowEdits(lines, rows, run) <==> exists i | 0 <= i < |rows| :: rows[i].line == k + 1
    ensures k in RowEdits(lines, rows, run) ==> k < |lines| && RowEdits(lines, rows, run)[k] == AppendCell(lines[k], run, false)
  {
    hide AppendCell;
    if rows != [] {
      var n := |rows| - 1;
      RowEditsAre(lines, rows[..n], run, k);
      assert k in RowEdits(lines, rows[..n], run) <==> exists i | 0 <= i < n :: rows[..n][i].line == k + 1;
      if k in RowEdits(lines, rows, run) {
        if rows[n].line != k + 1 {
          var i :| 0 <= i < n && rows[..n][i].line == k + 1;
          assert rows[i].line == k + 1;
        }
      }
      if i :| 0 <= i < |rows| && rows[i].line == k + 1 {
        assert i < n ==> rows[..n][i].line == k + 1;
      }
    }
  }

  lemma RowsInLines(lines: seq<string>, name: string)
    ensures InLines(lines, ScanSection(lines, name).rows)
  {
    hide ScanSection, RegionOf, IsRow, IsData, IsHeading, CellsOf;
    forall i | 0 <= i < |ScanSection(lines, name).rows| ensures 1 <= ScanSection(lines, name).rows[i].line <= |lines| {
      RowLine(lines, name, i);
    }
  }

  function EditsOf(lines: seq<string>, header: nat, separator: nat, rows: seq<Row>, run: string): map<nat, string>
    requires header < |lines| && separator < |lines| && InLines(lines, rows)
  {
    map[header := AppendCell(lines[header], "Run", false), separator := AppendCell(lines[separator], "", true)] +
    RowEdits(lines, rows, run)
  }

  function HeadLines(lines: seq<string>, name: string): (nat, nat) {
    match RegionOf(lines, name)
    case Missing => (|lines|, |lines|)
    case Region(heading, end) => HeaderAndSeparator(lines, heading + 1, end)
  }

  function TableEdit(lines: seq<string>, name: string, run: string): Edit {
    var scan := ScanSection(lines, name);
    if scan.header == [] || ColumnIndex(scan.header, "run") >= 0 then Skip
    else if Interrupted(scan) then Halt(Cut(name))
    else
      var hs := HeadLines(lines, name);
      if hs.0 >= |lines| || hs.1 >= |lines| then Halt(NoHeader(name))
      else
        RowsInLines(lines, name);
        Edit(EditsOf(lines, hs.0, hs.1, scan.rows, run))
  }

  function Apply(lines: seq<string>, edits: map<nat, string>): (r: seq<string>)
    ensures |r| == |lines| && forall i | 0 <= i < |lines| :: r[i] == if i in edits then edits[i] else lines[i]
  {
    seq(|lines|, i requires 0 <= i < |lines| => if i in edits then edits[i] else lines[i])
  }

  datatype Upgraded = Upgraded(doc: string, changed: nat) | BadRunSlug | Halted(why: Stop)

  /** `Upgrade`, from the text it reads to the text it would write. A document no table of which needs the
      column is not written at all. */
  function UpgradeDoc(doc: string, run: string): Upgraded {
    if run != "" && !ValidRun(run) then BadRunSlug
    else
      var lines := Lines(doc);
      match TableEdit(lines, LAYERS, run)
      case Halt(why) => Halted(why)
      case Skip => (
        match TableEdit(lines, RANKED, run)
        case Halt(why) => Halted(why)
        case Skip => Upgraded(doc, 0)
        case Edit(m) => Upgraded(Unlines(Apply(lines, m)), 1))
      case Edit(l) => (
        match TableEdit(lines, RANKED, run)
        case Halt(why) => Halted(why)
        case Skip => Upgraded(Unlines(Apply(lines, l)), 1)
        case Edit(m) => Upgraded(Unlines(Apply(lines, l + m)), 2))
  }

  /** One table of `upgrade`: its header, its separator and its rows, each with one more cell. */
  method TableUpdates(lines: seq<string>, name: string, run: string) returns (e: Edit)
    ensures e == TableEdit(lines, name, run)
  {
    hide ScanLines, ColumnIndex, AppendCell, Interrupted, HeaderAndSeparator, RegionOf, InLines, FirstHeads, NextHeading, ColumnMatches, RowEdits, Heads, IsHeading;
    var scan := ScanSection(lines, name);
    if scan.header == [] || ColumnIndex(scan.header, "run") >= 0 {
      return Skip;
    }
    if Interrupted(scan) {
      return Halt(Cut(name));
    }
    var region := SectionRegion(lines, name);
    var headerLine, separatorLine := TableHeaderAndSeparator(lines, region.heading + 1, region.end);
    if headerLine >= |lines| || separatorLine >= |lines| {
      return Halt(NoHeader(name));
    }
    RowsInLines(lines, name);
    var header := AppendTableCell(lines[headerLine], "Run", false);
    var separator := AppendTableCell(lines[separatorLine], "", true);
    var updates := map[headerLine := header, separatorLine := separator];
    var rows := RowUpdates(lines, scan.rows, run);
    return Edit(updates + rows);
  }

  method RowUpdates(lines: seq<string>, rows: seq<Row>, run: string) returns (updates: map<nat, string>)
    requires InLines(lines, rows)
    ensures updates == RowEdits(lines, rows, run)
  {
    hide AppendCell;
    updates := map[];
    for k := 0 to |rows|
      invariant updates == RowEdits(lines, rows[..k], run)
    {
      assert rows[..k + 1][..k] == rows[..k];
      var line := AppendTableCell(lines[rows[k].line - 1], run, false);
      updates := updates[rows[k].line - 1 := line];
    }
    assert rows[..|rows|] == rows;
  }

  /** `upgrade`: the updates collected table by table, then the lines rewritten in place. */
  method UpgradeText(doc: string, run: string) returns (r: Upgraded)
    requires run == "" || ValidRun(run)
    ensures r == UpgradeDoc(doc, run)
  {
    hide TableEdit, ValidRun, Lines, Unlines;
    var lines := Lines(doc);
    var updates: map<nat, string> := map[];
    var changed := 0;
    var edit := TableUpdates(lines, LAYERS, run);
    if edit.Halt? {
      return Halted(edit.why);
    } else if edit.Edit? {
      updates, changed := edit.lines, 1;
    }
    edit := TableUpdates(lines, RANKED, run);
    if edit.Halt? {
      return Halted(edit.why);
    } else if edit.Edit? {
      updates, changed := if changed == 0 then edit.lines else updates + edit.lines, changed + 1;
    }
    if changed == 0 {
      return Upgraded(doc, 0);
    }
    var out := lines;
    for i := 0 to |lines|
      invariant |out| == |lines| && forall j | 0 <= j < |lines| :: out[j] == if j < i && j in updates then updates[j] else lines[j]
    {
      if i in updates {
        out := out[i := updates[i]];
      }
    }
    assert out == Apply(lines, updates);
    return Upgraded(Unlines(out), changed);
  }
}
