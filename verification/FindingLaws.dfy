/** What an accepted finding leaves in the plan. */
module FindingLaws {
  import opened Text
  import opened Cells
  import opened Rows
  import opened Render
  import opened Scan
  import opened ScanMeaning
  import opened ScanEdits
  import opened Section
  import opened Record
  import opened Findings

  // ---------------------------------------------------------------- the rendered row is one line

  lemma {:induction false} EscapeOneLine(v: string)
    requires OneLine(v)
    ensures OneLine(Escape(v))
  {
    if v != "" {
      EscapeOneLine(v[1..]);
    }
  }

  lemma {:induction false} JoinOneLine(ls: seq<string>, sep: string)
    requires ls != [] && AllOneLine(ls) && OneLine(sep)
    ensures OneLine(Join(ls, sep))
  {
    if |ls| > 1 {
      JoinOneLine(ls[1..], sep);
    }
  }

  lemma RenderOneLine(values: seq<string>)
    requires values != [] && AllOneLine(values)
    ensures OneLine(RenderRow(values))
  {
    hide Trim;
    var cells := CellValues(values);
    forall i | 0 <= i < |cells| ensures OneLine(cells[i]) {
      TrimOneLine(values[i]);
      EscapeOneLine(Trim(values[i]));
    }
    JoinOneLine(cells, " | ");
  }

  lemma {:induction false} FillOneLine(header: seq<string>, columns: seq<Field>, start: seq<string>, n: nat)
    requires n <= |columns| && |start| == |header| && AllOneLine(start)
    requires forall i | 0 <= i < |columns| :: OneLine(columns[i].value)
    requires Fill(header, columns, start, n).Filled?
    ensures AllOneLine(Fill(header, columns, start, n).values)
  {
    hide ColumnIndex;
    if n > 0 {
      FillOneLine(header, columns, start, n - 1);
    }
  }

  lemma RowForOneLine(f: Finding, header: seq<string>, checks: Checks)
    requires header != [] && RowFor(f, header, checks).Filled?
    ensures AllOneLine(RowFor(f, header, checks).values)
  {
    hide ColumnIndex, ColumnMatches, IdColumn, CellsOf, RenderRow, Placeholder, Trim, ValidFingerprint, Status, Columns, Values, Fill, AnyEmpty;
    ValuesOneLine(f);
    var f' := if Trim(f.fingerprint) == "" then f.(fingerprint := "-") else f;
    ColumnsOneLine(f');
    var start := Blanks(|header|)[IdColumn(header) := f.id];
    FillOneLine(header, Columns(f'), start, |Columns(f')|);
  }

  ghost predicate FieldsOneLine(f: Finding) {
    && OneLine(f.id) && OneLine(f.location) && OneLine(f.severity) && OneLine(f.dataSafe) && OneLine(f.evidence)
    && OneLine(f.test) && OneLine(f.status) && OneLine(f.verdictBy) && OneLine(f.reason) && OneLine(f.fingerprint)
  }

  lemma ValuesOneLine(f: Finding)
    requires !AnyNewline(Values(f))
    ensures FieldsOneLine(f) && FieldsOneLine(f.(fingerprint := "-"))
  {
    var vs := Values(f);
    assert forall i | 0 <= i < |vs| :: OneLine(vs[i]) by {
      forall i | 0 <= i < |vs| ensures OneLine(vs[i]) {
        assert !HasNewline(vs[i]);
      }
    }
    assert vs[0] == f.id && vs[1] == f.location && vs[2] == f.severity && vs[3] == f.dataSafe && vs[4] == f.evidence;
    assert vs[5] == f.test && vs[6] == f.status && vs[7] == f.verdictBy && vs[8] == f.reason && vs[9] == f.fingerprint;
  }

  lemma ColumnsOneLine(f: Finding)
    requires FieldsOneLine(f)
    ensures forall i | 0 <= i < |Columns(f)| :: OneLine(Columns(f)[i].value)
  {
    hide Status, Placeholder, Trim, OneLine;
  }

  // ---------------------------------------------------------------- what is inserted

  lemma RowUnshifted(values: seq<string>)
    requires values != [] && |CellsOf(RenderRow(values))| == |values|
    ensures KindOf(RenderRow(values)) == Pipe(TrimAll(values)) && !IsHeading(RenderRow(values))
  {
    hide CellsOf, RenderRow, IsRow, KindOf, RawCells, IsHeading, Trim;
    RowExact(values);
    RenderedRow(values);
    RowKind(RenderRow(values));
  }

  /** The lines an accepted finding leaves: the old ones with the rendered row after the last data row. */
  lemma AddedLines(doc: string, f: Finding, checks: Checks)
    requires AddFinding(doc, f, checks).Added?
    ensures var lines, a := Lines(doc), AddFinding(doc, f, checks);
            var table, r := ScanSection(lines, FINDINGS), RegionOf(lines, FINDINGS);
            r.Region? && table.header != [] && !Interrupted(table) &&
            a.line == RowsEnd(table) + 1 && r.heading + 1 < RowsEnd(table) <= r.end &&
            |a.values| == |table.header| && KindOf(RenderRow(a.values)) == Pipe(TrimAll(a.values)) &&
            !IsHeading(RenderRow(a.values)) &&
            Lines(a.doc) == InsertLine(lines, RowsEnd(table), RenderRow(a.values))
  {
    hide Lines, Unlines, RowFor, RegionOf, ScanSection, RowsEnd, RenderRow, IsDuplicate, EvidenceKnown, CellsOf, KindOf,
         IsHeading, EndOfRows, Trim, TrimAll;
    var lines, a := Lines(doc), AddFinding(doc, f, checks);
    var table := ScanSection(lines, FINDINGS);
    EndInFindings(lines);
    RowUnshifted(a.values);
    RowForOneLine(f, table.header, checks);
    RenderOneLine(a.values);
    LinesUnlines(InsertLine(lines, RowsEnd(table), RenderRow(a.values)));
  }

  /** The section a row was inserted in, as it reads afterwards. */
  lemma FindingsAfter(lines: seq<string>, p: nat, row: string)
    requires RegionOf(lines, FINDINGS).Region? && ScanSection(lines, FINDINGS).header != []
    requires p == RowsEnd(ScanSection(lines, FINDINGS)) <= |lines| && KindOf(row).Pipe? && !IsHeading(row)
    ensures var s, s' := ScanSection(lines, FINDINGS), ScanSection(InsertLine(lines, p, row), FINDINGS);
            s'.header == s.header &&
            (IsData(KindOf(row).cells) ==> s'.rows == s.rows + [Row(p + 1, KindOf(row).cells)] &&
                                           (Interrupted(s') <==> Interrupted(s))) &&
            (!IsData(KindOf(row).cells) ==> RowCells(s'.rows) == RowCells(s.rows))
  {
    hide RegionOf, ScanKinds, EndOfRows, RowsEnd, KindOf, IsHeading, IsData, RowCells, InsertLine, InsertKind;
    var r := RegionOf(lines, FINDINGS);
    EndInFindings(lines);
    RegionInserted(lines, p, row, FINDINGS);
    var at := r.heading + 1;
    var ks, q := Kinds(lines[at..r.end]), p - at;
    InsertedKinds(lines, at, r.end, p, row);
    if IsData(KindOf(row).cells) {
      RowInserted(ks, at, q, KindOf(row).cells);
    } else {
      HiddenInserted(ks, at, q, KindOf(row).cells);
    }
  }

  lemma InsertedKinds(lines: seq<string>, at: nat, end: nat, p: nat, row: string)
    requires at <= p <= end <= |lines| && KindOf(row).Pipe?
    ensures var b := InsertLine(lines, p, row);
            end + 1 <= |b| && Kinds(b[at..end + 1]) == InsertKind(Kinds(lines[at..end]), p - at, Pipe(KindOf(row).cells))
  {
    hide KindOf;
    var b, q := InsertLine(lines, p, row), p - at;
    assert b[at..end + 1] == lines[at..end][..q] + [row] + lines[at..end][q..];
    assert KindOf(row) == Pipe(KindOf(row).cells);
  }

  /** A separator or a placeholder row inserted there is a row nobody reads. */
  lemma HiddenInserted(ks: seq<Kind>, at: nat, p: nat, cells: seq<string>)
    requires EndOfRows(ks, at, p) && !IsData(cells)
    ensures var s, s' := ScanKinds(ks, at), ScanKinds(InsertKind(ks, p, Pipe(cells)), at);
            s'.header == s.header && RowCells(s'.rows) == RowCells(s.rows)
  {
    hide FeedAll, IsSeparator, Placeholder;
    var w := FeedAll(INIT, ks[..p], at);
    var k := Pipe(cells);
    assert InsertKind(ks, p, k) == ks[..p] + ([k] + ks[p..]);
    FeedConcat(INIT, ks[..p], [k] + ks[p..], at);
    FeedConcat(INIT, ks[..p], ks[p..], at);
    assert ks[..p] + ks[p..] == ks;
    FeedFirst(w, k, ks[p..], at + p);
    AlikeAll(FeedLine(w, k, at + p), w, ks[p..], at + p + 1, at + p);
  }

  // ---------------------------------------------------------------- the round trip

  /** The columns the row writes are distinct, and the id has a column of its own, the first. */
  predicate ProperHeader(header: seq<string>) {
    && IdColumn(header) == 0
    && forall i, j | 0 <= i < j < |NAMES| ::
         ColumnIndex(header, NAMES[i]) != 0 && ColumnIndex(header, NAMES[j]) != 0 &&
         (ColumnIndex(header, NAMES[i]) >= 0 ==> ColumnIndex(header, NAMES[i]) != ColumnIndex(header, NAMES[j]))
  }

  const NAMES := ["Finding", "Severity", "Data safe", "Evidence", "Pinning test", "Status", "Verdict by", "Reason", "Fingerprint"]

  lemma ColumnNames(f: Finding)
    ensures |Columns(f)| == |NAMES| && forall i | 0 <= i < |NAMES| :: Columns(f)[i].name == NAMES[i]
  {
    hide Placeholder, Status;
  }

  /** One column filled. */
  lemma FillStep(header: seq<string>, columns: seq<Field>, start: seq<string>, n: nat)
    requires 0 < n <= |columns| && |start| == |header| && Fill(header, columns, start, n).Filled?
    ensures Fill(header, columns, start, n - 1).Filled?
    ensures var at, c := ColumnIndex(header, columns[n - 1].name), columns[n - 1];
            var before := Fill(header, columns, start, n - 1).values;
            (at < 0 ==> !c.needed) && at < |before| &&
            Fill(header, columns, start, n).values == if at >= 0 then before[at := c.value] else before
  {
    hide ColumnIndex, ColumnMatches;
  }

  lemma NoFill(header: seq<string>, columns: seq<Field>, start: seq<string>)
    requires |start| == |header|
    ensures Fill(header, columns, start, 0) == Filled(start)
  {}

  /** The value of a column that has one, after the columns up to `n` are filled. */
  lemma {:induction false} FillReads(header: seq<string>, columns: seq<Field>, start: seq<string>, n: nat, i: nat)
    requires i < n <= |columns| && |start| == |header| && Fill(header, columns, start, n).Filled?
    requires ColumnIndex(header, columns[i].name) >= 0
    requires forall j | i < j < |columns| :: ColumnIndex(header, columns[j].name) != ColumnIndex(header, columns[i].name)
    ensures Fill(header, columns, start, n).values[ColumnIndex(header, columns[i].name)] == columns[i].value
  {
    hide ColumnIndex, Fill, ColumnMatches;
    FillStep(header, columns, start, n);
    if i < n - 1 {
      FillReads(header, columns, start, n - 1, i);
    }
  }

  /** A needed column is there, and a column no field is written to keeps what it started with. */
  lemma {:induction false} FillKeeps(header: seq<string>, columns: seq<Field>, start: seq<string>, n: nat, at: nat)
    requires n <= |columns| && |start| == |header| && at < |header| && Fill(header, columns, start, n).Filled?
    ensures forall i | 0 <= i < n && columns[i].needed :: ColumnIndex(header, columns[i].name) >= 0
    ensures (forall i | 0 <= i < n :: ColumnIndex(header, columns[i].name) != at) ==>
              Fill(header, columns, start, n).values[at] == start[at]
  {
    hide ColumnIndex, Fill, ColumnMatches;
    if n == 0 {
      NoFill(header, columns, start);
    } else {
      FillStep(header, columns, start, n);
      FillKeeps(header, columns, start, n - 1, at);
    }
  }

  /** The finding as it was written: an absent fingerprint is a dash. */
  function Written(f: Finding): Finding {
    if Trim(f.fingerprint) == "" then f.(fingerprint := "-") else f
  }

  lemma RowValuesRead(f: Finding, header: seq<string>)
    requires header != [] && ProperHeader(header) && RowValues(f, header).Filled?
    ensures var values, cols := RowValues(f, header).values, Columns(f);
            values[0] == f.id && |cols| == |NAMES| &&
            forall i | 0 <= i < |cols| ::
              (cols[i].needed ==> ColumnIndex(header, NAMES[i]) >= 0) &&
              (ColumnIndex(header, NAMES[i]) >= 0 ==> values[ColumnIndex(header, NAMES[i])] == cols[i].value)
  {
    hide ColumnIndex, IdColumn, CellsOf, RenderRow, Placeholder, Columns, Trim;
    ColumnNames(f);
    var cols, start := Columns(f), Blanks(|header|)[0 := f.id];
    FillKeeps(header, cols, start, |cols|, 0);
    forall i | 0 <= i < |cols|
      ensures (cols[i].needed ==> ColumnIndex(header, NAMES[i]) >= 0) &&
              (ColumnIndex(header, NAMES[i]) >= 0 ==> RowValues(f, header).values[ColumnIndex(header, NAMES[i])] == cols[i].value)
    {
      if ColumnIndex(header, NAMES[i]) >= 0 {
        FillReads(header, cols, start, |cols|, i);
      }
    }
  }

  /** The row an accepted finding leaves is read if and only if its cells are a data row: it is no separator and
      its first cell is no placeholder. Then the findings are the old ones and that row, at the end and on the
      line reported; every other section reads the same cells. */
  lemma AddedReadsBack(doc: string, f: Finding, checks: Checks)
    requires AddFinding(doc, f, checks).Added?
    ensures var a := AddFinding(doc, f, checks);
            var s, s', cells := ScanSection(Lines(doc), FINDINGS), ScanSection(Lines(a.doc), FINDINGS), TrimAll(a.values);
            s'.header == s.header &&
            (IsData(cells) ==> s'.rows == s.rows + [Row(a.line, cells)] && !Interrupted(s')) &&
            (RowCells(s'.rows) == RowCells(s.rows) + [cells] <==> IsData(cells))
  {
    hide Lines, AddFinding, ScanSection, RowsEnd, KindOf, IsHeading, TrimAll, RenderRow, RegionOf, IsData;
    var lines, a := Lines(doc), AddFinding(doc, f, checks);
    AddedLines(doc, f, checks);
    var s := ScanSection(lines, FINDINGS);
    FindingsAfter(lines, RowsEnd(s), RenderRow(a.values));
    RowCellsAdd(s.rows, Row(a.line, TrimAll(a.values)));
  }

  lemma AddedElsewhere(doc: string, f: Finding, checks: Checks, other: string)
    requires AddFinding(doc, f, checks).Added? && !FoldEq(FINDINGS, other)
    ensures SameScan(ScanSection(Lines(doc), other), ScanSection(Lines(AddFinding(doc, f, checks).doc), other))
  {
    hide Lines, AddFinding, ScanSection, RowsEnd, KindOf, IsHeading, TrimAll, RenderRow, RegionOf, SameScan, FoldEq, Interrupted;
    AddedLines(doc, f, checks);
    var lines, a := Lines(doc), AddFinding(doc, f, checks);
    SectionMoved(lines, RowsEnd(ScanSection(lines, FINDINGS)), RenderRow(a.values), FINDINGS, other);
  }

  lemma VocabularyIsText(raw: string)
    requires Status(raw) in STATUSES
    ensures Trim(raw) != "" && Trim(raw)[0] !in "-: "
  {
    hide Trim;
    var t := Trim(raw);
    assert Lower(t) != "";
    assert Lower(t)[0] == LowerChar(t[0]);
    assert Lower(t)[0] in "ocfgrw";
  }

  /** The value stands trimmed in the column of that name, which is there if it is needed. */
  ghost predicate Stands(header: seq<string>, cells: seq<string>, name: string, value: string, needed: bool)
    requires |cells| == |header|
  {
    && (needed ==> ColumnIndex(header, name) >= 0)
    && (ColumnIndex(header, name) >= 0 ==> cells[ColumnIndex(header, name)] == Trim(value))
  }

  /** Every value of the finding stands in its own column. */
  ghost predicate FieldsRead(f: Finding, header: seq<string>, cells: seq<string>) {
    && |cells| == |header| > 0 && cells[0] == Trim(f.id)
    && Stands(header, cells, "Finding", f.location, true)
    && Stands(header, cells, "Severity", f.severity, true)
    && Stands(header, cells, "Data safe", f.dataSafe, true)
    && Stands(header, cells, "Evidence", f.evidence, true)
    && Stands(header, cells, "Pinning test", f.test, Settled(f) || !Placeholder(Trim(f.test)))
    && Stands(header, cells, "Status", f.status, true)
    && Stands(header, cells, "Verdict by", f.verdictBy, true)
    && Stands(header, cells, "Reason", f.reason, true)
    && Stands(header, cells, "Fingerprint", f.fingerprint, !Placeholder(Trim(f.fingerprint)))
  }

  lemma ValuesRead(f: Finding, header: seq<string>)
    requires header != [] && ProperHeader(header) && RowValues(f, header).Filled?
    ensures FieldsRead(f, header, TrimAll(RowValues(f, header).values))
  {
    hide ColumnIndex, RowValues, ProperHeader, Columns, Trim, Settled, Placeholder, Stands;
    RowValuesRead(f, header);
    ColumnsAre(f);
    var cells := TrimAll(RowValues(f, header).values);
    forall i | 0 <= i < 9 ensures Stands(header, cells, Columns(f)[i].name, Columns(f)[i].value, Columns(f)[i].needed) {
      ColumnStands(f, header, i);
    }
    assert Stands(header, cells, Columns(f)[0].name, Columns(f)[0].value, Columns(f)[0].needed);
    assert Stands(header, cells, Columns(f)[1].name, Columns(f)[1].value, Columns(f)[1].needed);
    assert Stands(header, cells, Columns(f)[2].name, Columns(f)[2].value, Columns(f)[2].needed);
    assert Stands(header, cells, Columns(f)[3].name, Columns(f)[3].value, Columns(f)[3].needed);
    assert Stands(header, cells, Columns(f)[4].name, Columns(f)[4].value, Columns(f)[4].needed);
    assert Stands(header, cells, Columns(f)[5].name, Columns(f)[5].value, Columns(f)[5].needed);
    assert Stands(header, cells, Columns(f)[6].name, Columns(f)[6].value, Columns(f)[6].needed);
    assert Stands(header, cells, Columns(f)[7].name, Columns(f)[7].value, Columns(f)[7].needed);
    assert Stands(header, cells, Columns(f)[8].name, Columns(f)[8].value, Columns(f)[8].needed);
  }

  lemma ColumnStands(f: Finding, header: seq<string>, i: nat)
    requires header != [] && ProperHeader(header) && RowValues(f, header).Filled? && i < |Columns(f)|
    ensures Stands(header, TrimAll(RowValues(f, header).values), Columns(f)[i].name, Columns(f)[i].value, Columns(f)[i].needed)
  {
    hide ColumnIndex, RowValues, ProperHeader, Columns, Trim;
    RowValuesRead(f, header);
    ColumnNames(f);
  }

  /** Under a header whose columns are distinct and whose first column is the id, every accepted finding is read
      back, each value in its own column. */
  lemma AddedIsRead(doc: string, f: Finding, checks: Checks)
    requires AddFinding(doc, f, checks).Added? && ProperHeader(ScanSection(Lines(doc), FINDINGS).header)
    ensures IsData(TrimAll(AddFinding(doc, f, checks).values))
    ensures FieldsRead(Written(f), ScanSection(Lines(doc), FINDINGS).header, TrimAll(AddFinding(doc, f, checks).values))
  {
    hide Lines, ScanSection, AddFinding, RowValues, Trim, TrimAll, Placeholder, Status, ProperHeader, IsData, FieldsRead;
    var a, header := AddFinding(doc, f, checks), ScanSection(Lines(doc), FINDINGS).header;
    AcceptedRow(doc, f, checks);
    ValuesRead(Written(f), header);
    ReadIsData(Written(f), header, TrimAll(a.values));
  }

  lemma ReadIsData(f: Finding, header: seq<string>, cells: seq<string>)
    requires FieldsRead(f, header, cells) && !Placeholder(Trim(f.id)) && Status(f.status) in STATUSES
    ensures IsData(cells)
  {
    hide ColumnIndex, Trim, Placeholder, Status, Settled, Stands, IsSeparator, IsData;
    VocabularyIsText(f.status);
    StandsThere(header, cells, "Status", f.status);
    TrimTwice(f.id);
    NotSeparator(cells, ColumnIndex(header, "Status"));
  }

  lemma StandsThere(header: seq<string>, cells: seq<string>, name: string, value: string)
    requires |cells| == |header| && Stands(header, cells, name, value, true)
    ensures 0 <= ColumnIndex(header, name) < |cells| && cells[ColumnIndex(header, name)] == Trim(value)
  {}

  lemma NotSeparator(cells: seq<string>, i: nat)
    requires i < |cells| && cells[i] != "" && cells[i][0] !in "-: " && !Placeholder(Cell(cells, 0))
    ensures IsData(cells)
  {
    hide Placeholder;
    assert exists j | 0 <= j < |cells[i]| :: cells[i][j] !in "-: ";
  }

  lemma AcceptedRow(doc: string, f: Finding, checks: Checks)
    requires AddFinding(doc, f, checks).Added?
    ensures var a, header := AddFinding(doc, f, checks), ScanSection(Lines(doc), FINDINGS).header;
            header != [] && RowValues(Written(f), header) == Filled(a.values) && !Placeholder(Trim(f.id)) &&
            Status(f.status) in STATUSES
  {
    hide Lines, ScanSection, RegionOf, ColumnIndex, IdColumn, CellsOf, RenderRow, IsDuplicate, EvidenceKnown, Trim,
         ValidFingerprint, Placeholder, Status, Columns, Fill, AnyNewline, AnyEmpty;
  }
}
