/** Exactly when a finding is accepted. */
module Acceptance {
  import opened Text
  import opened Cells
  import opened Render
  import opened Scan
  import opened ScanEdits
  import opened Section
  import opened Findings
  import opened FindingLaws

  /** The values in the order of the header, each in its own column. */
  function Placed(f: Finding, header: seq<string>): (values: seq<string>)
    ensures |values| == |header|
  {
    seq(|header|, at requires 0 <= at < |header| => CellFor(f, header, at))
  }

  /** No value holds a pipe behind an odd run of backslashes, which is what would shift the cells behind it. */
  predicate Unshifted(values: seq<string>) {
    forall i | 0 <= i < |values| :: !Shifting(Trim(values[i]))
  }

  lemma RowIff(f: Finding, header: seq<string>)
    requires header != []
    ensures RowValues(f, header).Filled? <==>
            !Placeholder(Trim(f.id)) && HasColumns(f, header) && Unshifted(Placed(f, header))
    ensures RowValues(f, header).Filled? ==> RowValues(f, header).values == Placed(f, header)
  {
    hide ColumnIndex, Columns, Placeholder, Trim, CellsOf, RenderRow, Shifting, TrimAll, HasColumns, CellFor;
    RowValuesAre(f, header);
    if RowValues(f, header).Filled? {
      assert RowValues(f, header).values == Placed(f, header);
    }
    RowExact(Placed(f, header));
    FilledIsPlaced(f, header);
  }

  /** The row that is filled is the placed one; it reads back as wide as it is. */
  lemma FilledIsPlaced(f: Finding, header: seq<string>)
    requires header != []
    ensures HasColumns(f, header) && !Placeholder(Trim(f.id)) ==>
              (RowValues(f, header).Filled? <==> |CellsOf(RenderRow(Placed(f, header)))| == |header|)
    ensures RowValues(f, header).Filled? ==> |CellsOf(RenderRow(Placed(f, header)))| == |header|
  {
    hide ColumnIndex, Columns, Placeholder, Trim, CellsOf, RenderRow, HasColumns, CellFor, LastOf, Fill, Settled;
    RowValuesAre(f, header);
    if HasColumns(f, header) {
      var start := Blanks(|header|)[IdOf(f, header) := f.id];
      NeedsAre(f, header);
      FillLast(header, Columns(f), start, |Columns(f)|, 0);
      var values := Fill(header, Columns(f), start, |Columns(f)|).values;
      forall at | 0 <= at < |header| ensures values[at] == Placed(f, header)[at] {
        FillLast(header, Columns(f), start, |Columns(f)|, at);
        CellIsLast(f, header, at, start[at]);
      }
      assert values == Placed(f, header);
    }
    if RowValues(f, header).Filled? {
      assert RowValues(f, header).values == Placed(f, header);
    }
  }

  /** The column of the id, when the row has its columns. */
  function IdOf(f: Finding, header: seq<string>): (i: nat)
    requires HasColumns(f, header)
    ensures i == IdColumn(header) < |header|
  {
    IdColumn(header)
  }

  predicate SingleLine(v: string) {
    forall i | 0 <= i < |v| :: v[i] != '\n' && v[i] != '\r'
  }

  /** What the values owe before they are a row. */
  predicate ValuesOwe(f: Finding, checks: Checks) {
    && SingleLine(f.id) && SingleLine(f.location) && SingleLine(f.severity) && SingleLine(f.dataSafe) && SingleLine(f.evidence)
    && SingleLine(f.test) && SingleLine(f.status) && SingleLine(f.verdictBy) && SingleLine(f.reason) && SingleLine(f.fingerprint)
    && Trim(f.id) != "" && Trim(f.location) != "" && Trim(f.severity) != "" && Trim(f.dataSafe) != ""
    && Trim(f.evidence) != "" && Trim(f.verdictBy) != "" && Trim(f.reason) != ""
    && Lower(Trim(f.status)) in {"open", "confirmed", "fixed", "gap-closed", "rejected", "wontfix"}
    && (Settled(f) ==> !Placeholder(Trim(f.test)))
    && (Trim(f.fingerprint) != "" ==>
          var v := Trim(WithoutBackticks(f.fingerprint)); Placeholder(v) || checks.fingerprint(v))
  }

  lemma OweIs(f: Finding, checks: Checks)
    ensures ValuesOwe(f, checks) <==>
            && !AnyNewline(Values(f)) && !AnyEmpty(f) && Status(f.status) in STATUSES
            && (Status(f.status) in SETTLED ==> !Placeholder(Trim(f.test)))
            && ValidFingerprint(Written(f).fingerprint, checks)
  {
    hide Trim, Placeholder, Lower, WithoutBackticks, HasNewline, SingleLine;
    NewlinesAre(f);
    DashIsFingerprint(checks);
  }

  lemma NewlinesAre(f: Finding)
    ensures !AnyNewline(Values(f)) <==>
            && SingleLine(f.id) && SingleLine(f.location) && SingleLine(f.severity) && SingleLine(f.dataSafe) && SingleLine(f.evidence)
            && SingleLine(f.test) && SingleLine(f.status) && SingleLine(f.verdictBy) && SingleLine(f.reason) && SingleLine(f.fingerprint)
  {
    hide SingleLine, HasNewline;
    var vs := Values(f);
    forall i | 0 <= i < |vs| ensures HasNewline(vs[i]) <==> !SingleLine(vs[i]) {
      SingleIs(vs[i]);
    }
    assert vs[0] == f.id && vs[1] == f.location && vs[2] == f.severity && vs[3] == f.dataSafe && vs[4] == f.evidence;
    assert vs[5] == f.test && vs[6] == f.status && vs[7] == f.verdictBy && vs[8] == f.reason && vs[9] == f.fingerprint;
  }

  lemma SingleIs(v: string)
    ensures HasNewline(v) <==> !SingleLine(v)
  {}

  lemma DashIsFingerprint(checks: Checks)
    ensures ValidFingerprint("-", checks)
  {
    assert WithoutBackticks("-") == "-";
    assert Bare("-") by { Printable('-'); }
    TrimBare("-");
    assert Fold("-") == "-";
  }

  /** Every id the evidence names is the first cell of a row of the ledger. */
  ghost predicate Cited(rows: seq<Row>, evidence: string) {
    forall i, j | PieceAt(evidence, i, j) && TrimBackticks(evidence[i..j]) != "" ::
      exists m | 0 <= m < |rows| :: Cell(rows[m].cells, 0) == TrimBackticks(evidence[i..j])
  }

  lemma CitedIs(lines: seq<string>, evidence: string)
    ensures EvidenceKnown(lines, evidence) <==> Cited(ScanSection(lines, LEDGER).rows, evidence)
  {
    hide TrimBackticks, ScanSection, EvidenceParts, PieceAt;
    var rows, parts := ScanSection(lines, LEDGER).rows, EvidenceParts(evidence, "");
    forall i, j | PieceAt(evidence, i, j) ensures 0 <= i <= j <= |evidence| && TrimBackticks(evidence[i..j]) in parts {
      PieceIn(evidence, i, j);
      PartsAre(evidence, TrimBackticks(evidence[i..j]));
    }
    forall k | 0 <= k < |parts| ensures exists i, j | PieceAt(evidence, i, j) && 0 <= i <= j <= |evidence| :: parts[k] == TrimBackticks(evidence[i..j]) {
      PartsAre(evidence, parts[k]);
      var i, j :| PieceAt(evidence, i, j) && 0 <= i <= j <= |evidence| && parts[k] == TrimBackticks(evidence[i..j]);
    }
  }

  /** The document with the row after the last finding. */
  function CandidateOf(lines: seq<string>, values: seq<string>): string {
    var after := RowsEnd(ScanSection(lines, FINDINGS));
    if values == [] || after > |lines| then "" else Unlines(InsertLine(lines, after, RenderRow(values)))
  }

  /** A finding is accepted if and only if the plan has a Findings table that nothing cuts, the values are in order, no
      value would shift its row, every column they need is there, the id is new, the location and the evidence are
      cited as they should be, and the document it leaves passes the checks. */
  lemma AcceptedIff(doc: string, f: Finding, checks: Checks)
    ensures var lines, table := Lines(doc), ScanSection(Lines(doc), FINDINGS);
            var values := Placed(Written(f), table.header);
            AddFinding(doc, f, checks).Added? <==>
            && RegionOf(lines, FINDINGS).Region? && table.header != [] && !Interrupted(table)
            && ValuesOwe(f, checks) && !Placeholder(Trim(f.id)) && HasColumns(Written(f), table.header) && Unshifted(values)
            && (forall m | 0 <= m < |table.rows| :: !checks.folds(Trim(Cell(table.rows[m].cells, 0)), Trim(f.id)))
            && checks.cites(f.location) && Cited(ScanSection(lines, LEDGER).rows, f.evidence)
            && checks.passes(CandidateOf(lines, values))
  {
    hide Lines, Unlines, ScanSection, RegionOf, Interrupted, AnyNewline, AnyEmpty, Status, Placeholder, Trim, ValidFingerprint,
         HasColumns, Unshifted, Placed, EvidenceKnown, RowValues, RowsEnd, RenderRow, InsertLine, Values, ValuesOwe, Cited;
    OweIs(f, checks);
    CitedIs(Lines(doc), f.evidence);
    var lines, table := Lines(doc), ScanSection(Lines(doc), FINDINGS);
    if RegionOf(lines, FINDINGS).Region? && table.header != [] {
      RowIff(Written(f), table.header);
      EndInFindings(lines);
    }
  }
}
