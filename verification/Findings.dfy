/** Adding one finding to a plan (internal/plan/addfinding.go). The regular expressions and the document checker
    are functions of the caller; everything else is as the source decides it. */
module Findings {
  import opened Text
  import opened Cells
  import opened Render
  import opened Scan
  import opened ScanEdits
  import opened Section

  datatype Finding = Finding(
    id: string, location: string, severity: string, dataSafe: string, evidence: string, test: string,
    status: string, verdictBy: string, reason: string, fingerprint: string)

  /** `pathCiteRe`, `findingFingerprintRe`, `CheckDocument` and `strings.EqualFold` between any two texts, as answers. */
  datatype Checks = Checks(cites: string -> bool, fingerprint: string -> bool, passes: string -> bool, folds: (string, string) -> bool)

  datatype Why =
    | NoFindings | NoFindingsTable | CutTable
    | Newline | EmptyValue | BadStatus | NoTest | BadFingerprint
    | NoIdColumn | PlaceholderId | NoColumnFor(name: string) | Shifted
    | Duplicate | NoCite | NoEvidence | CheckFails

  datatype Added = Added(doc: string, line: nat, values: seq<string>) | NotAdded(why: Why)

  // ---------------------------------------------------------------- the values

  function Values(f: Finding): seq<string> {
    [f.id, f.location, f.severity, f.dataSafe, f.evidence, f.test, f.status, f.verdictBy, f.reason, f.fingerprint]
  }

  predicate HasNewline(v: string) {
    '\n' in v || '\r' in v
  }

  predicate AnyNewline(vs: seq<string>) {
    exists i | 0 <= i < |vs| :: HasNewline(vs[i])
  }

  predicate AnyEmpty(f: Finding) {
    Trim(f.id) == "" || Trim(f.location) == "" || Trim(f.severity) == "" || Trim(f.dataSafe) == "" ||
    Trim(f.evidence) == "" || Trim(f.verdictBy) == "" || Trim(f.reason) == ""
  }

  const STATUSES := {"open", "confirmed", "fixed", "gap-closed", "rejected", "wontfix"}
  const SETTLED := {"confirmed", "fixed", "gap-closed"}

  function Status(raw: string): string {
    Lower(Trim(raw))
  }

  /** `ValidFindingFingerprint`. */
  predicate ValidFingerprint(raw: string, checks: Checks) {
    var v := Trim(WithoutBackticks(raw));
    Placeholder(v) || checks.fingerprint(v)
  }

  function WithoutBackticks(s: string): (r: string)
    ensures '`' !in r && multiset(r) == multiset(s)['`' := 0] && ('`' !in s ==> r == s)
  {
    assert s != "" ==> s == [s[0]] + s[1..];
    if s == "" then "" else if s[0] == '`' then WithoutBackticks(s[1..]) else [s[0]] + WithoutBackticks(s[1..])
  }

  // ---------------------------------------------------------------- the row

  function IdColumn(header: seq<string>): (i: int)
    ensures -1 <= i < |header|
  {
    IdFrom(header, 0)
  }

  function IdFrom(header: seq<string>, i: nat): (r: int)
    requires i <= |header|
    ensures r == -1 || i <= r < |header|
    decreases |header| - i
  {
    if i == |header| then -1 else if FoldEq(Trim(header[i]), "id") then i else IdFrom(header, i + 1)
  }

  /** The id's column is the first whose whole trimmed name is Id, whatever its case. */
  lemma IdColumnIs(header: seq<string>)
    ensures var i := IdColumn(header);
            (i >= 0 ==> NamesId(header[i])) && forall j | 0 <= j < |header| && (i < 0 || j < i) :: !NamesId(header[j])
  {
    hide Trim;
    IdFromIs(header, 0);
  }

  predicate NamesId(h: string) {
    |Trim(h)| == 2 && (Trim(h)[0] == 'i' || Trim(h)[0] == 'I') && (Trim(h)[1] == 'd' || Trim(h)[1] == 'D')
  }

  lemma {:induction false} IdFromIs(header: seq<string>, i: nat)
    requires i <= |header|
    ensures var r := IdFrom(header, i);
            (r >= 0 ==> NamesId(header[r])) && forall j | i <= j < |header| && (r < 0 || j < r) :: !NamesId(header[j])
    decreases |header| - i
  {
    hide Trim, Fold;
    if i < |header| {
      IdFromIs(header, i + 1);
      FoldIs("id", "id");
      FoldIs(Trim(header[i]), "id");
    }
  }

  datatype Field = Field(name: string, value: string, needed: bool)

  function Columns(f: Finding): seq<Field> {
    [Field("Finding", f.location, true), Field("Severity", f.severity, true), Field("Data safe", f.dataSafe, true),
     Field("Evidence", f.evidence, true),
     Field("Pinning test", f.test, Status(f.status) in SETTLED || !Placeholder(Trim(f.test))),
     Field("Status", f.status, true), Field("Verdict by", f.verdictBy, true), Field("Reason", f.reason, true),
     Field("Fingerprint", f.fingerprint, !Placeholder(Trim(f.fingerprint)))]
  }

  datatype Filled = Filled(values: seq<string>) | Unfilled(why: Why)

  /** The values once the first `n` columns are written, or the first column that has nowhere to go. */
  function Fill(header: seq<string>, columns: seq<Field>, start: seq<string>, n: nat): (r: Filled)
    requires n <= |columns| && |start| == |header|
    ensures r.Filled? ==> |r.values| == |header|
  {
    if n == 0 then Filled(start)
    else
      match Fill(header, columns, start, n - 1)
      case Unfilled(why) => Unfilled(why)
      case Filled(values) =>
        var c := columns[n - 1];
        var at := ColumnIndex(header, c.name);
        if at >= 0 then Filled(values[at := c.value])
        else if c.needed then Unfilled(NoColumnFor(c.name))
        else Filled(values)
  }

  function Blanks(n: nat): (s: seq<string>)
    ensures |s| == n && forall i | 0 <= i < n :: s[i] == ""
  {
    seq(n, i => "")
  }

  /** `Finding.row`: the values in header order, when the rendered row reads back as many cells as it has. */
  function RowValues(f: Finding, header: seq<string>): (r: Filled)
    requires header != []
    ensures r.Filled? ==> |r.values| == |header| && |CellsOf(RenderRow(r.values))| == |header|
  {
    var id := IdColumn(header);
    if id < 0 then Unfilled(NoIdColumn)
    else if Placeholder(Trim(f.id)) then Unfilled(PlaceholderId)
    else
      match Fill(header, Columns(f), Blanks(|header|)[id := f.id], |Columns(f)|)
      case Unfilled(why) => Unfilled(why)
      case Filled(values) =>
        if |CellsOf(RenderRow(values))| != |header| then Unfilled(Shifted) else Filled(values)
  }

  /** `rowFor`: the checks a finding owes, in order, then its row. */
  function RowFor(f: Finding, header: seq<string>, checks: Checks): (r: Filled)
    requires header != []
    ensures r.Filled? ==> |r.values| == |header| && |CellsOf(RenderRow(r.values))| == |header|
  {
    var status := Status(f.status);
    var f' := if Trim(f.fingerprint) == "" then f.(fingerprint := "-") else f;
    if AnyNewline(Values(f)) then Unfilled(Newline)
    else if AnyEmpty(f) then Unfilled(EmptyValue)
    else if status !in STATUSES then Unfilled(BadStatus)
    else if status in SETTLED && Placeholder(Trim(f.test)) then Unfilled(NoTest)
    else if !ValidFingerprint(f'.fingerprint, checks) then Unfilled(BadFingerprint)
    else RowValues(f', header)
  }

  // ---------------------------------------------------------------- the transaction on the text

  predicate IsDuplicate(rows: seq<Row>, id: string, folds: (string, string) -> bool) {
    exists m | 0 <= m < |rows| :: folds(Trim(Cell(rows[m].cells, 0)), Trim(id))
  }

  /** The ids an evidence cell names: cut at commas, semicolons, slashes and spaces, backticks trimmed. */
  function EvidenceParts(ev: string, part: string): seq<string> {
    if ev == "" then [TrimBackticks(part)]
    else if ev[0] in ",;/ " then [TrimBackticks(part)] + EvidenceParts(ev[1..], "")
    else EvidenceParts(ev[1..], part + [ev[0]])
  }

  function TrimBackticks(s: string): (r: string)
    ensures r != "" ==> r[0] != '`' && r[|r| - 1] != '`'
    decreases |s|
  {
    if s != "" && s[0] == '`' then TrimBackticks(s[1..])
    else if s != "" && s[|s| - 1] == '`' then TrimBackticks(s[..|s| - 1])
    else s
  }

  /** Only backticks are trimmed, off either end. */
  lemma {:induction false} TicksAre(s: string) returns (i: nat, j: nat)
    ensures i <= j <= |s| && TrimBackticks(s) == s[i..j] && forall k | 0 <= k < i || j <= k < |s| :: s[k] == '`'
    decreases |s|
  {
    i, j := 0, |s|;
    if s != "" && s[0] == '`' {
      i, j := TicksAre(s[1..]);
      assert forall k | 0 < k < |s| :: s[k] == s[1..][k - 1];
      assert s[1..][i..j] == s[i + 1..j + 1];
      i, j := i + 1, j + 1;
    } else if s != "" && s[|s| - 1] == '`' {
      i, j := TicksAre(s[..|s| - 1]);
      assert s[..|s| - 1][i..j] == s[i..j];
    }
  }

  /** A piece between two separators of the cell, or one of its ends. */
  predicate PieceAt(ev: string, i: int, j: int) {
    && 0 <= i <= j <= |ev| && (i == 0 || Separates(ev[i - 1])) && (j == |ev| || Separates(ev[j]))
    && forall k | i <= k < j :: !Separates(ev[k])
  }

  predicate Separates(c: char) {
    c == ',' || c == ';' || c == '/' || c == ' '
  }

  /** The pieces of a cell that is read from `from` on, the text since the last separator being `part`. */
  lemma {:induction false} PartsFrom(ev: string, from: nat, start: nat, name: string)
    requires start <= from <= |ev| && (start == 0 || Separates(ev[start - 1])) && forall k | start <= k < from :: !Separates(ev[k])
    ensures name in EvidenceParts(ev[from..], ev[start..from]) <==>
            exists i, j | start <= i && PieceAt(ev, i, j) :: name == TrimBackticks(ev[i..j])
    decreases |ev| - from
  {
    hide TrimBackticks;
    var rest, part := ev[from..], ev[start..from];
    if from == |ev| {
      assert PieceAt(ev, start, from);
    } else {
      assert rest[0] == ev[from] && rest[1..] == ev[from + 1..];
      assert rest[0] in ",;/ " <==> Separates(ev[from]);
      if Separates(ev[from]) {
        assert ev[from + 1..from + 1] == "";
        PartsFrom(ev, from + 1, from + 1, name);
        assert PieceAt(ev, start, from);
        forall i, j | start <= i && PieceAt(ev, i, j) ensures (i == start && j == from) || from + 1 <= i {
          assert i > start ==> Separates(ev[i - 1]);
          assert j < |ev| ==> Separates(ev[j]);
        }
      } else {
        assert part + [ev[from]] == ev[start..from + 1];
        PartsFrom(ev, from + 1, start, name);
      }
    }
  }

  /** An evidence cell names the pieces between its commas, semicolons, slashes and spaces, without the backticks around
      them. */
  lemma PartsAre(ev: string, name: string)
    ensures name in EvidenceParts(ev, "") <==> exists i, j | PieceAt(ev, i, j) :: name == TrimBackticks(ev[i..j])
  {
    hide TrimBackticks, EvidenceParts, PieceAt;
    PartsFrom(ev, 0, 0, name);
    assert ev[0..] == ev && ev[0..0] == "";
    forall i, j | PieceAt(ev, i, j) ensures 0 <= i { PieceIn(ev, i, j); }
  }

  lemma PieceIn(ev: string, i: int, j: int)
    requires PieceAt(ev, i, j)
    ensures 0 <= i <= j <= |ev|
  {}

  predicate EvidenceKnown(lines: seq<string>, evidence: string) {
    var rows, parts := ScanSection(lines, LEDGER).rows, EvidenceParts(evidence, "");
    forall i | 0 <= i < |parts| && parts[i] != "" :: exists m | 0 <= m < |rows| :: Cell(rows[m].cells, 0) == parts[i]
  }

  /** `addFinding`, from the text it reads to the text it would write. */
  function AddFinding(doc: string, f: Finding, checks: Checks): Added {
    var lines := Lines(doc);
    var table := ScanSection(lines, FINDINGS);
    if RegionOf(lines, FINDINGS) == Missing then NotAdded(NoFindings)
    else if table.header == [] then NotAdded(NoFindingsTable)
    else if Interrupted(table) then NotAdded(CutTable)
    else
      var row := RowFor(f, table.header, checks);
      if row.Unfilled? then NotAdded(row.why)
      else if IsDuplicate(table.rows, f.id, checks.folds) then NotAdded(Duplicate)
      else if !checks.cites(f.location) then NotAdded(NoCite)
      else if !EvidenceKnown(lines, f.evidence) then NotAdded(NoEvidence)
      else
        EndInFindings(lines);
        var after := RowsEnd(table);
        var candidate := Unlines(InsertLine(lines, after, RenderRow(row.values)));
        if !checks.passes(candidate) then NotAdded(CheckFails)
        else Added(candidate, after + 1, row.values)
  }

  lemma EndInFindings(lines: seq<string>)
    requires RegionOf(lines, FINDINGS).Region? && ScanSection(lines, FINDINGS).header != []
    ensures var r, end := RegionOf(lines, FINDINGS), RowsEnd(ScanSection(lines, FINDINGS));
            r.heading + 1 < end <= r.end &&
            EndOfRows(Kinds(lines[r.heading + 1..r.end]), r.heading + 1, end - r.heading - 1)
  {
    hide RegionOf, ScanKinds, EndOfRows, RowsEnd;
    var r := RegionOf(lines, FINDINGS);
    RowsEndIsEnd(Kinds(lines[r.heading + 1..r.end]), r.heading + 1);
  }

  /** A value where its name resolves to the column, and otherwise what the column held. */
  function Put(header: seq<string>, name: string, value: string, at: nat, otherwise: string): string {
    if ColumnIndex(header, name) == at then value else otherwise
  }

  /** What the row holds in one column: the value whose name resolves there, the later of two that both do; the id in
      its own; nothing in a column of somebody else's. */
  function CellFor(f: Finding, header: seq<string>, at: nat): string {
    var c := if IdColumn(header) == at then f.id else "";
    var c := Put(header, "Finding", f.location, at, c);
    var c := Put(header, "Severity", f.severity, at, c);
    var c := Put(header, "Data safe", f.dataSafe, at, c);
    var c := Put(header, "Evidence", f.evidence, at, c);
    var c := Put(header, "Pinning test", f.test, at, c);
    var c := Put(header, "Status", f.status, at, c);
    var c := Put(header, "Verdict by", f.verdictBy, at, c);
    var c := Put(header, "Reason", f.reason, at, c);
    Put(header, "Fingerprint", f.fingerprint, at, c)
  }

  /** The verdict settles the finding, so it owes the test that holds it. */
  predicate Settled(f: Finding) {
    Lower(Trim(f.status)) == "confirmed" || Lower(Trim(f.status)) == "fixed" || Lower(Trim(f.status)) == "gap-closed"
  }

  predicate Has(header: seq<string>, name: string, needed: bool) {
    needed ==> ColumnIndex(header, name) >= 0
  }

  /** Every value the row needs has a column of its name. */
  predicate HasColumns(f: Finding, header: seq<string>) {
    && IdColumn(header) >= 0
    && Has(header, "Finding", true) && Has(header, "Severity", true) && Has(header, "Data safe", true)
    && Has(header, "Evidence", true) && Has(header, "Pinning test", Settled(f) || !Placeholder(Trim(f.test)))
    && Has(header, "Status", true) && Has(header, "Verdict by", true) && Has(header, "Reason", true)
    && Has(header, "Fingerprint", !Placeholder(Trim(f.fingerprint)))
  }

  lemma {:induction false} FillLast(header: seq<string>, columns: seq<Field>, start: seq<string>, n: nat, at: nat)
    requires n <= |columns| && |start| == |header| && at < |header|
    ensures Fill(header, columns, start, n).Filled? ==>
              Fill(header, columns, start, n).values[at] == LastOf(header, columns, n, at, start[at])
    ensures Fill(header, columns, start, n).Filled? <==>
            forall i | 0 <= i < n :: Has(header, columns[i].name, columns[i].needed)
  {
    hide ColumnIndex;
    if n > 0 {
      FillLast(header, columns, start, n - 1, at);
    }
  }

  function LastOf(header: seq<string>, columns: seq<Field>, n: nat, at: nat, otherwise: string): string
    requires n <= |columns|
  {
    if n == 0 then otherwise
    else Put(header, columns[n - 1].name, columns[n - 1].value, at, LastOf(header, columns, n - 1, at, otherwise))
  }

  /** The columns of a finding, one by one. */
  lemma ColumnsAre(f: Finding)
    ensures var c := Columns(f);
            && |c| == 9
            && c[0] == Field("Finding", f.location, true) && c[1] == Field("Severity", f.severity, true)
            && c[2] == Field("Data safe", f.dataSafe, true) && c[3] == Field("Evidence", f.evidence, true)
            && c[4] == Field("Pinning test", f.test, Settled(f) || !Placeholder(Trim(f.test)))
            && c[5] == Field("Status", f.status, true) && c[6] == Field("Verdict by", f.verdictBy, true)
            && c[7] == Field("Reason", f.reason, true)
            && c[8] == Field("Fingerprint", f.fingerprint, !Placeholder(Trim(f.fingerprint)))
  {
    hide Trim, Placeholder, Lower;
  }

  lemma LastStep(header: seq<string>, c: seq<Field>, n: nat, at: nat, otherwise: string)
    requires 0 < n <= |c|
    ensures LastOf(header, c, n, at, otherwise) == Put(header, c[n - 1].name, c[n - 1].value, at, LastOf(header, c, n - 1, at, otherwise))
    ensures LastOf(header, c, 0, at, otherwise) == otherwise
  {
    hide Put;
  }

  lemma CellIsLast(f: Finding, header: seq<string>, at: nat, otherwise: string)
    requires otherwise == if IdColumn(header) == at then f.id else ""
    ensures |Columns(f)| == 9 && LastOf(header, Columns(f), 9, at, otherwise) == CellFor(f, header, at)
  {
    hide Columns, Put, LastOf, IdColumn, Settled, Placeholder;
    ColumnsAre(f);
    var c := Columns(f);
    LastStep(header, c, 1, at, otherwise);
    LastStep(header, c, 2, at, otherwise);
    LastStep(header, c, 3, at, otherwise);
    LastStep(header, c, 4, at, otherwise);
    LastStep(header, c, 5, at, otherwise);
    LastStep(header, c, 6, at, otherwise);
    LastStep(header, c, 7, at, otherwise);
    LastStep(header, c, 8, at, otherwise);
    LastStep(header, c, 9, at, otherwise);
  }

  lemma NeedsAre(f: Finding, header: seq<string>)
    requires IdColumn(header) >= 0
    ensures HasColumns(f, header) <==>
            forall i | 0 <= i < |Columns(f)| :: Has(header, Columns(f)[i].name, Columns(f)[i].needed)
  {
    hide Columns, Has, IdColumn, Settled, Placeholder;
    ColumnsAre(f);
    var c := Columns(f);
    if forall i | 0 <= i < |c| :: Has(header, c[i].name, c[i].needed) {
      assert Has(header, c[0].name, c[0].needed) && Has(header, c[1].name, c[1].needed) && Has(header, c[2].name, c[2].needed);
      assert Has(header, c[3].name, c[3].needed) && Has(header, c[4].name, c[4].needed) && Has(header, c[5].name, c[5].needed);
      assert Has(header, c[6].name, c[6].needed) && Has(header, c[7].name, c[7].needed) && Has(header, c[8].name, c[8].needed);
    }
  }

  /** The row is filled if the id is no placeholder and every value it needs has a column, unless a value shifts it; and
      then each column holds the value that is its own. */
  lemma RowValuesAre(f: Finding, header: seq<string>)
    requires header != []
    ensures var r := RowValues(f, header);
            && (r.Filled? ==> HasColumns(f, header) && !Placeholder(Trim(f.id)) &&
                              forall at | 0 <= at < |header| :: r.values[at] == CellFor(f, header, at))
            && (HasColumns(f, header) && !Placeholder(Trim(f.id)) ==> r.Filled? || r.why == Shifted)
  {
    hide Columns, ColumnIndex, IdColumn, Settled, Placeholder, Fill, HasColumns, CellFor, LastOf, RenderRow, CellsOf;
    if IdColumn(header) >= 0 {
      var start := Blanks(|header|)[IdColumn(header) := f.id];
      NeedsAre(f, header);
      FillLast(header, Columns(f), start, |Columns(f)|, 0);
      var r := Fill(header, Columns(f), start, |Columns(f)|);
      if r.Filled? {
        forall at | 0 <= at < |header| ensures r.values[at] == CellFor(f, header, at) {
          FillLast(header, Columns(f), start, |Columns(f)|, at);
          CellIsLast(f, header, at, start[at]);
        }
      }
    } else {
      NoId(f, header);
    }
  }

  lemma NoId(f: Finding, header: seq<string>)
    requires IdColumn(header) < 0
    ensures !HasColumns(f, header)
  {}

  /** The column filling of `Finding.row`: a slice of cells written in place, column by column. */
  method FillRow(f: Finding, header: seq<string>) returns (r: Filled)
    requires header != []
    ensures r == RowValues(f, header)
  {
    hide ColumnIndex, IdColumn, CellsOf, Placeholder, Columns, RenderRow;
    var cells := new string[|header|](i => "");
    var id := IdColumn(header);
    if id < 0 {
      return Unfilled(NoIdColumn);
    }
    if Placeholder(Trim(f.id)) {
      return Unfilled(PlaceholderId);
    }
    cells[id] := f.id;
    assert cells[..] == Blanks(|header|)[id := f.id];
    var columns := Columns(f);
    ghost var start := cells[..];
    for n := 0 to |columns|
      invariant Fill(header, columns, start, n) == Filled(cells[..])
    {
      var c := columns[n];
      var at := ColumnIndex(header, c.name);
      if at >= 0 {
        cells[at] := c.value;
      } else if c.needed {
        Unfillable(header, columns, start, n + 1, |columns|);
        return Unfilled(NoColumnFor(c.name));
      }
    }
    if |CellsOf(RenderRow(cells[..]))| != |header| {
      return Unfilled(Shifted);
    }
    return Filled(cells[..]);
  }

  lemma Unfillable(header: seq<string>, columns: seq<Field>, start: seq<string>, n: nat, k: nat)
    requires n <= k <= |columns| && |start| == |header| && Fill(header, columns, start, n).Unfilled?
    ensures Fill(header, columns, start, k) == Fill(header, columns, start, n)
  {
    hide ColumnIndex;
    if n < k {
      Unfillable(header, columns, start, n, k - 1);
    }
  }
}
