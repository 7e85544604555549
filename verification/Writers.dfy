/** The three writers of a plan, as what each would put in the place of the document it read, and what that does
    to the findings. */
module Writers {
  import opened Text
  import opened Render
  import opened Scan
  import opened Section
  import opened Findings
  import opened FindingLaws
  import opened Upgrade
  import opened UpgradeLaws
  import opened Recording

  /** `plan add-finding`, `plan upgrade` and a recording `plan admit` with the pins its run observed. */
  datatype Task = Add(finding: Finding, checks: Checks) | Stamp(run: string) | Admit(pins: seq<Pin>, mode: string)

  datatype Candidate = Write(doc: string) | Nothing | Refuse

  function CandidateOf(t: Task, doc: string): Candidate {
    match t
    case Add(f, checks) => (
      match AddFinding(doc, f, checks)
      case Added(next, _, _) => Write(next)
      case NotAdded(_) => Refuse)
    case Stamp(run) => (
      match UpgradeDoc(doc, run)
      case Upgraded(next, changed) => if changed == 0 then Nothing else Write(next)
      case _ => Refuse)
    case Admit(pins, mode) =>
      if pins == [] then Nothing
      else
        match RecordAll(doc, pins, mode)
        case Ok(next) => Write(next)
        case Refused(_) => Refuse
  }

  function Header(doc: string): seq<string> {
    ScanSection(Lines(doc), FINDINGS).header
  }

  /** The Findings rows a writer adds to the document it read. */
  function NewRows(t: Task, doc: string): seq<seq<string>> {
    if t.Add? && AddFinding(doc, t.finding, t.checks).Added? then [TrimAll(AddFinding(doc, t.finding, t.checks).values)]
    else []
  }

  /** A write keeps the header of the Findings and every row of it, and adds its own at the end. */
  lemma WriteKeepsRows(t: Task, doc: string)
    requires CandidateOf(t, doc).Write? && ProperHeader(Header(doc))
    ensures var next := CandidateOf(t, doc).doc;
            Header(next) == Header(doc) && SectionRows(next, FINDINGS) == SectionRows(doc, FINDINGS) + NewRows(t, doc)
    ensures t.Add? ==> |NewRows(t, doc)| == 1 && FieldsRead(Written(t.finding), Header(doc), NewRows(t, doc)[0])
  {
    hide AddFinding, UpgradeDoc, RecordAll, Lines, ScanSection, FoldEq, ProperHeader, TrimAll, FieldsRead, Written, IsData;
    NamesDiffer();
    FoldSame(FINDINGS, LAYERS);
    FoldSame(FINDINGS, RANKED);
    assert SectionRows(doc, FINDINGS) + [] == SectionRows(doc, FINDINGS);
    match t
    case Add(f, checks) =>
      AddedReadsBack(doc, f, checks);
      AddedIsRead(doc, f, checks);
    case Stamp(run) =>
      UpgradeElsewhere(doc, run, FINDINGS);
    case Admit(pins, mode) =>
      RecordedElsewhere(doc, pins, mode, FINDINGS);
  }

  lemma FoldSame(a: string, b: string)
    ensures FoldEq(a, b) == FoldEq(b, a)
  {}

  /** Only a recording changes what the Evidence ledger reads. */
  lemma WriteKeepsLedger(t: Task, doc: string)
    requires CandidateOf(t, doc).Write? && !t.Admit?
    ensures SectionRows(CandidateOf(t, doc).doc, LEDGER) == SectionRows(doc, LEDGER)
  {
    hide AddFinding, UpgradeDoc, RecordAll, Lines, ScanSection, FoldEq, ProperHeader, TrimAll, Interrupted;
    NamesDiffer();
    FoldSame(FINDINGS, LEDGER);
    FoldSame(LAYERS, LEDGER);
    FoldSame(RANKED, LEDGER);
    match t
    case Add(f, checks) =>
      AddedElsewhere(doc, f, checks, LEDGER);
    case Stamp(run) =>
      UpgradeElsewhere(doc, run, LEDGER);
  }
}
