/** Every command of a ledger is one line, so on the commands the tool is given the marker walk is exact. */
module LedgerCommands {
  import opened Text
  import opened Cells
  import opened Scan
  import opened ScanMeaning
  import opened Section
  import opened Ledgers
  import Evidence
  import opened Shell
  import opened ShellReading
  import opened ShellClean

  predicate CutterOneLine(k: Cutter) {
    AllOneLine(k.done) && OneLine(k.cur)
  }

  lemma {:induction false} RunOneLine(k: Cutter, s: string)
    requires CutterOneLine(k) && OneLine(s)
    ensures CutterOneLine(Run(k, s))
    decreases |s|
  {
    if s != "" {
      RunOneLine(Feed(k, s[0]), s[1..]);
    }
  }

  lemma {:induction false} ReaderOneLine(r: Reader, s: string)
    requires OneLine(r.text) && OneLine(s)
    ensures OneLine(RunRead(r, s).text)
    decreases |s|
  {
    if s != "" {
      ReaderOneLine(FeedRead(r, s[0]), s[1..]);
    }
  }

  /** A line's cells are lines. */
  lemma CellsOneLine(line: string)
    requires OneLine(line)
    ensures AllOneLine(CellsOf(line))
  {
    hide Trim, Run, RunRead;
    RawOneLine(line);
    var cells, raw := CellsOf(line), RawCells(line);
    forall i | 0 <= i < |cells| ensures OneLine(cells[i]) {
      ReaderOneLine(Reader("", false), raw[i]);
      TrimOneLine(Unescape(raw[i]));
    }
  }

  lemma RawOneLine(line: string)
    requires OneLine(line)
    ensures AllOneLine(RawCells(line))
  {
    hide Trim, Run;
    TrimOneLine(line);
    RunOneLine(START, Inner(Trim(line)));
  }

  lemma ScannedOneLine(lines: seq<string>, i: nat)
    requires AllOneLine(lines) && i < |ScanSection(lines, LEDGER).rows|
    ensures AllOneLine(ScanSection(lines, LEDGER).rows[i].cells)
  {
    hide CellsOf, RegionOf, ScanLines, Kinds, FirstPipe, LivePipe, IsData;
    var region, rows := RegionOf(lines, LEDGER), ScanSection(lines, LEDGER).rows;
    RowsAreRead(lines, region.heading + 1, region.end, i);
    CellsOneLine(lines[rows[i].line - 1]);
  }

  lemma AdmitOneLine(doc: string, i: nat)
    requires i < |Ledger(doc)|
    ensures OneLine(Ledger(doc)[i].admit)
  {
    hide Lines, Trim, ColumnIndex, ScanSection;
    ScannedOneLine(Lines(doc), i);
    var scan := ScanSection(Lines(doc), LEDGER);
    var cells, c := scan.rows[i].cells, ColumnIndex(scan.header, "admit");
    if 0 <= c < |cells| {
      TrimOneLine(cells[c]);
    }
  }

  lemma CommandOneLine(row: LedgerRow)
    requires OneLine(row.admit)
    ensures OneLine(Evidence.CommandOf(row))
  {
    hide Trim;
    var cell := Trim(row.admit);
    TrimOneLine(row.admit);
    if |cell| >= 2 {
      TrimOneLine(cell[1..|cell| - 1]);
    }
  }

  /** The command of a ledger row has a reading if its expansions are proper, and then both passes let it through exactly
      when nothing of that reading is live and nothing stands in the body of an unquoted expansion. */
  lemma LedgerCommandsAreExact(doc: string, i: nat)
    requires i < |Ledger(doc)|
    ensures var command := Evidence.CommandOf(Ledger(doc)[i]);
            && OneLine(command) && (ShellClean.Proper(command) ==> ReadCommand(command).Reads?)
            && (ReadCommand(command).Reads? ==>
                  (CommandMarker(command, false).Clean? && CommandMarker(command, true).Clean? <==> Inert(ReadCommand(command).r)))
  {
    hide Ledger, Evidence.CommandOf, CommandMarker, ReadCommand, Inert, ShellClean.Proper;
    var command := Evidence.CommandOf(Ledger(doc)[i]);
    AdmitOneLine(doc, i);
    CommandOneLine(Ledger(doc)[i]);
    if ShellClean.Proper(command) {
      ProperHasReading(command);
    }
    if ReadCommand(command).Reads? {
      CleanIffNothingLive(command, ReadCommand(command).r);
    }
  }
}
