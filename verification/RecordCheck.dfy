/** What a run records, the next run admits: the pins of one run recorded, and the written plan admitted by a run
    in the same mode whose runner and replay give the same answers. */
module RecordCheck {
  import opened Text
  import opened Cells
  import opened Scan
  import opened Section
  import opened Record
  import opened Recording
  import opened Ledgers
  import opened Evidence
  import opened Pins
  import Shell

  /** The pins a recording run writes: the admitted rows it was asked to record, in order. */
  function PinsOf(results: seq<RowResult>, record: set<string>): seq<Pin> {
    if results == [] then []
    else
      var r := results[|results| - 1];
      PinsOf(results[..|results| - 1], record) +
      if r.verdict == Admitted && r.id in record then [Pin(r.id, r.digest)] else []
  }

  /** The two rows differ at most in their pin and in cells no admission reads. */
  predicate SameRead(a: LedgerRow, b: LedgerRow) {
    && a.id == b.id && a.admit == b.admit && a.normalize == b.normalize && a.mutate == b.mutate
    && a.expect_ == b.expect_ && a.kind == b.kind && a.cells == b.cells && a.headerCells == b.headerCells
  }

  /** What the second run says of a row, given what the first said. */
  predicate Agrees(a: RowResult, b: RowResult, record: set<string>) {
    && a.id == b.id
    && (a.id !in record || a.verdict == Admitted ==> a == b)
    && (a.verdict.Refused? <==> b.verdict.Refused?)
  }

  // ---------------------------------------------------------------- one row

  lemma PinnedCells(cells: seq<string>, header: seq<string>, pin: Pin, mode: string)
    requires PinColumns(header) && |cells| == |header|
    ensures SameRead(RowOfCells(header, cells), RowOfCells(header, PinRow(cells, header, pin, mode)))
    ensures Named(header, PinRow(cells, header, pin, mode), "digest") == Trim(pin.digest)
    ensures Named(header, PinRow(cells, header, pin, mode), "mode") == if ColumnIndex(header, "mode") >= 0 then Trim(mode) else ""
  {
    hide ColumnIndex, Trim, RowOfCells, PinRow, PinColumns, Named, Cell;
    var pinned := PinRow(cells, header, pin, mode);
    PinnedEdges(cells, header, pin, mode);
    assert READ[0] == "admit" && READ[1] == "normalize" && READ[2] == "mutate" && READ[3] == "expect";
    ReadKept(cells, pinned, header, 0);
    ReadKept(cells, pinned, header, 1);
    ReadKept(cells, pinned, header, 2);
    ReadKept(cells, pinned, header, 3);
    Fields(header, cells);
    Fields(header, pinned);
  }

  lemma Fields(header: seq<string>, cells: seq<string>)
    ensures var r := RowOfCells(header, cells);
            r.id == Cell(cells, 0) && r.admit == Named(header, cells, "admit") && r.normalize == Named(header, cells, "normalize") &&
            r.mutate == Named(header, cells, "mutate") && r.expect_ == Named(header, cells, "expect") &&
            r.kind == Cell(cells, |cells| - 1) && r.cells == |cells| && r.headerCells == |header|
  {
    hide Named, Cell;
  }

  /** The pin's own cells, and the ones it leaves: the first, the last and every other. */
  lemma PinnedEdges(cells: seq<string>, header: seq<string>, pin: Pin, mode: string)
    requires PinColumns(header) && |cells| == |header|
    ensures var d, m, pinned := ColumnIndex(header, "digest"), ColumnIndex(header, "mode"), PinRow(cells, header, pin, mode);
            && (forall k | 0 <= k < |cells| && k != d && k != m :: pinned[k] == cells[k])
            && Cell(pinned, 0) == Cell(cells, 0) && Cell(pinned, |cells| - 1) == Cell(cells, |cells| - 1)
            && Named(header, pinned, "digest") == Trim(pin.digest)
            && Named(header, pinned, "mode") == if m >= 0 then Trim(mode) else ""
  {
    hide ColumnIndex, Trim;
  }

  lemma ReadKept(cells: seq<string>, pinned: seq<string>, header: seq<string>, i: nat)
    requires PinColumns(header) && |cells| == |header| == |pinned| && i < |READ|
    requires forall k | 0 <= k < |cells| && k != ColumnIndex(header, "digest") && k != ColumnIndex(header, "mode") :: pinned[k] == cells[k]
    ensures Named(header, pinned, READ[i]) == Named(header, cells, READ[i])
  {
    hide ColumnIndex, Trim;
  }

  /** A row recorded in one run is admitted by the next, with the same result. */
  lemma RecordedAdmitted(row: LedgerRow, row': LedgerRow, opts: Options, env: Env)
    requires opts.execute && AdmitRow(row, opts, env, true).verdict == Admitted && SameRead(row, row')
    requires row'.digest == AdmitRow(row, opts, env, true).digest && ModeOf(row'.mode) == ModeOf(opts.mode)
    requires row'.digest != ""
    ensures AdmitRow(row', opts.(record := {}), env, false) == AdmitRow(row, opts, env, true)
  {
    hide Shell.CommandMarker, Trim, Lower, DeclaredEdits, SurveyOf, Digest, Outcome, CommandOf;
    assert CommandOf(row') == CommandOf(row) by { SameCommand(row, row'); }
    assert SecondRun(row', env) == SecondRun(row, env) by { SameSecond(row, row', env); }
  }

  lemma SameCommand(row: LedgerRow, row': LedgerRow)
    requires SameRead(row, row')
    ensures CommandOf(row') == CommandOf(row)
  {
    hide AdmitSpan, Trim;
  }

  lemma SameSecond(row: LedgerRow, row': LedgerRow, env: Env)
    requires SameRead(row, row')
    ensures SecondRun(row', env) == SecondRun(row, env)
  {
    hide CommandOf, Trim, Lower, DeclaredEdits, SurveyOf, Outcome;
    SameCommand(row, row');
  }

  /** A row that is not recorded is asked the same by both runs, and a row that was to be recorded and was refused
      is refused again. */
  lemma RefusedAgain(row: LedgerRow, opts: Options, env: Env)
    requires opts.execute && AdmitRow(row, opts, env, true).verdict.Refused?
    ensures AdmitRow(row, opts.(record := {}), env, false).verdict.Refused?
    ensures AdmitRow(row, opts, env, true).id == AdmitRow(row, opts.(record := {}), env, false).id
  {
    hide Shell.CommandMarker, Trim, Lower, DeclaredEdits, Observe, CommandOf;
  }

  lemma SameOptions(row: LedgerRow, opts: Options, env: Env)
    ensures AdmitRow(row, opts.(record := {}), env, false) == AdmitRow(row, opts, env, false)
    ensures AdmitRow(row, opts, env, false).id == row.id && AdmitRow(row, opts, env, true).id == row.id
  {
    hide Shell.CommandMarker, Trim, Lower, DeclaredEdits, Observe, CommandOf;
  }

  /** What an admitted row is made of: it is as wide as its header and its digest is one. */
  lemma AdmittedShape(row: LedgerRow, opts: Options, env: Env, record: bool)
    requires AdmitRow(row, opts, env, record).verdict == Admitted && forall t :: IsDigest(env.hash(t))
    ensures row.headerCells > 0 ==> row.cells == row.headerCells
    ensures IsDigest(AdmitRow(row, opts, env, record).digest)
  {
    hide Shell.CommandMarker, Trim, Lower, DeclaredEdits, SecondRun, CommandOf, IsDigest, Canonical, Outcome;
  }

  lemma NotDry(row: LedgerRow, opts: Options, env: Env, record: bool)
    requires opts.execute
    ensures !AdmitRow(row, opts, env, record).verdict.WouldRun?
  {
    hide Defect, Observe, CommandOf;
  }

  // ---------------------------------------------------------------- the pins of a run

  /** Every pin is the pin of one row that was asked about. */
  lemma {:induction false} PinOfRow(rows: seq<LedgerRow>, opts: Options, env: Env, k: nat)
    requires k < |PinsOf(AdmitRows(rows, opts, env), opts.record)|
    ensures exists i | 0 <= i < |rows| ::
              Asked(rows[i], opts) && rows[i].id in opts.record && AdmitRow(rows[i], opts, env, true).verdict == Admitted &&
              PinsOf(AdmitRows(rows, opts, env), opts.record)[k] == Pin(rows[i].id, AdmitRow(rows[i], opts, env, true).digest)
  {
    hide AdmitRow, Asked;
    if rows != [] {
      var n := |rows| - 1;
      PinsStep(rows, opts, env);
      if k < |PinsOf(AdmitRows(rows[..n], opts, env), opts.record)| {
        PinOfRow(rows[..n], opts, env, k);
        var i :| 0 <= i < n && Asked(rows[..n][i], opts) && rows[..n][i].id in opts.record &&
          AdmitRow(rows[..n][i], opts, env, true).verdict == Admitted &&
          PinsOf(AdmitRows(rows[..n], opts, env), opts.record)[k] == Pin(rows[..n][i].id, AdmitRow(rows[..n][i], opts, env, true).digest);
        assert rows[i] == rows[..n][i];
      }
    }
  }

  lemma PinsStep(rows: seq<LedgerRow>, opts: Options, env: Env)
    requires rows != []
    ensures var n := |rows| - 1;
            var before := PinsOf(AdmitRows(rows[..n], opts, env), opts.record);
            var r := AdmitRow(rows[n], opts, env, rows[n].id in opts.record);
            PinsOf(AdmitRows(rows, opts, env), opts.record) ==
            before + if Asked(rows[n], opts) && r.verdict == Admitted && r.id in opts.record then [Pin(r.id, r.digest)] else []
    ensures var n := |rows| - 1; AdmitRow(rows[n], opts, env, rows[n].id in opts.record).id == rows[n].id
  {
    hide AdmitRow, Asked;
    var n := |rows| - 1;
    SameOptions(rows[n], opts, env);
    if Asked(rows[n], opts) {
      var all := AdmitRows(rows, opts, env);
      assert all[..|all| - 1] == AdmitRows(rows[..n], opts, env);
    } else {
      assert AdmitRows(rows, opts, env) == AdmitRows(rows[..n], opts, env);
    }
  }

  /** Every recorded row has a pin. */
  lemma {:induction false} RowHasPin(rows: seq<LedgerRow>, opts: Options, env: Env, i: nat)
    requires i < |rows| && Asked(rows[i], opts) && rows[i].id in opts.record
    requires AdmitRow(rows[i], opts, env, true).verdict == Admitted
    ensures exists k | 0 <= k < |PinsOf(AdmitRows(rows, opts, env), opts.record)| ::
              PinsOf(AdmitRows(rows, opts, env), opts.record)[k] == Pin(rows[i].id, AdmitRow(rows[i], opts, env, true).digest)
  {
    hide AdmitRow, Asked, AdmitRows, PinsOf;
    var n := |rows| - 1;
    PinsStep(rows, opts, env);
    var pins := PinsOf(AdmitRows(rows, opts, env), opts.record);
    if i == n {
      assert pins[|pins| - 1] == Pin(rows[i].id, AdmitRow(rows[i], opts, env, true).digest);
    } else {
      RowHasPin(rows[..n], opts, env, i);
      var before := PinsOf(AdmitRows(rows[..n], opts, env), opts.record);
      var k :| 0 <= k < |before| && before[k] == Pin(rows[..n][i].id, AdmitRow(rows[..n][i], opts, env, true).digest);
      assert pins[k] == before[k];
    }
  }

  // ---------------------------------------------------------------- the ledger after the recording

  ghost predicate Honest(env: Env) {
    forall t :: IsDigest(env.hash(t))
  }

  /** The row the second run reads, against the one the first run read. */
  lemma RowAgain(s: TableScan, s': TableScan, opts: Options, env: Env, i: nat)
    requires opts.execute && CanPin(s, opts.mode) && Honest(env) && i < |s.rows| && s.header != []
    requires ScanPinned(s, s', PinsOf(AdmitRows(LedgerOf(s), opts, env), opts.record), opts.mode)
    requires Asked(LedgerOf(s)[i], opts)
    ensures var row, row', record := LedgerOf(s)[i], LedgerOf(s')[i], LedgerOf(s)[i].id in opts.record;
            Agrees(AdmitRow(row, opts, env, record), AdmitRow(row', opts.(record := {}), env, false), opts.record)
  {
    hide AdmitRow, Asked, AdmitRows, PinsOf, ColumnIndex, Cell, IsDigest, PinColumns, RowOfCells, PinRow, UniqueIds, IsMode;
    var rows := LedgerOf(s);
    var row := rows[i];
    var pins := PinsOf(AdmitRows(rows, opts, env), opts.record);
    var cells := s.rows[i].cells;
    assert row == RowOfCells(s.header, cells);
    IdOfCells(s.header, cells);
    SameOptions(row, opts, env);
    if row.id in opts.record && AdmitRow(row, opts, env, true).verdict == Admitted {
      RowHasPin(rows, opts, env, i);
      var pin := Pin(row.id, AdmitRow(row, opts, env, true).digest);
      var k :| 0 <= k < |pins| && pins[k] == pin;
      OnePin(s, opts, env, i);
      LastPin(pins, pin, k);
      RowPinned(s, s', pins, opts.mode, i, pin);
      AdmittedShape(row, opts, env, true);
      PinnedAgain(s, opts, env, i, LedgerOf(s')[i], pin);
    } else {
      forall k | 0 <= k < |pins| ensures pins[k].id != Cell(cells, 0) {
        OnePin(s, opts, env, i);
      }
      Unpinned(cells, s.header, pins, opts.mode);
      if row.id in opts.record {
        NotDry(row, opts, env, true);
        RefusedAgain(row, opts, env);
      }
    }
  }

  lemma IdOfCells(header: seq<string>, cells: seq<string>)
    ensures RowOfCells(header, cells).id == Cell(cells, 0)
    ensures RowOfCells(header, cells).cells == |cells| && RowOfCells(header, cells).headerCells == |header|
  {
    hide Cell, ColumnIndex;
  }

  /** A pin that names a row is that row's own. */
  lemma OnePin(s: TableScan, opts: Options, env: Env, i: nat)
    requires UniqueIds(s.rows) && s.header != [] && i < |s.rows|
    ensures var rows := LedgerOf(s);
            var pins := PinsOf(AdmitRows(rows, opts, env), opts.record);
            forall k | 0 <= k < |pins| && pins[k].id == Cell(s.rows[i].cells, 0) ::
              rows[i].id in opts.record && AdmitRow(rows[i], opts, env, true).verdict == Admitted &&
              pins[k] == Pin(rows[i].id, AdmitRow(rows[i], opts, env, true).digest)
  {
    hide AdmitRow, Asked, AdmitRows, PinsOf, Cell, RowOfCells;
    var rows := LedgerOf(s);
    var pins := PinsOf(AdmitRows(rows, opts, env), opts.record);
    forall k | 0 <= k < |pins| && pins[k].id == Cell(s.rows[i].cells, 0)
      ensures rows[i].id in opts.record && AdmitRow(rows[i], opts, env, true).verdict == Admitted &&
              pins[k] == Pin(rows[i].id, AdmitRow(rows[i], opts, env, true).digest)
    {
      PinOfRow(rows, opts, env, k);
      var j :| 0 <= j < |rows| && Asked(rows[j], opts) && rows[j].id in opts.record &&
        AdmitRow(rows[j], opts, env, true).verdict == Admitted && pins[k] == Pin(rows[j].id, AdmitRow(rows[j], opts, env, true).digest);
      IdOfCells(s.header, s.rows[j].cells);
      IdOfCells(s.header, s.rows[i].cells);
      SameId(s.rows, i, j);
    }
  }

  lemma SameId(rows: seq<Row>, i: nat, j: nat)
    requires UniqueIds(rows) && i < |rows| && j < |rows| && Cell(rows[i].cells, 0) == Cell(rows[j].cells, 0)
    ensures i == j
  {
    hide Cell;
    IdIs(rows[i]);
    IdIs(rows[j]);
  }

  /** Of the pins that name a row, the last one is the pin itself, because they are all the same. */
  lemma LastPin(pins: seq<Pin>, pin: Pin, k: nat)
    requires k < |pins| && pins[k] == pin
    ensures exists l | 0 <= l < |pins| :: pins[l].id == pin.id && forall j | l < j < |pins| :: pins[j].id != pin.id
    decreases |pins| - k
  {
    if j :| k < j < |pins| && pins[j].id == pin.id {
      LastPin(pins, pins[j], j);
    }
  }

  lemma RowPinned(s: TableScan, s': TableScan, pins: seq<Pin>, mode: string, i: nat, pin: Pin)
    requires ScanPinned(s, s', pins, mode) && i < |s.rows| && PinColumns(s.header) && pin.id == Cell(s.rows[i].cells, 0)
    requires forall k | 0 <= k < |pins| && pins[k].id == pin.id :: pins[k] == pin
    requires exists l | 0 <= l < |pins| :: pins[l].id == pin.id && forall j | l < j < |pins| :: pins[j].id != pin.id
    ensures s'.rows[i].cells == PinRow(s.rows[i].cells, s.header, pin, mode)
  {
    hide Cell, PinColumns;
    var l :| 0 <= l < |pins| && pins[l].id == pin.id && forall j | l < j < |pins| :: pins[j].id != pin.id;
    var cells := s.rows[i].cells;
    PinnedBy(cells, s.header, pins, mode, l);
    SamePins(cells, s.header, pins[..l], pin, mode);
  }

  /** The same pin twice is the pin once. */
  lemma {:induction false} SamePins(cells: seq<string>, header: seq<string>, pins: seq<Pin>, pin: Pin, mode: string)
    requires pin.id == Cell(cells, 0) && forall k | 0 <= k < |pins| && pins[k].id == pin.id :: pins[k] == pin
    ensures PinRow(PinAll(cells, header, pins, mode), header, pin, mode) == PinRow(cells, header, pin, mode)
  {
    hide Cell, ColumnIndex;
    if pins != [] {
      SamePins(cells, header, pins[..|pins| - 1], pin, mode);
    }
  }

  lemma PinnedAgain(s: TableScan, opts: Options, env: Env, i: nat, row': LedgerRow, pin: Pin)
    requires opts.execute && CanPin(s, opts.mode) && i < |s.rows| && |s.rows[i].cells| == |s.header|
    requires var row := RowOfCells(s.header, s.rows[i].cells);
             AdmitRow(row, opts, env, true).verdict == Admitted && IsDigest(pin.digest) &&
             pin.digest == AdmitRow(row, opts, env, true).digest
    requires row' == RowOfCells(s.header, PinRow(s.rows[i].cells, s.header, pin, opts.mode))
    ensures AdmitRow(row', opts.(record := {}), env, false) == AdmitRow(RowOfCells(s.header, s.rows[i].cells), opts, env, true)
  {
    hide AdmitRow, ColumnIndex, Cell, IsDigest, PinColumns, PinRow, UniqueIds, Named, Trim, IsMode;
    PinnedCells(s.rows[i].cells, s.header, pin, opts.mode);
    DigestTrims(pin.digest);
    ModeTrims(opts.mode);
    RecordedAdmitted(RowOfCells(s.header, s.rows[i].cells), row', opts, env);
  }

  lemma DigestTrims(v: string)
    requires IsDigest(v)
    ensures Trim(v) == v && v != ""
  {
    hide Trim, Placeholder, IsSpace;
    DigestRecordable(v);
    TrimBare(v);
  }

  lemma ModeTrims(v: string)
    requires IsMode(v)
    ensures Trim(v) == v && ModeOf(v) == v
  {
    hide Trim, Placeholder, IsSpace;
    ModeRecordable(v);
    TrimBare(v);
  }

  predicate AllAgree(first: seq<RowResult>, second: seq<RowResult>, record: set<string>) {
    |second| == |first| && forall i | 0 <= i < |first| :: Agrees(first[i], second[i], record)
  }

  lemma AgreeAppend(a: seq<RowResult>, b: seq<RowResult>, c: seq<RowResult>, d: seq<RowResult>, record: set<string>)
    requires AllAgree(a, b, record) && AllAgree(c, d, record)
    ensures AllAgree(a + c, b + d, record)
  {
    hide Agrees;
  }

  lemma {:induction false} ResultsAgree(s: TableScan, s': TableScan, opts: Options, env: Env, n: nat)
    requires opts.execute && CanPin(s, opts.mode) && Honest(env) && n <= |s.rows| && s.header != []
    requires ScanPinned(s, s', PinsOf(AdmitRows(LedgerOf(s), opts, env), opts.record), opts.mode)
    ensures |LedgerOf(s)| == |s.rows| == |LedgerOf(s')|
    ensures AllAgree(AdmitRows(LedgerOf(s)[..n], opts, env), AdmitRows(LedgerOf(s')[..n], opts.(record := {}), env), opts.record)
  {
    hide AdmitRow, PinsOf, AllAgree, CanPin, Honest, LedgerOf, AdmitRows, ScanPinned, Asked, OneResult;
    var rows, rows' := LedgerOf(s), LedgerOf(s');
    SameLength(s, s', opts, env);
    AdmitStep(rows, opts, env, n);
    AdmitStep(rows', opts.(record := {}), env, n);
    if n > 0 {
      var m := n - 1;
      ResultsAgree(s, s', opts, env, m);
      OneAgrees(s, s', opts, env, m);
      AgreeAppend(AdmitRows(rows[..m], opts, env), AdmitRows(rows'[..m], opts.(record := {}), env),
                  OneResult(rows[m], opts, env), OneResult(rows'[m], opts.(record := {}), env), opts.record);
    } else {
      NoneAgree(opts.record);
    }
  }

  lemma NoneAgree(record: set<string>)
    ensures AllAgree([], [], record)
  {}

  lemma OneAgrees(s: TableScan, s': TableScan, opts: Options, env: Env, i: nat)
    requires opts.execute && CanPin(s, opts.mode) && Honest(env) && i < |s.rows| && s.header != []
    requires ScanPinned(s, s', PinsOf(AdmitRows(LedgerOf(s), opts, env), opts.record), opts.mode)
    ensures |LedgerOf(s)| == |s.rows| == |LedgerOf(s')|
    ensures AllAgree(OneResult(LedgerOf(s)[i], opts, env), OneResult(LedgerOf(s')[i], opts.(record := {}), env), opts.record)
  {
    hide AdmitRow, PinsOf, Agrees, CanPin, Honest, LedgerOf, AdmitRows, ScanPinned, Asked;
    SameLength(s, s', opts, env);
    SameIds(s, s', opts, env, i);
    AskedSame(LedgerOf(s)[i], LedgerOf(s')[i], opts);
    if Asked(LedgerOf(s)[i], opts) {
      RowAgain(s, s', opts, env, i);
    }
  }

  lemma AskedSame(a: LedgerRow, b: LedgerRow, opts: Options)
    requires a.id == b.id
    ensures Asked(a, opts) == Asked(b, opts.(record := {}))
  {}

  lemma SameLength(s: TableScan, s': TableScan, opts: Options, env: Env)
    requires s.header != []
    requires ScanPinned(s, s', PinsOf(AdmitRows(LedgerOf(s), opts, env), opts.record), opts.mode)
    ensures |LedgerOf(s)| == |s.rows| == |LedgerOf(s')|
  {
    hide AdmitRows, PinsOf, PinAll, RowOfCells;
  }

  function OneResult(row: LedgerRow, opts: Options, env: Env): seq<RowResult> {
    if Asked(row, opts) then [AdmitRow(row, opts, env, row.id in opts.record)] else []
  }

  lemma AdmitStep(rows: seq<LedgerRow>, opts: Options, env: Env, n: nat)
    requires n <= |rows|
    ensures n == 0 ==> AdmitRows(rows[..n], opts, env) == []
    ensures n > 0 ==> AdmitRows(rows[..n], opts, env) == AdmitRows(rows[..n - 1], opts, env) + OneResult(rows[n - 1], opts, env)
  {
    hide AdmitRow, Asked;
    if n > 0 {
      assert rows[..n][..n - 1] == rows[..n - 1];
    }
  }

  lemma SameIds(s: TableScan, s': TableScan, opts: Options, env: Env, i: nat)
    requires CanPin(s, opts.mode) && i < |s.rows| && s.header != []
    requires ScanPinned(s, s', PinsOf(AdmitRows(LedgerOf(s), opts, env), opts.record), opts.mode)
    ensures LedgerOf(s')[i].id == LedgerOf(s)[i].id
  {
    hide AdmitRows, PinsOf, ColumnIndex, Cell, PinColumns, RowOfCells, PinAll, UniqueIds, IsMode;
    IdOfCells(s.header, s.rows[i].cells);
    IdOfCells(s'.header, s'.rows[i].cells);
    PinAllShape(s.rows[i].cells, s.header, PinsOf(AdmitRows(LedgerOf(s), opts, env), opts.record), opts.mode);
  }

  lemma PinsOfFit(s: TableScan, opts: Options, env: Env)
    requires Honest(env) && s.header != []
    ensures PinsFit(s, PinsOf(AdmitRows(LedgerOf(s), opts, env), opts.record))
  {
    hide AdmitRow, AdmitRows, PinsOf, ColumnIndex, Cell, IsDigest, RowOfCells, Asked;
    var rows := LedgerOf(s);
    var pins := PinsOf(AdmitRows(rows, opts, env), opts.record);
    forall k | 0 <= k < |pins| ensures IsDigest(pins[k].digest) && PinFits(s, pins[k]) {
      PinOfRow(rows, opts, env, k);
      var i :| 0 <= i < |rows| && Asked(rows[i], opts) && rows[i].id in opts.record &&
        AdmitRow(rows[i], opts, env, true).verdict == Admitted && pins[k] == Pin(rows[i].id, AdmitRow(rows[i], opts, env, true).digest);
      AdmittedShape(rows[i], opts, env, true);
      IdOfCells(s.header, s.rows[i].cells);
      assert IdOf(s.rows[i]) == pins[k].id;
    }
  }

  /** A run that records: every pin it observed can be written, and a second run over the written plan, in the same
      mode, asked about the same rows, with the same answers and recording nothing, gives every recorded row the
      same admission and every other row the verdict it had. */
  lemma RecordThenCheck(doc: string, opts: Options, env: Env)
    requires opts.execute && Honest(env) && CanPin(ScanSection(Lines(doc), LEDGER), opts.mode)
    ensures var first := AdmitRows(Ledger(doc), opts, env);
            var written := RecordAll(doc, PinsOf(first, opts.record), opts.mode);
            written.Ok? &&
            AllAgree(first, AdmitRows(Ledger(written.doc), opts.(record := {}), env), opts.record)
  {
    hide ScanSection, Lines, AdmitRows, RecordAll, PinsOf, CanPin, LedgerOf, AllAgree, Honest, PinAll;
    var s := ScanSection(Lines(doc), LEDGER);
    var pins := PinsOf(AdmitRows(Ledger(doc), opts, env), opts.record);
    assert s.header != [] by { CanPinHeader(s, opts.mode); }
    PinsOfFit(s, opts, env);
    PinsRecorded(doc, pins, opts.mode);
    var s' := ScanSection(Lines(RecordAll(doc, pins, opts.mode).doc), LEDGER);
    var n := |s.rows|;
    ResultsAgree(s, s', opts, env, n);
    assert LedgerOf(s)[..n] == LedgerOf(s) && LedgerOf(s')[..n] == LedgerOf(s');
  }

  lemma CanPinHeader(s: TableScan, mode: string)
    requires CanPin(s, mode)
    ensures s.header != []
  {
    hide ColumnIndex, IsMode, UniqueIds;
  }
}
