/** Exactly when a row is admitted. */
module Admission {
  import opened Text
  import opened Mutations
  import opened Shell
  import opened ShellClean
  import opened Ledgers
  import opened Evidence

  /** The command of a row is its trimmed Admit cell, or what stands between the two backticks of one that has no other. */
  lemma CommandIs(row: LedgerRow, inner: string)
    ensures Trim(row.admit) == "`" + inner + "`" && '`' !in inner ==> CommandOf(row) == Trim(inner)
    ensures (forall t :: Trim(row.admit) == "`" + t + "`" ==> '`' in t) ==> CommandOf(row) == Trim(row.admit)
  {
    hide Trim;
    var cell := Trim(row.admit);
    if cell == "`" + inner + "`" {
      assert cell[1..|cell| - 1] == inner;
    }
    if |cell| >= 2 && cell[0] == '`' && cell[|cell| - 1] == '`' {
      assert cell == "`" + cell[1..|cell| - 1] + "`";
    }
  }

  /** The row says it is an observation of one plain command: as wide as its header, labelled so, and with a command
      that holds nothing the shell would read as syntax, no backtick and no placeholder. */
  predicate DeclaresCommand(row: LedgerRow, env: Env) {
    var command := CommandOf(row);
    && (row.headerCells > 0 ==> row.cells == row.headerCells)
    && row.kind == "observado"
    && Lower(command) !in {"", "-", "\U{2014}", "--", "n/a", "na", "none", "tbd", "todo"}
    && Active(command) == {} && '`' !in command && !env.placeholder(command)
  }

  predicate ExpectsFailure(row: LedgerRow) {
    Lower(Trim(row.expect_)) == "fail"
  }

  /** Its other cells can be used: the expression compiles, the expectation is one of the words, and edits can be
      replayed and do not stand beside an expected failure. */
  predicate CellsUsable(row: LedgerRow, env: Env) {
    && (row.normalize == "" || env.compiles(row.normalize))
    && Lower(Trim(row.expect_)) in {"", "pass", "fail"}
    && (ExpectsFailure(row) ==> Trim(row.mutate) == "")
    && (Trim(row.mutate) != "" ==> EditsUsable(row.mutate, env))
  }

  /** The cell parses, each edit names one place of the tree it can be made at, and the run can replay. */
  predicate EditsUsable(mutate: string, env: Env) {
    && env.replay.Some? && ParseMutations(mutate).Parsed?
    && forall i | 0 <= i < |ParseMutations(mutate).value| ::
         ParseMutations(mutate).value[i].line >= 1 && ValidateMutation(env.tree, ParseMutations(mutate).value[i]).Valid?
  }

  lemma {:induction false} NoneInvalid(ms: seq<Mutation>, tree: Tree)
    ensures FirstInvalid(ms, tree).None? <==>
            forall i | 0 <= i < |ms| :: ms[i].line >= 1 && ValidateMutation(tree, ms[i]).Valid?
  {
    hide ValidateMutation;
    if ms != [] {
      NoneInvalid(ms[1..], tree);
      assert forall i | 0 < i < |ms| :: ms[i] == ms[1..][i - 1];
    }
  }

  lemma DeclaredIs(mutate: string, env: Env)
    ensures DeclaredEdits(mutate, env).Edits? <==> (Trim(mutate) != "" ==> EditsUsable(mutate, env))
    ensures DeclaredEdits(mutate, env).Edits? ==>
              DeclaredEdits(mutate, env).ms == if Trim(mutate) == "" then [] else ParseMutations(mutate).value
    ensures DeclaredEdits(mutate, env).Edits? && Trim(mutate) != "" ==> env.replay.Some? && ParseMutations(mutate).Parsed?
    ensures ParseMutations(mutate).Parsed? ==> ParseMutations(mutate).value != []
  {
    hide Trim, ParseMutations, ValidateMutation;
    if ParseMutations(mutate).Parsed? {
      NoneInvalid(ParseMutations(mutate).value, env.tree);
      SomeEdit(mutate);
    }
  }

  /** No mode is the host's. */
  predicate SameMode(a: string, b: string) {
    a == b || (a == "" && b == "host") || (a == "host" && b == "")
  }

  /** The run came out as the row expects it to. */
  predicate CameOut(err: Err, expectFail: bool) {
    if expectFail then err.Exit? && 0 < err.code < 126 else err.NoErr?
  }

  /** Every edit held, and the last restored output has the digest. */
  predicate EditsObserved(ms: seq<Mutation>, row: LedgerRow, env: Env, pin: string)
    requires ms != [] && env.replay.Some?
  {
    hide EditHolds, Digest, CommandOf;
    var n := |ms| - 1;
    && (forall i | 0 <= i <= n :: EditHolds(ms[i], env.replay.value(i, ms[i], CommandOf(row))))
    && Digest(env, env.replay.value(n, ms[n], CommandOf(row)).restored.output, row.normalize) == pin
  }

  /** The first run came out and printed something, and the second observation has its digest: the restored half of
      the last edit when every edit held, or a second run. */
  predicate Observed(row: LedgerRow, env: Env, pin: string) {
    hide ParseMutations, Digest, CommandOf, EditsObserved;
    var first, second := env.run(CommandOf(row), 0), env.run(CommandOf(row), 1);
    && CameOut(first.err, ExpectsFailure(row)) && Trim(first.output) != "" && Digest(env, first.output, row.normalize) == pin
    && var declared := ParseMutations(row.mutate);
       if Trim(row.mutate) != "" && env.replay.Some? && declared.Parsed? && declared.value != []
       then EditsObserved(declared.value, row, env, pin)
       else CameOut(second.err, ExpectsFailure(row)) && Digest(env, second.output, row.normalize) == pin
  }

  lemma OutcomeIff(err: Err, expectFail: bool)
    ensures Outcome(err, expectFail).None? <==> CameOut(err, expectFail)
  {}

  lemma DefectIff(row: LedgerRow, opts: Options, env: Env, record: bool)
    ensures Defect(row, opts, env, record).None? <==>
            DeclaresCommand(row, env) && CellsUsable(row, env) &&
            (record || row.digest == "" || SameMode(row.mode, opts.mode))
  {
    hide CommandMarker, Active, Trim, Lower, DeclaredEdits, EditsUsable, CommandOf;
    PassesIffNoMarker(CommandOf(row));
    DeclaredIs(row.mutate, env);
  }

  lemma ObserveIff(row: LedgerRow, env: Env, pin: string)
    requires CellsUsable(row, env)
    ensures Observe(row, env).Seen? && Observe(row, env).digest == pin <==> Observed(row, env, pin)
  {
    hide Trim, Lower, Digest, Outcome, CameOut, CommandOf, SurveyOf, EditHolds, DeclaredEdits, EditsUsable, ParseMutations;
    DeclaredIs(row.mutate, env);
    var command, fail := CommandOf(row), ExpectsFailure(row);
    OutcomeIff(env.run(command, 0).err, fail);
    OutcomeIff(env.run(command, 1).err, fail);
    var declared := DeclaredEdits(row.mutate, env);
    if declared.Edits? && env.replay.Some? {
      SurveyIff(declared.ms, command, env.replay.value);
    }
  }

  /** A row is admitted with a digest if and only if it declares a usable command, the run executes, the row is to be
      recorded or pins that very digest in the mode of the run, and the command was observed with it. */
  lemma AdmittedIff(row: LedgerRow, opts: Options, env: Env, record: bool, pin: string)
    ensures AdmitRow(row, opts, env, record).verdict == Admitted && AdmitRow(row, opts, env, record).digest == pin <==>
            && DeclaresCommand(row, env) && CellsUsable(row, env) && opts.execute && Observed(row, env, pin)
            && (record || (row.digest == pin && pin != "" && SameMode(row.mode, opts.mode)))
  {
    hide DeclaresCommand, CellsUsable, Observed, Observe, Defect, CommandOf;
    DefectIff(row, opts, env, record);
    if CellsUsable(row, env) {
      ObserveIff(row, env, pin);
    }
  }

  // ---------------------------------------------------------------- why a row is refused before it runs

  /** The order the questions are owed in: the earliest reason wins. */
  function Turn(why: Why): nat {
    match why
    case MalformedRow => 1
    case LabelNotObservado => 2
    case NoAdmitCommand => 3
    case MarkedCommand(marker) => if marker.Redirects? then 7 else 4
    case HasMarkup => 5
    case HasPlaceholder => 6
    case NormalizeInvalid => 8
    case ExpectInvalid => 9
    case ExpectWithMutate => 10
    case ModeMismatch => 11
    case _ => 12
  }

  /** What is wrong with a row at each turn. */
  predicate WrongAt(turn: nat, row: LedgerRow, opts: Options, env: Env, record: bool) {
    var command := CommandOf(row);
    match turn
    case 1 => row.headerCells > 0 && row.cells != row.headerCells
    case 2 => row.kind != "observado"
    case 3 => Lower(command) in {"", "-", "\U{2014}", "--", "n/a", "na", "none", "tbd", "todo"}
    case 4 => exists m :: m in Active(command) && m != "<" && m != ">"
    case 5 => '`' in command
    case 6 => env.placeholder(command)
    case 7 => "<" in Active(command) || ">" in Active(command)
    case 8 => row.normalize != "" && !env.compiles(row.normalize)
    case 9 => Lower(Trim(row.expect_)) !in {"", "pass", "fail"}
    case 10 => ExpectsFailure(row) && Trim(row.mutate) != ""
    case 11 => !record && row.digest != "" && !SameMode(row.mode, opts.mode)
    case _ => Trim(row.mutate) != "" && !EditsUsable(row.mutate, env)
  }

  lemma EarlyMarkers(command: string)
    ensures !CommandMarker(command, false).Clean? <==> exists m :: m in Active(command) && m != "<" && m != ">"
    ensures !CommandMarker(command, false).Redirects?
    ensures CommandMarker(command, true) ==
            if "<" in Active(command) then Redirects("<") else if ">" in Active(command) then Redirects(">") else Clean
  {
    hide Active;
    FirstMarker(command);
    PassesIffNoMarker(command);
    ReportsListed(command);
  }

  lemma ReportsListed(command: string)
    ensures forall m | m in Active(command) :: m in ["\n", ";", "&", "|", "$(", "(", ")", "{", "}", "<", ">"]
  {
    ReportsAreKnown(command, Unquoted);
    forall m | m in Active(command) ensures m in ["\n", ";", "&", "|", "$(", "(", ")", "{", "}", "<", ">"] {
      assert Known(m);
    }
  }

  /** A row is refused before its command runs for the first thing that is wrong with it, in that order. */
  lemma EarliestReasonWins(row: LedgerRow, opts: Options, env: Env, record: bool)
    ensures var defect := Defect(row, opts, env, record);
            if defect.None? then forall t | 1 <= t <= 12 :: !WrongAt(t, row, opts, env, record)
            else WrongAt(Turn(defect.value), row, opts, env, record) &&
                 forall t | 1 <= t < Turn(defect.value) :: !WrongAt(t, row, opts, env, record)
    ensures Defect(row, opts, env, record).Some? ==>
            AdmitRow(row, opts, env, record) == RowResult(row.id, Refused(Defect(row, opts, env, record).value), "", "", Tally(0, 0))
  {
    hide CommandMarker, Active, Trim, Lower, DeclaredEdits, EditsUsable, CommandOf;
    EarlyMarkers(CommandOf(row));
    DeclaredIs(row.mutate, env);
    BadEditsLast(row.mutate, env);
  }

  lemma BadEditsLast(mutate: string, env: Env)
    ensures DeclaredEdits(mutate, env).BadEdits? ==> Turn(DeclaredEdits(mutate, env).why) == 12
  {
    hide Trim, ParseMutations, FirstInvalid;
  }

  // ---------------------------------------------------------------- what a row that may run answers

  /** Why a run did not come out. */
  function WhyNot(err: Err): Why {
    if err.NoErr? then ExpectedFailurePassed
    else if err.Refusal? then RunnerRefused(err.reason)
    else if err.Deadline? then TimedOut
    else CommandFailed
  }

  predicate MayRun(row: LedgerRow, opts: Options, env: Env, record: bool) {
    DeclaresCommand(row, env) && CellsUsable(row, env) && (record || row.digest == "" || SameMode(row.mode, opts.mode))
  }

  /** A row with nothing wrong is only named in a dry run. Else its first run has to come out as expected and to print
      something, or the row is refused for that; and when it was observed twice with one digest it answers that digest,
      and is admitted if it is to be recorded or pins that digest, and else refused for pinning another or none. */
  lemma ResultIs(row: LedgerRow, opts: Options, env: Env, record: bool, pin: string)
    requires MayRun(row, opts, env, record)
    ensures var r, command, first := AdmitRow(row, opts, env, record), CommandOf(row), env.run(CommandOf(row), 0);
            && r.id == row.id && r.command == command
            && (!opts.execute ==> r == RowResult(row.id, WouldRun, command, "", Tally(0, 0)))
            && (opts.execute && !CameOut(first.err, ExpectsFailure(row)) ==>
                  r == RowResult(row.id, Refused(WhyNot(first.err)), command, "", Tally(0, 0)))
            && (opts.execute && CameOut(first.err, ExpectsFailure(row)) && AllSpace(first.output) ==>
                  r == RowResult(row.id, Refused(EmptyOutput), command, "", Tally(0, 0)))
            && (opts.execute && (forall p :: !Observed(row, env, p)) ==> r.verdict.Refused? && r.digest == "" && r.tally == Tally(0, 0))
            && (opts.execute && Observed(row, env, pin) ==>
                  r.digest == pin &&
                  r.verdict == if record then Admitted
                               else if row.digest == "" then Refused(DigestMissing)
                               else if row.digest == pin then Admitted else Refused(DigestMismatch))
  {
    hide DeclaresCommand, CellsUsable, Observed, Observe, Defect, CommandOf, CameOut, AllSpace;
    DefectIff(row, opts, env, record);
    ObserveIff(row, env, pin);
    if Observe(row, env).Seen? {
      ObserveIff(row, env, Observe(row, env).digest);
    }
    FirstRunFails(row, env);
  }

  lemma FirstRunFails(row: LedgerRow, env: Env)
    ensures var first := env.run(CommandOf(row), 0);
            && (!CameOut(first.err, ExpectsFailure(row)) ==> Observe(row, env) == Unseen(WhyNot(first.err)))
            && (CameOut(first.err, ExpectsFailure(row)) && AllSpace(first.output) ==> Observe(row, env) == Unseen(EmptyOutput))
  {
    hide Trim, Lower, Digest, CommandOf, SecondRun, AllSpace;
    TrimEmptyIff(env.run(CommandOf(row), 0).output);
  }

  // ---------------------------------------------------------------- which rows are decided

  /** The number of rows a run is asked about: all of them when it names none. */
  function CountAsked(rows: seq<LedgerRow>, only: set<string>): nat {
    if rows == [] then 0
    else CountAsked(rows[..|rows| - 1], only) + if only == {} || rows[|rows| - 1].id in only then 1 else 0
  }

  /** One result for each row asked about, in document order, and a row is recorded if its own id is to be. */
  lemma {:induction false} OneResultEach(rows: seq<LedgerRow>, opts: Options, env: Env)
    ensures |AdmitRows(rows, opts, env)| == CountAsked(rows, opts.only)
    ensures forall i | 0 <= i < |rows| && (opts.only == {} || rows[i].id in opts.only) ::
              CountAsked(rows[..i], opts.only) < |AdmitRows(rows, opts, env)| &&
              AdmitRows(rows, opts, env)[CountAsked(rows[..i], opts.only)] == AdmitRow(rows[i], opts, env, rows[i].id in opts.record)
  {
    hide AdmitRow;
    if rows != [] {
      var n := |rows| - 1;
      OneResultEach(rows[..n], opts, env);
      forall i | 0 <= i < n ensures rows[..i] == rows[..n][..i] {}
    }
  }
}
