/** Which ledger rows a run admits as observed (internal/evidence/evidence.go: Admit, admitRow, replaySurvey). The
    regular expressions, the hash, the runner and the replay are functions of the caller; the sentences beside a
    reason are left out. */
module Evidence {
  import opened Text
  import opened Mutations
  import opened Shell
  import opened Ledgers

  datatype Why =
    | MalformedRow | LabelNotObservado | NoAdmitCommand | MarkedCommand(marker: Shell.Verdict) | HasMarkup | HasPlaceholder
    | NormalizeInvalid | ExpectInvalid | ExpectWithMutate | ModeMismatch | BadMutation(bad: Mutations.Reason)
    | MutationNotReplayed | CommandFailed | TimedOut | RunnerRefused(code: string) | ExpectedFailurePassed
    | EmptyOutput | MutationNotRed | MutationNotEquivalent | MutationNotGreen | UnstableOutput
    | DigestMissing | DigestMismatch

  datatype Verdict = Admitted | WouldRun | Refused(why: Why)

  /** What a survey of edits established. */
  datatype Tally = Tally(killed: nat, equivalent: nat)

  datatype RowResult = RowResult(id: string, verdict: Verdict, command: string, digest: string, tally: Tally)

  datatype Option<T> = None | Some(value: T)

  /** The world of one run: the tree it validates edits in, the expressions it compiles, the hash it pins with, and
      what each run of a command and each replay of an edit answers. */
  datatype Env = Env(
    tree: Tree,
    compiles: string -> bool,
    rewrite: (string, string) -> string,
    hash: string -> string,
    placeholder: string -> bool,
    run: (string, nat) -> Ran,
    replay: Option<(nat, Mutation, string) -> ReplayResult>)

  datatype Options = Options(execute: bool, mode: string, only: set<string>, record: set<string>)

  // ---------------------------------------------------------------- digests

  /** `strings.TrimRight(line, "\r \t")`. */
  function TrimRight(line: string): (r: string)
    ensures r <= line && (r != "" ==> r[|r| - 1] !in "\r \t")
    ensures forall i | |r| <= i < |line| :: line[i] in "\r \t"
  {
    if line != "" && line[|line| - 1] in "\r \t" then TrimRight(line[..|line| - 1]) else line
  }

  function DropBlank(lines: seq<string>): (r: seq<string>)
    ensures r <= lines && (r != [] ==> r[|r| - 1] != "")
    ensures forall i | |r| <= i < |lines| :: lines[i] == ""
  {
    if lines != [] && lines[|lines| - 1] == "" then DropBlank(lines[..|lines| - 1]) else lines
  }

  function Trimmed(lines: seq<string>): (r: seq<string>)
    ensures |r| == |lines| && forall i | 0 <= i < |lines| :: r[i] == TrimRight(lines[i])
  {
    seq(|lines|, i requires 0 <= i < |lines| => TrimRight(lines[i]))
  }

  /** The lines of an output that a digest covers. */
  function Covered(output: string): seq<string> {
    DropBlank(Trimmed(Lines(output)))
  }

  function NormalizeOutput(output: string): string {
    if Covered(output) == [] then "" else Unlines(Covered(output))
  }

  /** `normalizeOutput`: every line stripped in place, and then the empty lines off the end. */
  method NormalizeLines(output: string) returns (text: string)
    ensures text == NormalizeOutput(output)
  {
    hide Unlines, Lines;
    var lines := Lines(output);
    for i := 0 to |lines|
      invariant |lines| == |Lines(output)|
      invariant forall k | 0 <= k < |lines| :: lines[k] == if k < i then TrimRight(Lines(output)[k]) else Lines(output)[k]
    {
      lines := lines[i := TrimRight(lines[i])];
    }
    assert lines == Trimmed(Lines(output));
    while lines != [] && lines[|lines| - 1] == ""
      invariant DropBlank(lines) == Covered(output)
      decreases |lines|
    {
      lines := lines[..|lines| - 1];
    }
    return if lines == [] then "" else Unlines(lines);
  }

  lemma {:induction false} RightOneLine(line: string)
    requires OneLine(line)
    ensures OneLine(TrimRight(line)) && TrimRight(TrimRight(line)) == TrimRight(line)
  {
    assert forall i | 0 <= i < |TrimRight(line)| :: TrimRight(line)[i] == line[i];
  }

  /** What a digest covers is lines without trailing white space, of which the last is not empty: there is nothing
      left to forgive. */
  lemma CoveredTwice(output: string)
    ensures AllOneLine(Covered(output)) && DropBlank(Trimmed(Covered(output))) == Covered(output)
  {
    hide Lines, TrimRight;
    var lines := Lines(output);
    forall i | 0 <= i < |Covered(output)| ensures OneLine(Covered(output)[i]) && TrimRight(Covered(output)[i]) == Covered(output)[i] {
      RightOneLine(lines[i]);
      assert Covered(output)[i] == Trimmed(lines)[i];
    }
    assert Trimmed(Covered(output)) == Covered(output);
  }

  lemma NormalizedLines(output: string)
    ensures Covered(NormalizeOutput(output)) == Covered(output)
  {
    hide Lines, Unlines, TrimRight;
    CoveredTwice(output);
    if Covered(output) == [] {
      NothingCovered();
    } else {
      LinesUnlines(Covered(output));
    }
  }

  lemma NothingCovered()
    ensures Covered("") == []
  {
    assert Lines("") == [""] && Trimmed([""]) == [""];
    assert [""][..0] == [];
  }

  /** The same line but for the spaces, tabs and carriage returns either ends in. */
  ghost predicate SameButTail(x: string, y: string) {
    exists k: nat ::
      k <= |x| && k <= |y| && x[..k] == y[..k] &&
      (forall i | k <= i < |x| :: x[i] == ' ' || x[i] == '\t' || x[i] == '\r') &&
      (forall i | k <= i < |y| :: y[i] == ' ' || y[i] == '\t' || y[i] == '\r')
  }

  /** A line of a text, with nothing behind its last one. */
  function LineAt(lines: seq<string>, i: nat): string {
    if i < |lines| then lines[i] else ""
  }

  lemma TrimmedIff(x: string, y: string)
    ensures TrimRight(x) == TrimRight(y) <==> SameButTail(x, y)
  {
    hide TrimRight;
    var r, t := TrimRight(x), TrimRight(y);
    if r == t {
      assert x[..|r|] == y[..|r|];
    }
    if k: nat :| k <= |x| && k <= |y| && x[..k] == y[..k] && (forall i | k <= i < |x| :: x[i] in "\r \t") &&
                 (forall i | k <= i < |y| :: y[i] in "\r \t") {
      TrimmedWithin(x, y, k);
      TrimmedWithin(y, x, k);
      assert r == x[..|r|] && t == y[..|t|];
      assert x[..k][..|r|] == y[..k][..|r|];
    }
  }

  lemma TrimmedWithin(x: string, y: string, k: nat)
    requires k <= |x| && k <= |y| && x[..k] == y[..k]
    requires forall i | k <= i < |x| :: x[i] in "\r \t"
    ensures |TrimRight(x)| <= k && |TrimRight(x)| <= |TrimRight(y)|
  {
    hide TrimRight;
    var n := |TrimRight(x)|;
    if n > 0 {
      assert TrimRight(x)[n - 1] == x[n - 1] == x[..k][n - 1] == y[n - 1];
    }
  }

  lemma DroppedIff(a: seq<string>, b: seq<string>)
    ensures DropBlank(a) == DropBlank(b) <==> forall i: nat :: LineAt(a, i) == LineAt(b, i)
  {
    hide DropBlank;
    var r, t := DropBlank(a), DropBlank(b);
    forall i: nat ensures LineAt(a, i) == LineAt(r, i) && LineAt(b, i) == LineAt(t, i) {}
    if forall i: nat :: LineAt(a, i) == LineAt(b, i) {
      assert |r| > 0 ==> LineAt(t, |r| - 1) == LineAt(b, |r| - 1) == LineAt(a, |r| - 1) == r[|r| - 1];
      assert |t| > 0 ==> LineAt(r, |t| - 1) == LineAt(a, |t| - 1) == LineAt(b, |t| - 1) == t[|t| - 1];
      forall i | 0 <= i < |r| ensures r[i] == t[i] {
        assert r[i] == LineAt(a, i) == LineAt(b, i) == t[i];
      }
    }
  }

  lemma CoveredIff(a: string, b: string)
    ensures Covered(a) == Covered(b) <==> forall i: nat :: SameButTail(LineAt(Lines(a), i), LineAt(Lines(b), i))
  {
    hide Lines, TrimRight, DropBlank, SameButTail;
    var x, y := Trimmed(Lines(a)), Trimmed(Lines(b));
    DroppedIff(x, y);
    forall i: nat ensures LineAt(x, i) == LineAt(y, i) <==> SameButTail(LineAt(Lines(a), i), LineAt(Lines(b), i)) {
      TrimmedIff(LineAt(Lines(a), i), LineAt(Lines(b), i));
    }
  }

  /** Nothing is left to forgive: no line ends in a space, a tab or a carriage return, and the last is not empty. */
  predicate Structural(lines: seq<string>) {
    && (forall i | 0 <= i < |lines| && lines[i] != "" :: lines[i][|lines[i]| - 1] !in "\r \t")
    && (lines == [""] || (lines != [] && lines[|lines| - 1] != ""))
  }

  lemma NormalizedStructural(output: string)
    ensures Structural(Lines(NormalizeOutput(output)))
    ensures forall i: nat :: SameButTail(LineAt(Lines(NormalizeOutput(output)), i), LineAt(Lines(output), i))
  {
    hide Unlines, TrimRight, SameButTail, DropBlank, Lines;
    NormalizedLines(output);
    CoveredIff(NormalizeOutput(output), output);
    CoveredTwice(output);
    if Covered(output) == [] {
      LinesOne("");
    } else {
      LinesUnlines(Covered(output));
      forall i | 0 <= i < |Covered(output)| && Covered(output)[i] != ""
        ensures Covered(output)[i][|Covered(output)[i]| - 1] !in "\r \t"
      {
        assert Covered(output)[i] == TrimRight(Lines(output)[i]);
      }
    }
  }

  /** The structural pass leaves the lines of the output without what they end in and without empty lines at the end,
      and two outputs have one digest exactly when line by line they are the same but for a tail of spaces, tabs and
      carriage returns, a line that one of them lacks counting as empty. */
  lemma DigestForgives(env: Env, a: string, b: string)
    requires forall s, t :: env.hash(s) == env.hash(t) ==> s == t
    ensures Structural(Lines(NormalizeOutput(a)))
    ensures forall i: nat :: SameButTail(LineAt(Lines(NormalizeOutput(a)), i), LineAt(Lines(a), i))
    ensures NormalizeOutput(NormalizeOutput(a)) == NormalizeOutput(a)
    ensures Digest(env, a, "") == Digest(env, b, "") <==> forall i: nat :: SameButTail(LineAt(Lines(a), i), LineAt(Lines(b), i))
  {
    hide Covered, SameButTail, Structural, Lines;
    NormalizedLines(a);
    NormalizedLines(b);
    CoveredIff(a, b);
    NormalizedStructural(a);
  }

  function Canonical(env: Env, output: string, normalize: string): string {
    var text := NormalizeOutput(output);
    if normalize == "" then text else env.rewrite(normalize, text)
  }

  function Digest(env: Env, output: string, normalize: string): string {
    env.hash(Canonical(env, output, normalize))
  }

  // ---------------------------------------------------------------- the command

  /** `admitSpan`: one wrapping pair of backticks is stripped. */
  function AdmitSpan(cell: string): string {
    if |cell| < 2 || cell[0] != '`' || cell[|cell| - 1] != '`' || '`' in cell[1..|cell| - 1] then cell
    else Trim(cell[1..|cell| - 1])
  }

  const ABSENT := {"", "-", "\U{2014}", "--", "n/a", "na", "none", "tbd", "todo"}

  function CommandOf(row: LedgerRow): string {
    AdmitSpan(Trim(row.admit))
  }

  // ---------------------------------------------------------------- the survey

  datatype Survey = Held(again: string, tally: Tally) | Breach(why: Why)

  /** What one replayed edit breaks, if it breaks anything: the order of the questions is the order of the source. */
  function EditBreach(m: Mutation, r: ReplayResult): Option<Why> {
    if r.mutated.err.Refusal? then Some(RunnerRefused(r.mutated.err.reason))
    else if m.equivalent && !r.mutated.err.NoErr? then Some(MutationNotEquivalent)
    else if !m.equivalent && r.mutated.err.NoErr? then Some(MutationNotRed)
    else if r.restored.err.Refusal? then Some(RunnerRefused(r.restored.err.reason))
    else if !r.restored.err.NoErr? then Some(MutationNotGreen)
    else None
  }

  function SurveyOf(ms: seq<Mutation>, command: string, replay: (nat, Mutation, string) -> ReplayResult): Survey {
    if ms == [] then Held("", Tally(0, 0))
    else
      var n := |ms| - 1;
      match SurveyOf(ms[..n], command, replay)
      case Breach(why) => Breach(why)
      case Held(_, t) =>
        var r := replay(n, ms[n], command);
        match EditBreach(ms[n], r)
        case Some(why) => Breach(why)
        case None =>
          Held(r.restored.output, if ms[n].equivalent then Tally(t.killed, t.equivalent + 1) else Tally(t.killed + 1, t.equivalent))
  }

  lemma {:induction false} BreachStays(ms: seq<Mutation>, command: string, replay: (nat, Mutation, string) -> ReplayResult, n: nat)
    requires n <= |ms| && SurveyOf(ms[..n], command, replay).Breach?
    ensures SurveyOf(ms, command, replay) == SurveyOf(ms[..n], command, replay)
    decreases |ms|
  {
    if n < |ms| {
      assert ms[..|ms| - 1][..n] == ms[..n];
      BreachStays(ms[..|ms| - 1], command, replay, n);
    } else {
      assert ms[..n] == ms;
    }
  }

  /** `replaySurvey`: every edit in order, until the first that breaks its declaration. */
  method ReplaySurvey(ms: seq<Mutation>, command: string, replay: (nat, Mutation, string) -> ReplayResult) returns (s: Survey)
    ensures s == SurveyOf(ms, command, replay)
  {
    var again, killed, equivalent := "", 0, 0;
    for i := 0 to |ms|
      invariant SurveyOf(ms[..i], command, replay) == Held(again, Tally(killed, equivalent))
    {
      assert ms[..i + 1][..i] == ms[..i];
      var m, replayed := ms[i], replay(i, ms[i], command);
      ghost var broken := EditBreach(m, replayed);
      if broken.Some? {
        BreachStays(ms, command, replay, i + 1);
      }
      if replayed.mutated.err.Refusal? {
        return Breach(RunnerRefused(replayed.mutated.err.reason));
      } else if m.equivalent && !replayed.mutated.err.NoErr? {
        return Breach(MutationNotEquivalent);
      } else if !m.equivalent && replayed.mutated.err.NoErr? {
        return Breach(MutationNotRed);
      } else if replayed.restored.err.Refusal? {
        return Breach(RunnerRefused(replayed.restored.err.reason));
      } else if !replayed.restored.err.NoErr? {
        return Breach(MutationNotGreen);
      }
      if m.equivalent {
        equivalent := equivalent + 1;
      } else {
        killed := killed + 1;
      }
      again := replayed.restored.output;
    }
    assert ms[..|ms|] == ms;
    return Held(again, Tally(killed, equivalent));
  }

  // ---------------------------------------------------------------- one row

  function ModeOf(mode: string): string {
    if mode == "" then "host" else mode
  }

  /** `runFailure`. */
  function Failure(err: Err): Why {
    match err
    case Refusal(reason) => RunnerRefused(reason)
    case Deadline => TimedOut
    case _ => CommandFailed
  }

  /** `runOutcome`: a row that expects a failure observes a command that ran to its end and exited with a code of
      its own, not one the shell or a signal gave it. */
  function Outcome(err: Err, expectFail: bool): Option<Why> {
    if !expectFail then (if err.NoErr? then None else Some(Failure(err)))
    else if err.NoErr? then Some(ExpectedFailurePassed)
    else if err.Exit? && 0 < err.code < 126 then None
    else Some(Failure(err))
  }

  datatype Declared = Edits(ms: seq<Mutation>) | BadEdits(why: Why)

  /** The edits a row declares, each checked against the tree before any is replayed. */
  function DeclaredEdits(mutate: string, env: Env): Declared {
    if Trim(mutate) == "" then Edits([])
    else
      match ParseMutations(mutate)
      case Bad(reason) => BadEdits(BadMutation(reason))
      case Parsed(ms) =>
        var bad := FirstInvalid(ms, env.tree);
        if bad.Some? then BadEdits(BadMutation(bad.value))
        else if env.replay.None? then BadEdits(MutationNotReplayed)
        else Edits(ms)
  }

  /** `ValidateMutations`: the first edit a replay would refuse. A parsed edit names a line of at least one. */
  function FirstInvalid(ms: seq<Mutation>, tree: Tree): Option<Mutations.Reason> {
    if ms == [] then None
    else
      var m := ms[0];
      if m.line < 1 then Some(Malformed)
      else
        match ValidateMutation(tree, m)
        case Invalid(reason) => Some(reason)
        case Valid(_) => FirstInvalid(ms[1..], tree)
  }

  /** What is asked of a row before its command may run, in the order it is asked. */
  function Defect(row: LedgerRow, opts: Options, env: Env, record: bool): Option<Why> {
    var command := CommandOf(row);
    var expect_ := Lower(Trim(row.expect_));
    if row.headerCells > 0 && row.cells != row.headerCells then Some(MalformedRow)
    else if row.kind != "observado" then Some(LabelNotObservado)
    else if Lower(command) in ABSENT then Some(NoAdmitCommand)
    else if !CommandMarker(command, false).Clean? then Some(MarkedCommand(CommandMarker(command, false)))
    else if '`' in command then Some(HasMarkup)
    else if env.placeholder(command) then Some(HasPlaceholder)
    else if !CommandMarker(command, true).Clean? then Some(MarkedCommand(CommandMarker(command, true)))
    else if row.normalize != "" && !env.compiles(row.normalize) then Some(NormalizeInvalid)
    else if expect_ !in {"", "pass", "fail"} then Some(ExpectInvalid)
    else if expect_ == "fail" && Trim(row.mutate) != "" then Some(ExpectWithMutate)
    else if !record && row.digest != "" && ModeOf(row.mode) != ModeOf(opts.mode) then Some(ModeMismatch)
    else
      match DeclaredEdits(row.mutate, env)
      case BadEdits(why) => Some(why)
      case Edits(_) => None
  }

  /** The second observation: another run, or the restored half of the last replay. */
  datatype Second = Again(output: string, tally: Tally) | Failed(why: Why)

  function SecondRun(row: LedgerRow, env: Env): Second {
    var command := CommandOf(row);
    var declared := DeclaredEdits(row.mutate, env);
    if declared.Edits? && declared.ms != [] && env.replay.Some? then
      (match SurveyOf(declared.ms, command, env.replay.value)
       case Breach(why) => Failed(why)
       case Held(again, tally) => Again(again, tally))
    else
      var ran := env.run(command, 1);
      match Outcome(ran.err, Lower(Trim(row.expect_)) == "fail")
      case Some(why) => Failed(why)
      case None => Again(ran.output, Tally(0, 0))
  }

  /** What the run of a row without defects observed: a digest, or why there is none. */
  datatype Observation = Seen(digest: string, tally: Tally) | Unseen(why: Why)

  function Observe(row: LedgerRow, env: Env): Observation {
    var first := env.run(CommandOf(row), 0);
    match Outcome(first.err, Lower(Trim(row.expect_)) == "fail")
    case Some(why) => Unseen(why)
    case None =>
      if Trim(first.output) == "" then Unseen(EmptyOutput)
      else
        var pin := Digest(env, first.output, row.normalize);
        match SecondRun(row, env)
        case Failed(why) => Unseen(why)
        case Again(output, tally) =>
          if Digest(env, output, row.normalize) != pin then Unseen(UnstableOutput) else Seen(pin, tally)
  }

  const NO_TALLY := Tally(0, 0)

  /** `admitRow`. */
  function AdmitRow(row: LedgerRow, opts: Options, env: Env, record: bool): RowResult {
    var command := CommandOf(row);
    match Defect(row, opts, env, record)
    case Some(why) => RowResult(row.id, Refused(why), "", "", NO_TALLY)
    case None =>
      if !opts.execute then RowResult(row.id, WouldRun, command, "", NO_TALLY)
      else
        match Observe(row, env)
        case Unseen(why) => RowResult(row.id, Refused(why), command, "", NO_TALLY)
        case Seen(pin, tally) =>
          RowResult(
            row.id,
            if record then Admitted
            else if row.digest == "" then Refused(DigestMissing)
            else if row.digest != pin then Refused(DigestMismatch)
            else Admitted,
            command, pin, tally)
  }

  predicate Asked(row: LedgerRow, opts: Options) {
    opts.only == {} || row.id in opts.only
  }

  /** `Admit`: the rows that were asked about, in document order. */
  function AdmitRows(rows: seq<LedgerRow>, opts: Options, env: Env): seq<RowResult> {
    if rows == [] then []
    else
      var n := |rows| - 1;
      AdmitRows(rows[..n], opts, env) +
      if Asked(rows[n], opts) then [AdmitRow(rows[n], opts, env, rows[n].id in opts.record)] else []
  }

  method Admit(rows: seq<LedgerRow>, opts: Options, env: Env) returns (results: seq<RowResult>)
    ensures results == AdmitRows(rows, opts, env)
  {
    hide AdmitRow;
    results := [];
    for i := 0 to |rows|
      invariant results == AdmitRows(rows[..i], opts, env)
    {
      assert rows[..i + 1][..i] == rows[..i];
      if opts.only != {} && rows[i].id !in opts.only {
        continue;
      }
      results := results + [AdmitRow(rows[i], opts, env, rows[i].id in opts.record)];
    }
    assert rows[..|rows|] == rows;
  }

  // ---------------------------------------------------------------- what a survey proves

  /** The edit was told apart from the tree, or declared equivalent and was not, and the tree came back green. */
  predicate EditHolds(m: Mutation, r: ReplayResult) {
    && (if m.equivalent then r.mutated.err.NoErr? else !r.mutated.err.NoErr? && !r.mutated.err.Refusal?)
    && r.restored.err.NoErr?
  }

  function CountKilled(ms: seq<Mutation>): nat {
    if ms == [] then 0 else CountKilled(ms[..|ms| - 1]) + if ms[|ms| - 1].equivalent then 0 else 1
  }

  /** A survey holds if and only if every edit of it does; then its tally is of all of them, and the output it
      hands on is the last restored one. A survey that does not hold reports its first edit that does not. */
  lemma {:induction false} SurveyIff(ms: seq<Mutation>, command: string, replay: (nat, Mutation, string) -> ReplayResult)
    ensures var s := SurveyOf(ms, command, replay);
            (s.Held? <==> forall i | 0 <= i < |ms| :: EditHolds(ms[i], replay(i, ms[i], command))) &&
            (s.Held? ==> s.tally.killed == CountKilled(ms) && s.tally.killed + s.tally.equivalent == |ms| &&
                         (ms != [] ==> s.again == replay(|ms| - 1, ms[|ms| - 1], command).restored.output)) &&
            (s.Breach? ==> exists i | 0 <= i < |ms| ::
              EditBreach(ms[i], replay(i, ms[i], command)) == Some(s.why) &&
              forall j | 0 <= j < i :: EditHolds(ms[j], replay(j, ms[j], command)))
  {
    if ms != [] {
      var n := |ms| - 1;
      var less := ms[..n];
      SurveyIff(less, command, replay);
      assert forall i | 0 <= i < n :: less[i] == ms[i];
      assert EditHolds(ms[n], replay(n, ms[n], command)) <==> EditBreach(ms[n], replay(n, ms[n], command)).None?;
    }
  }

  /** A row with edits is admitted only if its survey holds and the last restored output has the digest of the
      first run; the result's tally then counts every edit once. */
  lemma AdmittedSurvey(row: LedgerRow, opts: Options, env: Env, record: bool)
    requires AdmitRow(row, opts, env, record).verdict == Admitted && Trim(row.mutate) != ""
    ensures ParseMutations(row.mutate).Parsed? && env.replay.Some?
    ensures var ms, command, replay := ParseMutations(row.mutate).value, CommandOf(row), env.replay.value;
            var r := AdmitRow(row, opts, env, record);
            && ms != [] && (forall i | 0 <= i < |ms| :: EditHolds(ms[i], replay(i, ms[i], command)))
            && r.tally.killed == CountKilled(ms) && r.tally.killed + r.tally.equivalent == |ms|
            && Digest(env, replay(|ms| - 1, ms[|ms| - 1], command).restored.output, row.normalize) == r.digest
            && Digest(env, env.run(command, 0).output, row.normalize) == r.digest
            && env.run(command, 0).err.NoErr?
  {
    hide ParseMutations, CommandMarker, SurveyOf, NormalizeOutput, Trim, Lower, FirstInvalid, AdmitSpan;
    var ms, command := ParseMutations(row.mutate).value, CommandOf(row);
    SurveyIff(ms, command, env.replay.value);
    SomeEdit(row.mutate);
  }

  /** A cell that parses declares at least one edit. */
  lemma SomeEdit(cell: string)
    requires ParseMutations(cell).Parsed?
    ensures ParseMutations(cell).value != []
  {
    hide SplitOn, ParseEdit, Trim;
    var edits := SplitOn(Trim(cell), SEPARATOR);
    assert ParseEdits(edits).Parsed?;
  }
}
