/** The edits a ledger row declares: how a Mutate cell is read (internal/plan/plan.go: ParseMutations), when an
    edit is one a replay may make (ValidateMutation), and what the replay does with it
    (internal/admit/replay.go: applyMutation, restoreFile, replayWith). */
module Mutations {
  import opened Text
  import opened Numbers

  datatype Mutation = Mutation(oldText: string, newText: string, path: string, line: nat, equivalent: bool)

  datatype Reason = Malformed | NotFound | NoLine | Ambiguous | NoOp

  datatype Parsed<T> = Parsed(value: T) | Bad(reason: Reason)

  // ---------------------------------------------------------------- the grammar of a cell

  /** `strings.Split` on a separator that is not empty. */
  function SplitOn(s: string, sep: string): (r: seq<string>)
    requires sep != ""
    ensures r != []
    decreases |s|
  {
    var i := Index(s, sep);
    if i < 0 then [s] else [s[..i]] + SplitOn(s[i + |sep|..], sep)
  }

  /** `strings.LastIndex` of one character. */
  function LastIndexOf(s: string, c: char): (i: int)
    ensures -1 <= i < |s| && (i >= 0 ==> s[i] == c)
    ensures forall j | i < j < |s| :: s[j] != c
  {
    if s == "" then -1
    else if s[|s| - 1] == c then |s| - 1
    else LastIndexOf(s[..|s| - 1], c)
  }

  const MAX_INT: int := 0x7fff_ffff_ffff_ffff

  /** `strconv.Atoi` where its answer is positive: an optional plus sign and digits, within 64 bits. Zero stands
      for every other answer, which the one caller refuses alike. */
  function PositiveInt(s: string): nat {
    var digits := if s != "" && s[0] == '+' then s[1..] else s;
    if Digits(digits) && Decimal(digits) <= MAX_INT then Decimal(digits) else 0
  }

  /** `ParseMutation`: `<old> => <new> @ <path>:<line>`, cut at the first arrow, the last at sign and the last
      colon. */
  function ParseMutation(cell: string): Parsed<Mutation> {
    var trimmed := Trim(cell);
    var arrow := Index(trimmed, "=>");
    if arrow < 0 then Bad(Malformed)
    else
      var oldText, rest := Trim(trimmed[..arrow]), Trim(trimmed[arrow + 2..]);
      var at := LastIndexOf(rest, '@');
      if oldText == "" || at < 0 then Bad(Malformed)
      else
        var locator := Trim(rest[at + 1..]);
        var colon := LastIndexOf(locator, ':');
        if colon < 0 then Bad(Malformed)
        else
          Located(oldText, Trim(rest[..at]), Trim(locator[..colon]), PositiveInt(Trim(locator[colon + 1..])))
  }

  function Located(oldText: string, newText: string, path: string, line: nat): Parsed<Mutation> {
    if line < 1 || path == "" then Bad(Malformed)
    else if oldText == newText then Bad(NoOp)
    else Parsed(Mutation(oldText, newText, path, line, false))
  }

  const SEPARATOR := " ;; "
  const EQUIVALENT := "~ "

  function ParseEdit(edit: string): Parsed<Mutation> {
    var e := Trim(edit);
    match ParseMutation(TrimPrefix(e, EQUIVALENT))
    case Bad(reason) => Bad(reason)
    case Parsed(m) => Parsed(m.(equivalent := HasPrefix(e, EQUIVALENT)))
  }

  function ParseEdits(edits: seq<string>): Parsed<seq<Mutation>> {
    if edits == [] then Parsed([])
    else
      match ParseEdits(edits[..|edits| - 1])
      case Bad(reason) => Bad(reason)
      case Parsed(before) =>
        match ParseEdit(edits[|edits| - 1])
        case Bad(reason) => Bad(reason)
        case Parsed(m) => Parsed(before + [m])
  }

  /** `ParseMutations`: a survey is read whole or not at all. */
  function ParseMutations(cell: string): Parsed<seq<Mutation>> {
    ParseEdits(SplitOn(Trim(cell), SEPARATOR))
  }

  // ---------------------------------------------------------------- paths and files

  type Path = seq<string>

  datatype Entry = File(content: string) | Dir | Unreadable

  type Tree = map<Path, Entry>

  /** The lexical cleaning of a relative path, segment by segment. */
  function CleanFrom(parts: seq<string>, done: Path): Path {
    if parts == [] then done
    else CleanFrom(parts[1..],
                   if parts[0] == "" || parts[0] == "." then done
                   else if parts[0] != ".." then done + [parts[0]]
                   else if done != [] && done[|done| - 1] != ".." then done[..|done| - 1]
                   else done + [".."])
  }

  function Clean(path: string): Path {
    CleanFrom(SplitOn(path, "/"), [])
  }

  predicate Climbs(p: Path) {
    p != [] && p[0] == ".."
  }

  /** Every step up a cleaned path takes comes first. */
  predicate UpsFirst(p: Path) {
    forall i, j | 0 <= i < j < |p| :: p[j] == ".." ==> p[i] == ".."
  }

  lemma {:induction false} CleanIsUpsFirst(parts: seq<string>, done: Path)
    requires UpsFirst(done)
    ensures UpsFirst(CleanFrom(parts, done))
  {
    if parts != [] {
      var next := if parts[0] == "" || parts[0] == "." then done
                  else if parts[0] != ".." then done + [parts[0]]
                  else if done != [] && done[|done| - 1] != ".." then done[..|done| - 1]
                  else done + [".."];
      if parts[0] == ".." && done != [] && done[|done| - 1] == ".." {
        assert forall i | 0 <= i < |done| :: done[i] == "..";
      }
      assert UpsFirst(next);
      CleanIsUpsFirst(parts[1..], next);
    }
  }

  /** A path that does not climb out of the tree at its first step does so nowhere. */
  lemma StaysInside(path: string)
    requires !Climbs(Clean(path))
    ensures ".." !in Clean(path)
  {
    hide CleanFrom;
    CleanIsUpsFirst(SplitOn(path, "/"), []);
    var p := Clean(path);
    forall i | 0 <= i < |p| ensures p[i] != ".." {
      assert i == 0 || 0 < i;
    }
  }

  // ---------------------------------------------------------------- validation

  function CountFrom(s: string, sub: string, from: nat): nat
    requires sub != "" && from <= |s|
    decreases |s| - from
  {
    var i := IndexFrom(s, sub, from);
    if i < 0 then 0 else 1 + CountFrom(s, sub, i + |sub|)
  }

  /** `strings.Count`: the occurrences that do not overlap; the empty text stands between all characters. */
  function Count(s: string, sub: string): nat {
    if sub == "" then |s| + 1 else CountFrom(s, sub, 0)
  }

  datatype Validity = Valid(content: string) | Invalid(reason: Reason)

  /** What a replay asks of the file's content before it runs anything. */
  function ValidateContent(content: string, m: Mutation): Validity
    requires m.line >= 1
  {
    var lines := Lines(content);
    if m.line > |lines| then Invalid(NoLine)
    else if !Contains(lines[m.line - 1], m.oldText) then Invalid(NotFound)
    else
      var n := Count(content, m.oldText);
      if n == 0 then Invalid(NotFound) else if n > 1 then Invalid(Ambiguous) else Valid(content)
  }

  /** `ValidateMutation`, against the tree as it is on disk. */
  function ValidateMutation(tree: Tree, m: Mutation): Validity
    requires m.line >= 1
  {
    if HasPrefix(m.path, "/") || Climbs(Clean(m.path)) then Invalid(Malformed)
    else if Clean(m.path) !in tree || !tree[Clean(m.path)].File? then Invalid(NotFound)
    else ValidateContent(tree[Clean(m.path)].content, m)
  }

  // ---------------------------------------------------------------- the edit

  /** `strings.Replace(s, old, new, 1)`. */
  function ReplaceFirst(s: string, oldText: string, newText: string): string {
    var i := Index(s, oldText);
    if i < 0 then s else s[..i] + newText + s[i + |oldText|..]
  }

  function EditedLines(lines: seq<string>, m: Mutation): (r: seq<string>)
    requires 1 <= m.line <= |lines|
    ensures |r| == |lines| && forall k | 0 <= k < |lines| && k != m.line - 1 :: r[k] == lines[k]
  {
    lines[m.line - 1 := ReplaceFirst(lines[m.line - 1], m.oldText, m.newText)]
  }

  /** An occurrence of a text without line breaks that starts before a line of the document and reaches into it
      does not exist. */
  lemma InsideLine(doc: string, at: nat, oldText: string, j: nat)
    requires OccursAt(doc, oldText, j) && OneLine(oldText) && (at == 0 || (at <= |doc| && doc[at - 1] == '\n'))
    requires j + |oldText| > at
    ensures j >= at
  {
    if j < at {
      CharOf(doc, oldText, j, at - 1);
    }
  }

  lemma CharOf(doc: string, oldText: string, j: nat, x: nat)
    requires OccursAt(doc, oldText, j) && j <= x < j + |oldText|
    ensures doc[x] in oldText
  {
    assert doc[j..j + |oldText|][x - j] == doc[x];
  }

  lemma {:induction false} LineStartsAfterBreak(ls: seq<string>, k: nat)
    requires ls != [] && k < |ls|
    ensures PartStart(ls, "\n", k) <= |Unlines(ls)|
    ensures k == 0 || (PartStart(ls, "\n", k) >= 1 && Unlines(ls)[PartStart(ls, "\n", k) - 1] == '\n')
  {
    if k > 0 {
      PartStartShift(ls, "\n", k);
      LineStartsAfterBreak(ls[1..], k - 1);
      var head := ls[0] + "\n";
      assert Unlines(ls) == head + Unlines(ls[1..]);
      assert head[|head| - 1] == '\n';
    }
  }

  lemma CountStep(s: string, sub: string, from: nat)
    requires sub != "" && from <= |s|
    ensures var i := IndexFrom(s, sub, from);
            CountFrom(s, sub, from) == if i < 0 then 0 else 1 + CountFrom(s, sub, i + |sub|)
  {
    hide IndexFrom;
  }

  lemma CountsNone(s: string, sub: string, from: nat)
    requires sub != "" && from <= |s| && CountFrom(s, sub, from) == 0
    ensures forall j: nat | from <= j :: !OccursAt(s, sub, j)
  {
    hide IndexFrom;
  }

  lemma CountsOne(s: string, sub: string)
    requires sub != "" && Count(s, sub) == 1
    ensures Index(s, sub) >= 0
    ensures forall j: nat | Index(s, sub) + |sub| <= j :: !OccursAt(s, sub, j)
  {
    hide IndexFrom;
    CountStep(s, sub, 0);
    CountsNone(s, sub, Index(s, sub) + |sub|);
  }

  lemma OccursShift(doc: string, at: nat, line: string, oldText: string, i: nat)
    requires at + |line| <= |doc| && doc[at..at + |line|] == line && i + |oldText| <= |line|
    ensures OccursAt(doc, oldText, at + i) <==> OccursAt(line, oldText, i)
  {
    SliceOfSlice(doc, at, line, i, i + |oldText|);
  }

  lemma SliceOfSlice(doc: string, at: nat, line: string, i: nat, j: nat)
    requires at + |line| <= |doc| && doc[at..at + |line|] == line && i <= j <= |line|
    ensures doc[at + i..at + j] == line[i..j]
  {
    forall x | i <= x < j ensures doc[at + x] == line[x] {
      assert doc[at..at + |line|][x] == doc[at + x];
    }
  }

  /** The one occurrence of an accepted edit's text is the first of the named line. */
  lemma OnlyPlace(content: string, m: Mutation)
    requires m.line >= 1 && ValidateContent(content, m).Valid? && m.oldText != ""
    ensures var lines := Lines(content);
            m.line <= |lines| && Index(lines[m.line - 1], m.oldText) >= 0 &&
            Index(content, m.oldText) == PartStart(lines, "\n", m.line - 1) + Index(lines[m.line - 1], m.oldText)
  {
    hide Lines, Unlines, IndexFrom, CountFrom, PartStart;
    var lines, k := Lines(content), m.line - 1;
    var line, at := lines[k], PartStart(lines, "\n", k);
    UnlinesLines(content);
    JoinAt(lines, k);
    LineStartsAfterBreak(lines, k);
    FirstPart(lines, k);
    var i := Index(line, m.oldText);
    OccursShift(content, at, line, m.oldText, i);
    CountsOne(content, m.oldText);
    var j := Index(content, m.oldText);
    assert j <= at + i;
    assert OneLine(m.oldText) by {
      assert OneLine(line);
      forall c | 0 <= c < |m.oldText| ensures m.oldText[c] != '\n' {
        assert line[i..i + |m.oldText|][c] == line[i + c];
      }
    }
    InsideLine(content, at, m.oldText, j);
    OccursShift(content, at, line, m.oldText, j - at);
  }

  lemma JoinAt(ls: seq<string>, k: nat)
    requires ls != [] && k < |ls|
    ensures var at := PartStart(ls, "\n", k); at + |ls[k]| <= |Unlines(ls)| && Unlines(ls)[at..at + |ls[k]|] == ls[k]
  {
    hide PartStart;
    JoinUpdate(ls, "\n", k, ls[k]);
  }

  lemma FirstPart(ls: seq<string>, k: nat)
    requires k < |ls|
    ensures k == 0 ==> PartStart(ls, "\n", k) == 0
  {}

  /** A validated edit of the named line is the replacement of the first occurrence in the whole file. */
  lemma OneWholeFileEdit(content: string, m: Mutation)
    requires m.line >= 1 && ValidateContent(content, m).Valid?
    ensures m.line <= |Lines(content)|
    ensures Unlines(EditedLines(Lines(content), m)) == ReplaceFirst(content, m.oldText, m.newText)
  {
    hide Lines, Unlines, IndexFrom, CountFrom, PartStart;
    var lines, k := Lines(content), m.line - 1;
    if m.oldText == "" {
      EmptyEdit(content, m);
    } else {
      OnlyPlace(content, m);
      var i, at, n := Index(lines[k], m.oldText), PartStart(lines, "\n", k), |lines[k]|;
      UnlinesLines(content);
      ReplaceLine(content, lines, k, EditedLines(lines, m)[k], at, at + n);
      SpliceInside(content, at, at + n, lines[k], i, i + |m.oldText|, m.newText);
    }
  }

  lemma ReplaceLine(doc: string, lines: seq<string>, k: nat, line: string, at: nat, end: nat)
    requires lines != [] && k < |lines| && doc == Unlines(lines) && at == PartStart(lines, "\n", k) && end == at + |lines[k]|
    ensures at <= end <= |doc| && doc[at..end] == lines[k]
    ensures Unlines(lines[k := line]) == doc[..at] + line + doc[end..]
  {
    hide PartStart;
    JoinUpdate(lines, "\n", k, line);
  }

  lemma SpliceInside(doc: string, at: nat, end: nat, line: string, i: nat, j: nat, x: string)
    requires at <= end <= |doc| && doc[at..end] == line && i <= j <= |line|
    ensures doc[..at] + (line[..i] + x + line[j..]) + doc[end..] == doc[..at + i] + x + doc[at + j..]
  {
    assert doc[..at + i] == doc[..at] + doc[at..end][..i];
    assert doc[at + j..] == doc[at..end][j..] + doc[end..];
  }

  /** The empty text occurs once only in an empty file. */
  lemma EmptyEdit(content: string, m: Mutation)
    requires m.line >= 1 && ValidateContent(content, m).Valid? && m.oldText == ""
    ensures m.line <= |Lines(content)|
    ensures Unlines(EditedLines(Lines(content), m)) == ReplaceFirst(content, m.oldText, m.newText)
  {
    assert content == "" && Lines(content) == [""];
  }

  // ---------------------------------------------------------------- the replay

  /** What a runner's error says, as far as a caller can tell errors apart. */
  datatype Err = NoErr | Refusal(reason: string) | Deadline | Exit(code: int) | OtherErr

  datatype Ran = Ran(output: string, err: Err)

  datatype ReplayResult = ReplayResult(mutated: Ran, restored: Ran)

  const NOT_REPLAYED := ReplayResult(Ran("", Refusal("mutation-not-replayed")), Ran("", NoErr))

  /** A command run in a tree: what it printed, and the tree it left. */
  type Runner = (Tree, string) -> (Tree, Ran)

  datatype Applied = Applied(original: string) | NotApplied

  function ApplyTo(files: Tree, m: Mutation): (Tree, Applied) {
    var p := Clean(m.path);
    if Climbs(p) || p !in files || !files[p].File? then (files, NotApplied)
    else
      var lines := Lines(files[p].content);
      if m.line < 1 || m.line > |lines| || !Contains(lines[m.line - 1], m.oldText) then (files, NotApplied)
      else (files[p := File(Unlines(EditedLines(lines, m)))], Applied(files[p].content))
  }

  /** A file cannot be written over a directory. */
  function WriteTo(files: Tree, p: Path, content: string): Tree {
    if p in files && files[p].Dir? then files else files[p := File(content)]
  }

  predicate Restored(files: Tree, p: Path, want: string, hash: string -> string) {
    p in files && files[p].File? && hash(files[p].content) == want
  }

  /** The staged copy of the tree, edited in place. `store` is what the disk keeps of what is written to it. */
  class Staged {
    var files: Tree

    constructor (tree: Tree)
      ensures files == tree
    {
      files := tree;
    }

    /** `applyMutation`. */
    method ApplyMutation(m: Mutation) returns (r: Applied)
      modifies this
      ensures (files, r) == ApplyTo(old(files), m)
    {
      var p := Clean(m.path);
      if Climbs(p) || p !in files || !files[p].File? {
        return NotApplied;
      }
      var original := files[p].content;
      var lines := Lines(original);
      if m.line < 1 || m.line > |lines| || !Contains(lines[m.line - 1], m.oldText) {
        return NotApplied;
      }
      lines := lines[m.line - 1 := ReplaceFirst(lines[m.line - 1], m.oldText, m.newText)];
      files := files[p := File(Unlines(lines))];
      return Applied(original);
    }

    /** `restoreFile`: the original bytes written back, read again and compared by their digest. */
    method RestoreFile(p: Path, original: string, want: string, store: string -> string, hash: string -> string)
      returns (ok: bool)
      modifies this
      ensures files == WriteTo(old(files), p, store(original)) && ok == Restored(files, p, want, hash)
    {
      if p in files && files[p].Dir? {
        return false;
      }
      files := files[p := File(store(original))];
      return hash(files[p].content) == want;
    }
  }

  function ReplayOf(tree: Tree, m: Mutation, command: string, run: Runner, store: string -> string, hash: string -> string): ReplayResult {
    var (edited, applied) := ApplyTo(tree, m);
    if applied.NotApplied? then NOT_REPLAYED
    else
      var (left, mutated) := run(edited, command);
      var back := WriteTo(left, Clean(m.path), store(applied.original));
      if !Restored(back, Clean(m.path), hash(applied.original), hash) then NOT_REPLAYED
      else ReplayResult(mutated, run(back, command).1)
  }

  /** `replayWith`: edit, run, put the file back, run again. */
  method ReplayWith(tree: Tree, m: Mutation, command: string, run: Runner, store: string -> string, hash: string -> string)
    returns (r: ReplayResult)
    ensures r == ReplayOf(tree, m, command, run, store, hash)
  {
    var staged := new Staged(tree);
    var applied := staged.ApplyMutation(m);
    if applied.NotApplied? {
      return NOT_REPLAYED;
    }
    var want := hash(applied.original);
    var (left, mutated) := run(staged.files, command);
    staged.files := left;
    var ok := staged.RestoreFile(Clean(m.path), applied.original, want, store, hash);
    if !ok {
      return NOT_REPLAYED;
    }
    var (_, restored) := run(staged.files, command);
    return ReplayResult(mutated, restored);
  }

  ghost predicate Injective(hash: string -> string) {
    forall a, b :: hash(a) == hash(b) ==> a == b
  }

  /** A replay that is not refused ran the command twice: once in the tree with exactly the first occurrence of the
      edit's text replaced and nothing else, and once in what that run left with the edited file back to its
      original content, byte for byte, whatever the disk did to the write. */
  lemma ReplayIsControlled(tree: Tree, m: Mutation, command: string, run: Runner, store: string -> string, hash: string -> string)
    requires m.line >= 1 && ValidateMutation(tree, m).Valid? && Injective(hash)
    ensures var p, content := Clean(m.path), ValidateMutation(tree, m).content;
            tree[p] == File(content) && ".." !in p &&
            var (left, mutated) := run(tree[p := File(ReplaceFirst(content, m.oldText, m.newText))], command);
            var r := ReplayOf(tree, m, command, run, store, hash);
            r == ReplayResult(Ran("", Refusal("mutation-not-replayed")), Ran("", NoErr)) ||
            r == ReplayResult(mutated, run(left[p := File(content)], command).1)
  {
    hide Lines, Unlines, IndexFrom, CountFrom, CleanFrom, ReplaceFirst;
    var p, content := Clean(m.path), ValidateMutation(tree, m).content;
    StaysInside(m.path);
    OneWholeFileEdit(content, m);
  }

  /** A disk that keeps what is written, and a run that leaves the tree's other files as they were: the second run
      is in the very tree the row was validated in. */
  lemma ReplayUndoes(tree: Tree, m: Mutation, command: string, run: Runner, store: string -> string, hash: string -> string)
    requires m.line >= 1 && ValidateMutation(tree, m).Valid? && (forall s :: store(s) == s)
    requires forall t: Tree :: LeavesOthers(t, run(t, command).0, Clean(m.path))
    ensures var p, content := Clean(m.path), ValidateMutation(tree, m).content;
            ReplayOf(tree, m, command, run, store, hash) ==
            ReplayResult(run(tree[p := File(ReplaceFirst(content, m.oldText, m.newText))], command).1, run(tree, command).1)
  {
    hide Lines, Unlines, IndexFrom, CountFrom, CleanFrom, ReplaceFirst;
    var p, content := Clean(m.path), ValidateMutation(tree, m).content;
    var (edited, applied) := ApplyTo(tree, m);
    assert applied == Applied(content);
    OneWholeFileEdit(content, m);
    var (left, mutated) := run(edited, command);
    assert LeavesOthers(edited, left, p);
    assert WriteTo(left, p, store(content)) == tree;
  }

  /** A run may change the edited file, but not into a directory, and no other one. */
  ghost predicate LeavesOthers(t: Tree, t': Tree, p: Path) {
    && t'.Keys == t.Keys && (p in t && t[p].File? ==> t'[p].File?)
    && forall q | q in t && q != p :: t'[q] == t[q]
  }
}
