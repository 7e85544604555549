/** The region walk every reader of a plan shares (internal/plan/plan.go: scanTable, walk, tableUnderSubheading,
    interruptedTable). A line matters only by its kind, and the walk is a fold over the kinds; the source's
    walk, which looks ahead under a subheading, is proved equal to that fold. */
module Scan {
  import opened Text
  import opened Cells

  // ---------------------------------------------------------------- lines

  function FenceMarker(t: string): string {
    if HasPrefix(t, "```") then "```" else if HasPrefix(t, "~~~") then "~~~" else ""
  }

  datatype Kind =
    | Blank
    | Fence(marker: string)
    | Pipe(cells: seq<string>)
    | Sub(raw: string)
    | Prose(raw: string)

  function KindOf(line: string): Kind {
    var t := Trim(line);
    if FenceMarker(t) != "" then Fence(FenceMarker(t))
    else if t == "" then Blank
    else if HasPrefix(t, "|") then Pipe(CellsOf(line))
    else if HasPrefix(t, "###") then Sub(line)
    else Prose(line)
  }

  function Kinds(lines: seq<string>): (ks: seq<Kind>)
    ensures |ks| == |lines| && forall i | 0 <= i < |lines| :: ks[i] == KindOf(lines[i])
  {
    seq(|lines|, i requires 0 <= i < |lines| => KindOf(lines[i]))
  }

  /** `isSeparator`: every cell is empty or made of dashes, colons and spaces. */
  predicate IsSeparator(cells: seq<string>) {
    forall i | 0 <= i < |cells| :: forall j | 0 <= j < |cells[i]| :: cells[i][j] in "-: "
  }

  /** The placeholder vocabulary, whatever its case. */
  predicate Placeholder(c: string) {
    Fold(c) in {"", "-", "—", "na", "n/a", "none", "(none)", "tbd"}
  }

  predicate IsData(cells: seq<string>) {
    !IsSeparator(cells) && !Placeholder(Cell(cells, 0))
  }

  // ---------------------------------------------------------------- what a walk finds

  datatype Row = Row(line: nat, cells: seq<string>)

  /** `header` is empty when the region has no table; every line number is 1-based and 0 means none. */
  datatype TableScan = TableScan(
    header: seq<string>, head: nat, rows: seq<Row>,
    ended: nat, endedText: string, resumed: nat, fenceLine: nat)

  const NO_TABLE := TableScan([], 0, [], 0, "", 0, 0)

  /** `interruptedTable` reports something. */
  predicate Interrupted(s: TableScan) {
    s.resumed != 0 || s.fenceLine != 0
  }

  // ---------------------------------------------------------------- the fold

  /** `Seek` and `Have` are the lookahead under a subheading: no pipe row yet, and a pipe row whose next line
      decides; `Stop` is the walk after the lookahead answered. */
  datatype Phase =
    | Before
    | Inside
    | After
    | Seek(line: nat, text: string)
    | Have(line: nat, text: string, row: nat)
    | Stop

  datatype Walker = Walker(phase: Phase, fence: string, fenceLine: nat, s: TableScan)

  const INIT := Walker(Before, "", 0, NO_TABLE)

  function ReadRow(w: Walker, cells: seq<string>, at: nat): Walker {
    if IsSeparator(cells) then w.(s := w.s.(head := at + 1))
    else if !Placeholder(Cell(cells, 0)) then w.(s := w.s.(rows := w.s.rows + [Row(at + 1, cells)]))
    else w
  }

  function CutTable(s: TableScan, line: nat, text: string, row: nat): TableScan {
    s.(ended := line, endedText := text, resumed := row)
  }

  function FeedLine(w: Walker, k: Kind, at: nat): Walker {
    if w.phase.Stop? then w
    else if w.fence != "" then (if k == Fence(w.fence) then w.(fence := "", fenceLine := 0) else w)
    else if k.Fence? then w.(fence := k.marker, fenceLine := at + 1)
    else match w.phase
      case Before => if k.Pipe? then w.(phase := Inside, s := w.s.(header := k.cells, head := at + 1)) else w
      case Inside => (
        match k
        case Pipe(cells) => ReadRow(w, cells, at)
        case Sub(raw) => w.(phase := Seek(at + 1, raw))
        case Prose(raw) => w.(phase := After, s := w.s.(ended := at + 1, endedText := raw))
        case _ => w)
      case After => if k.Pipe? && w.s.resumed == 0 then w.(s := w.s.(resumed := at + 1)) else w
      case Seek(line, text) => if k.Pipe? then w.(phase := Have(line, text, at + 1)) else w
      case Have(line, text, row) =>
        if k.Pipe? && IsSeparator(k.cells) then w.(phase := Stop)
        else w.(phase := Stop, s := CutTable(w.s, line, text, row))
  }

  function FeedAll(w: Walker, ks: seq<Kind>, at: nat): Walker
    decreases |ks|
  {
    if ks == [] then w else FeedAll(FeedLine(w, ks[0], at), ks[1..], at + 1)
  }

  function Finish(w: Walker): TableScan {
    match w.phase
    case Have(line, text, row) => CutTable(w.s, line, text, row)
    case Before => w.s.(fenceLine := w.fenceLine)
    case Inside => w.s.(fenceLine := w.fenceLine)
    case After => w.s.(fenceLine := w.fenceLine)
    case _ => w.s
  }

  function ScanKinds(ks: seq<Kind>, at: nat): TableScan {
    Finish(FeedAll(INIT, ks, at))
  }

  /** The table of lines[start..end], as every reader reads it. */
  function ScanLines(lines: seq<string>, start: nat, end: nat): TableScan
    requires start <= end <= |lines|
  {
    ScanKinds(Kinds(lines[start..end]), start)
  }

  // ---------------------------------------------------------------- the source's walk

  datatype State = BeforeHeader | InsideTable | AfterEnd

  function PhaseOf(state: State): Phase {
    match state
    case BeforeHeader => Before
    case InsideTable => Inside
    case AfterEnd => After
  }

  /** What a walk in state `w` at line `i` will have found at `end`. */
  ghost function Found(w: Walker, lines: seq<string>, i: nat, end: nat): TableScan
    requires i <= end <= |lines|
  {
    Finish(FeedAll(w, Kinds(lines[i..end]), i))
  }

  lemma FoundNext(w: Walker, lines: seq<string>, i: nat, end: nat)
    requires i < end <= |lines|
    ensures Found(w, lines, i, end) == Found(FeedLine(w, KindOf(lines[i]), i), lines, i + 1, end)
  {
    assert lines[i..end][1..] == lines[i + 1..end];
    assert Kinds(lines[i..end])[1..] == Kinds(lines[i + 1..end]);
  }

  lemma {:induction false} FeedStopped(w: Walker, ks: seq<Kind>, at: nat)
    requires w.phase.Stop?
    ensures FeedAll(w, ks, at) == w
    decreases |ks|
  {
    if ks != [] {
      FeedStopped(w, ks[1..], at + 1);
    }
  }

  lemma FoundStopped(w: Walker, lines: seq<string>, i: nat, end: nat)
    requires i <= end <= |lines| && w.phase.Stop?
    ensures Found(w, lines, i, end) == w.s
  {
    FeedStopped(w, Kinds(lines[i..end]), i);
  }

  lemma FoundEnd(w: Walker, lines: seq<string>, end: nat)
    requires end <= |lines|
    ensures Found(w, lines, end, end) == Finish(w)
  {}

  predicate IsMarker(fence: string) {
    fence == "```" || fence == "~~~"
  }

  lemma FencePrefix(line: string, fence: string)
    requires IsMarker(fence)
    ensures HasPrefix(Trim(line), fence) <==> KindOf(line) == Fence(fence)
  {
    var t := Trim(line);
    if HasPrefix(t, "~~~") {
      assert t[0] == '~';
    }
  }

  lemma CellsOfTrim(line: string)
    ensures CellsOf(Trim(line)) == CellsOf(line)
  {
    TrimTwice(line);
  }

  class Walk {
    var state: State
    var fence: string
    var fenceLine: nat
    var s: TableScan

    constructor ()
      ensures View() == INIT
    {
      state := BeforeHeader;
      fence := "";
      fenceLine := 0;
      s := NO_TABLE;
    }

    function View(): Walker
      reads this
    {
      Walker(PhaseOf(state), fence, fenceLine, s)
    }

    /** A line under a fence is documentation; a closing marker ends the fence. */
    method SkipWhileFenced(t: string) returns (skipped: bool)
      modifies this
      ensures skipped == (old(fence) != "")
      ensures View() == if skipped && HasPrefix(t, old(fence)) then old(View()).(fence := "", fenceLine := 0) else old(View())
    {
      if fence == "" {
        return false;
      }
      if HasPrefix(t, fence) {
        fence, fenceLine := "", 0;
      }
      return true;
    }

    method OpenFence(t: string, i: nat) returns (isOpen: bool)
      modifies this
      ensures isOpen == (FenceMarker(t) != "")
      ensures View() == if isOpen then old(View()).(fence := FenceMarker(t), fenceLine := i + 1) else old(View())
    {
      var marker := FenceMarker(t);
      if marker == "" {
        return false;
      }
      fence, fenceLine := marker, i + 1;
      return true;
    }

    /** A subheading stops the walk; the lookahead says whether it cut the table. */
    method CutBySubheading(lines: seq<string>, i: nat, end: nat) returns (cut: bool)
      requires i < end <= |lines| && fence == "" && fenceLine == 0 && s.fenceLine == 0
      modifies this
      ensures cut == (old(state) == InsideTable && HasPrefix(Trim(lines[i]), "###"))
      ensures !cut ==> View() == old(View())
      ensures cut ==> fence == "" && s == Found(old(View()), lines, i, end)
    {
      if state != InsideTable || !HasPrefix(Trim(lines[i]), "###") {
        return false;
      }
      ghost var w := View().(phase := Seek(i + 1, lines[i]));
      FoundNext(View(), lines, i, end);
      assert KindOf(lines[i]) == Sub(lines[i]) by {
        assert Trim(lines[i])[0] == '#';
      }
      var resumed, opens := TableUnderSubheading(lines, i + 1, end, w);
      if resumed != 0 && !opens {
        s := s.(ended := i + 1, endedText := lines[i], resumed := resumed);
      }
      return true;
    }

    method Step(raw: string, t: string, i: nat)
      requires t == Trim(raw) && FenceMarker(t) == "" && fence == ""
      requires !(state == InsideTable && HasPrefix(t, "###"))
      modifies this
      ensures View() == FeedLine(old(View()), KindOf(raw), i)
    {
      if t == "" {
        return;
      }
      if HasPrefix(t, "|") {
        CellsOfTrim(raw);
        ReadOneRow(t, i);
        return;
      }
      if state == InsideTable {
        s := s.(ended := i + 1, endedText := raw);
        state := AfterEnd;
      }
    }

    method ReadOneRow(t: string, i: nat)
      requires fence == ""
      modifies this
      ensures View() == FeedLine(old(View()), Pipe(CellsOf(t)), i)
    {
      match state {
        case BeforeHeader =>
          var cells := Split(t);
          s := s.(header := cells, head := i + 1);
          state := InsideTable;
        case InsideTable =>
          var cells := Split(t);
          if IsSeparator(cells) {
            s := s.(head := i + 1);
          } else if !Placeholder(Cell(cells, 0)) {
            s := s.(rows := s.rows + [Row(i + 1, cells)]);
          }
        case AfterEnd =>
          if s.resumed == 0 {
            s := s.(resumed := i + 1);
          }
      }
    }
  }

  /** The lookahead at one point: no row yet, or the row that waits for its delimiter. */
  ghost predicate Looking(w: Walker, v: Walker, fence: string, row: nat) {
    && w.phase.Seek? && v.fence == fence && v.s == w.s && (fence != "" ==> IsMarker(fence))
    && v.phase == if row == 0 then w.phase else Have(w.phase.line, w.phase.text, row)
  }

  lemma LookFenced(w: Walker, v: Walker, line: string, i: nat, fence: string, row: nat)
    requires Looking(w, v, fence, row) && fence != ""
    ensures Looking(w, FeedLine(v, KindOf(line), i), if HasPrefix(Trim(line), fence) then "" else fence, row)
  {
    FencePrefix(line, fence);
  }

  lemma LookOpen(w: Walker, v: Walker, line: string, i: nat, row: nat)
    requires Looking(w, v, "", row)
    ensures var t, v' := Trim(line), FeedLine(v, KindOf(line), i);
            if FenceMarker(t) != "" then Looking(w, v', FenceMarker(t), row)
            else if row == 0 then Looking(w, v', "", if HasPrefix(t, "|") then i + 1 else 0)
            else v'.phase == Stop &&
                 v'.s == if HasPrefix(t, "|") && IsSeparator(CellsOf(line)) then w.s
                         else CutTable(w.s, w.phase.line, w.phase.text, row)
  {
    hide Trim, CellsOf, IsSeparator, Placeholder;
  }

  /** `tableUnderSubheading`: the first pipe row of what follows, and whether a delimiter row is adjacent to it.
      Its answer is what the fold finds from the `Seek` phase. */
  method TableUnderSubheading(lines: seq<string>, start: nat, end: nat, ghost w: Walker) returns (resumed: nat, opens: bool)
    requires start <= end <= |lines| && w.phase.Seek? && w.fence == ""
    ensures Found(w, lines, start, end) ==
            if resumed != 0 && !opens then CutTable(w.s, w.phase.line, w.phase.text, resumed) else w.s
  {
    hide FeedAll, FeedLine, KindOf;
    var fence, row := "", 0;
    ghost var v, goal := w, Found(w, lines, start, end);
    for i := start to end
      invariant goal == Found(v, lines, i, end)
      invariant Looking(w, v, fence, row)
    {
      var t := Trim(lines[i]);
      FoundNext(v, lines, i, end);
      if fence != "" {
        LookFenced(w, v, lines[i], i, fence, row);
        v := FeedLine(v, KindOf(lines[i]), i);
        if HasPrefix(t, fence) {
          fence := "";
        }
        continue;
      }
      LookOpen(w, v, lines[i], i, row);
      v := FeedLine(v, KindOf(lines[i]), i);
      var marker := FenceMarker(t);
      if marker != "" {
        fence := marker;
        continue;
      }
      if row == 0 {
        if !HasPrefix(t, "|") {
          continue;
        }
        row := i + 1;
        continue;
      }
      FoundStopped(v, lines, i + 1, end);
      if !HasPrefix(t, "|") {
        return row, false;
      }
      CellsOfTrim(lines[i]);
      var cells := Split(t);
      return row, IsSeparator(cells);
    }
    FoundEnd(v, lines, end);
    return row, false;
  }

  /** A walk that has not looked ahead, and has reported no fence yet. */
  predicate Walking(w: Walker) {
    && (w.phase.Before? || w.phase.Inside? || w.phase.After?)
    && (if w.fence == "" then w.fenceLine == 0 else IsMarker(w.fence)) && w.s.fenceLine == 0
  }

  lemma WalkFenced(w: Walker, line: string, i: nat)
    requires Walking(w) && w.fence != ""
    ensures FeedLine(w, KindOf(line), i) == if HasPrefix(Trim(line), w.fence) then w.(fence := "", fenceLine := 0) else w
  {
    FencePrefix(line, w.fence);
  }

  lemma WalkOpens(w: Walker, line: string, i: nat)
    requires Walking(w) && w.fence == "" && FenceMarker(Trim(line)) != ""
    ensures FeedLine(w, KindOf(line), i) == w.(fence := FenceMarker(Trim(line)), fenceLine := i + 1)
  {}

  lemma WalkSteps(w: Walker, line: string, i: nat)
    requires Walking(w) && w.fence == "" && FenceMarker(Trim(line)) == ""
    requires !(w.phase.Inside? && HasPrefix(Trim(line), "###"))
    ensures Walking(FeedLine(w, KindOf(line), i))
  {
    if HasPrefix(Trim(line), "###") {
      assert Trim(line)[0] == '#';
    }
  }

  /** `scanTable`. */
  method ScanTable(lines: seq<string>, start: nat, end: nat) returns (scan: TableScan)
    requires start <= end <= |lines|
    ensures scan == ScanLines(lines, start, end)
  {
    hide FeedAll, FeedLine, KindOf;
    var w := new Walk();
    ghost var goal := Found(INIT, lines, start, end);
    for i := start to end
      invariant goal == Found(w.View(), lines, i, end)
      invariant Walking(w.View())
    {
      var t := Trim(lines[i]);
      ghost var v := w.View();
      FoundNext(v, lines, i, end);
      if v.fence != "" {
        WalkFenced(v, lines[i], i);
      } else if FenceMarker(t) != "" {
        WalkOpens(v, lines[i], i);
      } else if !(v.phase.Inside? && HasPrefix(t, "###")) {
        WalkSteps(v, lines[i], i);
      }
      var skipped := w.SkipWhileFenced(t);
      if skipped {
        continue;
      }
      var isOpen := w.OpenFence(t, i);
      if isOpen {
        continue;
      }
      var cut := w.CutBySubheading(lines, i, end);
      if cut {
        return w.s;
      }
      w.Step(lines[i], t, i);
    }
    FoundEnd(w.View(), lines, end);
    if w.fence != "" {
      w.s := w.s.(fenceLine := w.fenceLine);
    }
    return w.s;
  }
}
