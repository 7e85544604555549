/** Rendering a Findings row (internal/plan/addfinding.go: cellValue, Finding.row). A pipe is escaped and a
    backslash is not, so a value can still shift its row; the cell count tells exactly when. */
module Render {
  import opened Text
  import opened Cells
  import opened Rows

  /** `strings.ReplaceAll(v, "|", "\|")`. */
  function Escape(v: string): string {
    if v == "" then "" else (if v[0] == '|' then "\\|" else v[..1]) + Escape(v[1..])
  }

  function CellValue(v: string): string {
    Escape(Trim(v))
  }

  function Pad(v: string): string {
    " " + CellValue(v) + " "
  }

  function CellValues(values: seq<string>): (cs: seq<string>)
    ensures |cs| == |values| && forall i | 0 <= i < |values| :: cs[i] == CellValue(values[i])
  {
    seq(|values|, i requires 0 <= i < |values| => CellValue(values[i]))
  }

  function Pads(values: seq<string>): (cs: seq<string>)
    ensures |cs| == |values| && forall i | 0 <= i < |values| :: cs[i] == Pad(values[i])
  {
    seq(|values|, i requires 0 <= i < |values| => Pad(values[i]))
  }

  function TrimAll(values: seq<string>): (cs: seq<string>)
    ensures |cs| == |values| && forall i | 0 <= i < |values| :: cs[i] == Trim(values[i])
  {
    seq(|values|, i requires 0 <= i < |values| => Trim(values[i]))
  }

  function RenderRow(values: seq<string>): string
    requires values != []
  {
    "| " + Join(CellValues(values), " | ") + " |"
  }

  // ---------------------------------------------------------------- what shifts a row

  /** How many backslashes stand directly before position `i`. */
  function Backslashes(v: string, i: nat): nat
    requires i <= |v|
  {
    if i > 0 && v[i - 1] == '\\' then 1 + Backslashes(v, i - 1) else 0
  }

  /** A pipe behind an odd run of backslashes: its own escape is spent on the last of them. */
  predicate ShiftedAt(v: string, i: nat) {
    i < |v| && v[i] == '|' && Backslashes(v, i) % 2 == 1
  }

  predicate Shifting(v: string) {
    exists i | 0 <= i < |v| :: ShiftedAt(v, i)
  }

  /** The number of cells too many that v[i..] makes once rendered. */
  function Shifts(v: string, i: nat): nat
    requires i <= |v|
    decreases |v| - i
  {
    if i == |v| then 0 else (if ShiftedAt(v, i) then 1 else 0) + Shifts(v, i + 1)
  }

  lemma {:induction false} ShiftsIff(v: string, i: nat)
    requires i <= |v|
    ensures Shifts(v, i) > 0 <==> exists j | i <= j < |v| :: ShiftedAt(v, j)
    decreases |v| - i
  {
    if i < |v| {
      ShiftsIff(v, i + 1);
    }
  }

  /** The text a reader has told, with a pending backslash standing for itself. */
  function Told(r: Reader): string {
    if r.escaped then r.text + "\\" else r.text
  }

  /** An escaped pipe of the rendering, read from either state. */
  lemma PipeStep(k: Cutter, r: Reader, rest: string)
    requires k.escaped == r.escaped
    ensures var k1, r1 := Feed(Feed(k, '\\'), '|'), FeedRead(FeedRead(r, '\\'), '|');
            Run(k, "\\|" + rest) == Run(k1, rest) && RunRead(r, "\\|" + rest) == RunRead(r1, rest) &&
            !k1.escaped && !r1.escaped &&
            (k.escaped ==> |k1.done| == |k.done| + 1) &&
            (!k.escaped ==> k1.done == k.done && k1.cur == k.cur + "\\|" && r1.text == r.text + "|")
  {
    var s := "\\|" + rest;
    assert s[0] == '\\' && s[1..][0] == '|' && s[1..][1..] == rest;
    assert k.cur + ['\\'] + ['|'] == k.cur + "\\|";
  }

  /** Both passes are at v[i..], in the state the run of backslashes before it leaves. */
  ghost predicate At(v: string, i: nat, k: Cutter, r: Reader) {
    i <= |v| && k.escaped == r.escaped == (Backslashes(v, i) % 2 == 1)
  }

  lemma EscapeStep(v: string, i: nat, k: Cutter, r: Reader) returns (k1: Cutter, r1: Reader)
    requires At(v, i, k, r) && i < |v|
    ensures At(v, i + 1, k1, r1)
    ensures Run(k, Escape(v[i..])) == Run(k1, Escape(v[i + 1..]))
    ensures RunRead(r, Escape(v[i..])) == RunRead(r1, Escape(v[i + 1..]))
    ensures |k1.done| == |k.done| + if ShiftedAt(v, i) then 1 else 0
    ensures !ShiftedAt(v, i) ==> k1.done == k.done && Told(r1) == Told(r) + [v[i]]
    ensures !ShiftedAt(v, i) ==> k1.cur + Escape(v[i + 1..]) == k.cur + Escape(v[i..])
  {
    var c, rest := v[i], Escape(v[i + 1..]);
    assert v[i..][0] == c && v[i..][1..] == v[i + 1..] && v[i..][..1] == [c];
    if c == '|' {
      k1, r1 := Feed(Feed(k, '\\'), '|'), FeedRead(FeedRead(r, '\\'), '|');
      PipeStep(k, r, rest);
      if !ShiftedAt(v, i) {
        assert (k.cur + "\\|") + rest == k.cur + ("\\|" + rest);
      }
    } else {
      k1, r1 := Feed(k, c), FeedRead(r, c);
      assert Escape(v[i..]) == [c] + rest && ([c] + rest)[1..] == rest;
      assert (k.cur + [c]) + rest == k.cur + ([c] + rest);
    }
  }

  /** Reading the rendering of v[i..]: the cutter cuts once per shift. */
  lemma {:induction false} RunEscape(v: string, i: nat, k: Cutter, r: Reader)
    requires At(v, i, k, r)
    ensures Run(k, Escape(v[i..])).escaped == RunRead(r, Escape(v[i..])).escaped
    ensures |Run(k, Escape(v[i..])).done| == |k.done| + Shifts(v, i)
    decreases |v| - i
  {
    if i < |v| {
      var k1, r1 := EscapeStep(v, i, k, r);
      RunEscape(v, i + 1, k1, r1);
    }
  }

  /** When nothing shifts, the reader gives back the very text that was rendered. */
  lemma {:induction false} RunUnshifted(v: string, i: nat, k: Cutter, r: Reader)
    requires At(v, i, k, r) && Shifts(v, i) == 0
    ensures Run(k, Escape(v[i..])).done == k.done
    ensures Run(k, Escape(v[i..])).cur == k.cur + Escape(v[i..])
    ensures Told(RunRead(r, Escape(v[i..]))) == Told(r) + v[i..]
    decreases |v| - i
  {
    if i == |v| {
      assert Escape(v[i..]) == "";
    } else {
      var k1, r1 := EscapeStep(v, i, k, r);
      RunUnshifted(v, i + 1, k1, r1);
      assert Told(r) + [v[i]] + v[i + 1..] == Told(r) + v[i..];
    }
  }

  /** One padded cell: it cuts into one cell more than it shifts, and unshifted it reads as its value. */
  lemma PadReads(v: string)
    ensures !Dangling(Pad(v)) && |Cut(Pad(v))| == 1 + Shifts(Trim(v), 0)
    ensures !Shifting(Trim(v)) <==> |Cut(Pad(v))| == 1
    ensures !Shifting(Trim(v)) ==> Closed(Pad(v)) && Read(Pad(v)) == Trim(v)
  {
    hide IsSpace, Spaces, Trim, ShiftedAt, Run, RunRead, Escape;
    var t := Trim(v);
    var e := Escape(t);
    var k0, r0 := Feed(START, ' '), FeedRead(Reader("", false), ' ');
    assert t[0..] == t;
    RunEscape(t, 0, k0, r0);
    ShiftsIff(t, 0);
    var k1, r1 := Run(k0, e), RunRead(r0, e);
    PadRuns(e, k1, r1);
    if Shifts(t, 0) == 0 {
      RunUnshifted(t, 0, k0, r0);
      assert "" + [' '] == " ";
      assert Told(FeedRead(r1, ' ')) == " " + t + " ";
      SpaceTrims(v);
    }
  }

  lemma SpaceTrims(v: string)
    ensures Trim(" " + Trim(v) + " ") == Trim(v)
  {
    hide Trim, IsSpace;
    Blank(' ');
    TrimPadded(" ", Trim(v), " ");
    TrimTwice(v);
  }

  lemma PadRuns(e: string, k1: Cutter, r1: Reader)
    requires k1 == Run(Feed(START, ' '), e) && r1 == RunRead(FeedRead(Reader("", false), ' '), e)
    ensures Run(START, " " + e + " ") == Feed(k1, ' ') && RunRead(Reader("", false), " " + e + " ") == FeedRead(r1, ' ')
  {
    var s := " " + e;
    assert s[0] == ' ' && s[1..] == e;
    RunSnoc(START, s, ' ');
    RunReadSnoc(Reader("", false), s, ' ');
  }

  // ---------------------------------------------------------------- the whole row

  lemma {:induction false} JoinPads(values: seq<string>)
    requires values != []
    ensures " " + Join(CellValues(values), " | ") + " " == Join(Pads(values), "|")
  {
    if |values| == 1 {
      assert Pads(values) == [Pad(values[0])];
    } else {
      JoinPads(values[1..]);
      assert CellValues(values)[1..] == CellValues(values[1..]);
      assert Pads(values)[1..] == Pads(values[1..]);
      PadJoin(CellValue(values[0]), Join(CellValues(values[1..]), " | "));
    }
  }

  lemma PadJoin(a: string, rest: string)
    ensures " " + (a + " | " + rest) + " " == (" " + a + " ") + "|" + (" " + rest + " ")
  {}

  /** The cells the values shift into one another, all together. */
  function TotalShifts(values: seq<string>): nat {
    if values == [] then 0 else Shifts(Trim(values[0]), 0) + TotalShifts(values[1..])
  }

  lemma {:induction false} NoTotalShift(values: seq<string>)
    ensures TotalShifts(values) == 0 <==> forall i | 0 <= i < |values| :: !Shifting(Trim(values[i]))
  {
    if values != [] {
      NoTotalShift(values[1..]);
      ShiftsIff(Trim(values[0]), 0);
      assert forall i | 1 <= i < |values| :: values[i] == values[1..][i - 1];
    }
  }

  lemma {:induction false} CutPads(values: seq<string>)
    requires values != []
    ensures |Cut(Join(Pads(values), "|"))| == |values| + TotalShifts(values)
  {
    PadReads(values[0]);
    if |values| == 1 {
      assert Pads(values) == [Pad(values[0])];
      assert TotalShifts(values[1..]) == 0;
    } else {
      CutPads(values[1..]);
      assert Pads(values)[1..] == Pads(values[1..]);
      CutConcat(Pad(values[0]), Join(Pads(values[1..]), "|"));
    }
  }

  lemma RenderedRow(values: seq<string>)
    requires values != []
    ensures IsRow(RenderRow(values)) && RawCells(RenderRow(values)) == Cut(Join(Pads(values), "|"))
    ensures Trim(RenderRow(values)) == RenderRow(values)
  {
    var mid := Join(CellValues(values), " | ");
    var inner := " " + mid + " ";
    JoinPads(values);
    var line := RenderRow(values);
    Unpad("|", " ", mid);
    assert "| " == "|" + " " && " |" == " " + "|";
    Reframe(line, "", inner, "|", "");
  }

  lemma Unpad(o: string, sp: string, mid: string)
    ensures (o + sp) + mid + (sp + o) == "" + (o + (sp + mid + sp) + o) + ""
    ensures (o + sp) + mid + (sp + o) == o + (sp + mid + sp) + o
  {}

  /** The cell count is an exact test: a rendered row has as many cells as values if and only if no value holds
      a pipe behind an odd run of backslashes, and if and only if every cell reads back as its trimmed value. */
  lemma RowExact(values: seq<string>)
    requires values != []
    ensures var cells := CellsOf(RenderRow(values));
            |cells| >= |values| &&
            (|cells| == |values| <==> forall i | 0 <= i < |values| :: !Shifting(Trim(values[i]))) &&
            (|cells| == |values| <==> cells == TrimAll(values))
  {
    RenderedRow(values);
    CutPads(values);
    NoTotalShift(values);
    if TotalShifts(values) == 0 {
      var pads := Pads(values);
      assert Proper(pads) by {
        forall i | 0 <= i < |pads| ensures Closed(pads[i]) && !Dangling(pads[i]) {
          PadReads(values[i]);
        }
      }
      CutJoin(pads);
      assert ReadAll(pads) == TrimAll(values) by {
        forall i | 0 <= i < |pads| ensures Read(pads[i]) == Trim(values[i]) {
          PadReads(values[i]);
        }
      }
    }
  }
}
