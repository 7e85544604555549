/** What the region walk means, told by positions instead of states: which line is the header, where the block
    closes, which rows it holds, and when part of it was never read (internal/plan/plan.go:924-1144). */
module ScanMeaning {
  import opened Text
  import opened Cells
  import opened Scan

  // ---------------------------------------------------------------- positions

  /** The fence open before line `i`. */
  function FenceAt(ks: seq<Kind>, i: nat): string
    requires i <= |ks|
  {
    if i == 0 then ""
    else
      var f := FenceAt(ks, i - 1);
      if f != "" then (if ks[i - 1] == Fence(f) then "" else f)
      else if ks[i - 1].Fence? then ks[i - 1].marker
      else ""
  }

  /** The 1-based line the fence open before line `i` was opened at, or 0. */
  function FenceLineAt(ks: seq<Kind>, at: nat, i: nat): nat
    requires i <= |ks|
  {
    if i == 0 then 0
    else
      var f := FenceAt(ks, i - 1);
      if f != "" then (if ks[i - 1] == Fence(f) then 0 else FenceLineAt(ks, at, i - 1))
      else if ks[i - 1].Fence? then at + i
      else FenceLineAt(ks, at, i - 1)
  }

  /** A line outside every code fence, and no fence marker itself. */
  predicate Live(ks: seq<Kind>, i: nat) {
    i < |ks| && FenceAt(ks, i) == "" && !ks[i].Fence?
  }

  predicate LivePipe(ks: seq<Kind>, i: nat) {
    Live(ks, i) && ks[i].Pipe?
  }

  predicate LiveClose(ks: seq<Kind>, i: nat) {
    Live(ks, i) && (ks[i].Sub? || ks[i].Prose?)
  }

  function FirstLive(ks: seq<Kind>, from: nat): (i: nat)
    requires from <= |ks|
    ensures from <= i <= |ks| && (i < |ks| ==> Live(ks, i))
    ensures forall j | from <= j < i :: !Live(ks, j)
    decreases |ks| - from
  {
    if from == |ks| || Live(ks, from) then from else FirstLive(ks, from + 1)
  }

  function FirstPipe(ks: seq<Kind>, from: nat): (i: nat)
    requires from <= |ks|
    ensures from <= i <= |ks| && (i < |ks| ==> LivePipe(ks, i))
    ensures forall j | from <= j < i :: !LivePipe(ks, j)
    decreases |ks| - from
  {
    if from == |ks| || LivePipe(ks, from) then from else FirstPipe(ks, from + 1)
  }

  function FirstClose(ks: seq<Kind>, from: nat): (i: nat)
    requires from <= |ks|
    ensures from <= i <= |ks| && (i < |ks| ==> LiveClose(ks, i))
    ensures forall j | from <= j < i :: !LiveClose(ks, j)
    decreases |ks| - from
  {
    if from == |ks| || LiveClose(ks, from) then from else FirstClose(ks, from + 1)
  }

  /** The data rows among lines from..end, in order. */
  function DataRows(ks: seq<Kind>, at: nat, from: nat, end: nat): seq<Row>
    requires end <= |ks|
    decreases end
  {
    if end <= from then []
    else
      var before := DataRows(ks, at, from, end - 1);
      if LivePipe(ks, end - 1) && IsData(ks[end - 1].cells) then before + [Row(at + end, ks[end - 1].cells)] else before
  }

  /** The 1-based line of the last heading row before `end`: the header at `h`, or a later separator. */
  function HeadBefore(ks: seq<Kind>, at: nat, h: nat, end: nat): nat
    requires end <= |ks|
    decreases end
  {
    if end <= h + 1 then at + h + 1
    else if LivePipe(ks, end - 1) && IsSeparator(ks[end - 1].cells) then at + end
    else HeadBefore(ks, at, h, end - 1)
  }

  function TableBefore(ks: seq<Kind>, at: nat, h: nat, end: nat): TableScan
    requires h < |ks| && ks[h].Pipe? && end <= |ks|
  {
    TableScan(ks[h].cells, HeadBefore(ks, at, h, end), DataRows(ks, at, h + 1, end), 0, "", 0, 0)
  }

  /** The walker before line `i`. */
  function WalkerAt(ks: seq<Kind>, at: nat, i: nat): Walker
    requires i <= |ks|
  {
    var h := FirstPipe(ks, 0);
    if i <= h then Walker(Before, FenceAt(ks, i), FenceLineAt(ks, at, i), NO_TABLE)
    else
      var e := FirstClose(ks, h + 1);
      if i <= e then Walker(Inside, FenceAt(ks, i), FenceLineAt(ks, at, i), TableBefore(ks, at, h, i))
      else ClosedAt(ks, at, i, e, TableBefore(ks, at, h, e))
  }

  /** The walker before line `i`, when line `e` closed the block `t`. */
  function ClosedAt(ks: seq<Kind>, at: nat, i: nat, e: nat, t: TableScan): Walker
    requires e < i <= |ks| && LiveClose(ks, e)
  {
    var f := FirstPipe(ks, e + 1);
    if ks[e].Prose? then
      Walker(After, FenceAt(ks, i), FenceLineAt(ks, at, i), CutTable(t, at + e + 1, ks[e].raw, if f < i then at + f + 1 else 0))
    else if i <= f then Walker(Seek(at + e + 1, ks[e].raw), FenceAt(ks, i), FenceLineAt(ks, at, i), t)
    else
      var g := FirstLive(ks, f + 1);
      if i <= g then Walker(Have(at + e + 1, ks[e].raw, at + f + 1), FenceAt(ks, i), FenceLineAt(ks, at, i), t)
      else Walker(Stop, FenceAt(ks, g), FenceLineAt(ks, at, g), if OpensTable(ks, f) then t else CutTable(t, at + e + 1, ks[e].raw, at + f + 1))
  }

  /** The pipe row at `f` opens a table of its own: the next line outside fences is its delimiter. */
  predicate OpensTable(ks: seq<Kind>, f: nat)
    requires f < |ks|
  {
    var g := FirstLive(ks, f + 1);
    g < |ks| && ks[g].Pipe? && IsSeparator(ks[g].cells)
  }

  /** The scan of a region, by positions. */
  function ScanByPosition(ks: seq<Kind>, at: nat): TableScan {
    Finish(WalkerAt(ks, at, |ks|))
  }

  // ---------------------------------------------------------------- the walk is that

  lemma {:induction false} FeedConcat(w: Walker, a: seq<Kind>, b: seq<Kind>, at: nat)
    ensures FeedAll(w, a + b, at) == FeedAll(FeedAll(w, a, at), b, at + |a|)
    decreases |a|
  {
    hide FeedLine;
    if a == [] {
      assert a + b == b;
    } else {
      assert (a + b)[1..] == a[1..] + b;
      FeedConcat(FeedLine(w, a[0], at), a[1..], b, at + 1);
    }
  }

  lemma FeedSnoc(w: Walker, ks: seq<Kind>, i: nat, at: nat)
    requires i < |ks|
    ensures FeedAll(w, ks[..i + 1], at) == FeedLine(FeedAll(w, ks[..i], at), ks[i], at + i)
  {
    hide FeedLine;
    assert ks[..i + 1] == ks[..i] + [ks[i]];
    FeedConcat(w, ks[..i], [ks[i]], at);
    var v := FeedAll(w, ks[..i], at);
    assert [ks[i]][1..] == [];
    assert FeedAll(v, [ks[i]], at + i) == FeedAll(FeedLine(v, ks[i], at + i), [], at + i + 1);
  }

  lemma StepBefore(ks: seq<Kind>, at: nat, i: nat)
    requires i < |ks| && i < FirstPipe(ks, 0)
    ensures FeedLine(WalkerAt(ks, at, i), ks[i], at + i) == WalkerAt(ks, at, i + 1)
  {
    hide ReadRow, ClosedAt, TableBefore;
    assert !LivePipe(ks, i);
  }

  lemma StepHeader(ks: seq<Kind>, at: nat, h: nat)
    requires h < |ks| && h == FirstPipe(ks, 0)
    ensures FeedLine(WalkerAt(ks, at, h), ks[h], at + h) == WalkerAt(ks, at, h + 1)
  {
    hide ReadRow, ClosedAt;
    assert LivePipe(ks, h);
    var e := FirstClose(ks, h + 1);
    assert h + 1 <= e;
    assert TableBefore(ks, at, h, h + 1) == NO_TABLE.(header := ks[h].cells, head := at + h + 1);
  }

  lemma StepInside(ks: seq<Kind>, at: nat, i: nat)
    requires i < |ks| && FirstPipe(ks, 0) < i <= FirstClose(ks, FirstPipe(ks, 0) + 1)
    ensures FeedLine(WalkerAt(ks, at, i), ks[i], at + i) == WalkerAt(ks, at, i + 1)
  {
    hide IsSeparator, Placeholder, FirstPipe, FirstClose, FeedLine, WalkerAt;
    var h := FirstPipe(ks, 0);
    if i == FirstClose(ks, h + 1) {
      StepCloses(ks, at, h, i);
    } else {
      StepReads(ks, at, h, i);
    }
  }

  lemma StepCloses(ks: seq<Kind>, at: nat, h: nat, e: nat)
    requires h == FirstPipe(ks, 0) < e < |ks| && e == FirstClose(ks, h + 1)
    ensures FeedLine(WalkerAt(ks, at, e), ks[e], at + e) == WalkerAt(ks, at, e + 1)
  {
    hide IsSeparator, Placeholder, HeadBefore, DataRows, ReadRow;
    assert LiveClose(ks, e);
  }

  lemma StepReads(ks: seq<Kind>, at: nat, h: nat, i: nat)
    requires h == FirstPipe(ks, 0) < |ks| && h < i < FirstClose(ks, h + 1)
    ensures FeedLine(WalkerAt(ks, at, i), ks[i], at + i) == WalkerAt(ks, at, i + 1)
  {
    hide IsSeparator, Placeholder, FirstPipe, FirstClose, ClosedAt;
    assert !LiveClose(ks, i);
  }

  lemma StepClosed(ks: seq<Kind>, at: nat, i: nat, e: nat, t: TableScan)
    requires e < i < |ks| && LiveClose(ks, e) && t.resumed == 0
    ensures FeedLine(ClosedAt(ks, at, i, e, t), ks[i], at + i) == ClosedAt(ks, at, i + 1, e, t)
  {
    hide IsSeparator, Placeholder, ReadRow;
    var f := FirstPipe(ks, e + 1);
    if i < f {
      assert !LivePipe(ks, i);
    } else if i == f {
      assert LivePipe(ks, f);
    } else {
      var g := FirstLive(ks, f + 1);
      if i < g {
        assert !Live(ks, i);
      } else if i == g {
        assert Live(ks, g);
      }
    }
  }

  lemma {:induction false} WalkedTo(ks: seq<Kind>, at: nat, i: nat)
    requires i <= |ks|
    ensures FeedAll(INIT, ks[..i], at) == WalkerAt(ks, at, i)
  {
    hide FeedLine, ClosedAt, FirstPipe, FirstClose, DataRows, HeadBefore;
    if i > 0 {
      WalkedTo(ks, at, i - 1);
      FeedSnoc(INIT, ks, i - 1, at);
      var h := FirstPipe(ks, 0);
      if i - 1 < h {
        StepBefore(ks, at, i - 1);
      } else if i - 1 == h {
        StepHeader(ks, at, h);
      } else if i - 1 <= FirstClose(ks, h + 1) {
        StepInside(ks, at, i - 1);
      } else {
        var e := FirstClose(ks, h + 1);
        StepClosed(ks, at, i - 1, e, TableBefore(ks, at, h, e));
      }
    }
  }

  /** The walk and its meaning agree on every region. */
  lemma ScanIsByPosition(ks: seq<Kind>, at: nat)
    ensures ScanKinds(ks, at) == ScanByPosition(ks, at)
  {
    hide FeedAll, WalkerAt;
    WalkedTo(ks, at, |ks|);
    assert ks[..|ks|] == ks;
  }

  // ---------------------------------------------------------------- what is read, and what is lost

  lemma {:induction false} FenceLineIff(ks: seq<Kind>, at: nat, i: nat)
    requires i <= |ks| && forall j | 0 <= j < |ks| :: ks[j].Fence? ==> ks[j].marker != ""
    ensures FenceLineAt(ks, at, i) != 0 <==> FenceAt(ks, i) != ""
  {
    if i > 0 {
      FenceLineIff(ks, at, i - 1);
    }
  }

  /** Some row of the region was never read, and where: the block was closed by prose with a row after it, or by
      a subheading whose first row opens no table of its own, or the region ends inside a fence. */
  predicate PartUnread(ks: seq<Kind>) {
    var h := FirstPipe(ks, 0);
    if h == |ks| then FenceAt(ks, |ks|) != ""
    else
      var e := FirstClose(ks, h + 1);
      if e == |ks| then FenceAt(ks, |ks|) != ""
      else
        var f := FirstPipe(ks, e + 1);
        if ks[e].Prose? then f < |ks| || FenceAt(ks, |ks|) != ""
        else f < |ks| && !OpensTable(ks, f)
  }

  /** `interruptedTable` reports a region exactly when part of it was never read. */
  lemma InterruptedIff(ks: seq<Kind>, at: nat)
    requires forall j | 0 <= j < |ks| :: ks[j].Fence? ==> ks[j].marker != ""
    ensures Interrupted(ScanKinds(ks, at)) <==> PartUnread(ks)
  {
    hide FeedAll, DataRows, HeadBefore;
    ScanIsByPosition(ks, at);
    FenceLineIff(ks, at, |ks|);
  }

  lemma MarkersNamed(lines: seq<string>)
    ensures forall j | 0 <= j < |lines| :: Kinds(lines)[j].Fence? ==> Kinds(lines)[j].marker != ""
  {
    hide CellsOf, Trim;
  }

  lemma {:induction false} DataRowsAre(ks: seq<Kind>, at: nat, from: nat, end: nat, i: nat)
    requires end <= |ks| && from <= i < end && LivePipe(ks, i) && IsData(ks[i].cells)
    ensures Row(at + i + 1, ks[i].cells) in DataRows(ks, at, from, end)
    decreases end
  {
    hide IsData;
    if i < end - 1 {
      DataRowsAre(ks, at, from, end - 1, i);
    }
  }

  /** Row `m` of a block, as the line it sits on, with the rows of the lines before it. */
  lemma {:induction false} DataRowPlace(ks: seq<Kind>, at: nat, from: nat, end: nat, m: nat) returns (i: nat)
    requires end <= |ks| && m < |DataRows(ks, at, from, end)|
    ensures from <= i < end && LivePipe(ks, i) && IsData(ks[i].cells)
    ensures DataRows(ks, at, from, end)[m] == Row(at + i + 1, ks[i].cells)
    ensures DataRows(ks, at, from, i) == DataRows(ks, at, from, end)[..m]
    decreases end
  {
    hide IsData;
    var before := DataRows(ks, at, from, end - 1);
    if m < |before| {
      i := DataRowPlace(ks, at, from, end - 1, m);
      assert DataRows(ks, at, from, end)[..m] == before[..m];
    } else {
      i := end - 1;
      assert DataRows(ks, at, from, end)[..m] == before;
    }
  }

  /** The block of a region that has a table: its header line and the line that closes it. */
  lemma ScanBlock(ks: seq<Kind>, at: nat) returns (h: nat, e: nat)
    ensures h == FirstPipe(ks, 0) <= |ks|
    ensures h == |ks| ==> ScanKinds(ks, at).header == [] && ScanKinds(ks, at).rows == []
    ensures h < |ks| ==> e == FirstClose(ks, h + 1) && ks[h].Pipe? && ScanKinds(ks, at).header == ks[h].cells
    ensures h < |ks| ==> ScanKinds(ks, at).rows == DataRows(ks, at, h + 1, e)
    ensures h < |ks| ==> ScanKinds(ks, at).head == HeadBefore(ks, at, h, e)
  {
    hide FeedAll, ScanKinds, DataRows, HeadBefore, OpensTable, FenceLineAt, FenceAt, FirstLive;
    ScanIsByPosition(ks, at);
    h, e := FirstPipe(ks, 0), 0;
    if h < |ks| {
      assert LivePipe(ks, h);
      e := FirstClose(ks, h + 1);
    }
  }

  /** No silent row loss. When a region is reported whole, every pipe line outside its fences is the header, a
      separator, a placeholder row, or a row that was read, with its own line number and cells; or it sits under
      a subheading that opens a table of its own. */
  lemma NoSilentLoss(lines: seq<string>, start: nat, end: nat, i: nat)
    requires start <= end <= |lines|
    requires !Interrupted(ScanLines(lines, start, end))
    requires LivePipe(Kinds(lines[start..end]), i)
    ensures var ks, s := Kinds(lines[start..end]), ScanLines(lines, start, end);
            var cells := CellsOf(lines[start + i]);
            || (i == FirstPipe(ks, 0) && s.header == cells)
            || IsSeparator(cells)
            || Placeholder(Cell(cells, 0))
            || Row(start + i + 1, cells) in s.rows
            || exists e, f | 0 <= e < f <= i :: UnderOwnTable(ks, e, f)
  {
    hide ScanKinds, IsSeparator, Placeholder, CellsOf, Trim;
    var ks := Kinds(lines[start..end]);
    MarkersNamed(lines[start..end]);
    KindNotLost(ks, start, i);
    assert ks[i] == KindOf(lines[start + i]);
  }

  lemma KindNotLost(ks: seq<Kind>, at: nat, i: nat)
    requires forall j | 0 <= j < |ks| :: ks[j].Fence? ==> ks[j].marker != ""
    requires !Interrupted(ScanKinds(ks, at)) && LivePipe(ks, i)
    ensures var s, cells := ScanKinds(ks, at), ks[i].cells;
            || (i == FirstPipe(ks, 0) && s.header == cells)
            || !IsData(cells)
            || Row(at + i + 1, cells) in s.rows
            || exists e, f | 0 <= e < f <= i :: UnderOwnTable(ks, e, f)
  {
    hide ScanKinds, DataRows, HeadBefore, IsData, PartUnread, UnderOwnTable, OpensTable, FirstPipe, FirstClose;
    InterruptedIff(ks, at);
    var h, e := ScanBlock(ks, at);
    if h < i && i < e && IsData(ks[i].cells) {
      DataRowsAre(ks, at, h + 1, e, i);
    } else if h < i && e <= i {
      BelowClose(ks, i);
      assert UnderOwnTable(ks, e, FirstPipe(ks, e + 1));
    }
  }

  lemma BelowClose(ks: seq<Kind>, i: nat)
    requires !PartUnread(ks) && LivePipe(ks, i) && FirstPipe(ks, 0) < i && FirstClose(ks, FirstPipe(ks, 0) + 1) <= i
    ensures var e := FirstClose(ks, FirstPipe(ks, 0) + 1);
            e < i && FirstPipe(ks, e + 1) <= i && UnderOwnTable(ks, e, FirstPipe(ks, e + 1))
  {
    var e := FirstClose(ks, FirstPipe(ks, 0) + 1);
    assert LiveClose(ks, e);
    var f := FirstPipe(ks, e + 1);
    assert f <= i;
  }

  /** A live subheading at `e` whose first row, at `f`, opens a table of its own. */
  ghost predicate UnderOwnTable(ks: seq<Kind>, e: nat, f: nat) {
    e < f < |ks| && Live(ks, e) && ks[e].Sub? && f == FirstPipe(ks, e + 1) && OpensTable(ks, f)
  }

  lemma PipeKind(line: string)
    requires KindOf(line).Pipe?
    ensures KindOf(line) == Pipe(CellsOf(line))
  {
    hide CellsOf, Trim;
  }

  /** And nothing is made up: the rows are live pipe lines below the header, in document order, each with the
      number and the cells of its own line. */
  lemma RowsAreRead(lines: seq<string>, start: nat, end: nat, m: nat)
    requires start <= end <= |lines| && m < |ScanLines(lines, start, end).rows|
    ensures var ks, rows := Kinds(lines[start..end]), ScanLines(lines, start, end).rows;
            start + FirstPipe(ks, 0) + 1 < rows[m].line <= end &&
            LivePipe(ks, rows[m].line - 1 - start) && IsData(rows[m].cells) &&
            rows[m].cells == CellsOf(lines[rows[m].line - 1]) &&
            forall k | 0 <= k < m :: rows[k].line < rows[m].line
  {
    hide ScanKinds, HeadBefore, IsData, CellsOf, Trim, DataRows, FirstPipe, FirstClose, KindOf;
    var ks := Kinds(lines[start..end]);
    var h, e := ScanBlock(ks, start);
    var rows := DataRows(ks, start, h + 1, e);
    var i := DataRowPlace(ks, start, h + 1, e, m);
    assert ks[i] == KindOf(lines[start + i]);
    PipeKind(lines[start + i]);
    forall k | 0 <= k < m ensures rows[k].line < rows[m].line {
      assert rows[..m][k] == rows[k];
      var j := DataRowPlace(ks, start, h + 1, i, k);
    }
  }

  // ---------------------------------------------------------------- the vocabulary

  /** What a line is, told by how its trimmed text begins. */
  lemma KindIs(line: string)
    ensures var t, k := Trim(line), KindOf(line);
            && (k == Blank <==> t == "")
            && (k == Fence("```") <==> "```" <= t) && (k == Fence("~~~") <==> "~~~" <= t)
            && (k == Pipe(CellsOf(line)) <==> t != "" && t[0] == '|')
            && (k == Sub(line) <==> "###" <= t)
            && (t != "" && t[0] !in "|`~#" ==> k == Prose(line))
            && (k.Fence? ==> k.marker == "```" || k.marker == "~~~")
  {
    hide CellsOf, Trim;
    var t := Trim(line);
    assert "```" <= t ==> t[0] == '`';
    assert "~~~" <= t ==> t[0] == '~';
    assert "###" <= t ==> t[0] == '#';
    assert "|" <= t <==> t != "" && t[0] == '|';
  }

  /** A delimiter row holds nothing but dashes, colons and spaces. */
  lemma SeparatorIs(cells: seq<string>)
    ensures IsSeparator(cells) <==>
            forall i, j | 0 <= i < |cells| && 0 <= j < |cells[i]| :: cells[i][j] == '-' || cells[i][j] == ':' || cells[i][j] == ' '
  {
    if forall i, j | 0 <= i < |cells| && 0 <= j < |cells[i]| :: cells[i][j] == '-' || cells[i][j] == ':' || cells[i][j] == ' ' {
      forall i, j | 0 <= i < |cells| && 0 <= j < |cells[i]| ensures cells[i][j] in "-: " {}
    }
    if IsSeparator(cells) {
      forall i, j | 0 <= i < |cells| && 0 <= j < |cells[i]| ensures cells[i][j] == '-' || cells[i][j] == ':' || cells[i][j] == ' ' {
        assert cells[i][j] in "-: ";
      }
    }
  }

  /** The text is that word, its letters in either case. */
  predicate IsWord(c: string, word: string) {
    |c| == |word| &&
    forall i | 0 <= i < |c| :: c[i] == word[i] || ('a' <= word[i] <= 'z' && c[i] as int == word[i] as int - 32)
  }

  /** A placeholder is nothing, a dash, or one of five words for nothing. */
  lemma PlaceholderIs(c: string)
    ensures Placeholder(c) <==>
            c == "" || c == "-" || c == "\U{2014}" || IsWord(c, "na") || IsWord(c, "n/a") || IsWord(c, "none") ||
            IsWord(c, "(none)") || IsWord(c, "tbd")
  {
    FoldWord(c, "");
    FoldWord(c, "-");
    FoldWord(c, "na");
    FoldWord(c, "n/a");
    FoldWord(c, "none");
    FoldWord(c, "(none)");
    FoldWord(c, "tbd");
    FoldDash(c);
  }

  lemma FoldWord(c: string, word: string)
    requires forall i | 0 <= i < |word| :: word[i] as int < 128 && !('A' <= word[i] <= 'Z') && word[i] != 's' && word[i] != 'k'
    ensures Fold(c) == word <==> IsWord(c, word)
  {
    FoldIs(c, word);
  }

  lemma FoldDash(c: string)
    ensures Fold(c) == "\U{2014}" <==> c == "\U{2014}"
  {
    if |c| == 1 {
      assert Fold(c) == [FoldChar(c[0])] + Fold(c[1..]) && Fold(c[1..]) == "";
      assert Fold(c)[0] == FoldChar(c[0]);
      assert c == [c[0]];
    }
  }
}
