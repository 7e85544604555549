/** How an upgraded table reads: the same table with one more column. */
module UpgradeScan {
  import opened Cells
  import opened Scan
  import opened ScanMeaning

  function MoreCells(rows: seq<Row>, tag: string): (r: seq<Row>)
    ensures |r| == |rows| && forall i | 0 <= i < |rows| :: r[i] == Row(rows[i].line, rows[i].cells + [tag])
  {
    seq(|rows|, i requires 0 <= i < |rows| => Row(rows[i].line, rows[i].cells + [tag]))
  }

  /** The scan with a Run column appended: the header names it and every row carries `tag` in it. */
  function WithRun(s: TableScan, tag: string): TableScan {
    s.(header := if s.header == [] then [] else s.header + ["Run"], rows := MoreCells(s.rows, tag))
  }

  function WalkerWithRun(w: Walker, tag: string): Walker {
    w.(s := WithRun(w.s, tag))
  }

  /** A data row of the block. */
  predicate DataAt(ks: seq<Kind>, i: nat) {
    var h := FirstPipe(ks, 0);
    h < i < |ks| && i < FirstClose(ks, h + 1) && LivePipe(ks, i) && IsData(ks[i].cells)
  }

  /** The kinds of the upgraded lines: the header and the data rows gain a cell, a separator may. */
  ghost predicate Widened(ks: seq<Kind>, ks': seq<Kind>, tag: string) {
    && |ks'| == |ks|
    && forall i | 0 <= i < |ks| :: WidenedAt(ks, i, ks'[i], tag)
  }

  ghost predicate WidenedAt(ks: seq<Kind>, i: nat, k': Kind, tag: string)
    requires i < |ks|
  {
    if i == FirstPipe(ks, 0) then k' == Pipe(ks[i].cells + ["Run"])
    else if DataAt(ks, i) then k' == Pipe(ks[i].cells + [tag])
    else k' == ks[i] || (ks[i].Pipe? && IsSeparator(ks[i].cells) && k' == Pipe(ks[i].cells + ["---"]))
  }

  lemma SeparatorMore(cells: seq<string>)
    requires IsSeparator(cells)
    ensures IsSeparator(cells + ["---"])
  {}

  lemma DataMore(cells: seq<string>, tag: string)
    requires IsData(cells) && cells != []
    ensures IsData(cells + [tag])
  {
    hide Placeholder;
    assert Cell(cells + [tag], 0) == Cell(cells, 0);
    assert !IsSeparator(cells + [tag]) by {
      var i, j :| 0 <= i < |cells| && 0 <= j < |cells[i]| && cells[i][j] !in "-: ";
      assert (cells + [tag])[i] == cells[i];
    }
  }

  lemma MoreRow(rows: seq<Row>, r: Row, tag: string)
    ensures MoreCells(rows + [r], tag) == MoreCells(rows, tag) + [Row(r.line, r.cells + [tag])]
  {}

  lemma WidenedBefore(ks: seq<Kind>, at: nat, i: nat, k': Kind, tag: string)
    requires i < |ks| && i <= FirstPipe(ks, 0) && WidenedAt(ks, i, k', tag)
    requires i < FirstPipe(ks, 0) || (ks[i].Pipe? && ks[i].cells != [])
    ensures FeedLine(WalkerWithRun(WalkerAt(ks, at, i), tag), k', at + i) == WalkerWithRun(FeedLine(WalkerAt(ks, at, i), ks[i], at + i), tag)
  {
    hide IsSeparator, Placeholder, ClosedAt, FirstPipe, FirstClose, TableBefore, FenceAt, FenceLineAt;
    assert i < FirstPipe(ks, 0) ==> !LivePipe(ks, i);
    assert MoreCells([], tag) == [];
  }

  /** One line inside the table: a data row gains the tag, and nothing else changes what it is. */
  lemma InsideStep(w: Walker, k: Kind, k': Kind, at: nat, tag: string)
    requires w.phase.Inside? && (k.Pipe? ==> k.cells != [])
    requires if w.fence == "" && k.Pipe? && IsData(k.cells) then k' == Pipe(k.cells + [tag])
             else k' == k || (k.Pipe? && IsSeparator(k.cells) && k' == Pipe(k.cells + ["---"]))
    ensures FeedLine(WalkerWithRun(w, tag), k', at) == WalkerWithRun(FeedLine(w, k, at), tag)
  {
    hide IsSeparator, Placeholder, MoreCells;
    if k.Pipe? {
      if IsSeparator(k.cells) {
        SeparatorMore(k.cells);
      } else if IsData(k.cells) {
        DataMore(k.cells, tag);
        MoreRow(w.s.rows, Row(at + 1, k.cells), tag);
      }
    }
  }

  /** What a line of the block is, for the walker that reaches it. */
  lemma InsideIs(ks: seq<Kind>, at: nat, i: nat, k': Kind, tag: string)
    requires i < |ks| && FirstPipe(ks, 0) < i <= FirstClose(ks, FirstPipe(ks, 0) + 1) && WidenedAt(ks, i, k', tag)
    ensures var w := WalkerAt(ks, at, i);
            w.phase.Inside? &&
            if w.fence == "" && ks[i].Pipe? && IsData(ks[i].cells) then k' == Pipe(ks[i].cells + [tag])
            else k' == ks[i] || (ks[i].Pipe? && IsSeparator(ks[i].cells) && k' == Pipe(ks[i].cells + ["---"]))
  {
    hide IsData, IsSeparator, TableBefore, ClosedAt, FirstPipe, FirstClose, FenceAt, FenceLineAt, HeadBefore, DataRows;
    assert ks[i].Pipe? ==> !LiveClose(ks, i);
  }

  lemma WidenedInside(ks: seq<Kind>, at: nat, i: nat, k': Kind, tag: string)
    requires i < |ks| && FirstPipe(ks, 0) < i <= FirstClose(ks, FirstPipe(ks, 0) + 1) && WidenedAt(ks, i, k', tag)
    requires ks[i].Pipe? ==> ks[i].cells != []
    ensures FeedLine(WalkerWithRun(WalkerAt(ks, at, i), tag), k', at + i) == WalkerWithRun(FeedLine(WalkerAt(ks, at, i), ks[i], at + i), tag)
  {
    hide FeedLine, IsData, IsSeparator, TableBefore, ClosedAt, FirstPipe, FirstClose, WalkerAt, WidenedAt, WalkerWithRun;
    var w := WalkerAt(ks, at, i);
    InsideIs(ks, at, i, k', tag);
    InsideStep(w, ks[i], k', at + i, tag);
  }

  lemma WidenedClosed(w: Walker, k: Kind, k': Kind, at: nat, tag: string)
    requires !w.phase.Before? && !w.phase.Inside?
    requires k' == k || (k.Pipe? && IsSeparator(k.cells) && k' == Pipe(k.cells + ["---"]))
    ensures FeedLine(WalkerWithRun(w, tag), k', at) == WalkerWithRun(FeedLine(w, k, at), tag)
  {
    hide IsSeparator, ReadRow;
    if k.Pipe? && IsSeparator(k.cells) {
      SeparatorMore(k.cells);
    }
  }

  lemma {:induction false} WidenedTo(ks: seq<Kind>, ks': seq<Kind>, at: nat, tag: string, i: nat)
    requires i <= |ks| && Widened(ks, ks', tag)
    requires forall j | 0 <= j < |ks| :: ks[j].Pipe? ==> ks[j].cells != []
    ensures FeedAll(INIT, ks'[..i], at) == WalkerWithRun(WalkerAt(ks, at, i), tag)
  {
    hide FeedLine, FeedAll, WalkerAt, WidenedAt;
    if i == 0 {
      StartsWithRun(ks, ks', at, tag);
    } else {
      var j := i - 1;
      WidenedTo(ks, ks', at, tag, j);
      FeedSnoc(INIT, ks', j, at);
      FeedSnoc(INIT, ks, j, at);
      WalkedTo(ks, at, j);
      WalkedTo(ks, at, i);
      assert WidenedAt(ks, j, ks'[j], tag);
      var h := FirstPipe(ks, 0);
      if j <= h {
        WidenedBefore(ks, at, j, ks'[j], tag);
      } else if j <= FirstClose(ks, h + 1) {
        WidenedInside(ks, at, j, ks'[j], tag);
      } else {
        PastClose(ks, at, j, ks'[j], tag);
        WidenedClosed(WalkerAt(ks, at, j), ks[j], ks'[j], at + j, tag);
      }
    }
  }

  lemma StartsWithRun(ks: seq<Kind>, ks': seq<Kind>, at: nat, tag: string)
    ensures FeedAll(INIT, ks'[..0], at) == WalkerWithRun(WalkerAt(ks, at, 0), tag)
  {
    assert MoreCells([], tag) == [];
  }

  lemma PastClose(ks: seq<Kind>, at: nat, i: nat, k': Kind, tag: string)
    requires i < |ks| && FirstPipe(ks, 0) < |ks| && FirstClose(ks, FirstPipe(ks, 0) + 1) < i && WidenedAt(ks, i, k', tag)
    ensures !WalkerAt(ks, at, i).phase.Before? && !WalkerAt(ks, at, i).phase.Inside?
    ensures k' == ks[i] || (ks[i].Pipe? && IsSeparator(ks[i].cells) && k' == Pipe(ks[i].cells + ["---"]))
  {
    hide IsSeparator, IsData, TableBefore;
  }

  /** The walk over the upgraded lines finds the table it found before, with the column. */
  lemma ScanWidened(ks: seq<Kind>, ks': seq<Kind>, at: nat, tag: string)
    requires Widened(ks, ks', tag) && forall j | 0 <= j < |ks| :: ks[j].Pipe? ==> ks[j].cells != []
    ensures ScanKinds(ks', at) == WithRun(ScanKinds(ks, at), tag)
  {
    hide FeedAll, WalkerAt, Widened;
    WidenedTo(ks, ks', at, tag, |ks|);
    WalkedTo(ks, at, |ks|);
    assert ks'[..|ks|] == ks' && ks[..|ks|] == ks by {
      SameLength(ks, ks', tag);
    }
    SameLength(ks, ks', tag);
    FinishWithRun(WalkerAt(ks, at, |ks|), tag);
  }

  lemma SameLength(ks: seq<Kind>, ks': seq<Kind>, tag: string)
    requires Widened(ks, ks', tag)
    ensures |ks'| == |ks| && ks'[..|ks|] == ks'
  {}

  lemma FinishWithRun(w: Walker, tag: string)
    ensures Finish(WalkerWithRun(w, tag)) == WithRun(Finish(w), tag)
  {}
}
