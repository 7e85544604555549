/** How the scan of a region answers an edit of its lines: a row rewritten in place, a row inserted after the
    last one, a blank line or fenced text, and the same region further down the document. */
module ScanEdits {
  import opened Text
  import opened Cells
  import opened Scan
  import opened ScanMeaning

  function RowCells(rows: seq<Row>): (cs: seq<seq<string>>)
    ensures |cs| == |rows| && forall i | 0 <= i < |rows| :: cs[i] == rows[i].cells
  {
    seq(|rows|, i requires 0 <= i < |rows| => rows[i].cells)
  }

  // ---------------------------------------------------------------- rows only accumulate

  function WithRows(w: Walker, rows: seq<Row>): Walker {
    w.(s := w.s.(rows := rows))
  }

  /** The rows read so far decide nothing about what is read next. */
  lemma {:induction false} RowsLift(w: Walker, rows: seq<Row>, ks: seq<Kind>, at: nat)
    ensures var r := FeedAll(w, ks, at);
            |w.s.rows| <= |r.s.rows| && r.s.rows[..|w.s.rows|] == w.s.rows &&
            FeedAll(WithRows(w, rows), ks, at) == WithRows(r, rows + r.s.rows[|w.s.rows|..])
    decreases |ks|
  {
    hide IsSeparator, Placeholder;
    if ks == [] {
      assert rows + w.s.rows[|w.s.rows|..] == rows;
    } else {
      var w' := FeedLine(w, ks[0], at);
      var more := w'.s.rows[|w.s.rows|..];
      assert w'.s.rows == w.s.rows + more;
      assert FeedLine(WithRows(w, rows), ks[0], at) == WithRows(w', rows + more);
      RowsLift(w', rows + more, ks[1..], at + 1);
      LiftTail(w.s.rows, more, FeedAll(w', ks[1..], at + 1).s.rows, rows);
    }
  }

  lemma LiftTail(a: seq<Row>, more: seq<Row>, r: seq<Row>, rows: seq<Row>)
    requires |a + more| <= |r| && r[..|a + more|] == a + more
    ensures r[..|a|] == a && rows + more + r[|a + more|..] == rows + r[|a|..]
  {
    assert r == (a + more) + r[|a + more|..];
  }

  /** Where row `m` sits: the walk reaches its line inside the table, with the rows before it. */
  lemma RowPlace(ks: seq<Kind>, at: nat, m: nat) returns (i: nat)
    requires m < |ScanKinds(ks, at).rows|
    ensures i < |ks| && IsDataAt(ks, i) && ScanKinds(ks, at).rows[m] == Row(at + i + 1, ks[i].cells)
    ensures FeedAll(INIT, ks[..i], at) == WalkerAt(ks, at, i)
    ensures var w := WalkerAt(ks, at, i);
            w.phase == Inside && w.fence == "" && w.s.rows == ScanKinds(ks, at).rows[..m] && |w.s.rows| == m
  {
    hide ScanKinds, DataRows, HeadBefore, IsData, FeedAll;
    var h, e := ScanBlock(ks, at);
    i := DataRowPlace(ks, at, h + 1, e, m);
    WalkedTo(ks, at, i);
  }

  predicate IsDataAt(ks: seq<Kind>, i: nat) {
    i < |ks| && ks[i].Pipe? && IsData(ks[i].cells)
  }

  lemma SplitAt(ks: seq<Kind>, at: nat, i: nat, k: Kind)
    requires i < |ks|
    ensures FeedAll(INIT, ks[i := k], at) ==
            FeedAll(FeedLine(FeedAll(INIT, ks[..i], at), k, at + i), ks[i + 1..], at + i + 1)
  {
    hide FeedLine;
    assert ks[i := k] == ks[..i] + ([k] + ks[i + 1..]);
    FeedConcat(INIT, ks[..i], [k] + ks[i + 1..], at);
    assert ([k] + ks[i + 1..])[1..] == ks[i + 1..];
  }

  lemma FinishRows(w: Walker, rows: seq<Row>)
    ensures Finish(WithRows(w, rows)) == Finish(w).(rows := rows) && Finish(w).rows == w.s.rows
  {}

  lemma UpdateRows(a: seq<Row>, r: Row, r': Row, all: seq<Row>)
    requires |a| < |all| && all[..|a| + 1] == a + [r]
    ensures a + [r'] + all[|a + [r]|..] == all[|a| := r']
  {}

  /** A data row rewritten in place as another data row: the scan is the old one with that row's cells. */
  lemma RowRewritten(ks: seq<Kind>, at: nat, m: nat, i: nat, cells: seq<string>)
    requires m < |ScanKinds(ks, at).rows| && i < |ks| && ScanKinds(ks, at).rows[m].line == at + i + 1
    requires IsData(cells)
    ensures ScanKinds(ks[i := Pipe(cells)], at) ==
            ScanKinds(ks, at).(rows := ScanKinds(ks, at).rows[m := Row(at + i + 1, cells)])
  {
    hide FeedAll, WalkerAt;
    var j := RowPlace(ks, at, m);
    assert j == i;
    var w := WalkerAt(ks, at, i);
    var r, r' := Row(at + i + 1, ks[i].cells), Row(at + i + 1, cells);
    var v, v' := FeedLine(w, ks[i], at + i), FeedLine(w, Pipe(cells), at + i);
    assert v == WithRows(w, w.s.rows + [r]) && v' == WithRows(w, w.s.rows + [r']);
    SplitAt(ks, at, i, Pipe(cells));
    SplitAt(ks, at, i, ks[i]);
    assert ks[i := ks[i]] == ks;
    var tail := ks[i + 1..];
    RowsLift(v, w.s.rows + [r'], tail, at + i + 1);
    var all := FeedAll(v, tail, at + i + 1);
    UpdateRows(w.s.rows, r, r', all.s.rows);
    FinishRows(all, all.s.rows[m := r']);
  }

  // ---------------------------------------------------------------- the same walk at other line numbers

  /** Two scans that differ in line numbers only. */
  ghost predicate SameScan(s: TableScan, t: TableScan) {
    && s.header == t.header && RowCells(s.rows) == RowCells(t.rows)
    && (s.resumed == 0 <==> t.resumed == 0) && (s.fenceLine == 0 <==> t.fenceLine == 0)
  }

  ghost predicate Twin(w: Walker, v: Walker) {
    && w.fence == v.fence && (w.fenceLine == 0 <==> v.fenceLine == 0) && SameScan(w.s, v.s)
    && (w.phase.Before? <==> v.phase.Before?) && (w.phase.Inside? <==> v.phase.Inside?)
    && (w.phase.After? <==> v.phase.After?) && (w.phase.Seek? <==> v.phase.Seek?)
    && (w.phase.Have? <==> v.phase.Have?) && (w.phase.Stop? <==> v.phase.Stop?)
    && (w.phase.Have? ==> (w.phase.row == 0 <==> v.phase.row == 0))
  }

  lemma RowCellsAdd(rows: seq<Row>, r: Row)
    ensures RowCells(rows + [r]) == RowCells(rows) + [r.cells]
  {}

  lemma TwinStep(w: Walker, v: Walker, k: Kind, a: nat, b: nat)
    requires Twin(w, v)
    ensures Twin(FeedLine(w, k, a), FeedLine(v, k, b))
  {
    hide IsSeparator, Placeholder, RowCells;
    if k.Pipe? {
      RowCellsAdd(w.s.rows, Row(a + 1, k.cells));
      RowCellsAdd(v.s.rows, Row(b + 1, k.cells));
    }
  }

  lemma {:induction false} TwinAll(w: Walker, v: Walker, ks: seq<Kind>, a: nat, b: nat)
    requires Twin(w, v)
    ensures Twin(FeedAll(w, ks, a), FeedAll(v, ks, b))
    decreases |ks|
  {
    hide FeedLine, Twin;
    if ks != [] {
      TwinStep(w, v, ks[0], a, b);
      TwinAll(FeedLine(w, ks[0], a), FeedLine(v, ks[0], b), ks[1..], a + 1, b + 1);
    }
  }

  lemma TwinFinish(w: Walker, v: Walker)
    requires Twin(w, v)
    ensures SameScan(Finish(w), Finish(v))
  {}

  lemma TwinSelf(w: Walker)
    ensures Twin(w, w)
  {}

  /** The same region elsewhere in a document: the same table, and interrupted or not alike. */
  lemma ScanMoved(ks: seq<Kind>, a: nat, b: nat)
    ensures SameScan(ScanKinds(ks, a), ScanKinds(ks, b))
  {
    hide FeedAll, Twin, SameScan, Finish;
    TwinSelf(INIT);
    TwinAll(INIT, INIT, ks, a, b);
    TwinFinish(FeedAll(INIT, ks, a), FeedAll(INIT, ks, b));
  }

  // ---------------------------------------------------------------- a row inserted after the last one

  /** The walk is inside the table before line `p`, and no row follows. */
  ghost predicate EndOfRows(ks: seq<Kind>, at: nat, p: nat) {
    && p <= |ks|
    && var w := FeedAll(INIT, ks[..p], at);
       w.phase == Inside && w.fence == "" && w.s.rows == ScanKinds(ks, at).rows
  }

  /** `findingsEnd`: after the last data row, else after the table's heading. */
  function RowsEnd(s: TableScan): nat {
    if s.rows != [] then s.rows[|s.rows| - 1].line else s.head
  }

  lemma {:induction false} HeadPlace(ks: seq<Kind>, at: nat, h: nat, end: nat) returns (i: nat)
    requires h < end <= |ks| && LivePipe(ks, h)
    ensures h <= i < end && HeadBefore(ks, at, h, end) == at + i + 1 && LivePipe(ks, i)
    ensures i > h ==> IsSeparator(ks[i].cells)
    decreases end
  {
    hide IsSeparator;
    if end <= h + 1 {
      i := h;
    } else if LivePipe(ks, end - 1) && IsSeparator(ks[end - 1].cells) {
      i := end - 1;
    } else {
      i := HeadPlace(ks, at, h, end - 1);
    }
  }

  lemma AfterLine(ks: seq<Kind>, at: nat, i: nat)
    requires i < |ks|
    ensures FeedAll(INIT, ks[..i + 1], at) == FeedLine(WalkerAt(ks, at, i), ks[i], at + i)
  {
    hide FeedLine, WalkerAt;
    WalkedTo(ks, at, i);
    FeedSnoc(INIT, ks, i, at);
  }

  /** `findingsEnd` is the end of the rows: nothing that is read comes after it. */
  lemma RowsEndIsEnd(ks: seq<Kind>, at: nat)
    requires ScanKinds(ks, at).header != []
    ensures at < RowsEnd(ScanKinds(ks, at)) <= at + |ks| && EndOfRows(ks, at, RowsEnd(ScanKinds(ks, at)) - at)
  {
    hide ScanKinds, FeedAll, WalkerAt, IsSeparator, Placeholder;
    var s := ScanKinds(ks, at);
    if s.rows != [] {
      var m := |s.rows| - 1;
      var i := RowPlace(ks, at, m);
      AfterLine(ks, at, i);
      assert s.rows[..m] + [s.rows[m]] == s.rows;
    } else {
      HeadIsEnd(ks, at);
    }
  }

  lemma HeadIsEnd(ks: seq<Kind>, at: nat)
    requires ScanKinds(ks, at).header != [] && ScanKinds(ks, at).rows == []
    ensures at < ScanKinds(ks, at).head <= at + |ks| && EndOfRows(ks, at, ScanKinds(ks, at).head - at)
  {
    hide ScanKinds, FeedAll, IsSeparator, Placeholder, ClosedAt;
    var h, e := ScanBlock(ks, at);
    assert LivePipe(ks, h);
    var i := HeadPlace(ks, at, h, e);
    AfterLine(ks, at, i);
    RowsPrefix(ks, at, h + 1, i, e);
  }

  lemma {:induction false} RowsPrefix(ks: seq<Kind>, at: nat, from: nat, i: nat, end: nat)
    requires i <= end <= |ks|
    ensures DataRows(ks, at, from, i) <= DataRows(ks, at, from, end)
    decreases end
  {
    hide IsData;
    if i < end {
      RowsPrefix(ks, at, from, i, end - 1);
    }
  }

  function InsertKind(ks: seq<Kind>, p: nat, k: Kind): seq<Kind>
    requires p <= |ks|
  {
    ks[..p] + [k] + ks[p..]
  }

  /** A data row inserted at the end of the rows is read as one more row at the end, and nothing else changes. */
  lemma RowInserted(ks: seq<Kind>, at: nat, p: nat, cells: seq<string>)
    requires EndOfRows(ks, at, p) && IsData(cells)
    ensures var s, s' := ScanKinds(ks, at), ScanKinds(InsertKind(ks, p, Pipe(cells)), at);
            s'.rows == s.rows + [Row(at + p + 1, cells)] && s'.header == s.header &&
            (Interrupted(s') <==> Interrupted(s))
  {
    hide FeedAll, IsData;
    var w := FeedAll(INIT, ks[..p], at);
    var r := Row(at + p + 1, cells);
    var k := Pipe(cells);
    var ks' := InsertKind(ks, p, k);
    assert ks' == ks[..p] + ([k] + ks[p..]);
    FeedConcat(INIT, ks[..p], [k] + ks[p..], at);
    FeedConcat(INIT, ks[..p], ks[p..], at);
    assert ks[..p] + ks[p..] == ks;
    FeedFirst(w, k, ks[p..], at + p);
    var v := FeedLine(w, k, at + p);
    assert v == WithRows(w, w.s.rows + [r]) by {
      DataIsRead(w, cells, at + p);
    }
    var tail, moved := FeedAll(w, ks[p..], at + p), FeedAll(w, ks[p..], at + p + 1);
    RowsLift(w, w.s.rows + [r], ks[p..], at + p + 1);
    TwinSelf(w);
    TwinAll(w, w, ks[p..], at + p, at + p + 1);
    TwinFinish(tail, moved);
    FinishRows(tail, tail.s.rows);
    assert |tail.s.rows| == |RowCells(tail.s.rows)| == |RowCells(moved.s.rows)|;
    assert moved.s.rows[|w.s.rows|..] == [];
    FinishRows(moved, w.s.rows + [r] + []);
    FinishRows(moved, moved.s.rows);
  }

  lemma DataIsRead(w: Walker, cells: seq<string>, at: nat)
    requires w.phase == Inside && w.fence == "" && IsData(cells)
    ensures FeedLine(w, Pipe(cells), at) == WithRows(w, w.s.rows + [Row(at + 1, cells)])
  {
    hide IsSeparator, Placeholder;
  }

  lemma FeedFirst(w: Walker, k: Kind, ks: seq<Kind>, at: nat)
    ensures FeedAll(w, [k] + ks, at) == FeedAll(FeedLine(w, k, at), ks, at + 1)
  {
    hide FeedLine;
    assert ([k] + ks)[1..] == ks;
  }

  // ---------------------------------------------------------------- blank lines and fenced text

  /** Two walks that will find the same header and the same row cells. Once the lookahead has its row, nothing
      it reads is a row of this table. */
  ghost predicate Alike(w: Walker, v: Walker) {
    var done, done' := w.phase.Have? || w.phase.Stop?, v.phase.Have? || v.phase.Stop?;
    && w.s.header == v.s.header && RowCells(w.s.rows) == RowCells(v.s.rows) && done == done'
    && (!done ==> w.fence == v.fence &&
                  (w.phase.Before? <==> v.phase.Before?) && (w.phase.Inside? <==> v.phase.Inside?) &&
                  (w.phase.After? <==> v.phase.After?))
  }

  lemma AlikeStep(w: Walker, v: Walker, k: Kind, a: nat, b: nat)
    requires Alike(w, v)
    ensures Alike(FeedLine(w, k, a), FeedLine(v, k, b))
  {
    hide IsSeparator, Placeholder, RowCells;
    if k.Pipe? {
      RowCellsAdd(w.s.rows, Row(a + 1, k.cells));
      RowCellsAdd(v.s.rows, Row(b + 1, k.cells));
    }
  }

  lemma {:induction false} AlikeAll(w: Walker, v: Walker, ks: seq<Kind>, a: nat, b: nat)
    requires Alike(w, v)
    ensures var s, t := Finish(FeedAll(w, ks, a)), Finish(FeedAll(v, ks, b));
            s.header == t.header && RowCells(s.rows) == RowCells(t.rows)
    decreases |ks|
  {
    hide FeedLine;
    if ks == [] {
      FinishRows(w, w.s.rows);
      FinishRows(v, v.s.rows);
    } else {
      AlikeStep(w, v, ks[0], a, b);
      AlikeAll(FeedLine(w, ks[0], a), FeedLine(v, ks[0], b), ks[1..], a + 1, b + 1);
    }
  }

  /** A blank line inserted anywhere in a region changes neither the header nor any row's cells. */
  lemma BlankInserted(lines: seq<string>, start: nat, end: nat, p: nat, blank: string)
    requires start <= p <= end <= |lines| && Trim(blank) == ""
    ensures var s, s' := ScanLines(lines, start, end), ScanLines(lines[..p] + [blank] + lines[p..], start, end + 1);
            s'.header == s.header && RowCells(s'.rows) == RowCells(s.rows)
  {
    hide FeedAll, Finish, KindOf, FeedLine, RowCells, Alike, Trim;
    var ks, q := Kinds(lines[start..end]), p - start;
    BlankKinds(lines, start, end, p, blank);
    assert ks == ks[..q] + ks[q..];
    FeedConcat(INIT, ks[..q], [Kind.Blank] + ks[q..], start);
    FeedConcat(INIT, ks[..q], ks[q..], start);
    var w := FeedAll(INIT, ks[..q], start);
    FeedFirst(w, Kind.Blank, ks[q..], start + q);
    BlankAlike(w, start + q);
    AlikeAll(FeedLine(w, Kind.Blank, start + q), w, ks[q..], start + q + 1, start + q);
  }

  lemma BlankKinds(lines: seq<string>, start: nat, end: nat, p: nat, blank: string)
    requires start <= p <= end <= |lines| && Trim(blank) == ""
    ensures var ks, q := Kinds(lines[start..end]), p - start;
            var lines' := lines[..p] + [blank] + lines[p..];
            end + 1 <= |lines'| && Kinds(lines'[start..end + 1]) == ks[..q] + ([Kind.Blank] + ks[q..])
  {
    hide Trim, CellsOf;
    var q, lines' := p - start, lines[..p] + [blank] + lines[p..];
    assert lines'[start..end + 1] == lines[start..end][..q] + [blank] + lines[start..end][q..];
    BlankKind(blank);
  }

  lemma BlankKind(blank: string)
    requires Trim(blank) == ""
    ensures KindOf(blank) == Kind.Blank
  {
    hide Trim, CellsOf;
  }

  lemma BlankAlike(w: Walker, at: nat)
    ensures Alike(FeedLine(w, Kind.Blank, at), w)
  {
    hide RowCells;
  }

  /** No line closes the fence. */
  predicate KeepsFence(lines: seq<string>, fence: string) {
    forall i | 0 <= i < |lines| :: KindOf(lines[i]) != Fence(fence)
  }

  lemma {:induction false} FencedLines(w: Walker, ks: seq<Kind>, at: nat)
    requires w.phase == Stop || (w.fence != "" && forall i | 0 <= i < |ks| :: ks[i] != Fence(w.fence))
    ensures FeedAll(w, ks, at) == w
    decreases |ks|
  {
    if ks != [] {
      FencedLines(w, ks[1..], at + 1);
    }
  }

  /** Any lines inside a fence, exchanged for any lines that do not close it: the header and the cells of every row
      stay, and so does the whole scan when there are as many of them. */
  lemma FencedEdit(lines: seq<string>, start: nat, end: nat, p: nat, q: nat, put: seq<string>)
    requires start <= p <= q <= end <= |lines|
    requires var fence := FenceAt(Kinds(lines[start..end]), p - start);
             fence != "" && KeepsFence(lines[p..q], fence) && KeepsFence(put, fence)
    ensures var lines' := lines[..p] + put + lines[q..]; var end' := end - (q - p) + |put|;
            var s, s' := ScanLines(lines, start, end), ScanLines(lines', start, end');
            s'.header == s.header && RowCells(s'.rows) == RowCells(s.rows) && (|put| == q - p ==> s' == s)
  {
    hide FeedAll, KindOf, FeedLine, WalkerAt, FenceAt, RowCells, Alike, Finish;
    var ks, i, j := Kinds(lines[start..end]), p - start, q - start;
    var middle := Kinds(put);
    FencedKinds(lines, start, end, p, q, put);
    assert ks == ks[..i] + (ks[i..j] + ks[j..]);
    FeedConcat(INIT, ks[..i], ks[i..j] + ks[j..], start);
    FeedConcat(INIT, ks[..i], middle + ks[j..], start);
    var w := FeedAll(INIT, ks[..i], start);
    FeedConcat(w, ks[i..j], ks[j..], start + i);
    FeedConcat(w, middle, ks[j..], start + i);
    WalkedTo(ks, start, i);
    FencedWalker(ks, start, i);
    forall k | 0 <= k < |ks[i..j]| ensures ks[i..j][k] != Fence(FenceAt(ks, i)) {
      assert ks[i..j][k] == KindOf(lines[p..q][k]);
    }
    FencedLines(w, ks[i..j], start + i);
    FencedLines(w, middle, start + i);
    AlikeSelf(w);
    AlikeAll(w, w, ks[j..], start + i + |middle|, start + j);
  }

  lemma FencedKinds(lines: seq<string>, start: nat, end: nat, p: nat, q: nat, put: seq<string>)
    requires start <= p <= q <= end <= |lines|
    ensures var lines', end', ks := lines[..p] + put + lines[q..], end - (q - p) + |put|, Kinds(lines[start..end]);
            start <= end' <= |lines'| && Kinds(lines'[start..end']) == ks[..p - start] + (Kinds(put) + ks[q - start..])
  {
    hide KindOf;
    var lines' := lines[..p] + put + lines[q..];
    assert lines'[start..end - (q - p) + |put|] == lines[start..end][..p - start] + put + lines[start..end][q - start..];
  }

  lemma AlikeSelf(w: Walker)
    ensures Alike(w, w)
  {
    hide RowCells;
  }

  lemma FencedWalker(ks: seq<Kind>, at: nat, i: nat)
    requires i <= |ks| && FenceAt(ks, i) != ""
    ensures WalkerAt(ks, at, i).phase == Stop || WalkerAt(ks, at, i).fence == FenceAt(ks, i)
  {
    hide TableBefore;
  }
}
