/** Writing rows back (internal/plan: recordCell's splice, appendTableCell, Finding.row): what each writer
    does to a line, and what the readers then see in it. */
module Rows {
  import opened Text
  import opened Cells

  /** A line the scanners take as a row that can hold a cell: it opens with a pipe and is not that pipe alone. */
  predicate IsRow(line: string) {
    HasPrefix(Trim(line), "|") && Trim(line) != "|"
  }

  // ---------------------------------------------------------------- the frame around the cells

  /** `inner` can stand between the outer pipes: when no pipe closes the row, its own last character has to. */
  predicate Fits(inner: string, close: string) {
    close == "|" || (close == "" && inner != "" && inner[|inner| - 1] != '|' && !IsSpace(inner[|inner| - 1]))
  }

  ghost predicate Framed(line: string, pre: string, inner: string, close: string, post: string) {
    AllSpace(pre) && AllSpace(post) && Fits(inner, close) && line == pre + ("|" + inner + close) + post
  }

  lemma Frame(line: string) returns (pre: string, close: string, post: string)
    requires IsRow(line)
    ensures Framed(line, pre, Inner(Trim(line)), close, post)
    ensures |pre| == Lead(line) && Base(line) == |pre| + 1
  {
    hide Trim, IsSpace, Spaces, Lead, Last;
    var a, b := TrimShape(line);
    pre, post := a, b;
    var t := Trim(line);
    if HasSuffix(t, "|") {
      close := "|";
      var u := TrimSuffix(t, "|");
      assert t == u + "|";
      assert u[0] == '|';
      assert u == "|" + u[1..];
      assert Inner(t) == u[1..];
    } else {
      close := "";
      assert t[|t| - 1..] == [t[|t| - 1]];
      assert Inner(t) == t[1..];
      assert t == "|" + t[1..] + "";
    }
  }

  lemma Reframe(line: string, pre: string, inner: string, close: string, post: string)
    requires Framed(line, pre, inner, close, post)
    ensures IsRow(line) && Inner(Trim(line)) == inner && Trim(line) == "|" + inner + close
  {
    var t := "|" + inner + close;
    assert t[0] == '|';
    if close == "|" {
      assert t[|t| - 1] == '|';
    } else {
      assert t[|t| - 1] == inner[|inner| - 1];
    }
    Printable('|');
    TrimIs(pre, t, post);
    if close == "|" {
      assert t[|t| - 1..] == "|";
      assert TrimSuffix(t, "|") == "|" + inner;
    } else {
      assert t[|t| - 1..] == [inner[|inner| - 1]];
      assert TrimSuffix(t, "|") == "|" + inner;
    }
    assert ("|" + inner)[1..] == inner;
  }

  // ---------------------------------------------------------------- one cell

  /** A value that can be written into a cell as it stands: it is not empty, and holds no pipe, no backslash
      and no white space. Every recorded digest, mode and run slug is one. */
  predicate Token(v: string) {
    v != "" && forall i | 0 <= i < |v| :: v[i] != '|' && v[i] != '\\' && !IsSpace(v[i])
  }

  /** The raw text of a cell once `value` is recorded in it: the value takes the place of the old content and
      keeps its spacing; an all-blank cell frames it in one space; a cell of no width is the value. */
  function Recorded(raw: string, value: string): string {
    if Trim(raw) == "" then (if raw == "" then value else " " + value + " ")
    else raw[..Lead(raw)] + value + raw[Last(raw)..]
  }

  lemma SpacesPlain(s: string)
    requires AllSpace(s)
    ensures Plain(s)
  {
    Printable('|');
    Printable('\\');
    forall i | 0 <= i < |s| ensures s[i] != '|' && s[i] != '\\' {
      assert IsSpace(s[i]);
    }
  }

  lemma PaddedReads(pre: string, value: string, post: string)
    requires AllSpace(pre) && AllSpace(post) && Token(value)
    ensures var raw := pre + value + post;
            Closed(raw) && !Dangling(raw) && Read(raw) == value && Trim(raw) == value &&
            Lead(raw) == |pre| && Last(raw) == |pre| + |value|
  {
    var raw := pre + value + post;
    SpacesPlain(pre);
    SpacesPlain(post);
    forall i | 0 <= i < |raw| ensures raw[i] != '|' && raw[i] != '\\' {
      assert raw[i] == if i < |pre| then pre[i] else if i < |pre| + |value| then value[i - |pre|] else post[i - |pre| - |value|];
    }
    PlainReads(raw);
    TrimIs(pre, value, post);
  }

  /** How `Recorded` pads: the spacing is white space, so the value reads back. */
  lemma RecordedShape(raw: string, value: string) returns (pre: string, post: string)
    requires Token(value)
    ensures AllSpace(pre) && AllSpace(post) && Recorded(raw, value) == pre + value + post
    ensures Trim(raw) != "" ==> pre == raw[..Lead(raw)] && post == raw[Last(raw)..]
    ensures Trim(raw) == "" ==> pre == post == if raw == "" then "" else " "
  {
    if Trim(raw) != "" {
      pre, post := TrimShape(raw);
    } else if raw == "" {
      pre, post := "", "";
      assert "" + value + "" == value;
    } else {
      Blank(' ');
      pre, post := " ", " ";
    }
  }

  lemma RecordedReads(raw: string, value: string)
    requires Token(value)
    ensures Closed(Recorded(raw, value)) && !Dangling(Recorded(raw, value)) && Read(Recorded(raw, value)) == value
  {
    var pre, post := RecordedShape(raw, value);
    PaddedReads(pre, value, post);
  }

  /** Recording over a recording keeps only the second value; recording the value that is there changes nothing. */
  lemma RecordedTwice(raw: string, v: string, w: string)
    requires Token(v) && Token(w)
    ensures Recorded(Recorded(raw, v), w) == Recorded(raw, w)
  {
    hide IsSpace, Spaces, Recorded, LeadFrom, LastTo, Trim;
    var pre, post := RecordedShape(raw, v);
    var pre', post' := RecordedShape(raw, w);
    PaddedReads(pre, v, post);
    RecordedOver(pre, v, post, w);
  }

  lemma RecordedOver(pre: string, v: string, post: string, w: string)
    requires var r := pre + v + post; Trim(r) == v != "" && Lead(r) == |pre| && Last(r) == |pre| + |v|
    ensures Recorded(pre + v + post, w) == pre + w + post
  {
    hide Trim;
    var r := pre + v + post;
    assert r[..|pre|] == pre && r[|pre| + |v|..] == post;
  }

  lemma RecordedSame(raw: string, value: string)
    requires Token(value) && Trim(raw) == value
    ensures Recorded(raw, value) == raw
  {
    var a, b := TrimShape(raw);
  }

  // ---------------------------------------------------------------- splicing one cell of a line

  lemma Regroup(pre: string, open: string, inner: string, close: string, post: string)
    ensures pre + (open + inner + close) + post == (pre + open) + inner + (close + post)
  {}

  lemma MidSlice(a: string, b: string, c: string, at: nat, len: nat)
    requires at + len <= |b|
    ensures |a| + at + len <= |a + b + c|
    ensures (a + b + c)[|a| + at..|a| + at + len] == b[at..at + len]
  {}

  lemma MidSplice(a: string, b: string, c: string, at: nat, len: nat, x: string)
    requires at + len <= |b|
    ensures (a + b + c)[..|a| + at] + x + (a + b + c)[|a| + at + len..] == a + (b[..at] + x + b[at + len..]) + c
  {
    var s := a + b + c;
    assert s[..|a| + at] == a + b[..at];
    assert s[|a| + at + len..] == b[at + len..] + c;
  }

  /** Whether the span of cell `i` lies in the line. */
  predicate HasCell(line: string, i: nat) {
    i < |RawCells(line)| && CellStart(line, i) + |RawCells(line)[i]| <= |line|
  }

  /** The line with the raw text of cell `i` exchanged and every other character where it was. */
  function Exchange(line: string, i: nat, raw: string): string
    requires HasCell(line, i)
  {
    line[..CellStart(line, i)] + raw + line[CellStart(line, i) + |RawCells(line)[i]|..]
  }

  /** A cell of the inner text, and the inner text once that cell is exchanged. */
  lemma InnerSplice(inner: string, raws: seq<string>, i: nat, at: nat, end: nat, raw: string, inner': string)
    requires raws == Cut(inner) && i < |raws| && at == PartStart(raws, "|", i) && end == at + |raws[i]|
    requires inner' == Join(raws[i := raw], "|")
    ensures end <= |inner| && inner[at..end] == raws[i] && inner' == inner[..at] + raw + inner[end..]
  {
    hide Cut, PartStart, Join;
    CutProper(inner);
    JoinUpdate(raws, "|", i, raw);
  }

  lemma CellInLine(line: string, i: nat)
    requires IsRow(line) && i < |RawCells(line)|
    ensures HasCell(line, i) && 1 <= CellStart(line, i)
    ensures line[CellStart(line, i)..CellStart(line, i) + |RawCells(line)[i]|] == RawCells(line)[i]
  {
    var pre, close, post := Frame(line);
    SliceInFrame(line, pre, Inner(Trim(line)), close, post, i);
  }

  lemma SliceInFrame(line: string, pre: string, inner: string, close: string, post: string, i: nat)
    requires i < |Cut(inner)| && line == pre + ("|" + inner + close) + post
    ensures var at, was := |pre| + 1 + PartStart(Cut(inner), "|", i), Cut(inner)[i];
            at + |was| <= |line| && line[at..at + |was|] == was
  {
    hide Cut, PartStart, Join;
    var at, was := PartStart(Cut(inner), "|", i), Cut(inner)[i];
    InnerSplice(inner, Cut(inner), i, at, at + |was|, "", Join(Cut(inner)[i := ""], "|"));
    Regroup(pre, "|", inner, close, post);
    MidSlice(pre + "|", inner, close + post, at, |was|);
  }

  lemma FrameSplice(line: string, pre: string, inner: string, close: string, post: string,
                    at: nat, end: nat, start: nat, stop: nat, raw: string, inner': string)
    requires at <= end <= |inner| && line == pre + ("|" + inner + close) + post
    requires start == |pre| + 1 + at && stop == |pre| + 1 + end
    requires inner' == inner[..at] + raw + inner[end..]
    ensures stop <= |line|
    ensures line[..start] + raw + line[stop..] == pre + ("|" + inner' + close) + post
  {
    var head, tail := pre + "|", close + post;
    assert |head| == |pre| + 1;
    Regroup(pre, "|", inner, close, post);
    Regroup(pre, "|", inner', close, post);
    MidSplice(head, inner, tail, at, end - at, raw);
  }

  lemma SpliceInFrame(line: string, pre: string, inner: string, close: string, post: string,
                      raws: seq<string>, i: nat, start: nat, raw: string, inner': string)
    requires raws == Cut(inner) && i < |raws| && start == |pre| + 1 + PartStart(raws, "|", i)
    requires line == pre + ("|" + inner + close) + post && inner' == Join(raws[i := raw], "|")
    ensures start + |raws[i]| <= |line|
    ensures line[..start] + raw + line[start + |raws[i]|..] == pre + ("|" + inner' + close) + post
  {
    var at := PartStart(raws, "|", i);
    var end := at + |raws[i]|;
    InnerSplice(inner, raws, i, at, end, raw, inner');
    FrameSplice(line, pre, inner, close, post, at, end, start, start + |raws[i]|, raw, inner');
  }

  /** `raw` may stand as cell `i`: it cuts nothing, and as the last cell of a row no pipe closes it has to end
      in a character of its own. */
  predicate MayStand(line: string, i: nat, raw: string) {
    && Closed(raw) && !Dangling(raw) && raw != "" && raw[|raw| - 1] != '|'
    && (IsSpace(raw[|raw| - 1]) ==> HasSuffix(Trim(line), "|") || i + 1 < |RawCells(line)|)
  }

  lemma ProperUpdate(cs: seq<string>, i: nat, raw: string)
    requires i < |cs| && Proper(cs) && Closed(raw) && !Dangling(raw)
    ensures Proper(cs[i := raw])
  {}

  lemma ExchangeJoin(inner: string, i: nat, raw: string)
    requires i < |Cut(inner)| && Closed(raw) && !Dangling(raw)
    ensures Cut(Join(Cut(inner)[i := raw], "|")) == Cut(inner)[i := raw]
  {
    CutProper(inner);
    ProperUpdate(Cut(inner), i, raw);
    CutJoin(Cut(inner)[i := raw]);
  }

  lemma ExchangeText(line: string, i: nat, raw: string, pre: string, close: string, post: string)
    requires i < |RawCells(line)| && |pre| + 1 == Base(line)
    requires line == pre + ("|" + Inner(Trim(line)) + close) + post
    ensures HasCell(line, i)
    ensures Exchange(line, i, raw) == pre + ("|" + Join(RawCells(line)[i := raw], "|") + close) + post
  {
    hide Trim, Inner, PartStart, Join, Cut;
    SpliceInFrame(line, pre, Inner(Trim(line)), close, post, RawCells(line), i, CellStart(line, i), raw,
                  Join(RawCells(line)[i := raw], "|"));
  }

  /** Exchanging one cell changes that cell and no other. */
  lemma ExchangeReads(line: string, i: nat, raw: string)
    requires IsRow(line) && i < |RawCells(line)| && MayStand(line, i, raw)
    ensures HasCell(line, i)
    ensures IsRow(Exchange(line, i, raw)) && RawCells(Exchange(line, i, raw)) == RawCells(line)[i := raw]
    ensures Base(Exchange(line, i, raw)) == Base(line)
    ensures HasSuffix(Trim(Exchange(line, i, raw)), "|") == HasSuffix(Trim(line), "|")
  {
    var pre, close, post := Frame(line);
    ExchangeText(line, i, raw, pre, close, post);
    FrameEdges(line, pre, Inner(Trim(line)), close, post);
    ExchangeFits(line, i, raw, close);
    ExchangeJoin(Inner(Trim(line)), i, raw);
    var inner' := Join(RawCells(line)[i := raw], "|");
    Reframe(Exchange(line, i, raw), pre, inner', close, post);
    FrameEdges(Exchange(line, i, raw), pre, inner', close, post);
  }

  lemma FrameEdges(line: string, pre: string, inner: string, close: string, post: string)
    requires Framed(line, pre, inner, close, post)
    ensures Base(line) == |pre| + 1 && (HasSuffix(Trim(line), "|") <==> close == "|")
  {
    Reframe(line, pre, inner, close, post);
    var t := "|" + inner + close;
    TrimTwice(line);
    TrimIs(pre, t, post);
    assert t[|t| - 1..] == [t[|t| - 1]];
    if close == "" {
      assert t[|t| - 1] == inner[|inner| - 1];
    }
    var u := TrimSuffix(t, "|");
    assert u == "|" + inner;
  }

  lemma ExchangeFits(line: string, i: nat, raw: string, close: string)
    requires IsRow(line) && i < |RawCells(line)| && MayStand(line, i, raw)
    requires Fits(Inner(Trim(line)), close) && (close == "" ==> !HasSuffix(Trim(line), "|"))
    ensures Fits(Join(RawCells(line)[i := raw], "|"), close)
  {
    var raws := RawCells(line);
    CutProper(Inner(Trim(line)));
    if close == "" {
      if i + 1 < |raws| {
        LastPart(raws, raws[i := raw]);
      } else {
        JoinEnd(raws[i := raw], "|");
      }
    }
  }

  /** A joined text ends as its last part does. */
  lemma {:induction false} JoinEnd(ls: seq<string>, sep: string)
    requires ls != [] && ls[|ls| - 1] != ""
    ensures Join(ls, sep) != "" && Join(ls, sep)[|Join(ls, sep)| - 1] == ls[|ls| - 1][|ls[|ls| - 1]| - 1]
  {
    if |ls| > 1 {
      JoinEnd(ls[1..], sep);
    }
  }

  lemma {:induction false} JoinEmptyEnd(ls: seq<string>)
    requires |ls| > 1 && ls[|ls| - 1] == ""
    ensures Join(ls, "|") != "" && Join(ls, "|")[|Join(ls, "|")| - 1] == '|'
  {
    if |ls| > 2 {
      JoinEmptyEnd(ls[1..]);
    } else {
      assert Join(ls, "|") == ls[0] + "|" + ls[1..][0];
    }
  }

  lemma LastPart(a: seq<string>, b: seq<string>)
    requires |a| == |b| > 1 && a[|a| - 1] == b[|b| - 1]
    ensures Fits(Join(a, "|"), "") == Fits(Join(b, "|"), "")
  {
    if a[|a| - 1] == "" {
      JoinEmptyEnd(a);
      JoinEmptyEnd(b);
    } else {
      JoinEnd(a, "|");
      JoinEnd(b, "|");
    }
  }

  // ---------------------------------------------------------------- recording a value in a row

  /** The line once `value` is recorded in cell `i` (the splice of `recordCell`). */
  function RecordIn(line: string, i: nat, value: string): string
    requires HasCell(line, i)
  {
    Exchange(line, i, Recorded(RawCells(line)[i], value))
  }

  lemma RecordedStands(line: string, i: nat, value: string)
    requires IsRow(line) && i < |RawCells(line)| && Token(value)
    ensures MayStand(line, i, Recorded(RawCells(line)[i], value))
  {
    hide Recorded, RawCells, Trim, IsRow, IsSpace, Spaces;
    var raw := RawCells(line)[i];
    RecordedReads(raw, value);
    var pre, post := RecordedShape(raw, value);
    if i + 1 == |RawCells(line)| && !HasSuffix(Trim(line), "|") {
      OpenEnd(line);
      NoTrail(raw);
    }
    RecordedEnd(pre, value, post);
  }

  lemma NoTrail(raw: string)
    requires raw != "" && !IsSpace(raw[|raw| - 1])
    ensures Trim(raw) != "" && Last(raw) == |raw|
  {
    hide IsSpace, LeadFrom;
    TrimEmptyIff(raw);
    assert !AllSpace(raw);
  }

  /** What is recorded ends in no pipe, and in a space only if it is padded. */
  lemma RecordedEnd(pre: string, value: string, post: string)
    requires Token(value) && AllSpace(post)
    ensures var s := pre + value + post;
            s != "" && s[|s| - 1] != '|' && (post == "" ==> !IsSpace(s[|s| - 1]))
  {
    Printable('|');
    var s := pre + value + post;
    if post == "" {
      assert s[|s| - 1] == value[|value| - 1];
    } else {
      assert s[|s| - 1] == post[|post| - 1];
    }
  }

  /** A row no pipe closes ends in a character of its last cell. */
  lemma OpenEnd(line: string)
    requires IsRow(line) && !HasSuffix(Trim(line), "|")
    ensures var last := RawCells(line)[|RawCells(line)| - 1]; last != "" && !IsSpace(last[|last| - 1])
  {
    var pre, close, post := Frame(line);
    var inner := Inner(Trim(line));
    FrameEdges(line, pre, inner, close, post);
    CutProper(inner);
    var raws := Cut(inner);
    if raws[|raws| - 1] == "" {
      if |raws| > 1 {
        JoinEmptyEnd(raws);
      }
    } else {
      JoinEnd(raws, "|");
    }
  }

  /** A recorded row reads back with that one cell changed. */
  lemma RecordReads(line: string, i: nat, value: string)
    requires IsRow(line) && i < |RawCells(line)| && Token(value)
    ensures HasCell(line, i) && IsRow(RecordIn(line, i, value))
    ensures RawCells(RecordIn(line, i, value)) == RawCells(line)[i := Recorded(RawCells(line)[i], value)]
    ensures CellsOf(RecordIn(line, i, value)) == CellsOf(line)[i := value]
  {
    hide Trim, IsRow, Recorded, MayStand, Exchange, HasCell, Token;
    RecordedStands(line, i, value);
    ExchangeReads(line, i, Recorded(RawCells(line)[i], value));
    RecordedReads(RawCells(line)[i], value);
  }

  lemma ExchangeTwice(line: string, i: nat, a: string, b: string)
    requires IsRow(line) && i < |RawCells(line)| && MayStand(line, i, a) && MayStand(line, i, b)
    ensures HasCell(line, i) && HasCell(Exchange(line, i, a), i)
    ensures Exchange(Exchange(line, i, a), i, b) == Exchange(line, i, b)
  {
    hide IsRow, RawCells, Exchange, MayStand, Inner, Trim, HasCell;
    var pre, close, post := Frame(line);
    ExchangeAgain(line, pre, close, post, i, a, i, b);
    ExchangeText(line, i, b, pre, close, post);
    assert RawCells(line)[i := a][i := b] == RawCells(line)[i := b];
  }

  lemma ExchangeSwap(line: string, i: nat, a: string, j: nat, b: string)
    requires IsRow(line) && i < |RawCells(line)| && j < |RawCells(line)| && i != j
    requires MayStand(line, i, a) && MayStand(line, j, b)
    ensures HasCell(line, i) && HasCell(Exchange(line, i, a), j)
    ensures HasCell(line, j) && HasCell(Exchange(line, j, b), i)
    ensures Exchange(Exchange(line, i, a), j, b) == Exchange(Exchange(line, j, b), i, a)
  {
    hide IsRow, RawCells, Exchange, MayStand, Framed, Inner, Trim, HasCell;
    var pre, close, post := Frame(line);
    ExchangeAgain(line, pre, close, post, i, a, j, b);
    ExchangeAgain(line, pre, close, post, j, b, i, a);
    assert RawCells(line)[i := a][j := b] == RawCells(line)[j := b][i := a];
  }

  lemma ExchangeAgain(line: string, pre: string, close: string, post: string, i: nat, a: string, j: nat, b: string)
    requires IsRow(line) && i < |RawCells(line)| && j < |RawCells(line)|
    requires MayStand(line, i, a) && MayStand(line, j, b)
    requires Framed(line, pre, Inner(Trim(line)), close, post)
    ensures HasCell(line, i) && HasCell(Exchange(line, i, a), j)
    ensures Exchange(Exchange(line, i, a), j, b) ==
            pre + ("|" + Join(RawCells(line)[i := a][j := b], "|") + close) + post
  {
    ExchangeReads(line, i, a);
    FrameEdges(line, pre, Inner(Trim(line)), close, post);
    ExchangeText(line, i, a, pre, close, post);
    ExchangeFits(line, i, a, close);
    var line' := Exchange(line, i, a);
    Reframe(line', pre, Join(RawCells(line)[i := a], "|"), close, post);
    ExchangeText(line', j, b, pre, close, post);
  }

  /** A later value wins over an earlier one. */
  lemma RecordTwice(line: string, i: nat, v: string, w: string)
    requires IsRow(line) && i < |RawCells(line)| && Token(v) && Token(w)
    ensures HasCell(line, i) && HasCell(RecordIn(line, i, v), i)
    ensures RecordIn(RecordIn(line, i, v), i, w) == RecordIn(line, i, w)
  {
    RecordReads(line, i, v);
    RecordedStands(line, i, v);
    RecordedStands(line, i, w);
    RecordedTwice(RawCells(line)[i], v, w);
    ExchangeTwice(line, i, Recorded(RawCells(line)[i], v), Recorded(RawCells(line)[i], w));
  }

  /** Two columns are recorded in any order. */
  lemma RecordSwap(line: string, i: nat, v: string, j: nat, w: string)
    requires IsRow(line) && i < |RawCells(line)| && j < |RawCells(line)| && i != j && Token(v) && Token(w)
    ensures HasCell(line, i) && HasCell(RecordIn(line, i, v), j)
    ensures HasCell(line, j) && HasCell(RecordIn(line, j, w), i)
    ensures RecordIn(RecordIn(line, i, v), j, w) == RecordIn(RecordIn(line, j, w), i, v)
  {
    RecordReads(line, i, v);
    RecordReads(line, j, w);
    RecordedStands(line, i, v);
    RecordedStands(line, j, w);
    ExchangeSwap(line, i, Recorded(RawCells(line)[i], v), j, Recorded(RawCells(line)[j], w));
  }

  /** Writing the value a cell already holds leaves the line as it is. */
  lemma RecordSame(line: string, i: nat, value: string)
    requires IsRow(line) && i < |RawCells(line)| && Token(value) && Trim(RawCells(line)[i]) == value
    ensures HasCell(line, i) && RecordIn(line, i, value) == line
  {
    CellInLine(line, i);
    RecordedSame(RawCells(line)[i], value);
    Resplice(line, CellStart(line, i), CellStart(line, i) + |RawCells(line)[i]|);
  }

  lemma Resplice(s: string, a: nat, b: nat)
    requires a <= b <= |s|
    ensures s[..a] + s[a..b] + s[b..] == s
  {}

  // ---------------------------------------------------------------- appending a cell

  /** The length of line[..n] without trailing spaces, tabs and carriage returns. */
  function StripTo(line: string, n: nat): (r: nat)
    requires n <= |line|
    ensures r <= n && (r > 0 ==> line[r - 1] !in " \t\r")
    ensures forall i | r <= i < n :: line[i] in " \t\r"
  {
    if n > 0 && line[n - 1] in " \t\r" then StripTo(line, n - 1) else n
  }

  function AppendCell(line: string, value: string, separator: bool): string {
    var n := StripTo(line, |line|);
    line[..n] + (if separator then "---|" else " " + value + " |") + line[n..]
  }

  /** `appendTableCell`. */
  method AppendTableCell(line: string, value: string, separator: bool) returns (r: string)
    ensures r == AppendCell(line, value, separator)
  {
    var end := |line|;
    while end > 0 && line[end - 1] in " \t\r"
      invariant 0 <= end <= |line| && StripTo(line, end) == StripTo(line, |line|)
    {
      end := end - 1;
    }
    if separator {
      return line[..end] + "---|" + line[end..];
    }
    return line[..end] + " " + value + " |" + line[end..];
  }

  /** The row ends in a pipe of its own: not the one that opens it, not escaped, and followed by nothing but
      spaces, tabs and carriage returns. */
  predicate EndsClosed(line: string) {
    var a, n := Lead(line), StripTo(line, |line|);
    a + 2 <= n && line[a] == '|' && line[n - 1] == '|' && !Dangling(line[a + 1..n - 1])
  }

  lemma StrippedSpaces(line: string)
    ensures AllSpace(line[StripTo(line, |line|)..])
  {
    hide IsSpace, StripTo;
    var n := StripTo(line, |line|);
    var post := line[n..];
    forall i | 0 <= i < |post| ensures IsSpace(post[i]) {
      assert post[i] == line[n + i];
      Blank(post[i]);
    }
  }

  lemma FourParts(line: string, a: nat, n: nat)
    requires a + 2 <= n <= |line| && line[a] == '|' && line[n - 1] == '|'
    ensures line[..n] == line[..a] + "|" + line[a + 1..n - 1] + "|"
    ensures line == line[..a] + ("|" + line[a + 1..n - 1] + "|") + line[n..]
  {}

  /** A row that ends closed, taken apart at its last pipe. */
  lemma ClosedFrame(line: string) returns (pre: string, inner: string, post: string)
    requires EndsClosed(line)
    ensures Framed(line, pre, inner, "|", post) && inner == Inner(Trim(line)) && !Dangling(inner)
    ensures line[..StripTo(line, |line|)] == pre + "|" + inner + "|" && line[StripTo(line, |line|)..] == post
  {
    var a, n := Lead(line), StripTo(line, |line|);
    pre, inner, post := line[..a], line[a + 1..n - 1], line[n..];
    FourParts(line, a, n);
    StrippedSpaces(line);
    assert Spaces(pre, 0, |pre|);
    Reframe(line, pre, inner, "|", post);
  }

  lemma Regroup2(pre: string, o: string, inner: string, raw: string, post: string)
    ensures (pre + o + inner + o) + (raw + o) + post == pre + (o + (inner + o + raw) + o) + post
  {}

  function AppendedRaw(value: string, separator: bool): string {
    if separator then "---" else " " + value + " "
  }

  lemma AppendedFrame(line: string, value: string, separator: bool, pre: string, inner: string, post: string)
    requires line[..StripTo(line, |line|)] == pre + "|" + inner + "|" && line[StripTo(line, |line|)..] == post
    ensures AppendCell(line, value, separator) ==
            pre + ("|" + (inner + "|" + AppendedRaw(value, separator)) + "|") + post
  {
    var raw := AppendedRaw(value, separator);
    var more := if separator then "---|" else " " + value + " |";
    assert more == raw + "|";
    Regroup2(pre, "|", inner, raw, post);
  }

  lemma AppendedReads(value: string, separator: bool)
    requires Plain(value)
    ensures var raw := AppendedRaw(value, separator);
            Closed(raw) && !Dangling(raw) && Read(raw) == if separator then "---" else Trim(value)
  {
    var raw := AppendedRaw(value, separator);
    PlainReads(raw);
    if separator {
      Printable('-');
      TrimBare(raw);
    } else {
      Blank(' ');
      TrimPadded(" ", value, " ");
    }
  }

  lemma AppendedCells(inner: string, value: string, separator: bool)
    requires !Dangling(inner) && Plain(value)
    ensures var inner' := inner + "|" + AppendedRaw(value, separator);
            !Dangling(inner') &&
            ReadAll(Cut(inner')) == ReadAll(Cut(inner)) + [if separator then "---" else Trim(value)]
  {
    var raw := AppendedRaw(value, separator);
    AppendedReads(value, separator);
    CutConcat(inner, raw);
    assert ReadAll(Cut(inner) + [raw]) == ReadAll(Cut(inner)) + [Read(raw)];
  }

  /** An appended cell reads back as one more cell at the end. */
  lemma AppendReads(line: string, value: string, separator: bool)
    requires EndsClosed(line) && Plain(value)
    ensures EndsClosed(AppendCell(line, value, separator)) && IsRow(AppendCell(line, value, separator))
    ensures CellsOf(AppendCell(line, value, separator)) == CellsOf(line) + [if separator then "---" else Trim(value)]
  {
    hide Trim, AppendCell, AppendedRaw, EndsClosed, Dangling, Plain;
    var pre, inner, post := ClosedFrame(line);
    var line' := AppendCell(line, value, separator);
    var inner' := inner + "|" + AppendedRaw(value, separator);
    AppendedFrame(line, value, separator, pre, inner, post);
    AppendedCells(inner, value, separator);
    Reframe(line', pre, inner', "|", post);
    AppendedEnd(line', pre, inner', post);
  }

  lemma AppendedEnd(line: string, pre: string, inner: string, post: string)
    requires line == pre + ("|" + inner + "|") + post && AllSpace(pre) && AllSpace(post) && !Dangling(inner)
    requires forall i | 0 <= i < |post| :: post[i] in " \t\r"
    ensures EndsClosed(line)
  {
    var a, n := |pre|, |pre| + |inner| + 2;
    Printable('|');
    SpacesConcat(pre, "|" + inner + "|", post);
    LeadFrame(line, pre, "|" + inner + "|", post);
    assert line[n - 1] == '|';
    StripIs(line, n);
    assert line[a + 1..n - 1] == inner;
  }

  lemma LeadFrame(line: string, pre: string, t: string, post: string)
    requires line == pre + t + post && AllSpace(pre) && AllSpace(post) && Bare(t) && t != ""
    ensures Lead(line) == |pre|
  {
    TrimIs(pre, t, post);
  }

  lemma StripIs(line: string, n: nat)
    requires 0 < n <= |line| && line[n - 1] !in " \t\r"
    requires forall i | n <= i < |line| :: line[i] in " \t\r"
    ensures StripTo(line, |line|) == n
  {}
}
