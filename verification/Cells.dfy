/** Markdown table rows (internal/plan/plan.go: split, cellSpan, isSeparator; upgrade.go: appendTableCell).
    `Cut` is the one account of where a row is cut; the two scanners of the source are proved against it. */
module Cells {
  import opened Text

  // ---------------------------------------------------------------- where a row is cut

  /** The cells cut so far, the raw text of the open one, and whether a backslash is pending. */
  datatype Cutter = Cutter(done: seq<string>, cur: string, escaped: bool)

  const START := Cutter([], "", false)

  function Feed(k: Cutter, c: char): Cutter {
    if k.escaped then Cutter(k.done, k.cur + [c], false)
    else if c == '\\' then Cutter(k.done, k.cur + [c], true)
    else if c == '|' then Cutter(k.done + [k.cur], "", false)
    else Cutter(k.done, k.cur + [c], false)
  }

  function Run(k: Cutter, s: string): Cutter
    decreases |s|
  {
    if s == "" then k else Run(Feed(k, s[0]), s[1..])
  }

  /** The raw cells: the text cut at every pipe no backslash escapes. */
  function Cut(s: string): (cs: seq<string>)
    ensures |cs| >= 1
  {
    var k := Run(START, s);
    k.done + [k.cur]
  }

  /** The text ends in a backslash that escapes nothing yet. */
  predicate Dangling(s: string) {
    Run(START, s).escaped
  }

  /** One raw cell: nothing in it cuts. */
  predicate Closed(c: string) {
    Cut(c) == [c]
  }

  lemma {:induction false} RunConcat(k: Cutter, a: string, b: string)
    ensures Run(k, a + b) == Run(Run(k, a), b)
    decreases |a|
  {
    if a == "" {
      assert a + b == b;
    } else {
      RunConcat(Feed(k, a[0]), a[1..], b);
      assert (a + b)[1..] == a[1..] + b;
    }
  }

  lemma RunSnoc(k: Cutter, s: string, c: char)
    ensures Run(k, s + [c]) == Feed(Run(k, s), c)
  {
    RunConcat(k, s, [c]);
    assert Run(Run(k, s), [c]) == Run(Feed(Run(k, s), c), [c][1..]);
  }

  lemma RunNext(s: string, j: nat)
    requires j < |s|
    ensures Run(START, s[..j + 1]) == Feed(Run(START, s[..j]), s[j])
  {
    assert s[..j + 1] == s[..j] + [s[j]];
    RunSnoc(START, s[..j], s[j]);
  }

  /** What was cut before never changes what is cut next. */
  lemma {:induction false} RunLift(d: seq<string>, k: Cutter, s: string)
    ensures Run(k.(done := d + k.done), s) == Run(k, s).(done := d + Run(k, s).done)
    decreases |s|
  {
    if s != "" {
      var k' := Feed(k, s[0]);
      assert d + (k.done + [k.cur]) == (d + k.done) + [k.cur];
      assert Feed(k.(done := d + k.done), s[0]) == k'.(done := d + k'.done);
      RunLift(d, k', s[1..]);
    }
  }

  lemma CutConcat(a: string, b: string)
    requires !Dangling(a)
    ensures Cut(a + "|" + b) == Cut(a) + Cut(b)
    ensures Dangling(a + "|" + b) == Dangling(b)
  {
    var k := Run(START, a);
    RunSnoc(START, a, '|');
    RunConcat(START, a + "|", b);
    RunLift(Cut(a), START, b);
    assert START.(done := Cut(a) + START.done) == Feed(k, '|');
    var r := Run(START, b);
    assert Cut(a) + r.done + [r.cur] == Cut(a) + (r.done + [r.cur]);
  }

  /** Every raw cell is closed, and only the last one may leave a backslash open. */
  predicate Proper(cs: seq<string>) {
    && (forall i | 0 <= i < |cs| :: Closed(cs[i]))
    && (forall i | 0 <= i < |cs| - 1 :: !Dangling(cs[i]))
  }

  /** The cells a cutter holds, cut from the text it has read. */
  ghost predicate Sound(k: Cutter, s: string) {
    && Run(START, k.cur) == Cutter([], k.cur, k.escaped)
    && (forall i | 0 <= i < |k.done| :: Run(START, k.done[i]) == Cutter([], k.done[i], false))
    && Join(k.done + [k.cur], "|") == s
  }

  lemma {:induction false} JoinLast(cs: seq<string>, sep: string, c: string, more: string)
    ensures Join(cs + [c + more], sep) == Join(cs + [c], sep) + more
    ensures Join(cs + [c, more], sep) == Join(cs + [c], sep) + sep + more
    decreases |cs|
  {
    if cs != [] {
      JoinLast(cs[1..], sep, c, more);
      assert (cs + [c + more])[1..] == cs[1..] + [c + more];
      assert (cs + [c, more])[1..] == cs[1..] + [c, more];
      assert (cs + [c])[1..] == cs[1..] + [c];
    }
  }

  lemma FeedSound(k: Cutter, s: string, c: char)
    requires Sound(k, s)
    ensures Sound(Feed(k, c), s + [c])
  {
    RunSnoc(START, k.cur, c);
    JoinLast(k.done, "|", k.cur, [c]);
    if !k.escaped && c == '|' {
      JoinLast(k.done, "|", k.cur, "");
      assert k.done + [k.cur] + [""] == k.done + [k.cur, ""];
      assert Join(k.done + [k.cur], "|") + "|" + "" == s + [c];
    }
  }

  lemma {:induction false} RunSound(k: Cutter, read: string, s: string)
    requires Sound(k, read)
    ensures Sound(Run(k, s), read + s)
    decreases |s|
  {
    if s == "" {
      assert read + s == read;
    } else {
      FeedSound(k, read, s[0]);
      RunSound(Feed(k, s[0]), read + [s[0]], s[1..]);
      assert read + [s[0]] + s[1..] == read + s;
    }
  }

  lemma CutProper(s: string)
    ensures Proper(Cut(s)) && Join(Cut(s), "|") == s
    ensures Dangling(s) == Dangling(Cut(s)[|Cut(s)| - 1])
  {
    assert START.done + [START.cur] == [""];
    RunSound(START, "", s);
    assert "" + s == s;
  }

  lemma {:induction false} CutJoin(cs: seq<string>)
    requires cs != [] && Proper(cs)
    ensures Cut(Join(cs, "|")) == cs
  {
    if |cs| > 1 {
      var tail := cs[1..];
      assert Proper(tail) by {
        forall i | 0 <= i < |tail| ensures Closed(tail[i]) && (i < |tail| - 1 ==> !Dangling(tail[i])) {
          assert tail[i] == cs[i + 1];
        }
      }
      CutJoin(tail);
      assert !Dangling(cs[0]) && Closed(cs[0]);
      CutConcat(cs[0], Join(tail, "|"));
    }
  }

  // ---------------------------------------------------------------- what a raw cell says

  datatype Reader = Reader(text: string, escaped: bool)

  function FeedRead(r: Reader, c: char): Reader {
    if r.escaped then Reader(r.text + (if c == '|' then "|" else ['\\', c]), false)
    else if c == '\\' then Reader(r.text, true)
    else Reader(r.text + [c], false)
  }

  function RunRead(r: Reader, s: string): Reader
    decreases |s|
  {
    if s == "" then r else RunRead(FeedRead(r, s[0]), s[1..])
  }

  /** An escaped pipe is a pipe; every other backslash stays. */
  function Unescape(s: string): string {
    var r := RunRead(Reader("", false), s);
    if r.escaped then r.text + "\\" else r.text
  }

  lemma {:induction false} RunReadConcat(r: Reader, a: string, b: string)
    ensures RunRead(r, a + b) == RunRead(RunRead(r, a), b)
    decreases |a|
  {
    if a == "" {
      assert a + b == b;
    } else {
      RunReadConcat(FeedRead(r, a[0]), a[1..], b);
      assert (a + b)[1..] == a[1..] + b;
    }
  }

  lemma RunReadSnoc(r: Reader, s: string, c: char)
    ensures RunRead(r, s + [c]) == FeedRead(RunRead(r, s), c)
  {
    RunReadConcat(r, s, [c]);
    assert RunRead(RunRead(r, s), [c]) == RunRead(FeedRead(RunRead(r, s), c), [c][1..]);
  }

  predicate Plain(s: string) {
    forall i | 0 <= i < |s| :: s[i] != '|' && s[i] != '\\'
  }

  lemma {:induction false} PlainRun(k: Cutter, r: Reader, s: string)
    requires Plain(s) && !k.escaped && !r.escaped
    ensures Run(k, s) == k.(cur := k.cur + s) && RunRead(r, s) == r.(text := r.text + s)
    decreases |s|
  {
    if s == "" {
      assert k.cur + s == k.cur && r.text + s == r.text;
    } else {
      PlainRun(Feed(k, s[0]), FeedRead(r, s[0]), s[1..]);
      assert k.cur + [s[0]] + s[1..] == k.cur + s;
      assert r.text + [s[0]] + s[1..] == r.text + s;
    }
  }

  lemma PlainReads(s: string)
    requires Plain(s)
    ensures Closed(s) && !Dangling(s) && Unescape(s) == s
  {
    PlainRun(START, Reader("", false), s);
    assert "" + s == s;
  }

  // ---------------------------------------------------------------- a row

  /** The text between the outer pipes: one pipe off the end, then one off the front. */
  function Inner(t: string): string {
    TrimPrefix(TrimSuffix(t, "|"), "|")
  }

  function RawCells(line: string): (cs: seq<string>)
    ensures |cs| >= 1
  {
    Cut(Inner(Trim(line)))
  }

  function Read(raw: string): string {
    Trim(Unescape(raw))
  }

  function ReadAll(raws: seq<string>): (cs: seq<string>)
    ensures |cs| == |raws|
    ensures forall i | 0 <= i < |raws| :: cs[i] == Read(raws[i])
  {
    seq(|raws|, i requires 0 <= i < |raws| => Read(raws[i]))
  }

  /** The cells of a row, as every reader of the plan sees them. */
  function CellsOf(line: string): (cs: seq<string>)
    ensures |cs| >= 1
  {
    ReadAll(RawCells(line))
  }

  /** `cell`: the trimmed cell, or the empty string when the row has no such column. */
  function Cell(row: seq<string>, i: int): string {
    if 0 <= i < |row| then Trim(row[i]) else ""
  }

  lemma RunNothing(r: Reader)
    ensures Run(START, "") == START && RunRead(r, "") == r
  {}

  /** `split`: one pass with an escape flag. */
  method Split(line: string) returns (parts: seq<string>)
    ensures parts == CellsOf(line)
  {
    hide Run, RunRead, Trim, TrimPrefix, TrimSuffix;
    var inner := TrimPrefix(TrimSuffix(Trim(line), "|"), "|");
    parts := [];
    var cur := "";
    var escaped := false;
    ghost var k := START;
    RunNothing(Reader("", false));
    for j := 0 to |inner|
      invariant k == Run(START, inner[..j])
      invariant parts == ReadAll(k.done)
      invariant Reader(cur, escaped) == RunRead(Reader("", false), k.cur)
      invariant escaped == k.escaped
    {
      var r := inner[j];
      RunNext(inner, j);
      RunReadSnoc(Reader("", false), k.cur, r);
      if escaped {
        if r != '|' {
          cur := cur + "\\";
        }
        cur := cur + [r];
        escaped := false;
      } else if r == '\\' {
        escaped := true;
      } else if r == '|' {
        parts := parts + [Trim(cur)];
        cur := "";
      } else {
        cur := cur + [r];
      }
      k := Feed(k, r);
    }
    assert inner[..|inner|] == inner;
    if escaped {
      cur := cur + "\\";
    }
    parts := parts + [Trim(cur)];
  }

  // ---------------------------------------------------------------- where a cell sits

  /** Where the inner text starts in the line. */
  function Base(line: string): nat {
    Lead(line) + if HasPrefix(TrimSuffix(Trim(line), "|"), "|") then 1 else 0
  }

  function CellStart(line: string, i: nat): nat
    requires i < |RawCells(line)|
  {
    Base(line) + PartStart(RawCells(line), "|", i)
  }

  datatype Span = Span(start: nat, end: nat) | NoSpan

  ghost predicate IsSpanOf(line: string, i: nat, span: Span) {
    if Trim(line) == "" || i >= |RawCells(line)| then span == NoSpan
    else span == Span(CellStart(line, i), CellStart(line, i) + |RawCells(line)[i]|)
  }

  lemma {:induction false} PartStartPrefix(a: seq<string>, b: seq<string>, sep: string, k: nat)
    requires k <= |a| && a <= b
    ensures PartStart(a, sep, k) == PartStart(b, sep, k)
  {
    if k > 0 {
      PartStartPrefix(a, b, sep, k - 1);
    }
  }

  lemma {:induction false} RunGrows(k: Cutter, s: string)
    ensures k.done <= Run(k, s).done
    decreases |s|
  {
    if s != "" {
      RunGrows(Feed(k, s[0]), s[1..]);
      assert k.done <= Feed(k, s[0]).done;
    }
  }

  /** The `cellSpan` walk after `j` characters: `n` cells are cut and the open one starts at `cellStart`. */
  ghost predicate Walking(inner: string, j: nat, n: nat, cellStart: nat, escaped: bool)
    requires j <= |inner|
  {
    var k := Run(START, inner[..j]);
    escaped == k.escaped && n == |k.done| && cellStart == PartStart(k.done, "|", n) && cellStart + |k.cur| == j
  }

  lemma WalkingStart(inner: string)
    ensures Walking(inner, 0, 0, 0, false)
  {}

  lemma WalkingStep(inner: string, j: nat, n: nat, cellStart: nat, escaped: bool)
    requires j < |inner| && Walking(inner, j, n, cellStart, escaped)
    ensures if !escaped && inner[j] == '|'
            then Walking(inner, j + 1, n + 1, j + 1, false) && InnerSpan(inner, n, cellStart, j)
            else Walking(inner, j + 1, n, cellStart, !escaped && inner[j] == '\\')
  {
    RunNext(inner, j);
    if !escaped && inner[j] == '|' {
      var k := Run(START, inner[..j]);
      var done := k.done + [k.cur];
      PartStartPrefix(k.done, done, "|", n);
      RunConcat(START, inner[..j + 1], inner[j + 1..]);
      assert inner[..j + 1] + inner[j + 1..] == inner;
      RunGrows(Run(START, inner[..j + 1]), inner[j + 1..]);
      assert done <= Cut(inner);
      PartStartPrefix(done, Cut(inner), "|", n);
    }
  }

  ghost predicate InnerSpan(inner: string, n: nat, start: nat, end: nat) {
    n < |Cut(inner)| && start == PartStart(Cut(inner), "|", n) && end == start + |Cut(inner)[n]|
  }

  lemma WalkingEnd(inner: string, n: nat, cellStart: nat, escaped: bool)
    requires Walking(inner, |inner|, n, cellStart, escaped)
    ensures |Cut(inner)| == n + 1 && InnerSpan(inner, n, cellStart, |inner|)
  {
    assert inner[..|inner|] == inner;
    PartStartPrefix(Run(START, inner).done, Cut(inner), "|", n);
  }

  /** `cellSpan`: the second scanner, which answers offsets instead of texts. */
  method CellSpan(line: string, i: nat) returns (span: Span)
    ensures IsSpanOf(line, i, span)
  {
    hide Walking, InnerSpan, Lead, Last, LeadFrom, LastTo, IndexFrom;
    var trimmed := Trim(line);
    if trimmed == "" {
      return NoSpan;
    }
    TrimIndex(line);
    var base: nat := Index(line, trimmed);
    var inner := trimmed;
    if HasSuffix(inner, "|") {
      inner := inner[..|inner| - 1];
    }
    if HasPrefix(inner, "|") {
      inner := inner[1..];
      base := base + 1;
    }
    assert inner == Inner(trimmed) && base == Base(line);
    var cellStart, n := 0, 0;
    var escaped := false;
    WalkingStart(inner);
    for j := 0 to |inner|
      invariant Walking(inner, j, n, cellStart, escaped) && n <= i
    {
      WalkingStep(inner, j, n, cellStart, escaped);
      var c := inner[j];
      if escaped {
        escaped := false;
      } else if c == '\\' {
        escaped := true;
      } else if c == '|' {
        if n == i {
          return Span(base + cellStart, base + j);
        }
        n := n + 1;
        cellStart := j + 1;
      }
    }
    WalkingEnd(inner, n, cellStart, escaped);
    if n == i {
      return Span(base + cellStart, base + |inner|);
    }
    return NoSpan;
  }
}
