/** The text a corpus digest is taken over (internal/bench/run.go: CorpusDigest, part). A string is the sequence of
    its bytes; the hash over the text is left out. */
module Corpus {
  import opened Text
  import opened Numbers
  import opened Sorting

  datatype Case = Case(name: string, request: string, defects: seq<string>)

  // ---------------------------------------------------------------- the encoding

  /** `part`: the length comes first. */
  function Part(s: string): string {
    Numeral(|s|) + ":" + s
  }

  /** `strings.Join`, which joins nothing to nothing. */
  function JoinAll(ls: seq<string>, sep: string): string {
    if ls == [] then "" else Join(ls, sep)
  }

  function Line(c: Case): string {
    Part(c.name) + Part(c.request) + Part(JoinAll(Sort(c.defects), ","))
  }

  function LinesOf(cases: seq<Case>): (r: seq<string>)
    ensures |r| == |cases| && forall i | 0 <= i < |cases| :: r[i] == Line(cases[i])
  {
    seq(|cases|, i requires 0 <= i < |cases| => Line(cases[i]))
  }

  function Sprint(n: int): string {
    if n < 0 then "-" + Numeral(-n) else Numeral(n)
  }

  function CorpusText(cases: seq<Case>, runs: int): string {
    Part(Sprint(runs)) + "\n" + JoinAll(Sort(LinesOf(cases)), "\n")
  }

  /** The loop of `CorpusDigest`, up to the text it hashes. */
  method BuildText(cases: seq<Case>, runs: int) returns (text: string)
    ensures text == CorpusText(cases, runs)
  {
    hide Line, Sort;
    var lines: seq<string> := [];
    for i := 0 to |cases|
      invariant |lines| == i && forall k | 0 <= k < i :: lines[k] == Line(cases[k])
    {
      lines := lines + [Line(cases[i])];
    }
    assert lines == LinesOf(cases);
    lines := Sort(lines);
    text := Part(Sprint(runs)) + "\n" + JoinAll(lines, "\n");
  }

  // ---------------------------------------------------------------- reading it back

  /** The first separator of two equal texts is the same one. */
  lemma FirstCut(sep: char, m: string, n: string, x: string, y: string)
    requires sep !in m && sep !in n && m + [sep] + x == n + [sep] + y
    ensures m == n && x == y
  {
    var s, t := m + [sep] + x, n + [sep] + y;
    assert s[|m|] == sep && t[|n|] == sep;
    assert forall i | 0 <= i < |m| :: s[i] == m[i] != sep;
    assert forall i | 0 <= i < |n| :: t[i] == n[i] != sep;
    assert |m| == |n|;
    assert s[..|m|] == m && t[..|n|] == n;
    assert s[|m| + 1..] == x && t[|n| + 1..] == y;
  }

  lemma NoColon(n: nat)
    ensures ':' !in Numeral(n)
  {}

  /** A part ends where it says it does, whatever follows it. */
  lemma PartEnds(a: string, b: string, x: string, y: string)
    requires Part(a) + x == Part(b) + y
    ensures a == b && x == y
  {
    hide Numeral;
    NoColon(|a|);
    NoColon(|b|);
    assert Part(a) + x == Numeral(|a|) + ":" + (a + x);
    assert Part(b) + y == Numeral(|b|) + ":" + (b + y);
    FirstCut(':', Numeral(|a|), Numeral(|b|), a + x, b + y);
    NumeralsDiffer(|a|, |b|);
    assert (a + x)[..|a|] == a && (b + y)[..|b|] == b;
    assert (a + x)[|a|..] == x && (b + y)[|b|..] == y;
  }

  lemma LineEnds(c: Case, d: Case, x: string, y: string)
    requires Line(c) + x == Line(d) + y
    ensures c.name == d.name && c.request == d.request && x == y
    ensures JoinAll(Sort(c.defects), ",") == JoinAll(Sort(d.defects), ",") && Line(c) == Line(d)
  {
    hide Part, Sort, JoinAll;
    var p, q := Part(JoinAll(Sort(c.defects), ",")), Part(JoinAll(Sort(d.defects), ","));
    assert Line(c) + x == Part(c.name) + (Part(c.request) + (p + x));
    assert Line(d) + y == Part(d.name) + (Part(d.request) + (q + y));
    PartEnds(c.name, d.name, Part(c.request) + (p + x), Part(d.request) + (q + y));
    PartEnds(c.request, d.request, p + x, q + y);
    PartEnds(JoinAll(Sort(c.defects), ","), JoinAll(Sort(d.defects), ","), x, y);
  }

  /** An id that can be told apart in a list of ids. */
  predicate IsId(s: string) {
    s != "" && ',' !in s
  }

  predicate AllIds(s: seq<string>) {
    forall i | 0 <= i < |s| :: IsId(s[i])
  }

  lemma {:induction false} IdsReadBack(a: seq<string>, b: seq<string>)
    requires AllIds(a) && AllIds(b) && JoinAll(a, ",") == JoinAll(b, ",")
    ensures a == b
  {
    if a == [] || b == [] {
      if a != [] {
        NotEmpty(a);
      } else if b != [] {
        NotEmpty(b);
      }
    } else if |a| == 1 || |b| == 1 {
      HasComma(a);
      HasComma(b);
    } else {
      var x, y := Join(a[1..], ","), Join(b[1..], ",");
      FirstCut(',', a[0], b[0], x, y);
      IdsReadBack(a[1..], b[1..]);
      assert a == [a[0]] + a[1..] && b == [b[0]] + b[1..];
    }
  }

  lemma NotEmpty(a: seq<string>)
    requires AllIds(a) && a != []
    ensures JoinAll(a, ",") != ""
  {}

  lemma HasComma(a: seq<string>)
    requires AllIds(a) && a != []
    ensures if |a| == 1 then JoinAll(a, ",") == a[0] && ',' !in JoinAll(a, ",") else ',' in JoinAll(a, ",")
  {
    if |a| > 1 {
      assert JoinAll(a, ",")[|a[0]|] == ',';
    }
  }

  // ---------------------------------------------------------------- canonical and injective

  /** What a case is measured as. */
  datatype Measured = Measured(name: string, request: string, defects: multiset<string>)

  function MeasuredOf(c: Case): Measured {
    Measured(c.name, c.request, multiset(c.defects))
  }

  function AllMeasured(cases: seq<Case>): (r: seq<Measured>)
    ensures |r| == |cases| && forall i | 0 <= i < |cases| :: r[i] == MeasuredOf(cases[i])
  {
    seq(|cases|, i requires 0 <= i < |cases| => MeasuredOf(cases[i]))
  }

  predicate ProperCases(cases: seq<Case>) {
    forall i | 0 <= i < |cases| :: AllIds(cases[i].defects)
  }

  lemma SortedIds(s: seq<string>)
    requires AllIds(s)
    ensures AllIds(Sort(s))
  {
    forall i | 0 <= i < |Sort(s)| ensures IsId(Sort(s)[i]) {
      assert Sort(s)[i] in multiset(s);
      var k := SomewhereIn(s, Sort(s)[i]);
    }
  }

  /** Two cases have one line if and only if they are measured alike. */
  lemma LineIff(c: Case, d: Case)
    requires AllIds(c.defects) && AllIds(d.defects)
    ensures Line(c) == Line(d) <==> MeasuredOf(c) == MeasuredOf(d)
  {
    hide Sort, JoinAll, Part;
    SortStringsIff(c.defects, d.defects);
    if Line(c) == Line(d) {
      assert Line(c) + "" == Line(d) + "";
      LineEnds(c, d, "", "");
      SortedIds(c.defects);
      SortedIds(d.defects);
      IdsReadBack(Sort(c.defects), Sort(d.defects));
    }
  }

  // ---------------------------------------------------------------- bags of cases

  lemma BagsIff(xs: seq<Case>, ys: seq<Case>)
    requires ProperCases(xs) && ProperCases(ys)
    ensures multiset(LinesOf(xs)) == multiset(LinesOf(ys)) <==> multiset(AllMeasured(xs)) == multiset(AllMeasured(ys))
  {
    hide Line, MeasuredOf;
    var a, b, c, d := LinesOf(xs), LinesOf(ys), AllMeasured(xs), AllMeasured(ys);
    forall i, j | 0 <= i < |a| && 0 <= j < |b| ensures a[i] == b[j] <==> c[i] == d[j] {
      LineIff(xs[i], ys[j]);
    }
    if multiset(a) == multiset(b) {
      SameBags(a, b, c, d);
    }
    if multiset(c) == multiset(d) {
      SameBags(c, d, a, b);
    }
  }

  // ---------------------------------------------------------------- the whole text

  ghost predicate IsLine(s: string) {
    exists c: Case :: s == Line(c)
  }

  lemma LineNotEmpty(s: string)
    requires IsLine(s)
    ensures s != ""
  {
    hide Numeral, Sort;
  }

  /** One line ends where it says it does. */
  lemma IsLineEnds(a: string, b: string, x: string, y: string)
    requires IsLine(a) && IsLine(b) && a + x == b + y
    ensures a == b && x == y
  {
    hide Line;
    var c: Case :| a == Line(c);
    var d: Case :| b == Line(d);
    LineEnds(c, d, x, y);
  }

  lemma {:induction false} LinesReadBack(a: seq<string>, b: seq<string>)
    requires (forall i | 0 <= i < |a| :: IsLine(a[i])) && (forall i | 0 <= i < |b| :: IsLine(b[i]))
    requires JoinAll(a, "\n") == JoinAll(b, "\n")
    ensures a == b
  {
    hide IsLine;
    if a == [] || b == [] {
      if a != [] {
        LineNotEmpty(a[0]);
      } else if b != [] {
        LineNotEmpty(b[0]);
      }
    } else {
      var x := if |a| == 1 then "" else "\n" + Join(a[1..], "\n");
      var y := if |b| == 1 then "" else "\n" + Join(b[1..], "\n");
      assert JoinAll(a, "\n") == a[0] + x && JoinAll(b, "\n") == b[0] + y;
      IsLineEnds(a[0], b[0], x, y);
      if |a| > 1 && |b| > 1 {
        assert x[1..] == Join(a[1..], "\n") && y[1..] == Join(b[1..], "\n");
        LinesReadBack(a[1..], b[1..]);
      }
      assert a == [a[0]] + a[1..] && b == [b[0]] + b[1..];
    }
  }

  lemma SortedLines(cases: seq<Case>)
    ensures forall i | 0 <= i < |Sort(LinesOf(cases))| :: IsLine(Sort(LinesOf(cases))[i])
  {
    hide Line;
    var ls := Sort(LinesOf(cases));
    forall i | 0 <= i < |ls| ensures IsLine(ls[i]) {
      assert ls[i] in multiset(LinesOf(cases));
      var k := SomewhereIn(LinesOf(cases), ls[i]);
    }
  }

  lemma SprintsDiffer(m: int, n: int)
    requires Sprint(m) == Sprint(n)
    ensures m == n
  {
    var k := if m < 0 then -m else m;
    var l := if n < 0 then -n else n;
    assert m < 0 ==> Sprint(m)[1..] == Numeral(k);
    assert n < 0 ==> Sprint(n)[1..] == Numeral(l);
    if m < 0 <==> n < 0 {
      NumeralsDiffer(k, l);
    }
  }

  /** Equal texts have equal parts. */
  lemma TextSplits(m: int, n: int, a: seq<string>, b: seq<string>)
    requires Part(Sprint(m)) + "\n" + JoinAll(a, "\n") == Part(Sprint(n)) + "\n" + JoinAll(b, "\n")
    ensures m == n && JoinAll(a, "\n") == JoinAll(b, "\n")
  {
    hide Part, JoinAll, Sprint;
    var x, y := "\n" + JoinAll(a, "\n"), "\n" + JoinAll(b, "\n");
    assert Part(Sprint(m)) + "\n" + JoinAll(a, "\n") == Part(Sprint(m)) + x;
    assert Part(Sprint(n)) + "\n" + JoinAll(b, "\n") == Part(Sprint(n)) + y;
    PartEnds(Sprint(m), Sprint(n), x, y);
    SprintsDiffer(m, n);
    assert x[1..] == JoinAll(a, "\n") && y[1..] == JoinAll(b, "\n");
  }

  /** Two corpora give one text if and only if they run as often and hold the same bag of cases, each measured by
      its name, its request and its bag of defect ids, whatever characters the names and requests contain. */
  lemma CorpusTextIff(xs: seq<Case>, m: int, ys: seq<Case>, n: int)
    requires ProperCases(xs) && ProperCases(ys)
    ensures CorpusText(xs, m) == CorpusText(ys, n) <==> m == n && multiset(AllMeasured(xs)) == multiset(AllMeasured(ys))
  {
    hide Part, Line, Sort, JoinAll, Sprint, ProperCases, AllMeasured, LinesOf, IsLine;
    var a, b := Sort(LinesOf(xs)), Sort(LinesOf(ys));
    SortStringsIff(LinesOf(xs), LinesOf(ys));
    BagsIff(xs, ys);
    if CorpusText(xs, m) == CorpusText(ys, n) {
      TextSplits(m, n, a, b);
      SortedLines(xs);
      SortedLines(ys);
      LinesReadBack(a, b);
    }
  }
}
