/** Sections of a plan (internal/plan/plan.go: sectionRegion, scanSection, columnIndex) and what an edit inside
    one section does to all of them. */
module Section {
  import opened Text
  import opened Scan
  import opened ScanEdits

  const FINDINGS := "Findings"
  const LEDGER := "Evidence ledger"
  const LAYERS := "Layer matrix"
  const RANKED := "Ranked targets"

  predicate IsHeading(line: string) {
    HasPrefix(Trim(line), "## ")
  }

  predicate Heads(line: string, name: string) {
    IsHeading(line) && FoldEq(Trim(Trim(line)[3..]), name)
  }

  datatype Region = Region(heading: nat, end: nat) | Missing

  function FirstHeads(lines: seq<string>, name: string, i: nat): (h: nat)
    requires i <= |lines|
    ensures i <= h <= |lines| && (h < |lines| ==> Heads(lines[h], name))
    ensures forall j | i <= j < h :: !Heads(lines[j], name)
    decreases |lines| - i
  {
    if i == |lines| || Heads(lines[i], name) then i else FirstHeads(lines, name, i + 1)
  }

  function NextHeading(lines: seq<string>, i: nat): (h: nat)
    requires i <= |lines|
    ensures i <= h <= |lines| && (h < |lines| ==> IsHeading(lines[h]))
    ensures forall j | i <= j < h :: !IsHeading(lines[j])
    decreases |lines| - i
  {
    hide IsHeading;
    if i == |lines| || IsHeading(lines[i]) then i else NextHeading(lines, i + 1)
  }

  function RegionOf(lines: seq<string>, name: string): (r: Region)
    ensures r.Region? ==> r.heading < r.end <= |lines|
  {
    var h := FirstHeads(lines, name, 0);
    if h == |lines| then Missing else Region(h, NextHeading(lines, h + 1))
  }

  /** `sectionRegion`. */
  method SectionRegion(lines: seq<string>, name: string) returns (r: Region)
    ensures r == RegionOf(lines, name)
  {
    hide IsHeading, Heads;
    for i := 0 to |lines|
      invariant FirstHeads(lines, name, i) == FirstHeads(lines, name, 0)
    {
      if !Heads(lines[i], name) {
        continue;
      }
      for j := i + 1 to |lines|
        invariant NextHeading(lines, j) == NextHeading(lines, i + 1)
      {
        if IsHeading(lines[j]) {
          return Region(i, j);
        }
      }
      return Region(i, |lines|);
    }
    return Missing;
  }

  /** `scanSection`: the first table of a section. */
  function ScanSection(lines: seq<string>, name: string): TableScan {
    match RegionOf(lines, name)
    case Missing => NO_TABLE
    case Region(heading, end) => ScanLines(lines, heading + 1, end)
  }

  /** The cells of a section's rows, which is all another section's edit may not change. */
  function SectionRows(doc: string, name: string): seq<seq<string>> {
    RowCells(ScanSection(Lines(doc), name).rows)
  }

  /** `columnIndex`: by substring, except that Run has to be the whole cell. */
  function ColumnIndex(header: seq<string>, name: string): (i: int)
    ensures -1 <= i < |header|
    ensures i >= 0 ==> ColumnMatches(header[i], name)
    ensures forall j | 0 <= j < |header| && (i < 0 || j < i) :: !ColumnMatches(header[j], name)
  {
    ColumnFrom(header, name, 0)
  }

  predicate ColumnMatches(h: string, name: string) {
    if FoldEq(Trim(name), "run") then FoldEq(Trim(h), "run") else Contains(Lower(h), Lower(name))
  }

  function ColumnFrom(header: seq<string>, name: string, i: nat): (r: int)
    requires i <= |header|
    ensures r == -1 || (i <= r < |header| && ColumnMatches(header[r], name))
    ensures forall j | i <= j < |header| && (r < 0 || j < r) :: !ColumnMatches(header[j], name)
    decreases |header| - i
  {
    if i == |header| then -1
    else if ColumnMatches(header[i], name) then i
    else ColumnFrom(header, name, i + 1)
  }

  // ---------------------------------------------------------------- names

  /** The line is a level-two heading with that title, whatever its case. */
  predicate Titled(line: string, title: string) {
    var t := Trim(line);
    "## " <= t &&
    var rest := Trim(t[3..]);
    |rest| == |title| && forall i | 0 <= i < |rest| :: Spells(rest[i], title[i])
  }

  /** The headings of the four sections a plan is read by. */
  lemma TitlesAre(line: string)
    ensures IsHeading(line) <==> "## " <= Trim(line)
    ensures Heads(line, FINDINGS) <==> Titled(line, "findings")
    ensures Heads(line, LEDGER) <==> Titled(line, "evidence ledger")
    ensures Heads(line, LAYERS) <==> Titled(line, "layer matrix")
    ensures Heads(line, RANKED) <==> Titled(line, "ranked targets")
  {
    hide Fold, Trim;
    TitleIs(line, FINDINGS, "findings");
    TitleIs(line, LEDGER, "evidence ledger");
    TitleIs(line, LAYERS, "layer matrix");
    TitleIs(line, RANKED, "ranked targets");
  }

  lemma TitleIs(line: string, name: string, title: string)
    requires |name| == |title| && forall i | 0 <= i < |title| :: title[i] as int < 128 && !('A' <= title[i] <= 'Z') && Spells(name[i], title[i])
    ensures Heads(line, name) <==> Titled(line, title)
  {
    hide Fold, Trim;
    FoldIs(name, title);
    if IsHeading(line) {
      FoldIs(Trim(Trim(line)[3..]), title);
    }
  }

  /** A header cell is that column's if it holds the name somewhere, whatever its case. */
  predicate HoldsName(h: string, name: string) {
    exists i | 0 <= i <= |h| - |name| :: NameAt(h, name, i)
  }

  predicate NameAt(h: string, name: string, i: nat) {
    i + |name| <= |h| && forall k | 0 <= k < |name| :: LowerChar(h[i + k]) == LowerChar(name[k])
  }

  lemma {:induction false} LowerAt(s: string, i: nat)
    requires i < |s|
    ensures Lower(s)[i] == LowerChar(s[i])
  {
    if i > 0 {
      LowerAt(s[1..], i - 1);
    }
  }

  lemma OccursIff(h: string, name: string, i: nat)
    ensures OccursAt(Lower(h), Lower(name), i) <==> NameAt(h, name, i)
  {
    hide Lower, LowerChar;
    if i + |name| <= |h| {
      forall k | 0 <= k < |name| ensures Lower(h)[i + k] == LowerChar(h[i + k]) && Lower(name)[k] == LowerChar(name[k]) {
        LowerAt(h, i + k);
        LowerAt(name, k);
      }
      var part := Lower(h)[i..i + |name|];
      assert forall k | 0 <= k < |name| :: part[k] == Lower(h)[i + k];
      assert NameAt(h, name, i) ==> part == Lower(name);
      assert part == Lower(name) ==> forall k | 0 <= k < |name| :: part[k] == Lower(name)[k];
    }
  }

  /** The column of a name is the first whose cell holds it; but the column Run is the first whose whole cell is that
      word; and there is none exactly when no cell does. */
  lemma ColumnIs(header: seq<string>, name: string)
    ensures var i := ColumnIndex(header, name);
            (forall j | 0 <= j < |header| && (i < 0 || j < i) ::
               if IsRunName(name) then !IsRunName(header[j]) else !HoldsName(header[j], name)) &&
            (i >= 0 ==> if IsRunName(name) then IsRunName(header[i]) else HoldsName(header[i], name))
  {
    hide Trim, Fold, HoldsName, Contains, ColumnFrom;
    FoldIs(Trim(name), "run");
    FoldRun();
    forall j | 0 <= j < |header|
      ensures ColumnMatches(header[j], name) <==> if FoldEq(Trim(name), "run") then IsRunName(header[j]) else HoldsName(header[j], name)
    {
      FoldIs(Trim(header[j]), "run");
      HoldsIff(header[j], name);
    }
  }

  lemma FoldRun()
    ensures Fold("run") == "run"
  {
    FoldIs("run", "run");
  }

  predicate IsRunName(h: string) {
    |Trim(h)| == 3 && Spells(Trim(h)[0], 'r') && Spells(Trim(h)[1], 'u') && Spells(Trim(h)[2], 'n')
  }

  lemma HoldsIff(h: string, name: string)
    ensures Contains(Lower(h), Lower(name)) <==> HoldsName(h, name)
  {
    hide Lower, LowerChar, NameAt;
    forall i: nat ensures OccursAt(Lower(h), Lower(name), i) <==> NameAt(h, name, i) {
      OccursIff(h, name, i);
    }
    if HoldsName(h, name) {
      var i :| 0 <= i <= |h| - |name| && NameAt(h, name, i);
      assert OccursAt(Lower(h), Lower(name), i);
    }
    if Contains(Lower(h), Lower(name)) {
      var i := Index(Lower(h), Lower(name));
      assert NameAt(h, name, i);
    }
  }

  // ---------------------------------------------------------------- edits that keep the headings

  /** The same headings at the same lines. */
  ghost predicate SameHeadings(a: seq<string>, b: seq<string>) {
    |a| == |b| && forall i | 0 <= i < |a| :: IsHeading(a[i]) || IsHeading(b[i]) ==> a[i] == b[i]
  }

  lemma FirstHeadsIs(lines: seq<string>, name: string, i: nat, h: nat)
    requires i <= h <= |lines| && (h < |lines| ==> Heads(lines[h], name))
    requires forall j | i <= j < h :: !Heads(lines[j], name)
    ensures FirstHeads(lines, name, i) == h
  {
    hide Heads;
  }

  lemma NextHeadingIs(lines: seq<string>, i: nat, h: nat)
    requires i <= h <= |lines| && (h < |lines| ==> IsHeading(lines[h]))
    requires forall j | i <= j < h :: !IsHeading(lines[j])
    ensures NextHeading(lines, i) == h
  {
    hide IsHeading;
  }

  lemma RegionSame(a: seq<string>, b: seq<string>, name: string)
    requires SameHeadings(a, b)
    ensures RegionOf(a, name) == RegionOf(b, name)
  {
    hide IsHeading;
    var h := FirstHeads(a, name, 0);
    FirstHeadsIs(b, name, 0, h);
    if h < |a| {
      NextHeadingIs(b, h + 1, NextHeading(a, h + 1));
    }
  }

  /** Sections of different names never share a line. */
  lemma RegionsApart(lines: seq<string>, a: string, b: string)
    requires !FoldEq(a, b) && RegionOf(lines, a).Region? && RegionOf(lines, b).Region?
    ensures var r, q := RegionOf(lines, a), RegionOf(lines, b);
            r.heading != q.heading &&
            (r.heading < q.heading ==> r.end <= q.heading) && (q.heading < r.heading ==> q.end <= r.heading)
  {
    hide IsHeading;
    var r, q := RegionOf(lines, a), RegionOf(lines, b);
    assert Heads(lines[r.heading], a) && Heads(lines[q.heading], b);
  }

  /** A section none of whose lines changed reads the same. */
  lemma SectionSame(a: seq<string>, b: seq<string>, name: string)
    requires SameHeadings(a, b)
    requires var r := RegionOf(a, name); r.Region? ==> forall i | r.heading < i < r.end :: a[i] == b[i]
    ensures ScanSection(a, name) == ScanSection(b, name)
  {
    hide IsHeading, ScanKinds, FirstHeads, NextHeading, KindOf, Heads;
    RegionSame(a, b, name);
    var r := RegionOf(a, name);
    if r.Region? {
      assert a[r.heading + 1..r.end] == b[r.heading + 1..r.end];
    }
  }

  // ---------------------------------------------------------------- a line inserted

  function InsertLine(lines: seq<string>, p: nat, line: string): seq<string>
    requires p <= |lines|
  {
    lines[..p] + [line] + lines[p..]
  }

  function Moved(r: Region, p: nat): Region {
    match r
    case Missing => Missing
    case Region(h, e) => Region(if h < p then h else h + 1, if e < p then e else e + 1)
  }

  lemma InsertedLines(lines: seq<string>, p: nat, line: string)
    requires p <= |lines|
    ensures var b := InsertLine(lines, p, line);
            |b| == |lines| + 1 && b[p] == line && b[..p] == lines[..p] && b[p + 1..] == lines[p..] &&
            (forall i | 0 <= i < p :: b[i] == lines[i]) &&
            (forall i | p < i < |b| :: b[i] == lines[i - 1])
  {}

  lemma RegionInserted(lines: seq<string>, p: nat, line: string, name: string)
    requires p <= |lines| && !IsHeading(line)
    ensures RegionOf(InsertLine(lines, p, line), name) == Moved(RegionOf(lines, name), p)
  {
    hide IsHeading, Heads, InsertLine;
    var b := InsertLine(lines, p, line);
    InsertedLines(lines, p, line);
    var h := FirstHeads(lines, name, 0);
    var g := if h < p then h else h + 1;
    NotHeads(line, name);
    FirstHeadsIs(b, name, 0, g);
    if h < |lines| {
      var e := NextHeading(lines, h + 1);
      var f := if e < p then e else e + 1;
      NextHeadingIs(b, g + 1, f);
    }
  }

  lemma NotHeads(line: string, name: string)
    requires !IsHeading(line)
    ensures !Heads(line, name)
  {
    hide IsHeading;
  }

  /** A line inserted in one section moves every other one, and changes none. */
  lemma SectionMoved(lines: seq<string>, p: nat, line: string, inside: string, name: string)
    requires p <= |lines| && !IsHeading(line) && !FoldEq(inside, name)
    requires var r := RegionOf(lines, inside); r.Region? && r.heading < p <= r.end
    ensures SameScan(ScanSection(lines, name), ScanSection(InsertLine(lines, p, line), name))
  {
    hide IsHeading, Heads, RegionOf, ScanKinds, SameScan, InsertLine, FoldEq;
    var b := InsertLine(lines, p, line);
    InsertedLines(lines, p, line);
    RegionInserted(lines, p, line, name);
    var q := RegionOf(lines, name);
    if q.Region? {
      RegionsApart(lines, inside, name);
      var q' := Moved(q, p);
      SameSlice(lines, b, p, q.heading + 1, q.end, q'.heading + 1, q'.end);
      ScanMoved(Kinds(lines[q.heading + 1..q.end]), q.heading + 1, q'.heading + 1);
    } else {
      SameSelf(NO_TABLE);
    }
  }

  lemma SameSlice(a: seq<string>, b: seq<string>, p: nat, i: nat, j: nat, i': nat, j': nat)
    requires p <= |a| && |b| == |a| + 1 && i <= j <= |a|
    requires forall k | 0 <= k < p :: b[k] == a[k]
    requires forall k | p < k < |b| :: b[k] == a[k - 1]
    requires (j <= p && i' == i && j' == j) || (p < i && i' == i + 1 && j' == j + 1)
    ensures b[i'..j'] == a[i..j]
  {}

  lemma SameSelf(s: TableScan)
    ensures SameScan(s, s)
  {}
}
