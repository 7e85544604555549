/** A Mutate cell written from edits reads back as those edits. */
module MutationCells {
  import opened Text
  import opened Mutations
  import opened Numbers

  function Locator(m: Mutation): string
  {
    m.path + ":" + Numeral(m.line)
  }

  function FormatEdit(m: Mutation): string
  {
    (if m.equivalent then EQUIVALENT else "") + FormatMutation(m)
  }

  function FormatMutation(m: Mutation): string
  {
    m.oldText + " => " + (m.newText + " @ " + Locator(m))
  }

  /** The parts of an edit that the grammar can tell apart. */
  predicate Parts(m: Mutation) {
    && Bare(m.oldText) && Bare(m.newText) && Bare(m.path)
    && m.oldText != "" && m.path != "" && m.oldText != m.newText && 1 <= m.line <= MAX_INT
    && !Contains(m.oldText, "=>") && '@' !in m.path
  }

  /** An edit a cell can hold: one that starts as an equivalent edit is read as one. */
  predicate Expressible(m: Mutation) {
    Parts(m) && (m.equivalent || !HasPrefix(m.oldText + " ", EQUIVALENT))
  }

  lemma DigitPrintable(c: char)
    requires '0' <= c <= '9'
    ensures !IsSpace(c)
  {
    Printable(c);
  }

  lemma Pair(s: string, j: nat)
    ensures OccursAt(s, "=>", j) <==> j + 2 <= |s| && s[j] == '=' && s[j + 1] == '>'
  {
    if j + 2 <= |s| {
      assert s[j..j + 2] == [s[j], s[j + 1]];
    }
  }

  lemma ArrowIs(a: string, b: string)
    requires !Contains(a, "=>")
    ensures var s := a + " => " + b; Index(s, "=>") == |a| + 1 && s[..|a| + 1] == a + " " && s[|a| + 3..] == " " + b
  {
    var s := a + " => " + b;
    assert s[|a|] == ' ' && s[|a| + 1] == '=' && s[|a| + 2] == '>';
    assert s[|a| + 1..|a| + 3] == "=>";
    forall j: nat | j < |a| + 1 ensures !OccursAt(s, "=>", j) {
      Pair(s, j);
      Pair(a, j);
      assert !OccursAt(a, "=>", j);
      assert j < |a| ==> s[j] == a[j];
      assert j + 1 < |a| ==> s[j + 1] == a[j + 1];
    }
    IndexIs(s, "=>", |a| + 1);
  }

  lemma {:induction false} LastIs(a: string, c: char, b: string)
    requires c !in b
    ensures LastIndexOf(a + [c] + b, c) == |a|
  {
    var s := a + [c] + b;
    assert s[|a|] == c;
    forall j | |a| < j < |s| ensures s[j] != c {
      assert s[j] == b[j - |a| - 1];
    }
  }

  lemma OneSpace(pre: string, s: string, post: string)
    requires Bare(s) && (pre == "" || pre == " ") && (post == "" || post == " ")
    ensures Trim(pre + s + post) == s
  {
    Text.Blank(' ');
    TrimIs(pre, s, post);
  }

  lemma LocatorReads(path: string, line: nat)
    requires Bare(path) && path != "" && line >= 1 && '@' !in path
    ensures var l := path + ":" + Numeral(line);
            Bare(l) && l != "" && '@' !in l && LastIndexOf(l, ':') == |path| && l[..|path|] == path &&
            l[|path| + 1..] == Numeral(line) && Trim(Numeral(line)) == Numeral(line) && Trim(path) == path
  {
    hide IsSpace;
    var n := Numeral(line);
    var l := path + ":" + n;
    DigitPrintable(n[0]);
    DigitPrintable(n[|n| - 1]);
    assert l[0] == path[0] && l[|l| - 1] == n[|n| - 1];
    TrimBare(n);
    TrimBare(path);
    LastIs(path, ':', n);
  }

  lemma NumeralReads(n: nat)
    requires n <= MAX_INT
    ensures PositiveInt(Numeral(n)) == n
  {}

  /** One edit. */
  lemma ParseFormat(m: Mutation)
    requires Parts(m) && !m.equivalent
    ensures ParseMutation(FormatMutation(m)) == Parsed(m)
    ensures Bare(FormatMutation(m)) && Trim(FormatMutation(m)) == FormatMutation(m)
  {
    hide IsSpace, Trim, IndexFrom, LastIndexOf, Digits, Decimal, Numeral, PositiveInt;
    var l := Locator(m);
    LocatorReads(m.path, m.line);
    NumeralReads(m.line);
    var rest := m.newText + " @ " + l;
    var cell := m.oldText + " => " + rest;
    assert cell[0] == m.oldText[0] && cell[|cell| - 1] == l[|l| - 1];
    TrimBare(cell);
    ArrowIs(m.oldText, rest);
    assert "" + m.oldText + " " == m.oldText + " ";
    OneSpace("", m.oldText, " ");
    RestReads(m.newText, l);
  }

  /** What follows the arrow: the new text, the last at sign and the locator, trimmed. */
  lemma RestReads(newText: string, l: string)
    requires Bare(newText) && Bare(l) && l != "" && '@' !in l
    ensures var rest := Trim(" " + (newText + " @ " + l));
            var at := LastIndexOf(rest, '@');
            at >= 0 && Trim(rest[..at]) == newText && Trim(rest[at + 1..]) == l
  {
    hide IsSpace, Trim, LastIndexOf;
    var rest := Trim(" " + (newText + " @ " + l));
    Text.Blank(' ');
    Printable('@');
    var before := if newText == "" then "" else newText + " ";
    var bare := before + "@" + (" " + l);
    assert bare[|bare| - 1] == l[|l| - 1];
    assert bare[0] == if newText == "" then '@' else newText[0];
    var pre := if newText == "" then "  " else " ";
    assert " " + (newText + " @ " + l) == pre + bare + "";
    assert AllSpace(pre);
    TrimIs(pre, bare, "");
    LastIs(before, '@', " " + l);
    assert bare[..|before|] == before && bare[|before| + 1..] == " " + l;
    OneSpace("", newText, if newText == "" then "" else " ");
    assert "" + newText + (if newText == "" then "" else " ") == before;
    OneSpace(" ", l, "");
    assert " " + l + "" == " " + l;
  }

  lemma EditReads(m: Mutation)
    requires Expressible(m)
    ensures ParseEdit(FormatEdit(m)) == Parsed(m) && Trim(FormatEdit(m)) == FormatEdit(m) && FormatEdit(m) != ""
    ensures var s := FormatEdit(m); '0' <= s[|s| - 1] <= '9'
  {
    hide IsSpace, Trim, ParseMutation, LastIndexOf, Digits, Decimal, Numeral, FormatMutation, IndexFrom, Parts;
    var plain := m.(equivalent := false);
    var body := FormatMutation(m);
    BodyIs(m);
    ParseFormat(plain);
    Printable('~');
    var s := FormatEdit(m);
    if m.equivalent {
      assert s == EQUIVALENT + body;
      assert s[2..] == body;
      assert s[|s| - 1] == body[|body| - 1];
      TrimBare(s);
    } else {
      NoTilde(m, s);
    }
  }

  /** The text of an edit is the same with and without its declaration, and ends in its line number. */
  lemma BodyIs(m: Mutation)
    ensures var s := FormatMutation(m);
            s == FormatMutation(m.(equivalent := false)) && s != "" && '0' <= s[|s| - 1] <= '9'
    ensures Parts(m) ==> Parts(m.(equivalent := false))
  {
    hide Numeral, IsSpace, IndexFrom;
    var n, s := Numeral(m.line), FormatMutation(m);
    assert s[|s| - 1] == n[|n| - 1];
  }

  lemma NoTilde(m: Mutation, s: string)
    requires Expressible(m) && !m.equivalent && s == FormatMutation(m)
    ensures !HasPrefix(s, EQUIVALENT)
  {
    hide Numeral;
    var o := m.oldText + " ";
    assert s[..|o|] == o;
    assert |o| >= 2 && s[..2] == o[..2];
  }

  // ---------------------------------------------------------------- a survey

  function Formats(ms: seq<Mutation>): (r: seq<string>)
    ensures |r| == |ms| && forall i | 0 <= i < |ms| :: r[i] == FormatEdit(ms[i])
  {
    if ms == [] then [] else Formats(ms[..|ms| - 1]) + [FormatEdit(ms[|ms| - 1])]
  }

  /** A part the separator does not occur in, and cannot be completed in. */
  predicate Cuttable(part: string) {
    part != "" && '0' <= part[|part| - 1] <= '9' && !Contains(part, SEPARATOR)
  }

  lemma Misses(s: string, sub: string, j: nat, x: nat)
    requires j <= x < j + |sub| && x < |s| && s[x] !in sub
    ensures !OccursAt(s, sub, j)
  {
    if j + |sub| <= |s| {
      assert s[j..j + |sub|][x - j] == s[x];
    }
  }

  /** No occurrence of the separator starts inside a part that has none and ends in a digit. */
  lemma SeparatorIs(part: string, rest: string)
    requires Cuttable(part)
    ensures Index(part + SEPARATOR + rest, SEPARATOR) == |part|
    ensures (part + SEPARATOR + rest)[|part| + |SEPARATOR|..] == rest
  {
    hide IndexFrom;
    var s := part + SEPARATOR + rest;
    assert s[|part|..|part| + |SEPARATOR|] == SEPARATOR;
    forall j: nat | j < |part| ensures !OccursAt(s, SEPARATOR, j) {
      assert !OccursAt(part, SEPARATOR, j);
      if j + |SEPARATOR| <= |part| {
        assert part[j..j + |SEPARATOR|] == s[j..j + |SEPARATOR|];
      } else {
        Misses(s, SEPARATOR, j, |part| - 1);
      }
    }
    IndexIs(s, SEPARATOR, |part|);
  }

  lemma {:induction false} SplitJoin(parts: seq<string>)
    requires parts != []
    requires forall i | 0 <= i < |parts| :: Cuttable(parts[i])
    ensures SplitOn(Join(parts, SEPARATOR), SEPARATOR) == parts
  {
    hide IndexFrom, Cuttable;
    assert Cuttable(parts[0]);
    if |parts| > 1 {
      SplitJoin(parts[1..]);
      SeparatorIs(parts[0], Join(parts[1..], SEPARATOR));
      var s, i := Join(parts, SEPARATOR), |parts[0]|;
      assert s[..i] == parts[0];
      assert [parts[0]] + parts[1..] == parts;
    } else {
      NotCut(parts[0]);
      assert parts == [parts[0]];
    }
  }

  lemma NotCut(part: string)
    requires Cuttable(part)
    ensures SplitOn(part, SEPARATOR) == [part]
  {
    hide IndexFrom;
  }

  lemma {:induction false} JoinEdges(parts: seq<string>, sep: string)
    requires parts != [] && forall i | 0 <= i < |parts| :: parts[i] != ""
    ensures var s, z := Join(parts, sep), parts[|parts| - 1]; s != "" && s[0] == parts[0][0] && s[|s| - 1] == z[|z| - 1]
  {
    if |parts| > 1 {
      JoinEdges(parts[1..], sep);
    }
  }

  lemma {:induction false} EditsRead(ms: seq<Mutation>)
    requires forall i | 0 <= i < |ms| :: Expressible(ms[i])
    ensures ParseEdits(Formats(ms)) == Parsed(ms)
  {
    hide ParseEdit, FormatEdit, Expressible;
    if ms != [] {
      var n := |ms| - 1;
      EditsRead(ms[..n]);
      EditReads(ms[n]);
      assert Formats(ms)[..n] == Formats(ms[..n]);
      assert ms[..n] + [ms[n]] == ms;
    }
  }

  /** A survey written edit by edit reads back whole: the same edits in the same order, each with its declaration,
      as long as no edit's own text holds the separator. */
  lemma SurveyReadsBack(ms: seq<Mutation>)
    requires ms != [] && forall i | 0 <= i < |ms| :: Expressible(ms[i]) && !Contains(FormatEdit(ms[i]), SEPARATOR)
    ensures ParseMutations(Join(Formats(ms), SEPARATOR)) == Parsed(ms)
  {
    hide ParseEdits, FormatEdit, IndexFrom, IsSpace, Trim, SplitOn, Expressible;
    var parts := Formats(ms);
    forall i | 0 <= i < |parts| ensures Cuttable(parts[i]) {
      EditReads(ms[i]);
    }
    SplitJoin(parts);
    FirstChar(ms[0]);
    SurveyBare(parts);
    TrimBare(Join(parts, SEPARATOR));
    EditsRead(ms);
  }

  lemma SurveyBare(parts: seq<string>)
    requires parts != [] && (forall i | 0 <= i < |parts| :: Cuttable(parts[i]))
    requires parts[0] != "" && !IsSpace(parts[0][0])
    ensures Bare(Join(parts, SEPARATOR))
  {
    hide IsSpace, Contains, Join;
    JoinEdges(parts, SEPARATOR);
    assert Cuttable(parts[|parts| - 1]);
    var s := Join(parts, SEPARATOR);
    DigitPrintable(s[|s| - 1]);
  }

  lemma FirstChar(m: Mutation)
    requires Expressible(m)
    ensures FormatEdit(m) != "" && !IsSpace(FormatEdit(m)[0])
  {
    hide IsSpace, Numeral;
    Printable('~');
    assert FormatEdit(m)[0] == if m.equivalent then '~' else m.oldText[0];
  }
}
