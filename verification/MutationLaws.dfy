/** What a Mutate cell says and when an edit may be made, told by the characters of the cell, the segments of the path
    and the text of the file. */
module MutationLaws {
  import opened Text
  import opened Numbers
  import opened Mutations
  import opened MutationCells

  // ---------------------------------------------------------------- one edit of a cell

  /** The text cut at its first arrow, its last at sign, and the last colon behind that. */
  predicate Shaped(t: string, a: string, b: string, c: string, d: string) {
    && t == a + "=>" + (b + "@" + (c + ":" + d)) && (forall j: nat | j < |a| :: !OccursAt(t, "=>", j))
    && '@' !in c && '@' !in d && ':' !in d
  }

  /** What is read of the parts. */
  function Reading(a: string, b: string, c: string, d: string): Parsed<Mutation> {
    var line := PositiveInt(Trim(d));
    if Trim(a) == "" || Trim(c) == "" || line < 1 then Bad(Malformed)
    else if Trim(a) == Trim(b) then Bad(NoOp)
    else Parsed(Mutation(Trim(a), Trim(b), Trim(c), line, false))
  }

  /** Trimming a text around a character that is no space trims its two sides. */
  lemma TrimAround(x: string, c: char, y: string) returns (x': string, y': string)
    requires !IsSpace(c)
    ensures Trim(x + [c] + y) == x' + [c] + y' && Trim(x') == Trim(x) && Trim(y') == Trim(y)
    ensures forall z | z in x' :: z in x
    ensures forall z | z in y' :: z in y
  {
    hide IsSpace, Trim, Lead, Last;
    var pre, post;
    x', pre := LeftTrimmed(x);
    y', post := RightTrimmed(y);
    assert x + [c] + y == pre + (x' + [c] + y') + post;
    TrimIs(pre, x' + [c] + y', post);
  }

  lemma LeftTrimmed(x: string) returns (x': string, pre: string)
    ensures x == pre + x' && AllSpace(pre) && (x' != "" ==> !IsSpace(x'[0])) && Trim(x') == Trim(x)
  {
    hide IsSpace, Trim, Spaces, Lead, Last;
    if Trim(x) == "" {
      TrimEmptyIff(x);
      x', pre := "", x;
      TrimNothing();
    } else {
      var a, b := TrimShape(x);
      x', pre := Trim(x) + b, a;
      assert x == a + x';
      assert x'[0] == Trim(x)[0];
      NoSpaces();
      assert "" + Trim(x) + b == x';
      TrimIs("", Trim(x), b);
    }
  }

  lemma TrimNothing()
    ensures Trim("") == ""
  {}

  lemma NoSpaces()
    ensures AllSpace("")
  {}

  lemma RightTrimmed(y: string) returns (y': string, post: string)
    ensures y == y' + post && AllSpace(post) && (y' != "" ==> !IsSpace(y'[|y'| - 1])) && Trim(y') == Trim(y)
  {
    hide IsSpace, Trim, Spaces, Lead, Last;
    NoSpaces();
    if Trim(y) == "" {
      TrimEmptyIff(y);
      y', post := "", y;
      TrimNothing();
    } else {
      var a, b := TrimShape(y);
      y', post := a + Trim(y), b;
      assert y == y' + b;
      assert y'[|y'| - 1] == Trim(y)[|Trim(y)| - 1];
      assert a + Trim(y) + "" == y';
      TrimIs(a, Trim(y), "");
    }
  }

  lemma Marks()
    ensures !IsSpace('@') && !IsSpace(':')
  {
    Printable('@');
    Printable(':');
  }

  /** What follows the arrow, trimmed part by part. */
  lemma RestIs(b: string, c: string, d: string) returns (b': string, y': string, c': string, d': string)
    requires '@' !in c && '@' !in d && ':' !in d
    ensures Trim(b + "@" + (c + ":" + d)) == b' + ['@'] + y' && '@' !in y' && Trim(b') == Trim(b)
    ensures Trim(y') == c' + [':'] + d' && ':' !in d' && Trim(c') == Trim(c) && Trim(d') == Trim(d)
  {
    hide IsSpace, Trim;
    Marks();
    var y := c + ":" + d;
    assert b + "@" + y == b + ['@'] + y && y == c + [':'] + d;
    b', y' := TrimAround(b, '@', y);
    c', d' := TrimAround(c, ':', d);
  }

  lemma CutAt(x: string, c: char, y: string)
    requires c !in y
    ensures var s := x + [c] + y; LastIndexOf(s, c) == |x| && s[..|x|] == x && s[|x| + 1..] == y
  {
    hide LastIndexOf;
    LastIs(x, c, y);
  }

  lemma ShapeIsRead(cell: string, a: string, b: string, c: string, d: string)
    requires Shaped(Trim(cell), a, b, c, d)
    ensures ParseMutation(cell) == Reading(a, b, c, d)
  {
    hide IsSpace, Trim, LastIndexOf, IndexFrom, PositiveInt;
    var t, rest := Trim(cell), b + "@" + (c + ":" + d);
    assert t[|a|..|a| + 2] == "=>";
    IndexIs(t, "=>", |a|);
    assert t[..|a|] == a && t[|a| + 2..] == rest;
    var b', y', c', d' := RestIs(b, c, d);
    CutAt(b', '@', y');
    CutAt(c', ':', d');
  }

  lemma LastCut(s: string, c: char) returns (x: string, y: string)
    requires c in s
    ensures s == x + [c] + y && c !in y
  {
    var i := LastIndexOf(s, c);
    x, y := s[..i], s[i + 1..];
    forall k | 0 <= k < |y| ensures y[k] != c {
      assert y[k] == s[i + 1 + k];
    }
  }

  lemma CharsOfTrim(s: string)
    ensures forall z | z in Trim(s) :: z in s
  {
    hide Lead, Last;
  }

  lemma NoIndex(s: string, c: char)
    requires c !in s
    ensures LastIndexOf(s, c) < 0
  {}

  /** A text has such a shape, or it is no edit. */
  lemma ShapeOrBad(cell: string) returns (shaped: bool, a: string, b: string, c: string, d: string)
    ensures if shaped then Shaped(Trim(cell), a, b, c, d) else ParseMutation(cell) == Bad(Malformed)
  {
    hide IsSpace, Trim, LastIndexOf, IndexFrom, PositiveInt, Located;
    var t := Trim(cell);
    var arrow := Index(t, "=>");
    shaped, a, b, c, d := false, "", "", "", "";
    if arrow >= 0 {
      var r := t[arrow + 2..];
      a := t[..arrow];
      assert t == a + "=>" + r;
      CharsOfTrim(r);
      if '@' !in r {
        NoIndex(Trim(r), '@');
      } else {
        var y;
        b, y := LastCut(r, '@');
        if ':' in y {
          c, d := LastCut(y, ':');
          assert r == b + "@" + (c + ":" + d);
          shaped := true;
        } else {
          Marks();
          var b', y' := TrimAround(b, '@', y);
          CutAt(b', '@', y');
          CharsOfTrim(y');
          NoIndex(Trim(y'), ':');
        }
      }
    }
  }

  /** An edit of a cell is read exactly by its shape: what stands before the first arrow, between that and the last at
      sign, between that and the last colon, and behind it, each trimmed; and it is refused as malformed if it has not
      that shape or one of the three it needs is missing, and as no edit if it changes nothing. */
  lemma EditIs(edit: string)
    ensures var e := Trim(edit);
            var body := if "~ " <= e then e[2..] else e;
            && (forall a, b, c, d | Shaped(Trim(body), a, b, c, d) ::
                  ParseEdit(edit) ==
                  match Reading(a, b, c, d) { case Parsed(m) => Parsed(m.(equivalent := "~ " <= e)) case Bad(reason) => Bad(reason) })
            && ((forall a, b, c, d :: !Shaped(Trim(body), a, b, c, d)) ==> ParseEdit(edit) == Bad(Malformed))
  {
    hide IsSpace, Trim, ParseMutation, PositiveInt, Shaped;
    var e := Trim(edit);
    var body := if "~ " <= e then e[2..] else e;
    forall a, b, c, d | Shaped(Trim(body), a, b, c, d) ensures ParseMutation(body) == Reading(a, b, c, d) {
      ShapeIsRead(body, a, b, c, d);
    }
    var _, _, _, _, _ := ShapeOrBad(body);
  }

  /** A line number is a numeral of at least one, with a plus sign or without, that fits a 64-bit integer. */
  lemma LineIs(s: string, n: nat)
    requires n >= 1
    ensures PositiveInt(s) == n <==>
            n <= 9223372036854775807 && var digits := if s != "" && s[0] == '+' then s[1..] else s; Digits(digits) && Decimal(digits) == n
  {}

  // ---------------------------------------------------------------- a survey

  lemma {:induction false} SplitIs(s: string, sep: string)
    requires sep != ""
    ensures Join(SplitOn(s, sep), sep) == s && forall i | 0 <= i < |SplitOn(s, sep)| :: !Contains(SplitOn(s, sep)[i], sep)
    decreases |s|
  {
    hide IndexFrom;
    var i := Index(s, sep);
    if i >= 0 {
      var first, rest := s[..i], s[i + |sep|..];
      SplitIs(rest, sep);
      assert SplitOn(s, sep)[1..] == SplitOn(rest, sep);
      assert s == first + sep + rest;
      forall j: nat | j + |sep| <= |first| ensures !OccursAt(first, sep, j) {
        assert !OccursAt(s, sep, j);
        assert s[j..j + |sep|] == first[j..j + |sep|];
      }
    }
  }

  /** The first edit that cannot be read, and why. */
  predicate FirstBad(parts: seq<string>, i: int, reason: Mutations.Reason) {
    0 <= i < |parts| && ParseEdit(parts[i]) == Bad(reason) && forall j | 0 <= j < i :: ParseEdit(parts[j]).Parsed?
  }

  /** A cell is the edits between its separators, all of them or, if one cannot be read, none, for the reason of the
      first that cannot. */
  lemma SurveyIs(cell: string)
    ensures var parts, r := SplitOn(Trim(cell), " ;; "), ParseMutations(cell);
            && (r.Parsed? ==> |r.value| == |parts| && forall i | 0 <= i < |parts| :: ParseEdit(parts[i]) == Parsed(r.value[i]))
            && (r.Bad? ==> exists i :: FirstBad(parts, i, r.reason))
  {
    hide SplitOn, ParseEdit, Trim, FirstBad;
    var parts := SplitOn(Trim(cell), " ;; ");
    assert SEPARATOR == " ;; " && ParseMutations(cell) == ParseEdits(parts);
    EditsAre(parts);
    if ParseMutations(cell).Bad? {
      var i :| FirstBad(parts, i, ParseMutations(cell).reason);
      assert FirstBad(SplitOn(Trim(cell), " ;; "), i, ParseMutations(cell).reason);
    }
  }

  lemma {:induction false} EditsAre(parts: seq<string>)
    ensures var r := ParseEdits(parts);
            && (r.Parsed? ==> |r.value| == |parts| && forall i | 0 <= i < |parts| :: ParseEdit(parts[i]) == Parsed(r.value[i]))
            && (r.Bad? ==> exists i :: FirstBad(parts, i, r.reason))
  {
    hide ParseEdit;
    if parts != [] {
      var n := |parts| - 1;
      EditsAre(parts[..n]);
      var r := ParseEdits(parts[..n]);
      if r.Bad? {
        var i :| FirstBad(parts[..n], i, r.reason);
        assert parts[i] == parts[..n][i] && forall j | 0 <= j < i :: parts[j] == parts[..n][j];
        assert FirstBad(parts, i, r.reason);
      } else {
        forall j | 0 <= j < n ensures ParseEdit(parts[j]) == Parsed(r.value[j]) {
          assert parts[..n][j] == parts[j];
        }
        if ParseEdit(parts[n]).Bad? {
          assert FirstBad(parts, n, ParseEdit(parts[n]).reason);
        }
      }
    }
  }

  // ---------------------------------------------------------------- a path

  /** Where a path leads from a directory, taken segment by segment. */
  function Walk(dir: Path, parts: seq<string>): Path
    decreases |parts|
  {
    if parts == [] then dir
    else Walk(if parts[0] == "" || parts[0] == "." then dir
              else if parts[0] == ".." then (if dir == [] then [] else dir[..|dir| - 1])
              else dir + [parts[0]], parts[1..])
  }

  function Steps(p: Path): nat {
    if p == [] then 0 else Steps(p[..|p| - 1]) + if p[|p| - 1] == ".." then 1 else 0
  }

  /** No segment of it stays where it is. */
  predicate NoStays(p: Path) {
    forall i | 0 <= i < |p| :: p[i] != "" && p[i] != "."
  }

  lemma {:induction false} WalkBoth(dir: Path, a: seq<string>, b: seq<string>)
    ensures Walk(dir, a + b) == Walk(Walk(dir, a), b)
    decreases |a|
  {
    if a == [] {
      assert a + b == b;
    } else {
      assert (a + b)[1..] == a[1..] + b && (a + b)[0] == a[0];
      var next := Walk(dir, [a[0]]);
      WalkOne(dir, a[0]);
      assert Walk(dir, a) == Walk(next, a[1..]);
      assert Walk(dir, a + b) == Walk(next, a[1..] + b);
      WalkBoth(next, a[1..], b);
    }
  }

  lemma WalkOne(dir: Path, s: string)
    ensures Walk(dir, [s]) == if s == "" || s == "." then dir
                              else if s == ".." then (if dir == [] then [] else dir[..|dir| - 1]) else dir + [s]
  {
    assert [s][1..] == [];
  }

  /** Cleaning a path does not change where it leads, from any directory, and leaves no segment that stays. */
  lemma {:induction false} CleanFromLeads(dir: Path, parts: seq<string>, done: Path)
    requires NoStays(done)
    ensures Walk(dir, CleanFrom(parts, done)) == Walk(Walk(dir, done), parts) && NoStays(CleanFrom(parts, done))
    decreases |parts|
  {
    if parts != [] {
      var s, here := parts[0], Walk(dir, done);
      var next := if s == "" || s == "." then done
                  else if s != ".." then done + [s]
                  else if done != [] && done[|done| - 1] != ".." then done[..|done| - 1]
                  else done + [".."];
      WalkOne(here, s);
      assert parts == [s] + parts[1..];
      WalkBoth(here, [s], parts[1..]);
      if s == ".." && done != [] && done[|done| - 1] != ".." {
        var last := done[|done| - 1];
        assert done == next + [last];
        WalkBoth(dir, next, [last]);
        WalkOne(Walk(dir, next), last);
      } else if s != "" && s != "." {
        WalkBoth(dir, done, [s]);
      }
      CleanFromLeads(dir, parts[1..], next);
    }
  }

  lemma CleanLeads(dir: Path, path: string)
    ensures Walk(dir, Clean(path)) == Walk(dir, SplitOn(path, "/")) && NoStays(Clean(path))
  {
    hide SplitOn;
    CleanFromLeads(dir, SplitOn(path, "/"), []);
  }

  // ---------------------------------------------------------------- the tree

  /** The text occurs in the file, and nowhere clear of its first place. */
  ghost predicate OnlyOnce(content: string, t: string) {
    exists i: nat ::
      OccursAt(content, t, i) && (forall j: nat | j < i :: !OccursAt(content, t, j)) &&
      forall j: nat | i + (if t == "" then 1 else |t|) <= j :: !OccursAt(content, t, j)
  }

  lemma CountOnce(content: string, t: string)
    ensures Count(content, t) == 1 <==> OnlyOnce(content, t)
    ensures Count(content, t) == 0 <==> forall j: nat :: !OccursAt(content, t, j)
  {
    hide IndexFrom;
    if t == "" {
      forall j: nat ensures OccursAt(content, t, j) <==> j <= |content| {
        assert j <= |content| ==> content[j..j] == "";
      }
      assert OccursAt(content, t, 0) && (content != "" ==> OccursAt(content, t, 1));
    } else {
      CountStep(content, t, 0);
      var i := Index(content, t);
      if i >= 0 {
        CountStep(content, t, i + |t|);
        if Count(content, t) == 1 {
          CountsOne(content, t);
        }
        if OnlyOnce(content, t) {
          var k: nat :| OccursAt(content, t, k) && (forall j: nat | j < k :: !OccursAt(content, t, j)) &&
                        forall j: nat | k + |t| <= j :: !OccursAt(content, t, j);
          IndexIs(content, t, k);
          var next := IndexFrom(content, t, i + |t|);
          assert next < 0;
        }
      }
    }
  }

  ghost predicate Holds(line: string, t: string) {
    exists i: nat :: OccursAt(line, t, i)
  }

  /** An edit may be made exactly if its path is relative and leads nowhere out of the tree, to a file, the file has the
      line, the line holds the text, and the file holds it only once. */
  lemma ValidIff(tree: Tree, m: Mutation, content: string)
    requires m.line >= 1
    ensures ValidateMutation(tree, m) == Valid(content) <==>
            && !("/" <= m.path) && (Clean(m.path) != [] ==> Clean(m.path)[0] != "..")
            && Clean(m.path) in tree && tree[Clean(m.path)] == File(content)
            && m.line <= |Lines(content)| && Holds(Lines(content)[m.line - 1], m.oldText)
            && OnlyOnce(content, m.oldText)
    ensures ValidateMutation(tree, m) == Invalid(Ambiguous) ==>
              Clean(m.path) in tree && tree[Clean(m.path)].File? && !OnlyOnce(tree[Clean(m.path)].content, m.oldText)
    ensures ValidateMutation(tree, m) == Invalid(NoLine) ==>
              Clean(m.path) in tree && tree[Clean(m.path)].File? && m.line > |Lines(tree[Clean(m.path)].content)|
  {
    hide Lines, CleanFrom, IndexFrom, CountFrom, SplitOn;
    var p := Clean(m.path);
    if p in tree && tree[p].File? {
      CountOnce(tree[p].content, m.oldText);
      if m.line <= |Lines(tree[p].content)| {
        var line := Lines(tree[p].content)[m.line - 1];
        assert Contains(line, m.oldText) <==> Holds(line, m.oldText);
      }
    }
  }
}
