/** The few operations of Go's `strings` package the plan engine is written in: trimming, splitting a
    document into lines, searching and ASCII case folding. A string is a sequence of characters. */
module Text {

  /** Unicode white space as ranges of code points: the set `strings.TrimSpace` removes. */
  const WHITE_SPACE: seq<(int, int)> :=
    [(9, 13), (32, 32), (0x85, 0x85), (0xA0, 0xA0), (0x1680, 0x1680), (0x2000, 0x200a), (0x2028, 0x2029),
     (0x202f, 0x202f), (0x205f, 0x205f), (0x3000, 0x3000)]

  predicate InRanges(n: int, ranges: seq<(int, int)>) {
    ranges != [] && (ranges[0].0 <= n <= ranges[0].1 || InRanges(n, ranges[1..]))
  }

  predicate IsSpace(c: char) {
    InRanges(c as int, WHITE_SPACE)
  }

  lemma {:induction false} InRangesIff(n: int, ranges: seq<(int, int)>)
    ensures InRanges(n, ranges) <==> exists i :: 0 <= i < |ranges| && ranges[i].0 <= n <= ranges[i].1
  {
    if ranges != [] {
      InRangesIff(n, ranges[1..]);
      if i :| 0 <= i < |ranges| && ranges[i].0 <= n <= ranges[i].1 {
        assert i > 0 ==> ranges[1..][i - 1] == ranges[i];
      }
      if i :| 0 <= i < |ranges[1..]| && ranges[1..][i].0 <= n <= ranges[1..][i].1 {
        assert ranges[i + 1] == ranges[1..][i];
      }
    }
  }

  /** The white space of Unicode, character by character. */
  lemma SpaceIs(c: char)
    ensures IsSpace(c) <==>
            var n := c as int;
            n == 0x09 || n == 0x0A || n == 0x0B || n == 0x0C || n == 0x0D || n == 0x20 || n == 0x85 || n == 0xA0 || n == 0x1680 ||
            0x2000 <= n <= 0x200A || n == 0x2028 || n == 0x2029 || n == 0x202F || n == 0x205F || n == 0x3000
  {
    InRangesIff(c as int, WHITE_SPACE);
    assert WHITE_SPACE[0] == (9, 13) && WHITE_SPACE[1] == (32, 32) && WHITE_SPACE[2] == (0x85, 0x85);
    assert WHITE_SPACE[3] == (0xA0, 0xA0) && WHITE_SPACE[4] == (0x1680, 0x1680) && WHITE_SPACE[5] == (0x2000, 0x200A);
    assert WHITE_SPACE[6] == (0x2028, 0x2029) && WHITE_SPACE[7] == (0x202F, 0x202F) && WHITE_SPACE[8] == (0x205F, 0x205F);
    assert WHITE_SPACE[9] == (0x3000, 0x3000);
  }

  /** The ASCII characters between the space and the delete are the ones rows are made of; none is a space. */
  lemma Printable(c: char)
    requires 33 <= c as int <= 126
    ensures !IsSpace(c)
  {
    InRangesIff(c as int, WHITE_SPACE);
  }

  lemma Blank(c: char)
    requires c == ' ' || '\t' <= c <= '\r'
    ensures IsSpace(c)
  {
    InRangesIff(c as int, WHITE_SPACE);
    assert WHITE_SPACE[0] == (9, 13) && WHITE_SPACE[1] == (32, 32);
  }

  /** Every character of s[from..to] is a space. */
  predicate Spaces(s: string, from: nat, to: nat)
    requires to <= |s|
  {
    forall i | from <= i < to :: IsSpace(s[i])
  }

  predicate AllSpace(s: string) {
    Spaces(s, 0, |s|)
  }

  /** The number of leading spaces. */
  function LeadFrom(s: string, i: nat): (n: nat)
    requires i <= |s|
    ensures i <= n <= |s| && Spaces(s, i, n)
    ensures n < |s| ==> !IsSpace(s[n])
    decreases |s| - i
  {
    if i == |s| || !IsSpace(s[i]) then i else LeadFrom(s, i + 1)
  }

  function Lead(s: string): (n: nat)
    ensures n <= |s| && Spaces(s, 0, n)
    ensures n < |s| ==> !IsSpace(s[n])
  {
    LeadFrom(s, 0)
  }

  /** The length of s[..n] once trailing spaces are dropped. */
  function LastTo(s: string, n: nat): (r: nat)
    requires n <= |s|
    ensures r <= n && Spaces(s, r, n)
    ensures 0 < r ==> !IsSpace(s[r - 1])
  {
    if n == 0 || !IsSpace(s[n - 1]) then n else LastTo(s, n - 1)
  }

  function Last(s: string): (n: nat)
    ensures n <= |s| && Spaces(s, n, |s|)
    ensures 0 < n ==> !IsSpace(s[n - 1])
  {
    LastTo(s, |s|)
  }

  function Trim(s: string): string {
    if Lead(s) < Last(s) then s[Lead(s)..Last(s)] else ""
  }

  predicate Bare(s: string) {
    s != [] ==> !IsSpace(s[0]) && !IsSpace(s[|s| - 1])
  }

  lemma EdgesAre(s: string, a: nat, b: nat)
    requires a < b <= |s| && Spaces(s, 0, a) && Spaces(s, b, |s|)
    requires !IsSpace(s[a]) && !IsSpace(s[b - 1])
    ensures Lead(s) == a && Last(s) == b
  {}

  lemma TrimSpaces(s: string)
    requires AllSpace(s)
    ensures Trim(s) == ""
  {
    assert Lead(s) == |s|;
  }

  lemma SpacesConcat(pre: string, mid: string, post: string)
    requires AllSpace(pre) && AllSpace(post)
    ensures Spaces(pre + mid + post, 0, |pre|)
    ensures Spaces(pre + mid + post, |pre| + |mid|, |pre + mid + post|)
  {
    var s := pre + mid + post;
    forall i | 0 <= i < |pre| ensures IsSpace(s[i]) {
      assert s[i] == pre[i];
    }
    forall i | |pre| + |mid| <= i < |s| ensures IsSpace(s[i]) {
      assert s[i] == post[i - |pre| - |mid|];
    }
  }

  /** Trimming is decided by its shape: spaces, a bare middle, spaces. */
  lemma TrimIs(pre: string, mid: string, post: string)
    requires AllSpace(pre) && AllSpace(post) && Bare(mid)
    ensures Trim(pre + mid + post) == mid
    ensures mid != [] ==> Lead(pre + mid + post) == |pre| && Last(pre + mid + post) == |pre| + |mid|
  {
    var s := pre + mid + post;
    SpacesConcat(pre, mid, post);
    if mid == [] {
      TrimSpaces(s);
    } else {
      assert s[|pre|] == mid[0];
      assert s[|pre| + |mid| - 1] == mid[|mid| - 1];
      EdgesAre(s, |pre|, |pre| + |mid|);
      assert s[|pre|..|pre| + |mid|] == mid;
    }
  }

  lemma TrimShape(s: string) returns (pre: string, post: string)
    ensures AllSpace(pre) && AllSpace(post) && Bare(Trim(s))
    ensures s == pre + Trim(s) + post
    ensures Trim(s) != [] ==> pre == s[..Lead(s)] && post == s[Last(s)..]
  {
    hide IsSpace, LeadFrom, LastTo;
    var a, b := Lead(s), Last(s);
    if a < b {
      pre, post := s[..a], s[b..];
      forall i | 0 <= i < |post| ensures IsSpace(post[i]) {
        assert post[i] == s[b + i];
      }
    } else {
      pre, post := s, "";
      forall i | 0 <= i < |s| ensures IsSpace(s[i]) {
        assert i < a || b <= i;
      }
    }
  }

  lemma TrimBare(s: string)
    requires Bare(s)
    ensures Trim(s) == s
  {
    TrimIs([], s, []);
    assert [] + s + [] == s;
  }

  lemma TrimTwice(s: string)
    ensures Bare(Trim(s)) && Trim(Trim(s)) == Trim(s)
  {
    var _, _ := TrimShape(s);
    TrimBare(Trim(s));
  }

  lemma SpacesJoin(a: string, b: string)
    requires AllSpace(a) && AllSpace(b)
    ensures AllSpace(a + b)
  {
    forall i | 0 <= i < |a + b| ensures IsSpace((a + b)[i]) {
      assert (a + b)[i] == if i < |a| then a[i] else b[i - |a|];
    }
  }

  lemma TrimPadded(pre: string, s: string, post: string)
    requires AllSpace(pre) && AllSpace(post)
    ensures Trim(pre + s + post) == Trim(s)
  {
    hide Trim, Spaces, IsSpace;
    var a, b := TrimShape(s);
    assert pre + s + post == (pre + a) + Trim(s) + (b + post);
    SpacesJoin(pre, a);
    SpacesJoin(b, post);
    TrimIs(pre + a, Trim(s), b + post);
  }

  lemma TrimEmptyIff(s: string)
    ensures Trim(s) == "" <==> AllSpace(s)
  {
    var a, b := TrimShape(s);
    if AllSpace(s) {
      TrimSpaces(s);
    }
    if Trim(s) == "" {
      SpacesJoin(a, b);
      assert s == a + b;
    }
  }

  predicate HasPrefix(s: string, p: string) {
    p <= s
  }

  predicate HasSuffix(s: string, p: string) {
    |p| <= |s| && s[|s| - |p|..] == p
  }

  function TrimPrefix(s: string, p: string): string {
    if HasPrefix(s, p) then s[|p|..] else s
  }

  function TrimSuffix(s: string, p: string): string {
    if HasSuffix(s, p) then s[..|s| - |p|] else s
  }

  lemma Assoc<T>(a: seq<T>, b: seq<T>, c: seq<T>)
    ensures (a + b) + c == a + (b + c)
  {}

  lemma DropFirst<T>(a: seq<T>, b: seq<T>)
    ensures (a + b)[..|a|] == a && (a + b)[|a|..] == b
  {}

  predicate OccursAt(s: string, sub: string, i: nat) {
    i + |sub| <= |s| && s[i..i + |sub|] == sub
  }

  /** `strings.Index`: the first place `sub` occurs at or after `from`, or -1. */
  function IndexFrom(s: string, sub: string, from: nat): (i: int)
    requires from <= |s|
    ensures i == -1 || (from <= i && OccursAt(s, sub, i))
    ensures forall j: nat | from <= j && (i == -1 || j < i) :: !OccursAt(s, sub, j)
    decreases |s| - from
  {
    if OccursAt(s, sub, from) then from
    else if from == |s| then -1
    else IndexFrom(s, sub, from + 1)
  }

  function Index(s: string, sub: string): (i: int)
    ensures i == -1 || (0 <= i && OccursAt(s, sub, i))
    ensures forall j: nat | i == -1 || j < i :: !OccursAt(s, sub, j)
  {
    IndexFrom(s, sub, 0)
  }

  predicate Contains(s: string, sub: string) {
    Index(s, sub) >= 0
  }

  lemma IndexIs(s: string, sub: string, i: nat)
    requires OccursAt(s, sub, i)
    requires forall j: nat | j < i :: !OccursAt(s, sub, j)
    ensures Index(s, sub) == i
  {}

  lemma OccursHead(s: string, sub: string, i: nat)
    requires OccursAt(s, sub, i) && sub != ""
    ensures s[i] == sub[0]
  {
    assert s[i..i + |sub|][0] == s[i];
  }

  lemma TrimIndex(s: string)
    requires Trim(s) != ""
    ensures Index(s, Trim(s)) == Lead(s)
  {
    var pre, post := TrimShape(s);
    assert OccursAt(s, Trim(s), Lead(s));
    forall j: nat | j < Lead(s) ensures !OccursAt(s, Trim(s), j) {
      assert IsSpace(s[j]);
      if OccursAt(s, Trim(s), j) {
        OccursHead(s, Trim(s), j);
      }
    }
    IndexIs(s, Trim(s), Lead(s));
  }

  // ---------------------------------------------------------------- lines

  predicate OneLine(s: string) {
    '\n' !in s
  }

  predicate AllOneLine(ls: seq<string>) {
    forall i | 0 <= i < |ls| :: OneLine(ls[i])
  }

  lemma TrimOneLine(s: string)
    requires OneLine(s)
    ensures OneLine(Trim(s))
  {
    hide Lead, Last;
  }

  /** `strings.Split(doc, "\n")`. */
  function Lines(doc: string): (ls: seq<string>)
    ensures |ls| >= 1 && AllOneLine(ls)
  {
    if doc == "" then [""]
    else if doc[0] == '\n' then [""] + Lines(doc[1..])
    else
      var rest := Lines(doc[1..]);
      [[doc[0]] + rest[0]] + rest[1..]
  }

  /** `strings.Join(ls, sep)`. */
  function Join(ls: seq<string>, sep: string): string
    requires ls != []
  {
    if |ls| == 1 then ls[0] else ls[0] + sep + Join(ls[1..], sep)
  }

  function Unlines(ls: seq<string>): string
    requires ls != []
  {
    Join(ls, "\n")
  }

  lemma {:induction false} UnlinesLines(doc: string)
    ensures Unlines(Lines(doc)) == doc
  {
    if doc == "" {
    } else {
      UnlinesLines(doc[1..]);
      var rest := Lines(doc[1..]);
      if doc[0] == '\n' {
        assert ([""] + rest)[1..] == rest;
      } else {
        var ls := [[doc[0]] + rest[0]] + rest[1..];
        assert ls[1..] == rest[1..];
      }
    }
  }

  lemma {:induction false} LinesCons(line: string, rest: string)
    requires OneLine(line)
    ensures Lines(line + "\n" + rest) == [line] + Lines(rest)
    decreases |line|
  {
    var doc := line + "\n" + rest;
    if line == "" {
      assert doc[1..] == rest;
    } else {
      LinesCons(line[1..], rest);
      assert doc[1..] == line[1..] + "\n" + rest;
      assert [line[0]] + line[1..] == line;
    }
  }

  lemma {:induction false} LinesOne(line: string)
    requires OneLine(line)
    ensures Lines(line) == [line]
  {
    if line != "" {
      LinesOne(line[1..]);
      assert [line[0]] + line[1..] == line;
    }
  }

  lemma {:induction false} LinesUnlines(ls: seq<string>)
    requires ls != [] && AllOneLine(ls)
    ensures Lines(Unlines(ls)) == ls
  {
    if |ls| == 1 {
      LinesOne(ls[0]);
    } else {
      LinesUnlines(ls[1..]);
      LinesCons(ls[0], Unlines(ls[1..]));
    }
  }

  /** The offset at which part `k` starts in the joined text. */
  function PartStart(ls: seq<string>, sep: string, k: nat): nat
    requires k <= |ls|
  {
    if k == 0 then 0 else PartStart(ls, sep, k - 1) + |ls[k - 1]| + |sep|
  }

  lemma {:induction false} PartStartShift(ls: seq<string>, sep: string, k: nat)
    requires 1 <= k <= |ls|
    ensures PartStart(ls, sep, k) == |ls[0]| + |sep| + PartStart(ls[1..], sep, k - 1)
  {
    if k > 1 {
      PartStartShift(ls, sep, k - 1);
      assert ls[k - 1] == ls[1..][k - 2];
    }
  }

  /** Replacing one part of a joined text is one splice of its characters. */
  lemma {:induction false} JoinUpdate(ls: seq<string>, sep: string, k: nat, part: string)
    requires k < |ls|
    ensures var doc, at := Join(ls, sep), PartStart(ls, sep, k);
            at + |ls[k]| <= |doc| && doc[at..at + |ls[k]|] == ls[k] &&
            Join(ls[k := part], sep) == doc[..at] + part + doc[at + |ls[k]|..]
  {
    hide Join, PartStart;
    if k == 0 {
      FirstPart(ls, sep, part);
      assert Join(ls, sep)[..0] + part == part;
    } else {
      var tail := ls[1..];
      JoinUpdate(tail, sep, k - 1, part);
      PartStartShift(ls, sep, k);
      assert ls[k := part][1..] == tail[k - 1 := part];
      JoinTail(ls, sep);
      JoinTail(ls[k := part], sep);
      ShiftSplice(ls[0] + sep, Join(tail, sep), PartStart(tail, sep, k - 1), |ls[k]|, part);
    }
  }

  lemma JoinTail(ls: seq<string>, sep: string)
    requires |ls| > 1
    ensures Join(ls, sep) == (ls[0] + sep) + Join(ls[1..], sep)
  {}

  lemma FirstPart(ls: seq<string>, sep: string, part: string)
    requires ls != []
    ensures PartStart(ls, sep, 0) == 0 && |ls[0]| <= |Join(ls, sep)| && Join(ls, sep)[..|ls[0]|] == ls[0]
    ensures Join(ls[0 := part], sep) == part + Join(ls, sep)[|ls[0]|..]
  {
    if |ls| > 1 {
      assert ls[0 := part][1..] == ls[1..];
      Assoc(ls[0], sep, Join(ls[1..], sep));
      Assoc(part, sep, Join(ls[1..], sep));
      DropFirst(ls[0], sep + Join(ls[1..], sep));
    }
  }

  /** A splice behind a prefix. */
  lemma ShiftSplice(head: string, sub: string, off: nat, n: nat, part: string)
    requires off + n <= |sub|
    ensures var doc, at := head + sub, |head| + off;
            at + n <= |doc| && doc[at..at + n] == sub[off..off + n] &&
            doc[..at] + part + doc[at + n..] == head + (sub[..off] + part + sub[off + n..])
  {
    var doc, at := head + sub, |head| + off;
    assert doc[..at] == head + sub[..off];
    assert doc[at + n..] == sub[off + n..];
  }

  // ---------------------------------------------------------------- case

  /** Unicode simple folding onto the ASCII letters, as `strings.EqualFold` and a `(?i)` pattern see it
      when the other side is ASCII: the long s folds to s and the Kelvin sign to k. */
  function FoldChar(c: char): char {
    if 'A' <= c <= 'Z' then (c as int + 32) as char
    else if c as int == 0x17F then 's'
    else if c as int == 0x212A then 'k'
    else c
  }

  function Fold(s: string): (r: string)
    ensures |r| == |s|
  {
    if s == [] then [] else [FoldChar(s[0])] + Fold(s[1..])
  }

  predicate FoldEq(a: string, b: string) {
    Fold(a) == Fold(b)
  }

  /** `unicode.ToLower` where its image is ASCII, which is all a search for an ASCII word can see. */
  function LowerChar(c: char): char {
    if 'A' <= c <= 'Z' then (c as int + 32) as char
    else if c as int == 0x130 then 'i'
    else if c as int == 0x212A then 'k'
    else c
  }

  function Lower(s: string): (r: string)
    ensures |r| == |s|
  {
    if s == [] then [] else [LowerChar(s[0])] + Lower(s[1..])
  }

  /** The character is that letter in either case, where the long s is an s and the Kelvin sign a k, or the character
      itself. */
  predicate Spells(c: char, w: char) {
    c == w || ('a' <= w <= 'z' && c as int == w as int - 32) || (w == 's' && c as int == 0x17F) || (w == 'k' && c as int == 0x212A)
  }

  /** Folding tells whether a text spells a word in ASCII without capitals. */
  lemma {:induction false} FoldIs(s: string, w: string)
    requires forall i | 0 <= i < |w| :: w[i] as int < 128 && !('A' <= w[i] <= 'Z')
    ensures Fold(s) == w <==> |s| == |w| && forall i | 0 <= i < |s| :: Spells(s[i], w[i])
  {
    if s != "" && w != "" {
      FoldIs(s[1..], w[1..]);
      assert Fold(s)[0] == FoldChar(s[0]) && Fold(s)[1..] == Fold(s[1..]);
      assert Fold(s) == w <==> Fold(s)[0] == w[0] && Fold(s)[1..] == w[1..];
      assert forall i | 0 < i < |s| :: s[i] == s[1..][i - 1];
      assert forall i | 0 < i < |w| :: w[i] == w[1..][i - 1];
    }
  }

  /** The same for lower case, in which the dotted capital I is an i and the Kelvin sign a k. */
  lemma {:induction false} LowerIs(s: string, w: string)
    requires forall i | 0 <= i < |w| :: w[i] as int < 128 && !('A' <= w[i] <= 'Z')
    ensures Lower(s) == w <==> |s| == |w| && forall i | 0 <= i < |s| ::
              s[i] == w[i] || ('a' <= w[i] <= 'z' && s[i] as int == w[i] as int - 32) ||
              (w[i] == 'i' && s[i] as int == 0x130) || (w[i] == 'k' && s[i] as int == 0x212A)
  {
    if s != "" && w != "" {
      LowerIs(s[1..], w[1..]);
      assert Lower(s)[0] == LowerChar(s[0]) && Lower(s)[1..] == Lower(s[1..]);
      assert Lower(s) == w <==> Lower(s)[0] == w[0] && Lower(s)[1..] == w[1..];
      assert forall i | 0 < i < |s| :: s[i] == s[1..][i - 1];
      assert forall i | 0 < i < |w| :: w[i] == w[1..][i - 1];
    }
  }
}
