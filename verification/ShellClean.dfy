/** Every command whose expansion bodies are plain has a reading; and the two marker passes together refuse exactly the
    commands with something live in it, but for a substitution that a line continuation hides. */
module ShellClean {
  import opened Shell
  import opened ShellGrammar
  import opened ShellJoins
  import opened ShellReading
  import Strings = Text

  // ---------------------------------------------------------------- which texts have one

  /** No quote, no backslash, and no brace opens but behind a dollar sign. */
  predicate PlainBody(b: string) {
    forall k | 0 <= k < |b| :: PlainAt(b, k)
  }

  predicate PlainAt(b: string, k: nat)
    requires k < |b|
  {
    b[k] !in "'\"\\" && (b[k] == '{' ==> k > 0 && b[k - 1] == '$')
  }

  /** The expansion is closed, and its body is plain. */
  predicate ProperExpansion(s: string) {
    Opens(s, '{') && CloseFrom(s, 2, 1) < |s| && PlainBody(s[2..CloseFrom(s, 2, 1)])
  }

  /** Every dollar sign with a brace behind it, when lines are joined, starts such an expansion. */
  predicate Proper(s: string) {
    forall i | 0 <= i < |s| && s[i] == '$' && BraceAhead(s[i + 1..]) :: ProperExpansion(s[i..])
  }

  lemma ProperTail(s: string, n: nat)
    requires Proper(s) && n <= |s|
    ensures Proper(s[n..])
  {
    hide ProperExpansion, BraceAhead;
    var t := s[n..];
    forall i | 0 <= i < |t| && t[i] == '$' && BraceAhead(t[i + 1..]) ensures ProperExpansion(t[i..]) {
      assert t[i + 1..] == s[n + i + 1..] && t[i..] == s[n + i..];
    }
  }

  /** The first close in a text is the first close in what the text begins. */
  lemma {:induction false} CloseInPrefix(s: string, more: string, j: nat, depth: nat)
    requires j <= |s|
    ensures CloseFrom(s, j, depth) < |s| ==> CloseFrom(s + more, j, depth) == CloseFrom(s, j, depth)
    ensures CloseFrom(s + more, j, depth) < |s| ==> CloseFrom(s, j, depth) == CloseFrom(s + more, j, depth)
    decreases |s| - j
  {
    if j < |s| {
      assert (s + more)[j] == s[j];
      if s[j] == '{' {
        CloseInPrefix(s, more, j + 1, depth + 1);
      } else if s[j] == '}' {
        CloseInPrefix(s, more, j + 1, if depth == 0 then 0 else depth - 1);
      } else {
        CloseInPrefix(s, more, j + 1, depth);
      }
    }
  }

  /** Closing two levels is closing one, and then the other. */
  lemma {:induction false} CloseTwice(s: string, j: nat, depth: nat)
    requires j <= |s| && depth > 0 && CloseFrom(s, j, depth + 1) < |s|
    ensures CloseFrom(s, j, depth) < |s| && CloseFrom(s, j, depth + 1) == CloseFrom(s, CloseFrom(s, j, depth) + 1, 1)
    decreases |s| - j
  {
    if j < |s| {
      CloseStep(s, j, depth);
      CloseStep(s, j, depth + 1);
      if s[j] == '{' {
        CloseTwice(s, j + 1, depth + 1);
      } else if s[j] == '}' {
        if depth > 1 {
          CloseTwice(s, j + 1, depth - 1);
        }
      } else {
        CloseTwice(s, j + 1, depth);
      }
    }
  }

  /** The braces of the text match. */
  predicate Balanced(b: string) {
    CloseFrom(b + "}", 0, 1) == |b|
  }

  lemma BodyBalanced(s: string)
    requires Opens(s, '{') && CloseFrom(s, 2, 1) < |s|
    ensures Balanced(s[2..CloseFrom(s, 2, 1)])
  {
    var c := CloseFrom(s, 2, 1);
    var head := s[..c + 1];
    assert s == head + s[c + 1..];
    CloseInPrefix(head, s[c + 1..], 2, 1);
    CloseTail(head, 2, 2, 1);
    assert head[2..] == s[2..c] + "}";
  }

  lemma NestedCloses(b: string)
    requires Balanced(b) && Opens(b, '{')
    ensures CloseFrom(b + "}", 2, 2) == |b|
  {
    hide CloseFrom;
    var s := b + "}";
    assert s[0] == b[0] && s[1] == b[1];
    CloseStep(s, 0, 1);
    CloseStep(s, 1, 1);
  }

  lemma RestBalanced(b: string, n: nat)
    requires n <= |b| && CloseFrom(b + "}", n, 1) == |b|
    ensures Balanced(b[n..])
  {
    hide CloseFrom;
    CloseTail(b + "}", n, n, 1);
    assert (b + "}")[n..] == b[n..] + "}";
  }

  lemma NestedBalanced(b: string)
    requires Balanced(b) && Opens(b, '{')
    ensures CloseFrom(b, 2, 1) < |b| && Balanced(b[CloseFrom(b, 2, 1) + 1..])
  {
    hide CloseFrom, Balanced;
    var s := b + "}";
    NestedCloses(b);
    CloseTwice(s, 2, 1);
    CloseInPrefix(b, "}", 2, 1);
    RestBalanced(b, CloseFrom(s, 2, 1) + 1);
  }

  lemma CharBalanced(b: string)
    requires Balanced(b) && b != "" && b[0] != '{'
    ensures b[0] != '}' && Balanced(b[1..])
  {
    var s := b + "}";
    assert s[0] == b[0];
    CloseStep(s, 0, 1);
    CloseTail(s, 1, 1, 1);
    assert s[1..] == b[1..] + "}";
  }

  /** A plain body whose braces match is read. */
  lemma {:induction false} PlainIsRead(b: string)
    requires PlainBody(b) && Balanced(b)
    ensures ReadBody(b).Parts?
    decreases |b|
  {
    hide CloseFrom, Balanced;
    if b != "" {
      if Opens(b, '{') {
        var c := CloseFrom(b, 2, 1);
        NestedBalanced(b);
        BodyBalanced(b);
        PlainPart(b, 2, c);
        PlainPart(b, c + 1, |b|);
        assert b[c + 1..|b|] == b[c + 1..];
        PlainIsRead(b[2..c]);
        PlainIsRead(b[c + 1..]);
      } else {
        assert PlainAt(b, 0);
        CharBalanced(b);
        PlainPart(b, 1, |b|);
        assert b[1..|b|] == b[1..];
        PlainIsRead(b[1..]);
      }
    }
  }

  /** A part of a plain body is plain, unless it starts right behind a dollar sign with a brace. */
  lemma PlainPart(b: string, i: nat, j: nat)
    requires PlainBody(b) && 0 < i <= j <= |b| && (i < j && b[i] == '{' ==> b[i - 1] != '$')
    ensures PlainBody(b[i..j])
  {
    var t := b[i..j];
    forall k | 0 <= k < |t| ensures PlainAt(t, k) {
      assert PlainAt(b, i + k) && t[k] == b[i + k] && (k > 0 ==> t[k - 1] == b[i + k - 1]);
    }
  }

  lemma ProperIsRead(s: string)
    requires Proper(s) && Opens(s, '{')
    ensures CloseFrom(s, 2, 1) < |s| && ReadBody(s[2..CloseFrom(s, 2, 1)]).Parts?
  {
    hide CloseFrom, ReadBody, PlainBody;
    assert s[1..][0] == '{' && BraceAhead(s[0 + 1..]);
    assert s[0..] == s;
    BodyBalanced(s);
    PlainIsRead(s[2..CloseFrom(s, 2, 1)]);
  }

  lemma ProperDollar(s: string)
    requires Proper(s) && s != "" && s[0] == '$' && BraceAhead(s[1..])
    ensures Opens(s, '{')
  {
    hide CloseFrom, PlainBody, BraceAhead;
    assert s[0..] == s && s[0 + 1..] == s[1..];
    assert ProperExpansion(s[0..]);
  }

  lemma {:induction false} ItemsHaveReading(s: string)
    requires Proper(s)
    ensures !ReadItems(s).Unreadable? && (ReadItems(s).Closed? ==> Proper(ReadItems(s).rest))
    decreases |s|
  {
    hide CloseFrom, BraceAhead, Proper, ReadBody;
    if s == "" || s == "\\" {
    } else if s[0] == '"' {
      ProperTail(s, 1);
    } else if s[0] == '\\' {
      ProperTail(s, 2);
      ItemsHaveReading(s[2..]);
    } else if Opens(s, '{') {
      ProperIsRead(s);
      ProperTail(s, CloseFrom(s, 2, 1) + 1);
      ItemsHaveReading(s[CloseFrom(s, 2, 1) + 1..]);
    } else {
      ProperTail(s, 1);
      if s[0] == '$' && BraceAhead(s[1..]) {
        ProperDollar(s);
      }
      ItemsHaveReading(s[1..]);
    }
  }

  /** Every command whose expansions are closed and have a plain body has a reading. */
  lemma {:induction false} ProperHasReading(s: string)
    requires Proper(s)
    ensures ReadCommand(s).Reads?
    decreases |s|
  {
    hide CloseFrom, BraceAhead, Proper, ReadBody, ReadItems, SingleEnd;
    if s == "" || s == "\\" {
    } else if s[0] == '\\' {
      ProperTail(s, 2);
      ProperHasReading(s[2..]);
    } else if s[0] == '\'' {
      var n := SingleEnd(s[1..]);
      if 1 + n < |s| {
        ProperTail(s, n + 2);
        ProperHasReading(s[n + 2..]);
      }
    } else if s[0] == '"' {
      ProperTail(s, 1);
      ItemsHaveReading(s[1..]);
      if ReadItems(s[1..]).Closed? {
        ProperHasReading(ReadItems(s[1..]).rest);
      }
    } else if Opens(s, '{') {
      ProperIsRead(s);
      ProperTail(s, CloseFrom(s, 2, 1) + 1);
      ProperHasReading(s[CloseFrom(s, 2, 1) + 1..]);
    } else {
      ProperTail(s, 1);
      if s[0] == '$' && BraceAhead(s[1..]) {
        ProperDollar(s);
      }
      ProperHasReading(s[1..]);
    }
  }

  // ---------------------------------------------------------------- commands without expansions

  /** No dollar sign has a brace behind it, even when lines are joined. */
  predicate NoExpansion(s: string) {
    forall i | 0 <= i < |s| && s[i] == '$' :: !BraceAhead(s[i + 1..])
  }

  predicate Expandless(p: Parsed) {
    p.Reads? ==> forall i | 0 <= i < |p.r.words| :: !p.r.words[i].Expansion?
  }

  lemma PrependLess(w: Word, p: Parsed)
    requires Expandless(p) && !w.Expansion?
    ensures Expandless(Prepend(w, p))
  {}

  lemma {:induction false} NoneExpands(s: string)
    requires NoExpansion(s)
    ensures Expandless(ReadCommand(s))
    decreases |s|
  {
    hide NoExpansion, ReadItems, SingleEnd, BraceAhead, CloseFrom, ReadBody, Expandless, Prepend;
    if s == "" || s == "\\" {
      NothingExpands(s);
    } else if s[0] == '\\' {
      FewerExpansions(s, 2);
      NoneExpands(s[2..]);
      PrependLess(if s[1] == '\n' then Joined else Escaped(s[1]), ReadCommand(s[2..]));
    } else if s[0] == '\'' {
      var n := SingleEnd(s[1..]);
      if 1 + n < |s| {
        FewerExpansions(s, n + 2);
        NoneExpands(s[n + 2..]);
        PrependLess(InSingle(s[1..1 + n]), ReadCommand(s[n + 2..]));
      } else {
        TailExpands(OpenSingle(s[1..]));
      }
    } else if s[0] == '"' {
      var r := ReadItems(s[1..]);
      if r.Closed? {
        RestIsTail(s[1..]);
        FewerExpansions(s, |s| - |r.rest|);
        assert s[|s| - |r.rest|..] == s[1..][|s[1..]| - |r.rest|..];
        NoneExpands(r.rest);
        PrependLess(Doubled(r.items), ReadCommand(r.rest));
      } else if r.Unclosed? {
        TailExpands(OpenDouble(r.items, r.lone));
      } else {
        NoneIsLess();
      }
    } else {
      NotOpen(s);
      FewerExpansions(s, 1);
      NoneExpands(s[1..]);
      PrependLess(Bare(s[0]), ReadCommand(s[1..]));
      NoneIsLess();
    }
  }

  lemma NothingExpands(s: string)
    requires s == "" || s == "\\"
    ensures Expandless(ReadCommand(s))
  {}

  lemma TailExpands(t: Tail)
    ensures Expandless(Reads(Reading([], t)))
  {}

  lemma NoneIsLess()
    ensures Expandless(NoReading)
  {}

  lemma NotOpen(s: string)
    requires NoExpansion(s)
    ensures !Opens(s, '{')
  {
    if Opens(s, '{') {
      assert s[0 + 1..][0] == '{' && BraceAhead(s[0 + 1..]);
    }
  }

  lemma FewerExpansions(s: string, n: nat)
    requires NoExpansion(s) && n <= |s|
    ensures NoExpansion(s[n..])
  {
    hide BraceAhead;
    var t := s[n..];
    forall i | 0 <= i < |t| && t[i] == '$' ensures !BraceAhead(t[i + 1..]) {
      assert t[i + 1..] == s[n + i + 1..] && s[n + i] == '$';
    }
  }

  lemma {:induction false} RestIsTail(s: string)
    requires ReadItems(s).Closed?
    ensures ReadItems(s).rest == s[|s| - |ReadItems(s).rest|..]
    decreases |s|
  {
    hide CloseFrom, BraceAhead, ReadBody;
    if s[0] == '"' {
    } else if s[0] == '\\' {
      RestIsTail(s[2..]);
    } else if Opens(s, '{') {
      RestIsTail(s[CloseFrom(s, 2, 1) + 1..]);
    } else {
      RestIsTail(s[1..]);
    }
  }

  lemma NoExpansionProper(s: string)
    requires NoExpansion(s)
    ensures Proper(s)
  {}

  /** For every command without an expansion, the walk reports exactly the live markers of its one reading, but for a
      substitution that a continuation hides. */
  lemma ExactWithoutExpansions(command: string, m: string)
    requires NoExpansion(command)
    ensures ReadCommand(command).Reads?
    ensures var r := ReadCommand(command).r;
            Ok(r) && Text(r) == command && (m in Active(command) <==> Live(r, m) && !Hidden(r, m))
  {
    hide Live, Active, Text, Ok, Hidden, ReadCommand, Proper;
    NoExpansionProper(command);
    ProperHasReading(command);
    var r := ReadCommand(command).r;
    OneReading(command, r);
    WalkIsExact(r, m);
    NoneExpands(command);
    assert Expandless(Reads(r));
    NotInBody(r, m);
    HiddenIsLive(r, m);
  }

  lemma NotInBody(r: Reading, m: string)
    requires forall i | 0 <= i < |r.words| :: !r.words[i].Expansion?
    ensures !InBody(r, m)
  {}

  lemma HiddenIsLive(r: Reading, m: string)
    ensures Hidden(r, m) ==> Live(r, m)
  {
    hide Live, Splits, Shows;
    SubstitutionJoined(r.words, r.tail);
  }

  // ---------------------------------------------------------------- the two passes

  predicate Known(m: string) {
    m in Pass(false) || m in Pass(true)
  }

  lemma {:induction false} ReportsAreKnown(s: string, q: Quote)
    ensures forall m | m in Markers(s, q) :: Known(m)
    decreases |s|
  {
    hide Known, CloseFrom;
    if s != "" {
      ReportsAreKnown(s[1..], Unquoted);
      ReportsAreKnown(s[1..], Quote.Single);
      ReportsAreKnown(s[1..], Double);
      if |s| > 1 {
        ReportsAreKnown(s[2..], q);
        var close := CloseFrom(s, 2, 1);
        ReportsAreKnown(s[2..close], q);
        ReportsAreKnown(AfterBrace(s, close), q);
      }
      SubstitutionKnown();
      if s[0] in SEPARATORS {
        SeparatorKnown(s[0]);
      }
    }
  }

  lemma SubstitutionKnown()
    ensures Known(SUBSTITUTION)
  {
    assert SUBSTITUTION == Pass(false)[4];
  }

  lemma SeparatorKnown(c: char)
    requires c in SEPARATORS
    ensures Known([c])
  {
    var a, b := Pass(false), Pass(true);
    assert a[0] == "\n" && a[1] == ";" && a[2] == "&" && a[3] == "|" && a[5] == "(" && a[6] == ")" && a[7] == "{" && a[8] == "}";
    assert b[0] == "<" && b[1] == ">";
  }

  /** The two passes let a command through if and only if the walk reports nothing. */
  lemma PassesIffNoMarker(command: string)
    ensures CommandMarker(command, false).Clean? && CommandMarker(command, true).Clean? <==> Active(command) == {}
  {
    hide Active, Pass;
    ReportsAreKnown(command, Unquoted);
    assert forall m | m in Active(command) :: Known(m) by { assert Active(command) == Markers(command, Unquoted) by { ActiveIs(command); } }
    forall m | m in Active(command) ensures !(CommandMarker(command, false).Clean? && CommandMarker(command, true).Clean?) {
      if m in Pass(false) {
        var i :| 0 <= i < |Pass(false)| && Pass(false)[i] == m;
      } else {
        var i :| 0 <= i < |Pass(true)| && Pass(true)[i] == m;
      }
    }
  }

  lemma ActiveIs(command: string)
    ensures Active(command) == Markers(command, Unquoted)
  {
  }

  /** The marker a command is refused for is the first reported one of its pass: anything that makes it several commands
      or substitutes one comes first, redirections come late. */
  lemma FirstMarker(command: string)
    ensures var order := ["\n", ";", "&", "|", "$(", "(", ")", "{", "}"];
            var v := CommandMarker(command, false);
            if v.Clean? then forall i | 0 <= i < 9 :: order[i] !in Active(command)
            else exists i | 0 <= i < 9 ::
              order[i] in Active(command) && (forall j | 0 <= j < i :: order[j] !in Active(command)) &&
              v == if order[i] == "$(" then Substitutes else MultipleCommands(order[i])
    ensures CommandMarker(command, true) ==
            if "<" in Active(command) then Redirects("<") else if ">" in Active(command) then Redirects(">") else Clean
  {
    hide Active;
    FirstIs(Active(command), Pass(false));
    FirstIs(Active(command), Pass(true));
  }

  lemma {:induction false} FirstIs(active: set<string>, table: seq<string>)
    requires "" !in table
    ensures var m := FirstOf(active, table);
            m != "" ==> exists i | 0 <= i < |table| :: table[i] == m && m in active && forall j | 0 <= j < i :: table[j] !in active
  {
    if table != [] && table[0] !in active {
      var rest := table[1..];
      FirstIs(active, rest);
      var m := FirstOf(active, rest);
      if m != "" {
        var i :| 0 <= i < |rest| && rest[i] == m && forall j | 0 <= j < i :: rest[j] !in active;
        assert table[i + 1] == m;
        forall j | 0 <= j < i + 1 ensures table[j] !in active {
          assert j > 0 ==> table[j] == rest[j - 1];
        }
      }
    }
  }

  /** Nothing of the reading is live and nothing stands in the body of an unquoted expansion. */
  ghost predicate Inert(r: Reading) {
    forall m :: !Live(r, m) && !InBody(r, m)
  }

  /** The two passes let a command with a reading through if and only if nothing of it is live but perhaps a
      substitution that a continuation hides, and nothing stands in the body of an unquoted expansion; a command of one
      line, if and only if nothing is. */
  lemma CleanIffNothingLive(command: string, r: Reading)
    requires ReadCommand(command) == Reads(r)
    ensures CommandMarker(command, false).Clean? && CommandMarker(command, true).Clean? <==>
            forall m :: !InBody(r, m) && (Live(r, m) ==> Hidden(r, m))
    ensures Strings.OneLine(command) ==>
              (CommandMarker(command, false).Clean? && CommandMarker(command, true).Clean? <==> Inert(r))
  {
    hide Active, Live, CommandMarker, ReadCommand, Hidden, InBody, Ok, Text;
    OneReading(command, r);
    PassesIffNoMarker(command);
    forall m ensures m in Active(command) <==> InBody(r, m) || (Live(r, m) && !Hidden(r, m)) {
      WalkIsExact(r, m);
      HiddenIsNone(r, m);
    }
    if Strings.OneLine(command) {
      forall m ensures m in Active(command) <==> Live(r, m) || InBody(r, m) {
        ExactOnOneLine(r, m);
      }
    }
  }

  lemma HiddenIsNone(r: Reading, m: string)
    ensures Hidden(r, m) ==> !InBody(r, m)
  {
    BodiesHoldOne(r);
  }

  // ---------------------------------------------------------------- an input on which one is hidden

  const HIDING := "\"$\\\n(id)\""

  const HIDDEN := Reading([Doubled([Lit('$'), Join, Lit('('), Lit('i'), Lit('d'), Lit(')')])], Done)

  /** Both passes let a double-quoted substitution through that goes over the end of a line, and the shell runs it. */
  lemma ContinuationHides()
    ensures ReadCommand(HIDING) == Reads(HIDDEN) && NoExpansion(HIDING)
    ensures Live(HIDDEN, COMMAND_SUBSTITUTION) && CommandMarker(HIDING, false).Clean? && CommandMarker(HIDING, true).Clean?
  {
    hide ReadCommand, Live, Shows, CommandMarker, BraceAhead, Splits;
    HidingText();
    OneReading(HIDING, HIDDEN);
    HidingSplits();
    SubstitutionJoined(HIDDEN.words, HIDDEN.tail);
    forall m ensures !InBody(HIDDEN, m) && (Live(HIDDEN, m) ==> Hidden(HIDDEN, m)) {
      if m != COMMAND_SUBSTITUTION {
        SeparatorJoined(HIDDEN.words, HIDDEN.tail, m);
        HidingShows(m);
      }
    }
    CleanIffNothingLive(HIDING, HIDDEN);
  }

  lemma HidingText()
    ensures Ok(HIDDEN) && Text(HIDDEN) == HIDING && NoExpansion(HIDING)
  {
    hide ItemsOk, ItemsText, BraceAhead;
    HidingItems();
    HidingOk();
    assert HIDDEN.words[1..] == [];
    forall i | 0 <= i < |HIDING| && HIDING[i] == '$' ensures !BraceAhead(HIDING[i + 1..]) {
      assert i == 1;
      HidingBrace();
    }
  }

  lemma HidingBrace()
    ensures !BraceAhead(HIDING[2..])
  {
    assert HIDING[2..] == CONTINUATION + "(id)\"";
    JoinedStarts(HIDING[2..], "(id)\"");
  }

  lemma HidingItems()
    ensures ItemsText(HIDDEN.words[0].items) == "$\\\n(id)"
  {
    var items := HIDDEN.words[0].items;
    var tail := [Lit('('), Lit('i'), Lit('d'), Lit(')')];
    assert items[1..] == [Join] + tail && items[1..][1..] == tail;
    assert tail[1..] == [Lit('i'), Lit('d'), Lit(')')] && tail[1..][1..] == [Lit('d'), Lit(')')];
    assert tail[1..][1..][1..] == [Lit(')')] && tail[1..][1..][1..][1..] == [];
    assert ItemsText(tail) == "(id)";
  }

  lemma HidingOk()
    ensures ItemsOk(HIDDEN.words[0].items)
  {
    var items := HIDDEN.words[0].items;
    assert Past(items, Join, 1) == 2;
  }

  lemma HidingSplits()
    ensures Splits(HIDDEN) && !Shows(HIDDEN, COMMAND_SUBSTITUTION)
  {
    var items := HIDDEN.words[0].items;
    assert Past(items, Join, 1) == 2;
    assert SplitAt(items, Lit('$'), Join, Lit('('), 0);
    assert WordSplits(HIDDEN.words, 0);
  }

  lemma HidingShows(m: string)
    requires m != COMMAND_SUBSTITUTION
    ensures !Shows(HIDDEN, m)
  {}
}
