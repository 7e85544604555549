/** What is live in a command once its line continuations are removed, which is the first thing a shell does
    (sections 2.2.1 and 2.2.3 of the POSIX.1-2017 volume), and how far the walk reports it: it reads on past a
    continuation, so it does not see a substitution whose two characters one stands between. */
module ShellJoins {
  import opened Shell
  import opened ShellGrammar
  import Strings = Text

  // ---------------------------------------------------------------- the command with its lines joined

  function Dropped<T(==)>(s: seq<T>, x: T): seq<T> {
    if s == [] then [] else if s[0] == x then Dropped(s[1..], x) else [s[0]] + Dropped(s[1..], x)
  }

  function JoinedWord(w: Word): Word {
    if w.Doubled? then Doubled(Dropped(w.items, Join)) else w
  }

  function JoinedWords(words: seq<Word>): seq<Word> {
    if words == [] then []
    else if words[0].Joined? then JoinedWords(words[1..])
    else [JoinedWord(words[0])] + JoinedWords(words[1..])
  }

  function JoinedTail(t: Tail): Tail {
    if t.OpenDouble? then OpenDouble(Dropped(t.items, Join), t.lone) else t
  }

  /** The reading the shell has after it removed the continuations. */
  function Joins(r: Reading): Reading {
    Reading(JoinedWords(r.words), JoinedTail(r.tail))
  }

  /** The marker is live in the command the shell reads. */
  predicate Live(r: Reading, m: string) {
    Shows(Joins(r), m)
  }

  // ---------------------------------------------------------------- a substitution a continuation hides

  /** A dollar sign and a parenthesis with nothing but continuations between them, and one at least. */
  predicate SplitAt<T(==)>(s: seq<T>, dollar: T, join: T, open: T, i: nat)
    requires i < |s|
  {
    s[i] == dollar && var j := Past(s, join, i + 1); i + 1 < j < |s| && s[j] == open
  }

  predicate ItemsSplit(items: seq<Item>) {
    exists i | 0 <= i < |items| :: SplitAt(items, Lit('$'), Join, Lit('('), i)
  }

  predicate WordSplits(words: seq<Word>, i: nat)
    requires i < |words|
  {
    SplitAt(words, Bare('$'), Joined, Bare('('), i) || (words[i].Doubled? && ItemsSplit(words[i].items))
  }

  predicate Splits(r: Reading) {
    (exists i | 0 <= i < |r.words| :: WordSplits(r.words, i)) || (r.tail.OpenDouble? && ItemsSplit(r.tail.items))
  }

  // ---------------------------------------------------------------- one and the other

  lemma {:induction false} FirstDropped<T>(s: seq<T>, x: T)
    ensures var j := Past(s, x, 0); if j == |s| then Dropped(s, x) == [] else Dropped(s, x) != [] && Dropped(s, x)[0] == s[j]
  {
    if s != [] && s[0] == x {
      FirstDropped(s[1..], x);
      PastTail(s, x, 0);
    }
  }

  lemma SplitTail<T>(s: seq<T>, dollar: T, join: T, open: T, i: nat)
    requires s != [] && i < |s[1..]|
    ensures SplitAt(s, dollar, join, open, i + 1) <==> SplitAt(s[1..], dollar, join, open, i)
  {
    assert s[1..][i] == s[i + 1];
    PastTail(s, join, i + 1);
  }

  lemma SplitStep(items: seq<Item>)
    requires items != []
    ensures ItemsSplit(items) <==> SplitAt(items, Lit('$'), Join, Lit('('), 0) || ItemsSplit(items[1..])
  {
    hide SplitAt;
    if i :| 0 <= i < |items[1..]| && SplitAt(items[1..], Lit('$'), Join, Lit('('), i) {
      SplitTail(items, Lit('$'), Join, Lit('('), i);
    }
    if i :| 0 < i < |items| && SplitAt(items, Lit('$'), Join, Lit('('), i) {
      SplitTail(items, Lit('$'), Join, Lit('('), i - 1);
    }
  }

  lemma {:induction false} ItemsJoined(items: seq<Item>)
    ensures ItemsSubstitute(Dropped(items, Join)) <==> ItemsSubstitute(items) || ItemsSplit(items)
  {
    hide ItemsSubstitute, ItemsSplit, PartsSubstitute;
    if items == [] {
      NoItems();
      assert !ItemsSplit([]) by {
        NoSplit();
      }
    } else {
      var rest := items[1..];
      ItemsJoined(rest);
      ItemsStep(items);
      SplitStep(items);
      if items[0] != Join {
        var all := Dropped(items, Join);
        assert all[0] == items[0] && all[1..] == Dropped(rest, Join);
        ItemsStep(all);
        FirstDropped(rest, Join);
        PastTail(items, Join, 0);
      }
    }
  }

  lemma NoSplit()
    ensures !ItemsSplit([])
  {}

  lemma WordStepSplits(words: seq<Word>, t: Tail)
    requires words != []
    ensures Splits(Reading(words, t)) <==> WordSplits(words, 0) || Splits(Reading(words[1..], t))
  {
    hide SplitAt, ItemsSplit;
    var u := words[1..];
    if i :| 0 <= i < |u| && WordSplits(u, i) {
      SplitTail(words, Bare('$'), Joined, Bare('('), i);
      assert WordSplits(words, i + 1);
    }
    if i :| 0 < i < |words| && WordSplits(words, i) {
      SplitTail(words, Bare('$'), Joined, Bare('('), i - 1);
      assert WordSplits(u, i - 1);
    }
  }

  lemma {:induction false} FirstJoined(words: seq<Word>)
    ensures var j := Past(words, Joined, 0);
            if j == |words| then JoinedWords(words) == [] else JoinedWords(words) != [] && JoinedWords(words)[0] == JoinedWord(words[j])
  {
    if words != [] && words[0].Joined? {
      FirstJoined(words[1..]);
      PastTail(words, Joined, 0);
    }
  }

  /** The substitution that is live is one the text shows, or one that is split. */
  lemma {:induction false} SubstitutionJoined(words: seq<Word>, t: Tail)
    ensures Live(Reading(words, t), COMMAND_SUBSTITUTION) <==> Shows(Reading(words, t), COMMAND_SUBSTITUTION) || Splits(Reading(words, t))
    decreases |words|
  {
    hide ItemsSubstitute, ItemsSplit, PartsSubstitute, Dropped;
    if words == [] {
      if t.OpenDouble? {
        ItemsJoined(t.items);
      }
    } else {
      var rest := words[1..];
      SubstitutionJoined(rest, t);
      StepSubstitution(words, t);
      WordStepSplits(words, t);
      if words[0].Joined? {
        assert JoinedWords(words) == JoinedWords(rest);
        NotThere(words);
      } else {
        var all := JoinedWords(words);
        assert all[0] == JoinedWord(words[0]) && all[1..] == JoinedWords(rest);
        StepSubstitution(all, JoinedTail(t));
        FirstWord(words);
      }
    }
  }

  lemma NotThere(words: seq<Word>)
    requires words != [] && words[0].Joined?
    ensures !SubstitutesAt(words, 0) && !WordSplits(words, 0)
  {}

  lemma FirstWord(words: seq<Word>)
    requires words != [] && !words[0].Joined?
    ensures SubstitutesAt(JoinedWords(words), 0) <==> SubstitutesAt(words, 0) || WordSplits(words, 0)
  {
    hide ItemsSubstitute, ItemsSplit, PartsSubstitute, Dropped;
    var all, rest := JoinedWords(words), words[1..];
    assert all[0] == JoinedWord(words[0]) && all[1..] == JoinedWords(rest);
    FirstJoined(rest);
    PastTail(words, Joined, 0);
    if words[0].Doubled? {
      ItemsJoined(words[0].items);
    }
  }

  lemma {:induction false} SeparatorJoined(words: seq<Word>, t: Tail, m: string)
    requires m != COMMAND_SUBSTITUTION
    ensures Live(Reading(words, t), m) <==> Shows(Reading(words, t), m)
    decreases |words|
  {
    hide Dropped;
    if words != [] {
      var rest := words[1..];
      SeparatorJoined(rest, t, m);
      StepSeparator(words, t, m);
      if !words[0].Joined? {
        var all := JoinedWords(words);
        assert all[0] == JoinedWord(words[0]) && all[1..] == JoinedWords(rest);
        StepSeparator(all, JoinedTail(t), m);
      }
    }
  }

  // ---------------------------------------------------------------- how far the walk is exact

  /** A live substitution that a continuation hides from the walk, and that is the only one. */
  predicate Hidden(r: Reading, m: string) {
    m == COMMAND_SUBSTITUTION && Splits(r) && !Shows(r, COMMAND_SUBSTITUTION)
  }

  lemma BodiesHoldOne(r: Reading)
    ensures !InBody(r, COMMAND_SUBSTITUTION)
  {
    forall i | 0 <= i < |r.words| && r.words[i].Expansion? ensures !PartsHold(r.words[i].body, COMMAND_SUBSTITUTION) {
      OneCharacter(r.words[i].body);
    }
  }

  lemma {:induction false} OneCharacter(body: seq<Part>)
    ensures !PartsHold(body, COMMAND_SUBSTITUTION)
    decreases body
  {
    if body != [] {
      OneCharacter(body[1..]);
      assert |COMMAND_SUBSTITUTION| == 2;
      if body[0].Nested? {
        OneCharacter(body[0].body);
      }
    }
  }

  /** The walk reports the live markers of a command and the separators in the bodies of its unquoted expansions, for
      every command in which the body of each expansion holds no quote, no backslash and no brace but those of
      expansions nested in it; it reports nothing else, and misses one exactly if the command's only substitutions
      have a continuation between their two characters. */
  lemma WalkIsExact(r: Reading, m: string)
    requires Ok(r)
    ensures m in Active(Text(r)) ==> Live(r, m) || InBody(r, m)
    ensures Live(r, m) || InBody(r, m) ==> (m in Active(Text(r)) <==> !Hidden(r, m))
  {
    hide Shows, InBody, Splits, Live, Active, Text, Ok;
    WalkIsShown(r, m);
    if m == COMMAND_SUBSTITUTION {
      SubstitutionJoined(r.words, r.tail);
      BodiesHoldOne(r);
    } else {
      SeparatorJoined(r.words, r.tail, m);
    }
  }

  // ---------------------------------------------------------------- commands of one line

  lemma JoinHasLine(items: seq<Item>)
    ensures items != [] && items[0].Join? ==> '\n' in ItemsText(items)
  {
    if items != [] && items[0].Join? {
      assert ItemsText(items)[1] == CONTINUATION[1] == '\n';
    }
  }

  lemma JoinedHasLine(words: seq<Word>)
    ensures words != [] && words[0].Joined? ==> '\n' in WordsText(words)
  {
    if words != [] && words[0].Joined? {
      assert WordsText(words)[1] == CONTINUATION[1] == '\n';
    }
  }

  lemma {:induction false} ItemsOfOneLine(items: seq<Item>)
    requires Strings.OneLine(ItemsText(items))
    ensures !ItemsSplit(items)
  {
    if items == [] {
      NoSplit();
    } else {
      var more := ItemsText(items[1..]);
      assert forall c | c in more :: c in ItemText(items[0]) + more;
      assert forall c | c in ItemText(items[0]) :: c in ItemText(items[0]) + more;
      ItemsOfOneLine(items[1..]);
      SplitStep(items);
      JoinHasLine(items[1..]);
      assert |items| > 1 ==> items[1] == items[1..][0];
    }
  }

  lemma {:induction false} WordsOfOneLine(words: seq<Word>, t: Tail)
    requires Strings.OneLine(WordsText(words) + TailText(t))
    ensures !Splits(Reading(words, t))
    decreases |words|
  {
    hide ItemsSplit, ItemsText, SplitAt;
    if words == [] {
      if t.OpenDouble? {
        LineOfPart("\"", t.items, if t.lone then "\\" else "");
      }
    } else {
      var more := WordsText(words[1..]) + TailText(t);
      assert WordsText(words) + TailText(t) == WordText(words[0]) + more;
      assert forall c | c in more :: c in WordText(words[0]) + more;
      assert forall c | c in WordText(words[0]) :: c in WordText(words[0]) + more;
      WordsOfOneLine(words[1..], t);
      WordStepSplits(words, t);
      if words[0].Doubled? {
        LineOfPart("\"", words[0].items, "\"");
      }
      NextIsNotJoined(words, t);
    }
  }

  lemma LineOfPart(pre: string, items: seq<Item>, post: string)
    requires Strings.OneLine(pre + ItemsText(items) + post)
    ensures !ItemsSplit(items)
  {
    hide ItemsSplit, ItemsText;
    var s := pre + ItemsText(items) + post;
    assert forall c | c in ItemsText(items) :: c in s;
    ItemsOfOneLine(items);
  }

  lemma NextIsNotJoined(words: seq<Word>, t: Tail)
    requires words != [] && Strings.OneLine(WordsText(words[1..]) + TailText(t))
    ensures !SplitAt(words, Bare('$'), Joined, Bare('('), 0)
  {
    JoinedHasLine(words[1..]);
    assert forall c | c in WordsText(words[1..]) :: c in WordsText(words[1..]) + TailText(t);
    assert |words| > 1 ==> words[1] == words[1..][0];
  }

  /** In a command of one line nothing is hidden: the walk is exact. */
  lemma ExactOnOneLine(r: Reading, m: string)
    requires Ok(r) && Strings.OneLine(Text(r))
    ensures m in Active(Text(r)) <==> Live(r, m) || InBody(r, m)
  {
    hide Live, InBody, Active, Ok, Splits;
    WordsOfOneLine(r.words, r.tail);
    WalkIsExact(r, m);
  }
}
