/** A reader for the grammar: what it reads is a reading of the text, and the only one. */
module ShellReading {
  import opened Shell
  import opened ShellGrammar

  // ---------------------------------------------------------------- reading a text

  /** The body of an expansion, read; a quote, a backslash or a lone brace in it has no reading here. */
  datatype Body = NoBody | Parts(body: seq<Part>)

  function PushPart(p: Part, b: Body): Body {
    if b.NoBody? then NoBody else Parts([p] + b.body)
  }

  function ReadBody(t: string): Body
    decreases |t|
  {
    if t == "" then Parts([])
    else if Opens(t, '{') then
      var close := CloseFrom(t, 2, 1);
      if close == |t| then NoBody
      else
        match ReadBody(t[2..close])
        case NoBody => NoBody
        case Parts(inner) => PushPart(Nested(inner), ReadBody(t[close + 1..]))
    else if t[0] in "'\"\\{}" then NoBody
    else PushPart(Char(t[0]), ReadBody(t[1..]))
  }

  /** Past any continuations there is an opening brace. */
  predicate BraceAhead(s: string) {
    if |s| >= 2 && s[0] == '\\' && s[1] == '\n' then BraceAhead(s[2..]) else s != "" && s[0] == '{'
  }

  /** A double-quoted text read to its closing quote, or to the end of the command. */
  datatype Read = Closed(items: seq<Item>, rest: string) | Unclosed(items: seq<Item>, lone: bool) | Unreadable

  function Push(i: Item, r: Read): Read {
    match r
    case Closed(items, rest) => Closed([i] + items, rest)
    case Unclosed(items, lone) => Unclosed([i] + items, lone)
    case Unreadable => Unreadable
  }

  function EscapeItem(c: char): Item {
    if c == '\n' then Join else if c in SPECIAL then Quoted(c) else Backslash(c)
  }

  function ReadItems(s: string): (r: Read)
    ensures r.Closed? ==> |r.rest| < |s|
    decreases |s|
  {
    if s == "" then Unclosed([], false)
    else if s[0] == '"' then Closed([], s[1..])
    else if s[0] == '\\' then (if |s| == 1 then Unclosed([], true) else Push(EscapeItem(s[1]), ReadItems(s[2..])))
    else if Opens(s, '{') then
      var close := CloseFrom(s, 2, 1);
      if close == |s| then Unreadable
      else
        match ReadBody(s[2..close])
        case NoBody => Unreadable
        case Parts(body) => Push(InDouble(body), ReadItems(s[close + 1..]))
    else if s[0] == '$' && BraceAhead(s[1..]) then Unreadable
    else Push(Lit(s[0]), ReadItems(s[1..]))
  }

  /** Where the single quote that closes the text is, or the length. */
  function SingleEnd(s: string): (n: nat)
    ensures n <= |s| && '\'' !in s[..n] && (n < |s| ==> s[n] == '\'')
  {
    if s == "" || s[0] == '\'' then 0
    else
      var n := SingleEnd(s[1..]);
      assert s[..n + 1] == [s[0]] + s[1..][..n];
      n + 1
  }

  datatype Parsed = NoReading | Reads(r: Reading)

  function Prepend(w: Word, p: Parsed): Parsed {
    if p.NoReading? then NoReading else Reads(p.r.(words := [w] + p.r.words))
  }

  function ReadCommand(s: string): Parsed
    decreases |s|
  {
    if s == "" then Reads(Reading([], Done))
    else if s[0] == '\\' then
      (if |s| == 1 then Reads(Reading([], LoneBackslash))
       else Prepend(if s[1] == '\n' then Joined else Escaped(s[1]), ReadCommand(s[2..])))
    else if s[0] == '\'' then
      var n := SingleEnd(s[1..]);
      if 1 + n == |s| then Reads(Reading([], OpenSingle(s[1..]))) else Prepend(InSingle(s[1..1 + n]), ReadCommand(s[n + 2..]))
    else if s[0] == '"' then
      (match ReadItems(s[1..])
       case Closed(items, rest) => Prepend(Doubled(items), ReadCommand(rest))
       case Unclosed(items, lone) => Reads(Reading([], OpenDouble(items, lone)))
       case Unreadable => NoReading)
    else if Opens(s, '{') then
      var close := CloseFrom(s, 2, 1);
      if close == |s| then NoReading
      else
        match ReadBody(s[2..close])
        case NoBody => NoReading
        case Parts(body) => Prepend(Expansion(body), ReadCommand(s[close + 1..]))
    else if s[0] == '$' && BraceAhead(s[1..]) then NoReading
    else Prepend(Bare(s[0]), ReadCommand(s[1..]))
  }

  // ---------------------------------------------------------------- what was read has the text

  /** An expansion that closes, cut at its close. */
  lemma ExpansionText(s: string, close: nat)
    requires Opens(s, '{') && close == CloseFrom(s, 2, 1) && close < |s|
    ensures s == "${" + s[2..close] + "}" + s[close + 1..]
  {
    assert s[..2] == "${";
    assert s[close] == '}';
  }

  lemma {:induction false} BodyIsRead(t: string)
    ensures ReadBody(t).Parts? ==> PartsOk(ReadBody(t).body) && PartsText(ReadBody(t).body) == t
    decreases |t|
  {
    hide CloseFrom;
    if t != "" && ReadBody(t).Parts? {
      var b := ReadBody(t).body;
      if Opens(t, '{') {
        var close := CloseFrom(t, 2, 1);
        BodyIsRead(t[2..close]);
        BodyIsRead(t[close + 1..]);
        ExpansionText(t, close);
        assert b[1..] == ReadBody(t[close + 1..]).body;
      } else {
        BodyIsRead(t[1..]);
        assert b[1..] == ReadBody(t[1..]).body && t == [t[0]] + t[1..];
      }
    }
  }

  function ReadText(r: Read): string
    requires !r.Unreadable?
  {
    match r
    case Closed(items, rest) => ItemsText(items) + "\"" + rest
    case Unclosed(items, lone) => ItemsText(items) + if lone then "\\" else ""
  }

  /** Past any joins comes that piece. */
  predicate Ahead<T(==)>(s: seq<T>, join: T, x: T) {
    var j := Past(s, join, 0); j < |s| && s[j] == x
  }

  /** What reading the items of `s` gives back. */
  ghost predicate ItemsReadBack(s: string, r: Read) {
    r.Unreadable? || (ReadText(r) == s && ItemsOk(r.items) && (Ahead(r.items, Join, Lit('{')) ==> BraceAhead(s)))
  }

  lemma PushText(i: Item, r: Read)
    requires !r.Unreadable?
    ensures ReadText(Push(i, r)) == ItemText(i) + ReadText(r)
  {
    hide ItemText;
    var items := [i] + r.items;
    assert items[0] == i && items[1..] == r.items;
  }

  lemma PushOk(i: Item, items: seq<Item>)
    requires ItemOk(i) && ItemsOk(items) && (i == Lit('$') ==> !Ahead(items, Join, Lit('{')))
    ensures ItemsOk([i] + items)
  {
    hide ItemOk;
    var all := [i] + items;
    assert all[1..] == items;
    forall k | 0 <= k < |all| ensures ItemOk(all[k]) && NoBrace(all, Lit('$'), Join, Lit('{'), k) {
      if k > 0 {
        assert all[k] == items[k - 1] && NoBrace(items, Lit('$'), Join, Lit('{'), k - 1);
        PastTail(all, Join, k);
      } else {
        PastTail(all, Join, 0);
      }
    }
  }

  /** Putting a piece in front keeps track of what is ahead. */
  lemma AheadPushed<T>(x: T, s: seq<T>, join: T, y: T)
    ensures Ahead([x] + s, join, y) <==> if x == join then Ahead(s, join, y) else x == y
  {
    var all := [x] + s;
    assert all[1..] == s;
    if x == join {
      PastTail(all, join, 0);
    }
  }

  lemma PushReads(i: Item, s: string, s': string, r: Read)
    requires ItemsReadBack(s', r) && s == ItemText(i) + s' && ItemOk(i)
    requires i == Lit('$') ==> !BraceAhead(s')
    ensures ItemsReadBack(s, Push(i, r))
  {
    hide ItemsOk, ItemOk, Ahead, ReadText;
    if !r.Unreadable? {
      PushText(i, r);
      PushOk(i, r.items);
      AheadPushed(i, r.items, Join, Lit('{'));
      if i == Join {
        assert s[..2] == CONTINUATION && s[2..] == s';
      }
    }
  }

  lemma {:induction false} ItemsRead(s: string)
    ensures ItemsReadBack(s, ReadItems(s))
    decreases |s|
  {
    hide ItemsReadBack, CloseFrom, BraceAhead;
    if s == "" || s[0] == '"' || s == "\\" {
      ItemsEnd(s);
    } else if s[0] == '\\' {
      ItemsRead(s[2..]);
      assert s == ItemText(EscapeItem(s[1])) + s[2..];
      PushReads(EscapeItem(s[1]), s, s[2..], ReadItems(s[2..]));
    } else if Opens(s, '{') {
      var close := CloseFrom(s, 2, 1);
      if close < |s| && ReadBody(s[2..close]).Parts? {
        ItemsRead(s[close + 1..]);
        BodyIsRead(s[2..close]);
        ExpansionText(s, close);
        PushReads(InDouble(ReadBody(s[2..close]).body), s, s[close + 1..], ReadItems(s[close + 1..]));
      } else {
        Nothing(s);
      }
    } else if s[0] == '$' && BraceAhead(s[1..]) {
      Nothing(s);
    } else {
      ItemsRead(s[1..]);
      assert s == ItemText(Lit(s[0])) + s[1..];
      PushReads(Lit(s[0]), s, s[1..], ReadItems(s[1..]));
    }
  }

  lemma Nothing(s: string)
    ensures ItemsReadBack(s, Unreadable)
  {}

  lemma ItemsEnd(s: string)
    requires s == "" || s[0] == '"' || s == "\\"
    ensures ItemsReadBack(s, ReadItems(s))
  {}

  /** What reading a command gives back. */
  ghost predicate ReadsBack(s: string, p: Parsed) {
    p.NoReading? || (Text(p.r) == s && Ok(p.r) && (Ahead(p.r.words, Joined, Bare('{')) ==> BraceAhead(s)))
  }

  lemma PrependReads(w: Word, s: string, s': string, p: Parsed)
    requires ReadsBack(s', p) && s == WordText(w) + s' && WordOk(w)
    requires w == Bare('$') ==> !BraceAhead(s')
    ensures ReadsBack(s, Prepend(w, p))
  {
    hide WordOk, Ahead, TailOk;
    if p.Reads? {
      var all := [w] + p.r.words;
      assert all[0] == w && all[1..] == p.r.words;
      PrependOk(w, p.r.words);
      AheadPushed(w, p.r.words, Joined, Bare('{'));
      if w == Joined {
        assert s[..2] == CONTINUATION && s[2..] == s';
      }
    }
  }

  lemma PrependOk(w: Word, words: seq<Word>)
    requires WordOk(w) && WordsOk(words) && (w == Bare('$') ==> !Ahead(words, Joined, Bare('{')))
    ensures WordsOk([w] + words)
  {
    hide WordOk;
    var all := [w] + words;
    assert all[1..] == words;
    forall k | 0 <= k < |all| ensures WordOk(all[k]) && NoBrace(all, Bare('$'), Joined, Bare('{'), k) {
      if k > 0 {
        assert all[k] == words[k - 1] && NoBrace(words, Bare('$'), Joined, Bare('{'), k - 1);
        PastTail(all, Joined, k);
      } else {
        PastTail(all, Joined, 0);
      }
    }
  }

  lemma Ends(t: Tail)
    requires TailOk(t)
    ensures ReadsBack(TailText(t), Reads(Reading([], t)))
  {}

  /** What is read of a command has its text and keeps the rules. */
  lemma {:induction false} CommandReads(s: string)
    ensures ReadsBack(s, ReadCommand(s))
    decreases |s|
  {
    hide ReadsBack, WordOk, TailOk, ReadItems, SingleEnd, CloseFrom, BraceAhead, ReadBody;
    if s == "" {
      Ends(Done);
    } else if s[0] == '\\' {
      if |s| == 1 {
        assert s == TailText(LoneBackslash);
        Ends(LoneBackslash);
      } else {
        CommandReads(s[2..]);
        EscapedReads(s, ReadCommand(s[2..]));
      }
    } else if s[0] == '\'' {
      var n := SingleEnd(s[1..]);
      SingleIs(s, n);
      if 1 + n < |s| {
        CommandReads(s[n + 2..]);
        PrependReads(InSingle(s[1..1 + n]), s, s[n + 2..], ReadCommand(s[n + 2..]));
      }
    } else if s[0] == '"' {
      DoubledIs(s);
      var r := ReadItems(s[1..]);
      if r.Closed? {
        CommandReads(r.rest);
        PrependReads(Doubled(r.items), s, r.rest, ReadCommand(r.rest));
      } else if r.Unreadable? {
        NoneReads(s);
      }
    } else if Opens(s, '{') {
      var close := CloseFrom(s, 2, 1);
      if close < |s| && ReadBody(s[2..close]).Parts? {
        CommandReads(s[close + 1..]);
        ExpansionReads(s, close, ReadCommand(s[close + 1..]));
      } else {
        NoneReads(s);
      }
    } else if s[0] == '$' && BraceAhead(s[1..]) {
      NoneReads(s);
    } else {
      CommandReads(s[1..]);
      BareReads(s, ReadCommand(s[1..]));
    }
  }

  lemma NoneReads(s: string)
    ensures ReadsBack(s, NoReading)
  {}

  lemma EscapedReads(s: string, p: Parsed)
    requires |s| > 1 && s[0] == '\\' && ReadsBack(s[2..], p)
    ensures ReadsBack(s, Prepend(if s[1] == '\n' then Joined else Escaped(s[1]), p))
  {
    hide ReadsBack;
    var w := if s[1] == '\n' then Joined else Escaped(s[1]);
    assert s == WordText(w) + s[2..];
    PrependReads(w, s, s[2..], p);
  }

  lemma BareReads(s: string, p: Parsed)
    requires s != "" && s[0] !in "\\'\"" && ReadsBack(s[1..], p) && (s[0] == '$' ==> !BraceAhead(s[1..]))
    ensures ReadsBack(s, Prepend(Bare(s[0]), p))
  {
    hide ReadsBack, BraceAhead;
    assert s == WordText(Bare(s[0])) + s[1..];
    PrependReads(Bare(s[0]), s, s[1..], p);
  }

  lemma ExpansionReads(s: string, close: nat, p: Parsed)
    requires Opens(s, '{') && close == CloseFrom(s, 2, 1) && close < |s| && ReadBody(s[2..close]).Parts? && ReadsBack(s[close + 1..], p)
    ensures ReadsBack(s, Prepend(Expansion(ReadBody(s[2..close]).body), p))
  {
    hide ReadsBack, CloseFrom, ReadBody, PartsOk;
    BodyIsRead(s[2..close]);
    ExpansionText(s, close);
    PrependReads(Expansion(ReadBody(s[2..close]).body), s, s[close + 1..], p);
  }

  lemma SingleIs(s: string, n: nat)
    requires s != "" && s[0] == '\'' && n == SingleEnd(s[1..])
    ensures 1 + n == |s| ==> ReadsBack(s, Reads(Reading([], OpenSingle(s[1..]))))
    ensures 1 + n < |s| ==> s == WordText(InSingle(s[1..1 + n])) + s[n + 2..] && WordOk(InSingle(s[1..1 + n]))
  {
    hide ReadsBack;
    var t := s[1..];
    if 1 + n == |s| {
      assert t[..n] == t;
      assert s == TailText(OpenSingle(t));
      Ends(OpenSingle(t));
    } else {
      assert t[..n] == s[1..1 + n] && t[n] == s[1 + n];
    }
  }

  lemma DoubledIs(s: string)
    requires s != "" && s[0] == '"'
    ensures var r := ReadItems(s[1..]);
            match r
            case Closed(items, rest) => s == WordText(Doubled(items)) + rest && WordOk(Doubled(items))
            case Unclosed(items, lone) => ReadsBack(s, Reads(Reading([], OpenDouble(items, lone))))
            case Unreadable => true
  {
    hide ReadsBack, ItemsOk, ItemsText, ReadItems, Ahead, BraceAhead;
    ItemsRead(s[1..]);
    var r := ReadItems(s[1..]);
    assert s == "\"" + s[1..];
    match r {
      case Closed(items, rest) =>
        assert s == WordText(Doubled(items)) + rest;
      case Unclosed(items, lone) =>
        assert s == TailText(OpenDouble(items, lone));
        Ends(OpenDouble(items, lone));
      case Unreadable =>
    }
  }

  // ---------------------------------------------------------------- and every reading is found

  lemma {:induction false} BodyReadsBack(body: seq<Part>)
    requires PartsOk(body)
    ensures ReadBody(PartsText(body)) == Parts(body)
    decreases body
  {
    hide CloseFrom;
    if body != [] {
      var more := PartsText(body[1..]);
      BodyReadsBack(body[1..]);
      assert [body[0]] + body[1..] == body;
      match body[0] {
        case Char(c) =>
          assert PartsText(body)[1..] == more;
          NextChar(body);
        case Nested(inner) =>
          assert PartsText(body) == "${" + PartsText(inner) + "}" + more;
          ExpansionCloses(inner, more);
          BodyReadsBack(inner);
      }
    }
  }

  /** A text that starts like that has no brace ahead but one that is a piece of its own. */
  lemma {:induction false} BraceIsItem(items: seq<Item>, rest: string)
    requires ItemsOk(items) && (rest == "" || rest[0] == '"' || rest == "\\")
    ensures BraceAhead(ItemsText(items) + rest) ==> Ahead(items, Join, Lit('{'))
  {
    hide ItemsOk, PartsText, PartsOk;
    var s := ItemsText(items) + rest;
    if items == [] {
      assert s == rest;
    } else {
      ItemsTailOk(items);
      BraceIsItem(items[1..], rest);
      ItemsApart(items, rest);
      assert [items[0]] + items[1..] == items;
      AheadPushed(items[0], items[1..], Join, Lit('{'));
      if items[0] == Join {
        assert s[2..] == ItemsText(items[1..]) + rest;
      } else {
        assert s[0] == ItemText(items[0])[0];
        if s[0] == '\\' {
          assert s[1] == ItemText(items[0])[1];
        }
      }
    }
  }

  lemma {:induction false} ItemsFound(items: seq<Item>, rest: string)
    requires ItemsOk(items) && (rest == "" || rest[0] == '"' || rest == "\\")
    ensures ReadItems(ItemsText(items) + rest) ==
            if rest != "" && rest[0] == '"' then Closed(items, rest[1..]) else Unclosed(items, rest == "\\")
  {
    hide ItemsOk, CloseFrom, BraceAhead, ReadBody, ItemsText, ReadItems, PartsText, PartsOk;
    if items == [] {
      NothingLeft(rest);
    } else {
      var tail := items[1..];
      var more := ItemsText(tail) + rest;
      ItemsTailOk(items);
      ItemsFound(tail, rest);
      ItemsApart(items, rest);
      assert [items[0]] + tail == items;
      var s := ItemsText(items) + rest;
      ItemFound(items, s, more, rest);
    }
  }

  lemma NothingLeft(rest: string)
    requires rest == "" || rest[0] == '"' || rest == "\\"
    ensures ReadItems(ItemsText([]) + rest) ==
            if rest != "" && rest[0] == '"' then Closed([], rest[1..]) else Unclosed([], rest == "\\")
  {
    assert ItemsText([]) + rest == rest;
  }

  lemma ItemFound(items: seq<Item>, s: string, more: string, rest: string)
    requires items != [] && ItemsOk(items) && s == ItemText(items[0]) + more && more == ItemsText(items[1..]) + rest
    requires rest == "" || rest[0] == '"' || rest == "\\"
    ensures ReadItems(s) == Push(items[0], ReadItems(more))
  {
    hide CloseFrom, BraceAhead, ReadBody, ItemsText, PartsText, PartsOk, Ahead;
    assert ItemOk(items[0]) && NoBrace(items, Lit('$'), Join, Lit('{'), 0);
    match items[0] {
      case Lit(c) =>
        LitNext(items, s, more, rest);
        ItemsTailOk(items);
        BraceIsItem(items[1..], rest);
        AheadAfter(items);
        assert s[1..] == more;
      case Quoted(c) => assert s[2..] == more && s[1] == c;
      case Backslash(c) => assert s[2..] == more && s[1] == c;
      case Join => assert s[2..] == more && s[..2] == CONTINUATION;
      case InDouble(body) =>
        assert s == "${" + PartsText(body) + "}" + more;
        ExpansionCloses(body, more);
        BodyReadsBack(body);
    }
  }

  lemma AheadAfter(items: seq<Item>)
    requires items != [] && NoBrace(items, Lit('$'), Join, Lit('{'), 0)
    ensures items[0] == Lit('$') ==> !Ahead(items[1..], Join, Lit('{'))
  {
    PastTail(items, Join, 0);
  }

  lemma {:induction false} SingleEnds(text: string, rest: string)
    requires '\'' !in text && (rest == "" || rest[0] == '\'')
    ensures SingleEnd(text + rest) == |text|
  {
    if text == "" {
      assert text + rest == rest;
    } else {
      SingleEnds(text[1..], rest);
      assert (text + rest)[1..] == text[1..] + rest;
    }
  }

  lemma TailStarts(t: Tail)
    ensures !BraceAhead(TailText(t))
  {}

  lemma JoinedStarts(s: string, more: string)
    requires s == CONTINUATION + more
    ensures BraceAhead(s) <==> BraceAhead(more)
  {
    assert s[2..] == more;
  }

  lemma WordStarts(w: Word, more: string)
    requires WordOk(w) && w != Joined
    ensures BraceAhead(WordText(w) + more) <==> w == Bare('{')
  {
    hide PartsText, PartsOk, ItemsText, ItemsOk;
    var s := WordText(w) + more;
    assert s[0] == WordText(w)[0];
    if s[0] == '\\' {
      assert s[1] == WordText(w)[1];
    }
  }

  lemma {:induction false} BraceIsWord(words: seq<Word>, t: Tail)
    requires WordsOk(words)
    ensures BraceAhead(WordsText(words) + TailText(t)) ==> Ahead(words, Joined, Bare('{'))
  {
    hide WordsOk, PartsText, PartsOk, ItemsText, ItemsOk, Ahead, WordOk, BraceAhead, TailText;
    var s := WordsText(words) + TailText(t);
    if words == [] {
      assert s == TailText(t);
      TailStarts(t);
    } else {
      var more := WordsText(words[1..]) + TailText(t);
      WordsTailOk(words);
      BraceIsWord(words[1..], t);
      assert s == WordText(words[0]) + more;
      assert [words[0]] + words[1..] == words;
      AheadPushed(words[0], words[1..], Joined, Bare('{'));
      if words[0] == Joined {
        JoinedStarts(s, more);
      } else {
        WordStarts(words[0], more);
      }
    }
  }

  lemma TailFound(t: Tail)
    requires TailOk(t)
    ensures ReadCommand(TailText(t)) == Reads(Reading([], t))
  {
    hide CloseFrom, BraceAhead, ReadBody, ReadItems, SingleEnd, ItemsOk, ItemsText;
    var s := TailText(t);
    match t {
      case Done =>
      case LoneBackslash =>
      case OpenSingle(text) =>
        assert s[1..] == text == text + "";
        SingleEnds(text, "");
      case OpenDouble(items, lone) =>
        assert s[1..] == ItemsText(items) + if lone then "\\" else "";
        ItemsFound(items, if lone then "\\" else "");
    }
  }

  lemma WordFound(words: seq<Word>, s: string, more: string, t: Tail)
    requires words != [] && WordsOk(words) && s == WordText(words[0]) + more && more == WordsText(words[1..]) + TailText(t)
    ensures ReadCommand(s) == Prepend(words[0], ReadCommand(more))
  {
    hide BraceAhead, ReadCommand, ItemsOk, ItemsText, PartsText, PartsOk, WordsText, TailText, Ahead;
    assert WordOk(words[0]) && NoBrace(words, Bare('$'), Joined, Bare('{'), 0);
    match words[0] {
      case Bare(c) =>
        BareNext(words, s, more, t);
        WordsTailOk(words);
        BraceIsWord(words[1..], t);
        WordAfter(words);
        BareFound(c, s, more);
      case Escaped(c) => PairFound(c, s, more);
      case Joined => PairFound('\n', s, more);
      case InSingle(text) =>
        assert s[1..] == text + ("'" + more);
        SingleFound(text, s, more);
      case Doubled(items) =>
        assert s[1..] == ItemsText(items) + ("\"" + more);
        DoubledFound(items, s, more);
      case Expansion(body) =>
        assert s == "${" + PartsText(body) + "}" + more;
        ExpansionFound(body, s, more);
    }
  }

  lemma BareFound(c: char, s: string, more: string)
    requires s == [c] + more && c !in "\\'\"" && !Opens(s, '{') && (c == '$' ==> !BraceAhead(more))
    ensures ReadCommand(s) == Prepend(Bare(c), ReadCommand(more))
  {
    hide CloseFrom, BraceAhead, ReadBody, ReadItems, SingleEnd;
    assert s[1..] == more;
  }

  lemma PairFound(c: char, s: string, more: string)
    requires s == ['\\', c] + more
    ensures ReadCommand(s) == Prepend(if c == '\n' then Joined else Escaped(c), ReadCommand(more))
  {
    hide CloseFrom, BraceAhead, ReadBody, ReadItems, SingleEnd;
    assert s[2..] == more && s[1] == c;
  }

  lemma SingleFound(text: string, s: string, more: string)
    requires s != "" && s[0] == '\'' && s[1..] == text + ("'" + more) && '\'' !in text
    ensures ReadCommand(s) == Prepend(InSingle(text), ReadCommand(more))
  {
    hide CloseFrom, BraceAhead, ReadBody, ReadItems, SingleEnd;
    SingleEnds(text, "'" + more);
    assert s[1..1 + |text|] == text && s[|text| + 2..] == more;
  }

  lemma DoubledFound(items: seq<Item>, s: string, more: string)
    requires ItemsOk(items) && s != "" && s[0] == '"' && s[1..] == ItemsText(items) + ("\"" + more)
    ensures ReadCommand(s) == Prepend(Doubled(items), ReadCommand(more))
  {
    hide CloseFrom, BraceAhead, ReadBody, ReadItems, SingleEnd, ItemsOk, ItemsText;
    ItemsFound(items, "\"" + more);
    assert ("\"" + more)[1..] == more;
  }

  lemma ExpansionFound(body: seq<Part>, s: string, more: string)
    requires PartsOk(body) && s == "${" + PartsText(body) + "}" + more
    ensures ReadCommand(s) == Prepend(Expansion(body), ReadCommand(more))
  {
    hide CloseFrom, BraceAhead, ReadBody, ReadItems, SingleEnd, PartsText, PartsOk;
    ExpansionCloses(body, more);
    BodyReadsBack(body);
  }

  lemma WordAfter(words: seq<Word>)
    requires words != [] && NoBrace(words, Bare('$'), Joined, Bare('{'), 0)
    ensures words[0] == Bare('$') ==> !Ahead(words[1..], Joined, Bare('{'))
  {
    PastTail(words, Joined, 0);
  }

  lemma {:induction false} WordsFound(words: seq<Word>, t: Tail)
    requires WordsOk(words) && TailOk(t)
    ensures ReadCommand(WordsText(words) + TailText(t)) == Reads(Reading(words, t))
    decreases |words|
  {
    hide WordsOk, TailOk, ReadCommand, TailText, WordText;
    if words == [] {
      assert WordsText([]) + TailText(t) == TailText(t);
      TailFound(t);
    } else {
      var more := WordsText(words[1..]) + TailText(t);
      assert WordsText(words) + TailText(t) == WordText(words[0]) + more;
      WordsTailOk(words);
      WordsFound(words[1..], t);
      WordFound(words, WordsText(words) + TailText(t), more, t);
      assert [words[0]] + words[1..] == words;
    }
  }

  /** The grammar has one reading for a text, and the reader finds it if there is one. */
  lemma OneReading(s: string, r: Reading)
    ensures Ok(r) && Text(r) == s <==> ReadCommand(s) == Reads(r)
  {
    hide WordsOk, TailOk, ReadCommand, Ahead, BraceAhead;
    CommandReads(s);
    if Ok(r) && Text(r) == s {
      WordsFound(r.words, r.tail);
    }
  }
}
