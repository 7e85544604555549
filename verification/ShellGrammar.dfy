/** What the walk reports, against a command read by the quoting rules of the Shell Command Language
    (section 2.2 of the POSIX.1-2017 volume): a command is a sequence of words' pieces, each quoted by a backslash,
    by single quotes, by double quotes, or not at all, and of line continuations, which join what is around them. */
module ShellGrammar {
  import opened Shell

  // ---------------------------------------------------------------- the reading of a command

  /** A piece of the body of `${...}`: a character, or an expansion of its own. */
  datatype Part = Char(c: char) | Nested(body: seq<Part>)

  /** A piece of a double-quoted text. A backslash quotes the next character when it is one of the four that are
      special there, joins two lines before the end of one, and is itself literal before any other (section 2.2.3). */
  datatype Item = Lit(c: char) | Quoted(c: char) | Backslash(c: char) | InDouble(body: seq<Part>) | Join

  /** A piece of a command. */
  datatype Word =
    | Bare(c: char) | Escaped(c: char) | InSingle(text: string) | Doubled(items: seq<Item>) | Expansion(body: seq<Part>) | Joined

  /** How a command may end in the middle of a quotation. */
  datatype Tail = Done | LoneBackslash | OpenSingle(text: string) | OpenDouble(items: seq<Item>, lone: bool)

  datatype Reading = Reading(words: seq<Word>, tail: Tail)

  const SPECIAL := "$`\"\\"

  /** A backslash and the end of a line, which both go before anything else is read (section 2.2.1). */
  const CONTINUATION := "\\\n"

  predicate PartsOk(body: seq<Part>) {
    body == [] || (PartOk(body[0]) && PartsOk(body[1..]))
  }

  /** No quote, no backslash, and no brace but those of a nested expansion. */
  predicate PartOk(p: Part) {
    match p
    case Char(c) => c !in "'\"\\{}"
    case Nested(body) => PartsOk(body)
  }

  predicate ItemOk(i: Item) {
    match i
    case Lit(c) => c !in "\"\\"
    case Quoted(c) => c in SPECIAL
    case Backslash(c) => c !in SPECIAL && c != '\n'
    case InDouble(body) => PartsOk(body)
    case Join => true
  }

  /** The first place from there on that holds something else. */
  function Past<T(==)>(s: seq<T>, x: T, i: nat): (j: nat)
    requires i <= |s|
    ensures i <= j <= |s| && (forall k | i <= k < j :: s[k] == x) && (j < |s| ==> s[j] != x)
    decreases |s| - i
  {
    if i < |s| && s[i] == x then Past(s, x, i + 1) else i
  }

  lemma PastTail<T>(s: seq<T>, x: T, i: nat)
    requires s != [] && i <= |s[1..]|
    ensures Past(s, x, i + 1) == Past(s[1..], x, i) + 1
    decreases |s| - i
  {
    if i < |s[1..]| && s[1..][i] == x {
      PastTail(s, x, i + 1);
    }
  }

  /** A dollar sign that no brace follows once lines are joined. */
  predicate NoBrace<T(==)>(s: seq<T>, dollar: T, join: T, brace: T, i: nat)
    requires i < |s|
  {
    s[i] == dollar ==> var j := Past(s, join, i + 1); j < |s| ==> s[j] != brace
  }

  predicate ItemsOk(items: seq<Item>) {
    forall i | 0 <= i < |items| :: ItemOk(items[i]) && NoBrace(items, Lit('$'), Join, Lit('{'), i)
  }

  predicate WordOk(w: Word) {
    match w
    case Bare(c) => c !in "\\'\""
    case Escaped(c) => c != '\n'
    case InSingle(text) => '\'' !in text
    case Doubled(items) => ItemsOk(items)
    case Expansion(body) => PartsOk(body)
    case Joined => true
  }

  predicate WordsOk(words: seq<Word>) {
    forall i | 0 <= i < |words| :: WordOk(words[i]) && NoBrace(words, Bare('$'), Joined, Bare('{'), i)
  }

  predicate TailOk(t: Tail) {
    match t
    case Done => true
    case LoneBackslash => true
    case OpenSingle(text) => '\'' !in text
    case OpenDouble(items, _) => ItemsOk(items)
  }

  predicate Ok(r: Reading) {
    WordsOk(r.words) && TailOk(r.tail)
  }

  // ---------------------------------------------------------------- its text

  function PartText(p: Part): string {
    match p
    case Char(c) => [c]
    case Nested(body) => "${" + PartsText(body) + "}"
  }

  function PartsText(body: seq<Part>): string {
    if body == [] then "" else PartText(body[0]) + PartsText(body[1..])
  }

  function ItemText(i: Item): string {
    match i
    case Lit(c) => [c]
    case Quoted(c) => ['\\', c]
    case Backslash(c) => ['\\', c]
    case InDouble(body) => "${" + PartsText(body) + "}"
    case Join => CONTINUATION
  }

  function ItemsText(items: seq<Item>): string {
    if items == [] then "" else ItemText(items[0]) + ItemsText(items[1..])
  }

  function WordText(w: Word): string {
    match w
    case Bare(c) => [c]
    case Escaped(c) => ['\\', c]
    case InSingle(text) => "'" + text + "'"
    case Doubled(items) => "\"" + ItemsText(items) + "\""
    case Expansion(body) => "${" + PartsText(body) + "}"
    case Joined => CONTINUATION
  }

  function WordsText(words: seq<Word>): string {
    if words == [] then "" else WordText(words[0]) + WordsText(words[1..])
  }

  function TailText(t: Tail): string {
    match t
    case Done => ""
    case LoneBackslash => "\\"
    case OpenSingle(text) => "'" + text
    case OpenDouble(items, lone) => "\"" + ItemsText(items) + if lone then "\\" else ""
  }

  function Text(r: Reading): string {
    WordsText(r.words) + TailText(r.tail)
  }

  // ---------------------------------------------------------------- what its text shows

  /** A command substitution in the body of an expansion, which the shell runs wherever the expansion stands. */
  predicate PartsSubstitute(body: seq<Part>) {
    body != [] &&
    ((body[0] == Char('$') && |body| > 1 && body[1] == Char('(')) ||
     (body[0].Nested? && PartsSubstitute(body[0].body)) || PartsSubstitute(body[1..]))
  }

  predicate ItemsSubstitute(items: seq<Item>) {
    exists i | 0 <= i < |items| ::
      (items[i] == Lit('$') && i + 1 < |items| && items[i + 1] == Lit('(')) ||
      (items[i].InDouble? && PartsSubstitute(items[i].body))
  }

  predicate SubstitutesAt(words: seq<Word>, i: nat)
    requires i < |words|
  {
    (words[i] == Bare('$') && i + 1 < |words| && words[i + 1] == Bare('(')) ||
    (words[i].Doubled? && ItemsSubstitute(words[i].items)) ||
    (words[i].Expansion? && PartsSubstitute(words[i].body))
  }

  const COMMAND_SUBSTITUTION := "$("

  /** The newline and the characters of the operators of section 2.2, which separate, group and redirect, and the two
      braces that group. */
  predicate Operator(c: char) {
    c == '\n' || c == ';' || c == '&' || c == '|' || c == '(' || c == ')' || c == '<' || c == '>' || c == '{' || c == '}'
  }

  /** The text shows the marker: an unquoted separator, or a command substitution that is not quoted by a backslash or
      by single quotes and has no line's end between its two characters. */
  predicate Shows(r: Reading, m: string) {
    if m == COMMAND_SUBSTITUTION then
      (exists i | 0 <= i < |r.words| :: SubstitutesAt(r.words, i)) || (r.tail.OpenDouble? && ItemsSubstitute(r.tail.items))
    else
      exists i | 0 <= i < |r.words| :: r.words[i].Bare? && [r.words[i].c] == m && Operator(r.words[i].c)
  }

  /** A separator inside the body of an unquoted expansion: text, but the walk reports it. */
  predicate PartsHold(body: seq<Part>, m: string) {
    body != [] &&
    ((body[0].Char? && [body[0].c] == m && Operator(body[0].c)) ||
     (body[0].Nested? && PartsHold(body[0].body, m)) || PartsHold(body[1..], m))
  }

  predicate InBody(r: Reading, m: string) {
    exists i | 0 <= i < |r.words| :: r.words[i].Expansion? && PartsHold(r.words[i].body, m)
  }

  // ---------------------------------------------------------------- bodies

  lemma CloseStep(s: string, j: nat, depth: nat)
    requires j < |s| && depth >= 1
    ensures s[j] == '{' ==> CloseFrom(s, j, depth) == CloseFrom(s, j + 1, depth + 1)
    ensures s[j] == '}' && depth > 1 ==> CloseFrom(s, j, depth) == CloseFrom(s, j + 1, depth - 1)
    ensures s[j] !in "{}" ==> CloseFrom(s, j, depth) == CloseFrom(s, j + 1, depth)
  {}

  /** The brace that closes a body is found, however deep the expansions in it nest. */
  lemma {:induction false} BodyCloses(pre: string, body: seq<Part>, rest: string, depth: nat)
    requires PartsOk(body) && depth >= 1
    ensures CloseFrom(pre + PartsText(body) + rest, |pre|, depth) ==
            CloseFrom(pre + PartsText(body) + rest, |pre| + |PartsText(body)|, depth)
    decreases body
  {
    hide CloseFrom;
    var s := pre + PartsText(body) + rest;
    if body != [] {
      var head := PartText(body[0]);
      var more := PartsText(body[1..]);
      assert s == (pre + head) + more + rest;
      BodyCloses(pre + head, body[1..], rest, depth);
      match body[0] {
        case Char(c) =>
          assert s[|pre|] == c;
          CloseStep(s, |pre|, depth);
        case Nested(inner) =>
          assert s == pre + head + (more + rest);
          NestedText(pre, PartsText(inner), more + rest, s);
          BodyCloses(pre + "${", inner, "}" + (more + rest), depth + 1);
          NestedCloses(s, |pre|, |pre| + 2 + |PartsText(inner)|, depth);
      }
    }
  }

  lemma NestedCloses(s: string, i: nat, at: nat, depth: nat)
    requires i + 2 <= at < |s| && depth >= 1 && s[i] == '$' && s[i + 1] == '{' && s[at] == '}'
    requires CloseFrom(s, i + 2, depth + 1) == CloseFrom(s, at, depth + 1)
    ensures CloseFrom(s, i, depth) == CloseFrom(s, at + 1, depth)
  {
    hide CloseFrom;
    CloseStep(s, i, depth);
    CloseStep(s, i + 1, depth);
    CloseStep(s, at, depth + 1);
  }

  lemma NestedText(pre: string, inner: string, rest: string, s: string)
    requires s == pre + ("${" + inner + "}") + rest
    ensures s == (pre + "${") + inner + ("}" + rest)
    ensures var i, at := |pre|, |pre| + 2 + |inner|;
            at < |s| && s[i] == '$' && s[i + 1] == '{' && s[at] == '}'
  {}

  lemma ExpansionCloses(body: seq<Part>, rest: string)
    requires PartsOk(body)
    ensures var s, n := "${" + PartsText(body) + "}" + rest, |PartsText(body)|;
            Opens(s, '{') && !Opens(s, '(') && CloseFrom(s, 2, 1) == 2 + n && s[2..2 + n] == PartsText(body) &&
            AfterBrace(s, 2 + n) == rest
  {
    var b := PartsText(body);
    var s := "${" + b + "}" + rest;
    assert s == "${" + b + ("}" + rest);
    BodyCloses("${", body, "}" + rest, 1);
    assert s[2 + |b|] == '}';
    assert s[2 + |b| + 1..] == rest;
  }

  /** The state a body is walked in: what it holds is reported as separators only outside double quotes. */
  predicate BodyReports(body: seq<Part>, q: Quote, m: string) {
    (m == COMMAND_SUBSTITUTION && PartsSubstitute(body)) || (q == Unquoted && PartsHold(body, m))
  }

  lemma {:induction false} BodyMarkers(body: seq<Part>, q: Quote, m: string)
    requires PartsOk(body) && q != Single
    ensures m in Markers(PartsText(body), q) <==> BodyReports(body, q, m)
    decreases body
  {
    hide CloseFrom, Operator, Markers, BodyReports;
    if body == [] {
      EmptyBody(q, m);
    } else {
      BodyMarkers(body[1..], q, m);
      if body[0].Char? {
        CharStep(body, q, m);
      } else {
        BodyMarkers(body[0].body, q, m);
        NestedStep(body, q, m);
      }
    }
  }

  lemma EmptyBody(q: Quote, m: string)
    ensures m !in Markers(PartsText([]), q) && !BodyReports([], q, m)
  {}

  lemma CharStep(body: seq<Part>, q: Quote, m: string)
    requires PartsOk(body) && q != Single && body != [] && body[0].Char?
    requires m in Markers(PartsText(body[1..]), q) <==> BodyReports(body[1..], q, m)
    ensures m in Markers(PartsText(body), q) <==> BodyReports(body, q, m)
  {
    hide CloseFrom;
    var s := PartsText(body);
    assert s == [body[0].c] + PartsText(body[1..]) && s[1..] == PartsText(body[1..]);
    NextChar(body);
  }

  lemma NestedStep(body: seq<Part>, q: Quote, m: string)
    requires PartsOk(body) && q != Single && body != [] && body[0].Nested?
    requires m in Markers(PartsText(body[0].body), q) <==> BodyReports(body[0].body, q, m)
    requires m in Markers(PartsText(body[1..]), q) <==> BodyReports(body[1..], q, m)
    ensures m in Markers(PartsText(body), q) <==> BodyReports(body, q, m)
  {
    hide CloseFrom, Operator, Markers;
    var s, inner, more := PartsText(body), body[0].body, PartsText(body[1..]);
    assert PartText(body[0]) == "${" + PartsText(inner) + "}";
    assert s == "${" + PartsText(inner) + "}" + more;
    ExpansionIsWalked(inner, q, more);
  }

  lemma ExpansionIsWalked(body: seq<Part>, q: Quote, more: string)
    requires PartsOk(body) && q != Single
    ensures Markers("${" + PartsText(body) + "}" + more, q) == Markers(PartsText(body), q) + Markers(more, q)
  {
    hide CloseFrom, PartsText, PartsOk;
    ExpansionCloses(body, more);
  }

  lemma NextChar(body: seq<Part>)
    requires PartsOk(body) && body != [] && body[0].Char?
    ensures Opens(PartsText(body), '(') <==> body[0].c == '$' && |body| > 1 && body[1] == Char('(')
    ensures !Opens(PartsText(body), '{')
  {
    var s := PartsText(body);
    if |body| > 1 {
      assert body[1..][0] == body[1] && PartOk(body[1]);
      var next := PartText(body[1]);
      assert PartsText(body[1..]) == next + PartsText(body[1..][1..]);
      assert s[1] == next[0];
      assert body[1].Nested? ==> next[0] == '$';
    }
  }

  // ---------------------------------------------------------------- double quotes

  /** A double-quoted text before `rest`, which starts with its closing quote, with a backslash, or not at all. */
  lemma {:induction false} ItemMarkers(items: seq<Item>, rest: string, m: string)
    requires ItemsOk(items) && (rest == "" || rest[0] == '"' || rest[0] == '\\')
    ensures m in Markers(ItemsText(items) + rest, Double) <==>
            (m == COMMAND_SUBSTITUTION && ItemsSubstitute(items)) || m in Markers(rest, Double)
  {
    hide CloseFrom, PartsSubstitute, Markers, ItemsOk, ItemsSubstitute, ItemsText, ItemText, ItemOk;
    if items == [] {
      assert !ItemsSubstitute(items) by {
        NoItems();
      }
      NothingRead(rest);
    } else {
      var tail := items[1..];
      var more := ItemsText(tail) + rest;
      ItemsTailOk(items);
      ItemMarkers(tail, rest, m);
      ItemsStep(items);
      var s := ItemsText(items) + rest;
      ItemsApart(items, rest);
      ItemStep(items, s, more, m, rest);
    }
  }

  lemma ItemsApart(items: seq<Item>, rest: string)
    requires items != []
    ensures ItemsText(items) + rest == ItemText(items[0]) + (ItemsText(items[1..]) + rest)
  {
    hide ItemText;
  }

  lemma NothingRead(rest: string)
    ensures ItemsText([]) + rest == rest
  {}

  lemma NoItems()
    ensures !ItemsSubstitute([])
  {}

  lemma ItemsTailOk(items: seq<Item>)
    requires ItemsOk(items) && items != []
    ensures ItemsOk(items[1..]) && ItemOk(items[0])
  {
    forall i | 0 <= i < |items[1..]| ensures ItemOk(items[1..][i]) && NoBrace(items[1..], Lit('$'), Join, Lit('{'), i) {
      assert items[1..][i] == items[i + 1] && NoBrace(items, Lit('$'), Join, Lit('{'), i + 1);
      PastTail(items, Join, i + 1);
    }
    assert ItemOk(items[0]);
  }

  lemma ItemsStep(items: seq<Item>)
    requires items != []
    ensures ItemsSubstitute(items) <==>
            (items[0] == Lit('$') && |items| > 1 && items[1] == Lit('(')) ||
            (items[0].InDouble? && PartsSubstitute(items[0].body)) || ItemsSubstitute(items[1..])
  {
    hide PartsSubstitute;
    var t := items[1..];
    if i :| 0 <= i < |t| && ((t[i] == Lit('$') && i + 1 < |t| && t[i + 1] == Lit('(')) || (t[i].InDouble? && PartsSubstitute(t[i].body))) {
      assert items[i + 1] == t[i];
    }
    if i :| 0 < i < |items| && ((items[i] == Lit('$') && i + 1 < |items| && items[i + 1] == Lit('(')) || (items[i].InDouble? && PartsSubstitute(items[i].body))) {
      assert t[i - 1] == items[i];
    }
  }

  lemma ItemStep(items: seq<Item>, s: string, more: string, m: string, rest: string)
    requires items != [] && ItemsOk(items) && s == ItemText(items[0]) + more && more == ItemsText(items[1..]) + rest
    requires rest == "" || rest[0] == '"' || rest[0] == '\\'
    ensures m in Markers(s, Double) <==>
            (m == COMMAND_SUBSTITUTION && ((items[0] == Lit('$') && |items| > 1 && items[1] == Lit('(')) ||
                                   (items[0].InDouble? && PartsSubstitute(items[0].body)))) || m in Markers(more, Double)
  {
    hide CloseFrom, PartsSubstitute, Markers, ItemsText, PartsText;
    assert ItemOk(items[0]);
    match items[0] {
      case Lit(c) =>
        LitNext(items, s, more, rest);
        LitStep(c, s, more, m);
      case Quoted(c) => PairStep(c, s, more);
      case Backslash(c) => PairStep(c, s, more);
      case Join => PairStep('\n', s, more);
      case InDouble(body) =>
        assert s == "${" + PartsText(body) + "}" + more;
        InDoubleStep(body, s, more, m);
    }
  }

  lemma LitStep(c: char, s: string, more: string, m: string)
    requires s == [c] + more && c !in "\"\\" && !Opens(s, '{')
    ensures m in Markers(s, Double) <==> (m == COMMAND_SUBSTITUTION && Opens(s, '(')) || m in Markers(more, Double)
  {
    hide CloseFrom;
    assert s[1..] == more && s[0] == c;
  }

  lemma PairStep(c: char, s: string, more: string)
    requires s == ['\\', c] + more
    ensures Markers(s, Double) == Markers(more, Double)
  {
    hide CloseFrom;
    assert s[2..] == more;
  }

  lemma InDoubleStep(body: seq<Part>, s: string, more: string, m: string)
    requires PartsOk(body) && s == "${" + PartsText(body) + "}" + more
    ensures m in Markers(s, Double) <==> (m == COMMAND_SUBSTITUTION && PartsSubstitute(body)) || m in Markers(more, Double)
  {
    hide CloseFrom, PartsText, PartsOk, PartsSubstitute, PartsHold;
    ExpansionCloses(body, more);
    BodyMarkers(body, Double, m);
  }

  lemma LitNext(items: seq<Item>, s: string, more: string, rest: string)
    requires items != [] && ItemsOk(items) && items[0].Lit?
    requires s == ItemText(items[0]) + more && more == ItemsText(items[1..]) + rest
    requires rest == "" || rest[0] == '"' || rest[0] == '\\'
    ensures Opens(s, '(') <==> items[0].c == '$' && |items| > 1 && items[1] == Lit('(')
    ensures !Opens(s, '{')
  {
    if |items| > 1 {
      assert ItemOk(items[1]) && NoBrace(items, Lit('$'), Join, Lit('{'), 0);
      assert items[1] != Join ==> Past(items, Join, 1) == 1;
      assert items[1..][0] == items[1];
      assert s[1] == ItemText(items[1])[0];
    } else {
      assert more == rest;
    }
  }

  // ---------------------------------------------------------------- words

  lemma {:induction false} SingleMarkers(text: string, rest: string)
    requires '\'' !in text
    ensures Markers(text + "'" + rest, Quote.Single) == Markers(rest, Unquoted)
    ensures Markers(text, Quote.Single) == {}
  {
    var s := text + "'" + rest;
    if text == "" {
      assert s[1..] == rest;
    } else {
      SingleMarkers(text[1..], rest);
      assert s[1..] == text[1..] + "'" + rest;
    }
  }

  /** What the first word adds to what is reported. */
  predicate WordReports(words: seq<Word>, m: string)
    requires words != []
  {
    (words[0].Bare? && [words[0].c] == m && Operator(words[0].c)) || (m == COMMAND_SUBSTITUTION && SubstitutesAt(words, 0)) ||
    (words[0].Expansion? && PartsHold(words[0].body, m))
  }

  lemma WordStep(words: seq<Word>, s: string, more: string, t: Tail, m: string)
    requires words != [] && WordsOk(words) && s == WordText(words[0]) + more && more == WordsText(words[1..]) + TailText(t)
    ensures m in Markers(s, Unquoted) <==> WordReports(words, m) || m in Markers(more, Unquoted)
  {
    hide CloseFrom, PartsSubstitute, ItemsSubstitute, PartsHold, ItemsOk, Markers, WordsText, TailText, ItemsText, PartsText;
    assert WordOk(words[0]);
    match words[0] {
      case Bare(c) =>
        BareNext(words, s, more, t);
        BareStep(c, s, more, m);
      case Escaped(c) => EscapedStep(c, s, more);
      case Joined => EscapedStep('\n', s, more);
      case InSingle(text) =>
        assert s == "'" + text + "'" + more;
        SingleStep(text, s, more);
      case Doubled(items) =>
        assert s == "\"" + ItemsText(items) + "\"" + more;
        DoubledStep(items, s, more, m);
      case Expansion(body) =>
        assert s == "${" + PartsText(body) + "}" + more;
        ExpansionStep(body, s, more, m);
    }
  }

  lemma BareStep(c: char, s: string, more: string, m: string)
    requires s == [c] + more && c !in "\\'\"" && !Opens(s, '{')
    ensures m in Markers(s, Unquoted) <==>
            ([c] == m && Operator(c)) || (m == COMMAND_SUBSTITUTION && Opens(s, '(')) || m in Markers(more, Unquoted)
  {
    hide CloseFrom;
    assert s[1..] == more && s[0] == c;
  }

  lemma EscapedStep(c: char, s: string, more: string)
    requires s == ['\\', c] + more
    ensures Markers(s, Unquoted) == Markers(more, Unquoted)
  {
    hide CloseFrom;
    assert s[2..] == more;
  }

  lemma SingleStep(text: string, s: string, more: string)
    requires s == "'" + text + "'" + more && '\'' !in text
    ensures Markers(s, Unquoted) == Markers(more, Unquoted)
  {
    hide CloseFrom;
    assert s[1..] == text + "'" + more;
    SingleMarkers(text, more);
  }

  lemma DoubledStep(items: seq<Item>, s: string, more: string, m: string)
    requires ItemsOk(items) && s == "\"" + ItemsText(items) + "\"" + more
    ensures m in Markers(s, Unquoted) <==> (m == COMMAND_SUBSTITUTION && ItemsSubstitute(items)) || m in Markers(more, Unquoted)
  {
    hide CloseFrom, ItemsText, ItemsOk, ItemsSubstitute;
    var rest := "\"" + more;
    assert s[1..] == ItemsText(items) + rest;
    ItemMarkers(items, rest, m);
    assert rest[1..] == more;
  }

  lemma ExpansionStep(body: seq<Part>, s: string, more: string, m: string)
    requires PartsOk(body) && s == "${" + PartsText(body) + "}" + more
    ensures m in Markers(s, Unquoted) <==> BodyReports(body, Unquoted, m) || m in Markers(more, Unquoted)
  {
    hide CloseFrom, PartsText, PartsOk, BodyReports;
    ExpansionCloses(body, more);
    BodyMarkers(body, Unquoted, m);
  }

  lemma BareNext(words: seq<Word>, s: string, more: string, t: Tail)
    requires words != [] && WordsOk(words) && words[0].Bare?
    requires s == WordText(words[0]) + more && more == WordsText(words[1..]) + TailText(t)
    ensures Opens(s, '(') <==> words[0].c == '$' && |words| > 1 && words[1] == Bare('(')
    ensures !Opens(s, '{')
  {
    if |words| > 1 {
      assert WordOk(words[1]) && NoBrace(words, Bare('$'), Joined, Bare('{'), 0);
      assert words[1] != Joined ==> Past(words, Joined, 1) == 1;
      assert words[1..][0] == words[1];
      assert s[1] == WordText(words[1])[0];
    } else {
      assert more == TailText(t);
    }
  }

  lemma TailMarkers(t: Tail, m: string)
    requires TailOk(t)
    ensures m in Markers(TailText(t), Unquoted) <==> m == COMMAND_SUBSTITUTION && t.OpenDouble? && ItemsSubstitute(t.items)
  {
    hide CloseFrom, ItemsSubstitute;
    var s := TailText(t);
    match t {
      case Done =>
      case LoneBackslash =>
      case OpenSingle(text) =>
        assert s[1..] == text;
        SingleMarkers(text, "");
      case OpenDouble(items, lone) =>
        var rest := if lone then "\\" else "";
        assert s[1..] == ItemsText(items) + rest;
        ItemMarkers(items, rest, m);
    }
  }

  lemma WordsTailOk(words: seq<Word>)
    requires WordsOk(words) && words != []
    ensures WordsOk(words[1..]) && WordOk(words[0])
  {
    forall i | 0 <= i < |words[1..]| ensures WordOk(words[1..][i]) && NoBrace(words[1..], Bare('$'), Joined, Bare('{'), i) {
      assert words[1..][i] == words[i + 1] && NoBrace(words, Bare('$'), Joined, Bare('{'), i + 1);
      PastTail(words, Joined, i + 1);
    }
    assert WordOk(words[0]);
  }

  /** Live markers and hidden ones, word by word. */
  lemma ReportsStep(words: seq<Word>, t: Tail, m: string)
    requires words != []
    ensures Shows(Reading(words, t), m) || InBody(Reading(words, t), m) <==>
            WordReports(words, m) || Shows(Reading(words[1..], t), m) || InBody(Reading(words[1..], t), m)
  {
    hide PartsSubstitute, ItemsSubstitute, PartsHold;
    var r, u := Reading(words, t), words[1..];
    var v := Reading(u, t);
    forall i | 0 <= i < |u| ensures u[i] == words[i + 1] && SubstitutesAt(u, i) == SubstitutesAt(words, i + 1) {}
    assert |COMMAND_SUBSTITUTION| == 2;
    if m == COMMAND_SUBSTITUTION {
      StepSubstitution(words, t);
    } else {
      StepSeparator(words, t, m);
    }
    StepBody(words, t, m);
  }

  lemma StepSubstitution(words: seq<Word>, t: Tail)
    requires words != []
    ensures Shows(Reading(words, t), COMMAND_SUBSTITUTION) <==> SubstitutesAt(words, 0) || Shows(Reading(words[1..], t), COMMAND_SUBSTITUTION)
  {
    hide PartsSubstitute, ItemsSubstitute;
    var u := words[1..];
    if i :| 0 <= i < |u| && SubstitutesAt(u, i) {
      assert SubstitutesAt(words, i + 1);
    }
    if i :| 0 < i < |words| && SubstitutesAt(words, i) {
      assert SubstitutesAt(u, i - 1);
    }
  }

  lemma StepSeparator(words: seq<Word>, t: Tail, m: string)
    requires words != [] && m != COMMAND_SUBSTITUTION
    ensures Shows(Reading(words, t), m) <==>
            (words[0].Bare? && [words[0].c] == m && Operator(words[0].c)) || Shows(Reading(words[1..], t), m)
  {
    var u := words[1..];
    if i :| 0 <= i < |u| && u[i].Bare? && [u[i].c] == m && Operator(u[i].c) {
      assert words[i + 1] == u[i];
    }
    if i :| 0 < i < |words| && words[i].Bare? && [words[i].c] == m && Operator(words[i].c) {
      assert u[i - 1] == words[i];
    }
  }

  lemma StepBody(words: seq<Word>, t: Tail, m: string)
    requires words != []
    ensures InBody(Reading(words, t), m) <==>
            (words[0].Expansion? && PartsHold(words[0].body, m)) || InBody(Reading(words[1..], t), m)
  {
    hide PartsHold;
    var u := words[1..];
    if i :| 0 <= i < |u| && u[i].Expansion? && PartsHold(u[i].body, m) {
      assert words[i + 1] == u[i];
    }
    if i :| 0 < i < |words| && words[i].Expansion? && PartsHold(words[i].body, m) {
      assert u[i - 1] == words[i];
    }
  }

  /** The walk reports the markers a command's text shows and the separators in the bodies of its unquoted expansions,
      and nothing else, for every command in which the body of each expansion holds no quote, no backslash and no
      brace but those of expansions nested in it. */
  lemma {:induction false} WalkIsShown(r: Reading, m: string)
    requires Ok(r)
    ensures m in Active(Text(r)) <==> Shows(r, m) || InBody(r, m)
    decreases |r.words|
  {
    hide CloseFrom, Markers, WordReports, Shows, InBody, WordOk;
    if r.words == [] {
      assert Text(r) == TailText(r.tail);
      TailMarkers(r.tail, m);
      NoWords(r.tail, m);
    } else {
      var more := WordsText(r.words[1..]) + TailText(r.tail);
      assert Text(r) == WordText(r.words[0]) + more;
      WordsTailOk(r.words);
      WalkIsShown(Reading(r.words[1..], r.tail), m);
      WordStep(r.words, Text(r), more, r.tail, m);
      ReportsStep(r.words, r.tail, m);
    }
  }

  lemma NoWords(t: Tail, m: string)
    ensures Shows(Reading([], t), m) || InBody(Reading([], t), m) <==>
            m == COMMAND_SUBSTITUTION && t.OpenDouble? && ItemsSubstitute(t.items)
  {
    hide ItemsSubstitute;
  }
}
