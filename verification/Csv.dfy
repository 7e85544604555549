/** The CSV line of the corrected reference program (bench/cases/n01-csv-rfc4180/fix/all/src/csv.js): rules 5 to 7 in
    section 2 of RFC 4180. A string is the sequence of its code units. */
module Csv {
  import opened Text

  /** The white space `String.prototype.trim` removes, as ranges of code units. */
  const TRIMMED: seq<(int, int)> :=
    [(9, 13), (32, 32), (0xA0, 0xA0), (0x1680, 0x1680), (0x2000, 0x200a), (0x2028, 0x2029), (0x202f, 0x202f),
     (0x205f, 0x205f), (0x3000, 0x3000), (0xfeff, 0xfeff)]

  predicate IsBlank(c: char) {
    InRanges(c as int, TRIMMED)
  }

  /** The white space of the program's language, character by character; unlike Go's it has the byte order mark and not
      the next-line control. */
  lemma BlankIs(c: char)
    ensures IsBlank(c) <==>
            var n := c as int;
            n == 0x09 || n == 0x0A || n == 0x0B || n == 0x0C || n == 0x0D || n == 0x20 || n == 0xA0 || n == 0x1680 ||
            0x2000 <= n <= 0x200A || n == 0x2028 || n == 0x2029 || n == 0x202F || n == 0x205F || n == 0x3000 || n == 0xFEFF
  {
    InRangesIff(c as int, TRIMMED);
    assert TRIMMED[0] == (9, 13) && TRIMMED[1] == (32, 32) && TRIMMED[2] == (0xA0, 0xA0) && TRIMMED[3] == (0x1680, 0x1680);
    assert TRIMMED[4] == (0x2000, 0x200A) && TRIMMED[5] == (0x2028, 0x2029) && TRIMMED[6] == (0x202F, 0x202F);
    assert TRIMMED[7] == (0x205F, 0x205F) && TRIMMED[8] == (0x3000, 0x3000) && TRIMMED[9] == (0xFEFF, 0xFEFF);
  }

  function TrimStart(s: string): (r: string)
    ensures |r| <= |s| && s[|s| - |r|..] == r && (r != "" ==> !IsBlank(r[0]))
    ensures forall i | 0 <= i < |s| - |r| :: IsBlank(s[i])
  {
    if s != "" && IsBlank(s[0]) then TrimStart(s[1..]) else s
  }

  function TrimEnd(s: string): (r: string)
    ensures r <= s && (r != "" ==> !IsBlank(r[|r| - 1]))
    ensures forall i | |r| <= i < |s| :: IsBlank(s[i])
  {
    if s != "" && IsBlank(s[|s| - 1]) then TrimEnd(s[..|s| - 1]) else s
  }

  function TrimBoth(s: string): string {
    TrimEnd(TrimStart(s))
  }

  // ---------------------------------------------------------------- rendering

  predicate NeedsQuotes(f: string) {
    '"' in f || ',' in f || '\r' in f || '\n' in f
  }

  function Doubled(f: string): string {
    if f == "" then "" else (if f[0] == '"' then "\"\"" else [f[0]]) + Doubled(f[1..])
  }

  function RenderField(f: string): string {
    if NeedsQuotes(f) then "\"" + Doubled(f) + "\"" else f
  }

  function RenderFields(fs: seq<string>): (r: seq<string>)
    ensures |r| == |fs|
  {
    if fs == [] then [] else [RenderField(fs[0])] + RenderFields(fs[1..])
  }

  /** `renderLine`. */
  function RenderLine(fs: seq<string>): string {
    if fs == [] then "" else Join(RenderFields(fs), ",")
  }

  // ---------------------------------------------------------------- parsing

  datatype Parsed = Fields(fields: seq<string>) | Unterminated | Unexpected

  function DropSpaces(s: string): (r: string)
    ensures |r| <= |s| && (r != "" ==> r[0] != ' ')
  {
    if s != "" && s[0] == ' ' then DropSpaces(s[1..]) else s
  }

  /** The text of a quoted field after its opening quote: its value and what follows its closing quote. */
  datatype Quoted = Quoted(value: string, rest: string) | NoEnd

  function ReadQuoted(s: string): (r: Quoted)
    ensures r.Quoted? ==> |r.rest| < |s|
  {
    if s == "" then NoEnd
    else if s[0] != '"' then Before(s[0], ReadQuoted(s[1..]))
    else if |s| > 1 && s[1] == '"' then Before('"', ReadQuoted(s[2..]))
    else Quoted("", s[1..])
  }

  function Before(c: char, q: Quoted): Quoted {
    match q
    case NoEnd => NoEnd
    case Quoted(value, rest) => Quoted([c] + value, rest)
  }

  function CommaAt(s: string): (n: nat)
    ensures n <= |s| && ',' !in s[..n] && (n < |s| ==> s[n] == ',')
  {
    if s == "" || s[0] == ',' then 0
    else
      var n := CommaAt(s[1..]);
      assert s[..n + 1] == [s[0]] + s[1..][..n];
      n + 1
  }

  /** One field, and what follows it. */
  function ReadField(s: string): (r: Quoted)
    ensures r.Quoted? ==> |r.rest| <= |s|
  {
    var t := DropSpaces(s);
    if t != "" && t[0] == '"' then
      match ReadQuoted(t[1..])
      case NoEnd => NoEnd
      case Quoted(value, rest) => Quoted(value, DropSpaces(rest))
    else Quoted(TrimBoth(t[..CommaAt(t)]), t[CommaAt(t)..])
  }

  function Push(value: string, p: Parsed): Parsed {
    match p
    case Fields(fs) => Fields([value] + fs)
    case other => other
  }

  /** The fields of a text, of which there is at least one. */
  function ParseFrom(s: string): Parsed
    decreases |s|
  {
    match ReadField(s)
    case NoEnd => Unterminated
    case Quoted(value, rest) =>
      if rest == "" then Fields([value])
      else if rest[0] != ',' then Unexpected
      else Push(value, ParseFrom(rest[1..]))
  }

  function ParseOf(line: string): Parsed {
    if line == "" then Fields([]) else ParseFrom(line)
  }

  // ---------------------------------------------------------------- the loops of parseLine

  method SkipSpaces(line: string, start: nat) returns (i: nat)
    requires start <= |line|
    ensures start <= i <= |line| && line[i..] == DropSpaces(line[start..])
  {
    i := start;
    while i < |line| && line[i] == ' '
      invariant start <= i <= |line| && DropSpaces(line[i..]) == DropSpaces(line[start..])
    {
      assert line[i..][1..] == line[i + 1..];
      i := i + 1;
    }
  }

  /** The inner loop: characters up to the closing quote, a doubled quote standing for one. */
  method ReadToQuote(line: string, start: nat) returns (ok: bool, value: string, i: nat)
    requires start <= |line|
    ensures start <= i <= |line|
    ensures ReadQuoted(line[start..]) == if ok then Quoted(value, line[i..]) else NoEnd
    ensures ok ==> i > start
  {
    hide Prefixed;
    value, i := "", start;
    PrefixedEnds("", ReadQuoted(line[start..]), "");
    while i < |line|
      invariant start <= i <= |line|
      invariant ReadQuoted(line[start..]) == Prefixed(value, ReadQuoted(line[i..]))
    {
      assert line[i..][1..] == line[i + 1..];
      if line[i] == '"' {
        if i + 1 < |line| && line[i + 1] == '"' {
          assert line[i..][2..] == line[i + 2..];
          PrefixedStep(value, '"', ReadQuoted(line[i + 2..]));
          value, i := value + "\"", i + 2;
          continue;
        }
        PrefixedEnds(value, NoEnd, line[i + 1..]);
        return true, value, i + 1;
      }
      PrefixedStep(value, line[i], ReadQuoted(line[i + 1..]));
      value, i := value + [line[i]], i + 1;
    }
    assert line[i..] == "";
    PrefixedEnds(value, NoEnd, "");
    return false, value, i;
  }

  ghost function Prefixed(value: string, q: Quoted): Quoted {
    match q
    case NoEnd => NoEnd
    case Quoted(v, rest) => Quoted(value + v, rest)
  }

  lemma PrefixedEnds(value: string, q: Quoted, rest: string)
    ensures Prefixed("", q) == q && Prefixed(value, NoEnd) == NoEnd && Prefixed(value, Quoted("", rest)) == Quoted(value, rest)
  {
    assert value + "" == value;
    assert q.Quoted? ==> "" + q.value == q.value;
  }

  lemma PrefixedStep(value: string, c: char, q: Quoted)
    ensures Prefixed(value, Before(c, q)) == Prefixed(value + [c], q)
  {
    if q.Quoted? {
      assert value + ([c] + q.value) == (value + [c]) + q.value;
    }
  }

  method IndexOfComma(line: string, start: nat) returns (i: nat)
    requires start <= |line|
    ensures start <= i <= |line| && i == start + CommaAt(line[start..])
  {
    i := start;
    while i < |line| && line[i] != ','
      invariant start <= i <= |line| && CommaAt(line[start..]) == (i - start) + CommaAt(line[i..])
    {
      assert line[i..][1..] == line[i + 1..];
      i := i + 1;
    }
  }

  ghost function After(fields: seq<string>, p: Parsed): Parsed {
    match p
    case Fields(fs) => Fields(fields + fs)
    case other => other
  }

  lemma AfterStep(fields: seq<string>, value: string, p: Parsed)
    ensures After(fields, Push(value, p)) == After(fields + [value], p)
  {
    if p.Fields? {
      assert fields + ([value] + p.fields) == (fields + [value]) + p.fields;
    }
  }

  /** One turn of the outer loop. */
  method NextField(line: string, start: nat) returns (ok: bool, value: string, i: nat)
    requires start <= |line|
    ensures start <= i <= |line|
    ensures ReadField(line[start..]) == if ok then Quoted(value, line[i..]) else NoEnd
  {
    hide ReadQuoted, DropSpaces, CommaAt, TrimBoth;
    i := SkipSpaces(line, start);
    if i < |line| && line[i] == '"' {
      assert line[i..][1..] == line[i + 1..];
      ok, value, i := ReadToQuote(line, i + 1);
      if ok {
        i := SkipSpaces(line, i);
      }
      return;
    }
    var end := IndexOfComma(line, i);
    assert line[i..][..end - i] == line[i..end] && line[i..][end - i..] == line[end..];
    return true, TrimBoth(line[i..end]), end;
  }

  /** `parseLine`. */
  method ParseLine(line: string) returns (r: Parsed)
    ensures r == ParseOf(line)
  {
    hide ReadField, TrimBoth;
    if line == "" {
      return Fields([]);
    }
    var fields: seq<string> := [];
    var i := 0;
    assert line[0..] == line;
    AfterNothing(ParseFrom(line));
    while true
      invariant 0 <= i <= |line| && ParseOf(line) == After(fields, ParseFrom(line[i..]))
      decreases |line| - i
    {
      var ok, value, next := NextField(line, i);
      if !ok {
        return Unterminated;
      }
      if next >= |line| {
        return Fields(fields + [value]);
      }
      if line[next] != ',' {
        return Unexpected;
      }
      assert line[next..][1..] == line[next + 1..];
      AfterStep(fields, value, ParseFrom(line[next + 1..]));
      fields := fields + [value];
      i := next + 1;
      if i == |line| {
        assert line[i..] == "";
        EmptyField();
        return Fields(fields + [""]);
      }
    }
  }

  lemma AfterNothing(p: Parsed)
    ensures After([], p) == p
  {
    if p.Fields? {
      assert [] + p.fields == p.fields;
    }
  }

  lemma EmptyField()
    ensures ParseFrom("") == Fields([""])
  {
    assert ReadField("") == Quoted("", "");
  }

  // ---------------------------------------------------------------- the round trip

  /** What a field is after it was written and read: a field without quotes loses its white space at both ends. */
  function Norm(f: string): string {
    if NeedsQuotes(f) then f else TrimBoth(f)
  }

  function Norms(fs: seq<string>): (r: seq<string>)
    ensures |r| == |fs| && forall i | 0 <= i < |fs| :: r[i] == Norm(fs[i])
  {
    if fs == [] then [] else [Norm(fs[0])] + Norms(fs[1..])
  }

  lemma {:induction false} QuotedReads(f: string, rest: string)
    requires rest == "" || rest[0] != '"'
    ensures ReadQuoted(Doubled(f) + "\"" + rest) == Quoted(f, rest)
  {
    var s := Doubled(f) + "\"" + rest;
    if f == "" {
      assert s[1..] == rest;
    } else {
      QuotedReads(f[1..], rest);
      QuotedStep(f, s, Doubled(f[1..]) + "\"" + rest, rest);
    }
  }

  lemma QuotedStep(f: string, s: string, t: string, rest: string)
    requires f != "" && s == Doubled(f) + "\"" + rest && t == Doubled(f[1..]) + "\"" + rest
    requires ReadQuoted(t) == Quoted(f[1..], rest)
    ensures ReadQuoted(s) == Quoted(f, rest)
  {
    var d := if f[0] == '"' then "\"\"" else [f[0]];
    Assoc(d, Doubled(f[1..]), "\"");
    Assoc(d, Doubled(f[1..]) + "\"", rest);
    assert s == d + t;
    DropFirst(d, t);
    assert f == [f[0]] + f[1..];
  }

  lemma Spaced()
    ensures IsBlank(' ')
  {
    InRangesIff(32, TRIMMED);
    assert TRIMMED[1] == (32, 32);
  }

  lemma SpaceTrimmed(f: string)
    requires f != "" && f[0] == ' '
    ensures TrimBoth(f) == TrimBoth(f[1..])
  {
    hide IsBlank, TrimEnd;
    Spaced();
  }

  /** Leading spaces are part of no field without quotes. */
  lemma {:induction false} SpacesDropped(f: string, rest: string)
    requires ',' !in f && '"' !in f && (rest == "" || rest[0] == ',')
    ensures var t := DropSpaces(f + rest);
            var n := CommaAt(t);
            (t == "" || t[0] != '"') && TrimBoth(t[..n]) == TrimBoth(f) && t[n..] == rest
  {
    hide IsBlank, TrimBoth;
    var s := f + rest;
    if f != "" && f[0] == ' ' {
      SpaceTrimmed(f);
      assert s[1..] == f[1..] + rest;
      SpacesDropped(f[1..], rest);
    } else {
      assert DropSpaces(s) == s;
      CommaIs(f, rest);
      assert s[..|f|] == f && s[|f|..] == rest;
    }
  }

  lemma {:induction false} CommaIs(f: string, rest: string)
    requires ',' !in f && (rest == "" || rest[0] == ',')
    ensures CommaAt(f + rest) == |f|
  {
    if f == "" {
      assert f + rest == rest;
    } else {
      assert (f + rest)[1..] == f[1..] + rest;
      CommaIs(f[1..], rest);
    }
  }

  lemma FieldReads(f: string, rest: string)
    requires rest == "" || rest[0] == ','
    ensures ReadField(RenderField(f) + rest) == Quoted(Norm(f), rest)
  {
    hide TrimBoth, Doubled;
    var s := RenderField(f) + rest;
    if NeedsQuotes(f) {
      assert DropSpaces(s) == s;
      assert s[1..] == Doubled(f) + "\"" + rest;
      QuotedReads(f, rest);
    } else {
      SpacesDropped(f, rest);
    }
  }

  lemma {:induction false} FieldsRead(fs: seq<string>)
    requires fs != []
    ensures ParseFrom(RenderLine(fs)) == Fields(Norms(fs))
  {
    hide ReadField, RenderField, Norm, ParseFrom, RenderLine, Norms;
    if |fs| == 1 {
      FieldReads(fs[0], "");
      LastField(fs);
    } else {
      FieldsRead(fs[1..]);
      FieldReads(fs[0], "," + RenderLine(fs[1..]));
      OneMoreField(fs);
    }
  }

  lemma LastField(fs: seq<string>)
    requires |fs| == 1 && ReadField(RenderField(fs[0]) + "") == Quoted(Norm(fs[0]), "")
    ensures ParseFrom(RenderLine(fs)) == Fields(Norms(fs))
  {
    hide ReadField, RenderField, Norm;
    assert RenderLine(fs) == RenderField(fs[0]) + "";
  }

  lemma OneMoreField(fs: seq<string>)
    requires |fs| > 1 && ParseFrom(RenderLine(fs[1..])) == Fields(Norms(fs[1..]))
    requires var rest := "," + RenderLine(fs[1..]); ReadField(RenderField(fs[0]) + rest) == Quoted(Norm(fs[0]), rest)
    ensures ParseFrom(RenderLine(fs)) == Fields(Norms(fs))
  {
    hide ReadField, RenderField, Norm;
    var rest := "," + RenderLine(fs[1..]);
    DropFirst([RenderField(fs[0])], RenderFields(fs[1..]));
    Assoc(RenderField(fs[0]), ",", RenderLine(fs[1..]));
    assert RenderLine(fs) == RenderField(fs[0]) + rest;
    DropFirst(",", RenderLine(fs[1..]));
  }

  /** The one record whose line is empty although it has a field. */
  lemma LineEmptyIff(fs: seq<string>)
    ensures RenderLine(fs) == "" <==> fs == [] || fs == [""]
  {
    if fs != [] && fs != [""] {
      if |fs| == 1 {
        assert fs[0] != "";
        assert RenderLine(fs) == RenderField(fs[0]);
      } else {
        assert RenderLine(fs) == RenderFields(fs)[0] + "," + Join(RenderFields(fs)[1..], ",");
        assert RenderLine(fs)[|RenderFields(fs)[0]|] == ',';
      }
    }
  }

  /** A record written and read again: separators, quotes and line breaks are kept as they were, and a field that
      needed no quotes is trimmed. */
  lemma ParseUndoesRender(fs: seq<string>)
    requires fs != [""]
    ensures ParseOf(RenderLine(fs)) == Fields(Norms(fs))
  {
    hide ParseFrom, Norm;
    LineEmptyIff(fs);
    if fs != [] {
      FieldsRead(fs);
    }
  }

  /** The field starts and ends with no white space. */
  predicate Untrimmed(f: string) {
    f != "" ==> !IsBlank(f[0]) && !IsBlank(f[|f| - 1])
  }

  lemma TrimBothIs(f: string)
    ensures TrimBoth(f) == f <==> Untrimmed(f)
  {
    hide IsBlank;
    var t := TrimStart(f);
    if Untrimmed(f) && f != "" {
      assert !IsBlank(f[0]) && !IsBlank(f[|f| - 1]);
      assert f[|f| - |t|..] == t && f[0..] == f;
    }
    if TrimBoth(f) == f && f != "" {
      assert |t| == |f| && t == f[0..] == f;
    }
  }

  /** The record is read back exactly if and only if it is not one empty field, and each field holds a quote, a comma or a
      line break or else starts and ends with no white space. */
  lemma RoundTripIff(fs: seq<string>)
    ensures ParseOf(RenderLine(fs)) == Fields(fs) <==>
            fs != [""] && forall i | 0 <= i < |fs| ::
              '"' in fs[i] || ',' in fs[i] || '\r' in fs[i] || '\n' in fs[i] || Untrimmed(fs[i])
  {
    hide ParseOf, RenderLine, TrimBoth, Untrimmed, Norms;
    if fs == [""] {
      LineEmptyIff(fs);
      EmptyLine();
    } else {
      ParseUndoesRender(fs);
      NormsSame(fs);
    }
  }

  lemma EmptyLine()
    ensures ParseOf("") == Fields([])
  {}

  lemma NormsSame(fs: seq<string>)
    ensures Norms(fs) == fs <==> forall i | 0 <= i < |fs| :: NeedsQuotes(fs[i]) || Untrimmed(fs[i])
  {
    hide TrimBoth, NeedsQuotes, Untrimmed;
    forall i | 0 <= i < |fs| ensures Norm(fs[i]) == fs[i] <==> NeedsQuotes(fs[i]) || Untrimmed(fs[i]) {
      TrimBothIs(fs[i]);
    }
  }
}
