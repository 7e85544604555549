/** The walk that finds what a shell would read as syntax in a command (internal/evidence/evidence.go: activeMarkers,
    markersFrom, stepDouble, stepUnquoted, recordExpansion, expansionInterior, commandMarker). */
module Shell {
  datatype Quote = Unquoted | Single | Double

  const SUBSTITUTION := "$("
  const SEPARATORS := "\n;&|(){}<>"

  // ---------------------------------------------------------------- the walk, as a function of the text left

  /** The end of the expansion: the index of the brace that brings the depth back to zero, or the length. */
  function CloseFrom(s: string, j: nat, depth: nat): (r: nat)
    requires j <= |s|
    ensures j <= r <= |s| && (r < |s| ==> s[r] == '}')
    decreases |s| - j
  {
    if j == |s| then j
    else if s[j] == '{' then CloseFrom(s, j + 1, depth + 1)
    else if s[j] == '}' then (if depth == 1 then j else CloseFrom(s, j + 1, if depth == 0 then 0 else depth - 1))
    else CloseFrom(s, j + 1, depth)
  }

  predicate Opens(s: string, c: char) {
    |s| >= 2 && s[0] == '$' && s[1] == c
  }

  /** What follows an expansion; an expansion that is never closed takes the rest of the text. */
  function AfterBrace(s: string, close: nat): string
    requires close <= |s|
  {
    if close < |s| then s[close + 1..] else ""
  }

  function Markers(s: string, q: Quote): set<string>
    decreases |s|
  {
    if s == "" then {}
    else
      match q
      case Single => Markers(s[1..], if s[0] == '\'' then Unquoted else Single)
      case Double =>
        if s[0] == '\\' then (if |s| == 1 then {} else Markers(s[2..], Double))
        else if s[0] == '"' then Markers(s[1..], Unquoted)
        else if Opens(s, '(') then {SUBSTITUTION} + Markers(s[1..], Double)
        else if Opens(s, '{') then
          var close := CloseFrom(s, 2, 1);
          Markers(s[2..close], Double) + Markers(AfterBrace(s, close), Double)
        else Markers(s[1..], Double)
      case Unquoted =>
        if s[0] == '\\' then (if |s| == 1 then {} else Markers(s[2..], Unquoted))
        else if s[0] == '\'' then Markers(s[1..], Single)
        else if s[0] == '"' then Markers(s[1..], Double)
        else if Opens(s, '(') then {SUBSTITUTION} + Markers(s[1..], Unquoted)
        else if Opens(s, '{') then
          var close := CloseFrom(s, 2, 1);
          Markers(s[2..close], Unquoted) + Markers(AfterBrace(s, close), Unquoted)
        else (if s[0] in SEPARATORS then {[s[0]]} else {}) + Markers(s[1..], Unquoted)
  }

  function Active(command: string): set<string> {
    Markers(command, Unquoted)
  }

  // ---------------------------------------------------------------- the walk, over an index and a quoting state

  lemma CloseTail(command: string, i: nat, j: nat, depth: nat)
    requires i <= j <= |command|
    ensures CloseFrom(command, j, depth) == i + CloseFrom(command[i..], j - i, depth)
    decreases |command| - j
  {
    if j < |command| {
      assert command[i..][j - i] == command[j];
      if command[j] == '{' {
        CloseTail(command, i, j + 1, depth + 1);
      } else if command[j] == '}' && depth != 1 {
        CloseTail(command, i, j + 1, if depth == 0 then 0 else depth - 1);
      } else if command[j] != '}' {
        CloseTail(command, i, j + 1, depth);
      }
    }
  }

  /** `expansionInterior`. */
  method ExpansionInterior(command: string, i: nat) returns (interior: string, end: nat)
    requires i + 1 < |command| && command[i] == '$' && command[i + 1] == '{'
    ensures var close := CloseFrom(command[i..], 2, 1);
            interior == command[i..][2..close] && i + 1 <= end < |command| && command[end + 1..] == AfterBrace(command[i..], close)
  {
    var depth := 0;
    CloseTail(command, i, i + 2, 1);
    for j := i + 1 to |command|
      invariant j == i + 1 ==> depth == 0
      invariant j > i + 1 ==> depth >= 1 && CloseFrom(command, j, depth) == CloseFrom(command, i + 2, 1)
    {
      if command[j] == '{' {
        depth := depth + 1;
      } else if command[j] == '}' {
        depth := depth - 1;
        if depth == 0 {
          assert command[i..][2..j - i] == command[i + 2..j];
          return command[i + 2..j], j;
        }
      }
    }
    return command[i + 2..], |command| - 1;
  }

  /** `stepDouble`: the state and the index the walk continues from. */
  method StepDouble(command: string, i: nat) returns (q: Quote, next: nat, found: set<string>)
    requires i < |command|
    ensures i <= next
    ensures Markers(command[i..], Double) == found + (if next < |command| then Markers(command[next + 1..], q) else {})
    decreases |command| - i, 0
  {
    var c := command[i];
    assert command[i..][1..] == command[i + 1..];
    if c == '\\' {
      assert i + 1 < |command| ==> command[i..][2..] == command[i + 2..];
      return Double, i + 1, {};
    } else if c == '"' {
      return Unquoted, i, {};
    } else if i + 1 < |command| && c == '$' && command[i + 1] == '(' {
      return Double, i, {SUBSTITUTION};
    } else if i + 1 < |command| && c == '$' && command[i + 1] == '{' {
      var interior, end := ExpansionInterior(command, i);
      found := MarkersFrom(interior, Double);
      return Double, end, found;
    }
    return Double, i, {};
  }

  /** `stepUnquoted`. */
  method StepUnquoted(command: string, i: nat) returns (q: Quote, next: nat, found: set<string>)
    requires i < |command|
    ensures i <= next
    ensures Markers(command[i..], Unquoted) == found + (if next < |command| then Markers(command[next + 1..], q) else {})
    decreases |command| - i, 0
  {
    var c := command[i];
    assert command[i..][1..] == command[i + 1..];
    if c == '\\' {
      assert i + 1 < |command| ==> command[i..][2..] == command[i + 2..];
      return Unquoted, i + 1, {};
    } else if c == '\'' {
      return Single, i, {};
    } else if c == '"' {
      return Double, i, {};
    } else if i + 1 < |command| && c == '$' && command[i + 1] == '(' {
      return Unquoted, i, {SUBSTITUTION};
    } else if i + 1 < |command| && c == '$' && command[i + 1] == '{' {
      var interior, end := ExpansionInterior(command, i);
      found := MarkersFrom(interior, Unquoted);
      return Unquoted, end, found;
    } else if c in SEPARATORS {
      return Unquoted, i, {[c]};
    }
    return Unquoted, i, {};
  }

  lemma SingleNext(s: string)
    requires s != ""
    ensures Markers(s, Single) == Markers(s[1..], if s[0] == '\'' then Unquoted else Single)
  {
    hide CloseFrom;
  }

  lemma NoMarkers(q: Quote)
    ensures Markers("", q) == {}
  {}

  /** `markersFrom`: a set, an index and a quoting state, moved on byte by byte. */
  method MarkersFrom(command: string, start: Quote) returns (active: set<string>)
    ensures active == Markers(command, start)
    decreases |command|, 1
  {
    hide CloseFrom, Markers;
    active := {};
    var quote, i := start, 0;
    NoMarkers(start);
    assert command[0..] == command;
    while i < |command|
      invariant 0 <= i
      invariant Markers(command, start) == active + if i < |command| then Markers(command[i..], quote) else {}
    {
      var found := {};
      match quote {
        case Single =>
          SingleNext(command[i..]);
          assert command[i..][1..] == command[i + 1..] && command[i..][0] == command[i];
          quote := if command[i] == '\'' then Unquoted else Single;
        case Double =>
          quote, i, found := StepDouble(command, i);
        case Unquoted =>
          quote, i, found := StepUnquoted(command, i);
      }
      active := active + found;
      i := i + 1;
      NoMarkers(quote);
      assert i == |command| ==> command[i..] == "";
    }
  }

  // ---------------------------------------------------------------- the table

  datatype Verdict = Clean | MultipleCommands(marker: string) | Substitutes | Redirects(marker: string)

  /** The markers of one pass, in the order they are asked for. */
  function Pass(late: bool): seq<string> {
    if late then ["<", ">"] else ["\n", ";", "&", "|", SUBSTITUTION, "(", ")", "{", "}"]
  }

  function FirstOf(active: set<string>, table: seq<string>): (m: string)
    requires "" !in table
    ensures m == "" <==> forall i | 0 <= i < |table| :: table[i] !in active
    ensures m != "" ==> m in active && m in table
  {
    if table == [] then "" else if table[0] in active then table[0] else FirstOf(active, table[1..])
  }

  /** `commandMarker`. */
  function CommandMarker(command: string, late: bool): Verdict {
    var m := FirstOf(Active(command), Pass(late));
    if m == "" then Clean
    else if m == SUBSTITUTION then Substitutes
    else if late then Redirects(m)
    else MultipleCommands(m)
  }
}
