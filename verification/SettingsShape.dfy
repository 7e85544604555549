/** What wiring and unwiring leave of the settings, told by the keys and values of the JSON they are. */
module SettingsShape {
  import opened Settings

  /** The Stop list of the settings, and nothing if there is none. */
  function StopList(s: Fields): seq<Json> {
    if "hooks" in s && s["hooks"].Obj? && "Stop" in s["hooks"].fields && s["hooks"].fields["Stop"].Arr?
    then s["hooks"].fields["Stop"].items else []
  }

  function HookList(entry: Json): seq<Json> {
    if entry.Obj? && "hooks" in entry.fields && entry.fields["hooks"].Arr? then entry.fields["hooks"].items else []
  }

  /** The hook runs that command. */
  predicate Runs(hook: Json, command: string) {
    if hook.Obj? && "command" in hook.fields && hook.fields["command"].Str? then hook.fields["command"].text == command else command == ""
  }

  /** The hook runs a gate, but not the command that is to stay. */
  ghost predicate IsGate(gate: string -> bool, stays: set<string>, hook: Json) {
    exists c :: Runs(hook, c) && gate(c) && c !in stays
  }

  lemma RunsIs(hook: Json, command: string)
    ensures Runs(hook, command) <==> CommandOf(hook) == command
  {}

  lemma GateIs(gate: string -> bool, stays: set<string>, hook: Json)
    ensures Goes(gate, stays, hook) <==> IsGate(gate, stays, hook)
  {
    RunsIs(hook, CommandOf(hook));
    forall c | Runs(hook, c) ensures c == CommandOf(hook) {
      RunsIs(hook, c);
    }
  }

  /** What is kept of a list of hooks: each that is no gate, as often as it was there. */
  lemma {:induction false} KeptBag(gate: string -> bool, stays: set<string>, hooks: seq<Json>, h: Json)
    ensures multiset(KeptHooks(gate, stays, hooks))[h] == if IsGate(gate, stays, h) then 0 else multiset(hooks)[h]
  {
    hide IsGate, Goes;
    if hooks != [] {
      var less, last := hooks[..|hooks| - 1], hooks[|hooks| - 1];
      assert hooks == less + [last];
      KeptBag(gate, stays, less, h);
      GateIs(gate, stays, last);
    }
  }

  /** The entry has the same fields but for its hooks, and of those the ones that are no gates. */
  ghost predicate SameButGates(gate: string -> bool, stays: set<string>, e: Json, e': Json) {
    if e.Obj? then
      && e'.Obj? && "hooks" in e'.fields && e'.fields["hooks"].Arr?
      && (forall k | k != "hooks" :: (k in e'.fields <==> k in e.fields) && (k in e.fields ==> e'.fields[k] == e.fields[k]))
      && forall h :: multiset(HookList(e'))[h] == if IsGate(gate, stays, h) then 0 else multiset(HookList(e))[h]
    else e' == e
  }

  /** Nothing would be left of the entry: it is all gates. */
  ghost predicate AllGates(gate: string -> bool, stays: set<string>, e: Json) {
    HookList(e) != [] && forall h | h in HookList(e) :: IsGate(gate, stays, h)
  }

  /** The entries that stay: those of the list that are not all gates, in order, each without its gates. */
  ghost predicate Stay(gate: string -> bool, stays: set<string>, stop: seq<Json>, left: seq<Json>) {
    if stop == [] then left == []
    else
      var less, last := stop[..|stop| - 1], stop[|stop| - 1];
      if AllGates(gate, stays, last) then Stay(gate, stays, less, left)
      else left != [] && SameButGates(gate, stays, last, left[|left| - 1]) && Stay(gate, stays, less, left[..|left| - 1])
  }

  lemma HookListIs(e: Json)
    ensures HookList(e) == HooksOf(e)
  {}

  lemma {:induction false} KeptOrGates(gate: string -> bool, stays: set<string>, hooks: seq<Json>)
    ensures KeptHooks(gate, stays, hooks) == [] <==> forall h | h in hooks :: IsGate(gate, stays, h)
  {
    hide IsGate, Goes;
    if hooks != [] {
      var less, last := hooks[..|hooks| - 1], hooks[|hooks| - 1];
      assert hooks == less + [last];
      KeptOrGates(gate, stays, less);
      GateIs(gate, stays, last);
    }
  }

  lemma EntryStays(gate: string -> bool, stays: set<string>, e: Json)
    ensures AllGates(gate, stays, e) ==> KeptEntry(gate, stays, e) == []
    ensures !AllGates(gate, stays, e) ==> |KeptEntry(gate, stays, e)| == 1 && SameButGates(gate, stays, e, KeptEntry(gate, stays, e)[0])
  {
    hide IsGate, KeptHooks, HookList, HooksOf;
    HookListIs(e);
    KeptOrGates(gate, stays, HooksOf(e));
    if e.Obj? && !AllGates(gate, stays, e) {
      var kept := KeptHooks(gate, stays, HooksOf(e));
      var e' := Obj(e.fields["hooks" := Arr(kept)]);
      HookListOf(e.fields, kept);
      forall h ensures multiset(HookList(e'))[h] == if IsGate(gate, stays, h) then 0 else multiset(HookList(e))[h] {
        KeptBag(gate, stays, HooksOf(e), h);
      }
    } else if !e.Obj? {
      NoHookList(e);
    }
  }

  lemma HookListOf(fields: Fields, hooks: seq<Json>)
    ensures HookList(Obj(fields["hooks" := Arr(hooks)])) == hooks
  {}

  lemma NoHookList(e: Json)
    requires !e.Obj?
    ensures HookList(e) == []
  {}

  lemma {:induction false} EntriesStay(gate: string -> bool, stays: set<string>, stop: seq<Json>)
    ensures Stay(gate, stays, stop, KeptEntries(gate, stays, stop))
  {
    hide AllGates, SameButGates, KeptEntry;
    if stop != [] {
      var less, last := stop[..|stop| - 1], stop[|stop| - 1];
      EntriesStay(gate, stays, less);
      EntryStays(gate, stays, last);
      var a, b := KeptEntries(gate, stays, less), KeptEntry(gate, stays, last);
      if b != [] {
        assert (a + b)[..|a + b| - 1] == a && (a + b)[|a + b| - 1] == b[0];
      } else {
        assert a + b == a;
      }
    }
  }

  /** Everything but the Stop list is as it was; settings without an object for their hooks get one. */
  ghost predicate ElsewhereSame(s: Fields, r: Fields) {
    && (forall k | k != "hooks" :: (k in r <==> k in s) && (k in s ==> r[k] == s[k]))
    && "hooks" in r && r["hooks"].Obj?
    && forall k | k != "Stop" ::
         (k in r["hooks"].fields <==> "hooks" in s && s["hooks"].Obj? && k in s["hooks"].fields) &&
         (k in r["hooks"].fields ==> r["hooks"].fields[k] == s["hooks"].fields[k])
  }

  /** The entry wiring adds. */
  function NewEntry(command: string): Json {
    Obj(map[
      "matcher" := Str(""),
      "hooks" := Arr([Obj(map[
        "type" := Str("command"), "command" := Str(command), "timeout" := Num("30"),
        "statusMessage" := Str("Checking testing discipline...")])])])
  }

  /** The command is one of the Stop hooks. */
  ghost predicate Present(command: string, s: Fields) {
    exists e, h | e in StopList(s) && h in HookList(e) :: Runs(h, command)
  }

  lemma {:induction false} FlatHas(stop: seq<Json>, h: Json)
    ensures h in Flat(stop) <==> exists e | e in stop :: h in HookList(e)
  {
    hide HookList, HooksOf;
    if stop != [] {
      var less, last := stop[..|stop| - 1], stop[|stop| - 1];
      FlatHas(less, h);
      HookListIs(last);
      assert stop == less + [last];
    }
  }

  lemma StopListIs(s: Fields)
    ensures StopList(s) == StopOf(s)
  {}

  lemma PresentIs(command: string, s: Fields)
    ensures AnyKept({command}, Flat(StopOf(s))) <==> Present(command, s)
  {
    hide StopList, StopOf, HookList, Runs, Flat, CommandOf;
    StopListIs(s);
    var hooks := Flat(StopOf(s));
    forall h ensures h in hooks <==> exists e | e in StopList(s) :: h in HookList(e) {
      FlatHas(StopOf(s), h);
    }
    forall h ensures Runs(h, command) <==> CommandOf(h) == command {
      RunsIs(h, command);
    }
    if AnyKept({command}, hooks) {
      var i :| 0 <= i < |hooks| && CommandOf(hooks[i]) in {command};
      assert hooks[i] in hooks && Runs(hooks[i], command);
    }
    if Present(command, s) {
      var e, h :| e in StopList(s) && h in HookList(e) && Runs(h, command);
      assert h in hooks;
      var i :| 0 <= i < |hooks| && hooks[i] == h;
    }
  }

  /** Wiring leaves everything but the Stop list as it is, and of the list the entries that are not all gates of other
      versions, without those; the command is added, in an entry of its own at the end, exactly if it was not there. */
  lemma WiredIs(gate: string -> bool, command: string, s: Fields)
    ensures var r := Wire(gate, command, s);
            && ElsewhereSame(s, r)
            && exists left :: Stay(gate, {command}, StopList(s), left) &&
                 StopList(r) == left + if Present(command, s) then [] else [NewEntry(command)]
  {
    hide Stay, KeptEntries, Present, AnyKept, Flat, ElsewhereSame, StopList, Wire;
    var left := KeptEntries(gate, {command}, StopList(s));
    EntriesStay(gate, {command}, StopList(s));
    StopListIs(s);
    StopListIs(Wire(gate, command, s));
    PresentIs(command, s);
    WireStop(gate, command, s);
    WireFrame(gate, command, s);
  }

  lemma WireStop(gate: string -> bool, command: string, s: Fields)
    ensures StopOf(Wire(gate, command, s)) ==
            KeptEntries(gate, {command}, StopOf(s)) + if AnyKept({command}, Flat(StopOf(s))) then [] else [NewEntry(command)]
  {
    hide KeptEntries, AnyKept, Flat;
    assert GateEntry(command) == NewEntry(command);
    if !HasStop(Hooked(s)) {
      assert StopOf(s) == [] && KeptEntries(gate, {command}, []) == [] by { NoEntries(gate, {command}); }
    }
  }

  lemma NoEntries(gate: string -> bool, stays: set<string>)
    ensures KeptEntries(gate, stays, []) == []
  {}

  lemma WireFrame(gate: string -> bool, command: string, s: Fields)
    ensures ElsewhereSame(s, Wire(gate, command, s))
  {
    hide KeptEntries, AnyKept, Flat, GateEntry, StopOf;
  }

  /** Unwiring leaves everything but the Stop list as it is, and of that the entries that are not all gates, without
      their gates; settings without a list are not touched. */
  lemma UnwiredIs(gate: string -> bool, s: Fields)
    ensures var r := Unwire(gate, s);
            && Stay(gate, {}, StopList(s), StopList(r))
            && (("hooks" in s && s["hooks"].Obj? && "Stop" in s["hooks"].fields && s["hooks"].fields["Stop"].Arr?) ==> ElsewhereSame(s, r))
            && (!("hooks" in s && s["hooks"].Obj? && "Stop" in s["hooks"].fields && s["hooks"].fields["Stop"].Arr?) ==> r == s)
  {
    hide Stay, KeptEntries;
    EntriesStay(gate, {}, StopList(s));
    StopListIs(s);
    StopListIs(Unwire(gate, s));
    NoEntries(gate, {});
  }
}
