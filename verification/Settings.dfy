/** The Stop hook in a host's settings.json (internal/sync/sync.go): wiring drops the gates of earlier versions and
    adds the command if it is not there, unwiring drops every gate, and both leave every other hook alone. */
module Settings {
  datatype Json = Null | Bool(value: bool) | Num(text: string) | Str(text: string) | Arr(items: seq<Json>) | Obj(fields: Fields)

  type Fields = map<string, Json>

  function ItemsOf(j: Json): seq<Json> {
    if j.Arr? then j.items else []
  }

  function CommandOf(hook: Json): string {
    if hook.Obj? && "command" in hook.fields && hook.fields["command"].Str? then hook.fields["command"].text else ""
  }

  /** The hooks of one entry of the Stop list. */
  function HooksOf(entry: Json): seq<Json> {
    if entry.Obj? && "hooks" in entry.fields then ItemsOf(entry.fields["hooks"]) else []
  }

  predicate HasHooks(s: Fields) {
    "hooks" in s && s["hooks"].Obj?
  }

  predicate HasStop(s: Fields) {
    HasHooks(s) && "Stop" in s["hooks"].fields && s["hooks"].fields["Stop"].Arr?
  }

  function StopOf(s: Fields): seq<Json> {
    if HasStop(s) then s["hooks"].fields["Stop"].items else []
  }

  function WithStop(s: Fields, stop: seq<Json>): (r: Fields)
    requires HasHooks(s)
    ensures HasStop(r) && StopOf(r) == stop
  {
    s["hooks" := Obj(s["hooks"].fields["Stop" := Arr(stop)])]
  }

  // ---------------------------------------------------------------- the filter

  /** The hook runs a gate, and not one that is to stay. */
  predicate Goes(gate: string -> bool, keep: set<string>, hook: Json) {
    CommandOf(hook) !in keep && gate(CommandOf(hook))
  }

  function KeptHooks(gate: string -> bool, keep: set<string>, hooks: seq<Json>): seq<Json> {
    if hooks == [] then []
    else KeptHooks(gate, keep, hooks[..|hooks| - 1]) + if Goes(gate, keep, hooks[|hooks| - 1]) then [] else [hooks[|hooks| - 1]]
  }

  /** The entry without the hooks that go; an entry of nothing else goes with them. */
  function KeptEntry(gate: string -> bool, keep: set<string>, entry: Json): seq<Json> {
    if !entry.Obj? then [entry]
    else
      var kept := KeptHooks(gate, keep, HooksOf(entry));
      if kept == [] && HooksOf(entry) != [] then [] else [Obj(entry.fields["hooks" := Arr(kept)])]
  }

  function KeptEntries(gate: string -> bool, keep: set<string>, stop: seq<Json>): seq<Json> {
    if stop == [] then [] else KeptEntries(gate, keep, stop[..|stop| - 1]) + KeptEntry(gate, keep, stop[|stop| - 1])
  }

  /** Every hook of a Stop list, in order. */
  function Flat(stop: seq<Json>): seq<Json> {
    if stop == [] then [] else Flat(stop[..|stop| - 1]) + HooksOf(stop[|stop| - 1])
  }

  predicate AnyGoes(gate: string -> bool, keep: set<string>, hooks: seq<Json>) {
    exists i | 0 <= i < |hooks| :: Goes(gate, keep, hooks[i])
  }

  predicate AnyKept(keep: set<string>, hooks: seq<Json>) {
    exists i | 0 <= i < |hooks| :: CommandOf(hooks[i]) in keep
  }

  function Filtered(gate: string -> bool, keep: set<string>, s: Fields): (r: Fields)
    ensures HasHooks(s) ==> HasHooks(r)
  {
    if HasStop(s) then WithStop(s, KeptEntries(gate, keep, StopOf(s))) else s
  }

  /** The loop writes the filtered hooks back into each entry as it goes, so an entry it does not drop is changed
      even when nothing is. */
  function Tidied(entry: Json): Json {
    if entry.Obj? then Obj(entry.fields["hooks" := Arr(HooksOf(entry))]) else entry
  }

  /** `filterStopGates`: the settings after it, whether a gate was dropped, and whether a command that stays is there. */
  method FilterStopGates(gate: string -> bool, keep: set<string>, settings: Fields) returns (r: Fields, changed: bool, present: bool)
    ensures r == Filtered(gate, keep, settings)
    ensures changed == AnyGoes(gate, keep, Flat(StopOf(settings))) && present == AnyKept(keep, Flat(StopOf(settings)))
  {
    hide Filtered, KeptEntry, AnyGoes, AnyKept, Tidied, HooksOf, StopOf;
    r, changed, present := settings, false, false;
    NoneOf(gate, keep);
    if !HasHooks(settings) {
      NoStop(gate, keep, settings);
      return;
    }
    var stop := StopOf(settings);
    var kept: seq<Json>, written: seq<Json> := [], [];
    for i := 0 to |stop|
      invariant kept == KeptEntries(gate, keep, stop[..i])
      invariant |written| == i && forall k | 0 <= k < i :: !changed ==> written[k] == Tidied(stop[k])
      invariant changed == AnyGoes(gate, keep, Flat(stop[..i])) && present == AnyKept(keep, Flat(stop[..i]))
      invariant !changed ==> kept == written
    {
      assert stop[..i + 1][..i] == stop[..i];
      var entry, change, here := FilterEntry(gate, keep, stop[i]);
      AnyOfBoth(gate, keep, Flat(stop[..i]), HooksOf(stop[i]));
      written := written + [Tidied(stop[i])];
      kept := kept + entry;
      changed, present := changed || change, present || here;
    }
    assert stop[..|stop|] == stop;
    if HasStop(settings) {
      r := WithStop(settings, if changed then kept else written);
      FilteredIs(gate, keep, settings);
    } else {
      NoStop(gate, keep, settings);
    }
  }

  /** The inner loop over one entry's hooks. */
  method FilterEntry(gate: string -> bool, keep: set<string>, entry: Json) returns (r: seq<Json>, changed: bool, present: bool)
    ensures r == KeptEntry(gate, keep, entry)
    ensures changed == AnyGoes(gate, keep, HooksOf(entry)) && present == AnyKept(keep, HooksOf(entry))
    ensures !changed ==> r == [Tidied(entry)]
  {
    hide AnyGoes, AnyKept, KeptHooks, HooksOf;
    changed, present := false, false;
    NoneOf(gate, keep);
    if !entry.Obj? {
      NotObject(entry);
      return [entry], false, false;
    }
    var list := HooksOf(entry);
    var kept: seq<Json> := [];
    KeptNone(gate, keep);
    for i := 0 to |list|
      invariant kept == KeptHooks(gate, keep, list[..i])
      invariant changed == AnyGoes(gate, keep, list[..i]) && present == AnyKept(keep, list[..i])
      invariant !changed ==> kept == list[..i]
    {
      assert list[..i + 1] == list[..i] + [list[i]];
      KeptNext(gate, keep, list, i);
      AnyOfBoth(gate, keep, list[..i], [list[i]]);
      AnyOfOne(gate, keep, list[i]);
      if CommandOf(list[i]) in keep {
        present := true;
        kept := kept + [list[i]];
      } else if gate(CommandOf(list[i])) {
        changed := true;
      } else {
        kept := kept + [list[i]];
      }
    }
    assert list[..|list|] == list;
    r := if kept == [] && list != [] then [] else [Obj(entry.fields["hooks" := Arr(kept)])];
  }

  lemma NotObject(entry: Json)
    requires !entry.Obj?
    ensures HooksOf(entry) == []
  {}

  lemma KeptNone(gate: string -> bool, keep: set<string>)
    ensures KeptHooks(gate, keep, []) == []
  {}

  lemma KeptNext(gate: string -> bool, keep: set<string>, hooks: seq<Json>, i: nat)
    requires i < |hooks|
    ensures KeptHooks(gate, keep, hooks[..i + 1]) == KeptHooks(gate, keep, hooks[..i]) + if Goes(gate, keep, hooks[i]) then [] else [hooks[i]]
  {
    assert hooks[..i + 1][..i] == hooks[..i];
  }

  lemma NoneOf(gate: string -> bool, keep: set<string>)
    ensures !AnyGoes(gate, keep, []) && !AnyKept(keep, [])
  {}

  lemma NoStop(gate: string -> bool, keep: set<string>, s: Fields)
    requires !HasStop(s)
    ensures Filtered(gate, keep, s) == s && Flat(StopOf(s)) == []
  {}

  lemma FilteredIs(gate: string -> bool, keep: set<string>, s: Fields)
    requires HasStop(s)
    ensures Filtered(gate, keep, s) == WithStop(s, KeptEntries(gate, keep, StopOf(s)))
  {}

  lemma AnyOfBoth(gate: string -> bool, keep: set<string>, a: seq<Json>, b: seq<Json>)
    ensures AnyGoes(gate, keep, a + b) <==> AnyGoes(gate, keep, a) || AnyGoes(gate, keep, b)
    ensures AnyKept(keep, a + b) <==> AnyKept(keep, a) || AnyKept(keep, b)
  {
    hide Goes;
    var s := a + b;
    assert forall i | 0 <= i < |a| :: s[i] == a[i];
    assert forall i | 0 <= i < |b| :: s[|a| + i] == b[i];
  }

  // ---------------------------------------------------------------- wiring and unwiring

  function GateHook(command: string): Json {
    Obj(map["type" := Str("command"), "command" := Str(command), "timeout" := Num("30"),
            "statusMessage" := Str("Checking testing discipline...")])
  }

  function GateEntry(command: string): Json {
    Obj(map["matcher" := Str(""), "hooks" := Arr([GateHook(command)])])
  }

  /** The settings with an object for their hooks. */
  function Hooked(s: Fields): (r: Fields)
    ensures HasHooks(r) && StopOf(r) == StopOf(s)
  {
    if HasHooks(s) then s else s["hooks" := Obj(map[])]
  }

  function Wire(gate: string -> bool, command: string, s: Fields): Fields {
    var left := Filtered(gate, {command}, Hooked(s));
    if AnyKept({command}, Flat(StopOf(s))) then left else WithStop(left, StopOf(left) + [GateEntry(command)])
  }

  function Unwire(gate: string -> bool, s: Fields): Fields {
    Filtered(gate, {}, s)
  }

  /** Some hook of the Stop list runs a gate. */
  predicate HasGate(gate: string -> bool, s: Fields) {
    AnyGoes(gate, {}, Flat(StopOf(s)))
  }

  /** `wireHook`. */
  method WireHook(gate: string -> bool, command: string, settings: Fields) returns (r: Fields)
    ensures r == Wire(gate, command, settings)
  {
    hide Filtered, Flat, AnyKept, AnyGoes, StopOf;
    r := if HasHooks(settings) then settings else settings["hooks" := Obj(map[])];
    var left, changed, present := FilterStopGates(gate, {command}, r);
    r := left;
    if !present {
      r := WithStop(r, StopOf(r) + [GateEntry(command)]);
    }
  }

  /** `unwireHook`. */
  method UnwireHook(gate: string -> bool, settings: Fields) returns (r: Fields, changed: bool)
    ensures r == Unwire(gate, settings) && changed == HasGate(gate, settings)
  {
    hide Filtered, Flat, AnyKept, AnyGoes, StopOf;
    var present;
    r, changed, present := FilterStopGates(gate, {}, settings);
  }

  // ---------------------------------------------------------------- what both leave

  lemma {:induction false} KeptConcat(gate: string -> bool, keep: set<string>, a: seq<Json>, b: seq<Json>)
    ensures KeptHooks(gate, keep, a + b) == KeptHooks(gate, keep, a) + KeptHooks(gate, keep, b)
  {
    hide Goes;
    if b == [] {
      assert a + b == a;
    } else {
      assert (a + b)[..|a + b| - 1] == a + b[..|b| - 1];
      KeptConcat(gate, keep, a, b[..|b| - 1]);
    }
  }

  lemma {:induction false} FlatConcat(a: seq<Json>, b: seq<Json>)
    ensures Flat(a + b) == Flat(a) + Flat(b)
  {
    hide HooksOf;
    if b == [] {
      assert a + b == a;
    } else {
      assert (a + b)[..|a + b| - 1] == a + b[..|b| - 1];
      FlatConcat(a, b[..|b| - 1]);
    }
  }

  lemma FlatOne(e: Json)
    ensures Flat([e]) == HooksOf(e)
  {
    assert [e][..0] == [];
  }

  lemma EntryFlat(gate: string -> bool, keep: set<string>, e: Json)
    ensures Flat(KeptEntry(gate, keep, e)) == KeptHooks(gate, keep, HooksOf(e))
  {
    if !e.Obj? {
      FlatOne(e);
    } else {
      FlatOne(Obj(e.fields["hooks" := Arr(KeptHooks(gate, keep, HooksOf(e)))]));
    }
  }

  /** Filtering the entries is filtering their hooks. */
  lemma {:induction false} EntriesFlat(gate: string -> bool, keep: set<string>, stop: seq<Json>)
    ensures Flat(KeptEntries(gate, keep, stop)) == KeptHooks(gate, keep, Flat(stop))
  {
    hide KeptEntry, HooksOf;
    if stop != [] {
      var less, e := stop[..|stop| - 1], stop[|stop| - 1];
      EntriesFlat(gate, keep, less);
      EntryFlat(gate, keep, e);
      FlatConcat(KeptEntries(gate, keep, less), KeptEntry(gate, keep, e));
      KeptConcat(gate, keep, Flat(less), HooksOf(e));
    }
  }

  lemma AnyOfOne(gate: string -> bool, keep: set<string>, hook: Json)
    ensures AnyGoes(gate, keep, [hook]) == Goes(gate, keep, hook) && AnyKept(keep, [hook]) == (CommandOf(hook) in keep)
  {
    assert [hook][0] == hook;
  }

  /** What a filter keeps has nothing that goes; and of a list with nothing that goes it keeps everything. */
  lemma {:induction false} KeptIs(gate: string -> bool, keep: set<string>, hooks: seq<Json>)
    ensures !AnyGoes(gate, keep, KeptHooks(gate, keep, hooks))
    ensures !AnyGoes(gate, keep, hooks) ==> KeptHooks(gate, keep, hooks) == hooks
    ensures AnyKept(keep, KeptHooks(gate, keep, hooks)) <==> AnyKept(keep, hooks)
  {
    hide AnyGoes, AnyKept, CommandOf;
    if hooks == [] {
      NoneOf(gate, keep);
    } else {
      var less, h := hooks[..|hooks| - 1], hooks[|hooks| - 1];
      KeptIs(gate, keep, less);
      assert hooks == less + [h];
      AnyOfOne(gate, keep, h);
      AnyOfBoth(gate, keep, less, [h]);
      AnyOfBoth(gate, keep, KeptHooks(gate, keep, less), [h]);
      assert KeptHooks(gate, keep, less) + [] == KeptHooks(gate, keep, less);
    }
  }

  predicate TidyEntry(e: Json) {
    e.Obj? ==> "hooks" in e.fields && e.fields["hooks"].Arr?
  }

  predicate TidyStop(stop: seq<Json>) {
    forall i | 0 <= i < |stop| :: TidyEntry(stop[i])
  }

  /** Every entry that is an object has a list of hooks. */
  predicate Tidy(s: Fields) {
    HasStop(s) && TidyStop(StopOf(s))
  }

  lemma EntryStays(gate: string -> bool, keep: set<string>, e: Json)
    ensures TidyStop(KeptEntry(gate, keep, e))
    ensures TidyEntry(e) && !AnyGoes(gate, keep, HooksOf(e)) ==> KeptEntry(gate, keep, e) == [e]
  {
    hide KeptHooks, AnyGoes;
    KeptIs(gate, keep, HooksOf(e));
    if TidyEntry(e) && e.Obj? {
      assert e.fields["hooks" := Arr(HooksOf(e))] == e.fields;
    }
  }

  lemma {:induction false} EntriesStay(gate: string -> bool, keep: set<string>, stop: seq<Json>)
    ensures TidyStop(KeptEntries(gate, keep, stop))
    ensures TidyStop(stop) && !AnyGoes(gate, keep, Flat(stop)) ==> KeptEntries(gate, keep, stop) == stop
  {
    hide KeptEntry, HooksOf, AnyGoes, TidyEntry;
    if stop != [] {
      var less, e := stop[..|stop| - 1], stop[|stop| - 1];
      EntriesStay(gate, keep, less);
      EntryStays(gate, keep, e);
      AnyOfBoth(gate, keep, Flat(less), HooksOf(e));
      assert stop == less + [e];
    }
  }

  /** What wiring leaves in the Stop list: every other hook, in order, the command once more only if it was not there,
      and no other gate. */
  lemma WireLeaves(gate: string -> bool, command: string, s: Fields)
    ensures var hooks, after := Flat(StopOf(s)), Flat(StopOf(Wire(gate, command, s)));
            && after == KeptHooks(gate, {command}, hooks) + (if AnyKept({command}, hooks) then [] else [GateHook(command)])
            && !AnyGoes(gate, {command}, after) && AnyKept({command}, after)
    ensures HasStop(Wire(gate, command, s))
    ensures TidyStop(StopOf(Wire(gate, command, s)))
  {
    hide KeptHooks, AnyGoes, Flat, KeptEntries, TidyStop, AnyKept;
    var hooks, stop := Flat(StopOf(s)), StopOf(s);
    FilteredStop(gate, {command}, Hooked(s));
    EntriesStay(gate, {command}, stop);
    KeptIs(gate, {command}, hooks);
    if AnyKept({command}, hooks) {
      SomeStop({command}, s);
    } else {
      var kept := KeptEntries(gate, {command}, stop);
      FlatConcat(kept, [GateEntry(command)]);
      FlatOne(GateEntry(command));
      OneGate(gate, command, KeptHooks(gate, {command}, hooks));
      TidyMore(kept, command);
    }
  }

  lemma FilteredStop(gate: string -> bool, keep: set<string>, s: Fields)
    ensures StopOf(Filtered(gate, keep, s)) == KeptEntries(gate, keep, StopOf(s))
    ensures Flat(StopOf(Filtered(gate, keep, s))) == KeptHooks(gate, keep, Flat(StopOf(s)))
  {
    EntriesFlat(gate, keep, StopOf(s));
  }

  lemma SomeStop(keep: set<string>, s: Fields)
    requires AnyKept(keep, Flat(StopOf(s)))
    ensures HasStop(s)
  {}

  lemma OneGate(gate: string -> bool, command: string, hooks: seq<Json>)
    requires !AnyGoes(gate, {command}, hooks)
    ensures !AnyGoes(gate, {command}, hooks + [GateHook(command)]) && AnyKept({command}, hooks + [GateHook(command)])
  {
    var all := hooks + [GateHook(command)];
    assert CommandOf(all[|hooks|]) == command;
    forall i | 0 <= i < |all| ensures !Goes(gate, {command}, all[i]) {
      if i < |hooks| {
        assert !Goes(gate, {command}, hooks[i]);
      }
    }
  }

  lemma TidyMore(kept: seq<Json>, command: string)
    requires TidyStop(kept)
    ensures TidyStop(kept + [GateEntry(command)])
  {}

  /** Wiring twice is wiring once. */
  lemma WireTwice(gate: string -> bool, command: string, s: Fields)
    ensures Wire(gate, command, Wire(gate, command, s)) == Wire(gate, command, s)
  {
    hide KeptHooks, AnyGoes, Flat, KeptEntries, TidyStop, AnyKept;
    var once := Wire(gate, command, s);
    hide Wire;
    WireLeaves(gate, command, s);
    EntriesStay(gate, {command}, StopOf(once));
    WiredStays(gate, command, once);
  }

  lemma WiredStays(gate: string -> bool, command: string, s: Fields)
    requires HasStop(s) && AnyKept({command}, Flat(StopOf(s))) && KeptEntries(gate, {command}, StopOf(s)) == StopOf(s)
    ensures Wire(gate, command, s) == s
  {
    SameStop(s);
  }

  lemma SameStop(s: Fields)
    requires HasStop(s)
    ensures WithStop(s, StopOf(s)) == s
  {
    var hooks := s["hooks"].fields;
    assert hooks["Stop" := Arr(StopOf(s))] == hooks;
    assert s["hooks" := Obj(hooks)] == s;
  }

  lemma StopTwice(s: Fields, a: seq<Json>, b: seq<Json>)
    requires HasHooks(s)
    ensures WithStop(WithStop(s, a), b) == WithStop(s, b)
  {
    var hooks := s["hooks"].fields;
    assert hooks["Stop" := Arr(a)]["Stop" := Arr(b)] == hooks["Stop" := Arr(b)];
    assert s["hooks" := Obj(hooks["Stop" := Arr(a)])]["hooks" := Obj(hooks["Stop" := Arr(b)])] == s["hooks" := Obj(hooks["Stop" := Arr(b)])];
  }

  /** Unwiring takes away every gate and no other hook. */
  lemma UnwireLeaves(gate: string -> bool, s: Fields)
    ensures Flat(StopOf(Unwire(gate, s))) == KeptHooks(gate, {}, Flat(StopOf(s))) && !HasGate(gate, Unwire(gate, s))
    ensures HasStop(Unwire(gate, s)) <==> HasStop(s)
  {
    hide KeptHooks, AnyGoes, Flat, KeptEntries;
    FilteredStop(gate, {}, s);
    KeptIs(gate, {}, Flat(StopOf(s)));
  }

  /** Settings without a gate whose entries are written out are not changed. */
  lemma GatelessStays(gate: string -> bool, s: Fields)
    requires TidyStop(StopOf(s)) && !HasGate(gate, s)
    ensures Unwire(gate, s) == s
  {
    hide AnyGoes, KeptEntries, Flat, TidyStop;
    EntriesStay(gate, {}, StopOf(s));
    if HasStop(s) {
      SameStop(s);
    }
  }

  /** The settings have no gate, their Stop list is written out in full, and the command is a gate or is there
      already. */
  predicate Restorable(gate: string -> bool, command: string, s: Fields) {
    Tidy(s) && !HasGate(gate, s) && (gate(command) || AnyKept({command}, Flat(StopOf(s))))
  }

  /** Unwiring undoes wiring exactly for those. */
  lemma UnwireRestoresIff(gate: string -> bool, command: string, s: Fields)
    ensures Unwire(gate, Wire(gate, command, s)) == s <==> Restorable(gate, command, s)
  {
    if Restorable(gate, command, s) {
      UnwireRestores(gate, command, s);
    }
    if Unwire(gate, Wire(gate, command, s)) == s {
      RestoredIsRestorable(gate, command, s);
    }
  }

  lemma GoesOrKept(gate: string -> bool, command: string, hooks: seq<Json>)
    requires !AnyGoes(gate, {}, hooks)
    ensures !AnyGoes(gate, {command}, hooks)
    ensures gate(command) ==> !AnyKept({command}, hooks)
  {
    forall i | 0 <= i < |hooks|
      ensures !Goes(gate, {command}, hooks[i]) && (gate(command) ==> CommandOf(hooks[i]) !in {command})
    {
      assert !Goes(gate, {}, hooks[i]);
    }
  }

  lemma UnwireRestores(gate: string -> bool, command: string, s: Fields)
    requires Restorable(gate, command, s)
    ensures Unwire(gate, Wire(gate, command, s)) == s
  {
    hide KeptHooks, AnyGoes, Flat, KeptEntries, TidyStop, AnyKept;
    var stop := StopOf(s);
    GoesOrKept(gate, command, Flat(stop));
    EntriesStay(gate, {command}, stop);
    EntriesStay(gate, {}, stop);
    SameStop(s);
    if !AnyKept({command}, Flat(stop)) {
      GateGoes(gate, command, stop);
      StopTwice(s, stop + [GateEntry(command)], stop);
    }
  }

  lemma GateGoes(gate: string -> bool, command: string, stop: seq<Json>)
    requires gate(command)
    ensures KeptEntries(gate, {}, stop + [GateEntry(command)]) == KeptEntries(gate, {}, stop)
  {
    var all := stop + [GateEntry(command)];
    assert all[..|all| - 1] == stop && all[|all| - 1] == GateEntry(command);
    assert KeptEntries(gate, {}, all) == KeptEntries(gate, {}, stop) + KeptEntry(gate, {}, GateEntry(command));
    var hooks := HooksOf(GateEntry(command));
    assert hooks == [GateHook(command)];
    assert hooks[..0] == [] && hooks[|hooks| - 1] == GateHook(command);
    assert CommandOf(GateHook(command)) == command;
    assert Goes(gate, {}, GateHook(command));
    assert KeptHooks(gate, {}, hooks) == [];
  }

  lemma RestoredIsRestorable(gate: string -> bool, command: string, s: Fields)
    requires Unwire(gate, Wire(gate, command, s)) == s
    ensures Restorable(gate, command, s)
  {
    hide KeptHooks, AnyGoes, Flat, KeptEntries, AnyKept, Wire, TidyStop;
    var once := Wire(gate, command, s);
    WireLeaves(gate, command, s);
    UnwireLeaves(gate, once);
    FilteredStop(gate, {}, once);
    EntriesStay(gate, {}, StopOf(once));
    if !gate(command) {
      StillThere(gate, command, Flat(StopOf(once)));
    }
  }

  /** A command that is no gate is not taken away. */
  lemma {:induction false} StillThere(gate: string -> bool, command: string, hooks: seq<Json>)
    requires !gate(command) && AnyKept({command}, hooks)
    ensures AnyKept({command}, KeptHooks(gate, {}, hooks))
  {
    hide AnyKept, CommandOf;
    if hooks == [] {
      NoneOf(gate, {command});
    } else {
      var less, h := hooks[..|hooks| - 1], hooks[|hooks| - 1];
      assert hooks == less + [h];
      AnyOfBoth(gate, {command}, less, [h]);
      AnyOfOne(gate, {command}, h);
      AnyOfBoth(gate, {command}, KeptHooks(gate, {}, less), [h]);
      assert KeptHooks(gate, {}, less) + [] == KeptHooks(gate, {}, less);
      if AnyKept({command}, less) {
        StillThere(gate, command, less);
      }
    }
  }
}
