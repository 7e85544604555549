/** The installer as it runs: files, store and state changed in place, action by action (internal/sync/sync.go:
    SyncHosts, syncHost, executeAction, applyAsset; internal/sync/uninstall.go: Uninstall, applyUninstall). */
module SyncMachine {
  import Settings
  import opened SyncPlan
  import opened SyncPlanLaws
  import opened SyncRun
  import opened SyncSafety
  import opened SyncFixed
  import opened UninstallPlan

  lemma {:induction false} TasksThen(w: World, a: seq<Task>, b: seq<Task>)
    ensures AllDone(w, a) ==> RunTasks(w, a + b) == RunTasks(RunTasks(w, a), b) &&
                              (AllDone(w, a + b) <==> AllDone(RunTasks(w, a), b))
    ensures !AllDone(w, a) ==> RunTasks(w, a + b) == RunTasks(w, a) && !AllDone(w, a + b)
    decreases a
  {
    if a == [] {
      assert a + b == b;
    } else {
      assert (a + b)[0] == a[0] && (a + b)[1..] == a[1..] + b;
      if !Fails(w, a[0]) {
        TasksThen(DoTask(w, a[0]), a[1..], b);
      }
    }
  }

  lemma OneTask(w: World, t: Task)
    ensures RunTasks(w, [t]) == DoTask(w, t) && (AllDone(w, [t]) <==> !Fails(w, t))
  {
    assert [t][1..] == [];
  }

  lemma NoTask(w: World)
    ensures RunTasks(w, []) == w && AllDone(w, [])
  {}

  class Machine {
    var disk: Disk
    var backups: map<(nat, Path), string>
    var saved: State
    var run: nat
    ghost var shipped: set<string>
    ghost var replaced: set<(Path, string)>
    ghost var merged: set<Path>

    ghost function Now(): World
      reads this
    {
      World(disk, backups, saved, run, shipped, replaced, merged)
    }

    constructor (disk: Disk)
      ensures Now() == Fresh(disk)
    {
      this.disk, backups, saved, run, shipped, replaced, merged := disk, map[], State("", map[]), 0, {}, {}, {};
    }

    /** `backupStore.Snapshot`. */
    method Snapshot(p: Path) returns (ok: bool)
      modifies this`backups
      ensures ok == (p in disk)
      ensures backups == if ok then old(backups)[(run, p) := disk[p]] else old(backups)
    {
      ok := p in disk;
      if ok {
        backups := backups[(run, p) := disk[p]];
      }
    }

    method WriteFile(p: Path, content: string)
      modifies this`disk, this`replaced
      ensures Now() == Put(old(Now()), p, Some(content))
    {
      replaced := replaced + if p in disk then {(p, disk[p])} else {};
      disk := disk[p := content];
    }

    method RemoveFile(p: Path)
      modifies this`disk, this`replaced
      ensures Now() == Put(old(Now()), p, None)
    {
      replaced := replaced + if p in disk then {(p, disk[p])} else {};
      disk := disk - {p};
    }

    /** A settings file is written over without a snapshot. */
    method WriteSettings(p: Path, content: string)
      modifies this`disk, this`replaced, this`merged
      ensures Now() == DoTask(old(Now()), Task(p, false, Some(content), true))
    {
      WriteFile(p, content);
      merged := merged + {p};
    }

    /** One write or removal: the snapshot first, and nothing without it. */
    method Perform(t: Task) returns (ok: bool)
      requires !t.merge
      modifies this`disk, this`backups, this`replaced
      ensures Now() == DoTask(old(Now()), t) && ok == !Fails(old(Now()), t)
    {
      if t.backup {
        ok := Snapshot(t.path);
        if !ok {
          return;
        }
      }
      match t.put {
        case Some(content) => WriteFile(t.path, content);
        case None => RemoveFile(t.path);
      }
      return true;
    }

    /** `loadSettings`. */
    method LoadSettings(env: Env, p: Path) returns (ok: bool, text: Option<string>, settings: Settings.Fields)
      ensures text == Read(disk, p) && ok == Loaded(env, text).Some? && (ok ==> settings == Loaded(env, text).value)
    {
      if p !in disk {
        return true, None, map[];
      }
      text := Some(disk[p]);
      var parsed := env.parse(disk[p]);
      match parsed {
        case Some(value) => return true, text, value;
        case None => return false, text, map[];
      }
    }

    /** `applyHook`: the settings as they were read when the host's turn came, with the command wired. */
    method ApplyHook(env: Env, b: Binary, host: Host, text: Option<string>, settings: Settings.Fields)
      requires host.name == CLAUDE ==> Loaded(env, text) == Some(settings)
      modifies this`disk, this`replaced, this`merged
      ensures Now() == RunTasks(old(Now()), HookTasks(env, b, host, text)) && AllDone(old(Now()), HookTasks(env, b, host, text))
    {
      NoTask(Now());
      if host.name != CLAUDE {
        return;
      }
      var wired := Settings.WireHook(env.gate, b.command, settings);
      var out := env.marshal(wired);
      if text == Some(out) {
        return;
      }
      OneTask(Now(), Task(SettingsPath(host.configDir), false, Some(out), true));
      WriteSettings(SettingsPath(host.configDir), out);
    }

    /** `executeAction` and `applyAsset`: what an action does to the machine, and what it puts in the record. */
    method ExecuteAction(env: Env, b: Binary, host: Host, text: Option<string>, settings: Settings.Fields, claims: map<Path, Claim>,
                         a: Action, force: bool, hs: HostState)
      returns (ok: bool, after: HostState)
      requires Writes(a, force) ==> a.path in claims
      requires host.name == CLAUDE ==> Loaded(env, text) == Some(settings)
      modifies this`disk, this`backups, this`replaced, this`merged
      ensures var ts := ActionTasks(claims, HookTasks(env, b, host, text), a, force);
              Now() == RunTasks(old(Now()), ts) && ok == AllDone(old(Now()), ts)
      ensures ok ==> after == RecordAction(env, b, claims, hs, a, force)
    {
      hide HookTasks, Loaded;
      ok, after := true, hs;
      NoTask(Now());
      if Writes(a, force) {
        var payload := claims[a.path].file.content;
        var t := Task(a.path, !a.class_.Create?, Some(payload));
        OneTask(Now(), t);
        ok := Perform(t);
        if ok {
          after := hs.(assets := hs.assets[a.path := Record(env.hash(payload), b.version)]);
        }
      } else if a.class_.Ok? && a.path in claims {
        after := hs.(assets := hs.assets[a.path := Record(env.hash(claims[a.path].file.content), b.version)]);
      } else if a.class_.Rewire? {
        ApplyHook(env, b, host, text, settings);
        after := hs.(hook := Some(Hook(b.command, true)));
      }
    }

    /** `syncHost`: settings that cannot be read refuse it; then the plan, and its actions in order. */
    method SyncHost(env: Env, b: Binary, host: Host, force: bool, mem: State) returns (ok: bool, record: HostState, dirty: bool)
      requires "" !in RecordOf(mem, host).assets
      modifies this`disk, this`backups, this`replaced, this`merged
      ensures var r := HostRunOf(env, b, host, force, old(disk), mem);
              if Refuses(env, host, old(disk)) then !ok && Now() == old(Now())
              else ok && Now() == RunTasks(old(Now()), r.tasks) && record == r.record && dirty == r.dirty
    {
      hide Claims, HookComponent, HostPlan, RecordOf, RecordAction, Applicable, TasksFor, Adopted, RunTasks, AllDone, AppliesTo, HookTasks,
        Loaded, PlanTasks, ActionTasks, HostHookTasks, TasksOf, AnyWrite, RecordPlan, Writes;
      var hs := RecordOf(mem, host);
      record, dirty := hs, false;
      var text: Option<string>, settings: Settings.Fields := None, map[];
      if host.name == CLAUDE {
        ok, text, settings := LoadSettings(env, SettingsPath(host.configDir));
        if !ok {
          return;
        }
      }
      var claims, hook := ManifestClaims(env, host, b);
      var plan := BuildHostPlan(env, host, b, hs, disk);
      ghost var w0 := Now();
      ghost var wiring := HookTasks(env, b, host, text);
      PlanWrites(env, host, b, hs, disk, force);
      WholePlan(env, b, host, force, w0, mem, text);
      record, dirty := Adopted(hs, host, b), Adopted(hs, host, b) != hs || hs.assets == map[] || mem.version != b.version;
      NoTask(w0);
      NothingPlanned(claims, wiring, force);
      NothingRecorded(env, b, claims, Adopted(hs, host, b), force);
      for i := 0 to |plan|
        invariant AllDone(w0, PlanTasks(claims, wiring, plan[..i], force)) && Now() == RunTasks(w0, PlanTasks(claims, wiring, plan[..i], force))
        invariant record == RecordPlan(env, b, claims, Adopted(hs, host, b), plan[..i], force)
        invariant dirty == (Adopted(hs, host, b) != hs || hs.assets == map[] || mem.version != b.version || AnyWrite(plan[..i], force))
      {
        assert plan[..i + 1][..i] == plan[..i] && plan[..i + 1][i] == plan[i];
        NextPlanned(claims, wiring, plan, force, i);
        NextRecord(env, b, claims, Adopted(hs, host, b), plan, force, i);
        TasksThen(w0, PlanTasks(claims, wiring, plan[..i], force), ActionTasks(claims, wiring, plan[i], force));
        DoneSoFar(w0, claims, wiring, plan, force, i + 1);
        ok, record := ExecuteAction(env, b, host, text, settings, claims, plan[i], force, record);
        AnyWriteNext(plan, force, i);
        dirty := dirty || Writes(plan[i], force);
      }
      assert plan[..|plan|] == plan;
      ok, dirty := true, dirty || record != Adopted(hs, host, b);
    }

    /** `SyncHosts`. */
    method SyncHosts(env: Env, b: Binary, hosts: seq<Host>, force: bool)
      requires NoEmptyRecord(saved)
      modifies this
      ensures Now() == Sync(env, b, hosts, force, Whole, old(Now()))
    {
      hide HostRunOf, SyncFrom, RecordOf, Payloads, RunTasks, AllDone, Claims, Refuses;
      run := run + 1;
      shipped := shipped + Payloads(b);
      var mem, dirty := saved, false;
      ghost var start := Progress(Now(), saved, false);
      assert hosts[0..] == hosts;
      for i := 0 to |hosts|
        invariant NoEmptyRecord(mem) && saved == old(saved)
        invariant SyncFrom(env, b, hosts, force, start, Whole) == SyncFrom(env, b, hosts[i..], force, Progress(Now(), mem, dirty), Whole)
      {
        assert hosts[i..][0] == hosts[i] && hosts[i..][1..] == hosts[i + 1..];
        ghost var at := Progress(Now(), mem, dirty);
        HostRecord(env, b, hosts[i], force, disk, mem);
        SyncStep(env, b, hosts[i..], force, at);
        var ok, record, more := SyncHost(env, b, hosts[i], force, mem);
        if !ok {
          return;
        }
        mem := State(b.version, mem.hosts[hosts[i].name := record]);
        dirty := dirty || more;
      }
      assert hosts[|hosts|..] == [];
      SyncEnd(env, b, force, Progress(Now(), mem, dirty));
      if dirty {
        saved := mem;
      }
    }

    /** `classifyUninstallAsset`. */
    method ClassifyAsset(env: Env, p: Path, record: Record, claims: map<Path, Claim>, orphans: bool, force: bool) returns (r: Removal)
      ensures r == Classify(env, disk, claims, p, record, orphans, force)
    {
      var digest := if p in disk then env.hash(disk[p]) else "";
      var modified := p in disk && digest != record.digest;
      if p !in claims && !orphans {
        return KeepOrphan;
      }
      if modified && !force {
        return Refuse;
      }
      return Remove(modified);
    }

    /** `planUninstallHook`: the settings read, and what they are without a gate. */
    method PlanHook(env: Env, p: Path) returns (ok: bool, write: Option<(Path, string)>)
      ensures ok == Loaded(env, Read(disk, p)).Some? && (ok ==> WriteTask(write) == UnwireAt(env, disk, p))
    {
      hide Settings.HasGate, Settings.Unwire;
      write := None;
      var text, settings;
      ok, text, settings := LoadSettings(env, p);
      if ok {
        var left, changed := Settings.UnwireHook(env.gate, settings);
        write := if changed then Some((p, env.marshal(left))) else None;
      }
    }

    /** `planUninstall`: every asset of every host classified, hosts by name and assets by path, and the settings of a
        wired hook read before anything is done; the plan holds one text of settings, that of the last host read. */
    method PlanUninstall(env: Env, b: Binary, orphans: bool, force: bool, dir: string)
      returns (ok: bool, blocked: seq<Path>, actions: seq<Planned>, write: Option<(Path, string)>)
      ensures ok == !Unreadable(env, disk, saved, dir)
      ensures ok ==> (blocked == [] <==> !Blocked(env, b, disk, saved, orphans, force))
      ensures ok ==> actions == AllPlanned(env, b, disk, saved, orphans, force) && WriteTask(write) == UnwireTasks(env, disk, saved, dir)
    {
      hide Claims, PlannedHost, PlannedFor, UnwireFor, LastWired, HookWired, HookPath, Refusing, Unreadable, Blocked, UnwireTasks,
        HookRead, HooksRead, NoneRefuses, UnwireAt, WriteTask, Loaded, SortedSet;
      SortedSetIs(saved.hosts.Keys);
      var names := SortedSet(saved.hosts.Keys);
      blocked, actions, write := [], [], None;
      assert names[..0] == [];
      NoHosts(env, b, disk, saved, orphans, force, dir);
      for i := 0 to |names|
        invariant HooksRead(env, disk, saved, names[..i], dir)
        invariant actions == PlannedFor(env, b, disk, saved, names[..i], orphans, force)
        invariant blocked == [] <==> NoneRefuses(env, b, disk, saved, names[..i], orphans, force)
        invariant WriteTask(write) == UnwireFor(env, disk, saved, names[..i], dir)
      {
        NextHost(env, b, disk, saved, names, i, orphans, force, dir);
        var name := names[i];
        var hs := saved.hosts[name];
        var refused, planned := PlanHost(env, b, name, hs, orphans, force);
        blocked, actions := blocked + refused, actions + planned;
        if HookWired(hs) {
          ok, write := PlanHook(env, HookPath(name, hs, dir));
          if !ok {
            CannotRead(env, disk, saved, dir, name);
            return;
          }
        }
        CanRead(env, disk, saved, dir, name);
      }
      assert names[..|names|] == names;
      ok := true;
      AllRead(env, disk, saved, dir);
      PlannedWhole(env, b, disk, saved, orphans, force, dir);
    }

    /** The inner loop over the assets of one host, and the action of its hook. */
    method PlanHost(env: Env, b: Binary, name: string, hs: HostState, orphans: bool, force: bool)
      returns (blocked: seq<Path>, actions: seq<Planned>)
      ensures actions == PlannedHost(env, b, disk, name, hs, orphans, force)
      ensures blocked == [] <==> !Refusing(env, b, disk, name, hs, orphans, force)
    {
      hide Claims, Classify, SortedSet;
      var claims, _ := ManifestClaims(env, RecordedHost(name, hs), b);
      SortedSetIs(hs.assets.Keys);
      var paths := SortedSet(hs.assets.Keys);
      blocked, actions := [], [];
      for i := 0 to |paths|
        invariant actions == PlannedAssets(env, b, disk, name, hs, paths[..i], orphans, force)
        invariant blocked == [] <==> forall j | 0 <= j < i :: !RemovalAt(env, b, disk, name, hs, paths[j], orphans, force).Refuse?
      {
        assert paths[..i + 1][..i] == paths[..i] && paths[..i + 1][i] == paths[i];
        var r := ClassifyAsset(env, paths[i], hs.assets[paths[i]], claims, orphans, force);
        actions := actions + [Asset(name, paths[i], r)];
        if r.Refuse? {
          blocked := blocked + [paths[i]];
        }
      }
      assert paths[..|paths|] == paths;
      if HookWired(hs) {
        actions := actions + [HookOf(name)];
      }
    }

    /** `applyUninstall`: snapshot, remove, unwire, and note what each host lost. */
    method ApplyUninstall(actions: seq<Planned>, write: Option<(Path, string)>) returns (ok: bool, cleanups: map<string, Cleanup>)
      modifies this`disk, this`backups, this`replaced, this`merged
      ensures var ts := TasksOfPlan(actions, WriteTask(write)); Now() == RunTasks(old(Now()), ts) && ok == AllDone(old(Now()), ts)
      ensures ok ==> cleanups == CleanupsOf(actions)
    {
      hide RunTasks, AllDone, DoTask, TasksOfPlan, CleanupsOf, Noted, TaskOfPlanned;
      ghost var w0, unwire := Now(), WriteTask(write);
      NoTask(w0);
      NoSteps(unwire);
      cleanups := map[];
      for i := 0 to |actions|
        invariant AllDone(w0, TasksOfPlan(actions[..i], unwire)) && Now() == RunTasks(w0, TasksOfPlan(actions[..i], unwire))
        invariant cleanups == CleanupsOf(actions[..i])
      {
        NextStep(actions, unwire, i);
        TasksThen(w0, TasksOfPlan(actions[..i], unwire), TaskOfPlanned(actions[i], unwire));
        ghost var w := Now();
        NoTask(w);
        match actions[i] {
          case Asset(host, p, Remove(backup)) =>
            OneTask(w, Task(p, backup, None));
            ok := Perform(Task(p, backup, None));
            if !ok {
              PlanStopped(w0, actions, unwire, i + 1);
              return;
            }
          case Asset(_, _, _) =>
          case HookOf(host) =>
            if write.Some? {
              OneTask(w, Task(write.value.0, false, Some(write.value.1), true));
              WriteSettings(write.value.0, write.value.1);
            }
        }
        cleanups := Noted(cleanups, actions[i]);
      }
      assert actions[..|actions|] == actions;
      ok := true;
    }

    /** The records without what was taken, and without a host of which nothing is left. */
    method CleanRecords(cleanups: map<string, Cleanup>) returns (s: State, dirty: bool)
      ensures s == CleanedBy(saved, cleanups) && (!dirty ==> s == saved)
    {
      hide Cleared, Empty, HostsCleaned, CleanedBy;
      SortedSetIs(cleanups.Keys);
      var names := SortedSet(cleanups.Keys);
      s, dirty := saved, false;
      CleanNone(saved.hosts, cleanups);
      assert names[..0] == [];
      for i := 0 to |names|
        invariant s == saved.(hosts := HostsCleaned(saved.hosts, cleanups, names[..i]))
        invariant !dirty ==> s == saved
      {
        var name := names[i];
        CleanNext(saved.hosts, cleanups, names, i);
        if name in s.hosts {
          var left := Cleared(s.hosts[name], cleanups[name]);
          dirty := dirty || left != s.hosts[name] || Empty(left);
          s := s.(hosts := if Empty(left) then s.hosts - {name} else s.hosts[name := left]);
        }
      }
      assert names[..|names|] == names;
      AllCleaned(saved, cleanups, names);
    }

    /** `Uninstall`. */
    method UninstallAll(env: Env, b: Binary, orphans: bool, force: bool, dir: string)
      modifies this
      ensures Now() == Uninstall(env, b, orphans, force, dir, Whole, old(Now()))
    {
      hide AllTasks, Blocked, Unreadable, Cleaned, RunTasks, AllDone, AllPlanned, UnwireTasks, CleanupsOf, CleanedBy, TasksOfPlan;
      var ok, blocked, actions, write := PlanUninstall(env, b, orphans, force, dir);
      if !ok || blocked != [] {
        return;
      }
      PlanIsTasks(env, b, Now(), orphans, force, dir);
      PlanCleans(env, b, disk, saved, orphans, force);
      run := run + 1;
      var cleanups;
      ok, cleanups := ApplyUninstall(actions, write);
      if ok {
        var s, dirty := CleanRecords(cleanups);
        if dirty {
          saved := s;
        }
      }
    }
  }

  /** What one action of a host's plan does, given what the hook's does. */
  function ActionTasks(claims: map<Path, Claim>, wiring: seq<Task>, a: Action, force: bool): seq<Task> {
    if a.class_.Rewire? then wiring else TasksFor(claims, a, force)
  }

  /** The tasks of a plan whose first action may be the hook's. */
  function PlanTasks(claims: map<Path, Claim>, wiring: seq<Task>, plan: seq<Action>, force: bool): seq<Task> {
    (if plan != [] && plan[0].class_.Rewire? then wiring else []) + TasksOf(claims, plan, force)
  }

  lemma NothingPlanned(claims: map<Path, Claim>, wiring: seq<Task>, force: bool)
    ensures PlanTasks(claims, wiring, [], force) == []
  {}

  lemma NothingRecorded(env: Env, b: Binary, claims: map<Path, Claim>, hs: HostState, force: bool)
    ensures RecordPlan(env, b, claims, hs, [], force) == hs && !AnyWrite([], force)
  {}

  lemma NextRecord(env: Env, b: Binary, claims: map<Path, Claim>, hs: HostState, plan: seq<Action>, force: bool, i: nat)
    requires i < |plan|
    ensures RecordPlan(env, b, claims, hs, plan[..i + 1], force) ==
            RecordAction(env, b, claims, RecordPlan(env, b, claims, hs, plan[..i], force), plan[i], force)
  {
    hide RecordAction;
    assert plan[..i + 1][..i] == plan[..i] && plan[..i + 1][i] == plan[i];
  }

  lemma NextPlanned(claims: map<Path, Claim>, wiring: seq<Task>, plan: seq<Action>, force: bool, i: nat)
    requires i < |plan| && forall k | 0 < k < |plan| :: !plan[k].class_.Rewire?
    ensures PlanTasks(claims, wiring, plan[..i + 1], force) ==
            PlanTasks(claims, wiring, plan[..i], force) + ActionTasks(claims, wiring, plan[i], force)
  {
    var next := plan[..i + 1];
    assert next[..i] == plan[..i] && next[i] == plan[i];
    if i == 0 {
      assert TasksOf(claims, plan[..0], force) == [];
    } else {
      assert next[0] == plan[0] == plan[..i][0];
    }
  }

  /** An action that writes has a claimed path. */
  lemma PlanWrites(env: Env, host: Host, b: Binary, hs: HostState, disk: Disk, force: bool)
    requires "" !in hs.assets
    ensures var plan := HostPlan(env, host, b, hs, disk);
            forall i | 0 <= i < |plan| :: Writes(plan[i], force) ==> plan[i].path in Claims(env, host, b)
  {
    hide Claims, HostPlan, NeedsHook, HookComponent, PlannedPaths;
    NoOtherAction(env, host, b, hs, disk);
  }

  /** Only the first action of a plan can be the hook's. */
  lemma RewiresFirst(env: Env, host: Host, b: Binary, hs: HostState, disk: Disk)
    ensures var plan := HostPlan(env, host, b, hs, disk); forall k | 0 < k < |plan| :: !plan[k].class_.Rewire?
    ensures var plan := HostPlan(env, host, b, hs, disk);
            plan != [] && plan[0].class_.Rewire? <==> NeedsHook(env, HookComponent(host, b), hs.hook)
  {
    hide Claims, HostPlan, HookComponent, NeedsHook, PlannedPaths, SortedPaths;
    var plan, hook := HostPlan(env, host, b, hs, disk), HookPlan(env, host, b, hs);
    PlanShape(env, host, b, hs, disk);
    forall k | |hook| <= k < |plan| ensures !plan[k].class_.Rewire? {
      var i := k - |hook|;
      var p := SortedPaths(env, host, b, hs, disk)[i];
      assert plan[|hook| + i] == plan[k] == ActionAt(env, host, Claims(env, host, b), hs, disk, p);
    }
  }

  /** A plan's tasks are those of its host, none of which fails; only its first action can be the hook's. */
  lemma WholePlan(env: Env, b: Binary, host: Host, force: bool, w: World, mem: State, text: Option<string>)
    requires "" !in RecordOf(mem, host).assets && (host.name == CLAUDE ==> text == Read(w.disk, SettingsPath(host.configDir)))
    ensures var plan := HostPlan(env, host, b, RecordOf(mem, host), w.disk); forall k | 0 < k < |plan| :: !plan[k].class_.Rewire?
    ensures var ts := PlanTasks(Claims(env, host, b), HookTasks(env, b, host, text), HostPlan(env, host, b, RecordOf(mem, host), w.disk), force);
            ts == HostRunOf(env, b, host, force, w.disk, mem).tasks && AllDone(w, ts)
  {
    hide Claims, HostPlan, TasksOf, RecordOf, RecordPlan, Adopted, AnyWrite, HookComponent, NeedsHook, PlannedPaths, ActionAt, AllDone,
      Loaded, Wired;
    RewiresFirst(env, host, b, RecordOf(mem, host), w.disk);
    HostTasksPut(env, b, host, force, w, mem);
  }

  /** Writes over files that are there do not fail. */
  lemma {:induction false} PutsDone(w: World, ts: seq<Task>)
    requires forall i | 0 <= i < |ts| :: ts[i].put.Some? && (ts[i].backup ==> ts[i].path in w.disk)
    ensures AllDone(w, ts)
    decreases ts
  {
    if ts != [] {
      forall i | 0 <= i < |ts[1..]| ensures ts[1..][i].put.Some? && (ts[1..][i].backup ==> ts[1..][i].path in DoTask(w, ts[0]).disk) {
        assert ts[1..][i] == ts[i + 1];
      }
      PutsDone(DoTask(w, ts[0]), ts[1..]);
    }
  }

  lemma HostTasksPut(env: Env, b: Binary, host: Host, force: bool, w: World, mem: State)
    requires "" !in RecordOf(mem, host).assets
    ensures AllDone(w, HostRunOf(env, b, host, force, w.disk, mem).tasks)
  {
    hide Claims, HostPlan, TasksOf, RecordOf, RecordPlan, Adopted, AnyWrite, AllDone, HostHookTasks;
    var hs := RecordOf(mem, host);
    var hook, ts := HostHookTasks(env, b, host, hs, w.disk), TasksOf(Claims(env, host, b), HostPlan(env, host, b, hs, w.disk), force);
    HookTaskIs(env, b, host, hs, w.disk);
    HostTasksApart(env, b, host, force, w, hs);
    assert forall i | |hook| <= i < |hook + ts| :: (hook + ts)[i] == ts[i - |hook|];
    PutsDone(w, hook + ts);
  }

  lemma DoneSoFar(w: World, claims: map<Path, Claim>, wiring: seq<Task>, plan: seq<Action>, force: bool, n: nat)
    requires n <= |plan| && AllDone(w, PlanTasks(claims, wiring, plan, force))
    requires forall k | 0 < k < |plan| :: !plan[k].class_.Rewire?
    ensures AllDone(w, PlanTasks(claims, wiring, plan[..n], force))
    decreases |plan| - n
  {
    hide PlanTasks, ActionTasks, AllDone, RunTasks;
    if n == |plan| {
      assert plan[..n] == plan;
    } else {
      DoneSoFar(w, claims, wiring, plan, force, n + 1);
      NextPlanned(claims, wiring, plan, force, n);
      TasksThen(w, PlanTasks(claims, wiring, plan[..n], force), ActionTasks(claims, wiring, plan[n], force));
    }
  }

  lemma AnyWriteNext(plan: seq<Action>, force: bool, i: nat)
    requires i < |plan|
    ensures AnyWrite(plan[..i + 1], force) <==> AnyWrite(plan[..i], force) || Writes(plan[i], force)
  {
    var a, b := plan[..i], plan[..i + 1];
    assert b[i] == plan[i] && forall k | 0 <= k < i :: a[k] == b[k];
  }

  lemma NoSteps(unwire: seq<Task>)
    ensures TasksOfPlan([], unwire) == [] && CleanupsOf([]) == map[]
  {}

  lemma NextStep(actions: seq<Planned>, unwire: seq<Task>, i: nat)
    requires i < |actions|
    ensures TasksOfPlan(actions[..i + 1], unwire) == TasksOfPlan(actions[..i], unwire) + TaskOfPlanned(actions[i], unwire)
    ensures CleanupsOf(actions[..i + 1]) == Noted(CleanupsOf(actions[..i]), actions[i])
    ensures TaskOfPlanned(actions[i], unwire) ==
            match actions[i]
            case Asset(_, p, Remove(backup)) => [Task(p, backup, None)]
            case Asset(_, _, _) => []
            case HookOf(_) => unwire
  {
    assert actions[..i + 1][..i] == actions[..i] && actions[..i + 1][i] == actions[i];
  }

  lemma NoHosts(env: Env, b: Binary, disk: Disk, s: State, orphans: bool, force: bool, dir: string)
    ensures PlannedFor(env, b, disk, s, [], orphans, force) == [] && WriteTask(None) == UnwireFor(env, disk, s, [], dir) == []
    ensures HooksRead(env, disk, s, [], dir) && NoneRefuses(env, b, disk, s, [], orphans, force)
  {}

  /** The settings of the host can be read, if they matter. */
  predicate HookRead(env: Env, disk: Disk, s: State, name: string, dir: string) {
    name in s.hosts && (HookWired(s.hosts[name]) ==> Loaded(env, Read(disk, HookPath(name, s.hosts[name], dir))).Some?)
  }

  predicate HooksRead(env: Env, disk: Disk, s: State, names: seq<string>, dir: string) {
    forall i | 0 <= i < |names| :: HookRead(env, disk, s, names[i], dir)
  }

  lemma CannotRead(env: Env, disk: Disk, s: State, dir: string, name: string)
    requires name in s.hosts && HookWired(s.hosts[name]) && Loaded(env, Read(disk, HookPath(name, s.hosts[name], dir))).None?
    ensures Unreadable(env, disk, s, dir)
  {}

  lemma CanRead(env: Env, disk: Disk, s: State, dir: string, name: string)
    requires name in s.hosts
    ensures HookRead(env, disk, s, name, dir) <==>
            (HookWired(s.hosts[name]) ==> Loaded(env, Read(disk, HookPath(name, s.hosts[name], dir))).Some?)
  {}

  lemma AllRead(env: Env, disk: Disk, s: State, dir: string)
    requires HooksRead(env, disk, s, SortedSet(s.hosts.Keys), dir)
    ensures !Unreadable(env, disk, s, dir)
  {
    hide SortedSet, HookWired, Loaded, HookPath;
    SortedSetIs(s.hosts.Keys);
    var names := SortedSet(s.hosts.Keys);
    forall name | name in s.hosts ensures HookWired(s.hosts[name]) ==> Loaded(env, Read(disk, HookPath(name, s.hosts[name], dir))).Some? {
      assert name in names;
      var i :| 0 <= i < |names| && names[i] == name;
      assert HookRead(env, disk, s, names[i], dir);
    }
  }

  lemma NextHost(env: Env, b: Binary, disk: Disk, s: State, names: seq<string>, i: nat, orphans: bool, force: bool, dir: string)
    requires i < |names| && forall k | 0 <= k < |names| :: names[k] in s.hosts
    ensures PlannedFor(env, b, disk, s, names[..i + 1], orphans, force) ==
            PlannedFor(env, b, disk, s, names[..i], orphans, force) + PlannedHost(env, b, disk, names[i], s.hosts[names[i]], orphans, force)
    ensures UnwireFor(env, disk, s, names[..i + 1], dir) ==
            if HookWired(s.hosts[names[i]]) then UnwireAt(env, disk, HookPath(names[i], s.hosts[names[i]], dir))
            else UnwireFor(env, disk, s, names[..i], dir)
    ensures HooksRead(env, disk, s, names[..i + 1], dir) <==> HooksRead(env, disk, s, names[..i], dir) && HookRead(env, disk, s, names[i], dir)
    ensures NoneRefuses(env, b, disk, s, names[..i + 1], orphans, force) <==>
            NoneRefuses(env, b, disk, s, names[..i], orphans, force) && !Refusing(env, b, disk, names[i], s.hosts[names[i]], orphans, force)
  {
    hide PlannedHost, HookWired, UnwireAt, HookPath, HookRead, Refusing;
    var all, some := names[..i + 1], names[..i];
    assert all[..i] == some && all[i] == names[i] && forall k | 0 <= k < i :: all[k] == some[k];
  }

  /** A plan that stops early has done what it did by then. */
  lemma PlanStopped(w: World, actions: seq<Planned>, unwire: seq<Task>, n: nat)
    requires n <= |actions| && !AllDone(w, TasksOfPlan(actions[..n], unwire))
    ensures !AllDone(w, TasksOfPlan(actions, unwire)) && RunTasks(w, TasksOfPlan(actions, unwire)) == RunTasks(w, TasksOfPlan(actions[..n], unwire))
  {
    hide AllDone, RunTasks, TasksOfPlan;
    assert actions == actions[..n] + actions[n..];
    TasksOfBoth(actions[..n], actions[n..], unwire);
    TasksThen(w, TasksOfPlan(actions[..n], unwire), TasksOfPlan(actions[n..], unwire));
  }

  lemma HostRecord(env: Env, b: Binary, host: Host, force: bool, disk: Disk, mem: State)
    requires NoEmptyRecord(mem)
    ensures "" !in RecordOf(mem, host).assets && "" !in HostRunOf(env, b, host, force, disk, mem).record.assets
  {
    hide Claims, HostPlan, TasksOf, RecordPlan, HostHookTasks, AnyWrite, Adopted;
    NothingAtNoPath(env, b, host, force, disk, RecordOf(mem, host));
  }

  lemma SyncStep(env: Env, b: Binary, hosts: seq<Host>, force: bool, at: Progress)
    requires hosts != []
    ensures var r := HostRunOf(env, b, hosts[0], force, at.w.disk, at.mem);
            SyncFrom(env, b, hosts, force, at, Whole) ==
            if Refuses(env, hosts[0], at.w.disk) then at.(refused := true)
            else SyncFrom(env, b, hosts[1..], force,
                          Progress(RunTasks(at.w, r.tasks), State(b.version, at.mem.hosts[hosts[0].name := r.record]), at.dirty || r.dirty), Whole)
  {
    hide HostRunOf, RunTasks, Refuses;
  }

  lemma SyncEnd(env: Env, b: Binary, force: bool, at: Progress)
    ensures SyncFrom(env, b, [], force, at, Whole) == at
  {}
}
