/** A second sync by the same version has nothing to do; and without force, a file that matches neither its record
    nor its payload is left alone. */
module SyncFixed {
  import opened Text
  import Settings
  import opened SyncPlan
  import opened SyncPlanLaws
  import opened SyncRun
  import opened SyncSafety
  import opened SyncLaws

  // ---------------------------------------------------------------- what the tasks of a plan put

  ghost predicate PutsApart(w: World, ts: seq<Task>) {
    && (forall i | 0 <= i < |ts| :: ts[i].put.Some? && (ts[i].backup ==> ts[i].path in w.disk))
    && forall i, j | 0 <= i < j < |ts| :: ts[i].path != ts[j].path
  }

  lemma {:induction false} TasksPut(w: World, ts: seq<Task>)
    requires PutsApart(w, ts)
    ensures AllDone(w, ts)
    ensures forall i | 0 <= i < |ts| :: ts[i].path in RunTasks(w, ts).disk && RunTasks(w, ts).disk[ts[i].path] == ts[i].put.value
    decreases ts
  {
    if ts != [] {
      var v, rest := DoTask(w, ts[0]), ts[1..];
      forall i | 0 <= i < |rest| ensures rest[i].put.Some? && (rest[i].backup ==> rest[i].path in v.disk) {
        assert rest[i] == ts[i + 1];
      }
      TasksPut(v, rest);
      TasksReach(v, rest, PathsOf(rest));
      assert ts[0].path !in PathsOf(rest);
      forall i | 1 <= i < |ts| ensures ts[i] == rest[i - 1] {}
    }
  }

  /** The task of an action that writes. */
  lemma {:induction false} TaskOfAction(claims: map<Path, Claim>, plan: seq<Action>, force: bool, i: nat)
    requires i < |plan| && Writes(plan[i], force) && plan[i].path in claims
    ensures Task(plan[i].path, !plan[i].class_.Create?, Some(claims[plan[i].path].file.content)) in TasksOf(claims, plan, force)
  {
    if i < |plan| - 1 {
      TaskOfAction(claims, plan[..|plan| - 1], force, i);
    }
  }

  // ---------------------------------------------------------------- what a plan records

  predicate Records(claims: map<Path, Claim>, a: Action, force: bool) {
    !a.class_.Rewire? && (Writes(a, force) || a.class_.Ok?) && a.path in claims
  }

  lemma {:induction false} RecordedAt(env: Env, b: Binary, claims: map<Path, Claim>, hs: HostState, plan: seq<Action>, force: bool, p: Path)
    ensures var after := RecordPlan(env, b, claims, hs, plan, force);
            && after.configDir == hs.configDir && after.components == hs.components
            && ((exists i | 0 <= i < |plan| :: Records(claims, plan[i], force) && plan[i].path == p) ==>
                  p in claims && p in after.assets &&
                  after.assets[p] == Record(env.hash(claims[p].file.content), b.version))
            && ((forall i | 0 <= i < |plan| :: !(Records(claims, plan[i], force) && plan[i].path == p)) ==>
                  (p in after.assets <==> p in hs.assets) && (p in hs.assets ==> after.assets[p] == hs.assets[p]))
            && after.hook == if exists i | 0 <= i < |plan| :: plan[i].class_.Rewire? then Some(Hook(b.command, true)) else hs.hook
  {
    if plan != [] {
      var n := |plan| - 1;
      var less := plan[..n];
      RecordedAt(env, b, claims, hs, less, force, p);
      assert forall i | 0 <= i < n :: less[i] == plan[i];
    }
  }

  lemma {:induction false} RecordedAlready(env: Env, b: Binary, claims: map<Path, Claim>, hs: HostState, plan: seq<Action>, force: bool)
    requires forall i | 0 <= i < |plan| :: RecordAction(env, b, claims, hs, plan[i], force) == hs
    ensures RecordPlan(env, b, claims, hs, plan, force) == hs
  {
    hide RecordAction;
    if plan != [] {
      RecordedAlready(env, b, claims, hs, plan[..|plan| - 1], force);
    }
  }

  lemma {:induction false} NoTasks(claims: map<Path, Claim>, plan: seq<Action>, force: bool)
    requires forall i | 0 <= i < |plan| :: !Writes(plan[i], force)
    ensures TasksOf(claims, plan, force) == []
  {
    if plan != [] {
      NoTasks(claims, plan[..|plan| - 1], force);
    }
  }

  // ---------------------------------------------------------------- a settled host

  /** The path is as the payload has it and recorded so, or it was changed by someone and left alone. */
  ghost predicate PathSettled(env: Env, b: Binary, claim: Claim, force: bool, disk: Disk, assets: map<Path, Record>) {
    && claim.path in disk && claim.path in assets
    && if env.hash(disk[claim.path]) == env.hash(claim.file.content)
       then assets[claim.path] == Record(env.hash(claim.file.content), b.version)
       else assets[claim.path].digest != env.hash(disk[claim.path]) && !force
  }

  /** The settings are there, and wiring them again would not change their text. */
  predicate WiredAlready(env: Env, b: Binary, host: Host, disk: Disk) {
    var text := Read(disk, SettingsPath(host.configDir));
    Loaded(env, text).Some? && text == Some(Wired(env, b.command, text))
  }

  ghost predicate HookSettled(env: Env, b: Binary, host: Host, hook: string, h: Option<Hook>, disk: Disk) {
    hook != "" ==>
      HookReady(h) &&
      (env.legacy(h.value.command) ==> h == Some(Hook(b.command, true)) && (host.name == CLAUDE ==> WiredAlready(env, b, host, disk)))
  }

  ghost predicate Settled(env: Env, b: Binary, host: Host, force: bool, disk: Disk, mem: State) {
    && host.name in mem.hosts && mem.version == b.version && !Refuses(env, host, disk)
    && (var hs := mem.hosts[host.name];
        && Adopted(hs, host, b) == hs && "" !in hs.assets && HookSettled(env, b, host, HookComponent(host, b), hs.hook, disk)
        && forall p | p in Claims(env, host, b) :: PathSettled(env, b, Claims(env, host, b)[p], force, disk, hs.assets))
  }

  /** The command a version wires is a command. */
  predicate Wires(b: Binary) {
    Trim(b.command) != ""
  }

  lemma ActionOf(env: Env, host: Host, b: Binary, hs: HostState, disk: Disk, p: Path) returns (i: nat)
    requires "" !in hs.assets && p in Claims(env, host, b)
    ensures var plan := HostPlan(env, host, b, hs, disk);
            i < |plan| && plan[i].path == p && plan[i] == Action(AssetClass(env, disk, Claims(env, host, b)[p], hs.assets), Claims(env, host, b)[p].component, p) &&
            forall j | 0 <= j < |plan| && plan[j].path == p :: j == i
  {
    hide Claims, HostPlan, AssetClass, NeedsHook, HookComponent;
    EveryPathHasItsAction(env, host, b, hs, disk, p);
    NoOtherAction(env, host, b, hs, disk);
    var plan := HostPlan(env, host, b, hs, disk);
    i :| 0 <= i < |plan| && plan[i] == ActionAt(env, host, Claims(env, host, b), hs, disk, p) && plan[i].path == p;
  }

  /** The tasks of a host's plan are apart, and none fails. */
  lemma HostTasksApart(env: Env, b: Binary, host: Host, force: bool, w: World, hs: HostState)
    requires "" !in hs.assets
    ensures PutsApart(w, TasksOf(Claims(env, host, b), HostPlan(env, host, b, hs, w.disk), force))
  {
    hide Claims, HostPlan, TasksOf, NeedsHook, HookComponent, PlannedPaths, ActionAt;
    var claims, plan := Claims(env, host, b), HostPlan(env, host, b, hs, w.disk);
    NoOtherAction(env, host, b, hs, w.disk);
    TaskPathsDiffer(claims, plan, force);
    TasksFromPlan(claims, plan, force);
    var ts := TasksOf(claims, plan, force);
    forall k | 0 <= k < |ts| ensures ts[k].put.Some? && (ts[k].backup ==> ts[k].path in w.disk) {
      assert ts[k] in ts;
      var i :| 0 <= i < |plan| && ts[k] in TasksFor(claims, plan[i], force);
      ClaimIs(env, host, b, plan[i].path);
      OverwritesWhatIsThere(env, host, claims, hs, w.disk, plan[i].path);
      assert ts[k].path != "";
    }
  }

  /** What the printer writes the reader reads back. */
  ghost predicate Prints(env: Env) {
    forall s :: env.parse(env.marshal(s)) == Some(s)
  }

  lemma WiredTwice(env: Env, command: string, text: Option<string>)
    requires Prints(env) && Loaded(env, text).Some?
    ensures var out := Wired(env, command, text); Loaded(env, Some(out)).Some? && Wired(env, command, Some(out)) == out
  {
    Settings.WireTwice(env.gate, command, Loaded(env, text).value);
  }

  /** With the hook's task in front, if the settings file is none of the host's own. */
  lemma AllTasksApart(env: Env, b: Binary, host: Host, force: bool, w: World, mem: State)
    requires "" !in RecordOf(mem, host).assets && (host.name == CLAUDE ==> SettingsPath(host.configDir) !in Claims(env, host, b))
    ensures PutsApart(w, HostRunOf(env, b, host, force, w.disk, mem).tasks)
  {
    hide Claims, HostPlan, TasksOf, RecordOf, RecordPlan, Adopted, AnyWrite, HostHookTasks;
    var hs, claims := RecordOf(mem, host), Claims(env, host, b);
    var hook, ts := HostHookTasks(env, b, host, hs, w.disk), TasksOf(claims, HostPlan(env, host, b, hs, w.disk), force);
    HostTasksApart(env, b, host, force, w, hs);
    HookTaskIs(env, b, host, hs, w.disk);
    TasksFromPlan(claims, HostPlan(env, host, b, hs, w.disk), force);
    assert forall i | 0 <= i < |ts| :: ts[i].path in PathsOf(ts);
    assert forall i | |hook| <= i < |hook + ts| :: (hook + ts)[i] == ts[i - |hook|];
  }

  lemma OverwritesWhatIsThere(env: Env, host: Host, claims: map<Path, Claim>, hs: HostState, disk: Disk, p: Path)
    requires p in claims ==> claims[p].path == p
    ensures var c := ActionAt(env, host, claims, hs, disk, p).class_; c.Update? || c.Modified? ==> p in disk
  {}

  /** One claimed path after a host's whole sync. */
  lemma PathSettles(env: Env, b: Binary, host: Host, force: bool, w: World, mem: State, p: Path)
    requires "" !in RecordOf(mem, host).assets && p in Claims(env, host, b)
    requires host.name == CLAUDE ==> SettingsPath(host.configDir) !in Claims(env, host, b)
    ensures var run := HostRunOf(env, b, host, force, w.disk, mem);
            PathSettled(env, b, Claims(env, host, b)[p], force, RunTasks(w, run.tasks).disk, run.record.assets)
  {
    hide Claims, HostPlan, TasksOf, RecordPlan, RunTasks, AllDone, RecordOf, Applicable, HostHookTasks, AnyWrite;
    var hs, claims := RecordOf(mem, host), Claims(env, host, b);
    var plan := HostPlan(env, host, b, hs, w.disk);
    var hook, ts := HostHookTasks(env, b, host, hs, w.disk), TasksOf(claims, plan, force);
    ClaimIs(env, host, b, p);
    var i := ActionOf(env, host, b, hs, w.disk, p);
    AllTasksApart(env, b, host, force, w, mem);
    TasksPut(w, hook + ts);
    RecordedAt(env, b, claims, Adopted(hs, host, b), plan, force, p);
    if Writes(plan[i], force) {
      TaskOfAction(claims, plan, force, i);
      var t := Task(p, !plan[i].class_.Create?, Some(claims[p].file.content));
      var k :| 0 <= k < |ts| && ts[k] == t;
      assert (hook + ts)[|hook| + k] == t && Records(claims, plan[i], force);
    } else {
      NotInTasks(claims, plan, force, p, i);
      HookTaskIs(env, b, host, hs, w.disk);
      NotInBoth(w, hook, ts, p);
      if plan[i].class_.Ok? {
        assert Records(claims, plan[i], force);
      } else {
        forall j | 0 <= j < |plan| ensures !(Records(claims, plan[j], force) && plan[j].path == p) {}
      }
    }
  }

  lemma NotInBoth(w: World, hook: seq<Task>, ts: seq<Task>, p: Path)
    requires p !in PathsOf(ts) && forall i | 0 <= i < |hook| :: hook[i].path != p
    ensures SameAt(w.disk, RunTasks(w, hook + ts).disk, p)
  {
    hide RunTasks;
    var all := hook + ts;
    assert forall i | |hook| <= i < |all| :: all[i] == ts[i - |hook|];
    TasksReach(w, all, PathsOf(all));
  }

  lemma NotInTasks(claims: map<Path, Claim>, plan: seq<Action>, force: bool, p: Path, i: nat)
    requires i < |plan| && plan[i].path == p && !Writes(plan[i], force) && forall j | 0 <= j < |plan| && plan[j].path == p :: j == i
    ensures p !in PathsOf(TasksOf(claims, plan, force))
  {
    hide TasksOf;
    TasksFromPlan(claims, plan, force);
    var ts := TasksOf(claims, plan, force);
    forall k | 0 <= k < |ts| ensures ts[k].path != p {
      assert ts[k] in ts;
    }
  }

  lemma HookSettles(env: Env, b: Binary, host: Host, force: bool, w: World, mem: State)
    requires "" !in RecordOf(mem, host).assets && Wires(b) && Prints(env) && !Refuses(env, host, w.disk)
    requires host.name == CLAUDE ==> SettingsPath(host.configDir) !in Claims(env, host, b)
    ensures var run := HostRunOf(env, b, host, force, w.disk, mem); var disk := RunTasks(w, run.tasks).disk;
            HookSettled(env, b, host, HookComponent(host, b), run.record.hook, disk) && !Refuses(env, host, disk)
  {
    hide Claims, HookComponent, RecordPlan, ActionAt, PlannedPaths, SortedPaths, HostPlan, Trim, TasksOf, RunTasks, RecordOf, AnyWrite,
      WiredAlready, Loaded;
    var hs := RecordOf(mem, host);
    var plan := HostPlan(env, host, b, hs, w.disk);
    RecordedAt(env, b, Claims(env, host, b), Adopted(hs, host, b), plan, force, "");
    NoRewire(env, host, b, hs, w.disk);
    if host.name == CLAUDE {
      SettingsSettle(env, b, host, force, w, mem);
    }
  }

  /** The settings of the wired host after its whole sync. */
  lemma SettingsSettle(env: Env, b: Binary, host: Host, force: bool, w: World, mem: State)
    requires "" !in RecordOf(mem, host).assets && Prints(env) && host.name == CLAUDE && !Refuses(env, host, w.disk)
    requires SettingsPath(host.configDir) !in Claims(env, host, b)
    ensures var disk := RunTasks(w, HostRunOf(env, b, host, force, w.disk, mem).tasks).disk;
            && !Refuses(env, host, disk)
            && (NeedsHook(env, HookComponent(host, b), RecordOf(mem, host).hook) ==> WiredAlready(env, b, host, disk))
            && Read(disk, SettingsPath(host.configDir)) == AfterWiring(env, b, host, RecordOf(mem, host), w.disk)
  {
    hide Claims, HookComponent, NeedsHook, HostPlan, TasksOf, RunTasks, RecordOf, RecordPlan, AnyWrite, Loaded, Wired, Adopted;
    var hs, p := RecordOf(mem, host), SettingsPath(host.configDir);
    var text := Read(w.disk, p);
    var hook, ts := HostHookTasks(env, b, host, hs, w.disk), TasksOf(Claims(env, host, b), HostPlan(env, host, b, hs, w.disk), force);
    AllTasksApart(env, b, host, force, w, mem);
    TasksPut(w, hook + ts);
    TasksFromPlan(Claims(env, host, b), HostPlan(env, host, b, hs, w.disk), force);
    WiredTwice(env, b.command, text);
    if hook != [] {
      assert (hook + ts)[0] == hook[0];
    } else {
      NotInBoth(w, hook, ts, p);
    }
  }

  /** What a whole sync leaves in the settings of the wired host. */
  function AfterWiring(env: Env, b: Binary, host: Host, hs: HostState, disk: Disk): Option<string>
    requires !Refuses(env, host, disk) && host.name == CLAUDE
  {
    var text := Read(disk, SettingsPath(host.configDir));
    if NeedsHook(env, HookComponent(host, b), hs.hook) then Some(Wired(env, b.command, text)) else text
  }

  /** The only action that rewires is the hook's. */
  lemma NoRewire(env: Env, host: Host, b: Binary, hs: HostState, disk: Disk)
    requires "" !in hs.assets
    ensures (exists i | 0 <= i < |HostPlan(env, host, b, hs, disk)| :: HostPlan(env, host, b, hs, disk)[i].class_.Rewire?) <==>
            NeedsHook(env, HookComponent(host, b), hs.hook)
  {
    hide Claims, HookComponent, NeedsHook, PlannedPaths, SortedPaths, HostPlan;
    var plan := HostPlan(env, host, b, hs, disk);
    NoOtherAction(env, host, b, hs, disk);
    PlanShape(env, host, b, hs, disk);
    if NeedsHook(env, HookComponent(host, b), hs.hook) {
      assert plan[0] == HookPlan(env, host, b, hs)[0];
    }
  }

  lemma NothingAtNoPath(env: Env, b: Binary, host: Host, force: bool, disk: Disk, hs: HostState)
    requires "" !in hs.assets
    ensures "" !in RecordPlan(env, b, Claims(env, host, b), Adopted(hs, host, b), HostPlan(env, host, b, hs, disk), force).assets
  {
    hide Claims, HostPlan, RecordPlan;
    ClaimIs(env, host, b, "");
    RecordedAt(env, b, Claims(env, host, b), Adopted(hs, host, b), HostPlan(env, host, b, hs, disk), force, "");
  }

  lemma HostSettles(env: Env, b: Binary, host: Host, force: bool, w: World, mem: State)
    requires "" !in RecordOf(mem, host).assets && Wires(b) && Prints(env) && !Refuses(env, host, w.disk)
    requires host.name == CLAUDE ==> SettingsPath(host.configDir) !in Claims(env, host, b)
    ensures var run := HostRunOf(env, b, host, force, w.disk, mem);
            Settled(env, b, host, force, RunTasks(w, run.tasks).disk, State(b.version, mem.hosts[host.name := run.record]))
  {
    hide Claims, HostPlan, TasksOf, RecordPlan, RunTasks, RecordOf, PathSettled, HookSettled, HookComponent, Applicable, HostHookTasks,
      Refuses, AnyWrite;
    var hs := RecordOf(mem, host);
    forall p | p in Claims(env, host, b)
      ensures PathSettled(env, b, Claims(env, host, b)[p], force, RunTasks(w, HostRunOf(env, b, host, force, w.disk, mem).tasks).disk,
                          HostRunOf(env, b, host, force, w.disk, mem).record.assets)
    {
      PathSettles(env, b, host, force, w, mem, p);
    }
    HookSettles(env, b, host, force, w, mem);
    NothingAtNoPath(env, b, host, force, w.disk, hs);
    RecordedAt(env, b, Claims(env, host, b), Adopted(hs, host, b), HostPlan(env, host, b, hs, w.disk), force, "");
  }

  /** Another host's sync does not unsettle it. */
  lemma StaysSettled(env: Env, b: Binary, host: Host, other: Host, force: bool, w: World, w': World, mem: State, record: HostState, paths: set<Path>)
    requires Settled(env, b, host, force, w.disk, mem) && host.name != other.name && OnlyAt(w, w', paths)
    requires (host.name == CLAUDE ==> SettingsPath(host.configDir) !in paths) && forall p | p in Claims(env, host, b) :: p !in paths
    ensures Settled(env, b, host, force, w'.disk, State(b.version, mem.hosts[other.name := record]))
  {
    hide Claims, HookComponent, Adopted, Loaded, Wired, HookReady;
    forall p | p in Claims(env, host, b) ensures
      PathSettled(env, b, Claims(env, host, b)[p], force, w'.disk, mem.hosts[host.name].assets)
    {
      ClaimIs(env, host, b, p);
      assert PathSettled(env, b, Claims(env, host, b)[p], force, w.disk, mem.hosts[host.name].assets);
    }
  }

  // ---------------------------------------------------------------- the second plan of a settled host

  /** A settled host's plan creates nothing, updates nothing, and rewires only a hook of the version's own that is
      legacy even so; what it records is recorded already. */
  lemma SettledPlan(env: Env, b: Binary, host: Host, force: bool, again: bool, disk: Disk, mem: State)
    requires Settled(env, b, host, force, disk, mem) && (again ==> force)
    ensures var run, plan := HostRunOf(env, b, host, again, disk, mem), HostPlan(env, host, b, RecordOf(mem, host), disk);
            && run.tasks == [] && run.record == mem.hosts[host.name] && RecordOf(mem, host) == mem.hosts[host.name]
            && (forall i | 0 <= i < |plan| :: !plan[i].class_.Create? && !plan[i].class_.Update?)
            && (Claims(env, host, b) != map[] ==> !run.dirty)
    ensures var plan := HostPlan(env, host, b, RecordOf(mem, host), disk);
            (exists i | 0 <= i < |plan| :: plan[i].class_.Rewire?) ==> env.legacy(b.command)
  {
    hide Claims, HostPlan, HookComponent, TasksOf, RecordPlan, Applicable, Loaded, Wired;
    var hs, claims := RecordOf(mem, host), Claims(env, host, b);
    assert hs == mem.hosts[host.name];
    var plan := HostPlan(env, host, b, hs, disk);
    forall i | 0 <= i < |plan|
      ensures !plan[i].class_.Create? && !plan[i].class_.Update? && !Writes(plan[i], again)
      ensures RecordAction(env, b, claims, hs, plan[i], again) == hs
    {
      SettledAction(env, b, host, force, again, disk, mem, i);
    }
    NoTasks(claims, plan, again);
    assert HostHookTasks(env, b, host, hs, disk) == [];
    RecordedAlready(env, b, claims, hs, plan, again);
    NoRewire(env, host, b, hs, disk);
    if claims != map[] {
      var p :| p in claims;
      ClaimIs(env, host, b, p);
      assert PathSettled(env, b, claims[p], force, disk, hs.assets);
    }
  }

  lemma SettledAction(env: Env, b: Binary, host: Host, force: bool, again: bool, disk: Disk, mem: State, i: nat)
    requires Settled(env, b, host, force, disk, mem) && (again ==> force)
    requires i < |HostPlan(env, host, b, mem.hosts[host.name], disk)|
    ensures var a := HostPlan(env, host, b, mem.hosts[host.name], disk)[i];
            !a.class_.Create? && !a.class_.Update? && !Writes(a, again) &&
            RecordAction(env, b, Claims(env, host, b), mem.hosts[host.name], a, again) == mem.hosts[host.name]
  {
    hide Claims, HostPlan, HookComponent, PlannedPaths, Adopted;
    var hs, claims := mem.hosts[host.name], Claims(env, host, b);
    var a := HostPlan(env, host, b, hs, disk)[i];
    NoOtherAction(env, host, b, hs, disk);
    ClaimIs(env, host, b, a.path);
    if a.path in claims {
      assert PathSettled(env, b, claims[a.path], force, disk, hs.assets);
      if a.class_.Ok? {
        assert hs.assets[a.path := Record(env.hash(claims[a.path].file.content), b.version)] == hs.assets;
      }
    }
  }

  // ---------------------------------------------------------------- all hosts

  ghost predicate DistinctNames(hosts: seq<Host>) {
    forall i, j | 0 <= i < j < |hosts| :: hosts[i].name != hosts[j].name
  }

  ghost predicate AllSettled(env: Env, b: Binary, hosts: seq<Host>, force: bool, disk: Disk, mem: State) {
    forall i | 0 <= i < |hosts| :: Settled(env, b, hosts[i], force, disk, mem)
  }

  ghost predicate NoEmptyRecord(s: State) {
    forall name | name in s.hosts :: "" !in s.hosts[name].assets
  }

  /** No host is claimed the settings file of the wired one. */
  ghost predicate SettingsApart(env: Env, b: Binary, hosts: seq<Host>) {
    forall i, j | 0 <= i < |hosts| && 0 <= j < |hosts| && hosts[i].name == CLAUDE ::
      SettingsPath(hosts[i].configDir) !in Claims(env, hosts[j], b)
  }

  /** The settings of the wired host can be read, if they are there. */
  predicate Readable(env: Env, hosts: seq<Host>, disk: Disk) {
    forall i | 0 <= i < |hosts| :: !Refuses(env, hosts[i], disk)
  }

  /** The hosts that were synced stay settled while the others are. */
  lemma {:induction false} SyncSettles(env: Env, b: Binary, done: seq<Host>, hosts: seq<Host>, force: bool, at: Progress)
    requires AllSettled(env, b, done, force, at.w.disk, at.mem) && NoEmptyRecord(at.mem) && Wires(b) && Prints(env)
    requires DisjointHosts(env, b, done + hosts) && DistinctNames(done + hosts) && SettingsApart(env, b, done + hosts)
    requires Readable(env, hosts, at.w.disk) && !at.refused
    ensures var end := SyncFrom(env, b, hosts, force, at, Whole);
            AllSettled(env, b, done + hosts, force, end.w.disk, end.mem) && !end.refused
    decreases |hosts|
  {
    hide Claims, HostRunOf, Settled, RunTasks, RecordOf, Refuses, SettingsApart, DisjointHosts, DistinctNames;
    if hosts == [] {
      assert done + hosts == done;
    } else {
      var host, run := hosts[0], HostRunOf(env, b, hosts[0], force, at.w.disk, at.mem);
      var w := RunTasks(at.w, run.tasks);
      var mem := State(b.version, at.mem.hosts[host.name := run.record]);
      OneSettles(env, b, done, hosts, force, at);
      assert (done + [host]) + hosts[1..] == done + hosts;
      SyncSettles(env, b, done + [host], hosts[1..], force, Progress(w, mem, at.dirty || run.dirty));
    }
  }

  /** A host of a list with the one that is synced after it, or before it. */
  lemma TheOther(env: Env, b: Binary, done: seq<Host>, hosts: seq<Host>, i: nat)
    requires DisjointHosts(env, b, done + hosts) && DistinctNames(done + hosts) && SettingsApart(env, b, done + hosts)
    requires hosts != [] && i < |done + hosts| && i != |done|
    ensures var other := (done + hosts)[i];
            && (done + hosts)[|done|] == hosts[0] && other.name != hosts[0].name
            && (forall p | p in Claims(env, other, b) :: p !in Claims(env, hosts[0], b))
            && (other.name == CLAUDE ==> SettingsPath(other.configDir) !in Claims(env, hosts[0], b))
            && (hosts[0].name == CLAUDE ==> SettingsPath(hosts[0].configDir) !in Claims(env, other, b))
            && (hosts[0].name == CLAUDE ==> SettingsPath(hosts[0].configDir) !in Claims(env, hosts[0], b))
  {
    hide Claims;
    var all := done + hosts;
    assert all[|done|] == hosts[0];
  }

  /** What a host's sync does not touch of another. */
  lemma LeavesOther(env: Env, b: Binary, host: Host, other: Host, force: bool, w: World, mem: State)
    requires host.name != other.name
    requires forall p | p in Claims(env, other, b) :: p !in Claims(env, host, b)
    requires other.name == CLAUDE ==> SettingsPath(other.configDir) !in Claims(env, host, b)
    requires host.name == CLAUDE ==> SettingsPath(host.configDir) !in Claims(env, other, b)
    ensures var run := HostRunOf(env, b, host, force, w.disk, mem); var paths := PathsOf(run.tasks);
            && OnlyAt(w, RunTasks(w, run.tasks), paths)
            && (other.name == CLAUDE ==> SettingsPath(other.configDir) !in paths)
            && (forall p | p in Claims(env, other, b) :: p !in paths)
            && (Refuses(env, other, w.disk) <==> Refuses(env, other, RunTasks(w, run.tasks).disk))
  {
    hide Claims, HostRunOf, RunTasks, Loaded;
    var run := HostRunOf(env, b, host, force, w.disk, mem);
    TasksClaimed(env, b, host, force, w.disk, mem);
    TasksReach(w, run.tasks, PathsOf(run.tasks));
  }

  lemma OneSettles(env: Env, b: Binary, done: seq<Host>, hosts: seq<Host>, force: bool, at: Progress)
    requires AllSettled(env, b, done, force, at.w.disk, at.mem) && NoEmptyRecord(at.mem) && Wires(b) && Prints(env) && hosts != []
    requires DisjointHosts(env, b, done + hosts) && DistinctNames(done + hosts) && SettingsApart(env, b, done + hosts)
    requires Readable(env, hosts, at.w.disk)
    ensures var run := HostRunOf(env, b, hosts[0], force, at.w.disk, at.mem);
            var w := RunTasks(at.w, run.tasks);
            var mem := State(b.version, at.mem.hosts[hosts[0].name := run.record]);
            AllSettled(env, b, done + [hosts[0]], force, w.disk, mem) && NoEmptyRecord(mem) && Readable(env, hosts[1..], w.disk)
  {
    hide Claims, HostRunOf, Settled, RunTasks, Refuses, DisjointHosts, DistinctNames, SettingsApart, OnlyAt, Prints;
    var host, run := hosts[0], HostRunOf(env, b, hosts[0], force, at.w.disk, at.mem);
    var w := RunTasks(at.w, run.tasks);
    var mem := State(b.version, at.mem.hosts[host.name := run.record]);
    OwnSettings(env, b, done, hosts);
    HostSettles(env, b, host, force, at.w, at.mem);
    SettledRecord(env, b, host, force, w.disk, mem);
    forall i | 0 <= i < |done + [host]| ensures Settled(env, b, (done + [host])[i], force, w.disk, mem) {
      if i < |done| {
        assert (done + hosts)[i] == done[i];
        TheOther(env, b, done, hosts, i);
        LeavesOther(env, b, host, done[i], force, at.w, at.mem);
        assert Settled(env, b, done[i], force, at.w.disk, at.mem);
        StaysSettled(env, b, done[i], host, force, at.w, w, at.mem, run.record, PathsOf(run.tasks));
      }
    }
    forall i | 0 <= i < |hosts[1..]| ensures !Refuses(env, hosts[1..][i], w.disk) {
      assert (done + hosts)[|done| + 1 + i] == hosts[1..][i] == hosts[i + 1];
      TheOther(env, b, done, hosts, |done| + 1 + i);
      LeavesOther(env, b, host, hosts[1..][i], force, at.w, at.mem);
    }
  }

  lemma OwnSettings(env: Env, b: Binary, done: seq<Host>, hosts: seq<Host>)
    requires SettingsApart(env, b, done + hosts) && hosts != []
    ensures hosts[0].name == CLAUDE ==> SettingsPath(hosts[0].configDir) !in Claims(env, hosts[0], b)
  {
    hide Claims;
    assert (done + hosts)[|done|] == hosts[0];
  }

  lemma SettledRecord(env: Env, b: Binary, host: Host, force: bool, disk: Disk, mem: State)
    requires Settled(env, b, host, force, disk, mem)
    ensures host.name in mem.hosts && "" !in mem.hosts[host.name].assets && !Refuses(env, host, disk)
  {
    hide Claims, HookComponent, Adopted, Refuses, HookSettled;
  }

  lemma {:induction false} SettledSync(env: Env, b: Binary, hosts: seq<Host>, force: bool, again: bool, at: Progress)
    requires AllSettled(env, b, hosts, force, at.w.disk, at.mem) && (again ==> force) && (hosts != [] ==> at.mem.version == b.version)
    requires !at.refused
    ensures var end := SyncFrom(env, b, hosts, again, at, Whole);
            end.w == at.w && end.mem == at.mem && !end.refused &&
            ((forall i | 0 <= i < |hosts| :: Claims(env, hosts[i], b) != map[]) ==> end.dirty == at.dirty)
    decreases |hosts|
  {
    hide Claims, HostRunOf, Settled, RecordOf, Refuses;
    if hosts != [] {
      SettledRecord(env, b, hosts[0], force, at.w.disk, at.mem);
      var host, run := hosts[0], HostRunOf(env, b, hosts[0], again, at.w.disk, at.mem);
      assert Settled(env, b, host, force, at.w.disk, at.mem);
      SettledPlan(env, b, host, force, again, at.w.disk, at.mem);
      SettledRecord(env, b, host, force, at.w.disk, at.mem);
      assert at.mem.hosts[host.name := run.record] == at.mem.hosts;
      var next := Progress(at.w, at.mem, at.dirty || run.dirty);
      forall i | 0 <= i < |hosts[1..]| ensures Settled(env, b, hosts[1..][i], force, at.w.disk, at.mem) {
        assert hosts[1..][i] == hosts[i + 1];
      }
      SettledSync(env, b, hosts[1..], force, again, next);
    }
  }

  /** A sync that has nothing to save leaves the state it found. */
  lemma {:induction false} CleanIsSame(env: Env, b: Binary, hosts: seq<Host>, force: bool, at: Progress)
    requires !SyncFrom(env, b, hosts, force, at, Whole).dirty
    ensures SyncFrom(env, b, hosts, force, at, Whole).mem == at.mem && !at.dirty
    decreases |hosts|
  {
    hide HostRunOf, RunTasks, Refuses;
    if hosts != [] && !Refuses(env, hosts[0], at.w.disk) {
      var host, run := hosts[0], HostRunOf(env, b, hosts[0], force, at.w.disk, at.mem);
      var next := Progress(RunTasks(at.w, run.tasks), State(b.version, at.mem.hosts[host.name := run.record]), at.dirty || run.dirty);
      CleanIsSame(env, b, hosts[1..], force, next);
      CleanHost(env, b, host, force, at.w.disk, at.mem);
    }
  }

  lemma CleanHost(env: Env, b: Binary, host: Host, force: bool, disk: Disk, mem: State)
    requires !HostRunOf(env, b, host, force, disk, mem).dirty
    ensures State(b.version, mem.hosts[host.name := HostRunOf(env, b, host, force, disk, mem).record]) == mem
  {
    hide Claims, HostPlan, RecordPlan, Adopted, TasksOf, HostHookTasks;
    var hs := RecordOf(mem, host);
    assert hs != NO_HOST;
    assert mem.hosts[host.name := hs] == mem.hosts;
  }

  /** A sync reaches its fixed point: after an undisturbed one, no host's plan creates or updates anything, a second
      sync changes no file, no snapshot and no record, and has nothing to save when every host is claimed some file.
      The second plan rewires the hook only if the version's own command counts as legacy. */
  lemma SecondSyncIsQuiet(env: Env, b: Binary, hosts: seq<Host>, force: bool, again: bool, w: World)
    requires NoEmptyRecord(w.saved) && DisjointHosts(env, b, hosts) && DistinctNames(hosts) && Wires(b) && (again ==> force)
    requires SettingsApart(env, b, hosts) && Readable(env, hosts, w.disk) && Prints(env)
    ensures var once := Sync(env, b, hosts, force, Whole, w);
            var twice := Sync(env, b, hosts, again, Whole, once);
            twice.disk == once.disk && twice.saved == once.saved && twice.backups == once.backups && twice.replaced == once.replaced
    ensures var once := Sync(env, b, hosts, force, Whole, w);
            (forall i | 0 <= i < |hosts| :: Claims(env, hosts[i], b) != map[]) ==>
              !SyncFrom(env, b, hosts, again, Progress(NewRun(once, b), once.saved, false), Whole).dirty
    ensures var once := Sync(env, b, hosts, force, Whole, w);
            forall h | 0 <= h < |hosts| :: QuietPlan(env, b, HostPlan(env, hosts[h], b, RecordOf(once.saved, hosts[h]), once.disk))
  {
    hide Claims, SyncFrom, Settled, RecordOf, HostPlan, Payloads, QuietPlan, HostRunOf, RunCut, DisjointHosts, DistinctNames, NoEmptyRecord, Wires,
      SettingsApart, Readable, Prints, Refuses;
    var start := Progress(NewRun(w, b), w.saved, false);
    var end := SyncFrom(env, b, hosts, force, start, Whole);
    var once := Sync(env, b, hosts, force, Whole, w);
    assert [] + hosts == hosts;
    SyncSettles(env, b, [], hosts, force, start);
    if !end.dirty {
      CleanIsSame(env, b, hosts, force, start);
    }
    SavedKept(env, b, hosts, force, start);
    assert once.saved == end.mem && once.disk == end.w.disk;
    if hosts != [] {
      VersionSettled(env, b, hosts, force, end.w.disk, end.mem);
    }
    SettledSync(env, b, hosts, force, again, Progress(NewRun(once, b), once.saved, false));
    forall h | 0 <= h < |hosts| ensures QuietPlan(env, b, HostPlan(env, hosts[h], b, RecordOf(once.saved, hosts[h]), once.disk)) {
      assert Settled(env, b, hosts[h], force, once.disk, once.saved);
      SettledPlan(env, b, hosts[h], force, again, once.disk, once.saved);
      PlanIsQuiet(env, b, HostPlan(env, hosts[h], b, RecordOf(once.saved, hosts[h]), once.disk));
    }
  }

  /** Nothing is saved before the end of a run. */
  lemma {:induction false} SavedKept(env: Env, b: Binary, hosts: seq<Host>, force: bool, at: Progress)
    ensures SyncFrom(env, b, hosts, force, at, Whole).w.saved == at.w.saved
    decreases |hosts|
  {
    hide HostRunOf, RunTasks, Refuses;
    if hosts != [] && !Refuses(env, hosts[0], at.w.disk) {
      var run := HostRunOf(env, b, hosts[0], force, at.w.disk, at.mem);
      TasksSave(at.w, run.tasks);
      SavedKept(env, b, hosts[1..], force,
                Progress(RunTasks(at.w, run.tasks), State(b.version, at.mem.hosts[hosts[0].name := run.record]), at.dirty || run.dirty));
    }
  }

  lemma {:induction false} TasksSave(w: World, ts: seq<Task>)
    ensures RunTasks(w, ts).saved == w.saved
    decreases ts
  {
    if ts != [] && !Fails(w, ts[0]) {
      TasksSave(DoTask(w, ts[0]), ts[1..]);
    }
  }

  lemma VersionSettled(env: Env, b: Binary, hosts: seq<Host>, force: bool, disk: Disk, mem: State)
    requires AllSettled(env, b, hosts, force, disk, mem) && hosts != []
    ensures mem.version == b.version
  {
    hide Claims, HookComponent, Adopted, Refuses, HookSettled;
    assert Settled(env, b, hosts[0], force, disk, mem);
  }

  ghost predicate QuietPlan(env: Env, b: Binary, plan: seq<Action>) {
    forall i | 0 <= i < |plan| ::
      !plan[i].class_.Create? && !plan[i].class_.Update? && (plan[i].class_.Rewire? ==> env.legacy(b.command))
  }

  lemma PlanIsQuiet(env: Env, b: Binary, plan: seq<Action>)
    requires forall i | 0 <= i < |plan| :: !plan[i].class_.Create? && !plan[i].class_.Update?
    requires (exists i | 0 <= i < |plan| :: plan[i].class_.Rewire?) ==> env.legacy(b.command)
    ensures QuietPlan(env, b, plan)
  {}

  // ---------------------------------------------------------------- changed files

  /** The file was changed: it is recorded for the host that is claimed it, and is neither what was recorded nor
      what the version ships. */
  ghost predicate Changed(env: Env, b: Binary, host: Host, s: State, disk: Disk, p: Path) {
    && p in Claims(env, host, b) && p in RecordOf(s, host).assets && p in disk
    && env.hash(disk[p]) != RecordOf(s, host).assets[p].digest
    && env.hash(disk[p]) != env.hash(Claims(env, host, b)[p].file.content)
  }

  lemma ChangedTask(env: Env, b: Binary, host: Host, disk: Disk, mem: State, p: Path)
    requires "" !in RecordOf(mem, host).assets && Changed(env, b, host, mem, disk, p)
    requires host.name == CLAUDE ==> p != SettingsPath(host.configDir)
    ensures p !in PathsOf(HostRunOf(env, b, host, false, disk, mem).tasks)
  {
    hide Claims, HostPlan, RecordOf, RecordPlan, TasksOf, Adopted, HostHookTasks;
    HookTaskIs(env, b, host, RecordOf(mem, host), disk);
    var hs := RecordOf(mem, host);
    ClaimIs(env, host, b, p);
    var i := ActionOf(env, host, b, hs, disk, p);
    NotInTasks(Claims(env, host, b), HostPlan(env, host, b, hs, disk), false, p, i);
  }

  lemma {:induction false} ChangedKept(env: Env, b: Binary, hosts: seq<Host>, at: Progress, cut: Cut, k: nat, p: Path)
    requires k < |hosts| && DisjointHosts(env, b, hosts) && DistinctNames(hosts)
    requires "" !in RecordOf(at.mem, hosts[k]).assets && Changed(env, b, hosts[k], at.mem, at.w.disk, p) && p !in SettingsFiles(hosts)
    ensures SameAt(at.w.disk, SyncFrom(env, b, hosts, false, at, cut).w.disk, p)
    decreases |hosts|
  {
    hide Claims, HostRunOf, RunCut, Refuses;
    if Refuses(env, hosts[0], at.w.disk) {
      return;
    }
    var run := HostRunOf(env, b, hosts[0], false, at.w.disk, at.mem);
    var w := RunCut(at.w, run.tasks, cut);
    if k == 0 {
      ChangedTask(env, b, hosts[0], at.w.disk, at.mem, p);
    } else {
      TasksClaimed(env, b, hosts[0], false, at.w.disk, at.mem);
      assert p !in Claims(env, hosts[0], b);
    }
    CutReaches(at.w, run.tasks, cut, PathsOf(run.tasks));
    if !(cut.At? && cut.tasks < |run.tasks|) {
      var next := Progress(w, State(b.version, at.mem.hosts[hosts[0].name := run.record]), at.dirty || run.dirty);
      if k == 0 {
        var rest := ClaimedBy(env, b, hosts[1..]) + SettingsFiles(hosts[1..]);
        forall i, q | 0 <= i < |hosts[1..]| && q in Claims(env, hosts[1..][i], b) ensures q in rest {}
        assert p !in rest by {
          forall i | 0 <= i < |hosts[1..]| ensures p !in Claims(env, hosts[1..][i], b) {
            assert hosts[1..][i] == hosts[i + 1];
          }
          FewerSettings(hosts);
        }
        SyncReaches(env, b, hosts[1..], false, next, Less(cut, |run.tasks|), rest);
      } else {
        TailDisjoint(env, b, hosts);
        FewerSettings(hosts);
        assert hosts[1..][k - 1] == hosts[k] && hosts[0].name != hosts[k].name;
        ChangedKept(env, b, hosts[1..], next, Less(cut, |run.tasks|), k - 1, p);
      }
    }
  }

  lemma FewerSettings(hosts: seq<Host>)
    requires hosts != []
    ensures SettingsFiles(hosts[1..]) <= SettingsFiles(hosts)
  {
    forall p | p in SettingsFiles(hosts[1..]) ensures p in SettingsFiles(hosts) {
      var i :| 0 <= i < |hosts[1..]| && hosts[1..][i].name == CLAUDE && p == SettingsPath(hosts[1..][i].configDir);
      assert hosts[i + 1] == hosts[1..][i];
    }
  }

  /** Without force, a sync leaves a changed file as it is, wherever it is cut. */
  lemma ChangedUntouched(env: Env, b: Binary, hosts: seq<Host>, cut: Cut, w: World, k: nat, p: Path)
    requires k < |hosts| && DisjointHosts(env, b, hosts) && DistinctNames(hosts) && NoEmptyRecord(w.saved)
    requires Changed(env, b, hosts[k], w.saved, w.disk, p) && p !in SettingsFiles(hosts)
    ensures SameAt(w.disk, Sync(env, b, hosts, false, cut, w).disk, p)
  {
    hide Claims, SyncFrom;
    ChangedKept(env, b, hosts, Progress(NewRun(w, b), w.saved, false), cut, k, p);
  }

  /** Without force, an uninstall leaves a file that matches no record of it as it is, wherever it is cut. */
  lemma ChangedNotRemoved(env: Env, b: Binary, orphans: bool, dir: string, cut: Cut, w: World, p: Path)
    requires p in w.disk && UnwiredPath(w.saved, dir) != Some(p)
    requires forall name | name in w.saved.hosts && p in w.saved.hosts[name].assets ::
               env.hash(w.disk[p]) != w.saved.hosts[name].assets[p].digest
    ensures SameAt(w.disk, Uninstall(env, b, orphans, false, dir, cut, w).disk, p)
  {
    hide UninstallTasks, RunCut, Cleaned, AllDone, UnwiredPath, Stops;
    if !Stops(env, b, w.disk, w.saved, orphans, false, dir) {
      var start, ts := w.(run := w.run + 1), AllTasks(env, b, w, orphans, false, dir);
      SortedSetIs(w.saved.hosts.Keys);
      AllUnforced(env, b, w.disk, w.saved, SortedSet(w.saved.hosts.Keys), orphans, dir);
      AllRemovalsFit(env, b, w.disk, w.saved, SortedSet(w.saved.hosts.Keys), orphans, false, dir);
      assert p !in PathsOf(ts) by {
        forall i | 0 <= i < |ts| ensures ts[i].path != p {
          assert ts[i] in ts;
        }
      }
      CutReaches(start, ts, cut, PathsOf(ts));
    }
  }

  /** Without force nothing is removed over a snapshot. */
  lemma {:induction false} Unforced(env: Env, b: Binary, disk: Disk, name: string, hs: HostState, paths: seq<Path>, orphans: bool)
    requires forall i | 0 <= i < |paths| :: paths[i] in hs.assets
    ensures forall t | t in RemovalTasks(env, b, disk, name, hs, paths, orphans, false) :: !t.backup
  {
    hide Claims;
    if paths != [] {
      Unforced(env, b, disk, name, hs, paths[..|paths| - 1], orphans);
    }
  }

  lemma {:induction false} AllUnforced(env: Env, b: Binary, disk: Disk, s: State, names: seq<string>, orphans: bool, dir: string)
    requires forall i | 0 <= i < |names| :: names[i] in s.hosts
    ensures forall t | t in UninstallTasks(env, b, disk, s, names, orphans, false, dir) :: !t.backup
  {
    hide RemovalTasks, UnwireTasks;
    if names != [] {
      var name := names[|names| - 1];
      AllUnforced(env, b, disk, s, names[..|names| - 1], orphans, dir);
      UnwiringFits(env, disk, s, dir);
      SortedSetIs(s.hosts[name].assets.Keys);
      Unforced(env, b, disk, name, s.hosts[name], SortedSet(s.hosts[name].assets.Keys), orphans);
    }
  }
}
