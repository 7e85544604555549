/** The plan an uninstall makes before it touches anything, and what it leaves in the record (internal/sync/uninstall.go:
    planUninstall, applyUninstall): as the loops build them, and that they are what the laws are about. */
module UninstallPlan {
  import opened SyncPlan
  import opened SyncRun

  /** One planned step: what is done with a recorded file, or the unwiring of a host's hook. */
  datatype Planned = Asset(host: string, path: Path, removal: Removal) | HookOf(host: string)

  function PlannedAssets(env: Env, b: Binary, disk: Disk, name: string, hs: HostState, paths: seq<Path>, orphans: bool, force: bool): seq<Planned>
    requires forall i | 0 <= i < |paths| :: paths[i] in hs.assets
  {
    if paths == [] then []
    else
      var p := paths[|paths| - 1];
      PlannedAssets(env, b, disk, name, hs, paths[..|paths| - 1], orphans, force) +
      [Asset(name, p, RemovalAt(env, b, disk, name, hs, p, orphans, force))]
  }

  function PlannedHost(env: Env, b: Binary, disk: Disk, name: string, hs: HostState, orphans: bool, force: bool): seq<Planned> {
    SortedSetIs(hs.assets.Keys);
    PlannedAssets(env, b, disk, name, hs, SortedSet(hs.assets.Keys), orphans, force) + if HookWired(hs) then [HookOf(name)] else []
  }

  function PlannedFor(env: Env, b: Binary, disk: Disk, s: State, names: seq<string>, orphans: bool, force: bool): seq<Planned>
    requires forall i | 0 <= i < |names| :: names[i] in s.hosts
  {
    if names == [] then []
    else
      var name := names[|names| - 1];
      PlannedFor(env, b, disk, s, names[..|names| - 1], orphans, force) + PlannedHost(env, b, disk, name, s.hosts[name], orphans, force)
  }

  function AllPlanned(env: Env, b: Binary, disk: Disk, s: State, orphans: bool, force: bool): seq<Planned> {
    SortedSetIs(s.hosts.Keys);
    PlannedFor(env, b, disk, s, SortedSet(s.hosts.Keys), orphans, force)
  }

  predicate Refusing(env: Env, b: Binary, disk: Disk, name: string, hs: HostState, orphans: bool, force: bool) {
    exists p | p in hs.assets :: RemovalAt(env, b, disk, name, hs, p, orphans, force).Refuse?
  }

  predicate NoneRefuses(env: Env, b: Binary, disk: Disk, s: State, names: seq<string>, orphans: bool, force: bool) {
    forall i | 0 <= i < |names| :: names[i] in s.hosts ==> !Refusing(env, b, disk, names[i], s.hosts[names[i]], orphans, force)
  }

  /** The text the plan keeps for the hook actions. */
  function WriteTask(write: Option<(Path, string)>): seq<Task> {
    if write.None? then [] else [Task(write.value.0, false, Some(write.value.1), true)]
  }

  function UnwireAt(env: Env, disk: Disk, p: Path): seq<Task> {
    if Loaded(env, Read(disk, p)).None? then []
    else
      var text := Unwired(env, Read(disk, p));
      if text.None? then [] else [Task(p, false, text, true)]
  }

  function UnwireFor(env: Env, disk: Disk, s: State, names: seq<string>, dir: string): seq<Task>
    requires forall i | 0 <= i < |names| :: names[i] in s.hosts
  {
    var last := LastWired(s, names);
    if last.None? then [] else UnwireAt(env, disk, HookPath(last.value, s.hosts[last.value], dir))
  }

  // ---------------------------------------------------------------- its tasks

  function TaskOfPlanned(a: Planned, unwire: seq<Task>): seq<Task> {
    match a
    case Asset(_, p, Remove(backup)) => [Task(p, backup, None)]
    case Asset(_, _, _) => []
    case HookOf(_) => unwire
  }

  function TasksOfPlan(actions: seq<Planned>, unwire: seq<Task>): seq<Task> {
    if actions == [] then [] else TasksOfPlan(actions[..|actions| - 1], unwire) + TaskOfPlanned(actions[|actions| - 1], unwire)
  }

  lemma {:induction false} TasksOfBoth(a: seq<Planned>, b: seq<Planned>, unwire: seq<Task>)
    ensures TasksOfPlan(a + b, unwire) == TasksOfPlan(a, unwire) + TasksOfPlan(b, unwire)
  {
    hide TaskOfPlanned;
    if b == [] {
      assert a + b == a;
    } else {
      assert (a + b)[..|a + b| - 1] == a + b[..|b| - 1];
      TasksOfBoth(a, b[..|b| - 1], unwire);
    }
  }

  lemma {:induction false} AssetTasks(env: Env, b: Binary, disk: Disk, name: string, hs: HostState, paths: seq<Path>, orphans: bool, force: bool, unwire: seq<Task>)
    requires forall i | 0 <= i < |paths| :: paths[i] in hs.assets
    ensures TasksOfPlan(PlannedAssets(env, b, disk, name, hs, paths, orphans, force), unwire) ==
            RemovalTasks(env, b, disk, name, hs, paths, orphans, force)
  {
    hide RemovalAt;
    if paths != [] {
      AssetTasks(env, b, disk, name, hs, paths[..|paths| - 1], orphans, force, unwire);
    }
  }

  lemma HostPlanTasks(env: Env, b: Binary, disk: Disk, name: string, hs: HostState, orphans: bool, force: bool, unwire: seq<Task>)
    ensures TasksOfPlan(PlannedHost(env, b, disk, name, hs, orphans, force), unwire) ==
            HostTasks(env, b, disk, name, hs, orphans, force) + if HookWired(hs) then unwire else []
  {
    hide RemovalAt, RemovalTasks, PlannedAssets, HookWired;
    SortedSetIs(hs.assets.Keys);
    AssetTasks(env, b, disk, name, hs, SortedSet(hs.assets.Keys), orphans, force, unwire);
    var assets := PlannedAssets(env, b, disk, name, hs, SortedSet(hs.assets.Keys), orphans, force);
    var hook := if HookWired(hs) then [HookOf(name)] else [];
    TasksOfBoth(assets, hook, unwire);
    assert [HookOf(name)][..0] == [] && TasksOfPlan([], unwire) == [];
    assert TasksOfPlan(hook, unwire) == if HookWired(hs) then unwire else [];
  }

  lemma {:induction false} PlanTasksFor(env: Env, b: Binary, disk: Disk, s: State, names: seq<string>, orphans: bool, force: bool, dir: string)
    requires forall i | 0 <= i < |names| :: names[i] in s.hosts
    ensures TasksOfPlan(PlannedFor(env, b, disk, s, names, orphans, force), UnwireTasks(env, disk, s, dir)) ==
            UninstallTasks(env, b, disk, s, names, orphans, force, dir)
  {
    hide PlannedHost, HostTasks, UnwireTasks, HookWired;
    if names != [] {
      var name, less := names[|names| - 1], names[..|names| - 1];
      PlanTasksFor(env, b, disk, s, less, orphans, force, dir);
      HostPlanTasks(env, b, disk, name, s.hosts[name], orphans, force, UnwireTasks(env, disk, s, dir));
      TasksOfBoth(PlannedFor(env, b, disk, s, less, orphans, force), PlannedHost(env, b, disk, name, s.hosts[name], orphans, force),
                  UnwireTasks(env, disk, s, dir));
    }
  }

  /** The planned steps are the tasks of the uninstall. */
  lemma PlanIsTasks(env: Env, b: Binary, w: World, orphans: bool, force: bool, dir: string)
    ensures TasksOfPlan(AllPlanned(env, b, w.disk, w.saved, orphans, force), UnwireTasks(env, w.disk, w.saved, dir)) ==
            AllTasks(env, b, w, orphans, force, dir)
  {
    hide PlannedFor, UninstallTasks, UnwireTasks, TasksOfPlan;
    SortedSetIs(w.saved.hosts.Keys);
    PlanTasksFor(env, b, w.disk, w.saved, SortedSet(w.saved.hosts.Keys), orphans, force, dir);
  }

  /** And the plan is whole: it was refused by no host, and keeps the text of the last hook. */
  lemma PlannedWhole(env: Env, b: Binary, disk: Disk, s: State, orphans: bool, force: bool, dir: string)
    ensures (forall i | 0 <= i < |SortedSet(s.hosts.Keys)| :: SortedSet(s.hosts.Keys)[i] in s.hosts)
    ensures UnwireFor(env, disk, s, SortedSet(s.hosts.Keys), dir) == UnwireTasks(env, disk, s, dir)
    ensures NoneRefuses(env, b, disk, s, SortedSet(s.hosts.Keys), orphans, force) <==>
            !Blocked(env, b, disk, s, orphans, force)
  {
    hide RemovalAt, Loaded, Unwired, LastWired, SortedSet;
    SortedSetIs(s.hosts.Keys);
    var names := SortedSet(s.hosts.Keys);
    forall name | name in s.hosts ensures exists i | 0 <= i < |names| :: names[i] == name {
      assert name in names;
    }
  }

  // ---------------------------------------------------------------- what it leaves in the record

  /** What one host lost. */
  datatype Cleanup = Cleanup(dropped: set<Path>, unhooked: bool)

  function Noted(cleanups: map<string, Cleanup>, a: Planned): map<string, Cleanup> {
    var c := if a.host in cleanups then cleanups[a.host] else Cleanup({}, false);
    match a
    case Asset(host, p, Remove(_)) => cleanups[host := c.(dropped := c.dropped + {p})]
    case Asset(_, _, _) => cleanups
    case HookOf(host) => cleanups[host := c.(unhooked := true)]
  }

  function CleanupsOf(actions: seq<Planned>): map<string, Cleanup> {
    if actions == [] then map[] else Noted(CleanupsOf(actions[..|actions| - 1]), actions[|actions| - 1])
  }

  predicate Drops(a: Planned, host: string, p: Path) {
    a.Asset? && a.host == host && a.path == p && a.removal.Remove?
  }

  predicate Takes(a: Planned, host: string) {
    a.host == host && (a.HookOf? || a.removal.Remove?)
  }

  predicate DroppedIn(cleanups: map<string, Cleanup>, host: string, p: Path) {
    host in cleanups && p in cleanups[host].dropped
  }

  predicate UnhookedIn(cleanups: map<string, Cleanup>, host: string) {
    host in cleanups && cleanups[host].unhooked
  }

  lemma NotedIs(cleanups: map<string, Cleanup>, a: Planned, host: string)
    ensures host in Noted(cleanups, a) <==> host in cleanups || Takes(a, host)
    ensures forall p :: DroppedIn(Noted(cleanups, a), host, p) <==> DroppedIn(cleanups, host, p) || Drops(a, host, p)
    ensures UnhookedIn(Noted(cleanups, a), host) <==> UnhookedIn(cleanups, host) || a == HookOf(host)
  {}

  lemma {:induction false} CleanupsAre(actions: seq<Planned>, host: string)
    ensures host in CleanupsOf(actions) <==> exists a | a in actions :: Takes(a, host)
    ensures forall p :: DroppedIn(CleanupsOf(actions), host, p) <==> exists a | a in actions :: Drops(a, host, p)
    ensures UnhookedIn(CleanupsOf(actions), host) <==> HookOf(host) in actions
  {
    hide Noted, DroppedIn, UnhookedIn, Takes, Drops;
    if actions == [] {
      NothingNoted(host);
    } else {
      var less, a := actions[..|actions| - 1], actions[|actions| - 1];
      CleanupsAre(less, host);
      NotedIs(CleanupsOf(less), a, host);
      assert actions == less + [a];
      assert forall x :: x in actions <==> x in less || x == a;
    }
  }

  lemma NothingNoted(host: string)
    ensures host !in CleanupsOf([]) && !UnhookedIn(CleanupsOf([]), host) && forall p :: !DroppedIn(CleanupsOf([]), host, p)
  {}

  lemma {:induction false} PlannedAssetsAre(env: Env, b: Binary, disk: Disk, name: string, hs: HostState, paths: seq<Path>, orphans: bool, force: bool, a: Planned)
    requires forall i | 0 <= i < |paths| :: paths[i] in hs.assets
    ensures a in PlannedAssets(env, b, disk, name, hs, paths, orphans, force) <==>
            a.Asset? && a.host == name && a.path in paths && a.removal == RemovalAt(env, b, disk, name, hs, a.path, orphans, force)
  {
    hide RemovalAt;
    if paths != [] {
      var less := paths[..|paths| - 1];
      PlannedAssetsAre(env, b, disk, name, hs, less, orphans, force, a);
      assert paths == less + [paths[|paths| - 1]];
    }
  }

  predicate IsPlanned(env: Env, b: Binary, disk: Disk, s: State, orphans: bool, force: bool, a: Planned) {
    && a.host in s.hosts
    && match a
       case Asset(host, p, r) => p in s.hosts[host].assets && r == RemovalAt(env, b, disk, host, s.hosts[host], p, orphans, force)
       case HookOf(host) => HookWired(s.hosts[host])
  }

  lemma {:induction false} PlannedAre(env: Env, b: Binary, disk: Disk, s: State, names: seq<string>, orphans: bool, force: bool, a: Planned)
    requires forall i | 0 <= i < |names| :: names[i] in s.hosts
    ensures a in PlannedFor(env, b, disk, s, names, orphans, force) <==> a.host in names && IsPlanned(env, b, disk, s, orphans, force, a)
  {
    hide RemovalAt, PlannedAssets, HookWired;
    if names != [] {
      var name, less := names[|names| - 1], names[..|names| - 1];
      PlannedAre(env, b, disk, s, less, orphans, force, a);
      assert names == less + [name];
      SortedSetIs(s.hosts[name].assets.Keys);
      PlannedAssetsAre(env, b, disk, name, s.hosts[name], SortedSet(s.hosts[name].assets.Keys), orphans, force, a);
    }
  }

  lemma AllPlannedAre(env: Env, b: Binary, disk: Disk, s: State, orphans: bool, force: bool)
    ensures forall a :: a in AllPlanned(env, b, disk, s, orphans, force) <==> IsPlanned(env, b, disk, s, orphans, force, a)
  {
    hide PlannedFor, IsPlanned;
    SortedSetIs(s.hosts.Keys);
    forall a ensures a in AllPlanned(env, b, disk, s, orphans, force) <==> IsPlanned(env, b, disk, s, orphans, force, a) {
      PlannedAre(env, b, disk, s, SortedSet(s.hosts.Keys), orphans, force, a);
      HostOfPlanned(env, b, disk, s, orphans, force, a);
    }
  }

  lemma HostOfPlanned(env: Env, b: Binary, disk: Disk, s: State, orphans: bool, force: bool, a: Planned)
    ensures IsPlanned(env, b, disk, s, orphans, force, a) ==> a.host in s.hosts
  {}

  function Cleared(hs: HostState, c: Cleanup): HostState {
    hs.(assets := hs.assets - c.dropped, hook := if c.unhooked then None else hs.hook)
  }

  predicate Empty(hs: HostState) {
    hs.assets == map[] && hs.hook.None?
  }

  /** The records of the hosts, those of them cleaned that are among the names. */
  function HostsCleaned(hosts: map<string, HostState>, cleanups: map<string, Cleanup>, names: seq<string>): map<string, HostState> {
    map name | name in hosts && (name in names && name in cleanups ==> !Empty(Cleared(hosts[name], cleanups[name]))) ::
      if name in names && name in cleanups then Cleared(hosts[name], cleanups[name]) else hosts[name]
  }

  function CleanedBy(s: State, cleanups: map<string, Cleanup>): State {
    s.(hosts := map name | name in s.hosts && (name in cleanups ==> !Empty(Cleared(s.hosts[name], cleanups[name]))) ::
                  if name in cleanups then Cleared(s.hosts[name], cleanups[name]) else s.hosts[name])
  }

  lemma CleanNone(hosts: map<string, HostState>, cleanups: map<string, Cleanup>)
    ensures HostsCleaned(hosts, cleanups, []) == hosts
  {}

  lemma CleanNext(hosts: map<string, HostState>, cleanups: map<string, Cleanup>, names: seq<string>, i: nat)
    requires i < |names| && names[i] in cleanups && names[i] !in names[..i]
    ensures var so, name := HostsCleaned(hosts, cleanups, names[..i]), names[i];
            HostsCleaned(hosts, cleanups, names[..i + 1]) ==
            if name !in hosts then so
            else if Empty(Cleared(hosts[name], cleanups[name])) then so - {name} else so[name := Cleared(hosts[name], cleanups[name])]
    ensures var so, name := HostsCleaned(hosts, cleanups, names[..i]), names[i];
            (name in so <==> name in hosts) && (name in hosts ==> so[name] == hosts[name])
  {
    hide Cleared, Empty;
    assert names[..i + 1] == names[..i] + [names[i]];
  }

  lemma AllCleaned(s: State, cleanups: map<string, Cleanup>, names: seq<string>)
    requires forall name :: name in names <==> name in cleanups
    ensures s.(hosts := HostsCleaned(s.hosts, cleanups, names)) == CleanedBy(s, cleanups)
  {
    hide Cleared, Empty;
  }

  /** What the loops leave in the record is what the laws are about. */
  lemma PlanCleans(env: Env, b: Binary, disk: Disk, s: State, orphans: bool, force: bool)
    ensures CleanedBy(s, CleanupsOf(AllPlanned(env, b, disk, s, orphans, force))) == Cleaned(env, b, disk, s, orphans, force)
  {
    hide CleanupsOf, AllPlanned, RemovalAt, KeepsHost, Dropped, Cleared, Empty;
    var cleanups := CleanupsOf(AllPlanned(env, b, disk, s, orphans, force));
    forall name | name in s.hosts
      ensures if name in cleanups
              then Cleared(s.hosts[name], cleanups[name]) == Dropped(env, b, disk, name, s.hosts[name], orphans, force) &&
                   (Empty(Cleared(s.hosts[name], cleanups[name])) <==> !KeepsHost(env, b, disk, name, s.hosts[name], orphans, force))
              else s.hosts[name] == Dropped(env, b, disk, name, s.hosts[name], orphans, force) &&
                   KeepsHost(env, b, disk, name, s.hosts[name], orphans, force)
    {
      HostCleans(env, b, disk, s, orphans, force, name);
    }
  }

  lemma HostCleans(env: Env, b: Binary, disk: Disk, s: State, orphans: bool, force: bool, name: string)
    requires name in s.hosts
    ensures var cleanups, hs := CleanupsOf(AllPlanned(env, b, disk, s, orphans, force)), s.hosts[name];
            if name in cleanups
            then Cleared(hs, cleanups[name]) == Dropped(env, b, disk, name, hs, orphans, force) &&
                 (Empty(Cleared(hs, cleanups[name])) <==> !KeepsHost(env, b, disk, name, hs, orphans, force))
            else hs == Dropped(env, b, disk, name, hs, orphans, force) && KeepsHost(env, b, disk, name, hs, orphans, force)
  {
    hide CleanupsOf, AllPlanned, RemovalAt;
    var actions, hs := AllPlanned(env, b, disk, s, orphans, force), s.hosts[name];
    AllPlannedAre(env, b, disk, s, orphans, force);
    CleanupsAre(actions, name);
    assert HookOf(name) in actions <==> HookWired(hs);
    forall p | p in hs.assets
      ensures RemovalAt(env, b, disk, name, hs, p, orphans, force).Remove? <==> exists a | a in actions :: Drops(a, name, p)
    {
      var a := Asset(name, p, RemovalAt(env, b, disk, name, hs, p, orphans, force));
      assert IsPlanned(env, b, disk, s, orphans, force, a);
    }
    var left := Dropped(env, b, disk, name, hs, orphans, force);
    if name in CleanupsOf(actions) {
      var dropped := CleanupsOf(actions)[name].dropped;
      assert forall p :: p in dropped <==> DroppedIn(CleanupsOf(actions), name, p);
      assert UnhookedIn(CleanupsOf(actions), name) <==> CleanupsOf(actions)[name].unhooked;
      assert left.assets == hs.assets - dropped;
      var a :| a in actions && Takes(a, name);
      assert Touched(env, b, disk, name, hs, orphans, force);
    } else {
      assert !HookWired(hs) by {
        assert Takes(HookOf(name), name);
      }
      forall p | p in hs.assets ensures !RemovalAt(env, b, disk, name, hs, p, orphans, force).Remove? {
        var a := Asset(name, p, RemovalAt(env, b, disk, name, hs, p, orphans, force));
        assert a in actions && !Takes(a, name);
      }
      assert left.assets == hs.assets;
    }
  }
}
