/** What an uninstall takes away, and that it undoes an installation. */
module SyncUndo {
  import Settings
  import opened SyncPlan
  import opened SyncPlanLaws
  import opened SyncRun
  import opened SyncSafety
  import opened SyncLaws
  import opened SyncFixed
  import opened SyncSettings

  // ---------------------------------------------------------------- exactly what is removed

  /** What removals leave of a path that nothing else reaches. */
  lemma {:induction false} TasksRemove(w: World, ts: seq<Task>, p: Path)
    requires AllDone(w, ts) && forall i | 0 <= i < |ts| && ts[i].path == p :: ts[i].put.None?
    ensures if p in PathsOf(ts) then p !in RunTasks(w, ts).disk else SameAt(w.disk, RunTasks(w, ts).disk, p)
    decreases ts
  {
    if ts != [] {
      var v, rest := DoTask(w, ts[0]), ts[1..];
      forall i | 0 <= i < |rest| && rest[i].path == p ensures rest[i].put.None? {
        assert rest[i] == ts[i + 1];
      }
      TasksRemove(v, rest, p);
      PathsSplit(ts);
    }
  }

  lemma PathsSplit(ts: seq<Task>)
    requires ts != []
    ensures PathsOf(ts) == {ts[0].path} + PathsOf(ts[1..])
  {
    var rest := ts[1..];
    forall p ensures p in PathsOf(ts) <==> p in {ts[0].path} + PathsOf(rest) {
      if p in PathsOf(ts) {
        var i :| 0 <= i < |ts| && ts[i].path == p;
        assert i > 0 ==> rest[i - 1].path == p;
      }
      if p in PathsOf(rest) {
        var i :| 0 <= i < |rest| && rest[i].path == p;
        assert ts[i + 1].path == p;
      }
    }
  }

  /** Some host's record has the path, and asks for its removal. */
  predicate Removable(env: Env, b: Binary, disk: Disk, s: State, orphans: bool, force: bool, p: Path) {
    exists name | name in s.hosts ::
      p in s.hosts[name].assets && RemovalAt(env, b, disk, name, s.hosts[name], p, orphans, force).Remove?
  }

  lemma {:induction false} RemovalHasTask(env: Env, b: Binary, disk: Disk, name: string, hs: HostState, paths: seq<Path>, orphans: bool, force: bool, p: Path)
    requires forall i | 0 <= i < |paths| :: paths[i] in hs.assets
    requires p in paths && RemovalAt(env, b, disk, name, hs, p, orphans, force).Remove?
    ensures Task(p, RemovalAt(env, b, disk, name, hs, p, orphans, force).backup, None) in
            RemovalTasks(env, b, disk, name, hs, paths, orphans, force)
  {
    hide Claims;
    if p != paths[|paths| - 1] {
      var k :| 0 <= k < |paths| && paths[k] == p;
      assert paths[..|paths| - 1][k] == p;
      RemovalHasTask(env, b, disk, name, hs, paths[..|paths| - 1], orphans, force, p);
    }
  }

  lemma {:induction false} TaskIsRemoval(env: Env, b: Binary, disk: Disk, name: string, hs: HostState, paths: seq<Path>, orphans: bool, force: bool, t: Task)
    requires forall i | 0 <= i < |paths| :: paths[i] in hs.assets
    requires t in RemovalTasks(env, b, disk, name, hs, paths, orphans, force)
    ensures t.path in hs.assets && t.put.None? && RemovalAt(env, b, disk, name, hs, t.path, orphans, force) == Remove(t.backup)
  {
    hide Claims;
    if t in RemovalTasks(env, b, disk, name, hs, paths[..|paths| - 1], orphans, force) {
      TaskIsRemoval(env, b, disk, name, hs, paths[..|paths| - 1], orphans, force, t);
    }
  }

  lemma {:induction false} HostsHaveTasks(env: Env, b: Binary, disk: Disk, s: State, names: seq<string>, orphans: bool, force: bool, dir: string, name: string, p: Path)
    requires forall i | 0 <= i < |names| :: names[i] in s.hosts
    requires name in names && p in s.hosts[name].assets
    requires RemovalAt(env, b, disk, name, s.hosts[name], p, orphans, force).Remove?
    ensures exists t | t in UninstallTasks(env, b, disk, s, names, orphans, force, dir) :: t.path == p
  {
    hide RemovalAt, RemovalTasks, UnwireTasks;
    var last := names[|names| - 1];
    if name == last {
      SortedSetIs(s.hosts[name].assets.Keys);
      RemovalHasTask(env, b, disk, name, s.hosts[name], SortedSet(s.hosts[name].assets.Keys), orphans, force, p);
      var t := Task(p, RemovalAt(env, b, disk, name, s.hosts[name], p, orphans, force).backup, None);
      assert t in HostTasks(env, b, disk, name, s.hosts[name], orphans, force);
      assert t in UninstallTasks(env, b, disk, s, names, orphans, force, dir) && t.path == p;
    } else {
      var k :| 0 <= k < |names| && names[k] == name;
      assert names[..|names| - 1][k] == name;
      HostsHaveTasks(env, b, disk, s, names[..|names| - 1], orphans, force, dir, name, p);
      var t :| t in UninstallTasks(env, b, disk, s, names[..|names| - 1], orphans, force, dir) && t.path == p;
      assert t in UninstallTasks(env, b, disk, s, names, orphans, force, dir);
    }
  }

  lemma {:induction false} TasksAreRemovals(env: Env, b: Binary, disk: Disk, s: State, names: seq<string>, orphans: bool, force: bool, dir: string, t: Task)
    requires forall i | 0 <= i < |names| :: names[i] in s.hosts
    requires t in UninstallTasks(env, b, disk, s, names, orphans, force, dir)
    ensures !t.merge ==> t.put.None? && exists name | name in s.hosts ::
              t.path in s.hosts[name].assets && RemovalAt(env, b, disk, name, s.hosts[name], t.path, orphans, force) == Remove(t.backup)
  {
    hide RemovalAt, RemovalTasks, UnwireTasks;
    var name := names[|names| - 1];
    UnwiringFits(env, disk, s, dir);
    if t in HostTasks(env, b, disk, name, s.hosts[name], orphans, force) {
      SortedSetIs(s.hosts[name].assets.Keys);
      TaskIsRemoval(env, b, disk, name, s.hosts[name], SortedSet(s.hosts[name].assets.Keys), orphans, force, t);
    } else if t in UninstallTasks(env, b, disk, s, names[..|names| - 1], orphans, force, dir) {
      TasksAreRemovals(env, b, disk, s, names[..|names| - 1], orphans, force, dir, t);
    }
  }

  /** The tasks of an uninstall are the removals of exactly those paths, and the writes of the settings file. */
  lemma TaskPaths(env: Env, b: Binary, w: World, orphans: bool, force: bool, dir: string, p: Path)
    requires UnwiredPath(w.saved, dir) != Some(p)
    ensures p in PathsOf(AllTasks(env, b, w, orphans, force, dir)) <==> Removable(env, b, w.disk, w.saved, orphans, force, p)
  {
    hide UninstallTasks, RemovalAt, SortedSet, UnwiredPath;
    var ts, names := AllTasks(env, b, w, orphans, force, dir), SortedSet(w.saved.hosts.Keys);
    SortedSetIs(w.saved.hosts.Keys);
    if Removable(env, b, w.disk, w.saved, orphans, force, p) {
      var name :| name in w.saved.hosts && p in w.saved.hosts[name].assets &&
        RemovalAt(env, b, w.disk, name, w.saved.hosts[name], p, orphans, force).Remove?;
      HostsHaveTasks(env, b, w.disk, w.saved, names, orphans, force, dir, name, p);
    } else {
      AllAreRemovals(env, b, w, orphans, force, dir);
    }
  }

  lemma AllAreRemovals(env: Env, b: Binary, w: World, orphans: bool, force: bool, dir: string)
    ensures var ts := AllTasks(env, b, w, orphans, force, dir);
            forall i | 0 <= i < |ts| :: if ts[i].merge then !ts[i].backup && UnwiredPath(w.saved, dir) == Some(ts[i].path)
              else ts[i].put.None? && exists name | name in w.saved.hosts ::
                ts[i].path in w.saved.hosts[name].assets &&
                RemovalAt(env, b, w.disk, name, w.saved.hosts[name], ts[i].path, orphans, force) == Remove(ts[i].backup)
  {
    hide UninstallTasks, RemovalAt, SortedSet, UnwiredPath;
    var ts := AllTasks(env, b, w, orphans, force, dir);
    SortedSetIs(w.saved.hosts.Keys);
    AllRemovalsFit(env, b, w.disk, w.saved, SortedSet(w.saved.hosts.Keys), orphans, force, dir);
    forall i | 0 <= i < |ts| ensures if ts[i].merge then !ts[i].backup && UnwiredPath(w.saved, dir) == Some(ts[i].path)
      else ts[i].put.None? && exists name | name in w.saved.hosts ::
        ts[i].path in w.saved.hosts[name].assets &&
        RemovalAt(env, b, w.disk, name, w.saved.hosts[name], ts[i].path, orphans, force) == Remove(ts[i].backup)
    {
      assert ts[i] in ts;
      TasksAreRemovals(env, b, w.disk, w.saved, SortedSet(w.saved.hosts.Keys), orphans, force, dir, ts[i]);
    }
  }

  /** A whole uninstall that nothing stops takes away exactly the files that may be removed, and leaves every other
      file but the settings file it unwires as it is. */
  lemma UninstallExactly(env: Env, b: Binary, orphans: bool, force: bool, dir: string, w: World, p: Path)
    requires !Stops(env, b, w.disk, w.saved, orphans, force, dir) && UnwiredPath(w.saved, dir) != Some(p)
    requires AllDone(w.(run := w.run + 1), AllTasks(env, b, w, orphans, force, dir))
    ensures var w' := Uninstall(env, b, orphans, force, dir, Whole, w);
            if Removable(env, b, w.disk, w.saved, orphans, force, p) then p !in w'.disk else SameAt(w.disk, w'.disk, p)
  {
    hide AllTasks, Stops, AllDone, PathsOf, Removable, RunTasks, UnwiredPath, Cleaned, RemovalAt;
    AllAreRemovals(env, b, w, orphans, force, dir);
    TasksRemove(w.(run := w.run + 1), AllTasks(env, b, w, orphans, force, dir), p);
    TaskPaths(env, b, w, orphans, force, dir, p);
  }

  lemma {:induction false} DonePrefix(w: World, ts: seq<Task>, k: nat)
    requires AllDone(w, ts) && k <= |ts|
    ensures AllDone(w, ts[..k])
    decreases k
  {
    if k > 0 {
      assert ts[..k][0] == ts[0] && ts[..k][1..] == ts[1..][..k - 1];
      DonePrefix(DoTask(w, ts[0]), ts[1..], k - 1);
    }
  }

  lemma {:induction false} UnwiringIsThere(env: Env, b: Binary, disk: Disk, s: State, names: seq<string>, orphans: bool, force: bool, dir: string, t: Task)
    requires forall i | 0 <= i < |names| :: names[i] in s.hosts
    requires LastWired(s, names).Some? && t in UnwireTasks(env, disk, s, dir)
    ensures t in UninstallTasks(env, b, disk, s, names, orphans, force, dir)
  {
    hide UnwireTasks, HostTasks;
    if !HookWired(s.hosts[names[|names| - 1]]) {
      UnwiringIsThere(env, b, disk, s, names[..|names| - 1], orphans, force, dir, t);
    }
  }

  /** What it leaves of a file that is not recorded: the one settings file without its gates, if it had some. */
  lemma UninstallLeaves(env: Env, b: Binary, orphans: bool, force: bool, dir: string, w: World, p: Path)
    requires !Stops(env, b, w.disk, w.saved, orphans, force, dir) && !Recorded(w.saved, p)
    requires AllDone(w.(run := w.run + 1), AllTasks(env, b, w, orphans, force, dir))
    ensures Read(Uninstall(env, b, orphans, force, dir, Whole, w).disk, p) ==
            if UnwiredPath(w.saved, dir) == Some(p) then AfterUnwiring(env, Read(w.disk, p)) else Read(w.disk, p)
  {
    hide Stops, AllTasks, AllDone, UnwireTasks, RunTasks, Cleaned, Reaches, Loaded, Unwired, LastWired, UnwiredPath, SortedSet, Recorded;
    if UnwiredPath(w.saved, dir) != Some(p) {
      UninstallForeign(env, b, orphans, force, dir, Whole, w, p);
    } else {
      var start, ts := w.(run := w.run + 1), AllTasks(env, b, w, orphans, force, dir);
      TasksOfSettings(env, b, w, orphans, force, dir, p);
      SettingsRead(env, b, w, orphans, force, dir, p);
      if Unwired(env, Read(w.disk, p)).Some? {
        var content := Unwired(env, Read(w.disk, p)).value;
        forall i | 0 <= i < |ts| && ts[i].path == p ensures ts[i] == Task(p, false, Some(content), true) {
          UnwireTaskIs(env, w.disk, w.saved, dir, ts[i]);
        }
        var k := SettingsTask(env, b, w, orphans, force, dir, p, content);
        DonePrefix(start, ts, k);
        assert Reaches(start, ts, Whole, k, content) by {
          ReachesWhole(start, ts, k, content);
        }
        var i := LastOne(start, ts, Whole, p, 0, content);
        MergesLand(start, ts, Whole, p, content);
      } else {
        forall i | 0 <= i < |ts| ensures ts[i].path != p {
          if ts[i].path == p {
            UnwireTaskIs(env, w.disk, w.saved, dir, ts[i]);
          }
        }
        TasksReach(start, ts, PathsOf(ts));
      }
    }
  }

  /** The text after an unwiring. */
  function AfterUnwiring(env: Env, text: Option<string>): Option<string> {
    if Loaded(env, text).Some? && Unwired(env, text).Some? then Unwired(env, text) else text
  }

  lemma ReachesWhole(w: World, ts: seq<Task>, k: nat, content: string)
    requires k < |ts| && AllDone(w, ts[..k])
    ensures Reaches(w, ts, Whole, k, content)
  {}

  lemma SettingsRead(env: Env, b: Binary, w: World, orphans: bool, force: bool, dir: string, p: Path)
    requires !Stops(env, b, w.disk, w.saved, orphans, force, dir) && UnwiredPath(w.saved, dir) == Some(p)
    ensures Loaded(env, Read(w.disk, p)).Some?
  {
    hide Loaded, Blocked;
    SortedSetIs(w.saved.hosts.Keys);
    var last := LastWired(w.saved, SortedSet(w.saved.hosts.Keys));
    assert last.value in w.saved.hosts && HookWired(w.saved.hosts[last.value]);
  }

  lemma SettingsTask(env: Env, b: Binary, w: World, orphans: bool, force: bool, dir: string, p: Path, content: string) returns (k: nat)
    requires UnwiredPath(w.saved, dir) == Some(p) && Loaded(env, Read(w.disk, p)).Some? && Unwired(env, Read(w.disk, p)) == Some(content)
    ensures var ts := AllTasks(env, b, w, orphans, force, dir); k < |ts| && ts[k].path == p
  {
    hide Loaded, Unwired, UninstallTasks, LastWired;
    SortedSetIs(w.saved.hosts.Keys);
    var t := Task(p, false, Some(content), true);
    assert t in UnwireTasks(env, w.disk, w.saved, dir);
    UnwiringIsThere(env, b, w.disk, w.saved, SortedSet(w.saved.hosts.Keys), orphans, force, dir, t);
    k :| 0 <= k < |AllTasks(env, b, w, orphans, force, dir)| && AllTasks(env, b, w, orphans, force, dir)[k] == t;
  }

  // ---------------------------------------------------------------- a first installation

  /** Nothing is recorded for a host that was never installed, so nothing of it counts as changed. */
  lemma FreshHostRun(env: Env, b: Binary, host: Host, disk: Disk, mem: State)
    requires RecordOf(mem, host).assets == map[]
    ensures HostRunOf(env, b, host, false, disk, mem) == HostRunOf(env, b, host, true, disk, mem)
  {
    hide Claims, HostPlan, TasksOf, RecordPlan, Adopted, AnyWrite, RecordOf, HostHookTasks;
    var hs, claims := RecordOf(mem, host), Claims(env, host, b);
    var plan := HostPlan(env, host, b, hs, disk);
    NothingModified(env, b, host, hs, disk);
    SameTasks(claims, plan);
    SameRecord(env, b, claims, Adopted(hs, host, b), plan);
    SameWrites(plan);
  }

  lemma NothingModified(env: Env, b: Binary, host: Host, hs: HostState, disk: Disk)
    requires hs.assets == map[]
    ensures var plan := HostPlan(env, host, b, hs, disk); forall i | 0 <= i < |plan| :: !plan[i].class_.Modified?
  {
    hide Claims, HostPlan, NeedsHook, HookComponent, PlannedPaths;
    NoOtherAction(env, host, b, hs, disk);
    var plan := HostPlan(env, host, b, hs, disk);
    forall i | 0 <= i < |plan| ensures !plan[i].class_.Modified? {
      ClaimIs(env, host, b, plan[i].path);
    }
  }

  lemma {:induction false} SameTasks(claims: map<Path, Claim>, plan: seq<Action>)
    requires forall i | 0 <= i < |plan| :: !plan[i].class_.Modified?
    ensures TasksOf(claims, plan, false) == TasksOf(claims, plan, true)
  {
    if plan != [] {
      SameTasks(claims, plan[..|plan| - 1]);
    }
  }

  lemma {:induction false} SameRecord(env: Env, b: Binary, claims: map<Path, Claim>, hs: HostState, plan: seq<Action>)
    requires forall i | 0 <= i < |plan| :: !plan[i].class_.Modified?
    ensures RecordPlan(env, b, claims, hs, plan, false) == RecordPlan(env, b, claims, hs, plan, true)
  {
    if plan != [] {
      SameRecord(env, b, claims, hs, plan[..|plan| - 1]);
    }
  }

  lemma SameWrites(plan: seq<Action>)
    requires forall i | 0 <= i < |plan| :: !plan[i].class_.Modified?
    ensures AnyWrite(plan, false) == AnyWrite(plan, true)
  {
    forall i | 0 <= i < |plan| ensures Writes(plan[i], false) == Writes(plan[i], true) {}
  }

  /** The record has the hosts that were installed and no other, and for each what it claims and no other path. */
  ghost predicate Installed(env: Env, b: Binary, done: seq<Host>, mem: State) {
    && (forall name | name in mem.hosts :: exists i | 0 <= i < |done| :: done[i].name == name)
    && forall i | 0 <= i < |done| :: done[i].name in mem.hosts && HostInstalled(env, b, done[i], mem.hosts[done[i].name])
  }

  ghost predicate HostInstalled(env: Env, b: Binary, host: Host, hs: HostState) {
    && hs.configDir == host.configDir && hs.assets.Keys <= Claims(env, host, b).Keys
    && (HookWired(hs) <==> HookComponent(host, b) != "") && (hs.hook.Some? ==> HookWired(hs))
  }

  lemma HostInstalls(env: Env, b: Binary, host: Host, disk: Disk, mem: State)
    requires RecordOf(mem, host) == NO_HOST
    ensures HostInstalled(env, b, host, HostRunOf(env, b, host, true, disk, mem).record)
  {
    hide Claims, HostPlan, TasksOf, RecordPlan, AnyWrite, RecordOf, Applicable, HostHookTasks, HookComponent;
    NoRewire(env, host, b, NO_HOST, disk);
    var claims, plan := Claims(env, host, b), HostPlan(env, host, b, NO_HOST, disk);
    var hs := HostRunOf(env, b, host, true, disk, mem).record;
    RecordedAt(env, b, claims, Adopted(NO_HOST, host, b), plan, true, "");
    forall p | p in hs.assets ensures p in claims {
      RecordedAt(env, b, claims, Adopted(NO_HOST, host, b), plan, true, p);
    }
  }

  lemma {:induction false} SyncInstalls(env: Env, b: Binary, done: seq<Host>, hosts: seq<Host>, force: bool, at: Progress)
    requires Installed(env, b, done, at.mem) && DistinctNames(done + hosts)
    ensures SyncFrom(env, b, hosts, force, at, Whole) == SyncFrom(env, b, hosts, true, at, Whole)
    ensures !SyncFrom(env, b, hosts, true, at, Whole).refused ==> Installed(env, b, done + hosts, SyncFrom(env, b, hosts, true, at, Whole).mem)
    decreases |hosts|
  {
    hide Claims, HostRunOf, RunTasks, HostInstalled, Refuses;
    if hosts == [] {
      assert done + hosts == done;
    } else if !Refuses(env, hosts[0], at.w.disk) {
      var host := hosts[0];
      NotYet(env, b, done, hosts, at.mem);
      FreshHostRun(env, b, host, at.w.disk, at.mem);
      HostInstalls(env, b, host, at.w.disk, at.mem);
      var run := HostRunOf(env, b, host, true, at.w.disk, at.mem);
      var mem := State(b.version, at.mem.hosts[host.name := run.record]);
      OneInstalled(env, b, done, host, at.mem, run.record);
      assert (done + [host]) + hosts[1..] == done + hosts;
      SyncInstalls(env, b, done + [host], hosts[1..], force, Progress(RunTasks(at.w, run.tasks), mem, at.dirty || run.dirty));
    }
  }

  lemma NotYet(env: Env, b: Binary, done: seq<Host>, hosts: seq<Host>, mem: State)
    requires Installed(env, b, done, mem) && DistinctNames(done + hosts) && hosts != []
    ensures hosts[0].name !in mem.hosts && RecordOf(mem, hosts[0]) == NO_HOST
  {
    hide HostInstalled;
    assert (done + hosts)[|done|] == hosts[0];
    forall i | 0 <= i < |done| ensures done[i].name != hosts[0].name {
      assert (done + hosts)[i] == done[i];
    }
  }

  lemma OneInstalled(env: Env, b: Binary, done: seq<Host>, host: Host, mem: State, record: HostState)
    requires Installed(env, b, done, mem) && host.name !in mem.hosts && HostInstalled(env, b, host, record)
    ensures Installed(env, b, done + [host], State(b.version, mem.hosts[host.name := record]))
  {
    hide HostInstalled;
    var all, mem' := done + [host], State(b.version, mem.hosts[host.name := record]);
    forall name | name in mem'.hosts ensures exists i | 0 <= i < |all| :: all[i].name == name {
      if name == host.name {
        assert all[|done|].name == name;
      } else {
        var i :| 0 <= i < |done| && done[i].name == name;
        assert all[i].name == name;
      }
    }
  }

  // ---------------------------------------------------------------- and its removal

  /** The skills of a host are where a record of its directory says. */
  predicate UsualDirs(hosts: seq<Host>) {
    forall i | 0 <= i < |hosts| :: hosts[i].skillsDir == hosts[i].configDir + "/skills"
  }

  lemma RecordedIs(env: Env, b: Binary, hosts: seq<Host>, mem: State, name: string)
    requires Installed(env, b, hosts, mem) && UsualDirs(hosts) && name in mem.hosts
    ensures exists i | 0 <= i < |hosts| :: hosts[i].name == name && RecordedHost(name, mem.hosts[name]) == hosts[i]
  {
    hide Claims;
    var i :| 0 <= i < |hosts| && hosts[i].name == name;
    assert HostInstalled(env, b, hosts[i], mem.hosts[name]);
  }

  /** Everything a settled installation recorded may be removed, and none of it needs a snapshot. */
  lemma AllRemovable(env: Env, b: Binary, hosts: seq<Host>, disk: Disk, mem: State, orphans: bool, force: bool, name: string, p: Path)
    requires Installed(env, b, hosts, mem) && UsualDirs(hosts) && AllSettled(env, b, hosts, true, disk, mem)
    requires name in mem.hosts && p in mem.hosts[name].assets
    ensures RemovalAt(env, b, disk, name, mem.hosts[name], p, orphans, force) == Remove(false)
  {
    hide Claims, HookComponent, Adopted, HookSettled, Refuses;
    RecordedIs(env, b, hosts, mem, name);
    var i :| 0 <= i < |hosts| && hosts[i].name == name && RecordedHost(name, mem.hosts[name]) == hosts[i];
    assert HostInstalled(env, b, hosts[i], mem.hosts[name]);
    assert Settled(env, b, hosts[i], true, disk, mem);
    assert p in Claims(env, hosts[i], b);
    ClaimIs(env, hosts[i], b, p);
    assert PathSettled(env, b, Claims(env, hosts[i], b)[p], true, disk, mem.hosts[name].assets);
  }

  lemma {:induction false} NoBackupsNoFailure(w: World, ts: seq<Task>)
    requires forall i | 0 <= i < |ts| :: !ts[i].backup
    ensures AllDone(w, ts)
    decreases ts
  {
    if ts != [] {
      forall i | 0 <= i < |ts[1..]| ensures !ts[1..][i].backup {
        assert ts[1..][i] == ts[i + 1];
      }
      NoBackupsNoFailure(DoTask(w, ts[0]), ts[1..]);
    }
  }

  lemma InstalledGone(env: Env, b: Binary, hosts: seq<Host>, w: World, orphans: bool, force: bool, dir: string)
    requires Installed(env, b, hosts, w.saved) && UsualDirs(hosts) && AllSettled(env, b, hosts, true, w.disk, w.saved)
    requires forall i | 0 <= i < |hosts| :: Claims(env, hosts[i], b) != map[]
    ensures !Blocked(env, b, w.disk, w.saved, orphans, force)
    ensures AllDone(w.(run := w.run + 1), AllTasks(env, b, w, orphans, force, dir))
    ensures Cleaned(env, b, w.disk, w.saved, orphans, force).hosts == map[]
  {
    hide RemovalAt, AllTasks, Installed, AllSettled, AllDone, KeepsHost, Blocked, Cleaned, PathsOf, UsualDirs, UnwiredPath;
    forall name, p | name in w.saved.hosts && p in w.saved.hosts[name].assets
      ensures RemovalAt(env, b, w.disk, name, w.saved.hosts[name], p, orphans, force) == Remove(false)
    {
      AllRemovable(env, b, hosts, w.disk, w.saved, orphans, force, name, p);
    }
    AllAreRemovals(env, b, w, orphans, force, dir);
    NoBackupsNoFailure(w.(run := w.run + 1), AllTasks(env, b, w, orphans, force, dir));
    NotBlocked(env, b, w, orphans, force);
    forall name | name in w.saved.hosts ensures !KeepsHost(env, b, w.disk, name, w.saved.hosts[name], orphans, force) {
      HostGone(env, b, hosts, w, orphans, force, name);
    }
    NobodyKept(env, b, w, orphans, force);
  }

  lemma NotBlocked(env: Env, b: Binary, w: World, orphans: bool, force: bool)
    requires forall name, p | name in w.saved.hosts && p in w.saved.hosts[name].assets ::
               RemovalAt(env, b, w.disk, name, w.saved.hosts[name], p, orphans, force) == Remove(false)
    ensures !Blocked(env, b, w.disk, w.saved, orphans, force)
  {
    hide RemovalAt;
  }

  lemma NobodyKept(env: Env, b: Binary, w: World, orphans: bool, force: bool)
    requires forall name | name in w.saved.hosts :: !KeepsHost(env, b, w.disk, name, w.saved.hosts[name], orphans, force)
    ensures Cleaned(env, b, w.disk, w.saved, orphans, force).hosts == map[]
  {
    hide KeepsHost, Dropped;
  }

  /** A record of which everything goes goes itself, if it had a file at all. */
  lemma DroppedGone(env: Env, b: Binary, disk: Disk, name: string, hs: HostState, orphans: bool, force: bool, p: Path)
    requires forall q | q in hs.assets :: RemovalAt(env, b, disk, name, hs, q, orphans, force) == Remove(false)
    requires p in hs.assets && (hs.hook.Some? ==> hs.hook.value.wired)
    ensures !KeepsHost(env, b, disk, name, hs, orphans, force)
  {
    hide RemovalAt;
    var left := Dropped(env, b, disk, name, hs, orphans, force);
    assert left.assets == map[];
    assert RemovalAt(env, b, disk, name, hs, p, orphans, force).Remove?;
  }

  lemma HostGone(env: Env, b: Binary, hosts: seq<Host>, w: World, orphans: bool, force: bool, name: string)
    requires Installed(env, b, hosts, w.saved) && AllSettled(env, b, hosts, true, w.disk, w.saved)
    requires forall i | 0 <= i < |hosts| :: Claims(env, hosts[i], b) != map[]
    requires name in w.saved.hosts
    requires forall p | p in w.saved.hosts[name].assets ::
               RemovalAt(env, b, w.disk, name, w.saved.hosts[name], p, orphans, force) == Remove(false)
    ensures !KeepsHost(env, b, w.disk, name, w.saved.hosts[name], orphans, force)
  {
    hide Claims, RemovalAt, Settled, KeepsHost;
    var hs := w.saved.hosts[name];
    var i :| 0 <= i < |hosts| && hosts[i].name == name;
    assert HostInstalled(env, b, hosts[i], hs);
    assert Settled(env, b, hosts[i], true, w.disk, w.saved);
    var p :| p in Claims(env, hosts[i], b);
    SettledAsset(env, b, hosts[i], w.disk, w.saved, p);
    DroppedGone(env, b, w.disk, name, hs, orphans, force, p);
  }

  lemma SettledAsset(env: Env, b: Binary, host: Host, disk: Disk, mem: State, p: Path)
    requires Settled(env, b, host, true, disk, mem) && p in Claims(env, host, b)
    ensures host.name in mem.hosts && p in mem.hosts[host.name].assets && p in disk
  {
    hide Claims, HookComponent, Adopted, HookSettled, Refuses;
    ClaimIs(env, host, b, p);
    assert PathSettled(env, b, Claims(env, host, b)[p], true, disk, mem.hosts[host.name].assets);
  }

  /** The settings files an uninstall of the hosts may unwire. */
  function HookPaths(hosts: seq<Host>, dir: string): set<Path> {
    set i | 0 <= i < |hosts| :: SettingsPath(if hosts[i].name == CLAUDE && dir != "" then dir else hosts[i].configDir)
  }

  /** No host is claimed a settings file, and each that is there can be read. */
  ghost predicate SettingsReady(env: Env, b: Binary, hosts: seq<Host>, dir: string, disk: Disk) {
    forall q | q in SettingsFiles(hosts) + HookPaths(hosts, dir) :: q !in ClaimedBy(env, b, hosts) && Loaded(env, Read(disk, q)).Some?
  }

  /** The path is the settings file of the wired host, and that has the hook. */
  predicate GetsHook(b: Binary, hosts: seq<Host>, p: Path) {
    exists k | 0 <= k < |hosts| :: hosts[k].name == CLAUDE && p == SettingsPath(hosts[k].configDir) && HookComponent(hosts[k], b) != ""
  }

  /** What a first installation leaves of a file that no host is claimed. */
  function AfterInstall(env: Env, b: Binary, hosts: seq<Host>, disk: Disk, p: Path): Option<string> {
    if GetsHook(b, hosts, p) && Loaded(env, Read(disk, p)).Some? then Some(Wired(env, b.command, Read(disk, p))) else Read(disk, p)
  }

  lemma InstallLeaves(env: Env, b: Binary, hosts: seq<Host>, force: bool, dir: string, w: World, p: Path)
    requires w.saved.hosts == map[] && DistinctNames(hosts) && SettingsReady(env, b, hosts, dir, w.disk)
    requires p !in ClaimedBy(env, b, hosts)
    ensures Read(Sync(env, b, hosts, force, Whole, w).disk, p) == AfterInstall(env, b, hosts, w.disk, p)
  {
    hide Claims, SyncFrom, TasksBefore, HookComponent, Loaded, Wired, Payloads, ClaimedBy;
    var start := Progress(NewRun(w, b), w.saved, false);
    if k :| 0 <= k < |hosts| && hosts[k].name == CLAUDE && p == SettingsPath(hosts[k].configDir) {
      SettingsAfterSync(env, b, hosts, force, start, Whole, k);
      assert p in SettingsFiles(hosts);
      assert RecordOf(w.saved, hosts[k]) == NO_HOST;
      forall j | 0 <= j < |hosts| && hosts[j].name == CLAUDE ensures j == k {}
    } else {
      SyncForeign(env, b, hosts, force, Whole, w, p);
    }
  }

  lemma ReadyIsApart(env: Env, b: Binary, hosts: seq<Host>, dir: string, disk: Disk)
    requires SettingsReady(env, b, hosts, dir, disk)
    ensures SettingsApart(env, b, hosts) && Readable(env, hosts, disk)
  {
    hide Claims, Loaded;
    forall i | 0 <= i < |hosts| && hosts[i].name == CLAUDE
      ensures !Refuses(env, hosts[i], disk)
      ensures forall j | 0 <= j < |hosts| :: SettingsPath(hosts[i].configDir) !in Claims(env, hosts[j], b)
    {
      assert SettingsPath(hosts[i].configDir) in SettingsFiles(hosts) + HookPaths(hosts, dir);
      assert SettingsPath(hosts[i].configDir) !in ClaimedBy(env, b, hosts);
    }
  }

  lemma UnwiredIsHooks(env: Env, b: Binary, hosts: seq<Host>, dir: string, mem: State)
    requires Installed(env, b, hosts, mem)
    ensures forall name | name in mem.hosts :: HookPath(name, mem.hosts[name], dir) in HookPaths(hosts, dir)
    ensures UnwiredPath(mem, dir).Some? ==> UnwiredPath(mem, dir).value in HookPaths(hosts, dir)
  {
    hide Claims, LastWired, HookComponent;
    SortedSetIs(mem.hosts.Keys);
    forall name | name in mem.hosts ensures HookPath(name, mem.hosts[name], dir) in HookPaths(hosts, dir) {
      var i :| 0 <= i < |hosts| && hosts[i].name == name;
      assert HostInstalled(env, b, hosts[i], mem.hosts[name]);
    }
  }

  /** After an installation every settings file can still be read. */
  lemma StillReadable(env: Env, b: Binary, hosts: seq<Host>, force: bool, dir: string, w: World)
    requires w.saved.hosts == map[] && DistinctNames(hosts) && SettingsReady(env, b, hosts, dir, w.disk) && Prints(env)
    requires Installed(env, b, hosts, Sync(env, b, hosts, force, Whole, w).saved)
    ensures var once := Sync(env, b, hosts, force, Whole, w); !Unreadable(env, once.disk, once.saved, dir)
  {
    hide Claims, Sync, Loaded, Wired, HookComponent, GetsHook, Installed, ClaimedBy, HookPaths, SettingsFiles;
    var once := Sync(env, b, hosts, force, Whole, w);
    UnwiredIsHooks(env, b, hosts, dir, once.saved);
    forall name | name in once.saved.hosts && HookWired(once.saved.hosts[name])
      ensures Loaded(env, Read(once.disk, HookPath(name, once.saved.hosts[name], dir))).Some?
    {
      var q := HookPath(name, once.saved.hosts[name], dir);
      InstallLeaves(env, b, hosts, force, dir, w, q);
      WiredTwice(env, b.command, Read(w.disk, q));
    }
  }

  /** Installing on a machine that has none of it, and uninstalling, leaves the record empty, and every file as it was
      but settings files: the wired host's is wired, and then the one of the last host with a hook is unwired. */
  lemma UninstallUndoes(env: Env, b: Binary, hosts: seq<Host>, force: bool, orphans: bool, again: bool, dir: string, w: World, p: Path)
    requires w.saved.hosts == map[] && DisjointHosts(env, b, hosts) && DistinctNames(hosts) && UsualDirs(hosts) && Wires(b)
    requires hosts != [] && forall i | 0 <= i < |hosts| :: Claims(env, hosts[i], b) != map[]
    requires forall q | q in ClaimedBy(env, b, hosts) :: q !in w.disk
    requires SettingsReady(env, b, hosts, dir, w.disk) && Prints(env)
    ensures var once := Sync(env, b, hosts, force, Whole, w);
            var gone := Uninstall(env, b, orphans, again, dir, Whole, once);
            && gone.saved.hosts == map[] && Installed(env, b, hosts, once.saved)
            && (p !in SettingsFiles(hosts) + HookPaths(hosts, dir) ==> SameAt(w.disk, gone.disk, p))
            && (p in SettingsFiles(hosts) + HookPaths(hosts, dir) ==>
                  var wired := AfterInstall(env, b, hosts, w.disk, p);
                  Read(gone.disk, p) == if UnwiredPath(once.saved, dir) == Some(p) then AfterUnwiring(env, wired) else wired)
  {
    hide Claims, SyncFrom, Installed, AllSettled, Uninstall, Cleaned, Blocked, AllTasks, AllDone, Removable, DisjointHosts, DistinctNames,
      SettingsReady, Prints, UsualDirs, Wires, AfterInstall, AfterUnwiring, UnwiredPath, Unreadable, SettingsFiles, HookPaths, Recorded,
      ClaimedBy, Payloads;
    var once := Sync(env, b, hosts, force, Whole, w);
    InstalledWhole(env, b, hosts, force, dir, w);
    InstalledGone(env, b, hosts, once, orphans, again, dir);
    StillReadable(env, b, hosts, force, dir, w);
    UninstallCleans(env, b, orphans, again, dir, once);
    UnwiredIsHooks(env, b, hosts, dir, once.saved);
    ClaimedRemovable(env, b, hosts, once, orphans, again, p);
    if p in SettingsFiles(hosts) + HookPaths(hosts, dir) {
      NotReady(env, b, hosts, dir, w.disk, p);
    }
    if p in ClaimedBy(env, b, hosts) {
      UninstallExactly(env, b, orphans, again, dir, once, p);
    } else {
      NotRecorded(env, b, hosts, once.saved, p);
      UninstallLeaves(env, b, orphans, again, dir, once, p);
      InstallLeaves(env, b, hosts, force, dir, w, p);
      NoHookThere(env, b, hosts, w.disk, p);
    }
  }

  // ---------------------------------------------------------------- the settings after both

  /** Wiring a text and unwiring it again gives the text back exactly if it is there, is as the printer has it, and
      its settings are restorable. */
  lemma TextRestoredIff(env: Env, command: string, text: Option<string>)
    requires Prints(env) && Loaded(env, text).Some?
    ensures AfterUnwiring(env, Some(Wired(env, command, text))) == text <==> RestorableText(env, command, text)
  {
    hide Settings.Wire, Settings.Unwire, Settings.HasGate, Settings.Restorable, Settings.TidyStop;
    var s := Loaded(env, text).value;
    var once := Settings.Wire(env.gate, command, s);
    Settings.WireLeaves(env.gate, command, s);
    Settings.UnwireRestoresIff(env.gate, command, s);
    if !Settings.HasGate(env.gate, once) {
      Settings.GatelessStays(env.gate, once);
    }
    assert env.parse(env.marshal(Settings.Unwire(env.gate, once))) == Some(Settings.Unwire(env.gate, once));
  }

  predicate RestorableText(env: Env, command: string, text: Option<string>)
    requires Loaded(env, text).Some?
  {
    var s := Loaded(env, text).value;
    text.Some? && env.marshal(s) == text.value && Settings.Restorable(env.gate, command, s)
  }

  lemma {:induction false} OnlyWired(s: State, names: seq<string>, name: string)
    requires forall i | 0 <= i < |names| :: names[i] in s.hosts && (HookWired(s.hosts[names[i]]) <==> names[i] == name)
    requires name in names
    ensures LastWired(s, names) == Some(name)
  {
    if names[|names| - 1] != name {
      var k :| 0 <= k < |names| && names[k] == name;
      assert names[..|names| - 1][k] == name;
      OnlyWired(s, names[..|names| - 1], name);
    }
  }

  lemma OneHasHook(env: Env, b: Binary, hosts: seq<Host>, mem: State, k: nat)
    requires Installed(env, b, hosts, mem) && k < |hosts| && hosts[k].name == CLAUDE
    requires forall i | 0 <= i < |hosts| :: HookComponent(hosts[i], b) != "" <==> i == k
    ensures CLAUDE in mem.hosts && mem.hosts[CLAUDE].configDir == hosts[k].configDir
    ensures forall name | name in mem.hosts :: HookWired(mem.hosts[name]) <==> name == CLAUDE
  {
    hide Claims, HookComponent, HookWired;
    assert HostInstalled(env, b, hosts[k], mem.hosts[CLAUDE]);
    forall name | name in mem.hosts ensures HookWired(mem.hosts[name]) <==> name == CLAUDE {
      var j :| 0 <= j < |hosts| && hosts[j].name == name;
      assert HostInstalled(env, b, hosts[j], mem.hosts[name]);
    }
  }

  /** When one host alone has the hook, it is its settings that are unwired. */
  lemma UnwiresTheHost(env: Env, b: Binary, hosts: seq<Host>, dir: string, mem: State, k: nat)
    requires Installed(env, b, hosts, mem) && k < |hosts| && hosts[k].name == CLAUDE && (dir == "" || dir == hosts[k].configDir)
    requires forall i | 0 <= i < |hosts| :: HookComponent(hosts[i], b) != "" <==> i == k
    ensures UnwiredPath(mem, dir) == Some(SettingsPath(hosts[k].configDir))
  {
    hide Installed, HookComponent, HookWired, LastWired, SortedSet;
    OneHasHook(env, b, hosts, mem, k);
    SortedSetIs(mem.hosts.Keys);
    OnlyWired(mem, SortedSet(mem.hosts.Keys), CLAUDE);
  }

  /** Installing and uninstalling leaves the settings of the one host that has the hook as they were exactly if they
      were there, as the printer has them, without a gate and with a written-out Stop list. */
  lemma SettingsRestoredIff(env: Env, b: Binary, hosts: seq<Host>, force: bool, orphans: bool, again: bool, dir: string, w: World, k: nat)
    requires w.saved.hosts == map[] && DisjointHosts(env, b, hosts) && DistinctNames(hosts) && UsualDirs(hosts) && Wires(b)
    requires k < |hosts| && forall i | 0 <= i < |hosts| :: Claims(env, hosts[i], b) != map[]
    requires forall q | q in ClaimedBy(env, b, hosts) :: q !in w.disk
    requires SettingsReady(env, b, hosts, dir, w.disk) && Prints(env)
    requires hosts[k].name == CLAUDE && (dir == "" || dir == hosts[k].configDir)
    requires forall i | 0 <= i < |hosts| :: HookComponent(hosts[i], b) != "" <==> i == k
    ensures var gone, p := Uninstall(env, b, orphans, again, dir, Whole, Sync(env, b, hosts, force, Whole, w)), SettingsPath(hosts[k].configDir);
            Loaded(env, Read(w.disk, p)).Some? &&
            (SameAt(w.disk, gone.disk, p) <==> RestorableText(env, b.command, Read(w.disk, p)))
  {
    hide Claims, Sync, Uninstall, Installed, Loaded, Wired, AfterUnwiring, RestorableText, HookComponent, UsualDirs, DisjointHosts,
      DistinctNames, Prints, Wires, ClaimedBy, UnwiredPath, HookPaths;
    var p := SettingsPath(hosts[k].configDir);
    assert p in SettingsFiles(hosts) + HookPaths(hosts, dir);
    UninstallUndoes(env, b, hosts, force, orphans, again, dir, w, p);
    UnwiresTheHost(env, b, hosts, dir, Sync(env, b, hosts, force, Whole, w).saved, k);
    TextRestoredIff(env, b.command, Read(w.disk, p));
  }

  lemma NotReady(env: Env, b: Binary, hosts: seq<Host>, dir: string, disk: Disk, p: Path)
    requires SettingsReady(env, b, hosts, dir, disk) && p in SettingsFiles(hosts) + HookPaths(hosts, dir)
    ensures p !in ClaimedBy(env, b, hosts)
  {
    hide ClaimedBy, SettingsFiles, HookPaths, Loaded;
  }

  lemma NoHookThere(env: Env, b: Binary, hosts: seq<Host>, disk: Disk, p: Path)
    ensures p !in SettingsFiles(hosts) ==> AfterInstall(env, b, hosts, disk, p) == Read(disk, p)
  {
    hide HookComponent, Loaded, Wired;
  }

  lemma NotRecorded(env: Env, b: Binary, hosts: seq<Host>, mem: State, p: Path)
    requires Installed(env, b, hosts, mem) && p !in ClaimedBy(env, b, hosts)
    ensures !Recorded(mem, p)
  {
    hide Claims, HookComponent;
    forall name | name in mem.hosts ensures p !in mem.hosts[name].assets {
      var i :| 0 <= i < |hosts| && hosts[i].name == name;
      assert HostInstalled(env, b, hosts[i], mem.hosts[name]);
      assert p !in Claims(env, hosts[i], b);
    }
  }

  /** A whole first installation: everything is recorded and settled, and nothing was refused. */
  lemma InstalledWhole(env: Env, b: Binary, hosts: seq<Host>, force: bool, dir: string, w: World)
    requires w.saved.hosts == map[] && DisjointHosts(env, b, hosts) && DistinctNames(hosts) && Wires(b)
    requires SettingsReady(env, b, hosts, dir, w.disk) && Prints(env)
    ensures var once := Sync(env, b, hosts, force, Whole, w);
            Installed(env, b, hosts, once.saved) && AllSettled(env, b, hosts, true, once.disk, once.saved)
  {
    hide Claims, SyncFrom, Installed, AllSettled, DisjointHosts, DistinctNames, SettingsReady, Prints, Wires, SettingsApart, Readable, Payloads;
    var start := Progress(NewRun(w, b), w.saved, false);
    NothingInstalled(env, b, w.saved);
    ReadyIsApart(env, b, hosts, dir, w.disk);
    assert [] + hosts == hosts;
    SyncInstalls(env, b, [], hosts, force, start);
    NobodySettled(env, b, w.disk, w.saved);
    SyncSettles(env, b, [], hosts, true, start);
    SavedKept(env, b, hosts, true, start);
    if !SyncFrom(env, b, hosts, true, start, Whole).dirty {
      CleanIsSame(env, b, hosts, true, start);
    }
  }

  lemma NothingInstalled(env: Env, b: Binary, s: State)
    requires s.hosts == map[]
    ensures Installed(env, b, [], s) && NoEmptyRecord(s)
  {}

  lemma NobodySettled(env: Env, b: Binary, disk: Disk, s: State)
    ensures AllSettled(env, b, [], true, disk, s)
  {}

  lemma UninstallCleans(env: Env, b: Binary, orphans: bool, force: bool, dir: string, w: World)
    requires !Stops(env, b, w.disk, w.saved, orphans, force, dir)
    requires AllDone(w.(run := w.run + 1), AllTasks(env, b, w, orphans, force, dir))
    ensures Uninstall(env, b, orphans, force, dir, Whole, w).saved == Cleaned(env, b, w.disk, w.saved, orphans, force)
  {
    hide Stops, AllDone, AllTasks, Cleaned;
  }

  /** After an installation the paths that may be removed are the claimed ones, and all of them are there. */
  lemma ClaimedRemovable(env: Env, b: Binary, hosts: seq<Host>, w: World, orphans: bool, force: bool, p: Path)
    requires Installed(env, b, hosts, w.saved) && UsualDirs(hosts) && AllSettled(env, b, hosts, true, w.disk, w.saved)
    ensures Removable(env, b, w.disk, w.saved, orphans, force, p) <==> p in ClaimedBy(env, b, hosts)
  {
    hide Claims, RemovalAt, HookComponent, Adopted, HookSettled, Refuses;
    if p in ClaimedBy(env, b, hosts) {
      var i :| 0 <= i < |hosts| && p in Claims(env, hosts[i], b);
      ClaimIs(env, hosts[i], b, p);
      assert Settled(env, b, hosts[i], true, w.disk, w.saved);
      assert PathSettled(env, b, Claims(env, hosts[i], b)[p], true, w.disk, w.saved.hosts[hosts[i].name].assets);
      AllRemovable(env, b, hosts, w.disk, w.saved, orphans, force, hosts[i].name, p);
    }
    if Removable(env, b, w.disk, w.saved, orphans, force, p) {
      var name :| name in w.saved.hosts && p in w.saved.hosts[name].assets &&
        RemovalAt(env, b, w.disk, name, w.saved.hosts[name], p, orphans, force).Remove?;
      var i :| 0 <= i < |hosts| && hosts[i].name == name;
      assert HostInstalled(env, b, hosts[i], w.saved.hosts[name]);
    }
  }
}
