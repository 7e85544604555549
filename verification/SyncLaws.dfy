/** Over any history of edits, syncs and uninstalls, cut short anywhere: no content is lost, and what is not the
    tool's is not touched. */
module SyncLaws {
  import opened SyncPlan
  import opened SyncRun
  import opened SyncSafety

  // ---------------------------------------------------------------- an uninstall

  /** A removal is of a recorded path, without a snapshot only if the file is as it was recorded or not there; what is
      no removal is the write of the settings file. */
  ghost predicate RemovalFits(env: Env, disk: Disk, s: State, dir: string, t: Task) {
    if t.merge then !t.backup && t.put.Some? && UnwiredPath(s, dir) == Some(t.path)
    else t.put.None? && exists name | name in s.hosts ::
         t.path in s.hosts[name].assets &&
         (t.path in disk && !t.backup ==> env.hash(disk[t.path]) == s.hosts[name].assets[t.path].digest)
  }

  lemma {:induction false} RemovalsFit(env: Env, b: Binary, disk: Disk, s: State, name: string, paths: seq<Path>, orphans: bool, force: bool, dir: string)
    requires name in s.hosts && forall i | 0 <= i < |paths| :: paths[i] in s.hosts[name].assets
    ensures forall t | t in RemovalTasks(env, b, disk, name, s.hosts[name], paths, orphans, force) ::
              RemovalFits(env, disk, s, dir, t) && !t.merge && t.path in s.hosts[name].assets
  {
    hide Claims;
    if paths != [] {
      RemovalsFit(env, b, disk, s, name, paths[..|paths| - 1], orphans, force, dir);
    }
  }

  lemma {:induction false} AllRemovalsFit(env: Env, b: Binary, disk: Disk, s: State, names: seq<string>, orphans: bool, force: bool, dir: string)
    requires forall i | 0 <= i < |names| :: names[i] in s.hosts
    ensures forall t | t in UninstallTasks(env, b, disk, s, names, orphans, force, dir) :: RemovalFits(env, disk, s, dir, t)
  {
    hide RemovalFits, RemovalTasks, UnwireTasks;
    if names != [] {
      var name := names[|names| - 1];
      AllRemovalsFit(env, b, disk, s, names[..|names| - 1], orphans, force, dir);
      SortedSetIs(s.hosts[name].assets.Keys);
      RemovalsFit(env, b, disk, s, name, SortedSet(s.hosts[name].assets.Keys), orphans, force, dir);
      UnwiringFits(env, disk, s, dir);
    }
  }

  lemma UnwiringFits(env: Env, disk: Disk, s: State, dir: string)
    ensures forall t | t in UnwireTasks(env, disk, s, dir) :: RemovalFits(env, disk, s, dir, t) && t.merge
  {
    hide UnwiredPath;
  }

  lemma UninstallFits(env: Env, b: Binary, w: World, orphans: bool, force: bool, dir: string)
    requires Inv(env, w) && Injective(env)
    ensures TasksFit(w.(run := w.run + 1), AllTasks(env, b, w, orphans, force, dir))
  {
    hide UninstallTasks, AllKept;
    var start, ts := w.(run := w.run + 1), AllTasks(env, b, w, orphans, force, dir);
    SortedSetIs(w.saved.hosts.Keys);
    AllRemovalsFit(env, b, w.disk, w.saved, SortedSet(w.saved.hosts.Keys), orphans, force, dir);
    forall i | 0 <= i < |ts| ensures TaskFits(start, ts[i]) && (ts[i].put.None? || ts[i].merge) {
      assert ts[i] in ts;
      RemovalTaskFits(env, w, dir, ts[i]);
    }
  }

  lemma RemovalTaskFits(env: Env, w: World, dir: string, t: Task)
    requires Inv(env, w) && Injective(env) && RemovalFits(env, w.disk, w.saved, dir, t)
    ensures TaskFits(w.(run := w.run + 1), t)
  {
    hide AllKept;
    if t.merge {
      return;
    }
    var name :| name in w.saved.hosts && t.path in w.saved.hosts[name].assets &&
      (t.path in w.disk && !t.backup ==> env.hash(w.disk[t.path]) == w.saved.hosts[name].assets[t.path].digest);
    assert HostShipped(env, w.saved.hosts[name], w.shipped);
    if t.path in w.disk && !t.backup {
      var c :| c in w.shipped && env.hash(c) == w.saved.hosts[name].assets[t.path].digest;
      assert env.hash(c) == env.hash(w.disk[t.path]);
    }
  }

  lemma CleanedShipped(env: Env, b: Binary, disk: Disk, s: State, orphans: bool, force: bool, shipped: set<string>)
    requires RecordsShipped(env, s, shipped)
    ensures RecordsShipped(env, Cleaned(env, b, disk, s, orphans, force), shipped)
  {
    hide RemovalAt, KeepsHost;
    var s' := Cleaned(env, b, disk, s, orphans, force);
    forall name | name in s'.hosts ensures HostShipped(env, s'.hosts[name], shipped) {
      assert HostShipped(env, s.hosts[name], shipped);
    }
  }

  lemma UninstallIsSafe(env: Env, b: Binary, orphans: bool, force: bool, dir: string, cut: Cut, w: World)
    requires Inv(env, w) && Injective(env)
    ensures Inv(env, Uninstall(env, b, orphans, force, dir, cut, w))
  {
    hide AllTasks, Stops, RunCut, AllDone, Cleaned, TasksFit, RecordsShipped, AllKept, BackedPaths;
    if !Stops(env, b, w.disk, w.saved, orphans, force, dir) {
      var start, ts := w.(run := w.run + 1), AllTasks(env, b, w, orphans, force, dir);
      NextRunKeeps(w, start);
      UninstallFits(env, b, w, orphans, force, dir);
      CutKeeps(start, ts, cut);
      CutBacks(start, ts, cut, BackedPaths(ts));
      CleanedShipped(env, b, w.disk, w.saved, orphans, force, w.shipped);
      var end := RunCut(start, ts, cut);
      StateKeeps(end, Cleaned(env, b, w.disk, w.saved, orphans, force));
    }
  }

  lemma NextRunKeeps(w: World, start: World)
    requires AllKept(w) && start == w.(run := w.run + 1)
    ensures AllKept(start)
  {
    hide Kept;
    forall pc | pc in start.replaced && pc.0 !in start.merged ensures Kept(start, pc.0, pc.1) {
      KeptLater(w, start, pc.0, pc.1);
    }
  }

  lemma StateKeeps(w: World, s: State)
    requires AllKept(w)
    ensures AllKept(w.(saved := s))
  {
    hide Kept;
    var w' := w.(saved := s);
    forall pc | pc in w'.replaced && pc.0 !in w'.merged ensures Kept(w', pc.0, pc.1) {
      KeptLater(w, w', pc.0, pc.1);
    }
  }

  // ---------------------------------------------------------------- every history

  ghost predicate ProperEvent(env: Env, e: Event) {
    e.Syncing? ==> DisjointHosts(env, e.binary, e.hosts)
  }

  lemma {:induction false} HistoryIsSafe(env: Env, disk: Disk, events: seq<Event>)
    requires Injective(env) && forall i | 0 <= i < |events| :: ProperEvent(env, events[i])
    ensures Inv(env, After(env, disk, events))
  {
    hide Inv, Sync, Uninstall, DisjointHosts, Injective;
    if events == [] {
      FreshIsSafe(env, disk);
    } else {
      var w, e := After(env, disk, events[..|events| - 1]), events[|events| - 1];
      HistoryIsSafe(env, disk, events[..|events| - 1]);
      assert ProperEvent(env, e);
      match e
      case Edit(p, content) => EditIsSafe(env, w, p, content);
      case Syncing(b, hosts, force, cut) => SyncIsSafe(env, b, hosts, force, cut, w);
      case Uninstalling(b, orphans, force, dir, cut) => UninstallIsSafe(env, b, orphans, force, dir, cut, w);
    }
  }

  lemma FreshIsSafe(env: Env, disk: Disk)
    ensures Inv(env, Fresh(disk))
  {}

  lemma EditIsSafe(env: Env, w: World, p: Path, content: Option<string>)
    requires Inv(env, w)
    ensures Inv(env, Happen(env, Edit(p, content), w))
  {
    hide RecordsShipped;
    var w' := Happen(env, Edit(p, content), w);
    forall pc | pc in w'.replaced && pc.0 !in w'.merged ensures Kept(w', pc.0, pc.1) {
      KeptLater(w, w', pc.0, pc.1);
    }
  }

  /** No user content is lost: over any history, what any sync or uninstall ever overwrote or deleted at a path is in
      the backup store under that path with its exact bytes, or is a payload the tool itself shipped, unless the path
      is that of a settings file into which a hook was merged. */
  lemma NoContentLost(env: Env, disk: Disk, events: seq<Event>, p: Path, c: string)
    requires Injective(env) && forall i | 0 <= i < |events| :: ProperEvent(env, events[i])
    requires (p, c) in After(env, disk, events).replaced && p !in After(env, disk, events).merged
    ensures Kept(After(env, disk, events), p, c)
  {
    hide Happen;
    HistoryIsSafe(env, disk, events);
  }

  // ---------------------------------------------------------------- and nothing changes unseen

  /** A content that is no longer at its path was replaced, and the history says so. */
  ghost predicate Witnessed(w: World, w': World) {
    && w.replaced <= w'.replaced
    && forall p | p in w.disk && (p !in w'.disk || w'.disk[p] != w.disk[p]) :: (p, w.disk[p]) in w'.replaced
  }

  lemma WitnessedThen(w: World, v: World, u: World)
    requires Witnessed(w, v) && Witnessed(v, u)
    ensures Witnessed(w, u)
  {}

  lemma {:induction false} TasksWitnessed(w: World, ts: seq<Task>)
    ensures Witnessed(w, RunTasks(w, ts))
    decreases ts
  {
    hide Witnessed, DoTask;
    if ts != [] && !Fails(w, ts[0]) {
      TaskWitnessed(w, ts[0]);
      TasksWitnessed(DoTask(w, ts[0]), ts[1..]);
      WitnessedThen(w, DoTask(w, ts[0]), RunTasks(w, ts));
    } else {
      SelfWitnessed(w);
    }
  }

  lemma SelfWitnessed(w: World)
    ensures Witnessed(w, w)
  {}

  lemma TaskWitnessed(w: World, t: Task)
    ensures Witnessed(w, DoTask(w, t)) && forall part :: Witnessed(w, DoPart(w, t, part))
  {}

  lemma CutWitnessed(w: World, ts: seq<Task>, cut: Cut)
    ensures Witnessed(w, RunCut(w, ts, cut))
  {
    hide Witnessed, RunTasks, AllDone, DoPart;
    TasksWitnessed(w, ts);
    if cut.At? && cut.tasks < |ts| {
      TasksWitnessed(w, ts[..cut.tasks]);
      var v := RunTasks(w, ts[..cut.tasks]);
      TaskWitnessed(v, ts[cut.tasks]);
      WitnessedThen(w, v, DoPart(v, ts[cut.tasks], cut.part));
    }
  }

  lemma {:induction false} SyncWitnessed(env: Env, b: Binary, hosts: seq<Host>, force: bool, at: Progress, cut: Cut)
    ensures Witnessed(at.w, SyncFrom(env, b, hosts, force, at, cut).w)
    decreases |hosts|
  {
    hide Witnessed, HostRunOf, RunCut, Refuses;
    if hosts == [] || Refuses(env, hosts[0], at.w.disk) {
      SelfWitnessed(at.w);
    } else {
      var run := HostRunOf(env, b, hosts[0], force, at.w.disk, at.mem);
      var w := RunCut(at.w, run.tasks, cut);
      CutWitnessed(at.w, run.tasks, cut);
      if !(cut.At? && cut.tasks < |run.tasks|) {
        var next := Progress(w, State(b.version, at.mem.hosts[hosts[0].name := run.record]), at.dirty || run.dirty);
        SyncWitnessed(env, b, hosts[1..], force, next, Less(cut, |run.tasks|));
        WitnessedThen(at.w, w, SyncFrom(env, b, hosts[1..], force, next, Less(cut, |run.tasks|)).w);
      }
    }
  }

  /** Nothing a run takes away escapes the history: a content that a sync or an uninstall finds at a path and does
      not leave there is recorded as replaced. */
  lemma NothingUnseen(env: Env, e: Event, w: World)
    requires !e.Edit?
    ensures Witnessed(w, Happen(env, e, w))
  {
    hide Witnessed, SyncFrom, RunCut, AllTasks, Stops, Cleaned, AllDone;
    match e
    case Syncing(b, hosts, force, cut) =>
      var start := Progress(NewRun(w, b), w.saved, false);
      SyncWitnessed(env, b, hosts, force, start, cut);
      SameWitness(w, start.w, SyncFrom(env, b, hosts, force, start, cut).w, Happen(env, e, w));
    case Uninstalling(b, orphans, force, dir, cut) =>
      var start, ts := w.(run := w.run + 1), AllTasks(env, b, w, orphans, force, dir);
      CutWitnessed(start, ts, cut);
      SelfWitnessed(w);
      if !Stops(env, b, w.disk, w.saved, orphans, force, dir) {
        SameWitness(w, start, RunCut(start, ts, cut), Happen(env, e, w));
      }
  }

  lemma SameWitness(w: World, start: World, end: World, w': World)
    requires Witnessed(start, end) && start.disk == w.disk && start.replaced == w.replaced
    requires w'.disk == end.disk && w'.replaced == end.replaced
    ensures Witnessed(w, w')
  {}

  // ---------------------------------------------------------------- what is not the tool's

  function ClaimedBy(env: Env, b: Binary, hosts: seq<Host>): set<Path> {
    set i, p | 0 <= i < |hosts| && p in Claims(env, hosts[i], b) :: p
  }

  lemma {:induction false} SyncReaches(env: Env, b: Binary, hosts: seq<Host>, force: bool, at: Progress, cut: Cut, paths: set<Path>)
    requires SettingsFiles(hosts) <= paths && forall i, p | 0 <= i < |hosts| && p in Claims(env, hosts[i], b) :: p in paths
    ensures OnlyAt(at.w, SyncFrom(env, b, hosts, force, at, cut).w, paths)
    decreases |hosts|
  {
    hide OnlyAt, RunCut, Claims, HostRunOf, Refuses;
    if hosts == [] || Refuses(env, hosts[0], at.w.disk) {
      NothingChanged(at.w, paths);
    } else {
      var run := HostRunOf(env, b, hosts[0], force, at.w.disk, at.mem);
      TasksClaimed(env, b, hosts[0], force, at.w.disk, at.mem);
      var w := RunCut(at.w, run.tasks, cut);
      CutReaches(at.w, run.tasks, cut, paths);
      if !(cut.At? && cut.tasks < |run.tasks|) {
        var next := Progress(w, State(b.version, at.mem.hosts[hosts[0].name := run.record]), at.dirty || run.dirty);
        forall i, p | 0 <= i < |hosts[1..]| && p in Claims(env, hosts[1..][i], b) ensures p in paths {
          assert hosts[1..][i] == hosts[i + 1];
        }
        SyncReaches(env, b, hosts[1..], force, next, Less(cut, |run.tasks|), paths);
        OnlyThen(at.w, w, SyncFrom(env, b, hosts[1..], force, next, Less(cut, |run.tasks|)).w, paths, paths);
        assert paths + paths == paths;
      }
    }
  }

  ghost predicate Recorded(s: State, p: Path) {
    exists name | name in s.hosts :: p in s.hosts[name].assets
  }

  predicate SameAt(a: Disk, b: Disk, p: Path) {
    (p in a <==> p in b) && (p in a ==> a[p] == b[p])
  }

  lemma SyncForeign(env: Env, b: Binary, hosts: seq<Host>, force: bool, cut: Cut, w: World, p: Path)
    requires p !in ClaimedBy(env, b, hosts) && p !in SettingsFiles(hosts)
    ensures SameAt(w.disk, Sync(env, b, hosts, force, cut, w).disk, p)
  {
    hide Claims, SyncFrom;
    SyncReaches(env, b, hosts, force, Progress(NewRun(w, b), w.saved, false), cut, ClaimedBy(env, b, hosts) + SettingsFiles(hosts));
  }

  lemma UninstallForeign(env: Env, b: Binary, orphans: bool, force: bool, dir: string, cut: Cut, w: World, p: Path)
    requires !Recorded(w.saved, p) && UnwiredPath(w.saved, dir) != Some(p)
    ensures SameAt(w.disk, Uninstall(env, b, orphans, force, dir, cut, w).disk, p)
  {
    hide RunCut, Stops, Cleaned, AllDone, UninstallTasks, RunTasks, SortedSet, Claims, UnwiredPath;
    var start, ts := w.(run := w.run + 1), AllTasks(env, b, w, orphans, force, dir);
    SortedSetIs(w.saved.hosts.Keys);
    AllRemovalsFit(env, b, w.disk, w.saved, SortedSet(w.saved.hosts.Keys), orphans, force, dir);
    assert p !in PathsOf(ts) by {
      forall i | 0 <= i < |ts| ensures ts[i].path != p {
        assert ts[i] in ts;
      }
    }
    CutReaches(start, ts, cut, PathsOf(ts));
  }

  /** The settings files an event may write. */
  function SettingsOf(e: Event, w: World): set<Path> {
    match e
    case Edit(_, _) => {}
    case Syncing(_, hosts, _, _) => SettingsFiles(hosts)
    case Uninstalling(_, _, _, dir, _) =>
      var p := UnwiredPath(w.saved, dir);
      if p.Some? then {p.value} else {}
  }

  /** A path that is neither claimed nor recorded, and is no settings file of the hook, never changes, forced or not,
      cut short or not. */
  lemma ForeignUntouched(env: Env, e: Event, w: World, p: Path)
    requires !e.Edit? && !Recorded(w.saved, p) && (e.Syncing? ==> p !in ClaimedBy(env, e.binary, e.hosts))
    requires p !in SettingsOf(e, w)
    ensures SameAt(w.disk, Happen(env, e, w).disk, p)
  {
    hide Sync, Uninstall, ClaimedBy, Recorded, SameAt, UnwiredPath, SettingsFiles;
    match e
    case Syncing(b, hosts, force, cut) => SyncForeign(env, b, hosts, force, cut, w, p);
    case Uninstalling(b, orphans, force, dir, cut) => UninstallForeign(env, b, orphans, force, dir, cut, w, p);
  }
}
