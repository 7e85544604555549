/** No content is lost: whatever a sync or an uninstall overwrites or deletes is in the backup store byte for byte,
    or is a payload the tool shipped; only settings files, into which the hook is merged, are written without that. */
module SyncSafety {
  import opened Sorting
  import opened SyncPlan
  import opened SyncPlanLaws
  import opened SyncRun

  ghost predicate Injective(env: Env) {
    forall a, b :: env.hash(a) == env.hash(b) ==> a == b
  }

  /** The content is a payload of some version that was run, or some run's snapshot of that path. */
  ghost predicate Kept(w: World, p: Path, c: string) {
    c in w.shipped || exists r: nat :: (r, p) in w.backups && w.backups[(r, p)] == c
  }

  ghost predicate AllKept(w: World) {
    forall pc | pc in w.replaced :: pc.0 in w.merged || Kept(w, pc.0, pc.1)
  }

  /** Every record is of a payload that was shipped. */
  ghost predicate RecordsShipped(env: Env, s: State, shipped: set<string>) {
    forall name | name in s.hosts :: HostShipped(env, s.hosts[name], shipped)
  }

  ghost predicate HostShipped(env: Env, hs: HostState, shipped: set<string>) {
    "" !in hs.assets && forall p | p in hs.assets :: exists c | c in shipped :: env.hash(c) == hs.assets[p].digest
  }

  ghost predicate Inv(env: Env, w: World) {
    && AllKept(w) && RecordsShipped(env, w.saved, w.shipped)
    && forall rp | rp in w.backups :: rp.0 <= w.run
  }

  // ---------------------------------------------------------------- tasks

  /** What the task takes away is shipped, or goes into the store under a key that is not taken, unless its path is
      that of a settings file. */
  ghost predicate TaskFits(w: World, t: Task) {
    && (t.merge ==> !t.backup)
    && (t.path in w.disk && t.path !in w.merged && !t.merge ==>
          if t.backup then (w.run, t.path) !in w.backups else w.disk[t.path] in w.shipped)
  }

  /** A path that has two tasks is removed by the first, or is that of a settings file. */
  ghost predicate TasksFit(w: World, ts: seq<Task>) {
    && (forall i | 0 <= i < |ts| :: TaskFits(w, ts[i]))
    && forall i, j | 0 <= i < j < |ts| :: ts[i].path == ts[j].path ==> ts[i].put.None? || ts[i].merge || ts[j].merge
  }

  lemma KeptLater(w: World, w': World, p: Path, c: string)
    requires Kept(w, p, c) && w.shipped <= w'.shipped
    requires forall r: nat | (r, p) in w.backups :: (r, p) in w'.backups && w'.backups[(r, p)] == w.backups[(r, p)]
    ensures Kept(w', p, c)
  {}

  lemma PutKeeps(w: World, t: Task, content: Option<string>)
    requires AllKept(w) && TaskFits(w, t) && !Fails(w, t)
    ensures AllKept(Do(w, t, content)) && AllKept(Snapshot(w, t))
  {
    hide Kept;
    var s := Snapshot(w, t);
    var w' := Do(w, t, content);
    forall pc | pc in w'.replaced && pc.0 !in w'.merged ensures Kept(w', pc.0, pc.1) {
      if pc in w.replaced {
        KeptLater(w, w', pc.0, pc.1);
      } else {
        TakenIsKept(w, t, content);
      }
    }
    forall pc | pc in s.replaced && pc.0 !in s.merged ensures Kept(s, pc.0, pc.1) {
      KeptLater(w, s, pc.0, pc.1);
    }
  }

  lemma TakenIsKept(w: World, t: Task, content: Option<string>)
    requires TaskFits(w, t) && t.path in w.disk && t.path !in w.merged && !t.merge
    ensures Kept(Do(w, t, content), t.path, w.disk[t.path])
  {
    var w' := Do(w, t, content);
    if t.backup {
      assert (w.run, t.path) in w'.backups;
    }
  }

  lemma FitsLater(w: World, ts: seq<Task>)
    requires TasksFit(w, ts) && ts != [] && !Fails(w, ts[0])
    ensures TasksFit(DoTask(w, ts[0]), ts[1..])
  {
    var w', rest := DoTask(w, ts[0]), ts[1..];
    forall i | 0 <= i < |rest| ensures TaskFits(w', rest[i]) {
      assert rest[i] == ts[i + 1] && TaskFits(w, ts[i + 1]);
    }
  }

  lemma {:induction false} TasksKeep(w: World, ts: seq<Task>)
    requires AllKept(w) && TasksFit(w, ts)
    ensures AllKept(RunTasks(w, ts)) && SameHistory(w, RunTasks(w, ts))
    decreases ts
  {
    hide AllKept, TasksFit, DoTask;
    if ts != [] && !Fails(w, ts[0]) {
      OneTaskKeeps(w, ts);
      TasksKeep(DoTask(w, ts[0]), ts[1..]);
    }
  }

  /** What no task changes. */
  ghost predicate SameHistory(w: World, w': World) {
    w'.shipped == w.shipped && w'.run == w.run && w'.saved == w.saved
  }

  lemma OneTaskKeeps(w: World, ts: seq<Task>)
    requires AllKept(w) && TasksFit(w, ts) && ts != [] && !Fails(w, ts[0])
    ensures AllKept(DoTask(w, ts[0])) && TasksFit(DoTask(w, ts[0]), ts[1..]) && SameHistory(w, DoTask(w, ts[0]))
  {
    hide AllKept;
    assert TaskFits(w, ts[0]);
    PutKeeps(w, ts[0], ts[0].put);
    FitsLater(w, ts);
  }

  lemma {:induction false} LaterFits(w: World, ts: seq<Task>, k: nat)
    requires TasksFit(w, ts) && k < |ts| && AllDone(w, ts[..k])
    ensures TaskFits(RunTasks(w, ts[..k]), ts[k])
    decreases k
  {
    hide TasksFit, DoTask, TaskFits;
    if k == 0 {
      FitAt(w, ts, 0);
    } else {
      assert ts[..k][0] == ts[0] && ts[..k][1..] == ts[1..][..k - 1] && ts[1..][k - 1] == ts[k];
      FitsLater(w, ts);
      LaterFits(DoTask(w, ts[0]), ts[1..], k - 1);
    }
  }

  lemma FitAt(w: World, ts: seq<Task>, i: nat)
    requires TasksFit(w, ts) && i < |ts|
    ensures TaskFits(w, ts[i])
  {}

  lemma PrefixFits(w: World, ts: seq<Task>, k: nat)
    requires TasksFit(w, ts) && k <= |ts|
    ensures TasksFit(w, ts[..k])
  {}

  lemma CutKeeps(w: World, ts: seq<Task>, cut: Cut)
    requires AllKept(w) && TasksFit(w, ts)
    ensures AllKept(RunCut(w, ts, cut)) && SameHistory(w, RunCut(w, ts, cut))
  {
    hide AllKept, TasksFit, TaskFits, RunTasks, AllDone, Put, Snapshot;
    if cut.Whole? || cut.tasks >= |ts| {
      TasksKeep(w, ts);
    } else {
      PrefixFits(w, ts, cut.tasks);
      TasksKeep(w, ts[..cut.tasks]);
      if AllDone(w, ts[..cut.tasks]) {
        LaterFits(w, ts, cut.tasks);
        PartKeeps(RunTasks(w, ts[..cut.tasks]), ts[cut.tasks], cut.part);
      }
    }
  }

  lemma PartKeeps(w: World, t: Task, part: Part)
    requires AllKept(w) && TaskFits(w, t)
    ensures AllKept(DoPart(w, t, part)) && SameHistory(w, DoPart(w, t, part))
  {
    hide AllKept;
    if !Fails(w, t) {
      PutKeeps(w, t, None);
      if part.Cropped? && t.put.Some? {
        PutKeeps(w, t, Some(Torn(t.put.value, part.length)));
      }
    }
  }

  // ---------------------------------------------------------------- which paths a run reaches

  /** Only the paths of the tasks change. */
  ghost predicate OnlyAt(w: World, w': World, paths: set<Path>) {
    && (forall p | p !in paths :: (p in w'.disk <==> p in w.disk) && (p in w.disk ==> w'.disk[p] == w.disk[p]))
    && w'.run == w.run
  }

  /** Only the paths of tasks that ask for it are snapshotted. */
  ghost predicate BacksAt(w: World, w': World, paths: set<Path>) {
    && (forall rp | rp in w'.backups && rp !in w.backups :: rp.0 == w.run && rp.1 in paths)
    && w'.run == w.run
  }

  function BackedPaths(ts: seq<Task>): (r: set<Path>)
    ensures forall i | 0 <= i < |ts| && ts[i].backup :: ts[i].path in r
  {
    set i | 0 <= i < |ts| && ts[i].backup :: ts[i].path
  }

  function PathsOf(ts: seq<Task>): (r: set<Path>)
    ensures forall i | 0 <= i < |ts| :: ts[i].path in r
  {
    set i | 0 <= i < |ts| :: ts[i].path
  }

  lemma OnlyThen(w: World, v: World, u: World, a: set<Path>, b: set<Path>)
    requires OnlyAt(w, v, a) && OnlyAt(v, u, b)
    ensures OnlyAt(w, u, a + b)
  {}

  lemma {:induction false} TasksReach(w: World, ts: seq<Task>, paths: set<Path>)
    requires forall i | 0 <= i < |ts| :: ts[i].path in paths
    ensures OnlyAt(w, RunTasks(w, ts), paths)
    decreases ts
  {
    hide OnlyAt, DoTask;
    if ts == [] || Fails(w, ts[0]) {
      NothingChanged(w, paths);
    } else {
      TaskReaches(w, ts[0], paths);
      TasksReach(DoTask(w, ts[0]), ts[1..], paths);
      OnlyThen(w, DoTask(w, ts[0]), RunTasks(w, ts), paths, paths);
      assert paths + paths == paths;
    }
  }

  lemma NothingChanged(w: World, paths: set<Path>)
    ensures OnlyAt(w, w, paths)
  {}

  lemma TaskReaches(w: World, t: Task, paths: set<Path>)
    requires t.path in paths
    ensures OnlyAt(w, DoTask(w, t), paths) && forall part :: OnlyAt(w, DoPart(w, t, part), paths)
  {}

  lemma CutReaches(w: World, ts: seq<Task>, cut: Cut, paths: set<Path>)
    requires forall i | 0 <= i < |ts| :: ts[i].path in paths
    ensures OnlyAt(w, RunCut(w, ts, cut), paths)
  {
    hide OnlyAt, RunTasks, AllDone, DoPart;
    TasksReach(w, ts, paths);
    if cut.At? && cut.tasks < |ts| {
      TasksReach(w, ts[..cut.tasks], paths);
      var v := RunTasks(w, ts[..cut.tasks]);
      TaskReaches(v, ts[cut.tasks], paths);
      OnlyThen(w, v, DoPart(v, ts[cut.tasks], cut.part), paths, paths);
      assert paths + paths == paths;
    }
  }

  lemma {:induction false} TasksBack(w: World, ts: seq<Task>, paths: set<Path>)
    requires forall i | 0 <= i < |ts| && ts[i].backup :: ts[i].path in paths
    ensures BacksAt(w, RunTasks(w, ts), paths)
    decreases ts
  {
    if ts != [] && !Fails(w, ts[0]) {
      forall i | 0 <= i < |ts[1..]| && ts[1..][i].backup ensures ts[1..][i].path in paths {
        assert ts[1..][i] == ts[i + 1];
      }
      TasksBack(DoTask(w, ts[0]), ts[1..], paths);
    }
  }

  lemma CutBacks(w: World, ts: seq<Task>, cut: Cut, paths: set<Path>)
    requires forall i | 0 <= i < |ts| && ts[i].backup :: ts[i].path in paths
    ensures BacksAt(w, RunCut(w, ts, cut), paths)
  {
    hide RunTasks, AllDone;
    TasksBack(w, ts, paths);
    if cut.At? && cut.tasks < |ts| {
      TasksBack(w, ts[..cut.tasks], paths);
    }
  }

  // ---------------------------------------------------------------- a host's sync

  /** The settings files of the hosts a sync may wire. */
  function SettingsFiles(hosts: seq<Host>): set<Path> {
    set i | 0 <= i < |hosts| && hosts[i].name == CLAUDE :: SettingsPath(hosts[i].configDir)
  }

  lemma HookTaskIs(env: Env, b: Binary, host: Host, hs: HostState, disk: Disk)
    ensures var ts := HostHookTasks(env, b, host, hs, disk);
            |ts| <= 1 && forall i | 0 <= i < |ts| ::
              ts[i].merge && !ts[i].backup && ts[i].put.Some? && host.name == CLAUDE && ts[i].path == SettingsPath(host.configDir)
  {
    hide HookComponent;
  }

  lemma {:induction false} TasksFromPlan(claims: map<Path, Claim>, plan: seq<Action>, force: bool)
    ensures forall t | t in TasksOf(claims, plan, force) ::
              exists i | 0 <= i < |plan| :: t in TasksFor(claims, plan[i], force)
    ensures forall p | p in PathsOf(TasksOf(claims, plan, force)) :: p in claims
  {
    if plan != [] {
      var n := |plan| - 1;
      TasksFromPlan(claims, plan[..n], force);
      forall t | t in TasksOf(claims, plan, force) ensures exists i | 0 <= i < |plan| :: t in TasksFor(claims, plan[i], force) {
        if t in TasksOf(claims, plan[..n], force) {
          var i :| 0 <= i < n && t in TasksFor(claims, plan[..n][i], force);
          assert plan[i] == plan[..n][i];
        }
      }
    }
  }

  lemma {:induction false} TaskPathsDiffer(claims: map<Path, Claim>, plan: seq<Action>, force: bool)
    requires forall i, j | 0 <= i < j < |plan| :: plan[i].path != plan[j].path
    ensures forall i, j | 0 <= i < j < |TasksOf(claims, plan, force)| ::
              TasksOf(claims, plan, force)[i].path != TasksOf(claims, plan, force)[j].path
  {
    if plan != [] {
      var n := |plan| - 1;
      TaskPathsDiffer(claims, plan[..n], force);
      TasksFromPlan(claims, plan[..n], force);
      var before := TasksOf(claims, plan[..n], force);
      forall k | 0 <= k < |before| ensures before[k].path != plan[n].path {
        assert before[k] in before;
        var i :| 0 <= i < n && before[k] in TasksFor(claims, plan[..n][i], force);
        assert plan[..n][i] == plan[i];
      }
    }
  }

  lemma AssetTasksFit(env: Env, b: Binary, host: Host, force: bool, w: World, hs: HostState)
    requires "" !in hs.assets
    requires forall p | p in Claims(env, host, b) :: (w.run, p) !in w.backups
    ensures TasksFit(w, TasksOf(Claims(env, host, b), HostPlan(env, host, b, hs, w.disk), force))
    ensures forall p | p in PathsOf(TasksOf(Claims(env, host, b), HostPlan(env, host, b, hs, w.disk), force)) :: p in Claims(env, host, b)
  {
    hide Claims, HostPlan, NeedsHook, HookComponent, ActionAt, PlannedPaths, TasksOf;
    var claims, plan := Claims(env, host, b), HostPlan(env, host, b, hs, w.disk);
    var ts := TasksOf(claims, plan, force);
    NoOtherAction(env, host, b, hs, w.disk);
    TaskPathsDiffer(claims, plan, force);
    TasksFromPlan(claims, plan, force);
    forall k | 0 <= k < |ts| ensures TaskFits(w, ts[k]) {
      assert ts[k] in ts;
      var i :| 0 <= i < |plan| && ts[k] in TasksFor(claims, plan[i], force);
      assert ts[k].path in PathsOf(ts);
      if !ts[k].backup {
        ClaimIs(env, host, b, plan[i].path);
        CreatesWhereNothingIs(env, host, claims, hs, w.disk, plan[i].path);
      }
    }
  }

  lemma FitTogether(w: World, hook: seq<Task>, ts: seq<Task>)
    requires TasksFit(w, ts) && |hook| <= 1 && forall i | 0 <= i < |hook| :: hook[i].merge && !hook[i].backup
    ensures TasksFit(w, hook + ts)
  {
    var all := hook + ts;
    assert forall i | |hook| <= i < |all| :: all[i] == ts[i - |hook|];
  }

  lemma HostTasksFit(env: Env, b: Binary, host: Host, force: bool, w: World, mem: State)
    requires "" !in RecordOf(mem, host).assets
    requires forall p | p in Claims(env, host, b) :: (w.run, p) !in w.backups
    ensures TasksFit(w, HostRunOf(env, b, host, force, w.disk, mem).tasks)
  {
    hide Claims, HostPlan, RecordOf, RecordPlan, Adopted, TasksOf, TasksFit, HostHookTasks, AnyWrite;
    var hs := RecordOf(mem, host);
    AssetTasksFit(env, b, host, force, w, hs);
    HookTaskIs(env, b, host, hs, w.disk);
    FitTogether(w, HostHookTasks(env, b, host, hs, w.disk), TasksOf(Claims(env, host, b), HostPlan(env, host, b, hs, w.disk), force));
  }

  /** A host's tasks are of the paths it is claimed, and of the settings file. Only the first are backed up. */
  lemma TasksClaimed(env: Env, b: Binary, host: Host, force: bool, disk: Disk, mem: State)
    ensures var ts := HostRunOf(env, b, host, force, disk, mem).tasks; forall i | 0 <= i < |ts| ::
              if ts[i].merge then !ts[i].backup && host.name == CLAUDE && ts[i].path == SettingsPath(host.configDir)
              else ts[i].path in Claims(env, host, b)
  {
    hide Claims, HostPlan, RecordPlan, RecordOf, TasksOf, HostHookTasks, AnyWrite;
    var hs, claims := RecordOf(mem, host), Claims(env, host, b);
    var hook, ts := HostHookTasks(env, b, host, hs, disk), TasksOf(claims, HostPlan(env, host, b, hs, disk), force);
    TasksFromPlan(claims, HostPlan(env, host, b, hs, disk), force);
    HookTaskIs(env, b, host, hs, disk);
    var all := HostRunOf(env, b, host, force, disk, mem).tasks;
    assert all == hook + ts;
    forall i | |hook| <= i < |all| ensures all[i].path in claims && !all[i].merge {
      assert all[i] == ts[i - |hook|] && ts[i - |hook|] in ts && ts[i - |hook|].path in PathsOf(ts);
    }
  }

  lemma CreatesWhereNothingIs(env: Env, host: Host, claims: map<Path, Claim>, hs: HostState, disk: Disk, p: Path)
    requires p in claims ==> claims[p].path == p
    ensures ActionAt(env, host, claims, hs, disk, p).class_.Create? ==> p !in disk
  {}

  lemma {:induction false} CandidateShipped(host: Host, cs: seq<Component>, files: map<string, seq<File>>, c: Claim)
    requires c in Candidates(host, cs, files)
    ensures exists id | id in files :: c.file.content in PayloadsOf(files[id])
    ensures c.path != ""
  {
    hide Destination, AppliesTo, PayloadsOf;
    var n := |cs| - 1;
    if c in Candidates(host, cs[..n], files) {
      CandidateShipped(host, cs[..n], files, c);
    } else {
      FileShipped(host, cs[n], files, c);
    }
  }

  lemma FileShipped(host: Host, comp: Component, files: map<string, seq<File>>, c: Claim)
    requires c in ClaimsFrom(host, comp, files)
    ensures comp.id in files && c.file.content in PayloadsOf(files[comp.id]) && c.path != ""
  {}

  /** A claim stands under its own path, and its content is one the version ships. */
  lemma ClaimIs(env: Env, host: Host, b: Binary, p: Path)
    ensures p in Claims(env, host, b) ==> Claims(env, host, b)[p].path == p
    ensures p in Claims(env, host, b) ==> Claims(env, host, b)[p].file.content in Payloads(b) && p != ""
  {
    hide SortBy, Winners, Candidates;
    var cs := Candidates(host, SortBy(IdOf, b.components), b.files);
    WinnersAre(env, cs, p);
    if p in Claims(env, host, b) {
      CandidateShipped(host, SortBy(IdOf, b.components), b.files, Claims(env, host, b)[p]);
    }
  }

  // ---------------------------------------------------------------- the record a host's sync leaves

  lemma {:induction false} PlanRecords(env: Env, b: Binary, claims: map<Path, Claim>, hs: HostState, plan: seq<Action>, force: bool, shipped: set<string>)
    requires HostShipped(env, hs, shipped) && "" !in claims
    requires forall p | p in claims :: claims[p].file.content in shipped
    ensures HostShipped(env, RecordPlan(env, b, claims, hs, plan, force), shipped)
  {
    hide HostShipped, RecordAction;
    if plan != [] {
      var n := |plan| - 1;
      PlanRecords(env, b, claims, hs, plan[..n], force, shipped);
      ActionRecords(env, b, claims, RecordPlan(env, b, claims, hs, plan[..n], force), plan[n], force, shipped);
    }
  }

  lemma ActionRecords(env: Env, b: Binary, claims: map<Path, Claim>, hs: HostState, a: Action, force: bool, shipped: set<string>)
    requires HostShipped(env, hs, shipped) && "" !in claims
    requires forall p | p in claims :: claims[p].file.content in shipped
    ensures HostShipped(env, RecordAction(env, b, claims, hs, a, force), shipped)
  {
    var hs' := RecordAction(env, b, claims, hs, a, force);
    forall p | p in hs'.assets ensures exists c | c in shipped :: env.hash(c) == hs'.assets[p].digest {
      if p != a.path || p !in claims {
        assert p in hs.assets;
      }
    }
  }

  lemma HostRecordShipped(env: Env, b: Binary, host: Host, force: bool, disk: Disk, mem: State, shipped: set<string>)
    requires RecordsShipped(env, mem, shipped) && Payloads(b) <= shipped
    ensures HostShipped(env, HostRunOf(env, b, host, force, disk, mem).record, shipped)
    ensures "" !in RecordOf(mem, host).assets
  {
    hide Claims, HostPlan, RecordPlan, TasksOf, Payloads;
    var claims := Claims(env, host, b);
    forall p | p in claims ensures claims[p].file.content in shipped && p != "" {
      ClaimIs(env, host, b, p);
    }
    var hs := Adopted(RecordOf(mem, host), host, b);
    assert HostShipped(env, hs, shipped);
    PlanRecords(env, b, claims, hs, HostPlan(env, host, b, RecordOf(mem, host), disk), force, shipped);
  }

  // ---------------------------------------------------------------- a whole sync

  /** No two hosts are claimed one path, which is what keeps a run's snapshots apart. */
  ghost predicate DisjointHosts(env: Env, b: Binary, hosts: seq<Host>) {
    forall i, j, p | 0 <= i < j < |hosts| && p in Claims(env, hosts[i], b) :: p !in Claims(env, hosts[j], b)
  }

  /** The run has no snapshot yet of what the hosts still to come are claimed. */
  ghost predicate Unsnapshotted(env: Env, b: Binary, hosts: seq<Host>, w: World) {
    forall i, p | 0 <= i < |hosts| && p in Claims(env, hosts[i], b) :: (w.run, p) !in w.backups
  }

  ghost predicate Safe(env: Env, b: Binary, hosts: seq<Host>, at: Progress) {
    && AllKept(at.w) && RecordsShipped(env, at.w.saved, at.w.shipped) && RecordsShipped(env, at.mem, at.w.shipped)
    && (forall rp | rp in at.w.backups :: rp.0 <= at.w.run) && Payloads(b) <= at.w.shipped
    && Unsnapshotted(env, b, hosts, at.w)
  }

  lemma {:induction false} SyncKeeps(env: Env, b: Binary, hosts: seq<Host>, force: bool, at: Progress, cut: Cut)
    requires Safe(env, b, hosts, at) && DisjointHosts(env, b, hosts)
    ensures Safe(env, b, [], SyncFrom(env, b, hosts, force, at, cut))
    ensures SyncFrom(env, b, hosts, force, at, cut).w.run == at.w.run
    decreases |hosts|
  {
    hide Claims, HostRunOf, RunCut, AllKept, RecordsShipped, Payloads, Refuses;
    if hosts != [] && !Refuses(env, hosts[0], at.w.disk) {
      var host, run := hosts[0], HostRunOf(env, b, hosts[0], force, at.w.disk, at.mem);
      HostKeeps(env, b, hosts, force, at, cut);
      var w := RunCut(at.w, run.tasks, cut);
      if !(cut.At? && cut.tasks < |run.tasks|) {
        assert DisjointHosts(env, b, hosts[1..]) by {
          TailDisjoint(env, b, hosts);
        }
        var next := Progress(w, State(b.version, at.mem.hosts[host.name := run.record]), at.dirty || run.dirty);
        SyncKeeps(env, b, hosts[1..], force, next, Less(cut, |run.tasks|));
      }
    }
  }

  lemma TailDisjoint(env: Env, b: Binary, hosts: seq<Host>)
    requires DisjointHosts(env, b, hosts) && hosts != []
    ensures DisjointHosts(env, b, hosts[1..])
  {
    hide Claims;
  }

  lemma HostKeeps(env: Env, b: Binary, hosts: seq<Host>, force: bool, at: Progress, cut: Cut)
    requires Safe(env, b, hosts, at) && DisjointHosts(env, b, hosts) && hosts != []
    ensures var run := HostRunOf(env, b, hosts[0], force, at.w.disk, at.mem);
            var w := RunCut(at.w, run.tasks, cut);
            w.run == at.w.run &&
            Safe(env, b, hosts[1..], Progress(w, State(b.version, at.mem.hosts[hosts[0].name := run.record]), at.dirty || run.dirty)) &&
            Safe(env, b, [], at.(w := w))
  {
    hide Claims, HostRunOf, RunCut, AllKept, HostShipped, Payloads, TasksFit, RecordOf;
    var run := HostRunOf(env, b, hosts[0], force, at.w.disk, at.mem);
    HostRecordShipped(env, b, hosts[0], force, at.w.disk, at.mem, at.w.shipped);
    HostTasksFit(env, b, hosts[0], force, at.w, at.mem);
    CutKeeps(at.w, run.tasks, cut);
    TasksClaimed(env, b, hosts[0], force, at.w.disk, at.mem);
    CutBacks(at.w, run.tasks, cut, BackedPaths(run.tasks));
    var w := RunCut(at.w, run.tasks, cut);
    forall i, p | 0 <= i < |hosts[1..]| && p in Claims(env, hosts[1..][i], b) ensures (w.run, p) !in w.backups {
      assert hosts[1..][i] == hosts[i + 1];
      assert p !in Claims(env, hosts[0], b);
    }
  }

  lemma SyncIsSafe(env: Env, b: Binary, hosts: seq<Host>, force: bool, cut: Cut, w: World)
    requires Inv(env, w) && DisjointHosts(env, b, hosts)
    ensures Inv(env, Sync(env, b, hosts, force, cut, w))
  {
    hide Claims, SyncFrom, Payloads, HostShipped;
    var w1 := NewRun(w, b);
    NewRunKeeps(env, b, w);
    SyncKeeps(env, b, hosts, force, Progress(w1, w.saved, false), cut);
  }

  lemma NewRunKeeps(env: Env, b: Binary, w: World)
    requires Inv(env, w)
    ensures Inv(env, NewRun(w, b)) && Payloads(b) <= NewRun(w, b).shipped
    ensures forall rp | rp in NewRun(w, b).backups :: rp.0 < NewRun(w, b).run
  {
    hide Payloads;
    var w1 := NewRun(w, b);
    forall pc | pc in w1.replaced && pc.0 !in w1.merged ensures Kept(w1, pc.0, pc.1) {
      KeptLater(w, w1, pc.0, pc.1);
    }
  }
}
