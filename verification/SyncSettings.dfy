/** Exactly when an event rewrites a settings file, and with what: no run takes a snapshot of one. */
module SyncSettings {
  import Settings
  import opened Sorting
  import opened SyncPlan
  import opened SyncRun
  import opened SyncSafety
  import opened SyncLaws
  import opened SyncFixed

  // ---------------------------------------------------------------- what a cut run has written

  /** How much of the content the task of that number puts is on the disk where the run stops. */
  function Landed(cut: Cut, i: nat, content: string): Option<string> {
    if cut.Whole? || cut.tasks > i then Some(content)
    else if cut.tasks == i && cut.part.Cropped? then Some(Torn(content, cut.part.length))
    else None
  }

  /** The run gets as far as writing in that task. */
  predicate Reaches(w: World, ts: seq<Task>, cut: Cut, i: nat, content: string) {
    i < |ts| && AllDone(w, ts[..i]) && Landed(cut, i, content).Some?
  }

  /** It is the last task of the path the run gets to. */
  ghost predicate LastReached(w: World, ts: seq<Task>, cut: Cut, p: Path, i: nat, content: string) {
    && i < |ts| && ts[i].path == p && Reaches(w, ts, cut, i, content)
    && forall j | i < j < |ts| && ts[j].path == p :: !Reaches(w, ts, cut, j, content)
  }

  lemma CutFirst(w: World, ts: seq<Task>, cut: Cut)
    requires ts != []
    ensures RunCut(w, ts, cut) == if cut.At? && cut.tasks == 0 then DoPart(w, ts[0], cut.part)
                                  else if Fails(w, ts[0]) then w
                                  else RunCut(DoTask(w, ts[0]), ts[1..], Less(cut, 1))
  {
    hide DoTask, DoPart;
    if cut.At? && 0 < cut.tasks < |ts| {
      assert ts[..cut.tasks][0] == ts[0] && ts[..cut.tasks][1..] == ts[1..][..cut.tasks - 1];
    }
  }

  lemma ReachesNext(w: World, ts: seq<Task>, cut: Cut, i: nat, content: string)
    requires ts != [] && (cut.At? ==> cut.tasks > 0)
    ensures Reaches(w, ts, cut, i + 1, content) <==>
            !Fails(w, ts[0]) && Reaches(DoTask(w, ts[0]), ts[1..], Less(cut, 1), i, content)
    ensures Landed(cut, i + 1, content) == Landed(Less(cut, 1), i, content)
  {
    hide DoTask;
    if i + 1 < |ts| {
      assert ts[..i + 1][0] == ts[0] && ts[..i + 1][1..] == ts[1..][..i];
    }
  }

  /** Every task of the path writes that content into a settings file. */
  predicate OnlyMerges(ts: seq<Task>, p: Path, content: string) {
    forall i | 0 <= i < |ts| && ts[i].path == p :: ts[i] == Task(p, false, Some(content), true)
  }

  lemma FirstReached(w: World, ts: seq<Task>, cut: Cut, content: string)
    requires ts != []
    ensures Reaches(w, ts, cut, 0, content) <==> Landed(cut, 0, content).Some?
  {
    assert ts[..0] == [];
  }

  lemma RestMerges(ts: seq<Task>, p: Path, content: string)
    requires OnlyMerges(ts, p, content) && ts != []
    ensures OnlyMerges(ts[1..], p, content)
  {
    assert forall i | 0 <= i < |ts[1..]| :: ts[1..][i] == ts[i + 1];
  }

  /** No task of the path but perhaps the first is reached. */
  ghost predicate NoneReached(w: World, ts: seq<Task>, cut: Cut, p: Path, from: nat, content: string) {
    forall i | from <= i < |ts| && ts[i].path == p :: !Reaches(w, ts, cut, i, content)
  }

  lemma NoneInRest(w: World, ts: seq<Task>, cut: Cut, p: Path, from: nat, content: string)
    requires ts != [] && (cut.At? ==> cut.tasks > 0) && NoneReached(w, ts, cut, p, from + 1, content) && !Fails(w, ts[0])
    ensures NoneReached(DoTask(w, ts[0]), ts[1..], Less(cut, 1), p, from, content)
  {
    hide DoTask, Reaches;
    var w1, rest, less := DoTask(w, ts[0]), ts[1..], Less(cut, 1);
    forall j | from <= j < |rest| && rest[j].path == p ensures !Reaches(w1, rest, less, j, content) {
      assert rest[j] == ts[j + 1];
      ReachesNext(w, ts, cut, j, content);
    }
  }

  /** A path that only merges of one content reach holds, after a cut run, what the last merge the run got to put
      there, and what it held before if the run got to none. */
  lemma {:induction false} MergesLand(w: World, ts: seq<Task>, cut: Cut, p: Path, content: string)
    requires OnlyMerges(ts, p, content)
    ensures NoneReached(w, ts, cut, p, 0, content) ==> SameAt(w.disk, RunCut(w, ts, cut).disk, p)
    ensures forall i: nat | LastReached(w, ts, cut, p, i, content) ::
              Read(RunCut(w, ts, cut).disk, p) == Landed(cut, i, content)
    decreases |ts|
  {
    hide RunCut, Reaches, AllDone, RunTasks;
    if ts == [] {
      NothingRun(w, cut);
      NothingReached(w, cut, content);
    } else {
      CutFirst(w, ts, cut);
      FirstReached(w, ts, cut, content);
      RestMerges(ts, p, content);
      if cut.At? && cut.tasks == 0 {
        NoLater(w, ts, cut, content);
      } else if Fails(w, ts[0]) {
        FailsFirst(w, ts, cut, content);
      } else {
        var w1, rest, less := DoTask(w, ts[0]), ts[1..], Less(cut, 1);
        MergesLand(w1, rest, less, p, content);
        if NoneReached(w, ts, cut, p, 0, content) {
          NoneInRest(w, ts, cut, p, 0, content);
        }
        forall i: nat | LastReached(w, ts, cut, p, i, content) ensures Read(RunCut(w, ts, cut).disk, p) == Landed(cut, i, content) {
          NoneInRest(w, ts, cut, p, i, content);
          if i > 0 {
            ReachesNext(w, ts, cut, i - 1, content);
            assert rest[i - 1] == ts[i];
            assert LastReached(w1, rest, less, p, i - 1, content);
          }
        }
      }
    }
  }

  lemma NothingRun(w: World, cut: Cut)
    ensures RunCut(w, [], cut) == w
  {}

  lemma NothingReached(w: World, cut: Cut, content: string)
    ensures forall i: nat :: !Reaches(w, [], cut, i, content)
  {}

  lemma NoLater(w: World, ts: seq<Task>, cut: Cut, content: string)
    requires cut.At? && cut.tasks == 0
    ensures forall i: nat | i > 0 :: !Reaches(w, ts, cut, i, content)
  {}

  lemma FailsFirst(w: World, ts: seq<Task>, cut: Cut, content: string)
    requires ts != [] && Fails(w, ts[0]) && (cut.At? ==> cut.tasks > 0)
    ensures forall i: nat | i > 0 :: !Reaches(w, ts, cut, i, content)
  {
    forall i: nat | i > 0 ensures !Reaches(w, ts, cut, i, content) {
      ReachesNext(w, ts, cut, i - 1, content);
    }
  }

  lemma {:induction false} LastOne(w: World, ts: seq<Task>, cut: Cut, p: Path, from: nat, content: string) returns (i: nat)
    requires !NoneReached(w, ts, cut, p, from, content)
    ensures LastReached(w, ts, cut, p, i, content)
    decreases |ts| - from
  {
    hide Reaches;
    i :| from <= i < |ts| && ts[i].path == p && Reaches(w, ts, cut, i, content);
    if !NoneReached(w, ts, cut, p, i + 1, content) {
      i := LastOne(w, ts, cut, p, i + 1, content);
    }
  }

  // ---------------------------------------------------------------- an uninstall

  /** The uninstall is not refused, the path is that of the settings file it unwires, the file has a gate, and that task
      of it is the last to write there, something else than what was there. */
  ghost predicate Unwires(env: Env, b: Binary, orphans: bool, force: bool, dir: string, cut: Cut, w: World, p: Path, i: nat) {
    && !Stops(env, b, w.disk, w.saved, orphans, force, dir) && UnwiredPath(w.saved, dir) == Some(p)
    && Loaded(env, Read(w.disk, p)).Some?
    && var text := Unwired(env, Read(w.disk, p));
       && text.Some? && LastReached(w.(run := w.run + 1), AllTasks(env, b, w, orphans, force, dir), cut, p, i, text.value)
       && Landed(cut, i, text.value) != Read(w.disk, p)
  }

  lemma {:induction false} MergesOfUninstall(env: Env, b: Binary, disk: Disk, s: State, names: seq<string>, orphans: bool, force: bool, dir: string)
    requires forall i | 0 <= i < |names| :: names[i] in s.hosts
    ensures forall t | t in UninstallTasks(env, b, disk, s, names, orphans, force, dir) :: t.merge ==> t in UnwireTasks(env, disk, s, dir)
  {
    hide RemovalTasks, UnwireTasks;
    if names != [] {
      var name := names[|names| - 1];
      MergesOfUninstall(env, b, disk, s, names[..|names| - 1], orphans, force, dir);
      SortedSetIs(s.hosts[name].assets.Keys);
      RemovalsFit(env, b, disk, s, name, SortedSet(s.hosts[name].assets.Keys), orphans, force, dir);
    }
  }

  /** Of a path that is not recorded, the only tasks an uninstall has are those of the one settings file. */
  lemma TasksOfSettings(env: Env, b: Binary, w: World, orphans: bool, force: bool, dir: string, p: Path)
    requires !Recorded(w.saved, p)
    ensures var ts := AllTasks(env, b, w, orphans, force, dir); forall i | 0 <= i < |ts| && ts[i].path == p ::
              UnwiredPath(w.saved, dir) == Some(p) && ts[i] in UnwireTasks(env, w.disk, w.saved, dir)
  {
    hide UninstallTasks, UnwiredPath, UnwireTasks;
    var ts := AllTasks(env, b, w, orphans, force, dir);
    SortedSetIs(w.saved.hosts.Keys);
    AllRemovalsFit(env, b, w.disk, w.saved, SortedSet(w.saved.hosts.Keys), orphans, force, dir);
    MergesOfUninstall(env, b, w.disk, w.saved, SortedSet(w.saved.hosts.Keys), orphans, force, dir);
    forall i | 0 <= i < |ts| && ts[i].path == p
      ensures UnwiredPath(w.saved, dir) == Some(p) && ts[i] in UnwireTasks(env, w.disk, w.saved, dir)
    {
      assert ts[i] in ts;
    }
  }

  lemma UnwireTaskIs(env: Env, disk: Disk, s: State, dir: string, t: Task)
    requires t in UnwireTasks(env, disk, s, dir)
    ensures UnwiredPath(s, dir) == Some(t.path) && Loaded(env, Read(disk, t.path)).Some? && Unwired(env, Read(disk, t.path)).Some?
    ensures t == Task(t.path, false, Some(Unwired(env, Read(disk, t.path)).value), true)
  {
    hide UnwiredPath;
  }

  /** An uninstall changes a file that is not recorded exactly when it unwires it, and never with a snapshot. */
  lemma UninstallRewritesIff(env: Env, b: Binary, orphans: bool, force: bool, dir: string, cut: Cut, w: World, p: Path)
    requires !Recorded(w.saved, p)
    ensures var w' := Uninstall(env, b, orphans, force, dir, cut, w);
            && (!SameAt(w.disk, w'.disk, p) <==> exists i: nat :: Unwires(env, b, orphans, force, dir, cut, w, p, i))
            && (forall i: nat | Unwires(env, b, orphans, force, dir, cut, w, p, i) ::
                  Read(w'.disk, p) == Landed(cut, i, Unwired(env, Read(w.disk, p)).value))
            && forall r: nat :: (r, p) in w'.backups ==> (r, p) in w.backups
  {
    hide AllTasks, Stops, RunCut, AllDone, Cleaned, UnwiredPath, Reaches, LastReached, UnwireTasks, Unwired, Loaded;
    if !Stops(env, b, w.disk, w.saved, orphans, force, dir) {
      var start, ts := w.(run := w.run + 1), AllTasks(env, b, w, orphans, force, dir);
      TasksOfSettings(env, b, w, orphans, force, dir, p);
      if k :| 0 <= k < |ts| && ts[k].path == p {
        UnwireTaskIs(env, w.disk, w.saved, dir, ts[k]);
        var content := Unwired(env, Read(w.disk, p)).value;
        forall i | 0 <= i < |ts| && ts[i].path == p ensures ts[i] == Task(p, false, Some(content), true) {
          UnwireTaskIs(env, w.disk, w.saved, dir, ts[i]);
        }
        MergesLand(start, ts, cut, p, content);
        if !NoneReached(start, ts, cut, p, 0, content) {
          var i := LastOne(start, ts, cut, p, 0, content);
          if Landed(cut, i, content) != Read(w.disk, p) {
            assert Unwires(env, b, orphans, force, dir, cut, w, p, i);
          }
        } else {
          NoLast(start, ts, cut, p, content);
        }
        CutBacks(start, ts, cut, BackedPaths(ts));
      } else {
        NoTaskNoLast(start, ts, cut, p);
        CutReaches(start, ts, cut, PathsOf(ts));
        CutBacks(start, ts, cut, BackedPaths(ts));
      }
    }
  }

  lemma NoLast(w: World, ts: seq<Task>, cut: Cut, p: Path, content: string)
    requires NoneReached(w, ts, cut, p, 0, content)
    ensures forall i: nat :: !LastReached(w, ts, cut, p, i, content)
  {
    hide Reaches;
  }

  lemma NoTaskNoLast(w: World, ts: seq<Task>, cut: Cut, p: Path)
    requires forall i | 0 <= i < |ts| :: ts[i].path != p
    ensures forall i: nat, content :: !LastReached(w, ts, cut, p, i, content)
  {
    hide Reaches;
  }

  // ---------------------------------------------------------------- a sync

  /** How many tasks the hosts before that one have. */
  function TasksBefore(env: Env, b: Binary, hosts: seq<Host>, force: bool, at: Progress, k: nat): nat
    requires k <= |hosts|
    decreases k
  {
    if k == 0 then 0
    else
      var run := HostRunOf(env, b, hosts[0], force, at.w.disk, at.mem);
      |run.tasks| + TasksBefore(env, b, hosts[1..], force, Next(at, run, hosts[0], b), k - 1)
  }

  function Next(at: Progress, run: HostRun, host: Host, b: Binary): Progress {
    Progress(RunTasks(at.w, run.tasks), State(b.version, at.mem.hosts[host.name := run.record]), at.dirty || run.dirty)
  }

  /** What a sync, cut short or not, leaves in the settings of a host of which so many tasks come before. */
  function SettingsLeft(env: Env, b: Binary, host: Host, hs: HostState, cut: Cut, n: nat, text: Option<string>): Option<string> {
    if Loaded(env, text).None? || !NeedsHook(env, HookComponent(host, b), hs.hook) then text
    else
      var out := Wired(env, b.command, text);
      if text != Some(out) && Landed(cut, n, out).Some? then Landed(cut, n, out) else text
  }

  lemma {:induction false} SettingsAfterSync(env: Env, b: Binary, hosts: seq<Host>, force: bool, at: Progress, cut: Cut, k: nat)
    requires k < |hosts| && hosts[k].name == CLAUDE && DistinctNames(hosts)
    requires SettingsPath(hosts[k].configDir) !in ClaimedBy(env, b, hosts)
    ensures var p := SettingsPath(hosts[k].configDir);
            Read(SyncFrom(env, b, hosts, force, at, cut).w.disk, p) ==
            SettingsLeft(env, b, hosts[k], RecordOf(at.mem, hosts[k]), cut, TasksBefore(env, b, hosts, force, at, k), Read(at.w.disk, p))
    decreases k
  {
    hide Claims, HostRunOf, RunCut, RunTasks, Refuses, SettingsLeft, RecordOf;
    var p := SettingsPath(hosts[k].configDir);
    var run := HostRunOf(env, b, hosts[0], force, at.w.disk, at.mem);
    if k == 0 {
      WiredHost(env, b, hosts[0], force, at, cut);
      if !Refuses(env, hosts[0], at.w.disk) && !(cut.At? && cut.tasks < |run.tasks|) {
        var mem := State(b.version, at.mem.hosts[hosts[0].name := run.record]);
        OthersLeave(env, b, hosts, force, Progress(RunCut(at.w, run.tasks, cut), mem, at.dirty || run.dirty), Less(cut, |run.tasks|));
      }
    } else {
      assert hosts[0].name != hosts[k].name;
      NotRefused(env, hosts[0], at.w.disk);
      EarlierHost(env, b, hosts[0], force, at, cut, p);
      if cut.At? && cut.tasks < |run.tasks| {
        NotLanded(env, b, hosts[k], RecordOf(at.mem, hosts[k]), cut, TasksBefore(env, b, hosts, force, at, k), Read(at.w.disk, p));
      } else {
        var next := Next(at, run, hosts[0], b);
        WholeCut(at.w, run.tasks, cut);
        LessClaimed(env, b, hosts, p);
        LessDistinct(hosts);
        assert hosts[1..][k - 1] == hosts[k];
        SettingsAfterSync(env, b, hosts[1..], force, next, Less(cut, |run.tasks|), k - 1);
        SameRecordOf(at.mem, hosts[k], hosts[0].name, run.record, b.version);
        LessLeft(env, b, hosts[k], RecordOf(at.mem, hosts[k]), cut, |run.tasks|,
                 TasksBefore(env, b, hosts[1..], force, next, k - 1), Read(at.w.disk, p));
      }
    }
  }

  /** The wired host's own sync. */
  lemma WiredHost(env: Env, b: Binary, host: Host, force: bool, at: Progress, cut: Cut)
    requires host.name == CLAUDE && SettingsPath(host.configDir) !in Claims(env, host, b)
    ensures var run, p := HostRunOf(env, b, host, force, at.w.disk, at.mem), SettingsPath(host.configDir);
            var left := SettingsLeft(env, b, host, RecordOf(at.mem, host), cut, 0, Read(at.w.disk, p));
            if Refuses(env, host, at.w.disk) then left == Read(at.w.disk, p) else Read(RunCut(at.w, run.tasks, cut).disk, p) == left
  {
    hide Claims, RunCut, RecordOf, HookComponent, NeedsHook, TasksOf, HostPlan, RecordPlan, AnyWrite, Adopted, Loaded, Wired, Reaches;
    var hs, p := RecordOf(at.mem, host), SettingsPath(host.configDir);
    var text := Read(at.w.disk, p);
    var hook, assets := HostHookTasks(env, b, host, hs, at.w.disk), TasksOf(Claims(env, host, b), HostPlan(env, host, b, hs, at.w.disk), force);
    TasksFromPlan(Claims(env, host, b), HostPlan(env, host, b, hs, at.w.disk), force);
    var ts := hook + assets;
    forall i | |hook| <= i < |ts| ensures ts[i].path != p {
      assert ts[i] == assets[i - |hook|] && assets[i - |hook|].path in PathsOf(assets);
    }
    if hook == [] {
      CutReaches(at.w, ts, cut, PathsOf(ts));
    } else {
      var content := Wired(env, b.command, text);
      MergesLand(at.w, ts, cut, p, content);
      FirstReached(at.w, ts, cut, content);
      if Landed(cut, 0, content).Some? {
        assert LastReached(at.w, ts, cut, p, 0, content);
      }
    }
  }

  lemma NotRefused(env: Env, host: Host, disk: Disk)
    requires host.name != CLAUDE
    ensures !Refuses(env, host, disk)
  {}

  /** A host that is not the wired one leaves a path it is not claimed. */
  lemma EarlierHost(env: Env, b: Binary, host: Host, force: bool, at: Progress, cut: Cut, p: Path)
    requires host.name != CLAUDE && p !in Claims(env, host, b)
    ensures SameAt(at.w.disk, RunCut(at.w, HostRunOf(env, b, host, force, at.w.disk, at.mem).tasks, cut).disk, p)
  {
    hide Claims, HostRunOf, RunCut;
    var ts := HostRunOf(env, b, host, force, at.w.disk, at.mem).tasks;
    TasksClaimed(env, b, host, force, at.w.disk, at.mem);
    CutReaches(at.w, ts, cut, PathsOf(ts));
  }

  /** And so do the hosts after the wired one. */
  lemma OthersLeave(env: Env, b: Binary, hosts: seq<Host>, force: bool, at: Progress, cut: Cut)
    requires hosts != [] && hosts[0].name == CLAUDE && DistinctNames(hosts)
    requires SettingsPath(hosts[0].configDir) !in ClaimedBy(env, b, hosts)
    ensures SameAt(at.w.disk, SyncFrom(env, b, hosts[1..], force, at, cut).w.disk, SettingsPath(hosts[0].configDir))
  {
    hide Claims, SyncFrom;
    var p, rest := SettingsPath(hosts[0].configDir), hosts[1..];
    LessClaimed(env, b, hosts, p);
    forall i | 0 <= i < |rest| ensures rest[i].name != CLAUDE {
      assert rest[i] == hosts[i + 1];
    }
    SyncReaches(env, b, rest, force, at, cut, ClaimedBy(env, b, rest) + SettingsFiles(rest));
  }

  lemma LessClaimed(env: Env, b: Binary, hosts: seq<Host>, p: Path)
    requires hosts != [] && p !in ClaimedBy(env, b, hosts)
    ensures p !in ClaimedBy(env, b, hosts[1..]) && p !in Claims(env, hosts[0], b)
  {
    hide Claims;
    forall i | 0 <= i < |hosts[1..]| ensures p !in Claims(env, hosts[1..][i], b) {
      assert hosts[i + 1] == hosts[1..][i];
    }
  }

  lemma LessDistinct(hosts: seq<Host>)
    requires hosts != [] && DistinctNames(hosts)
    ensures DistinctNames(hosts[1..])
  {}

  lemma WholeCut(w: World, ts: seq<Task>, cut: Cut)
    requires !(cut.At? && cut.tasks < |ts|)
    ensures RunCut(w, ts, cut) == RunTasks(w, ts)
  {}

  lemma SameRecordOf(mem: State, host: Host, name: string, record: HostState, version: string)
    requires host.name != name
    ensures RecordOf(State(version, mem.hosts[name := record]), host) == RecordOf(mem, host)
  {}

  lemma NotLanded(env: Env, b: Binary, host: Host, hs: HostState, cut: Cut, n: nat, text: Option<string>)
    requires cut.At? && cut.tasks < n
    ensures SettingsLeft(env, b, host, hs, cut, n, text) == text
  {
    hide NeedsHook, HookComponent, Loaded, Wired;
  }

  lemma LessLeft(env: Env, b: Binary, host: Host, hs: HostState, cut: Cut, m: nat, n: nat, text: Option<string>)
    requires !(cut.At? && cut.tasks < m)
    ensures SettingsLeft(env, b, host, hs, Less(cut, m), n, text) == SettingsLeft(env, b, host, hs, cut, m + n, text)
  {
    hide NeedsHook, HookComponent, Loaded, Wired;
  }

  lemma {:induction false} SyncBacks(env: Env, b: Binary, hosts: seq<Host>, force: bool, at: Progress, cut: Cut, paths: set<Path>)
    requires forall i, p | 0 <= i < |hosts| && p in Claims(env, hosts[i], b) :: p in paths
    ensures BacksAt(at.w, SyncFrom(env, b, hosts, force, at, cut).w, paths)
    decreases |hosts|
  {
    hide Claims, HostRunOf, RunCut, Refuses;
    if hosts != [] && !Refuses(env, hosts[0], at.w.disk) {
      var run := HostRunOf(env, b, hosts[0], force, at.w.disk, at.mem);
      TasksClaimed(env, b, hosts[0], force, at.w.disk, at.mem);
      CutBacks(at.w, run.tasks, cut, paths);
      if !(cut.At? && cut.tasks < |run.tasks|) {
        var w := RunCut(at.w, run.tasks, cut);
        var next := Progress(w, State(b.version, at.mem.hosts[hosts[0].name := run.record]), at.dirty || run.dirty);
        forall i, p | 0 <= i < |hosts[1..]| && p in Claims(env, hosts[1..][i], b) ensures p in paths {
          assert hosts[1..][i] == hosts[i + 1];
        }
        SyncBacks(env, b, hosts[1..], force, next, Less(cut, |run.tasks|), paths);
      }
    }
  }

  /** The path is the settings file of the wired host, the hook is needed, the file can be read and is not wired as it
      should be, and the run gets as far as putting something else there. */
  ghost predicate Rewires(env: Env, b: Binary, hosts: seq<Host>, force: bool, cut: Cut, w: World, p: Path, k: nat) {
    && k < |hosts| && hosts[k].name == CLAUDE && p == SettingsPath(hosts[k].configDir)
    && NeedsHook(env, HookComponent(hosts[k], b), RecordOf(w.saved, hosts[k]).hook)
    && Loaded(env, Read(w.disk, p)).Some?
    && var out, n := Wired(env, b.command, Read(w.disk, p)), TasksBefore(env, b, hosts, force, Progress(NewRun(w, b), w.saved, false), k);
       Read(w.disk, p) != Some(out) && Landed(cut, n, out).Some? && Landed(cut, n, out) != Read(w.disk, p)
  }

  /** A sync changes a file that no host is claimed exactly when it wires it, and never with a snapshot. */
  lemma SyncRewritesIff(env: Env, b: Binary, hosts: seq<Host>, force: bool, cut: Cut, w: World, p: Path)
    requires p !in ClaimedBy(env, b, hosts) && DistinctNames(hosts)
    ensures var w' := Sync(env, b, hosts, force, cut, w);
            && (!SameAt(w.disk, w'.disk, p) <==> exists k: nat :: Rewires(env, b, hosts, force, cut, w, p, k))
            && (forall k: nat | Rewires(env, b, hosts, force, cut, w, p, k) ::
                  Read(w'.disk, p) == Landed(cut, TasksBefore(env, b, hosts, force, Progress(NewRun(w, b), w.saved, false), k),
                                             Wired(env, b.command, Read(w.disk, p))))
            && forall r: nat :: (r, p) in w'.backups ==> (r, p) in w.backups
  {
    hide Claims, SyncFrom, TasksBefore, Wired, Loaded, NeedsHook, HookComponent, RecordOf, Payloads;
    var start := Progress(NewRun(w, b), w.saved, false);
    SyncBacks(env, b, hosts, force, start, cut, ClaimedBy(env, b, hosts));
    if k :| 0 <= k < |hosts| && hosts[k].name == CLAUDE && p == SettingsPath(hosts[k].configDir) {
      SettingsAfterSync(env, b, hosts, force, start, cut, k);
      forall j: nat | Rewires(env, b, hosts, force, cut, w, p, j) ensures j == k {}
      assert !SameAt(w.disk, Sync(env, b, hosts, force, cut, w).disk, p) <==> Rewires(env, b, hosts, force, cut, w, p, k);
    } else {
      SyncForeign(env, b, hosts, force, cut, w, p);
    }
  }

  /** A whole sync is refused exactly when the wired host's settings are there and are no JSON object; nothing is saved
      then. */
  lemma RefusedIff(env: Env, b: Binary, hosts: seq<Host>, force: bool, w: World)
    requires DistinctNames(hosts) && SettingsApart(env, b, hosts)
    ensures SyncFrom(env, b, hosts, force, Progress(NewRun(w, b), w.saved, false), Whole).refused <==> !Readable(env, hosts, w.disk)
    ensures !Readable(env, hosts, w.disk) ==> Sync(env, b, hosts, force, Whole, w).saved == w.saved
  {
    hide Claims, SyncFrom, Refuses, DistinctNames, SettingsApart, Payloads;
    var start := Progress(NewRun(w, b), w.saved, false);
    RefusedFrom(env, b, hosts, force, start);
    SavedKept(env, b, hosts, force, start);
  }

  lemma {:induction false} RefusedFrom(env: Env, b: Binary, hosts: seq<Host>, force: bool, at: Progress)
    requires DistinctNames(hosts) && SettingsApart(env, b, hosts) && !at.refused
    ensures SyncFrom(env, b, hosts, force, at, Whole).refused <==> !Readable(env, hosts, at.w.disk)
    decreases |hosts|
  {
    hide Claims, HostRunOf, RunTasks, Loaded;
    if hosts != [] && !Refuses(env, hosts[0], at.w.disk) {
      var run, rest := HostRunOf(env, b, hosts[0], force, at.w.disk, at.mem), hosts[1..];
      var next := Next(at, run, hosts[0], b);
      forall i | 0 <= i < |rest| ensures rest[i] == hosts[i + 1] && (Refuses(env, rest[i], next.w.disk) <==> Refuses(env, rest[i], at.w.disk)) {
        if rest[i].name == CLAUDE {
          EarlierHost(env, b, hosts[0], force, at, Whole, SettingsPath(rest[i].configDir));
        }
      }
      RefusedFrom(env, b, rest, force, next);
    }
  }

  // ---------------------------------------------------------------- nothing else is written so

  lemma {:induction false} TasksMerge(w: World, ts: seq<Task>, paths: set<Path>)
    requires forall i | 0 <= i < |ts| && ts[i].merge :: ts[i].path in paths
    ensures RunTasks(w, ts).merged <= w.merged + paths
    decreases ts
  {
    if ts != [] && !Fails(w, ts[0]) {
      forall i | 0 <= i < |ts[1..]| && ts[1..][i].merge ensures ts[1..][i].path in paths {
        assert ts[1..][i] == ts[i + 1];
      }
      TasksMerge(DoTask(w, ts[0]), ts[1..], paths);
    }
  }

  lemma CutMerges(w: World, ts: seq<Task>, cut: Cut, paths: set<Path>)
    requires forall i | 0 <= i < |ts| && ts[i].merge :: ts[i].path in paths
    ensures RunCut(w, ts, cut).merged <= w.merged + paths
  {
    hide RunTasks, AllDone;
    TasksMerge(w, ts, paths);
    if cut.At? && cut.tasks < |ts| {
      TasksMerge(w, ts[..cut.tasks], paths);
    }
  }

  lemma {:induction false} SyncMerges(env: Env, b: Binary, hosts: seq<Host>, force: bool, at: Progress, cut: Cut, paths: set<Path>)
    requires SettingsFiles(hosts) <= paths
    ensures SyncFrom(env, b, hosts, force, at, cut).w.merged <= at.w.merged + paths
    decreases |hosts|
  {
    hide Claims, HostRunOf, RunCut, Refuses;
    if hosts != [] && !Refuses(env, hosts[0], at.w.disk) {
      var run := HostRunOf(env, b, hosts[0], force, at.w.disk, at.mem);
      TasksClaimed(env, b, hosts[0], force, at.w.disk, at.mem);
      CutMerges(at.w, run.tasks, cut, paths);
      if !(cut.At? && cut.tasks < |run.tasks|) {
        var w := RunCut(at.w, run.tasks, cut);
        FewerSettings(hosts);
        SyncMerges(env, b, hosts[1..], force, Progress(w, State(b.version, at.mem.hosts[hosts[0].name := run.record]), at.dirty || run.dirty),
                   Less(cut, |run.tasks|), paths);
      }
    }
  }

  /** An event writes no settings file but those of the hook. */
  lemma MergedAreSettings(env: Env, e: Event, w: World)
    ensures Happen(env, e, w).merged <= w.merged + SettingsOf(e, w)
  {
    hide SyncFrom, RunCut, AllTasks, Stops, Cleaned, AllDone, UninstallTasks, UnwiredPath, SettingsFiles;
    match e
    case Edit(_, _) =>
    case Syncing(b, hosts, force, cut) =>
      SyncMerges(env, b, hosts, force, Progress(NewRun(w, b), w.saved, false), cut, SettingsFiles(hosts));
    case Uninstalling(b, orphans, force, dir, cut) =>
      var start, ts := w.(run := w.run + 1), AllTasks(env, b, w, orphans, force, dir);
      MergeTasks(env, b, w, orphans, force, dir);
      CutMerges(start, ts, cut, SettingsOf(e, w));
  }

  lemma MergeTasks(env: Env, b: Binary, w: World, orphans: bool, force: bool, dir: string)
    ensures var ts := AllTasks(env, b, w, orphans, force, dir);
            forall i | 0 <= i < |ts| && ts[i].merge :: UnwiredPath(w.saved, dir) == Some(ts[i].path)
  {
    hide UninstallTasks, UnwiredPath;
    var ts := AllTasks(env, b, w, orphans, force, dir);
    SortedSetIs(w.saved.hosts.Keys);
    AllRemovalsFit(env, b, w.disk, w.saved, SortedSet(w.saved.hosts.Keys), orphans, force, dir);
    forall i | 0 <= i < |ts| && ts[i].merge ensures UnwiredPath(w.saved, dir) == Some(ts[i].path) {
      assert ts[i] in ts;
    }
  }

  // ---------------------------------------------------------------- an input on which content is lost

  const HOST := Host(CLAUDE, "c", "c/skills")

  const GATE := "\"tpp\" gate"

  function SomeEnv(): Env {
    Env(c => c, c => false, c => c == GATE, c => Some(map[]), s => "wired")
  }

  function SomeBinary(): Binary {
    Binary("1", [Component("stop-gate", true, {CLAUDE})], map[], GATE)
  }

  /** The settings of a user who never had the hook are gone after a first sync, and nothing holds what they were. */
  lemma SettingsAreLost()
    ensures var w := Fresh(map["c/settings.json" := "{}"]);
            var w' := Sync(SomeEnv(), SomeBinary(), [HOST], false, Whole, w);
            && Read(w'.disk, "c/settings.json") == Some("wired") && ("c/settings.json", "{}") in w'.replaced
            && !Kept(w', "c/settings.json", "{}")
  {
    hide Sync, Claims, Wired, HookComponent, NeedsHook, TasksBefore;
    var env, b, hosts, w := SomeEnv(), SomeBinary(), [HOST], Fresh(map["c/settings.json" := "{}"]);
    OnlyHook();
    SyncRewritesIff(env, b, hosts, false, Whole, w, "c/settings.json");
    WiredText();
    assert Rewires(env, b, hosts, false, Whole, w, "c/settings.json", 0);
    NothingUnseen(env, Syncing(b, hosts, false, Whole), w);
    NothingShipped();
  }

  lemma OneSorted(c: Component)
    ensures SortBy(IdOf, [c]) == [c]
  {
    hide Leq;
    assert [c][1..] == [];
  }

  lemma OnlyHook()
    ensures Claims(SomeEnv(), HOST, SomeBinary()) == map[] && HookComponent(HOST, SomeBinary()) == "stop-gate"
    ensures ClaimedBy(SomeEnv(), SomeBinary(), [HOST]) == {} && NeedsHook(SomeEnv(), HookComponent(HOST, SomeBinary()), None)
    ensures SettingsPath(HOST.configDir) == "c/settings.json"
  {
    hide SortBy, ClaimKey, Leq;
    var c := Component("stop-gate", true, {CLAUDE});
    OneSorted(c);
    assert [c][..0] == [] && AppliesTo(HOST.name, c);
    assert Candidates(HOST, [c], map[]) == [];
    assert FirstHook(HOST, []) == "";
    assert FirstHook(HOST, [c]) == "stop-gate";
  }

  lemma WiredText()
    ensures Wired(SomeEnv(), SomeBinary().command, Some("{}")) == "wired"
  {
    hide Settings.Wire;
  }

  lemma {:induction false} TasksShip(w: World, ts: seq<Task>)
    ensures RunTasks(w, ts).shipped == w.shipped
    decreases ts
  {
    if ts != [] && !Fails(w, ts[0]) {
      TasksShip(DoTask(w, ts[0]), ts[1..]);
    }
  }

  lemma {:induction false} SyncShips(env: Env, b: Binary, hosts: seq<Host>, force: bool, at: Progress)
    ensures SyncFrom(env, b, hosts, force, at, Whole).w.shipped == at.w.shipped
    decreases |hosts|
  {
    hide HostRunOf, RunTasks, Refuses;
    if hosts != [] && !Refuses(env, hosts[0], at.w.disk) {
      var run := HostRunOf(env, b, hosts[0], force, at.w.disk, at.mem);
      TasksShip(at.w, run.tasks);
      SyncShips(env, b, hosts[1..], force, Next(at, run, hosts[0], b));
    }
  }

  lemma NothingShipped()
    ensures var w' := Sync(SomeEnv(), SomeBinary(), [HOST], false, Whole, Fresh(map["c/settings.json" := "{}"]));
            w'.shipped == {}
  {
    hide SyncFrom;
    var w := Fresh(map["c/settings.json" := "{}"]);
    SyncShips(SomeEnv(), SomeBinary(), [HOST], false, Progress(NewRun(w, SomeBinary()), w.saved, false));
  }
}
