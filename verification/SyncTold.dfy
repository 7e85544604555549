/** What a plan and an uninstall decide about a path, told by the manifest's claims, the disk and the record alone. */
module SyncTold {
  import opened Text
  import opened Sorting
  import opened SyncPlan
  import opened SyncPlanLaws
  import opened SyncRun
  import opened SyncSafety
  import opened SyncClaims
  import opened SyncUndo

  // ---------------------------------------------------------------- a plan

  /** The class of a path: absent, right, never recorded, as recorded, changed since; no longer shipped; somebody else's. */
  ghost predicate Told(env: Env, host: Host, b: Binary, hs: HostState, disk: Disk, p: Path, class_: Class) {
    var bound, there := p in Claims(env, host, b), p in disk;
    var right := bound && there && env.hash(disk[p]) == env.hash(Claims(env, host, b)[p].file.content);
    var changed := p in hs.assets && there && hs.assets[p].digest != env.hash(disk[p]);
    match class_
    case Create => bound && !there
    case Ok => bound && there && right
    case Update => bound && there && !right && !changed
    case Modified => bound && there && !right && changed
    case Orphan => !bound && p in hs.assets
    case Foreign => !bound && p !in hs.assets && there && host.skillsDir + "/" <= p
    case Rewire => false
  }

  /** The component of an action: the one the path is claimed for, or the first directory of a recorded path below the
      managed one if that is an installed component. */
  ghost predicate ComponentTold(env: Env, host: Host, b: Binary, hs: HostState, p: Path, component: string) {
    if p in Claims(env, host, b) then component == Claims(env, host, b)[p].component
    else if p in hs.assets && exists c :: InstalledBelow(host, hs, p, c) then InstalledBelow(host, hs, p, component)
    else component == ""
  }

  ghost predicate InstalledBelow(host: Host, hs: HostState, p: Path, c: string) {
    && c in hs.components && '/' !in c
    && (p == host.skillsDir + "/" + c || host.skillsDir + "/" + c + "/" <= p)
  }

  lemma ActionIsTold(env: Env, host: Host, b: Binary, hs: HostState, disk: Disk, p: Path)
    requires p in PlannedPaths(host, Claims(env, host, b), hs, disk)
    ensures Told(env, host, b, hs, disk, p, ActionAt(env, host, Claims(env, host, b), hs, disk, p).class_)
    ensures ComponentTold(env, host, b, hs, p, ActionAt(env, host, Claims(env, host, b), hs, disk, p).component)
  {
    hide Claims, InstalledBelow, OrphanComponent;
    ClaimIs(env, host, b, p);
    OrphanIs(host, hs, p);
  }

  lemma OrphanIs(host: Host, hs: HostState, p: Path)
    ensures var c := OrphanComponent(host, hs, p);
            if exists d :: InstalledBelow(host, hs, p, d) then InstalledBelow(host, hs, p, c) else c == ""
  {
    var top := host.skillsDir + "/";
    if Under(host.skillsDir, p) {
      var rel := p[|top|..];
      assert p == top + rel;
      forall d ensures InstalledBelow(host, hs, p, d) <==> d in hs.components && '/' !in d && (rel == d || d + "/" <= rel) {
        BelowIs(host, hs, p, rel, d);
      }
      FirstElement(rel);
      forall d | rel == d || d + "/" <= rel ensures '/' !in d ==> d == Element(rel) {
        ElementOnce(rel, d);
      }
    } else {
      forall d ensures !InstalledBelow(host, hs, p, d) {
        if InstalledBelow(host, hs, p, d) {
          BelowIsUnder(host, p, d);
        }
      }
    }
  }

  /** The text before the first slash. */
  function Element(rel: string): string {
    if Index(rel, "/") < 0 then rel else rel[..Index(rel, "/")]
  }

  lemma FirstElement(rel: string)
    ensures '/' !in Element(rel) && (rel == Element(rel) || Element(rel) + "/" <= rel)
  {
    var end, e := Index(rel, "/"), Element(rel);
    forall i | 0 <= i < |e| ensures e[i] != '/' {
      assert !OccursAt(rel, "/", i);
      assert rel[i..i + 1] == [rel[i]];
    }
    if end >= 0 {
      assert e + "/" == rel[..end + 1] by { assert rel[end..end + 1] == "/"; }
    }
  }

  lemma ElementOnce(rel: string, d: string)
    requires rel == d || d + "/" <= rel
    ensures '/' !in d ==> d == Element(rel)
  {
    if '/' !in d {
      forall j: nat | j < |d| ensures !OccursAt(rel, "/", j) {
        assert rel[j] == d[j];
        if OccursAt(rel, "/", j) {
          OccursHead(rel, "/", j);
        }
      }
      if d + "/" <= rel {
        assert (d + "/")[|d|] == '/' == rel[|d|] && rel[|d|..|d| + 1] == "/";
        IndexIs(rel, "/", |d|);
        assert (d + "/")[..|d|] == d == rel[..|d|];
      } else {
        assert forall j: nat :: !OccursAt(rel, "/", j);
      }
    }
  }

  lemma BelowIs(host: Host, hs: HostState, p: Path, rel: string, d: string)
    requires p == host.skillsDir + "/" + rel
    ensures InstalledBelow(host, hs, p, d) <==> d in hs.components && '/' !in d && (rel == d || d + "/" <= rel)
  {
    var top := host.skillsDir + "/";
    assert p[|top|..] == rel && (top + d)[|top|..] == d;
    assert top + d + "/" == top + (d + "/");
    assert top + (d + "/") <= p <==> d + "/" <= rel by {
      assert |top + (d + "/")| == |top| + |d + "/"|;
      if top + (d + "/") <= p {
        assert p[..|top| + |d + "/"|][|top|..] == d + "/";
        assert p[..|top| + |d + "/"|][|top|..] == rel[..|d + "/"|];
      }
      if d + "/" <= rel {
        assert p[..|top| + |d + "/"|] == top + rel[..|d + "/"|];
      }
    }
  }

  lemma BelowIsUnder(host: Host, p: Path, d: string)
    requires p == host.skillsDir + "/" + d || host.skillsDir + "/" + d + "/" <= p
    ensures Under(host.skillsDir, p)
  {
    var top := host.skillsDir + "/";
    if p == top + d {
      assert p[..|top|] == top;
    } else {
      assert top + d + "/" == top + (d + "/");
      assert p[..|top + (d + "/")|][..|top|] == top;
      assert p[..|top|] == top;
    }
  }

  /** The plan of a host: each action stands for its path's class; each path with a class has its action; and there is one
      for the hook exactly when there is a hook for the host and no record of it wired with a command, or one of a
      command under a name it no longer ships under. */
  lemma PlanTold(env: Env, host: Host, b: Binary, hs: HostState, disk: Disk)
    requires "" !in hs.assets
    ensures var plan := HostPlan(env, host, b, hs, disk);
            && (forall i | 0 <= i < |plan| && plan[i].class_ != Rewire ::
                  Told(env, host, b, hs, disk, plan[i].path, plan[i].class_) &&
                  ComponentTold(env, host, b, hs, plan[i].path, plan[i].component))
            && (forall p, class_ | Told(env, host, b, hs, disk, p, class_) :: exists i | 0 <= i < |plan| :: plan[i].path == p && plan[i].class_ == class_)
            && ((exists i | 0 <= i < |plan| :: plan[i].class_ == Rewire) <==>
                  HookComponent(host, b) != "" &&
                  (hs.hook.None? || !hs.hook.value.wired || AllSpace(hs.hook.value.command) || env.legacy(hs.hook.value.command)))
            && forall i | 0 <= i < |plan| && plan[i].class_ == Rewire :: plan[i] == Action(Rewire, HookComponent(host, b), "")
  {
    hide Claims, HookComponent, HostPlan, PlannedPaths, ActionAt, Told, ComponentTold, NeedsHook;
    var plan, claims := HostPlan(env, host, b, hs, disk), Claims(env, host, b);
    NoOtherAction(env, host, b, hs, disk);
    forall i | 0 <= i < |plan| && plan[i].class_ != Rewire
      ensures Told(env, host, b, hs, disk, plan[i].path, plan[i].class_) && ComponentTold(env, host, b, hs, plan[i].path, plan[i].component)
    {
      ActionIsTold(env, host, b, hs, disk, plan[i].path);
    }
    forall p, class_ | Told(env, host, b, hs, disk, p, class_) ensures exists i | 0 <= i < |plan| :: plan[i].path == p && plan[i].class_ == class_ {
      ToldIsPlanned(env, host, b, hs, disk, p, class_);
      EveryPathHasItsAction(env, host, b, hs, disk, p);
      ActionIsTold(env, host, b, hs, disk, p);
      ToldOnce(env, host, b, hs, disk, p, class_, ActionAt(env, host, claims, hs, disk, p).class_);
    }
    RewirePlanned(env, host, b, hs, disk);
    HookTold(env, HookComponent(host, b), hs.hook);
  }

  lemma ToldIsPlanned(env: Env, host: Host, b: Binary, hs: HostState, disk: Disk, p: Path, class_: Class)
    requires Told(env, host, b, hs, disk, p, class_)
    ensures p in PlannedPaths(host, Claims(env, host, b), hs, disk)
  {
    hide Claims;
  }

  lemma ToldOnce(env: Env, host: Host, b: Binary, hs: HostState, disk: Disk, p: Path, x: Class, y: Class)
    requires Told(env, host, b, hs, disk, p, x) && Told(env, host, b, hs, disk, p, y)
    ensures x == y
  {
    hide Claims;
  }

  lemma RewirePlanned(env: Env, host: Host, b: Binary, hs: HostState, disk: Disk)
    requires "" !in hs.assets
    ensures var plan := HostPlan(env, host, b, hs, disk);
            && ((exists i | 0 <= i < |plan| :: plan[i].class_ == Rewire) <==> NeedsHook(env, HookComponent(host, b), hs.hook))
            && forall i | 0 <= i < |plan| && plan[i].class_ == Rewire :: plan[i] == Action(Rewire, HookComponent(host, b), "")
  {
    hide Claims, HookComponent, NeedsHook, PlannedPaths, ActionAt, OrphanComponent, HookPlan, HostPlan;
    NoOtherAction(env, host, b, hs, disk);
    PlanShape(env, host, b, hs, disk);
    HookPlanIs(env, host, b, hs);
    var plan, hook := HostPlan(env, host, b, hs, disk), HookPlan(env, host, b, hs);
    forall i | |hook| <= i < |plan| ensures plan[i].class_ != Rewire {
      var sorted := SortedPaths(env, host, b, hs, disk);
      assert plan[|hook| + (i - |hook|)] == ActionAt(env, host, Claims(env, host, b), hs, disk, sorted[i - |hook|]);
      NeverRewire(env, host, Claims(env, host, b), hs, disk, sorted[i - |hook|]);
    }
    HookPlanned(env, host, b, hs);
  }

  lemma NeverRewire(env: Env, host: Host, claims: map<Path, Claim>, hs: HostState, disk: Disk, p: Path)
    ensures ActionAt(env, host, claims, hs, disk, p).class_ != Rewire
  {}

  lemma HookPlanned(env: Env, host: Host, b: Binary, hs: HostState)
    ensures HookPlan(env, host, b, hs) != [] <==> NeedsHook(env, HookComponent(host, b), hs.hook)
  {
    hide NeedsHook, HookComponent;
  }

  lemma HookTold(env: Env, component: string, h: Option<Hook>)
    ensures NeedsHook(env, component, h) <==>
            component != "" && (h.None? || !h.value.wired || AllSpace(h.value.command) || env.legacy(h.value.command))
  {
    hide AllSpace, Trim;
    if h.Some? {
      TrimEmptyIff(h.value.command);
    }
  }

  // ---------------------------------------------------------------- an uninstall

  /** An uninstall asks for the removal of a recorded file if it is still claimed, in the directory the record names, or
      if it was asked to take the others as well. */
  ghost predicate AskedFor(env: Env, b: Binary, name: string, hs: HostState, orphans: bool, p: Path) {
    p in hs.assets && (orphans || p in Claims(env, Host(name, hs.configDir, hs.configDir + "/skills"), b))
  }

  /** The file is there with another content than the record names. */
  predicate ChangedSince(env: Env, hs: HostState, disk: Disk, p: Path) {
    p in hs.assets && p in disk && env.hash(disk[p]) != hs.assets[p].digest
  }

  lemma RemovalTold(env: Env, b: Binary, disk: Disk, name: string, hs: HostState, p: Path, orphans: bool, force: bool)
    requires p in hs.assets
    ensures RemovalAt(env, b, disk, name, hs, p, orphans, force) ==
            if !AskedFor(env, b, name, hs, orphans, p) then KeepOrphan
            else if ChangedSince(env, hs, disk, p) && !force then Refuse
            else Remove(ChangedSince(env, hs, disk, p))
  {
    hide Claims;
  }

  /** An uninstall is refused exactly when a hook it has to unwire is in settings that cannot be read, or when it is not
      forced and a file it is asked for was changed. */
  lemma StopsTold(env: Env, b: Binary, disk: Disk, s: State, orphans: bool, force: bool, dir: string)
    ensures Stops(env, b, disk, s, orphans, force, dir) <==>
            || (exists name | name in s.hosts ::
                  s.hosts[name].hook.Some? && s.hosts[name].hook.value.wired &&
                  Loaded(env, Read(disk, (if name == "claude" && dir != "" then dir else s.hosts[name].configDir) + "/settings.json")).None?)
            || (!force && exists name, p | name in s.hosts && p in s.hosts[name].assets ::
                            AskedFor(env, b, name, s.hosts[name], orphans, p) && ChangedSince(env, s.hosts[name], disk, p))
  {
    hide Claims, RemovalAt, Loaded, AskedFor, ChangedSince;
    forall name, p | name in s.hosts && p in s.hosts[name].assets
      ensures RemovalAt(env, b, disk, name, s.hosts[name], p, orphans, force).Refuse? <==>
              !force && AskedFor(env, b, name, s.hosts[name], orphans, p) && ChangedSince(env, s.hosts[name], disk, p)
    {
      RemovalTold(env, b, disk, name, s.hosts[name], p, orphans, force);
    }
  }

  /** What is taken away when nothing refuses is what is asked for. */
  lemma RemovableTold(env: Env, b: Binary, disk: Disk, s: State, orphans: bool, force: bool, p: Path)
    requires !Blocked(env, b, disk, s, orphans, force)
    ensures Removable(env, b, disk, s, orphans, force, p) <==> exists name | name in s.hosts :: AskedFor(env, b, name, s.hosts[name], orphans, p)
  {
    hide Claims, RemovalAt, ChangedSince;
    forall name | name in s.hosts && p in s.hosts[name].assets
      ensures RemovalAt(env, b, disk, name, s.hosts[name], p, orphans, force).Remove? <==> AskedFor(env, b, name, s.hosts[name], orphans, p)
    {
      RemovalTold(env, b, disk, name, s.hosts[name], p, orphans, force);
      assert !RemovalAt(env, b, disk, name, s.hosts[name], p, orphans, force).Refuse?;
    }
  }

  /** What a whole uninstall that nothing stops leaves in the records: of each host the files it was not asked for, the
      hook only if it was not wired; and no host at all that it took something from and that has nothing left. */
  lemma RecordsLeft(env: Env, b: Binary, orphans: bool, force: bool, dir: string, w: World, name: string)
    requires !Stops(env, b, w.disk, w.saved, orphans, force, dir) && name in w.saved.hosts
    requires AllDone(w.(run := w.run + 1), AllTasks(env, b, w, orphans, force, dir))
    ensures var hs, hosts := w.saved.hosts[name], Uninstall(env, b, orphans, force, dir, Whole, w).saved.hosts;
            var wired := hs.hook.Some? && hs.hook.value.wired;
            var took := wired || exists p :: AskedFor(env, b, name, hs, orphans, p);
            var left := (hs.hook.Some? && !wired) || exists p | p in hs.assets :: !AskedFor(env, b, name, hs, orphans, p);
            && (name in hosts <==> !took || left)
            && (name in hosts ==>
                  && hosts[name].configDir == hs.configDir && hosts[name].components == hs.components
                  && hosts[name].hook == (if wired then None else hs.hook)
                  && forall p :: (p in hosts[name].assets <==> p in hs.assets && !AskedFor(env, b, name, hs, orphans, p)) &&
                                 (p in hosts[name].assets ==> hosts[name].assets[p] == hs.assets[p]))
  {
    hide Claims, RemovalAt, AskedFor, AllTasks, AllDone, RunCut, Unreadable, KeepsHost;
    var hs := w.saved.hosts[name];
    forall p | p in hs.assets ensures !RemovalAt(env, b, w.disk, name, hs, p, orphans, force).Refuse? {}
    LeftTold(env, b, w.disk, name, hs, orphans, force);
  }

  lemma LeftTold(env: Env, b: Binary, disk: Disk, name: string, hs: HostState, orphans: bool, force: bool)
    requires forall p | p in hs.assets :: !RemovalAt(env, b, disk, name, hs, p, orphans, force).Refuse?
    ensures forall p | p in hs.assets ::
              RemovalAt(env, b, disk, name, hs, p, orphans, force).Remove? <==> AskedFor(env, b, name, hs, orphans, p)
    ensures var wired := hs.hook.Some? && hs.hook.value.wired;
            var took := wired || exists p :: AskedFor(env, b, name, hs, orphans, p);
            var left := (hs.hook.Some? && !wired) || exists p | p in hs.assets :: !AskedFor(env, b, name, hs, orphans, p);
            KeepsHost(env, b, disk, name, hs, orphans, force) <==> !took || left
  {
    hide Claims, RemovalAt, AskedFor, ChangedSince;
    forall p | p in hs.assets
      ensures RemovalAt(env, b, disk, name, hs, p, orphans, force).Remove? <==> AskedFor(env, b, name, hs, orphans, p)
    {
      RemovalTold(env, b, disk, name, hs, p, orphans, force);
    }
    forall p ensures AskedFor(env, b, name, hs, orphans, p) ==> p in hs.assets {
      AskedIsRecorded(env, b, name, hs, orphans, p);
    }
    var left := Dropped(env, b, disk, name, hs, orphans, force);
    if left.assets != map[] {
      var p :| p in left.assets;
      assert p in hs.assets && !AskedFor(env, b, name, hs, orphans, p);
    }
    if p :| p in hs.assets && !AskedFor(env, b, name, hs, orphans, p) {
      assert p in left.assets;
    }
    if p :| AskedFor(env, b, name, hs, orphans, p) {
      assert RemovalAt(env, b, disk, name, hs, p, orphans, force).Remove?;
    }
  }

  lemma AskedIsRecorded(env: Env, b: Binary, name: string, hs: HostState, orphans: bool, p: Path)
    ensures AskedFor(env, b, name, hs, orphans, p) ==> p in hs.assets
  {
    hide Claims;
  }

  predicate WiredHook(hs: HostState) {
    hs.hook.Some? && hs.hook.value.wired
  }

  /** The settings file an uninstall unwires: that of the last host, by name, whose hook is wired; below the directory
      the operator names if that host is the wired one. */
  lemma UnwiredTold(s: State, dir: string)
    ensures UnwiredPath(s, dir).None? <==> forall name | name in s.hosts :: !WiredHook(s.hosts[name])
    ensures UnwiredPath(s, dir).Some? ==>
              exists name | name in s.hosts ::
                WiredHook(s.hosts[name]) && (forall other | other in s.hosts && WiredHook(s.hosts[other]) :: Leq(other, name)) &&
                UnwiredPath(s, dir).value == (if name == "claude" && dir != "" then dir else s.hosts[name].configDir) + "/settings.json"
  {
    hide Leq, LastWired, SortedSet;
    var names := SortedSet(s.hosts.Keys);
    SortedSetIs(s.hosts.Keys);
    LastIs(s, names);
    var last := LastWired(s, names);
    if last.Some? {
      assert UnwiredPath(s, dir) == Some(HookPath(last.value, s.hosts[last.value], dir));
      assert last.value in s.hosts && WiredHook(s.hosts[last.value]);
      forall other | other in s.hosts && WiredHook(s.hosts[other]) ensures Leq(other, last.value) {
        assert other in names;
      }
    } else {
      forall name | name in s.hosts ensures !WiredHook(s.hosts[name]) {
        assert name in names;
      }
    }
  }

  lemma {:induction false} LastIs(s: State, names: seq<string>)
    requires SortedBy(Self, names) && forall i | 0 <= i < |names| :: names[i] in s.hosts
    ensures LastWired(s, names).None? <==> forall name | name in names :: !WiredHook(s.hosts[name])
    ensures LastWired(s, names).Some? ==>
              WiredHook(s.hosts[LastWired(s, names).value]) &&
              forall other | other in names && WiredHook(s.hosts[other]) :: Leq(other, LastWired(s, names).value)
  {
    hide Leq;
    if names != [] {
      var less, last := names[..|names| - 1], names[|names| - 1];
      LastIs(s, less);
      assert names == less + [last];
      LeqTotal(last, last);
      forall other | other in less ensures Leq(other, last) {
        var i :| 0 <= i < |less| && less[i] == other;
        assert Self(names[i]) == other && Self(names[|names| - 1]) == last;
      }
    }
  }

  // ---------------------------------------------------------------- a record

  /** A host whose directory moved is synced as one of which nothing is recorded. */
  lemma MovedIsFresh(env: Env, b: Binary, host: Host, force: bool, disk: Disk, mem: State)
    ensures host.name in mem.hosts && mem.hosts[host.name].configDir != host.configDir ==>
              HostRunOf(env, b, host, force, disk, mem) == HostRunOf(env, b, host, force, disk, mem.(hosts := mem.hosts - {host.name}))
    ensures host.name in mem.hosts && mem.hosts[host.name].configDir == host.configDir ==>
              HostRunOf(env, b, host, force, disk, mem).tasks ==
              HostHookTasks(env, b, host, mem.hosts[host.name], disk) +
              TasksOf(Claims(env, host, b), HostPlan(env, host, b, mem.hosts[host.name], disk), force)
    ensures host.name !in mem.hosts ==> RecordOf(mem, host) == HostState("", [], None, map[])
  {
    hide Claims, HostPlan, TasksOf, RecordPlan, AnyWrite, HostHookTasks, Adopted;
  }

  /** The components a sync records for a host are those that are for it. */
  lemma {:induction false} ComponentsRecorded(host: Host, cs: seq<Component>, id: string)
    ensures id in Applicable(host.name, cs) <==> exists c | c in cs :: IsFor(c, host) && c.id == id
  {
    if cs != [] {
      var less, last := cs[..|cs| - 1], cs[|cs| - 1];
      ComponentsRecorded(host, less, id);
      assert cs == less + [last];
    }
  }
}
