/** What a host is claimed, told by the components and the files of the version alone; what an action of its plan is,
    told by the disk and the record; and what a first sync installs. */
module SyncClaims {
  import opened Sorting
  import Settings
  import opened SyncPlan
  import opened SyncRun
  import opened SyncSafety
  import opened SyncLaws
  import opened SyncFixed

  // ---------------------------------------------------------------- what is claimed

  /** The component is for that host, or for every host; a host without a name has none. */
  ghost predicate IsFor(c: Component, host: Host) {
    host.name != "" && exists h | h in c.hosts :: h == "*" || h == host.name
  }

  /** The file of the component goes to that path of the host. */
  ghost predicate Binds(host: Host, b: Binary, c: Component, f: File, p: Path) {
    && c in b.components && IsFor(c, host) && !c.hook && c.id in b.files && f in b.files[c.id]
    && p == host.skillsDir + "/" + c.id + "/" + f.rel
  }

  /** What two files of one path are told apart by: the component, the source, the destination and the digest. */
  function KeyOf(env: Env, c: Component, f: File): string {
    c.id + "\0" + f.source + "\0" + f.rel + "\0" + env.hash(f.content)
  }

  lemma {:induction false} CandidatesAre(host: Host, cs: seq<Component>, files: map<string, seq<File>>, claim: Claim)
    ensures claim in Candidates(host, cs, files) <==>
            exists c | c in cs :: IsFor(c, host) && !c.hook && c.id in files && claim.component == c.id && claim.file in files[c.id] &&
              claim.path == host.skillsDir + "/" + c.id + "/" + claim.file.rel
  {
    hide Destination;
    if cs != [] {
      var less, last := cs[..|cs| - 1], cs[|cs| - 1];
      CandidatesAre(host, less, files, claim);
      ClaimsOfOne(host, last, files, claim);
      assert cs == less + [last];
    }
  }

  lemma ClaimsOfOne(host: Host, c: Component, files: map<string, seq<File>>, claim: Claim)
    ensures claim in ClaimsFrom(host, c, files) <==>
            IsFor(c, host) && !c.hook && c.id in files && claim.component == c.id && claim.file in files[c.id] &&
            claim.path == host.skillsDir + "/" + c.id + "/" + claim.file.rel
  {
    if c.id in files && claim.file in files[c.id] {
      var i :| 0 <= i < |files[c.id]| && files[c.id][i] == claim.file;
      assert FileClaims(host, c.id, files[c.id])[i].file == claim.file;
    }
  }

  lemma SortedHas(b: Binary, c: Component)
    ensures c in SortBy(IdOf, b.components) <==> c in b.components
  {
    hide SortBy;
    assert multiset(SortBy(IdOf, b.components)) == multiset(b.components);
    assert c in SortBy(IdOf, b.components) <==> c in multiset(SortBy(IdOf, b.components));
    assert c in b.components <==> c in multiset(b.components);
  }

  lemma CandidateIff(host: Host, b: Binary, claim: Claim)
    ensures claim in Candidates(host, SortBy(IdOf, b.components), b.files) <==>
            exists c :: Binds(host, b, c, claim.file, claim.path) && claim.component == c.id
  {
    hide SortBy, IsFor;
    var cs := SortBy(IdOf, b.components);
    CandidatesAre(host, cs, b.files, claim);
    forall c ensures c in cs <==> c in b.components {
      SortedHas(b, c);
    }
    if c :| Binds(host, b, c, claim.file, claim.path) && claim.component == c.id {
      assert c in cs;
    }
  }

  /** A path is claimed exactly when a file of a component for the host goes there, and by the first of those by their
      keys. */
  lemma ClaimsAre(env: Env, host: Host, b: Binary, p: Path)
    ensures p in Claims(env, host, b) <==> exists c, f :: Binds(host, b, c, f, p)
    ensures p in Claims(env, host, b) ==>
              var claim := Claims(env, host, b)[p];
              && claim.path == p && (exists c :: Binds(host, b, c, claim.file, p) && claim.component == c.id)
              && forall c, f | Binds(host, b, c, f, p) ::
                   Leq(claim.component + "\0" + claim.file.source + "\0" + claim.file.rel + "\0" + env.hash(claim.file.content), KeyOf(env, c, f))
  {
    hide SortBy, Candidates, Winners, Binds, Leq;
    var cs := Candidates(host, SortBy(IdOf, b.components), b.files);
    WinnersAre(env, cs, p);
    forall c, f | Binds(host, b, c, f, p) ensures Claim(c.id, f, p) in cs {
      CandidateIff(host, b, Claim(c.id, f, p));
    }
    forall i | 0 <= i < |cs| && cs[i].path == p ensures exists c :: Binds(host, b, c, cs[i].file, p) && cs[i].component == c.id {
      assert cs[i] in cs;
      CandidateIff(host, b, cs[i]);
    }
  }

  lemma {:induction false} FirstHookIs(host: Host, cs: seq<Component>)
    requires SortedBy(IdOf, cs)
    ensures var h := FirstHook(host, cs);
            && (h != "" ==> exists c | c in cs :: c.hook && IsFor(c, host) && c.id == h)
            && forall c | c in cs && c.hook && IsFor(c, host) && c.id != "" :: h != "" && Leq(h, c.id)
  {
    hide Leq;
    if cs != [] {
      var less, last := cs[..|cs| - 1], cs[|cs| - 1];
      FirstHookIs(host, less);
      assert cs == less + [last];
      forall c | c in less ensures Leq(c.id, last.id) {
        var i :| 0 <= i < |less| && less[i] == c;
        assert cs[i] == c && IdOf(cs[i]) == c.id && IdOf(cs[|cs| - 1]) == last.id;
      }
      LeqTotal(last.id, last.id);
    }
  }

  /** The hook of a host is the first by name of the hooks that are for it and have a name; there is none exactly when no
      such hook is. */
  lemma HookIs(host: Host, b: Binary)
    ensures var h := HookComponent(host, b);
            && (h != "" ==> exists c | c in b.components :: c.hook && IsFor(c, host) && c.id == h)
            && forall c | c in b.components && c.hook && IsFor(c, host) && c.id != "" :: h != "" && Leq(h, c.id)
  {
    hide SortBy, Leq, IsFor, FirstHook;
    var cs := SortBy(IdOf, b.components);
    SortSorts(IdOf, b.components);
    FirstHookIs(host, cs);
    forall c ensures c in cs <==> c in b.components {
      SortedHas(b, c);
    }
  }

  // ---------------------------------------------------------------- a first sync

  /** The host has what it is claimed, each file with its payload, and its settings wired if it is the wired host and
      there is a hook for it. */
  ghost predicate Installed(env: Env, b: Binary, host: Host, disk: Disk) {
    && (forall p | p in Claims(env, host, b) :: Read(disk, p) == Some(Claims(env, host, b)[p].file.content))
    && (host.name == CLAUDE ==>
          Read(disk, SettingsPath(host.configDir)) == if HookComponent(host, b) != "" then Some(Wired(env, b.command, None)) else None)
  }

  /** Nothing of the host is on the disk. */
  ghost predicate Untouched(env: Env, b: Binary, host: Host, disk: Disk) {
    && (forall p | p in Claims(env, host, b) :: p !in disk)
    && (host.name == CLAUDE ==> SettingsPath(host.configDir) !in disk && SettingsPath(host.configDir) !in Claims(env, host, b))
  }

  lemma HostInstalls(env: Env, b: Binary, host: Host, force: bool, w: World, mem: State)
    requires host.name !in mem.hosts && Untouched(env, b, host, w.disk)
    ensures !Refuses(env, host, w.disk) && Installed(env, b, host, RunTasks(w, HostRunOf(env, b, host, force, w.disk, mem).tasks).disk)
  {
    hide Claims, HostRunOf, RunTasks, HookComponent, Wired;
    var run := HostRunOf(env, b, host, force, w.disk, mem);
    AllTasksApart(env, b, host, force, w, mem);
    TasksPut(w, run.tasks);
    forall p | p in Claims(env, host, b)
      ensures Read(RunTasks(w, run.tasks).disk, p) == Some(Claims(env, host, b)[p].file.content)
    {
      var k := PayloadTask(env, b, host, force, w, mem, p);
    }
    if host.name == CLAUDE {
      SettingsInstalled(env, b, host, force, w, mem);
    }
  }

  /** Among the tasks is the one that puts the payload. */
  lemma PayloadTask(env: Env, b: Binary, host: Host, force: bool, w: World, mem: State, p: Path) returns (k: nat)
    requires host.name !in mem.hosts && p in Claims(env, host, b) && p !in w.disk
    ensures var ts := HostRunOf(env, b, host, force, w.disk, mem).tasks;
            k < |ts| && ts[k] == Task(p, false, Some(Claims(env, host, b)[p].file.content))
  {
    hide Claims, HostPlan, RecordPlan, TasksOf, AnyWrite, HostHookTasks, Adopted;
    var hs, claims := RecordOf(mem, host), Claims(env, host, b);
    var plan := HostPlan(env, host, b, hs, w.disk);
    ClaimIs(env, host, b, p);
    var i := ActionOf(env, host, b, hs, w.disk, p);
    TaskOfAction(claims, plan, force, i);
    var hook, ts := HostHookTasks(env, b, host, hs, w.disk), TasksOf(claims, plan, force);
    var j :| 0 <= j < |ts| && ts[j] == Task(p, false, Some(claims[p].file.content));
    k := |hook| + j;
  }

  lemma SettingsInstalled(env: Env, b: Binary, host: Host, force: bool, w: World, mem: State)
    requires host.name !in mem.hosts && Untouched(env, b, host, w.disk) && host.name == CLAUDE
    ensures var disk := RunTasks(w, HostRunOf(env, b, host, force, w.disk, mem).tasks).disk;
            Read(disk, SettingsPath(host.configDir)) == if HookComponent(host, b) != "" then Some(Wired(env, b.command, None)) else None
  {
    hide Claims, RunTasks, HookComponent, Wired, HostPlan, RecordPlan, TasksOf, AnyWrite, Adopted;
    var ts := HostRunOf(env, b, host, force, w.disk, mem).tasks;
    AllTasksApart(env, b, host, force, w, mem);
    TasksPut(w, ts);
    if HookComponent(host, b) != "" {
      assert ts[0] == Task(SettingsPath(host.configDir), false, Some(Wired(env, b.command, None)), true);
    } else {
      TasksFromPlan(Claims(env, host, b), HostPlan(env, host, b, RecordOf(mem, host), w.disk), force);
      TasksReach(w, ts, PathsOf(ts));
      assert SettingsPath(host.configDir) !in PathsOf(ts);
    }
  }

  lemma StaysInstalled(env: Env, b: Binary, host: Host, other: Host, force: bool, w: World, mem: State)
    requires host.name != other.name
    requires forall p | p in Claims(env, other, b) :: p !in Claims(env, host, b)
    requires other.name == CLAUDE ==> SettingsPath(other.configDir) !in Claims(env, host, b)
    requires host.name == CLAUDE ==> SettingsPath(host.configDir) !in Claims(env, other, b)
    ensures var disk := RunTasks(w, HostRunOf(env, b, host, force, w.disk, mem).tasks).disk;
            && (Installed(env, b, other, w.disk) ==> Installed(env, b, other, disk))
            && (Untouched(env, b, other, w.disk) ==> Untouched(env, b, other, disk))
  {
    hide Claims, HostRunOf, RunTasks, HookComponent, Wired, Refuses;
    LeavesOther(env, b, host, other, force, w, mem);
  }

  /** The hosts installed so far stay as they are while the others are. */
  lemma {:induction false} InstallsFrom(env: Env, b: Binary, done: seq<Host>, hosts: seq<Host>, force: bool, at: Progress)
    requires DisjointHosts(env, b, done + hosts) && DistinctNames(done + hosts) && SettingsApart(env, b, done + hosts)
    requires !at.refused && forall i | 0 <= i < |hosts| :: hosts[i].name !in at.mem.hosts && Untouched(env, b, hosts[i], at.w.disk)
    requires forall i | 0 <= i < |done| :: Installed(env, b, done[i], at.w.disk)
    ensures var end := SyncFrom(env, b, hosts, force, at, Whole);
            !end.refused && forall i | 0 <= i < |done + hosts| :: Installed(env, b, (done + hosts)[i], end.w.disk)
    decreases |hosts|
  {
    hide Claims, HostRunOf, RunTasks, Refuses, Installed, Untouched, DisjointHosts, DistinctNames, SettingsApart;
    if hosts == [] {
      assert done + hosts == done;
    } else {
      var host, run := hosts[0], HostRunOf(env, b, hosts[0], force, at.w.disk, at.mem);
      var w := RunTasks(at.w, run.tasks);
      var mem := State(b.version, at.mem.hosts[host.name := run.record]);
      var done', rest := done + [host], hosts[1..];
      HostInstalls(env, b, host, force, at.w, at.mem);
      forall i | 0 <= i < |rest| ensures rest[i].name !in mem.hosts && Untouched(env, b, rest[i], w.disk) {
        assert (done + hosts)[|done| + 1 + i] == rest[i] == hosts[i + 1];
        TheOther(env, b, done, hosts, |done| + 1 + i);
        StaysInstalled(env, b, host, rest[i], force, at.w, at.mem);
      }
      forall i | 0 <= i < |done'| ensures Installed(env, b, done'[i], w.disk) {
        if i < |done| {
          assert (done + hosts)[i] == done[i];
          TheOther(env, b, done, hosts, i);
          StaysInstalled(env, b, host, done[i], force, at.w, at.mem);
        }
      }
      assert done' + rest == done + hosts;
      InstallsFrom(env, b, done', rest, force, Progress(w, mem, at.dirty || run.dirty));
    }
  }

  /** A first sync of hosts that share no path, on an empty disk and with nothing recorded, leaves exactly the files the
      version ships for them, each with a payload bound for its path, and the settings of the wired host with the
      command in them if there is a hook for it. */
  lemma FirstSync(env: Env, b: Binary, hosts: seq<Host>, force: bool, w: World, p: Path)
    requires w.disk == map[] && w.saved.hosts == map[]
    requires DisjointHosts(env, b, hosts) && DistinctNames(hosts) && SettingsApart(env, b, hosts)
    ensures var disk := Sync(env, b, hosts, force, Whole, w).disk;
            && (forall h, c, f | h in hosts && Binds(h, b, c, f, p) ::
                  p in disk && exists c', f' | Binds(h, b, c', f', p) ::
                    disk[p] == f'.content && forall c, f | Binds(h, b, c, f, p) :: Leq(KeyOf(env, c', f'), KeyOf(env, c, f)))
            && (forall h | h in hosts && h.name == "claude" && h.configDir + "/settings.json" == p ::
                  Read(disk, p) == if HookComponent(h, b) != "" then Some(env.marshal(Settings.Wire(env.gate, b.command, map[]))) else None)
            && (p in disk ==> (exists h, c, f :: h in hosts && Binds(h, b, c, f, p)) ||
                              exists h | h in hosts :: h.name == "claude" && h.configDir + "/settings.json" == p)
  {
    hide Claims, Sync, HookComponent, Settings.Wire, Binds, Leq, DistinctNames, DisjointHosts, SettingsApart;
    AllInstalled(env, b, hosts, force, w);
    var disk := Sync(env, b, hosts, force, Whole, w).disk;
    forall h, c, f | h in hosts && Binds(h, b, c, f, p)
      ensures p in disk && exists c', f' | Binds(h, b, c', f', p) ::
                disk[p] == f'.content && forall c, f | Binds(h, b, c, f, p) :: Leq(KeyOf(env, c', f'), KeyOf(env, c, f))
    {
      PayloadIs(env, h, b, disk, p);
    }
    forall h | h in hosts && h.name == "claude" && h.configDir + "/settings.json" == p
      ensures Read(disk, p) == if HookComponent(h, b) != "" then Some(env.marshal(Settings.Wire(env.gate, b.command, map[]))) else None
    {
      assert Installed(env, b, h, disk);
    }
    if p in disk {
      NothingElse(env, b, hosts, force, w, p);
    }
  }

  lemma AllInstalled(env: Env, b: Binary, hosts: seq<Host>, force: bool, w: World)
    requires w.disk == map[] && w.saved.hosts == map[]
    requires DisjointHosts(env, b, hosts) && DistinctNames(hosts) && SettingsApart(env, b, hosts)
    ensures forall h | h in hosts :: Installed(env, b, h, Sync(env, b, hosts, force, Whole, w).disk)
  {
    hide Claims, SyncFrom, HookComponent, Installed, DistinctNames, DisjointHosts, SettingsApart;
    var start := Progress(NewRun(w, b), w.saved, false);
    assert [] + hosts == hosts;
    forall i | 0 <= i < |hosts| ensures Untouched(env, b, hosts[i], start.w.disk) {
      assert hosts[..i] + hosts[i..] == hosts;
      OwnSettings(env, b, hosts[..i], hosts[i..]);
    }
    InstallsFrom(env, b, [], hosts, force, start);
    forall h | h in hosts ensures Installed(env, b, h, Sync(env, b, hosts, force, Whole, w).disk) {
      var i :| 0 <= i < |hosts| && hosts[i] == h;
      assert ([] + hosts)[i] == h;
    }
  }

  lemma NothingElse(env: Env, b: Binary, hosts: seq<Host>, force: bool, w: World, p: Path)
    requires w.disk == map[] && p in Sync(env, b, hosts, force, Whole, w).disk
    ensures (exists h, c, f :: h in hosts && Binds(h, b, c, f, p)) ||
            exists h | h in hosts :: h.name == "claude" && h.configDir + "/settings.json" == p
  {
    hide Claims, Sync, Binds;
    if p in ClaimedBy(env, b, hosts) {
      var i :| 0 <= i < |hosts| && p in Claims(env, hosts[i], b);
      ClaimsAre(env, hosts[i], b, p);
      var c, f :| Binds(hosts[i], b, c, f, p);
      assert hosts[i] in hosts;
    } else if p in SettingsFiles(hosts) {
      var i :| 0 <= i < |hosts| && hosts[i].name == CLAUDE && p == SettingsPath(hosts[i].configDir);
      assert hosts[i] in hosts;
    } else {
      SyncForeign(env, b, hosts, force, Whole, w, p);
    }
  }

  lemma PayloadIs(env: Env, h: Host, b: Binary, disk: Disk, p: Path)
    requires Installed(env, b, h, disk) && exists c, f :: Binds(h, b, c, f, p)
    ensures p in disk && exists c', f' | Binds(h, b, c', f', p) ::
              disk[p] == f'.content && forall c, f | Binds(h, b, c, f, p) :: Leq(KeyOf(env, c', f'), KeyOf(env, c, f))
  {
    hide Claims, HookComponent, Binds, Leq;
    ClaimsAre(env, h, b, p);
    var claim := Claims(env, h, b)[p];
    var c :| Binds(h, b, c, claim.file, p) && claim.component == c.id;
  }
}
