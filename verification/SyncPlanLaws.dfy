/** The plan of a host gives every path one action, and depends on no order. */
module SyncPlanLaws {
  import opened Sorting
  import opened SyncPlan

  function PathOf(a: Action): string {
    a.path
  }

  // ---------------------------------------------------------------- one action a path

  lemma {:induction false} CandidatePaths(host: Host, cs: seq<Component>, files: map<string, seq<File>>)
    ensures forall i | 0 <= i < |Candidates(host, cs, files)| :: Candidates(host, cs, files)[i].path != ""
  {
    if cs != [] {
      CandidatePaths(host, cs[..|cs| - 1], files);
    }
  }

  lemma NoEmptyPath(env: Env, host: Host, b: Binary, hs: HostState, disk: Disk)
    requires "" !in hs.assets
    ensures "" !in PlannedPaths(host, Claims(env, host, b), hs, disk)
  {
    hide Leq, ClaimKey, SortBy;
    var cs := Candidates(host, SortBy(IdOf, b.components), b.files);
    CandidatePaths(host, SortBy(IdOf, b.components), b.files);
    WinnersAre(env, cs, "");
  }

  lemma Placed(a: seq<Action>, b: seq<Action>, s: seq<Action>)
    requires s == a + b
    ensures |s| == |a| + |b| && (forall i | 0 <= i < |a| :: s[i] == a[i]) && forall i | 0 <= i < |b| :: s[|a| + i] == b[i]
  {}

  function SortedPaths(env: Env, host: Host, b: Binary, hs: HostState, disk: Disk): seq<Path> {
    SortedSet(PlannedPaths(host, Claims(env, host, b), hs, disk))
  }

  lemma SortedPathsAre(env: Env, host: Host, b: Binary, hs: HostState, disk: Disk)
    requires "" !in hs.assets
    ensures var sorted := SortedPaths(env, host, b, hs, disk);
            NoDup(sorted) && "" !in sorted && SortedBy(Self, sorted) &&
            forall p :: p in sorted <==> p in PlannedPaths(host, Claims(env, host, b), hs, disk)
  {
    hide Leq, Claims, PlannedPaths, SortedSet, Self;
    NoEmptyPath(env, host, b, hs, disk);
    SortedSetIs(PlannedPaths(host, Claims(env, host, b), hs, disk));
  }

  function HookPlan(env: Env, host: Host, b: Binary, hs: HostState): seq<Action> {
    if NeedsHook(env, HookComponent(host, b), hs.hook) then [Action(Rewire, HookComponent(host, b), "")] else []
  }

  /** The plan, place by place: the hook's action if there is one, and the action of each path in order. */
  lemma PlanShape(env: Env, host: Host, b: Binary, hs: HostState, disk: Disk)
    ensures var plan, hook, sorted := HostPlan(env, host, b, hs, disk), HookPlan(env, host, b, hs), SortedPaths(env, host, b, hs, disk);
            |plan| == |hook| + |sorted| && (forall i | 0 <= i < |hook| :: plan[i] == hook[i] && hook[i].path == "") &&
            forall i | 0 <= i < |sorted| ::
              plan[|hook| + i] == ActionAt(env, host, Claims(env, host, b), hs, disk, sorted[i]) && plan[|hook| + i].path == sorted[i]
  {
    hide Claims, HookComponent, NeedsHook, ActionAt, SortedSet, PlannedPaths;
    var sorted := SortedPaths(env, host, b, hs, disk);
    PathsOfActions(env, host, Claims(env, host, b), hs, disk, sorted);
    Placed(HookPlan(env, host, b, hs), Actions(env, host, Claims(env, host, b), hs, disk, sorted), HostPlan(env, host, b, hs, disk));
  }

  /** A list whose first places have no path and whose others have the paths of a list without repetition. */
  lemma PathsOnce(plan: seq<Action>, h: nat, sorted: seq<Path>)
    requires h <= 1 && |plan| == h + |sorted| && NoDup(sorted) && "" !in sorted
    requires forall i | 0 <= i < h :: plan[i].path == ""
    requires forall i | 0 <= i < |sorted| :: plan[h + i].path == sorted[i]
    ensures forall i | 0 <= i < |plan| :: plan[i].path == if i < h then "" else sorted[i - h]
    ensures forall i, j | 0 <= i < j < |plan| :: plan[i].path != plan[j].path
  {
    forall i | 0 <= i < |plan| ensures plan[i].path == if i < h then "" else sorted[i - h] {
      assert i >= h ==> plan[h + (i - h)].path == sorted[i - h];
    }
    forall i, j | 0 <= i < j < |plan| ensures plan[i].path != plan[j].path {
      assert sorted[j - h] in sorted;
    }
  }

  /** Every path that is claimed, recorded or on disk in the managed directory has its action in the plan. */
  lemma EveryPathHasItsAction(env: Env, host: Host, b: Binary, hs: HostState, disk: Disk, p: Path)
    requires "" !in hs.assets && p in PlannedPaths(host, Claims(env, host, b), hs, disk)
    ensures var plan := HostPlan(env, host, b, hs, disk);
            exists i | 0 <= i < |plan| :: plan[i] == ActionAt(env, host, Claims(env, host, b), hs, disk, p) && plan[i].path == p
  {
    hide Claims, HookComponent, NeedsHook, ActionAt, PlannedPaths, HostPlan, SortedPaths, HookPlan;
    var sorted := SortedPaths(env, host, b, hs, disk);
    PlanShape(env, host, b, hs, disk);
    SortedPathsAre(env, host, b, hs, disk);
    assert p in sorted;
    var k :| 0 <= k < |sorted| && sorted[k] == p;
    assert HostPlan(env, host, b, hs, disk)[|HookPlan(env, host, b, hs)| + k].path == p;
  }

  lemma HookPlanIs(env: Env, host: Host, b: Binary, hs: HostState)
    ensures |HookPlan(env, host, b, hs)| <= 1
    ensures HookPlan(env, host, b, hs) != [] ==>
              NeedsHook(env, HookComponent(host, b), hs.hook) && HookPlan(env, host, b, hs)[0] == Action(Rewire, HookComponent(host, b), "")
  {
    hide NeedsHook, HookComponent;
  }

  /** No two actions have one path. */
  lemma PathsDifferInPlan(env: Env, host: Host, b: Binary, hs: HostState, disk: Disk)
    requires "" !in hs.assets
    ensures var plan := HostPlan(env, host, b, hs, disk);
            forall i, j | 0 <= i < j < |plan| :: plan[i].path != plan[j].path
  {
    hide Claims, HookComponent, NeedsHook, ActionAt, PlannedPaths, HostPlan, SortedPaths, HookPlan;
    PlanShape(env, host, b, hs, disk);
    SortedPathsAre(env, host, b, hs, disk);
    HookPlanIs(env, host, b, hs);
    PathsOnce(HostPlan(env, host, b, hs, disk), |HookPlan(env, host, b, hs)|, SortedPaths(env, host, b, hs, disk));
  }

  /** An action's path is one that is claimed, recorded or on disk, or none, and then the action is the hook's; and
      no two actions have one path. */
  lemma NoOtherAction(env: Env, host: Host, b: Binary, hs: HostState, disk: Disk)
    requires "" !in hs.assets
    ensures var plan := HostPlan(env, host, b, hs, disk);
            (forall i, j | 0 <= i < j < |plan| :: plan[i].path != plan[j].path) &&
            forall i | 0 <= i < |plan| ::
              if plan[i].path == "" then plan[i].class_ == Rewire && NeedsHook(env, HookComponent(host, b), hs.hook)
              else plan[i].path in PlannedPaths(host, Claims(env, host, b), hs, disk) &&
                   plan[i] == ActionAt(env, host, Claims(env, host, b), hs, disk, plan[i].path)
  {
    hide Claims, HookComponent, NeedsHook, ActionAt, PlannedPaths, HostPlan, SortedPaths, HookPlan;
    var plan, h, sorted := HostPlan(env, host, b, hs, disk), |HookPlan(env, host, b, hs)|, SortedPaths(env, host, b, hs, disk);
    PathsDifferInPlan(env, host, b, hs, disk);
    PlanShape(env, host, b, hs, disk);
    SortedPathsAre(env, host, b, hs, disk);
    HookPlanIs(env, host, b, hs);
    forall i | h <= i < |plan|
      ensures plan[i].path in sorted && plan[i] == ActionAt(env, host, Claims(env, host, b), hs, disk, plan[i].path)
    {
      var k := i - h;
      assert plan[h + k].path == sorted[k];
    }
  }

  // ---------------------------------------------------------------- no order

  /** Components whose ids differ may come in any order. */
  lemma ComponentOrder(env: Env, host: Host, b: Binary, b': Binary)
    requires b' == b.(components := b'.components) && multiset(b'.components) == multiset(b.components)
    requires Distinguishes(IdOf, b.components)
    ensures Claims(env, host, b') == Claims(env, host, b) && HookComponent(host, b') == HookComponent(host, b)
  {
    hide SortBy, Winners, Candidates, FirstHook;
    SortIff(IdOf, b.components, b'.components);
  }

  function NameOf(h: Host): string {
    h.name
  }

  function PlanHosts(env: Env, hosts: seq<Host>, b: Binary, s: State, disk: Disk): seq<Action> {
    if hosts == [] then []
    else
      var h := hosts[|hosts| - 1];
      PlanHosts(env, hosts[..|hosts| - 1], b, s, disk) +
      HostPlan(env, h, b, if h.name in s.hosts then s.hosts[h.name] else NO_HOST, disk)
  }

  /** `BuildPlan`: the plans of the hosts, by name. */
  function BuildPlan(env: Env, hosts: seq<Host>, b: Binary, s: State, disk: Disk): seq<Action> {
    PlanHosts(env, SortBy(NameOf, hosts), b, s, disk)
  }

  /** The plan depends neither on the order of the hosts nor on that of the components. */
  lemma PlanHasNoOrder(env: Env, hosts: seq<Host>, hosts': seq<Host>, b: Binary, b': Binary, s: State, disk: Disk)
    requires multiset(hosts') == multiset(hosts) && Distinguishes(NameOf, hosts)
    requires b' == b.(components := b'.components) && multiset(b'.components) == multiset(b.components)
    requires Distinguishes(IdOf, b.components)
    ensures BuildPlan(env, hosts', b', s, disk) == BuildPlan(env, hosts, b, s, disk)
  {
    hide SortBy, HostPlan;
    SortIff(NameOf, hosts, hosts');
    SamePlans(env, SortBy(NameOf, hosts), b, b', s, disk);
  }

  lemma {:induction false} SamePlans(env: Env, hosts: seq<Host>, b: Binary, b': Binary, s: State, disk: Disk)
    requires b' == b.(components := b'.components) && multiset(b'.components) == multiset(b.components)
    requires Distinguishes(IdOf, b.components)
    ensures PlanHosts(env, hosts, b', s, disk) == PlanHosts(env, hosts, b, s, disk)
  {
    hide Claims, HookComponent, Actions, SortedSet, PlannedPaths, NeedsHook;
    if hosts != [] {
      SamePlans(env, hosts[..|hosts| - 1], b, b', s, disk);
      ComponentOrder(env, hosts[|hosts| - 1], b, b');
    }
  }

  // ---------------------------------------------------------------- buildHostPlan

  /** The keys of a map in whatever order they come. */
  method AnyOrder(s: set<Path>) returns (r: seq<Path>)
    ensures NoDup(r) && forall x :: x in r <==> x in s
  {
    r := [];
    var rest := s;
    while rest != {}
      invariant rest <= s && NoDup(r) && forall x :: x in r <==> x in s && x !in rest
      decreases rest
    {
      var x :| x in rest;
      r := r + [x];
      rest := rest - {x};
    }
  }

  lemma SortKeeps(s: seq<Path>)
    requires NoDup(s)
    ensures NoDup(Sort(s)) && forall x :: x in Sort(s) <==> x in s
  {
    hide SortBy;
    var r := Sort(s);
    assert forall x :: x in r <==> x in multiset(r);
    assert forall x :: x in s <==> x in multiset(s);
    forall i, j | 0 <= i < j < |r| ensures r[i] != r[j] {
      if r[i] == r[j] {
        Twice(r, i, j);
        Once(s, r[i]);
      }
    }
  }

  lemma Twice<T>(s: seq<T>, i: nat, j: nat)
    requires i < j < |s| && s[i] == s[j]
    ensures multiset(s)[s[i]] >= 2
  {
    assert s == s[..i] + [s[i]] + s[i + 1..j] + [s[j]] + s[j + 1..];
  }

  /** The paths of the plan, in the order it is put together before it is sorted. */
  ghost predicate PlanPaths(paths: seq<Path>, host: Host, claims: map<Path, Claim>, hs: HostState, disk: Disk) {
    NoDup(paths) && forall p :: p in paths <==> p in PlannedPaths(host, claims, hs, disk)
  }

  /** `buildHostPlan`. */
  method BuildHostPlan(env: Env, host: Host, b: Binary, hs: HostState, disk: Disk) returns (actions: seq<Action>)
    requires "" !in hs.assets
    ensures actions == HostPlan(env, host, b, hs, disk)
  {
    hide Leq, SortBy, Claims, HookComponent, AssetClass, OrphanComponent, NeedsHook, FilesUnder, ActionAt, HostPlan, PlannedPaths;
    var claims, hook := ManifestClaims(env, host, b);
    var paths := PlanOrder(host, claims, hs, disk);
    actions := [];
    for i := 0 to |paths|
      invariant actions == Actions(env, host, claims, hs, disk, paths[..i])
    {
      actions := actions + [ActionAt(env, host, claims, hs, disk, paths[i])];
    }
    assert paths[..|paths|] == paths;
    if NeedsHook(env, hook, hs.hook) {
      actions := actions + [Action(Rewire, hook, "")];
    }
    SortedPlan(env, host, b, hs, disk, paths, actions);
    actions := SortBy(PathOf, actions);
  }

  /** Claims, then recorded paths no longer shipped, then files of neither: each group sorted. */
  method PlanOrder(host: Host, claims: map<Path, Claim>, hs: HostState, disk: Disk) returns (paths: seq<Path>)
    ensures PlanPaths(paths, host, claims, hs, disk)
  {
    hide SortBy, Sort;
    var claimed := AnyOrder(claims.Keys);
    SortKeeps(claimed);
    claimed := Sort(claimed);
    var orphans := AnyOrder(hs.assets.Keys - claims.Keys);
    SortKeeps(orphans);
    orphans := Sort(orphans);
    var files := AnyOrder(FilesUnder(disk, host.skillsDir));
    SortKeeps(files);
    files := Sort(files);
    var foreign: seq<Path> := [];
    for i := 0 to |files|
      invariant NoDup(foreign)
      invariant forall p :: p in foreign <==> p in files[..i] && p !in claims && p !in hs.assets
    {
      assert files[..i + 1] == files[..i] + [files[i]];
      if files[i] in claims || files[i] in hs.assets {
        continue;
      }
      assert files[i] !in foreign by {
        assert files[i] !in files[..i];
      }
      foreign := foreign + [files[i]];
    }
    assert files[..|files|] == files;
    NoDupConcat(claimed, orphans);
    NoDupConcat(claimed + orphans, foreign);
    paths := claimed + orphans + foreign;
  }

  /** Sorting the actions by path gives the plan: the paths differ, and the hook's comes before them all. */
  lemma SortedPlan(env: Env, host: Host, b: Binary, hs: HostState, disk: Disk, paths: seq<Path>, actions: seq<Action>)
    requires "" !in hs.assets
    requires var claims, hook := Claims(env, host, b), HookComponent(host, b);
             PlanPaths(paths, host, claims, hs, disk) &&
             actions == Actions(env, host, claims, hs, disk, paths) +
                        if NeedsHook(env, hook, hs.hook) then [Action(Rewire, hook, "")] else []
    ensures SortBy(PathOf, actions) == HostPlan(env, host, b, hs, disk)
  {
    hide Leq, SortBy, Claims, HookComponent, AssetClass, OrphanComponent, NeedsHook, PlannedPaths, SortedSet;
    var claims, hook := Claims(env, host, b), HookComponent(host, b);
    var sorted := SortedSet(PlannedPaths(host, claims, hs, disk));
    var plan := HostPlan(env, host, b, hs, disk);
    SortedSetIs(PlannedPaths(host, claims, hs, disk));
    SameThings(paths, sorted);
    var as_, bs := Actions(env, host, claims, hs, disk, paths), Actions(env, host, claims, hs, disk, sorted);
    PathsOfActions(env, host, claims, hs, disk, paths);
    PathsOfActions(env, host, claims, hs, disk, sorted);
    SameBags(paths, sorted, as_, bs);
    assert multiset(plan) == multiset(actions);
    NoEmptyPath(env, host, b, hs, disk);
    PlanSorted(env, host, b, hs, disk);
    SortSorts(PathOf, actions);
    PathsDiffer(plan, env, host, b, hs, disk);
    SortedOnce(PathOf, plan, SortBy(PathOf, actions));
  }

  lemma PathsOfActions(env: Env, host: Host, claims: map<Path, Claim>, hs: HostState, disk: Disk, paths: seq<Path>)
    ensures forall i | 0 <= i < |paths| :: Actions(env, host, claims, hs, disk, paths)[i].path == paths[i]
  {
    hide AssetClass, OrphanComponent;
  }

  lemma PathsDiffer(plan: seq<Action>, env: Env, host: Host, b: Binary, hs: HostState, disk: Disk)
    requires plan == HostPlan(env, host, b, hs, disk) && "" !in hs.assets
    ensures Distinguishes(PathOf, plan)
  {
    hide HostPlan;
    NoOtherAction(env, host, b, hs, disk);
    forall i, j | 0 <= i < |plan| && 0 <= j < |plan| && PathOf(plan[i]) == PathOf(plan[j]) ensures plan[i] == plan[j] {
      assert !(i < j) && !(j < i);
    }
  }

  lemma PlanSorted(env: Env, host: Host, b: Binary, hs: HostState, disk: Disk)
    requires "" !in hs.assets
    ensures SortedBy(PathOf, HostPlan(env, host, b, hs, disk))
  {
    hide Leq, Claims, HookComponent, NeedsHook, ActionAt, PlannedPaths, HostPlan, SortedPaths;
    var plan, h, sorted := HostPlan(env, host, b, hs, disk), |HookPlan(env, host, b, hs)|, SortedPaths(env, host, b, hs, disk);
    PlanShape(env, host, b, hs, disk);
    SortedPathsAre(env, host, b, hs, disk);
    PathsOnce(plan, h, sorted);
    forall i, j | 0 <= i < j < |plan| ensures Leq(PathOf(plan[i]), PathOf(plan[j])) {
      EmptyFirst(sorted[j - h]);
      assert i >= h ==> Leq(Self(sorted[i - h]), Self(sorted[j - h]));
    }
  }

  lemma EmptyFirst(p: string)
    ensures Leq("", p)
  {}
}
