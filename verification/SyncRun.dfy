/** What syncs, uninstalls and users do to a machine (internal/sync/sync.go, uninstall.go, backup.go): the files, the
    backup store and the saved state, through runs that may stop after any part of any action. Nobody edits a file
    while a run is at work. */
module SyncRun {
  import opened SyncPlan

  /** The machine. The store keeps one snapshot directory for each run; the last three are history: the payloads of
      every version that was run, every content a run overwrote or deleted, and the settings files a run wrote. */
  datatype World = World(
    disk: Disk, backups: map<(nat, Path), string>, saved: State, run: nat,
    shipped: set<string>, replaced: set<(Path, string)>, merged: set<Path>)

  function Fresh(disk: Disk): World {
    World(disk, map[], State("", map[]), 0, {}, {}, {})
  }

  // ---------------------------------------------------------------- one write or one removal

  /** A file to put or, when there is nothing to put, to remove; first into the backup store if need be. A merge is
      the write of a settings file, which is never backed up. */
  datatype Task = Task(path: Path, backup: bool, put: Option<string>, merge: bool := false)

  /** A snapshot of a file that is not there is refused, and ends the run. */
  predicate Fails(w: World, t: Task) {
    t.backup && t.path !in w.disk
  }

  function Snapshot(w: World, t: Task): World {
    if t.backup && t.path in w.disk then w.(backups := w.backups[(w.run, t.path) := w.disk[t.path]]) else w
  }

  function Put(w: World, p: Path, content: Option<string>): World {
    w.(disk := if content.Some? then w.disk[p := content.value] else w.disk - {p},
       replaced := w.replaced + if p in w.disk then {(p, w.disk[p])} else {})
  }

  /** The task with that content put, which is what it has to put or a part of it. */
  function Do(w: World, t: Task, content: Option<string>): World {
    var w' := Put(Snapshot(w, t), t.path, content);
    if t.merge then w'.(merged := w'.merged + {t.path}) else w'
  }

  function DoTask(w: World, t: Task): World {
    if Fails(w, t) then w else Do(w, t, t.put)
  }

  function RunTasks(w: World, ts: seq<Task>): World
    decreases ts
  {
    if ts == [] then w else if Fails(w, ts[0]) then w else RunTasks(DoTask(w, ts[0]), ts[1..])
  }

  predicate AllDone(w: World, ts: seq<Task>)
    decreases ts
  {
    ts == [] || (!Fails(w, ts[0]) && AllDone(DoTask(w, ts[0]), ts[1..]))
  }

  /** How much of its last task a run that stops gets done: nothing, the snapshot, or a file cut short as well. */
  datatype Part = Untouched | Snapshotted | Cropped(length: nat)

  function Torn(content: string, length: nat): string {
    if length <= |content| then content[..length] else content
  }

  function DoPart(w: World, t: Task, part: Part): World {
    if part.Untouched? || Fails(w, t) then w
    else if part.Snapshotted? || t.put.None? then Snapshot(w, t)
    else Do(w, t, Some(Torn(t.put.value, part.length)))
  }

  /** Where a run stops: nowhere, or in the middle of a task, counted over all its hosts. A run that stops saves
      no state. */
  datatype Cut = Whole | At(tasks: nat, part: Part)

  function RunCut(w: World, ts: seq<Task>, cut: Cut): World {
    if cut.Whole? || cut.tasks >= |ts| then RunTasks(w, ts)
    else
      var before := RunTasks(w, ts[..cut.tasks]);
      if AllDone(w, ts[..cut.tasks]) then DoPart(before, ts[cut.tasks], cut.part) else before
  }

  // ---------------------------------------------------------------- a sync

  /** What `applyAsset` does for an action: create writes, update writes over a snapshot, and so does a file that
      was changed when the run is forced. */
  predicate Writes(a: Action, force: bool) {
    a.class_.Create? || a.class_.Update? || (a.class_.Modified? && force)
  }

  function TasksFor(claims: map<Path, Claim>, a: Action, force: bool): seq<Task> {
    if Writes(a, force) && a.path in claims
    then [Task(a.path, !a.class_.Create?, Some(claims[a.path].file.content))] else []
  }

  function TasksOf(claims: map<Path, Claim>, plan: seq<Action>, force: bool): seq<Task> {
    if plan == [] then [] else TasksOf(claims, plan[..|plan| - 1], force) + TasksFor(claims, plan[|plan| - 1], force)
  }

  /** The state record a host has, unless its directory moved. */
  function RecordOf(s: State, host: Host): HostState {
    if host.name in s.hosts && s.hosts[host.name].configDir == host.configDir then s.hosts[host.name] else NO_HOST
  }

  function Applicable(host: string, cs: seq<Component>): seq<string> {
    if cs == [] then []
    else Applicable(host, cs[..|cs| - 1]) + if AppliesTo(host, cs[|cs| - 1]) then [cs[|cs| - 1].id] else []
  }

  /** `adoptHost`. */
  function Adopted(hs: HostState, host: Host, b: Binary): HostState {
    hs.(configDir := host.configDir, components := Applicable(host.name, b.components))
  }

  /** What an action records: the payload's digest for a file that was written or is right, the command for the
      hook. */
  function RecordAction(env: Env, b: Binary, claims: map<Path, Claim>, hs: HostState, a: Action, force: bool): HostState {
    if a.class_.Rewire? then hs.(hook := Some(Hook(b.command, true)))
    else if (Writes(a, force) || a.class_.Ok?) && a.path in claims
    then hs.(assets := hs.assets[a.path := Record(env.hash(claims[a.path].file.content), b.version)])
    else hs
  }

  function RecordPlan(env: Env, b: Binary, claims: map<Path, Claim>, hs: HostState, plan: seq<Action>, force: bool): HostState {
    if plan == [] then hs
    else RecordAction(env, b, claims, RecordPlan(env, b, claims, hs, plan[..|plan| - 1], force), plan[|plan| - 1], force)
  }

  predicate AnyWrite(plan: seq<Action>, force: bool) {
    exists i | 0 <= i < |plan| :: Writes(plan[i], force)
  }

  /** `applyHook`: the settings are wired for one host only, and written only if that changes their text. */
  function HookTasks(env: Env, b: Binary, host: Host, text: Option<string>): seq<Task> {
    if host.name != CLAUDE || Loaded(env, text).None? || text == Some(Wired(env, b.command, text)) then []
    else [Task(SettingsPath(host.configDir), false, Some(Wired(env, b.command, text)), true)]
  }

  function HostHookTasks(env: Env, b: Binary, host: Host, hs: HostState, disk: Disk): seq<Task> {
    if NeedsHook(env, HookComponent(host, b), hs.hook) then HookTasks(env, b, host, Read(disk, SettingsPath(host.configDir))) else []
  }

  /** Settings that are there and cannot be read refuse the host, and end the run. */
  predicate Refuses(env: Env, host: Host, disk: Disk) {
    host.name == CLAUDE && Loaded(env, Read(disk, SettingsPath(host.configDir))).None?
  }

  /** What one host's sync does: its tasks, the hook's first, the record after it, and whether that has to be saved. */
  datatype HostRun = HostRun(tasks: seq<Task>, record: HostState, dirty: bool)

  function HostRunOf(env: Env, b: Binary, host: Host, force: bool, disk: Disk, mem: State): HostRun {
    var hs, claims := RecordOf(mem, host), Claims(env, host, b);
    var plan := HostPlan(env, host, b, hs, disk);
    var after := RecordPlan(env, b, claims, Adopted(hs, host, b), plan, force);
    HostRun(HostHookTasks(env, b, host, hs, disk) + TasksOf(claims, plan, force), after,
            Adopted(hs, host, b) != hs || hs.assets == map[] || mem.version != b.version || after != Adopted(hs, host, b) ||
            AnyWrite(plan, force))
  }

  datatype Progress = Progress(w: World, mem: State, dirty: bool, refused: bool := false)

  function Less(cut: Cut, n: nat): Cut {
    if cut.At? && n <= cut.tasks then At(cut.tasks - n, cut.part) else cut
  }

  /** The hosts one after the other, each planned against the disk the one before it left. */
  function SyncFrom(env: Env, b: Binary, hosts: seq<Host>, force: bool, at: Progress, cut: Cut): Progress {
    if hosts == [] then at
    else if Refuses(env, hosts[0], at.w.disk) then at.(refused := true)
    else
      var run := HostRunOf(env, b, hosts[0], force, at.w.disk, at.mem);
      var w := RunCut(at.w, run.tasks, cut);
      if cut.At? && cut.tasks < |run.tasks| then at.(w := w)
      else
        SyncFrom(env, b, hosts[1..], force,
                 Progress(w, State(b.version, at.mem.hosts[hosts[0].name := run.record]), at.dirty || run.dirty),
                 Less(cut, |run.tasks|))
  }

  function PayloadsOf(files: seq<File>): set<string> {
    set i | 0 <= i < |files| :: files[i].content
  }

  function Payloads(b: Binary): set<string> {
    set id, c | id in b.files && c in PayloadsOf(b.files[id]) :: c
  }

  function NewRun(w: World, b: Binary): World {
    w.(run := w.run + 1, shipped := w.shipped + Payloads(b))
  }

  /** `SyncHosts`. */
  function Sync(env: Env, b: Binary, hosts: seq<Host>, force: bool, cut: Cut, w: World): World {
    var end := SyncFrom(env, b, hosts, force, Progress(NewRun(w, b), w.saved, false), cut);
    if cut.Whole? && !end.refused && end.dirty then end.w.(saved := end.mem) else end.w
  }

  // ---------------------------------------------------------------- an uninstall

  datatype Removal = Remove(backup: bool) | KeepOrphan | Refuse

  /** `classifyUninstallAsset`. */
  function Classify(env: Env, disk: Disk, claims: map<Path, Claim>, p: Path, r: Record, orphans: bool, force: bool): Removal {
    var modified := p in disk && env.hash(disk[p]) != r.digest;
    if p !in claims && !orphans then KeepOrphan
    else if modified && !force then Refuse
    else Remove(modified)
  }

  function RecordedHost(name: string, hs: HostState): Host {
    Host(name, hs.configDir, hs.configDir + "/skills")
  }

  function RemovalAt(env: Env, b: Binary, disk: Disk, name: string, hs: HostState, p: Path, orphans: bool, force: bool): Removal
    requires p in hs.assets
  {
    Classify(env, disk, Claims(env, RecordedHost(name, hs), b), p, hs.assets[p], orphans, force)
  }

  function RemovalTasks(env: Env, b: Binary, disk: Disk, name: string, hs: HostState, paths: seq<Path>, orphans: bool, force: bool): seq<Task>
    requires forall i | 0 <= i < |paths| :: paths[i] in hs.assets
  {
    if paths == [] then []
    else
      var p := paths[|paths| - 1];
      var r := RemovalAt(env, b, disk, name, hs, p, orphans, force);
      RemovalTasks(env, b, disk, name, hs, paths[..|paths| - 1], orphans, force) +
      if r.Remove? then [Task(p, r.backup, None)] else []
  }

  function HostTasks(env: Env, b: Binary, disk: Disk, name: string, hs: HostState, orphans: bool, force: bool): seq<Task> {
    SortedSetIs(hs.assets.Keys);
    RemovalTasks(env, b, disk, name, hs, SortedSet(hs.assets.Keys), orphans, force)
  }

  predicate HookWired(hs: HostState) {
    hs.hook.Some? && hs.hook.value.wired
  }

  /** The settings file of a host's hook; a directory the operator names stands for the one of `CLAUDE`. */
  function HookPath(name: string, hs: HostState, dir: string): Path {
    SettingsPath(if name == CLAUDE && dir != "" then dir else hs.configDir)
  }

  /** The plan keeps one settings file, that of the last host whose hook is wired. */
  function LastWired(s: State, names: seq<string>): (r: Option<string>)
    requires forall i | 0 <= i < |names| :: names[i] in s.hosts
    ensures r.Some? ==> r.value in names && HookWired(s.hosts[r.value])
  {
    if names == [] then None
    else if HookWired(s.hosts[names[|names| - 1]]) then Some(names[|names| - 1])
    else LastWired(s, names[..|names| - 1])
  }

  function UnwiredPath(s: State, dir: string): Option<Path> {
    SortedSetIs(s.hosts.Keys);
    var last := LastWired(s, SortedSet(s.hosts.Keys));
    if last.None? then None else Some(HookPath(last.value, s.hosts[last.value], dir))
  }

  /** What the hook action of any host writes: the kept settings without a gate, if they had one. */
  function UnwireTasks(env: Env, disk: Disk, s: State, dir: string): seq<Task> {
    var p := UnwiredPath(s, dir);
    if p.None? || Loaded(env, Read(disk, p.value)).None? then []
    else
      var text := Unwired(env, Read(disk, p.value));
      if text.None? then [] else [Task(p.value, false, text, true)]
  }

  function UninstallTasks(env: Env, b: Binary, disk: Disk, s: State, names: seq<string>, orphans: bool, force: bool, dir: string): seq<Task>
    requires forall i | 0 <= i < |names| :: names[i] in s.hosts
  {
    if names == [] then []
    else
      var name := names[|names| - 1];
      UninstallTasks(env, b, disk, s, names[..|names| - 1], orphans, force, dir) +
      (HostTasks(env, b, disk, name, s.hosts[name], orphans, force) +
       if HookWired(s.hosts[name]) then UnwireTasks(env, disk, s, dir) else [])
  }

  /** Some host's hook is wired in settings that cannot be read. */
  predicate Unreadable(env: Env, disk: Disk, s: State, dir: string) {
    exists name | name in s.hosts ::
      HookWired(s.hosts[name]) && Loaded(env, Read(disk, HookPath(name, s.hosts[name], dir))).None?
  }

  predicate Blocked(env: Env, b: Binary, disk: Disk, s: State, orphans: bool, force: bool) {
    exists name | name in s.hosts ::
      exists p | p in s.hosts[name].assets :: RemovalAt(env, b, disk, name, s.hosts[name], p, orphans, force).Refuse?
  }

  /** A host's record without what was removed, and without the hook if it was wired. */
  function Dropped(env: Env, b: Binary, disk: Disk, name: string, hs: HostState, orphans: bool, force: bool): HostState {
    hs.(assets := map p | p in hs.assets && !RemovalAt(env, b, disk, name, hs, p, orphans, force).Remove? :: hs.assets[p],
        hook := if HookWired(hs) then None else hs.hook)
  }

  /** Something of the host was removed or unwired. */
  predicate Touched(env: Env, b: Binary, disk: Disk, name: string, hs: HostState, orphans: bool, force: bool) {
    HookWired(hs) ||
    exists p | p in hs.assets :: RemovalAt(env, b, disk, name, hs, p, orphans, force).Remove?
  }

  predicate KeepsHost(env: Env, b: Binary, disk: Disk, name: string, hs: HostState, orphans: bool, force: bool) {
    var left := Dropped(env, b, disk, name, hs, orphans, force);
    !Touched(env, b, disk, name, hs, orphans, force) || left.assets != map[] || left.hook.Some?
  }

  function Cleaned(env: Env, b: Binary, disk: Disk, s: State, orphans: bool, force: bool): State {
    s.(hosts := map name | name in s.hosts && KeepsHost(env, b, disk, name, s.hosts[name], orphans, force) ::
                  Dropped(env, b, disk, name, s.hosts[name], orphans, force))
  }

  function AllTasks(env: Env, b: Binary, w: World, orphans: bool, force: bool, dir: string): seq<Task> {
    SortedSetIs(w.saved.hosts.Keys);
    UninstallTasks(env, b, w.disk, w.saved, SortedSet(w.saved.hosts.Keys), orphans, force, dir)
  }

  /** Every refusal comes before the first removal. */
  predicate Stops(env: Env, b: Binary, disk: Disk, s: State, orphans: bool, force: bool, dir: string) {
    Unreadable(env, disk, s, dir) || Blocked(env, b, disk, s, orphans, force)
  }

  /** `Uninstall`. */
  function Uninstall(env: Env, b: Binary, orphans: bool, force: bool, dir: string, cut: Cut, w: World): World {
    if Stops(env, b, w.disk, w.saved, orphans, force, dir) then w
    else
      var tasks, start := AllTasks(env, b, w, orphans, force, dir), w.(run := w.run + 1);
      var end := RunCut(start, tasks, cut);
      if cut.Whole? && AllDone(start, tasks) then end.(saved := Cleaned(env, b, w.disk, w.saved, orphans, force)) else end
  }

  // ---------------------------------------------------------------- a history

  datatype Event =
    | Edit(path: Path, content: Option<string>)
    | Syncing(binary: Binary, hosts: seq<Host>, force: bool, cut: Cut)
    | Uninstalling(binary: Binary, orphans: bool, force: bool, dir: string, cut: Cut)

  function Happen(env: Env, e: Event, w: World): World {
    match e
    case Edit(p, content) => w.(disk := if content.Some? then w.disk[p := content.value] else w.disk - {p})
    case Syncing(b, hosts, force, cut) => Sync(env, b, hosts, force, cut, w)
    case Uninstalling(b, orphans, force, dir, cut) => Uninstall(env, b, orphans, force, dir, cut, w)
  }

  function After(env: Env, disk: Disk, events: seq<Event>): World {
    if events == [] then Fresh(disk) else Happen(env, events[|events| - 1], After(env, disk, events[..|events| - 1]))
  }
}
