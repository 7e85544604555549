/** The plan of one host: what its disk, the state record and the manifest say of each path
    (internal/sync/plan.go). The disk is a map from paths to contents; directories are the prefixes of its paths. */
module SyncPlan {
  import opened Text
  import opened Sorting
  import Settings

  type Path = string
  type Disk = map<Path, string>

  datatype Option<T> = None | Some(value: T)

  /** One file the tool wrote: the digest it wrote and the version that wrote it. */
  datatype Record = Record(digest: string, version: string)

  datatype Hook = Hook(command: string, wired: bool)

  datatype HostState = HostState(configDir: string, components: seq<string>, hook: Option<Hook>, assets: map<Path, Record>)

  const NO_HOST := HostState("", [], None, map[])

  datatype State = State(version: string, hosts: map<string, HostState>)

  datatype Host = Host(name: string, configDir: string, skillsDir: string)

  datatype Component = Component(id: string, hook: bool, hosts: set<string>)

  /** A payload bound for a destination below its component's directory. */
  datatype File = File(source: string, rel: string, content: string)

  /** A shipped version: what it installs, and the hook command it wires. */
  datatype Binary = Binary(version: string, components: seq<Component>, files: map<string, seq<File>>, command: string)

  /** The digest of a content; whether a hook command runs a gate, and under a name it no longer ships under; and the
      reader and the printer of settings, of which the reader answers nothing for a text that is no JSON object. */
  datatype Env = Env(
    hash: string -> string, legacy: string -> bool, gate: string -> bool,
    parse: string -> Option<Settings.Fields>, marshal: Settings.Fields -> string)

  datatype Claim = Claim(component: string, file: File, path: Path)

  // ---------------------------------------------------------------- what the manifest claims

  predicate AppliesTo(host: string, c: Component) {
    host != "" && ("*" in c.hosts || host in c.hosts)
  }

  function Destination(host: Host, component: string, rel: string): Path {
    host.skillsDir + "/" + component + "/" + rel
  }

  function ClaimKey(env: Env, c: Claim): string {
    c.component + "\0" + c.file.source + "\0" + c.file.rel + "\0" + env.hash(c.file.content)
  }

  function FileClaims(host: Host, id: string, files: seq<File>): (r: seq<Claim>)
    ensures |r| == |files| && forall i | 0 <= i < |r| :: r[i] == Claim(id, files[i], Destination(host, id, files[i].rel))
  {
    seq(|files|, i requires 0 <= i < |files| => Claim(id, files[i], Destination(host, id, files[i].rel)))
  }

  function ClaimsFrom(host: Host, c: Component, files: map<string, seq<File>>): seq<Claim> {
    if AppliesTo(host.name, c) && !c.hook && c.id in files then FileClaims(host, c.id, files[c.id]) else []
  }

  /** The claims of the components in the order given, each component's in the order of its files. */
  function Candidates(host: Host, cs: seq<Component>, files: map<string, seq<File>>): seq<Claim> {
    if cs == [] then [] else Candidates(host, cs[..|cs| - 1], files) + ClaimsFrom(host, cs[|cs| - 1], files)
  }

  /** The smaller key wins a path. */
  function Keep(env: Env, m: map<Path, Claim>, c: Claim): map<Path, Claim> {
    if c.path in m && Leq(ClaimKey(env, m[c.path]), ClaimKey(env, c)) then m else m[c.path := c]
  }

  function Winners(env: Env, cs: seq<Claim>): map<Path, Claim> {
    if cs == [] then map[] else Keep(env, Winners(env, cs[..|cs| - 1]), cs[|cs| - 1])
  }

  function FirstHook(host: Host, cs: seq<Component>): string {
    if cs == [] then ""
    else
      var h := FirstHook(host, cs[..|cs| - 1]);
      var c := cs[|cs| - 1];
      if h == "" && AppliesTo(host.name, c) && c.hook then c.id else h
  }

  function IdOf(c: Component): string {
    c.id
  }

  function Claims(env: Env, host: Host, b: Binary): map<Path, Claim> {
    Winners(env, Candidates(host, SortBy(IdOf, b.components), b.files))
  }

  function HookComponent(host: Host, b: Binary): string {
    FirstHook(host, SortBy(IdOf, b.components))
  }

  /** `manifestClaims`. */
  method ManifestClaims(env: Env, host: Host, b: Binary) returns (claims: map<Path, Claim>, hook: string)
    ensures claims == Claims(env, host, b) && hook == HookComponent(host, b)
  {
    hide Leq, SortBy, ClaimKey, Destination, Keep, Winners;
    var ordered := SortBy(IdOf, b.components);
    claims, hook := map[], "";
    NoWinners(env);
    for i := 0 to |ordered|
      invariant claims == Winners(env, Candidates(host, ordered[..i], b.files)) && hook == FirstHook(host, ordered[..i])
    {
      assert ordered[..i + 1][..i] == ordered[..i];
      var component := ordered[i];
      ghost var before := Candidates(host, ordered[..i], b.files);
      assert before + [] == before;
      if !AppliesTo(host.name, component) {
        continue;
      }
      if component.hook {
        if hook == "" {
          hook := component.id;
        }
        continue;
      }
      if component.id in b.files {
        claims := ComponentClaims(env, host, component.id, b.files[component.id], before, claims);
      }
    }
    assert ordered[..|ordered|] == ordered;
  }

  lemma NoWinners(env: Env)
    ensures Winners(env, []) == map[]
  {}

  /** The inner loop over the files of one component. */
  method ComponentClaims(env: Env, host: Host, id: string, files: seq<File>, ghost before: seq<Claim>, claims: map<Path, Claim>)
    returns (r: map<Path, Claim>)
    requires claims == Winners(env, before)
    ensures r == Winners(env, before + FileClaims(host, id, files))
  {
    hide Leq, ClaimKey, Destination, Winners;
    ghost var more := FileClaims(host, id, files);
    assert before + more[..0] == before;
    r := claims;
    for j := 0 to |files|
      invariant r == Winners(env, before + more[..j])
    {
      var claim := Claim(id, files[j], Destination(host, id, files[j].rel));
      WinnersNext(env, before, more, j);
      if claim.path !in r || !Leq(ClaimKey(env, r[claim.path]), ClaimKey(env, claim)) {
        r := r[claim.path := claim];
      }
    }
    assert more[..|files|] == more;
  }

  lemma WinnersNext(env: Env, a: seq<Claim>, b: seq<Claim>, j: nat)
    requires j < |b|
    ensures Winners(env, a + b[..j + 1]) == Keep(env, Winners(env, a + b[..j]), b[j])
  {
    hide Keep;
    var s := a + b[..j + 1];
    assert s[..|s| - 1] == a + b[..j] && s[|s| - 1] == b[j];
  }

  /** A path is claimed exactly when some claim has it, and by a claim of the smallest key. */
  lemma {:induction false} WinnersAre(env: Env, cs: seq<Claim>, p: Path)
    ensures p in Winners(env, cs) <==> exists i | 0 <= i < |cs| :: cs[i].path == p
    ensures p in Winners(env, cs) ==> Winners(env, cs)[p] in cs && Winners(env, cs)[p].path == p
    ensures p in Winners(env, cs) ==>
              forall i | 0 <= i < |cs| && cs[i].path == p :: Leq(ClaimKey(env, Winners(env, cs)[p]), ClaimKey(env, cs[i]))
  {
    hide Leq, ClaimKey;
    if cs != [] {
      var n := |cs| - 1;
      WinnersAre(env, cs[..n], p);
      var m := Winners(env, cs[..n]);
      assert forall i | 0 <= i < n :: cs[i] == cs[..n][i];
      if p in m {
        LeqTotal(ClaimKey(env, m[p]), ClaimKey(env, cs[n]));
        forall i | 0 <= i < n && cs[i].path == p && !Leq(ClaimKey(env, m[p]), ClaimKey(env, cs[n]))
          ensures Leq(ClaimKey(env, cs[n]), ClaimKey(env, cs[i]))
        {
          assert cs[..n][i] == cs[i];
          LeqTrans(ClaimKey(env, cs[n]), ClaimKey(env, m[p]), ClaimKey(env, cs[i]));
        }
      }
      LeqTotal(ClaimKey(env, cs[n]), ClaimKey(env, cs[n]));
    }
  }

  // ---------------------------------------------------------------- what is planned for a path

  datatype Class = Create | Update | Ok | Modified | Orphan | Foreign | Rewire

  datatype Action = Action(class_: Class, component: string, path: Path)

  /** `planAsset`: the disk against the manifest, then against the record. */
  function AssetClass(env: Env, disk: Disk, claim: Claim, assets: map<Path, Record>): Class {
    if claim.path !in disk then Create
    else
      var digest := env.hash(disk[claim.path]);
      if digest == env.hash(claim.file.content) then Ok
      else if claim.path !in assets then Update
      else if assets[claim.path].digest == digest then Update
      else Modified
  }

  predicate Under(dir: string, p: Path) {
    HasPrefix(p, dir + "/")
  }

  /** `listFiles`. */
  function FilesUnder(disk: Disk, dir: string): set<Path> {
    set p | p in disk && Under(dir, p)
  }

  predicate HookReady(h: Option<Hook>) {
    h.Some? && h.value.wired && Trim(h.value.command) != ""
  }

  predicate NeedsHook(env: Env, component: string, h: Option<Hook>) {
    component != "" && (!HookReady(h) || env.legacy(h.value.command))
  }

  /** `orphanComponent`. */
  function OrphanComponent(host: Host, hs: HostState, p: Path): string {
    if !Under(host.skillsDir, p) then ""
    else
      var rel := p[|host.skillsDir| + 1..];
      var end := Index(rel, "/");
      var component := if end < 0 then rel else rel[..end];
      if component in hs.components then component else ""
  }

  function ActionAt(env: Env, host: Host, claims: map<Path, Claim>, hs: HostState, disk: Disk, p: Path): Action {
    if p in claims then Action(AssetClass(env, disk, claims[p], hs.assets), claims[p].component, p)
    else if p in hs.assets then Action(Orphan, OrphanComponent(host, hs, p), p)
    else Action(Foreign, "", p)
  }

  function PlannedPaths(host: Host, claims: map<Path, Claim>, hs: HostState, disk: Disk): set<Path> {
    claims.Keys + hs.assets.Keys + FilesUnder(disk, host.skillsDir)
  }

  predicate LeastOf(s: set<string>, m: string) {
    m in s && forall x | x in s :: Leq(m, x)
  }

  lemma {:induction false} LeastExists(s: set<string>) returns (m: string)
    requires s != {}
    ensures LeastOf(s, m)
  {
    hide Leq;
    var y :| y in s;
    LeqTotal(y, y);
    var rest := s - {y};
    if rest == {} {
      assert s == {y};
      m := y;
    } else {
      m := LeastExists(rest);
      LeqTotal(y, m);
      if Leq(y, m) {
        forall x | x in s ensures Leq(y, x) {
          if x != y {
            LeqTrans(y, m, x);
          }
        }
        m := y;
      }
    }
  }

  lemma LeastOnce(s: set<string>, m: string, n: string)
    requires LeastOf(s, m) && LeastOf(s, n)
    ensures m == n
  {
    hide Leq;
    LeqTotal(m, n);
  }

  lemma OneLeast(s: set<string>)
    requires s != {}
    ensures exists m :: LeastOf(s, m)
    ensures forall m, n | LeastOf(s, m) && LeastOf(s, n) :: m == n
  {
    hide LeastOf;
    var m := LeastExists(s);
    forall m, n | LeastOf(s, m) && LeastOf(s, n) ensures m == n {
      LeastOnce(s, m, n);
    }
  }

  /** The elements of a set, sorted. */
  function SortedSet(s: set<string>): seq<string> {
    if s == {} then []
    else
      OneLeast(s);
      var m :| LeastOf(s, m);
      [m] + SortedSet(s - {m})
  }

  lemma {:induction false} SortedSetIs(s: set<string>)
    ensures SortedBy(Self, SortedSet(s)) && |SortedSet(s)| == |s|
    ensures forall x :: x in SortedSet(s) <==> x in s
    ensures forall i, j | 0 <= i < j < |SortedSet(s)| :: SortedSet(s)[i] != SortedSet(s)[j]
  {
    hide Leq;
    if s != {} {
      OneLeast(s);
      var m :| LeastOf(s, m);
      SortedSetIs(s - {m});
      var rest := SortedSet(s - {m});
      assert SortedSet(s) == [m] + rest;
      forall j | 0 <= j < |rest| ensures Leq(m, rest[j]) && rest[j] != m {
        assert rest[j] in s - {m};
      }
    }
  }

  function Actions(env: Env, host: Host, claims: map<Path, Claim>, hs: HostState, disk: Disk, paths: seq<Path>): (r: seq<Action>)
    ensures |r| == |paths| && forall i | 0 <= i < |r| :: r[i] == ActionAt(env, host, claims, hs, disk, paths[i])
  {
    seq(|paths|, i requires 0 <= i < |paths| => ActionAt(env, host, claims, hs, disk, paths[i]))
  }

  /** The plan of one host: the hook, which has no path, and then every path in order. */
  function HostPlan(env: Env, host: Host, b: Binary, hs: HostState, disk: Disk): seq<Action> {
    var claims, hook := Claims(env, host, b), HookComponent(host, b);
    (if NeedsHook(env, hook, hs.hook) then [Action(Rewire, hook, "")] else []) +
    Actions(env, host, claims, hs, disk, SortedSet(PlannedPaths(host, claims, hs, disk)))
  }

  // ---------------------------------------------------------------- the settings file

  /** The one host whose settings a sync wires. */
  const CLAUDE := "claude"

  function SettingsPath(dir: string): Path {
    dir + "/settings.json"
  }

  function Read(disk: Disk, p: Path): Option<string> {
    if p in disk then Some(disk[p]) else None
  }

  /** `loadSettings`: no file is no settings. */
  function Loaded(env: Env, text: Option<string>): Option<Settings.Fields> {
    if text.None? then Some(map[]) else env.parse(text.value)
  }

  /** The text with the command wired. */
  function Wired(env: Env, command: string, text: Option<string>): string
    requires Loaded(env, text).Some?
  {
    env.marshal(Settings.Wire(env.gate, command, Loaded(env, text).value))
  }

  /** The text without any gate, if it has one. */
  function Unwired(env: Env, text: Option<string>): Option<string>
    requires Loaded(env, text).Some?
  {
    var s := Loaded(env, text).value;
    if Settings.HasGate(env.gate, s) then Some(env.marshal(Settings.Unwire(env.gate, s))) else None
  }
}
