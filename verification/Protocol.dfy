/** The write protocol of a plan: any number of writers, one lock, a bounded wait that may win the lock too late,
    a comparison with what was read before, a replacement by one rename, and crashes anywhere
    (internal/plan/addfinding.go: AddFinding, LockPlan, writePlan; internal/plan/upgrade.go: Upgrade;
    internal/admit/admit.go: recordResults, writeRecorded, lockPlanWithBound, writeRecordedAtomically).
    A run is a sequence of steps of its processes in any order; a step that is not enabled changes nothing. */
module Protocol {
  import opened Section
  import opened FindingLaws
  import opened Writers

  type Pid = nat

  datatype Option<T> = None | Some(value: T)

  /** The goroutine that waits for the lock of a recording, once its caller stopped waiting for it. */
  datatype Helper = StillWaiting | WonLate | Gone

  /** What a writer brings to the lock: nothing, or the document a recording read before its rows ran and the one
      it computed from that. */
  datatype Draft = NoDraft | Draft(raw: string, next: string)

  /** Where a writer is. Under the lock it replaces `base`, which is what it found there, with `next`; `temp` is
      what it has written of that to its temporary file. */
  datatype Phase =
    | Started
    | Waiting(draft: Draft)
    | Won(draft: Draft)
    | Locked(draft: Draft)
    | HasRead(draft: Draft, now: string)
    | Writing(base: string, next: string, temp: string)
    | Renamed(base: string, next: string)
    | Ended(ok: bool)
    | GaveUp(helper: Helper)
    | Crashed

  datatype Proc = Proc(task: Task, phase: Phase)

  datatype Commit = Commit(p: Pid, task: Task, base: string, next: string)

  datatype State = State(disk: string, owner: Option<Pid>, procs: map<Pid, Proc>, log: seq<Commit>)

  datatype Action =
    | Start(task: Task) | ReadBefore | TakeLock | Deliver | TimeOut | GiveBack
    | ReadUnder | Compute | WritePart(count: nat) | Rename | Finish(synced: bool) | Fail | Crash

  datatype Step = Step(p: Pid, action: Action)

  // ---------------------------------------------------------------- one step

  /** The process has the lock: its own thread, or the helper that waits in its place. */
  predicate Holds(ph: Phase) {
    ph.Won? || ph.Locked? || ph.HasRead? || ph.Writing? || ph.Renamed? || ph == GaveUp(WonLate)
  }

  function Move(s: State, p: Pid, ph: Phase): State
    requires p in s.procs
  {
    s.(procs := s.procs[p := Proc(s.procs[p].task, ph)])
  }

  /** A process that ends, however it does, has given its lock back. */
  function Leave(s: State, p: Pid, ph: Phase): State
    requires p in s.procs
  {
    Move(s, p, ph).(owner := if s.owner == Some(p) then None else s.owner)
  }

  /** Under the lock: a recording compares what it reads now with what it read before its rows ran, and writes
      the document it computed then; the others compute theirs from what they read. */
  function Computed(s: State, p: Pid, task: Task, draft: Draft, now: string): State
    requires p in s.procs
  {
    if draft.Draft? then
      if draft.raw != now then Leave(s, p, Ended(false)) else Move(s, p, Writing(now, draft.next, ""))
    else
      match CandidateOf(task, now)
      case Write(next) => Move(s, p, Writing(now, next, ""))
      case Nothing => Leave(s, p, Ended(true))
      case Refuse => Leave(s, p, Ended(false))
  }

  /** A recording reads the plan before it asks for the lock, and asks only when it has something to write. */
  function ReadFirst(s: State, p: Pid, task: Task): State
    requires p in s.procs
  {
    if !task.Admit? then Move(s, p, Waiting(NoDraft))
    else
      match CandidateOf(task, s.disk)
      case Write(next) => Move(s, p, Waiting(Draft(s.disk, next)))
      case Nothing => Move(s, p, Ended(true))
      case Refuse => Move(s, p, Ended(false))
  }

  function Do(s: State, step: Step): State {
    var p := step.p;
    if step.action.Start? then
      if p in s.procs then s else s.(procs := s.procs[p := Proc(step.action.task, Started)])
    else if p !in s.procs then s
    else
      var task, ph := s.procs[p].task, s.procs[p].phase;
      match step.action
      case Start(_) => s
      case ReadBefore => if ph.Started? then ReadFirst(s, p, task) else s
      case TakeLock =>
        if s.owner.Some? then s
        else if ph.Waiting? then
          Move(s, p, if task.Admit? then Won(ph.draft) else Locked(ph.draft)).(owner := Some(p))
        else if ph == GaveUp(StillWaiting) then Move(s, p, GaveUp(WonLate)).(owner := Some(p))
        else s
      case Deliver => if ph.Won? then Move(s, p, Locked(ph.draft)) else s
      case TimeOut =>
        if ph.Waiting? && task.Admit? then Move(s, p, GaveUp(StillWaiting))
        else if ph.Won? then Move(s, p, GaveUp(WonLate))
        else s
      case GiveBack => if ph == GaveUp(WonLate) then Leave(s, p, GaveUp(Gone)) else s
      case ReadUnder => if ph.Locked? then Move(s, p, HasRead(ph.draft, s.disk)) else s
      case Compute => if ph.HasRead? then Computed(s, p, task, ph.draft, ph.now) else s
      case WritePart(count) =>
        if ph.Writing? && |ph.temp| + count <= |ph.next|
        then Move(s, p, Writing(ph.base, ph.next, ph.temp + ph.next[|ph.temp|..|ph.temp| + count])) else s
      case Rename =>
        if ph.Writing? && |ph.temp| == |ph.next|
        then Move(s, p, Renamed(ph.base, ph.next)).(disk := ph.temp, log := s.log + [Commit(p, task, ph.base, ph.temp)])
        else s
      case Finish(synced) => if ph.Renamed? then Leave(s, p, Ended(synced || !task.Admit?)) else s
      case Fail =>
        if ph.Started? || ph.Waiting? || ph.Locked? || ph.HasRead? || ph.Writing? then Leave(s, p, Ended(false)) else s
      case Crash => Leave(s, p, Crashed)
  }

  function Run(s: State, steps: seq<Step>): State {
    if steps == [] then s else Do(Run(s, steps[..|steps| - 1]), steps[|steps| - 1])
  }

  function Init(doc: string): State {
    State(doc, None, map[], [])
  }

  /** The state any interleaving of any writers reaches from a document. */
  function After(doc: string, steps: seq<Step>): State {
    Run(Init(doc), steps)
  }

  // ---------------------------------------------------------------- what every step keeps

  /** Each commit replaced exactly the content it was computed from, and the last one is on disk. */
  predicate Chain(log: seq<Commit>, first: string, last: string) {
    if log == [] then last == first
    else
      var c := log[|log| - 1];
      c.next == last && CandidateOf(c.task, c.base) == Write(c.next) && Chain(log[..|log| - 1], first, c.base)
  }

  predicate DraftOk(task: Task, draft: Draft) {
    draft.Draft? ==> CandidateOf(task, draft.raw) == Write(draft.next)
  }

  ghost predicate ProcOk(s: State, p: Pid)
    requires p in s.procs
  {
    var task, ph := s.procs[p].task, s.procs[p].phase;
    && (Holds(ph) <==> s.owner == Some(p))
    && (ph.Waiting? || ph.Won? || ph.Locked? || ph.HasRead? ==> DraftOk(task, ph.draft))
    && (ph.HasRead? ==> ph.now == s.disk)
    && (ph.Writing? ==> ph.base == s.disk && CandidateOf(task, ph.base) == Write(ph.next) &&
                        |ph.temp| <= |ph.next| && ph.temp == ph.next[..|ph.temp|])
    && (ph.Won? ==> task.Admit?)
    && (ph.GaveUp? ==> task.Admit?)
    && (ph.Renamed? || (ph == Ended(true) && task.Add?) ==> exists k | 0 <= k < |s.log| :: s.log[k].p == p)
  }

  ghost predicate CommitOk(s: State, k: nat)
    requires k < |s.log|
  {
    var c := s.log[k];
    && c.p in s.procs && c.task == s.procs[c.p].task
    && (var ph := s.procs[c.p].phase; ph.Renamed? || ph.Ended? || ph.Crashed?)
  }

  ghost predicate Inv(s: State, first: string) {
    && Chain(s.log, first, s.disk)
    && (s.owner.Some? ==> s.owner.value in s.procs)
    && (forall p | p in s.procs :: ProcOk(s, p))
    && (forall k | 0 <= k < |s.log| :: CommitOk(s, k))
  }

  /** A step of one process that leaves the disk and the log alone. */
  lemma MoveKeeps(s: State, first: string, p: Pid, s': State)
    requires Inv(s, first) && p in s.procs && s'.procs.Keys == s.procs.Keys
    requires s'.disk == s.disk && s'.log == s.log && s'.procs[p].task == s.procs[p].task
    requires forall q | q in s.procs && q != p :: s'.procs[q] == s.procs[q]
    requires s'.owner == s.owner || (s.owner == None && s'.owner == Some(p)) || (s.owner == Some(p) && s'.owner == None)
    requires ProcOk(s', p)
    requires (forall k | 0 <= k < |s.log| :: s.log[k].p != p) ||
             s'.procs[p].phase.Renamed? || s'.procs[p].phase.Ended? || s'.procs[p].phase.Crashed?
    ensures Inv(s', first)
  {
    hide CandidateOf, Chain;
    forall q | q in s'.procs ensures ProcOk(s', q) {
      if q != p {
        assert ProcOk(s, q);
      }
    }
    forall k | 0 <= k < |s'.log| ensures CommitOk(s', k) {
      assert CommitOk(s, k);
    }
  }

  /** Only a process that renamed, ended or crashed has a commit. */
  lemma NoCommitYet(s: State, first: string, p: Pid)
    requires Inv(s, first) && p in s.procs
    requires var ph := s.procs[p].phase; !ph.Renamed? && !ph.Ended? && !ph.Crashed?
    ensures forall k | 0 <= k < |s.log| :: s.log[k].p != p
  {
    hide CandidateOf, Chain, ProcOk;
    forall k | 0 <= k < |s.log| ensures s.log[k].p != p {
      assert CommitOk(s, k);
    }
  }

  lemma StartKeeps(s: State, first: string, p: Pid, task: Task)
    requires Inv(s, first)
    ensures Inv(Do(s, Step(p, Start(task))), first)
  {
    hide CandidateOf, Chain;
    var s' := Do(s, Step(p, Start(task)));
    forall q | q in s'.procs ensures ProcOk(s', q) {
      if q in s.procs {
        assert ProcOk(s, q);
      }
    }
    forall k | 0 <= k < |s'.log| ensures CommitOk(s', k) {
      assert CommitOk(s, k);
    }
  }

  predicate CanRename(s: State, p: Pid) {
    p in s.procs && s.procs[p].phase.Writing? && |s.procs[p].phase.temp| == |s.procs[p].phase.next|
  }

  lemma RenameProcs(s: State, first: string, p: Pid)
    requires Inv(s, first) && CanRename(s, p)
    ensures forall q | q in Do(s, Step(p, Rename)).procs :: ProcOk(Do(s, Step(p, Rename)), q)
  {
    hide CandidateOf, Chain, CommitOk;
    var s' := Do(s, Step(p, Rename));
    assert ProcOk(s, p);
    assert s'.log[..|s.log|] == s.log && s'.log[|s.log|].p == p;
    forall q | q in s'.procs ensures ProcOk(s', q) {
      if q != p {
        assert ProcOk(s, q);
        if s.procs[q].phase.Renamed? || (s.procs[q].phase == Ended(true) && s.procs[q].task.Add?) {
          var k :| 0 <= k < |s.log| && s.log[k].p == q;
          assert s'.log[k].p == q;
        }
      }
    }
  }

  lemma RenameCommits(s: State, first: string, p: Pid)
    requires Inv(s, first) && CanRename(s, p)
    ensures forall k | 0 <= k < |Do(s, Step(p, Rename)).log| :: CommitOk(Do(s, Step(p, Rename)), k)
  {
    hide CandidateOf, Chain;
    var s', ph := Do(s, Step(p, Rename)), s.procs[p].phase;
    assert ProcOk(s, p) && ph.temp == ph.next;
    NoCommitYet(s, first, p);
    forall k | 0 <= k < |s'.log| ensures CommitOk(s', k) {
      if k < |s.log| {
        assert CommitOk(s, k);
      }
    }
  }

  lemma RenameKeeps(s: State, first: string, p: Pid)
    requires Inv(s, first) && p in s.procs
    ensures Inv(Do(s, Step(p, Rename)), first)
  {
    hide CandidateOf, CommitOk;
    if CanRename(s, p) {
      var s' := Do(s, Step(p, Rename));
      assert ProcOk(s, p);
      assert s'.log[..|s'.log| - 1] == s.log;
      RenameProcs(s, first, p);
      RenameCommits(s, first, p);
    }
  }

  lemma EndKeeps(s: State, first: string, p: Pid, ph: Phase)
    requires Inv(s, first) && p in s.procs && (ph == Crashed || ph == Ended(false))
    ensures Inv(Leave(s, p, ph), first)
  {
    hide CandidateOf, Chain;
    assert ProcOk(s, p);
    MoveKeeps(s, first, p, Leave(s, p, ph));
  }

  lemma WaitKeeps(s: State, first: string, p: Pid, action: Action)
    requires Inv(s, first) && p in s.procs
    requires action.TakeLock? || action.Deliver? || action.TimeOut? || action.GiveBack? || action.ReadUnder?
    ensures Inv(Do(s, Step(p, action)), first)
  {
    hide CandidateOf, Chain, Inv, CommitOk, ReadFirst, Computed;
    var s' := Do(s, Step(p, action));
    ProcIsOk(s, first, p);
    if s' != s {
      NoCommitYet(s, first, p);
      MoveKeeps(s, first, p, s');
    }
  }

  lemma WorkKeeps(s: State, first: string, p: Pid, action: Action)
    requires Inv(s, first) && p in s.procs
    requires action.ReadBefore? || action.Compute? || action.WritePart?
    ensures Inv(Do(s, Step(p, action)), first)
  {
    hide CandidateOf, Chain, Inv, CommitOk, ReadFirst, Computed, ProcOk;
    var s', task := Do(s, Step(p, action)), s.procs[p].task;
    ProcIsOk(s, first, p);
    if s' != s {
      NoCommitYet(s, first, p);
      WorkMoves(s, first, p, action);
      MoveKeeps(s, first, p, s');
    }
  }

  lemma ProcIsOk(s: State, first: string, p: Pid)
    requires Inv(s, first) && p in s.procs
    ensures ProcOk(s, p)
  {
    hide ProcOk, Chain, CommitOk;
  }

  /** A process at work changes its own place, and at most gives its lock back. */
  lemma WorkMoves(s: State, first: string, p: Pid, action: Action)
    requires p in s.procs && ProcOk(s, p)
    requires action.ReadBefore? || action.Compute? || action.WritePart?
    ensures var s' := Do(s, Step(p, action));
            s'.procs.Keys == s.procs.Keys && s'.disk == s.disk && s'.log == s.log && s'.procs[p].task == s.procs[p].task &&
            (forall q | q in s.procs && q != p :: s'.procs[q] == s.procs[q]) &&
            (s'.owner == s.owner || (s.owner == Some(p) && s'.owner == None)) && ProcOk(s', p)
  {
    hide CandidateOf;
    var task := s.procs[p].task;
    if task.Add? {
      AddWrites(task, s.disk);
    }
  }

  /** Adding a finding either writes or refuses: it never has nothing to do. */
  lemma AddWrites(task: Task, doc: string)
    requires task.Add?
    ensures CandidateOf(task, doc) != Nothing
  {
  }

  lemma FinishKeeps(s: State, first: string, p: Pid, synced: bool)
    requires Inv(s, first) && p in s.procs
    ensures Inv(Do(s, Step(p, Finish(synced))), first)
  {
    hide CandidateOf, Chain;
    var s' := Do(s, Step(p, Finish(synced)));
    assert ProcOk(s, p);
    if s.procs[p].phase.Renamed? {
      MoveKeeps(s, first, p, s');
    }
  }

  lemma StepKeeps(s: State, first: string, step: Step)
    requires Inv(s, first)
    ensures Inv(Do(s, step), first)
  {
    hide CandidateOf, Chain, ProcOk, CommitOk, Inv, ReadFirst, Computed;
    var p := step.p;
    match step.action
    case Start(task) => StartKeeps(s, first, p, task);
    case Rename => if p in s.procs { RenameKeeps(s, first, p); }
    case Finish(synced) => if p in s.procs { FinishKeeps(s, first, p, synced); }
    case Crash => if p in s.procs { EndKeeps(s, first, p, Crashed); }
    case Fail => if p in s.procs { EndKeeps(s, first, p, Ended(false)); }
    case ReadBefore => if p in s.procs { WorkKeeps(s, first, p, ReadBefore); }
    case Compute => if p in s.procs { WorkKeeps(s, first, p, Compute); }
    case WritePart(count) => if p in s.procs { WorkKeeps(s, first, p, WritePart(count)); }
    case TakeLock => if p in s.procs { WaitKeeps(s, first, p, TakeLock); }
    case Deliver => if p in s.procs { WaitKeeps(s, first, p, Deliver); }
    case TimeOut => if p in s.procs { WaitKeeps(s, first, p, TimeOut); }
    case GiveBack => if p in s.procs { WaitKeeps(s, first, p, GiveBack); }
    case ReadUnder => if p in s.procs { WaitKeeps(s, first, p, ReadUnder); }
  }

  lemma {:induction false} RunKeeps(doc: string, steps: seq<Step>)
    ensures Inv(After(doc, steps), doc)
  {
    hide Do, Inv;
    if steps == [] {
      InitOk(doc);
    } else {
      RunKeeps(doc, steps[..|steps| - 1]);
      StepKeeps(After(doc, steps[..|steps| - 1]), doc, steps[|steps| - 1]);
    }
  }

  lemma InitOk(doc: string)
    ensures Inv(Init(doc), doc)
  {}

  // ---------------------------------------------------------------- safety

  /** Every interleaving leaves a chain of whole documents: the first commit replaced the first document, each
      later one the document the one before it wrote, and the last one is what is on disk. */
  lemma CommitsChain(doc: string, steps: seq<Step>)
    ensures var s := After(doc, steps);
            Chain(s.log, doc, s.disk) &&
            (s.log == [] ==> s.disk == doc) &&
            (s.log != [] ==> s.log[0].base == doc && s.log[|s.log| - 1].next == s.disk) &&
            forall k | 0 < k < |s.log| :: s.log[k].base == s.log[k - 1].next
  {
    hide CandidateOf, Do, CommitOk, ProcOk;
    RunKeeps(doc, steps);
    var s := After(doc, steps);
    ChainLinks(s.log, doc, s.disk);
  }

  lemma {:induction false} ChainLinks(log: seq<Commit>, first: string, last: string)
    requires Chain(log, first, last)
    ensures log != [] ==> log[0].base == first && log[|log| - 1].next == last
    ensures forall k | 0 < k < |log| :: log[k].base == log[k - 1].next
  {
    hide CandidateOf;
    if log != [] {
      var less := log[..|log| - 1];
      ChainLinks(less, first, log[|log| - 1].base);
      forall k | 0 < k < |log| ensures log[k].base == log[k - 1].next {
        if k < |less| {
          assert less[k] == log[k] && less[k - 1] == log[k - 1];
        } else {
          assert less[k - 1] == log[k - 1];
        }
      }
    }
  }

  /** Two processes never hold the lock at once, counting the helper of a recording that timed out. */
  lemma MutualExclusion(doc: string, steps: seq<Step>, p: Pid, q: Pid)
    requires var s := After(doc, steps); p in s.procs && q in s.procs && p != q
    ensures var s := After(doc, steps); !(Holds(s.procs[p].phase) && Holds(s.procs[q].phase))
  {
    hide CandidateOf, Do, Chain;
    RunKeeps(doc, steps);
    var s := After(doc, steps);
    assert ProcOk(s, p) && ProcOk(s, q);
  }

  /** The disk changes only at a rename, and then from the content the writer computed its document from to that
      whole document. */
  lemma WritesAreWhole(doc: string, steps: seq<Step>, step: Step)
    ensures var s, s' := After(doc, steps), Do(After(doc, steps), step);
            s'.disk != s.disk || s'.log != s.log ==>
              step.action == Rename && step.p in s.procs &&
              CandidateOf(s.procs[step.p].task, s.disk) == Write(s'.disk) &&
              s'.log == s.log + [Commit(step.p, s.procs[step.p].task, s.disk, s'.disk)]
  {
    hide CandidateOf, Chain;
    RunKeeps(doc, steps);
    var s := After(doc, steps);
    if step.p in s.procs {
      assert ProcOk(s, step.p);
    }
  }

  lemma {:induction false} RunMore(s: State, steps: seq<Step>, more: seq<Step>)
    ensures Run(s, steps + more) == Run(Run(s, steps), more)
  {
    hide Do;
    if more == [] {
      assert steps + more == steps;
    } else {
      assert (steps + more)[..|steps + more| - 1] == steps + more[..|more| - 1];
      RunMore(s, steps, more[..|more| - 1]);
    }
  }

  lemma {:induction false} StaysGivenUp(s: State, steps: seq<Step>, p: Pid)
    requires p in s.procs && s.procs[p].phase.GaveUp?
    ensures p in Run(s, steps).procs && (Run(s, steps).procs[p].phase.GaveUp? || Run(s, steps).procs[p].phase.Crashed?)
  {
    hide CandidateOf;
    if steps != [] {
      StaysGivenUp(s, steps[..|steps| - 1], p);
      var t := Run(s, steps[..|steps| - 1]);
      StepGivenUp(t, steps[|steps| - 1], p);
    }
  }

  lemma StepGivenUp(s: State, step: Step, p: Pid)
    requires p in s.procs && (s.procs[p].phase.GaveUp? || s.procs[p].phase.Crashed?)
    ensures p in Do(s, step).procs && (Do(s, step).procs[p].phase.GaveUp? || Do(s, step).procs[p].phase.Crashed?)
  {
    hide CandidateOf;
  }

  /** A recording whose wait timed out never writes, whatever happens after. */
  lemma TimedOutNeverWrites(doc: string, steps: seq<Step>, more: seq<Step>, p: Pid)
    requires var s := After(doc, steps); p in s.procs && s.procs[p].phase.GaveUp?
    ensures var s := After(doc, steps + more); forall k | 0 <= k < |s.log| :: s.log[k].p != p
  {
    hide CandidateOf, Do, Chain, ProcOk;
    RunKeeps(doc, steps);
    NoCommitYet(After(doc, steps), doc, p);
    StaysOut(After(doc, steps), more, p);
    RunMore(Init(doc), steps, more);
  }

  lemma {:induction false} StaysOut(s: State, steps: seq<Step>, p: Pid)
    requires p in s.procs && s.procs[p].phase.GaveUp? && forall k | 0 <= k < |s.log| :: s.log[k].p != p
    ensures forall k | 0 <= k < |Run(s, steps).log| :: Run(s, steps).log[k].p != p
  {
    hide CandidateOf, Do;
    if steps != [] {
      var less := steps[..|steps| - 1];
      StaysOut(s, less, p);
      StaysGivenUp(s, less, p);
      CommitsOwn(Run(s, less), steps[|steps| - 1]);
    }
  }

  lemma CommitsOwn(s: State, step: Step)
    ensures var s' := Do(s, step);
            s'.log == s.log ||
            (step.p in s.procs && s.procs[step.p].phase.Writing? && |s'.log| == |s.log| + 1 && s'.log[..|s.log|] == s.log &&
             s'.log[|s.log|].p == step.p)
  {
    hide CandidateOf;
  }

  /** A lock won after the wait timed out is given back: while the helper has it nothing is written, it can always
      let go, and then the lock is free. */
  lemma LateLockIsGivenBack(doc: string, steps: seq<Step>, p: Pid, other: Step)
    requires var s := After(doc, steps); p in s.procs && s.procs[p].phase == GaveUp(WonLate)
    ensures var s := After(doc, steps);
            s.owner == Some(p) && Do(s, other).disk == s.disk && Do(s, Step(p, GiveBack)).owner == None
  {
    hide CandidateOf, Chain;
    RunKeeps(doc, steps);
    var s := After(doc, steps);
    assert ProcOk(s, p);
    if other.p in s.procs {
      assert ProcOk(s, other.p);
    }
  }

  /** A crash frees the lock, and leaves the document as it was. */
  lemma CrashFreesTheLock(doc: string, steps: seq<Step>, p: Pid)
    requires p in After(doc, steps).procs
    ensures var s, s' := After(doc, steps), Do(After(doc, steps), Step(p, Crash));
            s'.disk == s.disk && s'.owner != Some(p) && (s.owner == Some(p) ==> s'.owner == None)
  {
    hide CandidateOf, Chain;
  }

  // ---------------------------------------------------------------- no lost update

  /** The rows the commits added, in the order they were committed. */
  function Rows(log: seq<Commit>): seq<seq<string>> {
    if log == [] then [] else Rows(log[..|log| - 1]) + NewRows(log[|log| - 1].task, log[|log| - 1].base)
  }

  lemma {:induction false} ChainRows(log: seq<Commit>, first: string, last: string)
    requires Chain(log, first, last) && ProperHeader(Header(first))
    ensures Header(last) == Header(first)
    ensures SectionRows(last, FINDINGS) == SectionRows(first, FINDINGS) + Rows(log)
  {
    hide CandidateOf, NewRows, ProperHeader, Header, SectionRows;
    if log != [] {
      var c := log[|log| - 1];
      ChainRows(log[..|log| - 1], first, c.base);
      WriteKeepsRows(c.task, c.base);
    }
  }

  lemma {:induction false} CommitInRows(log: seq<Commit>, first: string, last: string, k: nat)
    requires Chain(log, first, last) && ProperHeader(Header(first)) && k < |log| && log[k].task.Add?
    ensures exists i | 0 <= i < |Rows(log)| :: FieldsRead(Written(log[k].task.finding), Header(first), Rows(log)[i])
  {
    hide CandidateOf, NewRows, ProperHeader, Header, SectionRows, FieldsRead, Written;
    var less, c := log[..|log| - 1], log[|log| - 1];
    ChainRows(less, first, c.base);
    if k == |log| - 1 {
      WriteKeepsRows(c.task, c.base);
      assert Rows(log)[|Rows(less)|] == NewRows(c.task, c.base)[0];
    } else {
      assert less[k] == log[k];
      CommitInRows(less, first, c.base, k);
      var i :| 0 <= i < |Rows(less)| && FieldsRead(Written(less[k].task.finding), Header(first), Rows(less)[i]);
      assert Rows(log)[i] == Rows(less)[i];
    }
  }

  /** In every interleaving the Findings are the ones the document started with and, after them, one row for each
      committed add-finding, in the order the commits were made: no row is lost, repeated or moved. */
  lemma FindingsAreConserved(doc: string, steps: seq<Step>)
    requires ProperHeader(Header(doc))
    ensures var s := After(doc, steps);
            Header(s.disk) == Header(doc) &&
            SectionRows(s.disk, FINDINGS) == SectionRows(doc, FINDINGS) + Rows(s.log)
  {
    hide CandidateOf, NewRows, ProperHeader, Header, SectionRows, Do, Chain;
    RunKeeps(doc, steps);
    ChainRows(After(doc, steps).log, doc, After(doc, steps).disk);
  }

  /** No lost update: every finding whose add-finding reported success is a row of the plan on disk, each of its
      values in its own column, whatever the other writers did before, meanwhile and after. */
  lemma NoLostFinding(doc: string, steps: seq<Step>, p: Pid)
    requires ProperHeader(Header(doc))
    requires var s := After(doc, steps); p in s.procs && s.procs[p].task.Add? && s.procs[p].phase == Ended(true)
    ensures var s := After(doc, steps);
            exists i | |SectionRows(doc, FINDINGS)| <= i < |SectionRows(s.disk, FINDINGS)| ::
              FieldsRead(Written(s.procs[p].task.finding), Header(doc), SectionRows(s.disk, FINDINGS)[i])
  {
    hide CandidateOf, NewRows, ProperHeader, Header, SectionRows, Do, Chain, FieldsRead, Written;
    RunKeeps(doc, steps);
    var s := After(doc, steps);
    assert ProcOk(s, p);
    var k :| 0 <= k < |s.log| && s.log[k].p == p;
    assert CommitOk(s, k);
    CommitInRows(s.log, doc, s.disk, k);
    ChainRows(s.log, doc, s.disk);
    var i :| 0 <= i < |Rows(s.log)| && FieldsRead(Written(s.log[k].task.finding), Header(doc), Rows(s.log)[i]);
    var n := |SectionRows(doc, FINDINGS)|;
    assert SectionRows(s.disk, FINDINGS)[n + i] == Rows(s.log)[i];
  }
}
