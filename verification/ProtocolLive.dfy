/** The write protocol gets its work done: a writer alone writes what it should, a free lock is taken, and every state
    the protocol reaches can be run to the end of all its writers. */
module ProtocolLive {
  import opened Findings
  import opened Upgrade
  import opened Recording
  import opened Writers
  import opened Protocol

  // ---------------------------------------------------------------- a writer alone

  /** The steps of one writer from start to end, its temporary file written in one piece of that length. */
  function Alone(p: Pid, task: Task, size: nat): seq<Step> {
    [Step(p, Start(task)), Step(p, ReadBefore), Step(p, TakeLock), Step(p, Deliver), Step(p, ReadUnder), Step(p, Compute),
     Step(p, WritePart(size)), Step(p, Rename), Step(p, Finish(true))]
  }

  /** What a writer means to put in the place of a document, or nothing, or that it refuses: for each of the three. */
  ghost predicate Means(task: Task, doc: string, next: Option<string>, ok: bool) {
    match task
    case Add(f, checks) =>
      if AddFinding(doc, f, checks).Added? then next == Some(AddFinding(doc, f, checks).doc) && ok else next == None && !ok
    case Stamp(run) =>
      if !UpgradeDoc(doc, run).Upgraded? then next == None && !ok
      else ok && next == if UpgradeDoc(doc, run).changed == 0 then None else Some(UpgradeDoc(doc, run).doc)
    case Admit(pins, mode) =>
      if pins == [] then next == None && ok
      else if RecordAll(doc, pins, mode).Ok? then next == Some(RecordAll(doc, pins, mode).doc) && ok
      else next == None && !ok
  }

  lemma MeansIs(task: Task, doc: string)
    ensures Means(task, doc, match CandidateOf(task, doc) case Write(next) => Some(next) case _ => None, !CandidateOf(task, doc).Refuse?)
  {
    hide AddFinding, UpgradeDoc, RecordAll;
  }

  function Size(task: Task, doc: string): nat {
    match CandidateOf(task, doc)
    case Write(next) => |next|
    case _ => 0
  }

  lemma RunTwo(s: State, a: Step, b: Step, rest: seq<Step>)
    ensures Run(s, [a, b] + rest) == Run(Do(Do(s, a), b), rest)
  {
    hide Do;
    RunMore(s, [a, b], rest);
    assert [a, b][..1] == [a] && [a][..0] == [];
    assert Run(s, [a]) == Do(s, a);
    assert Run(s, [a, b]) == Do(Do(s, a), b);
  }

  lemma RunOne(s: State, a: Step)
    ensures Run(s, [a]) == Do(s, a)
  {
    hide Do;
    assert [a][..0] == [];
  }

  /** One step after the other. */
  lemma AloneRuns(s: State, p: Pid, task: Task, size: nat)
    ensures var a := Do(Do(s, Step(p, Start(task))), Step(p, ReadBefore));
            var b := Do(Do(a, Step(p, TakeLock)), Step(p, Deliver));
            var c := Do(Do(b, Step(p, ReadUnder)), Step(p, Compute));
            Run(s, Alone(p, task, size)) == Do(Do(Do(c, Step(p, WritePart(size))), Step(p, Rename)), Step(p, Finish(true)))
  {
    hide Do;
    var steps := Alone(p, task, size);
    assert steps == [steps[0], steps[1]] + ([steps[2], steps[3]] + ([steps[4], steps[5]] + ([steps[6], steps[7]] + [steps[8]])));
    var a := Do(Do(s, steps[0]), steps[1]);
    var b := Do(Do(a, steps[2]), steps[3]);
    var c := Do(Do(b, steps[4]), steps[5]);
    var d := Do(Do(c, steps[6]), steps[7]);
    RunTwo(s, steps[0], steps[1], [steps[2], steps[3]] + ([steps[4], steps[5]] + ([steps[6], steps[7]] + [steps[8]])));
    RunTwo(a, steps[2], steps[3], [steps[4], steps[5]] + ([steps[6], steps[7]] + [steps[8]]));
    RunTwo(b, steps[4], steps[5], [steps[6], steps[7]] + [steps[8]]);
    RunTwo(c, steps[6], steps[7], [steps[8]]);
    RunOne(d, steps[8]);
  }

  /** A writer that starts when the lock is free, in any state, and runs alone: it replaces the document by the one it
      means to write and succeeds, or has nothing to write and succeeds, or refuses; and the lock is free again. */
  lemma AloneWrites(s: State, p: Pid, task: Task)
    requires p !in s.procs && s.owner == None
    ensures var s' := Run(s, Alone(p, task, Size(task, s.disk)));
            && s'.owner == None && p in s'.procs && s'.procs[p].task == task && s'.procs[p].phase.Ended?
            && exists next :: Means(task, s.disk, next, s'.procs[p].phase.ok) &&
                 s'.disk == (if next.Some? then next.value else s.disk) &&
                 s'.log == s.log + if next.Some? then [Commit(p, task, s.disk, next.value)] else []
  {
    hide CandidateOf, Means, Run;
    AloneRuns(s, p, task, Size(task, s.disk));
    MeansIs(task, s.disk);
    AloneSteps(s, p, task);
  }

  /** The writer that runs alone has the lock and has read the document under it. */
  ghost predicate Brings(s: State, t: State, p: Pid, task: Task) {
    && t.owner == Some(p) && t.disk == s.disk && t.log == s.log && p in t.procs && t.procs[p].task == task
    && t.procs[p].phase.HasRead? && t.procs[p].phase.now == s.disk
    && t.procs[p].phase.draft == (if task.Admit? && CandidateOf(task, s.disk).Write?
                                  then Draft(s.disk, CandidateOf(task, s.disk).doc) else NoDraft)
    && (task.Admit? ==> CandidateOf(task, s.disk).Write?)
  }

  /** It has ended without a word: a recording that had nothing to write. */
  ghost predicate Idle(s: State, t: State, p: Pid, task: Task) {
    && t.owner == None && t.disk == s.disk && t.log == s.log && p in t.procs && t.procs[p].task == task
    && t.procs[p].phase == Ended(CandidateOf(task, s.disk).Nothing?) && task.Admit? && !CandidateOf(task, s.disk).Write?
  }

  ghost predicate Written(s: State, t: State, p: Pid, task: Task) {
    && t.owner == None && p in t.procs && t.procs[p].task == task
    && match CandidateOf(task, s.disk)
       case Write(next) => t.procs[p].phase == Ended(true) && t.disk == next && t.log == s.log + [Commit(p, task, s.disk, next)]
       case Nothing => t.procs[p].phase == Ended(true) && t.disk == s.disk && t.log == s.log
       case Refuse => t.procs[p].phase == Ended(false) && t.disk == s.disk && t.log == s.log
  }

  /** It waits, a recording with what it has computed. */
  ghost predicate Asks(s: State, t: State, p: Pid, task: Task) {
    && t.owner == None && t.disk == s.disk && t.log == s.log && p in t.procs && t.procs[p].task == task
    && t.procs[p].phase == Waiting(if task.Admit? && CandidateOf(task, s.disk).Write?
                                   then Draft(s.disk, CandidateOf(task, s.disk).doc) else NoDraft)
    && (task.Admit? ==> CandidateOf(task, s.disk).Write?)
  }

  lemma AloneStarts(s: State, p: Pid, task: Task)
    requires p !in s.procs && s.owner == None
    ensures var a := Do(Do(s, Step(p, Start(task))), Step(p, ReadBefore)); Asks(s, a, p, task) || Idle(s, a, p, task)
  {
    hide CandidateOf;
  }

  lemma AloneLocks(s: State, a: State, p: Pid, task: Task)
    requires Asks(s, a, p, task) || Idle(s, a, p, task)
    ensures var b := Do(Do(Do(a, Step(p, TakeLock)), Step(p, Deliver)), Step(p, ReadUnder));
            Brings(s, b, p, task) || Idle(s, b, p, task)
  {
    hide CandidateOf;
  }

  lemma AloneAsks(s: State, p: Pid, task: Task)
    requires p !in s.procs && s.owner == None
    ensures var a := Do(Do(s, Step(p, Start(task))), Step(p, ReadBefore));
            var b := Do(Do(a, Step(p, TakeLock)), Step(p, Deliver));
            Brings(s, Do(b, Step(p, ReadUnder)), p, task) || Idle(s, Do(b, Step(p, ReadUnder)), p, task)
  {
    hide CandidateOf, Do, Brings, Idle, Asks;
    AloneStarts(s, p, task);
    AloneLocks(s, Do(Do(s, Step(p, Start(task))), Step(p, ReadBefore)), p, task);
  }

  lemma AloneComputes(s: State, t: State, p: Pid, task: Task)
    requires Brings(s, t, p, task) || Idle(s, t, p, task)
    ensures var u := Do(t, Step(p, Compute));
            match CandidateOf(task, s.disk)
            case Write(next) => u.owner == Some(p) && p in u.procs && u.procs[p] == Proc(task, Writing(s.disk, next, "")) &&
                                u.disk == s.disk && u.log == s.log
            case _ => Written(s, u, p, task)
  {
    hide CandidateOf;
  }

  lemma AloneReplaces(s: State, u: State, p: Pid, task: Task)
    requires u.disk == s.disk && u.log == s.log
    requires match CandidateOf(task, s.disk)
             case Write(next) => u.owner == Some(p) && p in u.procs && u.procs[p] == Proc(task, Writing(s.disk, next, ""))
             case _ => Written(s, u, p, task)
    ensures Written(s, Do(Do(Do(u, Step(p, WritePart(Size(task, s.disk)))), Step(p, Rename)), Step(p, Finish(true))), p, task)
  {
    hide CandidateOf;
    var next := CandidateOf(task, s.disk);
    if next.Write? {
      assert "" + next.doc[0..|next.doc|] == next.doc;
    }
  }

  lemma AloneSteps(s: State, p: Pid, task: Task)
    requires p !in s.procs && s.owner == None
    ensures var a := Do(Do(s, Step(p, Start(task))), Step(p, ReadBefore));
            var b := Do(Do(a, Step(p, TakeLock)), Step(p, Deliver));
            var c := Do(Do(b, Step(p, ReadUnder)), Step(p, Compute));
            Written(s, Do(Do(Do(c, Step(p, WritePart(Size(task, s.disk)))), Step(p, Rename)), Step(p, Finish(true))), p, task)
  {
    hide CandidateOf, Do, Brings, Idle, Size;
    var a := Do(Do(s, Step(p, Start(task))), Step(p, ReadBefore));
    var b := Do(Do(Do(a, Step(p, TakeLock)), Step(p, Deliver)), Step(p, ReadUnder));
    AloneAsks(s, p, task);
    AloneComputes(s, b, p, task);
    AloneReplaces(s, Do(b, Step(p, Compute)), p, task);
  }

  // ---------------------------------------------------------------- a free lock is taken

  /** In every state the protocol reaches in which the lock is free, a writer that waits gets it with what it brought,
      and so does the helper of one that gave up. */
  lemma FreeLockIsTaken(doc: string, steps: seq<Step>, p: Pid)
    requires var s := After(doc, steps); s.owner == None && p in s.procs
    ensures var s, s' := After(doc, steps), Do(After(doc, steps), Step(p, TakeLock));
            var ph, ph' := s.procs[p].phase, s'.procs[p].phase;
            && (ph.Waiting? ==> s'.owner == Some(p) && Holds(ph') && (ph'.Won? || ph'.Locked?) && ph'.draft == ph.draft)
            && (ph == GaveUp(StillWaiting) ==> s'.owner == Some(p) && ph' == GaveUp(WonLate))
            && s'.disk == s.disk && s'.log == s.log
  {
    hide CandidateOf, Chain;
    RunKeeps(doc, steps);
  }

  // ---------------------------------------------------------------- what else may happen to a writer

  /** The patience of a recording that waits may end, before it has the lock or before it learns that it has: it gives up
      and writes nothing any more; no other writer has a bound. */
  lemma WaitIsBounded(s: State, p: Pid)
    requires p in s.procs
    ensures var s', ph := Do(s, Step(p, TimeOut)), s.procs[p].phase;
            && s'.disk == s.disk && s'.log == s.log && s'.owner == s.owner && p in s'.procs
            && s'.procs[p] == Proc(s.procs[p].task,
                 if ph.Waiting? && s.procs[p].task.Admit? then GaveUp(StillWaiting) else if ph.Won? then GaveUp(WonLate) else ph)
  {
    hide CandidateOf;
  }

  /** A writer that has not replaced the document may fail, and a writer may crash at any time: then it has written
      nothing, its lock is free, and it has not succeeded. */
  lemma WritersMayFail(s: State, p: Pid, action: Action)
    requires p in s.procs && (action == Crash || action == Fail)
    requires var ph := s.procs[p].phase;
             action == Fail ==> ph.Started? || ph.Waiting? || ph.Locked? || ph.HasRead? || ph.Writing?
    ensures var s' := Do(s, Step(p, action));
            && s'.disk == s.disk && s'.log == s.log && s'.owner != Some(p) && p in s'.procs
            && s'.procs[p].phase == if action == Crash then Crashed else Ended(false)
  {
    hide CandidateOf;
  }

  /** Once the document is replaced a writer ends and frees the lock; only a recording reports failure when the directory
      was not synced. */
  lemma ReplacedEnds(s: State, p: Pid, synced: bool)
    requires p in s.procs && s.procs[p].phase.Renamed?
    ensures var s' := Do(s, Step(p, Finish(synced)));
            && s'.disk == s.disk && s'.log == s.log && s'.owner != Some(p) && p in s'.procs
            && s'.procs[p].phase == Ended(if s.procs[p].task.Admit? then synced else true)
  {
    hide CandidateOf;
  }

  /** The content the draft of a recording was computed from is what was on disk when it read the plan before its rows
      ran. */
  ghost predicate ReadThen(doc: string, steps: seq<Step>, p: Pid, draft: Draft) {
    exists k | 0 <= k < |steps| ::
      steps[k] == Step(p, ReadBefore) && draft.Draft? && draft.raw == After(doc, steps[..k]).disk
  }

  ghost predicate Holding(ph: Phase) {
    ph.Waiting? || ph.Won? || ph.Locked? || ph.HasRead?
  }

  lemma {:induction false} DraftIsRead(doc: string, steps: seq<Step>, p: Pid)
    requires var s := After(doc, steps); p in s.procs && s.procs[p].task.Admit? && Holding(s.procs[p].phase)
    ensures var draft := After(doc, steps).procs[p].phase.draft; draft.Draft? && ReadThen(doc, steps, p, draft)
  {
    hide CandidateOf, Do, ReadThen;
    if steps == [] {
      NothingStarted(doc);
    } else {
      var n := |steps| - 1;
      var less, last := steps[..n], steps[n];
      var s, s' := After(doc, less), After(doc, steps);
      DraftStep(s, last, p);
      if p in s.procs && s.procs[p].task.Admit? && Holding(s.procs[p].phase) && s'.procs[p].phase.draft == s.procs[p].phase.draft {
        DraftIsRead(doc, less, p);
        ReadEarlier(doc, steps, p, s'.procs[p].phase.draft);
      } else {
        ReadNow(doc, steps, p, s'.procs[p].phase.draft);
      }
    }
  }

  lemma NothingStarted(doc: string)
    ensures After(doc, []).procs == map[]
  {}

  lemma ReadEarlier(doc: string, steps: seq<Step>, p: Pid, draft: Draft)
    requires steps != [] && draft.Draft? && ReadThen(doc, steps[..|steps| - 1], p, draft)
    ensures ReadThen(doc, steps, p, draft)
  {
    hide After;
    var less := steps[..|steps| - 1];
    var k :| 0 <= k < |less| && less[k] == Step(p, ReadBefore) && draft.raw == After(doc, less[..k]).disk;
    assert steps[k] == less[k] && steps[..k] == less[..k];
  }

  lemma ReadNow(doc: string, steps: seq<Step>, p: Pid, draft: Draft)
    requires steps != [] && steps[|steps| - 1] == Step(p, ReadBefore)
    requires draft.Draft? && draft.raw == After(doc, steps[..|steps| - 1]).disk
    ensures ReadThen(doc, steps, p, draft)
  {
    hide After;
    assert steps[..|steps| - 1] == steps[..|steps| - 1];
  }

  /** A step keeps the draft of a recording, or is the one that made it. */
  lemma DraftStep(s: State, step: Step, p: Pid)
    requires var s' := Do(s, step); p in s'.procs && s'.procs[p].task.Admit? && Holding(s'.procs[p].phase)
    ensures var draft := Do(s, step).procs[p].phase.draft;
            (p in s.procs && s.procs[p].task.Admit? && Holding(s.procs[p].phase) && s.procs[p].phase.draft == draft) ||
            (step == Step(p, ReadBefore) && draft.Draft? && draft.raw == s.disk)
  {
    hide CandidateOf, Do;
    if step.p != p {
      OtherKeeps(s, step, p);
    } else if step.action == ReadBefore {
      ReadDrafts(s, p);
    } else {
      OwnKeeps(s, step.action, p);
    }
  }

  lemma OtherKeeps(s: State, step: Step, p: Pid)
    requires step.p != p
    ensures (p in Do(s, step).procs <==> p in s.procs) && (p in s.procs ==> Do(s, step).procs[p] == s.procs[p])
  {
    hide CandidateOf;
  }

  lemma ReadDrafts(s: State, p: Pid)
    requires var s' := Do(s, Step(p, ReadBefore)); p in s'.procs && s'.procs[p].task.Admit? && Holding(s'.procs[p].phase)
    ensures var draft := Do(s, Step(p, ReadBefore)).procs[p].phase.draft;
            p in s.procs && s.procs[p].task.Admit? &&
            ((Holding(s.procs[p].phase) && s.procs[p].phase.draft == draft) || (draft.Draft? && draft.raw == s.disk))
  {
    hide CandidateOf;
  }

  lemma OwnKeeps(s: State, action: Action, p: Pid)
    requires action != ReadBefore
    requires var s' := Do(s, Step(p, action)); p in s'.procs && s'.procs[p].task.Admit? && Holding(s'.procs[p].phase)
    ensures p in s.procs && s.procs[p].task.Admit? && Holding(s.procs[p].phase) &&
            s.procs[p].phase.draft == Do(s, Step(p, action)).procs[p].phase.draft
  {
    hide CandidateOf, Computed;
    ComputedHolds(s, p);
  }

  lemma ComputedHolds(s: State, p: Pid)
    ensures p in s.procs && s.procs[p].phase.HasRead? ==>
              !Holding(Computed(s, p, s.procs[p].task, s.procs[p].phase.draft, s.procs[p].phase.now).procs[p].phase)
  {
    hide CandidateOf;
  }

  /** A recording that has the lock writes what it computed exactly if the plan is still what it read before its rows ran;
      if anybody wrote something else meanwhile it ends refused, and nothing is written over. */
  lemma RecordingIsFresh(doc: string, steps: seq<Step>, p: Pid)
    requires var s := After(doc, steps); p in s.procs && s.procs[p].task.Admit? && s.procs[p].phase.HasRead?
    ensures var s, s' := After(doc, steps), Do(After(doc, steps), Step(p, Compute));
            exists k | 0 <= k < |steps| ::
              steps[k] == Step(p, ReadBefore) &&
              var before := After(doc, steps[..k]).disk;
              if before == s.disk then
                s'.procs[p].phase.Writing? && Means(s.procs[p].task, before, Some(s'.procs[p].phase.next), true)
              else s'.procs[p].phase == Ended(false) && s'.owner == None && s'.disk == s.disk && s'.log == s.log
  {
    hide CandidateOf, Chain, CommitOk, Run, Means;
    RunKeeps(doc, steps);
    var s := After(doc, steps);
    assert ProcOk(s, p);
    DraftIsRead(doc, steps, p);
    var draft := s.procs[p].phase.draft;
    var k :| 0 <= k < |steps| && steps[k] == Step(p, ReadBefore) && draft.raw == After(doc, steps[..k]).disk;
    MeansIs(s.procs[p].task, draft.raw);
  }

  // ---------------------------------------------------------------- every run can end

  /** The writer has nothing more to do, and no helper of it waits. */
  predicate Over(ph: Phase) {
    ph.Ended? || ph.Crashed? || ph == GaveUp(Gone)
  }

  /** A step of the protocol itself: not a new writer, a failure, a crash or the end of somebody's patience. */
  predicate Ordinary(a: Action) {
    !a.Start? && !a.Fail? && !a.Crash? && !a.TimeOut?
  }

  /** How far a writer is from its end. */
  function Stage(ph: Phase): nat {
    match ph
    case Started => 8
    case Waiting(_) => 7
    case Won(_) => 6
    case Locked(_) => 5
    case HasRead(_, _) => 4
    case Writing(_, _, _) => 3
    case Renamed(_, _) => 2
    case GaveUp(StillWaiting) => 3
    case GaveUp(WonLate) => 2
    case GaveUp(Gone) => 1
    case Ended(_) => 1
    case Crashed => 0
  }

  /** What is left to write of its temporary file. */
  function Unwritten(ph: Phase): nat {
    if ph.Writing? && |ph.temp| <= |ph.next| then |ph.next| - |ph.temp| else 0
  }

  function Stages(procs: map<Pid, Proc>, n: nat): nat {
    if n == 0 then 0 else Stages(procs, n - 1) + if n - 1 in procs then Stage(procs[n - 1].phase) else 0
  }

  function Texts(procs: map<Pid, Proc>, n: nat): nat {
    if n == 0 then 0 else Texts(procs, n - 1) + if n - 1 in procs then Unwritten(procs[n - 1].phase) else 0
  }

  /** Nearer the end, over the writers below `n`. */
  predicate Nearer(s': State, s: State, n: nat) {
    Stages(s'.procs, n) < Stages(s.procs, n) || (Stages(s'.procs, n) == Stages(s.procs, n) && Texts(s'.procs, n) < Texts(s.procs, n))
  }

  lemma {:induction false} OneMoved(a: map<Pid, Proc>, b: map<Pid, Proc>, p: Pid, n: nat)
    requires p in a && p in b && a.Keys == b.Keys && forall q | q in a && q != p :: b[q] == a[q]
    ensures Stages(b, n) == Stages(a, n) + if p < n then Stage(b[p].phase) - Stage(a[p].phase) else 0
    ensures Texts(b, n) == Texts(a, n) + if p < n then Unwritten(b[p].phase) - Unwritten(a[p].phase) else 0
  {
    if n > 0 {
      OneMoved(a, b, p, n - 1);
    }
  }

  /** Every step that changes anything, but a start, brings the run nearer its end. */
  lemma StepsEnd(doc: string, steps: seq<Step>, step: Step, n: nat)
    requires Do(After(doc, steps), step) != After(doc, steps) && !step.action.Start? && step.p < n
    ensures Nearer(Do(After(doc, steps), step), After(doc, steps), n)
  {
    hide CandidateOf, Stages, Texts, Chain;
    RunKeeps(doc, steps);
    var s, s' := After(doc, steps), Do(After(doc, steps), step);
    assert step.p in s.procs && ProcOk(s, step.p);
    StepMoves(s, step);
    OneMoved(s.procs, s'.procs, step.p, n);
  }

  predicate Lower(s: State, t: State, p: Pid)
    requires p in s.procs && p in t.procs
  {
    var ph, ph' := s.procs[p].phase, t.procs[p].phase;
    Stage(ph') < Stage(ph) || (Stage(ph') == Stage(ph) && Unwritten(ph') < Unwritten(ph))
  }

  ghost predicate OneMove(s: State, t: State, p: Pid)
    requires p in s.procs
  {
    t.procs.Keys == s.procs.Keys && forall q | q in s.procs && q != p :: t.procs[q] == s.procs[q]
  }

  lemma StepMoves(s: State, step: Step)
    requires step.p in s.procs && ProcOk(s, step.p) && !step.action.Start?
    ensures OneMove(s, Do(s, step), step.p)
    ensures Do(s, step) != s ==> Lower(s, Do(s, step), step.p)
  {
    hide CandidateOf, Lower, ProcOk;
    var p, s' := step.p, Do(s, step);
    if step.action.WritePart? {
      WriteMoves(s, p, step.action.count);
    } else if step.action.Crash? {
      CrashMoves(s, p);
    } else if step.action.ReadBefore? || step.action.Compute? {
      ReadMoves(s, step);
    } else if s' != s {
      PhaseMoves(s, step);
    }
  }

  lemma WriteMoves(s: State, p: Pid, count: nat)
    requires p in s.procs && ProcOk(s, p)
    ensures Do(s, Step(p, WritePart(count))) != s ==> Lower(s, Do(s, Step(p, WritePart(count))), p)
  {
    hide CandidateOf;
    var ph := s.procs[p].phase;
    if ph.Writing? && count == 0 {
      assert ph.temp + ph.next[|ph.temp|..|ph.temp|] == ph.temp;
      assert s.procs[p := s.procs[p]] == s.procs;
    }
  }

  lemma CrashMoves(s: State, p: Pid)
    requires p in s.procs && ProcOk(s, p)
    ensures Leave(s, p, Crashed) != s ==> Lower(s, Leave(s, p, Crashed), p)
  {
    hide CandidateOf, Do;
    if s.procs[p].phase.Crashed? {
      assert s.procs[p := s.procs[p]] == s.procs;
    }
  }

  lemma ReadMoves(s: State, step: Step)
    requires step.p in s.procs && (step.action.ReadBefore? || step.action.Compute?)
    ensures OneMove(s, Do(s, step), step.p)
    ensures Do(s, step) != s ==> Lower(s, Do(s, step), step.p)
  {
    hide CandidateOf;
  }

  lemma PhaseMoves(s: State, step: Step)
    requires step.p in s.procs && Do(s, step) != s
    requires var a := step.action; !a.Start? && !a.WritePart? && !a.Crash? && !a.ReadBefore? && !a.Compute?
    ensures Lower(s, Do(s, step), step.p)
  {
    hide CandidateOf;
  }

  /** What a writer that is not over does next, when the lock is its own or free. */
  function NextAction(ph: Phase): Action {
    match ph
    case Started => ReadBefore
    case Waiting(_) => TakeLock
    case Won(_) => Deliver
    case Locked(_) => ReadUnder
    case HasRead(_, _) => Compute
    case Writing(_, next, temp) => if |temp| < |next| then WritePart(|next| - |temp|) else Rename
    case Renamed(_, _) => Finish(true)
    case GaveUp(StillWaiting) => TakeLock
    case GaveUp(WonLate) => GiveBack
    case _ => Deliver
  }

  lemma NextMoves(s: State, p: Pid)
    requires p in s.procs && ProcOk(s, p) && !Over(s.procs[p].phase) && (s.owner == None || s.owner == Some(p))
    ensures Ordinary(NextAction(s.procs[p].phase)) && Do(s, Step(p, NextAction(s.procs[p].phase))) != s
  {
    hide CandidateOf;
    var s' := Do(s, Step(p, NextAction(s.procs[p].phase)));
    assert p in s'.procs && s'.procs[p].phase != s.procs[p].phase;
  }

  /** The protocol never deadlocks: until every writer is over, some ordinary step of one that is not changes the
      state. */
  lemma NoDeadlock(doc: string, steps: seq<Step>, p: Pid) returns (step: Step)
    requires var s := After(doc, steps); p in s.procs && !Over(s.procs[p].phase)
    ensures var s := After(doc, steps);
            step.p in s.procs && Ordinary(step.action) && Do(s, step) != s
  {
    hide CandidateOf, Do, Chain, CommitOk;
    RunKeeps(doc, steps);
    var s := After(doc, steps);
    var q := if s.owner.Some? then s.owner.value else p;
    assert ProcOk(s, q);
    NextMoves(s, q);
    step := Step(q, NextAction(s.procs[q].phase));
  }

  predicate AllOver(s: State) {
    forall p | p in s.procs :: Over(s.procs[p].phase)
  }

  predicate Below(s: State, n: nat) {
    forall p | p in s.procs :: p < n
  }

  predicate AllOrdinary(steps: seq<Step>) {
    forall i | 0 <= i < |steps| :: Ordinary(steps[i].action)
  }

  lemma {:induction false} CanEnd(doc: string, steps: seq<Step>, n: nat) returns (more: seq<Step>)
    requires Below(After(doc, steps), n)
    ensures AllOrdinary(more) && AllOver(After(doc, steps + more)) && After(doc, steps + more).owner == None
    decreases Stages(After(doc, steps).procs, n), Texts(After(doc, steps).procs, n)
  {
    hide CandidateOf, Do, Chain, CommitOk, Stages, Texts;
    var s := After(doc, steps);
    RunKeeps(doc, steps);
    if p :| p in s.procs && !Over(s.procs[p].phase) {
      var step := NoDeadlock(doc, steps, p);
      StepsEnd(doc, steps, step, n);
      assert (steps + [step])[..|steps|] == steps;
      StillBelow(s, step, n);
      var rest := CanEnd(doc, steps + [step], n);
      more := [step] + rest;
      assert steps + more == (steps + [step]) + rest;
    } else {
      more := [];
      assert steps + more == steps;
      assert s.owner.Some? ==> ProcOk(s, s.owner.value);
    }
  }

  lemma {:induction false} Bounded(ps: set<Pid>) returns (n: nat)
    ensures forall p | p in ps :: p < n
    decreases ps
  {
    if p :| p in ps {
      var m := Bounded(ps - {p});
      n := if m <= p then p + 1 else m;
      forall q | q in ps ensures q < n {
        assert q == p || q in ps - {p};
      }
    } else {
      n := 0;
    }
  }

  /** From every state the protocol reaches, ordinary steps alone lead to one in which every writer is over; then the
      lock is free. */
  lemma EveryRunCanEnd(doc: string, steps: seq<Step>) returns (more: seq<Step>)
    ensures AllOrdinary(more) && AllOver(After(doc, steps + more)) && After(doc, steps + more).owner == None
  {
    hide After, AllOver, AllOrdinary;
    var n := Bounded(After(doc, steps).procs.Keys);
    more := CanEnd(doc, steps, n);
  }

  lemma StillBelow(s: State, step: Step, n: nat)
    requires Below(s, n) && step.p in s.procs
    ensures Below(Do(s, step), n)
  {
    hide CandidateOf;
  }
}
