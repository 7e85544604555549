/** The bounded worker pool with a cost ceiling (internal/bench/concurrency.go: schedule, workersFor;
    internal/bench/run.go: runUnits). One process a unit, a semaphore of `workers` slots, a counter of what was spent;
    a run is a sequence of steps of the processes in any order. Costs are real numbers. */
module Pool {

  /** What a unit does when it is started: it is invalid, or it costs something, or it panics. */
  datatype Job = Invalid | Costs(cost: real) | Panics

  datatype Outcome = WasInvalid | NotStarted | Finished(cost: real) | Failed

  /** Where the process of a unit is. Between `Slot` and `Stored` it holds a slot of the semaphore. */
  datatype Phase = Queued | Slot | Running | Returned(outcome: Outcome) | Stored | Gone

  datatype Pool = Pool(jobs: seq<Job>, requested: int, ceiling: real)

  datatype State = State(phases: seq<Phase>, spent: real, results: seq<Outcome>, skipped: seq<bool>)

  datatype Action = Acquire | Check | Return | Store | Release

  datatype Step = Step(i: nat, action: Action)

  function WorkersFor(requested: int): (w: nat)
    ensures w == if requested < 1 then 1 else requested
  {
    if requested < 1 then 1 else requested
  }

  predicate HoldsSlot(ph: Phase) {
    !ph.Queued? && !ph.Gone?
  }

  /** The unit was started and its cost is not counted yet. */
  predicate InFlight(ph: Phase) {
    ph.Running? || (ph.Returned? && ph.outcome.Finished?)
  }

  function Slots(phases: seq<Phase>): nat {
    if phases == [] then 0 else Slots(phases[1..]) + if HoldsSlot(phases[0]) then 1 else 0
  }

  function Flying(phases: seq<Phase>): nat {
    if phases == [] then 0 else Flying(phases[1..]) + if InFlight(phases[0]) then 1 else 0
  }

  predicate UnderCeiling(p: Pool, spent: real) {
    p.ceiling <= 0.0 || spent < p.ceiling
  }

  function At(s: State, i: nat, ph: Phase): State
    requires i < |s.phases|
  {
    s.(phases := s.phases[i := ph])
  }

  predicate Shaped(p: Pool, s: State) {
    |s.phases| == |p.jobs| == |s.results| == |s.skipped|
  }

  /** One step; a step that is not enabled changes nothing. */
  function Do(p: Pool, s: State, step: Step): (s': State)
    requires Shaped(p, s)
    ensures Shaped(p, s')
  {
    var i := step.i;
    if i >= |p.jobs| then s
    else
      var ph, job := s.phases[i], p.jobs[i];
      match step.action
      case Acquire => if ph.Queued? && Slots(s.phases) < WorkersFor(p.requested) then At(s, i, Slot) else s
      case Check =>
        if !ph.Slot? then s
        else if job.Invalid? then At(s, i, Returned(WasInvalid))
        else if !UnderCeiling(p, s.spent) then At(s, i, Returned(NotStarted)).(skipped := s.skipped[i := true])
        else At(s, i, Running)
      case Return =>
        if !ph.Running? then s else At(s, i, Returned(if job.Costs? then Finished(job.cost) else Failed))
      case Store =>
        if !ph.Returned? then s
        else At(s, i, Stored).(results := s.results[i := ph.outcome],
                               spent := s.spent + if ph.outcome.Finished? then ph.outcome.cost else 0.0)
      case Release => if ph.Stored? then At(s, i, Gone) else s
  }

  function Init(p: Pool): (s: State)
    ensures Shaped(p, s)
  {
    var n := |p.jobs|;
    State(seq(n, i => Queued), 0.0, seq(n, i => NotStarted), seq(n, i => false))
  }

  function After(p: Pool, steps: seq<Step>): (s: State)
    ensures Shaped(p, s)
  {
    if steps == [] then Init(p) else Do(p, After(p, steps[..|steps| - 1]), steps[|steps| - 1])
  }

  // ---------------------------------------------------------------- counting

  lemma {:induction false} Counts(phases: seq<Phase>, i: nat, ph: Phase)
    requires i < |phases|
    ensures Slots(phases[i := ph]) == Slots(phases) - (if HoldsSlot(phases[i]) then 1 else 0) + if HoldsSlot(ph) then 1 else 0
    ensures Flying(phases[i := ph]) == Flying(phases) - (if InFlight(phases[i]) then 1 else 0) + if InFlight(ph) then 1 else 0
  {
    if i > 0 {
      Counts(phases[1..], i - 1, ph);
      assert phases[i := ph][1..] == phases[1..][i - 1 := ph];
    } else {
      assert phases[i := ph][1..] == phases[1..];
    }
  }

  lemma {:induction false} FlyingInSlots(phases: seq<Phase>, i: nat)
    requires i < |phases| && HoldsSlot(phases[i]) && !InFlight(phases[i])
    ensures Flying(phases) + 1 <= Slots(phases)
  {
    if i > 0 {
      FlyingInSlots(phases[1..], i - 1);
    } else {
      FlyingAtMost(phases[1..]);
    }
  }

  lemma {:induction false} FlyingAtMost(phases: seq<Phase>)
    ensures Flying(phases) <= Slots(phases)
  {
    if phases != [] {
      FlyingAtMost(phases[1..]);
    }
  }

  lemma {:induction false} NobodyYet(phases: seq<Phase>)
    requires forall i | 0 <= i < |phases| :: phases[i].Queued?
    ensures Slots(phases) == 0 && Flying(phases) == 0
  {
    if phases != [] {
      NobodyYet(phases[1..]);
    }
  }

  // ---------------------------------------------------------------- what every step keeps

  ghost predicate Paid(p: Pool) {
    forall i | 0 <= i < |p.jobs| && p.jobs[i].Costs? :: 0.0 <= p.jobs[i].cost
  }

  ghost predicate Bounded(p: Pool, most: real) {
    most >= 0.0 && forall i | 0 <= i < |p.jobs| && p.jobs[i].Costs? :: 0.0 <= p.jobs[i].cost <= most
  }

  /** What a unit's result has to be once its process is past the job. */
  predicate ResultOf(p: Pool, s: State, i: nat, o: Outcome)
    requires Shaped(p, s) && i < |p.jobs|
  {
    match p.jobs[i]
    case Invalid => o == WasInvalid && !s.skipped[i]
    case Costs(cost) => o == if s.skipped[i] then NotStarted else Finished(cost)
    case Panics => o == if s.skipped[i] then NotStarted else Failed
  }

  ghost predicate UnitOk(p: Pool, s: State, i: nat)
    requires Shaped(p, s) && i < |p.jobs|
  {
    var ph := s.phases[i];
    && (ph.Queued? || ph.Slot? || ph.Running? ==> !s.skipped[i])
    && (ph.Running? ==> !p.jobs[i].Invalid?)
    && (ph.Returned? ==> ResultOf(p, s, i, ph.outcome))
    && (ph.Stored? || ph.Gone? ==> ResultOf(p, s, i, s.results[i]))
  }

  /** Slots and results, whatever the units cost. */
  ghost predicate Placed(p: Pool, s: State)
    requires Shaped(p, s)
  {
    Slots(s.phases) <= WorkersFor(p.requested) && forall i | 0 <= i < |p.jobs| :: UnitOk(p, s, i)
  }

  /** A unit was kept from starting only if the ceiling is reached. */
  ghost predicate Reached(p: Pool, s: State)
    requires Shaped(p, s)
  {
    forall i | 0 <= i < |p.jobs| && s.skipped[i] :: p.ceiling > 0.0 && s.spent >= p.ceiling
  }

  /** What is spent and what may still be, under the ceiling. */
  ghost predicate Inv(p: Pool, most: real, s: State)
    requires Shaped(p, s)
  {
    p.ceiling > 0.0 ==> s.spent + Flying(s.phases) as real * most < p.ceiling + WorkersFor(p.requested) as real * most
  }

  lemma OneMore(r: nat, w: nat, most: real)
    requires most >= 0.0 && r + 1 <= w
    ensures r as real * most + most <= w as real * most
  {
    assert (r + 1) as real * most == r as real * most + most;
    assert (w - (r + 1)) as real * most >= 0.0;
    assert w as real * most == (r + 1) as real * most + (w - (r + 1)) as real * most;
  }

  lemma OneLess(r: nat, most: real)
    requires r >= 1
    ensures r as real * most == (r - 1) as real * most + most
  {}

  /** Only the unit that moved can change. */
  lemma UnitsKept(p: Pool, s: State, s': State, i: nat)
    requires Shaped(p, s) && Shaped(p, s') && i < |p.jobs|
    requires forall k | 0 <= k < |p.jobs| :: UnitOk(p, s, k)
    requires forall k | 0 <= k < |p.jobs| && k != i ::
               s'.phases[k] == s.phases[k] && s'.results[k] == s.results[k] && s'.skipped[k] == s.skipped[k]
    requires UnitOk(p, s', i)
    ensures forall k | 0 <= k < |p.jobs| :: UnitOk(p, s', k)
  {
    forall k | 0 <= k < |p.jobs| ensures UnitOk(p, s', k) {
      assert UnitOk(p, s, k);
    }
  }

  /** A start counts at most one unit more, and a stored cost at most what the unit counted for. */
  lemma MoneyKept(s: real, s': real, r: nat, r': nat, w: nat, ceiling: real, most: real)
    requires most >= 0.0 && ceiling > 0.0 && s + r as real * most < ceiling + w as real * most
    requires (r' == r && s' == s) || (r' == r + 1 <= w && s' == s < ceiling) || (r == r' + 1 && s' <= s + most)
    ensures s' + r' as real * most < ceiling + w as real * most
  {
    if r' == r + 1 {
      OneMore(r, w, most);
      OneLess(r', most);
    } else if r == r' + 1 {
      OneLess(r, most);
    }
  }

  lemma UnitKept(p: Pool, s: State, step: Step)
    requires Shaped(p, s) && Placed(p, s) && step.i < |p.jobs|
    ensures UnitOk(p, Do(p, s, step), step.i)
  {
    hide Slots, Flying;
    assert UnitOk(p, s, step.i);
  }

  lemma StepPlaces(p: Pool, s: State, step: Step)
    requires Shaped(p, s) && Placed(p, s)
    ensures Placed(p, Do(p, s, step))
  {
    hide Slots, Flying, UnitOk;
    if step.i < |p.jobs| {
      UnitKept(p, s, step);
      UnitsKept(p, s, Do(p, s, step), step.i);
      SameSlots(s, p, step);
    }
  }

  lemma SameSlots(s: State, p: Pool, step: Step)
    requires Shaped(p, s) && step.i < |p.jobs| && Slots(s.phases) <= WorkersFor(p.requested)
    ensures Slots(Do(p, s, step).phases) <= WorkersFor(p.requested)
  {
    hide Slots;
    Counts(s.phases, step.i, Do(p, s, step).phases[step.i]);
  }

  lemma {:induction false} RunPlaces(p: Pool, steps: seq<Step>)
    ensures Placed(p, After(p, steps))
  {
    hide Do;
    if steps == [] {
      NobodyYet(Init(p).phases);
    } else {
      RunPlaces(p, steps[..|steps| - 1]);
      StepPlaces(p, After(p, steps[..|steps| - 1]), steps[|steps| - 1]);
    }
  }

  /** A step spends what a unit that is in costs, and that is nothing or the cost of its job. */
  lemma StepSpends(p: Pool, s: State, step: Step)
    requires Shaped(p, s) && Placed(p, s) && step.i < |p.jobs|
    ensures var more := Do(p, s, step).spent - s.spent; more == 0.0 || (p.jobs[step.i].Costs? && more == p.jobs[step.i].cost)
  {
    hide Slots, Flying;
    assert UnitOk(p, s, step.i);
  }

  lemma {:induction false} RunReaches(p: Pool, steps: seq<Step>)
    requires Paid(p)
    ensures Reached(p, After(p, steps))
  {
    hide Placed, Slots;
    if steps != [] {
      var s, step := After(p, steps[..|steps| - 1]), steps[|steps| - 1];
      RunReaches(p, steps[..|steps| - 1]);
      RunPlaces(p, steps[..|steps| - 1]);
      if step.i < |p.jobs| {
        StepSpends(p, s, step);
        var s' := Do(p, s, step);
        assert s'.spent >= s.spent;
        forall i | 0 <= i < |p.jobs| && s'.skipped[i] ensures p.ceiling > 0.0 && s'.spent >= p.ceiling {
          assert i != step.i ==> s.skipped[i];
        }
      }
    }
  }

  lemma StepKeeps(p: Pool, most: real, s: State, step: Step)
    requires Shaped(p, s) && Bounded(p, most) && Placed(p, s) && Inv(p, most, s)
    ensures Inv(p, most, Do(p, s, step))
  {
    hide Slots, Flying, Do, Placed;
    if step.i < |p.jobs| && p.ceiling > 0.0 {
      var s' := Do(p, s, step);
      FlyingStep(p, most, s, step);
      MoneyKept(s.spent, s'.spent, Flying(s.phases), Flying(s'.phases), WorkersFor(p.requested), p.ceiling, most);
    } else {
      NoStep(p, s, step);
    }
  }

  lemma NoStep(p: Pool, s: State, step: Step)
    requires Shaped(p, s)
    ensures step.i >= |p.jobs| ==> Do(p, s, step) == s
  {}

  lemma FlyingStep(p: Pool, most: real, s: State, step: Step)
    requires Shaped(p, s) && step.i < |p.jobs| && Bounded(p, most) && Placed(p, s) && p.ceiling > 0.0
    ensures var s', r, r' := Do(p, s, step), Flying(s.phases), Flying(Do(p, s, step).phases);
            (r' == r && s'.spent == s.spent) || (r' == r + 1 <= WorkersFor(p.requested) && s'.spent == s.spent < p.ceiling) ||
            (r == r' + 1 && s'.spent <= s.spent + most)
  {
    hide Slots, Flying;
    var i := step.i;
    assert UnitOk(p, s, i);
    Counts(s.phases, i, Do(p, s, step).phases[i]);
    if s.phases[i].Slot? {
      FlyingInSlots(s.phases, i);
    }
  }

  lemma {:induction false} RunKeeps(p: Pool, most: real, steps: seq<Step>)
    requires Bounded(p, most)
    ensures Inv(p, most, After(p, steps))
  {
    hide Do, Placed;
    if steps == [] {
      NobodyYet(Init(p).phases);
      OneMore(0, WorkersFor(p.requested), most);
    } else {
      RunKeeps(p, most, steps[..|steps| - 1]);
      RunPlaces(p, steps[..|steps| - 1]);
      StepKeeps(p, most, After(p, steps[..|steps| - 1]), steps[|steps| - 1]);
    }
  }

  // ---------------------------------------------------------------- the bounds

  /** Under a ceiling, no interleaving ever spends as much as the ceiling and one unit for each worker on top. */
  lemma CostOvershoot(p: Pool, most: real, steps: seq<Step>)
    requires Bounded(p, most) && p.ceiling > 0.0
    ensures After(p, steps).spent < p.ceiling + (if p.requested < 1 then 1 else p.requested) as real * most
  {
    hide Do;
    RunKeeps(p, most, steps);
    assert Flying(After(p, steps).phases) as real * most >= 0.0;
  }

  /** The units that hold a slot: those that have started waiting for nothing else and are not gone. */
  function Holders(phases: seq<Phase>): set<nat> {
    set i | 0 <= i < |phases| && (phases[i].Slot? || phases[i].Running? || phases[i].Returned? || phases[i].Stored?)
  }

  lemma {:induction false} SlotsLast(phases: seq<Phase>, ph: Phase)
    ensures Slots(phases + [ph]) == Slots(phases) + if HoldsSlot(ph) then 1 else 0
  {
    if phases != [] {
      assert (phases + [ph])[1..] == phases[1..] + [ph];
      SlotsLast(phases[1..], ph);
    } else {
      assert (phases + [ph])[1..] == [];
    }
  }

  lemma {:induction false} SlotsAre(phases: seq<Phase>)
    ensures Slots(phases) == |Holders(phases)|
  {
    if phases != [] {
      var n := |phases| - 1;
      var less := phases[..n];
      SlotsAre(less);
      assert phases == less + [phases[n]];
      SlotsLast(less, phases[n]);
      assert Holders(phases) == Holders(less) + if HoldsSlot(phases[n]) then {n} else {};
    }
  }

  /** No more units hold a slot than there are workers, and so no more run at once; and a unit that waits gets a slot
      whenever fewer do. */
  lemma AtMostWorkers(p: Pool, steps: seq<Step>, i: nat)
    ensures var s, workers := After(p, steps), if p.requested < 1 then 1 else p.requested;
            && |Holders(s.phases)| <= workers && |set j | 0 <= j < |s.phases| && s.phases[j].Running?| <= workers
            && (i < |s.phases| && s.phases[i].Queued? && |Holders(s.phases)| < workers ==> Do(p, s, Step(i, Acquire)).phases[i].Slot?)
  {
    RunPlaces(p, steps);
    var phases := After(p, steps).phases;
    SlotsAre(phases);
    var running := set j | 0 <= j < |phases| && phases[j].Running?;
    Fewer(running, Holders(phases));
  }

  lemma Fewer(a: set<nat>, b: set<nat>)
    requires a <= b
    ensures |a| <= |b|
  {
    assert b == a + (b - a);
  }

  /** A unit is kept from starting only once the ceiling is reached, and then it stays reached. */
  lemma SkippedOnlyAtCeiling(p: Pool, steps: seq<Step>, i: nat)
    requires Paid(p) && i < |p.jobs| && After(p, steps).skipped[i]
    ensures p.ceiling > 0.0 && After(p, steps).spent >= p.ceiling
  {
    hide Do;
    RunReaches(p, steps);
  }

  predicate AllGone(s: State) {
    forall i | 0 <= i < |s.phases| :: s.phases[i].Gone?
  }

  /** When every process has ended, each result stands at its own unit's index, a panic as a failure. */
  lemma ResultsInPlace(p: Pool, steps: seq<Step>, i: nat)
    requires AllGone(After(p, steps)) && i < |p.jobs|
    ensures ResultOf(p, After(p, steps), i, After(p, steps).results[i])
  {
    hide Do;
    RunPlaces(p, steps);
    assert UnitOk(p, After(p, steps), i);
  }

  function Cost(ph: Phase, o: Outcome): real {
    if (ph.Stored? || ph.Gone?) && o.Finished? then o.cost else 0.0
  }

  function Total(phases: seq<Phase>, results: seq<Outcome>): real
    requires |phases| == |results|
  {
    if phases == [] then 0.0 else Total(phases[1..], results[1..]) + Cost(phases[0], results[0])
  }

  lemma {:induction false} TotalAt(phases: seq<Phase>, results: seq<Outcome>, i: nat, ph: Phase, o: Outcome)
    requires |phases| == |results| && i < |phases|
    ensures Total(phases[i := ph], results[i := o]) == Total(phases, results) - Cost(phases[i], results[i]) + Cost(ph, o)
  {
    if i > 0 {
      TotalAt(phases[1..], results[1..], i - 1, ph, o);
      assert phases[i := ph][1..] == phases[1..][i - 1 := ph] && results[i := o][1..] == results[1..][i - 1 := o];
    } else {
      assert phases[i := ph][1..] == phases[1..] && results[i := o][1..] == results[1..];
    }
  }

  lemma {:induction false} NothingSpent(phases: seq<Phase>, results: seq<Outcome>)
    requires |phases| == |results| && forall i | 0 <= i < |phases| :: phases[i].Queued?
    ensures Total(phases, results) == 0.0
  {
    if phases != [] {
      NothingSpent(phases[1..], results[1..]);
    }
  }

  /** What was spent is exactly the cost of the results that are in: no cost is lost or counted twice. */
  lemma {:induction false} SpentIsTotal(p: Pool, steps: seq<Step>)
    ensures var s := After(p, steps); s.spent == Total(s.phases, s.results)
  {
    hide Slots, Total;
    if steps == [] {
      NothingSpent(Init(p).phases, Init(p).results);
    } else {
      var s, step := After(p, steps[..|steps| - 1]), steps[|steps| - 1];
      SpentIsTotal(p, steps[..|steps| - 1]);
      if step.i < |p.jobs| {
        var s' := Do(p, s, step);
        TotalAt(s.phases, s.results, step.i, s'.phases[step.i], s'.results[step.i]);
        assert s'.phases == s.phases[step.i := s'.phases[step.i]] && s'.results == s.results[step.i := s'.results[step.i]];
      }
    }
  }

  // ---------------------------------------------------------------- every run can end

  function Rank(ph: Phase): nat {
    match ph
    case Queued => 5
    case Slot => 4
    case Running => 3
    case Returned(_) => 2
    case Stored => 1
    case Gone => 0
  }

  function Left(phases: seq<Phase>): nat {
    if phases == [] then 0 else Left(phases[1..]) + Rank(phases[0])
  }

  lemma {:induction false} LeftAt(phases: seq<Phase>, i: nat, ph: Phase)
    requires i < |phases|
    ensures Left(phases[i := ph]) == Left(phases) - Rank(phases[i]) + Rank(ph)
  {
    if i > 0 {
      LeftAt(phases[1..], i - 1, ph);
      assert phases[i := ph][1..] == phases[1..][i - 1 := ph];
    } else {
      assert phases[i := ph][1..] == phases[1..];
    }
  }

  /** Every step that does something brings the run closer to its end. */
  lemma StepsEnd(p: Pool, s: State, step: Step)
    requires Shaped(p, s) && Do(p, s, step) != s
    ensures Left(Do(p, s, step).phases) < Left(s.phases)
  {
    hide Left, Slots;
    var s' := Do(p, s, step);
    if s'.phases != s.phases {
      LeftAt(s.phases, step.i, s'.phases[step.i]);
    }
  }

  /** There is always such a step until every process has ended: the pool never deadlocks. */
  lemma NoDeadlock(p: Pool, steps: seq<Step>)
    requires !AllGone(After(p, steps))
    ensures exists step: Step :: Do(p, After(p, steps), step) != After(p, steps)
  {
    hide Slots;
    var s := After(p, steps);
    if i :| 0 <= i < |s.phases| && HoldsSlot(s.phases[i]) {
      var action := match s.phases[i] case Slot => Check case Running => Return case Returned(_) => Store case _ => Release;
      Moves(p, s, i, action);
    } else {
      var i :| 0 <= i < |s.phases| && !s.phases[i].Gone?;
      NoSlots(s.phases);
      var s' := Do(p, s, Step(i, Acquire));
      assert s'.phases[i] != s.phases[i];
    }
  }

  lemma Moves(p: Pool, s: State, i: nat, action: Action)
    requires Shaped(p, s) && i < |p.jobs| && HoldsSlot(s.phases[i])
    requires action == match s.phases[i] case Slot => Check case Running => Return case Returned(_) => Store case _ => Release
    ensures Do(p, s, Step(i, action)) != s
  {
    hide Slots;
    assert Do(p, s, Step(i, action)).phases[i] != s.phases[i];
  }

  lemma {:induction false} NoSlots(phases: seq<Phase>)
    requires forall i | 0 <= i < |phases| :: !HoldsSlot(phases[i])
    ensures Slots(phases) == 0
  {
    if phases != [] {
      NoSlots(phases[1..]);
    }
  }
}
