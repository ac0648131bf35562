// What happens to the blocking event device once no new event is begun: every schedule runs out of
// steps, and leaves nobody asleep next to a raised flag.

module BlockingQuiescence {
  import opened Tally
  import opened BlockingEvents

  /** Steps that remain possible when nothing new starts: tasks go on, and producers and exit finish
      the flag and the wake-up they have already begun. */
  predicate Finishing(s: State, a: Action) {
    Enabled(s, a) &&
    match a
    case Step(_) => true
    case ProducerStep(p) => s.producers[p] != Resting
    case ExitStep => s.exit == ExitFlagSet
    case _ => false
  }

  ghost predicate FinishingRun(s: State, acts: seq<Action>)
    decreases |acts|
  {
    acts != [] ==> Finishing(s, acts[0]) && FinishingRun(Apply(s, acts[0]), acts[1..])
  }

  // A task's distance from rest, while the flag is up and while it is down.

  function RankUp(t: Task): nat {
    match t.pc
    case Idle => 0
    case ReadId(_) => 1
    case AtXchg => 2
    case Leaving(interrupted) => if interrupted then 1 else 3
    case Test(_, _) => 4
    case FirstTest => 4
    case Prepare => 5
    case AtFlags => 5
    case Asleep(woken) => if woken then 6 else 0
    case PollTest(_) => 1
    case PollEnter => 2
    case PollAsleep(woken) => if woken then 2 else 0
  }

  function RankDown(t: Task): nat {
    match t.pc
    case Idle => 0
    case ReadId(_) => 1
    case Leaving(interrupted) => if interrupted then 1 else 9
    case AtXchg => 8
    case AtFlags => 7
    case FirstTest => 6
    case Test(interrupted, woken) => if interrupted then 2 else if woken then 5 else 2
    case Asleep(woken) => if woken then 4 else 0
    case Prepare => 3
    case PollEnter => 2
    case PollTest(woken) => if woken then 4 else 1
    case PollAsleep(woken) => if woken then 3 else 0
  }

  const MAX_RANK: nat := 9

  function Ranks(s: State): nat {
    if s.ready then Sum(s.tasks, RankUp) else Sum(s.tasks, RankDown)
  }

  function FlagWork(p: Producer): nat {
    match p
    case Resting => 0
    case Incremented => 3
    case FlagSet => 1
  }

  /** Shared work left: flags to raise, wake-ups to do, a raised flag to consume. */
  function Energy(s: State): nat {
    Sum(s.producers, FlagWork) + (if s.ready then 1 else 0) + (if s.exit == ExitFlagSet then 1 else 0)
  }

  /** Shared work counts for more than all the tasks' ranks together. */
  function Measure(s: State): nat {
    Energy(s) * (|s.tasks| * MAX_RANK + 1) + Ranks(s)
  }

  lemma RanksBounded(s: State)
    ensures Ranks(s) <= |s.tasks| * MAX_RANK
  {
    if s.ready {
      SumBounded(s.tasks, RankUp, MAX_RANK);
    } else {
      SumBounded(s.tasks, RankDown, MAX_RANK);
    }
  }

  /** Losing one unit of shared work outweighs any change of the tasks' ranks. */
  lemma LessEnergyIsLess(e: nat, f: nat, w: nat, r: nat, q: nat)
    requires f < e && q <= w
    ensures f * (w + 1) + q < e * (w + 1) + r
  {
    assert e * (w + 1) >= (f + 1) * (w + 1);
  }

  /** A task's own step either consumes the flag or brings that task nearer to rest. */
  lemma TaskStepMoves(s: State, i: nat, e: State)
    requires Enabled(s, Step(i)) && e == Apply(s, Step(i))
    ensures e.producers == s.producers && e.exit == s.exit && |e.tasks| == |s.tasks|
    ensures e.tasks == s.tasks[i := e.tasks[i]]
    ensures e.ready == s.ready || (s.ready && !e.ready)
    ensures e.ready == s.ready ==> RankUp(e.tasks[i]) < RankUp(s.tasks[i]) || !s.ready
    ensures e.ready == s.ready ==> RankDown(e.tasks[i]) < RankDown(s.tasks[i]) || s.ready
  {
  }

  lemma TaskStepDescends(s: State, i: nat, e: State)
    requires Enabled(s, Step(i)) && e == Apply(s, Step(i))
    ensures Measure(e) < Measure(s)
  {
    TaskStepMoves(s, i, e);
    if s.ready && !e.ready {
      RanksBounded(e);
      LessEnergyIsLess(Energy(s), Energy(e), |s.tasks| * MAX_RANK, Ranks(s), Ranks(e));
    } else {
      SumUpdate(s.tasks, i, e.tasks[i], RankUp);
      SumUpdate(s.tasks, i, e.tasks[i], RankDown);
    }
  }

  lemma SharedStepDescends(s: State, a: Action, e: State)
    requires Finishing(s, a) && !a.Step? && e == Apply(s, a)
    ensures Energy(e) < Energy(s) && |e.tasks| == |s.tasks|
  {
    if a.ProducerStep? {
      SumUpdate(s.producers, a.p, e.producers[a.p], FlagWork);
    }
  }

  lemma FinishingDescends(s: State, a: Action)
    requires Finishing(s, a)
    ensures Measure(Apply(s, a)) < Measure(s)
  {
    var e := Apply(s, a);
    if a.Step? {
      TaskStepDescends(s, a.i, e);
    } else {
      SharedStepDescends(s, a, e);
      RanksBounded(e);
      LessEnergyIsLess(Energy(s), Energy(e), |s.tasks| * MAX_RANK, Ranks(s), Ranks(e));
    }
  }

  /** Once nothing new starts, every schedule has at most Measure(s) steps in it. */
  lemma {:induction false} SchedulesEnd(s: State, acts: seq<Action>, e: State)
    requires Runs(s, acts, e) && FinishingRun(s, acts)
    ensures |acts| + Measure(e) <= Measure(s)
    decreases |acts|
  {
    if acts != [] {
      FinishingDescends(s, acts[0]);
      SchedulesEnd(Apply(s, acts[0]), acts[1..], e);
    }
  }

  // ---------------------------------------------------------------------------------------
  // Where schedules end
  // ---------------------------------------------------------------------------------------

  ghost predicate AtRest(s: State) {
    forall a :: !Finishing(s, a)
  }

  /** At the end every task has returned or is asleep, everybody's wake-up is done, and nobody is
      asleep while the flag is up or a signal is pending. */
  lemma RestIsSafe(tasks: nat, producers: nat, acts: seq<Action>, e: State)
    requires Runs(Start(tasks, producers), acts, e) && AtRest(e)
    ensures forall i :: 0 <= i < |e.tasks| ==> e.tasks[i].pc.Idle? || Blocked(e.tasks[i].pc)
    ensures forall p :: 0 <= p < |e.producers| ==> e.producers[p] == Resting
    ensures e.ready ==> forall i :: 0 <= i < |e.tasks| ==> e.tasks[i].pc.Idle?
    ensures forall i :: 0 <= i < |e.tasks| ==> !e.tasks[i].signal
  {
    EveryStateIsSound(tasks, producers, acts, e);
    forall i: nat | i < |e.tasks| ensures e.tasks[i].pc.Idle? || Blocked(e.tasks[i].pc) {
      assert !Finishing(e, Step(i));
    }
    forall i | 0 <= i < |e.tasks| ensures !e.tasks[i].signal {
      assert AnswersRight(e.tasks[i]);
    }
    forall p: nat | p < |e.producers| ensures e.producers[p] == Resting {
      assert !Finishing(e, ProducerStep(p));
    }
    assert !Finishing(e, ExitStep);
  }

  // ---------------------------------------------------------------------------------------
  // How many events are still consumed
  // ---------------------------------------------------------------------------------------

  /** Consumptions made, plus the flag if it is up, plus the flags still to be raised. */
  function Claims(s: State): nat {
    s.taken + (if s.ready then 1 else 0) + Sum(s.producers, BetweenIncAndSet)
  }

  lemma ClaimsNeverGrow(s: State, a: Action, e: State)
    requires Finishing(s, a) && e == Apply(s, a)
    ensures Claims(e) <= Claims(s)
  {
    if a.ProducerStep? {
      SumUpdate(s.producers, a.p, e.producers[a.p], BetweenIncAndSet);
    }
  }

  /** Once nothing new starts, at most one more event is consumed per flag that is up or still to be
      raised, on every schedule. */
  lemma {:induction false} FewMoreConsumed(s: State, acts: seq<Action>, e: State)
    requires Runs(s, acts, e) && FinishingRun(s, acts)
    ensures e.taken <= s.taken + (if s.ready then 1 else 0) + Sum(s.producers, BetweenIncAndSet)
    decreases |acts|
  {
    if acts != [] {
      ClaimsNeverGrow(s, acts[0], Apply(s, acts[0]));
      FewMoreConsumed(Apply(s, acts[0]), acts[1..], e);
    }
  }
}
