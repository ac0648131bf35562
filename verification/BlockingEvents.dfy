// The blocking event device of 12_wait_queues_blocking/wait_queues_blocking.c as a state machine:
// any number of tasks inside read() or poll(), any number of producers (the timer callback and
// writers of `trigger`), and module exit, interleaved one shared access at a time.

module BlockingEvents {
  import opened Tally

  /** Where a task is. Test to Asleep is wait_event_interruptible() spelled out: a task is on the
      wait queue from Prepare on; `woken` says that a wake-up (or a signal) has made it runnable
      since it queued itself, so that it will not stay asleep. */
  datatype Pc =
    | Idle
    | AtXchg
    | AtFlags
    | FirstTest
    | Prepare
    | Test(interrupted: bool, woken: bool)
    | Asleep(woken: bool)
    | Leaving(interrupted: bool)
    | ReadId(k: nat)
    | PollEnter
    | PollTest(woken: bool)
    | PollAsleep(woken: bool)

  datatype Outcome = Nothing | Event(id: nat) | Again | Interrupted | Readable

  /** This was the k-th consumption, and it reported the given event id. */
  datatype Report = Report(k: nat, id: nat)

  datatype Task = Task(pc: Pc, nonblock: bool, signal: bool, outcome: Outcome, seen: seq<Report>)

  datatype Producer = Resting | Incremented | FlagSet

  datatype Exit = Loaded | ExitFlagSet | Unloaded

  /** eventSets, merged and taken are history: flags set by producers, flags set while the flag was
      already up, and successful exchanges. */
  datatype State = State(
    ready: bool, eventId: nat, waiters: int,
    tasks: seq<Task>, producers: seq<Producer>, exit: Exit,
    eventSets: nat, merged: nat, taken: nat)

  datatype Action =
    | BeginRead(i: nat, nonblock: bool)
    | BeginPoll(i: nat)
    | Step(i: nat)
    | Signal(i: nat)
    | ProducerStep(p: nat)
    | ExitStep

  const FRESH_TASK: Task := Task(Idle, false, false, Nothing, [])

  function Start(tasks: nat, producers: nat): State {
    State(false, 0, 0, seq(tasks, i => FRESH_TASK), seq(producers, i => Resting), Loaded, 0, 0, 0)
  }

  /** On the wait queue and asleep, with no wake-up having reached it. */
  predicate Blocked(pc: Pc) {
    pc == Asleep(false) || pc == PollAsleep(false)
  }

  function Woken(pc: Pc): Pc {
    match pc
    case Test(false, _) => Test(false, true)
    case Asleep(_) => Asleep(true)
    case PollTest(_) => PollTest(true)
    case PollAsleep(_) => PollAsleep(true)
    case _ => pc
  }

  function WokenTask(t: Task): Task {
    t.(pc := Woken(t.pc))
  }

  function WakeAll(tasks: seq<Task>): (r: seq<Task>)
    ensures |r| == |tasks|
    ensures forall i :: 0 <= i < |r| ==> r[i] == WokenTask(tasks[i])
  {
    seq(|tasks|, i requires 0 <= i < |tasks| => WokenTask(tasks[i]))
  }

  predicate Enabled(s: State, a: Action) {
    match a
    case BeginRead(i, _) => i < |s.tasks| && s.tasks[i].pc.Idle?
    case BeginPoll(i) => i < |s.tasks| && s.tasks[i].pc.Idle?
    case Step(i) => i < |s.tasks| && !s.tasks[i].pc.Idle? && !Blocked(s.tasks[i].pc)
    case Signal(i) => i < |s.tasks| && !s.tasks[i].pc.Idle?
    case ProducerStep(p) => p < |s.producers|
    case ExitStep => !s.exit.Unloaded?
  }

  function Put(s: State, i: nat, t: Task): State
    requires i < |s.tasks|
  {
    s.(tasks := s.tasks[i := t])
  }

  function Goto(s: State, i: nat, pc: Pc): State
    requires i < |s.tasks|
  {
    Put(s, i, s.tasks[i].(pc := pc))
  }

  function Return(s: State, i: nat, outcome: Outcome): State
    requires i < |s.tasks|
  {
    Put(s, i, s.tasks[i].(pc := Idle, signal := false, outcome := outcome))
  }

  /** data_ready := 1, whoever does it. */
  function RaiseFlag(s: State): State {
    s.(ready := true, merged := s.merged + if s.ready then 1 else 0)
  }

  /** The next atomic step of a task inside bq_read(), or inside poll() around bq_poll(). */
  function StepTask(s: State, i: nat): State
    requires Enabled(s, Step(i))
  {
    var t := s.tasks[i];
    match t.pc
    case AtXchg =>
      if s.ready then Goto(s.(ready := false, taken := s.taken + 1), i, ReadId(s.taken + 1))
      else Goto(s, i, AtFlags)
    case AtFlags =>
      if t.nonblock then Return(s, i, Again)
      else Goto(s.(waiters := s.waiters + 1), i, FirstTest)
    case FirstTest => Goto(s, i, if s.ready then Leaving(false) else Prepare)
    case Prepare => Goto(s, i, Test(t.signal, false))
    case Test(interrupted, woken) =>
      Goto(s, i, if s.ready then Leaving(false) else if interrupted then Leaving(true) else Asleep(woken))
    case Asleep(_) => Goto(s, i, Prepare)
    case Leaving(interrupted) =>
      var left := s.(waiters := s.waiters - 1);
      if interrupted then Return(left, i, Interrupted) else Goto(left, i, AtXchg)
    case ReadId(k) =>
      Put(s, i, Task(Idle, t.nonblock, false, Event(s.eventId), t.seen + [Report(k, s.eventId)]))
    case PollEnter => Goto(s, i, PollTest(false))
    case PollTest(woken) =>
      if s.ready then Return(s, i, Readable)
      else if t.signal then Return(s, i, Interrupted)
      else Goto(s, i, PollAsleep(woken))
    case PollAsleep(_) => Goto(s, i, PollTest(false))
  }

  function Apply(s: State, a: Action): State
    requires Enabled(s, a)
  {
    match a
    case BeginRead(i, nonblock) => Put(s, i, s.tasks[i].(pc := AtXchg, nonblock := nonblock, outcome := Nothing))
    case BeginPoll(i) => Put(s, i, s.tasks[i].(pc := PollEnter, outcome := Nothing))
    case Step(i) => StepTask(s, i)
    case Signal(i) => Put(s, i, WokenTask(s.tasks[i]).(signal := true))
    case ProducerStep(p) =>
      (match s.producers[p]
       case Resting => s.(eventId := s.eventId + 1, producers := s.producers[p := Incremented])
       case Incremented => RaiseFlag(s).(eventSets := s.eventSets + 1, producers := s.producers[p := FlagSet])
       case FlagSet => s.(tasks := WakeAll(s.tasks), producers := s.producers[p := Resting]))
    case ExitStep =>
      if s.exit.Loaded? then RaiseFlag(s).(exit := ExitFlagSet)
      else s.(tasks := WakeAll(s.tasks), exit := Unloaded)
  }

  ghost predicate Runs(s: State, acts: seq<Action>, e: State)
    decreases |acts|
  {
    if acts == [] then s == e
    else Enabled(s, acts[0]) && Runs(Apply(s, acts[0]), acts[1..], e)
  }

  /** An action that is not possible when its turn comes is passed over. */
  function Turn(s: State, a: Action): State {
    if Enabled(s, a) then Apply(s, a) else s
  }

  /** The state after the first n turns of a schedule. */
  function Follow(s: State, schedule: seq<Action>, n: nat): State
    requires n <= |schedule|
  {
    if n == 0 then s else Turn(Follow(s, schedule, n - 1), schedule[n - 1])
  }

  lemma FollowNext(s: State, schedule: seq<Action>, n: nat, m: State, e: State)
    requires n < |schedule| && m == Follow(s, schedule, n) && e == Turn(m, schedule[n])
    ensures e == Follow(s, schedule, n + 1)
  {
  }

  // ---------------------------------------------------------------------------------------
  // No lost wakeup
  // ---------------------------------------------------------------------------------------

  /** Somebody has raised the flag and has its wake-up still to do. */
  ghost predicate WakeDue(s: State) {
    s.exit == ExitFlagSet || exists p :: 0 <= p < |s.producers| && s.producers[p] == FlagSet
  }

  ghost predicate SomebodyBlocked(s: State) {
    exists i :: 0 <= i < |s.tasks| && Blocked(s.tasks[i].pc)
  }

  ghost predicate WakeupsKept(s: State) {
    s.ready && SomebodyBlocked(s) ==> WakeDue(s)
  }

  /** A task is blocked after a step only if it was before and the step was no wake-up, or if it has
      just found the flag down. */
  lemma HowTasksBlock(s: State, a: Action, i: nat)
    requires Enabled(s, a) && i < |s.tasks| && Blocked(Apply(s, a).tasks[i].pc)
    ensures (a == Step(i) && !s.ready) || Blocked(s.tasks[i].pc)
    ensures !(a.ProducerStep? && s.producers[a.p] == FlagSet) && !(a.ExitStep? && s.exit == ExitFlagSet)
  {
  }

  /** Unless a step is a wake-up or raises the flag, it leaves the flag down if it was and every due
      wake-up due. */
  lemma WakeStaysDue(s: State, a: Action)
    requires Enabled(s, a)
    requires !(a.ProducerStep? && s.producers[a.p] == FlagSet) && !(a.ExitStep? && s.exit == ExitFlagSet)
    ensures WakeDue(s) ==> WakeDue(Apply(s, a))
    ensures Apply(s, a).ready ==> s.ready || WakeDue(Apply(s, a))
  {
    var e := Apply(s, a);
    if a.ProducerStep? {
      assert e.producers[a.p] == if s.producers[a.p] == Resting then Incremented else FlagSet;
    }
    if WakeDue(s) && s.exit != ExitFlagSet {
      var p :| 0 <= p < |s.producers| && s.producers[p] == FlagSet;
      assert e.producers[p] == FlagSet;
    }
  }

  lemma WakeupsKeptStep(s: State, a: Action)
    requires WakeupsKept(s) && Enabled(s, a)
    ensures WakeupsKept(Apply(s, a))
  {
    var e := Apply(s, a);
    if e.ready && SomebodyBlocked(e) {
      var i :| 0 <= i < |e.tasks| && Blocked(e.tasks[i].pc);
      HowTasksBlock(s, a, i);
      WakeStaysDue(s, a);
    }
  }

  // ---------------------------------------------------------------------------------------
  // Conservation of events, and what readers are told
  // ---------------------------------------------------------------------------------------

  function BetweenIncAndSet(p: Producer): nat {
    if p.Incremented? then 1 else 0
  }

  function ExitSets(s: State): nat {
    if s.exit.Loaded? then 0 else 1
  }

  /** Inside wait_event_interruptible(). */
  predicate Waiting(pc: Pc) {
    pc.FirstTest? || pc.Prepare? || pc.Test? || pc.Asleep? || pc.Leaving?
  }

  function CountedWaiting(t: Task): nat {
    if Waiting(t.pc) then 1 else 0
  }

  ghost predicate Conserved(s: State) {
    && s.eventId == s.eventSets + Sum(s.producers, BetweenIncAndSet)
    && s.eventSets + ExitSets(s) == s.taken + s.merged + (if s.ready then 1 else 0)
    && s.waiters == Sum(s.tasks, CountedWaiting)
  }

  /** What an action of one task changes: that task, and the waiter count by the task's own weight. */
  lemma OneTaskMoves(s: State, a: Action)
    requires Enabled(s, a) && !a.ProducerStep? && !a.ExitStep?
    ensures Apply(s, a).tasks == s.tasks[a.i := Apply(s, a).tasks[a.i]]
    ensures Apply(s, a).waiters + CountedWaiting(s.tasks[a.i]) == s.waiters + CountedWaiting(Apply(s, a).tasks[a.i])
  {
  }

  lemma WakingKeepsWaiters(tasks: seq<Task>)
    ensures Sum(WakeAll(tasks), CountedWaiting) == Sum(tasks, CountedWaiting)
  {
    SumAgree(tasks, WakeAll(tasks), CountedWaiting);
  }

  lemma WaitersStep(s: State, a: Action, e: State)
    requires Enabled(s, a) && e == Apply(s, a) && s.waiters == Sum(s.tasks, CountedWaiting)
    ensures e.waiters == Sum(e.tasks, CountedWaiting)
  {
    if a.ProducerStep? || a.ExitStep? {
      WakingKeepsWaiters(s.tasks);
    } else {
      OneTaskMoves(s, a);
      SumUpdate(s.tasks, a.i, e.tasks[a.i], CountedWaiting);
    }
  }

  lemma ProducersEvent(s: State, p: nat, e: State)
    requires Enabled(s, ProducerStep(p)) && e == Apply(s, ProducerStep(p)) && Conserved(s)
    ensures e.eventId == e.eventSets + Sum(e.producers, BetweenIncAndSet)
    ensures e.eventSets + ExitSets(e) == e.taken + e.merged + (if e.ready then 1 else 0)
  {
    SumUpdate(s.producers, p, e.producers[p], BetweenIncAndSet);
  }

  lemma EventsStep(s: State, a: Action, e: State)
    requires Enabled(s, a) && e == Apply(s, a) && Conserved(s)
    ensures e.eventId == e.eventSets + Sum(e.producers, BetweenIncAndSet)
    ensures e.eventSets + ExitSets(e) == e.taken + e.merged + (if e.ready then 1 else 0)
  {
    if a.ProducerStep? {
      ProducersEvent(s, a.p, e);
    }
  }

  lemma ConservedStep(s: State, a: Action)
    requires Conserved(s) && Enabled(s, a)
    ensures Conserved(Apply(s, a))
  {
    WaitersStep(s, a, Apply(s, a));
    EventsStep(s, a, Apply(s, a));
  }

  lemma StartConserved(tasks: nat, producers: nat)
    ensures Conserved(Start(tasks, producers))
  {
    SumConstant(Start(tasks, producers).producers, BetweenIncAndSet, 0);
    SumConstant(Start(tasks, producers).tasks, CountedWaiting, 0);
  }

  /** One task's reports: the consumptions are distinct and in order, the ids never decrease, and
      the k-th consumption was told of at least k events (one fewer if the last flag was exit's). */
  ghost predicate GoodReports(s: State, t: Task) {
    && (forall m :: 0 <= m < |t.seen| ==>
        t.seen[m].k <= t.seen[m].id + ExitSets(s) && t.seen[m].id <= s.eventId && t.seen[m].k <= s.taken)
    && (forall m, n :: 0 <= m < n < |t.seen| ==> t.seen[m].k < t.seen[n].k && t.seen[m].id <= t.seen[n].id)
    && (t.pc.ReadId? ==> t.pc.k <= s.taken && forall m :: 0 <= m < |t.seen| ==> t.seen[m].k < t.pc.k)
  }

  ghost predicate Labelled(s: State) {
    forall i :: 0 <= i < |s.tasks| ==> GoodReports(s, s.tasks[i])
  }

  lemma ReportsStayGood(s: State, e: State, t: Task, u: Task)
    requires GoodReports(s, t) && u.seen == t.seen && (u.pc.ReadId? ==> u.pc == t.pc)
    requires e.eventId >= s.eventId && e.taken >= s.taken && ExitSets(e) >= ExitSets(s)
    ensures GoodReports(e, u)
  {
  }

  /** What a task's own step does to its reports: consuming, reporting, or nothing. */
  lemma OwnStepReports(s: State, i: nat, e: State)
    requires Enabled(s, Step(i)) && e == Apply(s, Step(i))
    ensures e.eventId == s.eventId && e.exit == s.exit && e.taken >= s.taken && |e.tasks| == |s.tasks|
    ensures var t, u := s.tasks[i], e.tasks[i];
            if t.pc == AtXchg && s.ready then u.seen == t.seen && u.pc == ReadId(e.taken) && e.taken == s.taken + 1
            else if t.pc.ReadId? then u.pc == Idle && u.seen == t.seen + [Report(t.pc.k, s.eventId)]
            else u.seen == t.seen && !u.pc.ReadId?
  {
  }

  lemma ReportIsGood(s: State, e: State, t: Task, u: Task)
    requires Conserved(s) && GoodReports(s, t) && t.pc.ReadId? && !u.pc.ReadId?
    requires e.eventId == s.eventId && e.exit == s.exit && e.taken >= s.taken
    requires u.seen == t.seen + [Report(t.pc.k, s.eventId)]
    ensures GoodReports(e, u)
  {
  }

  lemma OwnReportsStayGood(s: State, i: nat)
    requires Conserved(s) && Enabled(s, Step(i)) && GoodReports(s, s.tasks[i])
    ensures GoodReports(Apply(s, Step(i)), Apply(s, Step(i)).tasks[i])
  {
    var t, e := s.tasks[i], Apply(s, Step(i));
    OwnStepReports(s, i, e);
    if t.pc.ReadId? {
      ReportIsGood(s, e, t, e.tasks[i]);
    } else if !(t.pc == AtXchg && s.ready) {
      ReportsStayGood(s, e, t, e.tasks[i]);
    }
  }

  lemma HistoryGrows(s: State, a: Action, e: State)
    requires Enabled(s, a) && e == Apply(s, a)
    ensures e.eventId >= s.eventId && e.taken >= s.taken && ExitSets(e) >= ExitSets(s) && |e.tasks| == |s.tasks|
  {
  }

  lemma OthersKeepReports(s: State, a: Action, i: nat, e: State)
    requires Enabled(s, a) && a != Step(i) && e == Apply(s, a) && i < |s.tasks|
    ensures i < |e.tasks| && e.tasks[i].seen == s.tasks[i].seen
    ensures e.tasks[i].pc.ReadId? ==> e.tasks[i].pc == s.tasks[i].pc
  {
  }

  lemma ReportsKeptAt(s: State, a: Action, i: nat, e: State)
    requires Conserved(s) && Enabled(s, a) && e == Apply(s, a) && i < |s.tasks| && GoodReports(s, s.tasks[i])
    ensures i < |e.tasks| && GoodReports(e, e.tasks[i])
  {
    if a == Step(i) {
      OwnReportsStayGood(s, i);
    } else {
      HistoryGrows(s, a, e);
      OthersKeepReports(s, a, i, e);
      ReportsStayGood(s, e, s.tasks[i], e.tasks[i]);
    }
  }

  lemma LabelledStep(s: State, a: Action)
    requires Conserved(s) && Labelled(s) && Enabled(s, a)
    ensures Labelled(Apply(s, a))
  {
    var e := Apply(s, a);
    HistoryGrows(s, a, e);
    forall i: nat | i < |e.tasks| ensures GoodReports(e, e.tasks[i]) {
      ReportsKeptAt(s, a, i, e);
    }
  }

  // ---------------------------------------------------------------------------------------
  // Each consumption belongs to one reader
  // ---------------------------------------------------------------------------------------

  /** Task t holds consumption number k: it has reported it or is about to. */
  ghost predicate Holds(t: Task, k: nat) {
    t.pc == ReadId(k) || exists m :: 0 <= m < |t.seen| && t.seen[m].k == k
  }

  ghost predicate OneOwnerEach(s: State) {
    && (forall i: nat, k: nat :: i < |s.tasks| && Holds(s.tasks[i], k) ==> 1 <= k <= s.taken)
    && (forall i: nat, j: nat, k: nat ::
          i < |s.tasks| && j < |s.tasks| && Holds(s.tasks[i], k) && Holds(s.tasks[j], k) ==> i == j)
  }

  lemma OneOwnerStep(s: State, a: Action)
    requires OneOwnerEach(s) && Enabled(s, a)
    ensures OneOwnerEach(Apply(s, a))
  {
    var e := Apply(s, a);
    forall i: nat, k: nat | i < |e.tasks| && Holds(e.tasks[i], k)
      ensures Holds(s.tasks[i], k) || (k == e.taken == s.taken + 1 && a == Step(i))
    {
      HoldsStep(s, a, i, k);
    }
  }

  lemma HoldsStep(s: State, a: Action, i: nat, k: nat)
    requires Enabled(s, a) && i < |s.tasks| && Holds(Apply(s, a).tasks[i], k)
    ensures Holds(s.tasks[i], k) || (k == Apply(s, a).taken == s.taken + 1 && a == Step(i))
  {
    var t, e := s.tasks[i], Apply(s, a);
    var u := e.tasks[i];
    if a == Step(i) {
      OwnStepReports(s, i, e);
    } else {
      OthersKeepReports(s, a, i, e);
    }
    if u.pc != ReadId(k) {
      var m :| 0 <= m < |u.seen| && u.seen[m].k == k;
      if m < |t.seen| {
        assert t.seen[m].k == k;
      }
    }
  }

  ghost predicate Held(s: State, k: nat) {
    exists i: nat :: i < |s.tasks| && Holds(s.tasks[i], k)
  }

  ghost predicate AllHeld(s: State) {
    forall k :: 1 <= k <= s.taken ==> Held(s, k)
  }

  /** A task that holds a consumption goes on holding it: a claim becomes a report. */
  lemma HoldingStays(s: State, a: Action, i: nat, k: nat)
    requires Enabled(s, a) && i < |s.tasks| && Holds(s.tasks[i], k)
    ensures i < |Apply(s, a).tasks| && Holds(Apply(s, a).tasks[i], k)
  {
    var t, u := s.tasks[i], Apply(s, a).tasks[i];
    if a == Step(i) {
      OwnStepReports(s, i, Apply(s, a));
    } else {
      OthersKeepReports(s, a, i, Apply(s, a));
    }
    if t.pc == ReadId(k) {
      assert a == Step(i) ==> u.seen[|t.seen|].k == k;
      assert a != Step(i) ==> u.pc == t.pc;
    } else {
      var m :| 0 <= m < |t.seen| && t.seen[m].k == k;
      assert u.seen[m] == t.seen[m];
    }
  }

  lemma NewConsumptionIsHeld(s: State, a: Action)
    requires Enabled(s, a) && Apply(s, a).taken != s.taken
    ensures Apply(s, a).taken == s.taken + 1 && Held(Apply(s, a), s.taken + 1)
  {
    var e := Apply(s, a);
    assert a.Step? && e.tasks[a.i].pc == ReadId(s.taken + 1);
    assert Holds(e.tasks[a.i], s.taken + 1);
  }

  lemma AllHeldStep(s: State, a: Action)
    requires AllHeld(s) && Enabled(s, a)
    ensures AllHeld(Apply(s, a))
  {
    var e := Apply(s, a);
    forall k | 1 <= k <= e.taken ensures Held(e, k) {
      if k <= s.taken {
        assert Held(s, k);
        var i: nat :| i < |s.tasks| && Holds(s.tasks[i], k);
        HoldingStays(s, a, i, k);
      } else {
        NewConsumptionIsHeld(s, a);
      }
    }
  }

  // ---------------------------------------------------------------------------------------
  // What calls answer
  // ---------------------------------------------------------------------------------------

  /** Only blocking reads wait, and only the others answer -EAGAIN; a signal does not leave its task asleep and
      does not outlive the call it interrupts; and an event answered is the one last reported. */
  ghost predicate AnswersRight(t: Task) {
    && (Waiting(t.pc) ==> !t.nonblock)
    && (t.outcome == Again ==> t.nonblock)
    && (t.signal ==> !Blocked(t.pc) && !t.pc.Idle? && (t.pc.Test? ==> t.pc.interrupted || t.pc.woken))
    && (t.outcome.Event? ==> t.seen != [] && t.seen[|t.seen| - 1].id == t.outcome.id)
  }

  ghost predicate Answered(s: State) {
    forall i :: 0 <= i < |s.tasks| ==> AnswersRight(s.tasks[i])
  }

  /** What others do to a task, and a signal. */
  lemma OthersOnlyWake(s: State, a: Action, i: nat)
    requires Enabled(s, a) && i < |s.tasks|
    requires a != Step(i) && !(a.BeginRead? && a.i == i) && a != BeginPoll(i)
    ensures i < |Apply(s, a).tasks|
    ensures var t, u := s.tasks[i], Apply(s, a).tasks[i];
            if a == Signal(i) then u == WokenTask(t).(signal := true) else u == t || u == WokenTask(t)
  {
  }

  lemma OwnStepStaysRight(s: State, i: nat)
    requires Enabled(s, Step(i)) && AnswersRight(s.tasks[i])
    ensures i < |Apply(s, Step(i)).tasks| && AnswersRight(Apply(s, Step(i)).tasks[i])
  {
  }

  lemma AnswersStayRight(s: State, a: Action, i: nat)
    requires Enabled(s, a) && i < |s.tasks| && AnswersRight(s.tasks[i])
    ensures i < |Apply(s, a).tasks| && AnswersRight(Apply(s, a).tasks[i])
  {
    if a == Step(i) {
      OwnStepStaysRight(s, i);
    } else if !(a.BeginRead? && a.i == i) && a != BeginPoll(i) {
      OthersOnlyWake(s, a, i);
    }
  }

  lemma AnsweredStep(s: State, a: Action)
    requires Answered(s) && Enabled(s, a)
    ensures Answered(Apply(s, a))
  {
    forall i: nat | i < |Apply(s, a).tasks| ensures AnswersRight(Apply(s, a).tasks[i]) {
      AnswersStayRight(s, a, i);
    }
  }

  // ---------------------------------------------------------------------------------------
  // All of it, in every reachable state
  // ---------------------------------------------------------------------------------------

  /** What every step keeps. */
  ghost predicate Sound(s: State) {
    WakeupsKept(s) && Conserved(s) && Labelled(s) && OneOwnerEach(s) && AllHeld(s) && Answered(s)
  }

  lemma SoundStep(s: State, a: Action)
    requires Sound(s) && Enabled(s, a)
    ensures Sound(Apply(s, a))
  {
    WakeupsKeptStep(s, a);
    ConservedStep(s, a);
    LabelledStep(s, a);
    OneOwnerStep(s, a);
    AllHeldStep(s, a);
    AnsweredStep(s, a);
  }

  lemma {:induction false} SoundAlways(s: State, acts: seq<Action>, e: State)
    requires Sound(s) && Runs(s, acts, e)
    ensures Sound(e)
    decreases |acts|
  {
    if acts != [] {
      SoundStep(s, acts[0]);
      SoundAlways(Apply(s, acts[0]), acts[1..], e);
    }
  }

  lemma StartSound(tasks: nat, producers: nat)
    ensures Sound(Start(tasks, producers))
  {
    StartConserved(tasks, producers);
  }

  lemma EveryStateIsSound(tasks: nat, producers: nat, acts: seq<Action>, e: State)
    requires Runs(Start(tasks, producers), acts, e)
    ensures Sound(e)
  {
    StartSound(tasks, producers);
    SoundAlways(Start(tasks, producers), acts, e);
  }

  /** In every reachable state, with any number of readers, pollers and producers: if the flag is up
      while some task sleeps unwoken, then somebody has raised the flag and not yet done its wake. */
  lemma NoLostWakeup(tasks: nat, producers: nat, acts: seq<Action>, e: State)
    requires Runs(Start(tasks, producers), acts, e)
    requires e.ready && SomebodyBlocked(e)
    ensures WakeDue(e)
  {
    EveryStateIsSound(tasks, producers, acts, e);
  }

  /** Until exit begins, every event is either between its increment and its flag, or consumed by
      exactly one exchange, or merged into a flag already up, or is the flag now up; and the
      waiters attribute counts exactly the tasks inside the wait. */
  lemma EventConservation(tasks: nat, producers: nat, acts: seq<Action>, e: State)
    requires Runs(Start(tasks, producers), acts, e) && e.exit.Loaded?
    ensures e.eventId == e.eventSets + Sum(e.producers, BetweenIncAndSet)
    ensures e.eventSets == e.taken + e.merged + (if e.ready then 1 else 0)
    ensures e.waiters == Sum(e.tasks, CountedWaiting)
  {
    EveryStateIsSound(tasks, producers, acts, e);
  }

  /** So at rest every event has been consumed exactly if none was merged into another. */
  lemma EachConsumedUnlessMerged(tasks: nat, producers: nat, acts: seq<Action>, e: State)
    requires Runs(Start(tasks, producers), acts, e) && e.exit.Loaded? && !e.ready
    requires forall p :: 0 <= p < |e.producers| ==> e.producers[p] == Resting
    ensures e.taken == e.eventId <==> e.merged == 0
    ensures e.taken <= e.eventId
  {
    EventConservation(tasks, producers, acts, e);
    SumConstant(e.producers, BetweenIncAndSet, 0);
  }

  /** Until exit begins: the k-th consumption reports an id of at least k and of no more than the
      events produced; the ids one reader sees never decrease; and it never consumes twice at once. */
  lemma LabelsInOrder(tasks: nat, producers: nat, acts: seq<Action>, e: State, i: nat)
    requires Runs(Start(tasks, producers), acts, e) && e.exit.Loaded? && i < |e.tasks|
    ensures forall r :: r in e.tasks[i].seen ==> r.k <= r.id <= e.eventId
    ensures forall m, n :: 0 <= m < n < |e.tasks[i].seen| ==>
              e.tasks[i].seen[m].k < e.tasks[i].seen[n].k && e.tasks[i].seen[m].id <= e.tasks[i].seen[n].id
  {
    EveryStateIsSound(tasks, producers, acts, e);
    assert GoodReports(e, e.tasks[i]);
  }

  /** Exactly one reader consumes each raised flag: every consumption made so far is held by one task and
      by no other. */
  lemma ExactlyOneReader(tasks: nat, producers: nat, acts: seq<Action>, e: State, k: nat)
    requires Runs(Start(tasks, producers), acts, e)
    ensures Held(e, k) <==> 1 <= k <= e.taken
    ensures forall i: nat, j: nat ::
              i < |e.tasks| && j < |e.tasks| && Holds(e.tasks[i], k) && Holds(e.tasks[j], k) ==> i == j
  {
    EveryStateIsSound(tasks, producers, acts, e);
  }

  // ---------------------------------------------------------------------------------------
  // Two events consumed as one
  // ---------------------------------------------------------------------------------------

  ghost predicate Reaches(s: State, e: State) {
    exists acts :: Runs(s, acts, e)
  }

  lemma Before(s: State, a: Action, e: State)
    requires Enabled(s, a) && Reaches(Apply(s, a), e)
    ensures Reaches(s, e)
  {
    var rest :| Runs(Apply(s, a), rest, e);
    assert ([a] + rest)[1..] == rest;
    assert Runs(s, [a] + rest, e);
  }

  /** A reader that comes to a raised flag consumes it. */
  lemma ReaderConsumes(s: State) returns (e: State)
    requires |s.tasks| == 1 && s.tasks[0] == FRESH_TASK && s.ready
    ensures Reaches(s, e) && e.eventId == s.eventId && e.taken == s.taken + 1 && !e.ready
  {
    var m := Apply(s, BeginRead(0, false));
    e := Apply(m, Step(0));
    assert Runs(e, [], e);
    Before(m, Step(0), e);
    Before(s, BeginRead(0, false), e);
  }

  /** One event: its increment, its flag and its wake-up. */
  lemma OneEvent(s: State) returns (m: State)
    requires |s.tasks| == 1 && s.tasks[0] == FRESH_TASK && s.producers == [Resting]
    ensures m.tasks == s.tasks && m.producers == [Resting] && m.ready
    ensures m.eventId == s.eventId + 1 && m.taken == s.taken
    ensures forall e :: Reaches(m, e) ==> Reaches(s, e)
  {
    var s1 := Apply(s, ProducerStep(0));
    var s2 := Apply(s1, ProducerStep(0));
    m := Apply(s2, ProducerStep(0));
    forall e | Reaches(m, e) ensures Reaches(s, e) {
      Before(s2, ProducerStep(0), e);
      Before(s1, ProducerStep(0), e);
      Before(s, ProducerStep(0), e);
    }
  }

  /** Two events in a row before a reader comes: the only consumption is of both. */
  lemma EventsCanMerge()
    ensures exists e :: Reaches(Start(1, 1), e) && e.eventId == 2 && e.taken == 1 && !e.ready
  {
    var one := OneEvent(Start(1, 1));
    var two := OneEvent(one);
    var e := ReaderConsumes(two);
  }
}
