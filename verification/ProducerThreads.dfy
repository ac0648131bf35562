// Starting and stopping the producer thread of 15_kthreads/kthreads.c as a state machine: any number
// of callers inside start, stop and status at once, any number of producer threads alive at once
// (stop drops the lock before it waits), and readers draining the ring.

module ProducerThreads {
  import opened Tally
  import opened RingHistory

  /** Where a producer thread is in its loop. */
  datatype Place = AtCheck | Producing | Sleeping | Returned

  /** stops: how often the thread has been passed to kthread_stop(); freed: that call has returned, so
      nothing may refer to the thread any more. */
  datatype Thread = Thread(place: Place, stops: nat, freed: bool)

  const NEW_THREAD: Thread := Thread(AtCheck, 0, false)

  datatype Reply = Nothing | Started | AlreadyRunning | Failed | Stopped | NotRunning | Status(running: bool)

  /** Where a caller is; between Held and Leave it holds producer_task_lock. */
  datatype Pc =
    | Out(reply: Reply)
    | StartWait | StartHeld | StartLeave(reply: Reply)
    | StopWait | StopHeld | StopLeave(task: Option<nat>) | StopCalling(t: nat) | StopWaiting(t: nat)
    | StatusWait | StatusHeld | StatusLeave(running: bool)

  datatype State = State(
    lock: Option<nat>, producer: Option<nat>, threads: seq<Thread>, callers: seq<Pc>, ring: Ring)

  datatype Action =
    | Begin(c: nat, call: Pc)
    | CallerStep(c: nat, created: bool)
    | ThreadStep(t: nat, ns: nat)
    | DrainRing

  function Start(callers: nat): State {
    State(None, None, [], seq(callers, i => Out(Nothing)), EMPTY)
  }

  predicate InSection(pc: Pc) {
    pc.StartHeld? || pc.StartLeave? || pc.StopHeld? || pc.StopLeave? || pc.StatusHeld? || pc.StatusLeave?
  }

  predicate Waits(pc: Pc) {
    pc.StartWait? || pc.StopWait? || pc.StatusWait?
  }

  predicate CanStep(s: State, c: nat) {
    c < |s.callers| &&
    match s.callers[c]
    case Out(_) => false
    case StopWaiting(t) => t < |s.threads| && s.threads[t].place == Returned
    case StopCalling(t) => t < |s.threads|
    case pc => Waits(pc) ==> s.lock.None?
  }

  predicate Enabled(s: State, a: Action) {
    match a
    case Begin(c, call) => c < |s.callers| && s.callers[c].Out? && Waits(call)
    case CallerStep(c, _) => CanStep(s, c)
    case ThreadStep(t, _) => t < |s.threads| && s.threads[t].place != Returned
    case DrainRing => true
  }

  function Goto(s: State, c: nat, pc: Pc): State
    requires c < |s.callers|
  {
    s.(callers := s.callers[c := pc])
  }

  function StepCaller(s: State, c: nat, created: bool): State
    requires CanStep(s, c)
  {
    match s.callers[c]
    case StartWait => Goto(s.(lock := Some(c)), c, StartHeld)
    case StartHeld =>
      if s.producer.Some? then Goto(s, c, StartLeave(AlreadyRunning))
      else if created then
        Goto(s.(producer := Some(|s.threads|), threads := s.threads + [NEW_THREAD]), c, StartLeave(Started))
      else Goto(s, c, StartLeave(Failed))
    case StartLeave(reply) => Goto(s.(lock := None), c, Out(reply))
    case StopWait => Goto(s.(lock := Some(c)), c, StopHeld)
    case StopHeld => Goto(s.(producer := None), c, StopLeave(s.producer))
    case StopLeave(task) =>
      Goto(s.(lock := None), c, if task.None? then Out(NotRunning) else StopCalling(task.value))
    case StopCalling(t) =>
      Goto(s.(threads := s.threads[t := s.threads[t].(stops := s.threads[t].stops + 1)]), c, StopWaiting(t))
    case StopWaiting(t) =>
      Goto(s.(threads := s.threads[t := s.threads[t].(freed := true)]), c, Out(Stopped))
    case StatusWait => Goto(s.(lock := Some(c)), c, StatusHeld)
    case StatusHeld => Goto(s, c, StatusLeave(s.producer.Some?))
    case StatusLeave(running) => Goto(s.(lock := None), c, Out(Status(running)))
  }

  function StepThread(s: State, t: nat, ns: nat): State
    requires Enabled(s, ThreadStep(t, ns))
  {
    var th := s.threads[t];
    match th.place
    case AtCheck => s.(threads := s.threads[t := th.(place := if th.stops > 0 then Returned else Producing)])
    case Producing => s.(threads := s.threads[t := th.(place := Sleeping)], ring := Perform(s.ring, Produce(ns)))
    case Sleeping => s.(threads := s.threads[t := th.(place := AtCheck)])
  }

  function Apply(s: State, a: Action): State
    requires Enabled(s, a)
  {
    match a
    case Begin(c, call) => Goto(s, c, call)
    case CallerStep(c, created) => StepCaller(s, c, created)
    case ThreadStep(t, ns) => StepThread(s, t, ns)
    case DrainRing => s.(ring := Perform(s.ring, Drain))
  }

  ghost predicate Runs(s: State, acts: seq<Action>, e: State)
    decreases |acts|
  {
    if acts == [] then s == e
    else Enabled(s, acts[0]) && Runs(Apply(s, acts[0]), acts[1..], e)
  }

  /** An action that is not possible when its turn comes is passed over. */
  function Turn(s: State, a: Action): State {
    if Enabled(s, a) then Apply(s, a) else s
  }

  /** The state after the first n turns of a schedule. */
  function Follow(s: State, schedule: seq<Action>, n: nat): State
    requires n <= |schedule|
  {
    if n == 0 then s else Turn(Follow(s, schedule, n - 1), schedule[n - 1])
  }

  lemma FollowNext(s: State, schedule: seq<Action>, n: nat, m: State, e: State)
    requires n < |schedule| && m == Follow(s, schedule, n) && e == Turn(m, schedule[n])
    ensures e == Follow(s, schedule, n + 1)
  {
  }

  // ---------------------------------------------------------------------------------------
  // Who owns which thread
  // ---------------------------------------------------------------------------------------

  /** This caller has taken t out of producer_task and its kthread_stop() has not returned. */
  predicate Holds(pc: Pc, t: nat) {
    pc == StopLeave(Some(t)) || pc == StopCalling(t) || pc == StopWaiting(t)
  }

  ghost predicate Held(s: State, t: nat) {
    exists c :: 0 <= c < |s.callers| && Holds(s.callers[c], t)
  }

  ghost predicate LockedRight(s: State, c: nat)
    requires c < |s.callers|
  {
    InSection(s.callers[c]) <==> s.lock == Some(c)
  }

  /** A held thread exists, is not the current one, has been passed to kthread_stop() exactly if its
      holder has got that far, is not freed, and has no other holder. */
  ghost predicate HeldRight(s: State, c: nat, t: nat)
    requires c < |s.callers|
  {
    Holds(s.callers[c], t) ==>
      && t < |s.threads| && s.producer != Some(t) && !s.threads[t].freed
      && s.threads[t].stops == (if s.callers[c].StopWaiting? then 1 else 0)
      && forall d :: 0 <= d < |s.callers| && Holds(s.callers[d], t) ==> d == c
  }

  /** A live thread has an owner; a thread returns only after its stop; nobody is stopped twice. */
  ghost predicate OwnedRight(s: State, t: nat)
    requires t < |s.threads|
  {
    var th := s.threads[t];
    && th.stops <= 1
    && (th.place != Returned ==> !th.freed && (s.producer == Some(t) || Held(s, t)))
    && (th.place == Returned ==> th.stops == 1)
  }

  ghost predicate Owned(s: State) {
    && (forall c: nat :: c < |s.callers| ==> LockedRight(s, c))
    && (s.lock.Some? ==> s.lock.value < |s.callers|)
    && (s.producer.Some? ==>
        var t := s.producer.value;
        t < |s.threads| && s.threads[t].stops == 0 && s.threads[t].place != Returned && !s.threads[t].freed)
    && (forall c: nat, t: nat :: c < |s.callers| ==> HeldRight(s, c, t))
    && (forall t: nat :: t < |s.threads| ==> OwnedRight(s, t))
  }

  /** A caller comes to hold a thread only by taking it out of producer_task. */
  lemma HowCallersHold(s: State, a: Action, c: nat, t: nat)
    requires Enabled(s, a) && c < |s.callers| && Holds(Apply(s, a).callers[c], t)
    ensures |Apply(s, a).callers| == |s.callers|
    ensures Holds(s.callers[c], t) || (a.CallerStep? && a.c == c && s.callers[c] == StopHeld && s.producer == Some(t))
  {
  }

  lemma NoSecondHolder(s: State, a: Action, c: nat, d: nat, t: nat)
    requires Owned(s) && Enabled(s, a) && c < |s.callers| && d < |s.callers|
    requires Holds(Apply(s, a).callers[c], t) && Holds(Apply(s, a).callers[d], t)
    ensures c == d
  {
    HowCallersHold(s, a, c, t);
    HowCallersHold(s, a, d, t);
    assert HeldRight(s, c, t) && HeldRight(s, d, t);
  }

  lemma HeldStaysRight(s: State, a: Action, c: nat, t: nat)
    requires Owned(s) && Enabled(s, a) && c < |s.callers|
    ensures HeldRight(Apply(s, a), c, t)
  {
    var e := Apply(s, a);
    if Holds(e.callers[c], t) {
      HowCallersHold(s, a, c, t);
      assert HeldRight(s, c, t);
      if a.CallerStep? {
        assert LockedRight(s, a.c);
        if s.callers[a.c].StopCalling? || s.callers[a.c].StopWaiting? {
          assert HeldRight(s, a.c, s.callers[a.c].t);
        }
      }
      forall d: nat | d < |e.callers| && Holds(e.callers[d], t) ensures d == c {
        NoSecondHolder(s, a, c, d, t);
      }
    }
  }

  lemma StopsStayRight(s: State, a: Action, t: nat)
    requires Owned(s) && Enabled(s, a) && t < |Apply(s, a).threads|
    ensures var th := Apply(s, a).threads[t];
            th.stops <= 1 && (if th.place == Returned then th.stops == 1 else !th.freed)
  {
    assert t < |s.threads| ==> OwnedRight(s, t);
    if a.CallerStep? && (s.callers[a.c].StopCalling? || s.callers[a.c].StopWaiting?) {
      assert HeldRight(s, a.c, s.callers[a.c].t);
    }
  }

  lemma HolderStays(s: State, a: Action, c: nat, t: nat)
    requires Enabled(s, a) && c < |s.callers| && Holds(s.callers[c], t)
    requires !(a.CallerStep? && a.c == c && s.callers[c].StopWaiting?)
    ensures Held(Apply(s, a), t)
  {
    assert Holds(Apply(s, a).callers[c], t);
  }

  lemma LiveStaysOwned(s: State, a: Action, t: nat)
    requires Owned(s) && Enabled(s, a) && t < |s.threads| && Apply(s, a).threads[t].place != Returned
    ensures Apply(s, a).producer == Some(t) || Held(Apply(s, a), t)
  {
    var e := Apply(s, a);
    assert OwnedRight(s, t);
    if s.producer == Some(t) {
      assert e.producer != Some(t) ==> Holds(e.callers[a.c], t);
    } else {
      var c: nat :| c < |s.callers| && Holds(s.callers[c], t);
      HolderStays(s, a, c, t);
    }
  }

  lemma OwnedStaysRight(s: State, a: Action, t: nat)
    requires Owned(s) && Enabled(s, a) && t < |Apply(s, a).threads|
    ensures OwnedRight(Apply(s, a), t)
  {
    StopsStayRight(s, a, t);
    if t < |s.threads| && Apply(s, a).threads[t].place != Returned {
      LiveStaysOwned(s, a, t);
    }
  }

  lemma LocksStayRight(s: State, a: Action)
    requires Owned(s) && Enabled(s, a)
    ensures var e := Apply(s, a);
            (forall c: nat :: c < |e.callers| ==> LockedRight(e, c)) && (e.lock.Some? ==> e.lock.value < |e.callers|)
  {
    var e := Apply(s, a);
    forall c: nat | c < |e.callers| ensures LockedRight(e, c) {
      assert LockedRight(s, c);
      assert a.CallerStep? ==> LockedRight(s, a.c);
    }
  }

  lemma ProducerStaysRight(s: State, a: Action)
    requires Owned(s) && Enabled(s, a)
    ensures var e := Apply(s, a);
            e.producer.Some? ==>
              var t := e.producer.value;
              t < |e.threads| && e.threads[t].stops == 0 && e.threads[t].place != Returned && !e.threads[t].freed
  {
    if a.CallerStep? && (s.callers[a.c].StopCalling? || s.callers[a.c].StopWaiting?) {
      assert HeldRight(s, a.c, s.callers[a.c].t);
    }
  }

  lemma OwnedKept(s: State, a: Action)
    requires Owned(s) && Enabled(s, a)
    ensures Owned(Apply(s, a))
  {
    LocksStayRight(s, a);
    ProducerStaysRight(s, a);
    forall c: nat, t: nat | c < |Apply(s, a).callers| ensures HeldRight(Apply(s, a), c, t) {
      HeldStaysRight(s, a, c, t);
    }
    forall t: nat | t < |Apply(s, a).threads| ensures OwnedRight(Apply(s, a), t) {
      OwnedStaysRight(s, a, t);
    }
  }

  lemma StartOwned(callers: nat)
    ensures Owned(Start(callers))
  {
  }

  lemma {:induction false} OwnedAlways(s: State, acts: seq<Action>, e: State)
    requires Owned(s) && Runs(s, acts, e)
    ensures Owned(e)
    decreases |acts|
  {
    if acts != [] {
      OwnedKept(s, acts[0]);
      OwnedAlways(Apply(s, acts[0]), acts[1..], e);
    }
  }

  ghost predicate AtMostOneHolder(s: State, t: nat) {
    forall c, d :: 0 <= c < |s.callers| && 0 <= d < |s.callers| && Holds(s.callers[c], t) && Holds(s.callers[d], t) ==>
      c == d
  }

  lemma OwnedMeans(s: State, t: nat)
    requires Owned(s) && t < |s.threads|
    ensures s.threads[t].stops <= 1 && AtMostOneHolder(s, t)
    ensures s.threads[t].place != Returned ==> (s.producer == Some(t) <==> !Held(s, t))
  {
    assert OwnedRight(s, t);
    forall c, d | 0 <= c < |s.callers| && 0 <= d < |s.callers| && Holds(s.callers[c], t) && Holds(s.callers[d], t)
      ensures c == d
    {
      assert HeldRight(s, c, t);
    }
    if c: nat :| c < |s.callers| && Holds(s.callers[c], t) {
      assert HeldRight(s, c, t);
    }
  }

  /** Thread ownership: in every reachable state a live producer thread is either producer_task or held
      by exactly one stop in flight, never both; and no thread is ever stopped twice. */
  lemma ThreadOwnership(callers: nat, acts: seq<Action>, e: State, t: nat)
    requires Runs(Start(callers), acts, e) && t < |e.threads|
    ensures e.threads[t].stops <= 1 && AtMostOneHolder(e, t)
    ensures e.threads[t].place != Returned ==> (e.producer == Some(t) <==> !Held(e, t))
  {
    OwnedAlways(Start(callers), acts, e);
    OwnedMeans(e, t);
  }

  predicate StillThere(s: State, t: nat) {
    t < |s.threads| && !s.threads[t].freed
  }

  /** What start, stop and status find in producer_task under its lock names a thread that has neither
      been stopped nor returned, and a stop in flight never refers to a thread that is gone. */
  lemma NoDanglingThread(callers: nat, acts: seq<Action>, e: State)
    requires Runs(Start(callers), acts, e)
    ensures e.producer.Some? ==>
              e.producer.value < |e.threads| && e.threads[e.producer.value].place != Returned
              && e.threads[e.producer.value].stops == 0
    ensures forall c: nat, t: nat :: c < |e.callers| && Holds(e.callers[c], t) ==> StillThere(e, t)
  {
    OwnedAlways(Start(callers), acts, e);
    forall c: nat, t: nat | c < |e.callers| && Holds(e.callers[c], t) ensures StillThere(e, t) {
      assert HeldRight(e, c, t);
    }
  }

  // ---------------------------------------------------------------------------------------
  // Stops come to an end
  // ---------------------------------------------------------------------------------------

  /** Nobody is stuck: a caller that cannot go on either waits for a lock whose holder can, or waits in
      kthread_stop() for a live thread that has been told to stop. */
  lemma NobodyIsStuck(callers: nat, acts: seq<Action>, e: State, c: nat)
    requires Runs(Start(callers), acts, e) && c < |e.callers| && !e.callers[c].Out? && !CanStep(e, c)
    ensures (Waits(e.callers[c]) && e.lock.Some? && e.lock.value != c && CanStep(e, e.lock.value))
            || (e.callers[c].StopWaiting? && e.callers[c].t < |e.threads|
                && e.threads[e.callers[c].t].stops == 1 && e.threads[e.callers[c].t].place != Returned)
  {
    OwnedAlways(Start(callers), acts, e);
    assert LockedRight(e, c);
    if e.callers[c].StopWaiting? || e.callers[c].StopCalling? {
      assert HeldRight(e, c, e.callers[c].t);
    } else {
      assert LockedRight(e, e.lock.value);
    }
  }

  /** Steps a thread told to stop has left. */
  function StepsLeft(p: Place): nat {
    match p
    case Returned => 0
    case AtCheck => 1
    case Sleeping => 2
    case Producing => 3
  }

  /** The steps that thread t takes in a run. */
  function StepsBy(acts: seq<Action>, t: nat): nat {
    if acts == [] then 0 else StepsBy(acts[1..], t) + if acts[0].ThreadStep? && acts[0].t == t then 1 else 0
  }

  /** The items that thread t produces in a run. */
  ghost function ItemsBy(s: State, acts: seq<Action>, t: nat): nat
    decreases |acts|
  {
    if acts == [] || !Enabled(s, acts[0]) then 0
    else
      ItemsBy(Apply(s, acts[0]), acts[1..], t)
      + if acts[0].ThreadStep? && acts[0].t == t && s.threads[t].place == Producing then 1 else 0
  }

  /** Only its own steps move a thread, and once it has been told to stop they lead it to its end. */
  lemma ToldThreadMoves(s: State, a: Action, t: nat)
    requires Enabled(s, a) && t < |s.threads| && s.threads[t].stops > 0
    ensures t < |Apply(s, a).threads| && Apply(s, a).threads[t].stops > 0
    ensures var before, after := s.threads[t].place, Apply(s, a).threads[t].place;
            if a.ThreadStep? && a.t == t then StepsLeft(after) == StepsLeft(before) - 1 else after == before
  {
  }

  /** A stop comes to its end: in every run from a moment when thread t has been told to stop, t takes at most
      three more steps, exactly as many as bring it to its return, and produces at most the one item that it
      was already about to produce. */
  lemma {:induction false} ToldThreadReturns(s: State, acts: seq<Action>, e: State, t: nat)
    requires Runs(s, acts, e) && t < |s.threads| && s.threads[t].stops > 0
    ensures t < |e.threads| && StepsBy(acts, t) + StepsLeft(e.threads[t].place) == StepsLeft(s.threads[t].place) <= 3
    ensures ItemsBy(s, acts, t) <= if s.threads[t].place == Producing then 1 else 0
    decreases |acts|
  {
    if acts != [] {
      ToldThreadMoves(s, acts[0], t);
      ToldThreadReturns(Apply(s, acts[0]), acts[1..], e, t);
    }
  }

  // ---------------------------------------------------------------------------------------
  // The ring across starts and stops
  // ---------------------------------------------------------------------------------------

  /** What a run does to the ring. */
  ghost function RingActions(s: State, acts: seq<Action>): seq<RingHistory.Action>
    decreases |acts|
  {
    if acts == [] || !Enabled(s, acts[0]) then []
    else
      var a, rest := acts[0], RingActions(Apply(s, acts[0]), acts[1..]);
      if a.DrainRing? then [Drain] + rest
      else if a.ThreadStep? && s.threads[a.t].place == Producing then [Produce(a.ns)] + rest
      else rest
  }

  lemma RingStaysGood(s: State, a: Action)
    requires Good(s.ring) && Enabled(s, a)
    ensures Good(Apply(s, a).ring)
  {
    if a.DrainRing? {
      GoodKept(s.ring, Drain);
    } else if a.ThreadStep? && s.threads[a.t].place == Producing {
      GoodKept(s.ring, Produce(a.ns));
    }
  }

  lemma {:induction false} RingRunNext(r: Ring, a: RingHistory.Action, acts: seq<RingHistory.Action>)
    ensures Run(r, [a] + acts) == Run(Perform(r, a), acts)
    decreases |acts|
  {
    var all := [a] + acts;
    if acts == [] {
      assert all[..0] == [] && all[0] == a;
    } else {
      RingRunNext(r, a, acts[..|acts| - 1]);
      assert all[..|all| - 1] == [a] + acts[..|acts| - 1];
    }
  }

  lemma {:induction false} RingFollows(s: State, acts: seq<Action>, e: State)
    requires Runs(s, acts, e)
    ensures e.ring == Run(s.ring, RingActions(s, acts))
    decreases |acts|
  {
    if acts != [] {
      var a, next := acts[0], Apply(s, acts[0]);
      RingFollows(next, acts[1..], e);
      var rest := RingActions(next, acts[1..]);
      if a.DrainRing? {
        RingRunNext(s.ring, Drain, rest);
      } else if a.ThreadStep? && s.threads[a.t].place == Producing {
        RingRunNext(s.ring, Produce(a.ns), rest);
      }
    }
  }

  /** Across any starts, stops, overlapping producers and drains, next_seq is what has been drained,
      plus what is buffered, plus what has been dropped, and the buffered items are the last ones. */
  lemma RingSurvivesRestarts(callers: nat, acts: seq<Action>, e: State)
    requires Runs(Start(callers), acts, e)
    ensures e.ring.nextSeq == Sum(e.ring.batches, Size) + |e.ring.live| + e.ring.dropped
    ensures |e.ring.live| <= RING_SIZE && Numbered(e.ring) && GoodBatches(e.ring)
  {
    RingFollows(Start(callers), acts, e);
    GoodAlways(EMPTY, RingActions(Start(callers), acts));
  }

  // ---------------------------------------------------------------------------------------
  // What callers are told
  // ---------------------------------------------------------------------------------------

  predicate IsSet(s: State) {
    s.producer.Some?
  }

  /** What the caller holding the lock is about to answer is true of producer_task while it holds it. */
  ghost predicate Truthful(s: State, c: nat)
    requires c < |s.callers|
  {
    match s.callers[c]
    case StartLeave(reply) =>
      if reply == Failed then !IsSet(s) else IsSet(s) && (reply == Started || reply == AlreadyRunning)
    case StopLeave(task) => !IsSet(s)
    case StatusLeave(running) => running == IsSet(s)
    case _ => true
  }

  ghost predicate AllTruthful(s: State) {
    forall c: nat :: c < |s.callers| ==> Truthful(s, c)
  }

  /** Only the holder of the lock touches producer_task. */
  lemma LockGuardsProducer(s: State, a: Action, c: nat)
    requires Owned(s) && Enabled(s, a) && c < |s.callers| && InSection(s.callers[c])
    requires !(a.CallerStep? && a.c == c)
    ensures Apply(s, a).producer == s.producer && |Apply(s, a).callers| == |s.callers|
    ensures Apply(s, a).callers[c] == s.callers[c]
  {
    assert LockedRight(s, c);
    assert a.CallerStep? ==> LockedRight(s, a.c);
  }

  lemma StaysTruthful(s: State, a: Action, c: nat)
    requires Owned(s) && Enabled(s, a) && c < |s.callers| && Truthful(s, c)
    ensures c < |Apply(s, a).callers| && Truthful(Apply(s, a), c)
  {
    if InSection(s.callers[c]) && !(a.CallerStep? && a.c == c) {
      LockGuardsProducer(s, a, c);
    }
  }

  lemma TruthfulStep(s: State, a: Action)
    requires Owned(s) && Enabled(s, a) && AllTruthful(s)
    ensures AllTruthful(Apply(s, a))
  {
    forall c: nat | c < |Apply(s, a).callers| ensures Truthful(Apply(s, a), c) {
      StaysTruthful(s, a, c);
    }
  }

  lemma {:induction false} TruthfulAlways(s: State, acts: seq<Action>, e: State)
    requires Owned(s) && AllTruthful(s) && Runs(s, acts, e)
    ensures AllTruthful(e)
    decreases |acts|
  {
    if acts != [] {
      OwnedKept(s, acts[0]);
      TruthfulStep(s, acts[0]);
      TruthfulAlways(Apply(s, acts[0]), acts[1..], e);
    }
  }

  /** a is the step with which a caller returns this reply. */
  predicate Replies(s: State, a: Action, reply: Reply) {
    a.CallerStep? && Enabled(s, a) && Apply(s, a).callers[a.c] == Out(reply)
  }

  /** a is the step with which a start settles on this reply. */
  predicate Settles(s: State, a: Action, reply: Reply) {
    a.CallerStep? && Enabled(s, a) && s.callers[a.c] == StartHeld && Apply(s, a).callers[a.c] == StartLeave(reply)
  }

  /** A live thread, not told to stop. */
  predicate Running(s: State, t: nat) {
    t < |s.threads| && s.threads[t].place != Returned && s.threads[t].stops == 0
  }

  /** Replies are true: in every run, whatever other callers do, a start that says it started, or that one is
      already running, leaves producer_task naming a running thread; one that failed, and a stop that found
      nothing, leave it unset; a status says whether it is set; all under the lock the reply was settled
      under. And a stop says stopped only of a thread that has returned. */
  lemma RepliesAreTrue(callers: nat, acts: seq<Action>, s: State, a: Action)
    requires Runs(Start(callers), acts, s) && Enabled(s, a)
    ensures Replies(s, a, Started) || Replies(s, a, AlreadyRunning) ==>
              s.producer.Some? && Running(s, s.producer.value)
    ensures Replies(s, a, Failed) || Replies(s, a, NotRunning) ==> s.producer == None
    ensures forall running :: Replies(s, a, Status(running)) ==> running == s.producer.Some?
    ensures Replies(s, a, Stopped) ==>
              exists t: nat :: t < |s.threads| && Holds(s.callers[a.c], t) && s.threads[t].place == Returned
                && !s.threads[t].freed && Apply(s, a).threads == s.threads[t := s.threads[t].(freed := true)]
  {
    OwnedAlways(Start(callers), acts, s);
    TruthfulAlways(Start(callers), acts, s);
    if a.CallerStep? {
      assert Truthful(s, a.c) && LockedRight(s, a.c);
      if s.callers[a.c].StopWaiting? {
        var t := s.callers[a.c].t;
        assert HeldRight(s, a.c, t) && Holds(s.callers[a.c], t);
      }
    }
  }

  /** How a start settles: on AlreadyRunning exactly if producer_task is set, on Failed exactly if it is not and no
      thread can be created, and otherwise on Started, when producer_task comes to name a running thread that
      did not exist before; nothing else makes threads. */
  lemma StartsSettle(s: State, a: Action)
    requires Enabled(s, a)
    ensures Settles(s, a, AlreadyRunning) <==>
              a.CallerStep? && s.callers[a.c] == StartHeld && s.producer.Some?
    ensures Settles(s, a, Failed) <==>
              a.CallerStep? && s.callers[a.c] == StartHeld && s.producer.None? && !a.created
    ensures Settles(s, a, Started) <==>
              a.CallerStep? && s.callers[a.c] == StartHeld && s.producer.None? && a.created
    ensures var e := Apply(s, a);
            if Settles(s, a, Started) then
              && |e.threads| == |s.threads| + 1 && s.threads <= e.threads
              && e.producer == Some(|s.threads|) && Running(e, |s.threads|)
            else |e.threads| == |s.threads|
  {
  }

  function AboutToSayStarted(pc: Pc): nat {
    if pc == StartLeave(Started) then 1 else 0
  }

  function Freed(th: Thread): nat {
    if th.freed then 1 else 0
  }

  /** How often, in the first n turns of a schedule, a caller returns with this reply. */
  function ReplyCount(s: State, schedule: seq<Action>, n: nat, reply: Reply): nat
    requires n <= |schedule|
  {
    if n == 0 then 0
    else
      ReplyCount(s, schedule, n - 1, reply)
      + if Replies(Follow(s, schedule, n - 1), schedule[n - 1], reply) then 1 else 0
  }

  /** A step that adds a thread puts a caller about to say so, and only the reply takes it from there; a step
      that frees one is the reply to the stop. */
  lemma ThreadCountsStep(s: State, a: Action, e: State)
    requires Enabled(s, a) && Owned(s) && AllTruthful(s) && e == Apply(s, a)
    ensures |e.threads| + Sum(s.callers, AboutToSayStarted)
            == |s.threads| + Sum(e.callers, AboutToSayStarted) + if Replies(s, a, Started) then 1 else 0
    ensures Sum(e.threads, Freed) == Sum(s.threads, Freed) + if Replies(s, a, Stopped) then 1 else 0
  {
    CallersCountStep(s, a, e);
    FreedCountStep(s, a, e);
  }

  lemma CallersCountStep(s: State, a: Action, e: State)
    requires Enabled(s, a) && AllTruthful(s) && e == Apply(s, a)
    ensures |e.threads| + Sum(s.callers, AboutToSayStarted)
            == |s.threads| + Sum(e.callers, AboutToSayStarted) + if Replies(s, a, Started) then 1 else 0
  {
    if a.Begin? || a.CallerStep? {
      SumUpdate(s.callers, a.c, e.callers[a.c], AboutToSayStarted);
      assert Truthful(s, a.c);
    }
  }

  /** A caller's step changes at most one thread's fate, when it comes back from kthread_stop(). */
  lemma CallersFree(s: State, c: nat, created: bool, e: State)
    requires CanStep(s, c) && Owned(s) && e == StepCaller(s, c, created)
    ensures Sum(e.threads, Freed) == Sum(s.threads, Freed) + if s.callers[c].StopWaiting? then 1 else 0
  {
    match s.callers[c] {
      case StartHeld => assert e.threads != s.threads ==> e.threads[..|e.threads| - 1] == s.threads;
      case StopCalling(t) => SumUpdate(s.threads, t, e.threads[t], Freed);
      case StopWaiting(t) =>
        assert HeldRight(s, c, t);
        SumUpdate(s.threads, t, e.threads[t], Freed);
      case _ =>
    }
  }

  lemma FreedCountStep(s: State, a: Action, e: State)
    requires Enabled(s, a) && Owned(s) && AllTruthful(s) && e == Apply(s, a)
    ensures Sum(e.threads, Freed) == Sum(s.threads, Freed) + if Replies(s, a, Stopped) then 1 else 0
  {
    if a.ThreadStep? {
      SumUpdate(s.threads, a.t, e.threads[a.t], Freed);
    } else if a.CallerStep? {
      CallersFree(s, a.c, a.created, e);
      assert Truthful(s, a.c);
    }
  }

  /** What every turn keeps. */
  ghost predicate Orderly(s: State) {
    Owned(s) && AllTruthful(s)
  }

  lemma OrderlyTurn(s: State, a: Action)
    requires Orderly(s)
    ensures Orderly(Turn(s, a))
  {
    if Enabled(s, a) {
      OwnedKept(s, a);
      TruthfulStep(s, a);
    }
  }

  /** Starts and stops are threads: over any schedule, as many threads have come into being as starts have said
      so or are about to, and as many are gone as stops have said so. */
  lemma {:induction false} RepliesCountThreads(s: State, schedule: seq<Action>, n: nat)
    requires Orderly(s) && n <= |schedule|
    ensures var e := Follow(s, schedule, n);
            && Orderly(e)
            && |e.threads| + Sum(s.callers, AboutToSayStarted)
               == |s.threads| + Sum(e.callers, AboutToSayStarted) + ReplyCount(s, schedule, n, Started)
            && Sum(e.threads, Freed) == Sum(s.threads, Freed) + ReplyCount(s, schedule, n, Stopped)
  {
    if n > 0 {
      RepliesCountThreads(s, schedule, n - 1);
      var m, a := Follow(s, schedule, n - 1), schedule[n - 1];
      OrderlyTurn(m, a);
      if Enabled(m, a) {
        ThreadCountsStep(m, a, Apply(m, a));
      }
    }
  }

  // ---------------------------------------------------------------------------------------
  // A running thread produces
  // ---------------------------------------------------------------------------------------

  /** Steps taken since the last item, counted towards the next: three steps make a round. */
  function Phase(p: Place): int {
    match p
    case AtCheck => 0
    case Producing => 1
    case Sleeping => -1
    case Returned => 0
  }

  lemma RunningThreadMoves(s: State, a: Action, t: nat)
    requires Enabled(s, a) && Running(s, t) && t < |Apply(s, a).threads| && Apply(s, a).threads[t].stops == 0
    ensures Running(Apply(s, a), t)
    ensures var before, after := s.threads[t].place, Apply(s, a).threads[t].place;
            if a.ThreadStep? && a.t == t
            then 3 * (Apply(s, a).ring.nextSeq - s.ring.nextSeq) + Phase(after) == 1 + Phase(before)
            else after == before
  {
  }

  /** What thread t adds to next_seq in a run. */
  ghost function AddedBy(s: State, acts: seq<Action>, t: nat): int
    decreases |acts|
  {
    if acts == [] || !Enabled(s, acts[0]) then 0
    else
      AddedBy(Apply(s, acts[0]), acts[1..], t)
      + if acts[0].ThreadStep? && acts[0].t == t then Apply(s, acts[0]).ring.nextSeq - s.ring.nextSeq else 0
  }

  lemma StopsStay(s: State, a: Action, t: nat)
    requires Enabled(s, a) && t < |s.threads|
    ensures t < |Apply(s, a).threads| && Apply(s, a).threads[t].stops >= s.threads[t].stops
  {
  }

  lemma {:induction false} StopsStayAlways(s: State, acts: seq<Action>, e: State, t: nat)
    requires Runs(s, acts, e) && t < |s.threads|
    ensures t < |e.threads| && e.threads[t].stops >= s.threads[t].stops
    decreases |acts|
  {
    if acts != [] {
      StopsStay(s, acts[0], t);
      StopsStayAlways(Apply(s, acts[0]), acts[1..], e, t);
    }
  }

  /** A thread that nobody stops produces one item in every three of its steps, whatever the others do. */
  lemma {:induction false} RunningThreadProduces(s: State, acts: seq<Action>, e: State, t: nat)
    requires Runs(s, acts, e) && Running(s, t) && t < |e.threads| && e.threads[t].stops == 0
    ensures Running(e, t)
    ensures 3 * AddedBy(s, acts, t) + Phase(e.threads[t].place) == StepsBy(acts, t) + Phase(s.threads[t].place)
    decreases |acts|
  {
    if acts != [] {
      var next := Apply(s, acts[0]);
      StopsStay(s, acts[0], t);
      StopsStayAlways(next, acts[1..], e, t);
      RunningThreadMoves(s, acts[0], t);
      RunningThreadProduces(next, acts[1..], e, t);
    }
  }
}
