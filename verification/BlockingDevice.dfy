// 12_wait_queues_blocking/wait_queues_blocking.c as an object: its atomics and its wait queue,
// changed in place by producers, readers and pollers one shared access at a time.

module BlockingDevice {
  import opened Tally
  import opened BlockingEvents

  predicate OnlyOne(before: seq<Task>, after: seq<Task>, i: nat) {
    |after| == |before| && forall j :: 0 <= j < |after| && j != i ==> after[j] == before[j]
  }

  class Device {
    var dataReady: bool
    var eventId: nat
    var waiterCount: int
    var tasks: seq<Task>
    var producers: seq<Producer>
    var exit: Exit
    ghost var eventSets: nat
    ghost var merged: nat
    var taken: nat  // history; ordinary, because it numbers the consumption a reader carries

    ghost function Snapshot(): State
      reads this
    {
      State(dataReady, eventId, waiterCount, tasks, producers, exit, eventSets, merged, taken)
    }

    /** All that the device itself can see; no step depends on the history. */
    function Visible(): State
      reads this
    {
      State(dataReady, eventId, waiterCount, tasks, producers, exit, 0, 0, taken)
    }

    /** What every step of every task, producer and exit keeps. */
    ghost predicate Valid()
      reads this
    {
      Sound(Snapshot())
    }

    constructor (taskCount: nat, producerCount: nat)
      ensures Valid() && Snapshot() == Start(taskCount, producerCount)
    {
      StartSound(taskCount, producerCount);
      dataReady, eventId, waiterCount := false, 0, 0;
      tasks := seq(taskCount, i => FRESH_TASK);
      producers := seq(producerCount, i => Resting);
      exit := Loaded;
      eventSets, merged, taken := 0, 0, 0;
    }

    /** atomic_set(&data_ready, 1) */
    method SetFlag()
      modifies this`dataReady, this`merged
      ensures Snapshot() == RaiseFlag(old(Snapshot()))
    {
      merged := merged + if dataReady then 1 else 0;
      dataReady := true;
    }

    /** wake_up_interruptible(): every task on the queue is marked, one after the other. */
    method WakeUp()
      modifies this`tasks
      ensures Snapshot() == old(Snapshot()).(tasks := WakeAll(old(tasks)))
    {
      var i := 0;
      while i < |tasks|
        invariant 0 <= i <= |tasks| == |old(tasks)|
        invariant forall j :: 0 <= j < i ==> tasks[j] == WokenTask(old(tasks[j]))
        invariant forall j :: i <= j < |tasks| ==> tasks[j] == old(tasks[j])
      {
        tasks := tasks[i := WokenTask(tasks[i])];
        i := i + 1;
      }
      assert tasks == WakeAll(old(tasks));
    }

    /** One step of producer_fn() or trigger_store(). */
    method RunProducer(p: nat)
      requires p < |producers|
      modifies this
      ensures Snapshot() == Apply(old(Snapshot()), ProducerStep(p))
    {
      match producers[p] {
        case Resting =>
          eventId := eventId + 1;
          producers := producers[p := Incremented];
        case Incremented =>
          SetFlag();
          eventSets := eventSets + 1;
          producers := producers[p := FlagSet];
        case FlagSet =>
          WakeUp();
          producers := producers[p := Resting];
      }
    }

    /** One step of wait_queues_blocking_exit(), after the timer has been shut down. */
    method RunExit()
      requires !exit.Unloaded?
      modifies this
      ensures Snapshot() == Apply(old(Snapshot()), ExitStep)
    {
      if exit.Loaded? {
        SetFlag();
        exit := ExitFlagSet;
      } else {
        WakeUp();
        exit := Unloaded;
      }
    }

    method MoveTo(i: nat, pc: Pc)
      requires i < |tasks|
      modifies this`tasks
      ensures Snapshot() == Goto(old(Snapshot()), i, pc)
    {
      tasks := tasks[i := tasks[i].(pc := pc)];
    }

    method ReturnWith(i: nat, outcome: Outcome)
      requires i < |tasks|
      modifies this`tasks
      ensures Snapshot() == Return(old(Snapshot()), i, outcome)
    {
      tasks := tasks[i := tasks[i].(pc := Idle, signal := false, outcome := outcome)];
    }

    /** One step of a task inside bq_read(). */
    method RunReader(i: nat)
      requires Enabled(Snapshot(), Step(i))
      requires !tasks[i].pc.PollEnter? && !tasks[i].pc.PollTest? && !tasks[i].pc.PollAsleep?
      modifies this
      ensures Snapshot() == Apply(old(Snapshot()), Step(i))
    {
      var t := tasks[i];
      match t.pc {
        case AtXchg =>
          if dataReady {
            dataReady, taken := false, taken + 1;
            MoveTo(i, ReadId(taken));
          } else {
            MoveTo(i, AtFlags);
          }
        case AtFlags =>
          if t.nonblock {
            ReturnWith(i, Again);
          } else {
            waiterCount := waiterCount + 1;
            MoveTo(i, FirstTest);
          }
        case FirstTest => MoveTo(i, if dataReady then Leaving(false) else Prepare);
        case Prepare => MoveTo(i, Test(t.signal, false));
        case Test(interrupted, woken) =>
          if dataReady {
            MoveTo(i, Leaving(false));
          } else if interrupted {
            MoveTo(i, Leaving(true));
          } else {
            MoveTo(i, Asleep(woken));
          }
        case Asleep(_) => MoveTo(i, Prepare);
        case Leaving(interrupted) =>
          waiterCount := waiterCount - 1;
          if interrupted {
            ReturnWith(i, Interrupted);
          } else {
            MoveTo(i, AtXchg);
          }
        case ReadId(k) =>
          var id := eventId;
          tasks := tasks[i := Task(Idle, t.nonblock, false, Event(id), t.seen + [Report(k, id)])];
      }
    }

    /** One step of a task polling the device: bq_poll() queues it and reports the flag. */
    method RunPoller(i: nat)
      requires Enabled(Snapshot(), Step(i))
      requires tasks[i].pc.PollEnter? || tasks[i].pc.PollTest? || tasks[i].pc.PollAsleep?
      modifies this
      ensures Snapshot() == Apply(old(Snapshot()), Step(i))
      ensures tasks[i].outcome == Readable && old(tasks[i].outcome) != Readable ==> dataReady
    {
      match tasks[i].pc {
        case PollEnter => MoveTo(i, PollTest(false));
        case PollTest(woken) =>
          if dataReady {
            ReturnWith(i, Readable);
          } else if tasks[i].signal {
            ReturnWith(i, Interrupted);
          } else {
            MoveTo(i, PollAsleep(woken));
          }
        case PollAsleep(_) => MoveTo(i, PollTest(false));
      }
    }

    /** A task enters read() or poll(), or a signal reaches it. */
    method RunCall(a: Action)
      requires Enabled(Snapshot(), a) && (a.BeginRead? || a.BeginPoll? || a.Signal?)
      modifies this`tasks
      ensures Snapshot() == Apply(old(Snapshot()), a)
    {
      match a {
        case BeginRead(i, nonblock) =>
          tasks := tasks[i := tasks[i].(pc := AtXchg, nonblock := nonblock, outcome := Nothing)];
        case BeginPoll(i) => tasks := tasks[i := tasks[i].(pc := PollEnter, outcome := Nothing)];
        case Signal(i) => tasks := tasks[i := WokenTask(tasks[i]).(signal := true)];
      }
    }

    /** Whoever's step comes next, if it is possible at all. */
    method RunAny(a: Action)
      requires Valid()
      modifies this
      ensures Valid() && Snapshot() == Turn(old(Snapshot()), a)
    {
      if Enabled(Visible(), a) {
        SoundStep(Snapshot(), a);
        match a {
          case ProducerStep(p) => RunProducer(p);
          case ExitStep => RunExit();
          case Step(i) =>
            if tasks[i].pc.PollEnter? || tasks[i].pc.PollTest? || tasks[i].pc.PollAsleep? {
              RunPoller(i);
            } else {
              RunReader(i);
            }
          case _ => RunCall(a);
        }
      }
    }

    method RunAll(schedule: seq<Action>)
      requires Valid()
      modifies this
      ensures Valid() && Snapshot() == Follow(old(Snapshot()), schedule, |schedule|)
    {
      var n := 0;
      while n < |schedule|
        invariant 0 <= n <= |schedule| && Valid()
        invariant Snapshot() == Follow(old(Snapshot()), schedule, n)
      {
        ghost var before := Snapshot();
        RunAny(schedule[n]);
        FollowNext(old(Snapshot()), schedule, n, before, Snapshot());
        n := n + 1;
      }
    }

    /** Drives the device through any schedule of readers, pollers, signals, producers and exit. Whenever it
        stops, no wake-up is lost: a flag that is up beside a sleeping task still has its wake-up coming.
        And until exit every event is accounted for, as is every task inside the wait. */
    method Drive(schedule: seq<Action>)
      requires Valid()
      modifies this
      ensures Valid() && Snapshot() == Follow(old(Snapshot()), schedule, |schedule|)
      ensures dataReady && (exists i :: 0 <= i < |tasks| && Blocked(tasks[i].pc)) ==>
                exit == ExitFlagSet || exists p :: 0 <= p < |producers| && producers[p] == FlagSet
      ensures exit.Loaded? ==>
                && eventId == taken + merged + (if dataReady then 1 else 0) + Sum(producers, BetweenIncAndSet)
                && waiterCount == Sum(tasks, CountedWaiting)
      ensures forall i :: 0 <= i < |tasks| ==> AnswersRight(tasks[i])
    {
      RunAll(schedule);
    }

    method RaiseEvent(p: nat)
      requires Valid() && p < |producers| && producers[p] == Resting
      modifies this
      ensures Valid() && eventId == old(eventId) + 1 && dataReady && tasks == old(tasks)
      ensures producers == old(producers)[p := FlagSet] && exit == old(exit) && taken == old(taken)
    {
      RunAny(ProducerStep(p));
      RunAny(ProducerStep(p));
    }

    method WakeFor(p: nat)
      requires Valid() && p < |producers| && producers[p] == FlagSet
      modifies this
      ensures Valid() && eventId == old(eventId) && dataReady == old(dataReady) && tasks == WakeAll(old(tasks))
      ensures producers == old(producers)[p := Resting] && exit == old(exit) && taken == old(taken)
    {
      RunAny(ProducerStep(p));
    }

    /** A whole event by a producer that nobody disturbs: the flag is up, and nobody is left asleep. */
    method Trigger(p: nat)
      requires Valid() && p < |producers| && producers[p] == Resting
      modifies this
      ensures Valid() && eventId == old(eventId) + 1 && dataReady && taken == old(taken)
      ensures producers == old(producers) && exit == old(exit) && |tasks| == |old(tasks)|
      ensures forall i :: 0 <= i < |tasks| ==> !Blocked(tasks[i].pc) && tasks[i].outcome == old(tasks[i].outcome)
    {
      RaiseEvent(p);
      WakeFor(p);
    }

    method StepAlone(i: nat, a: Action)
      requires Valid() && i < |tasks| && Enabled(Snapshot(), a) && (a == Step(i) || (a.BeginRead? && a.i == i))
      modifies this
      ensures Valid() && Snapshot() == Apply(old(Snapshot()), a)
      ensures eventId == old(eventId) && OnlyOne(old(tasks), tasks, i)
    {
      RunAny(a);
    }

    /** A read that enters bq_read() and does its exchange. */
    method ReadExchange(i: nat, nonblock: bool)
      requires Valid() && i < |tasks| && tasks[i].pc.Idle?
      modifies this
      ensures Valid() && eventId == old(eventId) && OnlyOne(old(tasks), tasks, i)
      ensures !dataReady && taken == old(taken) + (if old(dataReady) then 1 else 0) && waiterCount == old(waiterCount)
      ensures tasks[i].pc == if old(dataReady) then ReadId(taken) else AtFlags
      ensures tasks[i].nonblock == nonblock && !tasks[i].signal
    {
      assert AnswersRight(tasks[i]);
      StepAlone(i, BeginRead(i, nonblock));
      StepAlone(i, Step(i));
    }

    method IntoTest(i: nat)
      requires Valid() && i < |tasks| && tasks[i].pc == FirstTest && !tasks[i].signal && !dataReady
      modifies this
      ensures Valid() && eventId == old(eventId) && OnlyOne(old(tasks), tasks, i)
      ensures !dataReady && taken == old(taken) && waiterCount == old(waiterCount)
      ensures tasks[i].pc == Test(false, false)
    {
      StepAlone(i, Step(i));
      StepAlone(i, Step(i));
    }

    /** Inside the wait until it sleeps. */
    method SleepDown(i: nat)
      requires Valid() && i < |tasks| && tasks[i].pc == FirstTest && !tasks[i].signal && !dataReady
      modifies this
      ensures Valid() && eventId == old(eventId) && OnlyOne(old(tasks), tasks, i)
      ensures !dataReady && taken == old(taken) && waiterCount == old(waiterCount)
      ensures tasks[i].pc == Asleep(false)
    {
      IntoTest(i);
      StepAlone(i, Step(i));
    }

    method AfterExchange(i: nat)
      requires Valid() && i < |tasks| && (tasks[i].pc.ReadId? || tasks[i].pc == AtFlags) && !tasks[i].signal
      modifies this
      ensures Valid() && eventId == old(eventId) && OnlyOne(old(tasks), tasks, i)
      ensures dataReady == old(dataReady) && taken == old(taken)
      ensures old(tasks[i].pc.ReadId?) ==> tasks[i].pc.Idle? && tasks[i].outcome == Event(eventId)
      ensures old(tasks[i].pc == AtFlags && tasks[i].nonblock) ==> tasks[i].pc.Idle? && tasks[i].outcome == Again
      ensures old(tasks[i].pc == AtFlags && !tasks[i].nonblock) ==> tasks[i].pc == FirstTest && !tasks[i].signal
      ensures waiterCount == old(waiterCount) + if tasks[i].pc == FirstTest then 1 else 0
    {
      StepAlone(i, Step(i));
    }

    /** bq_read() by a task that nobody disturbs. With the flag up it takes the flag down and answers the current
        event; otherwise a non-blocking read answers -EAGAIN and changes nothing, and a blocking one is counted
        as a waiter and sleeps. */
    method BqRead(i: nat, nonblock: bool)
      requires Valid() && i < |tasks| && tasks[i].pc.Idle?
      modifies this
      ensures Valid() && eventId == old(eventId) && OnlyOne(old(tasks), tasks, i) && !dataReady
      ensures taken == old(taken) + if old(dataReady) then 1 else 0
      ensures old(dataReady) ==> tasks[i].pc.Idle? && tasks[i].outcome == Event(eventId)
      ensures !old(dataReady) && nonblock ==> tasks[i].pc.Idle? && tasks[i].outcome == Again
      ensures !old(dataReady) && !nonblock ==> tasks[i].pc == Asleep(false)
      ensures waiterCount == old(waiterCount) + if !old(dataReady) && !nonblock then 1 else 0
    {
      ReadExchange(i, nonblock);
      AfterExchange(i);
      if !tasks[i].pc.Idle? {
        SleepDown(i);
      }
    }
  }
}
