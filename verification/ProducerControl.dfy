// 15_kthreads/kthreads.c as one object: producer_task and its lock, changed in place by callers and producer
// threads one step at a time, and the ring that all these threads produce into.

module ProducerControl {
  import opened Tally
  import opened RingHistory
  import opened ProducerThreads
  import KthreadDemo

  class Control {
    var producerTask: Option<nat>
    var taskLock: Option<nat>
    var threads: seq<Thread>
    var callers: seq<Pc>
    const demo: KthreadDemo.Demo

    ghost function Snapshot(): State
      reads this, demo, demo.ring
      requires demo.Valid()
    {
      State(taskLock, producerTask, threads, callers, demo.Snapshot())
    }

    /** All that decides which steps are possible. */
    function Visible(): State
      reads this
    {
      State(taskLock, producerTask, threads, callers, EMPTY)
    }

    /** What every step of every caller, thread and reader keeps. */
    ghost predicate Valid()
      reads this, demo, demo.ring
    {
      demo.Valid() && Orderly(Snapshot()) && Good(demo.Snapshot())
    }

    constructor (callerCount: nat)
      ensures Valid() && Snapshot() == Start(callerCount) && fresh(demo) && fresh(demo.ring)
    {
      producerTask, taskLock, threads := None, None, [];
      callers := seq(callerCount, i => Out(Nothing));
      demo := new KthreadDemo.Demo();
      new;
      StartOwned(callerCount);
    }

    method MoveTo(c: nat, pc: Pc)
      requires demo.Valid() && c < |callers|
      modifies this`callers
      ensures Snapshot() == Goto(old(Snapshot()), c, pc)
    {
      callers := callers[c := pc];
    }

    method Unlock(c: nat, pc: Pc)
      requires demo.Valid() && c < |callers|
      modifies this`callers, this`taskLock
      ensures Snapshot() == Goto(old(Snapshot()).(lock := None), c, pc)
    {
      taskLock := None;
      callers := callers[c := pc];
    }

    /** One step of start_producer(), stop_producer() or status_show() by caller c; `created` says
        whether kthread_run() succeeds. */
    method RunCaller(c: nat, created: bool)
      requires demo.Valid() && CanStep(Snapshot(), c)
      modifies this
      ensures Snapshot() == Apply(old(Snapshot()), CallerStep(c, created))
    {
      match callers[c] {
        case StartWait => taskLock := Some(c); MoveTo(c, StartHeld);
        case StartHeld =>
          if producerTask.Some? {
            MoveTo(c, StartLeave(AlreadyRunning));
          } else if created {
            producerTask := Some(|threads|);
            threads := threads + [NEW_THREAD];
            MoveTo(c, StartLeave(Started));
          } else {
            producerTask := None;
            MoveTo(c, StartLeave(Failed));
          }
        case StartLeave(reply) => Unlock(c, Out(reply));
        case StopWait => taskLock := Some(c); MoveTo(c, StopHeld);
        case StopHeld =>
          var task := producerTask;
          producerTask := None;
          MoveTo(c, StopLeave(task));
        case StopLeave(task) => Unlock(c, if task.None? then Out(NotRunning) else StopCalling(task.value));
        case StopCalling(t) =>
          threads := threads[t := threads[t].(stops := threads[t].stops + 1)];
          MoveTo(c, StopWaiting(t));
        case StopWaiting(t) =>
          threads := threads[t := threads[t].(freed := true)];
          MoveTo(c, Out(Stopped));
        case StatusWait => taskLock := Some(c); MoveTo(c, StatusHeld);
        case StatusHeld => MoveTo(c, StatusLeave(producerTask.Some?));
        case StatusLeave(running) => Unlock(c, Out(Status(running)));
      }
    }

    /** One step of the loop of producer_thread_fn() in thread t. */
    method RunThread(t: nat, ns: nat)
      requires demo.Valid() && t < |threads| && threads[t].place != Returned
      modifies this`threads, demo, demo.ring
      ensures demo.Valid() && Snapshot() == Apply(old(Snapshot()), ThreadStep(t, ns))
    {
      match threads[t].place {
        case AtCheck =>
          var stop := threads[t].stops > 0;
          threads := threads[t := threads[t].(place := if stop then Returned else Producing)];
        case Producing =>
          demo.ProduceOne(ns);
          threads := threads[t := threads[t].(place := Sleeping)];
        case Sleeping =>
          threads := threads[t := threads[t].(place := AtCheck)];
      }
    }

    method Enter(c: nat, call: Pc)
      requires demo.Valid() && c < |callers|
      modifies this`callers
      ensures Snapshot() == Goto(old(Snapshot()), c, call)
    {
      callers := callers[c := call];
    }

    method Empty()
      requires demo.Valid()
      modifies demo
      ensures demo.Valid() && Snapshot() == Apply(old(Snapshot()), DrainRing)
    {
      var items := demo.DrainRing();
    }

    /** Whoever's step comes next, if it is possible at all. */
    method RunAny(a: ProducerThreads.Action)
      requires Valid()
      modifies this, demo, demo.ring
      ensures Valid() && Snapshot() == Turn(old(Snapshot()), a)
    {
      if Enabled(Visible(), a) {
        OrderlyTurn(Snapshot(), a);
        RingStaysGood(Snapshot(), a);
        match a {
          case Begin(c, call) => Enter(c, call);
          case CallerStep(c, created) => RunCaller(c, created);
          case ThreadStep(t, ns) => RunThread(t, ns);
          case DrainRing => Empty();
        }
      }
    }

    method RunAll(schedule: seq<ProducerThreads.Action>)
      requires Valid()
      modifies this, demo, demo.ring
      ensures Valid() && Snapshot() == Follow(old(Snapshot()), schedule, |schedule|)
    {
      var n := 0;
      while n < |schedule|
        invariant 0 <= n <= |schedule| && Valid()
        invariant Snapshot() == Follow(old(Snapshot()), schedule, n)
      {
        ghost var before := Snapshot();
        RunAny(schedule[n]);
        FollowNext(old(Snapshot()), schedule, n, before, Snapshot());
        n := n + 1;
      }
    }

    /** Drives the module through any schedule of concurrent starts, stops and status reads, of producer threads
        old and new, and of drains. Each live thread is producer_task or held by one stop in flight, never both,
        and is stopped at most once; as many threads have come into being as starts have said so or are about
        to, and as many are gone as stops have said so; and the ring they share accounts for every item:
        drained, in the array, or counted as dropped. */
    method Drive(schedule: seq<ProducerThreads.Action>)
      requires Valid()
      modifies this, demo, demo.ring
      ensures Valid() && Snapshot() == Follow(old(Snapshot()), schedule, |schedule|)
      ensures forall t: nat :: t < |threads| ==> threads[t].stops <= 1 && AtMostOneHolder(Snapshot(), t)
      ensures forall t: nat :: t < |threads| && threads[t].place != Returned ==>
                (producerTask == Some(t) <==> !exists c :: 0 <= c < |callers| && Holds(callers[c], t))
      ensures |threads| + Sum(old(callers), AboutToSayStarted)
              == |old(threads)| + Sum(callers, AboutToSayStarted)
                 + ReplyCount(old(Snapshot()), schedule, |schedule|, Started)
      ensures Sum(threads, Freed)
              == Sum(old(threads), Freed) + ReplyCount(old(Snapshot()), schedule, |schedule|, Stopped)
      ensures demo.nextSeq == Sum(demo.batches, Size) + demo.ringCount + demo.droppedCount
    {
      RunAll(schedule);
      RepliesCountThreads(old(Snapshot()), schedule, |schedule|);
      forall t: nat | t < |threads|
        ensures threads[t].stops <= 1 && AtMostOneHolder(Snapshot(), t)
        ensures threads[t].place != Returned ==>
                  (producerTask == Some(t) <==> !exists c :: 0 <= c < |callers| && Holds(callers[c], t))
      {
        OwnedMeans(Snapshot(), t);
      }
    }

    method NextStep(c: nat, created: bool)
      requires Valid() && CanStep(Visible(), c)
      modifies this, demo, demo.ring
      ensures Valid() && Snapshot() == StepCaller(old(Snapshot()), c, created)
      ensures callers == old(callers)[c := callers[c]]
    {
      RunAny(ProducerThreads.CallerStep(c, created));
    }

    method Call(c: nat, call: Pc)
      requires Valid() && c < |callers| && callers[c].Out? && Waits(call) && taskLock.None?
      modifies this, demo, demo.ring
      ensures Valid() && c < |callers| && callers == old(callers)[c := callers[c]]
      ensures producerTask == old(producerTask) && threads == old(threads) && demo.Snapshot() == old(demo.Snapshot())
      ensures taskLock == Some(c)
      ensures callers[c] == if call.StartWait? then StartHeld else if call.StopWait? then StopHeld else StatusHeld
    {
      RunAny(Begin(c, call));
      NextStep(c, false);
    }

    /** start_producer() by a caller that finds the lock free: only where no producer is set, and if a thread can
        be created, there is a new one, and producer_task names it. */
    method StartProducer(c: nat, created: bool) returns (reply: Reply)
      requires Valid() && c < |callers| && callers[c].Out? && taskLock.None?
      modifies this, demo, demo.ring
      ensures Valid() && taskLock.None? && callers == old(callers)[c := Out(reply)]
      ensures demo.Snapshot() == old(demo.Snapshot())
      ensures old(producerTask).Some? ==>
                reply == AlreadyRunning && producerTask == old(producerTask) && threads == old(threads)
      ensures old(producerTask).None? && created ==>
                reply == Started && producerTask == Some(|old(threads)|) && threads == old(threads) + [NEW_THREAD]
      ensures old(producerTask).None? && !created ==>
                reply == Failed && producerTask.None? && threads == old(threads)
    {
      Call(c, StartWait);
      NextStep(c, created);
      NextStep(c, created);
      reply := callers[c].reply;
    }

    /** status_show() by a caller that finds the lock free. */
    method StatusShow(c: nat) returns (running: bool)
      requires Valid() && c < |callers| && callers[c].Out? && taskLock.None?
      modifies this, demo, demo.ring
      ensures Valid() && taskLock.None? && callers == old(callers)[c := Out(Status(running))]
      ensures demo.Snapshot() == old(demo.Snapshot())
      ensures producerTask == old(producerTask) && threads == old(threads) && running == producerTask.Some?
    {
      Call(c, StatusWait);
      NextStep(c, false);
      NextStep(c, false);
      running := callers[c].reply.running;
    }

    /** The first half of stop_producer(): the thread is taken out of producer_task. */
    method TakeProducer(c: nat)
      requires Valid() && c < |callers| && callers[c].Out? && taskLock.None?
      modifies this, demo, demo.ring
      ensures Valid() && c < |callers| && callers == old(callers)[c := callers[c]]
      ensures taskLock.None? && producerTask.None?
      ensures demo.Snapshot() == old(demo.Snapshot()) && threads == old(threads)
      ensures callers[c] == if old(producerTask).None? then Out(NotRunning) else StopCalling(old(producerTask).value)
    {
      Call(c, StopWait);
      NextStep(c, false);
      NextStep(c, false);
    }

    method NextTurn(t: nat, ns: nat)
      requires Valid() && t < |threads| && threads[t].place != Returned && threads[t].stops > 0
      modifies this, demo, demo.ring
      ensures Valid() && t < |threads| && threads == old(threads)[t := threads[t]] && callers == old(callers)
      ensures producerTask == old(producerTask) && taskLock == old(taskLock)
      ensures threads[t].stops == old(threads[t].stops) && threads[t].freed == old(threads[t].freed)
      ensures StepsLeft(threads[t].place) == StepsLeft(old(threads[t].place)) - 1
      ensures demo.nextSeq == old(demo.nextSeq) + if old(threads[t].place) == Producing then 1 else 0
    {
      RunAny(ProducerThreads.ThreadStep(t, ns));
    }

    /** The thread that has been told to stop runs until it returns; it may still produce the item it was about
        to. */
    method RunToReturn(t: nat, ns: nat)
      requires Valid() && t < |threads| && threads[t].stops > 0
      modifies this, demo, demo.ring
      ensures Valid() && threads == old(threads)[t := old(threads[t]).(place := Returned)]
      ensures callers == old(callers) && producerTask == old(producerTask) && taskLock == old(taskLock)
      ensures demo.nextSeq == old(demo.nextSeq) + if old(threads[t].place) == Producing then 1 else 0
    {
      while threads[t].place != Returned
        invariant Valid() && t < |threads| && threads == old(threads)[t := old(threads[t]).(place := threads[t].place)]
        invariant callers == old(callers) && producerTask == old(producerTask) && taskLock == old(taskLock)
        invariant threads[t].place == old(threads[t].place) || threads[t].place != Producing
        invariant demo.nextSeq == old(demo.nextSeq)
                  + if old(threads[t].place) == Producing && threads[t].place != Producing then 1 else 0
        decreases StepsLeft(threads[t].place)
      {
        NextTurn(t, ns);
      }
    }

    /** The second half: kthread_stop(), until it returns. */
    method FinishStop(c: nat, t: nat, ns: nat)
      requires Valid() && c < |callers| && callers[c] == StopCalling(t)
      modifies this, demo, demo.ring
      ensures Valid() && callers == old(callers)[c := Out(Stopped)]
      ensures producerTask == old(producerTask) && taskLock == old(taskLock)
      ensures t < |old(threads)| && threads == old(threads)[t := Thread(Returned, 1, true)]
      ensures demo.nextSeq <= old(demo.nextSeq) + 1
    {
      assert HeldRight(Snapshot(), c, t) && Holds(callers[c], t);
      NextStep(c, false);
      RunToReturn(t, ns);
      NextStep(c, false);
    }

    /** stop_producer() by a caller that finds the lock free: where a producer is set, its thread is told to stop,
        returns, and is gone, and producer_task is free for another. */
    method StopProducer(c: nat, ns: nat) returns (reply: Reply)
      requires Valid() && c < |callers| && callers[c].Out? && taskLock.None?
      modifies this, demo, demo.ring
      ensures Valid() && taskLock.None? && producerTask.None? && callers == old(callers)[c := Out(reply)]
      ensures old(producerTask).None? ==>
                reply == NotRunning && threads == old(threads) && demo.nextSeq == old(demo.nextSeq)
      ensures old(producerTask).Some? ==>
                && reply == Stopped && old(producerTask).value < |old(threads)|
                && threads == old(threads)[old(producerTask).value := Thread(Returned, 1, true)]
                && demo.nextSeq <= old(demo.nextSeq) + 1
    {
      TakeProducer(c);
      if callers[c].StopCalling? {
        FinishStop(c, callers[c].t, ns);
      }
      reply := callers[c].reply;
    }
  }
}
