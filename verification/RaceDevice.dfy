// 11_concurrency_locking/concurrency_locking.c as an object: the module's globals, changed in place
// one shared access at a time, and the write() loop of a thread that runs undisturbed.

module RaceDevice {
  import opened Tally
  import opened RaceCounter

  class Device {
    var counterPlain: nat
    var counterAtomic: nat
    var mode: Mode
    var spinHolder: Option<nat>
    var mutexHolder: Option<nat>
    var resetCount: nat
    var threads: seq<Thread>
    ghost var plainSince: nat
    ghost var atomicSince: nat
    ghost var lastWriter: Option<nat>

    ghost function Snapshot(): State
      reads this
    {
      State(counterPlain, counterAtomic, mode, spinHolder, mutexHolder, resetCount, threads,
            plainSince, atomicSince, lastWriter)
    }

    constructor (n: nat)
      ensures Snapshot() == Start(n, NoLock, 0)
    {
      counterPlain, counterAtomic, mode := 0, 0, NoLock;
      spinHolder, mutexHolder, resetCount := None, None, 0;
      threads := seq(n, i => FRESH_THREAD);
      plainSince, atomicSince, lastWriter := 0, 0, None;
    }

    method StorePlain(t: nat, value: nat)
      modifies this`counterPlain, this`plainSince, this`lastWriter
      ensures Snapshot() == RaceCounter.StorePlain(old(Snapshot()), t, value)
    {
      counterPlain := value;
      plainSince, lastWriter := plainSince + 1, Some(t);
    }

    method MoveTo(t: nat, pc: Pc)
      requires t < |threads|
      modifies this`threads
      ensures Snapshot() == Goto(old(Snapshot()), t, pc)
    {
      threads := threads[t := threads[t].(pc := pc)];
    }

    method Return(t: nat)
      requires t < |threads|
      modifies this`threads
      ensures Snapshot() == Finish(old(Snapshot()), t)
    {
      threads := threads[t := threads[t].(pc := Idle, done := threads[t].done + 1)];
    }

    /** One step of increment_once() or reset_counters() by thread t. */
    method ThreadStep(t: nat)
      requires CanStep(Snapshot(), t)
      modifies this
      ensures Snapshot() == Apply(old(Snapshot()), Step(t))
    {
      var th := threads[t];
      match th.pc {
        case Idle => threads := threads[t := Thread(Chosen(mode), th.left - 1, th.done)];
        case Chosen(m) =>
          match m {
            case NoLock => MoveTo(t, RacyRead(counterPlain));
            case Spin => spinHolder := Some(t); MoveTo(t, SpinHeld);
            case Mutex => mutexHolder := Some(t); MoveTo(t, MutexHeld);
            case Atomic => counterAtomic, atomicSince := counterAtomic + 1, atomicSince + 1; Return(t);
          }
        case RacyRead(tmp) => StorePlain(t, tmp + 1); Return(t);
        case SpinHeld => MoveTo(t, SpinRead(counterPlain));
        case SpinRead(tmp) => StorePlain(t, tmp + 1); MoveTo(t, SpinWritten);
        case SpinWritten => spinHolder := None; Return(t);
        case MutexHeld => MoveTo(t, MutexRead(counterPlain));
        case MutexRead(tmp) => StorePlain(t, tmp + 1); MoveTo(t, MutexWritten);
        case MutexWritten => mutexHolder := None; Return(t);
        case ResetEntry => spinHolder := Some(t); MoveTo(t, ResetHeld);
        case ResetHeld => counterPlain, plainSince := 0, 0; MoveTo(t, ResetCleared);
        case ResetCleared => spinHolder := None; MoveTo(t, ResetUnlocked);
        case ResetUnlocked => counterAtomic, atomicSince := 0, 0; MoveTo(t, ResetCounting);
        case ResetCounting => resetCount := resetCount + 1; MoveTo(t, Idle);
      }
    }

    /** A write to the mode attribute: out-of-range values change nothing and fail. */
    method ModeStore(value: int) returns (accepted: bool)
      modifies this`mode
      ensures Snapshot() == Apply(old(Snapshot()), StoreMode(value))
      ensures accepted <==> 0 <= value <= 3
      ensures mode == if accepted then [NoLock, Spin, Mutex, Atomic][value] else old(mode)
    {
      accepted := ModeOf(value).Some?;
      if accepted {
        mode := ModeOf(value).value;
      }
    }

    method UnderSpinlock(t: nat)
      requires t < |threads| && threads[t].pc == Chosen(Spin) && spinHolder.None?
      modifies this
      ensures spinHolder.None? && mutexHolder == old(mutexHolder) && mode == old(mode) && resetCount == old(resetCount)
      ensures threads == old(threads)[t := Thread(Idle, old(threads[t].left), old(threads[t].done) + 1)]
      ensures counterPlain == old(counterPlain) + 1 && counterAtomic == old(counterAtomic)
    {
      ThreadStep(t);
      ThreadStep(t);
      ThreadStep(t);
      ThreadStep(t);
    }

    method UnderMutex(t: nat)
      requires t < |threads| && threads[t].pc == Chosen(Mutex) && mutexHolder.None?
      modifies this
      ensures mutexHolder.None? && spinHolder == old(spinHolder) && mode == old(mode) && resetCount == old(resetCount)
      ensures threads == old(threads)[t := Thread(Idle, old(threads[t].left), old(threads[t].done) + 1)]
      ensures counterPlain == old(counterPlain) + 1 && counterAtomic == old(counterAtomic)
    {
      ThreadStep(t);
      ThreadStep(t);
      ThreadStep(t);
      ThreadStep(t);
    }

    /** increment_once() by a thread that finds both locks free and is not disturbed. */
    method IncrementOnce(t: nat)
      requires t < |threads| && threads[t].pc.Idle? && threads[t].left > 0
      requires spinHolder.None? && mutexHolder.None?
      modifies this
      ensures spinHolder.None? && mutexHolder.None? && mode == old(mode) && resetCount == old(resetCount)
      ensures threads == old(threads)[t := Thread(Idle, old(threads[t].left) - 1, old(threads[t].done) + 1)]
      ensures counterPlain == old(counterPlain) + if mode == Atomic then 0 else 1
      ensures counterAtomic == old(counterAtomic) + if mode == Atomic then 1 else 0
    {
      ThreadStep(t);
      match mode {
        case NoLock => ThreadStep(t); ThreadStep(t);
        case Spin => UnderSpinlock(t);
        case Mutex => UnderMutex(t);
        case Atomic => ThreadStep(t);
      }
    }

    /** A thread enters write(count). */
    method BeginWrite(t: nat, count: nat)
      requires t < |threads| && threads[t].pc.Idle? && threads[t].left == 0
      modifies this`threads
      ensures Snapshot() == Apply(old(Snapshot()), Write(t, count))
    {
      threads := threads[t := threads[t].(left := Min(count, MAX_INCREMENTS_PER_WRITE))];
    }

    /** reset_counters() by a thread that finds the spinlock free and is not disturbed: both counters are zero
        and the reset is counted, whoever holds the mutex. */
    method ResetCounters(t: nat)
      requires t < |threads| && threads[t].pc.Idle? && threads[t].left == 0 && spinHolder.None?
      modifies this
      ensures counterPlain == 0 && counterAtomic == 0 && resetCount == old(resetCount) + 1
      ensures spinHolder.None? && mutexHolder == old(mutexHolder) && mode == old(mode) && threads == old(threads)
    {
      MoveTo(t, ResetEntry);
      ClearPlain(t);
      ThreadStep(t);
      ThreadStep(t);
      assert threads == old(threads);
    }

    method ClearPlain(t: nat)
      requires t < |threads| && threads[t].pc == ResetEntry && spinHolder.None?
      modifies this
      ensures counterPlain == 0 && counterAtomic == old(counterAtomic) && resetCount == old(resetCount)
      ensures spinHolder.None? && mutexHolder == old(mutexHolder) && mode == old(mode)
      ensures threads == old(threads)[t := old(threads[t]).(pc := ResetUnlocked)]
    {
      ThreadStep(t);
      ThreadStep(t);
      ThreadStep(t);
    }

    /** write(count) by one undisturbed thread: at most a million increments, every one of them
        counted in the counter of the mode, and the number of them returned. */
    method RaceWrite(t: nat, count: nat) returns (n: nat)
      requires t < |threads| && threads[t].pc.Idle? && threads[t].left == 0
      requires spinHolder.None? && mutexHolder.None?
      modifies this
      ensures n == if count < 1000000 then count else 1000000
      ensures spinHolder.None? && mutexHolder.None? && mode == old(mode) && resetCount == old(resetCount)
      ensures threads == old(threads)[t := Thread(Idle, 0, old(threads[t].done) + n)]
      ensures counterPlain == old(counterPlain) + if mode == Atomic then 0 else n
      ensures counterAtomic == old(counterAtomic) + if mode == Atomic then n else 0
      ensures CurrentValue(Snapshot()) == CurrentValue(old(Snapshot())) + n
    {
      BeginWrite(t, count);
      n := threads[t].left;
      var i := 0;
      while i < n
        invariant 0 <= i <= n
        invariant spinHolder.None? && mutexHolder.None? && mode == old(mode) && resetCount == old(resetCount)
        invariant threads == old(threads)[t := Thread(Idle, n - i, old(threads[t].done) + i)]
        invariant counterPlain == old(counterPlain) + if mode == Atomic then 0 else i
        invariant counterAtomic == old(counterAtomic) + if mode == Atomic then i else 0
      {
        IncrementOnce(t);
        i := i + 1;
      }
    }
  }
}
