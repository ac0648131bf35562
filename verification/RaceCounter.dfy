// The four-mode counter of 11_concurrency_locking/concurrency_locking.c as a state machine:
// any number of threads, each at some point of write(), reset or idle, interleaved one shared
// memory access at a time.

module RaceCounter {
  import opened Tally

  const MAX_INCREMENTS_PER_WRITE: nat := 1000000

  datatype Mode = NoLock | Spin | Mutex | Atomic

  /** Where a thread is. `counter_plain++` under a lock is a read and a separate write. */
  datatype Pc =
    | Idle
    | Chosen(mode: Mode)
    | RacyRead(tmp: nat)
    | SpinHeld | SpinRead(tmp: nat) | SpinWritten
    | MutexHeld | MutexRead(tmp: nat) | MutexWritten
    | ResetEntry | ResetHeld | ResetCleared | ResetUnlocked | ResetCounting

  /** left: increments of the current write() not yet begun; done: increments returned from. */
  datatype Thread = Thread(pc: Pc, left: nat, done: nat)

  /** plainSince, atomicSince and lastWriter are history: the increments that have landed in each
      counter since that counter was last cleared, and the last thread to store counter_plain. */
  datatype State = State(
    plain: nat, atomic: nat, mode: Mode,
    spin: Option<nat>, mutex: Option<nat>, resets: nat,
    threads: seq<Thread>,
    plainSince: nat, atomicSince: nat, lastWriter: Option<nat>)

  datatype Action =
    | Write(t: nat, count: nat)
    | Step(t: nat)
    | Reset(t: nat)
    | StoreMode(value: int)

  predicate InSpin(pc: Pc) {
    pc.SpinHeld? || pc.SpinRead? || pc.SpinWritten? || pc.ResetHeld? || pc.ResetCleared?
  }

  predicate InMutex(pc: Pc) {
    pc.MutexHeld? || pc.MutexRead? || pc.MutexWritten?
  }

  predicate InReset(pc: Pc) {
    pc.ResetEntry? || pc.ResetHeld? || pc.ResetCleared? || pc.ResetUnlocked? || pc.ResetCounting?
  }

  predicate InIncrement(pc: Pc) {
    !pc.Idle? && !InReset(pc)
  }

  function ModeOf(value: int): Option<Mode> {
    if value == 0 then Some(NoLock) else if value == 1 then Some(Spin)
    else if value == 2 then Some(Mutex) else if value == 3 then Some(Atomic) else None
  }

  /** A lock is taken only when free; everything else can always proceed. */
  predicate CanStep(s: State, t: nat) {
    t < |s.threads| &&
    var th := s.threads[t];
    match th.pc
    case Idle => th.left > 0
    case Chosen(Spin) => s.spin.None?
    case Chosen(Mutex) => s.mutex.None?
    case ResetEntry => s.spin.None?
    case _ => true
  }

  predicate Enabled(s: State, a: Action) {
    match a
    case Write(t, _) => t < |s.threads| && s.threads[t].pc.Idle? && s.threads[t].left == 0
    case Reset(t) => t < |s.threads| && s.threads[t].pc.Idle? && s.threads[t].left == 0
    case Step(t) => CanStep(s, t)
    case StoreMode(_) => true
  }

  function Goto(s: State, t: nat, pc: Pc): State
    requires t < |s.threads|
  {
    s.(threads := s.threads[t := s.threads[t].(pc := pc)])
  }

  function Finish(s: State, t: nat): State
    requires t < |s.threads|
  {
    s.(threads := s.threads[t := s.threads[t].(pc := Idle, done := s.threads[t].done + 1)])
  }

  function StorePlain(s: State, t: nat, value: nat): State {
    s.(plain := value, plainSince := s.plainSince + 1, lastWriter := Some(t))
  }

  /** The next atomic step of thread t. */
  function StepThread(s: State, t: nat): State
    requires CanStep(s, t)
  {
    var th := s.threads[t];
    match th.pc
    case Idle => s.(threads := s.threads[t := Thread(Chosen(s.mode), th.left - 1, th.done)])
    case Chosen(NoLock) => Goto(s, t, RacyRead(s.plain))
    case RacyRead(tmp) => Finish(StorePlain(s, t, tmp + 1), t)
    case Chosen(Spin) => Goto(s.(spin := Some(t)), t, SpinHeld)
    case SpinHeld => Goto(s, t, SpinRead(s.plain))
    case SpinRead(tmp) => Goto(StorePlain(s, t, tmp + 1), t, SpinWritten)
    case SpinWritten => Finish(s.(spin := None), t)
    case Chosen(Mutex) => Goto(s.(mutex := Some(t)), t, MutexHeld)
    case MutexHeld => Goto(s, t, MutexRead(s.plain))
    case MutexRead(tmp) => Goto(StorePlain(s, t, tmp + 1), t, MutexWritten)
    case MutexWritten => Finish(s.(mutex := None), t)
    case Chosen(Atomic) => Finish(s.(atomic := s.atomic + 1, atomicSince := s.atomicSince + 1), t)
    case ResetEntry => Goto(s.(spin := Some(t)), t, ResetHeld)
    case ResetHeld => Goto(s.(plain := 0, plainSince := 0), t, ResetCleared)
    case ResetCleared => Goto(s.(spin := None), t, ResetUnlocked)
    case ResetUnlocked => Goto(s.(atomic := 0, atomicSince := 0), t, ResetCounting)
    case ResetCounting => Goto(s.(resets := s.resets + 1), t, Idle)
  }

  function Apply(s: State, a: Action): State
    requires Enabled(s, a)
  {
    match a
    case Write(t, count) =>
      s.(threads := s.threads[t := s.threads[t].(left := Min(count, MAX_INCREMENTS_PER_WRITE))])
    case Reset(t) => Goto(s, t, ResetEntry)
    case Step(t) => StepThread(s, t)
    case StoreMode(value) =>
      if ModeOf(value).Some? then s.(mode := ModeOf(value).value) else s
  }

  /** acts can happen from s in this order and end in e. */
  ghost predicate Runs(s: State, acts: seq<Action>, e: State)
    decreases |acts|
  {
    if acts == [] then s == e
    else Enabled(s, acts[0]) && Runs(Apply(s, acts[0]), acts[1..], e)
  }

  /** p holds in every state the run passes through, both ends included. */
  ghost predicate Along(s: State, acts: seq<Action>, p: State -> bool)
    decreases |acts|
  {
    p(s) && (acts != [] ==> Enabled(s, acts[0]) && Along(Apply(s, acts[0]), acts[1..], p))
  }

  ghost predicate NoReset(acts: seq<Action>) {
    forall i :: 0 <= i < |acts| ==> !acts[i].Reset?
  }

  ghost predicate NoModeChange(acts: seq<Action>) {
    forall i :: 0 <= i < |acts| ==> !acts[i].StoreMode?
  }

  ghost predicate NoRacyMode(acts: seq<Action>) {
    forall i :: 0 <= i < |acts| ==> acts[i].StoreMode? ==> ModeOf(acts[i].value) != Some(NoLock)
  }

  const FRESH_THREAD: Thread := Thread(Idle, 0, 0)

  /** n idle threads and both counters at zero: after module load, or after a finished reset. */
  function Start(n: nat, mode: Mode, resets: nat): State {
    State(0, 0, mode, None, None, resets, seq(n, i => FRESH_THREAD), 0, 0, None)
  }

  ghost predicate Quiescent(s: State) {
    forall t :: 0 <= t < |s.threads| ==> s.threads[t].pc.Idle? && s.threads[t].left == 0
  }

  /** The counter that reads and the sysfs file report. */
  function CurrentValue(s: State): nat {
    if s.mode == Atomic then s.atomic else s.plain
  }

  function Done(th: Thread): nat {
    th.done
  }

  /** Increments of this thread whose store has happened, returned from or not. */
  function Landed(th: Thread): nat {
    th.done + if th.pc.SpinWritten? || th.pc.MutexWritten? then 1 else 0
  }

  function Asked(th: Thread): nat {
    th.done + th.left + if InIncrement(th.pc) then 1 else 0
  }

  // ---------------------------------------------------------------------------------------
  // Mutual exclusion
  // ---------------------------------------------------------------------------------------

  /** Each lock's holder is exactly the thread inside that lock's critical section. */
  ghost predicate Locks(s: State) {
    && (forall t :: 0 <= t < |s.threads| ==> HoldsWhatItIsIn(s, t))
    && (s.spin.Some? ==> s.spin.value < |s.threads|)
    && (s.mutex.Some? ==> s.mutex.value < |s.threads|)
  }

  ghost predicate HoldsWhatItIsIn(s: State, t: nat)
    requires t < |s.threads|
  {
    && (InSpin(s.threads[t].pc) <==> s.spin == Some(t))
    && (InMutex(s.threads[t].pc) <==> s.mutex == Some(t))
  }

  lemma ThreadKeepsLocks(s: State, a: Action, u: nat)
    requires Enabled(s, a) && u < |s.threads| && HoldsWhatItIsIn(s, u)
    requires a.Step? ==> HoldsWhatItIsIn(s, a.t)
    ensures u < |Apply(s, a).threads| && HoldsWhatItIsIn(Apply(s, a), u)
  {
  }

  lemma LocksKept(s: State, a: Action)
    requires Locks(s) && Enabled(s, a)
    ensures Locks(Apply(s, a))
  {
    forall u: nat | u < |s.threads| ensures HoldsWhatItIsIn(Apply(s, a), u) {
      ThreadKeepsLocks(s, a, u);
    }
  }

  lemma {:induction false} LocksAlways(s: State, acts: seq<Action>, e: State)
    requires Locks(s) && Runs(s, acts, e)
    ensures Locks(e)
    decreases |acts|
  {
    if acts != [] {
      LocksKept(s, acts[0]);
      LocksAlways(Apply(s, acts[0]), acts[1..], e);
    }
  }

  // ---------------------------------------------------------------------------------------
  // When the counters are exact
  // ---------------------------------------------------------------------------------------

  /** Each counter equals the increments that landed in it since it was last cleared. */
  predicate Exact(s: State) {
    s.plain == s.plainSince && s.atomic == s.atomicSince
  }

  /** The value a thread read from counter_plain and is about to store plus one. */
  function Pending(pc: Pc): Option<nat> {
    match pc
    case RacyRead(tmp) => Some(tmp)
    case SpinRead(tmp) => Some(tmp)
    case MutexRead(tmp) => Some(tmp)
    case _ => None
  }

  /** a stores a value computed from a counter_plain that has changed in the meantime. */
  predicate StaleStore(s: State, a: Action)
    requires Enabled(s, a)
  {
    a.Step? && Pending(s.threads[a.t].pc).Some? && Pending(s.threads[a.t].pc).value != s.plain
  }

  ghost predicate NeverStale(s: State, acts: seq<Action>)
    decreases |acts|
  {
    acts != [] ==>
      Enabled(s, acts[0]) && !StaleStore(s, acts[0]) && NeverStale(Apply(s, acts[0]), acts[1..])
  }

  /** In any run at all, whatever the modes and resets, the counters are exact at every moment
      if and only if no store in the run is stale. */
  lemma {:induction false} ExactIffNeverStale(s: State, acts: seq<Action>, e: State)
    requires Runs(s, acts, e) && Exact(s)
    ensures Along(s, acts, Exact) <==> NeverStale(s, acts)
    decreases |acts|
  {
    if acts != [] {
      var next := Apply(s, acts[0]);
      assert Exact(next) <==> !StaleStore(s, acts[0]);
      if Exact(next) {
        ExactIffNeverStale(next, acts[1..], e);
      }
    }
  }

  /** No thread is inside the spinlock section, a reset included, while another is inside the
      mutex section. */
  predicate Compatible(s: State) {
    s.spin.None? || s.mutex.None?
  }

  /** Nobody is on the unlocked path, and every value read under a lock is still current. */
  ghost predicate Current(s: State) {
    s.mode != NoLock && forall t :: 0 <= t < |s.threads| ==> CurrentAt(s, t)
  }

  ghost predicate CurrentAt(s: State, t: nat)
    requires t < |s.threads|
  {
    var pc := s.threads[t].pc;
    pc != Chosen(NoLock) && !pc.RacyRead? && (Pending(pc).Some? ==> Pending(pc).value == s.plain)
  }

  lemma CurrentKept(s: State, a: Action)
    requires Locks(s) && Compatible(s) && Current(s) && Enabled(s, a)
    requires a.StoreMode? ==> ModeOf(a.value) != Some(NoLock)
    ensures Current(Apply(s, a)) && !StaleStore(s, a)
  {
    assert a.Step? ==> CurrentAt(s, a.t) && HoldsWhatItIsIn(s, a.t);
    forall u: nat | u < |s.threads| ensures CurrentAt(Apply(s, a), u) {
      assert CurrentAt(s, u) && HoldsWhatItIsIn(s, u);
    }
  }

  /** Runs in modes 1 to 3, switched at will and reset at will, are exact throughout as long as
      the spinlock section and the mutex section are never occupied together. */
  lemma {:induction false} CompatibleRunsAreExact(s: State, acts: seq<Action>, e: State)
    requires Runs(s, acts, e) && Locks(s) && Current(s) && Exact(s)
    requires Along(s, acts, Compatible) && NoRacyMode(acts)
    ensures Along(s, acts, Exact) && NeverStale(s, acts)
  {
    CompatibleRunsAreNeverStale(s, acts, e);
    ExactIffNeverStale(s, acts, e);
  }

  lemma {:induction false} CompatibleRunsAreNeverStale(s: State, acts: seq<Action>, e: State)
    requires Runs(s, acts, e) && Locks(s) && Current(s)
    requires Along(s, acts, Compatible) && NoRacyMode(acts)
    ensures NeverStale(s, acts)
    decreases |acts|
  {
    if acts != [] {
      CurrentKept(s, acts[0]);
      LocksKept(s, acts[0]);
      CompatibleRunsAreNeverStale(Apply(s, acts[0]), acts[1..], e);
    }
  }

  lemma {:induction false} AlongEnds(s: State, acts: seq<Action>, e: State, p: State -> bool)
    requires Runs(s, acts, e) && Along(s, acts, p)
    ensures p(e)
    decreases |acts|
  {
    if acts != [] {
      AlongEnds(Apply(s, acts[0]), acts[1..], e, p);
    }
  }

  // ---------------------------------------------------------------------------------------
  // Runs in one fixed mode
  // ---------------------------------------------------------------------------------------

  /** Every thread inside an increment chose mode m. */
  ghost predicate FixedMode(s: State, m: Mode) {
    && s.mode == m
    && forall t :: 0 <= t < |s.threads| ==>
        var pc := s.threads[t].pc;
        && (pc.Chosen? ==> pc.mode == m)
        && (pc.RacyRead? ==> m == NoLock)
        && (pc.SpinHeld? || pc.SpinRead? || pc.SpinWritten? ==> m == Spin)
        && (InMutex(pc) ==> m == Mutex)
  }

  ghost predicate NobodyResets(s: State) {
    forall t :: 0 <= t < |s.threads| ==> !InReset(s.threads[t].pc)
  }

  lemma FixedModeKept(s: State, a: Action, m: Mode)
    requires FixedMode(s, m) && Enabled(s, a) && !a.StoreMode?
    ensures FixedMode(Apply(s, a), m)
    ensures NobodyResets(s) && !a.Reset? ==> NobodyResets(Apply(s, a))
  {
  }

  /** In spinlock and atomic mode resets may come at any moment; in mutex mode, which resets do
      not lock against, the sections stay apart when nobody resets. */
  lemma {:induction false} FixedModeIsCompatible(s: State, acts: seq<Action>, e: State, m: Mode)
    requires Runs(s, acts, e) && Locks(s) && FixedMode(s, m) && NoModeChange(acts)
    requires m == Spin || m == Atomic || (m == Mutex && NobodyResets(s) && NoReset(acts))
    ensures Along(s, acts, Compatible)
    ensures FixedMode(e, m) && Locks(e)
    decreases |acts|
  {
    assert s.spin.Some? ==> HoldsWhatItIsIn(s, s.spin.value);
    assert s.mutex.Some? ==> HoldsWhatItIsIn(s, s.mutex.value);
    if acts != [] {
      LocksKept(s, acts[0]);
      FixedModeKept(s, acts[0], m);
      FixedModeIsCompatible(Apply(s, acts[0]), acts[1..], e, m);
    }
  }

  /** Reset linearizes: in a run fixed in spinlock or atomic mode, with resets at any moment by any
      thread, the counter of the mode is the number of increments that landed after the last clear
      of that counter. */
  lemma ResetLinearizes(n: nat, resets: nat, acts: seq<Action>, e: State, m: Mode)
    requires m == Spin || m == Atomic
    requires Runs(Start(n, m, resets), acts, e) && NoModeChange(acts)
    ensures CurrentValue(e) == if m == Atomic then e.atomicSince else e.plainSince
    ensures Along(Start(n, m, resets), acts, Exact)
  {
    var s := Start(n, m, resets);
    FixedModeIsCompatible(s, acts, e, m);
    CompatibleRunsAreExact(s, acts, e);
    AlongEnds(s, acts, e, Exact);
  }

  /** The same in mutex mode, provided no reset's critical section overlaps an increment's. */
  lemma ResetLinearizesInMutexMode(n: nat, resets: nat, acts: seq<Action>, e: State)
    requires Runs(Start(n, Mutex, resets), acts, e) && NoModeChange(acts)
    requires Along(Start(n, Mutex, resets), acts, Compatible)
    ensures CurrentValue(e) == e.plainSince
  {
    var s := Start(n, Mutex, resets);
    CompatibleRunsAreExact(s, acts, e);
    AlongEnds(s, acts, e, Exact);
    ModeStays(s, acts, e);
  }

  lemma {:induction false} ModeStays(s: State, acts: seq<Action>, e: State)
    requires Runs(s, acts, e) && NoModeChange(acts)
    ensures e.mode == s.mode
    decreases |acts|
  {
    if acts != [] {
      ModeStays(Apply(s, acts[0]), acts[1..], e);
    }
  }

  // ---------------------------------------------------------------------------------------
  // Counting completed increments
  // ---------------------------------------------------------------------------------------

  /** What landed since the last clears is everything that landed, when nothing was cleared. */
  ghost predicate AllCounted(s: State) {
    s.plainSince + s.atomicSince == Sum(s.threads, Landed)
  }

  lemma LandedStep(s: State, a: Action)
    requires Enabled(s, a)
    ensures var e := Apply(s, a);
            Sum(e.threads, Landed) == Sum(s.threads, Landed) +
              if a.Step? && (Pending(s.threads[a.t].pc).Some? || s.threads[a.t].pc == Chosen(Atomic)) then 1 else 0
  {
    if !a.StoreMode? {
      SumUpdate(s.threads, a.t, Apply(s, a).threads[a.t], Landed);
    }
  }

  lemma {:induction false} AllCountedAlways(s: State, acts: seq<Action>, e: State)
    requires Runs(s, acts, e) && AllCounted(s) && NobodyResets(s) && NoReset(acts)
    ensures AllCounted(e)
    decreases |acts|
  {
    if acts != [] {
      LandedStep(s, acts[0]);
      AllCountedAlways(Apply(s, acts[0]), acts[1..], e);
    }
  }

  lemma StartSums(n: nat, mode: Mode, resets: nat)
    ensures Sum(Start(n, mode, resets).threads, Landed) == 0
  {
    SumConstant(Start(n, mode, resets).threads, Landed, 0);
  }

  lemma QuiescentLanded(s: State)
    requires Quiescent(s)
    ensures Sum(s.threads, Landed) == Sum(s.threads, Done)
  {
    LandedIsDone(s.threads);
  }

  lemma {:induction false} LandedIsDone(threads: seq<Thread>)
    requires forall t :: 0 <= t < |threads| ==> threads[t].pc.Idle?
    ensures Sum(threads, Landed) == Sum(threads, Done)
  {
    if threads != [] {
      LandedIsDone(threads[..|threads| - 1]);
    }
  }

  /** Exact counting across modes: from zero, in modes 1 to 3 switched at will, with no reset and
      with the two critical sections never occupied together, the two counters at quiescence add
      up to all completed increments. */
  lemma ExactAcrossModes(n: nat, mode: Mode, resets: nat, acts: seq<Action>, e: State)
    requires mode != NoLock && NoRacyMode(acts) && NoReset(acts)
    requires Runs(Start(n, mode, resets), acts, e)
    requires Along(Start(n, mode, resets), acts, Compatible)
    requires Quiescent(e)
    ensures e.plain + e.atomic == Sum(e.threads, Done)
  {
    var s := Start(n, mode, resets);
    StartSums(n, mode, resets);
    CompatibleRunsAreExact(s, acts, e);
    AlongEnds(s, acts, e, Exact);
    AllCountedAlways(s, acts, e);
    QuiescentLanded(e);
  }

  // ---------------------------------------------------------------------------------------
  // Lost updates stay lost
  // ---------------------------------------------------------------------------------------

  /** No thread has read, and counter_plain does not hold, more than has landed there; and if lost, less. */
  ghost predicate Trailing(s: State, lost: bool) {
    var most := if lost then s.plainSince - 1 else s.plainSince;
    && s.plain <= most && s.atomic == s.atomicSince
    && forall t :: 0 <= t < |s.threads| ==>
        Pending(s.threads[t].pc).Some? ==> Pending(s.threads[t].pc).value <= most
  }

  /** An update once lost leaves the counter behind for good, and a stale store to an exact counter loses
      one. */
  lemma TrailingKept(s: State, a: Action, lost: bool)
    requires Enabled(s, a) && NobodyResets(s) && Trailing(s, lost)
    requires !lost ==> Exact(s)
    ensures Trailing(Apply(s, a), lost || StaleStore(s, a))
    ensures !lost && !StaleStore(s, a) ==> Exact(Apply(s, a))
  {
  }

  lemma {:induction false} LostForGood(s: State, acts: seq<Action>, e: State, lost: bool)
    requires Runs(s, acts, e) && NobodyResets(s) && NoReset(acts) && Trailing(s, lost)
    requires !lost ==> Exact(s)
    ensures e.atomic == e.atomicSince
    ensures e.plain == e.plainSince <==> !lost && NeverStale(s, acts)
    decreases |acts|
  {
    if acts != [] {
      TrailingKept(s, acts[0], lost);
      LostForGood(Apply(s, acts[0]), acts[1..], e, lost || StaleStore(s, acts[0]));
    }
  }

  /** In every run without a reset, in any modes, locked or not, the counters at quiescence add up to all
      completed increments if and only if no store in the run was of an outdated value. */
  lemma ExactCountIffNeverStale(n: nat, mode: Mode, resets: nat, acts: seq<Action>, e: State)
    requires Runs(Start(n, mode, resets), acts, e) && NoReset(acts) && Quiescent(e)
    ensures e.plain + e.atomic == Sum(e.threads, Done) <==> NeverStale(Start(n, mode, resets), acts)
  {
    StartSums(n, mode, resets);
    LostForGood(Start(n, mode, resets), acts, e, false);
    AllCountedAlways(Start(n, mode, resets), acts, e);
    QuiescentLanded(e);
  }

  // ---------------------------------------------------------------------------------------
  // Upper bound, in every run
  // ---------------------------------------------------------------------------------------

  ghost predicate NotAhead(s: State) {
    && s.plain + s.atomic <= Sum(s.threads, Landed)
    && forall t :: 0 <= t < |s.threads| ==>
        Pending(s.threads[t].pc).Some? ==> Pending(s.threads[t].pc).value + s.atomic <= Sum(s.threads, Landed)
  }

  lemma NotAheadAt(s: State, a: Action, e: State, t: nat)
    requires NotAhead(s) && Enabled(s, a) && e == Apply(s, a) && t < |e.threads| && Pending(e.threads[t].pc).Some?
    ensures Pending(e.threads[t].pc).value + e.atomic <= Sum(e.threads, Landed)
  {
    LandedStep(s, a);
  }

  lemma NotAheadKept(s: State, a: Action)
    requires NotAhead(s) && Enabled(s, a)
    ensures NotAhead(Apply(s, a))
  {
    var e := Apply(s, a);
    LandedStep(s, a);
    forall t: nat | t < |e.threads| && Pending(e.threads[t].pc).Some?
      ensures Pending(e.threads[t].pc).value + e.atomic <= Sum(e.threads, Landed)
    {
      NotAheadAt(s, a, e, t);
    }
  }

  lemma {:induction false} NotAheadAlways(s: State, acts: seq<Action>, e: State)
    requires NotAhead(s) && Runs(s, acts, e)
    ensures NotAhead(e)
    decreases |acts|
  {
    if acts != [] {
      NotAheadKept(s, acts[0]);
      NotAheadAlways(Apply(s, acts[0]), acts[1..], e);
    }
  }

  /** In every mode, with any mode changes and resets, the counters never claim more increments
      than have landed: updates can be lost but never invented. */
  lemma NeverOvercounts(n: nat, mode: Mode, resets: nat, acts: seq<Action>, e: State)
    requires Runs(Start(n, mode, resets), acts, e)
    ensures e.plain + e.atomic <= Sum(e.threads, Landed)
  {
    StartSums(n, mode, resets);
    NotAheadAlways(Start(n, mode, resets), acts, e);
  }

  // ---------------------------------------------------------------------------------------
  // Lower bound without any lock
  // ---------------------------------------------------------------------------------------

  /** Once anything is stored the counter is positive; a thread with an increment behind it never
      reads zero; and a last writer with two behind it has left at least two. */
  ghost predicate RacyFloor(s: State) {
    && (s.lastWriter.Some? ==> s.plain >= 1 && s.lastWriter.value < |s.threads|)
    && (forall t :: 0 <= t < |s.threads| ==>
        && (s.threads[t].done >= 1 ==> s.lastWriter.Some?)
        && (s.threads[t].done >= 1 && s.threads[t].pc.RacyRead? ==> s.threads[t].pc.tmp >= 1))
    && (s.lastWriter.Some? && s.threads[s.lastWriter.value].done >= 2 ==> s.plain >= 2)
  }

  lemma {:induction false} RacyFloorAlways(s: State, acts: seq<Action>, e: State)
    requires Runs(s, acts, e) && RacyFloor(s) && FixedMode(s, NoLock) && NobodyResets(s)
    requires NoModeChange(acts) && NoReset(acts)
    ensures RacyFloor(e)
    decreases |acts|
  {
    if acts != [] {
      FixedModeKept(s, acts[0], NoLock);
      RacyFloorAlways(Apply(s, acts[0]), acts[1..], e);
    }
  }

  /** With no lock at all, once every thread has at least two increments behind it the counter is
      at least 2, whatever the interleaving. */
  lemma RacyAtLeastTwo(n: nat, resets: nat, acts: seq<Action>, e: State)
    requires n >= 1 && Runs(Start(n, NoLock, resets), acts, e) && NoModeChange(acts) && NoReset(acts)
    requires forall t :: 0 <= t < |e.threads| ==> e.threads[t].done >= 2
    ensures 2 <= e.plain <= Sum(e.threads, Landed)
  {
    RacyFloorAlways(Start(n, NoLock, resets), acts, e);
    ThreadCountStays(Start(n, NoLock, resets), acts, e);
    assert e.threads[0].done >= 2;
    NeverOvercounts(n, NoLock, resets, acts, e);
  }

  lemma {:induction false} ThreadCountStays(s: State, acts: seq<Action>, e: State)
    requires Runs(s, acts, e)
    ensures |e.threads| == |s.threads|
    decreases |acts|
  {
    if acts != [] {
      ThreadCountStays(Apply(s, acts[0]), acts[1..], e);
    }
  }
}
