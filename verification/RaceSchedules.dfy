// Interleavings of the four-mode counter, built step by step: the two ways in which holding the
// wrong lock gives a wrong count.

module RaceSchedules {
  import opened Tally
  import opened RaceCounter
  import opened RaceRuns

  /** Only write() calls and thread steps: no reset and no mode change. */
  predicate Working(s: State, a: Action) {
    a.Write? || a.Step?
  }

  predicate WorkingOrLockedMode(s: State, a: Action) {
    Working(s, a) || (a.StoreMode? && ModeOf(a.value) != Some(NoLock))
  }

  predicate WorkingOrReset(s: State, a: Action) {
    Working(s, a) || a.Reset?
  }

  /** A mode change in the middle of a spinlock increment lets a mutex increment in. */
  lemma SpinlockThenMutex(s: State) returns (e: State)
    requires s == Start(2, Spin, 0)
    ensures Reaches(s, e, WorkingOrLockedMode)
    ensures e.threads == [Thread(SpinRead(0), 0, 0), Thread(MutexHeld, 0, 0)]
    ensures e.plain == 0 && e.atomic == 0 && e.mode == Mutex
  {
    Here(s, WorkingOrLockedMode);
    e := Then(s, s, Write(0, 1), WorkingOrLockedMode);
    e := Then(s, e, Step(0), WorkingOrLockedMode);
    e := Then(s, e, Step(0), WorkingOrLockedMode);
    e := Then(s, e, Step(0), WorkingOrLockedMode);
    e := Then(s, e, StoreMode(2), WorkingOrLockedMode);
    e := Then(s, e, Write(1, 1), WorkingOrLockedMode);
    e := Then(s, e, Step(1), WorkingOrLockedMode);
    e := Then(s, e, Step(1), WorkingOrLockedMode);
  }

  lemma MutexFinishes(s: State) returns (e: State)
    requires s.threads == [Thread(SpinRead(0), 0, 0), Thread(MutexHeld, 0, 0)] && s.plain == 0
    ensures Reaches(s, e, WorkingOrLockedMode)
    ensures e.threads == [Thread(SpinRead(0), 0, 0), Thread(Idle, 0, 1)] && e.atomic == s.atomic
  {
    Here(s, WorkingOrLockedMode);
    e := Then(s, s, Step(1), WorkingOrLockedMode);
    e := Then(s, e, Step(1), WorkingOrLockedMode);
    e := Then(s, e, Step(1), WorkingOrLockedMode);
  }

  /** Thread 0 stores what it has read under the spinlock, unlocks and returns. */
  lemma SpinlockStores(s: State) returns (e: State)
    requires |s.threads| == 2 && s.threads[0].pc.SpinRead?
    ensures Reaches(s, e, WorkingOrLockedMode) && e.plain == s.threads[0].pc.tmp + 1 && e.atomic == s.atomic
    ensures e.threads == s.threads[0 := Thread(Idle, s.threads[0].left, s.threads[0].done + 1)]
  {
    Here(s, WorkingOrLockedMode);
    e := Then(s, s, Step(0), WorkingOrLockedMode);
    e := Then(s, e, Step(0), WorkingOrLockedMode);
  }

  /** Exactness needs its condition on the two critical sections: here a spinlock increment and a
      mutex increment are in flight together, and two completed increments count as one. */
  lemma SpinlockAndMutexLoseAnUpdate()
    ensures exists e :: Reaches(Start(2, Spin, 0), e, WorkingOrLockedMode) && Quiescent(e)
              && Sum(e.threads, Done) == 2 && e.plain + e.atomic == 1
  {
    var s := Start(2, Spin, 0);
    var m := SpinlockThenMutex(s);
    var r := MutexFinishes(m);
    var e := SpinlockStores(r);
    Join(s, m, r, WorkingOrLockedMode);
    Join(s, r, e, WorkingOrLockedMode);
    assert e.threads == [Thread(Idle, 0, 1), Thread(Idle, 0, 1)];
    SumConstant(e.threads, Done, 1);
  }

  /** Thread 0 in mutex mode gets as far as having read the counter under the lock. */
  lemma MutexReadsCounter(s: State) returns (e: State)
    requires |s.threads| == 2 && s.threads[0].pc.Idle? && s.threads[0].left > 0
    requires s.mode == Mutex && s.mutex == None
    ensures Reaches(s, e, WorkingOrReset)
    ensures e == s.(mutex := Some(0), threads :=
                      s.threads[0 := Thread(MutexRead(s.plain), s.threads[0].left - 1, s.threads[0].done)])
  {
    Here(s, WorkingOrReset);
    e := Then(s, s, Step(0), WorkingOrReset);
    e := Then(s, e, Step(0), WorkingOrReset);
    e := Then(s, e, Step(0), WorkingOrReset);
  }

  /** Thread 0 stores, unlocks and returns. */
  lemma MutexStores(s: State) returns (e: State)
    requires |s.threads| == 2 && s.threads[0].pc.MutexRead?
    ensures Reaches(s, e, WorkingOrReset)
    ensures e.mode == s.mode && e.mutex == None && e.spin == s.spin && e.resets == s.resets
    ensures e.plain == s.threads[0].pc.tmp + 1 && e.plainSince == s.plainSince + 1
    ensures e.threads == s.threads[0 := Thread(Idle, s.threads[0].left, s.threads[0].done + 1)]
  {
    Here(s, WorkingOrReset);
    e := Then(s, s, Step(0), WorkingOrReset);
    e := Then(s, e, Step(0), WorkingOrReset);
  }

  lemma ResetClearsPlain(s: State) returns (e: State)
    requires |s.threads| == 2 && s.threads[1] == FRESH_THREAD && s.spin == None
    ensures Reaches(s, e, WorkingOrReset)
    ensures e == s.(plain := 0, plainSince := 0, spin := Some(1),
                    threads := s.threads[1 := Thread(ResetCleared, 0, 0)])
  {
    Here(s, WorkingOrReset);
    e := Then(s, s, Reset(1), WorkingOrReset);
    e := Then(s, e, Step(1), WorkingOrReset);
    e := Then(s, e, Step(1), WorkingOrReset);
  }

  /** Thread 1 runs one complete reset. */
  lemma WholeReset(s: State) returns (e: State)
    requires |s.threads| == 2 && s.threads[1] == FRESH_THREAD && s.spin == None
    ensures Reaches(s, e, WorkingOrReset)
    ensures e.threads == s.threads && e.mode == s.mode && e.plain == 0 && e.plainSince == 0
    ensures e.resets == s.resets + 1 && e.mutex == s.mutex && e.atomic == 0 && e.spin == None
  {
    var m := ResetClearsPlain(s);
    e := Then(s, m, Step(1), WorkingOrReset);
    e := Then(s, e, Step(1), WorkingOrReset);
    e := Then(s, e, Step(1), WorkingOrReset);
  }

  /** Thread 0 asks for two increments and completes the first. */
  lemma OneOfTwo(s: State) returns (e: State)
    requires s == Start(2, Mutex, 0)
    ensures Reaches(s, e, WorkingOrReset)
    ensures e.threads == [Thread(Idle, 1, 1), FRESH_THREAD] && e.plain == 1
    ensures e.mode == Mutex && e.mutex == None && e.spin == None && e.resets == 0
  {
    Here(s, WorkingOrReset);
    var s1 := Then(s, s, Write(0, 2), WorkingOrReset);
    var s2 := MutexReadsCounter(s1);
    e := MutexStores(s2);
    Join(s, s1, s2, WorkingOrReset);
    Join(s, s2, e, WorkingOrReset);
  }

  /** Thread 0 completes one increment and is inside a second one. */
  lemma OneAndAHalf(s: State) returns (e: State)
    requires s == Start(2, Mutex, 0)
    ensures Reaches(s, e, WorkingOrReset)
    ensures e.threads == [Thread(MutexRead(1), 0, 1), FRESH_THREAD]
    ensures e.mode == Mutex && e.spin == None && e.resets == 0
  {
    var m := OneOfTwo(s);
    e := MutexReadsCounter(m);
    Join(s, m, e, WorkingOrReset);
  }

  /** In mutex mode a reset, which takes only the spinlock, can clear the counter inside an
      increment; the store then brings the cleared increments back. */
  lemma ResetInsideMutexIncrementIsUndone()
    ensures exists e :: Reaches(Start(2, Mutex, 0), e, WorkingOrReset) && Quiescent(e)
              && e.resets == 1 && e.plainSince == 1 && CurrentValue(e) == 2
  {
    var s := Start(2, Mutex, 0);
    var s1 := OneAndAHalf(s);
    var s2 := WholeReset(s1);
    var e := MutexStores(s2);
    Join(s, s1, s2, WorkingOrReset);
    Join(s, s2, e, WorkingOrReset);
    assert e.threads == [Thread(Idle, 0, 2), FRESH_THREAD];
  }
}
