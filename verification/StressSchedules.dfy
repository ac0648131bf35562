// The worst interleaving of the stress test without a lock, built for every number of threads and
// every number of increments: it reports exactly 2.

module StressSchedules {
  import opened Tally
  import opened RaceCounter
  import opened RaceRuns
  import opened StressTest

  /** Some run of the stress test's workers leads from s to e. */
  ghost predicate StressReaches(s: State, e: State, k: nat) {
    Reaches(s, e, Workers(k))
  }

  /** Thread t is at pc with d increments behind it, and has asked for no more than k. */
  ghost predicate At(s: State, t: nat, pc: Pc, d: nat, k: nat) {
    t < |s.threads| && s.threads[t].pc == pc && s.threads[t].done == d && Asked(s.threads[t]) <= k
  }

  ghost predicate OthersKept(s: State, e: State, t: nat) {
    && |e.threads| == |s.threads| && e.mode == s.mode
    && forall u :: 0 <= u < |s.threads| && u != t ==> e.threads[u] == s.threads[u]
  }

  /** A worker with increments to go gets as far as having read the counter, calling write() for its
      next chunk first when the previous one is used up. */
  lemma ReadOnly(s: State, t: nat, d: nat, k: nat) returns (e: State)
    requires s.mode == NoLock && At(s, t, Idle, d, k) && d < k
    ensures StressReaches(s, e, k) && OthersKept(s, e, t)
    ensures At(e, t, RacyRead(s.plain), d, k) && e.plain == s.plain
  {
    Here(s, Workers(k));
    e := s;
    if s.threads[t].left == 0 {
      e := Then(s, e, Write(t, Min(k - d, MAX_CHUNK)), Workers(k));
    }
    e := Then(s, e, Step(t), Workers(k));
    e := Then(s, e, Step(t), Workers(k));
  }

  /** A worker that has read tmp stores tmp + 1 and returns from the increment. */
  lemma StoreBack(s: State, t: nat, tmp: nat, d: nat, k: nat) returns (e: State)
    requires s.mode == NoLock && At(s, t, RacyRead(tmp), d, k)
    ensures StressReaches(s, e, k) && OthersKept(s, e, t)
    ensures At(e, t, Idle, d + 1, k) && e.plain == tmp + 1
  {
    Here(s, Workers(k));
    e := Then(s, s, Step(t), Workers(k));
  }

  /** Worker t alone completes j increments. */
  lemma {:induction false} Solo(s: State, t: nat, d: nat, j: nat, k: nat) returns (e: State)
    requires s.mode == NoLock && At(s, t, Idle, d, k) && d + j <= k
    ensures StressReaches(s, e, k) && OthersKept(s, e, t)
    ensures At(e, t, Idle, d + j, k) && e.plain == s.plain + j
    decreases j
  {
    if j == 0 {
      e := s;
      Here(s, Workers(k));
    } else {
      var m := Solo(s, t, d, j - 1, k);
      var r := ReadOnly(m, t, d + j - 1, k);
      e := StoreBack(r, t, m.plain, d + j - 1, k);
      Join(s, m, r, Workers(k));
      Join(s, r, e, Workers(k));
    }
  }

  /** Workers from, from + 1, ... complete their k increments, one worker after another. */
  lemma {:induction false} SoloEach(s: State, from: nat, k: nat) returns (e: State)
    requires s.mode == NoLock && from <= |s.threads|
    requires forall t :: from <= t < |s.threads| ==> At(s, t, Idle, 0, k)
    ensures StressReaches(s, e, k) && e.mode == NoLock && |e.threads| == |s.threads|
    ensures forall t :: 0 <= t < from ==> e.threads[t] == s.threads[t]
    ensures forall t :: from <= t < |s.threads| ==> At(e, t, Idle, k, k)
    decreases |s.threads| - from
  {
    if from == |s.threads| {
      e := s;
      Here(s, Workers(k));
    } else {
      var m := Solo(s, from, 0, k, k);
      forall t | from + 1 <= t < |m.threads| ensures At(m, t, Idle, 0, k) {
        assert At(s, t, Idle, 0, k);
      }
      e := SoloEach(m, from + 1, k);
      Join(s, m, e, Workers(k));
      assert At(e, from, Idle, k, k);
    }
  }

  /** Thread 0 reads zero and stalls; everybody else works, thread 1 all but its last increment;
      then thread 0 stores 1. */
  lemma EverybodyOverwritten(n: nat, k: nat, resets: nat) returns (e: State)
    requires n >= 2 && k >= 2
    ensures StressReaches(Start(n, NoLock, resets), e, k)
    ensures e.plain == 1 && e.mode == NoLock && |e.threads| == n
    ensures At(e, 0, Idle, 1, k) && At(e, 1, Idle, k - 1, k)
    ensures forall t :: 2 <= t < n ==> At(e, t, Idle, k, k)
  {
    var s := Start(n, NoLock, resets);
    var s1 := ReadOnly(s, 0, 0, k);
    assert forall t :: 2 <= t < n ==> s1.threads[t] == s.threads[t];
    var s2 := SoloEach(s1, 2, k);
    assert At(s2, 1, Idle, 0, k) by { assert s1.threads[1] == s.threads[1]; }
    var s3 := Solo(s2, 1, 0, k - 1, k);
    e := StoreBack(s3, 0, 0, 0, k);
    Join(s, s1, s2, Workers(k));
    Join(s, s2, s3, Workers(k));
    Join(s, s3, e, Workers(k));
    forall t | 2 <= t < n ensures At(e, t, Idle, k, k) {
      assert At(s2, t, Idle, k, k);
    }
  }

  /** Thread 1 reads the 1 and stalls; thread 0 finishes; thread 1 stores 2. */
  lemma LastReaderWins(s: State, k: nat) returns (e: State)
    requires s.plain == 1 && s.mode == NoLock && |s.threads| >= 2 && k >= 2
    requires At(s, 0, Idle, 1, k) && At(s, 1, Idle, k - 1, k)
    requires forall t :: 2 <= t < |s.threads| ==> At(s, t, Idle, k, k)
    ensures StressReaches(s, e, k) && e.plain == 2 && e.mode == NoLock && |e.threads| == |s.threads|
    ensures forall t :: 0 <= t < |s.threads| ==> At(e, t, Idle, k, k)
  {
    var s1 := ReadOnly(s, 1, k - 1, k);
    var s2 := Solo(s1, 0, 1, k - 1, k);
    e := StoreBack(s2, 1, 1, k - 1, k);
    Join(s, s1, s2, Workers(k));
    Join(s, s2, e, Workers(k));
    forall t | 2 <= t < |s.threads| ensures At(e, t, Idle, k, k) {
      assert At(s, t, Idle, k, k);
    }
  }

  /** The lower bound of RacyVerdict is attained: for every n >= 2 workers of k >= 2 increments each
      there is an interleaving of the stress test that joins all of them and reports exactly 2. */
  lemma TwoIsAttained(n: nat, k: nat, resets: nat)
    requires n >= 2 && k >= 2
    ensures exists e :: StressReaches(Start(n, NoLock, resets), e, k) && Joined(e, k)
              && |e.threads| == n && CurrentValue(e) == 2
  {
    var m := EverybodyOverwritten(n, k, resets);
    var e := LastReaderWins(m, k);
    Join(Start(n, NoLock, resets), m, e, Workers(k));
    forall t | 0 <= t < n ensures e.threads[t].pc.Idle? && e.threads[t].left == 0 && Asked(e.threads[t]) >= k {
      assert At(e, t, Idle, k, k);
    }
  }
}
