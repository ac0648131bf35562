// 11_concurrency_locking/stress_test.c: what its workers ask of the device, and the verdict its
// main() reaches about any interleaving of them.

module StressTest {
  import opened Tally
  import opened RaceCounter
  import opened RaceRuns
  import RaceDevice

  const MAX_CHUNK: nat := 65536

  /** One worker run undisturbed: it issues chunks of at most MAX_CHUNK until nothing remains. Every
      chunk is fully accepted, so the device sees exactly the requested increments. */
  method Worker(device: RaceDevice.Device, t: nat, increments: nat) returns (chunks: seq<nat>)
    requires t < |device.threads| && device.threads[t].pc.Idle? && device.threads[t].left == 0
    requires device.spinHolder.None? && device.mutexHolder.None?
    modifies device
    ensures device.threads == old(device.threads)[t := Thread(Idle, 0, old(device.threads[t].done) + increments)]
    ensures CurrentValue(device.Snapshot()) == CurrentValue(old(device.Snapshot())) + increments
    ensures forall i :: 0 <= i < |chunks| ==> 0 < chunks[i] <= MAX_CHUNK
    ensures forall i :: 0 <= i < |chunks| - 1 ==> chunks[i] == MAX_CHUNK
    ensures |chunks| == (increments + MAX_CHUNK - 1) / MAX_CHUNK
  {
    chunks := [];
    var remaining := increments;
    while remaining > 0
      invariant 0 <= remaining <= increments
      invariant t < |device.threads| && device.spinHolder.None? && device.mutexHolder.None?
      invariant device.threads
                == old(device.threads)[t := Thread(Idle, 0, old(device.threads[t].done) + increments - remaining)]
      invariant CurrentValue(device.Snapshot()) == CurrentValue(old(device.Snapshot())) + increments - remaining
      invariant forall i :: 0 <= i < |chunks| ==> 0 < chunks[i] <= MAX_CHUNK
      invariant remaining > 0 ==> forall i :: 0 <= i < |chunks| ==> chunks[i] == MAX_CHUNK
      invariant forall i :: 0 <= i < |chunks| - 1 ==> chunks[i] == MAX_CHUNK
      invariant |chunks| + (remaining + MAX_CHUNK - 1) / MAX_CHUNK == (increments + MAX_CHUNK - 1) / MAX_CHUNK
    {
      var chunk := if remaining > MAX_CHUNK then MAX_CHUNK else remaining;
      var written := device.RaceWrite(t, chunk);
      assert written == chunk;
      remaining := remaining - written;
      chunks := chunks + [chunk];
    }
  }

  /** In state s the action a is one that a test with k increments per worker can cause: a worker
      writes its next chunk, or some thread takes a step. */
  predicate WorkerAction(s: State, a: Action, k: nat) {
    a.Step? ||
    (a.Write? && a.t < |s.threads| && Asked(s.threads[a.t]) < k
     && a.count == Min(k - Asked(s.threads[a.t]), MAX_CHUNK))
  }

  function Workers(k: nat): (State, Action) -> bool {
    (s: State, a: Action) => WorkerAction(s, a, k)
  }

  ghost predicate StressRun(s: State, acts: seq<Action>, k: nat) {
    Only(s, acts, Workers(k))
  }

  /** Every worker has left its loop: all joined. */
  ghost predicate Joined(s: State, k: nat) {
    Quiescent(s) && forall t :: 0 <= t < |s.threads| ==> Asked(s.threads[t]) >= k
  }

  ghost predicate WithinQuota(s: State, k: nat) {
    forall t :: 0 <= t < |s.threads| ==> Asked(s.threads[t]) <= k
  }

  lemma {:induction false} QuotaKept(s: State, acts: seq<Action>, e: State, k: nat)
    requires Runs(s, acts, e) && StressRun(s, acts, k) && WithinQuota(s, k) && NobodyResets(s)
    ensures WithinQuota(e, k) && NoReset(acts) && NoModeChange(acts) && NoRacyMode(acts)
    decreases |acts|
  {
    if acts != [] {
      QuotaKept(Apply(s, acts[0]), acts[1..], e, k);
    }
  }

  /** All joined means every worker has completed exactly its k increments. */
  lemma JoinedMeansDone(n: nat, mode: Mode, resets: nat, acts: seq<Action>, e: State, k: nat)
    requires Runs(Start(n, mode, resets), acts, e) && StressRun(Start(n, mode, resets), acts, k) && Joined(e, k)
    ensures |e.threads| == n && forall t :: 0 <= t < n ==> e.threads[t].done == k
    ensures Sum(e.threads, Done) == n * k
  {
    QuotaKept(Start(n, mode, resets), acts, e, k);
    ThreadCountStays(Start(n, mode, resets), acts, e);
    forall t: nat | t < n ensures e.threads[t].done == k {
      assert Asked(e.threads[t]) == e.threads[t].done;
    }
    SumConstant(e.threads, Done, k);
  }

  /** In each locked mode the test always finds actual == expected, whatever the interleaving. */
  lemma NoLostUpdates(n: nat, mode: Mode, resets: nat, acts: seq<Action>, e: State, k: nat)
    requires mode != NoLock
    requires Runs(Start(n, mode, resets), acts, e) && StressRun(Start(n, mode, resets), acts, k) && Joined(e, k)
    ensures CurrentValue(e) == n * k
  {
    var s := Start(n, mode, resets);
    QuotaKept(s, acts, e, k);
    JoinedMeansDone(n, mode, resets, acts, e, k);
    FixedModeIsCompatible(s, acts, e, mode);
    ExactAcrossModes(n, mode, resets, acts, e);
    OtherCounterStaysZero(s, acts, e, mode);
  }

  lemma {:induction false} OtherCounterStaysZero(s: State, acts: seq<Action>, e: State, m: Mode)
    requires Runs(s, acts, e) && FixedMode(s, m) && NoModeChange(acts)
    requires m == Atomic ==> s.plain == 0
    requires m != Atomic ==> s.atomic == 0
    ensures m == Atomic ==> e.plain == 0
    ensures m != Atomic ==> e.atomic == 0
    ensures e.mode == m
    decreases |acts|
  {
    if acts != [] {
      FixedModeKept(s, acts[0], m);
      OtherCounterStaysZero(Apply(s, acts[0]), acts[1..], e, m);
    }
  }

  /** The verdict of the test is right in every mode: it finds actual == expected exactly if no worker stored an
      outdated value. */
  lemma VerdictIsRight(n: nat, mode: Mode, resets: nat, acts: seq<Action>, e: State, k: nat)
    requires Runs(Start(n, mode, resets), acts, e) && StressRun(Start(n, mode, resets), acts, k) && Joined(e, k)
    ensures CurrentValue(e) == n * k <==> NeverStale(Start(n, mode, resets), acts)
  {
    var s := Start(n, mode, resets);
    QuotaKept(s, acts, e, k);
    JoinedMeansDone(n, mode, resets, acts, e, k);
    OtherCounterStaysZero(s, acts, e, mode);
    ExactCountIffNeverStale(n, mode, resets, acts, e);
  }

  /** With no lock the test reports between 2 and the expected total, and never more. */
  lemma RacyVerdict(n: nat, resets: nat, acts: seq<Action>, e: State, k: nat)
    requires n >= 1 && k >= 2
    requires Runs(Start(n, NoLock, resets), acts, e) && StressRun(Start(n, NoLock, resets), acts, k) && Joined(e, k)
    ensures 2 <= CurrentValue(e) <= n * k
  {
    QuotaKept(Start(n, NoLock, resets), acts, e, k);
    JoinedMeansDone(n, NoLock, resets, acts, e, k);
    RacyAtLeastTwo(n, resets, acts, e);
    QuiescentLanded(e);
    ModeStays(Start(n, NoLock, resets), acts, e);
  }
}
