// The token bucket of 17_advanced_module_params/token_bucket.c: every callback runs under
// bucket_lock, so a run is a sequence of whole callbacks.

module TokenBucket {
  import opened Tally

  const INT_MAX: int := 0x7fff_ffff
  const INT_MIN: int := -0x8000_0000

  /** C int, which wraps around (the kernel is built so that signed overflow does). */
  type Int32 = x: int | INT_MIN <= x <= INT_MAX

  function Wrap(x: int): Int32 {
    (x + 0x8000_0000) % 0x1_0000_0000 - 0x8000_0000
  }

  datatype Mode = Off | Monitor | Enforce

  datatype Bucket = Bucket(
    tokens: Int32, capacity: Int32, rate: Int32, mode: Mode, modeStr: string,
    consumed: nat, rejected: nat)

  /** parsed is what kstrtoint() makes of the text: None if it is no 32-bit integer. */
  datatype Action =
    | SetCapacity(parsed: Option<Int32>)
    | SetRate(parsed: Option<Int32>)
    | SetMode(text: string)
    | Tick
    | Consume(len: nat)

  datatype Reply = Done(n: nat) | NotANumber | Invalid | Busy

  function Name(m: Mode): string {
    match m
    case Off => "off"
    case Monitor => "monitor"
    case Enforce => "enforce"
  }

  /** sysfs_streq(): equal but for one trailing newline. */
  predicate SysfsEqual(a: string, b: string) {
    a == b || a == b + "\n" || a + "\n" == b
  }

  function ParseMode(text: string): Option<Mode> {
    if SysfsEqual(text, "off") then Some(Off)
    else if SysfsEqual(text, "monitor") then Some(Monitor)
    else if SysfsEqual(text, "enforce") then Some(Enforce)
    else None
  }

  /** What reading the mode parameter returns. */
  function ModeText(b: Bucket): string {
    b.modeStr + "\n"
  }

  function Perform(b: Bucket, a: Action): (Bucket, Reply) {
    match a
    case SetCapacity(None) => (b, NotANumber)
    case SetCapacity(Some(v)) =>
      if v <= 0 then (b, Invalid)
      else (b.(capacity := v, tokens := if b.tokens > v then v else b.tokens), Done(0))
    case SetRate(None) => (b, NotANumber)
    case SetRate(Some(v)) =>
      if v <= 0 || v > b.capacity then (b, Invalid) else (b.(rate := v), Done(0))
    case SetMode(text) =>
      (match ParseMode(text)
       case None => (b, Invalid)
       case Some(m) => (b.(mode := m, modeStr := Name(m)), Done(0)))
    case Tick => (b.(tokens := Min(Wrap(b.tokens + b.rate), b.capacity)), Done(0))
    case Consume(len) =>
      if b.tokens > 0 then (b.(tokens := b.tokens - 1, consumed := b.consumed + 1), Done(len))
      else (b.(rejected := b.rejected + 1), if b.mode == Enforce then Busy else Done(len))
  }

  function After(b: Bucket, a: Action): Bucket {
    Perform(b, a).0
  }

  /** The bucket after the first n callbacks of a run. */
  function Run(b: Bucket, acts: seq<Action>, n: nat): Bucket
    requires n <= |acts|
  {
    if n == 0 then b else After(Run(b, acts, n - 1), acts[n - 1])
  }

  function End(b: Bucket, acts: seq<Action>): Bucket {
    Run(b, acts, |acts|)
  }

  lemma RunNext(b: Bucket, acts: seq<Action>, n: nat, m: Bucket, e: Bucket)
    requires n < |acts| && m == Run(b, acts, n) && e == After(m, acts[n])
    ensures e == Run(b, acts, n + 1)
  {
  }

  const AS_LINKED: Bucket := Bucket(0, 100, 5, Monitor, "monitor", 0, 0)

  /** token_bucket_init(), after the parameters given at load time have been set. */
  function Init(loaded: Bucket): Bucket {
    loaded.(tokens := loaded.capacity)
  }

  class Limiter {
    var tokens: Int32
    var capacity: Int32
    var refillRate: Int32
    var mode: Mode
    var modeStr: string
    var totalConsumed: nat
    var totalRejected: nat

    function Snapshot(): Bucket
      reads this
    {
      Bucket(tokens, capacity, refillRate, mode, modeStr, totalConsumed, totalRejected)
    }

    /** What every callback keeps. */
    predicate Valid()
      reads this
    {
      0 < refillRate && 0 < capacity && modeStr == Name(mode)
    }

    /** The limiter after loading with these parameters and init: full, and nothing counted yet. */
    constructor (load: seq<Action>)
      requires AtLoad(load)
      ensures Valid() && Snapshot() == Init(End(AS_LINKED, load))
      ensures tokens == capacity && totalConsumed == 0 && totalRejected == 0
      ensures load == [] ==> capacity == 100 && refillRate == 5 && modeStr == "monitor"
      ensures SafeRequests(load) ==> 0 < capacity <= SAFE_CAPACITY && capacity + refillRate <= INT_MAX
    {
      tokens, capacity, refillRate := 0, 100, 5;
      mode, modeStr := Monitor, "monitor";
      totalConsumed, totalRejected := 0, 0;
      new;
      var _ := RunAll(load);
      InitBucket();
      ParametersStayPositive(AS_LINKED, load, |load|);
      RunCounts(AS_LINKED, load, |load|);
      NoWrites(load, |load|);
      if SafeRequests(load) {
        SafeAlways(AS_LINKED, load, |load|);
      }
    }

    method InitBucket()
      modifies this`tokens
      ensures Snapshot() == Init(old(Snapshot()))
    {
      tokens := capacity;
    }

    method ModeSet(text: string) returns (reply: Reply)
      modifies this`mode, this`modeStr
      ensures (Snapshot(), reply) == Perform(old(Snapshot()), SetMode(text))
    {
      var canonical;
      if SysfsEqual(text, "off") {
        mode, canonical := Off, "off";
      } else if SysfsEqual(text, "monitor") {
        mode, canonical := Monitor, "monitor";
      } else if SysfsEqual(text, "enforce") {
        mode, canonical := Enforce, "enforce";
      } else {
        return Invalid;
      }
      modeStr := canonical;
      return Done(0);
    }

    method CapacitySet(parsed: Option<Int32>) returns (reply: Reply)
      modifies this`capacity, this`tokens
      ensures (Snapshot(), reply) == Perform(old(Snapshot()), SetCapacity(parsed))
    {
      if parsed.None? {
        return NotANumber;
      }
      var newCap := parsed.value;
      if newCap <= 0 {
        return Invalid;
      }
      capacity := newCap;
      if tokens > capacity {
        tokens := capacity;
      }
      return Done(0);
    }

    method RefillRateSet(parsed: Option<Int32>) returns (reply: Reply)
      modifies this`refillRate
      ensures (Snapshot(), reply) == Perform(old(Snapshot()), SetRate(parsed))
    {
      if parsed.None? {
        return NotANumber;
      }
      var newRate := parsed.value;
      if newRate <= 0 {
        return Invalid;
      }
      var reject := newRate > capacity;
      if !reject {
        refillRate := newRate;
      }
      return if reject then Invalid else Done(0);
    }

    method RefillFn()
      modifies this`tokens
      ensures Snapshot() == After(old(Snapshot()), Tick)
    {
      var sum := Wrap(tokens + refillRate);
      tokens := if sum < capacity then sum else capacity;
    }

    method ConsumeWrite(len: nat) returns (reply: Reply)
      modifies this`tokens, this`totalConsumed, this`totalRejected
      ensures (Snapshot(), reply) == Perform(old(Snapshot()), Consume(len))
    {
      var hadToken := tokens > 0;
      if hadToken {
        tokens := tokens - 1;
        totalConsumed := totalConsumed + 1;
      } else {
        totalRejected := totalRejected + 1;
      }
      if !hadToken && mode == Enforce {
        return Busy;
      }
      return Done(len);
    }

    /** Whichever callback comes next, and whether it is a write that succeeds. */
    method RunAny(a: Action) returns (success: bool)
      modifies this
      ensures Snapshot() == After(old(Snapshot()), a)
      ensures success == Succeeds(old(Snapshot()), a)
    {
      var reply;
      match a {
        case SetCapacity(parsed) => reply := CapacitySet(parsed);
        case SetRate(parsed) => reply := RefillRateSet(parsed);
        case SetMode(text) => reply := ModeSet(text);
        case Tick => RefillFn(); reply := Done(0);
        case Consume(len) => reply := ConsumeWrite(len);
      }
      success := a.Consume? && reply.Done?;
    }

    method RunAll(acts: seq<Action>) returns (served: nat)
      modifies this
      ensures Snapshot() == End(old(Snapshot()), acts)
      ensures served == Served(old(Snapshot()), acts, 0, |acts|)
    {
      served := 0;
      var n := 0;
      while n < |acts|
        invariant 0 <= n <= |acts|
        invariant Snapshot() == Run(old(Snapshot()), acts, n)
        invariant served == Served(old(Snapshot()), acts, 0, n)
      {
        ghost var before := Snapshot();
        var success := RunAny(acts[n]);
        served := served + if success then 1 else 0;
        RunNext(old(Snapshot()), acts, n, before, Snapshot());
        n := n + 1;
      }
    }

    /** Runs any window of ticks, writes and parameter changes. The tokens granted in it, and those left, are the
        tokens at its start and the rates at its ticks less what was cut off, and are covered by them even
        across an overflow; every write is counted once; and if the mode parameter reads enforce throughout,
        the writes that succeed are exactly the grants, otherwise all of them. */
    method Drive(acts: seq<Action>) returns (served: nat)
      requires Valid()
      modifies this
      ensures Valid() && Snapshot() == End(old(Snapshot()), acts)
      ensures totalConsumed - old(totalConsumed) + Positive(tokens)
              <= Positive(old(tokens)) + RatesAtTicks(old(Snapshot()), acts, 0, |acts|)
      ensures totalConsumed + tokens + CutOffs(old(Snapshot()), acts, 0, |acts|)
              == old(totalConsumed + tokens) + RatesAtTicks(old(Snapshot()), acts, 0, |acts|)
      ensures totalConsumed + totalRejected == old(totalConsumed + totalRejected) + Writes(acts, |acts|)
      ensures old(modeStr) == "enforce" && KeepsMode(acts, 0, |acts|) ==> served == totalConsumed - old(totalConsumed)
      ensures old(modeStr) != "enforce" && KeepsMode(acts, 0, |acts|) ==> served == Writes(acts, |acts|)
    {
      served := RunAll(acts);
      WindowLimit(old(Snapshot()), acts, 0, |acts|);
      ParametersStayPositive(old(Snapshot()), acts, |acts|);
      EveryTokenAccounted(old(Snapshot()), acts, 0, |acts|);
      RunCounts(old(Snapshot()), acts, |acts|);
      if KeepsMode(acts, 0, |acts|) {
        ServedByMode(old(Snapshot()), acts, 0, |acts|);
      }
    }
  }

  // ---------------------------------------------------------------------------------------
  // Bounds, and when 32 bits are enough
  // ---------------------------------------------------------------------------------------

  const SAFE_CAPACITY: int := 0x3fff_ffff

  predicate Bounded(b: Bucket) {
    0 <= b.tokens <= b.capacity
  }

  predicate SafeParameters(b: Bucket) {
    0 < b.capacity <= SAFE_CAPACITY && 0 < b.rate <= SAFE_CAPACITY
  }

  predicate SafeRequest(a: Action) {
    a.SetCapacity? && a.parsed.Some? ==> a.parsed.value <= SAFE_CAPACITY
  }

  ghost predicate SafeRequests(acts: seq<Action>) {
    forall i :: 0 <= i < |acts| ==> SafeRequest(acts[i])
  }

  lemma SafeStep(b: Bucket, a: Action)
    requires SafeParameters(b) && SafeRequest(a)
    ensures SafeParameters(After(b, a))
    ensures Bounded(b) ==> Bounded(After(b, a))
  {
  }

  lemma {:induction false} SafeAlways(b: Bucket, acts: seq<Action>, n: nat)
    requires SafeParameters(b) && SafeRequests(acts) && n <= |acts|
    ensures SafeParameters(Run(b, acts, n))
    ensures Bounded(b) ==> Bounded(Run(b, acts, n))
  {
    if n > 0 {
      SafeAlways(b, acts, n - 1);
      SafeStep(Run(b, acts, n - 1), acts[n - 1]);
    }
  }

  /** Callbacks that can come before init: parameters given at load time. */
  ghost predicate AtLoad(load: seq<Action>) {
    forall i :: 0 <= i < |load| ==> !load[i].Tick? && !load[i].Consume?
  }

  /** From load on, after any callbacks in any order and with no capacity above 2^30 - 1 requested, the
      token count stays within the bucket and the 32-bit refill sum never overflows. */
  lemma BoundsAndNoOverflow(load: seq<Action>, acts: seq<Action>, n: nat)
    requires SafeRequests(load) && SafeRequests(acts) && AtLoad(load) && n <= |acts|
    ensures var b := Run(Init(End(AS_LINKED, load)), acts, n);
            Bounded(b) && b.tokens + b.rate <= INT_MAX
  {
    SafeAlways(AS_LINKED, load, |load|);
    SafeAlways(Init(End(AS_LINKED, load)), acts, n);
  }

  /** Runs in which the parameters are left alone. */
  ghost predicate Steady(acts: seq<Action>) {
    forall i :: 0 <= i < |acts| ==> !acts[i].SetCapacity? && !acts[i].SetRate?
  }

  lemma {:induction false} SteadyKeepsParameters(b: Bucket, acts: seq<Action>, n: nat)
    requires Steady(acts) && n <= |acts|
    ensures Run(b, acts, n).capacity == b.capacity && Run(b, acts, n).rate == b.rate
  {
    if n > 0 {
      SteadyKeepsParameters(b, acts, n - 1);
    }
  }

  predicate SumFits(b: Bucket) {
    b.capacity + b.rate <= INT_MAX
  }

  lemma BoundedStep(b: Bucket, a: Action)
    requires Bounded(b) && 0 < b.rate && SumFits(b)
    ensures Bounded(After(b, a)) && 0 < After(b, a).rate
  {
  }

  lemma {:induction false} SteadyBounded(b: Bucket, acts: seq<Action>, n: nat)
    requires Bounded(b) && 0 < b.rate && SumFits(b) && Steady(acts) && n <= |acts|
    ensures Bounded(Run(b, acts, n))
  {
    if n > 0 {
      SteadyBounded(b, acts, n - 1);
      SteadyKeepsParameters(b, acts, n - 1);
      BoundedStep(Run(b, acts, n - 1), acts[n - 1]);
    }
  }

  /** For parameters left alone, the bucket stays within bounds in every run exactly when capacity
      plus rate fits in an int: otherwise the first tick on the full bucket makes it negative. */
  lemma BoundsExactlyWhenSumFits(loaded: Bucket)
    requires 0 < loaded.capacity && 0 < loaded.rate
    ensures (forall acts :: Steady(acts) ==> Bounded(End(Init(loaded), acts)))
            <==> loaded.capacity + loaded.rate <= INT_MAX
  {
    if loaded.capacity + loaded.rate <= INT_MAX {
      forall acts | Steady(acts) ensures Bounded(End(Init(loaded), acts)) {
        SteadyBounded(Init(loaded), acts, |acts|);
      }
    } else {
      OverflowEmpties(Init(loaded));
      assert Steady([Tick]) && !Bounded(End(Init(loaded), [Tick]));
    }
  }

  /** Where the refill sum does not fit, the first tick empties a full bucket that has granted nothing. */
  lemma OverflowEmpties(b: Bucket)
    requires 0 < b.rate && b.tokens == b.capacity && b.capacity + b.rate > INT_MAX
    ensures End(b, [Tick]).tokens < 0 && End(b, [Tick]).consumed == b.consumed
  {
    assert Run(b, [Tick], 1) == After(Run(b, [Tick], 0), Tick);
    assert Wrap(b.capacity + b.rate) == b.capacity + b.rate - 0x1_0000_0000;
  }

  // ---------------------------------------------------------------------------------------
  // The window limit
  // ---------------------------------------------------------------------------------------

  function Positive(x: int): nat {
    if x > 0 then x else 0
  }

  /** The rates in force at the ticks between moments j and n of a run, added up. */
  function RatesAtTicks(b: Bucket, acts: seq<Action>, j: nat, n: nat): int
    requires j <= n <= |acts|
  {
    if n == j then 0
    else RatesAtTicks(b, acts, j, n - 1) + if acts[n - 1].Tick? then Run(b, acts, n - 1).rate else 0
  }

  lemma WindowStep(b: Bucket, a: Action)
    requires 0 < b.rate
    ensures After(b, a).consumed >= b.consumed && 0 < After(b, a).rate
    ensures After(b, a).consumed - b.consumed + Positive(After(b, a).tokens)
            <= Positive(b.tokens) + if a.Tick? then b.rate else 0
  {
    var sum := b.tokens + b.rate;
    assert Wrap(sum) == if sum <= INT_MAX then sum else sum - 0x1_0000_0000;
  }

  lemma {:induction false} RateStaysPositive(b: Bucket, acts: seq<Action>, n: nat)
    requires 0 < b.rate && n <= |acts|
    ensures 0 < Run(b, acts, n).rate
  {
    if n > 0 {
      RateStaysPositive(b, acts, n - 1);
    }
  }

  /** In every window of every run, whatever parameter changes fall into it and even across a 32-bit
      overflow, the tokens granted, and those left, are covered by the tokens at its start and the rates
      at its ticks. */
  lemma {:induction false} WindowLimit(b: Bucket, acts: seq<Action>, j: nat, n: nat)
    requires 0 < b.rate && j <= n <= |acts|
    ensures Run(b, acts, n).consumed >= Run(b, acts, j).consumed
    ensures Run(b, acts, n).consumed - Run(b, acts, j).consumed + Positive(Run(b, acts, n).tokens)
            <= Positive(Run(b, acts, j).tokens) + RatesAtTicks(b, acts, j, n)
  {
    if n > j {
      WindowLimit(b, acts, j, n - 1);
      RateStaysPositive(b, acts, n - 1);
      WindowStep(Run(b, acts, n - 1), acts[n - 1]);
    }
  }

  // ---------------------------------------------------------------------------------------
  // Nothing else is lost
  // ---------------------------------------------------------------------------------------

  /** The tokens that a callback throws away: what a tick brings beyond the capacity, what a new capacity cuts
      off, and at a tick whose sum does not fit in an int, the 2^32 by which it wraps around. */
  function CutOff(b: Bucket, a: Action): nat {
    if a.Tick? && b.tokens + b.rate > INT_MAX then 0x1_0000_0000
    else if a.Tick? && b.tokens + b.rate > b.capacity then b.tokens + b.rate - b.capacity
    else if a.SetCapacity? && a.parsed.Some? && 0 < a.parsed.value < b.tokens then b.tokens - a.parsed.value
    else 0
  }

  function CutOffs(b: Bucket, acts: seq<Action>, j: nat, n: nat): nat
    requires j <= n <= |acts|
  {
    if n == j then 0 else CutOffs(b, acts, j, n - 1) + CutOff(Run(b, acts, n - 1), acts[n - 1])
  }

  lemma AccountStep(b: Bucket, a: Action)
    requires 0 < b.rate && 0 < b.capacity
    ensures 0 < After(b, a).rate && 0 < After(b, a).capacity
    ensures After(b, a).consumed + After(b, a).tokens + CutOff(b, a)
            == b.consumed + b.tokens + if a.Tick? then b.rate else 0
  {
    var sum := b.tokens + b.rate;
    assert Wrap(sum) == if sum <= INT_MAX then sum else sum - 0x1_0000_0000;
  }

  lemma {:induction false} ParametersStayPositive(b: Bucket, acts: seq<Action>, n: nat)
    requires 0 < b.rate && 0 < b.capacity && n <= |acts|
    ensures 0 < Run(b, acts, n).rate && 0 < Run(b, acts, n).capacity
  {
    if n > 0 {
      ParametersStayPositive(b, acts, n - 1);
      AccountStep(Run(b, acts, n - 1), acts[n - 1]);
    }
  }

  /** Every token is accounted for: in every window of every run, whatever parameter changes fall into it, what
      has been granted and what is left is what there was at its start and the rates at its ticks, less
      exactly what was cut off at a full bucket and at a shrinking capacity. */
  lemma {:induction false} EveryTokenAccounted(b: Bucket, acts: seq<Action>, j: nat, n: nat)
    requires 0 < b.rate && 0 < b.capacity && j <= n <= |acts|
    ensures Run(b, acts, n).consumed + Run(b, acts, n).tokens + CutOffs(b, acts, j, n)
            == Run(b, acts, j).consumed + Run(b, acts, j).tokens + RatesAtTicks(b, acts, j, n)
  {
    if n > j {
      var m, a := Run(b, acts, n - 1), acts[n - 1];
      EveryTokenAccounted(b, acts, j, n - 1);
      ParametersStayPositive(b, acts, n - 1);
      AccountStep(m, a);
      assert Run(b, acts, n) == After(m, a) && CutOffs(b, acts, j, n) == CutOffs(b, acts, j, n - 1) + CutOff(m, a);
    }
  }

  // ---------------------------------------------------------------------------------------
  // The limiter never rejects needlessly
  // ---------------------------------------------------------------------------------------

  /** The ticks between moments j and n of a run. */
  function Ticks(acts: seq<Action>, j: nat, n: nat): nat
    requires j <= n <= |acts|
  {
    if n == j then 0 else Ticks(acts, j, n - 1) + if acts[n - 1].Tick? then 1 else 0
  }

  /** Moment j of the run starts a window up to moment n whose grants use up a full bucket and every
      refill since. */
  ghost predicate Exhausts(b: Bucket, acts: seq<Action>, j: nat, n: nat)
    requires j <= n <= |acts|
  {
    && Run(b, acts, j).tokens == b.capacity
    && Run(b, acts, n).consumed - Run(b, acts, j).consumed == b.capacity + b.rate * Ticks(acts, j, n)
  }

  /** A step in a bucket whose refill sum fits either fills the bucket or loses nothing. */
  lemma FillsOrLosesNothing(b: Bucket, a: Action)
    requires Bounded(b) && 0 < b.rate && SumFits(b) && !a.SetCapacity? && !a.SetRate?
    ensures (a.Tick? && After(b, a).tokens == b.capacity) ||
            After(b, a).tokens + After(b, a).consumed == b.tokens + b.consumed + if a.Tick? then b.rate else 0
  {
    assert Wrap(b.tokens + b.rate) == b.tokens + b.rate;
  }

  /** Moment j had a full bucket, and nothing has been lost since: what is left is exactly the
      capacity, plus the refills, minus the grants. */
  ghost predicate NothingLostSince(b: Bucket, acts: seq<Action>, j: nat, n: nat)
    requires j <= n <= |acts|
  {
    && Run(b, acts, j).tokens == b.capacity
    && Run(b, acts, n).tokens + Run(b, acts, n).consumed
       == b.capacity + b.rate * Ticks(acts, j, n) + Run(b, acts, j).consumed
  }

  lemma OneMore(rate: int, ticks: nat, more: nat)
    ensures rate * (ticks + more) == rate * ticks + rate * more
  {
  }

  /** The last moment with a full bucket since which nothing has been lost. */
  lemma {:induction false} SinceLastFull(b: Bucket, acts: seq<Action>, n: nat) returns (j: nat)
    requires Steady(acts) && 0 < b.rate && SumFits(b) && 0 <= b.tokens == b.capacity && n <= |acts|
    ensures j <= n && NothingLostSince(b, acts, j, n)
  {
    j := n;
    if n > 0 {
      var before, a := Run(b, acts, n - 1), acts[n - 1];
      SteadyKeepsParameters(b, acts, n - 1);
      SteadyBounded(b, acts, n - 1);
      FillsOrLosesNothing(before, a);
      if !(a.Tick? && After(before, a).tokens == b.capacity) {
        j := SinceLastFull(b, acts, n - 1);
        OneMore(b.rate, Ticks(acts, j, n - 1), if a.Tick? then 1 else 0);
      }
    }
  }

  lemma {:induction false} SteadyRates(b: Bucket, acts: seq<Action>, j: nat, n: nat)
    requires Steady(acts) && j <= n <= |acts|
    ensures RatesAtTicks(b, acts, j, n) == b.rate * Ticks(acts, j, n)
  {
    if n > j {
      SteadyRates(b, acts, j, n - 1);
      SteadyKeepsParameters(b, acts, n - 1);
      OneMore(b.rate, Ticks(acts, j, n - 1), if acts[n - 1].Tick? then 1 else 0);
    }
  }

  /** In this run the bucket is empty at moment n exactly when some window up to n exhausts it. */
  ghost predicate RejectsTightly(b: Bucket, acts: seq<Action>, n: nat)
    requires n <= |acts|
  {
    Run(b, acts, n).tokens <= 0 <==> exists j: nat :: j <= n && Exhausts(b, acts, j, n)
  }

  /** Tight rejection: with the parameters left alone, a write at moment n finds the bucket empty exactly
      when some earlier moment with a full bucket (such as init) starts a window up to n in which the
      grants come to the capacity plus the rate times the ticks. */
  lemma TightRejection(loaded: Bucket, acts: seq<Action>, n: nat)
    requires Steady(acts) && 0 < loaded.capacity && 0 < loaded.rate && n <= |acts|
    requires loaded.capacity + loaded.rate <= INT_MAX
    ensures Run(Init(loaded), acts, n).tokens <= 0
            <==> exists j: nat :: j <= n && Exhausts(Init(loaded), acts, j, n)
  {
    var b := Init(loaded);
    if Run(b, acts, n).tokens <= 0 {
      SteadyBounded(b, acts, n);
      var last := SinceLastFull(b, acts, n);
      assert Exhausts(b, acts, last, n);
    }
    if j: nat :| j <= n && Exhausts(b, acts, j, n) {
      WindowLimit(b, acts, j, n);
      SteadyRates(b, acts, j, n);
    }
  }

  /** The same seen from the writes: one is rejected exactly when such a window leads up to it, and any other is
      granted a token. */
  lemma {:induction false} WritesAreRejectedTightly(loaded: Bucket, acts: seq<Action>, n: nat)
    requires Steady(acts) && 0 < loaded.capacity && 0 < loaded.rate && n < |acts| && acts[n].Consume?
    requires loaded.capacity + loaded.rate <= INT_MAX
    ensures var b := Init(loaded);
            var before, after := Run(b, acts, n), Run(b, acts, n + 1);
            if exists j: nat :: j <= n && Exhausts(b, acts, j, n)
            then after.rejected == before.rejected + 1 && after.consumed == before.consumed
            else after.consumed == before.consumed + 1 && after.rejected == before.rejected
  {
    TightRejection(loaded, acts, n);
  }

  /** Tight rejection holds in every run with these parameters exactly when their sum fits in an int. */
  lemma TightExactlyWhenSumFits(loaded: Bucket)
    requires 0 < loaded.capacity && 0 < loaded.rate
    ensures (forall acts :: Steady(acts) ==> RejectsTightly(Init(loaded), acts, |acts|))
            <==> loaded.capacity + loaded.rate <= INT_MAX
  {
    var b := Init(loaded);
    if loaded.capacity + loaded.rate <= INT_MAX {
      forall acts | Steady(acts) ensures RejectsTightly(b, acts, |acts|) {
        TightRejection(loaded, acts, |acts|);
      }
    } else {
      OverflowEmpties(b);
      forall j: nat | j <= 1 ensures !Exhausts(b, [Tick], j, 1) {
        assert b.rate * Ticks([Tick], j, 1) >= 0;
        assert j == 0 || j == 1;
      }
      assert Steady([Tick]) && !RejectsTightly(b, [Tick], 1);
    }
  }

  // ---------------------------------------------------------------------------------------
  // A better-supplied bucket serves at least as much
  // ---------------------------------------------------------------------------------------

  /** a has at least the parameters of b, has consumed at least as much, and would still have
      consumed as much if both were drained now. */
  predicate Dominates(a: Bucket, b: Bucket) {
    && a.capacity >= b.capacity && a.rate >= b.rate
    && a.consumed >= b.consumed && a.consumed + a.tokens >= b.consumed + b.tokens
  }

  /** act lowers the rate of a below that of b, which refuses it because its capacity is too small. */
  predicate OnlyLargerSlows(a: Bucket, b: Bucket, act: Action) {
    act.SetRate? && act.parsed.Some? && b.capacity < act.parsed.value <= a.capacity && act.parsed.value < b.rate
  }

  lemma DominatesStep(a: Bucket, b: Bucket, act: Action)
    requires Dominates(a, b) && Bounded(a) && Bounded(b) && 0 < b.rate && SumFits(a)
    ensures Dominates(After(a, act), After(b, act)) <==> !OnlyLargerSlows(a, b, act)
  {
  }

  ghost predicate DominatesUpTo(a: Bucket, b: Bucket, acts: seq<Action>, n: nat)
    requires n <= |acts|
  {
    Dominates(Run(a, acts, n), Run(b, acts, n)) && (n > 0 ==> DominatesUpTo(a, b, acts, n - 1))
  }

  ghost predicate NeverOnlySlowsLarger(a: Bucket, b: Bucket, acts: seq<Action>, n: nat)
    requires n <= |acts|
  {
    n > 0 ==>
      && !OnlyLargerSlows(Run(a, acts, n - 1), Run(b, acts, n - 1), acts[n - 1])
      && NeverOnlySlowsLarger(a, b, acts, n - 1)
  }

  ghost predicate SumFitsUpTo(b: Bucket, acts: seq<Action>, n: nat)
    requires n <= |acts|
  {
    n > 0 ==> SumFits(Run(b, acts, n - 1)) && SumFitsUpTo(b, acts, n - 1)
  }

  lemma {:induction false} BothBounded(a: Bucket, b: Bucket, acts: seq<Action>, n: nat)
    requires Bounded(a) && Bounded(b) && 0 < a.rate && 0 < b.rate && n <= |acts|
    requires SumFitsUpTo(a, acts, n) && (n > 0 ==> DominatesUpTo(a, b, acts, n - 1))
    ensures Bounded(Run(a, acts, n)) && Bounded(Run(b, acts, n)) && 0 < Run(a, acts, n).rate && 0 < Run(b, acts, n).rate
  {
    if n > 0 {
      BothBounded(a, b, acts, n - 1);
      var x, y := Run(a, acts, n - 1), Run(b, acts, n - 1);
      assert SumFits(x) && Dominates(x, y);
      BoundedStep(x, acts[n - 1]);
      BoundedStep(y, acts[n - 1]);
    }
  }

  /** Dominance: on the same callbacks, parameter changes included, a bucket with at least the rate,
      capacity and supply of another has at every moment consumed at least as much, and consumed plus tokens
      is also at least as large, if and only if no rate change is accepted by it alone and takes it below the
      other's rate; all this while its refill sum fits in an int. */
  lemma {:induction false} Dominance(a: Bucket, b: Bucket, acts: seq<Action>, n: nat)
    requires Dominates(a, b) && Bounded(a) && Bounded(b) && 0 < b.rate && n <= |acts|
    requires SumFitsUpTo(a, acts, n)
    ensures DominatesUpTo(a, b, acts, n) <==> NeverOnlySlowsLarger(a, b, acts, n)
  {
    if n > 0 {
      Dominance(a, b, acts, n - 1);
      if DominatesUpTo(a, b, acts, n - 1) {
        BothBounded(a, b, acts, n - 1);
        DominatesStep(Run(a, acts, n - 1), Run(b, acts, n - 1), acts[n - 1]);
      }
    }
  }

  lemma {:induction false} SteadyKeepsSums(a: Bucket, b: Bucket, acts: seq<Action>, n: nat)
    requires SumFits(a) && Steady(acts) && n <= |acts|
    ensures SumFitsUpTo(a, acts, n) && NeverOnlySlowsLarger(a, b, acts, n)
  {
    if n > 0 {
      SteadyKeepsSums(a, b, acts, n - 1);
      SteadyKeepsParameters(a, acts, n - 1);
    }
  }

  lemma SteadyDominance(a: Bucket, b: Bucket, acts: seq<Action>)
    requires Dominates(a, b) && Bounded(a) && Bounded(b) && 0 < b.rate && SumFits(a) && Steady(acts)
    ensures Dominates(End(a, acts), End(b, acts))
  {
    SteadyKeepsSums(a, b, acts, |acts|);
    Dominance(a, b, acts, |acts|);
  }

  /** For parameters left alone, a full bucket dominates every lesser one in every run exactly when its
      capacity plus its rate fits in an int. */
  lemma DominanceExactlyWhenSumFits(a: Bucket)
    requires 0 < a.rate && 0 < a.capacity == a.tokens
    ensures (forall b, acts :: Dominates(a, b) && Bounded(b) && 0 < b.rate && Steady(acts) ==>
               Dominates(End(a, acts), End(b, acts)))
            <==> SumFits(a)
  {
    if SumFits(a) {
      forall b, acts | Dominates(a, b) && Bounded(b) && 0 < b.rate && Steady(acts)
        ensures Dominates(End(a, acts), End(b, acts))
      {
        SteadyDominance(a, b, acts);
      }
    } else {
      OverflowEmpties(a);
      var b := a.(tokens := 0, capacity := 1, rate := 1);
      assert Run(b, [Tick], 1) == After(Run(b, [Tick], 0), Tick);
      assert Dominates(a, b) && Steady([Tick]) && !Dominates(End(a, [Tick]), End(b, [Tick]));
    }
  }

  // ---------------------------------------------------------------------------------------
  // A slower bucket is overtaken
  // ---------------------------------------------------------------------------------------

  /** Some callbacks leave a with less consumed than b, and no more tokens. */
  ghost predicate Overtaken(a: Bucket, b: Bucket) {
    exists acts :: SafeRequests(acts) && Behind(End(a, acts), End(b, acts))
  }

  predicate Behind(a: Bucket, b: Bucket) {
    a.consumed < b.consumed && a.tokens <= b.tokens
  }

  lemma {:induction false} RunAfter(b: Bucket, a: Action, acts: seq<Action>, n: nat)
    requires n <= |acts|
    ensures Run(b, [a] + acts, n + 1) == Run(After(b, a), acts, n)
  {
    if n > 0 {
      RunAfter(b, a, acts, n - 1);
    }
  }

  lemma OvertakenBefore(a: Bucket, b: Bucket, act: Action)
    requires Overtaken(After(a, act), After(b, act)) && SafeRequest(act)
    ensures Overtaken(a, b)
  {
    var acts :| SafeRequests(acts) && Behind(End(After(a, act), acts), End(After(b, act), acts));
    RunAfter(a, act, acts, |acts|);
    RunAfter(b, act, acts, |acts|);
    assert SafeRequests([act] + acts) && Behind(End(a, [act] + acts), End(b, [act] + acts));
  }

  /** x is b with its tokens spent. */
  predicate Drained(b: Bucket, x: Bucket) {
    x.tokens == 0 && x.consumed == b.consumed + b.tokens && x.capacity == b.capacity && x.rate == b.rate
  }

  /** Writes empty both buckets. */
  lemma {:induction false} Drain(a: Bucket, b: Bucket) returns (x: Bucket, y: Bucket)
    requires 0 <= a.tokens && 0 <= b.tokens
    ensures Drained(a, x) && Drained(b, y) && (Overtaken(x, y) ==> Overtaken(a, b))
    decreases a.tokens + b.tokens
  {
    if a.tokens == 0 && b.tokens == 0 {
      x, y := a, b;
    } else {
      x, y := Drain(After(a, Consume(1)), After(b, Consume(1)));
      if Overtaken(x, y) {
        OvertakenBefore(a, b, Consume(1));
      }
    }
  }

  /** Every tick, with the tokens spent, brings the faster bucket nearer. */
  lemma {:induction false} FasterCatchesUp(a: Bucket, b: Bucket)
    requires a.tokens == 0 && b.tokens == 0 && a.capacity == SAFE_CAPACITY && b.capacity == SAFE_CAPACITY
    requires 0 < a.rate < b.rate <= SAFE_CAPACITY
    ensures Overtaken(a, b)
    decreases a.consumed - b.consumed
  {
    if a.consumed < b.consumed {
      assert SafeRequests([]) && Behind(End(a, []), End(b, []));
    } else {
      var x, y := Drain(After(a, Tick), After(b, Tick));
      FasterCatchesUp(x, y);
      OvertakenBefore(a, b, Tick);
    }
  }

  /** A bucket that has become slower than another, however much it is ahead, can be overtaken by it: raise
      the capacity of both, spend all tokens, and go on for enough ticks. */
  lemma SlowerIsOvertaken(a: Bucket, b: Bucket)
    requires SafeParameters(a) && SafeParameters(b) && Bounded(a) && Bounded(b) && a.rate < b.rate
    ensures exists acts :: SafeRequests(acts) && Behind(End(a, acts), End(b, acts))
  {
    var raise := SetCapacity(Some(SAFE_CAPACITY));
    var x, y := Drain(After(a, raise), After(b, raise));
    FasterCatchesUp(x, y);
    OvertakenBefore(a, b, raise);
    assert Overtaken(a, b);
  }

  /** A run from load on in which a rate that only the larger bucket accepts costs it its lead. */
  lemma RateChangeBreaksDominance()
    ensures var a := Init(End(AS_LINKED, [SetRate(Some(50)), SetCapacity(Some(20))]));
            var b := Init(End(AS_LINKED, [SetRate(Some(50)), SetCapacity(Some(10))]));
            var acts := [SetRate(Some(11)), SetCapacity(Some(100)), Tick];
            && Dominates(a, b) && OnlyLargerSlows(a, b, acts[0])
            && End(a, acts).consumed + End(a, acts).tokens < End(b, acts).consumed + End(b, acts).tokens
  {
    var forA, forB := [SetRate(Some(50)), SetCapacity(Some(20))], [SetRate(Some(50)), SetCapacity(Some(10))];
    var a, b := Init(End(AS_LINKED, forA)), Init(End(AS_LINKED, forB));
    assert Run(AS_LINKED, forA, 1) == AS_LINKED.(rate := 50) && Run(AS_LINKED, forB, 1) == AS_LINKED.(rate := 50);
    assert a == AS_LINKED.(tokens := 20, rate := 50, capacity := 20);
    assert b == AS_LINKED.(tokens := 10, rate := 50, capacity := 10);
    var acts := [SetRate(Some(11)), SetCapacity(Some(100)), Tick];
    assert Run(a, acts, 1) == a.(rate := 11) && Run(b, acts, 1) == b;
    assert Run(a, acts, 2) == a.(rate := 11, capacity := 100) && Run(b, acts, 2) == b.(capacity := 100);
  }

  // ---------------------------------------------------------------------------------------
  // Accounting and the mode parameter
  // ---------------------------------------------------------------------------------------

  function Writes(acts: seq<Action>, n: nat): nat
    requires n <= |acts|
  {
    if n == 0 then 0 else Writes(acts, n - 1) + if acts[n - 1].Consume? then 1 else 0
  }

  lemma CountStep(b: Bucket, a: Action)
    requires b.modeStr == Name(b.mode)
    ensures After(b, a).modeStr == Name(After(b, a).mode)
    ensures After(b, a).consumed + After(b, a).rejected == b.consumed + b.rejected + if a.Consume? then 1 else 0
  {
  }

  lemma {:induction false} RunCounts(b: Bucket, acts: seq<Action>, n: nat)
    requires n <= |acts| && b.modeStr == Name(b.mode)
    ensures var e := Run(b, acts, n);
            e.consumed + e.rejected == b.consumed + b.rejected + Writes(acts, n) && e.modeStr == Name(e.mode)
  {
    if n > 0 {
      RunCounts(b, acts, n - 1);
      CountStep(Run(b, acts, n - 1), acts[n - 1]);
    }
  }

  lemma {:induction false} NoWrites(acts: seq<Action>, n: nat)
    requires n <= |acts| && AtLoad(acts)
    ensures Writes(acts, n) == 0
  {
    if n > 0 {
      NoWrites(acts, n - 1);
    }
  }

  /** Every write is counted once, as consumed or as rejected, and the mode string always spells
      the mode in force. */
  lemma EveryWriteCounted(load: seq<Action>, acts: seq<Action>, n: nat)
    requires AtLoad(load) && n <= |acts|
    ensures var b := Run(Init(End(AS_LINKED, load)), acts, n);
            b.consumed + b.rejected == Writes(acts, n) && b.modeStr == Name(b.mode)
  {
    RunCounts(AS_LINKED, load, |load|);
    NoWrites(load, |load|);
    RunCounts(Init(End(AS_LINKED, load)), acts, n);
  }

  /** Writing back what the mode parameter reads as is accepted and changes nothing, trailing newline
      and all. */
  lemma ModeReadsBack(b: Bucket)
    requires b.modeStr == Name(b.mode)
    ensures Perform(b, SetMode(ModeText(b))) == (b, Done(0))
  {
    var text := ModeText(b);
    assert SysfsEqual(text, Name(b.mode));
    assert text[0] == Name(b.mode)[0] && |text| == |Name(b.mode)| + 1;
    assert ParseMode(text) == Some(b.mode);
  }

  predicate Succeeds(b: Bucket, a: Action) {
    a.Consume? && Perform(b, a).1.Done?
  }

  /** The writes that succeed between moments j and n of a run. */
  function Served(b: Bucket, acts: seq<Action>, j: nat, n: nat): nat
    requires j <= n <= |acts|
  {
    if n == j then 0
    else Served(b, acts, j, n - 1) + if Succeeds(Run(b, acts, n - 1), acts[n - 1]) then 1 else 0
  }

  /** Nobody writes the mode parameter between moments j and n. */
  ghost predicate KeepsMode(acts: seq<Action>, j: nat, n: nat)
    requires j <= n <= |acts|
  {
    forall i :: j <= i < n ==> !acts[i].SetMode?
  }

  /** In any window in one mode: if the mode parameter reads enforce, the writes that succeed are exactly the
      tokens granted, and otherwise all of them are. */
  lemma {:induction false} ServedByMode(b: Bucket, acts: seq<Action>, j: nat, n: nat)
    requires j <= n <= |acts| && KeepsMode(acts, j, n) && b.modeStr == Name(b.mode)
    ensures Run(b, acts, n).modeStr == Run(b, acts, j).modeStr
    ensures Run(b, acts, j).modeStr == "enforce" ==>
              Served(b, acts, j, n) == Run(b, acts, n).consumed - Run(b, acts, j).consumed
    ensures Run(b, acts, j).modeStr != "enforce" ==> Served(b, acts, j, n) == Writes(acts, n) - Writes(acts, j)
  {
    if n > j {
      ServedByMode(b, acts, j, n - 1);
      RunCounts(b, acts, n - 1);
      SuccessByMode(Run(b, acts, n - 1), acts[n - 1]);
    }
  }

  lemma SuccessByMode(b: Bucket, a: Action)
    requires b.modeStr == Name(b.mode) && !a.SetMode?
    ensures After(b, a).modeStr == b.modeStr
    ensures b.modeStr == "enforce" ==> After(b, a).consumed == b.consumed + if Succeeds(b, a) then 1 else 0
    ensures b.modeStr != "enforce" ==> (Succeeds(b, a) <==> a.Consume?)
  {
    assert Name(Off)[0] == 'o' && Name(Monitor)[0] == 'm' && "enforce"[0] == 'e';
  }

  /** A write that succeeds answers its own length, and one that does not -EBUSY, taking no token. */
  lemma WriteAnswers(b: Bucket, len: nat)
    requires b.modeStr == Name(b.mode)
    ensures Perform(b, Consume(len)).1 == if b.tokens <= 0 && b.modeStr == "enforce" then Busy else Done(len)
    ensures After(b, Consume(len)).tokens == if b.tokens > 0 then b.tokens - 1 else b.tokens
  {
    assert Name(Off)[0] == 'o' && Name(Monitor)[0] == 'm' && "enforce"[0] == 'e';
  }

  predicate IsModeName(name: string) {
    name == "off" || name == "monitor" || name == "enforce"
  }

  /** The text without its trailing newline, if it has one. */
  function Stripped(text: string): string {
    if text != [] && text[|text| - 1] == '\n' then text[..|text| - 1] else text
  }

  lemma SysfsEqualMeans(a: string, b: string)
    requires b == [] || b[|b| - 1] != '\n'
    ensures SysfsEqual(a, b) <==> Stripped(a) == b
  {
    assert (a + "\n")[|a|] == '\n' && (b + "\n")[..|b|] == b;
    if a != [] && a[|a| - 1] == '\n' {
      assert a == a[..|a| - 1] + "\n";
    }
  }

  /** The mode parameter accepts its three names, with or without a newline, and then reads as the name; any
      other text changes nothing. */
  lemma ModeAccepts(b: Bucket, text: string)
    ensures Perform(b, SetMode(text)).1 == Done(0) <==> IsModeName(Stripped(text))
    ensures After(b, SetMode(text)).modeStr == if IsModeName(Stripped(text)) then Stripped(text) else b.modeStr
    ensures !IsModeName(Stripped(text)) ==> Perform(b, SetMode(text)) == (b, Invalid)
  {
    SysfsEqualMeans(text, "off");
    SysfsEqualMeans(text, "monitor");
    SysfsEqualMeans(text, "enforce");
  }

  /** Parameters that are accepted read back, and the rest changes nothing: a capacity must be positive, a rate
      must also be at most the capacity. */
  lemma ParametersReadBack(b: Bucket, v: Int32)
    ensures Perform(b, SetCapacity(Some(v))).1 == Done(0) <==> v > 0
    ensures v > 0 ==> After(b, SetCapacity(Some(v))).capacity == v && After(b, SetCapacity(Some(v))).rate == b.rate
    ensures v <= 0 ==> Perform(b, SetCapacity(Some(v))) == (b, Invalid)
    ensures Perform(b, SetRate(Some(v))).1 == Done(0) <==> 0 < v <= b.capacity
    ensures After(b, SetRate(Some(v))) == if 0 < v <= b.capacity then b.(rate := v) else b
  {
  }

  /** What the limiter is for: in any window in enforce mode, whatever parameters change in it, no more writes
      succeed than there were tokens at its start and have been added at its ticks. */
  lemma {:induction false} EnforcedWindow(b: Bucket, acts: seq<Action>, j: nat, n: nat)
    requires 0 < b.rate && b.modeStr == Name(b.mode) && j <= n <= |acts|
    requires KeepsMode(acts, j, n) && Run(b, acts, j).modeStr == "enforce"
    ensures Served(b, acts, j, n) <= Positive(Run(b, acts, j).tokens) + RatesAtTicks(b, acts, j, n)
  {
    ServedByMode(b, acts, j, n);
    WindowLimit(b, acts, j, n);
  }
}
