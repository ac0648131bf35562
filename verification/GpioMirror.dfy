// The button-to-LED mirror of 03_gpio_sim/gpioctrl.c as a state machine: the polling work item and any
// number of control writers, each sampling the button outside the lock and acting on it under the
// lock. A whole critical section of state->lock is one step.

module GpioMirror {
  import opened Tally

  const MIN_POLL_MS: nat := 10
  const MAX_POLL_MS: nat := 60000

  /** What gpiod_get_value_cansleep() returns: 0, 1, or a negative error. */
  type Reading = x: int | x <= 1

  type Bit = x: int | 0 <= x <= 1

  /** Where gpioctrl_work_fn() is. */
  datatype Worker = WIdle | WReading | WGot(b: Bit) | WSampled | WDelay(ms: nat)

  /** Where a control writer is. */
  datatype Caller =
    | Out(reply: int)
    | Reading(sync: bool)
    | Got(b: Bit)
    | SetInvert(v: bool)
    | SetPoll(ms: nat)
    | Retime(ms: nat)
    | ResetStats

  datatype Command = Sync | Reset | Invert(v: bool) | PollMs(ms: nat)

  /** struct gpioctrl_state and the physical LED. The last four fields are history: the invert flag the
      last sample used; the buttons and LED values since init or the last reset, the value at that moment
      first; and whether init's own sample is among those counted. */
  datatype Device = Device(
    button: int, led: int, pin: int, invert: bool,
    samples: nat, changes: nat, updates: nat,
    used: bool, buttons: seq<int>, leds: seq<int>, initCounted: bool)

  /** pending: the delay with which the work item is queued, if it is. */
  datatype State = State(
    device: Device, pollMs: nat, pending: Option<nat>, worker: Worker, callers: seq<Caller>)

  datatype Action =
    | Fire
    | WorkerStep(value: Reading)
    | Call(c: nat, command: Command)
    | CallerStep(c: nat, value: Reading)

  const OK: int := 0
  const ERANGE: int := -34

  function Mirror(b: Bit, invert: bool): Bit {
    if invert then 1 - b else b
  }

  /** The state that a successful gpioctrl_init() leaves. */
  function Init(b: Bit, invert: bool, pollMs: nat, callers: nat): State {
    State(Device(b, Mirror(b, invert), Mirror(b, invert), invert, 1, 0, 0, invert, [b], [Mirror(b, invert)], true),
          pollMs, Some(pollMs), WIdle, seq(callers, i => Out(OK)))
  }

  /** The critical section of gpioctrl_sample_once(). */
  function Sample(d: Device, b: Bit): Device {
    var desired := Mirror(b, d.invert);
    var changed := d.button != -1 && b != d.button;
    var driven := desired != d.led;
    Device(b, if driven then desired else d.led, if driven then desired else d.pin, d.invert,
           d.samples + 1, d.changes + (if changed then 1 else 0), d.updates + (if driven then 1 else 0),
           d.invert, d.buttons + [b], d.leds + [desired], d.initCounted)
  }

  /** The critical section of reset_stats. */
  function Cleared(d: Device): Device {
    d.(samples := 0, changes := 0, updates := 0, buttons := [d.button], leds := [d.led], initCounted := false)
  }

  predicate Enabled(s: State, a: Action) {
    match a
    case Fire => s.pending.Some? && s.worker == WIdle
    case WorkerStep(_) => s.worker != WIdle
    case Call(c, _) => c < |s.callers| && s.callers[c].Out?
    case CallerStep(c, _) => c < |s.callers| && !s.callers[c].Out?
  }

  function Goto(s: State, c: nat, pc: Caller): State
    requires c < |s.callers|
  {
    s.(callers := s.callers[c := pc])
  }

  function StepWorker(s: State, value: Reading): State
    requires s.worker != WIdle
  {
    match s.worker
    case WReading => s.(worker := if value < 0 then WSampled else WGot(value))
    case WGot(b) => s.(device := Sample(s.device, b), worker := WSampled)
    case WSampled => s.(worker := WDelay(s.pollMs))
    case WDelay(ms) => s.(pending := if s.pending.None? then Some(ms) else s.pending, worker := WIdle)
  }

  function StepCaller(s: State, c: nat, value: Reading): State
    requires Enabled(s, CallerStep(c, value))
  {
    match s.callers[c]
    case Reading(sync) => Goto(s, c, if value >= 0 then Got(value) else Out(if sync then value else OK))
    case Got(b) => Goto(s.(device := Sample(s.device, b)), c, Out(OK))
    case SetInvert(v) => Goto(s.(device := s.device.(invert := v)), c, Reading(false))
    case SetPoll(v) => Goto(s.(pollMs := v), c, Retime(v))
    case Retime(v) => Goto(s.(pending := Some(v)), c, Out(OK))
    case ResetStats => Goto(s.(device := Cleared(s.device)), c, Out(OK))
  }

  function Apply(s: State, a: Action): State
    requires Enabled(s, a)
  {
    match a
    case Fire => s.(pending := None, worker := WReading)
    case WorkerStep(value) => StepWorker(s, value)
    case Call(c, command) =>
      Goto(s, c, match command
                 case Sync => Reading(true)
                 case Reset => ResetStats
                 case Invert(v) => SetInvert(v)
                 case PollMs(v) => if v < MIN_POLL_MS || v > MAX_POLL_MS then Out(ERANGE) else SetPoll(v))
    case CallerStep(c, value) => StepCaller(s, c, value)
  }

  ghost predicate Runs(s: State, acts: seq<Action>, e: State)
    decreases |acts|
  {
    if acts == [] then s == e
    else Enabled(s, acts[0]) && Runs(Apply(s, acts[0]), acts[1..], e)
  }

  /** An action that is not possible when its turn comes is passed over. */
  function Turn(s: State, a: Action): State {
    if Enabled(s, a) then Apply(s, a) else s
  }

  /** The state after the first n turns of a schedule. */
  function Follow(s: State, schedule: seq<Action>, n: nat): State
    requires n <= |schedule|
  {
    if n == 0 then s else Turn(Follow(s, schedule, n - 1), schedule[n - 1])
  }

  lemma FollowNext(s: State, schedule: seq<Action>, n: nat, m: State, e: State)
    requires n < |schedule| && m == Follow(s, schedule, n) && e == Turn(m, schedule[n])
    ensures e == Follow(s, schedule, n + 1)
  {
  }

  // ---------------------------------------------------------------------------------------
  // Counting changes
  // ---------------------------------------------------------------------------------------

  /** How often a sequence changes from one element to the next. */
  function Flips(s: seq<int>): nat {
    if |s| <= 1 then 0
    else Flips(s[..|s| - 1]) + if s[|s| - 1] != s[|s| - 2] then 1 else 0
  }

  lemma FlipsNext(s: seq<int>, x: int)
    requires s != []
    ensures Flips(s + [x]) == Flips(s) + if x != s[|s| - 1] then 1 else 0
  {
    assert (s + [x])[..|s|] == s;
  }

  /** A sequence of bits changes less often than it is long, and an odd number of times exactly when it
      ends differently from how it began. */
  lemma {:induction false} FlipsParity(s: seq<int>)
    requires s != [] && forall i :: 0 <= i < |s| ==> 0 <= s[i] <= 1
    ensures Flips(s) < |s|
    ensures Flips(s) % 2 == 1 <==> s[0] != s[|s| - 1]
  {
    if |s| > 1 {
      FlipsParity(s[..|s| - 1]);
    }
  }

  // ---------------------------------------------------------------------------------------
  // What every step keeps
  // ---------------------------------------------------------------------------------------

  ghost predicate Bits(s: seq<int>) {
    s != [] && forall i :: 0 <= i < |s| ==> 0 <= s[i] <= 1
  }

  ghost predicate Mirroring(d: Device) {
    && 0 <= d.button <= 1
    && d.led == d.pin == Mirror(d.button, d.used)
    && Bits(d.buttons) && Bits(d.leds) && |d.buttons| == |d.leds|
    && d.buttons[|d.buttons| - 1] == d.button && d.leds[|d.leds| - 1] == d.led
    && d.samples == |d.buttons| - (if d.initCounted then 0 else 1)
    && d.changes == Flips(d.buttons) && d.updates == Flips(d.leds)
  }

  ghost predicate Polling(s: State) {
    s.pending.Some? || s.worker != WIdle
  }

  lemma SampleKeepsMirroring(d: Device, b: Bit)
    requires Mirroring(d)
    ensures Mirroring(Sample(d, b))
  {
    FlipsNext(d.buttons, b);
    FlipsNext(d.leds, Mirror(b, d.invert));
  }

  /** Neither a reset nor a change of the invert flag disturbs the mirror. */
  lemma ControlKeepsMirroring(d: Device, v: bool)
    requires Mirroring(d)
    ensures Mirroring(Cleared(d)) && Mirroring(d.(invert := v))
  {
  }

  lemma MirroringKept(s: State, a: Action)
    requires Mirroring(s.device) && Enabled(s, a)
    ensures Mirroring(Apply(s, a).device)
  {
    ControlKeepsMirroring(s.device, a.CallerStep? && s.callers[a.c].SetInvert? && s.callers[a.c].v);
    if a.WorkerStep? && s.worker.WGot? {
      SampleKeepsMirroring(s.device, s.worker.b);
      assert Apply(s, a).device == Sample(s.device, s.worker.b);
    } else if a.CallerStep? {
      if s.callers[a.c].Got? {
        SampleKeepsMirroring(s.device, s.callers[a.c].b);
        assert Apply(s, a).device == Sample(s.device, s.callers[a.c].b);
      }
    } else {
      assert Apply(s, a).device == s.device;
    }
  }

  lemma {:induction false} MirroringAlways(s: State, acts: seq<Action>, e: State)
    requires Mirroring(s.device) && Polling(s) && Runs(s, acts, e)
    ensures Mirroring(e.device) && Polling(e)
    decreases |acts|
  {
    if acts != [] {
      MirroringKept(s, acts[0]);
      MirroringAlways(Apply(s, acts[0]), acts[1..], e);
    }
  }

  /** Mirror and parity: whenever the lock is free the physical LED is state->led, and is the sampled
      button xor the invert flag that sample used; changes and updates never exceed samples; and they are
      odd exactly when button and LED differ from what they were at init or at the last reset. */
  lemma MirrorParity(b: Bit, invert: bool, pollMs: nat, callers: nat, acts: seq<Action>, e: State)
    requires Runs(Init(b, invert, pollMs, callers), acts, e)
    ensures 0 <= e.device.button <= 1 && 0 <= e.device.pin <= 1 && e.device.led == e.device.pin
    ensures e.device.pin == e.device.button <==> !e.device.used
    ensures e.device.changes <= e.device.samples && e.device.updates <= e.device.samples
    ensures e.device.buttons != [] && (e.device.changes % 2 == 1 <==> e.device.button != e.device.buttons[0])
    ensures e.device.leds != [] && (e.device.updates % 2 == 1 <==> e.device.led != e.device.leds[0])
  {
    MirroringAlways(Init(b, invert, pollMs, callers), acts, e);
    FlipsParity(e.device.buttons);
    FlipsParity(e.device.leds);
  }

  /** The button values that were read in a run, by the worker or by a caller. */
  ghost predicate WasRead(s: State, acts: seq<Action>, v: int)
    decreases |acts|
  {
    acts != [] && Enabled(s, acts[0]) &&
    (ReadsNow(s, acts[0], v) || WasRead(Apply(s, acts[0]), acts[1..], v))
  }

  predicate ReadsNow(s: State, a: Action, v: int) {
    || (a.WorkerStep? && s.worker == WReading && a.value == v >= 0)
    || (a.CallerStep? && a.c < |s.callers| && s.callers[a.c].Reading? && a.value == v >= 0)
  }

  /** Every value on its way to be recorded, and the one recorded, is known to have been read. */
  ghost predicate OnlyRead(s: State, read: set<int>) {
    && s.device.button in read
    && (s.worker.WGot? ==> s.worker.b in read)
    && forall c :: 0 <= c < |s.callers| && s.callers[c].Got? ==> s.callers[c].b in read
  }

  lemma OnlyReadStep(s: State, a: Action, read: set<int>)
    requires OnlyRead(s, read) && Enabled(s, a)
    ensures OnlyRead(Apply(s, a), read + set v | 0 <= v <= 1 && ReadsNow(s, a, v))
  {
  }

  lemma {:induction false} OnlyReadAlways(s: State, acts: seq<Action>, e: State, read: set<int>)
    requires OnlyRead(s, read) && Runs(s, acts, e)
    ensures e.device.button in read || WasRead(s, acts, e.device.button)
    decreases |acts|
  {
    if acts != [] {
      OnlyReadStep(s, acts[0], read);
      OnlyReadAlways(Apply(s, acts[0]), acts[1..], e, read + set v | 0 <= v <= 1 && ReadsNow(s, acts[0], v));
    }
  }

  /** The recorded button is always one that was read: at init, or successfully by the worker or a caller. */
  lemma ButtonWasRead(b: Bit, invert: bool, pollMs: nat, callers: nat, acts: seq<Action>, e: State)
    requires Runs(Init(b, invert, pollMs, callers), acts, e)
    ensures e.device.button == b || WasRead(Init(b, invert, pollMs, callers), acts, e.device.button)
  {
    OnlyReadAlways(Init(b, invert, pollMs, callers), acts, e, {b});
  }

  /** Poller survival: the work item is queued or running at every moment, after failed reads and
      re-timing as much as otherwise. */
  lemma PollerSurvives(b: Bit, invert: bool, pollMs: nat, callers: nat, acts: seq<Action>, e: State)
    requires Runs(Init(b, invert, pollMs, callers), acts, e)
    ensures e.pending.Some? || e.worker != WIdle
    ensures Enabled(e, Fire) || Enabled(e, WorkerStep(0))
  {
    MirroringAlways(Init(b, invert, pollMs, callers), acts, e);
  }

  // ---------------------------------------------------------------------------------------
  // When a new interval takes effect
  // ---------------------------------------------------------------------------------------

  /** p holds in every state the run passes through, both ends included. */
  ghost predicate Along(s: State, acts: seq<Action>, p: State -> bool)
    decreases |acts|
  {
    p(s) && (acts != [] ==> Enabled(s, acts[0]) && Along(Apply(s, acts[0]), acts[1..], p))
  }

  /** Some writer is between storing poll_ms and re-timing the work. */
  ghost predicate Retiming(s: State) {
    exists c :: 0 <= c < |s.callers| && s.callers[c].Retime?
  }

  /** Unless a writer is still going to re-time it, queued work is queued with the current poll_ms. */
  ghost predicate InForce(s: State) {
    !Retiming(s) && s.pending.Some? ==> s.pending.value == s.pollMs
  }

  /** a re-times the work with an interval that has been replaced meanwhile, and no writer is left that
      would put it right. */
  ghost predicate LateRetime(s: State, a: Action)
    requires Enabled(s, a)
  {
    && a.CallerStep? && s.callers[a.c].Retime? && s.callers[a.c].ms != s.pollMs
    && !Retiming(Apply(s, a))
  }

  ghost predicate NeverLate(s: State, acts: seq<Action>)
    decreases |acts|
  {
    acts != [] ==> Enabled(s, acts[0]) && !LateRetime(s, acts[0]) && NeverLate(Apply(s, acts[0]), acts[1..])
  }

  /** The current interval is in force, and the worker is not about to queue itself with another. */
  ghost predicate Timed(s: State) {
    InForce(s) && (!Retiming(s) && s.pending.None? && s.worker.WDelay? ==> s.worker.ms == s.pollMs)
  }

  /** Writers begin to re-time by storing an interval, and end by re-timing. */
  lemma HowRetimingChanges(s: State, a: Action)
    requires Enabled(s, a)
    ensures a.CallerStep? && s.callers[a.c].SetPoll? ==> Retiming(Apply(s, a))
    ensures Retiming(s) && !Retiming(Apply(s, a)) ==> a.CallerStep? && s.callers[a.c].Retime?
  {
    var e := Apply(s, a);
    if a.CallerStep? && s.callers[a.c].SetPoll? {
      assert e.callers[a.c].Retime?;
    }
    if Retiming(s) && !(a.CallerStep? && s.callers[a.c].Retime?) {
      var c :| 0 <= c < |s.callers| && s.callers[c].Retime?;
      assert e.callers[c] == s.callers[c];
    }
  }

  lemma TimedStep(s: State, a: Action)
    requires Timed(s) && Enabled(s, a)
    ensures if LateRetime(s, a) then !InForce(Apply(s, a)) else Timed(Apply(s, a))
  {
    HowRetimingChanges(s, a);
  }

  lemma {:induction false} InForceIffNeverLate(s: State, acts: seq<Action>, e: State)
    requires Timed(s) && Runs(s, acts, e)
    ensures Along(s, acts, InForce) <==> NeverLate(s, acts)
    decreases |acts|
  {
    if acts != [] {
      TimedStep(s, acts[0]);
      if !LateRetime(s, acts[0]) {
        InForceIffNeverLate(Apply(s, acts[0]), acts[1..], e);
      }
    }
  }

  /** A new interval takes effect: from init on, queued work is queued with the current poll_ms whenever no
      writer is in the middle, even if the worker had picked up an older value in the meantime, if and only
      if no writer is the last to re-time the work with an interval that is no longer current. */
  lemma NewIntervalTakesEffect(b: Bit, invert: bool, pollMs: nat, callers: nat, acts: seq<Action>, e: State)
    requires Runs(Init(b, invert, pollMs, callers), acts, e)
    ensures var s := Init(b, invert, pollMs, callers);
            Along(s, acts, InForce) <==> NeverLate(s, acts)
  {
    InForceIffNeverLate(Init(b, invert, pollMs, callers), acts, e);
  }

  ghost predicate OneRetimer(s: State) {
    forall c, d :: 0 <= c < d < |s.callers| ==> !(s.callers[c].Retime? && s.callers[d].Retime?)
  }

  ghost predicate RetimersCurrent(s: State) {
    forall c :: 0 <= c < |s.callers| && s.callers[c].Retime? ==> s.callers[c].ms == s.pollMs
  }

  lemma RetimersStayCurrent(s: State, a: Action)
    requires RetimersCurrent(s) && Enabled(s, a) && OneRetimer(Apply(s, a))
    ensures RetimersCurrent(Apply(s, a)) && !LateRetime(s, a)
  {
    var e := Apply(s, a);
    assert a.CallerStep? && s.callers[a.c].SetPoll? ==> e.callers[a.c] == Retime(e.pollMs);
    forall c | 0 <= c < |e.callers| && e.callers[c].Retime? ensures e.callers[c].ms == e.pollMs {
    }
  }

  /** In particular, it does as long as no two writers overlap. */
  lemma {:induction false} LoneWritersAreNeverLate(s: State, acts: seq<Action>, e: State)
    requires RetimersCurrent(s) && Runs(s, acts, e) && Along(s, acts, OneRetimer)
    ensures NeverLate(s, acts)
    decreases |acts|
  {
    if acts != [] {
      var next := Apply(s, acts[0]);
      assert OneRetimer(next) by {
        assert Along(next, acts[1..], OneRetimer);
      }
      RetimersStayCurrent(s, acts[0]);
      LoneWritersAreNeverLate(next, acts[1..], e);
    }
  }

  ghost predicate Reaches(s: State, e: State) {
    exists acts :: Runs(s, acts, e)
  }

  lemma Before(s: State, a: Action, e: State)
    requires Enabled(s, a) && Reaches(Apply(s, a), e)
    ensures Reaches(s, e)
  {
    var rest :| Runs(Apply(s, a), rest, e);
    assert ([a] + rest)[1..] == rest;
    assert Runs(s, [a] + rest, e);
  }

  /** Both writers have stored their intervals, the second one last; they re-time in that order. */
  lemma SecondRetimesFirst(s: State) returns (e: State)
    requires s.callers == [Retime(100), Retime(200)]
    ensures Reaches(s, e) && e.callers == [Out(OK), Out(OK)] && e.pollMs == s.pollMs && e.pending == Some(100)
  {
    var m := Apply(s, CallerStep(1, 0));
    e := Apply(m, CallerStep(0, 0));
    assert Runs(e, [], e);
    Before(m, CallerStep(0, 0), e);
    Before(s, CallerStep(1, 0), e);
  }

  /** With two overlapping writers it can fail: the one that stored first may re-time last. */
  lemma OverlappingWritersMistime()
    ensures exists e :: Reaches(Init(0, false, 500, 2), e)
              && !InForce(e) && e.pollMs == 200 && e.pending == Some(100) && e.callers == [Out(OK), Out(OK)]
  {
    var s0 := Init(0, false, 500, 2);
    var s1 := Apply(s0, Call(0, PollMs(100)));
    var s2 := Apply(s1, Call(1, PollMs(200)));
    var s3 := Apply(s2, CallerStep(0, 0));
    var s4 := Apply(s3, CallerStep(1, 0));
    assert s4.callers == [Retime(100), Retime(200)] && s4.pollMs == 200;
    var e := SecondRetimesFirst(s4);
    Before(s3, CallerStep(1, 0), e);
    Before(s2, CallerStep(0, 0), e);
    Before(s1, Call(1, PollMs(200)), e);
    Before(s0, Call(0, PollMs(100)), e);
  }

  // ---------------------------------------------------------------------------------------
  // When a new invert flag takes effect
  // ---------------------------------------------------------------------------------------

  /** Some writer is about to sample: it has stored the invert flag or read the button. */
  ghost predicate Syncing(s: State) {
    exists c :: 0 <= c < |s.callers| && (s.callers[c] == Reading(false) || s.callers[c].Got?)
  }

  /** Unless a writer is about to sample, the last sample used the current invert flag. */
  ghost predicate FlagInForce(s: State) {
    !Syncing(s) ==> s.device.used == s.device.invert
  }

  /** a is the failed button read of an invert writer while the flag is not yet in force, and nobody is left
      who is about to sample. */
  ghost predicate LostSync(s: State, a: Action)
    requires Enabled(s, a)
  {
    && a.CallerStep? && s.callers[a.c] == Reading(false) && a.value < 0
    && s.device.used != s.device.invert && !Syncing(Apply(s, a))
  }

  ghost predicate NeverLost(s: State, acts: seq<Action>)
    decreases |acts|
  {
    acts != [] ==> Enabled(s, acts[0]) && !LostSync(s, acts[0]) && NeverLost(Apply(s, acts[0]), acts[1..])
  }

  lemma HowSyncingChanges(s: State, a: Action)
    requires Enabled(s, a)
    ensures a.CallerStep? && s.callers[a.c].SetInvert? ==> Syncing(Apply(s, a))
    ensures Syncing(s) && !Syncing(Apply(s, a)) ==>
              a.CallerStep? && (s.callers[a.c].Got? || (s.callers[a.c] == Reading(false) && a.value < 0))
  {
    var e := Apply(s, a);
    if a.CallerStep? && (s.callers[a.c].SetInvert? || (s.callers[a.c].Reading? && a.value >= 0)) {
      assert e.callers[a.c] == Reading(false) || e.callers[a.c].Got?;
    }
    if Syncing(s) {
      var c :| 0 <= c < |s.callers| && (s.callers[c] == Reading(false) || s.callers[c].Got?);
      assert !(a.CallerStep? && a.c == c) ==> e.callers[c] == s.callers[c];
    }
  }

  lemma FlagStep(s: State, a: Action)
    requires FlagInForce(s) && Enabled(s, a)
    ensures FlagInForce(Apply(s, a)) <==> !LostSync(s, a)
  {
    HowSyncingChanges(s, a);
  }

  lemma {:induction false} FlagIffNeverLost(s: State, acts: seq<Action>, e: State)
    requires FlagInForce(s) && Runs(s, acts, e)
    ensures Along(s, acts, FlagInForce) <==> NeverLost(s, acts)
    decreases |acts|
  {
    if acts != [] {
      FlagStep(s, acts[0]);
      if !LostSync(s, acts[0]) {
        FlagIffNeverLost(Apply(s, acts[0]), acts[1..], e);
      }
    }
  }

  /** A new invert flag takes effect at once: whenever no writer is about to sample, the LED shows the
      sampled button under the current flag, if and only if no invert writer's button read failed while its
      flag was not yet in force and nobody else was about to sample. */
  lemma InvertTakesEffect(b: Bit, invert: bool, pollMs: nat, callers: nat, acts: seq<Action>, e: State)
    requires Runs(Init(b, invert, pollMs, callers), acts, e)
    ensures var s := Init(b, invert, pollMs, callers);
            Along(s, acts, FlagInForce) <==> NeverLost(s, acts)
    ensures FlagInForce(e) && !Syncing(e) ==> (e.device.pin == e.device.button <==> !e.device.invert)
  {
    FlagIffNeverLost(Init(b, invert, pollMs, callers), acts, e);
    MirroringAlways(Init(b, invert, pollMs, callers), acts, e);
  }
}
