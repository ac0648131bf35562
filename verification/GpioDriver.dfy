// 03_gpio_sim/gpioctrl.c as an object: the fields of struct gpioctrl_state, the LED pin and the work
// item, changed in place by the worker and by control writers one critical section at a time.

module GpioDriver {
  import opened Tally
  import opened GpioMirror

  class Driver {
    var button: int
    var led: int
    var pin: int
    var invert: bool
    var pollMs: nat
    var samples: nat
    var changes: nat
    var outputUpdates: nat
    var pending: Option<nat>
    var worker: Worker
    var callers: seq<Caller>
    ghost var used: bool
    ghost var buttons: seq<int>
    ghost var leds: seq<int>
    ghost var initCounted: bool

    ghost function Fields(): Device
      reads this
    {
      Device(button, led, pin, invert, samples, changes, outputUpdates, used, buttons, leds, initCounted)
    }

    ghost function Snapshot(): State
      reads this
    {
      State(Fields(), pollMs, pending, worker, callers)
    }

    /** All that the driver itself can see; no step depends on the history. */
    function Visible(): State
      reads this
    {
      State(Device(button, led, pin, invert, samples, changes, outputUpdates, false, [], [], false),
            pollMs, pending, worker, callers)
    }

    /** What every step of the worker and of every control writer keeps. */
    ghost predicate Valid()
      reads this
    {
      Mirroring(Fields()) && Polling(Snapshot())
    }

    /** gpioctrl_init() with b read from the button. */
    constructor (b: Bit, initialInvert: bool, initialPollMs: nat, callerCount: nat)
      ensures Valid() && Snapshot() == Init(b, initialInvert, initialPollMs, callerCount)
      ensures button == b && led == pin && (pin == b <==> !initialInvert)
      ensures samples == 1 && changes == 0 && outputUpdates == 0 && pending == Some(initialPollMs)
    {
      var initialLed := if initialInvert then 1 - b else b;
      button, led, pin, invert, pollMs := b, initialLed, initialLed, initialInvert, initialPollMs;
      samples, changes, outputUpdates := 1, 0, 0;
      pending, worker := Some(initialPollMs), WIdle;
      callers := seq(callerCount, i => Out(OK));
      used, buttons, leds, initCounted := initialInvert, [b], [initialLed], true;
    }

    /** The critical section of gpioctrl_sample_once(). */
    method SampleLocked(b: Bit)
      modifies this`button, this`led, this`pin, this`samples, this`changes, this`outputUpdates
      modifies this`used, this`buttons, this`leds
      ensures Fields() == Sample(old(Fields()), b)
    {
      var desiredLed := if invert then 1 - b else b;
      var changed := button != -1 && b != button;
      samples := samples + 1;
      if changed {
        changes := changes + 1;
      }
      if desiredLed != led {
        pin := desiredLed;
        led := desiredLed;
        outputUpdates := outputUpdates + 1;
      }
      button := b;
      used, buttons, leds := invert, buttons + [b], leds + [desiredLed];
    }

    /** The work item's timer expires. */
    method FireWork()
      requires pending.Some? && worker == WIdle
      modifies this`pending, this`worker
      ensures Snapshot() == Apply(old(Snapshot()), Fire)
    {
      pending, worker := None, WReading;
    }

    /** schedule_delayed_work(): does nothing if the work is already queued. */
    method Schedule(ms: nat)
      modifies this`pending
      ensures Snapshot() == old(Snapshot()).(pending := if old(pending).None? then Some(ms) else old(pending))
    {
      if pending.None? {
        pending := Some(ms);
      }
    }

    /** One step of gpioctrl_work_fn(); value is what the button read returns, if this is that step. */
    method RunWorker(value: Reading)
      requires worker != WIdle
      modifies this
      ensures Snapshot() == Apply(old(Snapshot()), WorkerStep(value))
    {
      match worker {
        case WReading => worker := if value < 0 then WSampled else WGot(value);
        case WGot(b) => SampleLocked(b); worker := WSampled;
        case WSampled => worker := WDelay(pollMs);
        case WDelay(ms) => Schedule(ms); worker := WIdle;
      }
    }

    method MoveTo(c: nat, pc: Caller)
      requires c < |callers|
      modifies this`callers
      ensures Snapshot() == Goto(old(Snapshot()), c, pc)
    {
      callers := callers[c := pc];
    }

    /** A control writer enters invert_store(), poll_ms_store() or gpioctrl_write(). */
    method Enter(c: nat, command: Command)
      requires c < |callers| && callers[c].Out?
      modifies this`callers
      ensures Snapshot() == Apply(old(Snapshot()), Call(c, command))
    {
      match command {
        case Sync => MoveTo(c, Reading(true));
        case Reset => MoveTo(c, ResetStats);
        case Invert(v) => MoveTo(c, SetInvert(v));
        case PollMs(v) =>
          if v < MIN_POLL_MS || v > MAX_POLL_MS {
            MoveTo(c, Out(ERANGE));
          } else {
            MoveTo(c, SetPoll(v));
          }
      }
    }

    method StoreInvert(v: bool)
      modifies this`invert
      ensures Fields() == old(Fields()).(invert := v)
    {
      invert := v;
    }

    /** The critical section of reset_stats. */
    method ClearStats()
      modifies this`samples, this`changes, this`outputUpdates, this`buttons, this`leds, this`initCounted
      ensures Fields() == Cleared(old(Fields()))
    {
      samples, changes, outputUpdates := 0, 0, 0;
      buttons, leds, initCounted := [button], [led], false;
    }

    /** One step of a control writer. */
    method RunCaller(c: nat, value: Reading)
      requires c < |callers| && !callers[c].Out?
      modifies this
      ensures Snapshot() == Apply(old(Snapshot()), CallerStep(c, value))
    {
      match callers[c] {
        case Reading(sync) =>
          if value >= 0 {
            MoveTo(c, Got(value));
          } else {
            MoveTo(c, Out(if sync then value else OK));
          }
        case Got(b) => SampleLocked(b); MoveTo(c, Out(OK));
        case SetInvert(v) => StoreInvert(v); MoveTo(c, Reading(false));
        case SetPoll(v) => pollMs := v; MoveTo(c, Retime(v));
        case Retime(v) => pending := Some(v); MoveTo(c, Out(OK));
        case ResetStats => ClearStats(); MoveTo(c, Out(OK));
      }
    }

    /** Whoever's step comes next, if it is possible at all. */
    method RunAny(a: Action)
      requires Valid()
      modifies this
      ensures Valid() && Snapshot() == Turn(old(Snapshot()), a)
    {
      if Enabled(Visible(), a) {
        MirroringKept(Snapshot(), a);
        match a {
          case Fire => FireWork();
          case WorkerStep(value) => RunWorker(value);
          case Call(c, command) => Enter(c, command);
          case CallerStep(c, value) => RunCaller(c, value);
        }
      }
    }

    method RunAll(schedule: seq<Action>)
      requires Valid()
      modifies this
      ensures Valid() && Snapshot() == Follow(old(Snapshot()), schedule, |schedule|)
    {
      var n := 0;
      while n < |schedule|
        invariant 0 <= n <= |schedule| && Valid()
        invariant Snapshot() == Follow(old(Snapshot()), schedule, n)
      {
        ghost var before := Snapshot();
        RunAny(schedule[n]);
        FollowNext(old(Snapshot()), schedule, n, before, Snapshot());
        n := n + 1;
      }
    }

    /** Drives the driver through any schedule of the worker and of control writers. Whenever the lock is free
        the LED pin is what the driver believes it to be, the sampled button or, under the invert flag of that
        sample, its opposite;
        changes and updates are no more than the samples, and odd exactly when button and LED differ from
        what they were at init or at the last reset; and the work item is queued or running. */
    method Drive(schedule: seq<Action>)
      requires Valid()
      modifies this
      ensures Valid() && Snapshot() == Follow(old(Snapshot()), schedule, |schedule|)
      ensures 0 <= button <= 1 && 0 <= pin <= 1 && led == pin && (pin == button <==> !used)
      ensures changes <= samples && outputUpdates <= samples
      ensures buttons != [] && (changes % 2 == 1 <==> button != buttons[0])
      ensures leds != [] && (outputUpdates % 2 == 1 <==> led != leds[0])
      ensures pending.Some? || worker != WIdle
    {
      RunAll(schedule);
      FlipsParity(buttons);
      FlipsParity(leds);
    }

    /** What a sample of b does to the fields. */
    twostate predicate Sampled(b: Bit)
      reads this
    {
      && button == b && 0 <= pin <= 1 && led == pin && (pin == b <==> !invert)
      && samples == old(samples) + 1
      && changes == old(changes) + (if b != old(button) then 1 else 0)
      && outputUpdates == old(outputUpdates) + if pin != old(pin) then 1 else 0
    }

    twostate predicate NotSampled()
      reads this
    {
      && button == old(button) && led == old(led) && pin == old(pin)
      && samples == old(samples) && changes == old(changes) && outputUpdates == old(outputUpdates)
    }

    twostate predicate TimingKept()
      reads this
    {
      pollMs == old(pollMs) && pending == old(pending) && worker == old(worker)
    }

    /** From the button read on: a sample, unless the read failed. */
    method SampleOnce(c: nat, value: Reading)
      requires Valid() && c < |callers| && callers[c].Reading?
      modifies this
      ensures Valid() && TimingKept() && invert == old(invert)
      ensures if value >= 0 then Sampled(value) else NotSampled()
      ensures callers == old(callers)[c := Out(if value < 0 && old(callers[c].sync) then value else OK)]
    {
      RunAny(CallerStep(c, value));
      if callers[c].Got? {
        RunAny(CallerStep(c, value));
      }
    }

    /** A write of invert, by a writer that nobody disturbs. */
    method InvertStore(c: nat, v: bool, value: Reading)
      requires Valid() && c < |callers| && callers[c].Out?
      modifies this
      ensures Valid() && TimingKept() && invert == v && callers == old(callers)[c := Out(OK)]
      ensures if value >= 0 then Sampled(value) else NotSampled()
    {
      EnterInvert(c, v);
      SampleOnce(c, value);
    }

    method EnterInvert(c: nat, v: bool)
      requires Valid() && c < |callers| && callers[c].Out?
      modifies this
      ensures Valid() && TimingKept() && NotSampled() && invert == v && callers == old(callers)[c := Reading(false)]
    {
      RunAny(Call(c, Invert(v)));
      RunAny(CallerStep(c, 0));
    }

    /** The sync command: its answer is the error of a failed read. */
    method SyncCommand(c: nat, value: Reading)
      requires Valid() && c < |callers| && callers[c].Out?
      modifies this
      ensures Valid() && TimingKept() && invert == old(invert)
      ensures callers == old(callers)[c := Out(if value < 0 then value else 0)]
      ensures if value >= 0 then Sampled(value) else NotSampled()
    {
      RunAny(Call(c, Sync));
      SampleOnce(c, value);
    }

    /** The reset_stats command. */
    method ResetCommand(c: nat)
      requires Valid() && c < |callers| && callers[c].Out?
      modifies this
      ensures Valid() && TimingKept() && invert == old(invert) && callers == old(callers)[c := Out(0)]
      ensures samples == 0 && changes == 0 && outputUpdates == 0
      ensures button == old(button) && led == old(led) && pin == old(pin)
    {
      RunAny(Call(c, Reset));
      RunAny(CallerStep(c, 0));
    }

    /** A write of poll_ms, by a writer that nobody disturbs. */
    method PollMsStore(c: nat, v: nat)
      requires Valid() && c < |callers| && callers[c].Out?
      modifies this
      ensures Valid() && NotSampled() && invert == old(invert) && worker == old(worker)
      ensures 10 <= v <= 60000 ==> pollMs == v && pending == Some(v) && callers == old(callers)[c := Out(0)]
      ensures !(10 <= v <= 60000) ==> TimingKept() && callers == old(callers)[c := Out(-34)]
    {
      RunAny(Call(c, PollMs(v)));
      if 10 <= v <= 60000 {
        FinishRetime(c, v);
      }
    }

    method FinishRetime(c: nat, v: nat)
      requires Valid() && c < |callers| && callers[c] == SetPoll(v)
      modifies this
      ensures Valid() && NotSampled() && invert == old(invert) && worker == old(worker)
      ensures pollMs == v && pending == Some(v) && callers == old(callers)[c := Out(0)]
    {
      RunAny(CallerStep(c, 0));
      RunAny(CallerStep(c, 0));
    }

    /** A whole run of the work item, undisturbed: it samples, unless the read failed, and queues itself again with
        the current interval in either case. */
    method WorkFn(value: Reading)
      requires Valid() && pending.Some? && worker == WIdle
      modifies this
      ensures Valid() && worker == WIdle && pending == Some(pollMs) && pollMs == old(pollMs)
      ensures invert == old(invert) && callers == old(callers)
      ensures if value >= 0 then Sampled(value) else NotSampled()
    {
      SampleByWorker(value);
      RunAny(WorkerStep(0));
      RunAny(WorkerStep(0));
    }

    method SampleByWorker(value: Reading)
      requires Valid() && pending.Some? && worker == WIdle
      modifies this
      ensures Valid() && worker == WSampled && pending.None? && pollMs == old(pollMs)
      ensures invert == old(invert) && callers == old(callers)
      ensures if value >= 0 then Sampled(value) else NotSampled()
    {
      RunAny(Fire);
      RunAny(WorkerStep(value));
      if worker.WGot? {
        RunAny(WorkerStep(0));
      }
    }
  }
}
