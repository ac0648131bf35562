// What read() and poll() of the blocking event device answer, seen from the call: over every interleaving, from
// the moment a task enters the call.

module BlockingAnswers {
  import opened Tally
  import opened BlockingEvents

  /** Task i begins no further call. */
  ghost predicate BeginsNothing(acts: seq<Action>, i: nat) {
    forall k :: 0 <= k < |acts| ==> !(acts[k].BeginRead? && acts[k].i == i) && acts[k] != BeginPoll(i)
  }

  /** Somewhere in the run task i does its exchange and finds the flag down. */
  ghost predicate FoundDown(s: State, acts: seq<Action>, i: nat)
    decreases |acts|
  {
    acts != [] && Enabled(s, acts[0]) &&
    ((acts[0] == Step(i) && s.tasks[i].pc == AtXchg && !s.ready) || FoundDown(Apply(s, acts[0]), acts[1..], i))
  }

  /** Somewhere in the run task i takes a step of its poll while the flag is up. */
  ghost predicate FoundUp(s: State, acts: seq<Action>, i: nat)
    decreases |acts|
  {
    acts != [] && Enabled(s, acts[0]) &&
    ((acts[0] == Step(i) && s.ready) || FoundUp(Apply(s, acts[0]), acts[1..], i))
  }

  // ---------------------------------------------------------------------------------------
  // read()
  // ---------------------------------------------------------------------------------------

  /** t is inside a read() with this flag, or has returned from it; `before` is what it had reported before. */
  ghost predicate InRead(t: Task, nonblock: bool, signalled: bool, down: bool, before: seq<Report>) {
    && t.nonblock == nonblock && (t.signal ==> signalled)
    && !t.pc.PollEnter? && !t.pc.PollTest? && !t.pc.PollAsleep?
    && (t.pc.AtFlags? ==> down)
    && (Waiting(t.pc) ==> !nonblock)
    && (t.pc == Leaving(true) || (t.pc.Test? && t.pc.interrupted) ==> signalled)
    && (t.pc.Idle? <==> t.outcome != Nothing)
    && (if t.outcome.Event? then |t.seen| == |before| + 1 && t.seen == before + [t.seen[|before|]]
                                 && t.outcome.id == t.seen[|before|].id
        else t.seen == before)
    && t.outcome != Readable
    && (t.outcome == Again ==> nonblock && down)
    && (t.outcome == Interrupted ==> !nonblock && signalled)
  }

  lemma InReadOwnStep(s: State, i: nat, nonblock: bool, signalled: bool, down: bool, before: seq<Report>)
    requires Enabled(s, Step(i)) && InRead(s.tasks[i], nonblock, signalled, down, before)
    ensures i < |Apply(s, Step(i)).tasks|
    ensures InRead(Apply(s, Step(i)).tasks[i], nonblock, signalled,
                   down || (s.tasks[i].pc == AtXchg && !s.ready), before)
  {
  }

  lemma InReadStep(s: State, a: Action, i: nat, nonblock: bool, signalled: bool, down: bool, before: seq<Report>)
    requires Enabled(s, a) && i < |s.tasks| && InRead(s.tasks[i], nonblock, signalled, down, before)
    requires BeginsNothing([a], i)
    ensures i < |Apply(s, a).tasks|
    ensures InRead(Apply(s, a).tasks[i], nonblock, signalled || a == Signal(i),
                   down || (a == Step(i) && s.tasks[i].pc == AtXchg && !s.ready), before)
  {
    assert [a][0] == a;
    if a == Step(i) {
      InReadOwnStep(s, i, nonblock, signalled, down, before);
    } else {
      OthersOnlyWake(s, a, i);
    }
  }

  lemma {:induction false} InReadAlways(s: State, acts: seq<Action>, e: State, i: nat, nonblock: bool,
        signalled: bool, down: bool, before: seq<Report>)
    requires Runs(s, acts, e) && BeginsNothing(acts, i)
    requires i < |s.tasks| && InRead(s.tasks[i], nonblock, signalled, down, before)
    ensures i < |e.tasks|
    ensures InRead(e.tasks[i], nonblock, signalled || Signal(i) in acts, down || FoundDown(s, acts, i), before)
    decreases |acts|
  {
    if acts != [] {
      var a := acts[0];
      assert BeginsNothing([a], i) && BeginsNothing(acts[1..], i);
      assert Signal(i) in acts <==> a == Signal(i) || Signal(i) in acts[1..] by {
        assert acts == [a] + acts[1..];
      }
      InReadStep(s, a, i, nonblock, signalled, down, before);
      InReadAlways(Apply(s, a), acts[1..], e, i, nonblock, signalled || a == Signal(i),
                   down || (a == Step(i) && s.tasks[i].pc == AtXchg && !s.ready), before);
    }
  }

  /** Who waits and who is told what: in every run in which task i enters read(), whatever everybody else does,
      only a blocking read ever waits, so that only it is counted by the waiters attribute; only a non-blocking
      one answers -EAGAIN, and only having found the flag down; only a signal interrupts; and an answer with an
      event is the task's one new report, while any other answer reports nothing. */
  lemma ReadAnswers(tasks: nat, producers: nat, past: seq<Action>, s: State, i: nat, nonblock: bool,
        acts: seq<Action>, e: State)
    requires Runs(Start(tasks, producers), past, s) && Enabled(s, BeginRead(i, nonblock))
    requires Runs(Apply(s, BeginRead(i, nonblock)), acts, e) && BeginsNothing(acts, i)
    ensures i < |e.tasks| && (e.tasks[i].pc.Idle? <==> e.tasks[i].outcome != Nothing)
    ensures nonblock ==> !Waiting(e.tasks[i].pc)
    ensures e.tasks[i].outcome == Again ==> nonblock && FoundDown(Apply(s, BeginRead(i, nonblock)), acts, i)
    ensures e.tasks[i].outcome == Interrupted ==> !nonblock && Signal(i) in acts
    ensures e.tasks[i].outcome.Event? ==>
              && |e.tasks[i].seen| == |s.tasks[i].seen| + 1 && s.tasks[i].seen <= e.tasks[i].seen
              && e.tasks[i].outcome.id == e.tasks[i].seen[|s.tasks[i].seen|].id
    ensures !e.tasks[i].outcome.Event? ==> e.tasks[i].seen == s.tasks[i].seen
    ensures e.tasks[i].outcome != Readable
  {
    EveryStateIsSound(tasks, producers, past, s);
    assert AnswersRight(s.tasks[i]);
    var m := Apply(s, BeginRead(i, nonblock));
    InReadAlways(m, acts, e, i, nonblock, false, false, s.tasks[i].seen);
  }

  /** The steps that task i takes in a run. */
  function StepsBy(acts: seq<Action>, i: nat): nat {
    if acts == [] then 0 else StepsBy(acts[1..], i) + if acts[0] == Step(i) then 1 else 0
  }

  function StepsToAnswer(pc: Pc): nat {
    if pc.AtXchg? then 2 else if pc.AtFlags? || pc.ReadId? then 1 else 0
  }

  lemma {:induction false} NonblockDescends(s: State, acts: seq<Action>, e: State, i: nat, signalled: bool,
        down: bool, before: seq<Report>)
    requires Runs(s, acts, e) && BeginsNothing(acts, i)
    requires i < |s.tasks| && InRead(s.tasks[i], true, signalled, down, before)
    ensures i < |e.tasks| && StepsBy(acts, i) + StepsToAnswer(e.tasks[i].pc) == StepsToAnswer(s.tasks[i].pc)
    ensures e.tasks[i].pc.Idle? <==> StepsToAnswer(e.tasks[i].pc) == 0
    decreases |acts|
  {
    if acts != [] {
      var a := acts[0];
      assert BeginsNothing([a], i) && BeginsNothing(acts[1..], i);
      InReadStep(s, a, i, true, signalled, down, before);
      NonblockMoves(s, a, i);
      NonblockDescends(Apply(s, a), acts[1..], e, i, signalled || a == Signal(i),
                       down || (a == Step(i) && s.tasks[i].pc == AtXchg && !s.ready), before);
    }
  }

  lemma NonblockMoves(s: State, a: Action, i: nat)
    requires Enabled(s, a) && i < |s.tasks| && s.tasks[i].nonblock && BeginsNothing([a], i)
    requires !Waiting(s.tasks[i].pc)
    requires !s.tasks[i].pc.PollEnter? && !s.tasks[i].pc.PollTest? && !s.tasks[i].pc.PollAsleep?
    ensures StepsToAnswer(Apply(s, a).tasks[i].pc) + (if a == Step(i) then 1 else 0) == StepsToAnswer(s.tasks[i].pc)
  {
    assert [a][0] == a;
  }

  /** A non-blocking read answers with its second step, whatever happens around it. */
  lemma NonblockAnswersAtOnce(tasks: nat, producers: nat, past: seq<Action>, s: State, i: nat, acts: seq<Action>,
        e: State)
    requires Runs(Start(tasks, producers), past, s) && Enabled(s, BeginRead(i, true))
    requires Runs(Apply(s, BeginRead(i, true)), acts, e) && BeginsNothing(acts, i)
    ensures i < |e.tasks| && StepsBy(acts, i) <= 2
    ensures e.tasks[i].outcome != Nothing <==> StepsBy(acts, i) == 2
  {
    EveryStateIsSound(tasks, producers, past, s);
    assert AnswersRight(s.tasks[i]);
    var m := Apply(s, BeginRead(i, true));
    InReadAlways(m, acts, e, i, true, false, false, s.tasks[i].seen);
    NonblockDescends(m, acts, e, i, false, false, s.tasks[i].seen);
  }

  /** The event answered is the value of event_id at the moment of the answer. */
  lemma EventIsCurrent(s: State, a: Action, i: nat)
    requires Enabled(s, a) && i < |s.tasks| && s.tasks[i].outcome == Nothing
    requires Apply(s, a).tasks[i].outcome.Event?
    ensures a == Step(i) && Apply(s, a).tasks[i].outcome.id == s.eventId
  {
  }

  // ---------------------------------------------------------------------------------------
  // poll()
  // ---------------------------------------------------------------------------------------

  ghost predicate InPoll(t: Task, signalled: bool, up: bool, before: seq<Report>) {
    && (t.signal ==> signalled) && t.seen == before
    && (t.pc.Idle? || t.pc.PollEnter? || t.pc.PollTest? || t.pc.PollAsleep?)
    && (t.pc.Idle? <==> t.outcome != Nothing)
    && (t.pc.Idle? ==> (t.outcome == Readable && up) || (t.outcome == Interrupted && signalled))
  }

  lemma InPollStep(s: State, a: Action, i: nat, signalled: bool, up: bool, before: seq<Report>)
    requires Enabled(s, a) && i < |s.tasks| && InPoll(s.tasks[i], signalled, up, before)
    requires BeginsNothing([a], i)
    ensures i < |Apply(s, a).tasks|
    ensures InPoll(Apply(s, a).tasks[i], signalled || a == Signal(i), up || (a == Step(i) && s.ready), before)
  {
    assert [a][0] == a;
    if a != Step(i) {
      OthersOnlyWake(s, a, i);
    }
  }

  lemma {:induction false} InPollAlways(s: State, acts: seq<Action>, e: State, i: nat, signalled: bool, up: bool,
        before: seq<Report>)
    requires Runs(s, acts, e) && BeginsNothing(acts, i)
    requires i < |s.tasks| && InPoll(s.tasks[i], signalled, up, before)
    ensures i < |e.tasks|
    ensures InPoll(e.tasks[i], signalled || Signal(i) in acts, up || FoundUp(s, acts, i), before)
    decreases |acts|
  {
    if acts != [] {
      var a := acts[0];
      assert BeginsNothing([a], i) && BeginsNothing(acts[1..], i);
      InPollStep(s, a, i, signalled, up, before);
      assert Signal(i) in acts <==> a == Signal(i) || Signal(i) in acts[1..] by {
        assert acts == [a] + acts[1..];
      }
      InPollAlways(Apply(s, a), acts[1..], e, i, signalled || a == Signal(i), up || (a == Step(i) && s.ready), before);
    }
  }

  /** A poll consumes and reports nothing; it says readable only having found the flag up, and is interrupted
      only by a signal. */
  lemma PollAnswers(tasks: nat, producers: nat, past: seq<Action>, s: State, i: nat, acts: seq<Action>, e: State)
    requires Runs(Start(tasks, producers), past, s) && Enabled(s, BeginPoll(i))
    requires Runs(Apply(s, BeginPoll(i)), acts, e) && BeginsNothing(acts, i)
    ensures i < |e.tasks| && (e.tasks[i].pc.Idle? <==> e.tasks[i].outcome != Nothing)
    ensures e.tasks[i].seen == s.tasks[i].seen
    ensures e.tasks[i].outcome != Nothing ==>
              || (e.tasks[i].outcome == Readable && FoundUp(Apply(s, BeginPoll(i)), acts, i))
              || (e.tasks[i].outcome == Interrupted && Signal(i) in acts)
  {
    EveryStateIsSound(tasks, producers, past, s);
    assert AnswersRight(s.tasks[i]);
    InPollAlways(Apply(s, BeginPoll(i)), acts, e, i, false, false, s.tasks[i].seen);
  }
}
