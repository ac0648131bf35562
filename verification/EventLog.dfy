// The bounded event log of 06_procfs_seqfile/procfs_seqfile.c and the seq_file iterator that walks
// it, driven as that file's own comment says the kernel drives it.

module EventLog {
  import opened Tally

  const MAX_EVENTS: nat := 64

  datatype Event = Event(ns: nat, pid: int, comm: string)

  /** What events_seq_show() prints of an event. */
  datatype Record = Record(sec: nat, usec: nat, comm: string, pid: int)

  function Show(ev: Event): Record {
    Record(ev.ns / 1000000000, (ev.ns % 1000000000) / 1000, ev.comm, ev.pid)
  }

  function ShowAll(evs: seq<Event>): (r: seq<Record>)
    ensures |r| == |evs| && forall i :: 0 <= i < |r| ==> r[i] == Show(evs[i])
  {
    seq(|evs|, i requires 0 <= i < |evs| => Show(evs[i]))
  }

  /** The log after these opens since the last clear: the first 64 of them. */
  function Kept(opens: seq<Event>): seq<Event> {
    opens[..Min(|opens|, MAX_EVENTS)]
  }

  class Log {
    const events: array<Event>
    var eventCount: nat
    var totalOpens: nat
    var locked: bool
    ghost var opens: seq<Event>  // the opens since the last clear
    ghost var acquired: nat      // how often events_lock has been taken, and released
    ghost var released: nat

    ghost predicate Valid()
      reads this, events
    {
      && events.Length == MAX_EVENTS && eventCount <= MAX_EVENTS
      && events[..eventCount] == Kept(opens)
      && acquired == released + if locked then 1 else 0
    }

    constructor (blank: Event)
      ensures Valid() && !locked && opens == [] && totalOpens == 0 && fresh(events)
    {
      events := new Event[MAX_EVENTS](i => blank);
      eventCount, totalOpens, locked := 0, 0, false;
      opens, acquired, released := [], 0, 0;
    }

    method Lock()
      requires !locked
      modifies this`locked, this`acquired
      ensures locked && acquired == old(acquired) + 1
    {
      locked, acquired := true, acquired + 1;
    }

    method Unlock()
      requires locked
      modifies this`locked, this`released
      ensures !locked && released == old(released) + 1
    {
      locked, released := false, released + 1;
    }

    /** record_event(): every open is counted, the first 64 since a clear are kept. */
    method RecordEvent(ev: Event)
      requires Valid() && !locked
      modifies this`eventCount, this`totalOpens, this`locked, this`opens, this`acquired, this`released, events
      ensures Valid() && !locked
      ensures opens == old(opens) + [ev] && totalOpens == old(totalOpens) + 1
      ensures eventCount == old(eventCount) + if old(eventCount) < 64 then 1 else 0
      ensures old(eventCount) < 64 ==> events[old(eventCount)] == ev
      ensures acquired == old(acquired) + 1 && released == old(released) + 1
    {
      Lock();
      totalOpens := totalOpens + 1;
      if eventCount < MAX_EVENTS {
        events[eventCount] := ev;
        eventCount := eventCount + 1;
      }
      opens := opens + [ev];
      Unlock();
    }

    /** A write of "clear". */
    method Clear()
      requires Valid() && !locked
      modifies this`eventCount, this`locked, this`opens, this`acquired, this`released
      ensures Valid() && !locked && opens == [] && eventCount == 0 && totalOpens == old(totalOpens)
      ensures acquired == old(acquired) + 1 && released == old(released) + 1
    {
      Lock();
      eventCount := 0;
      opens := [];
      Unlock();
    }

    /** start(): takes the lock, whether or not there is an element at pos. */
    method Start(pos: nat) returns (element: Option<nat>)
      requires Valid() && !locked
      modifies this`locked, this`acquired
      ensures Valid() && locked && acquired == old(acquired) + 1
      ensures element == if pos < |Kept(opens)| then Some(pos) else None
    {
      Lock();
      assert eventCount == |Kept(opens)|;
      return if pos >= eventCount then None else Some(pos);
    }

    method Next(pos: nat) returns (element: Option<nat>, newPos: nat)
      requires Valid() && locked
      ensures newPos == pos + 1
      ensures element == if newPos < |Kept(opens)| then Some(newPos) else None
    {
      newPos := pos + 1;
      assert eventCount == |Kept(opens)|;
      return if newPos >= eventCount then None else Some(newPos), newPos;
    }

    method ShowElement(element: nat) returns (r: Record)
      requires Valid() && locked && element < |Kept(opens)|
      ensures r == Show(Kept(opens)[element])
      ensures r.pid == events[element].pid && r.comm == events[element].comm
      ensures 1000000 * r.sec + r.usec == events[element].ns / 1000 && r.usec < 1000000
    {
      assert eventCount == |Kept(opens)|;
      var ev := events[element];
      assert ev == events[..eventCount][element];
      var sec := ev.ns / 1000000000;
      var usec := (ev.ns % 1000000000) / 1000;
      ShowIsFaithful(ev);
      return Record(sec, usec, ev.comm, ev.pid);
    }

    method Stop()
      requires Valid() && locked
      modifies this`locked, this`released
      ensures Valid() && !locked && released == old(released) + 1
    {
      Unlock();
    }

    /** One read(): start, then show and next until there is no element or room for no more than
        budget records, then stop. The lock is taken once and released once, also when start yields
        nothing; the records shown are the next slice of the log; and pos moves past them. */
    method Session(pos: nat, budget: nat) returns (out: seq<Record>, newPos: nat)
      requires Valid() && !locked
      modifies this`locked, this`acquired, this`released
      ensures Valid() && !locked
      ensures acquired == old(acquired) + 1 && released == old(released) + 1
      ensures newPos == pos + |out|
      ensures pos >= |Kept(opens)| ==> out == []
      ensures pos < |Kept(opens)| ==> out == ShowAll(Kept(opens)[pos..pos + Min(budget, |Kept(opens)| - pos)])
    {
      out, newPos := [], pos;
      var element := Start(pos);
      while element.Some? && |out| < budget
        invariant Valid() && locked
        invariant acquired == old(acquired) + 1 && released == old(released)
        invariant newPos == pos + |out|
        invariant element == if newPos < |Kept(opens)| then Some(newPos) else None
        invariant pos >= |Kept(opens)| ==> out == []
        invariant pos < |Kept(opens)| ==>
                    newPos <= |Kept(opens)| && |out| <= budget && out == ShowAll(Kept(opens)[pos..newPos])
        decreases budget - |out|
      {
        var r := ShowElement(element.value);
        out := out + [r];
        element, newPos := Next(newPos);
      }
      Stop();
    }

    method TakeStep(out: seq<Record>, pos: nat, step: Step) returns (newOut: seq<Record>, newPos: nat)
      requires Valid() && !locked
      modifies this`eventCount, this`totalOpens, this`locked, this`opens, this`acquired, this`released, events
      ensures Valid() && !locked
      ensures Walker(opens, newPos, newOut) == WalkStep(Walker(old(opens), pos, out), step)
      ensures acquired == old(acquired) + 1 && released == old(released) + 1
    {
      newOut, newPos := out, pos;
      match step {
        case Read(budget) =>
          var more;
          more, newPos := Session(pos, budget);
          newOut := out + more;
        case Open(ev) => RecordEvent(ev);
        case ClearLog => Clear();
      }
    }

    /** Whole reads of one open file, with other opens recorded and other writers clearing in between,
        as a given schedule says. */
    method Traverse(schedule: seq<Step>) returns (out: seq<Record>, pos: nat)
      requires Valid() && !locked
      modifies this`eventCount, this`totalOpens, this`locked, this`opens, this`acquired, this`released, events
      ensures Valid() && !locked
      ensures var w := Walk(Walker(old(opens), 0, []), schedule, |schedule|);
              opens == w.opens && pos == w.pos && out == w.out
      ensures acquired - old(acquired) == released - old(released) == |schedule|
    {
      out, pos := [], 0;
      var i := 0;
      while i < |schedule|
        invariant 0 <= i <= |schedule| && Valid() && !locked
        invariant Walker(opens, pos, out) == Walk(Walker(old(opens), 0, []), schedule, i)
        invariant acquired - old(acquired) == released - old(released) == i
      {
        out, pos := TakeStep(out, pos, schedule[i]);
        i := i + 1;
      }
    }
  }

  // ---------------------------------------------------------------------------------------
  // Traversals as values
  // ---------------------------------------------------------------------------------------

  /** Between two reads of the traversing file: a read of at most budget records, somebody's open, or
      somebody's clear. */
  datatype Step = Read(budget: nat) | Open(ev: Event) | ClearLog

  datatype Walker = Walker(opens: seq<Event>, pos: nat, out: seq<Record>)

  function WalkStep(w: Walker, step: Step): Walker {
    match step
    case Read(budget) =>
      var log := Kept(w.opens);
      if w.pos >= |log| then w
      else
        var n := Min(budget, |log| - w.pos);
        Walker(w.opens, w.pos + n, w.out + ShowAll(log[w.pos..w.pos + n]))
    case Open(ev) => w.(opens := w.opens + [ev])
    case ClearLog => w.(opens := [])
  }

  /** After the first n steps of a schedule. */
  function Walk(w: Walker, schedule: seq<Step>, n: nat): Walker
    requires n <= |schedule|
  {
    if n == 0 then w else WalkStep(Walk(w, schedule, n - 1), schedule[n - 1])
  }

  /** A read of positive size at w would return nothing. */
  predicate AtEnd(w: Walker) {
    w.pos >= |Kept(w.opens)|
  }

  /** Opens only ever extend the log; what is in it stays where it is. */
  lemma LogOnlyGrows(opens: seq<Event>, ev: Event)
    ensures |Kept(opens)| <= |Kept(opens + [ev])|
    ensures Kept(opens + [ev])[..|Kept(opens)|] == Kept(opens)
  {
  }

  lemma ShowAllJoins(a: seq<Event>, b: seq<Event>)
    ensures ShowAll(a + b) == ShowAll(a) + ShowAll(b)
  {
  }

  /** What has been emitted is the log up to pos. */
  ghost predicate EmittedPrefix(w: Walker) {
    w.pos <= |Kept(w.opens)| && w.out == ShowAll(Kept(w.opens)[..w.pos])
  }

  lemma ReadKeepsPrefix(w: Walker, budget: nat)
    requires EmittedPrefix(w)
    ensures EmittedPrefix(WalkStep(w, Read(budget)))
  {
    var log := Kept(w.opens);
    var k := Min(budget, |log| - w.pos);
    ShowAllJoins(log[..w.pos], log[w.pos..w.pos + k]);
    assert log[..w.pos] + log[w.pos..w.pos + k] == log[..w.pos + k];
  }

  lemma OpenKeepsPrefix(w: Walker, ev: Event)
    requires EmittedPrefix(w)
    ensures EmittedPrefix(WalkStep(w, Open(ev)))
  {
    LogOnlyGrows(w.opens, ev);
    assert Kept(w.opens + [ev])[..w.pos] == Kept(w.opens)[..w.pos];
  }

  /** Where the traversal of a log that holds start has got to after the first n steps. */
  function At(start: seq<Event>, schedule: seq<Step>, n: nat): Walker
    requires n <= |schedule|
  {
    Walk(Walker(start, 0, []), schedule, n)
  }

  /** Nobody has cleared the log among the first n steps unless the traversing file had read nothing yet. */
  ghost predicate ClearedOnlyUnread(start: seq<Event>, schedule: seq<Step>, n: nat)
    requires n <= |schedule|
  {
    forall i :: 0 <= i < n && schedule[i].ClearLog? ==> At(start, schedule, i).pos == 0
  }

  /** As long as clears come only before the first read, what has been emitted is exactly the log up to pos. */
  lemma {:induction false} EmittedIsPrefix(start: seq<Event>, schedule: seq<Step>, n: nat)
    requires n <= |schedule| && ClearedOnlyUnread(start, schedule, n)
    ensures EmittedPrefix(At(start, schedule, n))
  {
    if n > 0 {
      EmittedIsPrefix(start, schedule, n - 1);
      var w := At(start, schedule, n - 1);
      match schedule[n - 1] {
        case Read(budget) => ReadKeepsPrefix(w, budget);
        case Open(ev) => OpenKeepsPrefix(w, ev);
        case ClearLog =>
      }
    }
  }

  /** Every event that has been in the log at any time: those at the start, and those opened since. */
  function History(start: seq<Event>, schedule: seq<Step>, n: nat): seq<Event>
    requires n <= |schedule|
  {
    if n == 0 then start
    else History(start, schedule, n - 1) + if schedule[n - 1].Open? then [schedule[n - 1].ev] else []
  }

  /** The log consists of the last events of the history: those since the last clear. */
  ghost predicate IsRecent(opens: seq<Event>, history: seq<Event>) {
    |opens| <= |history| && forall i :: 0 <= i < |opens| ==> opens[i] == history[|history| - |opens| + i]
  }

  lemma {:induction false} OpensAreRecent(start: seq<Event>, schedule: seq<Step>, n: nat)
    requires n <= |schedule|
    ensures IsRecent(At(start, schedule, n).opens, History(start, schedule, n))
  {
    if n > 0 {
      OpensAreRecent(start, schedule, n - 1);
    }
  }

  /** The first record emitted is of an event that has been cleared since. */
  ghost predicate Stale(w: Walker, history: seq<Event>) {
    && |w.opens| <= |history| && w.out != []
    && exists k :: 0 <= k < |history| - |w.opens| && w.out[0] == Show(history[k])
  }

  /** Clearing a log that has been read from leaves a record of an event that is gone. */
  lemma ClearMakesStale(w: Walker, history: seq<Event>)
    requires EmittedPrefix(w) && w.pos > 0 && IsRecent(w.opens, history)
    ensures Stale(WalkStep(w, ClearLog), history)
  {
    assert w.out[0] == Show(w.opens[0]) == Show(history[|history| - |w.opens|]);
  }

  lemma StaleStays(w: Walker, history: seq<Event>, step: Step)
    requires Stale(w, history)
    ensures Stale(WalkStep(w, step), history + if step.Open? then [step.ev] else [])
  {
    var next := history + if step.Open? then [step.ev] else [];
    var k :| 0 <= k < |history| - |w.opens| && w.out[0] == Show(history[k]);
    assert next[k] == history[k] && WalkStep(w, step).out[0] == w.out[0];
  }

  /** Once the log has been cleared after the first read, the traversal stays stale. */
  lemma {:induction false} ClearedLateIsStale(start: seq<Event>, schedule: seq<Step>, n: nat)
    requires n <= |schedule| && !ClearedOnlyUnread(start, schedule, n)
    ensures Stale(At(start, schedule, n), History(start, schedule, n))
  {
    var w, history := At(start, schedule, n - 1), History(start, schedule, n - 1);
    if ClearedOnlyUnread(start, schedule, n - 1) {
      EmittedIsPrefix(start, schedule, n - 1);
      OpensAreRecent(start, schedule, n - 1);
      ClearMakesStale(w, history);
      assert history + [] == history;
    } else {
      ClearedLateIsStale(start, schedule, n - 1);
      StaleStays(w, history, schedule[n - 1]);
    }
  }

  ghost predicate DistinctRecords(evs: seq<Event>) {
    forall i, j :: 0 <= i < j < |evs| ==> Show(evs[i]) != Show(evs[j])
  }

  lemma StaleIsNotTheLog(w: Walker, history: seq<Event>)
    requires Stale(w, history) && IsRecent(w.opens, history) && DistinctRecords(history)
    ensures w.out != ShowAll(Kept(w.opens))
  {
    var k :| 0 <= k < |history| - |w.opens| && w.out[0] == Show(history[k]);
    if w.opens != [] {
      assert Show(w.opens[0]) == Show(history[|history| - |w.opens|]) != Show(history[k]);
      assert ShowAll(Kept(w.opens))[0] == Show(w.opens[0]);
    }
  }

  /** Reading to end of file, in any number of sessions of any sizes, with any opens recorded and any clears
      made in between, emits exactly the final log, each event once and in order, if clears came only before
      the first read; and when no two events print alike, only if. */
  lemma TraversalEmitsTheLog(start: seq<Event>, schedule: seq<Step>)
    requires AtEnd(At(start, schedule, |schedule|))
    ensures var w := At(start, schedule, |schedule|);
            && (ClearedOnlyUnread(start, schedule, |schedule|) ==> w.out == ShowAll(Kept(w.opens)))
            && (DistinctRecords(History(start, schedule, |schedule|)) ==>
                  (w.out == ShowAll(Kept(w.opens)) <==> ClearedOnlyUnread(start, schedule, |schedule|)))
  {
    var n := |schedule|;
    var w, history := At(start, schedule, n), History(start, schedule, n);
    if ClearedOnlyUnread(start, schedule, n) {
      EmittedIsPrefix(start, schedule, n);
      assert Kept(w.opens)[..w.pos] == Kept(w.opens);
    } else if DistinctRecords(history) {
      ClearedLateIsStale(start, schedule, n);
      OpensAreRecent(start, schedule, n);
      StaleIsNotTheLog(w, history);
    }
  }

  /** The log is the first 64 opens since the last clear: with no clear, of all there were. */
  lemma {:induction false} LogWithoutClears(start: seq<Event>, schedule: seq<Step>, n: nat)
    requires n <= |schedule| && forall i :: 0 <= i < n ==> !schedule[i].ClearLog?
    ensures At(start, schedule, n).opens == History(start, schedule, n)
  {
    if n > 0 {
      LogWithoutClears(start, schedule, n - 1);
    }
  }

  /** In a row of reads of positive size, each makes progress until the end. */
  lemma {:induction false} ReadsMakeProgress(start: seq<Event>, schedule: seq<Step>, m: nat, n: nat)
    requires m <= n <= |schedule|
    requires forall i :: m <= i < n ==> schedule[i].Read? && schedule[i].budget > 0
    ensures AtEnd(At(start, schedule, n)) || At(start, schedule, n).pos >= n - m
    decreases n
  {
    if n > m {
      ReadsMakeProgress(start, schedule, m, n - 1);
    }
  }

  /** 64 reads of positive size in a row reach the end, whatever went before and however small they are. */
  lemma SixtyFourReadsSuffice(start: seq<Event>, schedule: seq<Step>, m: nat)
    requires m + MAX_EVENTS <= |schedule|
    requires forall i :: m <= i < |schedule| ==> schedule[i].Read? && schedule[i].budget > 0
    ensures AtEnd(At(start, schedule, |schedule|))
  {
    ReadsMakeProgress(start, schedule, m, |schedule|);
  }

  /** A clear in the middle breaks it: the position survives the clear, and the events recorded
      after it are skipped. */
  lemma ClearSkipsEvents(a: Event, b: Event)
    ensures var w := Walk(Walker([a], 0, []), [Read(1), ClearLog, Open(b)], 3);
            AtEnd(w) && w.out == [Show(a)] && ShowAll(Kept(w.opens)) == [Show(b)]
  {
    var w, s := Walker([a], 0, []), [Read(1), ClearLog, Open(b)];
    assert Kept([a])[0..1] == [a] && [] + ShowAll([a]) == [Show(a)];
    assert Walk(w, s, 1) == Walker([a], 1, [Show(a)]);
    assert Walk(w, s, 2) == Walker([], 1, [Show(a)]);
    assert [] + [b] == [b];
  }

  /** A printed record names the event's task and gives its time stamp, cut to whole microseconds. */
  lemma ShowIsFaithful(ev: Event)
    ensures Show(ev).comm == ev.comm && Show(ev).pid == ev.pid
    ensures Show(ev).usec < 1000000
    ensures Show(ev).sec * 1000000 + Show(ev).usec == ev.ns / 1000
  {
    var s := ev.ns / 1000000000;
    var r := ev.ns % 1000000000;
    assert ev.ns == s * 1000000000 + r;
    assert ev.ns / 1000 == s * 1000000 + r / 1000;
  }

  /** Two events print alike exactly when they are of the same task in the same microsecond. */
  lemma PrintAlike(a: Event, b: Event)
    ensures Show(a) == Show(b) <==> a.comm == b.comm && a.pid == b.pid && a.ns / 1000 == b.ns / 1000
  {
    ShowIsFaithful(a);
    ShowIsFaithful(b);
  }

  /** The log has room for 64: it holds that many of the opens since the last clear, the first ones. */
  lemma LogHolds64(opens: seq<Event>)
    ensures |Kept(opens)| == if |opens| < 64 then |opens| else 64
    ensures forall i :: 0 <= i < |Kept(opens)| ==> Kept(opens)[i] == opens[i]
  {
  }
}
