// The overwriting ring of 15_kthreads/kthreads.c as values: every access runs under ring_lock, so a
// run is a sequence of whole productions and drains, by any number of producers and readers.

module RingHistory {
  import opened Tally

  const RING_SIZE: nat := 16

  datatype Item = Item(num: nat, ns: nat)

  /** live: the buffered items, oldest first. batches and droppedAt are history: what each drain took,
      and what dropped_count was at that moment. */
  datatype Ring = Ring(
    live: seq<Item>, nextSeq: nat, dropped: nat,
    batches: seq<seq<Item>>, droppedAt: seq<nat>)

  datatype Action = Produce(ns: nat) | Drain

  const EMPTY: Ring := Ring([], 0, 0, [], [])

  function Perform(r: Ring, a: Action): Ring {
    match a
    case Produce(ns) =>
      var item := Item(r.nextSeq, ns);
      if |r.live| < RING_SIZE then r.(live := r.live + [item], nextSeq := r.nextSeq + 1)
      else r.(live := r.live[1..] + [item], nextSeq := r.nextSeq + 1, dropped := r.dropped + 1)
    case Drain =>
      r.(live := [], batches := r.batches + [r.live], droppedAt := r.droppedAt + [r.dropped])
  }

  function Run(r: Ring, acts: seq<Action>): Ring {
    if acts == [] then r else Perform(Run(r, acts[..|acts| - 1]), acts[|acts| - 1])
  }

  function Size(batch: seq<Item>): nat {
    |batch|
  }

  function Concat(batches: seq<seq<Item>>): seq<Item> {
    if batches == [] then [] else Concat(batches[..|batches| - 1]) + batches[|batches| - 1]
  }

  /** Everything ever handed out, followed by everything still buffered. */
  function Stream(r: Ring): seq<Item> {
    Concat(r.batches) + r.live
  }

  /** Drops counted before drain b. */
  function DroppedBefore(r: Ring, b: nat): nat
    requires b <= |r.droppedAt|
  {
    if b == 0 then 0 else r.droppedAt[b - 1]
  }

  ghost predicate Numbered(r: Ring) {
    |r.live| <= RING_SIZE && |r.live| <= r.nextSeq
    && forall i :: 0 <= i < |r.live| ==> r.live[i].num == r.nextSeq - |r.live| + i
  }

  ghost predicate Balanced(r: Ring) {
    r.nextSeq == Sum(r.batches, Size) + |r.live| + r.dropped
  }

  /** Batch b holds consecutive numbers, after everything drained before it and everything dropped by
      then; and if anything was dropped since the drain before, it is a full ring. */
  ghost predicate GoodBatch(r: Ring, b: nat)
    requires b < |r.batches| == |r.droppedAt|
  {
    && |r.batches[b]| <= RING_SIZE
    && DroppedBefore(r, b) <= r.droppedAt[b] <= r.dropped
    && (forall i :: 0 <= i < |r.batches[b]| ==>
        r.batches[b][i].num == Sum(r.batches[..b], Size) + r.droppedAt[b] + i)
    && (r.droppedAt[b] > DroppedBefore(r, b) ==> |r.batches[b]| == RING_SIZE)
  }

  ghost predicate GoodBatches(r: Ring) {
    && |r.batches| == |r.droppedAt|
    && (forall b :: 0 <= b < |r.batches| ==> GoodBatch(r, b))
    && DroppedBefore(r, |r.batches|) <= r.dropped
    && (r.dropped > DroppedBefore(r, |r.batches|) ==> |r.live| == RING_SIZE)
  }

  ghost predicate Increasing(s: seq<Item>) {
    forall i, j :: 0 <= i < j < |s| ==> s[i].num < s[j].num
  }

  ghost predicate Ordered(s: seq<Item>) {
    forall i, j :: 0 <= i < j < |s| ==> s[i].ns <= s[j].ns
  }

  /** What every production and drain keeps. */
  ghost predicate Good(r: Ring) {
    && Numbered(r) && Balanced(r) && GoodBatches(r)
    && Increasing(Stream(r)) && (forall i :: 0 <= i < |Stream(r)| ==> Stream(r)[i].num < r.nextSeq)
  }

  lemma DrainedStream(r: Ring)
    ensures Stream(Perform(r, Drain)) == Stream(r)
  {
    var bs := r.batches + [r.live];
    assert bs[..|bs| - 1] == r.batches;
  }

  lemma DrainSum(r: Ring)
    ensures Sum(r.batches + [r.live], Size) == Sum(r.batches, Size) + |r.live|
  {
    var bs := r.batches + [r.live];
    assert bs[..|bs| - 1] == r.batches;
  }

  lemma BatchesKept(r: Ring, a: Action)
    requires Numbered(r) && Balanced(r) && GoodBatches(r)
    ensures GoodBatches(Perform(r, a))
  {
    var e := Perform(r, a);
    forall b: nat | b < |e.batches| ensures GoodBatch(e, b) {
      if b < |r.batches| {
        assert GoodBatch(r, b);
        assert e.batches[..b] == r.batches[..b];
      } else {
        assert e.batches[..b] == r.batches;
      }
    }
  }

  lemma ProducedStream(r: Ring, ns: nat)
    requires Good(r)
    ensures var s := Stream(Perform(r, Produce(ns)));
            Increasing(s) && forall i :: 0 <= i < |s| ==> s[i].num <= r.nextSeq
  {
    var s, t := Stream(r), Stream(Perform(r, Produce(ns)));
    var k := |Concat(r.batches)|;
    var skip := if |r.live| < RING_SIZE then 0 else 1;
    assert forall i :: 0 <= i < k ==> t[i] == s[i];
    assert forall i :: k <= i < |t| - 1 ==> t[i] == s[i + skip];
    assert t[|t| - 1].num == r.nextSeq;
  }

  lemma GoodKept(r: Ring, a: Action)
    requires Good(r)
    ensures Good(Perform(r, a))
  {
    BatchesKept(r, a);
    if a.Drain? {
      DrainedStream(r);
      DrainSum(r);
    } else {
      ProducedStream(r, a.ns);
    }
  }

  lemma {:induction false} GoodAlways(r: Ring, acts: seq<Action>)
    requires Good(r)
    ensures Good(Run(r, acts))
  {
    if acts != [] {
      GoodAlways(r, acts[..|acts| - 1]);
      GoodKept(Run(r, acts[..|acts| - 1]), acts[|acts| - 1]);
    }
  }

  /** Conservation: whoever produced and whoever drained, everything ever produced has been drained
      once, is buffered, or is counted as dropped. */
  lemma {:induction false} Conservation(acts: seq<Action>)
    ensures var r := Run(EMPTY, acts);
            r.nextSeq == Sum(r.batches, Size) + |r.live| + r.dropped && |r.live| <= RING_SIZE
  {
    GoodAlways(EMPTY, acts);
  }

  /** Drain history: the buffered items are the last ones produced; the drained batches concatenate to
      a strictly increasing sequence; what is missing before a batch is exactly what was dropped since
      the drain before it; and a batch after a gap is a full ring. */
  lemma DrainHistory(acts: seq<Action>)
    ensures var r := Run(EMPTY, acts);
            && |r.live| <= r.nextSeq
            && (forall i :: 0 <= i < |r.live| ==> r.live[i].num == r.nextSeq - |r.live| + i)
            && Increasing(Concat(r.batches))
    ensures var r := Run(EMPTY, acts);
            |r.batches| == |r.droppedAt| && forall b :: 0 <= b < |r.batches| ==> GoodBatch(r, b)
  {
    GoodAlways(EMPTY, acts);
    DrainedIncrease(Run(EMPTY, acts));
  }

  lemma DrainedIncrease(r: Ring)
    requires Increasing(Stream(r))
    ensures Increasing(Concat(r.batches))
  {
    assert forall i :: 0 <= i < |Concat(r.batches)| ==> Concat(r.batches)[i] == Stream(r)[i];
  }

  lemma {:induction false} SumPrefix(batches: seq<seq<Item>>, b: nat)
    requires b < |batches|
    ensures Sum(batches[..b + 1], Size) == Sum(batches[..b], Size) + |batches[b]|
  {
    assert batches[..b + 1][..b] == batches[..b];
  }

  /** Numbers missing between the last item of one non-empty batch and the first of the next. */
  function Gap(before: seq<Item>, after: seq<Item>): int
    requires before != [] && after != []
  {
    after[0].num - before[|before| - 1].num - 1
  }

  /** The gap between two successive batches is the number of drops between their drains, and a batch
      after a gap is a full ring. */
  lemma GapIsDrops(acts: seq<Action>, r: Ring, b: nat)
    requires r == Run(EMPTY, acts) && b + 1 < |r.batches| && r.batches[b] != [] && r.batches[b + 1] != []
    ensures |r.droppedAt| == |r.batches|
    ensures r.droppedAt[b] + Gap(r.batches[b], r.batches[b + 1]) == r.droppedAt[b + 1]
    ensures Gap(r.batches[b], r.batches[b + 1]) > 0 ==> |r.batches[b + 1]| == RING_SIZE
  {
    GoodAlways(EMPTY, acts);
    assert GoodBatch(r, b) && GoodBatch(r, b + 1);
    SumPrefix(r.batches, b);
  }

  // ---------------------------------------------------------------------------------------
  // Time stamps
  // ---------------------------------------------------------------------------------------

  /** The clock readings of the productions of a run, in order. */
  function Stamps(acts: seq<Action>): seq<nat> {
    if acts == [] then []
    else Stamps(acts[..|acts| - 1]) + if acts[|acts| - 1].Produce? then [acts[|acts| - 1].ns] else []
  }

  /** Every item carries the clock reading of the production that its number counts. */
  ghost predicate Stamped(s: seq<Item>, stamps: seq<nat>) {
    forall i :: 0 <= i < |s| ==> s[i].num < |stamps| && s[i].ns == stamps[s[i].num]
  }

  lemma ProducedIsStamped(r: Ring, stamps: seq<nat>, ns: nat)
    requires Stamped(Stream(r), stamps) && r.nextSeq == |stamps|
    ensures Stamped(Stream(Perform(r, Produce(ns))), stamps + [ns])
  {
    var s, t := Stream(r), Stream(Perform(r, Produce(ns)));
    var k := |Concat(r.batches)|;
    var skip := if |r.live| < RING_SIZE then 0 else 1;
    assert forall i :: 0 <= i < k ==> t[i] == s[i];
    assert forall i :: k <= i < |t| - 1 ==> t[i] == s[i + skip];
    assert t[|t| - 1] == Item(r.nextSeq, ns);
  }

  /** Everything drained or buffered is what was produced: the item numbered k has the time stamp of the k-th
      production. */
  lemma {:induction false} ItemsCarryTheirStamps(acts: seq<Action>)
    ensures var r := Run(EMPTY, acts);
            r.nextSeq == |Stamps(acts)| && Stamped(Stream(r), Stamps(acts))
  {
    if acts != [] {
      var before, a := acts[..|acts| - 1], acts[|acts| - 1];
      ItemsCarryTheirStamps(before);
      var r := Run(EMPTY, before);
      if a.Produce? {
        ProducedIsStamped(r, Stamps(before), a.ns);
      } else {
        DrainedStream(r);
      }
    }
  }

  /** The clock readings of a run never go back. */
  ghost predicate MonotoneClock(acts: seq<Action>) {
    forall i, j :: 0 <= i < j < |Stamps(acts)| ==> Stamps(acts)[i] <= Stamps(acts)[j]
  }

  /** When the clock is monotone, time stamps are in order over everything drained and buffered. */
  lemma {:induction false} StampsInOrder(acts: seq<Action>)
    requires MonotoneClock(acts)
    ensures Ordered(Stream(Run(EMPTY, acts)))
  {
    GoodAlways(EMPTY, acts);
    ItemsCarryTheirStamps(acts);
  }
}
