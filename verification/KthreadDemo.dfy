// 15_kthreads/kthreads.c as an object: the ring array with its head and count, and the snapshot
// buffer that a fresh read fills.

module KthreadDemo {
  import opened Tally
  import opened Slices
  import opened RingHistory
  import opened SnapshotText

  const SNAPSHOT_BUF_SIZE: nat := 640

  /** The slot of the i-th buffered item, oldest first. */
  function Slot(head: nat, count: nat, i: nat): nat
    requires count <= RING_SIZE
  {
    (head + RING_SIZE - count + i) % RING_SIZE
  }

  /** The buffered slots of the array, read from `start` on. */
  function Window(slots: seq<Item>, head: nat, count: nat): (w: seq<Item>)
    requires |slots| == RING_SIZE && count <= RING_SIZE
    ensures |w| == count
    ensures forall i :: 0 <= i < count ==> w[i] == slots[Slot(head, count, i)]
  {
    seq(count, i requires 0 <= i < count => slots[Slot(head, count, i)])
  }

  lemma SlotsGrow(head: nat, count: nat, i: nat)
    requires head < RING_SIZE && i <= count < RING_SIZE
    ensures Slot((head + 1) % RING_SIZE, count + 1, i) == Slot(head, count, i)
    ensures Slot(head, count, i) == head <==> i == count
  {
  }

  lemma SlotsMove(head: nat, i: nat)
    requires head < RING_SIZE && i < RING_SIZE
    ensures Slot((head + 1) % RING_SIZE, RING_SIZE, i) == Slot(head, RING_SIZE, i + 1)
    ensures Slot(head, RING_SIZE, i + 1) == head <==> i == RING_SIZE - 1
  {
  }

  /** Storing at head and advancing it appends to the window while there is room... */
  lemma WindowGrows(slots: seq<Item>, head: nat, count: nat, x: Item, next: nat)
    requires |slots| == RING_SIZE && head < RING_SIZE && count < RING_SIZE && next == (head + 1) % RING_SIZE
    ensures Window(slots[head := x], next, count + 1) == Window(slots, head, count) + [x]
  {
    var before, w := Window(slots, head, count), Window(slots[head := x], next, count + 1);
    forall i: nat | i <= count ensures w[i] == (before + [x])[i] {
      SlotsGrow(head, count, i);
    }
  }

  /** ... and pushes the oldest item out of a full one. */
  lemma WindowMoves(slots: seq<Item>, head: nat, x: Item, next: nat)
    requires |slots| == RING_SIZE && head < RING_SIZE && next == (head + 1) % RING_SIZE
    ensures Window(slots[head := x], next, RING_SIZE) == Window(slots, head, RING_SIZE)[1..] + [x]
  {
    var before, w := Window(slots, head, RING_SIZE), Window(slots[head := x], next, RING_SIZE);
    forall i: nat | i < RING_SIZE ensures w[i] == (before[1..] + [x])[i] {
      SlotsMove(head, i);
    }
  }

  /** What a fresh read shows of these items: their rendering, as far as the buffer reaches. */
  function Shown(items: seq<Item>): string {
    Render(items)[..Min(SNAPSHOT_BUF_SIZE - 1, |Render(items)|)]
  }

  /** One more item appends as much of its line as there is room for. */
  lemma ShownNext(items: seq<Item>, i: nat)
    requires i < |items|
    ensures var room := SNAPSHOT_BUF_SIZE - 1 - |Shown(items[..i])|;
            Shown(items[..i + 1]) == Shown(items[..i]) + Line(items[i])[..Min(|Line(items[i])|, room)]
  {
    var before, line := Render(items[..i]), Line(items[i]);
    assert items[..i + 1] == items[..i] + [items[i]];
    RenderJoins(items[..i], [items[i]]);
    assert Render([items[i]]) == line by {
      assert line + "" == line;
    }
    assert Render(items[..i + 1]) == before + line;
  }

  /** The buffer holds text that reads back as the items, printed without leading zeros, exactly when all of it
      fits. */
  lemma ShownReads(items: seq<Item>)
    ensures ReadItems(Shown(items)) == Some(items) && NoLeadingZeros(Shown(items)) <==> |Render(items)| <= 639
  {
    RenderIsTheOnlyText(Shown(items), items);
    assert |Render(items)| <= 639 ==> Shown(items) == Render(items);
  }

  /** Productions at these times, one after the other. */
  function Productions(stamps: seq<nat>): seq<Action> {
    seq(|stamps|, i requires 0 <= i < |stamps| => Produce(stamps[i]))
  }

  class Demo {
    const ring: array<Item>
    var ringHead: nat
    var ringCount: nat
    var nextSeq: nat
    var droppedCount: nat
    const snapshotBuf: array<char>
    var snapshotLen: nat
    ghost var batches: seq<seq<Item>>
    ghost var droppedAt: seq<nat>

    ghost predicate Valid()
      reads this`ringHead, this`ringCount, this`snapshotLen
    {
      && ring.Length == RING_SIZE && ringHead < RING_SIZE && ringCount <= RING_SIZE
      && snapshotBuf.Length == SNAPSHOT_BUF_SIZE && snapshotLen < SNAPSHOT_BUF_SIZE
    }

    ghost function Snapshot(): Ring
      reads this`ringHead, this`ringCount, this`nextSeq, this`droppedCount, this`snapshotLen
      reads this`batches, this`droppedAt, ring
      requires Valid()
    {
      Ring(Window(ring[..], ringHead, ringCount), nextSeq, droppedCount, batches, droppedAt)
    }

    ghost function Text(): string
      reads this`ringHead, this`ringCount, this`snapshotLen, snapshotBuf
      requires Valid()
    {
      snapshotBuf[..snapshotLen]
    }

    constructor ()
      ensures Valid() && Snapshot() == EMPTY && Text() == "" && fresh(ring) && fresh(snapshotBuf)
    {
      ring := new Item[RING_SIZE](i => Item(0, 0));
      ringHead, ringCount, nextSeq, droppedCount := 0, 0, 0, 0;
      snapshotBuf := new char[SNAPSHOT_BUF_SIZE](i => '\0');
      snapshotLen := 0;
      batches, droppedAt := [], [];
    }

    method StoreItem(item: Item)
      requires ring.Length == RING_SIZE && ringHead < RING_SIZE
      modifies ring
      ensures ring[..] == old(ring[..])[ringHead := item]
    {
      ring[ringHead] := item;
    }

    /** The locked part of one iteration of a producer thread. */
    method ProduceOne(ns: nat)
      requires Valid()
      modifies this`ringHead, this`ringCount, this`nextSeq, this`droppedCount, ring
      ensures Valid() && Snapshot() == Perform(old(Snapshot()), Produce(ns))
      ensures Snapshot().live != [] && Snapshot().live[|Snapshot().live| - 1] == Item(old(nextSeq), ns)
      ensures nextSeq == old(nextSeq) + 1 && droppedCount == old(droppedCount) + if old(ringCount) == 16 then 1 else 0
    {
      ghost var slots := ring[..];
      var item := Item(nextSeq, ns);
      StoreItem(item);
      nextSeq := nextSeq + 1;
      ghost var head := ringHead;
      ringHead := (ringHead + 1) % RING_SIZE;
      if ringCount < RING_SIZE {
        WindowGrows(slots, head, ringCount, item, ringHead);
        ringCount := ringCount + 1;
      } else {
        WindowMoves(slots, head, item, ringHead);
        droppedCount := droppedCount + 1;
      }
    }

    /** The locked part of a fresh read: copies the buffered items out and empties the ring. */
    method DrainRing() returns (items: seq<Item>)
      requires Valid()
      modifies this`ringCount, this`batches, this`droppedAt
      ensures Valid() && items == old(Snapshot()).live && Snapshot() == Perform(old(Snapshot()), Drain)
    {
      var n := ringCount;
      var start := (ringHead + RING_SIZE - ringCount) % RING_SIZE;
      ghost var buffered := Window(ring[..], ringHead, ringCount);
      items := [];
      var i := 0;
      while i < n
        invariant 0 <= i <= n && items == buffered[..i]
      {
        assert (start + i) % RING_SIZE == Slot(ringHead, ringCount, i);
        assert buffered[i] == ring[..][(start + i) % RING_SIZE];
        items := items + [ring[(start + i) % RING_SIZE]];
        i := i + 1;
      }
      assert items == buffered;
      batches, droppedAt := batches + [items], droppedAt + [droppedCount];
      ringCount := 0;
    }

    /** scnprintf() into the snapshot buffer at off: as much of the text as leaves room for the
        terminating NUL in size bytes, and the number of characters written before it. */
    method Scnprintf(off: nat, size: nat, text: string) returns (n: nat)
      requires 0 < size && off + size <= snapshotBuf.Length
      modifies snapshotBuf
      ensures n == Min(|text|, size - 1)
      ensures snapshotBuf[..off + n] == old(snapshotBuf[..off]) + text[..n] && snapshotBuf[off + n] == '\0'
    {
      n := 0;
      while n < |text| && n < size - 1
        invariant 0 <= n <= |text| && n <= size - 1
        invariant snapshotBuf[..off + n] == old(snapshotBuf[..off]) + text[..n]
      {
        snapshotBuf[off + n] := text[n];
        n := n + 1;
        assert snapshotBuf[..off + n] == snapshotBuf[..off + n - 1] + [text[n - 1]];
      }
      snapshotBuf[off + n] := '\0';
    }

    /** The formatting loop: the buffer ends up holding exactly the first min(639, L) characters of the
        L characters that the items render to. */
    method FormatSnapshot(items: seq<Item>)
      requires Valid()
      modifies this`snapshotLen, snapshotBuf
      ensures Valid() && Text() == Shown(items)
      ensures ReadItems(Text()) == Some(items) && NoLeadingZeros(Text()) <==> |Render(items)| <= 639
    {
      snapshotLen := 0;
      var i := 0;
      while i < |items| && snapshotLen < SNAPSHOT_BUF_SIZE
        invariant 0 <= i <= |items| && Valid()
        invariant Text() == Shown(items[..i])
        decreases |items| - i
      {
        ShownNext(items, i);
        var n := Scnprintf(snapshotLen, SNAPSHOT_BUF_SIZE - snapshotLen, Line(items[i]));
        snapshotLen := snapshotLen + n;
        i := i + 1;
      }
      assert items[..i] == items;
      ShownReads(items);
    }

    /** simple_read_from_buffer() on the snapshot: fails only for a negative position. */
    method SimpleReadFromBuffer(pos: int, count: nat) returns (ok: bool, out: string, newPos: int)
      requires Valid()
      ensures ok == (pos >= 0) && out == Slice(Text(), pos, count) && newPos == pos + |out|
    {
      if pos < 0 {
        return false, "", pos;
      }
      if pos >= snapshotLen {
        return true, "", pos;
      }
      var n := if count < snapshotLen - pos then count else snapshotLen - pos;
      out := snapshotBuf[pos..pos + n];
      return true, out, pos + n;
    }

    /** kthread_demo_read(): at position 0 it first drains the ring into a new snapshot, whatever the
        size asked for; then it returns the slice of the snapshot at the position. */
    method Read(pos: int, count: nat) returns (ok: bool, out: string, newPos: int)
      requires Valid()
      modifies this`ringCount, this`batches, this`droppedAt, this`snapshotLen, snapshotBuf
      ensures Valid()
      ensures pos == 0 ==> Snapshot() == Perform(old(Snapshot()), Drain) && Text() == Shown(old(Snapshot()).live)
      ensures pos != 0 ==> Snapshot() == old(Snapshot()) && Text() == old(Text())
      ensures ok == (pos >= 0) && out == Slice(Text(), pos, count) && newPos == pos + |out|
    {
      if pos == 0 {
        var items := DrainRing();
        FormatSnapshot(items);
      }
      ok, out, newPos := SimpleReadFromBuffer(pos, count);
    }

    /** Producers produce at these times, one after the other. */
    method ProduceAll(stamps: seq<nat>)
      requires Valid()
      modifies this`ringHead, this`ringCount, this`nextSeq, this`droppedCount, ring
      ensures Valid() && Snapshot() == Run(old(Snapshot()), Productions(stamps))
    {
      ghost var all := Productions(stamps);
      var i := 0;
      while i < |stamps|
        invariant 0 <= i <= |stamps| && Valid()
        invariant Snapshot() == Run(old(Snapshot()), all[..i])
      {
        assert all[..i + 1][..i] == all[..i];
        ProduceOne(stamps[i]);
        i := i + 1;
      }
      assert all[..i] == all;
    }

    /** The first read of a reader: a new snapshot, and its beginning. */
    method ReadFirst(count: nat) returns (out: string)
      requires Valid() && count > 0
      modifies this`ringCount, this`batches, this`droppedAt, this`snapshotLen, snapshotBuf
      ensures Valid() && batches == old(batches) + [old(Snapshot()).live]
      ensures Text() == Shown(old(Snapshot()).live)
      ensures out == Extend(Text(), "", count) && (out == "" ==> Text() == "")
    {
      var ok, pos;
      ok, out, pos := Read(0, count);
      assert Snapshot().batches == batches;
    }

    /** A later read by the same reader, after some more production. */
    method ReadOn(soFar: string, count: nat, stamps: seq<nat>) returns (out: string)
      requires Valid() && soFar != ""
      modifies this`ringHead, this`ringCount, this`nextSeq, this`droppedCount, ring
      modifies this`batches, this`droppedAt, this`snapshotLen, snapshotBuf
      ensures Valid() && batches == old(batches) && Text() == old(Text())
      ensures out == Extend(Text(), soFar, count)
    {
      ProduceAll(stamps);
      ghost var between := Snapshot();
      var ok, more, pos := Read(|soFar|, count);
      assert Snapshot().batches == between.batches;
      out := soFar + more;
    }

    /** One reader alone, reading from position 0 on with positive sizes while producers go on producing
        between its reads; a first read that returns nothing ends it. What it gets is the series of slices
        of one snapshot of the items buffered at the start, which are drained once. */
    method ReadAll(counts: seq<nat>, stamps: seq<seq<nat>>) returns (out: string)
      requires Valid() && counts != [] && |stamps| == |counts|
      requires forall i :: 0 <= i < |counts| ==> counts[i] > 0
      modifies this`ringHead, this`ringCount, this`nextSeq, this`droppedCount, ring
      modifies this`batches, this`droppedAt, this`snapshotLen, snapshotBuf
      ensures Valid() && batches == old(batches) + [old(Snapshot()).live]
      ensures out == Series(Shown(old(Snapshot()).live), counts, |counts|)
    {
      ghost var whole, drained := Shown(Snapshot().live), batches + [Snapshot().live];
      out := ReadFirst(counts[0]);
      if out == "" {
        SeriesIsPrefix(whole, counts, |counts|);
        return;
      }
      var i := 1;
      while i < |counts|
        invariant 1 <= i <= |counts| && Valid() && batches == drained
        invariant Text() == whole && out != ""
        invariant out == Series(whole, counts, i)
      {
        out := ReadOn(out, counts[i], stamps[i]);
        i := i + 1;
      }
    }
  }

  // ---------------------------------------------------------------------------------------
  // What a reader can make of it
  // ---------------------------------------------------------------------------------------

  /** When everything buffered fits, reading with positive sizes until nothing comes gives text that
      parses back to exactly the drained items; when it does not fit, no reading does. */
  lemma SnapshotReadsBack(items: seq<Item>, counts: seq<nat>, last: nat)
    requires last > 0 && Slice(Shown(items), |Series(Shown(items), counts, |counts|)|, last) == []
    ensures ReadItems(Series(Shown(items), counts, |counts|)) == Some(items)
            <==> |Render(items)| <= SNAPSHOT_BUF_SIZE - 1
  {
    ReadToEnd(Shown(items), counts, last);
    OnlyWholeRenderingParses(items, |Shown(items)|);
  }
}
