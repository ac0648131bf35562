// The seekable fixed-size buffer of 09_read_write_cdev/read_write_cdev.c, and the growing byte
// sequence that it implements.

module SeekBuffer {
  import opened Tally
  import opened Slices

  const BUF_SIZE: nat := 4096

  type Byte = x: int | 0 <= x < 256

  datatype Result = Ok(n: nat) | NoSpace | Fault | InvalidArgument

  /** How many of n bytes fit at pos. */
  function Fits(pos: nat, n: nat): nat
    requires pos <= BUF_SIZE
  {
    Min(n, BUF_SIZE - pos)
  }

  /** Byte i after src has been written at pos: what was written, what was there, or padding. */
  function ByteAfter(c: seq<Byte>, pos: nat, src: seq<Byte>, i: nat): Byte
    requires pos <= BUF_SIZE
  {
    if pos <= i < pos + Fits(pos, |src|) then src[i - pos] else if i < |c| then c[i] else 0
  }

  /** The byte sequence after a write: padded with zeros up to pos, overwritten, cut at capacity. */
  function WriteAt(c: seq<Byte>, pos: nat, src: seq<Byte>): seq<Byte>
    requires pos <= BUF_SIZE
  {
    var end := pos + Fits(pos, |src|);
    seq(if end > |c| then end else |c|, i requires 0 <= i => ByteAfter(c, pos, src, i))
  }

  /** Overwriting a range of the array, seen through its first len bytes. */
  lemma OverlayIsWrite(before: seq<Byte>, len: nat, pos: nat, data: seq<Byte>, after: seq<Byte>)
    requires |before| == BUF_SIZE && len <= BUF_SIZE && pos + |data| <= BUF_SIZE
    requires forall i :: len <= i < BUF_SIZE ==> before[i] == 0
    requires after == before[..pos] + data + before[pos + |data|..]
    ensures var newLen := if pos + |data| > len then pos + |data| else len;
            && after[..newLen] == WriteAt(before[..len], pos, data)
            && forall i :: newLen <= i < BUF_SIZE ==> after[i] == 0
    ensures after[..len] == WriteAt(before[..len], pos, data)[..len]
  {
    var newLen := if pos + |data| > len then pos + |data| else len;
    var written := WriteAt(before[..len], pos, data);
    forall i | 0 <= i < BUF_SIZE
      ensures after[i] == if pos <= i < pos + |data| then data[i - pos] else before[i]
    {
    }
    forall i | 0 <= i < newLen ensures after[i] == written[i] {
    }
    assert after[..newLen] == written;
  }

  /** The part that does not fit makes no difference. */
  lemma OnlyFittingMatters(c: seq<Byte>, pos: nat, src: seq<Byte>)
    requires pos <= BUF_SIZE
    ensures WriteAt(c, pos, src) == WriteAt(c, pos, src[..Fits(pos, |src|)])
  {
  }

  datatype Entry = Entry(pos: nat, data: seq<Byte>)

  ghost predicate ValidLog(log: seq<Entry>) {
    forall i :: 0 <= i < |log| ==> log[i].pos < BUF_SIZE
  }

  /** The byte sequence after a history of writes. */
  ghost function Replay(log: seq<Entry>): seq<Byte>
    requires ValidLog(log)
  {
    if log == [] then []
    else
      var last := log[|log| - 1];
      WriteAt(Replay(log[..|log| - 1]), last.pos, last.data)
  }

  lemma ReplayNext(log: seq<Entry>, e: Entry)
    requires ValidLog(log) && e.pos < BUF_SIZE
    ensures ValidLog(log + [e]) && Replay(log + [e]) == WriteAt(Replay(log), e.pos, e.data)
  {
    assert (log + [e])[..|log + [e]| - 1] == log;
  }

  class Device {
    const buffer: array<Byte>
    var dataLen: nat
    var positions: seq<nat>  // of the open files
    ghost var log: seq<Entry>

    ghost predicate TailIsZero()
      reads this`dataLen, buffer
    {
      forall i :: dataLen <= i < buffer.Length ==> buffer[i] == 0
    }

    ghost predicate Sized()
      reads this`dataLen
    {
      buffer.Length == BUF_SIZE && dataLen <= BUF_SIZE
    }

    ghost function Contents(): seq<Byte>
      reads this`dataLen, buffer
      requires Sized()
    {
      buffer[..dataLen]
    }

    ghost function Snapshot(): Files
      reads this`dataLen, this`positions, buffer
      requires Sized()
    {
      Files(Contents(), positions)
    }

    /** What every run without a faulting copy keeps. */
    ghost predicate Valid()
      reads this, buffer
    {
      Sized() && TailIsZero() && ValidLog(log) && Contents() == Replay(log)
    }

    constructor (files: nat)
      ensures Valid() && log == [] && fresh(buffer) && Snapshot() == Opened(files)
    {
      buffer := new Byte[BUF_SIZE](i => 0);
      dataLen := 0;
      positions := seq(files, i => 0);
      log := [];
    }

    /** read(): a slice of the byte sequence, and the position moves past it. */
    method Read(pos: int, count: nat) returns (out: seq<Byte>, newPos: int)
      requires Sized()
      ensures out == Slice(Contents(), pos, count) && newPos == pos + |out|
    {
      if pos < 0 || pos >= dataLen {
        return [], pos;
      }
      var available := dataLen - pos;
      var toCopy := if count < available then count else available;
      out := [];
      var i := 0;
      while i < toCopy
        invariant 0 <= i <= toCopy && out == buffer[pos..pos + i]
      {
        out := out + [buffer[pos + i]];
        i := i + 1;
      }
      newPos := pos + toCopy;
    }

    method CopyIn(pos: nat, src: seq<Byte>)
      requires pos + |src| <= buffer.Length
      modifies buffer
      ensures buffer[..] == old(buffer[..pos]) + src + old(buffer[pos + |src|..])
    {
      var i := 0;
      while i < |src|
        invariant 0 <= i <= |src|
        invariant forall j :: 0 <= j < buffer.Length && !(pos <= j < pos + i) ==> buffer[j] == old(buffer[j])
        invariant forall j :: 0 <= j < i ==> buffer[pos + j] == src[j]
      {
        buffer[pos + i] := src[i];
        i := i + 1;
      }
    }

    /** The copy and the update of data_len, for bytes that fit. */
    method Put(pos: nat, data: seq<Byte>)
      requires Sized() && TailIsZero() && pos + |data| <= BUF_SIZE
      modifies this`dataLen, buffer
      ensures Sized() && TailIsZero() && Contents() == WriteAt(old(Contents()), pos, data)
    {
      ghost var before := buffer[..];
      CopyIn(pos, data);
      OverlayIsWrite(before, dataLen, pos, data, buffer[..]);
      if pos + |data| > dataLen {
        dataLen := pos + |data|;
      }
      assert before[..old(dataLen)] == old(Contents()) && buffer[..][..dataLen] == Contents();
      assert forall i :: dataLen <= i < BUF_SIZE ==> buffer[..][i] == 0;
    }

    method WriteInside(pos: nat, src: seq<Byte>) returns (n: nat)
      requires Valid() && pos < BUF_SIZE
      modifies this`dataLen, this`log, buffer
      ensures Valid() && n == Fits(pos, |src|)
      ensures log == old(log) + [Entry(pos, src)] && Contents() == WriteAt(old(Contents()), pos, src)
    {
      var space := BUF_SIZE - pos;
      n := if |src| < space then |src| else space;
      OnlyFittingMatters(Contents(), pos, src);
      ReplayNext(log, Entry(pos, src));
      Put(pos, src[..n]);
      log := log + [Entry(pos, src)];
    }

    /** write(): the byte sequence becomes WriteAt of itself, so the array still implements the replay
        of all writes; it fails only where not even an empty write is possible. */
    method Write(pos: int, src: seq<Byte>) returns (r: Result, newPos: int)
      requires Valid()
      modifies this`dataLen, this`log, buffer
      ensures Valid()
      ensures pos < 0 || pos >= BUF_SIZE ==>
                r == NoSpace && newPos == pos && log == old(log) && Contents() == old(Contents())
      ensures 0 <= pos < BUF_SIZE ==>
                r == Ok(Fits(pos, |src|)) && newPos == pos + r.n && log == old(log) + [Entry(pos, src)]
                && Contents() == WriteAt(old(Contents()), pos, src)
    {
      if pos < 0 || pos >= BUF_SIZE {
        return NoSpace, pos;
      }
      var n := WriteInside(pos, src);
      return Ok(n), pos + n;
    }

    /** A write() whose copy from user space faults, leaving `left` in the target range: it reports
        a fault and moves neither the position nor data_len, but the bytes stay behind. The tail of the
        array is still zero exactly when every byte left past data_len is zero. */
    method WriteFaulting(pos: nat, count: nat, left: seq<Byte>) returns (r: Result, newPos: int)
      requires Valid() && pos < BUF_SIZE && |left| == Min(count, BUF_SIZE - pos)
      modifies buffer
      ensures r == Fault && newPos == pos
      ensures Sized() && Contents() == WriteAt(old(Contents()), pos, left)[..dataLen]
      ensures TailIsZero() <==> forall i :: 0 <= i < |left| && pos + i >= dataLen ==> left[i] == 0
    {
      ghost var before := buffer[..];
      CopyIn(pos, left);
      r, newPos := Fault, pos;
      OverlayIsWrite(before, dataLen, pos, left, buffer[..]);
      assert before[..dataLen] == old(Contents()) && buffer[..][..dataLen] == Contents();
      TailAfterFault(before, dataLen, pos, left, buffer[..]);
      assert TailIsZero() <==> forall i :: dataLen <= i < BUF_SIZE ==> buffer[..][i] == 0;
    }

    /** A call by one of the open files, at that file's position and moving it. */
    method Do(c: Call)
      requires Valid() && WellFormed(Snapshot())
      modifies this`dataLen, this`log, this`positions, buffer
      ensures Valid() && WellFormed(Snapshot()) && Snapshot() == Perform(old(Snapshot()), c)
      ensures log == old(log) + WriteOf(old(Snapshot()), c)
    {
      PerformKeepsForm(Snapshot(), c);
      if c.f < |positions| {
        match c {
          case CallRead(f, count) => ReadBy(f, count);
          case CallWrite(f, src) => WriteBy(f, src);
          case CallSeek(f, offset, whence) =>
            var target := Seek(positions[f], offset, whence);
            if target.Some? {
              positions := positions[f := target.value];
            }
        }
      }
      assert WriteOf(old(Snapshot()), c) == [] ==> log + [] == log;
    }

    method ReadBy(f: nat, count: nat)
      requires Valid() && f < |positions|
      modifies this`positions
      ensures positions == old(positions)[f := old(positions[f]) + |Slice(Contents(), old(positions[f]), count)|]
    {
      var out, newPos := Read(positions[f], count);
      positions := positions[f := newPos];
    }

    method WriteBy(f: nat, src: seq<Byte>)
      requires Valid() && f < |positions|
      modifies this`dataLen, this`log, this`positions, buffer
      ensures Valid()
      ensures if old(positions[f]) >= BUF_SIZE then Snapshot() == old(Snapshot()) && log == old(log)
              else
                && Contents() == WriteAt(old(Contents()), old(positions[f]), src)
                && positions == old(positions)[f := old(positions[f]) + Fits(old(positions[f]), |src|)]
                && log == old(log) + [Entry(old(positions[f]), src)]
    {
      var r, newPos := Write(positions[f], src);
      positions := positions[f := newPos];
    }

    /** Any calls by any open files: whatever they do, the array holds at every byte the last one written there,
        up to the furthest end, and zeros; and positions stay within the capacity. */
    method Drive(calls: seq<Call>)
      requires Valid() && WellFormed(Snapshot()) && log == [] && dataLen == 0
      modifies this`dataLen, this`log, this`positions, buffer
      ensures Valid() && Runs(old(Snapshot()), calls, Snapshot())
      ensures log == WritesOf(old(Snapshot()), calls) && Means(buffer[..dataLen], log)
      ensures forall f :: 0 <= f < |positions| ==> positions[f] <= BUF_SIZE
      ensures forall i :: dataLen <= i < BUF_SIZE ==> buffer[i] == 0
    {
      ghost var start := Snapshot();
      var n := 0;
      assert calls[..0] == [] && calls[n..] == calls;
      while n < |calls|
        invariant 0 <= n <= |calls| && Valid() && WellFormed(Snapshot())
        invariant forall e :: Runs(Snapshot(), calls[n..], e) ==> Runs(start, calls, e)
        invariant log + WritesOf(Snapshot(), calls[n..]) == WritesOf(start, calls)
      {
        ghost var before, was := Snapshot(), log;
        Do(calls[n]);
        NextCall(before, calls, n);
        Regroup(was, WriteOf(before, calls[n]), WritesOf(Snapshot(), calls[n + 1..]));
        n := n + 1;
      }
      assert calls[n..] == [] && log + [] == log;
      LastWriterWins(log);
    }
  }

  lemma TailAfterFault(before: seq<Byte>, len: nat, pos: nat, left: seq<Byte>, after: seq<Byte>)
    requires |before| == BUF_SIZE && len <= BUF_SIZE && pos + |left| <= BUF_SIZE
    requires forall i :: len <= i < BUF_SIZE ==> before[i] == 0
    requires after == before[..pos] + left + before[pos + |left|..]
    ensures (forall i :: len <= i < BUF_SIZE ==> after[i] == 0)
            <==> forall i :: 0 <= i < |left| && pos + i >= len ==> left[i] == 0
  {
    assert forall i :: 0 <= i < |left| ==> after[pos + i] == left[i];
    assert forall i :: pos <= i < pos + |left| ==> after[i] == left[i - pos];
  }

  datatype Whence = SeekSet | SeekCur | SeekEnd | Other

  /** What an offset counts from. */
  function Base(pos: nat, whence: Whence): nat {
    match whence
    case SeekCur => pos
    case SeekEnd => BUF_SIZE
    case _ => 0
  }

  /** The seek that only asks for the position, and gets it wherever that is. */
  predicate IsQuery(offset: int, whence: Whence) {
    whence == SeekCur && offset == 0
  }

  /** fixed_size_llseek() with size BUF_SIZE: the new position, or None for -EINVAL. */
  function Seek(pos: nat, offset: int, whence: Whence): (r: Option<nat>)
    ensures r == None <==> whence == Other ||
                           (!IsQuery(offset, whence) && !(0 <= Base(pos, whence) + offset <= BUF_SIZE))
    ensures r.Some? ==> r.value == Base(pos, whence) + offset
  {
    var target :=
      match whence
      case SeekSet => offset
      case SeekCur => pos + offset
      case SeekEnd => BUF_SIZE + offset
      case Other => -1;
    if IsQuery(offset, whence) then Some(pos)
    else if target < 0 || target > BUF_SIZE then None
    else Some(target)
  }

  // ---------------------------------------------------------------------------------------
  // What a history of writes means
  // ---------------------------------------------------------------------------------------

  predicate Covers(e: Entry, i: nat)
    requires e.pos <= BUF_SIZE
  {
    e.pos <= i < e.pos + Fits(e.pos, |e.data|)
  }

  /** The byte at i is the one that the last write covering i put there, and zero if none did. */
  ghost function LastWritten(log: seq<Entry>, i: nat): Byte
    requires ValidLog(log)
  {
    if log == [] then 0
    else
      var e := log[|log| - 1];
      if Covers(e, i) then e.data[i - e.pos] else LastWritten(log[..|log| - 1], i)
  }

  /** The length is the furthest end of any write, an empty write's position included. */
  ghost function FurthestEnd(log: seq<Entry>): nat
    requires ValidLog(log)
  {
    if log == [] then 0
    else
      var e := log[|log| - 1];
      var end, rest := e.pos + Fits(e.pos, |e.data|), FurthestEnd(log[..|log| - 1]);
      if end > rest then end else rest
  }

  /** Byte i of c is the last one written there; past the end of c none was, or it was a zero. */
  ghost predicate MeansAt(c: seq<Byte>, log: seq<Entry>, i: nat)
    requires ValidLog(log)
  {
    LastWritten(log, i) == if i < |c| then c[i] else 0
  }

  ghost predicate Means(c: seq<Byte>, log: seq<Entry>)
    requires ValidLog(log)
  {
    |c| == FurthestEnd(log) <= BUF_SIZE && forall i: nat :: MeansAt(c, log, i)
  }

  lemma MeansNext(c: seq<Byte>, rest: seq<Entry>, e: Entry)
    requires ValidLog(rest) && e.pos < BUF_SIZE && Means(c, rest)
    ensures ValidLog(rest + [e]) && Means(WriteAt(c, e.pos, e.data), rest + [e])
  {
    var log, r := rest + [e], WriteAt(c, e.pos, e.data);
    assert log[..|log| - 1] == rest && log[|log| - 1] == e;
    forall i: nat ensures MeansAt(r, log, i) {
      assert MeansAt(c, rest, i);
    }
  }

  /** The device's contents after any run of writes, at any positions and of any sizes: as long as
      the furthest write, never more than 4096 bytes, each byte from the last write that covered it,
      and zero in every gap. */
  lemma {:induction false} LastWriterWins(log: seq<Entry>)
    requires ValidLog(log)
    ensures Means(Replay(log), log)
  {
    if log != [] {
      var rest, e := log[..|log| - 1], log[|log| - 1];
      LastWriterWins(rest);
      MeansNext(Replay(rest), rest, e);
      assert log == rest + [e];
    }
  }

  // ---------------------------------------------------------------------------------------
  // The read and write contract
  // ---------------------------------------------------------------------------------------

  /** A read at the position of a write returns what was accepted, and nothing else has changed
      except that a gap reads as zeros. */
  lemma ReadsBack(c: seq<Byte>, pos: nat, src: seq<Byte>)
    requires |c| <= BUF_SIZE && pos <= BUF_SIZE
    ensures var n := Fits(pos, |src|);
            && Slice(WriteAt(c, pos, src), pos, n) == src[..n]
            && (forall i :: 0 <= i < |c| && !(pos <= i < pos + n) ==> WriteAt(c, pos, src)[i] == c[i])
            && (forall i :: |c| <= i < pos ==> WriteAt(c, pos, src)[i] == 0)
            && |WriteAt(c, pos, src)| == if pos + n > |c| then pos + n else |c|
  {
  }

  /** Two writes in a row, the second where the first stopped, are one write of both texts. */
  lemma WritesJoin(c: seq<Byte>, pos: nat, a: seq<Byte>, b: seq<Byte>)
    requires |c| <= BUF_SIZE && pos <= BUF_SIZE
    ensures WriteAt(c, pos, a + b) == WriteAt(WriteAt(c, pos, a), pos + Fits(pos, |a|), b)
  {
    var mid, next := WriteAt(c, pos, a), pos + Fits(pos, |a|);
    var once, twice := WriteAt(c, pos, a + b), WriteAt(mid, next, b);
    forall i | 0 <= i < |once| ensures once[i] == twice[i] {
    }
  }

  /** The first n chunks as one text. */
  function Joined(chunks: seq<seq<Byte>>, n: nat): seq<Byte>
    requires n <= |chunks|
  {
    if n == 0 then [] else Joined(chunks, n - 1) + chunks[n - 1]
  }

  datatype Progress = Progress(contents: seq<Byte>, pos: nat)

  /** One more write where the last one stopped; at the end of the device it fails. */
  function WriteChunk(p: Progress, chunk: seq<Byte>): Progress {
    if p.pos >= BUF_SIZE then p
    else Progress(WriteAt(p.contents, p.pos, chunk), p.pos + Fits(p.pos, |chunk|))
  }

  function WriteChunks(p: Progress, chunks: seq<seq<Byte>>, n: nat): Progress
    requires n <= |chunks|
  {
    if n == 0 then p else WriteChunk(WriteChunks(p, chunks, n - 1), chunks[n - 1])
  }

  lemma NothingFits(c: seq<Byte>, src: seq<Byte>)
    requires |c| == BUF_SIZE
    ensures WriteAt(c, BUF_SIZE, src) == c
  {
  }

  lemma ChunkJoins(p: Progress, text: seq<Byte>, chunk: seq<Byte>)
    requires |p.contents| <= BUF_SIZE && p.pos < BUF_SIZE
    ensures WriteChunk(WriteChunk(p, text), chunk) == WriteChunk(p, text + chunk)
  {
    var mid := WriteChunk(p, text);
    WritesJoin(p.contents, p.pos, text, chunk);
    if mid.pos >= BUF_SIZE {
      NothingFits(mid.contents, chunk);
    }
  }

  /** However a text is cut into writes, short and failing writes included, contents and position end up
      as after one write of the whole text. */
  lemma {:induction false} ChunkingDoesNotMatter(p: Progress, chunks: seq<seq<Byte>>, n: nat)
    requires |p.contents| <= BUF_SIZE && p.pos < BUF_SIZE && 0 < n <= |chunks|
    ensures WriteChunks(p, chunks, n) == WriteChunk(p, Joined(chunks, n))
  {
    if n == 1 {
      assert WriteChunks(p, chunks, 0) == p && Joined(chunks, 0) == [];
      assert [] + chunks[0] == chunks[0];
    } else {
      ChunkingDoesNotMatter(p, chunks, n - 1);
      ChunkJoins(p, Joined(chunks, n - 1), chunks[n - 1]);
    }
  }

  // ---------------------------------------------------------------------------------------
  // Runs over several open files
  // ---------------------------------------------------------------------------------------

  /** The device and the position of every open file. */
  datatype Files = Files(contents: seq<Byte>, positions: seq<nat>)

  datatype Call =
    | CallRead(f: nat, count: nat)
    | CallWrite(f: nat, src: seq<Byte>)
    | CallSeek(f: nat, offset: int, whence: Whence)

  predicate WellFormed(s: Files) {
    |s.contents| <= BUF_SIZE && forall f :: 0 <= f < |s.positions| ==> s.positions[f] <= BUF_SIZE
  }

  function Perform(s: Files, c: Call): Files
    requires WellFormed(s)
  {
    if c.f >= |s.positions| then s
    else
      var pos := s.positions[c.f];
      match c
      case CallRead(f, count) => s.(positions := s.positions[f := pos + |Slice(s.contents, pos, count)|])
      case CallWrite(f, src) =>
        if pos >= BUF_SIZE then s
        else Files(WriteAt(s.contents, pos, src), s.positions[f := pos + Fits(pos, |src|)])
      case CallSeek(f, offset, whence) =>
        (match Seek(pos, offset, whence)
         case None => s
         case Some(p) => s.(positions := s.positions[f := p]))
  }

  lemma PerformKeepsForm(s: Files, c: Call)
    requires WellFormed(s)
    ensures WellFormed(Perform(s, c))
  {
    if c.CallWrite? && c.f < |s.positions| && s.positions[c.f] < BUF_SIZE {
      ReadsBack(s.contents, s.positions[c.f], c.src);
    }
  }

  /** Every state a run of calls passes through. */
  ghost predicate Runs(s: Files, calls: seq<Call>, e: Files)
    requires WellFormed(s)
    decreases |calls|
  {
    if calls == [] then s == e
    else
      PerformKeepsForm(s, calls[0]);
      Runs(Perform(s, calls[0]), calls[1..], e)
  }

  /** The write that a call makes, if it makes one, where its file's position is. */
  function WriteOf(s: Files, c: Call): (log: seq<Entry>)
    ensures ValidLog(log)
  {
    if c.CallWrite? && c.f < |s.positions| && s.positions[c.f] < BUF_SIZE
    then [Entry(s.positions[c.f], c.src)]
    else []
  }

  ghost function WritesOf(s: Files, calls: seq<Call>): (log: seq<Entry>)
    requires WellFormed(s)
    ensures ValidLog(log)
    decreases |calls|
  {
    if calls == [] then []
    else
      PerformKeepsForm(s, calls[0]);
      WriteOf(s, calls[0]) + WritesOf(Perform(s, calls[0]), calls[1..])
  }

  lemma OneCallReplays(s: Files, c: Call, log: seq<Entry>)
    requires WellFormed(s) && ValidLog(log) && s.contents == Replay(log)
    ensures ValidLog(log + WriteOf(s, c)) && Perform(s, c).contents == Replay(log + WriteOf(s, c))
  {
    if WriteOf(s, c) == [] {
      assert log + WriteOf(s, c) == log;
    } else {
      ReplayNext(log, Entry(s.positions[c.f], c.src));
    }
  }

  lemma {:induction false} RunsKeepForm(s: Files, calls: seq<Call>, e: Files)
    requires WellFormed(s) && Runs(s, calls, e)
    ensures WellFormed(e)
    decreases |calls|
  {
    if calls != [] {
      PerformKeepsForm(s, calls[0]);
      RunsKeepForm(Perform(s, calls[0]), calls[1..], e);
    }
  }

  lemma {:induction false} RunsReplay(s: Files, calls: seq<Call>, e: Files, log: seq<Entry>)
    requires WellFormed(s) && ValidLog(log) && s.contents == Replay(log) && Runs(s, calls, e)
    ensures e.contents == Replay(log + WritesOf(s, calls))
    decreases |calls|
  {
    if calls == [] {
      assert log + [] == log;
    } else {
      var first, next := WriteOf(s, calls[0]), Perform(s, calls[0]);
      PerformKeepsForm(s, calls[0]);
      OneCallReplays(s, calls[0], log);
      var rest := WritesOf(next, calls[1..]);
      RunsReplay(next, calls[1..], e, log + first);
      Regroup(log, first, rest);
    }
  }

  lemma NextCall(s: Files, calls: seq<Call>, n: nat)
    requires WellFormed(s) && n < |calls|
    ensures WellFormed(Perform(s, calls[n]))
    ensures WritesOf(s, calls[n..]) == WriteOf(s, calls[n]) + WritesOf(Perform(s, calls[n]), calls[n + 1..])
    ensures forall e :: Runs(Perform(s, calls[n]), calls[n + 1..], e) ==> Runs(s, calls[n..], e)
  {
    assert calls[n..][0] == calls[n] && calls[n..][1..] == calls[n + 1..];
    PerformKeepsForm(s, calls[n]);
  }

  /** Newly opened files on an empty device. */
  function Opened(files: nat): (s: Files)
    ensures WellFormed(s) && s.contents == []
  {
    Files([], seq(files, i => 0))
  }

  /** Over all runs of seeks, reads and writes by any number of open files, positions stay within the
      capacity, and the contents are as long as the furthest write and hold at every byte the last one
      written there, or zero. */
  lemma AnyRunIsLastWriterWins(files: nat, calls: seq<Call>, e: Files)
    requires Runs(Opened(files), calls, e)
    ensures WellFormed(e) && Means(e.contents, WritesOf(Opened(files), calls))
  {
    var log := WritesOf(Opened(files), calls);
    RunsKeepForm(Opened(files), calls, e);
    RunsReplay(Opened(files), calls, e, []);
    assert [] + log == log;
    LastWriterWins(log);
  }
}
