// Reading a text piece by piece at a position that each read advances: the shape shared by the
// buffer device's read() and by simple_read_from_buffer().

module Slices {
  import opened Tally

  /** One read of up to count elements at pos. */
  function Slice<T>(c: seq<T>, pos: int, count: nat): seq<T> {
    if pos < 0 || pos >= |c| then [] else c[pos..pos + Min(count, |c| - pos)]
  }

  /** A read where the text read so far stops. */
  function Extend<T>(c: seq<T>, before: seq<T>, count: nat): seq<T> {
    before + Slice(c, |before|, count)
  }

  /** What the first n of a series of reads return together: the first at the start of c, each of the
      others where the one before stopped. */
  function Series<T>(c: seq<T>, counts: seq<nat>, n: nat): seq<T>
    requires n <= |counts|
  {
    if n == 0 then [] else Extend(c, Series(c, counts, n - 1), counts[n - 1])
  }

  function Total(counts: seq<nat>, n: nat): nat
    requires n <= |counts|
  {
    if n == 0 then 0 else Total(counts, n - 1) + counts[n - 1]
  }

  lemma ExtendPrefix<T>(c: seq<T>, k: nat, count: nat)
    requires k <= |c|
    ensures Extend(c, c[..k], count) == c[..Min(k + count, |c|)]
  {
  }

  /** A series of reads returns the start of the text, as much as was asked for in total, as far as
      there is any. */
  lemma {:induction false} SeriesIsPrefix<T>(c: seq<T>, counts: seq<nat>, n: nat)
    requires n <= |counts|
    ensures Series(c, counts, n) == c[..Min(Total(counts, n), |c|)]
  {
    if n > 0 {
      SeriesIsPrefix(c, counts, n - 1);
      ExtendPrefix(c, Min(Total(counts, n - 1), |c|), counts[n - 1]);
    }
  }

  /** Reads of any sizes, up to one of positive size that returns nothing, return exactly the text. */
  lemma ReadToEnd<T>(c: seq<T>, counts: seq<nat>, last: nat)
    requires last > 0 && Slice(c, |Series(c, counts, |counts|)|, last) == []
    ensures Series(c, counts, |counts|) == c
  {
    SeriesIsPrefix(c, counts, |counts|);
  }
}
