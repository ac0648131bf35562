// Sums over sequences, shared by the thread-counting invariants of the other modules.

module Tally {
  datatype Option<+T> = None | Some(value: T)

  function Min(a: int, b: int): int {
    if a <= b then a else b
  }

  lemma Regroup<T>(a: seq<T>, b: seq<T>, c: seq<T>)
    ensures (a + b) + c == a + (b + c)
  {
  }

  /** The total of f over the elements of s. */
  function Sum<T>(s: seq<T>, f: T -> nat): nat {
    if s == [] then 0 else Sum(s[..|s| - 1], f) + f(s[|s| - 1])
  }

  /** Replacing one element moves the total by the difference of the two weights. */
  lemma {:induction false} SumUpdate<T>(s: seq<T>, i: nat, x: T, f: T -> nat)
    requires i < |s|
    ensures Sum(s[i := x], f) + f(s[i]) == Sum(s, f) + f(x)
  {
    var last := |s| - 1;
    if i == last {
      assert s[i := x][..last] == s[..last];
    } else {
      SumUpdate(s[..last], i, x, f);
      assert s[i := x][..last] == s[..last][i := x];
    }
  }

  /** Elements of one weight w add up to w times their number. */
  lemma {:induction false} SumConstant<T>(s: seq<T>, f: T -> nat, w: nat)
    requires forall i :: 0 <= i < |s| ==> f(s[i]) == w
    ensures Sum(s, f) == |s| * w
  {
    if s != [] {
      SumConstant(s[..|s| - 1], f, w);
    }
  }

  /** Elements of weight at most w add up to at most w times their number. */
  lemma {:induction false} SumBounded<T>(s: seq<T>, f: T -> nat, w: nat)
    requires forall i :: 0 <= i < |s| ==> f(s[i]) <= w
    ensures Sum(s, f) <= |s| * w
  {
    if s != [] {
      SumBounded(s[..|s| - 1], f, w);
    }
  }

  /** Sequences whose elements have pairwise equal weights have equal totals. */
  lemma {:induction false} SumAgree<T>(s: seq<T>, t: seq<T>, f: T -> nat)
    requires |s| == |t|
    requires forall i :: 0 <= i < |s| ==> f(s[i]) == f(t[i])
    ensures Sum(s, f) == Sum(t, f)
  {
    if s != [] {
      SumAgree(s[..|s| - 1], t[..|t| - 1], f);
    }
  }

  /** One element weighs no more than the total. */
  lemma {:induction false} SumAtLeast<T>(s: seq<T>, i: nat, f: T -> nat)
    requires i < |s|
    ensures f(s[i]) <= Sum(s, f)
  {
    if i < |s| - 1 {
      SumAtLeast(s[..|s| - 1], i, f);
    }
  }
}
