// Building runs of the four-mode counter step by step: what can be reached by actions of a given kind.

module RaceRuns {
  import opened RaceCounter

  /** Every action of the run is allowed in the state it happens in. */
  ghost predicate Only(s: State, acts: seq<Action>, allowed: (State, Action) -> bool)
    decreases |acts|
  {
    acts != [] ==>
      Enabled(s, acts[0]) && allowed(s, acts[0]) && Only(Apply(s, acts[0]), acts[1..], allowed)
  }

  /** Some run of allowed actions leads from s to e. */
  ghost predicate Reaches(s: State, e: State, allowed: (State, Action) -> bool) {
    exists acts :: Runs(s, acts, e) && Only(s, acts, allowed)
  }

  lemma {:induction false} JoinRuns(s: State, p: seq<Action>, m: State, q: seq<Action>, e: State,
        allowed: (State, Action) -> bool)
    requires Runs(s, p, m) && Only(s, p, allowed) && Runs(m, q, e) && Only(m, q, allowed)
    ensures Runs(s, p + q, e) && Only(s, p + q, allowed)
    decreases |p|
  {
    if p == [] {
      assert p + q == q;
    } else {
      JoinRuns(Apply(s, p[0]), p[1..], m, q, e, allowed);
      assert (p + q)[1..] == p[1..] + q;
    }
  }

  lemma Join(s: State, m: State, e: State, allowed: (State, Action) -> bool)
    requires Reaches(s, m, allowed) && Reaches(m, e, allowed)
    ensures Reaches(s, e, allowed)
  {
    var p :| Runs(s, p, m) && Only(s, p, allowed);
    var q :| Runs(m, q, e) && Only(m, q, allowed);
    JoinRuns(s, p, m, q, e, allowed);
  }

  lemma Here(s: State, allowed: (State, Action) -> bool)
    ensures Reaches(s, s, allowed)
  {
    assert Runs(s, [], s) && Only(s, [], allowed);
  }

  lemma Then(s: State, m: State, a: Action, allowed: (State, Action) -> bool) returns (e: State)
    requires Reaches(s, m, allowed) && Enabled(m, a) && allowed(m, a)
    ensures e == Apply(m, a) && Reaches(s, e, allowed)
  {
    e := Apply(m, a);
    assert Runs(m, [a], e) && Only(m, [a], allowed) by {
      assert Runs(e, [a][1..], e) && Only(e, [a][1..], allowed);
    }
    Join(s, m, e, allowed);
  }
}
