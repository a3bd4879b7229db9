/** Runs of a state machine given by a start state, a guard and a step function. */
module Traces {

  /** The state after performing the operations in order. */
  function Final<S, O>(start: S, step: (S, O) -> S, ops: seq<O>): S {
    if ops == [] then start
    else step(Final(start, step, ops[..|ops| - 1]), ops[|ops| - 1])
  }

  /** Every operation is enabled when its turn comes. */
  predicate Legal<S, O>(start: S, step: (S, O) -> S, enabled: (S, O) -> bool, ops: seq<O>) {
    ops == [] ||
    (Legal(start, step, enabled, ops[..|ops| - 1])
     && enabled(Final(start, step, ops[..|ops| - 1]), ops[|ops| - 1]))
  }

  /** Each point of a run is itself reached by a run, and the next operation is enabled there. */
  lemma {:induction false} PrefixIsRun<S, O>(start: S, step: (S, O) -> S, enabled: (S, O) -> bool, ops: seq<O>, k: nat)
    requires Legal(start, step, enabled, ops) && k <= |ops|
    ensures Legal(start, step, enabled, ops[..k])
    ensures k < |ops| ==> enabled(Final(start, step, ops[..k]), ops[k])
    ensures k < |ops| ==> Final(start, step, ops[..k + 1]) == step(Final(start, step, ops[..k]), ops[k])
  {
    var n := |ops|;
    if k == n {
      assert ops[..k] == ops;
    } else {
      assert ops[..k + 1][..k] == ops[..k];
      if k + 1 < n {
        PrefixIsRun(start, step, enabled, ops[..n - 1], k);
        assert ops[..n - 1][..k] == ops[..k];
      } else {
        assert ops[..n - 1] == ops[..k];
      }
    }
  }

  /** Two runs, the second from where the first ends, are one run. */
  lemma {:induction false} Concatenation<S, O>(start: S, step: (S, O) -> S, enabled: (S, O) -> bool, a: seq<O>, b: seq<O>)
    requires Legal(start, step, enabled, a) && Legal(Final(start, step, a), step, enabled, b)
    ensures Legal(start, step, enabled, a + b)
    ensures Final(start, step, a + b) == Final(Final(start, step, a), step, b)
  {
    if b == [] {
      assert a + b == a;
    } else {
      Concatenation(start, step, enabled, a, b[..|b| - 1]);
      assert (a + b)[..|a + b| - 1] == a + b[..|b| - 1];
    }
  }

  lemma OneStep<S, O>(start: S, step: (S, O) -> S, enabled: (S, O) -> bool, op: O)
    requires enabled(start, op)
    ensures Legal(start, step, enabled, [op]) && Final(start, step, [op]) == step(start, op)
  {
    assert [op][..0] == [];
  }

  /** One more enabled operation prolongs a run. */
  lemma OneMore<S, O>(start: S, step: (S, O) -> S, enabled: (S, O) -> bool, ops: seq<O>, op: O)
    requires Legal(start, step, enabled, ops) && enabled(Final(start, step, ops), op)
    ensures Legal(start, step, enabled, ops + [op])
    ensures Final(start, step, ops + [op]) == step(Final(start, step, ops), op)
  {
    assert (ops + [op])[..|ops|] == ops;
  }

  /** A property every step keeps holds at the end of every run. */
  lemma {:induction false} Invariance<S(!new), O(!new)>(
    start: S, step: (S, O) -> S, enabled: (S, O) -> bool, inv: S -> bool, ops: seq<O>)
    requires Legal(start, step, enabled, ops) && inv(start)
    requires forall s, o :: inv(s) && enabled(s, o) ==> inv(step(s, o))
    ensures inv(Final(start, step, ops))
  {
    if ops != [] {
      Invariance(start, step, enabled, inv, ops[..|ops| - 1]);
    }
  }

  function Total<O>(weight: O -> nat, ops: seq<O>): nat {
    if ops == [] then 0 else Total(weight, ops[..|ops| - 1]) + weight(ops[|ops| - 1])
  }

  /** When every step pays for itself out of a potential, a run costs no more than the potential it starts with. */
  lemma {:induction false} PotentialBound<S(!new), O(!new)>(
    start: S, step: (S, O) -> S, enabled: (S, O) -> bool, inv: S -> bool,
    weight: O -> nat, potential: S -> nat, ops: seq<O>)
    requires Legal(start, step, enabled, ops) && inv(start)
    requires forall s, o :: inv(s) && enabled(s, o) ==> inv(step(s, o))
    requires forall s, o :: inv(s) && enabled(s, o) ==> potential(step(s, o)) + weight(o) <= potential(s)
    ensures Total(weight, ops) + potential(Final(start, step, ops)) <= potential(start)
  {
    if ops != [] {
      var rest := ops[..|ops| - 1];
      PotentialBound(start, step, enabled, inv, weight, potential, rest);
      Invariance(start, step, enabled, inv, rest);
    }
  }

  /** A run whose every operation meets a second condition is a run under that condition too. */
  lemma {:induction false} Strengthen<S, O>(
    start: S, step: (S, O) -> S, enabled: (S, O) -> bool, stronger: (S, O) -> bool, ops: seq<O>)
    requires Legal(start, step, enabled, ops)
    requires forall k :: 0 <= k < |ops| && enabled(Final(start, step, ops[..k]), ops[k])
                         ==> stronger(Final(start, step, ops[..k]), ops[k])
    ensures Legal(start, step, stronger, ops)
  {
    if ops != [] {
      var n := |ops| - 1;
      assert forall k :: 0 <= k < n ==> ops[..n][..k] == ops[..k] && ops[..n][k] == ops[k];
      Strengthen(start, step, enabled, stronger, ops[..n]);
    }
  }
}
