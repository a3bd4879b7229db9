/** Delivery comes to an end: a measure that survives the resetting of attempt counters. */
module DeliveryEnds {
  import opened Prelude
  import opened Traces
  import opened Notifier
  import opened DeliveryBounds

  /** The alerts whose retries are limited: all but those without a key when a second attempt is allowed. */
  predicate Limited(m: Message, max: nat) {
    m.key != "" || m.chat == 0 || max <= 1
  }

  /** The worker may still put its copy back into the queue. */
  predicate MayReturn(g: Stage) {
    !g.Idle? && !g.Delivered? && !g.GaveUp?
  }

  predicate AllLimited(s: Net) {
    && (forall i :: 0 <= i < |s.queue| ==> Limited(s.queue[i], s.max))
    && (forall i :: 0 <= i < |s.workers| && MayReturn(s.workers[i].stage) ==> Limited(s.workers[i].stage.m, s.max))
  }

  /** A step of a worker, or the loss of a message; nothing new is queued and nobody joins. */
  predicate Progress(s: Net, op: Op) {
    Enabled(s, op) && (op.Advance? || op.Lose?)
  }

  // ------------------------------------------------------------ what is left to do

  /** Steps a copy has before it leaves its worker, plus what a return to the queue costs. */
  function StageWeight(g: Stage): nat {
    match g
    case Idle => 0
    case Delivered(_) => 1
    case GaveUp(_) => 1
    case Bounced(_) => 2
    case Sending(_) => 3
    case Popped(_) => 4
    case Resting(_) => 6
    case Releasing(_) => 7
  }

  function WorkWeight(workers: seq<Worker>): nat {
    if workers == [] then 0
    else WorkWeight(workers[..|workers| - 1]) + StageWeight(workers[|workers| - 1].stage)
  }

  lemma {:induction false} WorkAfter(workers: seq<Worker>, w: nat, x: Worker)
    requires w < |workers|
    ensures WorkWeight(workers[w := x]) + StageWeight(workers[w].stage) == WorkWeight(workers) + StageWeight(x.stage)
  {
    var n := |workers| - 1;
    if w == n {
      assert workers[w := x][..n] == workers[..n];
    } else {
      assert workers[w := x][..n] == workers[..n][w := x];
      WorkAfter(workers[..n], w, x);
    }
  }

  ghost function Keys(s: Net): set<string> {
    (set i | 0 <= i < |s.queue| :: s.queue[i].key)
    + (set i | 0 <= i < |s.workers| && !s.workers[i].stage.Idle? :: s.workers[i].stage.m.key)
  }

  ghost function Processes(s: Net): set<nat> {
    set i | 0 <= i < |s.workers| :: s.workers[i].process
  }

  /** The failures still allowed: one triple for each process, unresolved key and attempt number not yet used up. */
  ghost function Allowance(s: Net): set<(nat, string, nat)> {
    set p, k, n | p in Processes(s) && k in Keys(s) && 1 <= n <= s.max
                  && k != "" && k !in s.resolved && Counted(s, p, k) < n :: (p, k, n)
  }

  ghost function Measure(s: Net): nat {
    6 * |Allowance(s)| + 5 * |s.queue| + WorkWeight(s.workers)
  }

  lemma KeysShrink(s: Net, op: Op)
    requires Progress(s, op)
    ensures Keys(Step(s, op)) <= Keys(s) && Processes(Step(s, op)) == Processes(s)
  {
    var s' := Step(s, op);
    var w := op.w;
    forall k | k in Keys(s')
      ensures k in Keys(s)
    {
      if i :| 0 <= i < |s'.queue| && s'.queue[i].key == k {
        if s.workers[w].stage.Idle? {
          assert s.queue[i + 1].key == k;
        } else if i < |s.queue| {
          assert s.queue[i].key == k;
        } else {
          assert s.workers[w].stage.m.key == k;
        }
      } else {
        var i :| 0 <= i < |s'.workers| && !s'.workers[i].stage.Idle? && s'.workers[i].stage.m.key == k;
        if i == w && s.workers[w].stage.Idle? {
          assert s.queue[0].key == k;
        } else {
          assert s.workers[i].stage.m.key == k;
        }
      }
    }
    forall p
      ensures p in Processes(s') <==> p in Processes(s)
    {
      if i :| 0 <= i < |s.workers| && s.workers[i].process == p {
        assert s'.workers[i].process == p;
      }
      if i :| 0 <= i < |s'.workers| && s'.workers[i].process == p {
        assert s.workers[i].process == p;
      }
    }
  }

  /** The counter of an unresolved key never goes down: only resolved keys are forgotten. */
  lemma CountersGrow(s: Net, op: Op, p: nat, k: string)
    requires Exclusive(s) && Progress(s, op) && k != "" && k !in Step(s, op).resolved
    ensures k !in s.resolved && Counted(s, p, k) <= Counted(Step(s, op), p, k)
  {
  }

  lemma AllowanceShrinks(s: Net, op: Op)
    requires Exclusive(s) && Progress(s, op)
    ensures Allowance(Step(s, op)) <= Allowance(s)
  {
    KeysShrink(s, op);
    forall t | t in Allowance(Step(s, op))
      ensures t in Allowance(s)
    {
      CountersGrow(s, op, t.0, t.1);
    }
  }

  /** Going back to the queue uses up one allowed failure. */
  lemma RetryUsesAllowance(s: Net, w: nat, outcome: Outcome)
    requires Exclusive(s) && Progress(s, Advance(w, outcome)) && s.workers[w].stage.Bounced?
    requires s.workers[w].stage.m.key != "" && AdvanceWorker(s, w, outcome).workers[w].stage.Releasing?
    ensures |Allowance(AdvanceWorker(s, w, outcome))| < |Allowance(s)|
  {
    var s' := AdvanceWorker(s, w, outcome);
    var p, k := s.workers[w].process, s.workers[w].stage.m.key;
    AllowanceShrinks(s, Advance(w, outcome));
    var t := (p, k, Counted(s, p, k) + 1);
    assert p in Processes(s) && k in Keys(s);
    assert t in Allowance(s) && t !in Allowance(s');
    SubsetSize(Allowance(s'), Allowance(s));
  }

  lemma AdvanceWeight(s: Net, w: nat, outcome: Outcome)
    requires AllLimited(s) && Addressed(s) && Enabled(s, Advance(w, outcome))
    ensures var s' := AdvanceWorker(s, w, outcome);
            && (s'.workers[w].stage.Releasing? && s.workers[w].stage.Bounced? ==>
                  s.workers[w].stage.m.key != "" && StageWeight(s'.workers[w].stage) == StageWeight(s.workers[w].stage) + 5
                  && |s'.queue| == |s.queue|)
            && (!(s'.workers[w].stage.Releasing? && s.workers[w].stage.Bounced?) ==>
                  5 * |s'.queue| + StageWeight(s'.workers[w].stage) < 5 * |s.queue| + StageWeight(s.workers[w].stage))
            && s'.workers == s.workers[w := s'.workers[w]]
  {
  }

  lemma ProgressPays(s: Net, op: Op)
    requires Finite(s) && Progress(s, op)
    ensures Measure(Step(s, op)) + 1 <= Measure(s)
  {
    var s', w := Step(s, op), op.w;
    AllowanceShrinks(s, op);
    SubsetSize(Allowance(s'), Allowance(s));
    WorkAfter(s.workers, w, s'.workers[w]);
    if op.Advance? {
      AdvanceWeight(s, w, op.outcome);
      if s'.workers[w].stage.Releasing? && s.workers[w].stage.Bounced? {
        RetryUsesAllowance(s, w, op.outcome);
      }
    }
  }

  lemma StaysLimited(s: Net, op: Op)
    requires AllLimited(s) && Progress(s, op)
    ensures AllLimited(Step(s, op))
  {
  }

  predicate Finite(s: Net) {
    Exclusive(s) && Addressed(s) && AllLimited(s)
  }

  function One(op: Op): nat {
    1
  }

  lemma {:induction false} CountsOps(ops: seq<Op>)
    ensures Total(One, ops) == |ops|
  {
    if ops != [] {
      CountsOps(ops[..|ops| - 1]);
    }
  }

  /**
   * Termination: from any reachable state in which every alert that may return to the queue has a key (or
   * no recipient, or a single attempt is allowed), the workers together can make at most Measure(s) more steps, in any interleaving
   * and with any answers from the sender, as long as nothing new is queued.
   */
  lemma DeliveryEnds(s: Net, ops: seq<Op>)
    requires Finite(s) && Legal(s, Step, Progress, ops)
    ensures |ops| <= Measure(s)
  {
    forall r: Net, op: Op | Finite(r) && Progress(r, op)
      ensures Finite(Step(r, op)) && Measure(Step(r, op)) + One(op) <= Measure(r)
    {
      StepKeepsExclusive(r, op);
      StepKeepsAddressed(r, op);
      StaysLimited(r, op);
      ProgressPays(r, op);
    }
    PotentialBound(s, Step, Progress, Finite, One, Measure, ops);
    CountsOps(ops);
  }

  // ------------------------------------------------------------ without a key there is no end

  /** Six steps of one worker: pop, check, fail, count, release, push. */
  function Lap(w: nat): seq<Op> {
    seq(6, _ => Advance(w, Retryable))
  }

  /** The k-th state of a lap, apart from the record of sends. */
  function LapStage(k: nat, m: Message): Stage {
    if k == 1 then Popped(m) else if k == 2 then Sending(m) else if k == 3 then Bounced(m)
    else if k == 4 then Releasing(m) else if k == 5 then Resting(m) else Idle
  }

  predicate OnLap(s: Net, r: Net, k: nat, w: nat, m: Message) {
    && w < |s.workers|
    && r.(sends := s.sends) == s.(queue := if k == 0 || k == 6 then [m] else [], workers := At(s, w, LapStage(k, m)))
  }

  lemma LapStep(s: Net, r: Net, k: nat, w: nat, m: Message)
    requires OnLap(s, r, k, w, m) && k < 6 && m.key == "" && m.chat != 0 && s.max >= 2
    ensures Progress(r, Advance(w, Retryable)) && OnLap(s, Step(r, Advance(w, Retryable)), k + 1, w, m)
  {
    assert s.claims + {} == s.claims && s.claims - {} == s.claims;
  }

  lemma {:induction false} PartOfLap(s: Net, k: nat, w: nat, m: Message)
    requires OnLap(s, s, 0, w, m) && k <= 6 && m.key == "" && m.chat != 0 && s.max >= 2
    ensures var ops := seq(k, _ => Advance(w, Retryable));
            Legal(s, Step, Progress, ops) && OnLap(s, Final(s, Step, ops), k, w, m)
  {
    if k > 0 {
      var before := seq(k - 1, _ => Advance(w, Retryable));
      PartOfLap(s, k - 1, w, m);
      LapStep(s, Final(s, Step, before), k - 1, w, m);
      OneMore(s, Step, Progress, before, Advance(w, Retryable));
      assert seq(k, _ => Advance(w, Retryable)) == before + [Advance(w, Retryable)];
    }
  }

  /**
   * The exception is real: an alert without a key, for somebody, with a second attempt allowed, can go
   * round for ever. One lap brings everything but the record of sends back to where it was.
   */
  lemma KeylessCirculates(s: Net, w: nat, m: Message)
    requires w < |s.workers| && s.workers[w].stage.Idle? && s.queue == [m]
    requires !Limited(m, s.max)
    ensures Legal(s, Step, Progress, Lap(w))
    ensures Final(s, Step, Lap(w)).(sends := s.sends) == s
  {
    assert s.workers[w := s.workers[w].(stage := Idle)] == s.workers;
    PartOfLap(s, 6, w, m);
    assert Lap(w) == seq(6, _ => Advance(w, Retryable));
  }

  // ------------------------------------------------------------ exactly when delivery ends

  /** There is a worker, and an alert whose retries are not limited can still come back to the queue. */
  predicate Circulating(s: Net) {
    s.workers != [] && !AllLimited(s)
  }

  /** The worker that takes the next step: one that holds an unlimited alert, or any. */
  function Mover(s: Net): (w: nat)
    requires Circulating(s)
    ensures w < |s.workers|
    ensures (exists i: nat :: i < |s.workers| && HoldsUnlimited(s, i)) ==> HoldsUnlimited(s, w)
  {
    FirstHolder(s, 0)
  }

  predicate HoldsUnlimited(s: Net, i: nat) {
    i < |s.workers| && MayReturn(s.workers[i].stage) && !Limited(s.workers[i].stage.m, s.max)
  }

  function FirstHolder(s: Net, from: nat): (w: nat)
    requires s.workers != [] && from <= |s.workers|
    ensures w < |s.workers|
    ensures (exists i: nat :: from <= i < |s.workers| && HoldsUnlimited(s, i)) ==> HoldsUnlimited(s, w)
    decreases |s.workers| - from
  {
    if from == |s.workers| then 0 else if HoldsUnlimited(s, from) then from else FirstHolder(s, from + 1)
  }

  /** Some step keeps the unlimited alert going. */
  lemma KeepsCirculating(s: Net)
    requires Circulating(s)
    ensures var op := Advance(Mover(s), Retryable);
            Progress(s, op) && Circulating(Step(s, op))
  {
    var w := Mover(s);
    var s' := AdvanceWorker(s, w, Retryable);
    if HoldsUnlimited(s, w) {
      if s.workers[w].stage.Resting? {
        assert s'.queue[|s.queue|] == s.workers[w].stage.m;
      } else {
        assert HoldsUnlimited(s', w);
      }
    } else {
      assert forall i :: 0 <= i < |s.workers| && MayReturn(s.workers[i].stage) && !Limited(s.workers[i].stage.m, s.max) ==>
          HoldsUnlimited(s, i);
      var i :| 0 <= i < |s.queue| && !Limited(s.queue[i], s.max);
      if s.workers[w].stage.Idle? {
        assert if i == 0 then HoldsUnlimited(s', w) else s'.queue[i - 1] == s.queue[i];
      } else {
        assert s'.queue[i] == s.queue[i];
      }
    }
  }

  /** The steps that keep it going, n of them. */
  function Going(s: Net, n: nat): (ops: seq<Op>)
    requires Circulating(s)
    ensures |ops| == n && Legal(s, Step, Progress, ops) && Circulating(Final(s, Step, ops))
  {
    if n == 0 then []
    else
      var before := Going(s, n - 1);
      var op := Advance(Mover(Final(s, Step, before)), Retryable);
      KeepsCirculating(Final(s, Step, before));
      OneMore(s, Step, Progress, before, op);
      before + [op]
  }

  /** No run of worker steps from here is longer than the bound. */
  ghost predicate EndsWithin(s: Net, bound: nat) {
    forall ops :: Legal(s, Step, Progress, ops) ==> |ops| <= bound
  }

  ghost predicate CanGoOn(s: Net, n: nat) {
    exists ops :: |ops| == n && Legal(s, Step, Progress, ops)
  }

  /**
   * Termination, exactly: in a state that a run without claim trouble can reach, the number of steps the
   * workers can still make is bounded if and only if there is no worker, or every alert that may return to
   * the queue has its retries limited. Otherwise there are runs of every length.
   */
  lemma EndsExactlyWhenLimited(s: Net)
    requires Exclusive(s) && Addressed(s)
    ensures (exists bound :: EndsWithin(s, bound)) <==> s.workers == [] || AllLimited(s)
    ensures s.workers != [] && !AllLimited(s) ==> forall n: nat :: CanGoOn(s, n)
  {
    if s.workers == [] || AllLimited(s) {
      forall ops | Legal(s, Step, Progress, ops)
        ensures |ops| <= Measure(s)
      {
        if AllLimited(s) {
          DeliveryEnds(s, ops);
        } else {
          NobodyMoves(s, ops);
        }
      }
      assert EndsWithin(s, Measure(s));
    } else {
      forall n: nat
        ensures CanGoOn(s, n)
      {
        var ops := Going(s, n);
      }
      forall bound: nat
        ensures !EndsWithin(s, bound)
      {
        var ops := Going(s, bound + 1);
      }
    }
  }

  lemma NobodyMoves(s: Net, ops: seq<Op>)
    requires s.workers == [] && Legal(s, Step, Progress, ops)
    ensures ops == []
  {
    if ops != [] {
      PrefixIsRun(s, Step, Progress, ops, 0);
    }
  }

  /** In every run without claim trouble the claims are exclusive and the alerts in hand have recipients. */
  lemma {:induction false} RunsAreOrderly(max: nat, ops: seq<Op>)
    requires Run(max, ops)
    ensures Exclusive(Exec(max, ops)) && Addressed(Exec(max, ops))
  {
    RunsAreExclusive(max, ops);
    if ops != [] {
      RunsAreOrderly(max, ops[..|ops| - 1]);
      StepKeepsAddressed(Exec(max, ops[..|ops| - 1]), ops[|ops| - 1]);
    }
  }
}
