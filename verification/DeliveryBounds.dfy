/** How often an alert is tried, that none is lost without a fault, and that delivery comes to an end. */
module DeliveryBounds {
  import opened Notifier

  // ------------------------------------------------------------ at most MaxAttempts sends

  function SendCount(sends: seq<Send>, process: nat, key: string): nat {
    if sends == [] then 0
    else
      var last := sends[|sends| - 1];
      SendCount(sends[..|sends| - 1], process, key) + if last.key == key && last.process == process then 1 else 0
  }

  predicate OwnedBy(s: Net, i: nat, key: string) {
    i < |s.workers| && Owning(s.workers[i].stage) && s.workers[i].stage.m.key == key
  }

  /** The key can still be sent: nobody has claimed it, or the worker that has is alive. */
  predicate Open(s: Net, key: string) {
    key !in s.claims || exists i: nat :: i < |s.workers| && OwnedBy(s, i, key)
  }

  predicate BouncedAt(s: Net, i: nat, process: nat, key: string) {
    i < |s.workers| && s.workers[i].process == process && s.workers[i].stage.Bounced? && s.workers[i].stage.m.key == key
  }

  /** A failed send of the key by the process that is not counted yet. */
  function Uncounted(s: Net, process: nat, key: string): nat {
    if exists i: nat :: i < |s.workers| && BouncedAt(s, i, process, key) then 1 else 0
  }

  /**
   * While a key is open the counter keeps up with the sends and stays below the limit; once it is not,
   * the total is final. Forgetting a counter is harmless because only resolved keys are forgotten.
   */
  predicate WithinLimit(s: Net, process: nat, key: string) {
    && SendCount(s.sends, process, key) <= s.max
    && (Open(s, key) ==>
          && Counted(s, process, key) < s.max
          && SendCount(s.sends, process, key) <= Counted(s, process, key) + Uncounted(s, process, key))
  }

  lemma SendCountAfter(s: Net, w: nat, outcome: Outcome, process: nat, key: string)
    requires w < |s.workers|
    ensures SendCount(AdvanceWorker(s, w, outcome).sends, process, key)
         == SendCount(s.sends, process, key)
            + if s.workers[w].stage.Sending? && s.workers[w].stage.m.key == key && s.workers[w].process == process
              then 1 else 0
  {
    var sends' := AdvanceWorker(s, w, outcome).sends;
    if s.workers[w].stage.Sending? {
      assert sends'[..|sends'| - 1] == s.sends;
    }
  }

  /** Other workers keep their stages when worker w moves. */
  predicate OnlyMoves(s: Net, s': Net, w: nat) {
    && w < |s.workers| == |s'.workers|
    && s'.workers[w].process == s.workers[w].process
    && (forall i :: 0 <= i < |s.workers| && i != w ==> s'.workers[i] == s.workers[i])
  }

  lemma AdvanceMovesOne(s: Net, w: nat, outcome: Outcome)
    requires w < |s.workers|
    ensures OnlyMoves(s, AdvanceWorker(s, w, outcome), w)
    ensures AdvanceWorker(s, w, outcome).max == s.max
  {
  }

  /** If worker w owned the key and no longer does, nobody does. */
  lemma OwnersAfter(s: Net, s': Net, w: nat, key: string)
    requires Exclusive(s) && OnlyMoves(s, s', w)
    ensures (exists i: nat :: i < |s'.workers| && OwnedBy(s', i, key))
       <==> OwnedBy(s', w, key) || (!OwnedBy(s, w, key) && exists i: nat :: i < |s.workers| && OwnedBy(s, i, key))
  {
    if !OwnedBy(s, w, key) && exists i: nat :: i < |s.workers| && OwnedBy(s, i, key) {
      var i: nat :| i < |s.workers| && OwnedBy(s, i, key);
      assert OwnedBy(s', i, key);
    }
    if i: nat :| i < |s'.workers| && OwnedBy(s', i, key) && i != w {
      assert OwnedBy(s, i, key);
    }
  }

  lemma BouncesAfter(s: Net, s': Net, w: nat, process: nat, key: string)
    requires Exclusive(s) && OnlyMoves(s, s', w) && key != ""
    ensures Uncounted(s', process, key)
         == if BouncedAt(s', w, process, key) then 1
            else if BouncedAt(s, w, process, key) then 0
            else Uncounted(s, process, key)
  {
    if i: nat :| i < |s'.workers| && BouncedAt(s', i, process, key) && i != w {
      assert BouncedAt(s, i, process, key);
    }
    if i: nat :| i < |s.workers| && BouncedAt(s, i, process, key) && i != w {
      assert BouncedAt(s', i, process, key);
    }
  }

  /** A claimed-by-somebody-else or unclaimed key has no uncounted failure. */
  lemma NoBounceOutside(s: Net, process: nat, key: string)
    requires Exclusive(s) && key != "" && (key !in s.claims || key in s.resolved)
    ensures Uncounted(s, process, key) == 0
  {
  }

  /** While the owner is at another stage there is no uncounted failure of the key. */
  lemma NoBounceElsewhere(s: Net, w: nat, process: nat, key: string)
    requires Exclusive(s) && key != "" && OwnedBy(s, w, key) && !s.workers[w].stage.Bounced?
    ensures Uncounted(s, process, key) == 0
  {
  }

  /** A resolved key is closed for good. */
  lemma ResolvedIsClosed(s: Net, key: string)
    requires Exclusive(s) && key in s.resolved
    ensures !Open(s, key)
  {
  }

  lemma AdvanceKeepsLimit(s: Net, w: nat, outcome: Outcome, process: nat, key: string)
    requires Exclusive(s) && WithinLimit(s, process, key) && key != "" && w < |s.workers|
    ensures WithinLimit(AdvanceWorker(s, w, outcome), process, key)
  {
    var s' := AdvanceWorker(s, w, outcome);
    AdvanceMovesOne(s, w, outcome);
    SendCountAfter(s, w, outcome, process, key);
    OwnersAfter(s, s', w, key);
    BouncesAfter(s, s', w, process, key);
    if key !in s.claims {
      NoBounceOutside(s, process, key);
    }
    if OwnedBy(s, w, key) && !s.workers[w].stage.Bounced? {
      NoBounceElsewhere(s, w, process, key);
    }
    if Finished(s.workers[w].stage) && s.workers[w].stage.m.key == key {
      ResolvedIsClosed(s, key);
    }
  }

  lemma StepKeepsLimit(s: Net, op: Op, process: nat, key: string)
    requires Exclusive(s) && WithinLimit(s, process, key) && key != "" && Enabled(s, op)
    ensures WithinLimit(Step(s, op), process, key)
  {
    var s' := Step(s, op);
    if op.Advance? {
      AdvanceKeepsLimit(s, op.w, op.outcome, process, key);
    } else if op.Lose? {
      OwnersAfter(s, s', op.w, key);
      BouncesAfter(s, s', op.w, process, key);
    } else if op.Join? {
      JoinChangesNobody(s, op, process, key);
    } else {
      SameWorkers(s, s', process, key);
    }
  }

  lemma SameWorkers(s: Net, s': Net, process: nat, key: string)
    requires s.workers == s'.workers && s.claims == s'.claims
    ensures Uncounted(s', process, key) == Uncounted(s, process, key)
    ensures Open(s', key) <==> Open(s, key)
  {
    if i: nat :| i < |s.workers| && BouncedAt(s, i, process, key) {
      assert BouncedAt(s', i, process, key);
    }
    if i: nat :| i < |s'.workers| && BouncedAt(s', i, process, key) {
      assert BouncedAt(s, i, process, key);
    }
    if i: nat :| i < |s.workers| && OwnedBy(s, i, key) {
      assert OwnedBy(s', i, key);
    }
    if i: nat :| i < |s'.workers| && OwnedBy(s', i, key) {
      assert OwnedBy(s, i, key);
    }
  }

  lemma JoinChangesNobody(s: Net, op: Op, process: nat, key: string)
    requires op.Join?
    ensures Uncounted(Step(s, op), process, key) == Uncounted(s, process, key)
    ensures Open(Step(s, op), key) <==> Open(s, key)
  {
    var s' := Step(s, op);
    if i: nat :| i < |s.workers| && BouncedAt(s, i, process, key) {
      assert BouncedAt(s', i, process, key);
    }
    if i: nat :| i < |s'.workers| && BouncedAt(s', i, process, key) {
      assert BouncedAt(s, i, process, key);
    }
    if i: nat :| i < |s.workers| && OwnedBy(s, i, key) {
      assert OwnedBy(s', i, key);
    }
    if i: nat :| i < |s'.workers| && OwnedBy(s', i, key) {
      assert OwnedBy(s, i, key);
    }
  }

  /**
   * Bounded attempts: in every run, whatever is lost and however many processes share the queue, one
   * process sends one key at most MaxAttempts times, although resolving the key resets its counter.
   */
  lemma {:induction false} AttemptsBounded(max: nat, ops: seq<Op>, process: nat, key: string)
    requires Run(max, ops) && max >= 1 && key != ""
    ensures WithinLimit(Exec(max, ops), process, key)
    ensures SendCount(Exec(max, ops).sends, process, key) <= max
  {
    if ops != [] {
      var n := |ops| - 1;
      AttemptsBounded(max, ops[..n], process, key);
      RunsAreExclusive(max, ops[..n]);
      StepKeepsLimit(Exec(max, ops[..n]), ops[n], process, key);
    }
    MaxIsFixed(max, ops);
  }

  lemma {:induction false} MaxIsFixed(max: nat, ops: seq<Op>)
    ensures Exec(max, ops).max == max
  {
    if ops != [] {
      MaxIsFixed(max, ops[..|ops| - 1]);
    }
  }

  // ------------------------------------------------------------ what it takes to be settled

  /** The sender answered for good, or some process used up its attempts. */
  ghost predicate Settled(s: Net, key: string) {
    || (exists i :: 0 <= i < |s.sends| && s.sends[i].key == key && s.sends[i].outcome != Retryable)
    || (exists process :: SendCount(s.sends, process, key) >= s.max)
  }

  /** The counter never runs ahead of the sends. */
  predicate Earned(s: Net, process: nat, key: string) {
    Counted(s, process, key) + Uncounted(s, process, key) <= SendCount(s.sends, process, key)
  }

  ghost predicate Justified(s: Net, key: string) {
    (forall process :: Earned(s, process, key)) && (key in s.resolved ==> Settled(s, key))
  }

  lemma AdvanceKeepsEarned(s: Net, w: nat, outcome: Outcome, process: nat, key: string)
    requires Exclusive(s) && Earned(s, process, key) && key != "" && w < |s.workers|
    ensures Earned(AdvanceWorker(s, w, outcome), process, key)
  {
    var s' := AdvanceWorker(s, w, outcome);
    AdvanceMovesOne(s, w, outcome);
    SendCountAfter(s, w, outcome, process, key);
    BouncesAfter(s, s', w, process, key);
    if OwnedBy(s, w, key) && !s.workers[w].stage.Bounced? {
      NoBounceElsewhere(s, w, process, key);
    }
  }

  lemma StepKeepsEarned(s: Net, op: Op, process: nat, key: string)
    requires Exclusive(s) && Earned(s, process, key) && key != "" && Enabled(s, op)
    ensures Earned(Step(s, op), process, key)
  {
    if op.Advance? {
      AdvanceKeepsEarned(s, op.w, op.outcome, process, key);
    } else if op.Lose? {
      BouncesAfter(s, Step(s, op), op.w, process, key);
    } else if op.Join? {
      JoinChangesNobody(s, op, process, key);
    } else {
      SameWorkers(s, Step(s, op), process, key);
    }
  }

  /** What is settled stays settled: sends are only added. */
  lemma StaysSettled(s: Net, op: Op, key: string)
    requires Enabled(s, op) && Settled(s, key)
    ensures Settled(Step(s, op), key)
  {
    var s' := Step(s, op);
    if i :| 0 <= i < |s.sends| && s.sends[i].key == key && s.sends[i].outcome != Retryable {
      assert s'.sends[i] == s.sends[i];
    } else {
      var process :| SendCount(s.sends, process, key) >= s.max;
      if op.Advance? {
        SendCountAfter(s, op.w, op.outcome, process, key);
      }
      assert SendCount(s'.sends, process, key) >= s'.max;
    }
  }

  /** A worker resolves a key only on a final answer or with its attempts used up. */
  lemma ResolvingSettles(s: Net, op: Op, key: string)
    requires Enabled(s, op) && key != "" && key !in s.resolved && key in Step(s, op).resolved
    requires forall process :: Earned(s, process, key)
    ensures Settled(Step(s, op), key)
  {
    var g, process, s' := s.workers[op.w].stage, s.workers[op.w].process, Step(s, op);
    if g.Sending? {
      assert s'.sends[|s.sends|] == Send(process, key, g.m.chat, op.outcome);
    } else {
      assert BouncedAt(s, op.w, process, key) && Earned(s, process, key);
      assert SendCount(s'.sends, process, key) >= s'.max;
    }
  }

  /**
   * In every run an alert counts as settled only if the sender accepted or refused it, or a process has
   * sent it as often as it may.
   */
  lemma {:induction false} SettledForAReason(max: nat, ops: seq<Op>, key: string)
    requires Run(max, ops) && max >= 1 && key != ""
    ensures Justified(Exec(max, ops), key)
  {
    if ops != [] {
      var n := |ops| - 1;
      var s := Exec(max, ops[..n]);
      SettledForAReason(max, ops[..n], key);
      RunsAreExclusive(max, ops[..n]);
      forall process
        ensures Earned(Exec(max, ops), process, key)
      {
        StepKeepsEarned(s, ops[n], process, key);
      }
      if key in Exec(max, ops).resolved {
        if key in s.resolved {
          StaysSettled(s, ops[n], key);
        } else {
          ResolvingSettles(s, ops[n], key);
        }
      }
    }
  }

  // ------------------------------------------------------------ final answers are final

  /** Once the sender has accepted or refused the key for good, it is not sent again. */
  ghost predicate AnsweredOnce(s: Net, key: string) {
    && (forall i :: 0 <= i < |s.sends| && s.sends[i].key == key && s.sends[i].outcome != Retryable ==> key in s.resolved)
    && (forall i, j :: 0 <= i < j < |s.sends| && s.sends[i].key == key && s.sends[j].key == key ==>
          s.sends[i].outcome == Retryable)
  }

  lemma StepKeepsFinal(s: Net, op: Op, key: string)
    requires Exclusive(s) && AnsweredOnce(s, key) && key != "" && Enabled(s, op)
    ensures AnsweredOnce(Step(s, op), key)
  {
  }

  /**
   * In every run without claim trouble, of several sends of one key all but the last were told to try
   * again: neither a delivered alert nor one refused for good is sent once more, by any process.
   */
  lemma {:induction false} FinalAnswersAreFinal(max: nat, ops: seq<Op>, key: string)
    requires Run(max, ops) && key != ""
    ensures AnsweredOnce(Exec(max, ops), key)
  {
    if ops != [] {
      var n := |ops| - 1;
      FinalAnswersAreFinal(max, ops[..n], key);
      RunsAreExclusive(max, ops[..n]);
      StepKeepsFinal(Exec(max, ops[..n]), ops[n], key);
    }
  }

  // ------------------------------------------------------------ nothing is lost without a fault

  predicate Holds(g: Stage, key: string) {
    !g.Idle? && !g.Delivered? && !g.GaveUp? && g.m.key == key && g.m.chat != 0
  }

  predicate QueuedAt(s: Net, i: nat, key: string) {
    i < |s.queue| && s.queue[i].key == key && s.queue[i].chat != 0
  }

  predicate HeldBy(s: Net, i: nat, key: string) {
    i < |s.workers| && Holds(s.workers[i].stage, key)
  }

  /** Some copy of the alert is in the queue or in a worker's hands. */
  predicate Live(s: Net, key: string) {
    (exists i: nat :: i < |s.queue| && QueuedAt(s, i, key)) || (exists i: nat :: i < |s.workers| && HeldBy(s, i, key))
  }

  /** In a fault-free run a claim is settled or in the hands of its owner. */
  predicate ClaimAccounted(s: Net, key: string) {
    key in s.claims ==> key in s.resolved || exists i: nat :: i < |s.workers| && OwnedBy(s, i, key)
  }

  /** Past the first check a message has a recipient. */
  predicate Addressed(s: Net) {
    forall i :: 0 <= i < |s.workers| && !s.workers[i].stage.Idle? && !s.workers[i].stage.Popped? ==>
      s.workers[i].stage.m.chat != 0
  }

  predicate Conserved(s: Net, key: string) {
    && Addressed(s) && ClaimAccounted(s, key)
    && (key in s.pushed ==> key in s.resolved || Live(s, key))
  }

  lemma StepKeepsAddressed(s: Net, op: Op)
    requires Addressed(s) && Enabled(s, op)
    ensures Addressed(Step(s, op))
  {
  }

  lemma AdvanceKeepsClaimAccounted(s: Net, w: nat, outcome: Outcome, key: string)
    requires Exclusive(s) && ClaimAccounted(s, key) && key != "" && w < |s.workers|
    ensures ClaimAccounted(AdvanceWorker(s, w, outcome), key)
  {
    AdvanceMovesOne(s, w, outcome);
    OwnersAfter(s, AdvanceWorker(s, w, outcome), w, key);
  }

  /** Copies in other hands stay where they are, and the queue only loses its head to worker w. */
  lemma OthersStayLive(s: Net, w: nat, outcome: Outcome, key: string)
    requires w < |s.workers| && Live(s, key)
    ensures Live(AdvanceWorker(s, w, outcome), key)
         || (HeldBy(s, w, key) && !HeldBy(AdvanceWorker(s, w, outcome), w, key))
  {
    var s' := AdvanceWorker(s, w, outcome);
    AdvanceMovesOne(s, w, outcome);
    if i: nat :| i < |s.workers| && HeldBy(s, i, key) && i != w {
      assert HeldBy(s', i, key);
    }
    if i: nat :| i < |s.queue| && QueuedAt(s, i, key) {
      if s.workers[w].stage.Idle? {
        assert i > 0 ==> QueuedAt(s', i - 1, key);
        assert i == 0 ==> HeldBy(s', w, key);
      } else {
        assert QueuedAt(s', i, key);
      }
    }
  }

  /** A worker that lets go of a copy has settled the alert, requeued it, or met a claim with a live owner. */
  lemma LettingGo(s: Net, w: nat, outcome: Outcome, key: string)
    requires Exclusive(s) && Conserved(s, key) && key != "" && w < |s.workers|
    requires HeldBy(s, w, key) && !HeldBy(AdvanceWorker(s, w, outcome), w, key)
    ensures key in AdvanceWorker(s, w, outcome).resolved || Live(AdvanceWorker(s, w, outcome), key)
  {
    var s' := AdvanceWorker(s, w, outcome);
    AdvanceMovesOne(s, w, outcome);
    if s.workers[w].stage.Resting? {
      assert QueuedAt(s', |s.queue|, key);
    } else if s.workers[w].stage.Popped? && key !in s.resolved {
      var i: nat :| i < |s.workers| && OwnedBy(s, i, key);
      assert i != w && HeldBy(s', i, key);
    }
  }

  lemma AdvanceKeepsConserved(s: Net, w: nat, outcome: Outcome, key: string)
    requires Exclusive(s) && Conserved(s, key) && key != "" && Enabled(s, Advance(w, outcome))
    ensures Conserved(AdvanceWorker(s, w, outcome), key)
  {
    var s' := AdvanceWorker(s, w, outcome);
    StepKeepsAddressed(s, Advance(w, outcome));
    AdvanceKeepsClaimAccounted(s, w, outcome, key);
    ResolvedAfter(s, w, outcome);
    if Live(s, key) && !Live(s', key) {
      OthersStayLive(s, w, outcome, key);
      LettingGo(s, w, outcome, key);
    }
  }

  lemma OtherKeepsConserved(s: Net, op: Op, key: string)
    requires Conserved(s, key) && (op.Enqueue? || op.Join?)
    ensures Conserved(Step(s, op), key)
  {
    var s' := Step(s, op);
    if i: nat :| i < |s.workers| && OwnedBy(s, i, key) {
      assert OwnedBy(s', i, key);
    }
    if i: nat :| i < |s.queue| && QueuedAt(s, i, key) {
      assert QueuedAt(s', i, key);
    }
    if i: nat :| i < |s.workers| && HeldBy(s, i, key) {
      assert HeldBy(s', i, key);
    }
    if op.Enqueue? {
      assert op.message.key == key && op.message.chat != 0 ==> QueuedAt(s', |s.queue|, key);
    }
  }

  predicate FaultFree(ops: seq<Op>) {
    forall i :: 0 <= i < |ops| ==> !ops[i].Lose?
  }

  /**
   * Nothing is lost: in every fault-free run a key ever queued for somebody is settled - sent, refused or
   * exhausted - or some copy of it is in the queue or in a worker's hands.
   */
  lemma {:induction false} NothingLost(max: nat, ops: seq<Op>, key: string)
    requires Run(max, ops) && FaultFree(ops) && key != ""
    ensures Conserved(Exec(max, ops), key)
  {
    if ops != [] {
      var n := |ops| - 1;
      NothingLost(max, ops[..n], key);
      RunsAreExclusive(max, ops[..n]);
      if ops[n].Advance? {
        AdvanceKeepsConserved(Exec(max, ops[..n]), ops[n].w, ops[n].outcome, key);
      } else {
        OtherKeepsConserved(Exec(max, ops[..n]), ops[n], key);
      }
    }
  }

  lemma {:induction false} EnqueuedIsPushed(max: nat, ops: seq<Op>, m: Message)
    requires Enqueue(m) in ops && m.key != "" && m.chat != 0
    ensures m.key in Exec(max, ops).pushed
  {
    var n := |ops| - 1;
    if ops[n] != Enqueue(m) {
      EnqueuedIsPushed(max, ops[..n], m);
      PushedGrows(Exec(max, ops[..n]), ops[n]);
    }
  }

  lemma PushedGrows(s: Net, op: Op)
    ensures s.pushed <= Step(s, op).pushed
  {
  }

  /** Nothing is queued and nobody is busy. */
  predicate AtRest(s: Net) {
    s.queue == [] && forall i :: 0 <= i < |s.workers| ==> s.workers[i].stage.Idle?
  }

  /** When a fault-free run has come to rest, every alert ever queued for somebody is settled for a reason. */
  lemma RestIsSettled(max: nat, ops: seq<Op>, m: Message)
    requires Run(max, ops) && FaultFree(ops) && AtRest(Exec(max, ops)) && max >= 1
    requires Enqueue(m) in ops && m.key != "" && m.chat != 0
    ensures m.key in Exec(max, ops).resolved && Settled(Exec(max, ops), m.key)
  {
    EnqueuedIsPushed(max, ops, m);
    NothingLost(max, ops, m.key);
    SettledForAReason(max, ops, m.key);
  }
}
