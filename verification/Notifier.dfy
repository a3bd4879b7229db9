/**
 * internal/notify: any number of workers, in any number of processes, deliver alerts from one shared
 * queue with one shared set of claims and one attempt counter per process. Every queue, claim, counter
 * and send operation is one atomic step, and the steps of the workers interleave arbitrarily.
 */
module Notifier {
  import opened Traces

  /** A queued alert: its dedup key and the chat it goes to. */
  datatype Message = Message(key: string, chat: int)

  datatype Outcome = Accepted | Retryable | Refused

  /** Where a worker is inside `deliver` and `requeue`. */
  datatype Stage =
    | Idle
    | Popped(m: Message)
    | Sending(m: Message)
    | Delivered(m: Message)
    | Bounced(m: Message)
    | GaveUp(m: Message)
    | Releasing(m: Message)
    | Resting(m: Message)

  datatype Worker = Worker(process: nat, stage: Stage)

  datatype Send = Send(process: nat, key: string, chat: int, outcome: Outcome)

  /**
   * The shared state. `sends`, `resolved` and `pushed` are its history: every send made, the keys sent,
   * refused or exhausted, and the keys ever queued for somebody.
   */
  datatype Net = Net(
    max: nat, queue: seq<Message>, claims: set<string>, attempts: map<(nat, string), nat>,
    workers: seq<Worker>, sends: seq<Send>, resolved: set<string>, pushed: set<string>)

  /**
   * The last two are trouble with claims: a claim request that fails, after or without taking effect, so
   * that the worker sends anyway, and a claim that outlives its time.
   */
  datatype Op =
    | Enqueue(message: Message)
    | Join(process: nat)
    | Advance(w: nat, outcome: Outcome)
    | Lose(w: nat)
    | SendAnyway(w: nat, message: Message, applied: bool)
    | Expire(key: string)

  function Start(max: nat): Net {
    Net(max, [], {}, map[], [], [], {}, {})
  }

  function Named(key: string): set<string> {
    if key == "" then {} else {key}
  }

  /** `attemptCounter`: the number of failed attempts counted for a key in a process. */
  function Counted(s: Net, process: nat, key: string): nat {
    if (process, key) in s.attempts then s.attempts[(process, key)] else 0
  }

  /** `attemptCounter.next`: without a key every attempt is the first. */
  function NextAttempt(s: Net, process: nat, key: string): nat {
    if key == "" then 1 else Counted(s, process, key) + 1
  }

  function Count(s: Net, process: nat, key: string): map<(nat, string), nat> {
    if key == "" then s.attempts else s.attempts[(process, key) := Counted(s, process, key) + 1]
  }

  function Forget(s: Net, process: nat, key: string): map<(nat, string), nat> {
    if key == "" then s.attempts else s.attempts - {(process, key)}
  }

  function At(s: Net, w: nat, stage: Stage): seq<Worker>
    requires w < |s.workers|
  {
    s.workers[w := s.workers[w].(stage := stage)]
  }

  /** The next step of worker w; `outcome` is what the sender answers, when it is asked. */
  function AdvanceWorker(s: Net, w: nat, outcome: Outcome): Net
    requires w < |s.workers|
  {
    var p := s.workers[w].process;
    match s.workers[w].stage
    case Idle =>
      if s.queue == [] then s else s.(queue := s.queue[1..], workers := At(s, w, Popped(s.queue[0])))
    case Popped(m) =>
      if m.chat == 0 then s.(workers := At(s, w, Idle))
      else if m.key in s.claims && m.key != "" then s.(workers := At(s, w, Idle))
      else s.(claims := s.claims + Named(m.key), workers := At(s, w, Sending(m)))
    case Sending(m) =>
      var sent := s.(sends := s.sends + [Send(p, m.key, m.chat, outcome)]);
      (match outcome
       case Accepted => sent.(resolved := s.resolved + Named(m.key), workers := At(s, w, Delivered(m)))
       case Retryable => sent.(workers := At(s, w, Bounced(m)))
       case Refused => sent.(resolved := s.resolved + Named(m.key), workers := At(s, w, Idle)))
    case Delivered(m) =>
      s.(attempts := Forget(s, p, m.key), workers := At(s, w, Idle))
    case Bounced(m) =>
      var counted := s.(attempts := Count(s, p, m.key));
      if NextAttempt(s, p, m.key) >= s.max
      then counted.(resolved := s.resolved + Named(m.key), workers := At(s, w, GaveUp(m)))
      else counted.(workers := At(s, w, Releasing(m)))
    case GaveUp(m) =>
      s.(attempts := Forget(s, p, m.key), workers := At(s, w, Idle))
    case Releasing(m) =>
      s.(claims := s.claims - Named(m.key), workers := At(s, w, Resting(m)))
    case Resting(m) =>
      s.(queue := s.queue + [m], workers := At(s, w, Idle))
  }

  predicate Possible(s: Net, op: Op) {
    match op
    case Enqueue(_) => true
    case Join(_) => true
    case Advance(w, _) => w < |s.workers| && (s.workers[w].stage.Idle? ==> s.queue != [])
    case Lose(w) => w < |s.workers| && !s.workers[w].stage.Idle?
    case SendAnyway(w, m, _) => w < |s.workers| && s.workers[w].stage == Popped(m) && m.chat != 0 && m.key != ""
    case Expire(key) => key in s.claims
  }

  /** A step without trouble with claims. */
  predicate Enabled(s: Net, op: Op) {
    Possible(s, op) && !op.SendAnyway? && !op.Expire?
  }

  /**
   * One step. Losing a worker's message stands for a crash, a shutdown while sending or waiting, a claim
   * that cannot be released and a push that fails.
   */
  function Step(s: Net, op: Op): Net {
    match op
    case Enqueue(m) => s.(queue := s.queue + [m], pushed := if m.chat != 0 then s.pushed + Named(m.key) else s.pushed)
    case Join(process) => s.(workers := s.workers + [Worker(process, Idle)])
    case Advance(w, outcome) => if w < |s.workers| then AdvanceWorker(s, w, outcome) else s
    case Lose(w) => if w < |s.workers| then s.(workers := At(s, w, Idle)) else s
    case SendAnyway(w, m, applied) =>
      if w >= |s.workers| then s
      else s.(claims := if applied then s.claims + Named(m.key) else s.claims, workers := At(s, w, Sending(m)))
    case Expire(key) => s.(claims := s.claims - {key})
  }

  /** A run of the protocol with whatever trouble. */
  predicate AnyRun(max: nat, ops: seq<Op>) {
    Legal(Start(max), Step, Possible, ops)
  }

  /** A run without trouble with claims. */
  predicate Run(max: nat, ops: seq<Op>) {
    Legal(Start(max), Step, Enabled, ops)
  }

  function Exec(max: nat, ops: seq<Op>): Net {
    Final(Start(max), Step, ops)
  }

  // ------------------------------------------------------------ who owns a claim

  /** The stages in which a worker relies on its claim. */
  predicate Owning(g: Stage) {
    (g.Sending? || g.Bounced? || g.Releasing?) && g.m.key != ""
  }

  predicate Finished(g: Stage) {
    (g.Delivered? || g.GaveUp?) && g.m.key != ""
  }

  predicate ClaimsOwned(s: Net) {
    forall i :: 0 <= i < |s.workers| && Owning(s.workers[i].stage) ==>
      s.workers[i].stage.m.key in s.claims && s.workers[i].stage.m.key !in s.resolved
  }

  predicate SingleOwner(s: Net) {
    forall i, j :: 0 <= i < j < |s.workers| && Owning(s.workers[i].stage) && Owning(s.workers[j].stage) ==>
      s.workers[i].stage.m.key != s.workers[j].stage.m.key
  }

  predicate ResolvedClaimed(s: Net) {
    && s.resolved <= s.claims
    && (forall i :: 0 <= i < |s.workers| && Finished(s.workers[i].stage) ==> s.workers[i].stage.m.key in s.resolved)
  }

  predicate Exclusive(s: Net) {
    ClaimsOwned(s) && SingleOwner(s) && ResolvedClaimed(s)
  }

  lemma TakingKeepsExclusive(s: Net, w: nat, outcome: Outcome)
    requires Exclusive(s) && w < |s.workers| && (s.workers[w].stage.Idle? || s.workers[w].stage.Popped?)
    ensures Exclusive(AdvanceWorker(s, w, outcome))
  {
  }

  lemma SendingKeepsExclusive(s: Net, w: nat, outcome: Outcome)
    requires Exclusive(s) && w < |s.workers| && s.workers[w].stage.Sending?
    ensures Exclusive(AdvanceWorker(s, w, outcome))
  {
  }

  lemma CountingKeepsExclusive(s: Net, w: nat, outcome: Outcome)
    requires Exclusive(s) && w < |s.workers| && s.workers[w].stage.Bounced?
    ensures Exclusive(AdvanceWorker(s, w, outcome))
  {
  }

  lemma EndingKeepsExclusive(s: Net, w: nat, outcome: Outcome)
    requires Exclusive(s) && w < |s.workers|
    requires var g := s.workers[w].stage; g.Delivered? || g.GaveUp? || g.Releasing? || g.Resting?
    ensures Exclusive(AdvanceWorker(s, w, outcome))
  {
  }

  /** Whatever the interleaving and whatever is lost, a claim has one owner or is settled for good. */
  lemma StepKeepsExclusive(s: Net, op: Op)
    requires Exclusive(s) && Enabled(s, op)
    ensures Exclusive(Step(s, op))
  {
    if op.Advance? {
      match s.workers[op.w].stage
      case Idle => TakingKeepsExclusive(s, op.w, op.outcome);
      case Popped(_) => TakingKeepsExclusive(s, op.w, op.outcome);
      case Sending(_) => SendingKeepsExclusive(s, op.w, op.outcome);
      case Bounced(_) => CountingKeepsExclusive(s, op.w, op.outcome);
      case _ => EndingKeepsExclusive(s, op.w, op.outcome);
    }
  }

  // ------------------------------------------------------------ at most one delivery

  function AcceptedCount(sends: seq<Send>, key: string): nat {
    if sends == [] then 0
    else
      var last := sends[|sends| - 1];
      AcceptedCount(sends[..|sends| - 1], key) + if last.key == key && last.outcome == Accepted then 1 else 0
  }

  /** Claim requests for the key that failed, and claims of it that expired. */
  function Troubles(ops: seq<Op>, key: string): nat {
    if ops == [] then 0
    else Troubles(ops[..|ops| - 1], key) + if IsTrouble(ops[|ops| - 1], key) then 1 else 0
  }

  predicate IsTrouble(op: Op, key: string) {
    (op.SendAnyway? && op.message.key == key) || (op.Expire? && op.key == key)
  }

  /** The workers that may still have the key accepted on the claim they took. */
  function Owners(workers: seq<Worker>, key: string): nat {
    if workers == [] then 0
    else Owners(workers[..|workers| - 1], key) + Owns(workers[|workers| - 1].stage, key)
  }

  function Owns(g: Stage, key: string): nat {
    if Owning(g) && g.m.key == key then 1 else 0
  }

  lemma {:induction false} OwnersAt(workers: seq<Worker>, w: nat, x: Worker, key: string)
    requires w < |workers|
    ensures Owners(workers[w := x], key) + Owns(workers[w].stage, key) == Owners(workers, key) + Owns(x.stage, key)
  {
    var n := |workers| - 1;
    if w == n {
      assert workers[w := x][..n] == workers[..n];
    } else {
      assert workers[w := x][..n] == workers[..n][w := x];
      OwnersAt(workers[..n], w, x, key);
    }
  }

  /** How often the key can still be accepted: once for each owner, and once if it is free to be claimed. */
  function Chances(s: Net, key: string): nat {
    Owners(s.workers, key) + Free(s, key)
  }

  lemma AcceptedAfter(s: Net, w: nat, outcome: Outcome, key: string)
    requires w < |s.workers|
    ensures AcceptedCount(AdvanceWorker(s, w, outcome).sends, key)
         == AcceptedCount(s.sends, key)
            + Accepts(s.workers[w].stage, outcome, key)
  {
    var sends' := AdvanceWorker(s, w, outcome).sends;
    if s.workers[w].stage.Sending? {
      assert sends'[..|sends'| - 1] == s.sends;
    }
  }

  /** One for an acceptance of the key by this step. */
  function Accepts(g: Stage, outcome: Outcome, key: string): nat {
    if g.Sending? && g.m.key == key && outcome == Accepted then 1 else 0
  }

  function Free(s: Net, key: string): nat {
    if key in s.claims then 0 else 1
  }

  /** The worker's own share: a claim is traded for ownership, and ownership for an acceptance or a release. */
  lemma OwnShare(s: Net, w: nat, outcome: Outcome, key: string)
    requires w < |s.workers| && key != ""
    ensures var s' := AdvanceWorker(s, w, outcome);
            && s'.workers == s.workers[w := s'.workers[w]]
            && Accepts(s.workers[w].stage, outcome, key) + Owns(s'.workers[w].stage, key) + Free(s', key)
               <= Owns(s.workers[w].stage, key) + Free(s, key)
  {
  }

  /** A worker's step uses up a chance for an acceptance and makes no new ones. */
  lemma AdvanceSpendsChances(s: Net, w: nat, outcome: Outcome, key: string)
    requires w < |s.workers| && key != ""
    ensures var s' := AdvanceWorker(s, w, outcome);
            AcceptedCount(s'.sends, key) + Chances(s', key) <= AcceptedCount(s.sends, key) + Chances(s, key)
  {
    var s' := AdvanceWorker(s, w, outcome);
    AcceptedAfter(s, w, outcome, key);
    OwnShare(s, w, outcome, key);
    OwnersAt(s.workers, w, s'.workers[w], key);
  }

  lemma StepSpendsChances(s: Net, op: Op, key: string)
    requires Possible(s, op) && key != ""
    ensures var s' := Step(s, op);
            AcceptedCount(s'.sends, key) + Chances(s', key)
            <= AcceptedCount(s.sends, key) + Chances(s, key) + if IsTrouble(op, key) then 1 else 0
  {
    var s' := Step(s, op);
    match op
    case Advance(w, outcome) => AdvanceSpendsChances(s, w, outcome, key);
    case Lose(w) => OwnersAt(s.workers, w, s'.workers[w], key);
    case SendAnyway(w, _, _) => OwnersAt(s.workers, w, s'.workers[w], key);
    case Join(_) => assert s'.workers[..|s.workers|] == s.workers;
    case _ =>
  }

  /**
   * In every run at all, with any number of processes and workers, duplicates in the queue, messages lost
   * at any point, failing claim requests and expiring claims, a key is accepted by the sender at most once
   * more often than there was trouble with its claim.
   */
  lemma {:induction false} AcceptedBound(max: nat, ops: seq<Op>, key: string)
    requires AnyRun(max, ops) && key != ""
    ensures AcceptedCount(Exec(max, ops).sends, key) + Chances(Exec(max, ops), key) <= 1 + Troubles(ops, key)
  {
    if ops != [] {
      var n := |ops| - 1;
      AcceptedBound(max, ops[..n], key);
      StepSpendsChances(Exec(max, ops[..n]), ops[n], key);
    }
  }

  /**
   * At most one delivery: a key whose claim never gave trouble is accepted at most once, whatever happened
   * to all others.
   */
  lemma AtMostOnce(max: nat, ops: seq<Op>, key: string)
    requires AnyRun(max, ops) && key != "" && Troubles(ops, key) == 0
    ensures AcceptedCount(Exec(max, ops).sends, key) <= 1
  {
    AcceptedBound(max, ops, key);
  }

  lemma {:induction false} RunsAreExclusive(max: nat, ops: seq<Op>)
    requires Run(max, ops)
    ensures Exclusive(Exec(max, ops))
  {
    if ops != [] {
      var n := |ops| - 1;
      RunsAreExclusive(max, ops[..n]);
      StepKeepsExclusive(Exec(max, ops[..n]), ops[n]);
    }
  }

  lemma {:induction false} RunHasNoTrouble(max: nat, ops: seq<Op>, key: string)
    requires Run(max, ops)
    ensures AnyRun(max, ops) && Troubles(ops, key) == 0
  {
    if ops != [] {
      RunHasNoTrouble(max, ops[..|ops| - 1], key);
    }
  }

  lemma ResolvedAfter(s: Net, w: nat, outcome: Outcome)
    requires w < |s.workers|
    ensures s.resolved <= AdvanceWorker(s, w, outcome).resolved
    ensures s.workers[w].stage.Sending? && outcome == Accepted ==>
              Named(s.workers[w].stage.m.key) <= AdvanceWorker(s, w, outcome).resolved
  {
  }

  // ------------------------------------------------------------ where messages come from

  /** Every message in the queue or in a worker's hands, and every message sent, is one of these. */
  ghost predicate From(s: Net, all: set<Message>) {
    && (forall i :: 0 <= i < |s.queue| ==> s.queue[i] in all)
    && (forall i :: 0 <= i < |s.workers| && !s.workers[i].stage.Idle? ==> s.workers[i].stage.m in all)
    && (forall i :: 0 <= i < |s.sends| ==> Message(s.sends[i].key, s.sends[i].chat) in all)
  }

  function Enqueued(ops: seq<Op>): set<Message> {
    set op | op in ops && op.Enqueue? :: op.message
  }

  lemma StepKeepsFrom(s: Net, op: Op, all: set<Message>)
    requires Possible(s, op) && From(s, all)
    ensures From(Step(s, op), all + if op.Enqueue? then {op.message} else {})
  {
  }

  /** In every run at all, what is queued, held or sent was queued by somebody outside. */
  lemma {:induction false} NothingMadeUp(max: nat, ops: seq<Op>)
    requires AnyRun(max, ops)
    ensures From(Exec(max, ops), Enqueued(ops))
  {
    if ops != [] {
      var n := |ops| - 1;
      NothingMadeUp(max, ops[..n]);
      StepKeepsFrom(Exec(max, ops[..n]), ops[n], Enqueued(ops[..n]));
      assert Enqueued(ops) == Enqueued(ops[..n]) + if ops[n].Enqueue? then {ops[n].message} else {};
    }
  }

  // ------------------------------------------------------------ the queue is a queue

  /** What a step puts into the queue. */
  function Pushes(s: Net, op: Op): seq<Message> {
    match op
    case Enqueue(m) => [m]
    case Advance(w, _) => if w < |s.workers| && s.workers[w].stage.Resting? then [s.workers[w].stage.m] else []
    case _ => []
  }

  /** What a step takes out of it, by what its worker has in hand then. */
  function Pops(s: Net, op: Op): seq<Message> {
    if op.Advance? && op.w < |s.workers| && s.workers[op.w].stage.Idle? then
      match Step(s, op).workers[op.w].stage
      case Popped(m) => [m]
      case _ => []
    else []
  }

  function AllPushes(max: nat, ops: seq<Op>): seq<Message> {
    if ops == [] then [] else AllPushes(max, ops[..|ops| - 1]) + Pushes(Exec(max, ops[..|ops| - 1]), ops[|ops| - 1])
  }

  function AllPops(max: nat, ops: seq<Op>): seq<Message> {
    if ops == [] then [] else AllPops(max, ops[..|ops| - 1]) + Pops(Exec(max, ops[..|ops| - 1]), ops[|ops| - 1])
  }

  lemma StepIsFifo(s: Net, op: Op)
    requires Possible(s, op)
    ensures s.queue + Pushes(s, op) == Pops(s, op) + Step(s, op).queue
  {
  }

  lemma Regroup(a: seq<Message>, b: seq<Message>, c: seq<Message>, d: seq<Message>, e: seq<Message>)
    requires b + c == d + e
    ensures (a + b) + c == (a + d) + e
  {
    assert (a + b) + c == a + (b + c);
  }

  /** First come, first served: what was taken out, and then what is in, is what was put in, in that order. */
  lemma {:induction false} QueueIsFifo(max: nat, ops: seq<Op>)
    requires AnyRun(max, ops)
    ensures AllPushes(max, ops) == AllPops(max, ops) + Exec(max, ops).queue
  {
    if ops != [] {
      var n := |ops| - 1;
      var s := Exec(max, ops[..n]);
      QueueIsFifo(max, ops[..n]);
      StepIsFifo(s, ops[n]);
      Regroup(AllPops(max, ops[..n]), s.queue, Pushes(s, ops[n]), Pops(s, ops[n]), Step(s, ops[n]).queue);
    }
  }

  /** A worker that is done with a message forgets how often its process tried it, and nothing else. */
  lemma DoneIsForgotten(s: Net, w: nat, outcome: Outcome)
    requires w < |s.workers| && (s.workers[w].stage.Delivered? || s.workers[w].stage.GaveUp?) && s.workers[w].stage.m.key != ""
    ensures var done := (s.workers[w].process, s.workers[w].stage.m.key);
            var s' := AdvanceWorker(s, w, outcome);
            && s'.workers[w].stage.Idle? && done !in s'.attempts
            && forall k :: k != done ==> (k in s.attempts <==> k in s'.attempts) && (k in s.attempts ==> s'.attempts[k] == s.attempts[k])
  {
  }

  /** A failed attempt adds one to its own count, and no other step but the end of a delivery touches any count. */
  lemma CountsOnlyFailures(s: Net, w: nat, outcome: Outcome)
    requires w < |s.workers|
    ensures var g, s' := s.workers[w].stage, AdvanceWorker(s, w, outcome);
            && (g.Bounced? && g.m.key != "" ==>
                  var k := (s.workers[w].process, g.m.key);
                  && k in s'.attempts && s'.attempts[k] == (if k in s.attempts then s.attempts[k] else 0) + 1
                  && s'.attempts - {k} == s.attempts - {k})
            && (g.Idle? || g.Popped? || g.Sending? || g.Releasing? || g.Resting? || (!g.Idle? && g.m.key == "") ==>
                  s'.attempts == s.attempts)
  {
  }

  // ------------------------------------------------------------ each trouble can cost a duplicate

  /** A single worker at a given stage. */
  predicate Alone(s: Net, queue: seq<Message>, claims: set<string>, stage: Stage) {
    s.queue == queue && s.claims == claims && s.workers == [Worker(0, stage)]
  }

  /** Gets a worker past the claim of a key that was delivered before. */
  function Past(m: Message, expiring: bool): seq<Op> {
    if expiring then [Expire(m.key), Advance(0, Accepted)] else [SendAnyway(0, m, false)]
  }

  /** One copy is queued, popped, let past the claim, sent and accepted. */
  function Round(m: Message, past: seq<Op>): seq<Op> {
    [Enqueue(m), Advance(0, Accepted)] + past + [Advance(0, Accepted), Advance(0, Accepted)]
  }

  function Rounds(m: Message, n: nat, expiring: bool): seq<Op> {
    if n == 0 then [Join(0)] + Round(m, [Advance(0, Accepted)])
    else Rounds(m, n - 1, expiring) + Round(m, Past(m, expiring))
  }

  lemma TwoSteps(s: Net, a: Op, b: Op)
    requires Possible(s, a) && Possible(Step(s, a), b)
    ensures Legal(s, Step, Possible, [a, b]) && Final(s, Step, [a, b]) == Step(Step(s, a), b)
  {
    OneStep(s, Step, Possible, a);
    OneMore(s, Step, Possible, [a], b);
    assert [a, b] == [a] + [b];
  }

  lemma PopCopy(s: Net, claims: set<string>, m: Message)
    requires Alone(s, [], claims, Idle)
    ensures var ops := [Enqueue(m), Advance(0, Accepted)];
            && Legal(s, Step, Possible, ops) && Alone(Final(s, Step, ops), [], claims, Popped(m))
            && Final(s, Step, ops).sends == s.sends
  {
    TwoSteps(s, Enqueue(m), Advance(0, Accepted));
  }

  lemma AcceptCopy(s: Net, claims: set<string>, m: Message)
    requires Alone(s, [], claims, Sending(m))
    ensures var ops := [Advance(0, Accepted), Advance(0, Accepted)];
            && Legal(s, Step, Possible, ops) && Alone(Final(s, Step, ops), [], claims, Idle)
            && AcceptedCount(Final(s, Step, ops).sends, m.key) == AcceptedCount(s.sends, m.key) + 1
  {
    TwoSteps(s, Advance(0, Accepted), Advance(0, Accepted));
    AcceptedAfter(s, 0, Accepted, m.key);
  }

  lemma PassClaim(s: Net, claims: set<string>, m: Message, past: seq<Op>)
    requires Alone(s, [], claims, Popped(m)) && m.key != "" && m.chat != 0
    requires (past == [Advance(0, Accepted)] && claims == {})
             || (exists expiring :: past == Past(m, expiring) && claims == {m.key})
    ensures Legal(s, Step, Possible, past) && Alone(Final(s, Step, past), [], {m.key}, Sending(m))
    ensures Final(s, Step, past).sends == s.sends
  {
    if past == Past(m, true) && claims == {m.key} {
      assert {m.key} - {m.key} == {};
      TwoSteps(s, Expire(m.key), Advance(0, Accepted));
    } else {
      OneStep(s, Step, Possible, past[0]);
      assert past == [past[0]];
    }
  }

  lemma RoundDelivers(s: Net, claims: set<string>, m: Message, past: seq<Op>)
    requires Alone(s, [], claims, Idle) && m.key != "" && m.chat != 0
    requires (past == [Advance(0, Accepted)] && claims == {})
             || (exists expiring :: past == Past(m, expiring) && claims == {m.key})
    ensures var r := Final(s, Step, Round(m, past));
            && Legal(s, Step, Possible, Round(m, past)) && Alone(r, [], {m.key}, Idle)
            && AcceptedCount(r.sends, m.key) == AcceptedCount(s.sends, m.key) + 1
  {
    var pop := [Enqueue(m), Advance(0, Accepted)];
    var accept := [Advance(0, Accepted), Advance(0, Accepted)];
    PopCopy(s, claims, m);
    PassClaim(Final(s, Step, pop), claims, m, past);
    Concatenation(s, Step, Possible, pop, past);
    AcceptCopy(Final(s, Step, pop + past), {m.key}, m);
    Concatenation(s, Step, Possible, pop + past, accept);
  }

  lemma {:induction false} TroublesAdd(a: seq<Op>, b: seq<Op>, key: string)
    ensures Troubles(a + b, key) == Troubles(a, key) + Troubles(b, key)
  {
    if b == [] {
      assert a + b == a;
    } else {
      TroublesAdd(a, b[..|b| - 1], key);
      assert (a + b)[..|a + b| - 1] == a + b[..|b| - 1];
    }
  }

  lemma TroublesOfTwo(a: Op, b: Op, key: string)
    ensures Troubles([a], key) == if IsTrouble(a, key) then 1 else 0
    ensures Troubles([a, b], key) == Troubles([a], key) + if IsTrouble(b, key) then 1 else 0
  {
    assert [a][..0] == [] && [a, b][..1] == [a];
  }

  lemma TroublesOfRound(m: Message, past: seq<Op>)
    ensures Troubles(Round(m, past), m.key) == Troubles(past, m.key)
  {
    TroublesOfTwo(Enqueue(m), Advance(0, Accepted), m.key);
    TroublesOfTwo(Advance(0, Accepted), Advance(0, Accepted), m.key);
    TroublesAdd([Enqueue(m), Advance(0, Accepted)], past, m.key);
    TroublesAdd([Enqueue(m), Advance(0, Accepted)] + past, [Advance(0, Accepted), Advance(0, Accepted)], m.key);
  }

  lemma TroublesOfPast(m: Message, expiring: bool)
    ensures Troubles(Past(m, expiring), m.key) == 1 && Troubles([Advance(0, Accepted)], m.key) == 0
    ensures forall op :: op in Past(m, expiring) && IsTrouble(op, m.key) ==> op.Expire? == expiring
  {
    TroublesOfTwo(Expire(m.key), Advance(0, Accepted), m.key);
    TroublesOfTwo(SendAnyway(0, m, false), Advance(0, Accepted), m.key);
    TroublesOfTwo(Advance(0, Accepted), Advance(0, Accepted), m.key);
  }

  lemma FirstDelivery(max: nat, m: Message)
    requires m.key != "" && m.chat != 0
    ensures var r := Exec(max, Rounds(m, 0, false));
            AnyRun(max, Rounds(m, 0, false)) && Alone(r, [], {m.key}, Idle) && AcceptedCount(r.sends, m.key) == 1
  {
    var s := Start(max);
    var round := Round(m, [Advance(0, Accepted)]);
    OneStep(s, Step, Possible, Join(0));
    RoundDelivers(Step(s, Join(0)), {}, m, [Advance(0, Accepted)]);
    Concatenation(s, Step, Possible, [Join(0)], round);
  }

  /** Exactly n troubles with the key, all of one kind. */
  lemma {:induction false} TroublesOfRounds(m: Message, n: nat, expiring: bool)
    ensures Troubles(Rounds(m, n, expiring), m.key) == n
    ensures forall op :: op in Rounds(m, n, expiring) && IsTrouble(op, m.key) ==> op.Expire? == expiring
  {
    if n == 0 {
      TroublesOfTwo(Join(0), Join(0), m.key);
      TroublesOfPast(m, false);
      TroublesOfRound(m, [Advance(0, Accepted)]);
      TroublesAdd([Join(0)], Round(m, [Advance(0, Accepted)]), m.key);
    } else {
      TroublesOfRounds(m, n - 1, expiring);
      TroublesOfPast(m, expiring);
      TroublesOfRound(m, Past(m, expiring));
      TroublesAdd(Rounds(m, n - 1, expiring), Round(m, Past(m, expiring)), m.key);
    }
  }

  lemma {:induction false} RoundsDeliver(max: nat, m: Message, n: nat, expiring: bool)
    requires m.key != "" && m.chat != 0
    ensures var ops := Rounds(m, n, expiring);
            && AnyRun(max, ops) && Alone(Exec(max, ops), [], {m.key}, Idle)
            && AcceptedCount(Exec(max, ops).sends, m.key) == n + 1
  {
    if n == 0 {
      FirstDelivery(max, m);
    } else {
      var before, past := Rounds(m, n - 1, expiring), Past(m, expiring);
      RoundsDeliver(max, m, n - 1, expiring);
      RoundDelivers(Exec(max, before), {m.key}, m, past);
      Concatenation(Start(max), Step, Possible, before, Round(m, past));
    }
  }

  /**
   * The bound is met, by either kind of trouble alone: for every n there is a run in which n claim requests
   * for the key failed, or n claims of it expired, and it was accepted n + 1 times.
   */
  lemma BoundIsMet(max: nat, m: Message, n: nat, expiring: bool)
    requires m.key != "" && m.chat != 0
    ensures var ops := Rounds(m, n, expiring);
            && AnyRun(max, ops) && Troubles(ops, m.key) == n && AcceptedCount(Exec(max, ops).sends, m.key) == n + 1
            && forall op :: op in ops && IsTrouble(op, m.key) ==> op.Expire? == expiring
  {
    RoundsDeliver(max, m, n, expiring);
    TroublesOfRounds(m, n, expiring);
  }
}
