/** The notifier's objects: the attempt counter, and a worker that runs one delivery without interruption. */
module Delivery {
  import opened Prelude
  import N = Notifier

  /** internal/notify/attempts.go */
  class AttemptCounter {
    var n: map<string, nat>

    constructor ()
      ensures n == map[]
    {
      n := map[];
    }

    /** Increments and returns the attempt number of a key; without a key every attempt is the first. */
    method Next(key: string) returns (attempt: nat)
      modifies this
      ensures key == "" ==> attempt == 1 && n == old(n)
      ensures key != "" ==> attempt == (if key in old(n) then old(n)[key] else 0) + 1 && n == old(n)[key := attempt]
    {
      if key == "" {
        return 1;
      }
      n := n[key := if key in n then n[key] + 1 else 1];
      attempt := n[key];
    }

    /** Drops the count of a key that is resolved. */
    method Forget(key: string)
      modifies this
      ensures n == if key == "" then old(n) else old(n) - {key}
    {
      if key != "" {
        n := n - {key};
      }
    }
  }

  /** The counters of one process as the protocol sees them. */
  function Keyed(process: nat, n: map<string, nat>): map<(nat, string), nat> {
    map pk | pk in (set k | k in n :: (process, k)) :: n[pk.1]
  }

  lemma KeyedAgrees(process: nat, n: map<string, nat>, key: string, v: nat)
    ensures (process, key) in Keyed(process, n) <==> key in n
    ensures key in n ==> Keyed(process, n)[(process, key)] == n[key]
    ensures Keyed(process, n[key := v]) == Keyed(process, n)[(process, key) := v]
    ensures Keyed(process, n - {key}) == Keyed(process, n) - {(process, key)}
  {
    assert key in n ==> (process, key) in Keyed(process, n);
  }

  /** Counting an attempt in the process's map is counting it in the protocol. */
  lemma CountAgrees(s: N.Net, process: nat, n: map<string, nat>, key: string)
    requires s.attempts == Keyed(process, n)
    ensures N.NextAttempt(s, process, key) == if key == "" then 1 else (if key in n then n[key] else 0) + 1
    ensures N.Count(s, process, key)
         == Keyed(process, if key == "" then n else n[key := (if key in n then n[key] else 0) + 1])
  {
    KeyedAgrees(process, n, key, (if key in n then n[key] else 0) + 1);
  }

  /**
   * What can go wrong while one message is handled: the claim request fails (with or without effect), the
   * process is stopping when the send fails, the release fails (likewise), the pause is interrupted, the
   * push fails.
   */
  datatype Trouble = Trouble(
    claimError: Option<bool>, stopping: bool, releaseError: Option<bool>, interrupted: bool, pushError: bool)

  /** The protocol step that a worker at this stage takes. */
  function NextOp(g: N.Stage, w: nat, outcome: N.Outcome, t: Trouble): N.Op {
    match g
    case Popped(m) =>
      if m.chat != 0 && m.key != "" && t.claimError.Some? then N.SendAnyway(w, m, t.claimError.value)
      else N.Advance(w, outcome)
    case Bounced(_) => if t.stopping then N.Lose(w) else N.Advance(w, outcome)
    case Releasing(m) =>
      if m.key != "" && t.releaseError == Some(false) then N.Lose(w) else N.Advance(w, outcome)
    case Resting(m) =>
      if (m.key != "" && t.releaseError.Some?) || t.interrupted || t.pushError then N.Lose(w) else N.Advance(w, outcome)
    case _ => N.Advance(w, outcome)
  }

  /** Every one of these steps is one the protocol allows. */
  lemma NextIsPossible(s: N.Net, w: nat, outcome: N.Outcome, t: Trouble)
    requires w < |s.workers| && !s.workers[w].stage.Idle?
    ensures N.Possible(s, NextOp(s.workers[w].stage, w, outcome, t))
  {
  }

  /** The steps of one worker with nobody else in between, until it is idle again. */
  function Uninterrupted(s: N.Net, w: nat, outcome: N.Outcome, t: Trouble, steps: nat): N.Net
    requires w < |s.workers|
    decreases steps
  {
    if steps == 0 || s.workers[w].stage.Idle? then s
    else
      var next := N.Step(s, NextOp(s.workers[w].stage, w, outcome, t));
      if w < |next.workers| then Uninterrupted(next, w, outcome, t, steps - 1) else next
  }

  /** internal/notify/worker.go: a worker with the shared queue and claims it talks to. */
  class Worker {
    const max: nat
    const process: nat
    const attempts: AttemptCounter
    var queue: seq<N.Message>
    var claims: set<string>
    var sends: seq<N.Send>
    var resolved: set<string>

    constructor (max: nat, process: nat)
      ensures fresh(attempts) && this.process == process
      ensures this.max == if max == 0 then 5 else max
      ensures Seen(N.Idle) == N.Net(this.max, [], {}, map[], [N.Worker(process, N.Idle)], [], {}, {})
    {
      this.max := if max == 0 then 5 else max;
      this.process := process;
      attempts := new AttemptCounter();
      queue, claims, sends, resolved := [], {}, [], {};
    }

    /** The protocol state with this worker at a given stage. */
    function Seen(stage: N.Stage): N.Net
      reads this, attempts
    {
      N.Net(max, queue, claims, Keyed(process, attempts.n), [N.Worker(process, stage)], sends, resolved, {})
    }

    /** The state this worker leaves behind when it goes on alone from a stage. */
    function Outcome(stage: N.Stage, outcome: N.Outcome, t: Trouble, steps: nat): N.Net
      reads this, attempts
    {
      Uninterrupted(Seen(stage), 0, outcome, t, steps)
    }

    /** Delivers a message just popped; the sender answers `outcome`. */
    method Deliver(m: N.Message, outcome: N.Outcome, t: Trouble)
      modifies this, attempts
      ensures Seen(N.Idle) == old(Outcome(N.Popped(m), outcome, t, 6))
    {
      if m.chat == 0 {
        assert Seen(N.Idle) == N.AdvanceWorker(old(Seen(N.Popped(m))), 0, outcome);
        return;
      }
      if m.key != "" {
        if t.claimError.Some? {
          if t.claimError.value {
            claims := claims + {m.key};
          }
        } else if m.key in claims {
          assert Seen(N.Idle) == N.AdvanceWorker(old(Seen(N.Popped(m))), 0, outcome);
          return;
        } else {
          claims := claims + {m.key};
        }
      }
      assert Seen(N.Sending(m)) == N.Step(old(Seen(N.Popped(m))), NextOp(N.Popped(m), 0, outcome, t));
      SendMessage(m, outcome, t);
    }

    /** Sends a claimed message and acts on the answer. */
    method SendMessage(m: N.Message, outcome: N.Outcome, t: Trouble)
      modifies this, attempts
      ensures Seen(N.Idle) == old(Outcome(N.Sending(m), outcome, t, 5))
    {
      sends := sends + [N.Send(process, m.key, m.chat, outcome)];
      match outcome {
        case Accepted =>
          resolved := resolved + N.Named(m.key);
          assert Seen(N.Delivered(m)) == N.AdvanceWorker(old(Seen(N.Sending(m))), 0, outcome);
          Resolve(m, N.Delivered(m), outcome);
        case Retryable =>
          assert Seen(N.Bounced(m)) == N.AdvanceWorker(old(Seen(N.Sending(m))), 0, outcome);
          if t.stopping {
            assert Seen(N.Idle) == N.Step(Seen(N.Bounced(m)), N.Lose(0));
            return;
          }
          Requeue(m, outcome, t);
        case Refused =>
          resolved := resolved + N.Named(m.key);
          assert Seen(N.Idle) == N.AdvanceWorker(old(Seen(N.Sending(m))), 0, outcome);
      }
    }

    /** Forgets the attempts of a message that is done with. */
    method Resolve(m: N.Message, stage: N.Stage, outcome: N.Outcome)
      requires stage == N.Delivered(m) || stage == N.GaveUp(m)
      modifies attempts
      ensures Seen(N.Idle) == N.AdvanceWorker(old(Seen(stage)), 0, outcome)
    {
      KeyedAgrees(process, attempts.n, m.key, 0);
      attempts.Forget(m.key);
    }

    /** Puts a failed alert back, or drops it when its attempts are used up. */
    method Requeue(m: N.Message, outcome: N.Outcome, t: Trouble)
      requires !t.stopping
      modifies this, attempts
      ensures Seen(N.Idle) == old(Outcome(N.Bounced(m), outcome, t, 4))
    {
      var again := CountAttempt(m, outcome);
      if again {
        PutBack(m, outcome, t);
      } else {
        Resolve(m, N.GaveUp(m), outcome);
      }
    }

    /** Counts a failed attempt and says whether there may be another. */
    method CountAttempt(m: N.Message, outcome: N.Outcome) returns (again: bool)
      modifies this`resolved, attempts
      ensures Seen(if again then N.Releasing(m) else N.GaveUp(m)) == N.AdvanceWorker(old(Seen(N.Bounced(m))), 0, outcome)
    {
      CountAgrees(Seen(N.Bounced(m)), process, attempts.n, m.key);
      var attempt := attempts.Next(m.key);
      again := attempt < max;
      if !again {
        resolved := resolved + N.Named(m.key);
      }
    }

    /** Releases the claim and, after the delay, pushes the message again. */
    method PutBack(m: N.Message, outcome: N.Outcome, t: Trouble)
      modifies this
      ensures Seen(N.Idle) == old(Outcome(N.Releasing(m), outcome, t, 3))
    {
      if m.key != "" && t.releaseError == Some(false) {
        assert Seen(N.Idle) == N.Step(old(Seen(N.Releasing(m))), N.Lose(0));
        return;
      }
      claims := claims - N.Named(m.key);
      ghost var released := Seen(N.Resting(m));
      assert released == N.AdvanceWorker(old(Seen(N.Releasing(m))), 0, outcome);
      if (m.key != "" && t.releaseError.Some?) || t.interrupted || t.pushError {
        assert Seen(N.Idle) == N.Step(released, N.Lose(0));
        return;
      }
      queue := queue + [m];
      assert Seen(N.Idle) == N.AdvanceWorker(released, 0, outcome);
    }
  }
}
