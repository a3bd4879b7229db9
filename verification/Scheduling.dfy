/** The schedule over whole runs: how far apart claims of one item are, and how long a due item can wait. */
module Scheduling {
  import opened Prelude
  import opened Text
  import opened Alerts
  import opened Store
  import opened Traces
  import opened Runs

  // ------------------------------------------------------------ lease spacing

  /** Until `until`, the item cannot be claimed: it is leased, or its next check is later. */
  predicate Held(i: Item, until: int) {
    || (i.claimedUntil.Some? && i.claimedUntil.value >= until)
    || i.nextCheck >= until
  }

  predicate HeldIfPresent(db: Db, x: Id, until: int) {
    x in db.items ==> Held(db.items[x], until)
  }

  /** The instant up to which a claim protects its items, whatever else happens. */
  function HoldUntil(at: int, seconds: nat): int {
    at + Min(seconds, MIN_INTERVAL) * SECOND
  }

  /** Recording anything pushes the next check at least five minutes out. */
  lemma RescheduleIsFar(interval: int, at: int, t: int)
    requires MIN_INTERVAL <= interval && at >= t
    ensures at + interval * SECOND >= t + MIN_INTERVAL * SECOND
  {
  }

  lemma ObserveKeepsHeld(s: System, at: int, op: Op, x: Id, t: int, until: int)
    requires Sound(s) && Enabled(s, at, op) && op.Observe?
    requires at >= t && until <= t + MIN_INTERVAL * SECOND && HeldIfPresent(s.db, x, until)
    ensures HeldIfPresent(DbAfter(s.db, at, op), x, until)
  {
    if Recordable(s.db, op.input, op.previous) && op.input.item == x {
      RescheduleIsFar(s.db.items[x].interval, at, t);
    }
  }

  lemma FailureKeepsHeld(s: System, at: int, op: Op, x: Id, t: int, until: int)
    requires Sound(s) && Enabled(s, at, op) && op.ReportFailure?
    requires at >= t && until <= t + MIN_INTERVAL * SECOND && HeldIfPresent(s.db, x, until)
    ensures HeldIfPresent(DbAfter(s.db, at, op), x, until)
  {
    if op.item == x && Known(s.db, x) {
      var i := s.db.items[x];
      assert SoundItem(s, x);
      BackoffGrows(i.interval, i.streak + 1);
      RescheduleIsFar(Backoff(i.interval, i.streak + 1), at, t);
    }
  }

  lemma ChangeKeepsHeld(s: System, at: int, op: Op, x: Id, t: int, until: int)
    requires Sound(s) && Enabled(s, at, op) && op.Change?
    requires at >= t && until <= t + MIN_INTERVAL * SECOND && HeldIfPresent(s.db, x, until)
    ensures HeldIfPresent(DbAfter(s.db, at, op), x, until)
  {
    var p := op.patch;
    if p.interval.Some? && ValidateInterval(p.interval.value).Ok? {
      IntervalInSeconds(p.interval.value);
      RescheduleIsFar(ValidateInterval(p.interval.value).value / NANOS, at, t);
    }
  }

  lemma OthersKeepHeld(s: System, at: int, op: Op, x: Id, until: int)
    requires Sound(s) && Enabled(s, at, op) && !op.Observe? && !op.ReportFailure? && !op.Change?
    requires x in s.issued && HeldIfPresent(s.db, x, until)
    ensures HeldIfPresent(DbAfter(s.db, at, op), x, until)
  {
  }

  /** No operation cuts the protection of an item short, not even a result recorded by a worker whose lease ran out. */
  lemma StepKeepsHeld(s: System, at: int, op: Op, x: Id, t: int, until: int)
    requires Sound(s) && Enabled(s, at, op) && x in s.issued
    requires at >= t && until <= t + MIN_INTERVAL * SECOND && HeldIfPresent(s.db, x, until)
    ensures HeldIfPresent(DbAfter(s.db, at, op), x, until)
  {
    if op.Observe? {
      ObserveKeepsHeld(s, at, op, x, t, until);
    } else if op.ReportFailure? {
      FailureKeepsHeld(s, at, op, x, t, until);
    } else if op.Change? {
      ChangeKeepsHeld(s, at, op, x, t, until);
    } else {
      OthersKeepHeld(s, at, op, x, until);
    }
  }

  predicate ClaimsAt(ops: seq<Stamped>, i: nat, x: Id) {
    i < |ops| && ops[i].op.Claim? && x in ops[i].op.ids
  }

  lemma ClaimHolds(s: System, at: int, op: Op, x: Id)
    requires Sound(s) && Enabled(s, at, op) && op.Claim? && x in op.ids
    ensures HeldIfPresent(DbAfter(s.db, at, op), x, HoldUntil(at, LeaseSeconds(op.lease)))
    ensures x in s.issued
  {
    assert x in Candidates(s.db, at, op.locked);
    assert SoundItem(s, x);
  }

  lemma {:induction false} HeldThroughRun(ops: seq<Stamped>, i: nat, k: nat, x: Id)
    requires Run(ops) && ClaimsAt(ops, i, x) && i < k <= |ops|
    ensures HeldIfPresent(Exec(ops[..k]).db, x, HoldUntil(ops[i].at, LeaseSeconds(ops[i].op.lease)))
    ensures x in Exec(ops[..k]).issued && Exec(ops[..k]).clock >= ops[i].at
  {
    var m := k - 1;
    PointOfRun(ops, m);
    RunsAreSound(ops[..m]);
    var before := Exec(ops[..m]);
    if m == i {
      ClaimHolds(before, ops[m].at, ops[m].op, x);
    } else {
      HeldThroughRun(ops, i, m, x);
      StepKeepsHeld(before, ops[m].at, ops[m].op, x, ops[i].at, HoldUntil(ops[i].at, LeaseSeconds(ops[i].op.lease)));
    }
  }

  /**
   * In every run, two claims of one item are at least the first claim's lease, or five minutes if the
   * lease is longer, apart.
   */
  lemma LeaseSpacing(ops: seq<Stamped>, i: nat, j: nat, x: Id)
    requires Run(ops) && i < j && ClaimsAt(ops, i, x) && ClaimsAt(ops, j, x)
    ensures var lease := ops[i].op.lease;
            var seconds := if lease <= 0 then 120 else lease / 1_000_000_000;
            ops[j].at >= ops[i].at + (if seconds <= 300 then seconds else 300) * 1_000_000
  {
    HeldThroughRun(ops, i, j, x);
    PointOfRun(ops, j);
    assert x in Candidates(Exec(ops[..j]).db, ops[j].at, ops[j].op.locked);
  }

  // ------------------------------------------------------------ bounded overtaking

  /** The items scheduled at or before d. */
  function Ahead(db: Db, d: int): set<Id> {
    set x | x in db.items && db.items[x].nextCheck <= d
  }

  lemma RecordAhead(s: System, at: int, op: Op, d: int)
    requires Sound(s) && Enabled(s, at, op) && at > d && op.Observe?
    ensures Ahead(DbAfter(s.db, at, op), d) == Ahead(s.db, d) - Settled(s, at, op)
  {
    var db' := DbAfter(s.db, at, op);
    if Recordable(s.db, op.input, op.previous) {
      assert SoundItem(s, op.input.item);
      assert db'.items[op.input.item].nextCheck > d;
    }
  }

  lemma FailAhead(s: System, at: int, op: Op, d: int)
    requires Sound(s) && Enabled(s, at, op) && at > d && op.ReportFailure?
    ensures Ahead(DbAfter(s.db, at, op), d) == Ahead(s.db, d) - Settled(s, at, op)
  {
    if Known(s.db, op.item) {
      assert SoundItem(s, op.item);
      BackoffGrows(s.db.items[op.item].interval, s.db.items[op.item].streak + 1);
    }
  }

  lemma ChangeAhead(s: System, at: int, op: Op, d: int)
    requires Sound(s) && Enabled(s, at, op) && at > d && op.Change?
    ensures Ahead(DbAfter(s.db, at, op), d) == Ahead(s.db, d)
  {
    var p := op.patch;
    if p.interval.Some? && ValidateInterval(p.interval.value).Ok? {
      IntervalInSeconds(p.interval.value);
    }
  }

  lemma FreshIsNew(s: System, id: Id)
    requires Sound(s) && id !in s.issued
    ensures id !in s.db.items
  {
  }

  lemma OthersAhead(s: System, at: int, op: Op, d: int)
    requires Sound(s) && Enabled(s, at, op) && at > d && !op.Observe? && !op.ReportFailure? && !op.Change?
    ensures Ahead(DbAfter(s.db, at, op), d) == Ahead(s.db, d) - Settled(s, at, op)
  {
    if op.Add? {
      FreshIsNew(s, op.id);
    }
  }

  /** The items an operation finishes with: recorded, recorded as failed, or deleted. */
  function Settled(s: System, at: int, op: Op): set<Id> {
    match EventOf(s.db, at, op)
    case Observed(_, x, _, _, _) => {x}
    case ScrapeFailed(_, x, _, _) => {x}
    case Removed(_, x) => {x}
    case _ => {}
  }

  /** Once the clock has passed d, operations only ever remove items from those scheduled at or before d. */
  lemma NothingOvertakes(s: System, at: int, op: Op, d: int)
    requires Sound(s) && Enabled(s, at, op) && at > d
    ensures Ahead(DbAfter(s.db, at, op), d) == Ahead(s.db, d) - Settled(s, at, op)
  {
    if op.Observe? {
      RecordAhead(s, at, op, d);
    } else if op.ReportFailure? {
      FailAhead(s, at, op, d);
    } else if op.Change? {
      ChangeAhead(s, at, op, d);
    } else {
      OthersAhead(s, at, op, d);
    }
  }

  /** The item is active, unleased and due at d. */
  predicate Waiting(db: Db, x: Id, d: int, at: int) {
    && x in db.items && db.items[x].active && db.items[x].nextCheck <= d
    && (db.items[x].claimedUntil.Some? ==> db.items[x].claimedUntil.value <= at)
  }

  /** The operation neither settles x, nor pauses it, nor runs while x's row is locked. */
  predicate Undisturbed(s: System, at: int, op: Op, x: Id) {
    && x !in Settled(s, at, op)
    && (op.Change? && op.item == x ==> op.patch.active != Some(false))
    && (op.Claim? ==> x !in op.locked)
  }

  lemma StillWaiting(s: System, at: int, op: Op, x: Id, d: int)
    requires Sound(s) && Enabled(s, at, op) && at > d && Waiting(s.db, x, d, s.clock)
    requires Undisturbed(s, at, op, x) && (op.Claim? ==> x !in op.ids)
    ensures Waiting(DbAfter(s.db, at, op), x, d, at)
  {
    NothingOvertakes(s, at, op, d);
    assert x in Ahead(s.db, d) && x in Ahead(DbAfter(s.db, at, op), d);
    if op.Add? {
      assert SoundItem(s, x);
    }
  }

  /**
   * A stretch of a run seen from an item x due at d: claims use one limit, and `pending` is the part of
   * the last batch that is still to be settled.
   */
  datatype Stretch = Stretch(s: System, x: Id, d: int, limit: nat, pending: set<Id>)

  function Onward(q: Stretch, o: Stamped): Stretch {
    q.(s := Step(q.s, o.at, o.op),
       pending := if o.op.Claim? then Batch(o) else q.pending - Settled(q.s, o.at, o.op))
  }

  function Batch(o: Stamped): set<Id> {
    if o.op.Claim? then set y | y in o.op.ids else {}
  }

  /** The clock has passed d, x is left alone, and the batch of each claim is settled before the next claim. */
  predicate Disciplined(q: Stretch, o: Stamped) {
    && o.at > q.d && Enabled(q.s, o.at, o.op) && Undisturbed(q.s, o.at, o.op, q.x)
    && (o.op.Claim? ==> EffectiveLimit(o.op.limit) == q.limit && q.pending == {})
  }

  predicate DisciplinedWithoutX(q: Stretch, o: Stamped) {
    Disciplined(q, o) && q.x !in Batch(o)
  }

  predicate XWaits(q: Stretch) {
    Sound(q.s) && Waiting(q.s.db, q.x, q.d, q.s.clock)
  }

  /** The items scheduled at or before d, other than x, that no worker has taken. */
  function InFront(q: Stretch): nat {
    |Ahead(q.s.db, q.d) - {q.x} - q.pending|
  }

  function IsClaim(o: Stamped): nat {
    if o.op.Claim? then 1 else 0
  }

  lemma {:induction false} SizeOfIds(ids: seq<Id>)
    requires forall m, n :: 0 <= m < n < |ids| ==> ids[m] != ids[n]
    ensures |set y | y in ids| == |ids|
  {
    if ids != [] {
      var rest := ids[1..];
      SizeOfIds(rest);
      assert (set y | y in ids) == {ids[0]} + set y | y in rest;
    }
  }

  /** A claim that leaves the waiting item out takes a full batch of items scheduled at or before d. */
  lemma PassedOver(s: System, o: Stamped, x: Id, d: int)
    requires Enabled(s, o.at, o.op) && o.op.Claim? && o.at > d
    requires Waiting(s.db, x, d, s.clock) && x !in o.op.locked && x !in o.op.ids
    ensures |Batch(o)| == EffectiveLimit(o.op.limit)
    ensures Batch(o) <= Ahead(s.db, d) - {x}
  {
    assert x in Candidates(s.db, o.at, o.op.locked);
    SizeOfIds(o.op.ids);
  }

  lemma FrontAfterClaim(front: set<Id>, front': set<Id>, batch: set<Id>)
    requires front' == front && batch <= front
    ensures |front' - batch| + |batch| == |front - {}|
  {
    assert front - {} == front;
    OneMoreBatch(front, batch);
  }

  lemma FrontAfterOther(front: set<Id>, front': set<Id>, pending: set<Id>, settled: set<Id>)
    requires front' == front - settled
    ensures |front' - (pending - settled)| <= |front - pending|
  {
    SubsetSize(front' - (pending - settled), front - pending);
  }

  lemma ClaimSettlesNothing(s: System, at: int, op: Op)
    requires op.Claim?
    ensures Settled(s, at, op) == {}
  {
  }

  lemma FrontShrinks(s: System, at: int, op: Op, x: Id, d: int)
    requires Sound(s) && Enabled(s, at, op) && at > d
    ensures Ahead(DbAfter(s.db, at, op), d) - {x} == (Ahead(s.db, d) - {x}) - Settled(s, at, op)
  {
    NothingOvertakes(s, at, op, d);
  }

  lemma ClaimInFront(s: System, o: Stamped, x: Id, d: int)
    requires Sound(s) && Waiting(s.db, x, d, s.clock) && o.at > d && Enabled(s, o.at, o.op)
    requires o.op.Claim? && x !in o.op.locked && x !in o.op.ids
    ensures |Ahead(DbAfter(s.db, o.at, o.op), d) - {x} - Batch(o)| + EffectiveLimit(o.op.limit)
         == |Ahead(s.db, d) - {x} - {}|
  {
    FrontShrinks(s, o.at, o.op, x, d);
    ClaimSettlesNothing(s, o.at, o.op);
    PassedOver(s, o, x, d);
    FrontAfterClaim(Ahead(s.db, d) - {x}, Ahead(DbAfter(s.db, o.at, o.op), d) - {x}, Batch(o));
  }

  lemma OtherInFront(s: System, o: Stamped, x: Id, d: int, pending: set<Id>)
    requires Sound(s) && o.at > d && Enabled(s, o.at, o.op)
    ensures |Ahead(DbAfter(s.db, o.at, o.op), d) - {x} - (pending - Settled(s, o.at, o.op))|
         <= |Ahead(s.db, d) - {x} - pending|
  {
    FrontShrinks(s, o.at, o.op, x, d);
    FrontAfterOther(Ahead(s.db, d) - {x}, Ahead(DbAfter(s.db, o.at, o.op), d) - {x}, pending, Settled(s, o.at, o.op));
  }

  lemma OnwardFields(q: Stretch, o: Stamped)
    ensures Onward(q, o).s.db == DbAfter(q.s.db, o.at, o.op) && Onward(q, o).x == q.x && Onward(q, o).d == q.d
    ensures Onward(q, o).pending == if o.op.Claim? then Batch(o) else q.pending - Settled(q.s, o.at, o.op)
    ensures Onward(q, o).limit == q.limit
  {
  }

  /** One operation that leaves x waiting pays a full batch if it is a claim. */
  lemma OneStepInFront(q: Stretch, o: Stamped)
    requires XWaits(q) && DisciplinedWithoutX(q, o)
    ensures InFront(Onward(q, o)) + (if o.op.Claim? then q.limit else 0) <= InFront(q)
  {
    OnwardFields(q, o);
    if o.op.Claim? {
      ClaimInFront(q.s, o, q.x, q.d);
    } else {
      OtherInFront(q.s, o, q.x, q.d, q.pending);
    }
  }

  lemma XStillWaits(q: Stretch, o: Stamped)
    requires XWaits(q) && DisciplinedWithoutX(q, o)
    ensures XWaits(Onward(q, o))
  {
    StepKeepsSound(q.s, o.at, o.op);
    StillWaiting(q.s, o.at, o.op, q.x, q.d);
  }

  lemma OneMoreBatch(all: set<Id>, batch: set<Id>)
    requires batch <= all
    ensures |all - batch| == |all| - |batch|
  {
  }

  function Cost(limit: nat): Stamped -> nat {
    (o: Stamped) => if o.op.Claim? then limit else 0
  }

  lemma {:induction false} CostOfClaims(limit: nat, ops: seq<Stamped>)
    ensures Total(Cost(limit), ops) == Total(IsClaim, ops) * limit
  {
    if ops != [] {
      CostOfClaims(limit, ops[..|ops| - 1]);
      Distribute(Total(IsClaim, ops[..|ops| - 1]), IsClaim(ops[|ops| - 1]), limit);
    }
  }

  lemma Distribute(a: nat, b: nat, k: nat)
    ensures (a + b) * k == a * k + b * k
  {
  }

  predicate XWaitsWith(q: Stretch, limit: nat) {
    XWaits(q) && q.limit == limit
  }

  lemma PaysItsWay(q: Stretch, o: Stamped, limit: nat)
    requires XWaitsWith(q, limit) && DisciplinedWithoutX(q, o)
    ensures XWaitsWith(Onward(q, o), limit)
    ensures InFront(Onward(q, o)) + Cost(limit)(o) <= InFront(q)
  {
    XStillWaits(q, o);
    OneStepInFront(q, o);
    OnwardFields(q, o);
  }

  /** Without a claim of x, full batches eat up what was in front of it. */
  lemma OvertakingBound(q: Stretch, ops: seq<Stamped>)
    requires XWaits(q) && Legal(q, Onward, DisciplinedWithoutX, ops)
    ensures Total(IsClaim, ops) * q.limit <= InFront(q)
  {
    var limit := q.limit;
    var inv := (r: Stretch) => XWaitsWith(r, limit);
    forall r: Stretch, o: Stamped | XWaitsWith(r, limit) && DisciplinedWithoutX(r, o)
      ensures XWaitsWith(Onward(r, o), limit)
      ensures InFront(Onward(r, o)) + Cost(limit)(o) <= InFront(r)
    {
      PaysItsWay(r, o, limit);
    }
    PotentialBound(q, Onward, DisciplinedWithoutX, inv, Cost(limit), InFront, ops);
    CostOfClaims(limit, ops);
  }

  lemma FullBatches(claims: nat, limit: nat, n: nat)
    requires limit >= 1 && claims * limit <= n
    ensures claims <= n / limit
  {
    assert n < (n / limit + 1) * limit;
    MulCancel(claims, n / limit + 1, limit);
  }

  lemma {:induction false} XIsFixed(q: Stretch, ops: seq<Stamped>)
    ensures Final(q, Onward, ops).x == q.x
  {
    if ops != [] {
      XIsFixed(q, ops[..|ops| - 1]);
      OnwardFields(Final(q, Onward, ops[..|ops| - 1]), ops[|ops| - 1]);
    }
  }

  predicate TakenBy(ops: seq<Stamped>, x: Id) {
    exists k :: 0 <= k < |ops| && x in Batch(ops[k])
  }

  lemma NotTaken(q: Stretch, ops: seq<Stamped>)
    requires Legal(q, Onward, Disciplined, ops) && !TakenBy(ops, q.x)
    ensures Legal(q, Onward, DisciplinedWithoutX, ops)
  {
    forall k | 0 <= k < |ops|
      ensures Final(q, Onward, ops[..k]).x !in Batch(ops[k])
    {
      XIsFixed(q, ops[..k]);
    }
    Strengthen(q, Onward, Disciplined, DisciplinedWithoutX, ops);
  }

  /**
   * Bounded overtaking: with N other items scheduled at or before d when the clock passes d, a stretch
   * of floor(N/limit)+1 claims with settled batches contains a claim of x.
   */
  lemma BoundedOvertaking(q: Stretch, ops: seq<Stamped>)
    requires XWaits(q) && q.pending == {} && q.limit >= 1
    requires Legal(q, Onward, Disciplined, ops)
    requires Total(IsClaim, ops) > |Ahead(q.s.db, q.d) - {q.x}| / q.limit
    ensures TakenBy(ops, q.x)
  {
    if !TakenBy(ops, q.x) {
      NotTaken(q, ops);
      OvertakingBound(q, ops);
      assert Ahead(q.s.db, q.d) - {q.x} - {} == Ahead(q.s.db, q.d) - {q.x};
      FullBatches(Total(IsClaim, ops), q.limit, |Ahead(q.s.db, q.d) - {q.x}|);
    }
  }
}
