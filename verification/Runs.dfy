/**
 * Runs of the core service: any number of scrapers, users and replicas act on the tables, one atomic
 * operation at a time, at a clock that never goes back. The log records what each operation did and
 * which alerts it returned.
 */
module Runs {
  import opened Prelude
  import opened DomainMoney
  import opened Alerts
  import opened Store
  import opened Traces

  datatype Op =
    | Claim(limit: int, lease: int, locked: set<Id>, ids: seq<Id>)
    | Observe(input: SnapshotInput, id: Id, previous: Option<Snapshot>)
    | ReportFailure(item: Id, reason: string)
    | Change(user: Id, item: Id, patch: Patch)
    | Add(newItem: NewItem, id: Id)
    | Remove(user: Id, item: Id)
    | Register(chat: int, id: Id)

  datatype Event =
    | Claimed(at: int, seconds: nat, ids: seq<Id>)
    | Observed(at: int, item: Id, target: Option<Money>, snapshot: Snapshot, alerts: seq<Alert>)
    | ScrapeFailed(at: int, item: Id, streak: nat, alerts: seq<Alert>)
    | Changed(at: int, item: Id)
    | Added(at: int, item: Id)
    | Removed(at: int, item: Id)
    | Quiet(at: int)

  /** The tables, the clock, the identifiers handed out so far, and the log. */
  datatype System = System(db: Db, clock: int, issued: set<Id>, log: seq<Event>)

  const START: System := System(EMPTY, 0, {}, [])

  /** Identifiers are UUIDs: never handed out twice, and without a colon. */
  predicate IsFresh(s: System, id: Id) {
    id !in s.issued && ':' !in id
  }

  /** What the environment can choose: the instant, fresh identifiers, and how ties are broken. */
  predicate Enabled(s: System, at: int, op: Op) {
    && s.clock <= at
    && match op
       case Claim(limit, _, locked, ids) => FirstDue(s.db, at, EffectiveLimit(limit), locked, ids)
       case Observe(input, id, previous) => IsFresh(s, id) && IsLatest(s.db.HistoryOf(input.item), previous)
       case Add(_, id) => IsFresh(s, id)
       case Register(_, id) => IsFresh(s, id)
       case _ => true
  }

  function DbAfter(db: Db, at: int, op: Op): Db {
    match op
    case Claim(_, lease, _, ids) => Lease(db, at, LeaseSeconds(lease), ids)
    case Observe(input, id, previous) => Record(db, at, input, id, previous).0
    case ReportFailure(x, reason) => Fail(db, at, x, reason).0
    case Change(user, x, patch) => Update(db, at, user, x, patch).0
    case Add(n, id) => Create(db, at, n, id).0
    case Remove(user, x) => Delete(db, user, x).0
    case Register(chat, id) => EnsureUser(db, chat, id)
  }

  function EventOf(db: Db, at: int, op: Op): Event {
    match op
    case Claim(_, lease, _, ids) => Claimed(at, LeaseSeconds(lease), ids)
    case Observe(input, id, previous) =>
      var r := Record(db, at, input, id, previous).1;
      if r.Err? then Quiet(at)
      else Observed(at, input.item, r.value.item.target, r.value.snapshot, r.value.alerts)
    case ReportFailure(x, reason) =>
      var r := Fail(db, at, x, reason).1;
      if r.Err? then Quiet(at) else ScrapeFailed(at, x, r.value.streak, r.value.alerts)
    case Change(user, x, patch) => if Update(db, at, user, x, patch).1.Err? then Quiet(at) else Changed(at, x)
    case Add(n, id) => if Create(db, at, n, id).1.Err? then Quiet(at) else Added(at, id)
    case Remove(user, x) => if Delete(db, user, x).1.Err? then Quiet(at) else Removed(at, x)
    case Register(_, _) => Quiet(at)
  }

  function Handed(op: Op): set<Id> {
    match op
    case Observe(_, id, _) => {id}
    case Add(_, id) => {id}
    case Register(_, id) => {id}
    case _ => {}
  }

  function Step(s: System, at: int, op: Op): System {
    System(DbAfter(s.db, at, op), at, s.issued + Handed(op), s.log + [EventOf(s.db, at, op)])
  }

  datatype Stamped = Stamped(at: int, op: Op)

  function Next(s: System, o: Stamped): System {
    Step(s, o.at, o.op)
  }

  predicate Possible(s: System, o: Stamped) {
    Enabled(s, o.at, o.op)
  }

  function Exec(ops: seq<Stamped>): System {
    Final(START, Next, ops)
  }

  predicate Run(ops: seq<Stamped>) {
    Legal(START, Next, Possible, ops)
  }

  /** An earlier point of a run is reached by a run, and the run goes on from there with the next operation. */
  lemma PointOfRun(ops: seq<Stamped>, k: nat)
    requires Run(ops) && k <= |ops|
    ensures Run(ops[..k])
    ensures k < |ops| ==> Enabled(Exec(ops[..k]), ops[k].at, ops[k].op)
    ensures k < |ops| ==> Exec(ops[..k + 1]) == Step(Exec(ops[..k]), ops[k].at, ops[k].op)
  {
    PrefixIsRun(START, Next, Possible, ops, k);
  }

  /** The log has one event per operation. */
  lemma {:induction false} LogOfPrefix(ops: seq<Stamped>, k: nat)
    requires Run(ops) && k <= |ops|
    ensures |Exec(ops).log| == |ops| && Exec(ops[..k]).log == Exec(ops).log[..k]
    ensures Exec(ops[..k]).clock <= Exec(ops).clock
    decreases |ops|
  {
    var n := |ops|;
    if n > 0 {
      LastOfRun(ops);
      LogOfPrefix(ops[..n - 1], if k < n then k else 0);
      assert k < n ==> ops[..n - 1][..k] == ops[..k];
    }
    if k == n {
      assert ops[..k] == ops;
    }
  }

  /** What happened at each point of a run. */
  function LogOf(ops: seq<Stamped>): (log: seq<Event>)
    requires Run(ops)
    ensures |log| == |ops| && log == Exec(ops).log
  {
    LogOfPrefix(ops, 0);
    Exec(ops).log
  }

  lemma LastOfRun(ops: seq<Stamped>)
    requires Run(ops) && ops != []
    ensures Run(ops[..|ops| - 1])
    ensures var before, o := Exec(ops[..|ops| - 1]), ops[|ops| - 1];
            && Enabled(before, o.at, o.op) && Exec(ops) == Step(before, o.at, o.op)
            && Exec(ops).log == before.log + [EventOf(before.db, o.at, o.op)]
            && before.clock <= Exec(ops).clock
  {
    PointOfRun(ops, |ops| - 1);
    assert ops[..|ops|] == ops;
  }

  // ------------------------------------------------------------ what every operation keeps

  predicate SoundItem(s: System, x: Id) {
    && x in s.db.items && x in s.issued && ':' !in x
    && MIN_INTERVAL <= s.db.items[x].interval <= MAX_INTERVAL
    && s.db.items[x].user in s.db.users
  }

  predicate Sound(s: System) {
    && (forall x :: x in s.db.items ==> SoundItem(s, x))
    && s.db.history.Keys == s.db.items.Keys
    && (forall x :: x in s.db.history ==> forall p :: p in s.db.history[x] ==> ProperSnapshot(p))
  }

  lemma ObserveKeepsSound(s: System, at: int, op: Op)
    requires Sound(s) && Enabled(s, at, op) && op.Observe?
    ensures Sound(Step(s, at, op))
  {
    if Recordable(s.db, op.input, op.previous) {
      RecordedSnapshotIsProper(s, at, op);
    }
  }

  lemma RecordedSnapshotIsProper(s: System, at: int, op: Op)
    requires Sound(s) && Enabled(s, at, op) && op.Observe? && Recordable(s.db, op.input, op.previous)
    ensures ProperSnapshot(InputOf(s.db, at, op.input, op.id, op.previous).observed)
  {
    if op.input.price.None? {
      assert op.previous.value in s.db.history[op.input.item];
    }
  }

  lemma IntervalInSeconds(d: int)
    requires ValidateInterval(d).Ok?
    ensures MIN_INTERVAL <= ValidateInterval(d).value / NANOS <= MAX_INTERVAL
  {
  }

  lemma ChangeKeepsSound(s: System, at: int, op: Op)
    requires Sound(s) && Enabled(s, at, op) && op.Change?
    ensures Sound(Step(s, at, op))
  {
    var p := op.patch;
    if p.interval.Some? && ValidateInterval(p.interval.value).Ok? {
      IntervalInSeconds(p.interval.value);
    }
  }

  lemma AddKeepsSound(s: System, at: int, op: Op)
    requires Sound(s) && Enabled(s, at, op) && op.Add?
    ensures Sound(Step(s, at, op))
  {
    if ValidateInterval(op.newItem.interval).Ok? {
      IntervalInSeconds(op.newItem.interval);
    }
  }

  lemma OthersKeepSound(s: System, at: int, op: Op)
    requires Sound(s) && Enabled(s, at, op) && !op.Observe? && !op.Change? && !op.Add?
    ensures Sound(Step(s, at, op))
  {
  }

  lemma StepKeepsSound(s: System, at: int, op: Op)
    requires Sound(s) && Enabled(s, at, op)
    ensures Sound(Step(s, at, op))
  {
    if op.Observe? {
      ObserveKeepsSound(s, at, op);
    } else if op.Change? {
      ChangeKeepsSound(s, at, op);
    } else if op.Add? {
      AddKeepsSound(s, at, op);
    } else {
      OthersKeepSound(s, at, op);
    }
  }

  lemma {:induction false} RunsAreSound(ops: seq<Stamped>)
    requires Run(ops)
    ensures Sound(Exec(ops))
    decreases |ops|
  {
    if ops != [] {
      var n := |ops| - 1;
      LastOfRun(ops);
      RunsAreSound(ops[..n]);
      StepKeepsSound(Exec(ops[..n]), ops[n].at, ops[n].op);
    }
  }
}
