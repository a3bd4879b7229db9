/** Failure streaks over whole runs: what the stored counter means and when a degraded scrape is reported. */
module FailureRuns {
  import opened Prelude
  import opened Text
  import opened Alerts
  import opened Store
  import opened Runs
  import opened AlertRuns

  /** Failures of one item since its last accepted observation. */
  function StreakOf(log: seq<Event>, x: Id): nat {
    if log == [] then 0
    else
      match log[|log| - 1]
      case Observed(_, y, _, _, _) => if x == y then 0 else StreakOf(log[..|log| - 1], x)
      case ScrapeFailed(_, y, _, _) => StreakOf(log[..|log| - 1], x) + if x == y then 1 else 0
      case _ => StreakOf(log[..|log| - 1], x)
  }

  ghost predicate StreaksAreCounts(s: System) {
    && (forall x :: x in s.db.items ==> s.db.items[x].streak == StreakOf(s.log, x))
    && (forall x :: x !in s.issued ==> StreakOf(s.log, x) == 0)
  }

  lemma StreakAfter(s: System, at: int, op: Op, x: Id)
    ensures StreakOf(Step(s, at, op).log, x)
         == match EventOf(s.db, at, op)
            case Observed(_, y, _, _, _) => if x == y then 0 else StreakOf(s.log, x)
            case ScrapeFailed(_, y, _, _) => StreakOf(s.log, x) + (if x == y then 1 else 0)
            case _ => StreakOf(s.log, x)
  {
    var log' := Step(s, at, op).log;
    assert log'[..|log'| - 1] == s.log;
  }

  /** What an operation does to the stored counter of an item. */
  lemma CounterAfter(s: System, at: int, op: Op, x: Id)
    requires Sound(s) && Enabled(s, at, op) && x in Step(s, at, op).db.items
    ensures x in s.db.items ==>
              Step(s, at, op).db.items[x].streak
              == match EventOf(s.db, at, op)
                 case Observed(_, y, _, _, _) => if x == y then 0 else s.db.items[x].streak
                 case ScrapeFailed(_, y, _, _) => s.db.items[x].streak + (if x == y then 1 else 0)
                 case _ => s.db.items[x].streak
    ensures x !in s.db.items ==>
              x !in s.issued && Step(s, at, op).db.items[x].streak == 0 && EventOf(s.db, at, op).Added?
  {
  }

  lemma EventsAreAboutIssued(s: System, at: int, op: Op, x: Id)
    requires Sound(s) && x !in Step(s, at, op).issued
    ensures x !in s.issued
    ensures EventOf(s.db, at, op).Observed? ==> EventOf(s.db, at, op).item != x
    ensures EventOf(s.db, at, op).ScrapeFailed? ==> EventOf(s.db, at, op).item != x
  {
  }

  lemma StepKeepsStreaks(s: System, at: int, op: Op)
    requires Sound(s) && StreaksAreCounts(s) && Enabled(s, at, op)
    ensures StreaksAreCounts(Step(s, at, op))
  {
    var s' := Step(s, at, op);
    forall x | x in s'.db.items
      ensures s'.db.items[x].streak == StreakOf(s'.log, x)
    {
      StreakAfter(s, at, op, x);
      CounterAfter(s, at, op, x);
    }
    forall x | x !in s'.issued
      ensures StreakOf(s'.log, x) == 0
    {
      StreakAfter(s, at, op, x);
      EventsAreAboutIssued(s, at, op, x);
    }
  }

  /** In every run the stored streak is the number of failures since the last stored snapshot. */
  lemma {:induction false} StreakIsCount(ops: seq<Stamped>)
    requires Run(ops)
    ensures StreaksAreCounts(Exec(ops))
    decreases |ops|
  {
    if ops != [] {
      var n := |ops| - 1;
      LastOfRun(ops);
      RunsAreSound(ops[..n]);
      StreakIsCount(ops[..n]);
      StepKeepsStreaks(Exec(ops[..n]), ops[n].at, ops[n].op);
    }
  }

  /**
   * A failure recorded in a run continues the streak by one and schedules the next check after
   * min(interval * 2^(streak-1), 6 h).
   */
  lemma FailureSchedules(ops: seq<Stamped>, n: nat)
    requires Run(ops) && n < |ops| && LogOf(ops)[n].ScrapeFailed?
    ensures var e := LogOf(ops)[n];
            var before, after := Exec(ops[..n]).db, Exec(ops[..n + 1]).db;
            && e.streak == StreakOf(LogOf(ops)[..n], e.item) + 1
            && e.item in before.items && e.item in after.items
            && after.items[e.item].nextCheck
               == e.at + Min(before.items[e.item].interval * Pow2(e.streak - 1), MAX_BACKOFF) * SECOND
            && after.items[e.item].interval == before.items[e.item].interval
            && after.items[e.item].claimedUntil.None?
  {
    PointOfRun(ops, n);
    LogOfPrefix(ops, n);
    EventAt(ops, n);
    StreakIsCount(ops[..n]);
  }

  // ------------------------------------------------------------ degraded scrapes

  /** How many degraded-scrape alerts about the item were returned. */
  function DegradedCount(log: seq<Event>, x: Id): nat {
    if log == [] then 0 else DegradedCount(log[..|log| - 1], x) + DegradedIn(AlertsOf(log[|log| - 1]), x)
  }

  function DegradedIn(alerts: seq<Alert>, x: Id): nat {
    if alerts == [] then 0
    else DegradedIn(alerts[..|alerts| - 1], x)
         + (if alerts[|alerts| - 1].kind == ScrapeDegraded && alerts[|alerts| - 1].item == x then 1 else 0)
  }

  predicate Persistent(e: Event, x: Id) {
    e.ScrapeFailed? && e.item == x && e.streak >= FAILURE_STREAK_THRESHOLD
  }

  /** Some streak of the item reached the threshold. */
  predicate Reached(log: seq<Event>, x: Id) {
    exists e :: e in log && Persistent(e, x)
  }

  /** Once per item and only for a reached threshold; a counter at the threshold got there in the log. */
  ghost predicate DegradedOnce(s: System) {
    && (forall x :: DegradedCount(s.log, x) == if Reached(s.log, x) then 1 else 0)
    && (forall x :: x in s.db.items && s.db.items[x].streak >= FAILURE_STREAK_THRESHOLD ==> Reached(s.log, x))
  }

  lemma DegradedAfter(s: System, at: int, op: Op, x: Id)
    ensures var s', e := Step(s, at, op), EventOf(s.db, at, op);
            && DegradedCount(s'.log, x) == DegradedCount(s.log, x) + DegradedIn(AlertsOf(e), x)
            && (Reached(s'.log, x) <==> Reached(s.log, x) || Persistent(e, x))
  {
    var s', e := Step(s, at, op), EventOf(s.db, at, op);
    assert s'.log[..|s'.log| - 1] == s.log;
    assert s'.log[|s'.log| - 1] == e && e in s'.log;
  }

  lemma {:induction false} NoneDegraded(alerts: seq<Alert>, x: Id)
    requires forall a :: a in alerts && a.item == x ==> a.kind != ScrapeDegraded
    ensures DegradedIn(alerts, x) == 0
  {
    if alerts != [] {
      NoneDegraded(alerts[..|alerts| - 1], x);
      assert alerts[|alerts| - 1] in alerts;
    }
  }

  lemma {:induction false} SomeDegraded(log: seq<Event>, a: Alert)
    requires a in Returned(log) && a.kind == ScrapeDegraded
    ensures DegradedCount(log, a.item) > 0
  {
    var n := |log| - 1;
    if a in Returned(log[..n]) {
      SomeDegraded(log[..n], a);
    } else {
      DegradedAmong(AlertsOf(log[n]), a);
    }
  }

  lemma {:induction false} DegradedAmong(alerts: seq<Alert>, a: Alert)
    requires a in alerts && a.kind == ScrapeDegraded
    ensures DegradedIn(alerts, a.item) > 0
  {
    var n := |alerts| - 1;
    if alerts[n] != a {
      assert a in alerts[..n];
      DegradedAmong(alerts[..n], a);
    }
  }

  lemma {:induction false} ReturnedDegraded(log: seq<Event>, x: Id)
    requires DegradedCount(log, x) > 0
    ensures exists a :: a in Returned(log) && a.kind == ScrapeDegraded && a.item == x
  {
    var n := |log| - 1;
    if DegradedCount(log[..n], x) > 0 {
      ReturnedDegraded(log[..n], x);
      var a :| a in Returned(log[..n]) && a.kind == ScrapeDegraded && a.item == x;
      assert a in Returned(log);
    } else {
      DegradedPresent(AlertsOf(log[n]), x);
    }
  }

  lemma {:induction false} DegradedPresent(alerts: seq<Alert>, x: Id)
    requires DegradedIn(alerts, x) > 0
    ensures exists a :: a in alerts && a.kind == ScrapeDegraded && a.item == x
  {
    var n := |alerts| - 1;
    if DegradedIn(alerts[..n], x) > 0 {
      DegradedPresent(alerts[..n], x);
    } else {
      assert alerts[n] in alerts;
    }
  }

  /** The one key every degraded-scrape alert of an item has. */
  function DegradedKey(x: Id): string {
    DedupKey(ScrapeDegraded, x, "streak" + Decimal(FAILURE_STREAK_THRESHOLD))
  }

  ghost predicate DegradedKeyed(s: System) {
    forall a :: a in Returned(s.log) && a.kind == ScrapeDegraded ==> a.key == DegradedKey(a.item)
  }

  lemma NewDegradedAreKeyed(s: System, at: int, op: Op, a: Alert)
    requires Sound(s) && Enabled(s, at, op) && a in AlertsOf(EventOf(s.db, at, op)) && a.kind == ScrapeDegraded
    ensures EventOf(s.db, at, op).ScrapeFailed? && a.key == DegradedKey(a.item)
    ensures EventOf(s.db, at, op).item == a.item && EventOf(s.db, at, op).streak == FAILURE_STREAK_THRESHOLD
  {
    if op.Observe? {
      ObservationAppends(s, at, op);
      var input := InputOf(s.db, at, op.input, op.id, op.previous);
      assert a in DecideAlerts(input);
      ObservationsAreNotDegraded(input, a);
    } else {
      FailureAppends(s, at, op);
    }
  }

  lemma ObservationsAreNotDegraded(i: AlertInput, a: Alert)
    requires a in DecideAlerts(i)
    ensures a.kind != ScrapeDegraded
  {
  }

  lemma StepKeepsDegradedKeyed(s: System, at: int, op: Op)
    requires Sound(s) && DegradedKeyed(s) && Enabled(s, at, op)
    ensures DegradedKeyed(Step(s, at, op))
  {
    ReturnedAfter(s, at, op);
    forall a | a in AlertsOf(EventOf(s.db, at, op)) && a.kind == ScrapeDegraded
      ensures a.key == DegradedKey(a.item)
    {
      NewDegradedAreKeyed(s, at, op, a);
    }
  }

  lemma ThresholdFailure(s: System, at: int, op: Op)
    requires Sound(s) && AlertsSound(s) && DegradedKeyed(s) && DegradedOnce(s)
    requires op.ReportFailure? && Known(s.db, op.item)
    ensures DegradedIn(AlertsOf(EventOf(s.db, at, op)), op.item)
         == if s.db.items[op.item].streak + 1 >= FAILURE_STREAK_THRESHOLD && !Reached(s.log, op.item) then 1 else 0
  {
    var streak := s.db.items[op.item].streak + 1;
    FailureAppends(s, at, op);
    if streak == FAILURE_STREAK_THRESHOLD && !Reached(s.log, op.item) {
      FirstThreshold(s, at, op);
    } else if streak == FAILURE_STREAK_THRESHOLD {
      LaterThreshold(s, at, op);
    } else {
      assert AlertsOf(EventOf(s.db, at, op)) == [];
    }
  }

  lemma FirstThreshold(s: System, at: int, op: Op)
    requires Sound(s) && AlertsSound(s) && DegradedOnce(s) && op.ReportFailure? && !Reached(s.log, op.item)
    requires Known(s.db, op.item) && s.db.items[op.item].streak + 1 == FAILURE_STREAK_THRESHOLD
    ensures DegradedIn(AlertsOf(EventOf(s.db, at, op)), op.item) == 1
  {
    FailureAppends(s, at, op);
    assert SoundItem(s, op.item);
    KeyNotStored(s, op.item);
    var a := DecideFailureAlert(op.item, s.db.items[op.item].user, FAILURE_STREAK_THRESHOLD, FAILURE_STREAK_THRESHOLD)[0];
    DegradedAmong(AlertsOf(EventOf(s.db, at, op)), a);
    AtMostOne(AlertsOf(EventOf(s.db, at, op)), op.item, DegradedKey(op.item));
  }

  lemma LaterThreshold(s: System, at: int, op: Op)
    requires Sound(s) && AlertsSound(s) && DegradedKeyed(s) && DegradedOnce(s)
    requires op.ReportFailure? && Reached(s.log, op.item) && Known(s.db, op.item) && s.db.items[op.item].streak + 1 == FAILURE_STREAK_THRESHOLD
    ensures DegradedIn(AlertsOf(EventOf(s.db, at, op)), op.item) == 0
  {
    FailureAppends(s, at, op);
    KeyStored(s, op.item);
    NoneDegraded(AlertsOf(EventOf(s.db, at, op)), op.item);
  }

  lemma KeyStored(s: System, x: Id)
    requires AlertsSound(s) && DegradedKeyed(s) && DegradedCount(s.log, x) > 0 && x in s.db.items
    ensures DegradedKey(x) in s.db.alerts
  {
    ReturnedDegraded(s.log, x);
  }

  lemma {:induction false} AtMostOne(alerts: seq<Alert>, x: Id, key: string)
    requires DistinctKeys(alerts)
    requires forall a :: a in alerts && a.kind == ScrapeDegraded && a.item == x ==> a.key == key
    ensures DegradedIn(alerts, x) <= 1
  {
    if alerts != [] {
      var rest, last := alerts[..|alerts| - 1], alerts[|alerts| - 1];
      AtMostOne(rest, x, key);
      if last.kind == ScrapeDegraded && last.item == x {
        forall a | a in rest && a.item == x
          ensures a.kind != ScrapeDegraded
        {
          var k :| 0 <= k < |rest| && rest[k] == a;
          assert alerts[k].key != last.key;
        }
        NoneDegraded(rest, x);
      }
    }
  }

  lemma KeyNotStored(s: System, x: Id)
    requires AlertsSound(s) && DegradedOnce(s) && !Reached(s.log, x) && ':' !in x
    ensures DegradedKey(x) !in s.db.alerts
  {
    if DegradedKey(x) in s.db.alerts {
      var b := s.db.alerts[DegradedKey(x)];
      var a := Alert(ScrapeDegraded, x, "", None, None, None, None, DegradedKey(x));
      KeyIdentifies(a, b);
      SomeDegraded(s.log, b);
    }
  }

  lemma StepKeepsDegradedOnce(s: System, at: int, op: Op)
    requires Sound(s) && AlertsSound(s) && DegradedKeyed(s) && DegradedOnce(s) && Enabled(s, at, op)
    ensures DegradedOnce(Step(s, at, op))
  {
    var s', e := Step(s, at, op), EventOf(s.db, at, op);
    forall x
      ensures DegradedCount(s'.log, x) == if Reached(s'.log, x) then 1 else 0
    {
      DegradedAfter(s, at, op, x);
      if e.ScrapeFailed? && e.item == x {
        ThresholdFailure(s, at, op);
      } else {
        OthersReturnNoDegraded(s, at, op, x);
      }
    }
    forall x | x in s'.db.items && s'.db.items[x].streak >= FAILURE_STREAK_THRESHOLD
      ensures Reached(s'.log, x)
    {
      DegradedAfter(s, at, op, x);
      CounterAfter(s, at, op, x);
      FailedStreak(s, at, op);
    }
  }

  lemma FailedStreak(s: System, at: int, op: Op)
    ensures EventOf(s.db, at, op).ScrapeFailed? ==>
              op.ReportFailure? && Known(s.db, op.item) && EventOf(s.db, at, op).item == op.item
              && EventOf(s.db, at, op).streak == s.db.items[op.item].streak + 1
  {
  }

  lemma OthersReturnNoDegraded(s: System, at: int, op: Op, x: Id)
    requires Sound(s) && Enabled(s, at, op)
    requires !(EventOf(s.db, at, op).ScrapeFailed? && EventOf(s.db, at, op).item == x)
    ensures DegradedIn(AlertsOf(EventOf(s.db, at, op)), x) == 0
    ensures !Persistent(EventOf(s.db, at, op), x)
  {
    forall a | a in AlertsOf(EventOf(s.db, at, op)) && a.item == x
      ensures a.kind != ScrapeDegraded
    {
      if a.kind == ScrapeDegraded {
        NewDegradedAreKeyed(s, at, op, a);
      }
    }
    NoneDegraded(AlertsOf(EventOf(s.db, at, op)), x);
  }

  lemma {:induction false} RunsDegradeOnce(ops: seq<Stamped>)
    requires Run(ops)
    ensures DegradedKeyed(Exec(ops)) && DegradedOnce(Exec(ops))
    decreases |ops|
  {
    if ops != [] {
      var n := |ops| - 1;
      LastOfRun(ops);
      RunsAreSound(ops[..n]);
      RunsHaveSoundAlerts(ops[..n]);
      RunsDegradeOnce(ops[..n]);
      StepKeepsDegradedKeyed(Exec(ops[..n]), ops[n].at, ops[n].op);
      StepKeepsDegradedOnce(Exec(ops[..n]), ops[n].at, ops[n].op);
    }
  }

  /**
   * Over the whole life of an item, exactly one degraded-scrape alert is returned if some streak
   * reaches the threshold, and none otherwise; later streaks stay silent.
   */
  lemma DegradedExactlyOnce(ops: seq<Stamped>, x: Id)
    requires Run(ops)
    ensures DegradedCount(LogOf(ops), x) == if Reached(LogOf(ops), x) then 1 else 0
  {
    RunsDegradeOnce(ops);
  }

  lemma NothingNew(table: map<string, Alert>, decided: seq<Alert>, stored: seq<Alert>, key: string)
    requires forall a :: a in stored ==> a in decided && a.key !in table
    requires forall a :: a in decided ==> a.key == key
    ensures key in table ==> stored == []
  {
    if stored != [] {
      assert stored[0] in stored;
    }
  }

  lemma SilentStep(s: System, at: int, op: Op)
    requires Sound(s) && AlertsSound(s) && DegradedKeyed(s) && DegradedOnce(s) && EventOf(s.db, at, op).ScrapeFailed?
    requires Reached(s.log, EventOf(s.db, at, op).item)
    ensures AlertsOf(EventOf(s.db, at, op)) == []
  {
    FailedStreak(s, at, op);
    var i := s.db.items[op.item];
    FailureAppends(s, at, op);
    KeyStored(s, op.item);
    NothingNew(s.db.alerts, DecideFailureAlert(op.item, i.user, i.streak + 1, FAILURE_STREAK_THRESHOLD),
               AlertsOf(EventOf(s.db, at, op)), DegradedKey(op.item));
  }

  /** A failure after some earlier streak of the item reached the threshold returns nothing. */
  lemma LaterStreaksAreSilent(ops: seq<Stamped>, n: nat)
    requires Run(ops) && n < |ops| && LogOf(ops)[n].ScrapeFailed?
    requires Reached(LogOf(ops)[..n], LogOf(ops)[n].item)
    ensures AlertsOf(LogOf(ops)[n]) == []
  {
    AtPoint(ops, n);
    RunsDegradeOnce(ops[..n]);
    SilentStep(Exec(ops[..n]), ops[n].at, ops[n].op);
  }
}
