/** The alerts core returns over whole runs: their identity, and when each kind is returned. */
module AlertRuns {
  import opened Prelude
  import opened DomainMoney
  import opened Alerts
  import opened Store
  import opened Runs

  function AlertsOf(e: Event): seq<Alert> {
    match e
    case Observed(_, _, _, _, alerts) => alerts
    case ScrapeFailed(_, _, _, alerts) => alerts
    case _ => []
  }

  /** Every alert returned so far, in order. */
  function Returned(log: seq<Event>): seq<Alert> {
    if log == [] then [] else Returned(log[..|log| - 1]) + AlertsOf(log[|log| - 1])
  }

  predicate DistinctKeys(alerts: seq<Alert>) {
    forall m, n :: 0 <= m < n < |alerts| ==> alerts[m].key != alerts[n].key
  }

  /** The stored alerts are exactly the rows that were added. */
  predicate Appended(table: map<string, Alert>, table': map<string, Alert>, stored: seq<Alert>) {
    && (forall k :: k in table ==> k in table' && table'[k] == table[k])
    && (forall a :: a in stored ==> a.key !in table && a.key in table')
    && (forall k :: k in table' && k !in table ==> table'[k] in stored && table'[k].key == k)
    && DistinctKeys(stored)
  }

  ghost predicate AboutItem(alerts: seq<Alert>, x: Id) {
    forall a :: a in alerts ==> a.item == x && WellKeyed(a)
  }

  lemma PersistAppends(table: map<string, Alert>, decided: seq<Alert>, x: Id)
    requires DistinctKinds(decided) && AboutItem(decided, x)
    ensures Appended(table, Persist(table, decided).0, Persist(table, decided).1)
    ensures AboutItem(Persist(table, decided).1, x)
    ensures forall a :: a in Persist(table, decided).1 <==> a in decided && a.key !in table
  {
    forall m, n | 0 <= m < n < |decided|
      ensures decided[m].key != decided[n].key
    {
      assert decided[m] in decided && decided[n] in decided;
      if decided[m].key == decided[n].key {
        KeyIdentifies(decided[m], decided[n]);
      }
    }
    PersistExact(table, decided);
  }

  // ------------------------------------------------------------ the alert table and the log agree

  ghost predicate AlertsSound(s: System) {
    && (forall a :: a in Returned(s.log) ==>
          WellKeyed(a) && a.item in s.issued && (a.item in s.db.items ==> a.key in s.db.alerts))
    && (forall k :: k in s.db.alerts ==>
          s.db.alerts[k].key == k && s.db.alerts[k].item in s.db.items && s.db.alerts[k] in Returned(s.log))
    && DistinctKeys(Returned(s.log))
  }

  lemma AppendingKeeps(s: System, s': System, x: Id, stored: seq<Alert>)
    requires AlertsSound(s) && s'.db.items.Keys == s.db.items.Keys && s.issued <= s'.issued
    requires Returned(s'.log) == Returned(s.log) + stored
    requires Appended(s.db.alerts, s'.db.alerts, stored) && AboutItem(stored, x)
    requires x in s.db.items && x in s.issued
    ensures AlertsSound(s')
  {
    forall a, b | a in Returned(s.log) && b in stored
      ensures a.key != b.key
    {
      NewKeyIsNew(s, x, a, b);
    }
    DistinctAppend(Returned(s.log), stored);
    OldRows(s, s', stored);
  }

  lemma NewKeyIsNew(s: System, x: Id, a: Alert, b: Alert)
    requires AlertsSound(s) && a in Returned(s.log)
    requires WellKeyed(b) && b.item == x && b.key !in s.db.alerts && x in s.db.items
    ensures a.key != b.key
  {
    if a.key == b.key {
      KeyIdentifies(a, b);
    }
  }

  lemma DistinctAppend(a: seq<Alert>, b: seq<Alert>)
    requires DistinctKeys(a) && DistinctKeys(b)
    requires forall x, y :: x in a && y in b ==> x.key != y.key
    ensures DistinctKeys(a + b)
  {
    forall m, n | 0 <= m < n < |a + b|
      ensures (a + b)[m].key != (a + b)[n].key
    {
      assert m < |a| ==> (a + b)[m] == a[m];
      assert n >= |a| ==> (a + b)[n] == b[n - |a|];
    }
  }

  lemma OldRows(s: System, s': System, stored: seq<Alert>)
    requires AlertsSound(s) && s'.db.items.Keys == s.db.items.Keys
    requires Returned(s'.log) == Returned(s.log) + stored
    requires Appended(s.db.alerts, s'.db.alerts, stored)
    requires forall a :: a in stored ==> a.item in s.db.items
    ensures forall k :: k in s'.db.alerts ==>
              s'.db.alerts[k].key == k && s'.db.alerts[k].item in s'.db.items && s'.db.alerts[k] in Returned(s'.log)
  {
    forall k | k in s'.db.alerts
      ensures s'.db.alerts[k].key == k && s'.db.alerts[k].item in s'.db.items && s'.db.alerts[k] in Returned(s'.log)
    {
      if k in s.db.alerts {
        assert s'.db.alerts[k] == s.db.alerts[k];
      }
    }
  }

  lemma RemovingKeeps(s: System, s': System, x: Id)
    requires AlertsSound(s) && s'.db.items == s.db.items - {x} && s'.issued == s.issued
    requires Returned(s'.log) == Returned(s.log)
    requires s'.db.alerts == map k | k in s.db.alerts && s.db.alerts[k].item != x :: s.db.alerts[k]
    ensures AlertsSound(s')
  {
    forall a | a in Returned(s.log) && a.item in s'.db.items
      ensures a.key in s'.db.alerts
    {
      KeyIdentifies(a, s.db.alerts[a.key]);
    }
  }

  lemma LeavingAlone(s: System, s': System)
    requires AlertsSound(s) && s.issued <= s'.issued && s'.db.alerts == s.db.alerts
    requires Returned(s'.log) == Returned(s.log)
    requires s.db.items.Keys <= s'.db.items.Keys && s'.db.items.Keys !! (s.issued - s.db.items.Keys)
    ensures AlertsSound(s')
  {
  }

  lemma ReturnedAfter(s: System, at: int, op: Op)
    ensures Returned(Step(s, at, op).log) == Returned(s.log) + AlertsOf(EventOf(s.db, at, op))
  {
    var log' := Step(s, at, op).log;
    assert log'[..|log'| - 1] == s.log;
  }

  /** An accepted observation of x adds its new alerts about x. */
  lemma ObservationAppends(s: System, at: int, op: Op)
    requires Sound(s) && Enabled(s, at, op) && op.Observe? && Recordable(s.db, op.input, op.previous)
    ensures var decided := DecideAlerts(InputOf(s.db, at, op.input, op.id, op.previous));
            var stored := Recorded(s.db, at, op.input, op.id, op.previous).1;
            && AlertsOf(EventOf(s.db, at, op)) == stored
            && Appended(s.db.alerts, DbAfter(s.db, at, op).alerts, stored)
            && AboutItem(stored, op.input.item) && AboutItem(decided, op.input.item)
            && forall a :: a in stored <==> a in decided && a.key !in s.db.alerts
  {
    var input := InputOf(s.db, at, op.input, op.id, op.previous);
    RecordedSnapshotIsProper(s, at, op);
    assert SoundItem(s, op.input.item);
    DecidedAreDistinct(input);
    PersistAppends(s.db.alerts, DecideAlerts(input), op.input.item);
  }

  lemma FailureAppends(s: System, at: int, op: Op)
    requires Sound(s) && op.ReportFailure? && Known(s.db, op.item)
    ensures var i := s.db.items[op.item];
            var decided := DecideFailureAlert(op.item, i.user, i.streak + 1, FAILURE_STREAK_THRESHOLD);
            var stored := Failed(s.db, at, op.item, op.reason).1;
            && AlertsOf(EventOf(s.db, at, op)) == stored
            && Appended(s.db.alerts, DbAfter(s.db, at, op).alerts, stored)
            && AboutItem(stored, op.item)
            && forall a :: a in stored <==> a in decided && a.key !in s.db.alerts
  {
    assert SoundItem(s, op.item);
    var i := s.db.items[op.item];
    PersistAppends(s.db.alerts, DecideFailureAlert(op.item, i.user, i.streak + 1, FAILURE_STREAK_THRESHOLD), op.item);
  }

  lemma ItemsAfterObservation(s: System, at: int, op: Op)
    requires (op.Observe? && Recordable(s.db, op.input, op.previous)) || (op.ReportFailure? && Known(s.db, op.item))
    ensures DbAfter(s.db, at, op).items.Keys == s.db.items.Keys
    ensures s.issued <= Step(s, at, op).issued
  {
  }

  lemma QuietKeepsAlerts(s: System, at: int, op: Op)
    requires Sound(s) && Enabled(s, at, op) && !op.Remove?
    requires op.Observe? ==> !Recordable(s.db, op.input, op.previous)
    requires op.ReportFailure? ==> !Known(s.db, op.item)
    ensures var s' := Step(s, at, op);
            && AlertsOf(EventOf(s.db, at, op)) == [] && s'.db.alerts == s.db.alerts && s.issued <= s'.issued
            && s.db.items.Keys <= s'.db.items.Keys && s'.db.items.Keys !! (s.issued - s.db.items.Keys)
  {
  }

  lemma StepKeepsAlertsSound(s: System, at: int, op: Op)
    requires Sound(s) && AlertsSound(s) && Enabled(s, at, op)
    ensures AlertsSound(Step(s, at, op))
  {
    var s' := Step(s, at, op);
    ReturnedAfter(s, at, op);
    if op.Observe? && Recordable(s.db, op.input, op.previous) {
      ObservationAppends(s, at, op);
      ItemsAfterObservation(s, at, op);
      assert SoundItem(s, op.input.item);
      AppendingKeeps(s, s', op.input.item, AlertsOf(EventOf(s.db, at, op)));
    } else if op.ReportFailure? && Known(s.db, op.item) {
      FailureAppends(s, at, op);
      ItemsAfterObservation(s, at, op);
      assert SoundItem(s, op.item);
      AppendingKeeps(s, s', op.item, AlertsOf(EventOf(s.db, at, op)));
    } else if op.Remove? {
      RemoveKeepsAlerts(s, at, op);
    } else {
      QuietKeepsAlerts(s, at, op);
      LeavingAlone(s, s');
    }
  }

  predicate Removes(s: System, op: Op) {
    op.Remove? && op.item in s.db.items && s.db.items[op.item].user == op.user
  }

  lemma RemoveEffect(s: System, at: int, op: Op)
    requires op.Remove?
    ensures var s' := Step(s, at, op);
            && AlertsOf(EventOf(s.db, at, op)) == [] && s'.issued == s.issued
            && (Removes(s, op) ==>
                  && s'.db.items == s.db.items - {op.item} && s'.db.history == s.db.history - {op.item}
                  && s'.db.alerts == map k | k in s.db.alerts && s.db.alerts[k].item != op.item :: s.db.alerts[k])
            && (!Removes(s, op) ==> s'.db == s.db)
  {
    assert s.issued + {} == s.issued;
  }

  lemma RemoveKeepsAlerts(s: System, at: int, op: Op)
    requires AlertsSound(s) && op.Remove?
    ensures AlertsSound(Step(s, at, op))
  {
    RemoveEffect(s, at, op);
    ReturnedAfter(s, at, op);
    if Removes(s, op) {
      RemovingKeeps(s, Step(s, at, op), op.item);
    } else {
      LeavingAlone(s, Step(s, at, op));
    }
  }

  lemma {:induction false} RunsHaveSoundAlerts(ops: seq<Stamped>)
    requires Run(ops)
    ensures AlertsSound(Exec(ops))
    decreases |ops|
  {
    if ops != [] {
      var n := |ops| - 1;
      LastOfRun(ops);
      RunsAreSound(ops[..n]);
      RunsHaveSoundAlerts(ops[..n]);
      StepKeepsAlertsSound(Exec(ops[..n]), ops[n].at, ops[n].op);
    }
  }

  /** Over any run, across creation, deletion and every kind of alert, no two returned alerts share a key. */
  lemma AllKeysDistinct(ops: seq<Stamped>)
    requires Run(ops)
    ensures DistinctKeys(Returned(LogOf(ops)))
  {
    RunsHaveSoundAlerts(ops);
  }

  // ------------------------------------------------------------ the history is the log

  /** The accepted observations of one item, oldest first. */
  function Observations(log: seq<Event>, x: Id): seq<Snapshot> {
    if log == [] then []
    else Observations(log[..|log| - 1], x) + SnapshotsOf(log[|log| - 1], x)
  }

  function SnapshotsOf(e: Event, x: Id): seq<Snapshot> {
    if e.Observed? && e.item == x then [e.snapshot] else []
  }

  ghost predicate HistoryIsLog(s: System) {
    && (forall x :: x in s.db.items ==> s.db.HistoryOf(x) == Observations(s.log, x))
    && (forall x :: x !in s.issued ==> Observations(s.log, x) == [])
  }

  lemma ObservationsAfter(s: System, at: int, op: Op, x: Id)
    ensures Observations(Step(s, at, op).log, x) == Observations(s.log, x) + SnapshotsOf(EventOf(s.db, at, op), x)
  {
    var log' := Step(s, at, op).log;
    assert log'[..|log'| - 1] == s.log;
  }

  lemma HistoryAfter(s: System, at: int, op: Op, x: Id)
    requires Sound(s) && Enabled(s, at, op) && x in Step(s, at, op).db.items
    ensures x in s.db.items ==>
              Step(s, at, op).db.HistoryOf(x) == s.db.HistoryOf(x) + SnapshotsOf(EventOf(s.db, at, op), x)
    ensures x !in s.db.items ==>
              && x !in s.issued && Step(s, at, op).db.HistoryOf(x) == [] && SnapshotsOf(EventOf(s.db, at, op), x) == []
  {
  }

  lemma StepKeepsHistoryIsLog(s: System, at: int, op: Op)
    requires Sound(s) && HistoryIsLog(s) && Enabled(s, at, op)
    ensures HistoryIsLog(Step(s, at, op))
  {
    var s' := Step(s, at, op);
    forall x | x in s'.db.items
      ensures s'.db.HistoryOf(x) == Observations(s'.log, x)
    {
      ObservationsAfter(s, at, op, x);
      HistoryAfter(s, at, op, x);
    }
    forall x | x !in s'.issued
      ensures Observations(s'.log, x) == []
    {
      ObservationsAfter(s, at, op, x);
      ObservedIsIssued(s, at, op, x);
    }
  }

  lemma ObservedIsIssued(s: System, at: int, op: Op, x: Id)
    requires Sound(s) && x !in Step(s, at, op).issued
    ensures x !in s.issued && SnapshotsOf(EventOf(s.db, at, op), x) == []
  {
  }

  lemma {:induction false} RunsHaveHistory(ops: seq<Stamped>)
    requires Run(ops)
    ensures HistoryIsLog(Exec(ops))
    decreases |ops|
  {
    if ops != [] {
      var n := |ops| - 1;
      LastOfRun(ops);
      RunsAreSound(ops[..n]);
      RunsHaveHistory(ops[..n]);
      StepKeepsHistoryIsLog(Exec(ops[..n]), ops[n].at, ops[n].op);
    }
  }

  // ------------------------------------------------------------ all-time lows

  /** Every stored all-time low is the price of some snapshot of its item. */
  ghost predicate LowsAreHistoric(s: System) {
    forall k :: k in s.db.alerts && s.db.alerts[k].kind == AllTimeLow ==>
      s.db.alerts[k].price.Some? && s.db.alerts[k].price.value in Prices(s.db.HistoryOf(s.db.alerts[k].item))
  }

  lemma PricesGrow(h: seq<Snapshot>, t: seq<Snapshot>)
    ensures Prices(h + t) == Prices(h) + Prices(t)
  {
    forall m | m in Prices(h) + Prices(t)
      ensures m in Prices(h + t)
    {
      var p :| p in h + t && p.price == m;
    }
  }

  /** A row after an operation was there before, or is one of the alerts just returned. */
  lemma RowsAfter(s: System, at: int, op: Op, k: string)
    requires Sound(s) && AlertsSound(s) && Enabled(s, at, op) && k in Step(s, at, op).db.alerts
    ensures var a := Step(s, at, op).db.alerts[k];
            (k in s.db.alerts && s.db.alerts[k] == a) || a in AlertsOf(EventOf(s.db, at, op))
  {
    if op.Observe? && Recordable(s.db, op.input, op.previous) {
      ObservationAppends(s, at, op);
    } else if op.ReportFailure? && Known(s.db, op.item) {
      FailureAppends(s, at, op);
    } else if op.Remove? {
      RemoveEffect(s, at, op);
    } else {
      QuietKeepsAlerts(s, at, op);
    }
  }

  /** A returned all-time low states the price just observed. */
  lemma LowStatesPrice(s: System, at: int, op: Op, a: Alert)
    requires Sound(s) && Enabled(s, at, op) && a in AlertsOf(EventOf(s.db, at, op)) && a.kind == AllTimeLow
    ensures EventOf(s.db, at, op).Observed? && EventOf(s.db, at, op).item == a.item
    ensures a.price == Some(EventOf(s.db, at, op).snapshot.price)
  {
    if op.Observe? {
      ObservationAppends(s, at, op);
      var input := InputOf(s.db, at, op.input, op.id, op.previous);
      assert a in DecideAlerts(input);
      OnlyLowsAreLows(input, a);
    } else {
      FailureAppends(s, at, op);
    }
  }

  lemma OnlyLowsAreLows(i: AlertInput, a: Alert)
    requires a in DecideAlerts(i)
    ensures a.kind == AllTimeLow ==> i.observed.inStock && a in LowAlerts(i)
    ensures a.kind == PriceDrop ==> i.observed.inStock && a in DropAlerts(i)
    ensures (a.kind == BackInStock || a.kind == OutOfStock) ==> a in StockAlerts(i)
  {
  }

  lemma StepKeepsLowsHistoric(s: System, at: int, op: Op)
    requires Sound(s) && AlertsSound(s) && LowsAreHistoric(s) && Enabled(s, at, op)
    ensures LowsAreHistoric(Step(s, at, op))
  {
    var s' := Step(s, at, op);
    StepKeepsAlertsSound(s, at, op);
    forall k | k in s'.db.alerts && s'.db.alerts[k].kind == AllTimeLow
      ensures s'.db.alerts[k].price.Some? && s'.db.alerts[k].price.value in Prices(s'.db.HistoryOf(s'.db.alerts[k].item))
    {
      var a := s'.db.alerts[k];
      RowsAfter(s, at, op, k);
      HistoryAfter(s, at, op, a.item);
      PricesGrow(s.db.HistoryOf(a.item), SnapshotsOf(EventOf(s.db, at, op), a.item));
      if !(k in s.db.alerts && s.db.alerts[k] == a) {
        LowStatesPrice(s, at, op, a);
      }
    }
  }

  lemma {:induction false} RunsHaveHistoricLows(ops: seq<Stamped>)
    requires Run(ops)
    ensures LowsAreHistoric(Exec(ops))
    decreases |ops|
  {
    if ops != [] {
      var n := |ops| - 1;
      LastOfRun(ops);
      RunsAreSound(ops[..n]);
      RunsHaveSoundAlerts(ops[..n]);
      RunsHaveHistoricLows(ops[..n]);
      StepKeepsLowsHistoric(Exec(ops[..n]), ops[n].at, ops[n].op);
    }
  }

  predicate Reports(e: Event, kind: Kind) {
    exists a :: a in AlertsOf(e) && a.kind == kind
  }

  /** Below everything seen in its currency, of which there is something. */
  predicate IsNewLow(past: seq<Snapshot>, p: Snapshot) {
    && p.inStock
    && (exists q :: q in past && q.price.currency == p.price.currency)
    && (forall q :: q in past && q.price.currency == p.price.currency ==> p.price.amount < q.price.amount)
  }

  lemma LowDecided(i: AlertInput, past: seq<Snapshot>)
    requires i.allTimeMin == AllTimeMin(past, i.observed.price.currency)
    ensures (i.observed.inStock && LowAlerts(i) != []) <==> IsNewLow(past, i.observed)
  {
  }

  lemma StepReportsLow(s: System, at: int, op: Op)
    requires Sound(s) && AlertsSound(s) && LowsAreHistoric(s) && Enabled(s, at, op)
    requires op.Observe? && Recordable(s.db, op.input, op.previous)
    ensures var input := InputOf(s.db, at, op.input, op.id, op.previous);
            Reports(EventOf(s.db, at, op), AllTimeLow) <==> IsNewLow(s.db.HistoryOf(op.input.item), input.observed)
  {
    var input := InputOf(s.db, at, op.input, op.id, op.previous);
    var past := s.db.HistoryOf(op.input.item);
    ObservationAppends(s, at, op);
    LowDecided(input, past);
    if IsNewLow(past, input.observed) {
      var a := LowAlerts(input)[0];
      assert a in DecideAlerts(input);
      LowNotStored(s, a, past);
      assert a in AlertsOf(EventOf(s.db, at, op)) && a.kind == AllTimeLow;
    }
    forall a | a in AlertsOf(EventOf(s.db, at, op)) && a.kind == AllTimeLow
      ensures LowAlerts(input) != [] && input.observed.inStock
    {
      OnlyLowsAreLows(input, a);
    }
  }

  /** Deduplication never swallows a new low: a stored low has a price already in the history. */
  lemma LowNotStored(s: System, a: Alert, past: seq<Snapshot>)
    requires AlertsSound(s) && LowsAreHistoric(s) && past == s.db.HistoryOf(a.item)
    requires WellKeyed(a) && a.kind == AllTimeLow
    requires forall q :: q in past && q.price.currency == a.price.value.currency ==> a.price.value.amount < q.price.amount
    ensures a.key !in s.db.alerts
  {
    if a.key in s.db.alerts {
      var b := s.db.alerts[a.key];
      KeyIdentifies(a, b);
    }
  }

  /** What holds at point n of a run, before its next operation. */
  lemma AtPoint(ops: seq<Stamped>, n: nat)
    requires Run(ops) && n < |ops|
    ensures Run(ops[..n])
    ensures var s := Exec(ops[..n]);
            && Sound(s) && AlertsSound(s) && HistoryIsLog(s) && LowsAreHistoric(s)
            && Enabled(s, ops[n].at, ops[n].op)
            && s.log == LogOf(ops)[..n]
            && LogOf(ops)[n] == EventOf(s.db, ops[n].at, ops[n].op)
  {
    PointOfRun(ops, n);
    LogOfPrefix(ops, n);
    EventAt(ops, n);
    RunsAreSound(ops[..n]);
    RunsHaveSoundAlerts(ops[..n]);
    RunsHaveHistoricLows(ops[..n]);
    RunsHaveHistory(ops[..n]);
  }

  /** An accepted observation event comes from a recordable observation of its item. */
  lemma ObservedEvent(s: System, at: int, op: Op)
    requires EventOf(s.db, at, op).Observed?
    ensures op.Observe? && Recordable(s.db, op.input, op.previous)
    ensures EventOf(s.db, at, op).item == op.input.item && op.input.item in s.db.items
    ensures EventOf(s.db, at, op).target == s.db.items[op.input.item].target
    ensures EventOf(s.db, at, op).snapshot == InputOf(s.db, at, op.input, op.id, op.previous).observed
  {
  }

  lemma StepLowExact(s: System, at: int, op: Op)
    requires Sound(s) && AlertsSound(s) && HistoryIsLog(s) && LowsAreHistoric(s) && Enabled(s, at, op)
    requires EventOf(s.db, at, op).Observed?
    ensures var e := EventOf(s.db, at, op);
            Reports(e, AllTimeLow) <==> IsNewLow(Observations(s.log, e.item), e.snapshot)
  {
    ObservedEvent(s, at, op);
    StepReportsLow(s, at, op);
  }

  /**
   * All-time lows, exactly, over every run: the observation at point n returns one if and only if it is
   * in stock and strictly below every earlier price of the item in the same currency, of which there is one.
   */
  lemma AllTimeLowExact(ops: seq<Stamped>, n: nat)
    requires Run(ops) && n < |ops| && LogOf(ops)[n].Observed?
    ensures var e := LogOf(ops)[n];
            Reports(e, AllTimeLow) <==> IsNewLow(Observations(LogOf(ops)[..n], e.item), e.snapshot)
  {
    AtPoint(ops, n);
    StepLowExact(Exec(ops[..n]), ops[n].at, ops[n].op);
  }

  lemma EventAt(ops: seq<Stamped>, n: nat)
    requires Run(ops) && n < |ops|
    ensures LogOf(ops)[n] == EventOf(Exec(ops[..n]).db, ops[n].at, ops[n].op)
  {
    PointOfRun(ops, n);
    LogOfPrefix(ops, n);
    LogOfPrefix(ops, n + 1);
    assert LogOf(ops)[n] == LogOf(ops)[..n + 1][n];
  }

  lemma {:induction false} ObservedEarlier(log: seq<Event>, m: nat, x: Id)
    requires m < |log| && log[m].Observed? && log[m].item == x
    ensures log[m].snapshot in Observations(log, x)
  {
    if m < |log| - 1 {
      assert log[..|log| - 1][m] == log[m];
      ObservedEarlier(log[..|log| - 1], m, x);
    }
  }

  /** The all-time lows returned for one item in one currency strictly decrease. */
  lemma LowsDecrease(ops: seq<Stamped>, m: nat, n: nat)
    requires Run(ops) && m < n < |ops|
    requires var e, f := LogOf(ops)[m], LogOf(ops)[n];
             && e.Observed? && f.Observed? && e.item == f.item
             && e.snapshot.price.currency == f.snapshot.price.currency
             && Reports(e, AllTimeLow) && Reports(f, AllTimeLow)
    ensures LogOf(ops)[n].snapshot.price.amount < LogOf(ops)[m].snapshot.price.amount
  {
    AllTimeLowExact(ops, n);
    ObservedEarlier(LogOf(ops)[..n], m, LogOf(ops)[n].item);
  }

  // ------------------------------------------------------------ what alerts say

  /** What a returned alert tells the user is so: `past` are the earlier observations, `previous` the newest of them. */
  ghost predicate TellsTruth(a: Alert, e: Event, past: seq<Snapshot>, previous: Option<Snapshot>)
    requires e.Observed?
  {
    && a.item == e.item && a.price.Some?
    && match a.kind
       case BackInStock => e.snapshot.inStock && StockChange(a, e.snapshot, previous)
       case OutOfStock => !e.snapshot.inStock && StockChange(a, e.snapshot, previous)
       case AllTimeLow =>
         && e.snapshot.inStock && a.price.value == e.snapshot.price
         && a.previousPrice.Some? && a.previousPrice.value in Prices(past)
         && a.previousPrice.value.currency == a.price.value.currency
         && a.price.value.amount < a.previousPrice.value.amount
         && (forall q :: q in past && q.price.currency == a.price.value.currency ==>
               a.previousPrice.value.amount <= q.price.amount)
       case PriceDrop =>
         && e.snapshot.inStock && a.targetPrice == e.target && e.target.Some?
         && a.price.value.currency == e.target.value.currency && a.price.value.amount <= e.target.value.amount
         && (a.previousPrice.Some? ==>
               && a.previousPrice.value.currency == e.target.value.currency
               && a.previousPrice.value.amount > e.target.value.amount
               && previous.Some? && StatesPrice(previous.value, a.previousPrice.value))
         && (a.previousPrice.None? && previous.Some? ==>
               forall m :: StatesPrice(previous.value, m) ==> m.currency != e.target.value.currency)
         && (if a.originalPrice.None? then a.price.value == e.snapshot.price
             else a.originalPrice.value == e.snapshot.price && e.snapshot.converted == a.price
                  && a.originalPrice.value.currency != a.price.value.currency)
       case ScrapeDegraded => false
  }

  predicate StatesPrice(s: Snapshot, m: Money) {
    s.price == m || s.converted == Some(m)
  }

  predicate StockChange(a: Alert, p: Snapshot, previous: Option<Snapshot>) {
    && previous.Some? && previous.value.inStock != p.inStock
    && a.price == Some(p.price) && a.previousPrice == Some(previous.value.price)
  }

  lemma DecidedTellTruth(i: AlertInput, e: Event, past: seq<Snapshot>, a: Alert)
    requires e.Observed? && e.item == i.item && e.target == i.target && e.snapshot == i.observed
    requires i.allTimeMin == AllTimeMin(past, i.observed.price.currency)
    requires a in DecideAlerts(i)
    ensures TellsTruth(a, e, past, i.previous)
  {
    OnlyLowsAreLows(i, a);
  }

  /** All alerts of an observation are true of it and of the earlier ones. */
  ghost predicate Truthful(e: Event, past: seq<Snapshot>) {
    e.Observed? && exists previous :: IsLatest(past, previous) && forall a :: a in e.alerts ==> TellsTruth(a, e, past, previous)
  }

  lemma StepTellsTruth(s: System, at: int, op: Op)
    requires Sound(s) && HistoryIsLog(s) && Enabled(s, at, op) && EventOf(s.db, at, op).Observed?
    ensures Truthful(EventOf(s.db, at, op), Observations(s.log, EventOf(s.db, at, op).item))
  {
    ObservedEvent(s, at, op);
    ObservationAppends(s, at, op);
    var e := EventOf(s.db, at, op);
    forall a | a in e.alerts
      ensures TellsTruth(a, e, Observations(s.log, e.item), op.previous)
    {
      DecidedTellTruth(InputOf(s.db, at, op.input, op.id, op.previous), e, s.db.HistoryOf(e.item), a);
    }
    assert IsLatest(Observations(s.log, e.item), op.previous);
  }

  /**
   * Every alert an observation returns in a run is true of that observation and of the earlier ones: which
   * price is stated in which currency, what it is compared with, and on which side of the target it was.
   */
  lemma AlertsTellTruth(ops: seq<Stamped>, n: nat)
    requires Run(ops) && n < |ops| && LogOf(ops)[n].Observed?
    ensures Truthful(LogOf(ops)[n], Observations(LogOf(ops)[..n], LogOf(ops)[n].item))
  {
    AtPoint(ops, n);
    StepTellsTruth(Exec(ops[..n]), ops[n].at, ops[n].op);
  }

  // ------------------------------------------------------------ in which order alerts come

  /** Availability first, then the target, then the all-time low. */
  function Rank(k: Kind): nat {
    match k
    case BackInStock => 0
    case OutOfStock => 0
    case PriceDrop => 1
    case AllTimeLow => 2
    case ScrapeDegraded => 3
  }

  predicate InOrder(alerts: seq<Alert>) {
    forall m, n :: 0 <= m < n < |alerts| ==> Rank(alerts[m].kind) < Rank(alerts[n].kind)
  }

  lemma DecidedInOrder(i: AlertInput)
    ensures InOrder(DecideAlerts(i))
  {
  }

  /** Leaving out what was reported before keeps the order. */
  lemma {:induction false} PersistKeepsOrder(table: map<string, Alert>, decided: seq<Alert>)
    requires InOrder(decided)
    ensures InOrder(Persist(table, decided).1)
    ensures forall a :: a in Persist(table, decided).1 ==> a in decided
    decreases |decided|
  {
    if decided != [] {
      var head, rest := decided[0], decided[1..];
      if head.key in table {
        PersistKeepsOrder(table, rest);
      } else {
        PersistKeepsOrder(table[head.key := head], rest);
        assert forall a :: a in rest ==> Rank(head.kind) < Rank(a.kind);
      }
    }
  }

  /** In every run the alerts of one observation are returned in that order. */
  lemma AlertsInOrder(ops: seq<Stamped>, n: nat)
    requires Run(ops) && n < |ops| && LogOf(ops)[n].Observed?
    ensures InOrder(LogOf(ops)[n].alerts)
  {
    AtPoint(ops, n);
    var s, op := Exec(ops[..n]), ops[n].op;
    ObservedEvent(s, ops[n].at, op);
    ObservationAppends(s, ops[n].at, op);
    var input := InputOf(s.db, ops[n].at, op.input, op.id, op.previous);
    DecidedInOrder(input);
    PersistKeepsOrder(s.db.alerts, DecideAlerts(input));
  }
}
