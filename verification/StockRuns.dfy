/** Stock alerts over whole runs: they are the availability changes, and they alternate. */
module StockRuns {
  import opened DomainMoney
  import opened Alerts
  import opened Store
  import opened Runs
  import opened AlertRuns
  import opened DropRuns

  predicate IsStockKind(k: Kind) {
    k == BackInStock || k == OutOfStock
  }

  /** The kinds of the stock alerts about one item, in order. */
  function StockKinds(alerts: seq<Alert>, x: Id): seq<Kind> {
    if alerts == [] then []
    else
      var last := alerts[|alerts| - 1];
      StockKinds(alerts[..|alerts| - 1], x) + if IsStockKind(last.kind) && last.item == x then [last.kind] else []
  }

  /** The changes of availability in a history, as the alert kinds that announce them. */
  function Flips(h: seq<Snapshot>): seq<Kind> {
    if |h| < 2 then []
    else Flips(h[..|h| - 1]) + FlipBetween(h[|h| - 2].inStock, h[|h| - 1].inStock)
  }

  function FlipBetween(before: bool, now: bool): seq<Kind> {
    if before == now then [] else if now then [BackInStock] else [OutOfStock]
  }

  /** Announcements of availability changes alternate, and the last one tells the present state. */
  lemma {:induction false} FlipsAlternate(h: seq<Snapshot>)
    ensures forall k :: 0 <= k < |Flips(h)| ==> IsStockKind(Flips(h)[k])
    ensures forall k :: 0 <= k < |Flips(h)| - 1 ==> Flips(h)[k] != Flips(h)[k + 1]
    ensures Flips(h) != [] ==> (Flips(h)[|Flips(h)| - 1] == BackInStock <==> h[|h| - 1].inStock)
  {
    if |h| >= 2 {
      FlipsAlternate(h[..|h| - 1]);
      FlipsStart(h[..|h| - 1]);
    }
  }

  /** While nothing changed, the availability is still the first one. */
  lemma {:induction false} FlipsStart(h: seq<Snapshot>)
    ensures h != [] && Flips(h) == [] ==> h[|h| - 1].inStock == h[0].inStock
  {
    if |h| >= 2 {
      FlipsStart(h[..|h| - 1]);
    }
  }

  lemma {:induction false} StockKindsConcat(a: seq<Alert>, b: seq<Alert>, x: Id)
    ensures StockKinds(a + b, x) == StockKinds(a, x) + StockKinds(b, x)
  {
    if b == [] {
      assert a + b == a;
    } else {
      assert (a + b)[..|a + b| - 1] == a + b[..|b| - 1];
      StockKindsConcat(a, b[..|b| - 1], x);
    }
  }

  lemma {:induction false} NoStockKinds(alerts: seq<Alert>, x: Id)
    requires forall a :: a in alerts && a.item == x ==> !IsStockKind(a.kind)
    ensures StockKinds(alerts, x) == []
  {
    if alerts != [] {
      assert alerts[|alerts| - 1] in alerts;
      NoStockKinds(alerts[..|alerts| - 1], x);
    }
  }

  // ------------------------------------------------------------ a stock alert is never suppressed

  /** The discriminator of a stock alert is an identifier already handed out. */
  ghost predicate StockKeyed(a: Alert, issued: set<Id>) {
    exists id :: id in issued && a.key == DedupKey(a.kind, a.item, id)
  }

  ghost predicate StockAlertsKeyed(s: System) {
    forall a :: a in Returned(s.log) && IsStockKind(a.kind) ==> StockKeyed(a, s.issued)
  }

  lemma StockAlertsOf(i: AlertInput, a: Alert)
    requires a in DecideAlerts(i) && IsStockKind(a.kind)
    ensures StockAlerts(i) == [a] && a.item == i.item && a.key == DedupKey(a.kind, a.item, i.observed.id)
  {
    OnlyLowsAreLows(i, a);
  }

  lemma NewStockAlert(s: System, at: int, op: Op, a: Alert)
    requires Sound(s) && Enabled(s, at, op) && a in AlertsOf(EventOf(s.db, at, op)) && IsStockKind(a.kind)
    ensures op.Observe? && Recordable(s.db, op.input, op.previous) && a.key == DedupKey(a.kind, a.item, op.id)
    ensures StockAlerts(InputOf(s.db, at, op.input, op.id, op.previous)) == [a]
  {
    if op.Observe? {
      ObservationAppends(s, at, op);
      StockAlertsOf(InputOf(s.db, at, op.input, op.id, op.previous), a);
    } else {
      FailureAppends(s, at, op);
    }
  }

  lemma StepKeepsStockKeyed(s: System, at: int, op: Op)
    requires Sound(s) && StockAlertsKeyed(s) && Enabled(s, at, op)
    ensures StockAlertsKeyed(Step(s, at, op))
  {
    var s' := Step(s, at, op);
    ReturnedAfter(s, at, op);
    forall a | a in Returned(s'.log) && IsStockKind(a.kind)
      ensures StockKeyed(a, s'.issued)
    {
      if a in Returned(s.log) {
        var id :| id in s.issued && a.key == DedupKey(a.kind, a.item, id);
        assert id in s'.issued;
      } else {
        NewStockAlert(s, at, op, a);
        assert op.id in s'.issued;
      }
    }
  }

  lemma {:induction false} RunsHaveKeyedStock(ops: seq<Stamped>)
    requires Run(ops)
    ensures StockAlertsKeyed(Exec(ops))
    decreases |ops|
  {
    if ops != [] {
      var n := |ops| - 1;
      LastOfRun(ops);
      RunsAreSound(ops[..n]);
      RunsHaveKeyedStock(ops[..n]);
      StepKeepsStockKeyed(Exec(ops[..n]), ops[n].at, ops[n].op);
    }
  }

  /** A stock alert is keyed by the fresh snapshot id, so its key is not in the table. */
  lemma FreshStockKey(s: System, a: Alert, id: Id)
    requires AlertsSound(s) && StockAlertsKeyed(s) && IsFresh(s, id)
    requires IsStockKind(a.kind) && ':' !in a.item && a.key == DedupKey(a.kind, a.item, id)
    ensures a.key !in s.db.alerts
  {
    if a.key in s.db.alerts {
      var b := s.db.alerts[a.key];
      KeyIdentifies(a, b);
      var other :| other in s.issued && b.key == DedupKey(b.kind, b.item, other);
      DedupKeyInjective(a.kind, a.item, id, b.kind, b.item, other);
    }
  }

  /** The stock alerts an operation returns about an item. */
  lemma StockReturned(s: System, at: int, op: Op, x: Id)
    requires Sound(s) && AlertsSound(s) && StockAlertsKeyed(s) && Enabled(s, at, op)
    ensures StockKinds(AlertsOf(EventOf(s.db, at, op)), x)
         == if op.Observe? && Recordable(s.db, op.input, op.previous) && op.input.item == x && op.previous.Some?
            then FlipBetween(op.previous.value.inStock, op.input.inStock) else []
  {
    var alerts := AlertsOf(EventOf(s.db, at, op));
    if op.Observe? && Recordable(s.db, op.input, op.previous) && op.input.item == x {
      StockOfObservation(s, at, op);
    } else {
      forall a | a in alerts && a.item == x
        ensures !IsStockKind(a.kind)
      {
        if IsStockKind(a.kind) {
          NewStockAlert(s, at, op, a);
          ObservationAppends(s, at, op);
        }
      }
      NoStockKinds(alerts, x);
    }
  }

  lemma StockOfObservation(s: System, at: int, op: Op)
    requires Sound(s) && AlertsSound(s) && StockAlertsKeyed(s) && Enabled(s, at, op)
    requires op.Observe? && Recordable(s.db, op.input, op.previous)
    ensures StockKinds(AlertsOf(EventOf(s.db, at, op)), op.input.item)
         == if op.previous.Some? then FlipBetween(op.previous.value.inStock, op.input.inStock) else []
  {
    var x := op.input.item;
    var alerts := AlertsOf(EventOf(s.db, at, op));
    var input := InputOf(s.db, at, op.input, op.id, op.previous);
    ObservationAppends(s, at, op);
    if StockAlerts(input) == [] {
      forall a | a in alerts && a.item == x
        ensures !IsStockKind(a.kind)
      {
        OnlyLowsAreLows(input, a);
      }
      NoStockKinds(alerts, x);
    } else {
      var a := StockAlerts(input)[0];
      assert a in DecideAlerts(input);
      FreshStockKey(s, a, op.id);
      forall b | b in alerts && b.item == x && IsStockKind(b.kind)
        ensures b == a
      {
        StockAlertsOf(input, b);
      }
      ExactlyOneStock(alerts, a);
    }
  }

  lemma {:induction false} ExactlyOneStock(alerts: seq<Alert>, a: Alert)
    requires DistinctKeys(alerts) && a in alerts && IsStockKind(a.kind)
    requires forall b :: b in alerts && b.item == a.item && IsStockKind(b.kind) ==> b == a
    ensures StockKinds(alerts, a.item) == [a.kind]
  {
    var n := |alerts| - 1;
    var rest, last := alerts[..n], alerts[n];
    assert last in alerts;
    if last == a {
      forall b | b in rest && b.item == a.item
        ensures !IsStockKind(b.kind)
      {
        var k :| 0 <= k < |rest| && rest[k] == b;
        assert alerts[k].key != last.key;
      }
      NoStockKinds(rest, a.item);
    } else {
      ExactlyOneStock(rest, a);
    }
  }

  // ------------------------------------------------------------ the whole run

  lemma {:induction false} IncreasingPrefix(h: seq<Snapshot>, t: seq<Snapshot>)
    requires Increasing(h + t)
    ensures Increasing(h)
  {
    forall m, n | 0 <= m < n < |h|
      ensures h[m].observedAt < h[n].observedAt
    {
      assert (h + t)[m] == h[m] && (h + t)[n] == h[n];
    }
  }

  lemma FlipsOfOneMore(h: seq<Snapshot>, p: Snapshot)
    ensures Flips(h + [p]) == Flips(h) + if h == [] then [] else FlipBetween(h[|h| - 1].inStock, p.inStock)
  {
    assert (h + [p])[..|h|] == h;
  }

  /** The flip, if any, that one more event about the item announces. */
  function FlipOf(past: seq<Snapshot>, e: Event, x: Id): seq<Kind> {
    if e.Observed? && e.item == x && past != [] then FlipBetween(past[|past| - 1].inStock, e.snapshot.inStock) else []
  }

  lemma StepFlip(s: System, at: int, op: Op, x: Id)
    requires Sound(s) && AlertsSound(s) && StockAlertsKeyed(s) && HistoryIsLog(s) && Enabled(s, at, op)
    requires Increasing(Observations(s.log, x))
    ensures StockKinds(AlertsOf(EventOf(s.db, at, op)), x) == FlipOf(Observations(s.log, x), EventOf(s.db, at, op), x)
  {
    StockReturned(s, at, op, x);
    if EventOf(s.db, at, op).Observed? && EventOf(s.db, at, op).item == x {
      ObservedEvent(s, at, op);
      LatestIsLast(s.db.HistoryOf(x), op.previous);
    } else {
      NotObserved(s, at, op, x);
    }
  }

  lemma FlipsGrow(past: seq<Snapshot>, e: Event, x: Id)
    ensures Flips(past + SnapshotsOf(e, x)) == Flips(past) + FlipOf(past, e, x)
  {
    if e.Observed? && e.item == x {
      FlipsOfOneMore(past, e.snapshot);
    } else {
      assert past + [] == past;
    }
  }

  lemma StepStock(s: System, at: int, op: Op, x: Id)
    requires Sound(s) && AlertsSound(s) && StockAlertsKeyed(s) && HistoryIsLog(s) && Enabled(s, at, op)
    requires Increasing(Observations(s.log, x))
    requires StockKinds(Returned(s.log), x) == Flips(Observations(s.log, x))
    ensures StockKinds(Returned(Step(s, at, op).log), x) == Flips(Observations(Step(s, at, op).log, x))
  {
    var e := EventOf(s.db, at, op);
    ReturnedAfter(s, at, op);
    ObservationsAfter(s, at, op, x);
    StockKindsConcat(Returned(s.log), AlertsOf(e), x);
    StepFlip(s, at, op, x);
    FlipsGrow(Observations(s.log, x), e, x);
  }

  lemma NotObserved(s: System, at: int, op: Op, x: Id)
    requires !(EventOf(s.db, at, op).Observed? && EventOf(s.db, at, op).item == x)
    ensures SnapshotsOf(EventOf(s.db, at, op), x) == []
    ensures !(op.Observe? && Recordable(s.db, op.input, op.previous) && op.input.item == x)
  {
  }

  /** The stock alerts of an observation announce its change from some newest earlier snapshot. */
  ghost predicate ReturnsFlip(e: Event, past: seq<Snapshot>) {
    e.Observed? && exists previous :: IsLatest(past, previous)
                       && StockKinds(e.alerts, e.item)
                          == if previous.None? then [] else FlipBetween(previous.value.inStock, e.snapshot.inStock)
  }

  lemma StepReturnsFlip(s: System, at: int, op: Op)
    requires Sound(s) && AlertsSound(s) && StockAlertsKeyed(s) && HistoryIsLog(s) && Enabled(s, at, op)
    requires EventOf(s.db, at, op).Observed?
    ensures ReturnsFlip(EventOf(s.db, at, op), Observations(s.log, EventOf(s.db, at, op).item))
  {
    ObservedEvent(s, at, op);
    StockOfObservation(s, at, op);
    assert IsLatest(Observations(s.log, op.input.item), op.previous);
  }

  /** In every run and whatever the times, an observation returns a stock alert exactly for a change. */
  lemma StockFlipInAnyOrder(ops: seq<Stamped>, n: nat)
    requires Run(ops) && n < |ops| && LogOf(ops)[n].Observed?
    ensures ReturnsFlip(LogOf(ops)[n], Observations(LogOf(ops)[..n], LogOf(ops)[n].item))
  {
    AtPoint(ops, n);
    RunsHaveKeyedStock(ops[..n]);
    StepReturnsFlip(Exec(ops[..n]), ops[n].at, ops[n].op);
  }

  /**
   * In every run in which an item is observed at increasing times, the stock alerts returned for it are
   * exactly its changes of availability, in order.
   */
  lemma {:induction false} StockAlertsAreFlips(ops: seq<Stamped>, x: Id)
    requires Run(ops) && Increasing(Observations(LogOf(ops), x))
    ensures StockKinds(Returned(LogOf(ops)), x) == Flips(Observations(LogOf(ops), x))
    decreases |ops|
  {
    if ops != [] {
      var n := |ops| - 1;
      var s := Exec(ops[..n]);
      LastOfRun(ops);
      AtPoint(ops, n);
      RunsHaveKeyedStock(ops[..n]);
      ObservationsAfter(s, ops[n].at, ops[n].op, x);
      IncreasingPrefix(Observations(s.log, x), SnapshotsOf(EventOf(s.db, ops[n].at, ops[n].op), x));
      StockAlertsAreFlips(ops[..n], x);
      StepStock(s, ops[n].at, ops[n].op, x);
    }
  }

  /** Hence they strictly alternate between out of stock and back in stock. */
  lemma StockAlertsAlternate(ops: seq<Stamped>, x: Id)
    requires Run(ops) && Increasing(Observations(LogOf(ops), x))
    ensures var kinds := StockKinds(Returned(LogOf(ops)), x);
            forall k :: 0 <= k < |kinds| - 1 ==> IsStockKind(kinds[k]) && kinds[k] != kinds[k + 1]
  {
    StockAlertsAreFlips(ops, x);
    FlipsAlternate(Observations(LogOf(ops), x));
  }

  /**
   * A price-less observation carries the newest price forward: the item's minimum in every currency is
   * what it was, and no price alert can follow from a changed minimum.
   */
  lemma CarryForwardIsNeutral(ops: seq<Stamped>, n: nat, c: Currency)
    requires Run(ops) && n < |ops| && LogOf(ops)[n].Observed?
    requires ops[n].op.Observe? && ops[n].op.input.price.None?
    ensures var e := LogOf(ops)[n];
            var before, after := Exec(ops[..n]).db, Exec(ops[..n + 1]).db;
            && !e.snapshot.inStock
            && MinAmount(after.HistoryOf(e.item), c) == MinAmount(before.HistoryOf(e.item), c)
  {
    AtPoint(ops, n);
    PointOfRun(ops, n);
    var s, op := Exec(ops[..n]), ops[n].op;
    ObservedEvent(s, ops[n].at, op);
    CarryForwardKeepsMinima(s.db.HistoryOf(op.input.item), op.previous.value,
                            InputOf(s.db, ops[n].at, op.input, op.id, op.previous).observed, c);
  }
}
