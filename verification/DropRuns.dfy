/** When a price drop is returned, over whole runs. */
module DropRuns {
  import opened Prelude
  import opened DomainMoney
  import opened Alerts
  import opened Store
  import opened Runs
  import opened AlertRuns

  /** Observation times strictly increase. */
  predicate Increasing(h: seq<Snapshot>) {
    forall m, n :: 0 <= m < n < |h| ==> h[m].observedAt < h[n].observedAt
  }

  function Last(h: seq<Snapshot>): Option<Snapshot> {
    if h == [] then None else Some(h[|h| - 1])
  }

  /** With increasing times the newest snapshot is the last recorded one. */
  lemma LatestIsLast(h: seq<Snapshot>, p: Option<Snapshot>)
    requires Increasing(h) && IsLatest(h, p)
    ensures p == Last(h)
  {
    if h != [] {
      var k :| 0 <= k < |h| && h[k] == p.value;
      assert h[|h| - 1] in h;
    }
  }

  /** The observed price in the currency of the target, when it has just come down to the target. */
  function DropPrice(target: Option<Money>, previous: Option<Snapshot>, p: Snapshot): Option<Money> {
    if target.None? || !p.inStock then None
    else
      match PriceIn(p, target.value.currency)
      case None => None
      case Some(m) => if Crossed(previous, target.value, m) then Some(m) else None
  }

  /** The snapshot states its price as q: in the shop's currency, or converted into another one. */
  ghost predicate States(s: Snapshot, q: Money) {
    q == s.price || (s.converted == Some(q) && q.currency != s.price.currency)
  }

  /** The product is available at or below the target, and the preceding snapshot does not already say so. */
  ghost predicate DropDue(target: Option<Money>, previous: Option<Snapshot>, p: Snapshot, price: Money) {
    && target.Some? && p.inStock && States(p, price)
    && price.currency == target.value.currency && price.amount <= target.value.amount
    && (previous.Some? ==>
          forall q :: States(previous.value, q) && q.currency == target.value.currency ==> q.amount > target.value.amount)
  }

  lemma DropPriceIsDue(target: Option<Money>, previous: Option<Snapshot>, p: Snapshot, price: Money)
    ensures DropPrice(target, previous, p) == Some(price) <==> DropDue(target, previous, p, price)
  {
    if target.Some? && previous.Some? && PriceIn(previous.value, target.value.currency).Some? {
      assert States(previous.value, PriceIn(previous.value, target.value.currency).value);
    }
  }

  predicate ReportsAt(e: Event, kind: Kind, price: Money) {
    exists a :: a in AlertsOf(e) && a.kind == kind && a.price == Some(price)
  }

  /** Some earlier drop of the item was returned at this very price. */
  predicate DroppedBefore(log: seq<Event>, x: Id, price: Money) {
    exists a :: a in Returned(log) && a.kind == PriceDrop && a.item == x && a.price == Some(price)
  }

  lemma DropDecided(i: AlertInput)
    ensures var d := DropPrice(i.target, i.previous, i.observed);
            (i.observed.inStock && DropAlerts(i) != [] <==> d.Some?)
            && (d.Some? ==> DropAlerts(i)[0].price == d && DropAlerts(i)[0].kind == PriceDrop
                            && DropAlerts(i)[0].item == i.item)
  {
  }

  /** A live item's price drop is in the table exactly when it was returned before. */
  lemma StoredMeansDropped(s: System, a: Alert)
    requires AlertsSound(s) && WellKeyed(a) && a.kind == PriceDrop && a.item in s.db.items
    ensures a.key in s.db.alerts <==> DroppedBefore(s.log, a.item, a.price.value)
  {
    if a.key in s.db.alerts {
      KeyIdentifies(a, s.db.alerts[a.key]);
    }
  }

  lemma StepReportsDrop(s: System, at: int, op: Op, price: Money)
    requires Sound(s) && AlertsSound(s) && Enabled(s, at, op)
    requires op.Observe? && Recordable(s.db, op.input, op.previous)
    ensures var x := op.input.item;
            var input := InputOf(s.db, at, op.input, op.id, op.previous);
            ReportsAt(EventOf(s.db, at, op), PriceDrop, price)
            <==> DropPrice(s.db.items[x].target, op.previous, input.observed) == Some(price)
                 && !DroppedBefore(s.log, x, price)
  {
    var input := InputOf(s.db, at, op.input, op.id, op.previous);
    ObservationAppends(s, at, op);
    DropDecided(input);
    if DropPrice(input.target, op.previous, input.observed) == Some(price) {
      var a := DropAlerts(input)[0];
      assert a in DecideAlerts(input);
      StoredMeansDropped(s, a);
    }
    forall a | a in AlertsOf(EventOf(s.db, at, op)) && a.kind == PriceDrop
      ensures a in DropAlerts(input) && input.observed.inStock && !DroppedBefore(s.log, op.input.item, a.price.value)
    {
      OnlyLowsAreLows(input, a);
      StoredMeansDropped(s, a);
    }
  }

  /**
   * The drops an observation returns are those due after some newest earlier snapshot and not returned
   * before.
   */
  ghost predicate ReturnsDueDrops(e: Event, past: seq<Snapshot>, log: seq<Event>) {
    e.Observed? && exists previous :: IsLatest(past, previous) && ReturnsDrops(e, previous, log)
  }

  ghost predicate ReturnsDrops(e: Event, previous: Option<Snapshot>, log: seq<Event>)
    requires e.Observed?
  {
    forall price :: ReportsAt(e, PriceDrop, price)
                    <==> DropDue(e.target, previous, e.snapshot, price) && !DroppedBefore(log, e.item, price)
  }

  lemma StepReturnsDueDrops(s: System, at: int, op: Op)
    requires Sound(s) && AlertsSound(s) && HistoryIsLog(s) && Enabled(s, at, op) && EventOf(s.db, at, op).Observed?
    ensures ReturnsDueDrops(EventOf(s.db, at, op), Observations(s.log, EventOf(s.db, at, op).item), s.log)
  {
    ObservedEvent(s, at, op);
    var e := EventOf(s.db, at, op);
    forall price
      ensures ReportsAt(e, PriceDrop, price)
              <==> DropDue(e.target, op.previous, e.snapshot, price) && !DroppedBefore(s.log, e.item, price)
    {
      StepReportsDrop(s, at, op, price);
      DropPriceIsDue(e.target, op.previous, e.snapshot, price);
    }
    assert IsLatest(Observations(s.log, e.item), op.previous);
  }

  /**
   * Price drops, exactly, over every run and whatever the observation times: the observation at point n
   * returns a drop at a price if and only if it is in stock, that is its price in the currency of the target
   * in force, at or below the target, the newest earlier snapshot is absent, above the target or not
   * expressible in that currency, and no drop of the item was returned at that price before.
   */
  lemma PriceDropInAnyOrder(ops: seq<Stamped>, n: nat)
    requires Run(ops) && n < |ops| && LogOf(ops)[n].Observed?
    ensures var e := LogOf(ops)[n];
            ReturnsDueDrops(e, Observations(LogOf(ops)[..n], e.item), LogOf(ops)[..n])
  {
    AtPoint(ops, n);
    StepReturnsDueDrops(Exec(ops[..n]), ops[n].at, ops[n].op);
  }

  /** When the observation times increase, the newest earlier snapshot is the last one recorded. */
  lemma PriceDropExact(ops: seq<Stamped>, n: nat, price: Money)
    requires Run(ops) && n < |ops| && LogOf(ops)[n].Observed?
    requires Increasing(Observations(LogOf(ops)[..n], LogOf(ops)[n].item))
    ensures var e := LogOf(ops)[n];
            var past := Observations(LogOf(ops)[..n], e.item);
            ReportsAt(e, PriceDrop, price)
            <==> DropDue(e.target, Last(past), e.snapshot, price)
                 && !DroppedBefore(LogOf(ops)[..n], e.item, price)
  {
    PriceDropInAnyOrder(ops, n);
    var e, log := LogOf(ops)[n], LogOf(ops)[..n];
    var past := Observations(log, e.item);
    var previous :| IsLatest(past, previous) && ReturnsDrops(e, previous, log);
    LatestIsLast(past, previous);
  }

  /**
   * A second drop to the same amount is never reported again while the item lives, whatever the price
   * did in between: the dedup key is permanent.
   */
  lemma SameDropOnce(ops: seq<Stamped>, m: nat, n: nat, price: Money)
    requires Run(ops) && m < n < |ops|
    requires LogOf(ops)[m].Observed? && LogOf(ops)[n].Observed?
    requires LogOf(ops)[m].item == LogOf(ops)[n].item
    requires ReportsAt(LogOf(ops)[m], PriceDrop, price)
    ensures !ReportsAt(LogOf(ops)[n], PriceDrop, price)
  {
    AtPoint(ops, n);
    AtPoint(ops, m);
    ReportedThenDropped(ops, m, n, price);
    StepNotTwice(Exec(ops[..n]), ops[n].at, ops[n].op, price);
  }

  lemma StepNotTwice(s: System, at: int, op: Op, price: Money)
    requires Sound(s) && AlertsSound(s) && Enabled(s, at, op) && EventOf(s.db, at, op).Observed?
    requires DroppedBefore(s.log, EventOf(s.db, at, op).item, price)
    ensures !ReportsAt(EventOf(s.db, at, op), PriceDrop, price)
  {
    ObservedEvent(s, at, op);
    StepReportsDrop(s, at, op, price);
  }

  lemma ReportedThenDropped(ops: seq<Stamped>, m: nat, n: nat, price: Money)
    requires Run(ops) && m < n < |ops|
    requires LogOf(ops)[m].Observed? && ReportsAt(LogOf(ops)[m], PriceDrop, price)
    ensures DroppedBefore(LogOf(ops)[..n], LogOf(ops)[m].item, price)
  {
    var log := LogOf(ops);
    var a :| a in AlertsOf(log[m]) && a.kind == PriceDrop && a.price == Some(price);
    AtPoint(ops, m);
    AlertsOfObservation(Exec(ops[..m]), ops[m].at, ops[m].op, a);
    ReturnedEarlier(log[..n], m, a);
  }

  lemma AlertsOfObservation(s: System, at: int, op: Op, a: Alert)
    requires Sound(s) && Enabled(s, at, op) && EventOf(s.db, at, op).Observed?
    requires a in AlertsOf(EventOf(s.db, at, op))
    ensures a.item == EventOf(s.db, at, op).item
  {
    ObservedEvent(s, at, op);
    ObservationAppends(s, at, op);
  }

  lemma {:induction false} ReturnedEarlier(log: seq<Event>, m: nat, a: Alert)
    requires m < |log| && a in AlertsOf(log[m])
    ensures a in Returned(log)
  {
    if m < |log| - 1 {
      assert log[..|log| - 1][m] == log[m];
      ReturnedEarlier(log[..|log| - 1], m, a);
    }
  }
}
