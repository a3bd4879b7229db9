/** The repository object of internal/core: tables updated in place, proved against the operations of Store. */
module Repository {
  import opened Prelude
  import opened DomainMoney
  import opened Alerts
  import opened Store

  class Repo {
    var users: map<Id, int>
    var items: map<Id, Item>
    var history: map<Id, seq<Snapshot>>
    var alerts: map<string, Alert>

    function Tables(): Db
      reads this
    {
      Db(users, items, history, alerts)
    }

    /** A repository over tables that exist already. */
    constructor (db: Db)
      ensures Tables() == db
    {
      users, items, history, alerts := db.users, db.items, db.history, db.alerts;
    }

    /** Leases the first due items that no other transaction holds. */
    method ClaimDueItems(at: int, limit: int, lease: int, locked: set<Id>) returns (ids: seq<Id>)
      modifies this`items
      ensures FirstDue(old(Tables()), at, EffectiveLimit(limit), locked, ids)
      ensures Tables() == Lease(old(Tables()), at, LeaseSeconds(lease), ids)
    {
      var n := EffectiveLimit(limit);
      var cand := Candidates(Tables(), at, locked);
      var left := cand;
      ids := [];
      while |ids| < n && left != {}
        invariant items == old(items) && left <= cand <= items.Keys
        invariant |ids| <= n
        invariant forall x :: x in cand <==> x in ids || x in left
        invariant forall x :: x in ids ==> x !in left
        invariant forall i, j :: 0 <= i < j < |ids| ==> ids[i] != ids[j]
        invariant forall x, y :: x in ids && y in left ==> items[x].nextCheck <= items[y].nextCheck
      {
        var next := Earliest(left);
        ids := ids + [next];
        left := left - {next};
      }
      items := Lease(Tables(), at, LeaseSeconds(lease), ids).items;
    }

    /** An item whose next check comes first, as ORDER BY next_check_at delivers it. */
    method Earliest(from: set<Id>) returns (x: Id)
      requires from != {} && from <= items.Keys
      ensures x in from && forall y :: y in from ==> items[x].nextCheck <= items[y].nextCheck
    {
      x :| x in from;
      var left := from - {x};
      while left != {}
        invariant left <= from && x in from
        invariant forall y :: y in from && y !in left ==> items[x].nextCheck <= items[y].nextCheck
      {
        var y :| y in left;
        left := left - {y};
        if items[y].nextCheck < items[x].nextCheck {
          x := y;
        }
      }
    }

    method LatestSnapshot(x: Id) returns (latest: Option<Snapshot>)
      ensures IsLatest(Tables().HistoryOf(x), latest)
    {
      var rows := Tables().HistoryOf(x);
      latest := None;
      for i := 0 to |rows|
        invariant IsLatest(rows[..i], latest)
      {
        assert rows[..i + 1] == rows[..i] + [rows[i]];
        if latest.None? || latest.value.observedAt <= rows[i].observedAt {
          latest := Some(rows[i]);
        }
      }
      assert rows[..|rows|] == rows;
    }

    method AllTimeMinimum(x: Id, c: Currency) returns (lowest: Option<Money>)
      ensures lowest == AllTimeMin(Tables().HistoryOf(x), c)
    {
      var rows := Tables().HistoryOf(x);
      var amount: Option<int> := None;
      for i := 0 to |rows|
        invariant amount == MinAmount(rows[..i], c)
      {
        assert rows[..i + 1][..i] == rows[..i];
        if rows[i].price.currency == c && (amount.None? || rows[i].price.amount < amount.value) {
          amount := Some(rows[i].price.amount);
        }
      }
      assert rows[..|rows|] == rows;
      lowest := if amount.None? then None else Some(Money(amount.value, c));
    }

    /** Writes the decided alerts and returns only the ones that were new. */
    method PersistAlerts(decided: seq<Alert>) returns (stored: seq<Alert>)
      modifies this`alerts
      ensures (alerts, stored) == Persist(old(alerts), decided)
    {
      stored := [];
      for i := 0 to |decided|
        invariant Persist(old(alerts), decided).0 == Persist(alerts, decided[i..]).0
        invariant Persist(old(alerts), decided).1 == stored + Persist(alerts, decided[i..]).1
      {
        var a := decided[i];
        assert decided[i..][1..] == decided[i + 1..];
        if a.key !in alerts {
          alerts := alerts[a.key := a];
          stored := stored + [a];
        }
      }
      assert decided[|decided|..] == [];
      assert stored + [] == stored;
    }

    /** Stores an observation, returns the alerts it triggered and reschedules the item. */
    method RecordSnapshot(at: int, input: SnapshotInput, id: Id) returns (r: Result<SnapshotResult, Failure>)
      modifies this
      ensures exists previous ::
                && IsLatest(old(Tables()).HistoryOf(input.item), previous)
                && (Tables(), r) == Record(old(Tables()), at, input, id, previous)
    {
      var previous := LatestSnapshot(input.item);
      if (input.price.None? && input.inStock) || (input.price.Some? && input.price.value.amount < 0) {
        return Err(Validation);
      }
      if input.price.Some? {
        var valid := ValidCurrency(input.price.value.currency);
        if !valid {
          return Err(Validation);
        }
      }
      if input.converted.Some? {
        var valid := ValidCurrency(input.converted.value.currency);
        if !valid {
          return Err(Validation);
        }
      }
      if input.item !in items || items[input.item].user !in users {
        return Err(NotFound);
      }
      if (input.price.None? && previous.None?) || (input.converted.Some? && input.converted.value.amount < 0) {
        return Err(Validation);
      }
      var item := Titled(items[input.item], input.title);
      var snapshot, stored := StoreObservation(at, input, id, previous);
      r := Ok(SnapshotResult(snapshot, item, users[item.user], stored));
    }

    /** The writing half of an accepted observation: history, alerts, then the item row. */
    method StoreObservation(at: int, input: SnapshotInput, id: Id, previous: Option<Snapshot>)
      returns (snapshot: Snapshot, stored: seq<Alert>)
      requires Recordable(Tables(), input, previous)
      modifies this`history, this`alerts, this`items
      ensures snapshot == InputOf(old(Tables()), at, input, id, previous).observed
      ensures (Tables(), stored) == Recorded(old(Tables()), at, input, id, previous)
    {
      var item := items[input.item];
      var price := if input.price.Some? then input.price.value else previous.value.price;
      var lowest := AllTimeMinimum(input.item, price.currency);
      snapshot := SnapshotFrom(at, input, id, price);
      history := history[input.item := Tables().HistoryOf(input.item) + [snapshot]];
      item := Titled(item, input.title);
      stored := PersistAlerts(DecideAlerts(
        AlertInput(input.item, item.user, item.target, previous, lowest, snapshot)));
      items := items[input.item := item.(
        streak := 0, lastError := "", claimedUntil := None, nextCheck := at + item.interval * SECOND)];
    }

    /** Counts a failed scrape, backs the item off and reports a streak that reaches the threshold. */
    method RecordFailure(at: int, x: Id, reason: string) returns (r: Result<FailureResult, Failure>)
      modifies this`items, this`alerts
      ensures (Tables(), r) == Fail(old(Tables()), at, x, reason)
    {
      if x !in items || items[x].user !in users {
        return Err(NotFound);
      }
      var item := items[x];
      var streak := item.streak + 1;
      items := items[x := item.(
        streak := streak, lastError := Truncate(reason, MAX_REASON), claimedUntil := None,
        nextCheck := at + Backoff(item.interval, streak) * SECOND)];
      var stored := PersistAlerts(DecideFailureAlert(x, item.user, streak, FAILURE_STREAK_THRESHOLD));
      r := Ok(FailureResult(streak, item, users[item.user], stored));
    }

    method CreateItem(at: int, n: NewItem, id: Id) returns (r: Result<Item, Failure>)
      modifies this`items, this`history
      ensures (Tables(), r) == Create(old(Tables()), at, n, id)
    {
      var interval := ValidateInterval(n.interval);
      if n.url.None? || interval.Err? {
        return Err(Validation);
      }
      if n.target.Some? {
        var valid := ValidCurrency(n.target.value.currency);
        if !valid || n.target.value.amount <= 0 {
          return Err(Validation);
        }
      }
      if |ItemsOf(Tables(), n.user)| >= MAX_ITEMS_PER_USER {
        return Err(LimitReached);
      }
      if n.user !in users {
        return Err(NotFound);
      }
      if exists x :: x in items && items[x].user == n.user && items[x].url == n.url.value {
        return Err(AlreadyExists);
      }
      var item := Item(n.user, n.url.value, Truncate(n.title, MAX_TITLE), n.target,
                       interval.value / NANOS, true, at, None, 0, "");
      items := items[id := item];
      history := history[id := []];
      r := Ok(item);
    }

    method UpdateItem(at: int, user: Id, x: Id, p: Patch) returns (r: Result<Item, Failure>)
      modifies this`items
      ensures (Tables(), r) == Update(old(Tables()), at, user, x, p)
    {
      if !p.clearTarget && p.target.Some? {
        var valid := ValidCurrency(p.target.value.currency);
        if !valid || p.target.value.amount <= 0 {
          return Err(Validation);
        }
      }
      if p.interval.Some? && ValidateInterval(p.interval.value).Err? {
        return Err(Validation);
      }
      if x !in items || items[x].user != user {
        return Err(NotFound);
      }
      items := items[x := Patched(items[x], at, p)];
      r := Ok(items[x]);
    }

    method DeleteItem(user: Id, x: Id) returns (r: Result<(), Failure>)
      modifies this`items, this`history, this`alerts
      ensures (Tables(), r) == Delete(old(Tables()), user, x)
    {
      if x !in items || items[x].user != user {
        return Err(NotFound);
      }
      items := items - {x};
      history := history - {x};
      alerts := map k | k in alerts && alerts[k].item != x :: alerts[k];
      r := Ok(());
    }
  }
}
