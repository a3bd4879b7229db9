/**
 * What each operation of the core service does, told by the tables before and after it and by what was
 * asked for, in plain numbers: microseconds for instants, nanoseconds for durations given by callers.
 */
module Effects {
  import opened Prelude
  import opened DomainMoney
  import opened Alerts
  import opened Store
  import opened Runs
  import opened AlertRuns
  import opened DropRuns
  import opened Scheduling

  /** The tables before and after point n of a run. */
  function Before(ops: seq<Stamped>, n: nat): Db
    requires n < |ops|
  {
    Exec(ops[..n]).db
  }

  function After(ops: seq<Stamped>, n: nat): Db
    requires n < |ops|
  {
    Exec(ops[..n + 1]).db
  }

  /** The text, or its first `max` characters when it is longer. */
  predicate IsCut(cut: string, text: string, max: nat) {
    if |text| <= max then cut == text else |cut| == max && cut <= text
  }

  /** The rows agree in what the user chose. */
  predicate SameOffer(i: Item, j: Item) {
    i.user == j.user && i.url == j.url && i.target == j.target && i.interval == j.interval && i.active == j.active
  }

  // ------------------------------------------------------------ claims

  /** Active, due, and not under a lease that is still running. */
  predicate Takeable(i: Item, at: int) {
    i.active && i.nextCheck <= at && (i.claimedUntil == None || i.claimedUntil.value <= at)
  }

  /** A claim takes only items that are active, due and free, and leases them for the time asked for. */
  lemma ClaimExact(ops: seq<Stamped>, n: nat, x: Id)
    requires Run(ops) && ClaimsAt(ops, n, x)
    ensures var at, lease := ops[n].at, ops[n].op.lease;
            && x in Before(ops, n).items && Takeable(Before(ops, n).items[x], at) && x !in ops[n].op.locked
            && x in After(ops, n).items
            && After(ops, n).items[x]
               == Before(ops, n).items[x].(
                    claimedUntil := Some(at + (if lease <= 0 then 120 else lease / 1_000_000_000) * 1_000_000))
  {
    PointOfRun(ops, n);
    assert x in Candidates(Before(ops, n), ops[n].at, ops[n].op.locked);
  }

  /**
   * A claim leaves an item out only for a full batch of items due no later. The batch is full at the limit
   * asked for, or at 50 when that is not between 1 and 500; no item is in it twice.
   */
  lemma ClaimComplete(ops: seq<Stamped>, n: nat, y: Id)
    requires Run(ops) && n < |ops| && ops[n].op.Claim? && y in Before(ops, n).items && y !in ops[n].op.ids
    ensures var limit, ids := ops[n].op.limit, ops[n].op.ids;
            var full := if 1 <= limit <= 500 then limit else 50;
            && |ids| <= full && (forall i, j :: 0 <= i < j < |ids| ==> ids[i] != ids[j])
            && y in After(ops, n).items && After(ops, n).items[y] == Before(ops, n).items[y]
            && (Takeable(Before(ops, n).items[y], ops[n].at) && y !in ops[n].op.locked ==>
                  && |ids| == full
                  && forall x :: x in ids ==>
                       x in Before(ops, n).items && Before(ops, n).items[x].nextCheck <= Before(ops, n).items[y].nextCheck)
  {
    PointOfRun(ops, n);
    var cand := Candidates(Before(ops, n), ops[n].at, ops[n].op.locked);
    assert Takeable(Before(ops, n).items[y], ops[n].at) && y !in ops[n].op.locked ==> y in cand;
  }

  /** The item is paused, or gone for good. */
  predicate Asleep(s: System, x: Id) {
    x in s.issued && (x in s.db.items ==> !s.db.items[x].active)
  }

  predicate Wakes(op: Op, x: Id) {
    op.Change? && op.item == x && op.patch.active == Some(true)
  }

  lemma StaysAsleep(s: System, at: int, op: Op, x: Id)
    requires Sound(s) && Enabled(s, at, op) && Asleep(s, x) && !Wakes(op, x)
    ensures Asleep(Step(s, at, op), x)
  {
  }

  lemma {:induction false} AsleepThroughRun(ops: seq<Stamped>, m: nat, n: nat, x: Id)
    requires Run(ops) && m <= n <= |ops| && Asleep(Exec(ops[..m]), x)
    requires forall k :: m <= k < n ==> !Wakes(ops[k].op, x)
    ensures Asleep(Exec(ops[..n]), x)
  {
    if m < n {
      AsleepThroughRun(ops, m, n - 1, x);
      PointOfRun(ops, n - 1);
      RunsAreSound(ops[..n - 1]);
      StaysAsleep(Exec(ops[..n - 1]), ops[n - 1].at, ops[n - 1].op, x);
    }
  }

  lemma PausingPuts(s: System, at: int, op: Op)
    requires Sound(s) && op.Change? && EventOf(s.db, at, op).Changed? && op.patch.active == Some(false)
    ensures Asleep(Step(s, at, op), op.item)
  {
    assert SoundItem(s, op.item);
  }

  /** A paused item is not claimed again before a change sets it active. */
  lemma PausedIsNeverClaimed(ops: seq<Stamped>, m: nat, n: nat, x: Id)
    requires Run(ops) && m < n < |ops| && LogOf(ops)[m].Changed?
    requires ops[m].op.Change? && ops[m].op.item == x && ops[m].op.patch.active == Some(false)
    requires forall k :: m < k < n ==> !Wakes(ops[k].op, x)
    ensures !ClaimsAt(ops, n, x)
  {
    AtPoint(ops, m);
    PointOfRun(ops, m);
    PausingPuts(Exec(ops[..m]), ops[m].at, ops[m].op);
    AsleepThroughRun(ops, m + 1, n, x);
    if ClaimsAt(ops, n, x) {
      ClaimExact(ops, n, x);
    }
  }

  // ------------------------------------------------------------ observations

  /** One of the newest snapshots, or none if there are none. */
  ghost predicate Newest(past: seq<Snapshot>, p: Option<Snapshot>) {
    if past == [] then p == None else p.Some? && p.value in past && forall q :: q in past ==> q.observedAt <= p.value.observedAt
  }

  /** The snapshot says what was reported; a missing price is that of the newest earlier snapshot. */
  ghost predicate Reports(p: Snapshot, input: SnapshotInput, id: Id, at: int, past: seq<Snapshot>) {
    && p.id == id && p.inStock == input.inStock && p.converted == input.converted
    && p.observedAt == (match input.observedAt case Some(t) => t case None => at)
    && (input.price.Some? ==> p.price == input.price.value)
    && (input.price.None? ==> !input.inStock && exists q :: q in past && Newest(past, Some(q)) && p.price == q.price)
  }

  lemma StepReports(s: System, at: int, op: Op)
    requires Enabled(s, at, op) && EventOf(s.db, at, op).Observed?
    ensures op.Observe? && EventOf(s.db, at, op).item == op.input.item && op.input.item in s.db.items
    ensures EventOf(s.db, at, op).target == s.db.items[op.input.item].target
    ensures Reports(EventOf(s.db, at, op).snapshot, op.input, op.id, at, s.db.HistoryOf(op.input.item))
  {
    ObservedEvent(s, at, op);
    if op.input.price.None? {
      assert Newest(s.db.HistoryOf(op.input.item), op.previous);
    }
  }

  /** In every run the snapshot an accepted observation stores is the one that was reported. */
  lemma SnapshotIsReport(ops: seq<Stamped>, n: nat)
    requires Run(ops) && n < |ops| && LogOf(ops)[n].Observed?
    ensures ops[n].op.Observe?
    ensures var e, input := LogOf(ops)[n], ops[n].op.input;
            && e.item == input.item && e.item in Before(ops, n).items && e.target == Before(ops, n).items[e.item].target
            && Reports(e.snapshot, input, ops[n].op.id, ops[n].at, Observations(LogOf(ops)[..n], e.item))
  {
    AtPoint(ops, n);
    StepReports(Exec(ops[..n]), ops[n].at, ops[n].op);
  }

  /**
   * What the report is worth to somebody who waits for the target: it says the product can be had for
   * `price`, in the shop's currency or converted, at or below the target, and the newest earlier snapshot
   * does not say so in either currency.
   */
  ghost predicate Worth(input: SnapshotInput, target: Money, price: Money, previous: Option<Snapshot>) {
    && input.inStock && input.price.Some?
    && (input.price.value == price || (input.price.value.currency != price.currency && input.converted == Some(price)))
    && price.currency == target.currency && price.amount <= target.amount
    && (previous.Some? ==>
          if previous.value.price.currency == target.currency then previous.value.price.amount > target.amount
          else previous.value.converted.Some? && previous.value.converted.value.currency == target.currency ==>
                 previous.value.converted.value.amount > target.amount)
  }

  /** The drops an observation returns, in terms of the report. */
  ghost predicate DropsAsReported(e: Event, input: SnapshotInput, target: Option<Money>, previous: Option<Snapshot>, log: seq<Event>) {
    forall price :: ReportsAt(e, PriceDrop, price)
                    <==> target.Some? && Worth(input, target.value, price, previous) && !DroppedBefore(log, input.item, price)
  }

  lemma WorthIsDue(p: Snapshot, input: SnapshotInput, id: Id, at: int, past: seq<Snapshot>, target: Option<Money>,
                   price: Money, previous: Option<Snapshot>)
    requires Reports(p, input, id, at, past) && (input.inStock ==> input.price.Some?)
    ensures DropDue(target, previous, p, price) <==> target.Some? && Worth(input, target.value, price, previous)
  {
    if previous.Some? {
      assert States(previous.value, previous.value.price);
      if previous.value.converted.Some? && previous.value.converted.value.currency != previous.value.price.currency {
        assert States(previous.value, previous.value.converted.value);
      }
    }
  }

  /**
   * A price drop is returned for a report exactly when the report is worth it to the target in force and no
   * drop of the item was returned at that price before, in every run and whatever the observation times.
   */
  lemma DropForReport(ops: seq<Stamped>, n: nat)
    requires Run(ops) && n < |ops| && LogOf(ops)[n].Observed?
    ensures ops[n].op.Observe? && ops[n].op.input.item in Before(ops, n).items
    ensures exists previous :: Newest(Observations(LogOf(ops)[..n], ops[n].op.input.item), previous)
              && DropsAsReported(LogOf(ops)[n], ops[n].op.input, Before(ops, n).items[ops[n].op.input.item].target,
                                 previous, LogOf(ops)[..n])
  {
    SnapshotIsReport(ops, n);
    PriceDropInAnyOrder(ops, n);
    DropsFollow(LogOf(ops)[n], ops[n].op.input, ops[n].op.id, ops[n].at,
                Observations(LogOf(ops)[..n], LogOf(ops)[n].item), LogOf(ops)[..n]);
  }

  lemma DropsFollow(e: Event, input: SnapshotInput, id: Id, at: int, past: seq<Snapshot>, log: seq<Event>)
    requires e.Observed? && e.item == input.item && Reports(e.snapshot, input, id, at, past) && ReturnsDueDrops(e, past, log)
    ensures exists previous :: Newest(past, previous) && DropsAsReported(e, input, e.target, previous, log)
  {
    var previous :| IsLatest(past, previous) && ReturnsDrops(e, previous, log);
    forall price
      ensures ReportsAt(e, PriceDrop, price)
              <==> e.target.Some? && Worth(input, e.target.value, price, previous) && !DroppedBefore(log, input.item, price)
    {
      WorthIsDue(e.snapshot, input, id, at, past, e.target, price, previous);
    }
    assert Newest(past, previous) && DropsAsReported(e, input, e.target, previous, log);
  }

  /** The row of an observed item: freed, cleared, rescheduled, and titled if it had no title. */
  predicate RowAfterReport(i: Item, i': Item, title: string, at: int) {
    && SameOffer(i, i') && i'.streak == 0 && i'.lastError == "" && i'.claimedUntil == None
    && i'.nextCheck == at + i.interval * 1_000_000
    && (if i.title == "" && title != "" then IsCut(i'.title, title, 120) else i'.title == i.title)
  }

  /** When a report is accepted. */
  predicate Acceptable(db: Db, input: SnapshotInput, previous: Option<Snapshot>) {
    && input.item in db.items && db.items[input.item].user in db.users
    && (input.price.None? ==> !input.inStock && previous.Some?)
    && (input.price.Some? ==> IsCurrencyCode(input.price.value.currency) && input.price.value.amount >= 0)
    && (input.converted.Some? ==> IsCurrencyCode(input.converted.value.currency) && input.converted.value.amount >= 0)
  }

  /**
   * A report is accepted exactly when it is acceptable. Then the history grows by its snapshot, the row is
   * rescheduled, and the answer holds the snapshot, the item with its title, and its owner's chat.
   */
  lemma ReportExact(db: Db, at: int, input: SnapshotInput, id: Id, previous: Option<Snapshot>)
    ensures var (db', r) := Record(db, at, input, id, previous);
            && (r.Ok? <==> Acceptable(db, input, previous))
            && (r.Err? ==> db' == db)
            && (r.Ok? ==>
                  var x := input.item;
                  && x in db'.items && RowAfterReport(db.items[x], db'.items[x], input.title, at)
                  && db'.HistoryOf(x) == db.HistoryOf(x) + [r.value.snapshot]
                  && r.value.chat == db.users[db.items[x].user]
                  && r.value.item == db.items[x].(title := db'.items[x].title))
  {
  }

  /** Why a report is refused: what is wrong with it in itself comes before an item that is not there. */
  lemma ReportRefusal(db: Db, at: int, input: SnapshotInput, id: Id, previous: Option<Snapshot>)
    requires Record(db, at, input, id, previous).1.Err?
    ensures var why := Record(db, at, input, id, previous).1.error;
            var wrong := || (input.price.None? && input.inStock)
                         || (input.price.Some? && (!IsCurrencyCode(input.price.value.currency) || input.price.value.amount < 0))
                         || (input.converted.Some? && !IsCurrencyCode(input.converted.value.currency));
            && (why == NotFound || why == Validation)
            && (why == NotFound <==> !wrong && (input.item !in db.items || db.items[input.item].user !in db.users))
  {
  }

  // ------------------------------------------------------------ failures

  /** A failure is counted, its reason kept up to 500 characters, and nothing the user chose is touched. */
  lemma FailureExact(db: Db, at: int, x: Id, reason: string)
    ensures var (db', r) := Fail(db, at, x, reason);
            && (r.Ok? <==> x in db.items && db.items[x].user in db.users)
            && (r.Err? ==> db' == db && r.error == NotFound)
            && (r.Ok? ==>
                  && x in db'.items && SameOffer(db.items[x], db'.items[x]) && db'.items[x].title == db.items[x].title
                  && db'.items[x].streak == db.items[x].streak + 1 == r.value.streak
                  && IsCut(db'.items[x].lastError, reason, 500) && db'.items[x].claimedUntil == None
                  && db'.history == db.history
                  && r.value.item == db.items[x] && r.value.chat == db.users[db.items[x].user])
  {
  }

  /** The wait after the k-th failure in a row: the interval doubled k - 1 times, and six hours at most. */
  lemma FailureWait(db: Db, at: int, x: Id, reason: string)
    requires x in db.items && db.items[x].user in db.users && 300 <= db.items[x].interval <= 86_400
    ensures var wait := Fail(db, at, x, reason).0.items[x].nextCheck - at;
            && 300_000_000 <= wait <= 21_600_000_000
            && (db.items[x].streak == 0 ==> wait == (if db.items[x].interval <= 21_600 then db.items[x].interval else 21_600) * 1_000_000)
  {
    BackoffGrows(db.items[x].interval, db.items[x].streak + 1);
  }

  // ------------------------------------------------------------ changes

  /** The duration in whole seconds, where no duration means an hour; None if it is not allowed. */
  function Seconds(d: int): Option<int> {
    if d == 0 then Some(3_600)
    else if 300_000_000_000 <= d <= 86_400_000_000_000 then Some(d / 1_000_000_000)
    else None
  }

  /** Each field is the one given, or the old one. */
  predicate RowAfterChange(i: Item, i': Item, p: Patch, at: int) {
    && i'.user == i.user && i'.url == i.url
    && i'.claimedUntil == i.claimedUntil && i'.streak == i.streak && i'.lastError == i.lastError
    && i'.target == (if p.clearTarget then None else if p.target.Some? then p.target else i.target)
    && (match p.active case Some(a) => i'.active == a case None => i'.active == i.active)
    && (match p.title case Some(t) => IsCut(i'.title, t, 120) case None => i'.title == i.title)
    && (match p.interval
        case None => i'.interval == i.interval && i'.nextCheck == i.nextCheck
        case Some(d) =>
          && Seconds(d) == Some(i'.interval)
          && i'.nextCheck <= i.nextCheck && i'.nextCheck <= at + i'.interval * 1_000_000
          && (i'.nextCheck == i.nextCheck || i'.nextCheck == at + i'.interval * 1_000_000))
  }

  /** A change is accepted exactly from the owner and with proper values; then it does what it says. */
  lemma ChangeExact(db: Db, at: int, user: Id, x: Id, p: Patch)
    ensures var (db', r) := Update(db, at, user, x, p);
            && (r.Ok? <==>
                  && x in db.items && db.items[x].user == user
                  && (!p.clearTarget && p.target.Some? ==>
                        IsCurrencyCode(p.target.value.currency) && p.target.value.amount > 0)
                  && (p.interval.Some? ==> Seconds(p.interval.value).Some?))
            && (r.Err? ==> db' == db)
            && (r.Ok? ==>
                  && x in db'.items && RowAfterChange(db.items[x], db'.items[x], p, at) && r.value == db'.items[x]
                  && db' == db.(items := db.items[x := db'.items[x]]))
  {
  }

  /** In every run an accepted change leaves the row it asked for. */
  lemma ChangedAsAsked(ops: seq<Stamped>, n: nat)
    requires Run(ops) && n < |ops| && LogOf(ops)[n].Changed?
    ensures ops[n].op.Change? && ops[n].op.item in Before(ops, n).items && ops[n].op.item in After(ops, n).items
    ensures Before(ops, n).items[ops[n].op.item].user == ops[n].op.user
    ensures RowAfterChange(Before(ops, n).items[ops[n].op.item], After(ops, n).items[ops[n].op.item], ops[n].op.patch, ops[n].at)
  {
    AtPoint(ops, n);
    PointOfRun(ops, n);
    var op := ops[n].op;
    if op.Change? {
      ChangeExact(Before(ops, n), ops[n].at, op.user, op.item, op.patch);
    }
  }

  // ------------------------------------------------------------ additions, deletions, registrations

  /** A new item has what was asked for and is due at once. */
  lemma AdditionExact(db: Db, at: int, n: NewItem, id: Id)
    requires Create(db, at, n, id).1.Ok?
    ensures var (db', r) := Create(db, at, n, id);
            && db' == db.(items := db.items[id := r.value], history := db.history[id := []])
            && n.url == Some(r.value.url) && r.value.user == n.user && IsCut(r.value.title, n.title, 120)
            && r.value.target == n.target && Seconds(n.interval) == Some(r.value.interval)
            && r.value.active && r.value.nextCheck == at && r.value.claimedUntil == None
            && r.value.streak == 0 && r.value.lastError == ""
  {
  }

  /** Why an addition is refused, in this order: what is wrong with the request, the quota, the user, the URL. */
  lemma AdditionRefusal(db: Db, at: int, n: NewItem, id: Id)
    requires Create(db, at, n, id).1.Err?
    ensures var why := Create(db, at, n, id).1.error;
            var wrong := n.url == None || Seconds(n.interval) == None
                         || (n.target.Some? && !(IsCurrencyCode(n.target.value.currency) && n.target.value.amount > 0));
            var mine := set x | x in db.items && db.items[x].user == n.user;
            && (why == Validation <==> wrong)
            && (why == LimitReached <==> !wrong && |mine| >= 25)
            && (why == NotFound <==> !wrong && |mine| < 25 && n.user !in db.users)
            && (why == AlreadyExists ==> exists x :: x in mine && Some(db.items[x].url) == n.url)
  {
    assert ItemsOf(db, n.user) == set x | x in db.items && db.items[x].user == n.user;
  }

  /** A deletion by the owner removes the item, its history and its alerts; any other removes nothing. */
  lemma DeletionExact(db: Db, user: Id, x: Id)
    ensures var (db', r) := Delete(db, user, x);
            && (r.Ok? <==> x in db.items && db.items[x].user == user)
            && (r.Err? ==> db' == db && r.error == NotFound)
            && (r.Ok? ==>
                  && db'.users == db.users && db'.items == db.items - {x} && db'.history == db.history - {x}
                  && (forall k :: k in db'.alerts <==> k in db.alerts && db.alerts[k].item != x)
                  && (forall k :: k in db'.alerts ==> db'.alerts[k] == db.alerts[k]))
  {
  }

  /** A registration adds the chat under the new identifier, unless it is registered already. */
  lemma RegistrationExact(db: Db, chat: int, id: Id)
    requires id !in db.users
    ensures var db' := EnsureUser(db, chat, id);
            && db' == db.(users := db'.users)
            && (exists u :: u in db'.users && db'.users[u] == chat)
            && (forall u :: u in db.users ==> u in db'.users && db'.users[u] == db.users[u])
            && (forall u :: u in db'.users && u !in db.users ==> u == id && forall v :: v in db.users ==> db.users[v] != chat)
  {
    assert !(exists u :: u in db.users && db.users[u] == chat) ==> EnsureUser(db, chat, id).users[id] == chat;
  }
}
