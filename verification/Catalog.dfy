/**
 * What the core service keeps about its items over whole runs: the table constraints, the separation of
 * users and of items, and the division of labour between users and scrapers.
 */
module Catalog {
  import opened Prelude
  import opened Alerts
  import opened Store
  import opened Runs
  import opened AlertRuns

  // ------------------------------------------------------------ constraints

  predicate SameProduct(i: Item, j: Item) {
    i.user == j.user && i.url == j.url
  }

  /** No user tracks one URL twice, and texts and targets are within their limits. */
  predicate Tidy(db: Db) {
    && (forall x, y :: x in db.items && y in db.items && SameProduct(db.items[x], db.items[y]) ==> x == y)
    && (forall x :: x in db.items ==> TidyItem(db.items[x]))
  }

  predicate TidyItem(i: Item) {
    ProperTarget(i.target) && |i.title| <= MAX_TITLE && |i.lastError| <= MAX_REASON
  }

  ghost predicate WithinQuota(db: Db) {
    forall u :: |ItemsOf(db, u)| <= MAX_ITEMS_PER_USER
  }

  /** No chat is registered twice. */
  predicate OneUserPerChat(db: Db) {
    forall u, v :: u in db.users && v in db.users && db.users[u] == db.users[v] ==> u == v
  }

  lemma ScrapeKeepsLimits(s: System, at: int, op: Op, x: Id)
    requires Tidy(s.db) && (op.Claim? || op.Observe? || op.ReportFailure?)
    requires x in s.db.items && x in DbAfter(s.db, at, op).items
    ensures TidyItem(DbAfter(s.db, at, op).items[x])
  {
    assert TidyItem(s.db.items[x]);
  }

  lemma SameProductsSameRows(before: map<Id, Item>, after: map<Id, Item>)
    requires before.Keys == after.Keys
    requires forall x :: x in before ==> SameChoices(before[x], after[x])
    requires forall x, y :: x in before && y in before && SameProduct(before[x], before[y]) ==> x == y
    ensures forall x, y :: x in after && y in after && SameProduct(after[x], after[y]) ==> x == y
  {
  }

  lemma ScrapeKeepsTidy(s: System, at: int, op: Op)
    requires Sound(s) && Enabled(s, at, op) && Tidy(s.db) && (op.Claim? || op.Observe? || op.ReportFailure?)
    ensures Tidy(DbAfter(s.db, at, op))
  {
    var after := DbAfter(s.db, at, op).items;
    ScraperKeepsChoices(s, at, op);
    SameProductsSameRows(s.db.items, after);
    forall x | x in after
      ensures TidyItem(after[x])
    {
      ScrapeKeepsLimits(s, at, op, x);
    }
  }

  lemma ChangeKeepsTidy(s: System, at: int, op: Op)
    requires Tidy(s.db) && op.Change?
    ensures Tidy(DbAfter(s.db, at, op))
  {
  }

  lemma AddKeepsTidy(s: System, at: int, op: Op)
    requires Tidy(s.db) && op.Add?
    ensures Tidy(DbAfter(s.db, at, op))
  {
  }

  lemma StepKeepsTidy(s: System, at: int, op: Op)
    requires Sound(s) && Enabled(s, at, op) && Tidy(s.db)
    ensures Tidy(DbAfter(s.db, at, op))
  {
    if op.Change? {
      ChangeKeepsTidy(s, at, op);
    } else if op.Add? {
      AddKeepsTidy(s, at, op);
    } else if !op.Remove? && !op.Register? {
      ScrapeKeepsTidy(s, at, op);
    }
  }

  lemma QuotaOfOther(s: System, at: int, op: Op, u: Id)
    requires Sound(s) && Enabled(s, at, op) && !(EventOf(s.db, at, op).Added? && op.newItem.user == u)
    ensures |ItemsOf(DbAfter(s.db, at, op), u)| <= |ItemsOf(s.db, u)|
  {
    OwnersKept(s, at, op);
    SubsetSize(ItemsOf(DbAfter(s.db, at, op), u), ItemsOf(s.db, u));
  }

  /** Only an accepted addition gives a user one more item, and never beyond the quota. */
  lemma StepKeepsQuota(s: System, at: int, op: Op)
    requires Sound(s) && Enabled(s, at, op) && WithinQuota(s.db)
    ensures WithinQuota(DbAfter(s.db, at, op))
  {
    var db' := DbAfter(s.db, at, op);
    forall u
      ensures |ItemsOf(db', u)| <= MAX_ITEMS_PER_USER
    {
      if EventOf(s.db, at, op).Added? && op.newItem.user == u {
        AddExact(s, at, op);
      } else {
        QuotaOfOther(s, at, op, u);
      }
    }
  }

  /** Items never change hands. */
  lemma OwnersKept(s: System, at: int, op: Op)
    requires Sound(s) && Enabled(s, at, op)
    ensures forall x :: x in DbAfter(s.db, at, op).items ==>
              || (EventOf(s.db, at, op).Added? && x == op.id && DbAfter(s.db, at, op).items[x].user == op.newItem.user)
              || (x in s.db.items && SameProduct(DbAfter(s.db, at, op).items[x], s.db.items[x]))
  {
  }

  lemma StepKeepsChats(s: System, at: int, op: Op)
    requires OneUserPerChat(s.db)
    ensures OneUserPerChat(DbAfter(s.db, at, op))
  {
  }

  /**
   * In every run of atomic operations: one item per user and URL, at most 25 items per user, one user per
   * chat, every target a positive amount in a proper currency, every text within its limit.
   */
  lemma {:induction false} RunsKeepCatalog(ops: seq<Stamped>)
    requires Run(ops)
    ensures Tidy(Exec(ops).db) && WithinQuota(Exec(ops).db) && OneUserPerChat(Exec(ops).db)
    decreases |ops|
  {
    if ops == [] {
      assert forall u :: ItemsOf(EMPTY, u) == {};
    } else {
      var n := |ops| - 1;
      LastOfRun(ops);
      RunsAreSound(ops[..n]);
      RunsKeepCatalog(ops[..n]);
      StepKeepsTidy(Exec(ops[..n]), ops[n].at, ops[n].op);
      StepKeepsQuota(Exec(ops[..n]), ops[n].at, ops[n].op);
      StepKeepsChats(Exec(ops[..n]), ops[n].at, ops[n].op);
    }
  }

  // ------------------------------------------------------------ who can change what

  /** The item an operation is addressed to; a claim is addressed to its batch. */
  function Addressed(op: Op): set<Id> {
    match op
    case Claim(_, _, _, ids) => set x | x in ids
    case Observe(input, _, _) => {input.item}
    case ReportFailure(x, _) => {x}
    case Change(_, x, _) => {x}
    case Add(_, id) => {id}
    case Remove(_, x) => {x}
    case Register(_, _) => {}
  }

  /** Everything the tables say about an item. */
  ghost predicate SameFor(db: Db, db': Db, x: Id) {
    && (x in db.items <==> x in db'.items) && (x in db.items ==> db.items[x] == db'.items[x])
    && db.HistoryOf(x) == db'.HistoryOf(x)
    && SameAlerts(db.alerts, db'.alerts, x)
  }

  lemma OtherRowsUntouched(s: System, at: int, op: Op, x: Id)
    requires x !in Addressed(op)
    ensures x in s.db.items <==> x in DbAfter(s.db, at, op).items
    ensures x in s.db.items ==> s.db.items[x] == DbAfter(s.db, at, op).items[x]
    ensures s.db.HistoryOf(x) == DbAfter(s.db, at, op).HistoryOf(x)
  {
  }

  /** The alerts about x are the same before and after. */
  ghost predicate SameAlerts(table: map<string, Alert>, table': map<string, Alert>, x: Id) {
    && (forall k :: (k in table && table[k].item == x) <==> (k in table' && table'[k].item == x))
    && (forall k :: k in table && table[k].item == x ==> table'[k] == table[k])
  }

  lemma AppendedElsewhere(table: map<string, Alert>, table': map<string, Alert>, stored: seq<Alert>, x: Id, y: Id)
    requires Appended(table, table', stored) && AboutItem(stored, y) && x != y
    ensures SameAlerts(table, table', x)
  {
  }

  /** An operation leaves the row, the history and the alerts of every other item as they were. */
  lemma OtherItemsUntouched(s: System, at: int, op: Op, x: Id)
    requires Sound(s) && Enabled(s, at, op) && x !in Addressed(op)
    ensures SameFor(s.db, DbAfter(s.db, at, op), x)
  {
    OtherRowsUntouched(s, at, op, x);
    if op.Observe? && Recordable(s.db, op.input, op.previous) {
      ObservationAppends(s, at, op);
      AppendedElsewhere(s.db.alerts, DbAfter(s.db, at, op).alerts, AlertsOf(EventOf(s.db, at, op)), x, op.input.item);
    } else if op.ReportFailure? && Known(s.db, op.item) {
      FailureAppends(s, at, op);
      AppendedElsewhere(s.db.alerts, DbAfter(s.db, at, op).alerts, AlertsOf(EventOf(s.db, at, op)), x, op.item);
    } else if op.Remove? {
      assert SameAlerts(s.db.alerts, DbAfter(s.db, at, op).alerts, x);
    } else {
      SameTable(s, at, op);
    }
  }

  lemma SameTable(s: System, at: int, op: Op)
    requires !op.Remove? && (op.Observe? ==> !Recordable(s.db, op.input, op.previous))
    requires op.ReportFailure? ==> !Known(s.db, op.item)
    ensures DbAfter(s.db, at, op).alerts == s.db.alerts
  {
  }

  /** A refused operation, in particular one on somebody else's item, changes nothing at all. */
  lemma RefusedChangesNothing(s: System, at: int, op: Op)
    requires Sound(s) && Enabled(s, at, op)
    ensures EventOf(s.db, at, op).Quiet? && !op.Register? ==> DbAfter(s.db, at, op) == s.db
    ensures (op.Change? || op.Remove?) && op.item in s.db.items && s.db.items[op.item].user != op.user ==>
              EventOf(s.db, at, op).Quiet?
  {
  }

  /** What a user decides about an item. */
  predicate SameChoices(i: Item, j: Item) {
    SameProduct(i, j) && i.target == j.target && i.interval == j.interval && i.active == j.active
  }

  /** Scrapers neither add nor remove items nor touch what users decided, and keep a title once there is one. */
  lemma ScraperKeepsChoices(s: System, at: int, op: Op)
    requires Sound(s) && Enabled(s, at, op) && (op.Claim? || op.Observe? || op.ReportFailure?)
    ensures DbAfter(s.db, at, op).items.Keys == s.db.items.Keys
    ensures forall x :: x in s.db.items ==>
              var i, i' := s.db.items[x], DbAfter(s.db, at, op).items[x];
              SameChoices(i, i') && (i.title != "" ==> i'.title == i.title)
  {
  }

  /**
   * Users never touch the lease, the streak, the error or the history of an item that stays, and can only
   * bring its next check forward, to no earlier than five minutes from now.
   */
  lemma UserKeepsRecords(s: System, at: int, op: Op, x: Id)
    requires Sound(s) && Enabled(s, at, op) && (op.Change? || op.Add? || op.Remove? || op.Register?)
    requires x in s.db.items && x in DbAfter(s.db, at, op).items
    ensures var i, i' := s.db.items[x], DbAfter(s.db, at, op).items[x];
            && i'.claimedUntil == i.claimedUntil && i'.streak == i.streak && i'.lastError == i.lastError
            && Min(i.nextCheck, at + MIN_INTERVAL * SECOND) <= i'.nextCheck <= i.nextCheck
            && DbAfter(s.db, at, op).HistoryOf(x) == s.db.HistoryOf(x)
  {
    if op.Change? && op.patch.interval.Some? && ValidateInterval(op.patch.interval.value).Ok? {
      IntervalInSeconds(op.patch.interval.value);
    }
  }

  /** A change repeated at the same instant adds nothing, and a change that names no field is none. */
  lemma ChangeIsIdempotent(db: Db, at: int, user: Id, x: Id, p: Patch)
    requires Update(db, at, user, x, p).1.Ok?
    ensures Update(Update(db, at, user, x, p).0, at, user, x, p) == Update(db, at, user, x, p)
    ensures p == Patch(None, false, None, None, None) ==> Update(db, at, user, x, p).0 == db
  {
    var once := Patched(db.items[x], at, p);
    assert Patched(once, at, p) == once;
    assert db.items[x := once][x := once] == db.items[x := once];
    assert db.items[x := db.items[x]] == db.items;
  }

  // ------------------------------------------------------------ rescheduling

  /** A recorded observation frees the item and schedules the next check one interval later. */
  lemma ObservationSchedules(ops: seq<Stamped>, n: nat)
    requires Run(ops) && n < |ops| && LogOf(ops)[n].Observed?
    ensures var e := LogOf(ops)[n];
            var before, after := Exec(ops[..n]).db, Exec(ops[..n + 1]).db;
            && e.item in before.items && e.item in after.items
            && after.items[e.item].nextCheck == ops[n].at + before.items[e.item].interval * SECOND
            && after.items[e.item].claimedUntil.None? && after.items[e.item].streak == 0
            && !IsDue(after.items[e.item], ops[n].at)
            && after.HistoryOf(e.item) == before.HistoryOf(e.item) + [e.snapshot]
  {
    PointOfRun(ops, n);
    EventAt(ops, n);
    RunsAreSound(ops[..n]);
    ObservedEvent(Exec(ops[..n]), ops[n].at, ops[n].op);
    assert SoundItem(Exec(ops[..n]), LogOf(ops)[n].item);
  }

  /**
   * An addition succeeds exactly when the request is proper, the user is registered, below the quota and
   * does not track the URL yet; the item is then theirs, without history, and due at once.
   */
  lemma AddExact(s: System, at: int, op: Op)
    requires Sound(s) && Enabled(s, at, op) && op.Add?
    ensures var n := op.newItem;
            EventOf(s.db, at, op).Added?
            <==> && n.url.Some? && ProperTarget(n.target) && n.user in s.db.users
                 && (n.interval == 0 || MIN_INTERVAL * NANOS <= n.interval <= MAX_INTERVAL * NANOS)
                 && |ItemsOf(s.db, n.user)| < MAX_ITEMS_PER_USER
                 && (forall x :: x in ItemsOf(s.db, n.user) ==> s.db.items[x].url != n.url.value)
    ensures EventOf(s.db, at, op).Added? ==>
              var db' := DbAfter(s.db, at, op);
              && op.id !in s.db.items && op.id in db'.items && IsDue(db'.items[op.id], at) && db'.HistoryOf(op.id) == []
              && ItemsOf(db', op.newItem.user) == ItemsOf(s.db, op.newItem.user) + {op.id}
  {
  }
}
