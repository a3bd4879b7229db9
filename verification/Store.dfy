/**
 * internal/core/repo.go and internal/core/pricing.go: the tables of the core service and the
 * operations on them. Each operation is one atomic step on the tables. Times are microseconds,
 * durations given by callers are nanoseconds, and the clock and fresh identifiers are parameters.
 */
module Store {
  import opened Prelude
  import opened DomainMoney
  import opened Alerts

  const SECOND: int := 1_000_000
  const NANOS: int := 1_000_000_000
  const MIN_INTERVAL: int := 300
  const MAX_INTERVAL: int := 86_400
  const DEFAULT_INTERVAL: int := 3_600
  const MAX_BACKOFF: int := 21_600
  const MAX_ITEMS_PER_USER: int := 25
  const MAX_TITLE: nat := 120
  const MAX_REASON: nat := 500

  datatype Failure = NotFound | Validation | AlreadyExists | LimitReached

  /** A row of tracked_items; the interval is in seconds. */
  datatype Item = Item(
    user: Id, url: string, title: string, target: Option<Money>, interval: int, active: bool,
    nextCheck: int, claimedUntil: Option<int>, streak: nat, lastError: string)

  /** users: id to chat; history: the price_snapshots of each item in insertion order; alerts: by dedup key. */
  datatype Db = Db(
    users: map<Id, int>, items: map<Id, Item>, history: map<Id, seq<Snapshot>>, alerts: map<string, Alert>)
  {
    function HistoryOf(x: Id): seq<Snapshot> {
      if x in history then history[x] else []
    }
  }

  const EMPTY: Db := Db(map[], map[], map[], map[])

  function Truncate(s: string, max: nat): string {
    if |s| <= max then s else s[..max]
  }

  // ------------------------------------------------------------ claiming due items

  predicate IsDue(i: Item, at: int) {
    && i.active
    && i.nextCheck <= at
    && (i.claimedUntil.Some? ==> i.claimedUntil.value <= at)
  }

  function EffectiveLimit(limit: int): (n: nat)
    ensures 1 <= n <= 500
    ensures 1 <= limit <= 500 ==> n == limit
    ensures limit < 1 || limit > 500 ==> n == 50
  {
    if limit <= 0 || limit > 500 then 50 else limit
  }

  /** Whole seconds of lease; a lease shorter than a second is a lease of no time at all. */
  function LeaseSeconds(lease: int): nat {
    if lease <= 0 then 120 else lease / NANOS
  }

  /** The items a claim may take: due, and not locked by another transaction at that moment. */
  function Candidates(db: Db, at: int, locked: set<Id>): set<Id> {
    set x | x in db.items && IsDue(db.items[x], at) && x !in locked
  }

  /** A legal outcome of the claim query: the first `limit` candidates by next check, ties in any order. */
  predicate FirstDue(db: Db, at: int, limit: nat, locked: set<Id>, ids: seq<Id>) {
    var cand := Candidates(db, at, locked);
    && (forall m, n :: 0 <= m < n < |ids| ==> ids[m] != ids[n])
    && (forall x :: x in ids ==> x in cand)
    && |ids| <= limit
    && (forall x, y :: x in ids && y in cand && y !in ids ==> db.items[x].nextCheck <= db.items[y].nextCheck)
    && ((exists y :: y in cand && y !in ids) ==> |ids| == limit)
  }

  function Lease(db: Db, at: int, seconds: nat, ids: seq<Id>): Db {
    db.(items := map x | x in db.items ::
      if x in ids then db.items[x].(claimedUntil := Some(at + seconds * SECOND)) else db.items[x])
  }

  // ------------------------------------------------------------ observations

  datatype SnapshotInput = SnapshotInput(
    item: Id, price: Option<Money>, converted: Option<Money>, inStock: bool,
    observedAt: Option<int>, title: string)

  datatype SnapshotResult = SnapshotResult(snapshot: Snapshot, item: Item, chat: int, alerts: seq<Alert>)

  datatype FailureResult = FailureResult(streak: nat, item: Item, chat: int, alerts: seq<Alert>)

  /** A newest snapshot by observation time; ties are broken arbitrarily. */
  predicate IsLatest(history: seq<Snapshot>, s: Option<Snapshot>) {
    match s
    case None => history == []
    case Some(p) => p in history && forall q :: q in history ==> q.observedAt <= p.observedAt
  }

  /** The lowest amount in one currency. */
  function MinAmount(history: seq<Snapshot>, c: Currency): (m: Option<int>)
    ensures m.None? <==> forall s :: s in history ==> s.price.currency != c
    ensures m.Some? ==> Money(m.value, c) in Prices(history)
    ensures m.Some? ==> forall s :: s in history && s.price.currency == c ==> m.value <= s.price.amount
  {
    if history == [] then None
    else
      var last, rest := history[|history| - 1], history[..|history| - 1];
      assert history == rest + [last];
      var m := MinAmount(rest, c);
      if last.price.currency != c then m
      else if m.None? || last.price.amount < m.value then Some(last.price.amount)
      else m
  }

  ghost function Prices(history: seq<Snapshot>): set<Money> {
    set s | s in history :: s.price
  }

  function AllTimeMin(history: seq<Snapshot>, c: Currency): Option<Money> {
    match MinAmount(history, c)
    case None => None
    case Some(a) => Some(Money(a, c))
  }

  /** Inserts the alerts whose key is new and returns exactly those. */
  function Persist(table: map<string, Alert>, decided: seq<Alert>): (map<string, Alert>, seq<Alert>)
    decreases |decided|
  {
    if decided == [] then (table, [])
    else if decided[0].key in table then Persist(table, decided[1..])
    else
      var (t, stored) := Persist(table[decided[0].key := decided[0]], decided[1..]);
      (t, [decided[0]] + stored)
  }

  predicate Malformed(i: SnapshotInput) {
    || (i.price.None? && i.inStock)
    || (i.price.Some? && (!IsCurrencyCode(i.price.value.currency) || i.price.value.amount < 0))
    || (i.converted.Some? && !IsCurrencyCode(i.converted.value.currency))
  }

  predicate Known(db: Db, x: Id) {
    x in db.items && db.items[x].user in db.users
  }

  /** The observed price, or the last known one when the page of an unavailable product shows none. */
  function EffectivePrice(i: SnapshotInput, previous: Option<Snapshot>): Option<Money> {
    if i.price.Some? then i.price
    else if previous.Some? then Some(previous.value.price)
    else None
  }

  function SnapshotFrom(at: int, i: SnapshotInput, id: Id, price: Money): Snapshot {
    Snapshot(id, price, i.converted, i.inStock, if i.observedAt.Some? then i.observedAt.value else at)
  }

  function Titled(i: Item, title: string): Item {
    i.(title := if i.title == "" && title != "" then Truncate(title, MAX_TITLE) else i.title)
  }

  predicate Recordable(db: Db, i: SnapshotInput, previous: Option<Snapshot>) {
    && !Malformed(i) && Known(db, i.item)
    && EffectivePrice(i, previous).Some?
    && (i.converted.Some? ==> i.converted.value.amount >= 0)
  }

  function InputOf(db: Db, at: int, i: SnapshotInput, id: Id, previous: Option<Snapshot>): AlertInput
    requires Recordable(db, i, previous)
  {
    var price := EffectivePrice(i, previous).value;
    AlertInput(i.item, db.items[i.item].user, db.items[i.item].target, previous,
               AllTimeMin(db.HistoryOf(i.item), price.currency), SnapshotFrom(at, i, id, price))
  }

  /** The tables after an accepted observation, and the alerts it returns. */
  function Recorded(db: Db, at: int, i: SnapshotInput, id: Id, previous: Option<Snapshot>): (Db, seq<Alert>)
    requires Recordable(db, i, previous)
  {
    var item := db.items[i.item];
    var input := InputOf(db, at, i, id, previous);
    var (table, stored) := Persist(db.alerts, DecideAlerts(input));
    var rescheduled := Titled(item, i.title)
      .(streak := 0, lastError := "", claimedUntil := None, nextCheck := at + item.interval * SECOND);
    (db.(items := db.items[i.item := rescheduled],
         history := db.history[i.item := db.HistoryOf(i.item) + [input.observed]],
         alerts := table),
     stored)
  }

  function Record(db: Db, at: int, i: SnapshotInput, id: Id, previous: Option<Snapshot>)
    : (Db, Result<SnapshotResult, Failure>)
  {
    if Malformed(i) then (db, Err(Validation))
    else if !Known(db, i.item) then (db, Err(NotFound))
    else if !Recordable(db, i, previous) then (db, Err(Validation))
    else
      var (db', stored) := Recorded(db, at, i, id, previous);
      var item := db.items[i.item];
      (db', Ok(SnapshotResult(InputOf(db, at, i, id, previous).observed, Titled(item, i.title),
                              db.users[item.user], stored)))
  }

  // ------------------------------------------------------------ failures

  /** Seconds to wait after the streak-th failure in a row. */
  function Backoff(interval: int, streak: nat): int
    requires streak >= 1
  {
    var doubled := interval * Pow2(streak - 1);
    if doubled <= MAX_BACKOFF then doubled else MAX_BACKOFF
  }

  function Failed(db: Db, at: int, x: Id, reason: string): (Db, seq<Alert>)
    requires Known(db, x)
  {
    var item := db.items[x];
    var streak := item.streak + 1;
    var (table, stored) := Persist(db.alerts, DecideFailureAlert(x, item.user, streak, FAILURE_STREAK_THRESHOLD));
    var backedOff := item.(streak := streak, lastError := Truncate(reason, MAX_REASON), claimedUntil := None,
                           nextCheck := at + Backoff(item.interval, streak) * SECOND);
    (db.(items := db.items[x := backedOff], alerts := table), stored)
  }

  function Fail(db: Db, at: int, x: Id, reason: string): (Db, Result<FailureResult, Failure>) {
    if !Known(db, x) then (db, Err(NotFound))
    else
      var (db', stored) := Failed(db, at, x, reason);
      var item := db.items[x];
      (db', Ok(FailureResult(item.streak + 1, item, db.users[item.user], stored)))
  }

  // ------------------------------------------------------------ items of a user

  function ValidateInterval(d: int): Result<int, Failure> {
    if d == 0 then Ok(DEFAULT_INTERVAL * NANOS)
    else if d < MIN_INTERVAL * NANOS || d > MAX_INTERVAL * NANOS then Err(Validation)
    else Ok(d)
  }

  predicate ProperTarget(t: Option<Money>) {
    t.Some? ==> IsCurrencyCode(t.value.currency) && t.value.amount > 0
  }

  /** The URL is given normalised, or absent when normalisation refuses it. */
  datatype NewItem = NewItem(user: Id, url: Option<string>, title: string, target: Option<Money>, interval: int)

  function ItemsOf(db: Db, user: Id): set<Id> {
    set x | x in db.items && db.items[x].user == user
  }

  function Create(db: Db, at: int, n: NewItem, id: Id): (Db, Result<Item, Failure>) {
    if n.url.None? || ValidateInterval(n.interval).Err? || !ProperTarget(n.target) then (db, Err(Validation))
    else if |ItemsOf(db, n.user)| >= MAX_ITEMS_PER_USER then (db, Err(LimitReached))
    else if n.user !in db.users then (db, Err(NotFound))
    else if exists x :: x in db.items && db.items[x].user == n.user && db.items[x].url == n.url.value then
      (db, Err(AlreadyExists))
    else
      var item := Item(n.user, n.url.value, Truncate(n.title, MAX_TITLE), n.target,
                       ValidateInterval(n.interval).value / NANOS, true, at, None, 0, "");
      (db.(items := db.items[id := item], history := db.history[id := []]), Ok(item))
  }

  datatype Patch = Patch(
    target: Option<Money>, clearTarget: bool, interval: Option<int>, active: Option<bool>, title: Option<string>)

  function Min(a: int, b: int): int {
    if a <= b then a else b
  }

  function Patched(i: Item, at: int, p: Patch): Item
    requires p.interval.Some? ==> ValidateInterval(p.interval.value).Ok?
  {
    var target := if p.clearTarget then None else if p.target.Some? then p.target else i.target;
    var seconds := if p.interval.Some? then ValidateInterval(p.interval.value).value / NANOS else i.interval;
    var next := if p.interval.Some? then Min(i.nextCheck, at + seconds * SECOND) else i.nextCheck;
    i.(target := target, interval := seconds, nextCheck := next,
       active := if p.active.Some? then p.active.value else i.active,
       title := if p.title.Some? then Truncate(p.title.value, MAX_TITLE) else i.title)
  }

  function Update(db: Db, at: int, user: Id, x: Id, p: Patch): (Db, Result<Item, Failure>) {
    if !p.clearTarget && !ProperTarget(p.target) then (db, Err(Validation))
    else if p.interval.Some? && ValidateInterval(p.interval.value).Err? then (db, Err(Validation))
    else if x !in db.items || db.items[x].user != user then (db, Err(NotFound))
    else
      var item := Patched(db.items[x], at, p);
      (db.(items := db.items[x := item]), Ok(item))
  }

  /** Deleting an item deletes its history and its alerts. */
  function Delete(db: Db, user: Id, x: Id): (Db, Result<(), Failure>) {
    if x !in db.items || db.items[x].user != user then (db, Err(NotFound))
    else
      (db.(items := db.items - {x}, history := db.history - {x},
           alerts := map k | k in db.alerts && db.alerts[k].item != x :: db.alerts[k]),
       Ok(()))
  }

  /** Registers a chat under a fresh id, or leaves the existing registration in place. */
  function EnsureUser(db: Db, chat: int, id: Id): Db {
    if exists u :: u in db.users && db.users[u] == chat then db else db.(users := db.users[id := chat])
  }

  // ------------------------------------------------------------ lemmas about single operations

  /** With keys all different, storing keeps exactly the decided alerts that were not there. */
  lemma {:induction false} PersistExact(table: map<string, Alert>, decided: seq<Alert>)
    requires forall m, n :: 0 <= m < n < |decided| ==> decided[m].key != decided[n].key
    ensures forall a :: a in Persist(table, decided).1 <==> a in decided && a.key !in table
    ensures forall k :: k in Persist(table, decided).0 <==> k in table || exists a :: a in decided && a.key == k
    ensures forall k :: k in table ==> Persist(table, decided).0[k] == table[k]
    ensures forall a :: a in Persist(table, decided).1 ==> Persist(table, decided).0[a.key] == a
    ensures forall k :: k in Persist(table, decided).0 && k !in table ==>
              Persist(table, decided).0[k] in Persist(table, decided).1 && Persist(table, decided).0[k].key == k
    ensures forall m, n :: 0 <= m < n < |Persist(table, decided).1| ==>
              Persist(table, decided).1[m].key != Persist(table, decided).1[n].key
    decreases |decided|
  {
    if decided != [] {
      var head, rest := decided[0], decided[1..];
      if head.key in table {
        PersistExact(table, rest);
      } else {
        PersistExact(table[head.key := head], rest);
      }
    }
  }

  lemma MulMono(a: int, b: int, k: int)
    requires a <= b && k >= 0
    ensures a * k <= b * k
  {
  }

  /** Within one streak the delay never shrinks; it lies between five minutes and six hours. */
  lemma BackoffGrows(interval: int, streak: nat)
    requires MIN_INTERVAL <= interval <= MAX_INTERVAL && streak >= 1
    ensures MIN_INTERVAL <= Backoff(interval, streak) <= MAX_BACKOFF
    ensures Backoff(interval, streak) <= Backoff(interval, streak + 1)
    ensures Backoff(interval, 1) == Min(interval, MAX_BACKOFF)
    ensures Backoff(interval, streak + 1) == Min(2 * Backoff(interval, streak), MAX_BACKOFF)
  {
    var p := Pow2(streak - 1);
    MulMono(1, p, interval);
    assert interval * (2 * p) == 2 * (interval * p);
    assert Pow2(streak) == 2 * p;
  }

  /** A price-less observation repeats the last known price, so no minimum in any currency moves. */
  lemma CarryForwardKeepsMinima(history: seq<Snapshot>, previous: Snapshot, s: Snapshot, c: Currency)
    requires previous in history && s.price == previous.price
    ensures MinAmount(history + [s], c) == MinAmount(history, c)
  {
    assert (history + [s])[..|history|] == history;
  }
}
