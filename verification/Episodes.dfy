/** Two runs that happen: a drop that is due and not reported, and a second failure streak that is not. */
module Episodes {
  import opened Prelude
  import opened DomainMoney
  import opened Alerts
  import opened Store
  import opened Traces
  import opened Runs
  import opened AlertRuns
  import opened DropRuns
  import opened FailureRuns

  /** Somebody watches a product with a target price. */
  datatype Story = Story(user: Id, item: Id, chat: int, url: string, target: Money, first: Id, second: Id, third: Id)

  predicate Told(c: Story) {
    && (forall id :: id in [c.user, c.item, c.first, c.second, c.third] ==> ':' !in id)
    && c.user != c.item
    && c.first !in {c.user, c.item} && c.second !in {c.user, c.item, c.first}
    && c.third !in {c.user, c.item, c.first, c.second}
    && IsCurrencyCode(c.target.currency) && c.target.amount > 0
  }

  function Opening(c: Story): seq<Stamped> {
    [Stamped(0, Register(c.chat, c.user)),
     Stamped(0, Add(NewItem(c.user, Some(c.url), "", Some(c.target), 0), c.item))]
  }

  function Shot(c: Story, at: int, amount: int, id: Id): Snapshot {
    Snapshot(id, Money(amount, c.target.currency), None, true, at)
  }

  function Look(c: Story, at: int, amount: int, id: Id, previous: Option<Snapshot>): Stamped {
    Stamped(at, Observe(SnapshotInput(c.item, Some(Money(amount, c.target.currency)), None, true, Some(at), ""), id, previous))
  }

  /** The item is watched, was seen as `h` says, and failed `streak` times since. */
  predicate Watching(s: System, c: Story, h: seq<Snapshot>, streak: nat) {
    && c.user in s.db.users && c.item in s.db.items
    && s.db.items[c.item].user == c.user && s.db.items[c.item].target == Some(c.target)
    && s.db.items[c.item].streak == streak && s.db.HistoryOf(c.item) == h
  }

  lemma OpeningRuns(c: Story)
    requires Told(c)
    ensures Run(Opening(c)) && Watching(Exec(Opening(c)), c, [], 0)
    ensures Exec(Opening(c)).issued == {c.user, c.item} && Exec(Opening(c)).clock == 0
    ensures Returned(LogOf(Opening(c))) == [] && Observations(LogOf(Opening(c)), c.item) == []
  {
    var o, p := Opening(c)[0], Opening(c)[1];
    OneStep(START, Next, Possible, o);
    assert ItemsOf(Next(START, o).db, c.user) == {};
    OneMore(START, Next, Possible, [o], p);
    assert Opening(c) == [o] + [p];
    var log := LogOf(Opening(c));
    assert log == [Quiet(0), Added(0, c.item)];
    QuietLog(log, c.item);
  }

  lemma QuietLog(log: seq<Event>, x: Id)
    requires |log| == 2 && log[0].Quiet? && log[1].Added?
    ensures Returned(log) == [] && Observations(log, x) == []
  {
    assert log[..2][..1] == log[..1] && log[..1][..0] == [];
    assert Returned(log[..1]) == [] && Observations(log[..1], x) == [];
  }

  /** One more look at the page, which shows a price. */
  lemma LookAgain(c: Story, ops: seq<Stamped>, h: seq<Snapshot>, streak: nat, at: int, amount: nat, id: Id, previous: Option<Snapshot>)
    requires Told(c) && Run(ops) && Watching(Exec(ops), c, h, streak)
    requires Exec(ops).clock <= at && IsFresh(Exec(ops), id) && IsLatest(h, previous)
    ensures var more := ops + [Look(c, at, amount, id, previous)];
            && Run(more) && Watching(Exec(more), c, h + [Shot(c, at, amount, id)], 0)
            && Exec(more).clock == at && Exec(more).issued == Exec(ops).issued + {id}
            && LogOf(more)[..|ops|] == LogOf(ops)
            && LogOf(more)[|ops|].Observed? && LogOf(more)[|ops|].item == c.item
            && LogOf(more)[|ops|].target == Some(c.target) && LogOf(more)[|ops|].snapshot == Shot(c, at, amount, id)
  {
    var o := Look(c, at, amount, id, previous);
    OneMore(START, Next, Possible, ops, o);
    assert Exec(ops + [o]).log == LogOf(ops) + [EventOf(Exec(ops).db, o.at, o.op)];
  }

  // ------------------------------------------------------------ a bounce

  /** The n-th look: at the target or below it, above it, and at the first price again. */
  function View(c: Story, low: nat, high: nat, n: nat): Snapshot {
    if n == 1 then Shot(c, 1, low, c.first)
    else if n == 2 then Shot(c, 2, high, c.second)
    else Shot(c, n, low, c.third)
  }

  function Views(c: Story, low: nat, high: nat, n: nat): seq<Snapshot> {
    if n == 0 then [] else Views(c, low, high, n - 1) + [View(c, low, high, n)]
  }

  function Newest(c: Story, low: nat, high: nat, n: nat): Option<Snapshot> {
    if n == 0 then None else Some(View(c, low, high, n))
  }

  /** The first n looks. */
  function Bounce(c: Story, low: nat, high: nat, n: nat): seq<Stamped> {
    if n == 0 then Opening(c)
    else
      var p := View(c, low, high, n);
      Bounce(c, low, high, n - 1) + [Look(c, n, p.price.amount, p.id, Newest(c, low, high, n - 1))]
  }

  lemma {:induction false} NewestView(c: Story, low: nat, high: nat, n: nat)
    ensures IsLatest(Views(c, low, high, n), Newest(c, low, high, n))
    ensures forall p :: p in Views(c, low, high, n) ==> p.observedAt <= n
  {
    if n > 0 {
      NewestView(c, low, high, n - 1);
    }
  }

  predicate LookedAt(e: Event, c: Story, p: Snapshot) {
    e.Observed? && e.item == c.item && e.target == Some(c.target) && e.snapshot == p
  }

  /** What the log says after n looks. */
  predicate Logged(log: seq<Event>, c: Story, low: nat, high: nat, n: nat) {
    && |log| == n + 2
    && Returned(log[..2]) == [] && Observations(log[..2], c.item) == []
    && forall i :: 2 <= i < |log| ==> LookedAt(log[i], c, View(c, low, high, i - 1))
  }

  lemma LogGrows(log: seq<Event>, more: seq<Event>, c: Story, low: nat, high: nat, n: nat)
    requires Logged(log, c, low, high, n) && |more| == |log| + 1 && more[..|log|] == log
    requires LookedAt(more[|log|], c, View(c, low, high, n + 1))
    ensures Logged(more, c, low, high, n + 1)
  {
    assert more[..2] == more[..|log|][..2] == log[..2];
    forall i | 2 <= i < |more|
      ensures LookedAt(more[i], c, View(c, low, high, i - 1))
    {
      assert i < |log| ==> more[i] == more[..|log|][i] == log[i];
    }
  }

  /** The run after n looks: where it stands, and that the identifiers of the next ones are unused. */
  ghost predicate Standing(ops: seq<Stamped>, c: Story, low: nat, high: nat, n: nat) {
    && Run(ops) && |ops| == n + 2 && Watching(Exec(ops), c, Views(c, low, high, n), 0)
    && Exec(ops).clock == n && Logged(LogOf(ops), c, low, high, n)
    && (forall k :: n < k <= 3 ==> IsFresh(Exec(ops), View(c, low, high, k).id))
  }

  lemma OneLook(c: Story, ops: seq<Stamped>, low: nat, high: nat, n: nat)
    requires Told(c) && n < 3 && Standing(ops, c, low, high, n)
    ensures var p := View(c, low, high, n + 1);
            Standing(ops + [Look(c, n + 1, p.price.amount, p.id, Newest(c, low, high, n))], c, low, high, n + 1)
  {
    var p := View(c, low, high, n + 1);
    var more := ops + [Look(c, n + 1, p.price.amount, p.id, Newest(c, low, high, n))];
    NewestView(c, low, high, n);
    LookAgain(c, ops, Views(c, low, high, n), 0, n + 1, p.price.amount, p.id, Newest(c, low, high, n));
    LogGrows(LogOf(ops), LogOf(more), c, low, high, n);
  }

  lemma OpeningStands(c: Story, low: nat, high: nat)
    requires Told(c)
    ensures Standing(Opening(c), c, low, high, 0)
  {
    OpeningRuns(c);
    var log := LogOf(Opening(c));
    assert log[..2] == log;
  }

  lemma {:induction false} BounceRuns(c: Story, low: nat, high: nat, n: nat)
    requires Told(c) && n <= 3
    ensures Standing(Bounce(c, low, high, n), c, low, high, n)
  {
    if n == 0 {
      OpeningStands(c, low, high);
    } else {
      BounceRuns(c, low, high, n - 1);
      OneLook(c, Bounce(c, low, high, n - 1), low, high, n - 1);
    }
  }

  /** The first and the third look are at prices due to be reported; nothing was before the first. */
  lemma BothAreDue(log: seq<Event>, c: Story, low: nat, high: nat)
    requires Logged(log, c, low, high, 3) && low <= c.target.amount < high
    ensures var price := Money(low, c.target.currency);
            && Observations(log[..2], c.item) == [] && !DroppedBefore(log[..2], c.item, price)
            && DropDue(log[2].target, None, log[2].snapshot, price)
            && Last(Observations(log[..4], c.item)) == Some(log[3].snapshot)
            && DropDue(log[4].target, Some(log[3].snapshot), log[4].snapshot, price)
  {
    assert LookedAt(log[2], c, View(c, low, high, 1)) && LookedAt(log[3], c, View(c, low, high, 2));
    assert LookedAt(log[4], c, View(c, low, high, 3));
    assert log[..4][..3] == log[..3];
  }

  /**
   * A price that comes down to the target, goes up above it and comes down to the same value again is due
   * to be reported the second time, too, and is not.
   */
  lemma BounceIsSilent(c: Story, low: nat, high: nat)
    requires Told(c) && low <= c.target.amount < high
    ensures var ops := Bounce(c, low, high, 3);
            && Run(ops) && Logged(LogOf(ops), c, low, high, 3)
            && ReportsAt(LogOf(ops)[2], PriceDrop, Money(low, c.target.currency))
            && DropDue(LogOf(ops)[4].target, Last(Observations(LogOf(ops)[..4], c.item)), LogOf(ops)[4].snapshot,
                       Money(low, c.target.currency))
            && !ReportsAt(LogOf(ops)[4], PriceDrop, Money(low, c.target.currency))
  {
    var ops := Bounce(c, low, high, 3);
    var price := Money(low, c.target.currency);
    BounceRuns(c, low, high, 3);
    BothAreDue(LogOf(ops), c, low, high);
    FirstIsReported(ops, c, low, high);
    assert LookedAt(LogOf(ops)[4], c, View(c, low, high, 3));
    SameDropOnce(ops, 2, 4, price);
  }

  lemma FirstIsReported(ops: seq<Stamped>, c: Story, low: nat, high: nat)
    requires Run(ops) && Logged(LogOf(ops), c, low, high, 3) && low <= c.target.amount < high
    ensures LookedAt(LogOf(ops)[2], c, Shot(c, 1, low, c.first))
    ensures ReportsAt(LogOf(ops)[2], PriceDrop, Money(low, c.target.currency))
  {
    assert LookedAt(LogOf(ops)[2], c, View(c, low, high, 1));
    BothAreDue(LogOf(ops), c, low, high);
    PriceDropExact(ops, 2, Money(low, c.target.currency));
  }

  // ------------------------------------------------------------ two failure streaks

  function Failure(c: Story): Stamped {
    Stamped(1, ReportFailure(c.item, ""))
  }

  function Failures(c: Story, n: nat): seq<Stamped> {
    if n == 0 then [] else Failures(c, n - 1) + [Failure(c)]
  }

  lemma FailAgain(c: Story, ops: seq<Stamped>, h: seq<Snapshot>, streak: nat)
    requires Run(ops) && Watching(Exec(ops), c, h, streak) && Exec(ops).clock <= 1
    ensures var more := ops + [Failure(c)];
            && Run(more) && Watching(Exec(more), c, h, streak + 1)
            && Exec(more).clock == 1 && Exec(more).issued == Exec(ops).issued
            && LogOf(more)[..|ops|] == LogOf(ops)
            && LogOf(more)[|ops|].ScrapeFailed? && LogOf(more)[|ops|].item == c.item
            && LogOf(more)[|ops|].streak == streak + 1
  {
    var o := Failure(c);
    OneMore(START, Next, Possible, ops, o);
    assert Exec(ops + [o]).log == LogOf(ops) + [EventOf(Exec(ops).db, o.at, o.op)];
  }

  /** The run goes on with n failures. */
  ghost predicate GoesOnFailing(ops: seq<Stamped>, more: seq<Stamped>, c: Story, h: seq<Snapshot>, n: nat)
    requires Run(ops)
  {
    && Run(more) && |more| == |ops| + n && Watching(Exec(more), c, h, n)
    && Exec(more).clock <= 1 && Exec(more).issued == Exec(ops).issued
    && LogOf(more)[..|ops|] == LogOf(ops)
    && (n > 0 ==> IsFailure(LogOf(more)[|more| - 1], c, n))
  }

  predicate IsFailure(e: Event, c: Story, streak: nat) {
    e.ScrapeFailed? && e.item == c.item && e.streak == streak
  }

  lemma OneMoreFailure(c: Story, ops: seq<Stamped>, before: seq<Stamped>, h: seq<Snapshot>, n: nat)
    requires Run(ops) && GoesOnFailing(ops, before, c, h, n)
    ensures GoesOnFailing(ops, before + [Failure(c)], c, h, n + 1)
  {
    FailAgain(c, before, h, n);
    var log := LogOf(before + [Failure(c)]);
    assert log[..|ops|] == log[..|before|][..|ops|];
  }

  /** A streak of n failures. */
  lemma {:induction false} FailNTimes(c: Story, ops: seq<Stamped>, h: seq<Snapshot>, n: nat)
    requires Run(ops) && Watching(Exec(ops), c, h, 0) && Exec(ops).clock <= 1
    ensures GoesOnFailing(ops, ops + Failures(c, n), c, h, n)
  {
    if n == 0 {
      assert ops + [] == ops;
    } else {
      FailNTimes(c, ops, h, n - 1);
      OneMoreFailure(c, ops, ops + Failures(c, n - 1), h, n - 1);
      assert ops + Failures(c, n) == ops + Failures(c, n - 1) + [Failure(c)];
    }
  }

  /** Five failures, a success, and five failures again. */
  function Relapse(c: Story, amount: nat): seq<Stamped> {
    Recovered(c, amount) + Failures(c, 5)
  }

  /** A longer run remembers what happened in the shorter one. */
  lemma Remembered(ops: seq<Stamped>, more: seq<Stamped>, i: nat)
    requires Run(ops) && Run(more) && i < |ops| <= |more| && LogOf(more)[..|ops|] == LogOf(ops)
    ensures LogOf(more)[i] == LogOf(ops)[i]
  {
    assert LogOf(more)[..|ops|][i] == LogOf(more)[i];
  }

  /** After the first streak and the success. */
  function Recovered(c: Story, amount: nat): seq<Stamped> {
    Opening(c) + Failures(c, 5) + [Look(c, 1, amount, c.first, None)]
  }

  lemma RecoveredRuns(c: Story, amount: nat)
    requires Told(c)
    ensures var ops := Recovered(c, amount);
            && Run(ops) && |ops| == 8 && Watching(Exec(ops), c, [Shot(c, 1, amount, c.first)], 0)
            && Exec(ops).clock == 1 && IsFailure(LogOf(ops)[6], c, 5)
  {
    var a := Opening(c) + Failures(c, 5);
    OpeningRuns(c);
    FailNTimes(c, Opening(c), [], 5);
    LookAgain(c, a, [], 5, 1, amount, c.first, None);
    Remembered(a, Recovered(c, amount), 6);
  }

  /** The second streak also reaches the threshold, and its user hears nothing. */
  lemma RelapseIsSilent(c: Story, amount: nat)
    requires Told(c)
    ensures Run(Relapse(c, amount)) && |Relapse(c, amount)| == 13
    ensures var last := LogOf(Relapse(c, amount))[12];
            && last.ScrapeFailed? && last.item == c.item && last.streak == FAILURE_STREAK_THRESHOLD && AlertsOf(last) == []
  {
    var ops := Relapse(c, amount);
    RecoveredRuns(c, amount);
    FailNTimes(c, Recovered(c, amount), [Shot(c, 1, amount, c.first)], 5);
    Remembered(Recovered(c, amount), ops, 6);
    assert LogOf(ops)[6] == LogOf(ops)[..12][6];
    assert Persistent(LogOf(ops)[6], c.item) && LogOf(ops)[6] in LogOf(ops)[..12];
    LaterStreaksAreSilent(ops, 12);
  }

  /** Such a story exists: identifiers without a colon are not scarce. */
  lemma StoryExists()
    ensures Told(Story("u", "i", 1, "https://shop.example/1", Money(100, "USD"), "a", "b", "c"))
  {
  }
}
