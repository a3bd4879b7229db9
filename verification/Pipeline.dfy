/** From core's alerts to deliveries: the service and the notifiers running side by side. */
module Pipeline {
  import opened Traces
  import opened Alerts
  import opened Store
  import opened Runs
  import opened AlertRuns
  import opened FailureRuns
  import N = Notifier
  import DeliveryBounds
  import DeliveryEnds

  // ------------------------------------------------------------ every alert has an addressee

  /** Registered chats stay, and the owner of every returned alert has one. */
  ghost predicate Addressable(s: System) {
    && s.db.users.Keys <= s.issued
    && (forall a :: a in Returned(s.log) ==> a.user in s.db.users)
  }

  /** No operation takes a chat away or changes it. */
  lemma ChatsStay(s: System, at: int, op: Op)
    requires s.db.users.Keys <= s.issued && Enabled(s, at, op)
    ensures Step(s, at, op).db.users.Keys <= Step(s, at, op).issued
    ensures forall u :: u in s.db.users ==>
              u in DbAfter(s.db, at, op).users && DbAfter(s.db, at, op).users[u] == s.db.users[u]
  {
  }

  lemma DecidedForOwner(i: AlertInput)
    ensures forall a :: a in DecideAlerts(i) ==> a.user == i.user
  {
  }

  lemma ObservedForOwner(s: System, at: int, op: Op, a: Alert)
    requires Sound(s) && Enabled(s, at, op) && EventOf(s.db, at, op).Observed? && a in AlertsOf(EventOf(s.db, at, op))
    ensures a.item in s.db.items && a.user == s.db.items[a.item].user
  {
    ObservedEvent(s, at, op);
    ObservationAppends(s, at, op);
    DecidedForOwner(InputOf(s.db, at, op.input, op.id, op.previous));
  }

  /** An alert is for the owner of its item. */
  lemma AlertsAreForOwners(s: System, at: int, op: Op, a: Alert)
    requires Sound(s) && Enabled(s, at, op) && a in AlertsOf(EventOf(s.db, at, op))
    ensures a.item in s.db.items && a.user == s.db.items[a.item].user && a.user in s.db.users
  {
    if EventOf(s.db, at, op).Observed? {
      ObservedForOwner(s, at, op, a);
    } else {
      FailedStreak(s, at, op);
      FailureAppends(s, at, op);
    }
    assert SoundItem(s, a.item);
  }

  lemma StepKeepsAddressable(s: System, at: int, op: Op)
    requires Sound(s) && Enabled(s, at, op) && Addressable(s)
    ensures Addressable(Step(s, at, op))
  {
    ChatsStay(s, at, op);
    ReturnedAfter(s, at, op);
    forall a | a in AlertsOf(EventOf(s.db, at, op))
      ensures a.user in s.db.users
    {
      AlertsAreForOwners(s, at, op, a);
    }
  }

  lemma {:induction false} RunsAreAddressable(ops: seq<Stamped>)
    requires Run(ops)
    ensures Addressable(Exec(ops))
    decreases |ops|
  {
    if ops != [] {
      var n := |ops| - 1;
      LastOfRun(ops);
      RunsAreSound(ops[..n]);
      RunsAreAddressable(ops[..n]);
      StepKeepsAddressable(Exec(ops[..n]), ops[n].at, ops[n].op);
    }
  }

  // ------------------------------------------------------------ both halves in one run

  /** The service and the notifiers. */
  datatype World = World(core: System, net: N.Net)

  /** An operation of the service, or a step of the notifiers; Enqueue is a scraper handing over an alert. */
  datatype Act = Core(o: Stamped) | Note(n: N.Op)

  function Perform(w: World, act: Act): World {
    match act
    case Core(o) => w.(core := Next(w.core, o))
    case Note(n) => w.(net := N.Step(w.net, n))
  }

  /** A returned alert as it is queued for its owner's chat. */
  function Queued(a: Alert, users: map<Id, int>): N.Message
    requires a.user in users
  {
    N.Message(a.key, users[a.user])
  }

  /** The message is an alert the service has returned. */
  predicate IsReturned(core: System, m: N.Message) {
    exists a :: a in Returned(core.log) && a.user in core.db.users && m == Queued(a, core.db.users)
  }

  predicate CanAct(w: World, act: Act) {
    match act
    case Core(o) => Possible(w.core, o)
    case Note(n) => N.Possible(w.net, n) && (n.Enqueue? ==> IsReturned(w.core, n.message))
  }

  function WorldStart(max: nat): World {
    World(START, N.Start(max))
  }

  predicate WorldRun(max: nat, acts: seq<Act>) {
    Legal(WorldStart(max), Perform, CanAct, acts)
  }

  function WorldAfter(max: nat, acts: seq<Act>): World {
    Final(WorldStart(max), Perform, acts)
  }

  function CoreActs(acts: seq<Act>): seq<Stamped> {
    if acts == [] then []
    else CoreActs(acts[..|acts| - 1]) + if acts[|acts| - 1].Core? then [acts[|acts| - 1].o] else []
  }

  function NoteActs(acts: seq<Act>): seq<N.Op> {
    if acts == [] then []
    else NoteActs(acts[..|acts| - 1]) + if acts[|acts| - 1].Note? then [acts[|acts| - 1].n] else []
  }

  /** Each half of a run of the world is a run of its own. */
  lemma {:induction false} HalvesAreRuns(max: nat, acts: seq<Act>)
    requires WorldRun(max, acts)
    ensures Run(CoreActs(acts)) && Exec(CoreActs(acts)) == WorldAfter(max, acts).core
    ensures N.AnyRun(max, NoteActs(acts)) && N.Exec(max, NoteActs(acts)) == WorldAfter(max, acts).net
  {
    if acts != [] {
      var rest, last := acts[..|acts| - 1], acts[|acts| - 1];
      HalvesAreRuns(max, rest);
      match last {
        case Core(o) =>
          OneMore(START, Next, Possible, CoreActs(rest), o);
          assert NoteActs(rest) + [] == NoteActs(rest);
        case Note(n) =>
          OneMore(N.Start(max), N.Step, N.Possible, NoteActs(rest), n);
          assert CoreActs(rest) + [] == CoreActs(rest);
      }
    }
  }

  lemma ReturnedStays(s: System, o: Stamped, m: N.Message)
    requires Addressable(s) && Possible(s, o) && IsReturned(s, m)
    ensures IsReturned(Next(s, o), m)
  {
    var a :| a in Returned(s.log) && a.user in s.db.users && m == Queued(a, s.db.users);
    ChatsStay(s, o.at, o.op);
    ReturnedAfter(s, o.at, o.op);
    assert a in Returned(Next(s, o).log);
  }

  ghost predicate AllReturned(core: System, messages: set<N.Message>) {
    forall m :: m in messages ==> IsReturned(core, m)
  }

  lemma {:induction false} OnlyReturnedAreQueued(max: nat, acts: seq<Act>)
    requires WorldRun(max, acts)
    ensures AllReturned(WorldAfter(max, acts).core, N.Enqueued(NoteActs(acts)))
  {
    if acts != [] {
      var rest, last := acts[..|acts| - 1], acts[|acts| - 1];
      var w := WorldAfter(max, rest);
      OnlyReturnedAreQueued(max, rest);
      HalvesAreRuns(max, rest);
      RunsAreAddressable(CoreActs(rest));
      forall m | m in N.Enqueued(NoteActs(acts))
        ensures IsReturned(WorldAfter(max, acts).core, m)
      {
        if last.Core? {
          ReturnedStays(w.core, last.o, m);
        }
      }
    }
  }

  // ------------------------------------------------------------ end to end

  /** Every alert core returns has a key, and no other alert shares it. */
  lemma ReturnedAlertsAreDeliverable(ops: seq<Stamped>)
    requires Run(ops)
    ensures forall a :: a in Returned(LogOf(ops)) ==> a.key != "" && a.user in Exec(ops).db.users
    ensures forall a, b :: a in Returned(LogOf(ops)) && b in Returned(LogOf(ops)) && a.key == b.key ==> a == b
  {
    RunsHaveSoundAlerts(ops);
    RunsAreAddressable(ops);
    AllKeysDistinct(ops);
    forall a | a in Returned(LogOf(ops))
      ensures a.key != ""
    {
      assert KeyPrefix(a.kind, a.item) <= a.key;
    }
    forall a, b | a in Returned(LogOf(ops)) && b in Returned(LogOf(ops)) && a.key == b.key
      ensures a == b
    {
      SameKeySameAlert(Returned(LogOf(ops)), a, b);
    }
  }

  lemma SameKeySameAlert(alerts: seq<Alert>, a: Alert, b: Alert)
    requires DistinctKeys(alerts) && a in alerts && b in alerts && a.key == b.key
    ensures a == b
  {
  }

  /** The one returned alert that a message carries. */
  ghost predicate Carries(core: System, m: N.Message, a: Alert) {
    && a in Returned(core.log) && a.user in core.db.users && m == Queued(a, core.db.users)
    && forall b :: b in Returned(core.log) && b.key == m.key ==> b == a
  }

  lemma ReturnedIsCarried(ops: seq<Stamped>, m: N.Message)
    requires Run(ops) && IsReturned(Exec(ops), m)
    ensures m.key != "" && exists a :: Carries(Exec(ops), m, a)
  {
    ReturnedAlertsAreDeliverable(ops);
    var a :| a in Returned(LogOf(ops)) && a.user in Exec(ops).db.users && m == Queued(a, Exec(ops).db.users);
    assert Carries(Exec(ops), m, a);
  }

  /**
   * Whatever happens, every message ever sent carries exactly one alert the service returned, and goes to
   * the chat of the owner of its item.
   */
  lemma SendsCarryAlerts(max: nat, acts: seq<Act>, i: nat)
    requires WorldRun(max, acts) && i < |WorldAfter(max, acts).net.sends|
    ensures var w := WorldAfter(max, acts);
            var m := N.Message(w.net.sends[i].key, w.net.sends[i].chat);
            m.key != "" && exists a :: Carries(w.core, m, a)
  {
    var w := WorldAfter(max, acts);
    var m := N.Message(w.net.sends[i].key, w.net.sends[i].chat);
    HalvesAreRuns(max, acts);
    OnlyReturnedAreQueued(max, acts);
    N.NothingMadeUp(max, NoteActs(acts));
    assert m in N.Enqueued(NoteActs(acts));
    ReturnedIsCarried(CoreActs(acts), m);
  }

  /** No claim request of the run failed and no claim of it expired. */
  predicate Untroubled(acts: seq<Act>) {
    forall n :: n in NoteActs(acts) ==> !n.SendAnyway? && !n.Expire?
  }

  lemma UntroubledRun(max: nat, acts: seq<Act>)
    requires WorldRun(max, acts) && Untroubled(acts)
    ensures N.Run(max, NoteActs(acts))
  {
    HalvesAreRuns(max, acts);
    var ops := NoteActs(acts);
    assert forall k :: 0 <= k < |ops| ==> ops[k] in ops;
    Strengthen(N.Start(max), N.Step, N.Possible, N.Enabled, ops);
  }

  /**
   * End to end, at most once: an alert whose claim gave no trouble is accepted by the sender at most once,
   * and without any trouble each process tries it at most MaxAttempts times.
   */
  lemma DeliveredAtMostOnce(max: nat, acts: seq<Act>, a: Alert, process: nat)
    requires WorldRun(max, acts) && a in Returned(WorldAfter(max, acts).core.log)
    ensures var net := WorldAfter(max, acts).net;
            && N.AcceptedCount(net.sends, a.key) <= 1 + N.Troubles(NoteActs(acts), a.key)
            && (Untroubled(acts) && max >= 1 ==>
                  N.AcceptedCount(net.sends, a.key) <= 1 && DeliveryBounds.SendCount(net.sends, process, a.key) <= max)
  {
    HalvesAreRuns(max, acts);
    ReturnedAlertsAreDeliverable(CoreActs(acts));
    N.AcceptedBound(max, NoteActs(acts), a.key);
    if Untroubled(acts) && max >= 1 {
      UntroubledRun(max, acts);
      N.RunHasNoTrouble(max, NoteActs(acts), a.key);
      DeliveryBounds.AttemptsBounded(max, NoteActs(acts), process, a.key);
    }
  }

  /**
   * End to end, termination: without claim trouble the notifiers always have only finitely many steps
   * left, whatever the service has returned so far, until it hands over more.
   */
  lemma DeliveryComesToRest(max: nat, acts: seq<Act>)
    requires WorldRun(max, acts) && Untroubled(acts)
    ensures DeliveryEnds.Finite(WorldAfter(max, acts).net)
    ensures DeliveryEnds.EndsWithin(WorldAfter(max, acts).net, DeliveryEnds.Measure(WorldAfter(max, acts).net))
  {
    var net := WorldAfter(max, acts).net;
    HalvesAreRuns(max, acts);
    UntroubledRun(max, acts);
    DeliveryEnds.RunsAreOrderly(max, NoteActs(acts));
    N.NothingMadeUp(max, NoteActs(acts));
    OnlyReturnedAreQueued(max, acts);
    forall m | m in N.Enqueued(NoteActs(acts))
      ensures m.key != ""
    {
      ReturnedIsCarried(CoreActs(acts), m);
    }
    assert DeliveryEnds.AllLimited(net);
    forall ops | Legal(net, N.Step, DeliveryEnds.Progress, ops)
      ensures |ops| <= DeliveryEnds.Measure(net)
    {
      DeliveryEnds.DeliveryEnds(net, ops);
    }
  }

  /** How delivery of a key ended: accepted once, refused, or tried by a process as often as it may. */
  ghost predicate Ended(net: N.Net, key: string) {
    || N.AcceptedCount(net.sends, key) == 1
    || (exists i :: 0 <= i < |net.sends| && net.sends[i].key == key && net.sends[i].outcome.Refused?)
    || (exists process :: DeliveryBounds.SendCount(net.sends, process, key) == net.max)
  }

  lemma {:induction false} AcceptedIsCounted(sends: seq<N.Send>, i: nat)
    requires i < |sends| && sends[i].outcome.Accepted?
    ensures N.AcceptedCount(sends, sends[i].key) >= 1
  {
    if i < |sends| - 1 {
      AcceptedIsCounted(sends[..|sends| - 1], i);
    }
  }

  lemma SettledHasEnded(max: nat, ops: seq<N.Op>, key: string)
    requires N.Run(max, ops) && max >= 1 && key != "" && DeliveryBounds.Settled(N.Exec(max, ops), key)
    ensures Ended(N.Exec(max, ops), key)
  {
    var net := N.Exec(max, ops);
    DeliveryBounds.MaxIsFixed(max, ops);
    if i :| 0 <= i < |net.sends| && net.sends[i].key == key && net.sends[i].outcome != N.Retryable {
      if net.sends[i].outcome.Accepted? {
        AcceptedIsCounted(net.sends, i);
        N.RunHasNoTrouble(max, ops, key);
        N.AtMostOnce(max, ops, key);
      }
    } else {
      var process :| DeliveryBounds.SendCount(net.sends, process, key) >= net.max;
      DeliveryBounds.AttemptsBounded(max, ops, process, key);
    }
  }

  /**
   * End to end, nothing forgotten: when a run without faults and trouble has come to rest, every alert that
   * was handed over for a chat has been accepted exactly once, refused, or tried as often as allowed.
   */
  lemma RestMeansEnded(max: nat, acts: seq<Act>, m: N.Message)
    requires WorldRun(max, acts) && Untroubled(acts) && max >= 1
    requires DeliveryBounds.FaultFree(NoteActs(acts)) && DeliveryBounds.AtRest(WorldAfter(max, acts).net)
    requires N.Enqueue(m) in NoteActs(acts) && m.chat != 0
    ensures m.key in WorldAfter(max, acts).net.resolved && Ended(WorldAfter(max, acts).net, m.key)
    ensures exists a :: Carries(WorldAfter(max, acts).core, m, a)
  {
    HalvesAreRuns(max, acts);
    UntroubledRun(max, acts);
    OnlyReturnedAreQueued(max, acts);
    assert m in N.Enqueued(NoteActs(acts));
    ReturnedIsCarried(CoreActs(acts), m);
    DeliveryBounds.RestIsSettled(max, NoteActs(acts), m);
    SettledHasEnded(max, NoteActs(acts), m.key);
  }
}
