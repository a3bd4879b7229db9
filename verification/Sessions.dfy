/** internal/bot/session.go: conversation state with a time to live, and a collector nobody can notice. */
module Sessions {
  import opened Prelude
  import opened DomainMoney

  /** A Telegram user, by an int64 id. */
  datatype UserId = UserId(id: int)

  datatype Step = Idle | AwaitURL | AwaitTarget | AwaitInterval | AwaitCurrency

  /** The answers of the /add flow so far. */
  datatype Draft = Draft(url: string, target: Option<Money>, interval: int)

  datatype Session = Session(step: Step, draft: Draft, updatedAt: int)

  /** The zero session: nothing under way. */
  const IDLE: Session := Session(Idle, Draft("", None, 0), 0)

  type Table = map<UserId, Session>

  predicate Expired(s: Session, now: int, ttl: int) {
    now - s.updatedAt > ttl
  }

  /** The session a user still has. */
  function LiveSession(m: Table, user: UserId, now: int, ttl: int): Option<Session> {
    if user in m && !Expired(m[user], now, ttl) then Some(m[user]) else None
  }

  function Collected(m: Table, now: int, ttl: int): Table {
    map u | u in m && !Expired(m[u], now, ttl) :: m[u]
  }

  class SessionStore {
    const ttl: int
    var m: Table

    constructor (ttl: int)
      ensures this.ttl == if ttl <= 0 then 900_000_000_000 else ttl
      ensures m == map[]
    {
      this.ttl := if ttl <= 0 then 900_000_000_000 else ttl;
      m := map[];
    }

    /** The live session of a user; an expired one is dropped on the way. */
    method Get(user: UserId, now: int) returns (s: Session)
      modifies this
      ensures s == if LiveSession(old(m), user, now, ttl).Some? then LiveSession(old(m), user, now, ttl).value else IDLE
      ensures m == if LiveSession(old(m), user, now, ttl).Some? then old(m) else old(m) - {user}
    {
      if user !in m || now - m[user].updatedAt > ttl {
        m := m - {user};
        return IDLE;
      }
      return m[user];
    }

    method Set(user: UserId, s: Session, now: int)
      modifies this
      ensures m == old(m)[user := s.(updatedAt := now)]
    {
      m := m[user := s.(updatedAt := now)];
    }

    method Reset(user: UserId)
      modifies this
      ensures m == old(m) - {user}
    {
      m := m - {user};
    }

    /** Removes the expired sessions and says how many there were. */
    method Gc(now: int) returns (dropped: nat)
      modifies this
      ensures m == Collected(old(m), now, ttl)
      ensures dropped == |old(m)| - |m|
    {
      dropped := 0;
      var left := m.Keys;
      while left != {}
        invariant left <= m.Keys && Pruned(old(m), m, left, now, ttl)
        invariant dropped == |old(m)| - |m|
        decreases |left|
      {
        var u :| u in left;
        PrunedMore(old(m), m, left, u, now, ttl);
        left := left - {u};
        if now - m[u].updatedAt > ttl {
          m := Without(m, u);
          dropped := dropped + 1;
        }
      }
      PrunedAll(old(m), m, now, ttl);
    }
  }

  /** The collector's loop: what it has passed is collected, what is `left` it has not touched. */
  ghost predicate Pruned(before: Table, m: Table, left: set<UserId>, now: int, ttl: int) {
    forall u :: (u in m <==> u in before && (u in left || !Expired(before[u], now, ttl)))
             && (u in m ==> m[u] == before[u])
  }

  lemma PrunedMore(before: Table, m: Table, left: set<UserId>, u: UserId, now: int, ttl: int)
    requires Pruned(before, m, left, now, ttl) && u in left && u in m
    ensures Pruned(before, if Expired(m[u], now, ttl) then m - {u} else m, left - {u}, now, ttl)
  {
  }

  lemma PrunedAll(before: Table, m: Table, now: int, ttl: int)
    requires Pruned(before, m, {}, now, ttl)
    ensures m == Collected(before, now, ttl)
  {
    assert m.Keys == Collected(before, now, ttl).Keys;
  }

  function Without(m: Table, u: UserId): (r: Table)
    requires u in m
    ensures r == m - {u} && |r| == |m| - 1
  {
    var r := m - {u};
    assert r.Keys == m.Keys - {u};
    assert |r| == |r.Keys| && |m| == |m.Keys|;
    r
  }

  // ------------------------------------------------------------ the collector is unobservable

  datatype Op = Get(user: UserId) | Set(user: UserId, s: Session) | Reset(user: UserId) | Gc

  datatype Timed = Timed(now: int, op: Op)

  /** The table after one call; SessionStore's methods leave exactly this. */
  function After(m: Table, o: Timed, ttl: int): Table {
    match o.op
    case Get(u) => if LiveSession(m, u, o.now, ttl).Some? then m else m - {u}
    case Set(u, s) => m[u := s.(updatedAt := o.now)]
    case Reset(u) => m - {u}
    case Gc => Collected(m, o.now, ttl)
  }

  function Play(ops: seq<Timed>, ttl: int): Table {
    if ops == [] then map[] else After(Play(ops[..|ops| - 1], ttl), ops[|ops| - 1], ttl)
  }

  /** The history's account of a user: the last session set, unless reset since. */
  function LastSet(ops: seq<Timed>, user: UserId): Option<Session> {
    if ops == [] then None
    else
      var o := ops[|ops| - 1];
      if o.op.Set? && o.op.user == user then Some(o.op.s.(updatedAt := o.now))
      else if o.op.Reset? && o.op.user == user then None
      else LastSet(ops[..|ops| - 1], user)
  }

  predicate InOrder(ops: seq<Timed>) {
    forall i, j :: 0 <= i < j < |ops| ==> ops[i].now <= ops[j].now
  }

  predicate NotBefore(now: int, ops: seq<Timed>) {
    forall i :: 0 <= i < |ops| ==> ops[i].now <= now
  }

  /**
   * What a user still has is decided by the sets and resets alone: it is the last session set, if no
   * reset came since and it is at most ttl old. Reads and collections, which both delete, leave no trace.
   */
  lemma {:induction false} HistoryDecides(ops: seq<Timed>, user: UserId, now: int, ttl: int)
    requires InOrder(ops) && NotBefore(now, ops) && ttl >= 0
    ensures LiveSession(Play(ops, ttl), user, now, ttl)
         == match LastSet(ops, user) case Some(w) => (if now - w.updatedAt <= ttl then Some(w) else None) case None => None
  {
    if ops != [] {
      var prior, o := ops[..|ops| - 1], ops[|ops| - 1];
      HistoryDecides(prior, user, now, ttl);
      HistoryDecides(prior, user, o.now, ttl);
    }
  }

  /** A collection keeps exactly the sessions at most ttl old; a read deletes at most the reader's, when older. */
  lemma WhatIsDeleted(m: Table, user: UserId, other: UserId, now: int, ttl: int)
    ensures var c := After(m, Timed(now, Gc), ttl);
            && (other in c <==> other in m && now - m[other].updatedAt <= ttl)
            && (other in c ==> c[other] == m[other])
    ensures var r := After(m, Timed(now, Get(user)), ttl);
            && (other in r <==> other in m && (other == user ==> now - m[other].updatedAt <= ttl))
            && (other in r ==> r[other] == m[other])
  {
  }

  /** The same calls, without the collector. */
  function WithoutGc(ops: seq<Timed>): seq<Timed> {
    if ops == [] then []
    else WithoutGc(ops[..|ops| - 1]) + if ops[|ops| - 1].op.Gc? then [] else [ops[|ops| - 1]]
  }

  lemma {:induction false} GcWritesNothing(ops: seq<Timed>, user: UserId, now: int)
    requires InOrder(ops) && NotBefore(now, ops)
    ensures LastSet(WithoutGc(ops), user) == LastSet(ops, user)
    ensures InOrder(WithoutGc(ops)) && NotBefore(now, WithoutGc(ops))
  {
    if ops != [] {
      var prior, o := ops[..|ops| - 1], ops[|ops| - 1];
      GcWritesNothing(prior, user, now);
      GcWritesNothing(prior, user, o.now);
      if !o.op.Gc? {
        assert WithoutGc(ops)[..|WithoutGc(ops)| - 1] == WithoutGc(prior);
      } else {
        assert WithoutGc(ops) == WithoutGc(prior);
      }
    }
  }

  /**
   * Collection cannot be observed: as long as the clock does not go back, whatever was called before,
   * a Get answers the same whether the collector ran, any number of times and at any moments, or never.
   */
  lemma GcIsUnobservable(ops: seq<Timed>, user: UserId, now: int, ttl: int)
    requires InOrder(ops) && NotBefore(now, ops) && ttl >= 0
    ensures LiveSession(Play(WithoutGc(ops), ttl), user, now, ttl) == LiveSession(Play(ops, ttl), user, now, ttl)
  {
    GcWritesNothing(ops, user, now);
    HistoryDecides(ops, user, now, ttl);
    HistoryDecides(WithoutGc(ops), user, now, ttl);
  }
}
