/**
 * internal/core/repo.go, CreateItem, seen as what it is to the database: a count of the user's items and,
 * later, an insertion, with no lock in between. How far concurrent additions get past the quota.
 */
module Quota {
  import opened Store
  import opened Traces

  /**
   * The items of one user, the additions that have counted few enough and not inserted yet, and how many
   * additions may be under way at a time.
   */
  datatype State = State(items: nat, counted: nat, limit: nat)

  function Nothing(k: nat): State {
    State(0, 0, k)
  }

  /** An addition counts, inserts, or fails after counting; an item is deleted. */
  datatype Op = Count | Insert | Fail | Delete

  function Step(s: State, op: Op): State {
    match op
    case Count => if s.items >= MAX_ITEMS_PER_USER then s else s.(counted := s.counted + 1)
    case Insert => if s.counted == 0 then s else s.(items := s.items + 1, counted := s.counted - 1)
    case Fail => if s.counted == 0 then s else s.(counted := s.counted - 1)
    case Delete => if s.items == 0 then s else s.(items := s.items - 1)
  }

  /** No more additions are under way than may be. */
  predicate Allowed(s: State, op: Op) {
    Step(s, op).counted <= s.limit
  }

  function Items(k: nat, ops: seq<Op>): nat {
    Final(Nothing(k), Step, ops).items
  }

  /** With at most k additions at a time a user never has more than 24 + k items. */
  lemma {:induction false} QuotaBound(k: nat, ops: seq<Op>)
    requires k >= 1 && Legal(Nothing(k), Step, Allowed, ops)
    ensures var s := Final(Nothing(k), Step, ops); s.limit == k && s.items + s.counted <= MAX_ITEMS_PER_USER - 1 + k
  {
    if ops != [] {
      QuotaBound(k, ops[..|ops| - 1]);
    }
  }

  function Repeat(op: Op, n: nat): seq<Op> {
    if n == 0 then [] else Repeat(op, n - 1) + [op]
  }

  /** Additions one after the other. */
  function OneByOne(n: nat): seq<Op> {
    if n == 0 then [] else OneByOne(n - 1) + [Count] + [Insert]
  }

  /** One item less than allowed, then k additions that all count before any inserts. */
  function Race(k: nat): seq<Op> {
    OneByOne(MAX_ITEMS_PER_USER - 1) + Repeat(Count, k) + Repeat(Insert, k)
  }

  lemma OneAddition(k: nat, ops: seq<Op>, n: nat)
    requires k >= 1 && n < MAX_ITEMS_PER_USER
    requires Legal(Nothing(k), Step, Allowed, ops) && Final(Nothing(k), Step, ops) == State(n, 0, k)
    ensures var more := ops + [Count] + [Insert];
            Legal(Nothing(k), Step, Allowed, more) && Final(Nothing(k), Step, more) == State(n + 1, 0, k)
  {
    OneMore(Nothing(k), Step, Allowed, ops, Count);
    OneMore(Nothing(k), Step, Allowed, ops + [Count], Insert);
  }

  lemma {:induction false} OneByOneFills(n: nat, k: nat)
    requires k >= 1 && n < MAX_ITEMS_PER_USER
    ensures Legal(Nothing(k), Step, Allowed, OneByOne(n)) && Final(Nothing(k), Step, OneByOne(n)) == State(n, 0, k)
  {
    if n > 0 {
      OneByOneFills(n - 1, k);
      OneAddition(k, OneByOne(n - 1), n - 1);
    }
  }

  lemma {:induction false} AllCount(s: State, n: nat)
    requires s.items < MAX_ITEMS_PER_USER && s.counted + n <= s.limit
    ensures Legal(s, Step, Allowed, Repeat(Count, n)) && Final(s, Step, Repeat(Count, n)) == s.(counted := s.counted + n)
  {
    if n > 0 {
      AllCount(s, n - 1);
      OneMore(s, Step, Allowed, Repeat(Count, n - 1), Count);
    }
  }

  /** The user's state after n of the additions under way have inserted. */
  function Inserted(s: State, n: nat): State
    requires n <= s.counted
  {
    State(s.items + n, s.counted - n, s.limit)
  }

  lemma InsertedOneMore(s: State, n: nat)
    requires n < s.counted <= s.limit
    ensures Step(Inserted(s, n), Insert) == Inserted(s, n + 1) && Allowed(Inserted(s, n), Insert)
  {
  }

  lemma {:induction false} AllInsert(s: State, n: nat)
    requires n <= s.counted <= s.limit
    ensures Legal(s, Step, Allowed, Repeat(Insert, n)) && Final(s, Step, Repeat(Insert, n)) == Inserted(s, n)
  {
    if n > 0 {
      AllInsert(s, n - 1);
      InsertedOneMore(s, n - 1);
      OneMore(s, Step, Allowed, Repeat(Insert, n - 1), Insert);
    }
  }

  /** The bound is reached: k additions at a time can bring a user to 24 + k items. */
  lemma RaceExceeds(k: nat)
    requires k >= 1
    ensures Legal(Nothing(k), Step, Allowed, Race(k)) && Items(k, Race(k)) == MAX_ITEMS_PER_USER - 1 + k
  {
    var fill := OneByOne(MAX_ITEMS_PER_USER - 1);
    OneByOneFills(MAX_ITEMS_PER_USER - 1, k);
    AllCount(State(MAX_ITEMS_PER_USER - 1, 0, k), k);
    Concatenation(Nothing(k), Step, Allowed, fill, Repeat(Count, k));
    AllInsert(State(MAX_ITEMS_PER_USER - 1, k, k), k);
    Concatenation(Nothing(k), Step, Allowed, fill + Repeat(Count, k), Repeat(Insert, k));
  }

  /** Hence the quota of 25 holds in all runs if and only if a user has at most one addition at a time. */
  lemma QuotaHoldsExactlyWhenSerial(k: nat)
    requires k >= 1
    ensures (forall ops :: Legal(Nothing(k), Step, Allowed, ops) ==> Items(k, ops) <= MAX_ITEMS_PER_USER) <==> k == 1
  {
    forall ops | Legal(Nothing(k), Step, Allowed, ops)
      ensures Items(k, ops) <= MAX_ITEMS_PER_USER - 1 + k
    {
      QuotaBound(k, ops);
    }
    RaceExceeds(k);
  }
}
