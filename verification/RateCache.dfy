/**
 * internal/currency/service.go: rate tables kept in process memory and in one shared cache entry by any
 * number of replicas, in front of a provider that may be down. Times and durations are nanoseconds.
 */
module RateCache {
  import opened Prelude
  import opened Traces
  import Rates

  /** How long a table may be served past its reload when the provider is unreachable: 24 hours. */
  const STALE_GRACE: int := 86_400_000_000_000

  /** A table and the instant the provider was asked for it. */
  datatype Fetched = Fetched(table: Rates.Table, at: int)

  predicate Usable(f: Fetched) {
    |f.table.rates| > 0
  }

  datatype Source = Memory | SharedCache | Provider | StaleMemory | Nowhere

  /**
   * Where a request that reads `now` gets its table: fresh memory, then the shared cache, then the
   * provider, then stale memory.
   */
  function Choose(table: Fetched, loaded: int, ttl: int, now: int, cached: Option<Fetched>, fetched: Option<Fetched>): Source {
    if Usable(table) && now - loaded < ttl then Memory
    else if cached.Some? && Usable(cached.value) then SharedCache
    else if fetched.Some? then Provider
    else if Usable(table) && now - loaded < STALE_GRACE then StaleMemory
    else Nowhere
  }

  function Answer(source: Source, table: Fetched, cached: Option<Fetched>, fetched: Option<Fetched>): Option<Fetched>
    requires source == SharedCache ==> cached.Some?
    requires source == Provider ==> fetched.Some?
  {
    match source
    case Memory => Some(table)
    case StaleMemory => Some(table)
    case SharedCache => cached
    case Provider => fetched
    case Nowhere => None
  }

  /** One process's converter. */
  class Service {
    const ttl: int
    var table: Fetched
    var loaded: int

    constructor (ttl: int, empty: Fetched)
      requires !Usable(empty)
      ensures table == empty
      ensures this.ttl == if ttl <= 0 then 3_600_000_000_000 else ttl
    {
      this.ttl := if ttl <= 0 then 3_600_000_000_000 else ttl;
      table, loaded := empty, 0;
    }

    /** Returns a usable table, reloading it when it is no longer fresh; `publish` asks for a cache write. */
    method CurrentTable(now: int, cached: Option<Fetched>, fetched: Option<Fetched>)
      returns (r: Option<Fetched>, publish: bool)
      modifies this`table, this`loaded
      ensures var source := Choose(old(table), old(loaded), ttl, now, cached, fetched);
              && r == Answer(source, old(table), cached, fetched)
              && publish == source.Provider?
              && (if source.SharedCache? || source.Provider? then table == r.value && loaded == now
                  else table == old(table) && loaded == old(loaded))
    {
      if |table.table.rates| > 0 && now - loaded < ttl {
        return Some(table), false;
      }
      if cached.Some? && |cached.value.table.rates| > 0 {
        table, loaded := cached.value, now;
        return cached, false;
      }
      if fetched.None? {
        if |table.table.rates| > 0 && now - loaded < STALE_GRACE {
          return Some(table), false;
        }
        return None, false;
      }
      table, loaded := fetched.value, now;
      return fetched, true;
    }
  }

  // ------------------------------------------------------------ many replicas, one cache entry

  datatype Replica = Replica(table: Fetched, loaded: int, seen: int)

  datatype Entry = Entry(what: Fetched, expires: int)

  /** A table handed out by a replica to a request that read `now`. */
  datatype Serve = Serve(replica: nat, now: int, source: Source, table: Fetched)

  /** `delay` bounds the time between a fetch and its cache write; `pending` are the writes to come. */
  datatype Cluster = Cluster(
    ttl: int, redisTtl: int, delay: int, clock: int,
    replicas: seq<Replica>, entry: Option<Entry>, pending: set<Fetched>, served: seq<Serve>)

  /**
   * Request: replica i reads `now`, talks to cache and provider at `at`; the cache may fail to answer and
   * the provider may be down. Publish: a pending cache write arrives. Evict: the cache loses its entry.
   */
  datatype Op =
    | Request(i: nat, now: int, at: int, hit: bool, fetched: Option<Rates.Table>)
    | Publish(what: Fetched, at: int)
    | Evict

  function Cached(c: Cluster, op: Op): Option<Fetched>
    requires op.Request?
  {
    if op.hit && c.entry.Some? then Some(c.entry.value.what) else None
  }

  function Provided(op: Op): Option<Fetched>
    requires op.Request?
  {
    if op.fetched.Some? then Some(Fetched(op.fetched.value, op.at)) else None
  }

  predicate Enabled(c: Cluster, op: Op) {
    match op
    case Request(i, now, at, hit, _) =>
      && i < |c.replicas| && c.replicas[i].seen <= now <= at && c.clock <= at
      && (hit ==> c.entry.Some? && at < c.entry.value.expires)
    case Publish(what, at) => what in c.pending && c.clock <= at <= what.at + c.delay
    case Evict => true
  }

  function SourceOf(c: Cluster, op: Op): Source
    requires op.Request? && op.i < |c.replicas|
  {
    var r := c.replicas[op.i];
    Choose(r.table, r.loaded, c.ttl, op.now, Cached(c, op), Provided(op))
  }

  function Step(c: Cluster, op: Op): Cluster {
    match op
    case Request(i, now, at, _, _) =>
      if i >= |c.replicas| then c else
        var r := c.replicas[i];
        var source := SourceOf(c, op);
        var answer := Answer(source, r.table, Cached(c, op), Provided(op));
        var reloaded := if source.SharedCache? || source.Provider? then Replica(answer.value, now, now) else r.(seen := now);
        c.(clock := at, replicas := c.replicas[i := reloaded],
           pending := if source.Provider? && c.redisTtl > 0 then c.pending + {answer.value} else c.pending,
           served := if answer.Some? then c.served + [Serve(i, now, source, answer.value)] else c.served)
    case Publish(what, at) => c.(clock := at, entry := Some(Entry(what, at + c.redisTtl)))
    case Evict => c.(entry := None)
  }

  /** Replicas start without a table, and the cache is empty. */
  predicate Initial(c: Cluster) {
    && c.ttl > 0 && c.redisTtl >= 0 && c.delay >= 0
    && (forall i :: 0 <= i < |c.replicas| ==> !Usable(c.replicas[i].table))
    && c.entry.None? && c.pending == {} && c.served == []
  }

  function Max(a: int, b: int): int {
    if a >= b then a else b
  }

  // ------------------------------------------------------------ bounded staleness

  /** No entry outlives its fetch by more than the cache's own lifetime and the write delay. */
  predicate EntryYoung(c: Cluster) {
    c.entry.Some? ==> c.entry.value.expires <= c.entry.value.what.at + c.delay + c.redisTtl
  }

  /** No replica counts a table's age from later than the table could have been read. */
  predicate LoadedInTime(c: Cluster) {
    forall i :: 0 <= i < |c.replicas| && Usable(c.replicas[i].table) ==>
      c.replicas[i].loaded <= c.replicas[i].table.at + c.delay + c.redisTtl
  }

  predicate ServedYoung(c: Cluster) {
    forall k :: 0 <= k < |c.served| ==>
      c.served[k].now < c.served[k].table.at + c.redisTtl + c.delay + Max(c.ttl, STALE_GRACE)
  }

  predicate Young(c: Cluster) {
    && c.ttl > 0 && c.redisTtl >= 0 && c.delay >= 0
    && EntryYoung(c) && LoadedInTime(c) && ServedYoung(c)
  }

  lemma RequestStaysYoung(c: Cluster, op: Op)
    requires Young(c) && Enabled(c, op) && op.Request?
    ensures Young(Step(c, op))
  {
  }

  lemma StepStaysYoung(c: Cluster, op: Op)
    requires Young(c) && Enabled(c, op)
    ensures Young(Step(c, op))
  {
    if op.Request? {
      RequestStaysYoung(c, op);
    }
  }

  /**
   * Bounded staleness: in every run of any number of replicas, with cache misses, evictions and provider
   * outages at will, a table served to a request was fetched less than the cache lifetime, plus the write
   * delay, plus the longer of the process lifetime and the grace period, before the request.
   */
  lemma BoundedStaleness(c: Cluster, ops: seq<Op>)
    requires Initial(c) && Legal(c, Step, Enabled, ops)
    ensures ServedYoung(Final(c, Step, ops))
  {
    forall d: Cluster, op: Op | Young(d) && Enabled(d, op)
      ensures Young(Step(d, op))
    {
      StepStaysYoung(d, op);
    }
    Invariance(c, Step, Enabled, Young, ops);
  }

  /** Serving from memory, fresh or stale, changes neither the replica's table and its age nor the cache. */
  lemma StaleServingDoesNotRenew(c: Cluster, op: Op)
    requires Enabled(c, op) && op.Request?
    requires SourceOf(c, op).Memory? || SourceOf(c, op).StaleMemory?
    ensures var c' := Step(c, op);
            && c'.entry == c.entry && c'.pending == c.pending
            && c'.replicas[op.i].table == c.replicas[op.i].table && c'.replicas[op.i].loaded == c.replicas[op.i].loaded
            && op.now < c.replicas[op.i].loaded + Max(c.ttl, STALE_GRACE)
  {
  }

  // ------------------------------------------------------------ which source answers

  /** The table the shared cache holds for the request, if it answers and the table is not empty. */
  function Shared(c: Cluster, op: Op): Option<Fetched>
    requires op.Request?
  {
    if op.hit && c.entry.Some? && |c.entry.value.what.table.rates| > 0 then Some(c.entry.value.what) else None
  }

  /** The request is answered with the table. */
  predicate Answers(c: Cluster, c': Cluster, op: Op, table: Fetched)
    requires op.Request?
  {
    && |c'.served| == |c.served| + 1 && c'.served[..|c.served|] == c.served
    && c'.served[|c.served|].replica == op.i && c'.served[|c.served|].now == op.now && c'.served[|c.served|].table == table
  }

  /** The replica holds the table as loaded when the request came. */
  predicate Loaded(c': Cluster, op: Op, table: Fetched)
    requires op.Request?
  {
    op.i < |c'.replicas| && c'.replicas[op.i].table == table && c'.replicas[op.i].loaded == op.now
  }

  /** The replica's memory and its age are as before. */
  predicate Unmoved(c: Cluster, c': Cluster, op: Op)
    requires op.Request?
  {
    && op.i < |c.replicas| == |c'.replicas|
    && c'.replicas[op.i].table == c.replicas[op.i].table && c'.replicas[op.i].loaded == c.replicas[op.i].loaded
  }

  /** A table in memory younger than its lifetime is the answer; nothing is loaded or written. */
  lemma FreshMemoryAnswers(c: Cluster, op: Op)
    requires Enabled(c, op) && op.Request?
    requires var r := c.replicas[op.i]; |r.table.table.rates| > 0 && op.now - r.loaded < c.ttl
    ensures var c' := Step(c, op);
            Answers(c, c', op, c.replicas[op.i].table) && Unmoved(c, c', op) && c'.pending == c.pending && c'.entry == c.entry
  {
  }

  /** Otherwise a table in the shared cache is the answer and is loaded; the provider is not asked. */
  lemma SharedCacheAnswers(c: Cluster, op: Op)
    requires Enabled(c, op) && op.Request? && Shared(c, op).Some?
    requires var r := c.replicas[op.i]; |r.table.table.rates| == 0 || op.now - r.loaded >= c.ttl
    ensures var c' := Step(c, op);
            && Answers(c, c', op, Shared(c, op).value) && Loaded(c', op, Shared(c, op).value)
            && c'.pending == c.pending && c'.entry == c.entry
  {
  }

  /** Otherwise a table the provider gives is the answer, is loaded, and is to be written to the cache. */
  lemma ProviderAnswers(c: Cluster, op: Op)
    requires Enabled(c, op) && op.Request? && Shared(c, op).None? && op.fetched.Some?
    requires var r := c.replicas[op.i]; |r.table.table.rates| == 0 || op.now - r.loaded >= c.ttl
    ensures var c', table := Step(c, op), Fetched(op.fetched.value, op.at);
            && Answers(c, c', op, table) && Loaded(c', op, table)
            && c'.pending == (if c.redisTtl > 0 then c.pending + {table} else c.pending) && c'.entry == c.entry
  {
  }

  /**
   * A table in memory past its lifetime is served only when the shared cache had none and the provider
   * failed, and only until 24 hours after it was loaded.
   */
  lemma StaleOnlyAsLastResort(c: Cluster, op: Op)
    requires Enabled(c, op) && op.Request? && c.ttl > 0
    requires var r := c.replicas[op.i]; op.now - r.loaded >= c.ttl
    requires Step(c, op).served != c.served && Step(c, op).replicas[op.i].loaded == c.replicas[op.i].loaded
    ensures Shared(c, op).None? && op.fetched.None?
    ensures var r := c.replicas[op.i];
            && |r.table.table.rates| > 0 && op.now - r.loaded < 86_400_000_000_000
            && Answers(c, Step(c, op), op, r.table) && Unmoved(c, Step(c, op), op)
  {
  }

  /** A request fails only, and always, when no source has a table and memory is empty or past both limits. */
  lemma FailsExactlyWithoutSources(c: Cluster, op: Op)
    requires Enabled(c, op) && op.Request?
    ensures var r := c.replicas[op.i];
            Step(c, op).served == c.served
            <==> && Shared(c, op).None? && op.fetched.None?
                 && (|r.table.table.rates| == 0
                     || (op.now - r.loaded >= c.ttl && op.now - r.loaded >= 86_400_000_000_000))
  {
    assert |c.served + [Serve(op.i, op.now, SourceOf(c, op), c.replicas[op.i].table)]| != |c.served|;
  }

  /** A write puts the table into the shared cache for its lifetime, where every replica that misses finds it. */
  lemma PublishedIsShared(c: Cluster, what: Fetched, at: int, op: Op)
    requires Enabled(c, Publish(what, at)) && |what.table.rates| > 0
    requires op.Request? && op.hit && Enabled(Step(c, Publish(what, at)), op)
    requires var r := c.replicas[op.i]; |r.table.table.rates| == 0 || op.now - r.loaded >= c.ttl
    ensures op.at < at + c.redisTtl
    ensures var d := Step(c, Publish(what, at)); Answers(d, Step(d, op), op, what) && Loaded(Step(d, op), op, what)
  {
    SharedCacheAnswers(Step(c, Publish(what, at)), op);
  }

  /** The write itself changes the cache entry and the clock only. */
  lemma PublishWrites(c: Cluster, what: Fetched, at: int)
    ensures Step(c, Publish(what, at)) == c.(clock := at, entry := Some(Entry(what, at + c.redisTtl)))
  {
  }

  // ------------------------------------------------------------ no staleness while the provider is up

  /** The provider answers every request that asks it. */
  predicate EnabledProviderUp(c: Cluster, op: Op) {
    Enabled(c, op) && (op.Request? ==> op.fetched.Some?)
  }

  predicate ServedFresh(c: Cluster) {
    forall k :: 0 <= k < |c.served| ==> c.served[k].now < c.served[k].table.at + c.redisTtl + c.delay + c.ttl
  }

  predicate Fresh(c: Cluster) {
    && c.ttl > 0 && c.redisTtl >= 0 && c.delay >= 0
    && EntryYoung(c) && LoadedInTime(c) && ServedFresh(c)
  }

  lemma StepStaysFresh(c: Cluster, op: Op)
    requires Fresh(c) && EnabledProviderUp(c, op)
    ensures Fresh(Step(c, op))
  {
    if op.Request? {
      RequestStaysFresh(c, op);
    }
  }

  lemma RequestStaysFresh(c: Cluster, op: Op)
    requires Fresh(c) && EnabledProviderUp(c, op) && op.Request?
    ensures Fresh(Step(c, op))
  {
  }

  /**
   * While the provider is up the grace period plays no part: in every run in which it answers whenever it
   * is asked, a table served was fetched less than the cache lifetime, plus the write delay, plus the
   * process lifetime before the request, whatever the cache loses.
   */
  lemma FreshWhileProviderIsUp(c: Cluster, ops: seq<Op>)
    requires Initial(c) && Legal(c, Step, EnabledProviderUp, ops)
    ensures ServedFresh(Final(c, Step, ops))
  {
    forall d: Cluster, op: Op | Fresh(d) && EnabledProviderUp(d, op)
      ensures Fresh(Step(d, op))
    {
      StepStaysFresh(d, op);
    }
    Invariance(c, Step, EnabledProviderUp, Fresh, ops);
  }

  // ------------------------------------------------------------ the provider is spared

  predicate FetchAt(c: Cluster, k: int) {
    0 <= k < |c.served| && c.served[k].source.Provider?
  }

  /** A replica that fetched keeps a usable table, and counts from its last reload. */
  predicate FetchesRemembered(c: Cluster) {
    && (forall k :: 0 <= k < |c.served| && FetchAt(c, k) ==>
          && c.served[k].replica < |c.replicas|
          && Usable(c.replicas[c.served[k].replica].table)
          && c.served[k].now <= c.replicas[c.served[k].replica].loaded)
    && (forall i :: 0 <= i < |c.replicas| && Usable(c.replicas[i].table) ==> c.replicas[i].loaded <= c.replicas[i].seen)
  }

  predicate FetchesApart(c: Cluster) {
    forall j, k :: 0 <= j < k < |c.served| && FetchAt(c, j) && FetchAt(c, k) && c.served[j].replica == c.served[k].replica
      ==> c.served[j].now + c.ttl <= c.served[k].now
  }

  /** The provider never answers with an empty table. */
  predicate EnabledNonEmpty(c: Cluster, op: Op) {
    Enabled(c, op) && (op.Request? && op.fetched.Some? ==> |op.fetched.value.rates| > 0)
  }

  predicate Spared(c: Cluster) {
    FetchesRemembered(c) && FetchesApart(c)
  }

  lemma RequestKeepsApart(c: Cluster, op: Op)
    requires Spared(c) && EnabledNonEmpty(c, op) && op.Request?
    ensures FetchesApart(Step(c, op))
  {
  }

  lemma RequestKeepsRemembered(c: Cluster, op: Op)
    requires Spared(c) && EnabledNonEmpty(c, op) && op.Request?
    ensures FetchesRemembered(Step(c, op))
  {
  }

  lemma StepKeepsSpared(c: Cluster, op: Op)
    requires Spared(c) && EnabledNonEmpty(c, op)
    ensures Spared(Step(c, op))
  {
    if op.Request? {
      RequestKeepsApart(c, op);
      RequestKeepsRemembered(c, op);
    }
  }

  /** Within one process, successful provider fetches are at least the process lifetime apart. */
  lemma FetchSpacing(c: Cluster, ops: seq<Op>)
    requires Initial(c) && Legal(c, Step, EnabledNonEmpty, ops)
    ensures FetchesApart(Final(c, Step, ops))
  {
    forall d: Cluster, op: Op | Spared(d) && EnabledNonEmpty(d, op)
      ensures Spared(Step(d, op))
    {
      StepKeepsSpared(d, op);
    }
    Invariance(c, Step, EnabledNonEmpty, Spared, ops);
  }
}
