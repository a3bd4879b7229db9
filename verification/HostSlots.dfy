/** internal/scraper/client.go: one request slot after another for each host. */
module HostSlots {
  import opened Prelude
  import opened Text
  import opened Traces

  /** A reservation: the clock reading of the request, and the instant it may go out. */
  datatype Slot = Slot(asked: int, granted: int)

  /** How long a request must wait for its slot. */
  function WaitFor(nextFree: map<string, int>, host: string, now: int): (wait: int)
    ensures wait >= 0
  {
    if host in nextFree && nextFree[host] > now then nextFree[host] - now else 0
  }

  datatype Verdict = Fine | Temporary | Fatal | Cancelled

  /** Where the caller gives up during an attempt: in the pause before it, or while waiting for the slot. */
  datatype Stop = Never | InPause | InWait

  /** An attempt from outside: what the clock says, what the caller does, and what the host would answer. */
  datatype Try = Try(now: int, stop: Stop, answer: Verdict)

  /** Whether attempt k ends without a request, given how long it has to wait for its slot. */
  predicate Breaks(stop: Stop, k: nat, wait: int) {
    (stop == InPause && k > 0) || (stop == InWait && wait > 0)
  }

  /** The pause before attempt k: the gap, doubled each time, in 64-bit arithmetic. */
  function Pause(gap: int, k: nat): int
    requires k > 0
  {
    Wrap64(gap * Pow2(k - 1))
  }

  function Pauses(gap: int, n: nat): seq<int> {
    if n == 0 then [] else Pauses(gap, n - 1) + [Pause(gap, n)]
  }

  /** The first pause is the gap, and each next one twice the last, as long as that fits. */
  lemma {:induction false} PausesDouble(gap: int, n: nat)
    requires FitsInt64(gap)
    ensures |Pauses(gap, n)| == n
    ensures n > 0 ==> Pauses(gap, n)[0] == gap
    ensures forall k :: 0 <= k < n - 1 && FitsInt64(gap * Pow2(k + 1)) ==> Pauses(gap, n)[k + 1] == 2 * Pauses(gap, n)[k]
  {
    if n > 0 {
      PausesDouble(gap, n - 1);
      if n > 1 {
        PauseDoubles(gap, n - 1);
        assert Pauses(gap, n - 1)[n - 2] == Pause(gap, n - 1);
      }
    }
  }

  lemma PauseDoubles(gap: int, k: nat)
    requires k > 0 && FitsInt64(gap)
    ensures FitsInt64(gap * Pow2(k)) ==> Pause(gap, k + 1) == 2 * Pause(gap, k)
  {
    var p := Pow2(k - 1);
    assert gap * (2 * p) == 2 * (gap * p);
  }

  /** Attempts that the caller let pass and the host answered with a temporary failure. */
  predicate AllRetried(slots: seq<Slot>, n: nat, tries: seq<Try>) {
    n <= |slots| && n <= |tries| && forall k :: 0 <= k < n ==>
      tries[k].answer == Temporary && !Breaks(tries[k].stop, k, slots[k].granted - slots[k].asked)
  }

  /** How the last attempt ended: in its pause, in its wait, or with an answer, which is final or the last one allowed. */
  predicate EndsRight(last: Verdict, slots: seq<Slot>, pauses: nat, tries: seq<Try>) {
    && 0 < |slots| <= |tries|
    && AllRetried(slots, |slots| - 1, tries)
    && var k := |slots| - 1;
       if pauses == |slots| then
         last == Cancelled && |slots| < |tries| && tries[k + 1].stop == InPause && AllRetried(slots, |slots|, tries)
       else
         && pauses == k
         && if tries[k].stop == InWait && slots[k].granted > slots[k].asked then last == Cancelled
            else last == tries[k].answer && (last == Temporary ==> |slots| == |tries|)
  }

  lemma RetriedOnce(slots: seq<Slot>, slot: Slot, tries: seq<Try>)
    requires AllRetried(slots, |slots|, tries) && |slots| < |tries|
    ensures AllRetried(slots + [slot], |slots|, tries)
    ensures tries[|slots|].answer == Temporary && !(tries[|slots|].stop == InWait && slot.granted > slot.asked)
            && !(tries[|slots|].stop == InPause && slots != []) ==>
              AllRetried(slots + [slot], |slots| + 1, tries)
  {
  }

  class Client {
    const gap: int
    const maxRetries: int
    var nextFree: map<string, int>

    constructor (gap: int, maxRetries: int)
      ensures this.gap == if gap <= 0 then 2_000_000_000 else gap
      ensures this.maxRetries == if maxRetries < 0 then 0 else maxRetries
      ensures nextFree == map[]
    {
      this.gap := if gap <= 0 then 2_000_000_000 else gap;
      this.maxRetries := if maxRetries < 0 then 0 else maxRetries;
      nextFree := map[];
    }

    /** Reserves the host's next slot and returns how long to sleep until it. */
    method WaitForHost(host: string, now: int) returns (wait: int)
      modifies this`nextFree
      ensures wait == WaitFor(old(nextFree), host, now)
      ensures nextFree == old(nextFree)[host := now + wait + gap]
    {
      wait := 0;
      if host in nextFree && nextFree[host] > now {
        wait := nextFree[host] - now;
      }
      nextFree := nextFree[host := now + wait + gap];
    }

    /** Waits for the host and tells which slot that was. */
    method TakeSlot(host: string, now: int, ghost book: Book) returns (slot: Slot)
      requires book.gap == gap && book.nextFree == nextFree
      modifies this`nextFree
      ensures var after := Reserve(book, Ask(host, now));
              after.gap == gap && after.nextFree == nextFree && after.Of(host) == book.Of(host) + [slot]
    {
      var wait := WaitForHost(host, now);
      slot := Slot(now, now + wait);
    }

    /** The reservations are those of n attempts at the host, which got these slots. */
    ghost predicate Booked(start: Book, host: string, tries: seq<Try>, n: nat, slots: seq<Slot>)
      requires n <= |tries|
      reads this
    {
      var b := Attempts(start, host, tries, n);
      b.gap == gap && b.nextFree == nextFree && b.Of(host) == slots
    }

    /** Takes the slot of attempt n. */
    method TakeNth(host: string, tries: seq<Try>, n: nat, ghost start: Book, ghost slots: seq<Slot>) returns (slot: Slot)
      requires n < |tries| && Booked(start, host, tries, n, slots)
      modifies this`nextFree
      ensures Booked(start, host, tries, n + 1, slots + [slot])
    {
      slot := TakeSlot(host, tries[n].now, Attempts(start, host, tries, n));
    }

    /**
     * Downloads with retries. Every attempt that gets past its pause takes a slot, and one that gets past
     * its wait asks the host; the loop ends at the first answer that is not a temporary failure.
     */
    method Fetch(host: string, tries: seq<Try>) returns (last: Verdict, slots: seq<Slot>, pauses: seq<int>)
      requires gap > 0 && maxRetries >= 0 && |tries| == maxRetries + 1
      modifies this`nextFree
      ensures EndsRight(last, slots, |pauses|, tries) && pauses == Pauses(gap, |pauses|)
      ensures Booked(Book(gap, old(nextFree), map[]), host, tries, |slots|, slots)
    {
      slots, pauses := [], [];
      last := Temporary;
      var attempt := 0;
      ghost var start := Book(gap, nextFree, map[]);
      while attempt <= maxRetries
        invariant 0 <= attempt <= maxRetries + 1
        invariant |slots| == attempt && |pauses| == (if attempt == 0 then 0 else attempt - 1)
        invariant pauses == Pauses(gap, |pauses|)
        invariant last == Temporary && AllRetried(slots, attempt, tries)
        invariant Booked(start, host, tries, attempt, slots)
      {
        if attempt > 0 {
          pauses := pauses + [Pause(gap, attempt)];
          if tries[attempt].stop == InPause {
            return Cancelled, slots, pauses;
          }
        }
        var slot := TakeNth(host, tries, attempt, start, slots);
        RetriedOnce(slots, slot, tries);
        slots := slots + [slot];
        if tries[attempt].stop == InWait && slot.granted > slot.asked {
          return Cancelled, slots, pauses;
        }
        last := tries[attempt].answer;
        attempt := attempt + 1;
        if last != Temporary {
          return;
        }
      }
    }
  }

  // ------------------------------------------------------------ any sequence of requests

  /** A request: the host and the clock reading under the lock. Readings of different requests are unrelated. */
  datatype Ask = Ask(host: string, now: int)

  /** The reservation table and the slots granted so far, by host. */
  datatype Book = Book(gap: int, nextFree: map<string, int>, slots: map<string, seq<Slot>>)
  {
    function Of(host: string): seq<Slot> {
      if host in slots then slots[host] else []
    }
  }

  function Reserve(b: Book, a: Ask): Book {
    var at := a.now + WaitFor(b.nextFree, a.host, a.now);
    Book(b.gap, b.nextFree[a.host := at + b.gap], b.slots[a.host := b.Of(a.host) + [Slot(a.now, at)]])
  }

  /** The reservations of n attempts at one host. */
  function Attempts(b: Book, host: string, tries: seq<Try>, n: nat): Book
    requires n <= |tries|
  {
    if n == 0 then b else Reserve(Attempts(b, host, tries, n - 1), Ask(host, tries[n - 1].now))
  }

  /** The slots granted to one host, in order, by a client that starts without reservations. */
  function Granted(gap: int, asks: seq<Ask>, host: string): seq<Slot> {
    Final(Book(gap, map[], map[]), Reserve, asks).Of(host)
  }

  predicate Follows(before: Slot, s: Slot, gap: int) {
    s.granted >= before.granted + gap && (s.granted == s.asked || s.granted == before.granted + gap)
  }

  /** No slot is before its request; each is immediate or exactly one gap after the one before. */
  ghost predicate Spaced(slots: seq<Slot>, gap: int) {
    && (forall k :: 0 <= k < |slots| ==> slots[k].granted >= slots[k].asked)
    && (forall j, k :: 0 <= j < k < |slots| && k == j + 1 ==> Follows(slots[j], slots[k], gap))
    && (slots != [] ==> slots[0].granted == slots[0].asked)
  }

  /** A host's reservation is one gap after its last slot. */
  ghost predicate Tracks(b: Book, host: string) {
    var mine := b.Of(host);
    && Spaced(mine, b.gap)
    && (host in b.nextFree <==> mine != [])
    && (mine != [] ==> b.nextFree[host] == mine[|mine| - 1].granted + b.gap)
  }

  lemma ReserveKeepsTrack(b: Book, a: Ask, host: string)
    requires Tracks(b, host)
    ensures Tracks(Reserve(b, a), host)
  {
  }

  /** For any interleaving of requests to any hosts and any clock readings, every host's slots are spaced. */
  lemma {:induction false} SlotsAreSpaced(gap: int, asks: seq<Ask>, host: string)
    ensures Tracks(Final(Book(gap, map[], map[]), Reserve, asks), host)
    ensures Final(Book(gap, map[], map[]), Reserve, asks).gap == gap
    ensures Spaced(Granted(gap, asks, host), gap)
  {
    if asks != [] {
      SlotsAreSpaced(gap, asks[..|asks| - 1], host);
      ReserveKeepsTrack(Final(Book(gap, map[], map[]), Reserve, asks[..|asks| - 1]), asks[|asks| - 1], host);
    }
  }

  /** The i-th and j-th slots of a host are at least (j-i) gaps apart. */
  lemma {:induction false} SlotDistance(slots: seq<Slot>, gap: int, i: nat, j: nat)
    requires Spaced(slots, gap) && i <= j < |slots|
    ensures slots[j].granted >= slots[i].granted + (j - i) * gap
  {
    if i < j {
      SlotDistance(slots, gap, i, j - 1);
      assert Follows(slots[j - 1], slots[j], gap);
      assert (j - i) * gap == (j - 1 - i) * gap + gap;
    }
  }

  /**
   * Rate limit: consecutive slots of one host that lie within a window of length T number at most
   * floor(T/gap)+1.
   */
  lemma WindowBound(gap: int, asks: seq<Ask>, host: string, i: nat, n: nat, window: nat)
    requires gap > 0 && n > 0 && i + n <= |Granted(gap, asks, host)|
    requires Granted(gap, asks, host)[i + n - 1].granted - Granted(gap, asks, host)[i].granted <= window
    ensures n <= window / gap + 1
  {
    SlotsAreSpaced(gap, asks, host);
    SlotDistance(Granted(gap, asks, host), gap, i, i + n - 1);
    GapsFit(n - 1, gap, window);
  }

  lemma GapsFit(n: nat, gap: nat, window: nat)
    requires gap > 0 && n * gap <= window
    ensures n <= window / gap
  {
    assert window < (window / gap + 1) * gap;
    MulCancel(n, window / gap + 1, gap);
  }

  function AsksOf(asks: seq<Ask>, host: string): seq<Ask> {
    if asks == [] then []
    else AsksOf(asks[..|asks| - 1], host) + if asks[|asks| - 1].host == host then [asks[|asks| - 1]] else []
  }

  predicate SameFor(b: Book, alone: Book, host: string) {
    && b.gap == alone.gap && b.Of(host) == alone.Of(host)
    && (host in b.nextFree <==> host in alone.nextFree)
    && (host in b.nextFree ==> b.nextFree[host] == alone.nextFree[host])
  }

  lemma ReserveSame(b: Book, alone: Book, a: Ask, host: string)
    requires SameFor(b, alone, host)
    ensures SameFor(Reserve(b, a), if a.host == host then Reserve(alone, a) else alone, host)
  {
  }

  /** Hosts do not affect each other: a host's slots are those it would get if it were alone. */
  lemma {:induction false} HostsAreIndependent(gap: int, asks: seq<Ask>, host: string)
    ensures SameFor(Final(Book(gap, map[], map[]), Reserve, asks),
                    Final(Book(gap, map[], map[]), Reserve, AsksOf(asks, host)), host)
    ensures Granted(gap, asks, host) == Granted(gap, AsksOf(asks, host), host)
  {
    if asks != [] {
      var start := Book(gap, map[], map[]);
      var rest, last := asks[..|asks| - 1], asks[|asks| - 1];
      HostsAreIndependent(gap, rest, host);
      ReserveSame(Final(start, Reserve, rest), Final(start, Reserve, AsksOf(rest, host)), last, host);
      if last.host == host {
        assert AsksOf(asks, host)[..|AsksOf(rest, host)|] == AsksOf(rest, host);
      } else {
        assert AsksOf(asks, host) == AsksOf(rest, host);
      }
    }
  }
}
