/**
 * internal/scraper/wildberries.go and pool.go: from a shop's answer to the observation core is asked to
 * record.
 */
module Scraping {
  import opened Prelude
  import opened DomainMoney
  import opened Alerts
  import opened Store

  datatype PriceBlock = PriceBlock(basic: int, product: int, total: int)

  /** One purchasable variant: its stocks in the warehouses and its price, if published. */
  datatype Size = Size(stocks: seq<int>, price: Option<PriceBlock>)

  predicate Available(s: Size) {
    exists i :: 0 <= i < |s.stocks| && s.stocks[i] > 0
  }

  /** What a customer pays, falling back from the product price to the total and the basic one; 0 if none. */
  function Payable(s: Size): (p: int)
    ensures p >= 0
  {
    if s.price.None? then 0
    else if s.price.value.product > 0 then s.price.value.product
    else if s.price.value.total > 0 then s.price.value.total
    else if s.price.value.basic > 0 then s.price.value.basic
    else 0
  }

  predicate Buyable(s: Size) {
    Available(s) && Payable(s) > 0
  }

  /** The cheapest size that can be bought, or else the cheapest that is priced at all. */
  predicate IsBest(sizes: seq<Size>, best: int, inStock: bool) {
    && (inStock <==> exists s :: s in sizes && Buyable(s))
    && (inStock ==>
          && (exists s :: s in sizes && Buyable(s) && Payable(s) == best)
          && (forall s :: s in sizes && Buyable(s) ==> best <= Payable(s)))
    && (!inStock ==> IsCheapest(sizes, best))
  }

  predicate IsCheapest(sizes: seq<Size>, best: int) {
    && (best == 0 <==> forall s :: s in sizes ==> Payable(s) == 0)
    && (best != 0 ==>
          && (exists s :: s in sizes && Payable(s) == best)
          && (forall s :: s in sizes && Payable(s) > 0 ==> best <= Payable(s)))
  }

  method IsAvailable(s: Size) returns (available: bool)
    ensures available <==> Available(s)
  {
    for i := 0 to |s.stocks|
      invariant forall j :: 0 <= j < i ==> s.stocks[j] <= 0
    {
      if s.stocks[i] > 0 {
        return true;
      }
    }
    return false;
  }

  method BestPrice(sizes: seq<Size>) returns (best: int, inStock: bool)
    ensures IsBest(sizes, best, inStock)
  {
    best, inStock := 0, false;
    var cheapestAnywhere := 0;
    for i := 0 to |sizes|
      invariant inStock <==> exists j :: 0 <= j < i && Buyable(sizes[j])
      invariant inStock ==> exists j :: 0 <= j < i && Buyable(sizes[j]) && Payable(sizes[j]) == best
      invariant inStock ==> forall j :: 0 <= j < i && Buyable(sizes[j]) ==> best <= Payable(sizes[j])
      invariant !inStock ==> best == 0
      invariant cheapestAnywhere == 0 <==> forall j :: 0 <= j < i ==> Payable(sizes[j]) == 0
      invariant cheapestAnywhere != 0 ==> exists j :: 0 <= j < i && Payable(sizes[j]) == cheapestAnywhere
      invariant cheapestAnywhere != 0 ==> forall j :: 0 <= j < i && Payable(sizes[j]) > 0 ==> cheapestAnywhere <= Payable(sizes[j])
    {
      var available := IsAvailable(sizes[i]);
      var price := Payable(sizes[i]);
      if price > 0 {
        if available {
          inStock := true;
          if best == 0 || price < best {
            best := price;
          }
        }
        if cheapestAnywhere == 0 || price < cheapestAnywhere {
          cheapestAnywhere := price;
        }
      }
    }
    if best == 0 {
      best := cheapestAnywhere;
    }
  }

  datatype Observation = Observation(price: Option<Money>, inStock: bool, title: string)

  datatype NoObservation = NoPrice

  /** The case split of the adapter on the best price it found. */
  function Observe(best: int, inStock: bool, title: string): Result<Observation, NoObservation> {
    if best == 0 then
      if inStock then Err(NoPrice) else Ok(Observation(None, false, title))
    else Ok(Observation(Some(Money(best, "RUB")), inStock, title))
  }

  /** The pool's request to core: a price only when it is positive, a conversion only with a price. */
  function RequestFor(item: Id, o: Observation, converted: Option<Money>, at: int): SnapshotInput {
    var priced := o.price.Some? && o.price.value.amount > 0;
    SnapshotInput(item, if priced then o.price else None, if priced then converted else None, o.inStock, Some(at), o.title)
  }

  /** Some warehouse has the size. */
  predicate InStock(s: Size) {
    exists q :: q in s.stocks && q > 0
  }

  /** The size costs p: its product price, or else its total, or else its basic price, whichever is positive first. */
  predicate Costs(s: Size, p: int) {
    && s.price.Some? && p > 0
    && var b := s.price.value;
       if b.product > 0 then p == b.product else if b.total > 0 then p == b.total else p == b.basic
  }

  lemma CostsIsPayable(s: Size, p: int)
    ensures Costs(s, p) <==> p > 0 && Payable(s) == p
  {
  }

  lemma InStockIsAvailable(s: Size)
    ensures InStock(s) <==> Available(s)
  {
    if Available(s) {
      var i :| 0 <= i < |s.stocks| && s.stocks[i] > 0;
      assert s.stocks[i] in s.stocks;
    }
  }

  /** The lowest price among the sizes, or among those in stock only. */
  predicate Cheapest(sizes: seq<Size>, p: int, inStock: bool) {
    && (exists s :: s in sizes && Costs(s, p) && (inStock ==> InStock(s)))
    && (forall s :: s in sizes && Payable(s) > 0 && (inStock ==> InStock(s)) ==> p <= Payable(s))
  }

  /**
   * What the adapter reports: in stock exactly when some size is in stock and has a price, then at the lowest
   * price of those; out of stock at the lowest price there is, or without a price when there is none. The
   * price is in roubles. Core is asked to record just that, a conversion only along with a price.
   */
  lemma AdapterReports(sizes: seq<Size>, best: int, inStock: bool, title: string, item: Id, converted: Option<Money>, at: int)
    requires IsBest(sizes, best, inStock)
    ensures Observe(best, inStock, title).Ok?
    ensures var o := Observe(best, inStock, title).value;
            && o.title == title
            && (o.inStock <==> exists s :: s in sizes && InStock(s) && Payable(s) > 0)
            && (o.price.None? <==> forall s :: s in sizes ==> Payable(s) == 0)
            && (o.price.Some? ==> o.price.value.currency == "RUB" && Cheapest(sizes, o.price.value.amount, o.inStock))
    ensures var o := Observe(best, inStock, title).value;
            RequestFor(item, o, converted, at)
            == SnapshotInput(item, o.price, if o.price.Some? then converted else None, o.inStock, Some(at), title)
  {
    forall s | s in sizes
      ensures InStock(s) <==> Available(s)
    {
      InStockIsAvailable(s);
    }
    if exists s :: s in sizes && Payable(s) > 0 && Payable(s) == best && (inStock ==> InStock(s)) {
      var s :| s in sizes && Payable(s) > 0 && Payable(s) == best && (inStock ==> InStock(s));
      CostsIsPayable(s, best);
    }
  }

  /**
   * The adapter never fails on a readable answer: its "in stock but priced nowhere" branch cannot be taken.
   * Core then stores the observation of an item it knows, unless no size has a price and there is no earlier
   * snapshot to carry a price over from.
   */
  lemma AdapterToCore(sizes: seq<Size>, best: int, inStock: bool, title: string, converted: Option<Money>,
                      db: Db, item: Id, at: int, id: Id, previous: Option<Snapshot>)
    requires IsBest(sizes, best, inStock) && Known(db, item)
    requires converted.Some? ==> IsCurrencyCode(converted.value.currency) && converted.value.amount >= 0
    ensures Observe(best, inStock, title).Ok?
    ensures Observe(best, inStock, title).value.inStock <==> exists s :: s in sizes && Buyable(s)
    ensures Record(db, at, RequestFor(item, Observe(best, inStock, title).value, converted, at), id, previous).1.Ok?
            <==> previous.Some? || exists s :: s in sizes && Payable(s) > 0
  {
    if inStock {
      var s :| s in sizes && Buyable(s) && Payable(s) == best;
    }
  }
}
