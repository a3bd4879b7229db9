/** internal/core/alerts.go: which alerts an observation triggers, and the identity of an alert. */
module Alerts {
  import opened Prelude
  import opened Text
  import opened Strings
  import opened DomainMoney

  type Id = string

  datatype Kind = PriceDrop | BackInStock | OutOfStock | AllTimeLow | ScrapeDegraded

  function KindName(k: Kind): string {
    match k
    case PriceDrop => "price_drop"
    case BackInStock => "back_in_stock"
    case OutOfStock => "out_of_stock"
    case AllTimeLow => "all_time_low"
    case ScrapeDegraded => "scrape_degraded"
  }

  /** One observation of a product page. */
  datatype Snapshot = Snapshot(
    id: Id, price: Money, converted: Option<Money>, inStock: bool, observedAt: int)

  datatype Alert = Alert(
    kind: Kind, item: Id, user: Id,
    price: Option<Money>, previousPrice: Option<Money>,
    originalPrice: Option<Money>, targetPrice: Option<Money>,
    key: string)

  datatype AlertInput = AlertInput(
    item: Id, user: Id, target: Option<Money>,
    previous: Option<Snapshot>, allTimeMin: Option<Money>, observed: Snapshot)

  // ------------------------------------------------------------ identity

  /** The part of a dedup key that names the kind and the item. */
  function KeyPrefix(kind: Kind, item: Id): string {
    KindName(kind) + ":" + item + ":"
  }

  function DedupKey(kind: Kind, item: Id, discriminator: string): string {
    KeyPrefix(kind, item) + discriminator
  }

  /** A price as the discriminator of a price alert: `%d%s`. */
  function PriceTag(m: Money): string {
    (if m.amount < 0 then "-" + Decimal(0 - m.amount) else Decimal(m.amount)) + m.currency
  }

  lemma KindNamesDiffer(k: Kind, l: Kind)
    ensures ':' !in KindName(k)
    ensures KindName(k) == KindName(l) ==> k == l
  {
    assert KindName(k)[0] == KindName(l)[0] ==> k == l || {k, l} == {OutOfStock} by {
      assert KindName(PriceDrop)[0] == 'p' && KindName(BackInStock)[0] == 'b' && KindName(OutOfStock)[0] == 'o';
      assert KindName(AllTimeLow)[0] == 'a' && KindName(ScrapeDegraded)[0] == 's';
    }
  }

  /** Two texts that agree up to and including the first colon. */
  lemma CutAtColon(a: string, x: string, b: string, y: string)
    requires ':' !in a && ':' !in b && a + ":" + x == b + ":" + y
    ensures a == b && x == y
  {
    IndexAfter(a, ':', x);
    IndexAfter(b, ':', y);
    var s := a + ":" + x;
    assert s[..|a|] == a && s[|a| + 1..] == x;
    assert s == b + ":" + y;
    assert s[..|b|] == b && s[|b| + 1..] == y;
  }

  /** The dedup key determines the kind, the item and the discriminator. */
  lemma DedupKeyInjective(k: Kind, item: Id, d: string, k': Kind, item': Id, d': string)
    requires ':' !in item && ':' !in item'
    requires DedupKey(k, item, d) == DedupKey(k', item', d')
    ensures k == k' && item == item' && d == d'
  {
    KindNamesDiffer(k, k');
    KindNamesDiffer(k', k);
    assert DedupKey(k, item, d) == KindName(k) + ":" + (item + ":" + d);
    assert DedupKey(k', item', d') == KindName(k') + ":" + (item' + ":" + d');
    CutAtColon(KindName(k), item + ":" + d, KindName(k'), item' + ":" + d');
    CutAtColon(item, d, item', d');
  }

  /** A price tag determines the price. */
  lemma PriceTagInjective(m: Money, n: Money)
    requires m.amount >= 0 && n.amount >= 0
    requires IsCurrencyCode(m.currency) && IsCurrencyCode(n.currency)
    requires PriceTag(m) == PriceTag(n)
    ensures m == n
  {
    assert IsUpper(m.currency[0]) && IsUpper(n.currency[0]);
    DigitPrefixUnique(Decimal(m.amount), Decimal(n.amount), m.currency, n.currency);
    ValueOfDecimal(m.amount);
    ValueOfDecimal(n.amount);
  }

  predicate IsPriceKind(k: Kind) {
    k == PriceDrop || k == AllTimeLow
  }

  predicate ProperPrice(m: Money) {
    m.amount >= 0 && IsCurrencyCode(m.currency)
  }

  /** The key of an alert starts with its kind and item, and a price alert is keyed by its price. */
  ghost predicate WellKeyed(a: Alert) {
    && ':' !in a.item
    && KeyPrefix(a.kind, a.item) <= a.key
    && (IsPriceKind(a.kind) ==>
          && a.price.Some? && ProperPrice(a.price.value)
          && a.key == DedupKey(a.kind, a.item, PriceTag(a.price.value)))
  }

  /** Equal keys mean the same kind of alert about the same item and, for price alerts, at the same price. */
  lemma KeyIdentifies(a: Alert, b: Alert)
    requires WellKeyed(a) && WellKeyed(b) && a.key == b.key
    ensures a.kind == b.kind && a.item == b.item
    ensures IsPriceKind(a.kind) ==> a.price == b.price
  {
    var d, d' := a.key[|KeyPrefix(a.kind, a.item)|..], b.key[|KeyPrefix(b.kind, b.item)|..];
    assert a.key == DedupKey(a.kind, a.item, d) && b.key == DedupKey(b.kind, b.item, d');
    DedupKeyInjective(a.kind, a.item, d, b.kind, b.item, d');
    if IsPriceKind(a.kind) {
      DedupKeyInjective(a.kind, a.item, PriceTag(a.price.value), b.kind, b.item, PriceTag(b.price.value));
      PriceTagInjective(a.price.value, b.price.value);
    }
  }

  // ------------------------------------------------------------ the decision

  /** The snapshot's price in a wanted currency: the shop's own, or the converted one. */
  function PriceIn(s: Snapshot, want: Currency): Option<Money> {
    if s.price.currency == want then Some(s.price)
    else if s.converted.Some? && s.converted.value.currency == want then Some(s.converted.value)
    else None
  }

  function OriginalPrice(shop: Money, stated: Money): Option<Money> {
    if shop.currency == stated.currency then None else Some(shop)
  }

  function PreviousPriceIn(s: Option<Snapshot>, want: Currency): Option<Money> {
    if s.None? then None else PriceIn(s.value, want)
  }

  function StockAlerts(i: AlertInput): seq<Alert> {
    if i.previous.Some? && i.observed.inStock != i.previous.value.inStock then
      var kind := if i.observed.inStock then BackInStock else OutOfStock;
      [Alert(kind, i.item, i.user, Some(i.observed.price), Some(i.previous.value.price), None, None,
             DedupKey(kind, i.item, i.observed.id))]
    else []
  }

  /** The price crossed the target downwards: now at or below it, not known to have been so before. */
  predicate Crossed(previous: Option<Snapshot>, target: Money, current: Money) {
    && current.amount <= target.amount
    && (previous.Some? && PriceIn(previous.value, target.currency).Some?
        ==> PriceIn(previous.value, target.currency).value.amount > target.amount)
  }

  function DropAlerts(i: AlertInput): seq<Alert> {
    if i.target.None? then []
    else
      var target := i.target.value;
      match PriceIn(i.observed, target.currency)
      case None => []
      case Some(current) =>
        if Crossed(i.previous, target, current) then
          [Alert(PriceDrop, i.item, i.user, Some(current), PreviousPriceIn(i.previous, target.currency),
                 OriginalPrice(i.observed.price, current), Some(target),
                 DedupKey(PriceDrop, i.item, PriceTag(current)))]
        else []
  }

  function LowAlerts(i: AlertInput): seq<Alert> {
    if && i.allTimeMin.Some?
       && i.allTimeMin.value.currency == i.observed.price.currency
       && i.observed.price.amount < i.allTimeMin.value.amount
    then
      [Alert(AllTimeLow, i.item, i.user, Some(i.observed.price), i.allTimeMin, None, None,
             DedupKey(AllTimeLow, i.item, PriceTag(i.observed.price)))]
    else []
  }

  /** Alerts in delivery order: stock first, then, for an available product, the price alerts. */
  function DecideAlerts(i: AlertInput): seq<Alert> {
    if i.observed.inStock then StockAlerts(i) + DropAlerts(i) + LowAlerts(i) else StockAlerts(i)
  }

  const FAILURE_STREAK_THRESHOLD: nat := 5

  function DecideFailureAlert(item: Id, user: Id, streak: nat, threshold: int): seq<Alert> {
    if threshold <= 0 || streak != threshold then []
    else [Alert(ScrapeDegraded, item, user, None, None, None, None,
                DedupKey(ScrapeDegraded, item, "streak" + Decimal(streak)))]
  }

  predicate ProperSnapshot(s: Snapshot) {
    ProperPrice(s.price) && (s.converted.Some? ==> ProperPrice(s.converted.value))
  }

  lemma PartsAreWellKeyed(i: AlertInput)
    requires ':' !in i.item && ProperSnapshot(i.observed)
    ensures forall a :: a in StockAlerts(i) ==>
              a.item == i.item && WellKeyed(a) && (a.kind == BackInStock || a.kind == OutOfStock)
    ensures forall a :: a in DropAlerts(i) ==> a.item == i.item && WellKeyed(a) && a.kind == PriceDrop
    ensures forall a :: a in LowAlerts(i) ==> a.item == i.item && WellKeyed(a) && a.kind == AllTimeLow
    ensures |StockAlerts(i)| <= 1 && |DropAlerts(i)| <= 1 && |LowAlerts(i)| <= 1
  {
  }

  predicate DistinctKinds(alerts: seq<Alert>) {
    forall m, n :: 0 <= m < n < |alerts| ==> alerts[m].kind != alerts[n].kind
  }

  /** Alerts decided together concern the item, are well keyed, and no two are of one kind. */
  lemma DecidedAreDistinct(i: AlertInput)
    requires ':' !in i.item && ProperSnapshot(i.observed)
    ensures forall a :: a in DecideAlerts(i) ==> a.item == i.item && WellKeyed(a) && a.kind != ScrapeDegraded
    ensures DistinctKinds(DecideAlerts(i))
  {
    PartsAreWellKeyed(i);
    DistinctConcat(StockAlerts(i), DropAlerts(i));
    DistinctConcat(StockAlerts(i) + DropAlerts(i), LowAlerts(i));
  }

  lemma DistinctConcat(a: seq<Alert>, b: seq<Alert>)
    requires DistinctKinds(a) && DistinctKinds(b)
    requires forall x, y :: x in a && y in b ==> x.kind != y.kind
    ensures DistinctKinds(a + b)
  {
    forall m, n | 0 <= m < n < |a + b|
      ensures (a + b)[m].kind != (a + b)[n].kind
    {
      assert m < |a| ==> (a + b)[m] == a[m];
      assert n >= |a| ==> (a + b)[n] == b[n - |a|];
    }
  }

  /** The key of an alert about an observation, spelled out. */
  predicate Spelled(a: Alert, snapshot: Id) {
    match a.kind
    case BackInStock => a.key == "back_in_stock" + ":" + a.item + ":" + snapshot
    case OutOfStock => a.key == "out_of_stock" + ":" + a.item + ":" + snapshot
    case PriceDrop => a.price.Some? && a.key == "price_drop" + ":" + a.item + ":" + PriceTag(a.price.value)
    case AllTimeLow => a.price.Some? && a.key == "all_time_low" + ":" + a.item + ":" + PriceTag(a.price.value)
    case ScrapeDegraded => false
  }

  lemma PartsAreSpelled(i: AlertInput)
    ensures forall a :: a in StockAlerts(i) ==> Spelled(a, i.observed.id)
    ensures forall a :: a in DropAlerts(i) ==> Spelled(a, i.observed.id)
    ensures forall a :: a in LowAlerts(i) ==> Spelled(a, i.observed.id)
  {
  }

  /** Keys are spelled as documented: kind, item and discriminator, the last being the snapshot or the price. */
  lemma KeysAreSpelled(i: AlertInput, a: Alert)
    requires a in DecideAlerts(i)
    ensures Spelled(a, i.observed.id)
  {
    PartsAreSpelled(i);
  }

  /** A price tag is the digits of the amount, then the currency. */
  lemma PriceTagIsSpelled(m: Money)
    requires m.amount >= 0
    ensures exists digits :: PriceTag(m) == digits + m.currency && AllDigits(digits) && Value(digits) == m.amount
  {
    ValueOfDecimal(m.amount);
    assert PriceTag(m) == Decimal(m.amount) + m.currency;
  }

  lemma DegradedKeyIsSpelled(item: Id, user: Id, a: Alert)
    requires a in DecideFailureAlert(item, user, 5, 5)
    ensures a.kind == ScrapeDegraded && a.key == "scrape_degraded:" + item + ":streak5"
  {
    assert Decimal(5) == "5";
    assert "streak" + "5" == "streak5";
  }
}
