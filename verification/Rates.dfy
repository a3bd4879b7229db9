/** internal/currency/rates.go: fixed-point rates, cross rates and their application to amounts. */
module Rates {
  import opened Prelude
  import opened Text
  import opened DomainMoney

  /** The fixed-point scale of every rate. */
  const RATE_SCALE: nat := 100_000_000

  datatype RateError = UnsupportedPair | NonPositiveAmount | InvalidRate | Overflow | RoundsToZero

  /** A provider snapshot: every rate relative to one base currency. */
  datatype Table = Table(base: Currency, rates: map<Currency, int>)
  {
    function RateFromBase(c: Currency): (r: Result<int, RateError>)
      ensures r.Ok? ==> r.value > 0
    {
      if c == base then Ok(RATE_SCALE)
      else if c !in rates || rates[c] <= 0 then Err(UnsupportedPair)
      else Ok(rates[c])
    }

    /** The from-to rate, derived from the two rates against the base. */
    function Cross(from: Currency, to: Currency): Result<int, RateError> {
      if from == to then Ok(RATE_SCALE)
      else
        match RateFromBase(from)
        case Err(e) => Err(e)
        case Ok(fromRate) =>
          match RateFromBase(to)
          case Err(e) => Err(e)
          case Ok(toRate) =>
            var q := RoundedQuotient(toRate * RATE_SCALE, fromRate);
            if !FitsInt64(q) || q <= 0 then Err(UnsupportedPair) else Ok(q)
    }
  }

  /** Quotient and remainder, rounded up when twice the remainder reaches the divisor. */
  function RoundedQuotient(n: nat, d: nat): nat
    requires d > 0
  {
    var q, r := Quot(n, d), Rem(n, d);
    if 2 * r >= d then q + 1 else q
  }

  /** One directed conversion factor. */
  datatype Rate = Rate(from: Currency, to: Currency, rateE8: int)
  {
    function Apply(amount: int): Result<int, RateError> {
      if amount <= 0 then Err(NonPositiveAmount)
      else if rateE8 <= 0 then Err(InvalidRate)
      else
        var q := RoundedQuotient(amount * rateE8 * Pow10(MinorUnits(to)), RATE_SCALE * Pow10(MinorUnits(from)));
        if !FitsInt64(q) then Err(Overflow)
        else if q <= 0 then Err(RoundsToZero)
        else Ok(q)
    }
  }

  // ------------------------------------------------------------ one rounding

  /** |x - num/den| <= slack/den, stated without division. */
  predicate Within(x: int, num: int, den: int, slack: int) {
    -slack <= x * den - num <= slack
  }

  lemma RoundedQuotientIsHalfUp(n: nat, d: nat)
    requires d > 0
    ensures RoundedQuotient(n, d) == HalfUp(n, d)
    ensures Within(RoundedQuotient(n, d), 2 * n, 2 * d, d)
  {
    var q, r := Quot(n, d), Rem(n, d);
    var k := RoundedQuotient(n, d);
    NextMultiple(q, d);
    assert k * d == if k == q then q * d else q * d + d;
    DoubleProduct(k, d);
    HalfUpUnique(n, d, k);
  }

  lemma NextMultiple(q: int, d: int)
    ensures (q + 1) * d == q * d + d
  {
  }

  lemma DoubleProduct(k: int, d: int)
    ensures 2 * k * d == 2 * (k * d) == k * (2 * d)
  {
  }

  lemma HalfUpMonotone(m: nat, n: nat, d: nat)
    requires d > 0 && m <= n
    ensures HalfUp(m, d) <= HalfUp(n, d)
  {
    DivMonotone(2 * m + d, 2 * n + d, 2 * d);
  }

  lemma DivMonotone(m: nat, n: nat, e: nat)
    requires e > 0 && m <= n
    ensures m / e <= n / e
  {
    var j, k := m / e, n / e;
    assert j * e <= m && n < k * e + e;
    assert (k + 1) * e == k * e + e;
    MulCancel(j, k + 1, e);
  }

  // ------------------------------------------------------------ applying a rate

  /** The exact product in units of the smallest slice of the target currency, before rounding. */
  function Scaled(r: Rate, amount: nat): (n: int)
    requires r.rateE8 >= 0
    ensures n >= 0
  {
    amount * r.rateE8 * Pow10(MinorUnits(r.to))
  }

  function Divisor(r: Rate): (d: nat)
    ensures d > 0
  {
    RATE_SCALE * Pow10(MinorUnits(r.from))
  }

  /** Applying a positive rate to a positive amount succeeds exactly when the half-up value is a positive int64. */
  lemma ApplyExact(r: Rate, amount: int)
    requires amount > 0 && r.rateE8 > 0
    ensures var v := HalfUp(Scaled(r, amount), Divisor(r));
            && (r.Apply(amount).Ok? <==> 1 <= v <= MAX_INT64)
            && (r.Apply(amount).Ok? ==> r.Apply(amount).value == v)
            && (v == 0 ==> r.Apply(amount) == Err(RoundsToZero))
            && (v > MAX_INT64 ==> r.Apply(amount) == Err(Overflow))
  {
    RoundedQuotientIsHalfUp(Scaled(r, amount), Divisor(r));
  }

  lemma MulMonotone(a: nat, b: nat, x: nat, y: nat)
    requires a <= b && x <= y
    ensures a * x <= b * y
  {
    assert a * x <= b * x;
    assert b * x <= b * y;
  }

  /** A larger amount at a better rate never converts to less. */
  lemma ApplyMonotone(r: Rate, better: Rate, amount: int, larger: int)
    requires r.from == better.from && r.to == better.to
    requires r.rateE8 <= better.rateE8 && amount <= larger
    requires r.Apply(amount).Ok? && better.Apply(larger).Ok?
    ensures r.Apply(amount).value <= better.Apply(larger).value
  {
    ApplyExact(r, amount);
    ApplyExact(better, larger);
    MulMonotone(amount, larger, r.rateE8, better.rateE8);
    var p := Pow10(MinorUnits(r.to));
    MulMonotone(amount * r.rateE8, larger * better.rateE8, p, p);
    HalfUpMonotone(Scaled(r, amount), Scaled(better, larger), Divisor(r));
  }

  /** Converting a currency into itself changes nothing. */
  lemma ApplyIdentity(c: Currency, t: Table, amount: int)
    requires 0 < amount <= MAX_INT64
    ensures t.Cross(c, c) == Ok(RATE_SCALE)
    ensures Rate(c, c, RATE_SCALE).Apply(amount) == Ok(amount)
  {
    var r := Rate(c, c, RATE_SCALE);
    var p := Pow10(MinorUnits(c));
    var d := Divisor(r);
    assert Scaled(r, amount) == amount * d by {
      assert amount * RATE_SCALE * p == amount * (RATE_SCALE * p);
    }
    assert 2 * amount * d == 2 * (amount * d);
    HalfUpUnique(amount * d, d, amount);
    ApplyExact(r, amount);
  }

  // ------------------------------------------------------------ cross rates

  /** A derived rate is the ratio of the two table rates, correct to half a unit of the last place. */
  lemma CrossBound(t: Table, from: Currency, to: Currency)
    requires from != to && t.Cross(from, to).Ok?
    ensures t.RateFromBase(from).Ok? && t.RateFromBase(to).Ok?
    ensures var a, b := t.RateFromBase(from).value, t.RateFromBase(to).value;
            && t.Cross(from, to).value > 0
            && Within(t.Cross(from, to).value, 2 * b * RATE_SCALE, 2 * a, a)
  {
    var a, b := t.RateFromBase(from).value, t.RateFromBase(to).value;
    RoundedQuotientIsHalfUp(b * RATE_SCALE, a);
    assert 2 * (b * RATE_SCALE) == 2 * b * RATE_SCALE;
  }

  lemma ApplyBound(r: Rate, amount: int)
    requires r.Apply(amount).Ok?
    ensures amount > 0 && r.rateE8 > 0
    ensures Within(r.Apply(amount).value, 2 * Scaled(r, amount), 2 * Divisor(r), Divisor(r))
  {
    ApplyExact(r, amount);
    RoundedQuotientIsHalfUp(Scaled(r, amount), Divisor(r));
  }

  /** Scaling an error bound. */
  lemma WithinScaled(x: int, num: int, den: int, slack: int, k: nat)
    requires Within(x, num, den, slack)
    ensures -(slack * k) <= (x * den - num) * k <= slack * k
  {
    var e := x * den - num;
    assert e * k <= slack * k;
    assert -slack * k <= e * k;
  }

  /**
   * The two rounding stages together. For table rates a (from) and b (to) and decimal scales
   * f (from) and g (to): |result - amount*(b/a)*(g/f)| <= 1/2 + amount*(g/f)/(2*RATE_SCALE).
   */
  lemma TwoStageBound(t: Table, from: Currency, to: Currency, amount: int)
    requires from != to && t.Cross(from, to).Ok?
    requires Rate(from, to, t.Cross(from, to).value).Apply(amount).Ok?
    ensures t.RateFromBase(from).Ok? && t.RateFromBase(to).Ok?
    ensures var a, b := t.RateFromBase(from).value, t.RateFromBase(to).value;
            var f, g := Pow10(MinorUnits(from)), Pow10(MinorUnits(to));
            var result := Rate(from, to, t.Cross(from, to).value).Apply(amount).value;
            Within(result, 2 * (amount * b * g * RATE_SCALE), 2 * (a * f * RATE_SCALE),
                   a * f * RATE_SCALE + amount * g * a)
  {
    var a, b := t.RateFromBase(from).value, t.RateFromBase(to).value;
    var f, g := Pow10(MinorUnits(from)), Pow10(MinorUnits(to));
    var c := t.Cross(from, to).value;
    var r := Rate(from, to, c);
    var v := r.Apply(amount).value;
    CrossBound(t, from, to);
    ApplyBound(r, amount);
    WithinScaled(c, 2 * b * RATE_SCALE, 2 * a, a, amount * g);
    WithinScaled(v, 2 * Scaled(r, amount), 2 * Divisor(r), Divisor(r), a);
    TwoStageAlgebra(v, c, amount, a, b, f, g, RATE_SCALE);
  }

  /** The two errors add up to the total one. */
  lemma TwoStageAlgebra(v: int, c: int, n: int, a: int, b: int, f: int, g: int, s: int)
    ensures (v * (2 * (s * f)) - 2 * (n * c * g)) * a + (c * (2 * a) - 2 * b * s) * (n * g)
         == v * (2 * (a * f * s)) - 2 * (n * b * g * s)
    ensures s * f * a == a * f * s
    ensures a * (n * g) == n * g * a
  {
    assert v * (2 * (s * f)) * a == v * (2 * (a * f * s));
    assert 2 * (n * c * g) * a == c * (2 * a) * (n * g);
    assert 2 * b * s * (n * g) == 2 * (n * b * g * s);
  }

  // ------------------------------------------------------------ round trips and paths

  /**
   * There and back between two rates: with table rates a and b, x = cross(A,B), y = cross(B,A) and
   * S the scale, 4ab|xy - S^2| <= 2S(a^2 + b^2) + ab.
   */
  lemma RateRoundTrip(t: Table, p: Currency, q: Currency)
    requires p != q && t.Cross(p, q).Ok? && t.Cross(q, p).Ok?
    ensures t.RateFromBase(p).Ok? && t.RateFromBase(q).Ok?
    ensures var a, b := t.RateFromBase(p).value, t.RateFromBase(q).value;
            Within(t.Cross(p, q).value * t.Cross(q, p).value,
                   4 * (a * b) * (RATE_SCALE * RATE_SCALE), 4 * (a * b),
                   2 * RATE_SCALE * (a * a + b * b) + a * b)
  {
    var a, b := t.RateFromBase(p).value, t.RateFromBase(q).value;
    var x, y := t.Cross(p, q).value, t.Cross(q, p).value;
    CrossBound(t, p, q);
    CrossBound(t, q, p);
    RatioProduct(x, y, a, b, b, a, RATE_SCALE);
    assert b * a == a * b;
  }

  /** x = u/a and y = w/b up to half a unit each, scaled by s: the product is uw/(ab) up to the stated error. */
  lemma RatioProduct(x: int, y: int, a: nat, u: nat, b: nat, w: nat, s: nat)
    requires Within(x, 2 * u * s, 2 * a, a) && Within(y, 2 * w * s, 2 * b, b)
    ensures Within(x * y, 4 * (u * w) * (s * s), 4 * (a * b), 2 * s * (a * w + b * u) + a * b)
  {
    ProductOfErrors(x * (2 * a) - 2 * u * s, a, 2 * u * s, y * (2 * b) - 2 * w * s, b, 2 * w * s);
    FourFactors(x, a, y, b);
    FourFactors(u, s, w, s);
    assert a * (2 * w * s) + b * (2 * u * s) == 2 * s * (a * w + b * u);
  }

  lemma FourFactors(x: int, a: int, y: int, b: int)
    ensures (x * (2 * a)) * (y * (2 * b)) == (x * y) * (4 * (a * b))
    ensures (2 * x * a) * (2 * y * b) == 4 * (x * y) * (a * b)
  {
  }

  /** |(u+e)(w+h) - uw| <= |e|w + |h|u + |e||h| for bounded errors on non-negative factors. */
  lemma ProductOfErrors(e: int, de: nat, u: nat, h: int, dh: nat, w: nat)
    requires 0 - de <= e <= de && 0 - dh <= h <= dh
    ensures -(de * w + dh * u + de * dh) <= (u + e) * (w + h) - u * w <= de * w + dh * u + de * dh
  {
    assert (u + e) * (w + h) - u * w == e * w + h * u + e * h;
    ErrorTimes(e, de, w);
    ErrorTimes(h, dh, u);
    ErrorProduct(e, de, h, dh);
  }

  lemma ErrorTimes(e: int, d: nat, k: nat)
    requires 0 - d <= e <= d
    ensures -(d * k) <= e * k <= d * k
  {
    assert (d - e) * k >= 0 && (d + e) * k >= 0;
  }

  lemma ErrorProduct(e: int, de: nat, h: int, dh: nat)
    requires 0 - de <= e <= de && 0 - dh <= h <= dh
    ensures -(de * dh) <= e * h <= de * dh
  {
    var m: nat := if h < 0 then -h else h;
    ErrorTimes(e, de, m);
    assert de * m <= de * dh;
    assert e * h == if h < 0 then -(e * m) else e * m;
  }

  /**
   * Going from A to C through B differs from the direct rate by at most
   * (c/b + b/a)/2 + 1/(4S) + 1/2, here multiplied by 4abS.
   */
  lemma PathIndependence(t: Table, p: Currency, q: Currency, r: Currency)
    requires p != q && q != r && p != r
    requires t.Cross(p, q).Ok? && t.Cross(q, r).Ok? && t.Cross(p, r).Ok?
    ensures t.RateFromBase(p).Ok? && t.RateFromBase(q).Ok? && t.RateFromBase(r).Ok?
    ensures var a, b, c := t.RateFromBase(p).value, t.RateFromBase(q).value, t.RateFromBase(r).value;
            var x, y, z := t.Cross(p, q).value, t.Cross(q, r).value, t.Cross(p, r).value;
            Within(x * y - z * RATE_SCALE, 0, 4 * (a * b),
                   2 * RATE_SCALE * (a * c + b * b) + a * b + 2 * (a * b) * RATE_SCALE)
  {
    var a, b, c := t.RateFromBase(p).value, t.RateFromBase(q).value, t.RateFromBase(r).value;
    CrossBound(t, p, q);
    CrossBound(t, q, r);
    CrossBound(t, p, r);
    var s := RATE_SCALE;
    var x, y, z := t.Cross(p, q).value, t.Cross(q, r).value, t.Cross(p, r).value;
    RatioProduct(x, y, a, b, b, c, s);
    PathAlgebra(x * y, z, a, b, c, s);
  }

  lemma PathAlgebra(xy: int, z: int, a: nat, b: nat, c: nat, s: nat)
    requires Within(xy, 4 * (b * c) * (s * s), 4 * (a * b), 2 * s * (a * c + b * b) + a * b)
    requires Within(z, 2 * c * s, 2 * a, a)
    ensures Within(xy - z * s, 0, 4 * (a * b), 2 * s * (a * c + b * b) + a * b + 2 * (a * b) * s)
  {
    WithinScaled(z, 2 * c * s, 2 * a, a, 2 * (b * s));
    PathTerms(z, a, b, c, s);
    assert (xy - z * s) * (4 * (a * b)) == xy * (4 * (a * b)) - z * s * (4 * (a * b));
  }

  lemma PathTerms(z: int, a: int, b: int, c: int, s: int)
    ensures (z * (2 * a) - 2 * c * s) * (2 * (b * s)) == z * s * (4 * (a * b)) - 4 * (b * c) * (s * s)
    ensures a * (2 * (b * s)) == 2 * (a * b) * s
  {
    assert z * (2 * a) * (2 * (b * s)) == z * s * (4 * (a * b));
    assert 2 * c * s * (2 * (b * s)) == 4 * (b * c) * (s * s);
  }

  /**
   * Converting an amount there and back. With decimal scales f and g, rates a and b against the base,
   * and y the return rate, the error is bounded by the two roundings of the amount and the defect of
   * the rate product:
   *   4ab*S^2*g*|back - amount| <= 2ab(S^2*g + y*S*f) + amount*g*(2S(a^2 + b^2) + ab).
   */
  lemma AmountRoundTrip(t: Table, p: Currency, q: Currency, amount: int)
    requires p != q && t.Cross(p, q).Ok? && t.Cross(q, p).Ok?
    requires Rate(p, q, t.Cross(p, q).value).Apply(amount).Ok?
    requires Rate(q, p, t.Cross(q, p).value).Apply(Rate(p, q, t.Cross(p, q).value).Apply(amount).value).Ok?
    ensures t.RateFromBase(p).Ok? && t.RateFromBase(q).Ok?
    ensures var a, b := t.RateFromBase(p).value, t.RateFromBase(q).value;
            var f, g := Pow10(MinorUnits(p)), Pow10(MinorUnits(q));
            var y := t.Cross(q, p).value;
            var there := Rate(p, q, t.Cross(p, q).value).Apply(amount).value;
            var back := Rate(q, p, y).Apply(there).value;
            Within(back - amount, 0, 4 * (a * b) * (RATE_SCALE * RATE_SCALE * g),
                   2 * (a * b) * (RATE_SCALE * RATE_SCALE * g + y * RATE_SCALE * f)
                   + amount * g * (2 * RATE_SCALE * (a * a + b * b) + a * b))
  {
    var a, b := t.RateFromBase(p).value, t.RateFromBase(q).value;
    var f, g := Pow10(MinorUnits(p)), Pow10(MinorUnits(q));
    var x, y := t.Cross(p, q).value, t.Cross(q, p).value;
    var out, home := Rate(p, q, x), Rate(q, p, y);
    var there := out.Apply(amount).value;
    var back := home.Apply(there).value;
    CrossBound(t, p, q);
    CrossBound(t, q, p);
    ApplyBound(out, amount);
    ApplyBound(home, there);
    RateRoundTrip(t, p, q);
    RoundTripArithmetic(amount, there, back, x, y, a, b, f, g, RATE_SCALE);
  }

  lemma RoundTripArithmetic(n: nat, there: int, back: int, x: nat, y: nat, a: nat, b: nat, f: nat, g: nat, s: nat)
    requires f > 0
    requires -(s * f) <= there * (2 * (s * f)) - 2 * (n * x * g) <= s * f
    requires -(s * g) <= back * (2 * (s * g)) - 2 * (there * y * f) <= s * g
    requires Within(x * y, 4 * (a * b) * (s * s), 4 * (a * b), 2 * s * (a * a + b * b) + a * b)
    ensures Within(back - n, 0, 4 * (a * b) * (s * s * g),
                   2 * (a * b) * (s * s * g + y * s * f) + n * g * (2 * s * (a * a + b * b) + a * b))
  {
    RoundTripRoundings(n, there, back, x, y, f, g, s);
    var roundings := back * (2 * (s * s * g)) - 2 * (n * (x * y) * g);
    var slack1 := s * s * g + y * s * f;
    ErrorTimes(roundings, slack1, 2 * (a * b));
    var defect := x * y * (4 * (a * b)) - 4 * (a * b) * (s * s);
    var slack2 := 2 * s * (a * a + b * b) + a * b;
    ErrorTimes(defect, slack2, n * g);
    RoundTripSum(n, back, x * y, a * b, g, s);
    assert slack1 * (2 * (a * b)) == 2 * (a * b) * slack1;
    assert slack2 * (n * g) == n * g * slack2;
  }

  lemma RoundTripSum(n: int, back: int, xy: int, ab: int, g: int, s: int)
    ensures (back * (2 * (s * s * g)) - 2 * (n * xy * g)) * (2 * ab) + (xy * (4 * ab) - 4 * ab * (s * s)) * (n * g)
         == (back - n) * (4 * ab * (s * s * g))
  {
    assert back * (2 * (s * s * g)) * (2 * ab) == back * (4 * ab * (s * s * g));
    assert 2 * (n * xy * g) * (2 * ab) == xy * (4 * ab) * (n * g);
    assert 4 * ab * (s * s) * (n * g) == n * (4 * ab * (s * s * g));
  }

  /** The two roundings of the amount itself, over the common denominator. */
  lemma RoundTripRoundings(n: nat, there: int, back: int, x: nat, y: nat, f: nat, g: nat, s: nat)
    requires f > 0
    requires -(s * f) <= there * (2 * (s * f)) - 2 * (n * x * g) <= s * f
    requires -(s * g) <= back * (2 * (s * g)) - 2 * (there * y * f) <= s * g
    ensures var e := back * (2 * (s * s * g)) - 2 * (n * (x * y) * g);
            -(s * s * g + y * s * f) <= e <= s * s * g + y * s * f
  {
    var e1 := there * (2 * (s * f)) - 2 * (n * x * g);
    var e2 := back * (2 * (s * g)) - 2 * (there * y * f);
    ErrorTimes(e1, s * f, y);
    ErrorTimes(e2, s * g, s);
    RoundingTerms(n, there, back, x, y, f, g, s);
    assert s * g * s == s * s * g && s * f * y == y * s * f;
  }

  lemma RoundingTerms(n: int, there: int, back: int, x: int, y: int, f: int, g: int, s: int)
    ensures (back * (2 * (s * g)) - 2 * (there * y * f)) * s + (there * (2 * (s * f)) - 2 * (n * x * g)) * y
         == back * (2 * (s * s * g)) - 2 * (n * (x * y) * g)
  {
    assert back * (2 * (s * g)) * s == back * (2 * (s * s * g));
    assert 2 * (there * y * f) * s == there * (2 * (s * f)) * y;
    assert 2 * (n * x * g) * y == 2 * (n * (x * y) * g);
  }

  // ------------------------------------------------------------ when there is a rate

  /** The rate of a currency against the base, as the provider gave it. */
  function Known(t: Table, c: Currency): Option<int> {
    if c == t.base then Some(100_000_000) else if c in t.rates && t.rates[c] > 0 then Some(t.rates[c]) else None
  }

  /** A currency has a rate exactly if it is the base, at one, or the table has a positive rate for it. */
  lemma RateFromBaseExact(t: Table, c: Currency)
    ensures t.RateFromBase(c) == match Known(t, c) case Some(r) => Ok(r) case None => Err(UnsupportedPair)
  {
  }

  /**
   * There is a derived rate exactly between a currency and itself, or when both currencies have rates and
   * their rounded ratio is a positive 64-bit number.
   */
  lemma CrossExact(t: Table, from: Currency, to: Currency)
    ensures from == to ==> t.Cross(from, to) == Ok(100_000_000)
    ensures from != to && (Known(t, from).None? || Known(t, to).None?) ==> t.Cross(from, to) == Err(UnsupportedPair)
    ensures from != to && Known(t, from).Some? && Known(t, to).Some? && Known(t, from).value > 0 && Known(t, to).value > 0 ==>
              var q := HalfUp(Known(t, to).value * 100_000_000, Known(t, from).value);
              t.Cross(from, to) == if 1 <= q <= MAX_INT64 then Ok(q) else Err(UnsupportedPair)
  {
    if from != to && Known(t, from).Some? && Known(t, to).Some? {
      RoundedQuotientIsHalfUp(Known(t, to).value * RATE_SCALE, Known(t, from).value);
    }
  }

  /** Only positive amounts are converted, and only at positive rates. */
  lemma ApplyRefuses(r: Rate, amount: int)
    ensures amount <= 0 ==> r.Apply(amount) == Err(NonPositiveAmount)
    ensures amount > 0 && r.rateE8 <= 0 ==> r.Apply(amount) == Err(InvalidRate)
  {
  }
}
