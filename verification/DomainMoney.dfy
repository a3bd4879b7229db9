/** internal/domain/money.go: exact amounts, their printed form and the reader of user input. */
module DomainMoney {
  import opened Prelude
  import opened Text
  import opened Strings

  type Currency = string

  /** An amount in minor units of its currency. */
  datatype Money = Money(amount: int, currency: Currency)

  datatype MoneyError = InvalidMoney | AmbiguousSeparator

  /** Currencies with no subunit in circulation, and with a thousandth one. */
  const WHOLE_ONLY: set<Currency> := {"JPY", "KRW", "VND", "CLP", "ISK", "HUF", "TWD", "XAF", "XOF", "UGX", "RWF"}
  const THOUSANDTHS: set<Currency> := {"KWD", "BHD", "OMR", "JOD", "TND", "LYD", "IQD"}

  function MinorUnits(c: Currency): (exp: nat)
    ensures exp == 0 <==> c in WHOLE_ONLY
    ensures exp == 3 <==> c in THOUSANDTHS
    ensures exp == 0 || exp == 2 || exp == 3
  {
    if c in WHOLE_ONLY then 0 else if c in THOUSANDTHS then 3 else 2
  }

  predicate IsUpper(c: char) {
    'A' <= c <= 'Z'
  }

  predicate IsCurrencyCode(code: string) {
    |code| == 3 && forall i :: 0 <= i < |code| ==> IsUpper(code[i])
  }

  method ValidCurrency(code: string) returns (valid: bool)
    ensures valid <==> IsCurrencyCode(code)
  {
    if |code| != 3 {
      return false;
    }
    for i := 0 to |code|
      invariant forall j :: 0 <= j < i ==> IsUpper(code[j])
    {
      if code[i] < 'A' || code[i] > 'Z' {
        return false;
      }
    }
    return true;
  }

  /** 10 to the number of printed decimals. */
  method Scale(c: Currency) returns (value: int)
    ensures value == Pow10(MinorUnits(c))
  {
    value := 1;
    for i := 0 to MinorUnits(c)
      invariant value == Pow10(i)
    {
      value := value * 10;
    }
  }

  /**
   * `unicode.ToUpper` as far as it can produce an ASCII letter: besides a-z, only the
   * dotless i and the long s have an ASCII capital.
   */
  function ToUpper(c: char): char {
    if 'a' <= c <= 'z' then ((c as int) - 32) as char
    else if c == '\U{0131}' then 'I'
    else if c == '\U{017F}' then 'S'
    else c
  }

  function NormalizeCurrency(code: string): Currency {
    var t := TrimSpace(code);
    seq(|t|, i requires 0 <= i < |t| => ToUpper(t[i]))
  }

  // ------------------------------------------------------------ printing

  /** The numeric part of `Money.String`. */
  function PrintAmount(amount: nat, exp: nat): string {
    if exp == 0 then Decimal(amount)
    else Decimal(Quot(amount, Pow10(exp))) + "." + PaddedDecimal(Rem(amount, Pow10(exp)), exp)
  }

  /** `Money.String`. */
  function ToString(m: Money): string {
    var sign := if m.amount < 0 then "-" else "";
    var amount: nat := if m.amount < 0 then 0 - m.amount else m.amount;
    sign + PrintAmount(amount, MinorUnits(m.currency)) + " " + m.currency
  }

  // ------------------------------------------------------------ reading

  predicate IsGrouping(c: char) {
    c == ' ' || c == '\U{00A0}' || c == '\U{202F}' || c == '_'
  }

  predicate IsSeparator(c: char) {
    c == '.' || c == ','
  }

  predicate NotGrouping(c: char) {
    !IsGrouping(c)
  }

  predicate NotSeparator(c: char) {
    !IsSeparator(c)
  }

  function DropGrouping(s: string): string {
    Filter(s, NotGrouping)
  }

  function StripSeparators(s: string): string {
    Filter(s, NotSeparator)
  }

  datatype Parts = Parts(whole: string, fraction: string)

  /** Which separator is the decimal one, if any. */
  function SplitDecimal(s: string): Result<Parts, MoneyError> {
    var dots := Count(s, '.');
    var commas := Count(s, ',');
    if dots == 0 && commas == 0 then Ok(Parts(s, ""))
    else if dots > 0 && commas > 0 then
      var sep := if LastIndex(s, ',') > LastIndex(s, '.') then ',' else '.';
      var i := LastIndex(s, sep);
      Ok(Parts(StripSeparators(s[..i]), s[i + 1..]))
    else
      var sep := if commas > 0 then ',' else '.';
      if Count(s, sep) > 1 then Ok(Parts(StripSeparators(s), ""))
      else
        var i := Index(s, sep);
        var head, tail := s[..i], s[i + 1..];
        if |tail| == 3 && 1 <= |head| <= 3 && head[0] != '0' then Err(AmbiguousSeparator)
        else Ok(Parts(head, tail))
  }

  /** Minor units from the fraction digits, and whether the first dropped digit rounds up. */
  function MinorOf(fraction: string, exp: nat): Result<(int, bool), MoneyError> {
    if |fraction| <= exp then
      var padded := fraction + Repeat('0', exp - |fraction|);
      if padded == "" then Ok((0, false))
      else match ParseInt(padded)
        case None => Err(InvalidMoney)
        case Some(d) => Ok((d, false))
    else
      var up := fraction[exp] >= '5';
      if exp == 0 then Ok((0, up))
      else match ParseInt(fraction[..exp])
        case None => Err(InvalidMoney)
        case Some(d) => Ok((d, up))
  }

  /** The amount in minor units, in wrap-around 64-bit arithmetic as the code computes it. */
  function Assemble(units: int, minor: int, up: bool, exp: nat): int {
    var amount := Wrap64(Wrap64(units * Pow10(exp)) + minor);
    if up then Wrap64(amount + 1) else amount
  }

  function ParseNumber(s: string, currency: Currency): Result<Money, MoneyError> {
    match SplitDecimal(s)
    case Err(e) => Err(e)
    case Ok(parts) =>
      match ParseInt(if parts.whole == "" then "0" else parts.whole)
      case None => Err(InvalidMoney)
      case Some(units) =>
        if units < 0 then Err(InvalidMoney)
        else
          match MinorOf(parts.fraction, MinorUnits(currency))
          case Err(e) => Err(e)
          case Ok(m) => Ok(Money(Assemble(units, m.0, m.1, MinorUnits(currency)), currency))
  }

  /** The currency in force and the text left to read as a number. */
  function ChooseCurrency(s: string, fallback: Currency): (Currency, string) {
    var fields := Fields(s);
    if |fields| > 1 && IsCurrencyCode(NormalizeCurrency(fields[|fields| - 1])) then
      (NormalizeCurrency(fields[|fields| - 1]), JoinAll(fields[..|fields| - 1]))
    else (NormalizeCurrency(fallback), s)
  }

  function ParseMoney(input: string, fallback: Currency): Result<Money, MoneyError> {
    var s := TrimSpace(input);
    if s == "" then Err(InvalidMoney)
    else
      var (currency, number) := ChooseCurrency(s, fallback);
      if !IsCurrencyCode(currency) then Err(InvalidMoney)
      else ParseNumber(DropGrouping(number), currency)
  }

  // ------------------------------------------------------------ digits, one separator, digits

  lemma DigitsAreNeutral(s: string)
    requires AllDigits(s)
    ensures NoSpace(s) && '.' !in s && ',' !in s
    ensures DropGrouping(s) == s && StripSeparators(s) == s
  {
    FilterKeepsAll(s, NotGrouping);
    FilterKeepsAll(s, NotSeparator);
  }

  /** How `SplitDecimal` reads a plain decimal "I.F": ambiguous, or split at the separator. */
  lemma SplitPlainDecimal(whole: string, sep: char, fraction: string)
    requires AllDigits(whole) && AllDigits(fraction) && IsSeparator(sep)
    ensures SplitDecimal(whole + [sep] + fraction)
         == if |fraction| == 3 && 1 <= |whole| <= 3 && whole[0] != '0' then Err(AmbiguousSeparator)
            else Ok(Parts(whole, fraction))
  {
    var s := whole + [sep] + fraction;
    DigitsAreNeutral(whole);
    DigitsAreNeutral(fraction);
    var other := if sep == '.' then ',' else '.';
    CountConcat(whole + [sep], fraction, sep);
    CountConcat(whole, [sep], sep);
    CountConcat(whole + [sep], fraction, other);
    CountConcat(whole, [sep], other);
    assert Count([sep], sep) == 1 && Count([sep], other) == 0;
    IndexAfter(whole, sep, fraction);
    var i := |whole|;
    assert s[..i] == whole && s[i + 1..] == fraction;
  }

  /** The half-up value of the decimal whole.fraction in minor units. */
  function HalfUpMinor(whole: string, fraction: string, exp: nat): nat
    requires AllDigits(whole) && AllDigits(fraction)
  {
    HalfUp(Value(whole + fraction) * Pow10(exp), Pow10(|fraction|))
  }

  /** Padding a short fraction with zeros multiplies by the missing power of ten. */
  lemma ShortFraction(whole: string, fraction: string, exp: nat)
    requires AllDigits(whole) && AllDigits(fraction) && |fraction| <= exp
    ensures var padded := fraction + Repeat('0', exp - |fraction|);
            && |padded| == exp && AllDigits(padded)
            && HalfUpMinor(whole, fraction, exp) == Value(whole) * Pow10(exp) + Value(padded)
            && Value(whole + padded) == HalfUpMinor(whole, fraction, exp)
  {
    var zeros := Repeat('0', exp - |fraction|);
    var padded := fraction + zeros;
    ValueConcat(fraction, zeros);
    ValueOfZeros(exp - |fraction|);
    ValueConcat(whole, fraction);
    ValueConcat(whole, padded);
    Pow10Add(|fraction|, exp - |fraction|);
    var w, f, n, k := Value(whole), Value(fraction), Pow10(|fraction|), Pow10(exp - |fraction|);
    ScaledExactly(w, f, n, k);
  }

  lemma ScaledExactly(w: nat, f: nat, n: nat, k: nat)
    requires n > 0
    ensures HalfUp((w * n + f) * (n * k), n) == w * (n * k) + f * k
  {
    var q := w * (n * k) + f * k;
    calc {
      (w * n + f) * (n * k);
      (w * n) * (n * k) + f * (n * k);
      (w * (n * k)) * n + (f * k) * n;
      q * n;
    }
    assert 2 * q * n == 2 * (q * n);
    HalfUpUnique(q * n, n, q);
  }

  /** Cutting a long fraction and rounding on the first dropped digit. */
  lemma LongFraction(whole: string, fraction: string, exp: nat)
    requires AllDigits(whole) && AllDigits(fraction) && |fraction| > exp
    ensures AllDigits(fraction[..exp])
    ensures var up := if fraction[exp] >= '5' then 1 else 0;
            && HalfUpMinor(whole, fraction, exp) == Value(whole) * Pow10(exp) + Value(fraction[..exp]) + up
            && HalfUpMinor(whole, fraction, exp) == Value(whole + fraction[..exp]) + up
  {
    var kept, dropped := fraction[..exp], fraction[exp..];
    assert fraction == kept + dropped;
    ValueConcat(whole, kept);
    assert whole + fraction == (whole + kept) + dropped;
    FirstDroppedDigitDecides(whole + kept, dropped);
    Pow10Add(exp, |dropped|);
    HalfUpScale(Value(whole + fraction), Pow10(|dropped|), Pow10(exp));
  }

  lemma HalfUpScale(n: nat, d: nat, k: nat)
    requires d > 0 && k > 0
    ensures HalfUp(n * k, k * d) == HalfUp(n, d)
  {
    var q := HalfUp(n, d);
    var m, e := 2 * n + d, 2 * d;
    assert m == Quot(m, e) * e + Rem(m, e);
    ScaleInterval(m, e, q, k);
    ScaleTerms(n, d, q, k);
    HalfUpUnique(n * k, k * d, q);
  }

  lemma ScaleTerms(n: int, d: int, q: int, k: int)
    ensures 2 * (n * k) + k * d == (2 * n + d) * k
    ensures 2 * q * (k * d) == (q * (2 * d)) * k
    ensures 2 * (k * d) == 2 * d * k
  {
  }

  lemma ScaleInterval(m: nat, e: nat, q: nat, k: nat)
    requires q * e <= m < q * e + e && k > 0
    ensures (q * e) * k <= m * k < (q * e) * k + e * k
  {
    assert (q * e) * k <= m * k;
    assert (m + 1) * k <= (q * e + e) * k;
  }

  /** What `ParseNumber` computes on an unambiguous decimal that fits 64 bits. */
  lemma ParsePlainDecimal(whole: string, sep: char, fraction: string, currency: Currency)
    requires AllDigits(whole) && AllDigits(fraction) && IsSeparator(sep)
    requires !(|fraction| == 3 && 1 <= |whole| <= 3 && whole[0] != '0')
    requires HalfUpMinor(whole, fraction, MinorUnits(currency)) <= MAX_INT64
    ensures ParseNumber(whole + [sep] + fraction, currency)
         == Ok(Money(HalfUpMinor(whole, fraction, MinorUnits(currency)), currency))
  {
    var exp := MinorUnits(currency);
    SplitPlainDecimal(whole, sep, fraction);
    ReadParts(whole, fraction, exp);
  }

  /** Reading the two halves and putting them together is half-up rounding. */
  lemma ReadParts(whole: string, fraction: string, exp: nat)
    requires AllDigits(whole) && AllDigits(fraction)
    requires HalfUpMinor(whole, fraction, exp) <= MAX_INT64
    ensures Value(whole) <= MAX_INT64
    ensures ParseInt(if whole == "" then "0" else whole) == Some(Value(whole))
    ensures MinorOf(fraction, exp).Ok?
    ensures var m := MinorOf(fraction, exp).value;
            Assemble(Value(whole), m.0, m.1, exp) == HalfUpMinor(whole, fraction, exp)
  {
    if |fraction| <= exp {
      ReadShort(whole, fraction, exp);
    } else {
      ReadLong(whole, fraction, exp);
    }
    ParseIntOfWhole(whole);
  }

  lemma ReadShort(whole: string, fraction: string, exp: nat)
    requires AllDigits(whole) && AllDigits(fraction) && |fraction| <= exp
    requires HalfUpMinor(whole, fraction, exp) <= MAX_INT64
    ensures Value(whole) <= MAX_INT64 && MinorOf(fraction, exp).Ok?
    ensures var m := MinorOf(fraction, exp).value;
            Assemble(Value(whole), m.0, m.1, exp) == HalfUpMinor(whole, fraction, exp)
  {
    var padded := fraction + Repeat('0', exp - |fraction|);
    ShortFraction(whole, fraction, exp);
    AssembleFits(Value(whole), Value(padded), false, exp);
    MinorOfShort(fraction, exp);
  }

  lemma ReadLong(whole: string, fraction: string, exp: nat)
    requires AllDigits(whole) && AllDigits(fraction) && |fraction| > exp
    requires HalfUpMinor(whole, fraction, exp) <= MAX_INT64
    ensures Value(whole) <= MAX_INT64 && MinorOf(fraction, exp).Ok?
    ensures var m := MinorOf(fraction, exp).value;
            Assemble(Value(whole), m.0, m.1, exp) == HalfUpMinor(whole, fraction, exp)
  {
    LongFraction(whole, fraction, exp);
    AssembleFits(Value(whole), Value(fraction[..exp]), fraction[exp] >= '5', exp);
    MinorOfLong(fraction, exp);
  }

  /** Without overflow the wrap-around arithmetic is ordinary arithmetic. */
  lemma AssembleFits(units: nat, minor: nat, up: bool, exp: nat)
    requires units * Pow10(exp) + minor + (if up then 1 else 0) <= MAX_INT64
    ensures Assemble(units, minor, up, exp) == units * Pow10(exp) + minor + (if up then 1 else 0)
    ensures units <= MAX_INT64 && minor <= MAX_INT64
  {
    TimesAtLeastOne(units, Pow10(exp));
  }

  lemma TimesAtLeastOne(n: nat, p: nat)
    requires p >= 1
    ensures n <= n * p
  {
  }

  lemma ParseIntOfWhole(whole: string)
    requires AllDigits(whole) && Value(whole) <= MAX_INT64
    ensures ParseInt(if whole == "" then "0" else whole) == Some(Value(whole))
  {
    if whole == "" {
      assert "0"[..0] == "" && Value("0") == 0;
      ParseIntOfDigits("0");
    } else {
      ParseIntOfDigits(whole);
    }
  }

  lemma MinorOfShort(fraction: string, exp: nat)
    requires AllDigits(fraction) && |fraction| <= exp
    requires Value(fraction + Repeat('0', exp - |fraction|)) <= MAX_INT64
    ensures MinorOf(fraction, exp) == Ok((Value(fraction + Repeat('0', exp - |fraction|)), false))
  {
    var padded := fraction + Repeat('0', exp - |fraction|);
    if padded != "" {
      ParseIntOfDigits(padded);
    }
  }

  lemma MinorOfLong(fraction: string, exp: nat)
    requires AllDigits(fraction) && |fraction| > exp && Value(fraction[..exp]) <= MAX_INT64
    ensures MinorOf(fraction, exp) == Ok((Value(fraction[..exp]), fraction[exp] >= '5'))
  {
    if exp != 0 {
      ParseIntOfDigits(fraction[..exp]);
    }
  }

  /** A number without separators is a whole number of units. */
  lemma ParseWholeNumber(digits: string, currency: Currency)
    requires AllDigits(digits) && Value(digits) * Pow10(MinorUnits(currency)) <= MAX_INT64
    ensures ParseNumber(digits, currency) == Ok(Money(Value(digits) * Pow10(MinorUnits(currency)), currency))
  {
    DigitsAreNeutral(digits);
    assert digits + "" == digits && Pow10(0) == 1;
    assert HalfUpMinor(digits, "", MinorUnits(currency)) == Value(digits) * Pow10(MinorUnits(currency));
    ReadParts(digits, "", MinorUnits(currency));
  }

  /** What is neither digit nor separator, except a sign in front, spoils a number without separators. */
  lemma GarbageIsRefused(s: string, i: nat, currency: Currency)
    requires '.' !in s && ',' !in s && i < |s| && !IsDigit(s[i]) && (i > 0 || (s[0] != '+' && s[0] != '-'))
    ensures ParseNumber(s, currency) == Err(InvalidMoney)
  {
    ParseIntRefuses(s, i);
  }

  // ------------------------------------------------------------ digits with any separators

  predicate Grouped(s: string) {
    forall i :: 0 <= i < |s| ==> IsDigit(s[i]) || IsSeparator(s[i])
  }

  function Other(sep: char): char {
    if sep == '.' then ',' else '.'
  }

  predicate IsDigitChar(c: char) {
    IsDigit(c)
  }

  /** The digits of a text, everything else dropped. */
  function DigitsOf(s: string): (d: string)
    ensures AllDigits(d)
  {
    Filter(s, IsDigitChar)
  }

  lemma {:induction false} StripGrouped(s: string)
    requires Grouped(s)
    ensures StripSeparators(s) == DigitsOf(s)
  {
    if s != "" {
      StripGrouped(s[1..]);
    }
  }

  lemma LastSeparator(head: string, sep: char, fraction: string)
    requires IsSeparator(sep) && AllDigits(fraction)
    ensures var s := head + [sep] + fraction;
            var comma, dot := LastIndex(s, ','), LastIndex(s, '.');
            (if comma > dot then comma else dot) == |head| && (comma != -1 || dot != -1)
  {
    var s := head + [sep] + fraction;
    assert sep !in fraction;
    LastIndexBefore(head, sep, fraction);
    var other := if sep == '.' then ',' else '.';
    var o := LastIndex(s, other);
    assert s[|head|] == sep;
    forall k | |head| < k < |s|
      ensures s[k] != other
    {
      assert s[k] == fraction[k - |head| - 1];
    }
    assert o < |head|;
  }

  lemma SplitMixed(head: string, sep: char, fraction: string)
    requires AllDigits(fraction) && IsSeparator(sep) && Other(sep) in head
    ensures SplitDecimal(head + [sep] + fraction) == Ok(Parts(StripSeparators(head), fraction))
  {
    var s := head + [sep] + fraction;
    LastSeparator(head, sep, fraction);
    assert s[..|head|] == head && s[|head| + 1..] == fraction;
    assert sep in s && Other(sep) in s;
  }

  lemma SplitRepeated(head: string, sep: char, fraction: string)
    requires AllDigits(fraction) && IsSeparator(sep) && Other(sep) !in head && sep in head
    ensures SplitDecimal(head + [sep] + fraction) == Ok(Parts(StripSeparators(head) + fraction, ""))
  {
    var s := head + [sep] + fraction;
    CountConcat(head + [sep], fraction, sep);
    CountConcat(head, [sep], sep);
    assert Other(sep) !in s;
    FilterConcat(head + [sep], fraction, NotSeparator);
    FilterConcat(head, [sep], NotSeparator);
    FilterDropsAll([sep], NotSeparator);
    DigitsAreNeutral(fraction);
    assert StripSeparators(head) + "" == StripSeparators(head);
  }

  /** The number a text of digits and separators means: one separator used twice can only be grouping. */
  function Meant(head: string, sep: char, fraction: string): (p: Parts)
    requires AllDigits(fraction)
    ensures AllDigits(p.whole) && AllDigits(p.fraction)
  {
    if sep in head && Other(sep) !in head then Parts(DigitsOf(head) + fraction, "")
    else Parts(DigitsOf(head), fraction)
  }

  /** One separator, before three digits and behind one to three that do not begin with a zero. */
  predicate Ambiguous(head: string, fraction: string) {
    AllDigits(head) && |fraction| == 3 && 1 <= |head| <= 3 && head[0] != '0'
  }

  /**
   * How any text of digits and separators is read, `sep` being the last one: an ambiguous one is refused,
   * repeated separators of one kind are grouping, otherwise the last one is the decimal point; the outcome
   * is the half-up value of the number meant, if that fits 64 bits.
   */
  lemma ParseGrouped(head: string, sep: char, fraction: string, currency: Currency)
    requires Grouped(head) && AllDigits(fraction) && IsSeparator(sep)
    requires var m := Meant(head, sep, fraction); HalfUpMinor(m.whole, m.fraction, MinorUnits(currency)) <= MAX_INT64
    ensures var m := Meant(head, sep, fraction);
            ParseNumber(head + [sep] + fraction, currency)
            == if Ambiguous(head, fraction) then Err(AmbiguousSeparator)
               else Ok(Money(HalfUpMinor(m.whole, m.fraction, MinorUnits(currency)), currency))
  {
    SplitGrouped(head, sep, fraction);
    if !Ambiguous(head, fraction) {
      ParseSplit(head + [sep] + fraction, Meant(head, sep, fraction), currency);
    }
  }

  lemma SplitGrouped(head: string, sep: char, fraction: string)
    requires Grouped(head) && AllDigits(fraction) && IsSeparator(sep)
    ensures SplitDecimal(head + [sep] + fraction)
         == if Ambiguous(head, fraction) then Err(AmbiguousSeparator) else Ok(Meant(head, sep, fraction))
  {
    StripGrouped(head);
    if Other(sep) in head {
      SplitMixed(head, sep, fraction);
    } else if sep in head {
      SplitRepeated(head, sep, fraction);
    } else {
      FilterKeepsAll(head, NotSeparator);
      SplitPlainDecimal(head, sep, fraction);
    }
  }

  lemma ParseSplit(s: string, p: Parts, currency: Currency)
    requires SplitDecimal(s) == Ok(p) && AllDigits(p.whole) && AllDigits(p.fraction)
    requires HalfUpMinor(p.whole, p.fraction, MinorUnits(currency)) <= MAX_INT64
    ensures ParseNumber(s, currency) == Ok(Money(HalfUpMinor(p.whole, p.fraction, MinorUnits(currency)), currency))
  {
    ReadParts(p.whole, p.fraction, MinorUnits(currency));
  }

  // ------------------------------------------------------------ print, then parse

  lemma PrintedAmount(amount: nat, exp: nat)
    requires exp > 0
    ensures var whole, fraction := Quot(amount, Pow10(exp)), PaddedDecimal(Rem(amount, Pow10(exp)), exp);
            && |fraction| == exp
            && HalfUpMinor(Decimal(whole), fraction, exp) == amount
            && Value(Decimal(whole) + fraction) == amount
  {
    var p := Pow10(exp);
    var whole, fraction := Decimal(Quot(amount, p)), PaddedDecimal(Rem(amount, p), exp);
    PaddedValue(Rem(amount, p), exp);
    ValueOfDecimal(Quot(amount, p));
    ShortFraction(whole, fraction, exp);
    assert fraction + Repeat('0', 0) == fraction;
  }

  lemma NormalizeOfCode(c: Currency)
    requires IsCurrencyCode(c)
    ensures NormalizeCurrency(c) == c && NoSpace(c)
  {
    assert IsUpper(c[0]) && IsUpper(c[2]);
    assert TrimSpace(c) == c;
  }

  /** A printed number followed by a currency code is read back as that number in that currency. */
  lemma ParseWithCode(body: string, c: Currency, fallback: Currency)
    requires body != "" && NoSpace(body) && IsCurrencyCode(c) && DropGrouping(body) == body
    ensures ParseMoney(body + " " + c, fallback) == ParseNumber(body, c)
  {
    var s := body + " " + c;
    NormalizeOfCode(c);
    assert s[0] == body[0] && s[|s| - 1] == c[2];
    assert TrimSpace(s) == s;
    FieldsOfTwoWords(body, c);
    assert [body, c][..1] == [body];
    assert JoinAll([body]) == body by {
      assert [body][1..] == [];
      assert body + "" == body;
    }
  }

  lemma PrintedBody(amount: nat, exp: nat)
    ensures var body := PrintAmount(amount, exp);
            body != "" && NoSpace(body) && DropGrouping(body) == body
  {
    var body := PrintAmount(amount, exp);
    FilterKeepsAll(body, NotGrouping);
  }

  /**
   * Printing and parsing, for every non-negative amount: the amount comes back, except that a
   * three-decimal currency with a whole part between 1 and 999 is refused as ambiguous.
   */
  lemma PrintThenParse(m: Money, fallback: Currency)
    requires 0 <= m.amount <= MAX_INT64 && IsCurrencyCode(m.currency)
    ensures ParseMoney(ToString(m), fallback)
         == if MinorUnits(m.currency) == 3 && 1 <= m.amount / 1000 < 1000 then Err(AmbiguousSeparator)
            else Ok(m)
  {
    var c, exp := m.currency, MinorUnits(m.currency);
    var body := PrintAmount(m.amount, exp);
    PrintedBody(m.amount, exp);
    assert ToString(m) == body + " " + c by {
      assert "" + body == body;
    }
    ParseWithCode(body, c, fallback);
    ParsePrinted(m.amount, c);
  }

  lemma ParsePrinted(amount: nat, c: Currency)
    requires amount <= MAX_INT64
    ensures ParseNumber(PrintAmount(amount, MinorUnits(c)), c)
         == if MinorUnits(c) == 3 && 1 <= amount / 1000 < 1000 then Err(AmbiguousSeparator)
            else Ok(Money(amount, c))
  {
    var exp := MinorUnits(c);
    if exp == 0 {
      ParseWhole(amount, c);
    } else {
      ParseFractional(amount, c);
    }
  }

  lemma ParseFractional(amount: nat, c: Currency)
    requires amount <= MAX_INT64 && MinorUnits(c) > 0
    ensures ParseNumber(PrintAmount(amount, MinorUnits(c)), c)
         == if MinorUnits(c) == 3 && 1 <= amount / 1000 < 1000 then Err(AmbiguousSeparator)
            else Ok(Money(amount, c))
  {
    var exp := MinorUnits(c);
    var q := Quot(amount, Pow10(exp));
    var whole, fraction := Decimal(q), PaddedDecimal(Rem(amount, Pow10(exp)), exp);
    PrintedAmount(amount, exp);
    SplitPlainDecimal(whole, '.', fraction);
    DecimalLength(q, 3);
    DecimalLeadingDigit(q);
    ThousandIsPow3();
    if !(exp == 3 && 1 <= q < 1000) {
      ParsePlainDecimal(whole, '.', fraction, c);
    }
  }

  lemma ThousandIsPow3()
    ensures Pow10(3) == 1000
  {
  }

  lemma ParseWhole(amount: nat, c: Currency)
    requires amount <= MAX_INT64 && MinorUnits(c) == 0
    ensures ParseNumber(Decimal(amount), c) == Ok(Money(amount, c))
  {
    var s := Decimal(amount);
    DigitsAreNeutral(s);
    ValueOfDecimal(amount);
    ParseIntOfDigits(s);
    assert SplitDecimal(s) == Ok(Parts(s, ""));
    assert MinorOf("", 0) == Ok((0, false)) by {
      assert "" + Repeat('0', 0) == "";
    }
    assert Pow10(0) == 1;
  }

  // ------------------------------------------------------------ currency codes as people type them

  /** The letter, or its small form. The dotless i and the long s have these capitals, too. */
  predicate SpellsLetter(w: char, c: char) {
    || w == c
    || ('A' <= c <= 'Z' && w as int == c as int + 32)
    || (c == 'I' && w == '\U{0131}')
    || (c == 'S' && w == '\U{017F}')
  }

  /** The code in capital or small letters, or some of each. */
  predicate Spells(w: string, c: Currency) {
    |w| == |c| && forall i :: 0 <= i < |w| ==> SpellsLetter(w[i], c[i])
  }

  lemma UpperOfLetter(w: char, c: char)
    requires IsUpper(c)
    ensures ToUpper(w) == c <==> SpellsLetter(w, c)
    ensures SpellsLetter(w, c) ==> !IsSpace(w)
  {
  }

  /** Exactly the spellings of a code are taken for it. */
  lemma NormalizeSpelling(w: string, c: Currency)
    requires IsCurrencyCode(c) && NoSpace(w)
    ensures NormalizeCurrency(w) == c <==> Spells(w, c)
  {
    NoSpaceNoTrim(w);
    var n := NormalizeCurrency(w);
    assert |n| == |w| && forall i :: 0 <= i < |w| ==> n[i] == ToUpper(w[i]);
    forall i | 0 <= i < |w| && |w| == |c|
      ensures n[i] == c[i] <==> SpellsLetter(w[i], c[i])
    {
      UpperOfLetter(w[i], c[i]);
    }
    assert n == c <==> |w| == |c| && forall i :: 0 <= i < |w| ==> n[i] == c[i];
  }

  lemma NoSpaceNoTrim(w: string)
    requires NoSpace(w)
    ensures TrimSpace(w) == w
  {
  }

  /** White space around a code does not matter. */
  lemma CodeIsTrimmed(before: string, w: string, after: string)
    requires AllSpace(before) && AllSpace(after)
    ensures NormalizeCurrency(before + w + after) == NormalizeCurrency(w)
  {
    TrimPadded(before, w, after);
  }

  lemma SpellingHasNoSpace(w: string, c: Currency)
    requires IsCurrencyCode(c) && Spells(w, c)
    ensures NoSpace(w) && w != ""
  {
    forall i | 0 <= i < |w|
      ensures !IsSpace(w[i])
    {
      UpperOfLetter(w[i], c[i]);
    }
  }

  // ------------------------------------------------------------ money as people type it

  /** White space and underscores are dropped when a currency follows the number. */
  predicate IsBare(c: char) {
    !IsSpace(c) && c != '_'
  }

  lemma {:induction false} BareIsUngrouped(s: string)
    ensures DropGrouping(Filter(s, NotSpace)) == Filter(s, IsBare)
  {
    if s != "" {
      BareIsUngrouped(s[1..]);
      var head := if NotSpace(s[0]) then [s[0]] else "";
      FilterConcat(head, Filter(s[1..], NotSpace), NotGrouping);
      assert Filter(s, NotSpace) == head + Filter(s[1..], NotSpace);
      assert Filter(head, NotGrouping) == if IsBare(s[0]) then [s[0]] else "";
    }
  }

  lemma {:induction false} FilterFinds(s: string, keep: char -> bool, i: nat)
    requires i < |s| && keep(s[i])
    ensures Filter(s, keep) != ""
  {
    if i > 0 {
      FilterFinds(s[1..], keep, i - 1);
    }
  }

  /**
   * A number followed by a currency code, in any spelling and with any white space and underscores before,
   * inside and after the number, is that number in that currency, whatever the fallback.
   */
  lemma MoneyWithCode(body: string, w: string, c: Currency, fallback: Currency)
    requires IsCurrencyCode(c) && Spells(w, c) && exists i :: 0 <= i < |body| && !IsSpace(body[i])
    ensures ParseMoney(body + " " + w, fallback) == ParseNumber(Filter(body, IsBare), c)
  {
    var input := body + " " + w;
    var s := TrimSpace(input);
    SpellingHasNoSpace(w, c);
    NormalizeSpelling(w, c);
    FieldsOfTrimmed(input);
    FieldsAppend(body, w, "");
    JoinedFields(body, "");
    var i :| 0 <= i < |body| && !IsSpace(body[i]);
    FilterFinds(body, NotSpace, i);
    var fields := Fields(body);
    assert Fields(s) == fields + [w] && (fields + [w])[..|fields|] == fields;
    assert "" + Filter(body, NotSpace) == Filter(body, NotSpace);
    BareIsUngrouped(body);
  }

  lemma BareSkips(a: string, g: char, b: string)
    requires !IsBare(g)
    ensures Filter(a + [g] + b, IsBare) == Filter(a + b, IsBare)
  {
    FilterConcat(a + [g], b, IsBare);
    FilterConcat(a, [g], IsBare);
    FilterDropsAll([g], IsBare);
    FilterConcat(a, b, IsBare);
    assert Filter(a, IsBare) + "" == Filter(a, IsBare);
  }

  /** Spaces, no-break spaces, narrow no-break spaces and underscores in a number change nothing. */
  lemma GroupingIsSkipped(a: string, g: char, b: string, w: string, c: Currency, fallback: Currency)
    requires g == ' ' || g == '\U{00A0}' || g == '\U{202F}' || g == '_'
    requires IsCurrencyCode(c) && Spells(w, c) && exists i :: 0 <= i < |a + b| && !IsSpace((a + b)[i])
    ensures ParseMoney(a + [g] + b + " " + w, fallback) == ParseMoney(a + b + " " + w, fallback)
  {
    var plain, grouped := a + b, a + [g] + b;
    var i :| 0 <= i < |plain| && !IsSpace(plain[i]);
    assert !IsSpace(grouped[if i < |a| then i else i + 1]);
    BareSkips(a, g, b);
    MoneyWithCode(grouped, w, c, fallback);
    MoneyWithCode(plain, w, c, fallback);
  }

  /** A word without spaces before the code is read as it stands, without its underscores. */
  lemma OneWordWithCode(body: string, w: string, c: Currency, fallback: Currency)
    requires IsCurrencyCode(c) && Spells(w, c) && NoSpace(body) && body != ""
    ensures ParseMoney(body + " " + w, fallback) == ParseNumber(DropGrouping(body), c)
  {
    assert !IsSpace(body[0]);
    MoneyWithCode(body, w, c, fallback);
    BareIsUngrouped(body);
    FilterKeepsAll(body, NotSpace);
  }

  lemma LastWordIsNoCode(body: string)
    requires body != "" && IsDigit(body[|body| - 1])
    ensures var fields := Fields(body);
            fields != [] && !IsCurrencyCode(NormalizeCurrency(fields[|fields| - 1]))
  {
    LastField(body, "");
    var fields := Fields(body);
    var last := fields[|fields| - 1];
    TrimKeepsEnd(last);
    var code := NormalizeCurrency(last);
    assert code[|code| - 1] == ToUpper(last[|last| - 1]) == body[|body| - 1];
  }

  /**
   * A text that ends in a digit names no currency: the fallback is used, in any spelling, or without a
   * proper fallback the text is refused. Spaces and underscores inside the number are dropped.
   */
  lemma MoneyInFallback(body: string, fallback: string)
    requires body != "" && !IsSpace(body[0]) && IsDigit(body[|body| - 1])
    ensures ParseMoney(body, fallback)
         == if IsCurrencyCode(NormalizeCurrency(fallback)) then ParseNumber(DropGrouping(body), NormalizeCurrency(fallback))
            else Err(InvalidMoney)
  {
    TrimNothing(body);
    LastWordIsNoCode(body);
  }

  /** In such a number, too, spaces, no-break spaces, narrow no-break spaces and underscores change nothing. */
  lemma GroupingIsSkippedInFallback(a: string, g: char, b: string, fallback: string)
    requires g == ' ' || g == '\U{00A0}' || g == '\U{202F}' || g == '_'
    requires a != "" && !IsSpace(a[0]) && b != "" && IsDigit(b[|b| - 1])
    ensures ParseMoney(a + [g] + b, fallback) == ParseMoney(a + b, fallback)
  {
    MoneyInFallback(a + [g] + b, fallback);
    MoneyInFallback(a + b, fallback);
    FilterConcat(a + [g], b, NotGrouping);
    FilterConcat(a, [g], NotGrouping);
    FilterDropsAll([g], NotGrouping);
    FilterConcat(a, b, NotGrouping);
    assert Filter(a, NotGrouping) + "" == Filter(a, NotGrouping);
  }

  /** White space around the text does not matter, and without anything else there is no money. */
  lemma MoneyIsTrimmed(before: string, s: string, after: string, fallback: Currency)
    requires AllSpace(before) && AllSpace(after)
    ensures ParseMoney(before + s + after, fallback) == ParseMoney(s, fallback)
    ensures AllSpace(s) ==> ParseMoney(s, fallback) == Err(InvalidMoney)
  {
    TrimPadded(before, s, after);
    if AllSpace(s) {
      TrimPadded(s, "", "");
      assert s + "" + "" == s;
    }
  }

  /** A code alone is no money, whatever the fallback. */
  lemma CodeAloneIsRefused(w: string, c: Currency, fallback: Currency)
    requires IsCurrencyCode(c) && Spells(w, c)
    ensures ParseMoney(w, fallback) == Err(InvalidMoney)
  {
    SpellingHasNoSpace(w, c);
    NoSpaceNoTrim(w);
    FieldsOfOneWord(w);
    assert forall i :: 0 <= i < |w| ==> SpellsLetter(w[i], c[i]) && !IsGrouping(w[i]) && !IsSeparator(w[i]);
    FilterKeepsAll(w, NotGrouping);
    if IsCurrencyCode(NormalizeCurrency(fallback)) {
      GarbageIsRefused(w, 0, NormalizeCurrency(fallback));
    }
  }

  /** A negative number of units is refused. */
  lemma NegativeIsRefused(digits: string, currency: Currency)
    requires AllDigits(digits) && digits != "" && 1 <= Value(digits) <= MAX_INT64
    ensures ParseNumber("-" + digits, currency) == Err(InvalidMoney)
  {
    var s := "-" + digits;
    assert s[1..] == digits;
    assert '.' !in s && ',' !in s;
  }

  // ------------------------------------------------------------ money as it is printed

  /** A printed amount: whole units, and behind a point exactly as many digits as the currency has decimals. */
  lemma PrintedForm(amount: nat, exp: nat)
    ensures exp == 0 ==> AllDigits(PrintAmount(amount, exp)) && Value(PrintAmount(amount, exp)) == amount
    ensures exp > 0 ==>
              exists whole, fraction ::
                && PrintAmount(amount, exp) == whole + "." + fraction
                && AllDigits(whole) && whole != "" && (whole[0] == '0' ==> whole == "0")
                && AllDigits(fraction) && |fraction| == exp && Value(whole + fraction) == amount
  {
    if exp == 0 {
      ValueOfDecimal(amount);
    } else {
      var whole, fraction := Decimal(Quot(amount, Pow10(exp))), PaddedDecimal(Rem(amount, Pow10(exp)), exp);
      PrintedAmount(amount, exp);
      DecimalLeadingDigit(Quot(amount, Pow10(exp)));
      assert PrintAmount(amount, exp) == whole + "." + fraction;
    }
  }

  lemma PrintedPositive(m: Money)
    requires m.amount >= 0
    ensures ToString(m) == PrintAmount(m.amount, MinorUnits(m.currency)) + " " + m.currency
  {
    var body := PrintAmount(m.amount, MinorUnits(m.currency));
    assert "" + body == body;
  }

  /** The text of an amount: a minus sign if it is negative, the digits of its size, and the code. */
  lemma PrintedText(m: Money)
    ensures m.amount >= 0 ==> ToString(m) == PrintAmount(m.amount, MinorUnits(m.currency)) + " " + m.currency
    ensures m.amount < 0 ==> ToString(m) == "-" + ToString(Money(0 - m.amount, m.currency))
  {
    if m.amount >= 0 {
      PrintedPositive(m);
    } else {
      var positive := Money(0 - m.amount, m.currency);
      var body := PrintAmount(positive.amount, MinorUnits(m.currency));
      PrintedPositive(positive);
      assert "-" + body + " " + m.currency == "-" + (body + " " + m.currency);
    }
  }
}
