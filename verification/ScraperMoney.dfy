/** internal/scraper/money.go: reading prices off pages and out of structured data. */
module ScraperMoney {
  import opened Prelude
  import opened Text
  import opened Strings
  import opened DomainMoney

  datatype Refusal = NoPrice

  type Amount = Result<int, Refusal>

  predicate IsNumeric(c: char) {
    IsDigit(c) || IsSeparator(c)
  }

  /** Drops everything that is neither a digit nor one of the two separators. */
  method KeepNumeric(raw: string) returns (kept: string)
    ensures kept == Filter(raw, IsNumeric)
  {
    kept := "";
    for i := 0 to |raw|
      invariant kept == Filter(raw[..i], IsNumeric)
    {
      assert raw[..i + 1] == raw[..i] + [raw[i]];
      FilterConcat(raw[..i], [raw[i]], IsNumeric);
      if '0' <= raw[i] <= '9' || raw[i] == ',' || raw[i] == '.' {
        kept := kept + [raw[i]];
      }
    }
    assert raw[..|raw|] == raw;
  }

  method IsAllDigits(s: string) returns (all: bool)
    ensures all <==> AllDigits(s)
  {
    for i := 0 to |s|
      invariant AllDigits(s[..i])
    {
      if s[i] < '0' || s[i] > '9' {
        assert !IsDigit(s[i]);
        return false;
      }
    }
    assert s[..|s|] == s;
    return true;
  }

  // ------------------------------------------------------------ the two readers

  /** Whether a separator with that many digits behind it is the decimal point. */
  predicate IsDecimalPoint(digitsAfter: nat, exp: nat) {
    if digitsAfter == 0 then false
    else if exp == 0 then digitsAfter <= 2
    else if digitsAfter == 3 then exp == 3
    else digitsAfter < 3
  }

  function SplitByPosition(cleaned: string, exp: nat): Result<Parts, Refusal> {
    var comma, dot := LastIndex(cleaned, ','), LastIndex(cleaned, '.');
    if comma == -1 && dot == -1 then Ok(Parts(cleaned, ""))
    else
      var sep := if comma > dot then comma else dot;
      if !IsDecimalPoint(|cleaned| - sep - 1, exp) then
        var stripped := StripSeparators(cleaned);
        if stripped == "" then Err(NoPrice) else Ok(Parts(stripped, ""))
      else
        var whole, fraction := StripSeparators(cleaned[..sep]), cleaned[sep + 1..];
        if !AllDigits(fraction) then Err(NoPrice)
        else Ok(Parts(if whole == "" then "0" else whole, fraction))
  }

  function RoundedUp(whole: string, fraction: string): Amount {
    match ParseInt(whole + fraction)
    case None => Err(NoPrice)
    case Some(v) => Ok(Wrap64(v + 1))
  }

  function PositiveOf(digits: string): Amount {
    match ParseInt(digits)
    case None => Err(NoPrice)
    case Some(v) => if v <= 0 then Err(NoPrice) else Ok(v)
  }

  /** Fits the fraction to the currency's precision and reads the whole as minor units. */
  function ToMinor(whole: string, fraction: string, exp: nat): Amount {
    if |fraction| < exp then PositiveOf(whole + (fraction + Repeat('0', exp - |fraction|)))
    else if |fraction| > exp && fraction[exp] >= '5' then RoundedUp(whole, fraction[..exp])
    else PositiveOf(whole + fraction[..exp])
  }

  function AmountOf(raw: string, currency: Currency): Amount {
    var cleaned := Filter(raw, IsNumeric);
    if cleaned == "" then Err(NoPrice)
    else
      match SplitByPosition(cleaned, MinorUnits(currency))
      case Err(e) => Err(e)
      case Ok(p) => ToMinor(p.whole, p.fraction, MinorUnits(currency))
  }

  function DecimalAmountOf(raw: string, currency: Currency): Amount {
    var trimmed := TrimSpace(raw);
    if trimmed == "" then Err(NoPrice)
    else
      var cut := CutAtDot(trimmed);
      if !AllDigits(cut.whole) || !AllDigits(cut.fraction) then Err(NoPrice)
      else ToMinor(cut.whole, cut.fraction, MinorUnits(currency))
  }

  /** `strings.Cut(s, ".")`. */
  function CutAtDot(s: string): Parts {
    var dot := Index(s, '.');
    if dot < 0 then Parts(s, "") else Parts(s[..dot], s[dot + 1..])
  }

  /** Pads, cuts or rounds the fraction in place, then reads the digits. */
  method FinishAmount(whole: string, fraction: string, exp: nat) returns (r: Amount)
    ensures r == ToMinor(whole, fraction, exp)
  {
    var fracPart := fraction;
    if |fracPart| < exp {
      fracPart := fracPart + Repeat('0', exp - |fracPart|);
    } else if |fracPart| > exp {
      var roundUp := fracPart[exp] >= '5';
      fracPart := fracPart[..exp];
      if roundUp {
        return RoundedUp(whole, fracPart);
      }
    } else {
      assert fracPart[..exp] == fracPart;
    }
    var value := ParseInt(whole + fracPart);
    if value.None? || value.value <= 0 {
      return Err(NoPrice);
    }
    return Ok(value.value);
  }

  method ParseAmount(raw: string, currency: Currency) returns (r: Amount)
    ensures r == AmountOf(raw, currency)
  {
    var cleaned := KeepNumeric(raw);
    if cleaned == "" {
      return Err(NoPrice);
    }
    var exp := MinorUnits(currency);
    var split := SplitByPosition(cleaned, exp);
    if split.Err? {
      return Err(split.error);
    }
    r := FinishAmount(split.value.whole, split.value.fraction, exp);
  }

  method ParseDecimalAmount(raw: string, currency: Currency) returns (r: Amount)
    ensures r == DecimalAmountOf(raw, currency)
  {
    var trimmed := TrimSpace(raw);
    if trimmed == "" {
      return Err(NoPrice);
    }
    var cut := CutAtDot(trimmed);
    var wholeOk := IsAllDigits(cut.whole);
    var fractionOk := IsAllDigits(cut.fraction);
    if !wholeOk || (cut.fraction != "" && !fractionOk) {
      return Err(NoPrice);
    }
    r := FinishAmount(cut.whole, cut.fraction, MinorUnits(currency));
  }

  // ------------------------------------------------------------ what they compute

  predicate RoundsUp(fraction: string, exp: nat) {
    |fraction| > exp && fraction[exp] >= '5'
  }

  /**
   * The half-up value, accepted exactly when it is a positive 64-bit number. The one
   * departure: the largest 64-bit amount rounded up wraps to the smallest one.
   */
  function HalfUpOutcome(whole: string, fraction: string, exp: nat): Amount
    requires AllDigits(whole) && AllDigits(fraction)
  {
    var v := HalfUpMinor(whole, fraction, exp);
    if 1 <= v <= MAX_INT64 then Ok(v)
    else if v == MAX_INT64 + 1 && RoundsUp(fraction, exp) then Ok(MIN_INT64)
    else Err(NoPrice)
  }

  lemma ToMinorIsHalfUp(whole: string, fraction: string, exp: nat)
    requires AllDigits(whole) && AllDigits(fraction)
    requires whole != "" || exp > 0
    ensures ToMinor(whole, fraction, exp) == HalfUpOutcome(whole, fraction, exp)
  {
    if |fraction| < exp {
      ShortFraction(whole, fraction, exp);
      ParseIntOfDigits(whole + (fraction + Repeat('0', exp - |fraction|)));
    } else if |fraction| == exp {
      ShortFraction(whole, fraction, exp);
      assert fraction + Repeat('0', 0) == fraction == fraction[..exp];
      ParseIntOfDigits(whole + fraction);
    } else {
      LongFraction(whole, fraction, exp);
      ParseIntOfDigits(whole + fraction[..exp]);
    }
  }

  lemma TrimPlainDecimal(whole: string, fraction: string)
    requires AllDigits(whole) && AllDigits(fraction)
    ensures TrimSpace(whole + "." + fraction) == whole + "." + fraction
    ensures Index(whole + "." + fraction, '.') == |whole|
  {
    assert '.' !in whole;
    IndexAfter(whole, '.', fraction);
    TrimNothing(whole + "." + fraction);
  }

  /**
   * Structured data, for all digit strings: the half-up value of the decimal, except that a
   * zero-decimal currency refuses a number with no whole digits.
   */
  lemma DecimalAmountExact(whole: string, fraction: string, currency: Currency)
    requires AllDigits(whole) && AllDigits(fraction)
    ensures DecimalAmountOf(whole + "." + fraction, currency)
         == if whole == "" && MinorUnits(currency) == 0 then Err(NoPrice)
            else HalfUpOutcome(whole, fraction, MinorUnits(currency))
  {
    var s, exp := whole + "." + fraction, MinorUnits(currency);
    TrimPlainDecimal(whole, fraction);
    assert s[..|whole|] == whole && s[|whole| + 1..] == fraction;
    if whole == "" && exp == 0 {
      assert "" + fraction[..0] == "";
    } else {
      ToMinorIsHalfUp(whole, fraction, exp);
    }
  }

  /** White space around the number does not matter. */
  lemma DecimalIsTrimmed(before: string, raw: string, after: string, currency: Currency)
    requires AllSpace(before) && AllSpace(after)
    ensures DecimalAmountOf(before + raw + after, currency) == DecimalAmountOf(raw, currency)
  {
    TrimPadded(before, raw, after);
  }

  /** A number without a point is a whole number. */
  lemma DecimalWithoutPoint(whole: string, currency: Currency)
    requires AllDigits(whole) && whole != ""
    ensures DecimalAmountOf(whole, currency) == HalfUpOutcome(whole, "", MinorUnits(currency))
  {
    assert '.' !in whole;
    TrimNothing(whole);
    ToMinorIsHalfUp(whole, "", MinorUnits(currency));
  }

  /** Anything else inside the number, or a second point, and there is no price. */
  lemma DecimalRefuses(raw: string, currency: Currency)
    requires (exists c :: c in TrimSpace(raw) && !IsDigit(c) && c != '.')
             || TrimSpace(raw) == ""
             || (exists i, j :: 0 <= i < j < |TrimSpace(raw)| && TrimSpace(raw)[i] == '.' && TrimSpace(raw)[j] == '.')
    ensures DecimalAmountOf(raw, currency) == Err(NoPrice)
  {
    var t := TrimSpace(raw);
    if t != "" {
      var cut := CutAtDot(t);
      if AllDigits(cut.whole) && AllDigits(cut.fraction) {
        OnlyOnePoint(t, cut);
      }
    }
  }

  lemma OnlyOnePoint(t: string, cut: Parts)
    requires cut == CutAtDot(t) && AllDigits(cut.whole) && AllDigits(cut.fraction)
    ensures forall c :: c in t ==> IsDigit(c) || c == '.'
    ensures forall i, j :: 0 <= i < j < |t| ==> t[i] != '.' || t[j] != '.'
  {
    var dot := Index(t, '.');
    if dot >= 0 {
      assert t == cut.whole + ['.'] + cut.fraction;
    }
  }

  /** The wrap-around is reachable: with two decimals, 92233720368547758.075 is read as the most negative amount. */
  lemma DecimalAmountWraps(whole: string, fraction: string, currency: Currency)
    requires whole == Decimal(92233720368547758) && fraction == "075" && MinorUnits(currency) == 2
    ensures DecimalAmountOf(whole + "." + fraction, currency) == Ok(MIN_INT64)
  {
    DecimalAmountExact(whole, fraction, currency);
    ValueOfDecimal(92233720368547758);
    SevenHundredths(fraction);
    JustTooLarge(whole, fraction);
  }

  lemma JustTooLarge(whole: string, fraction: string)
    requires AllDigits(whole) && AllDigits(fraction) && |fraction| == 3 && fraction[2] == '5'
    requires Value(whole) == 92233720368547758 && Value(fraction[..2]) == 7
    ensures HalfUpMinor(whole, fraction, 2) == MAX_INT64 + 1
  {
    LongFraction(whole, fraction, 2);
    assert Pow10(2) == 100;
  }

  lemma SevenHundredths(s: string)
    requires s == "075"
    ensures AllDigits(s) && Value(s[..2]) == 7
  {
    assert s[..2][..1] == ['0'];
    OneDigit('0');
  }

  // ------------------------------------------------------------ noise and grouping

  lemma {:induction false} StripNumeric(s: string)
    ensures StripSeparators(Filter(s, IsNumeric)) == DigitsOf(s)
  {
    if s != "" {
      var head := if IsNumeric(s[0]) then [s[0]] else "";
      FilterConcat(head, Filter(s[1..], IsNumeric), NotSeparator);
      StripNumeric(s[1..]);
      assert Filter(head, NotSeparator) == if IsDigit(s[0]) then [s[0]] else "";
    }
  }

  predicate NoSeparator(s: string) {
    '.' !in s && ',' !in s
  }

  lemma {:induction false} NumericOfTail(s: string)
    requires NoSeparator(s)
    ensures Filter(s, IsNumeric) == DigitsOf(s)
  {
    if s != "" {
      NumericOfTail(s[1..]);
    }
  }

  lemma NothingIsNoPrice(exp: nat)
    ensures HalfUpOutcome("", "", exp) == Err(NoPrice)
  {
    assert HalfUpMinor("", "", exp) == 0 by {
      ShortFraction("", "", exp);
      ValueOfZeros(exp);
      assert "" + Repeat('0', exp) == Repeat('0', exp);
    }
  }

  /** A separator in decimal position splits the text there. */
  lemma SplitAtLast(head: string, sep: char, fraction: string, exp: nat)
    requires IsSeparator(sep) && AllDigits(fraction) && IsDecimalPoint(|fraction|, exp)
    ensures SplitByPosition(head + [sep] + fraction, exp)
         == Ok(Parts(if StripSeparators(head) == "" then "0" else StripSeparators(head), fraction))
  {
    var s := head + [sep] + fraction;
    LastSeparator(head, sep, fraction);
    assert s[..|head|] == head && s[|head| + 1..] == fraction;
  }

  lemma LeadingZero(fraction: string, exp: nat)
    requires AllDigits(fraction)
    ensures HalfUpOutcome("0", fraction, exp) == HalfUpOutcome("", fraction, exp)
  {
    ZerosAreNeutral(1, fraction);
    assert Repeat('0', 1) == "0";
    assert "" + fraction == fraction;
  }

  /** A separator in any other position is grouping, and so are all others. */
  lemma SplitNowhere(head: string, sep: char, digits: string, exp: nat)
    requires IsSeparator(sep) && AllDigits(digits) && !IsDecimalPoint(|digits|, exp)
    ensures var s := head + [sep] + digits;
            SplitByPosition(s, exp) == if StripSeparators(s) == "" then Err(NoPrice) else Ok(Parts(StripSeparators(s), ""))
  {
    LastSeparator(head, sep, digits);
  }

  /**
   * What is read from any text with a separator: only digits matter, and the last separator splits them
   * into whole and fraction when it is in decimal position, that is before one or two digits, or before
   * three in a three-decimal currency. Otherwise all digits are the whole part.
   */
  lemma AmountExact(head: string, sep: char, tail: string, currency: Currency)
    requires IsSeparator(sep) && NoSeparator(tail)
    ensures AmountOf(head + [sep] + tail, currency)
         == if 1 <= |DigitsOf(tail)| <= 2 || (|DigitsOf(tail)| == 3 && MinorUnits(currency) == 3)
            then HalfUpOutcome(DigitsOf(head), DigitsOf(tail), MinorUnits(currency))
            else HalfUpOutcome(DigitsOf(head) + DigitsOf(tail), "", MinorUnits(currency))
  {
    var exp, whole, fraction := MinorUnits(currency), DigitsOf(head), DigitsOf(tail);
    NumericOfText(head, sep, tail);
    if IsDecimalPoint(|fraction|, exp) {
      SplitAtLast(Filter(head, IsNumeric), sep, fraction, exp);
      StripNumeric(head);
      ReadDecimal(whole, fraction, exp);
    } else {
      SplitNowhere(Filter(head, IsNumeric), sep, fraction, exp);
      StripNumeric(head + [sep] + tail);
      DigitsOfText(head, sep, tail);
      ReadWhole(whole + fraction, exp);
    }
  }

  lemma NumericOfText(head: string, sep: char, tail: string)
    requires IsSeparator(sep) && NoSeparator(tail)
    ensures Filter(head + [sep] + tail, IsNumeric) == Filter(head, IsNumeric) + [sep] + DigitsOf(tail)
  {
    FilterConcat(head + [sep], tail, IsNumeric);
    FilterConcat(head, [sep], IsNumeric);
    FilterKeepsAll([sep], IsNumeric);
    NumericOfTail(tail);
  }

  lemma DigitsOfText(head: string, sep: char, tail: string)
    requires IsSeparator(sep)
    ensures DigitsOf(head + [sep] + tail) == DigitsOf(head) + DigitsOf(tail)
  {
    FilterConcat(head + [sep], tail, IsDigitChar);
    FilterConcat(head, [sep], IsDigitChar);
    FilterDropsAll([sep], IsDigitChar);
  }

  lemma ReadDecimal(whole: string, fraction: string, exp: nat)
    requires AllDigits(whole) && AllDigits(fraction)
    ensures ToMinor(if whole == "" then "0" else whole, fraction, exp) == HalfUpOutcome(whole, fraction, exp)
  {
    if whole == "" {
      ToMinorIsHalfUp("0", fraction, exp);
      LeadingZero(fraction, exp);
    } else {
      ToMinorIsHalfUp(whole, fraction, exp);
    }
  }

  lemma ReadWhole(digits: string, exp: nat)
    requires AllDigits(digits)
    ensures (if digits == "" then Err(NoPrice) else ToMinor(digits, "", exp)) == HalfUpOutcome(digits, "", exp)
  {
    if digits == "" {
      NothingIsNoPrice(exp);
    } else {
      ToMinorIsHalfUp(digits, "", exp);
    }
  }

  /** A text without separators is read as the whole number its digits spell, if they spell one. */
  lemma AmountWithoutSeparator(text: string, currency: Currency)
    requires NoSeparator(text)
    ensures AmountOf(text, currency) == HalfUpOutcome(DigitsOf(text), "", MinorUnits(currency))
  {
    NumericOfTail(text);
    assert '.' !in DigitsOf(text) && ',' !in DigitsOf(text);
    ReadWhole(DigitsOf(text), MinorUnits(currency));
  }

  /**
   * With one or two digits behind the last separator, any text whatsoever before it counts only
   * through its digits: grouping, spaces, signs and currency names do not change the amount.
   */
  lemma AmountReadsDigits(noise: string, sep: char, fraction: string, currency: Currency)
    requires IsSeparator(sep) && AllDigits(fraction) && 1 <= |fraction| <= 2
    ensures AmountOf(noise + [sep] + fraction, currency)
         == HalfUpOutcome(DigitsOf(noise), fraction, MinorUnits(currency))
  {
    FilterKeepsAll(fraction, IsDigitChar);
    AmountExact(noise, sep, fraction, currency);
  }

  /** Inserting or removing grouping in the whole part never changes what is read. */
  lemma GroupingIsIrrelevant(plain: string, grouped: string, sep: char, fraction: string, currency: Currency)
    requires IsSeparator(sep) && AllDigits(fraction) && 1 <= |fraction| <= 2
    requires DigitsOf(grouped) == DigitsOf(plain)
    ensures AmountOf(grouped + [sep] + fraction, currency) == AmountOf(plain + [sep] + fraction, currency)
  {
    AmountReadsDigits(plain, sep, fraction, currency);
    AmountReadsDigits(grouped, sep, fraction, currency);
  }

  // ------------------------------------------------------------ agreement of the three readers

  /** On a number with one or two decimals that is a positive amount, the three readers agree. */
  lemma ReadersAgree(whole: string, fraction: string, currency: Currency)
    requires AllDigits(whole) && whole != "" && AllDigits(fraction) && 1 <= |fraction| <= 2
    requires IsCurrencyCode(currency)
    requires 1 <= HalfUpMinor(whole, fraction, MinorUnits(currency)) <= MAX_INT64
    ensures var v := HalfUpMinor(whole, fraction, MinorUnits(currency));
            var text := whole + "." + fraction;
            && ParseMoney(text, currency) == Ok(Money(v, currency))
            && AmountOf(text, currency) == Ok(v)
            && DecimalAmountOf(text, currency) == Ok(v)
  {
    var text := whole + "." + fraction;
    DecimalAmountExact(whole, fraction, currency);
    AmountReadsDigits(whole, '.', fraction, currency);
    FilterKeepsAll(whole, IsDigitChar);
    ParsePlainDecimal(whole, '.', fraction, currency);
    BareNumber(whole, fraction, currency);
  }

  /** Both text readers read the text, and as the same amount. */
  predicate Agree(text: string, currency: Currency) {
    var p, a := ParseNumber(text, currency), AmountOf(text, currency);
    p.Ok? && a.Ok? && p.value == Money(a.value, currency)
  }

  /** One separator is used throughout, more than once. */
  predicate Repeated(head: string, sep: char)
    requires IsSeparator(sep)
  {
    sep in head && Other(sep) !in head
  }

  lemma RoundingShrinks(n: nat, d: nat)
    requires d >= 10
    ensures HalfUp(n, d) >= 1 ==> HalfUp(n, d) < n
  {
    var q := HalfUp(n, d);
    assert q * (2 * d) <= 2 * n + d;
    assert q * 20 <= q * (2 * d);
    if q >= 1 {
      assert 2 * d <= q * (2 * d);
    }
  }

  lemma WholeReadingIsLarger(digits: string, fraction: string, exp: nat)
    requires AllDigits(digits) && AllDigits(fraction) && 1 <= |fraction|
    ensures HalfUpMinor(digits, fraction, exp) >= 1 ==>
              HalfUpMinor(digits, fraction, exp) < HalfUpMinor(digits + fraction, "", exp)
    ensures HalfUpMinor(digits, fraction, exp) <= HalfUpMinor(digits + fraction, "", exp)
  {
    var n := Value(digits + fraction) * Pow10(exp);
    assert digits + fraction + "" == digits + fraction;
    assert HalfUp(n, 1) == n;
    assert Pow10(|fraction|) == 10 * Pow10(|fraction| - 1);
    RoundingShrinks(n, Pow10(|fraction|));
  }

  /**
   * With separators inside the whole part the two text readers agree exactly when the amount is positive
   * and no one separator is used throughout. If one is, it is grouping to the one and a decimal point to
   * the other, and ParseMoney reads the larger amount.
   */
  lemma GroupedReadersAgree(head: string, sep: char, fraction: string, currency: Currency)
    requires Grouped(head) && IsSeparator(sep) && AllDigits(fraction) && 1 <= |fraction| <= 2
    requires var m := Meant(head, sep, fraction); HalfUpMinor(m.whole, m.fraction, MinorUnits(currency)) <= MAX_INT64
    ensures var v := HalfUpMinor(DigitsOf(head), fraction, MinorUnits(currency));
            var text := head + [sep] + fraction;
            && ParseNumber(text, currency).Ok?
            && AmountOf(text, currency) == (if v >= 1 then Ok(v) else Err(NoPrice))
            && (Agree(text, currency) <==> v >= 1 && !Repeated(head, sep))
            && (v >= 1 && Repeated(head, sep) ==> ParseNumber(text, currency).value.amount > v)
  {
    ParseGrouped(head, sep, fraction, currency);
    AmountReadsDigits(head, sep, fraction, currency);
    WholeReadingIsLarger(DigitsOf(head), fraction, MinorUnits(currency));
  }

  lemma ThreeDigits(s: string)
    requires |s| == 3 && AllDigits(s)
    ensures Value(s) == 100 * DigitValue(s[0]) + 10 * DigitValue(s[1]) + DigitValue(s[2])
  {
    ValueConcat(s[..2], s[2..]);
    ValueConcat(s[..1], s[1..2]);
    OneDigit(s[0]);
    OneDigit(s[1]);
    OneDigit(s[2]);
    assert s == s[..2] + s[2..] && s[..2] == s[..1] + s[1..2];
    assert s[..1] == [s[0]] && s[1..2] == [s[1]] && s[2..] == [s[2]] && Pow10(1) == 10;
  }

  /** A hundred and twenty-three thousand, four hundred and fifty-six hundredths, or wholes. */
  lemma SixDigits(whole: string, fraction: string)
    requires AllDigits(whole) && AllDigits(fraction) && |fraction| == 2 && whole + fraction == "123" + "456"
    ensures HalfUpMinor(whole, fraction, 2) == 123456
    ensures HalfUpMinor(whole + fraction, "", 2) == 12345600
  {
    var s := whole + fraction;
    assert s + "" == s;
    ThreeDigits("123");
    ThreeDigits("456");
    ValueConcat("123", "456");
    assert Pow10(3) == 1000 && Pow10(2) == 100;
  }

  lemma TwoReadingsOf(head: string, fraction: string, currency: Currency)
    requires Grouped(head) && Repeated(head, '.') && AllDigits(fraction) && |fraction| == 2
    requires DigitsOf(head) + fraction == "123" + "456" && MinorUnits(currency) == 2
    ensures ParseNumber(head + ['.'] + fraction, currency) == Ok(Money(12345600, currency))
    ensures AmountOf(head + ['.'] + fraction, currency) == Ok(123456)
  {
    SixDigits(DigitsOf(head), fraction);
    ParseGrouped(head, '.', fraction, currency);
    AmountReadsDigits(head, '.', fraction, currency);
  }

  lemma HeadDigits(head: string)
    requires head == "1" + ['.'] + "234"
    ensures DigitsOf(head) == "1" + "234" && Grouped(head) && Repeated(head, '.')
  {
    DigitsOfText("1", '.', "234");
    FilterKeepsAll("1", IsDigitChar);
    FilterKeepsAll("234", IsDigitChar);
  }

  lemma HeadReadings(head: string, fraction: string, currency: Currency)
    requires head == "1" + ['.'] + "234" && fraction == "56" && MinorUnits(currency) == 2
    ensures ParseNumber(head + ['.'] + fraction, currency) == Ok(Money(12345600, currency))
    ensures AmountOf(head + ['.'] + fraction, currency) == Ok(123456)
  {
    HeadDigits(head);
    assert DigitsOf(head) + fraction == "123" + "456";
    TwoReadingsOf(head, fraction, currency);
  }

  /** "1.234.56" is read as 123456.00 by the one and as 1234.56 by the other. */
  lemma TwoReadings(text: string, currency: Currency)
    requires text == "1.234.56" && MinorUnits(currency) == 2
    ensures ParseNumber(text, currency) == Ok(Money(12345600, currency))
    ensures AmountOf(text, currency) == Ok(123456)
  {
    assert text == text[..5] + ['.'] + text[6..];
    HeadReadings(text[..5], text[6..], currency);
  }

  /** Without a currency code in the text the fallback currency is used. */
  lemma BareNumber(whole: string, fraction: string, currency: Currency)
    requires AllDigits(whole) && AllDigits(fraction) && IsCurrencyCode(currency)
    ensures ParseMoney(whole + "." + fraction, currency) == ParseNumber(whole + "." + fraction, currency)
  {
    var text := whole + "." + fraction;
    TrimPlainDecimal(whole, fraction);
    NormalizeOfCode(currency);
    FieldsOfOneWord(text);
    FilterKeepsAll(text, NotGrouping);
  }

  /** The wrap-around is there for text, too: 9223372036854775807.5 in a currency without decimals. */
  lemma AmountWraps(text: string, currency: Currency)
    requires text == Decimal(MAX_INT64) + ['.'] + "5" && MinorUnits(currency) == 0
    ensures AmountOf(text, currency) == Ok(MIN_INT64)
  {
    var whole := Decimal(MAX_INT64);
    AmountReadsDigits(whole, '.', "5", currency);
    FilterKeepsAll(whole, IsDigitChar);
    ValueOfDecimal(MAX_INT64);
    LongFraction(whole, "5", 0);
    assert "5"[..0] == "" && Value("") == 0;
  }

  // ------------------------------------------------------------ print, then read

  lemma CodeHasNoDigits(c: Currency)
    requires IsCurrencyCode(c)
    ensures Filter(" " + c, IsNumeric) == ""
  {
    FilterDropsAll(" " + c, IsNumeric);
  }

  lemma NumericOfPrinted(m: Money)
    requires m.amount >= 0 && IsCurrencyCode(m.currency)
    ensures Filter(ToString(m), IsNumeric) == PrintAmount(m.amount, MinorUnits(m.currency))
  {
    var body := PrintAmount(m.amount, MinorUnits(m.currency));
    assert ToString(m) == body + (" " + m.currency) by {
      assert "" + body == body;
    }
    FilterConcat(body, " " + m.currency, IsNumeric);
    CodeHasNoDigits(m.currency);
    FilterKeepsAll(body, IsNumeric);
    assert body + "" == body;
  }

  /** Printing and reading a price off a page, at every precision: exactly the positive amounts survive. */
  lemma PrintThenReadAmount(m: Money)
    requires 0 <= m.amount <= MAX_INT64 && IsCurrencyCode(m.currency)
    ensures AmountOf(ToString(m), m.currency) == if m.amount > 0 then Ok(m.amount) else Err(NoPrice)
  {
    var exp := MinorUnits(m.currency);
    NumericOfPrinted(m);
    if exp == 0 {
      ReadPrintedWhole(m.amount);
    } else {
      ReadPrintedFraction(m.amount, exp);
    }
  }

  lemma ReadPrintedWhole(amount: nat)
    requires amount <= MAX_INT64
    ensures SplitByPosition(Decimal(amount), 0) == Ok(Parts(Decimal(amount), ""))
    ensures ToMinor(Decimal(amount), "", 0) == if amount > 0 then Ok(amount) else Err(NoPrice)
  {
    var s := Decimal(amount);
    assert '.' !in s && ',' !in s;
    assert s + ""[..0] == s;
    ValueOfDecimal(amount);
    ParseIntOfDigits(s);
  }

  lemma ReadPrintedFraction(amount: nat, exp: nat)
    requires amount <= MAX_INT64 && (exp == 2 || exp == 3)
    ensures var split := SplitByPosition(PrintAmount(amount, exp), exp);
            split.Ok? && ToMinor(split.value.whole, split.value.fraction, exp)
                         == if amount > 0 then Ok(amount) else Err(NoPrice)
  {
    var whole := Decimal(Quot(amount, Pow10(exp)));
    var fraction := PaddedDecimal(Rem(amount, Pow10(exp)), exp);
    PrintedAmount(amount, exp);
    SplitAtLast(whole, '.', fraction, exp);
    FilterKeepsAll(whole, NotSeparator);
    ToMinorIsHalfUp(whole, fraction, exp);
  }
}
