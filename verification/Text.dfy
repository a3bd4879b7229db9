/** Decimal digit strings: printing, reading, and how the two relate. */
module Text {
  import opened Prelude

  predicate IsDigit(c: char) {
    '0' <= c <= '9'
  }

  predicate AllDigits(s: string) {
    forall i :: 0 <= i < |s| ==> IsDigit(s[i])
  }

  function DigitValue(c: char): nat
    requires IsDigit(c)
  {
    (c as int) - ('0' as int)
  }

  function DigitChar(d: nat): (c: char)
    requires d < 10
    ensures IsDigit(c) && DigitValue(c) == d
  {
    ('0' as int + d) as char
  }

  function Pow10(n: nat): (p: nat)
    ensures p >= 1
  {
    if n == 0 then 1 else 10 * Pow10(n - 1)
  }

  /** The number a digit string denotes; the empty string denotes 0. */
  function Value(s: string): nat
    requires AllDigits(s)
  {
    if s == "" then 0 else 10 * Value(s[..|s| - 1]) + DigitValue(s[|s| - 1])
  }

  /** The `%d` rendering of a non-negative number. */
  function Decimal(n: nat): (s: string)
    ensures |s| >= 1 && AllDigits(s)
  {
    if n < 10 then [DigitChar(n)] else Decimal(n / 10) + [DigitChar(n % 10)]
  }

  function Quot(n: nat, d: nat): (q: nat)
    requires d > 0
    ensures q * d <= n < q * d + d
  {
    n / d
  }

  function Rem(n: nat, d: nat): (r: nat)
    requires d > 0
    ensures r < d && n == Quot(n, d) * d + r
  {
    n % d
  }

  function Repeat(c: char, n: nat): (s: string)
    ensures |s| == n && forall i :: 0 <= i < n ==> s[i] == c
  {
    seq(n, _ => c)
  }

  /** The `%0*d` rendering: padded with zeros on the left to at least `width`. */
  function PaddedDecimal(n: nat, width: nat): (s: string)
    ensures AllDigits(s)
  {
    var d := Decimal(n);
    if |d| >= width then d else Repeat('0', width - |d|) + d
  }

  lemma {:induction false} ValueOfDecimal(n: nat)
    ensures Value(Decimal(n)) == n
  {
    if n < 10 {
      assert Decimal(n)[..0] == "";
    } else {
      var d := Decimal(n);
      assert d[..|d| - 1] == Decimal(n / 10);
      ValueOfDecimal(n / 10);
    }
  }

  lemma {:induction false} ValueConcat(a: string, b: string)
    requires AllDigits(a) && AllDigits(b)
    ensures AllDigits(a + b)
    ensures Value(a + b) == Value(a) * Pow10(|b|) + Value(b)
  {
    if b == "" {
      assert a + b == a;
    } else {
      var b' := b[..|b| - 1];
      assert (a + b)[..|a + b| - 1] == a + b';
      ValueConcat(a, b');
      TenTimes(Value(a), Pow10(|b'|), Value(b'), DigitValue(b[|b| - 1]));
    }
  }

  lemma TenTimes(a: nat, p: nat, b: nat, d: nat)
    ensures 10 * (a * p + b) + d == a * (10 * p) + (10 * b + d)
  {
  }

  lemma {:induction false} ValueOfZeros(n: nat)
    ensures Value(Repeat('0', n)) == 0
  {
    if n > 0 {
      assert Repeat('0', n)[..n - 1] == Repeat('0', n - 1);
      ValueOfZeros(n - 1);
    }
  }

  /** A string of n digits denotes a number below 10^n. */
  lemma {:induction false} ValueBound(s: string)
    requires AllDigits(s)
    ensures Value(s) < Pow10(|s|)
  {
    if s != "" {
      ValueBound(s[..|s| - 1]);
    }
  }

  lemma {:induction false} Pow10Add(m: nat, n: nat)
    ensures Pow10(m + n) == Pow10(m) * Pow10(n)
  {
    if m > 0 {
      Pow10Add(m - 1, n);
      TenTimes(Pow10(n), Pow10(m - 1), 0, 0);
    }
  }

  /** Only zero is printed with a leading zero. */
  lemma {:induction false} DecimalLeadingDigit(n: nat)
    ensures Decimal(n)[0] == '0' <==> n == 0
  {
    if n >= 10 {
      DecimalLeadingDigit(n / 10);
      assert Decimal(n)[0] == Decimal(n / 10)[0];
    } else {
      assert DigitValue(Decimal(n)[0]) == n;
    }
  }

  /** A number needs more than k digits exactly when it is at least 10^k. */
  lemma {:induction false} DecimalLength(n: nat, k: nat)
    requires k >= 1
    ensures |Decimal(n)| <= k <==> n < Pow10(k)
  {
    if n >= 10 && k > 1 {
      DecimalLength(n / 10, k - 1);
    }
  }

  lemma PaddedValue(n: nat, width: nat)
    requires n < Pow10(width) && width >= 1
    ensures |PaddedDecimal(n, width)| == width
    ensures Value(PaddedDecimal(n, width)) == n
  {
    DecimalLength(n, width);
    ValueOfDecimal(n);
    if |Decimal(n)| < width {
      ValueOfZeros(width - |Decimal(n)|);
      ZerosAreNeutral(width - |Decimal(n)|, Decimal(n));
    }
  }

  lemma ZerosAreNeutral(k: nat, s: string)
    requires AllDigits(s)
    ensures AllDigits(Repeat('0', k) + s) && Value(Repeat('0', k) + s) == Value(s)
  {
    ValueOfZeros(k);
    ValueConcat(Repeat('0', k), s);
    assert 0 * Pow10(|s|) == 0;
  }

  /** The length of the longest prefix made of digits. */
  function DigitRun(s: string): (n: nat)
    ensures n <= |s| && AllDigits(s[..n])
    ensures n < |s| ==> !IsDigit(s[n])
  {
    if s == "" || !IsDigit(s[0]) then 0 else
      var n := DigitRun(s[1..]);
      assert s[..n + 1] == [s[0]] + s[1..][..n];
      n + 1
  }

  lemma {:induction false} DigitRunOfPrefix(a: string, x: string)
    requires AllDigits(a)
    requires x == "" || !IsDigit(x[0])
    ensures DigitRun(a + x) == |a|
  {
    if a == "" {
      assert a + x == x;
    } else {
      assert (a + x)[1..] == a[1..] + x;
      DigitRunOfPrefix(a[1..], x);
    }
  }

  /** A digit string is recovered from itself followed by a tail that starts with no digit. */
  lemma DigitPrefixUnique(a: string, b: string, x: string, y: string)
    requires AllDigits(a) && AllDigits(b)
    requires x == "" || !IsDigit(x[0])
    requires y == "" || !IsDigit(y[0])
    requires a + x == b + y
    ensures a == b && x == y
  {
    DigitRunOfPrefix(a, x);
    DigitRunOfPrefix(b, y);
    assert a == (a + x)[..|a|] && b == (b + y)[..|a|];
    assert x == (a + x)[|a|..] && y == (b + y)[|a|..];
  }

  // ------------------------------------------------------------ strconv.ParseInt

  /** Base-10 `strconv.ParseInt` into 64 bits: an optional sign, then digits. */
  function ParseInt(s: string): (r: Option<int>)
    ensures r.Some? ==> FitsInt64(r.value)
  {
    var signed := s != "" && (s[0] == '-' || s[0] == '+');
    var digits := if signed then s[1..] else s;
    if digits == "" || !AllDigits(digits) then None
    else
      var n := if signed && s[0] == '-' then 0 - Value(digits) else Value(digits);
      if FitsInt64(n) then Some(n) else None
  }

  lemma ParseIntOfDigits(s: string)
    requires AllDigits(s) && s != ""
    ensures ParseInt(s) == if Value(s) <= MAX_INT64 then Some(Value(s)) else None
  {
    assert IsDigit(s[0]);
  }

  /** A sign before the digits is understood; the most negative number is in range. */
  lemma ParseIntOfSigned(digits: string)
    requires AllDigits(digits) && digits != ""
    ensures ParseInt("+" + digits) == if Value(digits) <= MAX_INT64 then Some(Value(digits)) else None
    ensures ParseInt("-" + digits) == if Value(digits) <= MAX_INT64 + 1 then Some(0 - Value(digits)) else None
  {
    assert ("+" + digits)[1..] == digits && ("-" + digits)[1..] == digits;
  }

  /** Nothing but an optional sign and digits is a number. */
  lemma ParseIntRefuses(s: string, i: nat)
    requires i < |s| && !IsDigit(s[i]) && (i > 0 || (s[0] != '+' && s[0] != '-'))
    ensures ParseInt(s) == None
  {
    if s[0] == '-' || s[0] == '+' {
      assert s[1..][i - 1] == s[i];
    }
  }

  // ------------------------------------------------------------ half-up rounding

  /** floor(n/d + 1/2), the rounding every component of the tracker uses. */
  function HalfUp(n: nat, d: nat): (q: nat)
    requires d > 0
  {
    (2 * n + d) / (2 * d)
  }

  /** The quotient is pinned down by the half-unit interval around it. */
  lemma HalfUpUnique(n: nat, d: nat, q: nat)
    requires d > 0
    requires 2 * q * d <= 2 * n + d < 2 * q * d + 2 * d
    ensures HalfUp(n, d) == q
  {
    var m, e := 2 * n + d, 2 * d;
    var k := m / e;
    assert m == k * e + m % e && 0 <= m % e < e;
    assert q * e == 2 * q * d;
    assert (k + 1) * e == k * e + e && (q + 1) * e == q * e + e;
    MulCancel(q, k + 1, e);
    MulCancel(k, q + 1, e);
  }

  lemma MulCancel(a: nat, b: nat, e: nat)
    requires a * e < b * e
    ensures a < b
  {
  }

  /** Dropping decimal digits and looking only at the first one dropped is half-up rounding. */
  lemma FirstDroppedDigitDecides(kept: string, dropped: string)
    requires AllDigits(kept) && AllDigits(dropped) && dropped != ""
    ensures AllDigits(kept + dropped)
    ensures HalfUp(Value(kept + dropped), Pow10(|dropped|))
         == Value(kept) + (if dropped[0] >= '5' then 1 else 0)
  {
    ValueConcat(kept, dropped);
    FirstDigitBounds(dropped);
    HalfUpSplit(Value(kept), Value(dropped), Pow10(|dropped|), if dropped[0] >= '5' then 1 else 0);
  }

  lemma HalfUpSplit(k: nat, v: nat, d: nat, up: nat)
    requires d > 0
    requires 2 * up * d <= 2 * v + d < 2 * up * d + 2 * d
    ensures HalfUp(k * d + v, d) == k + up
  {
    assert 2 * (k + up) * d == 2 * (k * d) + 2 * up * d;
    HalfUpUnique(k * d + v, d, k + up);
  }

  lemma LeadingDigit(s: string)
    requires AllDigits(s) && s != ""
    ensures Value(s) == DigitValue(s[0]) * Pow10(|s| - 1) + Value(s[1..])
  {
    assert s == [s[0]] + s[1..];
    ValueConcat([s[0]], s[1..]);
    OneDigit(s[0]);
  }

  lemma OneDigit(c: char)
    requires IsDigit(c)
    ensures Value([c]) == DigitValue(c)
  {
    assert [c][..0] == "";
  }

  /** The first digit of a fraction tells whether it reaches one half. */
  lemma FirstDigitBounds(s: string)
    requires AllDigits(s) && s != ""
    ensures s[0] >= '5' ==> Pow10(|s|) <= 2 * Value(s)
    ensures 2 * Value(s) < 2 * Pow10(|s|)
    ensures s[0] < '5' ==> 2 * Value(s) < Pow10(|s|)
  {
    LeadingDigit(s);
    ValueBound(s[1..]);
    var f, p, t := DigitValue(s[0]), Pow10(|s| - 1), Value(s[1..]);
    assert Pow10(|s|) == 10 * p;
    LeadingDigitBounds(f, p, t);
  }

  lemma LeadingDigitBounds(f: nat, p: nat, t: nat)
    requires f < 10 && t < p
    ensures f >= 5 ==> 10 * p <= 2 * (f * p + t)
    ensures f * p + t < 10 * p
    ensures f < 5 ==> 2 * (f * p + t) < 10 * p
  {
    assert f * p <= 9 * p;
    assert f >= 5 ==> f * p >= 5 * p;
    assert f < 5 ==> f * p <= 4 * p;
  }
}

/** The `strings` helpers the parsers are built from. */
module Strings {

  function Filter(s: string, keep: char -> bool): (r: string)
    ensures forall i :: 0 <= i < |r| ==> keep(r[i])
  {
    if s == "" then "" else (if keep(s[0]) then [s[0]] else "") + Filter(s[1..], keep)
  }

  lemma {:induction false} FilterConcat(a: string, b: string, keep: char -> bool)
    ensures Filter(a + b, keep) == Filter(a, keep) + Filter(b, keep)
  {
    if a == "" {
      assert a + b == b;
    } else {
      assert (a + b)[1..] == a[1..] + b;
      FilterConcat(a[1..], b, keep);
    }
  }

  lemma {:induction false} FilterKeepsAll(s: string, keep: char -> bool)
    requires forall i :: 0 <= i < |s| ==> keep(s[i])
    ensures Filter(s, keep) == s
  {
    if s != "" {
      FilterKeepsAll(s[1..], keep);
    }
  }

  lemma {:induction false} FilterDropsAll(s: string, keep: char -> bool)
    requires forall i :: 0 <= i < |s| ==> !keep(s[i])
    ensures Filter(s, keep) == ""
  {
    if s != "" {
      FilterDropsAll(s[1..], keep);
    }
  }

  /** `strings.Count` of a single character. */
  function Count(s: string, c: char): (n: nat)
    ensures n == 0 <==> c !in s
  {
    if s == "" then 0 else (if s[0] == c then 1 else 0) + Count(s[1..], c)
  }

  lemma {:induction false} CountConcat(a: string, b: string, c: char)
    ensures Count(a + b, c) == Count(a, c) + Count(b, c)
  {
    if a == "" {
      assert a + b == b;
    } else {
      assert (a + b)[1..] == a[1..] + b;
      CountConcat(a[1..], b, c);
    }
  }

  /** `strings.LastIndex` of a single character. */
  function LastIndex(s: string, c: char): (r: int)
    ensures -1 <= r < |s|
    ensures r >= 0 ==> s[r] == c
    ensures forall k :: r < k < |s| ==> s[k] != c
  {
    if s == "" then -1
    else if s[|s| - 1] == c then |s| - 1
    else LastIndex(s[..|s| - 1], c)
  }

  /** `strings.Index` of a single character. */
  function Index(s: string, c: char): (r: int)
    ensures -1 <= r < |s|
    ensures r >= 0 ==> s[r] == c
    ensures r < 0 ==> c !in s
  {
    if s == "" then -1
    else if s[0] == c then 0
    else
      var r := Index(s[1..], c);
      if r < 0 then -1 else r + 1
  }

  lemma {:induction false} IndexAfter(a: string, c: char, b: string)
    requires c !in a
    ensures Index(a + [c] + b, c) == |a|
  {
    if a != "" {
      assert (a + [c] + b)[1..] == a[1..] + [c] + b;
      IndexAfter(a[1..], c, b);
    }
  }

  lemma {:induction false} LastIndexBefore(a: string, c: char, b: string)
    requires c !in b
    ensures LastIndex(a + [c] + b, c) == |a|
  {
    var s := a + [c] + b;
    if b != "" {
      assert s[..|s| - 1] == a + [c] + b[..|b| - 1];
      LastIndexBefore(a, c, b[..|b| - 1]);
    }
  }

  // ------------------------------------------------------------ white space

  /** `unicode.IsSpace`. */
  predicate IsSpace(c: char) {
    || '\U{0009}' <= c <= '\U{000D}' || c == ' ' || c == '\U{0085}' || c == '\U{00A0}'
    || c == '\U{1680}' || '\U{2000}' <= c <= '\U{200A}' || c == '\U{2028}' || c == '\U{2029}'
    || c == '\U{202F}' || c == '\U{205F}' || c == '\U{3000}'
  }

  predicate NoSpace(s: string) {
    forall i :: 0 <= i < |s| ==> !IsSpace(s[i])
  }

  /** `strings.TrimSpace`. */
  function TrimSpace(s: string): string
    decreases |s|
  {
    if s == "" then ""
    else if IsSpace(s[0]) then TrimSpace(s[1..])
    else if IsSpace(s[|s| - 1]) then TrimSpace(s[..|s| - 1])
    else s
  }

  /** `strings.Fields`, with the word read so far as an accumulator. */
  function FieldsFrom(s: string, word: string): seq<string> {
    if s == "" then (if word == "" then [] else [word])
    else if IsSpace(s[0]) then (if word == "" then [] else [word]) + FieldsFrom(s[1..], "")
    else FieldsFrom(s[1..], word + [s[0]])
  }

  function Fields(s: string): seq<string> {
    FieldsFrom(s, "")
  }

  lemma {:induction false} FieldsSkipWord(w: string, rest: string, acc: string)
    requires NoSpace(w)
    ensures FieldsFrom(w + rest, acc) == FieldsFrom(rest, acc + w)
  {
    if w == "" {
      assert w + rest == rest && acc + w == acc;
    } else {
      assert (w + rest)[1..] == w[1..] + rest;
      assert acc + [w[0]] + w[1..] == acc + w;
      FieldsSkipWord(w[1..], rest, acc + [w[0]]);
    }
  }

  lemma FieldsOfOneWord(w: string)
    requires NoSpace(w) && w != ""
    ensures Fields(w) == [w]
  {
    FieldsSkipWord(w, "", "");
    assert w + "" == w && "" + w == w;
  }

  lemma FieldsOfTwoWords(a: string, b: string)
    requires NoSpace(a) && NoSpace(b) && a != "" && b != ""
    ensures Fields(a + " " + b) == [a, b]
  {
    assert a + " " + b == a + (" " + b);
    FieldsSkipWord(a, " " + b, "");
    assert "" + a == a;
    assert (" " + b)[1..] == b;
    FieldsOfOneWord(b);
  }

  /** `strings.Join(_, "")`. */
  function JoinAll(words: seq<string>): string {
    if words == [] then "" else words[0] + JoinAll(words[1..])
  }

  // ------------------------------------------------------------ what trimming and splitting leave

  lemma {:induction false} TrimTrailing(s: string, c: char)
    requires IsSpace(c)
    ensures TrimSpace(s + [c]) == TrimSpace(s)
  {
    var t := s + [c];
    if s == "" {
      assert t[1..] == "";
    } else if IsSpace(s[0]) {
      assert t[1..] == s[1..] + [c];
      TrimTrailing(s[1..], c);
    } else {
      assert t[..|t| - 1] == s;
    }
  }

  predicate AllSpace(s: string) {
    forall i :: 0 <= i < |s| ==> IsSpace(s[i])
  }

  /** White space around a text is trimmed away. */
  lemma {:induction false} TrimPadded(before: string, s: string, after: string)
    requires AllSpace(before) && AllSpace(after)
    ensures TrimSpace(before + s + after) == TrimSpace(s)
    decreases |before| + |after|
  {
    if before != "" {
      assert (before + s + after)[1..] == before[1..] + s + after;
      TrimPadded(before[1..], s, after);
    } else if after != "" {
      var n := |after| - 1;
      assert before + s + after == s + after[..n] + [after[n]];
      TrimTrailing(s + after[..n], after[n]);
      TrimPadded("", s, after[..n]);
      assert "" + s + after[..n] == s + after[..n];
    } else {
      assert before + s + after == s;
    }
  }

  /** A text that begins and ends with something else is left alone. */
  lemma TrimNothing(s: string)
    requires s != "" && !IsSpace(s[0]) && !IsSpace(s[|s| - 1])
    ensures TrimSpace(s) == s
  {
  }

  lemma {:induction false} TrimKeepsEnd(s: string)
    requires s != "" && !IsSpace(s[|s| - 1])
    ensures TrimSpace(s) != "" && TrimSpace(s)[|TrimSpace(s)| - 1] == s[|s| - 1]
  {
    if IsSpace(s[0]) {
      TrimKeepsEnd(s[1..]);
    }
  }

  lemma {:induction false} FieldsTrailing(s: string, c: char, word: string)
    requires IsSpace(c)
    ensures FieldsFrom(s + [c], word) == FieldsFrom(s, word)
  {
    if s == "" {
      assert (s + [c])[1..] == "";
    } else {
      assert (s + [c])[1..] == s[1..] + [c];
      FieldsTrailing(s[1..], c, if IsSpace(s[0]) then "" else word + [s[0]]);
    }
  }

  /** Trimming does not change the words. */
  lemma {:induction false} FieldsOfTrimmed(s: string)
    ensures Fields(TrimSpace(s)) == Fields(s)
    decreases |s|
  {
    if s != "" && IsSpace(s[0]) {
      FieldsOfTrimmed(s[1..]);
    } else if s != "" && IsSpace(s[|s| - 1]) {
      var n := |s| - 1;
      FieldsOfTrimmed(s[..n]);
      FieldsTrailing(s[..n], s[n], "");
      assert s == s[..n] + [s[n]];
    }
  }

  /** A word after a space is the last word. */
  lemma {:induction false} FieldsAppend(s: string, w: string, word: string)
    requires NoSpace(w) && w != ""
    ensures FieldsFrom(s + " " + w, word) == FieldsFrom(s, word) + [w]
  {
    var t := s + " " + w;
    if s == "" {
      assert t[1..] == w;
      FieldsOfOneWord(w);
    } else {
      assert t[1..] == s[1..] + " " + w;
      FieldsAppend(s[1..], w, if IsSpace(s[0]) then "" else word + [s[0]]);
      if IsSpace(s[0]) && word != "" {
        assert [word] + (FieldsFrom(s[1..], "") + [w]) == [word] + FieldsFrom(s[1..], "") + [w];
      }
    }
  }

  predicate NotSpace(c: char) {
    !IsSpace(c)
  }

  /** The words without the space between them. */
  lemma {:induction false} JoinedFields(s: string, word: string)
    ensures JoinAll(FieldsFrom(s, word)) == word + Filter(s, NotSpace)
  {
    if s == "" {
      assert JoinAll([word]) == word + JoinAll([]);
    } else if IsSpace(s[0]) {
      JoinedFields(s[1..], "");
      var rest := FieldsFrom(s[1..], "");
      assert "" + Filter(s[1..], NotSpace) == Filter(s[1..], NotSpace);
      assert [] + rest == rest && ([word] + rest)[1..] == rest;
      assert word == "" ==> word + Filter(s[1..], NotSpace) == Filter(s[1..], NotSpace);
    } else {
      JoinedFields(s[1..], word + [s[0]]);
      assert word + ([s[0]] + Filter(s[1..], NotSpace)) == word + [s[0]] + Filter(s[1..], NotSpace);
    }
  }

  /** The last word ends where a text that does not end in space ends. */
  lemma {:induction false} LastField(s: string, word: string)
    requires s != "" && !IsSpace(s[|s| - 1])
    ensures var f := FieldsFrom(s, word);
            f != [] && f[|f| - 1] != "" && f[|f| - 1][|f[|f| - 1]| - 1] == s[|s| - 1]
  {
    if |s| == 1 {
      assert FieldsFrom(s[1..], word + [s[0]]) == [word + [s[0]]];
    } else {
      LastField(s[1..], if IsSpace(s[0]) then "" else word + [s[0]]);
    }
  }
}
