/** Decimal text of integers as UTF-16 code units, and reading it back. */
module Decimal {
  /** Integers whose `String(n)` has no exponent. */
  predicate IsPlain(n: int) { -1_000_000_000_000_000_000_000 < n < 1_000_000_000_000_000_000_000 }

  type PlainInt = n: int | IsPlain(n)

  const DIGIT_ZERO := 48
  const MINUS := 45

  predicate IsDigit(u: int) { DIGIT_ZERO <= u < DIGIT_ZERO + 10 }

  function Digits(n: nat): (d: seq<int>)
    ensures |d| >= 1
    ensures forall i | 0 <= i < |d| :: IsDigit(d[i])
    ensures d[0] == DIGIT_ZERO ==> n == 0
  {
    if n < 10 then [DIGIT_ZERO + n] else Digits(n / 10) + [DIGIT_ZERO + n % 10]
  }

  /** Length of the longest prefix made of digits. */
  function DigitRun(s: seq<int>): (k: nat)
    ensures k <= |s|
    ensures forall i | 0 <= i < k :: IsDigit(s[i])
    ensures k < |s| ==> !IsDigit(s[k])
  {
    if s == [] || !IsDigit(s[0]) then 0 else 1 + DigitRun(s[1..])
  }

  function DigitsValue(d: seq<int>): (n: int)
    requires forall i | 0 <= i < |d| :: IsDigit(d[i])
    ensures n >= 0
  {
    assert d != [] ==> IsDigit(d[|d| - 1]);
    if d == [] then 0 else 10 * DigitsValue(d[..|d| - 1]) + (d[|d| - 1] - DIGIT_ZERO)
  }

  lemma DigitsRoundTrip(n: nat)
    ensures DigitsValue(Digits(n)) == n
  {
    if n >= 10 {
      DigitsRoundTrip(n / 10);
      var d := Digits(n);
      assert d[..|d| - 1] == Digits(n / 10);
    } else {
      assert Digits(n)[..0] == [];
      assert DigitsValue([]) == 0;
    }
  }

  /** Followed by anything but a digit, decimal text is read back whole. */
  lemma DigitRunOfDigits(n: nat, rest: seq<int>)
    requires rest == [] || !IsDigit(rest[0])
    ensures DigitRun(Digits(n) + rest) == |Digits(n)|
    ensures (Digits(n) + rest)[..|Digits(n)|] == Digits(n)
  {
    var d := Digits(n);
    var s := d + rest;
    assert forall i | 0 <= i < |d| :: IsDigit(s[i]);
    assert |d| < |s| ==> !IsDigit(s[|d|]);
  }

  /** `String(n)` for an integer below the exponent range. */
  function Text(n: int): (t: seq<int>)
    ensures |t| >= 1
    ensures t[0] == MINUS || IsDigit(t[0])
    ensures forall i | 0 <= i < |t| :: IsDigit(t[i]) || t[i] == MINUS
  {
    if n < 0 then [MINUS] + Digits(-n) else Digits(n)
  }

  function Pow10(k: nat): (p: nat)
    ensures p >= 1
  {
    if k == 0 then 1 else 10 * Pow10(k - 1)
  }

  lemma {:induction false} DigitsWidth(n: nat, k: nat)
    requires Pow10(k) <= n < Pow10(k + 1)
    ensures |Digits(n)| == k + 1
    decreases k
  {
    if k == 0 {
      assert Pow10(1) == 10 * Pow10(0) == 10;
    } else {
      assert Pow10(k) == 10 * Pow10(k - 1) && Pow10(k + 1) == 10 * Pow10(k);
      DigitsWidth(n / 10, k - 1);
    }
  }

  /** Milliseconds since 1970 have thirteen digits from the year 2001 to the year 2286. */
  lemma ThirteenDigits(n: int)
    requires 1_000_000_000_000 <= n < 10_000_000_000_000
    ensures |Text(n)| == 13
  {
    assert Pow10(4) == 10000;
    assert Pow10(8) == 100000000;
    assert Pow10(12) == 1000000000000;
    assert Pow10(13) == 10 * Pow10(12);
    DigitsWidth(n, 12);
  }

  lemma TextInjective(m: int, n: int)
    requires Text(m) == Text(n)
    ensures m == n
  {
    if m < 0 {
      assert n < 0;
      assert Digits(-m) == Text(m)[1..] == Text(n)[1..] == Digits(-n);
      DigitsRoundTrip(-m);
      DigitsRoundTrip(-n);
    } else {
      assert n >= 0;
      DigitsRoundTrip(m);
      DigitsRoundTrip(n);
    }
  }

  // ---- Numerals in ASCII ----

  /** Decimal digits in ASCII, without leading zeros. */
  predicate IsNumeral(t: seq<int>) {
    && |t| >= 1 && (forall i | 0 <= i < |t| :: 48 <= t[i] <= 57) && (t[0] == 48 ==> |t| == 1)
  }

  function NumeralValue(t: seq<int>): int
    requires forall i | 0 <= i < |t| :: 48 <= t[i] <= 57
  {
    if t == [] then 0 else 10 * NumeralValue(t[..|t| - 1]) + (t[|t| - 1] - 48)
  }

  predicate ReadsAsInt(t: seq<int>, n: int) {
    if t != [] && t[0] == 45 then IsNumeral(t[1..]) && n < 0 && NumeralValue(t[1..]) == -n
    else IsNumeral(t) && NumeralValue(t) == n
  }

  lemma {:induction false} DigitsReadBack(n: nat)
    ensures IsNumeral(Digits(n)) && NumeralValue(Digits(n)) == n
    decreases n
  {
    var d := Digits(n);
    if n < 10 {
      assert d[..0] == [];
      assert NumeralValue([]) == 0;
    } else {
      DigitsReadBack(n / 10);
      assert d[..|d| - 1] == Digits(n / 10);
    }
  }

  lemma IntReadBack(n: int)
    ensures ReadsAsInt(Text(n), n)
  {
    if n < 0 {
      DigitsReadBack(-n);
      assert Text(n)[1..] == Digits(-n);
    } else {
      DigitsReadBack(n);
    }
  }

  lemma {:induction false} NumeralDecided(a: seq<int>, b: seq<int>)
    requires IsNumeral(a) && IsNumeral(b) && NumeralValue(a) == NumeralValue(b)
    ensures a == b
    decreases |a|
  {
    var m, n := |a| - 1, |b| - 1;
    LeadingDigit(a);
    LeadingDigit(b);
    assert NumeralValue(a) % 10 == a[m] - 48 && NumeralValue(b) % 10 == b[n] - 48;
    if m == 0 || n == 0 {
      assert |a| == 1 ==> NumeralValue(a[..0]) == 0;
      assert |b| == 1 ==> NumeralValue(b[..0]) == 0;
      assert m == 0 && n == 0;
    } else {
      NumeralDecided(a[..m], b[..n]);
    }
  }

  /** A numeral of more than one digit is worth at least ten. */
  lemma {:induction false} LeadingDigit(a: seq<int>)
    requires IsNumeral(a)
    ensures NumeralValue(a) >= 0 && (|a| > 1 ==> NumeralValue(a) >= 10) && (a[0] != 48 ==> NumeralValue(a) >= 1)
    decreases |a|
  {
    if |a| == 1 {
      assert NumeralValue(a[..0]) == 0;
    } else {
      LeadingDigit(a[..|a| - 1]);
    }
  }

  lemma IntDecided(a: seq<int>, b: seq<int>, n: int)
    requires ReadsAsInt(a, n) && ReadsAsInt(b, n)
    ensures a == b
  {
    if IsNumeral(a) { LeadingDigit(a); }
    if IsNumeral(b) { LeadingDigit(b); }
    if n < 0 {
      NumeralDecided(a[1..], b[1..]);
      assert a == [45] + a[1..] && b == [45] + b[1..];
    } else {
      NumeralDecided(a, b);
    }
  }
}
