/** Monetary amounts of the expense engine, held as integer cents.

    An amount is a `DecimalField(max_digits=10, decimal_places=2)`: at most
    eight digits before the point and two after it, so an amount of `c` cents
    satisfies -10^10 < c < 10^10. */
module Money {
  import opened Wrappers

  const AmountBound: int := 10_000_000_000

  /** An amount the decimal field can hold, in cents. */
  type Amount = c: int | -AmountBound < c < AmountBound

  function Abs(x: int): int { if x < 0 then -x else x }

  /** `a / n` rounded to the nearest integer, a tie going to the even
      neighbour: Python's `round(Decimal, 2)` under the default context,
      applied to `a` cents shared `n` ways. The result is within half a unit
      of the exact quotient, and on a tie it is even. */
  function DivRoundHalfEven(a: int, n: int): (q: int)
    requires n > 0
    ensures -n <= 2 * (q * n - a) <= n
    ensures (2 * (q * n - a) == n || 2 * (q * n - a) == -n) ==> q % 2 == 0
    ensures a >= 0 ==> q >= 0
  {
    var f, r := a / n, a % n;
    assert a == f * n + r;
    if 2 * r < n then f
    else if 2 * r > n then f + 1
    else if f % 2 == 0 then f
    else f + 1
  }

  /** Rounding to the nearest: no other multiple of `n` lies closer to `a`. */
  lemma DivRoundHalfEvenIsNearest(a: int, n: int, k: int)
    requires n > 0
    ensures Abs(DivRoundHalfEven(a, n) * n - a) <= Abs(k * n - a)
  {
    var q := DivRoundHalfEven(a, n);
    var d := q * n - a;
    var t := k - q;
    ScaledDifference(k, q, n);
    assert k * n - a == d + t * n;
    if t >= 1 {
      AtLeastOneUnit(t, n);
    } else if t <= -1 {
      AtLeastOneUnit(-t, n);
      assert (-t) * n == -(t * n);
    }
  }

  /** The two properties of DivRoundHalfEven's contract pin its result down:
      any integer within half a unit of `a / n` that is even on a tie is it. */
  lemma DivRoundHalfEvenUnique(a: int, n: int, q': int)
    requires n > 0
    requires -n <= 2 * (q' * n - a) <= n
    requires (2 * (q' * n - a) == n || 2 * (q' * n - a) == -n) ==> q' % 2 == 0
    ensures q' == DivRoundHalfEven(a, n)
  {
    var q := DivRoundHalfEven(a, n);
    var d, d' := q * n - a, q' * n - a;
    ScaledDifference(q, q', n);
    // Both lie within half a unit of a / n, so they are at most one unit apart,
    // and exactly one apart only when both sit on the tie, where both are even.
    NeighbouringRoundings(d, d', q, q', n);
  }

  /** Two candidates within half a unit of the same quotient that are both
      even on a tie are the same candidate. */
  lemma NeighbouringRoundings(d: int, d': int, q: int, q': int, n: int)
    requires n > 0 && d - d' == (q - q') * n
    requires -n <= 2 * d <= n && -n <= 2 * d' <= n
    requires (2 * d == n || 2 * d == -n) ==> q % 2 == 0
    requires (2 * d' == n || 2 * d' == -n) ==> q' % 2 == 0
    ensures q == q'
  {
    AtMostOneUnit(q - q', n);
  }

  lemma AtMostOneUnit(t: int, n: int)
    requires n > 0 && -n <= t * n <= n
    ensures -1 <= t <= 1
  {
  }

  lemma ScaledDifference(x: int, y: int, n: int)
    ensures x * n - y * n == (x - y) * n
  {
  }

  lemma AtLeastOneUnit(t: int, n: int)
    requires t >= 1 && n > 0
    ensures t * n >= n
  {
  }

  // ---------------------------------------------------------------------
  // Decimal text of an amount, as `str(Decimal)` writes a two-place value.

  predicate IsDigit(c: char) { '0' <= c <= '9' }

  predicate AllDigits(s: string) { forall i :: 0 <= i < |s| ==> IsDigit(s[i]) }

  function DigitChar(d: nat): (c: char)
    requires d < 10
    ensures IsDigit(c) && (c as int) - ('0' as int) == d
  {
    ('0' as int + d) as char
  }

  /** Decimal digits of `n`, without leading zeros ("0" for zero). */
  function Digits(n: nat): (s: string)
    ensures |s| >= 1 && AllDigits(s)
    ensures |s| > 1 ==> s[0] != '0'
  {
    if n < 10 then [DigitChar(n)] else Digits(n / 10) + [DigitChar(n % 10)]
  }

  /** The number a string of decimal digits denotes. */
  function DigitsValue(s: string): nat
    requires AllDigits(s)
  {
    if s == [] then 0
    else DigitsValue(s[..|s| - 1]) * 10 + ((s[|s| - 1] as int) - ('0' as int))
  }

  lemma {:induction false} DigitsValueOfDigits(n: nat)
    ensures DigitsValue(Digits(n)) == n
  {
    if n >= 10 {
      var s := Digits(n);
      assert s[..|s| - 1] == Digits(n / 10);
      DigitsValueOfDigits(n / 10);
    }
  }

  /** `c` cents written with two decimal places and a leading minus sign
      when negative: 1250 is "12.50", 5 is "0.05", -50 is "-0.50". */
  function FormatCents(c: int): (s: string)
    ensures |s| >= 4 && s[|s| - 3] == '.'
    ensures forall i :: 0 <= i < |s| ==> s[i] != ' '
  {
    var m := Abs(c);
    (if c < 0 then "-" else "") + Digits(m / 100) + "." + [DigitChar(m % 100 / 10), DigitChar(m % 10)]
  }

  /** Reads back text of the shape FormatCents writes. */
  function ParseCents(s: string): Option<int>
  {
    if |s| >= 1 && s[0] == '-' then
      match ParseUnsignedCents(s[1..])
      case Some(v) => Some(-v)
      case None => None
    else ParseUnsignedCents(s)
  }

  function ParseUnsignedCents(s: string): Option<int>
  {
    if |s| >= 4 && s[|s| - 3] == '.' && AllDigits(s[..|s| - 3]) && AllDigits(s[|s| - 2..])
    then Some(DigitsValue(s[..|s| - 3]) * 100 + DigitsValue(s[|s| - 2..]))
    else None
  }

  /** The text of an amount determines the amount. */
  lemma FormatCentsRoundTrip(c: int)
    ensures ParseCents(FormatCents(c)) == Some(c)
  {
    var m := Abs(c);
    var whole := Digits(m / 100);
    var u := whole + "." + [DigitChar(m % 100 / 10), DigitChar(m % 10)];
    assert u[..|u| - 3] == whole;
    assert u[|u| - 2..] == [DigitChar(m % 100 / 10), DigitChar(m % 10)];
    DigitsValueOfDigits(m / 100);
    var tail := u[|u| - 2..];
    assert tail[..1] == [DigitChar(m % 100 / 10)];
    assert tail[..1][..0] == [];
    assert DigitsValue(tail[..1]) == m % 100 / 10;
    assert DigitsValue(tail) == m % 100;
    assert ParseUnsignedCents(u) == Some(m);
    if c < 0 {
      assert FormatCents(c) == "-" + u;
      assert FormatCents(c)[1..] == u;
    } else {
      assert FormatCents(c) == u;
      assert IsDigit(u[0]);
    }
  }
}
