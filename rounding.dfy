/**
 * Rounding an exact quotient `p / c` to hundredths. A result `r` stands for the
 * decimal `r / 100`; "within half a hundredth of p / c" is written without
 * division as `2 * (r * c) - c <= 200 * p <= 2 * (r * c) + c`.
 */
module Rounding {

  /**
   * Nearest hundredth of `p / c`, an exact tie going up. For `p >= 0` this is
   * what `Number.prototype.toFixed(2)` does to the exact quotient.
   */
  function RoundHalfUp(p: int, c: int): (r: int)
    requires c > 0
    ensures 2 * (r * c) - c <= 200 * p < 2 * (r * c) + c
  {
    var q := (100 * p) / c;
    var rem := (100 * p) % c;
    assert 100 * p == q * c + rem;
    assert (q + 1) * c == q * c + c;
    if 2 * rem >= c then q + 1 else q
  }

  /**
   * Nearest hundredth of `p / c`, an exact tie going to the even neighbour.
   * This is what Python's `round(x, 2)` does to the exact quotient.
   */
  function RoundHalfEven(p: int, c: int): (r: int)
    requires c > 0
    ensures 2 * (r * c) - c <= 200 * p <= 2 * (r * c) + c
    ensures 200 * p == 2 * (r * c) - c || 200 * p == 2 * (r * c) + c ==> r % 2 == 0
  {
    var q := (100 * p) / c;
    var rem := (100 * p) % c;
    assert 100 * p == q * c + rem;
    assert (q + 1) * c == q * c + c;
    if 2 * rem < c then q
    else if 2 * rem > c then q + 1
    else if q % 2 == 0 then q
    else q + 1
  }

  /** A positive multiple of a positive `c` is at least `c`. */
  lemma {:induction false} MultipleAtLeast(d: int, c: int)
    requires c > 0
    ensures d >= 1 ==> d * c >= c
  {
    if d > 1 {
      MultipleAtLeast(d - 1, c);
      assert d * c == (d - 1) * c + c;
    }
  }

  /** How far apart `r * c` and `s * c` are, for integers `r` and `s` one or more apart. */
  lemma ScaledGap(r: int, s: int, c: int)
    requires c > 0
    ensures r - s >= 1 ==> r * c - s * c >= c
    ensures r - s >= 2 ==> r * c - s * c >= 2 * c
    ensures r - s == 1 ==> r * c - s * c == c
  {
    assert r * c - s * c == (r - s) * c;
    assert (r - s) * c - c == (r - s - 1) * c;
    MultipleAtLeast(r - s, c);
    MultipleAtLeast(r - s - 1, c);
  }

  /** Rounding half up is the only hundredth that meets its contract. */
  lemma RoundHalfUpIsUnique(p: int, c: int, r: int)
    requires c > 0
    requires 2 * (r * c) - c <= 200 * p < 2 * (r * c) + c
    ensures r == RoundHalfUp(p, c)
  {
    var s := RoundHalfUp(p, c);
    ScaledGap(r, s, c);
    ScaledGap(s, r, c);
  }

  /** Rounding half to even is the only hundredth that meets its contract. */
  lemma RoundHalfEvenIsUnique(p: int, c: int, r: int)
    requires c > 0
    requires 2 * (r * c) - c <= 200 * p <= 2 * (r * c) + c
    requires 200 * p == 2 * (r * c) - c || 200 * p == 2 * (r * c) + c ==> r % 2 == 0
    ensures r == RoundHalfEven(p, c)
  {
    // r and s are at most one apart; one apart puts both on the same tie,
    // where only an even one may sit
    var s := RoundHalfEven(p, c);
    ScaledGap(r, s, c);
    ScaledGap(s, r, c);
  }

  /** A whole number of hundredths rounds to itself, either way. */
  lemma RoundingExactHundredths(k: int, c: int)
    requires c > 0
    ensures RoundHalfUp(k * c, c) == 100 * k
    ensures RoundHalfEven(k * c, c) == 100 * k
  {
    assert 200 * (k * c) == 2 * ((100 * k) * c);
    RoundHalfUpIsUnique(k * c, c, 100 * k);
    RoundHalfEvenIsUnique(k * c, c, 100 * k);
  }

  /** Rounding half up never reverses the order of two quotients over the same divisor. */
  lemma RoundHalfUpMonotone(p: int, p': int, c: int)
    requires c > 0 && p <= p'
    ensures RoundHalfUp(p, c) <= RoundHalfUp(p', c)
  {
    ScaledGap(RoundHalfUp(p, c), RoundHalfUp(p', c), c);
  }

  /** Rounding half to even never reverses the order of two quotients over the same divisor. */
  lemma RoundHalfEvenMonotone(p: int, p': int, c: int)
    requires c > 0 && p <= p'
    ensures RoundHalfEven(p, c) <= RoundHalfEven(p', c)
  {
    ScaledGap(RoundHalfEven(p, c), RoundHalfEven(p', c), c);
  }

  /** An exact quotient p / c lies between lo and hi when p lies between lo * c and hi * c. */
  lemma RealQuotientBounds(p: int, c: int, lo: int, hi: int)
    requires c > 0 && lo * c <= p <= hi * c
    ensures lo as real <= p as real / c as real <= hi as real
  {
    assert (lo * c) as real == lo as real * c as real;
    assert (hi * c) as real == hi as real * c as real;
  }

  /** A larger grade point times the same positive credits gives at least as many points. */
  lemma ScaledPointsMonotone(g: int, g': int, credits: int)
    requires g <= g' && credits > 0
    ensures g * credits <= g' * credits
  {
  }

  /** Over one positive divisor, the exact quotient is monotone in its numerator. */
  lemma RealQuotientMonotone(p: int, p': int, c: int)
    requires c > 0 && p <= p'
    ensures p as real / c as real <= p' as real / c as real
  {
  }
}
