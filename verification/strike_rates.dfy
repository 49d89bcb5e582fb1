/**
  Strike rate: runs per hundred balls, rounded to two decimal places.
  The model works in whole hundredths on the exact rational value, so a
  strike rate of 333.33 is the natural number 33333.
 */
module StrikeRates {

  /** |a - b| */
  function Dist(a: int, b: int): nat
  {
    if a < b then b - a else a - b
  }

  /**
    `q` is `n / d` rounded to the nearest whole number, a tie going to the
    even neighbour (the rule of numpy's `rint`, which `Series.round` applies
    after scaling).
   */
  predicate RoundsTo(n: nat, d: nat, q: nat)
  {
    && d > 0
    && 2 * Dist(n, q * d) <= d
    && (2 * Dist(n, q * d) == d ==> q % 2 == 0)
  }

  function RoundHalfEven(n: nat, d: nat): (q: nat)
    requires d > 0
    ensures RoundsTo(n, d, q)
  {
    var f, m := n / d, n % d;
    FloorNeighbours(n, d, f, m);
    if 2 * m < d then f
    else if 2 * m > d then f + 1
    else if f % 2 == 0 then f
    else f + 1
  }

  /** With `n == f * d + m` and `0 <= m < d`, `n` lies `m` above `f` and `d - m` below `f + 1`. */
  lemma FloorNeighbours(n: nat, d: nat, f: nat, m: nat)
    requires d > 0 && m < d && n == f * d + m
    ensures Dist(n, f * d) == m
    ensures Dist(n, (f + 1) * d) == d - m
  {
    assert (f + 1) * d == f * d + d;
  }

  /** Two or more steps of `d` above `f` lie at least `2 * d` above `f * d`. */
  lemma ScaleAbove(q: nat, f: nat, d: nat)
    requires f + 2 <= q
    ensures q * d >= f * d + 2 * d
  {
    assert q * d == f * d + 2 * d + (q - f - 2) * d;
  }

  /** One or more steps of `d` below `f` lie at least `d` below `f * d`. */
  lemma ScaleBelow(q: nat, f: nat, d: nat)
    requires q + 1 <= f
    ensures q * d + d <= f * d
  {
    assert f * d == q * d + d + (f - q - 1) * d;
  }

  /** The rounding rule leaves no choice: at most one whole number satisfies it. */
  lemma {:induction false} RoundsToUnique(n: nat, d: nat, q: nat)
    requires RoundsTo(n, d, q)
    ensures q == RoundHalfEven(n, d)
  {
    // Only the floor `f` of `n / d` and `f + 1` are within half of `d`;
    // between those two the remainder decides.
    var f, m := n / d, n % d;
    FloorNeighbours(n, d, f, m);
    if q >= f + 2 {
      ScaleAbove(q, f, d);
    } else if q + 1 <= f {
      ScaleBelow(q, f, d);
    }
  }

  /** Strike rate in hundredths: 100 * runs / balls, rounded to two decimal places. */
  function StrikeRate(runs: nat, balls: nat): (sr: nat)
    requires balls > 0
    ensures RoundsTo(10000 * runs, balls, sr)
  {
    RoundHalfEven(10000 * runs, balls)
  }
}
