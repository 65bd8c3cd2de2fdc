/**
 The per-field price rounding of the collator (collectData.js:79-82).

 Each price is shifted two decimal places up, rounded to an integer by
 `Math.round`, `Math.ceil` or `Math.floor`, and shifted back down. The
 source performs the shifts on the decimal string of the number (`x + 'e2'`,
 `n + 'e-2'`), which is an exact decimal shift; here prices are exact reals,
 the shift up is a multiplication by 100, and a rounded price is kept as its
 whole number of cents `n`, which stands for the number `n / 100`.
 */
module Prices {

  /** The number a whole count of cents stands for (`n + 'e-2'`). */
  function CentsValue(n: int): real {
    n as real / 100.0
  }

  function Abs(x: real): real {
    if x < 0.0 then -x else x
  }

  // ---------------------------------------------------------------------
  // Reference definitions: what each rounding rule must produce.

  /** `n` cents is `x` rounded to the nearest cent, an exact half going up. */
  predicate IsRoundedCents(x: real, n: int) {
    x - 0.005 < CentsValue(n) <= x + 0.005
  }

  /** `n` cents is the least whole number of cents not below `x`. */
  predicate IsCeilingCents(x: real, n: int) {
    x <= CentsValue(n) < x + 0.01
  }

  /** `n` cents is the greatest whole number of cents not above `x`. */
  predicate IsFloorCents(x: real, n: int) {
    x - 0.01 < CentsValue(n) <= x
  }

  // ---------------------------------------------------------------------
  // The JavaScript integer rounding functions on exact reals.

  /** `Math.round`: the nearest integer, halves rounded towards +infinity. */
  function MathRound(x: real): (n: int)
    ensures x - 0.5 < n as real <= x + 0.5
  {
    (x + 0.5).Floor
  }

  /** `Math.ceil`: the least integer not below `x`. */
  function MathCeil(x: real): (n: int)
    ensures x <= n as real < x + 1.0
  {
    -((-x).Floor)
  }

  /** `Math.floor`: the greatest integer not above `x`. */
  function MathFloor(x: real): (n: int)
    ensures x - 1.0 < n as real <= x
  {
    x.Floor
  }

  // ---------------------------------------------------------------------
  // The three rules of the collator.

  /** The open and close rule: `Number(Math.round(x + 'e2') + 'e-2')`. */
  function RoundCents(x: real): (n: int)
    ensures IsRoundedCents(x, n)
  {
    MathRound(x * 100.0)
  }

  /** The high rule: `Number(Math.ceil(x + 'e2') + 'e-2')`. */
  function CeilCents(x: real): (n: int)
    ensures IsCeilingCents(x, n)
  {
    MathCeil(x * 100.0)
  }

  /** The low rule: `Number(Math.floor(x + 'e2') + 'e-2')`. */
  function FloorCents(x: real): (n: int)
    ensures IsFloorCents(x, n)
  {
    MathFloor(x * 100.0)
  }

  // ---------------------------------------------------------------------
  // The reference definitions pin their result down uniquely, so the
  // contracts above determine the functions completely.

  lemma RoundedCentsUnique(x: real, n1: int, n2: int)
    requires IsRoundedCents(x, n1) && IsRoundedCents(x, n2)
    ensures n1 == n2
  {
  }

  lemma CeilingCentsUnique(x: real, n1: int, n2: int)
    requires IsCeilingCents(x, n1) && IsCeilingCents(x, n2)
    ensures n1 == n2
  {
  }

  lemma FloorCentsUnique(x: real, n1: int, n2: int)
    requires IsFloorCents(x, n1) && IsFloorCents(x, n2)
    ensures n1 == n2
  {
  }

  // ---------------------------------------------------------------------
  // A price that already has two decimals passes every rule unchanged.

  lemma RoundCentsKeepsCents(n: int)
    ensures RoundCents(CentsValue(n)) == n
  {
  }

  lemma CeilCentsKeepsCents(n: int)
    ensures CeilCents(CentsValue(n)) == n
  {
  }

  lemma FloorCentsKeepsCents(n: int)
    ensures FloorCents(CentsValue(n)) == n
  {
  }

  // ---------------------------------------------------------------------
  // Extremal characterisations against every whole number of cents.

  /** The high is the least two-decimal value that is not below the true high. */
  lemma CeilCentsIsLeast(x: real, m: int)
    requires x <= CentsValue(m)
    ensures CeilCents(x) <= m
  {
  }

  /** The low is the greatest two-decimal value that is not above the true low. */
  lemma FloorCentsIsGreatest(x: real, m: int)
    requires CentsValue(m) <= x
    ensures m <= FloorCents(x)
  {
  }

  /** Open and close are no further from the input than any other two-decimal
      value, and of two equally near candidates the larger is chosen. */
  lemma RoundCentsIsNearest(x: real, m: int)
    ensures Abs(x - CentsValue(RoundCents(x))) <= Abs(x - CentsValue(m))
    ensures Abs(x - CentsValue(m)) == Abs(x - CentsValue(RoundCents(x))) ==> m <= RoundCents(x)
  {
  }

  // ---------------------------------------------------------------------
  // Order facts used by the collated rows.

  lemma RoundCentsMonotonic(x: real, y: real)
    requires x <= y
    ensures RoundCents(x) <= RoundCents(y)
  {
  }

  /** Rounding never leaves the interval that ceiling and floor span. */
  lemma RoundCentsBetween(x: real)
    ensures FloorCents(x) <= RoundCents(x) <= CeilCents(x)
  {
  }
}
