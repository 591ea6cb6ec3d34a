/** Minimum, maximum and nonlinear facts, each proved alone so that no other proof searches for them. */
module Reals {

  function RealMax(x: real, y: real): (r: real)
    ensures r >= x && r >= y && (r == x || r == y)
  {
    if x >= y then x else y
  }

  function RealMin(x: real, y: real): (r: real)
    ensures r <= x && r <= y && (r == x || r == y)
  {
    if x <= y then x else y
  }

  lemma MulMonotone(x: real, y: real, z: real)
    requires x >= 0.0 && y <= z
    ensures x * y <= x * z
  {
    assert x * (z - y) >= 0.0;
  }

  lemma MulStrict(x: real, y: real, z: real)
    requires x > 0.0 && y < z
    ensures x * y < x * z
  {
    assert x * (z - y) > 0.0;
  }

  lemma UnitProduct(x: real, y: real)
    requires 0.0 <= x <= 1.0 && 0.0 <= y <= 1.0
    ensures 0.0 <= x * y <= 1.0
  {
    assert x * y >= 0.0 by {
      MulMonotone(x, 0.0, y);
    }
    assert x * y <= x by {
      MulMonotone(x, y, 1.0);
    }
  }

  lemma AtLeastOne(x: real, y: real)
    requires x >= 0.0 && y >= 1.0
    ensures x * y >= x
  {
    MulMonotone(x, 1.0, y);
  }

  lemma QuotientTimes(x: real, y: real)
    requires y > 0.0
    ensures (x / y) * y == x
  {}

  lemma QuotientBounds(x: real, y: real, bound: real)
    requires y > 0.0
    ensures x / y > bound <==> x > bound * y
    ensures x / y >= bound <==> x >= bound * y
  {
    QuotientTimes(x, y);
    CompareScaled(y, x / y, bound);
  }

  lemma CompareScaled(x: real, y: real, z: real)
    requires x > 0.0
    ensures y > z <==> y * x > z * x
    ensures y >= z <==> y * x >= z * x
  {
    if y > z {
      MulStrict(x, z, y);
    } else if y < z {
      MulStrict(x, y, z);
    }
  }

  lemma QuotientInverse(x: real, y: real)
    requires x > 0.0 && y > 0.0
    ensures x / y > 0.0 && (x / y) * y == x
    ensures 1.0 / (x / y) == y / x > 0.0 && (y / x) * x == y
  {
    QuotientBounds(x, y, 0.0);
    QuotientBounds(y, x, 0.0);
    QuotientTimes(x, y);
    QuotientTimes(y, x);
    InverseUnique(x / y, y / x, x, y);
  }

  lemma InverseUnique(q: real, r: real, x: real, y: real)
    requires q > 0.0 && x > 0.0 && q * y == x && r * x == y
    ensures 1.0 / q == r
  {
    assert (q * r) * x == q * (r * x);
    CompareScaled(x, q * r, 1.0);
    QuotientTimes(1.0, q);
    CompareScaled(q, 1.0 / q, r);
  }

  lemma Regroup(x: real, y: real, z: real)
    ensures z * (x * y) == x * (y * z)
  {}

  lemma ScaledBelow(x: real, factor: real, dominance: real, strong: real)
    requires x >= 0.0 && factor <= 0.6 * dominance && dominance * x <= strong
    ensures x * factor <= 0.6 * strong
  {
    MulMonotone(x, factor, 0.6 * dominance);
    Regroup(0.6, dominance, x);
  }

  lemma GrowsAtMost(x: real, factor: real)
    requires x > 0.0 && 0.0 < factor <= 1.5
    ensures 0.0 < x * factor <= 1.5 * x
  {
    MulStrict(x, 0.0, factor);
    MulMonotone(x, factor, 1.5);
  }

  /** The effect of boosting: min(1, x * factor) for a factor bounded by dominance. */
  lemma CappedProduct(x: real, factor: real, dominance: real, strong: real)
    requires 0.0 < x <= 1.0 && dominance > 0.0 && dominance * x <= strong
    requires 0.0 < factor <= 1.5 && factor <= 0.6 * dominance
    ensures var y := RealMin(1.0, x * factor);
            0.0 < y <= 1.0 && y <= 1.5 * x && y <= 0.6 * strong
  {
    GrowsAtMost(x, factor);
    ScaledBelow(x, factor, dominance, strong);
  }

  lemma GrownProduct(x: real, y: real, grown: real)
    requires 0.0 <= x && 0.0 <= y && grown <= 1.5 * y
    ensures x * grown <= 1.5 * (x * y)
  {
    MulMonotone(x, grown, 1.5 * y);
    Regroup(1.5, y, x);
  }

  lemma OneGrown(x: real, y: real, x': real, y': real)
    requires 0.0 <= x && 0.0 <= y
    requires (x' == x && y' <= 1.5 * y) || (y' == y && x' <= 1.5 * x)
    ensures x' * y' <= 1.5 * (x * y)
  {
    if x' == x {
      GrownProduct(x, y, y');
    } else {
      GrownProduct(y, x, x');
    }
  }

  lemma UnitShare(x: real, weight: real, limit: real)
    requires 0.0 <= x <= 1.0 && 0.0 <= weight <= limit
    ensures 0.0 <= x * weight <= limit
  {
    MulMonotone(weight, 0.0, x);
    MulMonotone(weight, x, 1.0);
  }

  lemma CappedShrinks(x: real, factor: real)
    requires 0.0 <= x && factor <= 1.0
    ensures RealMin(1.0, x * factor) <= x
  {
    MulMonotone(x, factor, 1.0);
  }

  lemma OneMore(n: nat, x: real)
    requires n > 0
    ensures n as real * x == (n - 1) as real * x + x
  {}

  function Ceiling(x: real): (n: nat)
    requires x >= 0.0
    ensures n as real >= x && (n as real) < x + 1.0
  {
    if x.Floor as real == x then x.Floor else x.Floor + 1
  }

  predicate Covers(n: nat, d: real, x: real) {
    n as real * d >= x
  }

  /** The least number of steps of size d that cover x. */
  function Steps(x: real, d: real): (n: nat)
    requires x >= 0.0 && d > 0.0
    ensures Covers(n, d, x)
    ensures n > 0 ==> !Covers(n - 1, d, x)
  {
    QuotientBounds(x, d, 0.0);
    var n := Ceiling(x / d);
    QuotientBounds(x, d, n as real);
    QuotientBounds(x, d, (n - 1) as real);
    n
  }
}
