/**
 The Wilson score interval over the reals. `root` stands for `math.sqrt(...)`: any non-negative number
 with the right square. Three scripts carry a copy of the computation.
 */
module Wilson {
  import opened Common

  const Z: real := 1.959963984540054

  function Rate(k: int, n: int): real
    requires n > 0
  {
    k as real / n as real
  }

  /** The argument of the square root. */
  function Radicand(k: int, n: int): real
    requires n > 0
  {
    var total := n as real;
    Rate(k, n) * (1.0 - Rate(k, n)) / total + Z * Z / (4.0 * total * total)
  }

  predicate IsRoot(k: int, n: int, root: real)
    requires n > 0
  {
    root >= 0.0 && root * root == Radicand(k, n)
  }

  // bench/gate1_holdout.py and scripts/evaluate_gate1.py, before rounding.

  function Centre(k: int, n: int): real
    requires n > 0
  {
    Rate(k, n) + Z * Z / (2.0 * n as real)
  }

  function Denominator(n: int): real
    requires n > 0
  {
    1.0 + Z * Z / n as real
  }

  function Lower(k: int, n: int, root: real): real
    requires n > 0
  {
    assert Denominator(n) > 0.0;
    (Centre(k, n) - Z * root) / Denominator(n)
  }

  function Upper(k: int, n: int, root: real): real
    requires n > 0
  {
    assert Denominator(n) > 0.0;
    (Centre(k, n) + Z * root) / Denominator(n)
  }

  // scripts/run_r2_r3_acceptance.py divides first and clamps.

  function SampledLower(k: int, n: int, root: real): real
    requires n > 0
  {
    assert Denominator(n) > 0.0;
    Max(0.0, Centre(k, n) / Denominator(n) - Z * root / Denominator(n))
  }

  function SampledUpper(k: int, n: int, root: real): real
    requires n > 0
  {
    assert Denominator(n) > 0.0;
    Min(1.0, Centre(k, n) / Denominator(n) + Z * root / Denominator(n))
  }

  // ---------------------------------------------------------------- the interval in the two numbers that matter

  // With a = z^2 / n and m = z * root, the interval is (p + a/2 - m)/(1 + a) to (p + a/2 + m)/(1 + a).

  ghost predicate Margin(a: real, p: real, m: real) {
    a > 0.0 && m >= 0.0 && m * m == a * p * (1.0 - p) + a * a / 4.0
  }

  lemma SquareIncreases(x: real, y: real)
    requires 0.0 <= x < y
    ensures x * x < y * y
  {
    PositiveProduct(y - x, y + x);
    assert y * y - x * x == (y - x) * (y + x);
  }

  lemma SquareLess(x: real, y: real)
    requires y >= 0.0 && x * x < y * y
    ensures x < y
  {
    if y < x {
      SquareIncreases(y, x);
    }
  }

  lemma SquareAtMost(x: real, y: real)
    requires y >= 0.0 && x * x <= y * y
    ensures x <= y && -x <= y
  {
    if y < x {
      SquareIncreases(y, x);
    }
    if y < -x {
      SquareIncreases(y, -x);
    }
  }

  lemma NonNegativeProduct(x: real, y: real)
    requires x >= 0.0 && y >= 0.0
    ensures x * y >= 0.0
  {
  }

  lemma PositiveProduct(x: real, y: real)
    requires x > 0.0 && y > 0.0
    ensures x * y > 0.0
  {
  }

  /** The margin reaches from the centre past the rate. */
  lemma MarginCoversRate(a: real, p: real, m: real)
    requires Margin(a, p, m) && 0.0 <= p <= 1.0
    ensures a * (p - 0.5) <= m && a * (0.5 - p) <= m
    ensures 0.0 < p < 1.0 ==> a * (p - 0.5) < m
  {
    var x := a * (p - 0.5);
    var gap := a * (1.0 + a) * (p * (1.0 - p));
    assert m * m - x * x == gap by {
      assert x * x == a * a * (p * p - p + 0.25);
      assert gap == a * (p * (1.0 - p)) + a * a * (p * (1.0 - p));
    }
    NonNegativeProduct(p, 1.0 - p);
    NonNegativeProduct(a * (1.0 + a), p * (1.0 - p));
    SquareAtMost(x, m);
    if 0.0 < p < 1.0 {
      PositiveProduct(p, 1.0 - p);
      PositiveProduct(a, 1.0 + a);
      PositiveProduct(a * (1.0 + a), p * (1.0 - p));
      SquareLess(x, m);
    }
  }

  /** It does not reach past 0 and 1. */
  lemma MarginStaysInside(a: real, p: real, m: real)
    requires Margin(a, p, m) && 0.0 <= p <= 1.0
    ensures m <= p + a / 2.0
    ensures p + a / 2.0 + m <= 1.0 + a
  {
    var x, y := p + a / 2.0, 1.0 - p + a / 2.0;
    assert x * x - m * m == p * p * (1.0 + a) by {
      assert x * x == p * p + p * a + a * a / 4.0;
    }
    assert y * y - m * m == (1.0 - p) * (1.0 - p) * (1.0 + a) by {
      var q := 1.0 - p;
      assert y * y == q * q + q * a + a * a / 4.0;
      assert m * m == a * (p * q) + a * a / 4.0;
      assert q * a - a * (p * q) == q * q * a;
    }
    NonNegativeProduct(p * p, 1.0 + a);
    NonNegativeProduct((1.0 - p) * (1.0 - p), 1.0 + a);
    SquareAtMost(m, x);
    SquareAtMost(m, y);
  }

  lemma MarginDifference(a: real, p: real, m: real, q: real, w: real)
    requires Margin(a, p, m) && Margin(a, q, w)
    ensures (m - w) * (m + w) == (q - p) * (a * (p + q - 1.0))
  {
    assert (m - w) * (m + w) == m * m - w * w;
    assert m * m - w * w == a * (p * (1.0 - p)) - a * (q * (1.0 - q));
    assert p * (1.0 - p) - q * (1.0 - q) == (q - p) * (p + q - 1.0);
    assert a * (p * (1.0 - p)) - a * (q * (1.0 - q)) == a * ((q - p) * (p + q - 1.0));
  }

  /** A larger rate moves the upper end up, even where it shrinks the margin. */
  lemma UpperEndIncreases(a: real, p: real, m: real, q: real, w: real)
    requires Margin(a, p, m) && Margin(a, q, w) && 0.0 <= p < q <= 1.0
    ensures p + m < q + w
  {
    if w < m {
      var e := MarginGap(a, p, m, q, w);
      DividesOut(q - p, e, m - w, m + w);
    }
  }

  lemma MarginGap(a: real, p: real, m: real, q: real, w: real) returns (e: real)
    requires Margin(a, p, m) && Margin(a, q, w) && 0.0 <= p < q <= 1.0 && w < m
    ensures (m - w) * (m + w) == (q - p) * e && e < m + w
  {
    e := a * (p + q - 1.0);
    MarginDifference(a, p, m, q, w);
    RatesPassOne(a, p, q, m - w, m + w);
    MarginsCoverRates(a, p, m, q, w);
  }

  lemma MarginsCoverRates(a: real, p: real, m: real, q: real, w: real)
    requires Margin(a, p, m) && Margin(a, q, w) && 0.0 < p < 1.0 && 0.0 <= q <= 1.0
    ensures a * (p + q - 1.0) < m + w
  {
    MarginCoversRate(a, p, m);
    MarginCoversRate(a, q, w);
    HalvesAddUp(a, p, q);
  }

  lemma RatesPassOne(a: real, p: real, q: real, x: real, y: real)
    requires a > 0.0 && p < q && x > 0.0 && y > 0.0 && x * y == (q - p) * (a * (p + q - 1.0))
    ensures p + q > 1.0
  {
    PositiveProduct(x, y);
    if p + q <= 1.0 {
      NonNegativeProduct(a, 1.0 - p - q);
      NonNegativeProduct(q - p, a * (1.0 - p - q));
    }
  }

  lemma HalvesAddUp(a: real, p: real, q: real)
    ensures a * (p - 0.5) + a * (q - 0.5) == a * (p + q - 1.0)
  {
  }

  lemma DividesOut(d: real, e: real, x: real, y: real)
    requires d > 0.0 && 0.0 < y && e < y && x * y == d * e
    ensures x < d
  {
    PositiveProduct(d, y - e);
    if d <= x {
      NonNegativeProduct(x - d, y);
    }
  }

  // ---------------------------------------------------------------- the interval itself

  function Squeeze(n: int): (a: real)
    requires n > 0
    ensures a > 0.0
  {
    PositiveProduct(Z, Z);
    Z * Z / n as real
  }

  lemma RateInRange(k: int, n: int)
    requires 0 <= k <= n && n > 0
    ensures 0.0 <= Rate(k, n) <= 1.0
  {
    var p, total := Rate(k, n), n as real;
    assert p * total == k as real;
  }

  lemma RateIncreases(j: int, k: int, n: int)
    requires j < k && n > 0
    ensures Rate(j, n) < Rate(k, n)
  {
    var p, q, total := Rate(j, n), Rate(k, n), n as real;
    assert p * total == j as real && q * total == k as real;
    if q <= p {
      NonNegativeProduct(p - q, total);
    }
  }

  lemma RootIsMargin(k: int, n: int, root: real)
    requires n > 0 && IsRoot(k, n, root)
    ensures Margin(Squeeze(n), Rate(k, n), Z * root)
    ensures Denominator(n) == 1.0 + Squeeze(n) && Centre(k, n) == Rate(k, n) + Squeeze(n) / 2.0
  {
    var total, a, v := n as real, Squeeze(n), Rate(k, n) * (1.0 - Rate(k, n));
    HalfOf(Z * Z, total);
    ScaledRadicand(Z * Z, v, total);
    assert (Z * root) * (Z * root) == (Z * Z) * (root * root);
    assert a * Rate(k, n) * (1.0 - Rate(k, n)) == a * v;
  }

  lemma HalfOf(z2: real, total: real)
    requires total > 0.0
    ensures z2 / (2.0 * total) == z2 / total / 2.0
  {
    var h := z2 / (2.0 * total);
    assert h * (2.0 * total) == z2;
    assert z2 / total == 2.0 * h;
  }

  lemma ScaledRadicand(z2: real, v: real, total: real)
    requires total > 0.0
    ensures z2 * (v / total + z2 / (4.0 * total * total)) == z2 / total * v + z2 / total * (z2 / total) / 4.0
  {
    var a, b, c := z2 / total, v / total, z2 / (4.0 * total * total);
    assert z2 == a * total && v == b * total;
    assert c * (4.0 * total * total) == a * total;
    assert 4.0 * c * total == a by {
      Cancel(4.0 * c * total, a, total);
    }
    assert z2 * c == a * (total * c);
    assert z2 * b == a * (total * b);
  }

  lemma Cancel(x: real, y: real, t: real)
    requires t > 0.0 && x * t == y * t
    ensures x == y
  {
    assert (x - y) * t == 0.0;
  }

  lemma QuotientAtMost(x: real, y: real, d: real)
    requires d > 0.0 && x <= y
    ensures x / d <= y / d
  {
    var u, v := x / d, y / d;
    assert u * d == x && v * d == y;
    if v < u {
      PositiveProduct(u - v, d);
    }
  }

  lemma QuotientLess(x: real, y: real, d: real)
    requires d > 0.0 && x < y
    ensures x / d < y / d
  {
    var u, v := x / d, y / d;
    assert u * d == x && v * d == y;
    if v <= u {
      NonNegativeProduct(u - v, d);
    }
  }

  lemma QuotientOfProduct(x: real, d: real)
    requires d > 0.0
    ensures x * d / d == x
  {
  }

  /** The interval contains the observed rate and lies in the unit interval. */
  lemma IntervalContainsRate(k: int, n: int, root: real)
    requires 0 <= k <= n && n > 0 && IsRoot(k, n, root)
    ensures 0.0 <= Lower(k, n, root) <= Rate(k, n) <= Upper(k, n, root) <= 1.0
  {
    RateInRange(k, n);
    RootIsMargin(k, n, root);
    EndsContainRate(Squeeze(n), Rate(k, n), Z * root);
  }

  lemma EndsContainRate(a: real, p: real, m: real)
    requires Margin(a, p, m) && 0.0 <= p <= 1.0
    ensures 0.0 <= (p + a / 2.0 - m) / (1.0 + a) <= p <= (p + a / 2.0 + m) / (1.0 + a) <= 1.0
  {
    EndsAroundRate(a, p, m);
    DivideChain(p + a / 2.0 - m, p, p + a / 2.0 + m, 1.0 + a);
  }

  lemma DivideChain(low: real, p: real, high: real, d: real)
    requires d > 0.0 && 0.0 <= low <= p * d <= high <= d
    ensures 0.0 <= low / d <= p <= high / d <= 1.0
  {
    QuotientAtMost(0.0, low, d);
    QuotientAtMost(low, p * d, d);
    QuotientAtMost(p * d, high, d);
    QuotientAtMost(high, d, d);
    QuotientOfProduct(p, d);
  }

  lemma EndsAroundRate(a: real, p: real, m: real)
    requires Margin(a, p, m) && 0.0 <= p <= 1.0
    ensures 0.0 <= p + a / 2.0 - m <= p * (1.0 + a) <= p + a / 2.0 + m <= 1.0 + a
  {
    MarginCoversRate(a, p, m);
    MarginStaysInside(a, p, m);
    assert p * (1.0 + a) == p + a * (p - 0.5) + a / 2.0;
    assert a * (0.5 - p) == -(a * (p - 0.5));
  }

  /** One more success moves the upper end up. */
  lemma UpperIncreases(j: int, k: int, n: int, r: real, s: real)
    requires 0 <= j < k <= n && n > 0 && IsRoot(j, n, r) && IsRoot(k, n, s)
    ensures Upper(j, n, r) < Upper(k, n, s)
  {
    var a := Squeeze(n);
    RateInRange(j, n);
    RateInRange(k, n);
    RateIncreases(j, k, n);
    RootIsMargin(j, n, r);
    RootIsMargin(k, n, s);
    UpperEndIncreases(a, Rate(j, n), Z * r, Rate(k, n), Z * s);
    QuotientLess(Centre(j, n) + Z * r, Centre(k, n) + Z * s, 1.0 + a);
  }

  /** The clamps never change a value, and the three copies agree before rounding. */
  lemma CopiesAgree(k: int, n: int, root: real)
    requires 0 <= k <= n && n > 0 && IsRoot(k, n, root)
    ensures SampledLower(k, n, root) == Lower(k, n, root)
    ensures SampledUpper(k, n, root) == Upper(k, n, root)
  {
    IntervalContainsRate(k, n, root);
    QuotientOfSum(Centre(k, n), Z * root, Denominator(n));
  }

  lemma QuotientOfSum(c: real, m: real, d: real)
    requires d > 0.0
    ensures (c + m) / d == c / d + m / d && (c - m) / d == c / d - m / d
  {
    var x, y := c / d, m / d;
    assert x * d == c && y * d == m;
    QuotientOfProduct(x + y, d);
    QuotientOfProduct(x - y, d);
  }

  // ---------------------------------------------------------------- how many negatives a bound of 1% needs

  lemma UpperWithoutSuccesses(n: int, root: real)
    requires n > 0 && IsRoot(0, n, root)
    ensures Upper(0, n, root) == Z * Z / (n as real + Z * Z)
  {
    var a, m, total := Squeeze(n), Z * root, n as real;
    RootIsMargin(0, n, root);
    assert Rate(0, n) == 0.0;
    assert m * m == (a / 2.0) * (a / 2.0);
    SquareAtMost(m, a / 2.0);
    SquareAtMost(a / 2.0, m);
    var d := total + Z * Z;
    assert total * a == Z * Z;
    assert (1.0 + a) * total == d;
    assert a / (1.0 + a) == Z * Z / d by {
      var x := a / (1.0 + a);
      assert x * (1.0 + a) == a;
      assert x * d == Z * Z by { assert x * ((1.0 + a) * total) == a * total; }
    }
  }

  /** 381 is where the bound is reached; at 380 it is missed by more than half of a sixth digit. */
  lemma WithoutSuccessesOnePercentNeeds381(n: int, root: real)
    requires n > 0 && IsRoot(0, n, root)
    ensures n >= 381 ==> Upper(0, n, root) <= 0.01
    ensures n < 381 ==> Upper(0, n, root) > 0.0100005
  {
    UpperWithoutSuccesses(n, root);
    var d, u := n as real + Z * Z, Upper(0, n, root);
    assert 3.841458820694 < Z * Z < 3.841458820695;
    assert u * d == Z * Z;
    if n >= 381 {
      if u > 0.01 {
        PositiveProduct(u - 0.01, d);
      }
    } else {
      if u <= 0.0100005 {
        NonNegativeProduct(0.0100005 - u, d);
      }
    }
  }
}
