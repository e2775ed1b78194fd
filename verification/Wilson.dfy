/**
 * The Wilson score interval in exact reals. The square root is a variable: `root` is any nonnegative number whose
 * square is the radicand.
 */
module Wilson {
  function MaxReal(a: real, b: real): real { if a < b then b else a }

  function MinReal(a: real, b: real): real { if a < b then a else b }

  predicate Counts(k: int, n: int) {
    0 <= k <= n && n > 0
  }

  function Share(k: int, n: int): real
    requires Counts(k, n)
  {
    k as real / n as real
  }

  function Radicand(k: int, n: int, z: real): real
    requires Counts(k, n)
  {
    RadicandOf(Share(k, n), n as real, z)
  }

  function RadicandOf(p: real, m: real, z: real): real
    requires m > 0.0
  {
    var q := 4.0 * m * m;
    NamedProductAbove(4.0 * m, m, q);
    p * (1.0 - p) / m + z * z / q
  }

  predicate IsRoot(root: real, k: int, n: int, z: real)
    requires Counts(k, n)
  {
    root >= 0.0 && root * root == Radicand(k, n, z)
  }

  function Centre(k: int, n: int, z: real): real
    requires Counts(k, n) && z > 0.0
  {
    var p, m := Share(k, n), n as real;
    Scale(n, z);
    (p + z * z / (2.0 * m)) / (1.0 + z * z / m)
  }

  function Half(n: int, z: real, root: real): real
    requires n > 0 && z > 0.0
  {
    Scale(n, z);
    z / (1.0 + z * z / n as real) * root
  }

  function Interval(k: int, n: int, z: real, root: real): (real, real)
    requires Counts(k, n) && z > 0.0
  {
    var centre, half := Centre(k, n, z), Half(n, z, root);
    (MaxReal(0.0, centre - half), MinReal(1.0, centre + half))
  }

  // ---------- small facts about reals ----------

  lemma ProductAtLeast(x: real, y: real)
    requires x >= 0.0 && y >= 0.0
    ensures x * y >= 0.0
  {
  }

  lemma ProductAbove(x: real, y: real)
    requires x > 0.0 && y > 0.0
    ensures x * y > 0.0
  {
  }

  lemma ZeroProduct(x: real, y: real)
    requires y > 0.0 && x * y == 0.0
    ensures x == 0.0
  {
    assert (-x) * y == -(x * y);
    if x > 0.0 { ProductAbove(x, y); }
    if x < 0.0 { ProductAbove(-x, y); }
  }

  lemma QuotientIs(x: real, a: real, y: real)
    requires a != 0.0 && y * a == x
    ensures x / a == y
  {
  }

  lemma QuotientTimes(x: real, a: real)
    requires a != 0.0
    ensures x / a * a == x
  {
  }

  lemma QuotientAbove(x: real, a: real)
    requires x > 0.0 && a > 0.0
    ensures x / a > 0.0
  {
    QuotientTimes(x, a);
    if x / a <= 0.0 { ProductAtLeast(-(x / a), a); }
  }

  lemma Scale(n: int, z: real)
    requires n > 0 && z > 0.0
    ensures z * z / n as real > 0.0
  {
    var m := n as real;
    QuotientAbove(z, m);
    ProductAbove(z, z / m);
    assert z * (z / m) == z * z / m;
  }

  /** Stated of a named product, because the solver rewrites the sign of a square away. */
  lemma NamedProductAbove(x: real, y: real, q: real)
    requires x > 0.0 && y > 0.0 && q == x * y
    ensures q > 0.0
  {
  }

  /** Dividing by a positive number keeps the order. */
  lemma QuotientOrder(x: real, y: real, a: real)
    requires a > 0.0
    ensures x / a <= y <==> x <= y * a
    ensures y <= x / a <==> y * a <= x
  {
    var q := x / a;
    QuotientTimes(x, a);
    TimesOrder(q, y, a);
    TimesOrder(y, q, a);
  }

  lemma TimesOrder(x: real, y: real, a: real)
    requires a > 0.0
    ensures x <= y <==> x * a <= y * a
  {
    assert (y - x) * a == y * a - x * a;
    if x <= y { ProductAtLeast(y - x, a); } else {
      assert (x - y) * a == x * a - y * a;
      ProductAbove(x - y, a);
    }
  }

  /** Among nonnegative bounds the order of squares is the order of numbers. */
  lemma SquareOrder(x: real, y: real)
    requires y >= 0.0
    ensures x * x <= y * y <==> -y <= x <= y
  {
    assert (y - x) * (y + x) == y * y - x * x;
    if -y <= x <= y {
      ProductAtLeast(y - x, y + x);
    } else if x > y {
      ProductAbove(x - y, x + y);
      assert (x - y) * (x + y) == x * x - y * y;
    } else {
      var u, v := -x - y, y - x;
      ProductAbove(u, v);
      assert u * v == x * x - y * y;
    }
  }

  /**
   * The interval in three numbers: the share `p`, the weight `w` of the prior, and `t` with t*t the discriminant.
   * Centre and half-width are (p + w/2) / (1 + w) and t / (1 + w).
   */
  ghost predicate Reduced(p: real, w: real, t: real) {
    0.0 <= p <= 1.0 && w > 0.0 && t >= 0.0 && t * t == w * p * (1.0 - p) + w * w / 4.0
  }

  /** (p + w/2)^2 - t^2 = p^2 (1 + w), so t is at most p + w/2. */
  lemma LowerIsNotNegative(p: real, w: real, t: real)
    requires Reduced(p, w, t)
    ensures t <= p + w / 2.0
  {
    var c := p + w / 2.0;
    assert c * c == p * p + p * w + w * w / 4.0;
    assert w * p * (1.0 - p) == w * p - w * (p * p);
    assert c * c - t * t == p * p + w * (p * p);
    ProductAtLeast(p, p);
    ProductAtLeast(w, p * p);
    SquareOrder(t, c);
  }

  lemma ReducedMirrors(p: real, w: real, t: real)
    requires Reduced(p, w, t)
    ensures Reduced(1.0 - p, w, t)
  {
    assert w * p * (1.0 - p) == w * (1.0 - p) * (1.0 - (1.0 - p));
  }

  /** The distance from p(1 + w) to the centre is w(1/2 - p), whose square is below t^2 by w p (1 - p) (1 + w). */
  lemma ShareIsWithin(p: real, w: real, t: real)
    requires Reduced(p, w, t)
    ensures p + w / 2.0 - t <= p * (1.0 + w) <= p + w / 2.0 + t
  {
    var d := w * (0.5 - p);
    var v := p * (1.0 - p);
    assert p * (1.0 + w) == p + p * w;
    assert d == w / 2.0 - p * w;
    assert (0.5 - p) * (0.5 - p) == 0.25 - v;
    assert d * d == w * w * ((0.5 - p) * (0.5 - p));
    assert d * d == w * w / 4.0 - w * w * v;
    assert w * p * (1.0 - p) == w * v;
    assert t * t - d * d == w * v + w * w * v;
    ProductAtLeast(p, 1.0 - p);
    ProductAtLeast(w, v);
    ProductAtLeast(w, w * v);
    assert w * (w * v) == w * w * v;
    SquareOrder(d, t);
  }

  /** The code's centre and half-width are the reduced ones. */
  lemma Reduce(k: int, n: int, z: real, root: real) returns (p: real, w: real, t: real)
    requires Counts(k, n) && z > 0.0 && IsRoot(root, k, n, z)
    ensures Reduced(p, w, t) && p == Share(k, n) && w == z * z / n as real
    ensures Centre(k, n, z) == (p + w / 2.0) / (1.0 + w) && Half(n, z, root) == t / (1.0 + w)
  {
    p, w, t := Share(k, n), z * z / n as real, z * root;
    Scale(n, z);
    ShareInRange(k, n);
    QuotientTimes(z * z, n as real);
    SquareReduces(p, n as real, z, w, root);
    ProductAtLeast(z, root);
    CentreReduces(n as real, z, w);
    HalfReduces(z, root, 1.0 + w);
  }

  lemma ShareInRange(k: int, n: int)
    requires Counts(k, n)
    ensures 0.0 <= Share(k, n) <= 1.0
  {
    QuotientOrder(k as real, 1.0, n as real);
    QuotientOrder(k as real, 0.0, n as real);
  }

  lemma CentreReduces(m: real, z: real, w: real)
    requires m > 0.0 && w * m == z * z
    ensures z * z / (2.0 * m) == w / 2.0
  {
    assert w / 2.0 * (2.0 * m) == w * m;
    QuotientIs(z * z, 2.0 * m, w / 2.0);
  }

  lemma HalfReduces(z: real, root: real, a: real)
    requires a > 0.0
    ensures z / a * root == z * root / a
  {
    QuotientTimes(z, a);
    assert z / a * root * a == z / a * a * root;
    QuotientIs(z * root, a, z / a * root);
  }

  lemma FourthTimes(u: real, m: real)
    requires m > 0.0
    ensures u / (4.0 * m * m) * (4.0 * m * m) == u
  {
    var q := 4.0 * m * m;
    NamedProductAbove(4.0 * m, m, q);
    QuotientTimes(u, q);
  }

  lemma SquareReduces(p: real, m: real, z: real, w: real, root: real)
    requires m > 0.0 && w * m == z * z
    requires root * root == RadicandOf(p, m, z)
    ensures (z * root) * (z * root) == w * p * (1.0 - p) + w * w / 4.0
  {
    var v := p * (1.0 - p);
    var x, y := v / m, z * z / (4.0 * m * m);
    QuotientTimes(v, m);
    FourthTimes(z * z, m);
    FourthReduces(w, m, y);
    assert (z * root) * (z * root) == z * z * (root * root);
    assert z * z * (root * root) == w * m * x + w * m * y;
    assert w * m * x == w * v by { assert w * m * x == w * (x * m); }
    assert w * v == w * p * (1.0 - p);
  }

  lemma FourthReduces(w: real, m: real, y: real)
    requires m > 0.0 && y * (4.0 * m * m) == w * m
    ensures w * m * y == w * w / 4.0
  {
    var d := 4.0 * (m * y) - w;
    assert d * m == y * (4.0 * m * m) - w * m;
    ZeroProduct(d, m);
    assert w * m * y == w * (m * y);
  }

  /** Centre minus and plus half-width, over their common denominator. */
  lemma OverOneDenominator(c: real, t: real, a: real)
    requires a > 0.0
    ensures c / a - t / a == (c - t) / a
    ensures c / a + t / a == (c + t) / a
    ensures (c / a - t / a) * a == c - t && (c / a + t / a) * a == c + t
  {
    QuotientTimes(c, a);
    QuotientTimes(t, a);
    assert (c / a - t / a) * a == c / a * a - t / a * a;
    assert (c / a + t / a) * a == c / a * a + t / a * a;
    QuotientIs(c - t, a, c / a - t / a);
    QuotientIs(c + t, a, c / a + t / a);
  }

  /** The bounds lie where they should, and the clamping to [0, 1] never changes them. */
  lemma BoundsHoldWithoutClamping(k: int, n: int, z: real, root: real)
    requires Counts(k, n) && z > 0.0 && IsRoot(root, k, n, z)
    ensures var (lo, hi) := Interval(k, n, z, root);
            && 0.0 <= lo <= Share(k, n) <= hi <= 1.0
            && lo == Centre(k, n, z) - Half(n, z, root)
            && hi == Centre(k, n, z) + Half(n, z, root)
  {
    var p, w, t := Reduce(k, n, z, root);
    OverOneDenominator(p + w / 2.0, t, 1.0 + w);
    ReducedBounds(p, w, t);
  }

  lemma ReducedBounds(p: real, w: real, t: real)
    requires Reduced(p, w, t)
    ensures 0.0 <= (p + w / 2.0 - t) / (1.0 + w) <= p <= (p + w / 2.0 + t) / (1.0 + w) <= 1.0
  {
    LowerIsNotNegative(p, w, t);
    ReducedMirrors(p, w, t);
    LowerIsNotNegative(1.0 - p, w, t);
    ShareIsWithin(p, w, t);
    QuotientOrder(p + w / 2.0 - t, 0.0, 1.0 + w);
    QuotientOrder(p + w / 2.0 - t, p, 1.0 + w);
    QuotientOrder(p + w / 2.0 + t, p, 1.0 + w);
    QuotientOrder(p + w / 2.0 + t, 1.0, 1.0 + w);
  }

  /** The score test does not reject `x` as the true share: the distance is within z standard deviations at `x`. */
  predicate NotRejected(p: real, w: real, x: real) {
    (p - x) * (p - x) <= w * (x * (1.0 - x))
  }

  /** The interval is the set of shares that the score test does not reject: an independent definition of it. */
  lemma IntervalIsTheScoreTest(k: int, n: int, z: real, root: real, x: real)
    requires Counts(k, n) && z > 0.0 && IsRoot(root, k, n, z)
    ensures var (lo, hi) := Interval(k, n, z, root);
            lo <= x <= hi <==> NotRejected(Share(k, n), z * z / n as real, x)
  {
    var p, w, t, lo, hi := IntervalReduces(k, n, z, root);
    ScoreTestBetween(p, w, t, x, lo, hi);
  }

  lemma IntervalReduces(k: int, n: int, z: real, root: real) returns (p: real, w: real, t: real, lo: real, hi: real)
    requires Counts(k, n) && z > 0.0 && IsRoot(root, k, n, z)
    ensures Reduced(p, w, t) && p == Share(k, n) && w == z * z / n as real
    ensures Interval(k, n, z, root) == (lo, hi)
    ensures lo * (1.0 + w) == p + w / 2.0 - t && hi * (1.0 + w) == p + w / 2.0 + t
  {
    BoundsHoldWithoutClamping(k, n, z, root);
    p, w, t := Reduce(k, n, z, root);
    OverOneDenominator(p + w / 2.0, t, 1.0 + w);
    lo, hi := Centre(k, n, z) - Half(n, z, root), Centre(k, n, z) + Half(n, z, root);
  }

  lemma ScoreTestBetween(p: real, w: real, t: real, x: real, lo: real, hi: real)
    requires Reduced(p, w, t)
    requires lo * (1.0 + w) == p + w / 2.0 - t && hi * (1.0 + w) == p + w / 2.0 + t
    ensures lo <= x <= hi <==> NotRejected(p, w, x)
  {
    ScoreTest(p, w, t, x);
    TimesOrder(lo, x, 1.0 + w);
    TimesOrder(x, hi, 1.0 + w);
  }

  /** Times 1 + w, the test is a comparison of squares. */
  lemma ScoreTest(p: real, w: real, t: real, x: real)
    requires Reduced(p, w, t)
    ensures NotRejected(p, w, x) <==>
              p + w / 2.0 - t <= x * (1.0 + w) <= p + w / 2.0 + t
  {
    var a, c := 1.0 + w, p + w / 2.0;
    var e := x * a - c;
    var f := (p - x) * (p - x) - w * (x * (1.0 - x));
    assert c * c == p * p + p * w + w * w / 4.0;
    assert w * p * (1.0 - p) == w * p - w * (p * p);
    assert c * c - t * t == p * p * a;
    assert f == a * (x * x) - 2.0 * c * x + p * p;
    assert a * f == (x * a) * (x * a) - 2.0 * c * (x * a) + p * p * a by {
      assert a * (a * (x * x)) == (x * a) * (x * a);
      assert a * (2.0 * c * x) == 2.0 * c * (x * a);
    }
    assert e * e == (x * a) * (x * a) - 2.0 * c * (x * a) + c * c;
    SquareOrder(e, t);
    TimesOrder(f, 0.0, a);
  }

  lemma RadicandMirrors(k: int, n: int, z: real)
    requires Counts(k, n)
    ensures Share(n - k, n) == 1.0 - Share(k, n) && Radicand(n - k, n, z) == Radicand(k, n, z)
  {
    var m := n as real;
    QuotientTimes(k as real, m);
    assert (1.0 - Share(k, n)) * m == m - Share(k, n) * m;
    QuotientIs((n - k) as real, m, 1.0 - Share(k, n));
  }

  /** Successes and failures mirror each other. */
  lemma Mirror(k: int, n: int, z: real, root: real, root': real)
    requires Counts(k, n) && z > 0.0 && IsRoot(root, k, n, z) && IsRoot(root', n - k, n, z)
    ensures var (lo, hi) := Interval(k, n, z, root);
            Interval(n - k, n, z, root') == (1.0 - hi, 1.0 - lo)
  {
    RadicandMirrors(k, n, z);
    SquareOrder(root, root');
    SquareOrder(root', root);
    BoundsHoldWithoutClamping(k, n, z, root);
    BoundsHoldWithoutClamping(n - k, n, z, root);
    var p, w, t := Reduce(k, n, z, root);
    var p', w', t' := Reduce(n - k, n, z, root);
    var a := 1.0 + w;
    OverOneDenominator(p + w / 2.0, p' + w / 2.0, a);
    QuotientIs(a, a, 1.0);
  }
}
