/**
 Polynomial facts over the reals that the detector's statistics rest on. The quantities of a
 list are plain arguments here: m values with sum s and sum of squares q.
 */
module RealAlgebra {

  function Square(x: real): real {
    x * x
  }

  /** The mean and variance that m values with sum s and sum of squares q have. */
  predicate Moments(m: real, s: real, q: real, mean: real, variance: real) {
    m > 0.0 && m * mean == s && m * m * variance == m * q - s * s && variance >= 0.0
  }

  /** The square of the coefficient of variation is at most bound. */
  predicate CvSquaredAtMost(mean: real, variance: real, bound: real) {
    variance <= bound * (mean * mean)
  }

  /** The coefficient of variation is at most cv, without taking a root. */
  predicate CvAtMost(mean: real, variance: real, cv: real) {
    CvSquaredAtMost(mean, variance, cv * cv)
  }

  /** (b - a)^2 <= 4ab cv^2: values between a and b cannot have a larger coefficient of variation. */
  predicate JitterWithin(a: real, b: real, cv: real) {
    (b - a) * (b - a) <= 4.0 * (a * b) * (cv * cv)
  }

  /** x lies within sqrt(m - 1) standard deviations of the mean. */
  predicate NearMean(x: real, m: real, mean: real, variance: real) {
    (x - mean) * (x - mean) <= (m - 1.0) * variance
  }

  /** The CV is exactly the largest that gaps between x and y can have: (y - x)^2 / 4xy when squared. */
  predicate HasExtremeCv(x: real, y: real, mean: real, variance: real) {
    4.0 * (x * y) * variance == (y - x) * (y - x) * (mean * mean)
  }

  predicate ObeysCauchySchwarz(m: real, s: real, q: real) {
    s * s <= m * q
  }

  predicate SquaresBelowSquare(s: real, q: real) {
    q <= s * s
  }

  /** The sum of squared deviations from c. */
  function Deviations(m: real, s: real, q: real, c: real): real {
    q - 2.0 * c * s + m * (c * c)
  }

  /** The largest q that values between a and b allow. */
  function MaxSquares(m: real, s: real, a: real, b: real): real {
    (a + b) * s - m * (a * b)
  }

  /** The first-order quantity x grows by the factor f, the second-order quantity y by its square. */
  predicate ScaledBy(f: real, x: real, y: real, x': real, y': real) {
    x' == f * x && y' == f * f * y
  }

  /** Two lengths in a unit that is f of the old one. */
  predicate ScaledLimits(f: real, x: real, y: real, x': real, y': real) {
    x' == f * x && y' == f * y
  }

  function Line(s: real, n: real, x: real): real {
    s + n * x
  }

  lemma CancelPositive(k: real, x: real, y: real)
    requires k > 0.0 && k * x <= k * y
    ensures x <= y
  {
    var d := y - x;
    assert k * d >= 0.0;
  }

  lemma CancelPositiveEqual(k: real, x: real, y: real)
    requires k > 0.0 && k * x == k * y
    ensures x == y
  {
    CancelPositive(k, x, y);
    CancelPositive(k, y, x);
  }

  lemma MonotoneTimes(m: real, x: real, y: real)
    requires m >= 0.0 && x <= y
    ensures m * x <= m * y
  {}

  lemma ProductNonNegative(x: real, y: real)
    requires x >= 0.0 && y >= 0.0
    ensures x * y >= 0.0
  {}

  lemma ProductPositive(x: real, y: real, xy: real)
    requires x > 0.0 && y > 0.0 && xy == x * y
    ensures xy > 0.0
  {}

  // The solver reads m * m > 0 as m != 0, so a square is always handed on under a name.
  lemma SquarePositive(m: real, mm: real)
    requires m > 0.0 && mm == m * m
    ensures mm > 0.0
  {
    ProductPositive(m, m, mm);
  }

  lemma SquareNonNegative(x: real)
    ensures Square(x) >= 0.0
  {}

  lemma SquareOfProduct(x: real, y: real)
    ensures (x * y) * (x * y) == x * x * (y * y)
  {}

  lemma SquaresInOrder(x: real, y: real)
    requires x >= 0.0 && y >= 0.0
    ensures x > y <==> x * x > y * y
  {
    if x > y {
      var difference := x * x - y * y;
      assert difference == (x - y) * (x + y);
      ProductPositive(x - y, x + y, difference);
    } else {
      MonotoneTimes(x, x, y);
      MonotoneTimes(y, x, y);
    }
  }

  lemma LineOfNothing(s: real, n: real, x: real)
    requires n == 0.0
    ensures Line(s, n, x) == s
  {}

  lemma LineStep(s: real, n0: real, n: real, x: real)
    requires n == n0 + 1.0
    ensures Line(s, n, x) == Line(s, n0, x) + x
  {}

  lemma DeviationsOfNothing(m: real, s: real, q: real, c: real)
    requires m == 0.0 && s == 0.0 && q == 0.0
    ensures Deviations(m, s, q, c) == 0.0
  {}

  lemma DeviationsStep(m0: real, s0: real, q0: real, x: real, m: real, s: real, q: real, c: real)
    requires m == m0 + 1.0 && s == s0 + x && q == q0 + Square(x)
    ensures Deviations(m, s, q, c) == Deviations(m0, s0, q0, c) + Square(x - c)
  {}

  lemma MomentsFromDeviations(m: real, s: real, q: real)
    requires m > 0.0 && Deviations(m, s, q, s / m) >= 0.0
    ensures Moments(m, s, q, s / m, Deviations(m, s, q, s / m) / m)
  {
    var mean := s / m;
    var dev := Deviations(m, s, q, mean);
    var variance := dev / m;
    assert m * mean == s;
    assert dev == q - mean * s;
    assert m * variance == dev;
    assert m * m * variance == m * dev == m * q - m * mean * s;
    CancelPositive(m, 0.0, variance);
  }

  /** Cauchy-Schwarz against the all-ones vector. */
  lemma MomentsOrdered(m: real, s: real, q: real, mean: real, variance: real)
    requires Moments(m, s, q, mean, variance)
    ensures ObeysCauchySchwarz(m, s, q)
  {
    var mm := m * m;
    SquarePositive(m, mm);
    ProductNonNegative(mm, variance);
  }

  /** From a bound on the moments to the bound on the variance: both sides carry the factor m^2. */
  lemma VarianceBound(m: real, s: real, q: real, mean: real, variance: real, bound: real)
    requires Moments(m, s, q, mean, variance)
    requires m * q - s * s <= bound * (s * s)
    ensures CvSquaredAtMost(mean, variance, bound)
  {
    var mm := m * m;
    SquareOfProduct(m, mean);
    assert s * s == (m * mean) * (m * mean);
    assert bound * (s * s) == bound * (mm * (mean * mean)) == mm * (bound * (mean * mean));
    SquarePositive(m, mm);
    CancelPositive(mm, variance, bound * (mean * mean));
  }

  lemma MaxSquaresOfNothing(m: real, s: real, a: real, b: real)
    requires m == 0.0 && s == 0.0
    ensures MaxSquares(m, s, a, b) == 0.0
  {}

  lemma MaxSquaresStep(m0: real, s0: real, x: real, m: real, s: real, a: real, b: real)
    requires m == m0 + 1.0 && s == s0 + x && a <= x <= b
    ensures MaxSquares(m0, s0, a, b) + Square(x) <= MaxSquares(m, s, a, b)
  {
    ProductNonNegative(b - x, x - a);
    assert (b - x) * (x - a) == (a + b) * x - a * b - x * x;
    assert MaxSquares(m, s, a, b) == MaxSquares(m0, s0, a, b) + (a + b) * x - a * b;
  }

  /** A quadratic without two distinct real roots is nowhere negative. */
  lemma NoRealRoots(k: real, s: real, p: real, r: real)
    requires k > 0.0 && p * p <= 4.0 * k * r
    ensures k * (s * s) - p * s + r >= 0.0
  {
    var q := k * (s * s) - p * s + r;
    var d := 2.0 * k * s - p;
    assert 4.0 * k * q == d * d - p * p + 4.0 * k * r;
    assert d * d >= 0.0;
    CancelPositive(4.0 * k, 0.0, q);
  }

  lemma Discriminant(a: real, b: real, v: real, m: real)
    requires (b - a) * (b - a) <= 4.0 * (a * b) * v
    ensures (m * (a + b)) * (m * (a + b)) <= 4.0 * (1.0 + v) * (m * m * (a * b))
  {
    var z := a * b;
    var lhs, rhs := (a + b) * (a + b), 4.0 * (1.0 + v) * z;
    assert lhs == (b - a) * (b - a) + 4.0 * z;
    assert rhs == 4.0 * z * v + 4.0 * z;
    MonotoneTimes(m * m, lhs, rhs);
    SquareOfProduct(m, a + b);
    assert m * m * rhs == 4.0 * (1.0 + v) * (m * m * z);
  }

  /** The Bhatia-Davis bound: the quadratic in s that separates it from the CV test has no real roots. */
  lemma BoundedMoments(a: real, b: real, v: real, m: real, s: real, q: real)
    requires m >= 0.0 && v >= 0.0
    requires (b - a) * (b - a) <= 4.0 * (a * b) * v
    requires q <= MaxSquares(m, s, a, b)
    ensures m * q - s * s <= v * (s * s)
  {
    var z := a * b;
    Discriminant(a, b, v, m);
    NoRealRoots(1.0 + v, s, m * (a + b), m * m * z);
    MonotoneTimes(m, q, (a + b) * s - m * z);
    assert m * ((a + b) * s - m * z) == m * (a + b) * s - m * m * z;
    assert (1.0 + v) * (s * s) == s * s + v * (s * s);
  }

  lemma BoundedCv(a: real, b: real, cv: real, m: real, s: real, q: real, mean: real, variance: real)
    requires Moments(m, s, q, mean, variance) && q <= MaxSquares(m, s, a, b)
    requires JitterWithin(a, b, cv)
    ensures CvAtMost(mean, variance, cv)
  {
    assert cv * cv >= 0.0;
    BoundedMoments(a, b, cv * cv, m, s, q);
    VarianceBound(m, s, q, mean, variance, cv * cv);
  }

  /** Dropping one value x from m values leaves m' values with sum s' and sum of squares q'. */
  predicate Dropped(x: real, m: real, s: real, q: real, m': real, s': real, q': real) {
    m == m' + 1.0 && s == s' + x && q == q' + Square(x)
  }

  lemma SamuelsonMoments(x: real, m: real, s: real, q: real, m': real, s': real, q': real)
    requires m >= 0.0 && Dropped(x, m, s, q, m', s', q') && ObeysCauchySchwarz(m', s', q')
    ensures (m * x - s) * (m * x - s) <= m' * (m * q - s * s)
  {
    var e, spread := m' * x - s', m * q - s * s;
    MonotoneTimes(m, s' * s', m' * q');
    assert m * x - s == e;
    assert spread == m' * q' + q' + m' * (x * x) - s' * s' - 2.0 * (s' * x);
    assert m' * spread - e * e == m * (m' * q') - m * (s' * s');
  }

  lemma SamuelsonStep(x: real, m: real, s: real, q: real, mean: real, variance: real, m': real, s': real, q': real)
    requires Moments(m, s, q, mean, variance)
    requires Dropped(x, m, s, q, m', s', q') && ObeysCauchySchwarz(m', s', q')
    ensures NearMean(x, m, mean, variance)
  {
    SamuelsonMoments(x, m, s, q, m', s', q');
    SamuelsonCancel(m, m * q - s * s, mean, variance, x, m * m, s);
  }

  lemma SamuelsonCancel(m: real, spread: real, mean: real, variance: real, x: real, mm: real, s: real)
    requires m > 0.0 && mm == m * m && m * mean == s && mm * variance == spread
    requires (m * x - s) * (m * x - s) <= (m - 1.0) * spread
    ensures NearMean(x, m, mean, variance)
  {
    var d, r := x - mean, m - 1.0;
    assert m * d == m * x - s;
    SquareOfProduct(m, d);
    assert (m * x - s) * (m * x - s) == mm * (d * d);
    assert r * spread == mm * (r * variance);
    SquarePositive(m, mm);
    CancelPositive(mm, d * d, r * variance);
  }

  lemma SquaresBelowSquareStep(s0: real, q0: real, x: real, s: real, q: real)
    requires s0 >= 0.0 && x > 0.0 && SquaresBelowSquare(s0, q0)
    requires s == s0 + x && q == q0 + Square(x)
    ensures s > 0.0 && SquaresBelowSquare(s, q)
  {
    ProductNonNegative(s0, x);
    assert s * s == s0 * s0 + 2.0 * (s0 * x) + x * x;
  }

  lemma SpreadMoments(m: real, s: real, q: real, mean: real, variance: real)
    requires Moments(m, s, q, mean, variance) && SquaresBelowSquare(s, q)
    ensures CvSquaredAtMost(mean, variance, m - 1.0)
  {
    MonotoneTimes(m, q, s * s);
    assert m * (s * s) - s * s == (m - 1.0) * (s * s);
    VarianceBound(m, s, q, mean, variance, m - 1.0);
  }

  /** The list that attains the Bhatia-Davis bound: y values x and x values y. */
  lemma SharpMoments(x: real, y: real, m: real, s: real, q: real, mean: real, variance: real)
    requires m == x + y
    requires s == Line(Line(0.0, y, x), x, y) && q == Line(Line(0.0, y, Square(x)), x, Square(y))
    requires Moments(m, s, q, mean, variance)
    ensures HasExtremeCv(x, y, mean, variance)
  {
    SharpSums(x, y, Square(x), Square(y), x * y, s, q);
    assert m * m == (y - x) * (y - x) + 4.0 * (x * y);
    SharpCv(x * y, m, (y - x) * (y - x), mean, variance, m * m);
  }

  lemma SharpSums(x: real, y: real, xx: real, yy: real, z: real, s: real, q: real)
    requires xx == x * x && yy == y * y && z == x * y
    requires s == Line(Line(0.0, y, x), x, y) && q == Line(Line(0.0, y, xx), x, yy)
    ensures s == 2.0 * z && q == (x + y) * z
  {
    assert y * xx == x * z && x * yy == y * z;
  }

  lemma SharpCv(z: real, m: real, d: real, mean: real, variance: real, mm: real)
    requires m > 0.0 && mm == m * m && mm == d + 4.0 * z
    requires m * mean == 2.0 * z && mm * variance == m * (m * z) - (2.0 * z) * (2.0 * z)
    ensures 4.0 * z * variance == d * (mean * mean)
  {
    assert m * (m * z) == mm * z == d * z + 4.0 * (z * z);
    assert (2.0 * z) * (2.0 * z) == 4.0 * (z * z);
    assert mm * variance == d * z;
    SquareOfProduct(m, mean);
    assert (m * mean) * (m * mean) == (2.0 * z) * (2.0 * z);
    assert mm * (4.0 * z * variance) == 4.0 * z * (mm * variance) == 4.0 * z * (d * z);
    assert 4.0 * z * (d * z) == d * (4.0 * (z * z));
    assert mm * (d * (mean * mean)) == d * (mm * (mean * mean));
    SquarePositive(m, mm);
    CancelPositiveEqual(mm, 4.0 * z * variance, d * (mean * mean));
  }

  lemma ScaleStep(
      f: real, s0: real, q0: real, s0': real, q0': real, x: real, x': real, s: real, q: real, s': real, q': real)
    requires ScaledBy(f, s0, q0, s0', q0') && x' == f * x
    requires s == s0 + x && q == q0 + Square(x) && s' == s0' + x' && q' == q0' + Square(x')
    ensures ScaledBy(f, s, q, s', q')
  {
    assert x' * x' == (f * x) * (f * x);
  }

  lemma ScaleMoments(
      m: real, f: real, s: real, q: real, mean: real, variance: real, s': real, q': real, mean': real, variance': real)
    requires Moments(m, s, q, mean, variance)
    requires ScaledBy(f, s, q, s', q') && Moments(m, s', q', mean', variance')
    ensures ScaledBy(f, mean, variance, mean', variance')
  {
    assert m * mean' == m * (f * mean);
    CancelPositiveEqual(m, mean', f * mean);
    ScaleVariance(m * m, f * f, m * q, s * s, variance, variance') by {
      SquareOfProduct(f, s);
      assert s' * s' == (f * s) * (f * s);
      assert m * q' == f * f * (m * q);
      SquarePositive(m, m * m);
    }
  }

  lemma ScaleVariance(mm: real, ff: real, mq: real, ss: real, variance: real, variance': real)
    requires mm > 0.0 && mm * variance == mq - ss
    requires mm * variance' == ff * mq - ff * ss
    ensures variance' == ff * variance
  {
    assert mm * variance' == mm * (ff * variance);
    CancelPositiveEqual(mm, variance', ff * variance);
  }

  lemma ScaleTest(f: real, cv: real, mean: real, variance: real, mean': real, variance': real)
    requires f > 0.0 && ScaledBy(f, mean, variance, mean', variance')
    ensures CvAtMost(mean', variance', cv) <==> CvAtMost(mean, variance, cv)
  {
    var ff, t := f * f, cv * cv * (mean * mean);
    SquareOfProduct(f, mean);
    assert mean' * mean' == (f * mean) * (f * mean);
    assert cv * cv * (mean' * mean') == cv * cv * (ff * (mean * mean)) == ff * t;
    SquarePositive(f, ff);
    if ff * variance <= ff * t { CancelPositive(ff, variance, t); }
    if variance <= t { MonotoneTimes(ff, variance, t); }
  }

  lemma BetweenScaledLimits(f: real, lo: real, x: real, hi: real, lo': real, x': real, hi': real)
    requires f > 0.0 && ScaledLimits(f, lo, hi, lo', hi') && lo <= x <= hi && x' == f * x
    ensures lo' <= x' <= hi'
  {
    MonotoneTimes(f, lo, x);
    MonotoneTimes(f, x, hi);
  }

  lemma ScaleExtreme(
      f: real, x: real, y: real, x': real, y': real, mean: real, variance: real, mean': real, variance': real)
    requires ScaledLimits(f, x, y, x', y')
    requires ScaledBy(f, mean, variance, mean', variance') && HasExtremeCv(x, y, mean, variance)
    ensures HasExtremeCv(x', y', mean', variance')
  {
    var ff, d, d' := f * f, y - x, y' - x';
    var dd, mm, dd', mm' := d * d, mean * mean, d' * d', mean' * mean';
    assert d' == f * d;
    SquareOfProduct(f, d);
    SquareOfProduct(f, mean);
    assert dd' == ff * dd && mm' == ff * mm;
    ProductOfProducts(ff, dd, mm);
    ProductOfProducts(f, x, y);
    ProductOfProducts(ff, x * y, variance);
  }

  lemma ProductOfProducts(f: real, x: real, y: real)
    ensures (f * x) * (f * y) == f * f * (x * y)
  {}
}
