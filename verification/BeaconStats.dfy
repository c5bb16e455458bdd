/** What the detector's statistics mean: identities and sharp inequalities over every list of gaps. */
module BeaconStats {
  import opened Types
  import opened Beacon
  import opened RealAlgebra

  function SumOfSquares(xs: seq<real>): real {
    if xs == [] then 0.0 else SumOfSquares(xs[..|xs| - 1]) + Square(xs[|xs| - 1])
  }

  predicate Within(xs: seq<real>, lo: real, hi: real) {
    forall i :: 0 <= i < |xs| ==> lo <= xs[i] <= hi
  }

  predicate AllPositive(xs: seq<real>) {
    forall i :: 0 <= i < |xs| ==> xs[i] > 0.0
  }

  lemma SumSnoc(xs: seq<real>, x: real)
    ensures Sum(xs + [x]) == Sum(xs) + x
    ensures SumOfSquares(xs + [x]) == SumOfSquares(xs) + Square(x)
  {
    assert (xs + [x])[..|xs|] == xs;
  }

  lemma {:induction false} DeviationsExpand(xs: seq<real>, c: real)
    ensures SquaredDeviations(xs, c) == Deviations(|xs| as real, Sum(xs), SumOfSquares(xs), c)
  {
    if xs == [] {
      DeviationsOfNothing(|xs| as real, Sum(xs), SumOfSquares(xs), c);
    } else {
      var init := xs[..|xs| - 1];
      DeviationsExpand(init, c);
      DeviationsStep(|init| as real, Sum(init), SumOfSquares(init), xs[|xs| - 1],
                     |xs| as real, Sum(xs), SumOfSquares(xs), c);
    }
  }

  lemma {:induction false} DeviationsNonNegative(xs: seq<real>, c: real)
    ensures SquaredDeviations(xs, c) >= 0.0
  {
    if xs != [] {
      DeviationsNonNegative(xs[..|xs| - 1], c);
      SquareNonNegative(xs[|xs| - 1] - c);
    }
  }

  /** The two-pass computation yields exactly the moments: m^2 variance = m sum(x^2) - (sum x)^2. */
  lemma VarianceIsExact(xs: seq<real>)
    requires xs != []
    ensures Moments(|xs| as real, Sum(xs), SumOfSquares(xs), Mean(xs), Variance(xs))
  {
    DeviationsExpand(xs, Mean(xs));
    DeviationsNonNegative(xs, Mean(xs));
    MomentsFromDeviations(|xs| as real, Sum(xs), SumOfSquares(xs));
  }

  // ----- Bhatia-Davis: bounded gaps have a bounded coefficient of variation

  lemma {:induction false} SquaresOfBounded(xs: seq<real>, a: real, b: real)
    requires Within(xs, a, b)
    ensures SumOfSquares(xs) <= MaxSquares(|xs| as real, Sum(xs), a, b)
  {
    if xs == [] {
      MaxSquaresOfNothing(|xs| as real, Sum(xs), a, b);
    } else {
      var init := xs[..|xs| - 1];
      SquaresOfBounded(init, a, b);
      MaxSquaresStep(|init| as real, Sum(init), xs[|xs| - 1], |xs| as real, Sum(xs), a, b);
    }
  }

  /** Gaps between a and b pass the CV test as soon as (b - a)^2 <= 4ab cv^2. */
  lemma BoundedJitterIsPeriodic(xs: seq<real>, a: real, b: real, cv: real)
    requires xs != [] && Within(xs, a, b) && JitterWithin(a, b, cv)
    ensures CvAtMost(Mean(xs), Variance(xs), cv)
  {
    VarianceIsExact(xs);
    SquaresOfBounded(xs, a, b);
    BoundedCv(a, b, cv, |xs| as real, Sum(xs), SumOfSquares(xs), Mean(xs), Variance(xs));
  }

  function Repeat(x: real, n: nat): (xs: seq<real>)
    ensures |xs| == n && forall i :: 0 <= i < n ==> xs[i] == x
  {
    if n == 0 then [] else Repeat(x, n - 1) + [x]
  }

  lemma {:induction false} SumRepeat(xs: seq<real>, x: real, n: nat)
    ensures Sum(xs + Repeat(x, n)) == Line(Sum(xs), n as real, x)
    ensures SumOfSquares(xs + Repeat(x, n)) == Line(SumOfSquares(xs), n as real, Square(x))
  {
    if n == 0 {
      assert xs + Repeat(x, n) == xs;
      LineOfNothing(Sum(xs), n as real, x);
      LineOfNothing(SumOfSquares(xs), n as real, Square(x));
    } else {
      var shorter := xs + Repeat(x, n - 1);
      SumRepeat(xs, x, n - 1);
      assert xs + Repeat(x, n) == shorter + [x];
      SumSnoc(shorter, x);
      LineStep(Sum(xs), (n - 1) as real, n as real, x);
      LineStep(SumOfSquares(xs), (n - 1) as real, n as real, Square(x));
    }
  }

  /** b gaps of length a and a gaps of length b. */
  function Seesaw(a: nat, b: nat): seq<real> {
    Repeat(a as real, b) + Repeat(b as real, a)
  }

  lemma SeesawMoments(a: nat, b: nat)
    ensures var x, y := a as real, b as real;
            && Sum(Seesaw(a, b)) == Line(Line(0.0, y, x), x, y)
            && SumOfSquares(Seesaw(a, b)) == Line(Line(0.0, y, Square(x)), x, Square(y))
  {
    var x, y := a as real, b as real;
    assert [] + Repeat(x, b) == Repeat(x, b);
    SumRepeat([], x, b);
    SumRepeat(Repeat(x, b), y, a);
  }

  lemma WholeJitterIsSharp(a: nat, b: nat)
    requires 0 < a <= b
    ensures Within(Seesaw(a, b), a as real, b as real)
    ensures HasExtremeCv(a as real, b as real, Mean(Seesaw(a, b)), Variance(Seesaw(a, b)))
  {
    var xs := Seesaw(a, b);
    SeesawMoments(a, b);
    VarianceIsExact(xs);
    SharpMoments(a as real, b as real, |xs| as real, Sum(xs), SumOfSquares(xs), Mean(xs), Variance(xs));
  }

  // ----- Samuelson: no gap of an alert is far from the reported mean

  lemma {:induction false} SumWithout(xs: seq<real>, i: nat)
    requires i < |xs|
    ensures Sum(xs[..i] + xs[i + 1..]) == Sum(xs) - xs[i]
    ensures SumOfSquares(xs[..i] + xs[i + 1..]) == SumOfSquares(xs) - Square(xs[i])
  {
    var n := |xs| - 1;
    var rest := xs[..i] + xs[i + 1..];
    if i == n {
      assert rest == xs[..n];
    } else {
      var shorter := xs[..n][..i] + xs[..n][i + 1..];
      SumWithout(xs[..n], i);
      assert rest == shorter + [xs[n]];
      SumSnoc(shorter, xs[n]);
    }
  }

  /** Cauchy-Schwarz against the all-ones vector. */
  lemma CauchySchwarz(xs: seq<real>)
    ensures ObeysCauchySchwarz(|xs| as real, Sum(xs), SumOfSquares(xs))
  {
    if xs != [] {
      VarianceIsExact(xs);
      MomentsOrdered(|xs| as real, Sum(xs), SumOfSquares(xs), Mean(xs), Variance(xs));
    }
  }

  lemma DropOne(xs: seq<real>, i: nat)
    requires i < |xs|
    ensures var rest := xs[..i] + xs[i + 1..];
            Dropped(xs[i], |xs| as real, Sum(xs), SumOfSquares(xs), |rest| as real, Sum(rest), SumOfSquares(rest))
  {
    SumWithout(xs, i);
  }

  /** Every value lies within sqrt(m - 1) standard deviations of the mean. */
  lemma Samuelson(xs: seq<real>, i: nat)
    requires i < |xs|
    ensures NearMean(xs[i], |xs| as real, Mean(xs), Variance(xs))
  {
    var rest := xs[..i] + xs[i + 1..];
    VarianceIsExact(xs);
    DropOne(xs, i);
    CauchySchwarz(rest);
    SamuelsonStep(xs[i], |xs| as real, Sum(xs), SumOfSquares(xs), Mean(xs), Variance(xs),
                  |rest| as real, Sum(rest), SumOfSquares(rest));
  }

  // ----- The spread of positive gaps, and change of unit

  lemma {:induction false} PositiveSums(xs: seq<real>)
    requires AllPositive(xs)
    ensures SquaresBelowSquare(Sum(xs), SumOfSquares(xs))
    ensures if xs == [] then Sum(xs) == 0.0 else Sum(xs) > 0.0
  {
    if xs != [] {
      var init := xs[..|xs| - 1];
      PositiveSums(init);
      SquaresBelowSquareStep(Sum(init), SumOfSquares(init), xs[|xs| - 1], Sum(xs), SumOfSquares(xs));
    }
  }

  lemma PositiveMean(xs: seq<real>)
    requires xs != [] && AllPositive(xs)
    ensures Mean(xs) > 0.0
  {
    PositiveSums(xs);
  }

  /** m positive gaps never have cv^2 above m - 1. */
  lemma SpreadOfPositives(xs: seq<real>)
    requires xs != [] && AllPositive(xs)
    ensures CvSquaredAtMost(Mean(xs), Variance(xs), |xs| as real - 1.0)
  {
    VarianceIsExact(xs);
    PositiveSums(xs);
    SpreadMoments(|xs| as real, Sum(xs), SumOfSquares(xs), Mean(xs), Variance(xs));
  }

  function Scaled(xs: seq<real>, f: real): seq<real> {
    if xs == [] then [] else Scaled(xs[..|xs| - 1], f) + [f * xs[|xs| - 1]]
  }

  lemma {:induction false} ScaledSums(xs: seq<real>, f: real)
    ensures |Scaled(xs, f)| == |xs|
    ensures ScaledBy(f, Sum(xs), SumOfSquares(xs), Sum(Scaled(xs, f)), SumOfSquares(Scaled(xs, f)))
  {
    if xs != [] {
      var init, ys := xs[..|xs| - 1], Scaled(xs, f);
      var init' := Scaled(init, f);
      ScaledSums(init, f);
      assert ys[..|ys| - 1] == init';
      ScaleStep(f, Sum(init), SumOfSquares(init), Sum(init'), SumOfSquares(init'), xs[|xs| - 1], ys[|ys| - 1],
                Sum(xs), SumOfSquares(xs), Sum(ys), SumOfSquares(ys));
    }
  }

  lemma {:induction false} ScaledAt(xs: seq<real>, f: real, i: nat)
    requires i < |xs|
    ensures |Scaled(xs, f)| == |xs| && Scaled(xs, f)[i] == f * xs[i]
  {
    if i < |xs| - 1 {
      ScaledAt(xs[..|xs| - 1], f, i);
    } else if i > 0 {
      ScaledAt(xs[..|xs| - 1], f, 0);
    }
  }

  lemma ScaledWithin(xs: seq<real>, f: real, a: real, b: real, a': real, b': real)
    requires f > 0.0 && ScaledLimits(f, a, b, a', b')
    requires xs != [] && Within(xs, a, b)
    ensures Within(Scaled(xs, f), a', b')
  {
    ScaledAt(xs, f, 0);
    forall i | 0 <= i < |xs| ensures a' <= Scaled(xs, f)[i] <= b' {
      ScaledAt(xs, f, i);
      BetweenScaledLimits(f, a, xs[i], b, a', Scaled(xs, f)[i], b');
    }
  }

  /** The CV test does not depend on the unit of time. */
  lemma CvTestIsScaleFree(xs: seq<real>, f: real, cv: real)
    requires xs != [] && f > 0.0
    ensures ScaledBy(f, Mean(xs), Variance(xs), Mean(Scaled(xs, f)), Variance(Scaled(xs, f)))
    ensures CvAtMost(Mean(Scaled(xs, f)), Variance(Scaled(xs, f)), cv) <==> CvAtMost(Mean(xs), Variance(xs), cv)
  {
    var ys := Scaled(xs, f);
    ScaledSums(xs, f);
    VarianceIsExact(xs);
    VarianceIsExact(ys);
    ScaleMoments(|xs| as real, f, Sum(xs), SumOfSquares(xs), Mean(xs), Variance(xs),
                 Sum(ys), SumOfSquares(ys), Mean(ys), Variance(ys));
    ScaleTest(f, cv, Mean(xs), Variance(xs), Mean(ys), Variance(ys));
  }

  /**
   The bound is the best possible: for any two lengths that are whole multiples of one unit there is a
   list of gaps that attains it.
   */
  lemma BoundedJitterIsSharp(a: nat, b: nat, unit: real, x: real, y: real)
    requires 0 < a <= b && unit > 0.0 && ScaledLimits(unit, a as real, b as real, x, y)
    ensures var gaps := Scaled(Seesaw(a, b), unit);
            Within(gaps, x, y) && HasExtremeCv(x, y, Mean(gaps), Variance(gaps))
  {
    var xs := Seesaw(a, b);
    WholeJitterIsSharp(a, b);
    ScaledWithin(xs, unit, a as real, b as real, x, y);
    CvTestIsScaleFree(xs, unit, 1.0);
    ScaleExtreme(unit, a as real, b as real, x, y,
                 Mean(xs), Variance(xs), Mean(Scaled(xs, unit)), Variance(Scaled(xs, unit)));
  }

  /** The root-free test decides exactly what stddev / mean > maxCV decides. */
  lemma CvTestNeedsNoRoot(stddev: real, mean: real, cv: real)
    requires stddev >= 0.0 && mean > 0.0 && cv > 0.0
    ensures stddev / mean > cv <==> !CvAtMost(mean, stddev * stddev, cv)
  {
    var ratio := stddev / mean;
    assert ratio * mean == stddev;
    SquareOfProduct(cv, mean);
    SquaresInOrder(stddev, cv * mean);
    if ratio <= cv {
      MonotoneTimes(mean, ratio, cv);
    } else {
      assert (ratio - cv) * mean > 0.0;
    }
  }
}
