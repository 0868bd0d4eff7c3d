/** Journey-time anomalies: a two-sided sample z-score over exact arithmetic, compared by squares. */
module Anomalies {
  import opened Prelude

  /** A completed journey on a normalized route. */
  datatype Journey = Journey(productId: string, origin: string, destination: string, hours: real)

  datatype Severity = Low | Medium | High

  datatype Anomaly = Anomaly(journey: Journey, severity: Severity, sampleSize: nat)

  const MINIMUM_COHORT := 10

  function Sum(xs: seq<real>): real {
    if xs == [] then 0.0 else Sum(xs[..|xs| - 1]) + xs[|xs| - 1]
  }

  function Square(x: real): (r: real)
    ensures r >= 0.0
  {
    x * x
  }

  function SumSquares(xs: seq<real>): (r: real)
    ensures r >= 0.0
  {
    if xs == [] then 0.0 else SumSquares(xs[..|xs| - 1]) + Square(xs[|xs| - 1])
  }

  function Shifted(xs: seq<real>, amount: real): (r: seq<real>)
    ensures |r| == |xs| && forall i :: 0 <= i < |xs| ==> r[i] == xs[i] - amount
  {
    if xs == [] then [] else Shifted(xs[..|xs| - 1], amount) + [xs[|xs| - 1] - amount]
  }

  function Mean(xs: seq<real>): real
    requires xs != []
  {
    Sum(xs) / |xs| as real
  }

  function Deviations(xs: seq<real>): (r: seq<real>)
    requires xs != []
    ensures |r| == |xs|
  {
    Shifted(xs, Mean(xs))
  }

  /** The square of the sample standard deviation. */
  function Variance(xs: seq<real>): (r: real)
    requires |xs| >= 2
    ensures r >= 0.0
  {
    var n := (|xs| - 1) as real;
    DivideNonnegative(SumSquares(Deviations(xs)), n);
    SumSquares(Deviations(xs)) / n
  }

  lemma DivideNonnegative(a: real, b: real)
    requires a >= 0.0 && b > 0.0
    ensures a / b >= 0.0
  {}

  // ---- sums ----

  /** n copies of a number added up. */
  function Copies(a: real, n: nat): real {
    if n == 0 then 0.0 else Copies(a, n - 1) + a
  }

  lemma OneTerm(n: real, a: real)
    ensures n * a == (n - 1.0) * a + a
  {}

  lemma {:induction false} CopiesMultiply(a: real, n: nat, r: real)
    requires r == n as real
    ensures Copies(a, n) == r * a
  {
    if n > 0 {
      CopiesMultiply(a, n - 1, r - 1.0);
      OneTerm(r, a);
    }
  }

  lemma {:induction false} SumShifted(xs: seq<real>, amount: real)
    ensures Sum(Shifted(xs, amount)) == Sum(xs) - Copies(amount, |xs|)
  {
    if xs != [] {
      var early, last := xs[..|xs| - 1], xs[|xs| - 1];
      SumShifted(early, amount);
      SumLast(Shifted(early, amount), last - amount);
    }
  }

  lemma TimesRatio(n: real, s: real)
    requires n != 0.0
    ensures n * (s / n) == s
  {}

  /** Deviations from the mean cancel out. */
  lemma DeviationsCancel(xs: seq<real>)
    requires xs != []
    ensures Sum(Deviations(xs)) == 0.0
  {
    SumShifted(xs, Mean(xs));
    CopiesMultiply(Mean(xs), |xs|, |xs| as real);
    TimesRatio(|xs| as real, Sum(xs));
  }

  function Without(ds: seq<real>, i: nat): seq<real>
    requires i < |ds|
  {
    ds[..i] + ds[i + 1..]
  }

  lemma {:induction false} SumWithout(ds: seq<real>, i: nat)
    requires i < |ds|
    ensures Sum(Without(ds, i)) == Sum(ds) - ds[i]
    ensures SumSquares(Without(ds, i)) == SumSquares(ds) - Square(ds[i])
  {
    var n := |ds| - 1;
    if i == n {
      assert Without(ds, i) == ds[..n];
    } else {
      SumWithout(ds[..n], i);
      assert Without(ds, i)[..n - 1] == Without(ds[..n], i);
      assert Without(ds, i)[n - 1] == ds[n];
    }
  }

  lemma Reorder(m: real, s: real, a: real)
    ensures m * (s * a) == s * (m * a)
  {}

  lemma Regroup(m: real, a: real, b: real)
    ensures m * (a * b) == (m * a) * b
  {}

  lemma Distribute(m: real, x: real, y: real, z: real)
    ensures m * (x + y - 2.0 * z) == m * x + m * y - 2.0 * (m * z)
  {}

  lemma SquareOfDifference(s: real, b: real)
    ensures s * s + b * b - 2.0 * (s * b) >= 0.0
  {
    assert Square(s - b) == s * s + b * b - 2.0 * (s * b);
  }

  lemma SquareOfSum(s: real, a: real)
    ensures Square(s + a) == Square(s) + 2.0 * (s * a) + Square(a)
  {}

  lemma ProductOfSums(m: real, q: real, a: real)
    ensures (m + 1.0) * (q + Square(a)) == m * q + q + a * (m * a) + Square(a)
  {
    Reorder(m, a, a);
    assert (m + 1.0) * (q + Square(a)) == m * q + q + m * Square(a) + Square(a);
  }

  lemma Gap(m: real, s: real, q: real, a: real, b: real)
    requires m > 0.0 && s * s <= m * q && b == m * a
    ensures q + a * b - 2.0 * (s * a) >= 0.0
  {
    Regroup(m, a, b);
    Reorder(m, s, a);
    Distribute(m, q, a * b, s * a);
    SquareOfDifference(s, b);
    if q + a * b - 2.0 * (s * a) < 0.0 { NegativeProduct(m, q + a * b - 2.0 * (s * a)); }
  }

  /** One step of the inequality: adding one more number keeps the square of the sum below the number times the squares. */
  lemma CauchyStep(m: real, s: real, q: real, a: real)
    requires m >= 1.0 && Square(s) <= m * q
    ensures Square(s + a) <= (m + 1.0) * (q + Square(a))
  {
    Gap(m, s, q, a, m * a);
    SquareOfSum(s, a);
    ProductOfSums(m, q, a);
  }

  lemma NegativeProduct(m: real, x: real)
    requires m > 0.0 && x < 0.0
    ensures m * x < 0.0
  {}

  /** The square of a sum is at most the number of terms times the sum of their squares. */
  lemma {:induction false} Cauchy(ds: seq<real>)
    ensures Square(Sum(ds)) <= |ds| as real * SumSquares(ds)
  {
    if |ds| == 1 {
      assert Sum(ds) == ds[0] && SumSquares(ds) == Square(ds[0]);
    } else if ds != [] {
      Cauchy(ds[..|ds| - 1]);
      CauchyStep((|ds| - 1) as real, Sum(ds[..|ds| - 1]), SumSquares(ds[..|ds| - 1]), ds[|ds| - 1]);
    }
  }

  // ---- how far one journey can deviate ----

  lemma OneDeviation(n: real, d: real, q: real)
    requires n >= 2.0 && Square(d) <= (n - 1.0) * (q - Square(d))
    ensures n * Square(d) <= (n - 1.0) * q
  {
    assert (n - 1.0) * (q - Square(d)) == (n - 1.0) * q - (n - 1.0) * Square(d);
    assert (n - 1.0) * Square(d) + Square(d) == n * Square(d);
  }

  lemma SquareOfNegative(d: real)
    ensures Square(0.0 - d) == Square(d)
  {}

  lemma OthersCarry(n: real, m: real, d: real, s: real, others: real, q: real)
    requires n >= 2.0 && m == n - 1.0 && s == 0.0 - d && others == q - Square(d) && Square(s) <= m * others
    ensures n * Square(d) <= m * q
  {
    SquareOfNegative(d);
    OneDeviation(n, d, q);
  }

  lemma CauchyOf(ds: seq<real>, m: real) returns (s: real, q: real)
    requires m == |ds| as real
    ensures s == Sum(ds) && q == SumSquares(ds) && Square(s) <= m * q
  {
    s, q := Sum(ds), SumSquares(ds);
    Cauchy(ds);
  }

  /** The sum and the squares of all numbers but one. */
  lemma Others(ds: seq<real>, i: nat, m: real) returns (s: real, q: real)
    requires i < |ds| && m == (|ds| - 1) as real
    ensures s == Sum(ds) - ds[i] && q == SumSquares(ds) - Square(ds[i]) && Square(s) <= m * q
  {
    SumWithout(ds, i);
    s, q := CauchyOf(Without(ds, i), m);
  }

  /** Of deviations that cancel out, one cannot hold more than its share of the squares. */
  lemma OneOfMany(ds: seq<real>, i: nat, n: real, m: real)
    requires |ds| >= 2 && i < |ds| && Sum(ds) == 0.0 && n == |ds| as real && m == (|ds| - 1) as real
    ensures n * Square(ds[i]) <= m * SumSquares(ds)
  {
    var s, others := Others(ds, i, m);
    OthersCarry(n, m, ds[i], s, others, SumSquares(ds));
  }

  lemma VarianceTimes(q: real, m: real)
    requires m > 0.0
    ensures Square(m) * (q / m) == m * q
  {
    assert m * (q / m) == q;
  }

  lemma VarianceShare(xs: seq<real>, m: real, share: real) returns (v: real)
    requires |xs| >= 2 && m == (|xs| - 1) as real && share <= m * SumSquares(Deviations(xs))
    ensures v == Variance(xs) && v >= 0.0 && share <= Square(m) * v
  {
    v := Variance(xs);
    VarianceTimes(SumSquares(Deviations(xs)), m);
  }

  lemma SquareShare(xs: seq<real>, i: nat, n: real, m: real) returns (d: real, share: real)
    requires |xs| >= 2 && i < |xs| && n == |xs| as real && m == (|xs| - 1) as real
    ensures d == Deviations(xs)[i] && share == n * Square(d) && share <= m * SumSquares(Deviations(xs))
  {
    d := Deviations(xs)[i];
    share := n * Square(d);
    DeviationsCancel(xs);
    OneOfMany(Deviations(xs), i, n, m);
  }

  /** The squared deviation d of one of n journeys with variance v is at most (n - 1)^2 / n times the variance; m is n - 1. */
  lemma ScoreBound(xs: seq<real>, i: nat) returns (n: real, m: real, d: real, v: real)
    requires |xs| >= 2 && i < |xs|
    ensures n == |xs| as real && m == n - 1.0 && d == Deviations(xs)[i] && v == Variance(xs)
    ensures v >= 0.0 && n * Square(d) <= Square(m) * v
  {
    n, m := |xs| as real, (|xs| - 1) as real;
    var share;
    d, share := SquareShare(xs, i, n, m);
    v := VarianceShare(xs, m, share);
  }

  // ---- flagging ----

  /** |score| > z, without the square root: the squared deviation exceeds z^2 variances; a negative threshold is always exceeded. */
  predicate Exceeds(deviation: real, variance: real, z: real) {
    z < 0.0 || Square(deviation) > Square(z) * variance
  }

  function SeverityOf(deviation: real, variance: real): Severity {
    if Exceeds(deviation, variance, 3.0) then High else if Exceeds(deviation, variance, 2.5) then Medium else Low
  }

  lemma SmallSquares(n: real, d2: real, v: real)
    requires 2.0 <= n <= 10.0 && v >= 0.0 && n * d2 <= Square(n - 1.0) * v
    ensures d2 <= 9.0 * v
  {
    FactorsOfTen(n);
    Ordered(Square(n - 1.0), 9.0 * n, v);
    assert n * d2 <= n * (9.0 * v);
    if d2 > 9.0 * v { NegativeProduct(n, 9.0 * v - d2); }
  }

  lemma FactorsOfTen(n: real)
    requires 2.0 <= n <= 10.0
    ensures Square(n - 1.0) <= 9.0 * n
  {
    ProductNonnegative(10.0 - n, n - 1.0);
    assert (10.0 - n) * (n - 1.0) == 11.0 * n - n * n - 10.0;
    assert Square(n - 1.0) == n * n - 2.0 * n + 1.0;
  }

  lemma Ordered(a: real, b: real, v: real)
    requires a <= b && v >= 0.0
    ensures a * v <= b * v
  {}

  lemma NotHigh(n: real, m: real, d: real, v: real)
    requires 2.0 <= n <= 10.0 && m == n - 1.0 && v >= 0.0 && n * Square(d) <= Square(m) * v
    ensures SeverityOf(d, v) != High
  {
    SmallSquares(n, Square(d), v);
  }

  /** No cohort of at most ten journeys, the minimum included, has a high-severity anomaly. */
  lemma NeverHigh(xs: seq<real>, i: nat)
    requires 2 <= |xs| <= MINIMUM_COHORT && i < |xs|
    ensures SeverityOf(Deviations(xs)[i], Variance(xs)) != High
  {
    var n, m, d, v := ScoreBound(xs, i);
    NotHigh(n, m, d, v);
  }

  /** One journey of n hours among journeys of none. */
  function Outlier(n: nat): (r: seq<real>)
    requires n >= 2
    ensures |r| == n
  {
    Repeat(0.0, n - 1) + [n as real]
  }

  function Repeat(x: real, n: nat): (r: seq<real>)
    ensures |r| == n && forall i :: 0 <= i < n ==> r[i] == x
  {
    if n == 0 then [] else Repeat(x, n - 1) + [x]
  }

  lemma {:induction false} ZerosSum(n: nat)
    ensures Sum(Repeat(0.0, n)) == 0.0
  {
    if n > 0 {
      ZerosSum(n - 1);
      SumLast(Repeat(0.0, n - 1), 0.0);
    }
  }

  lemma {:induction false} OnesSquared(n: nat)
    ensures SumSquares(Repeat(-1.0, n)) == n as real
  {
    if n > 0 {
      OnesSquared(n - 1);
      SumLast(Repeat(-1.0, n - 1), -1.0);
      assert Square(-1.0) == 1.0;
    }
  }

  lemma SumLast(xs: seq<real>, x: real)
    ensures Sum(xs + [x]) == Sum(xs) + x && SumSquares(xs + [x]) == SumSquares(xs) + Square(x)
  {
    assert (xs + [x])[..|xs|] == xs;
  }

  lemma OutlierMean(n: nat)
    requires n >= 2
    ensures Mean(Outlier(n)) == 1.0
  {
    ZerosSum(n - 1);
    SumLast(Repeat(0.0, n - 1), n as real);
    assert Sum(Outlier(n)) == n as real;
    Ratio(1.0, n as real);
  }

  lemma Ratio(a: real, b: real)
    requires b != 0.0
    ensures a * b / b == a
  {}

  lemma OnceMore(m: real, n: real)
    requires n == m + 1.0
    ensures m * n == m + Square(m)
  {}

  lemma OutlierSquares(n: nat, m: real, ds: seq<real>)
    requires n >= 2 && m == (n - 1) as real && ds == Repeat(-1.0, n - 1) + [m]
    ensures SumSquares(ds) == m * n as real
  {
    OnesSquared(n - 1);
    SumLast(Repeat(-1.0, n - 1), m);
    OnceMore(m, n as real);
  }

  lemma OutlierDeviations(n: nat, m: real)
    requires n >= 2 && m == (n - 1) as real
    ensures Deviations(Outlier(n)) == Repeat(-1.0, n - 1) + [m]
  {
    OutlierMean(n);
  }

  lemma VarianceOf(xs: seq<real>, q: real, m: real, v: real)
    requires |xs| >= 2 && m == (|xs| - 1) as real && q == SumSquares(Deviations(xs)) && q == m * v
    ensures Variance(xs) == v
  {
    RatioOf(q, m, v);
  }

  /** The bound is reached: the outlier's squared deviation is (n - 1)^2 / n variances. */
  lemma OutlierScore(n: nat, m: real)
    requires n >= 2 && m == (n - 1) as real
    ensures Deviations(Outlier(n))[n - 1] == m && Variance(Outlier(n)) == n as real
  {
    var ds := Deviations(Outlier(n));
    OutlierDeviations(n, m);
    OutlierSquares(n, m, ds);
    VarianceOf(Outlier(n), SumSquares(ds), m, n as real);
  }

  lemma RatioOf(q: real, m: real, n: real)
    requires m != 0.0 && q == m * n
    ensures q / m == n
  {}

  lemma ElevenSuffice(n: real, m: real)
    requires n >= 11.0 && m == n - 1.0
    ensures Exceeds(m, n, 3.0)
  {
    ProductNonnegative(n, n - 11.0);
    assert n * (n - 11.0) == n * n - 11.0 * n;
    assert Square(m) == n * n - 2.0 * n + 1.0;
  }

  /** So a high severity is possible exactly in cohorts of eleven or more. */
  lemma HighExactly(n: nat)
    requires n >= 2
    ensures (exists xs: seq<real>, i: nat :: |xs| == n && i < n && SeverityOf(Deviations(xs)[i], Variance(xs)) == High) <==> n >= 11
  {
    if n >= 11 {
      OutlierScore(n, (n - 1) as real);
      ElevenSuffice(n as real, (n - 1) as real);
      assert SeverityOf(Deviations(Outlier(n))[n - 1], Variance(Outlier(n))) == High;
    } else {
      forall xs: seq<real>, i: nat | |xs| == n && i < n ensures SeverityOf(Deviations(xs)[i], Variance(xs)) != High {
        NeverHigh(xs, i);
      }
    }
  }

  /** The number of deviations that exceed z. */
  function Flagged(ds: seq<real>, variance: real, z: real): nat {
    if ds == [] then 0
    else Flagged(ds[..|ds| - 1], variance, z) + if Exceeds(ds[|ds| - 1], variance, z) then 1 else 0
  }

  lemma OneMore(k: nat, t: real, q: real, d: real)
    requires k as real * t <= q && d > t
    ensures (k + 1) as real * t < q + d
  {
    assert (k + 1) as real == k as real + 1.0;
    assert (k as real + 1.0) * t == k as real * t + t;
  }

  /** The squares of the flagged deviations alone exceed z^2 variances each. */
  lemma {:induction false} FlaggedSquares(ds: seq<real>, variance: real, z: real, t: real)
    requires z > 0.0 && t == Square(z) * variance && t >= 0.0
    ensures Flagged(ds, variance, z) as real * t <= SumSquares(ds)
    ensures Flagged(ds, variance, z) > 0 ==> Flagged(ds, variance, z) as real * t < SumSquares(ds)
  {
    if ds != [] {
      var early, last := ds[..|ds| - 1], ds[|ds| - 1];
      FlaggedSquares(early, variance, z, t);
      if Exceeds(last, variance, z) {
        OneMore(Flagged(early, variance, z), t, SumSquares(early), Square(last));
      }
    }
  }

  lemma Scaled(a: real, b: real, v: real)
    requires v > 0.0 && a >= b
    ensures a * v >= b * v
  {}

  lemma FewerThan(k: real, z2: real, v: real, n: real)
    requires v > 0.0 && k * (z2 * v) < n * v
    ensures k * z2 < n
  {
    assert k * (z2 * v) == (k * z2) * v;
    if k * z2 >= n { Scaled(k * z2, n, v); }
  }

  /** With a positive threshold z and any spread at all, fewer than (n - 1) / z^2 journeys are flagged. */
  lemma FewFlagged(xs: seq<real>, z: real)
    requires |xs| >= 2 && z > 0.0 && Variance(xs) > 0.0
    ensures Flagged(Deviations(xs), Variance(xs), z) as real * Square(z) < (|xs| - 1) as real
  {
    var ds, v, n := Deviations(xs), Variance(xs), (|xs| - 1) as real;
    ProductNonnegative(Square(z), v);
    FlaggedSquares(ds, v, z, Square(z) * v);
    Spread(SumSquares(ds), n);
    FewerThan(Flagged(ds, v, z) as real, Square(z), v, n);
  }

  lemma ProductNonnegative(a: real, b: real)
    requires a >= 0.0 && b >= 0.0
    ensures a * b >= 0.0
  {}

  lemma Spread(q: real, n: real)
    requires n > 0.0 && q / n > 0.0
    ensures n * (q / n) == q && q > 0.0
  {}

  // ---- the report ----

  datatype Route = Route(origin: string, destination: string)

  function RouteOf(j: Journey): Route {
    Route(j.origin, j.destination)
  }

  function Cohort(journeys: seq<Journey>, route: Route): seq<Journey> {
    if journeys == [] then []
    else Cohort(journeys[..|journeys| - 1], route) + if RouteOf(journeys[|journeys| - 1]) == route then [journeys[|journeys| - 1]] else []
  }

  function Hours(js: seq<Journey>): (r: seq<real>)
    ensures |r| == |js| && forall i :: 0 <= i < |js| ==> r[i] == js[i].hours
  {
    if js == [] then [] else Hours(js[..|js| - 1]) + [js[|js| - 1].hours]
  }

  /** Small cohorts and cohorts without spread are suppressed. */
  predicate Assessed(js: seq<Journey>) {
    |js| >= MINIMUM_COHORT && Variance(Hours(js)) != 0.0
  }

  /** The anomalies among the first n journeys, given their deviations and the variance. */
  function Report(js: seq<Journey>, ds: seq<real>, variance: real, z: real, n: nat): seq<Anomaly>
    requires n <= |js| == |ds|
  {
    if n == 0 then []
    else
      Report(js, ds, variance, z, n - 1) +
      if Exceeds(ds[n - 1], variance, z) then [Anomaly(js[n - 1], SeverityOf(ds[n - 1], variance), |js|)] else []
  }

  function CohortReport(js: seq<Journey>, z: real): seq<Anomaly> {
    if Assessed(js) then Report(js, Deviations(Hours(js)), Variance(Hours(js)), z, |js|) else []
  }

  lemma {:induction false} ReportCounts(js: seq<Journey>, ds: seq<real>, variance: real, z: real, n: nat)
    requires n <= |js| == |ds|
    ensures |Report(js, ds, variance, z, n)| == Flagged(ds[..n], variance, z)
  {
    if n > 0 {
      ReportCounts(js, ds, variance, z, n - 1);
      assert ds[..n][..n - 1] == ds[..n - 1];
    }
  }

  lemma FewReported(js: seq<Journey>, xs: seq<real>, z: real, k: nat)
    requires |xs| == |js| >= 2 && z > 0.0 && Variance(xs) > 0.0
    requires k == |Report(js, Deviations(xs), Variance(xs), z, |js|)|
    ensures k as real * Square(z) < (|js| - 1) as real
  {
    AllCounted(js, Deviations(xs), Variance(xs), z);
    FewFlagged(xs, z);
  }

  lemma AssessedSpread(js: seq<Journey>, z: real)
    requires Assessed(js)
    ensures Variance(Hours(js)) > 0.0
    ensures CohortReport(js, z) == Report(js, Deviations(Hours(js)), Variance(Hours(js)), z, |js|)
  {}

  /** A report with a positive threshold z holds fewer than (n - 1) / z^2 of the n journeys of its cohort. */
  lemma ReportBound(js: seq<Journey>, z: real, k: nat)
    requires Assessed(js) && z > 0.0 && k == |CohortReport(js, z)|
    ensures k as real * Square(z) < (|js| - 1) as real
  {
    AssessedSpread(js, z);
    FewReported(js, Hours(js), z, k);
  }

  lemma AllCounted(js: seq<Journey>, ds: seq<real>, variance: real, z: real)
    requires |ds| == |js|
    ensures |Report(js, ds, variance, z, |js|)| == Flagged(ds, variance, z)
  {
    ReportCounts(js, ds, variance, z, |js|);
    assert ds[..|js|] == ds;
  }

  lemma {:induction false} NoneHigh(js: seq<Journey>, ds: seq<real>, variance: real, z: real, n: nat)
    requires n <= |js| == |ds| && forall i :: 0 <= i < |ds| ==> SeverityOf(ds[i], variance) != High
    ensures forall a :: a in Report(js, ds, variance, z, n) ==> a.severity != High
  {
    if n > 0 { NoneHigh(js, ds, variance, z, n - 1); }
  }

  /** A report on a cohort of the minimum size holds no high severity, whatever the threshold. */
  lemma ReportNeverHigh(js: seq<Journey>, z: real)
    requires |js| == MINIMUM_COHORT
    ensures forall a :: a in CohortReport(js, z) ==> a.severity != High
  {
    if Assessed(js) {
      var ds, v := Deviations(Hours(js)), Variance(Hours(js));
      forall i | 0 <= i < |ds| ensures SeverityOf(ds[i], v) != High {
        NeverHigh(Hours(js), i);
      }
      NoneHigh(js, ds, v, z, |js|);
    }
  }

  /** The groups in order of first appearance, each with its journeys in order. */
  method GroupByRoute(journeys: seq<Journey>) returns (groups: map<Route, seq<Journey>>)
    ensures forall r :: r in groups <==> exists j :: j in journeys && RouteOf(j) == r
    ensures forall r :: r in groups ==> groups[r] == Cohort(journeys, r)
    ensures forall r :: r !in groups ==> Cohort(journeys, r) == []
  {
    groups := map[];
    var i := 0;
    while i < |journeys|
      invariant 0 <= i <= |journeys|
      invariant forall r :: r in groups <==> exists j :: j in journeys[..i] && RouteOf(j) == r
      invariant forall r :: r in groups ==> groups[r] == Cohort(journeys[..i], r)
      invariant forall r :: r !in groups ==> Cohort(journeys[..i], r) == []
    {
      var j, r := journeys[i], RouteOf(journeys[i]);
      assert journeys[..i + 1] == journeys[..i] + [j];
      assert journeys[..i + 1][..i] == journeys[..i];
      groups := groups[r := (if r in groups then groups[r] else []) + [j]];
      i := i + 1;
    }
    assert journeys[..i] == journeys;
  }

  /** The anomalies of one group. */
  method ReportGroup(js: seq<Journey>, z: real) returns (found: seq<Anomaly>)
    ensures found == CohortReport(js, z)
  {
    found := [];
    if |js| < MINIMUM_COHORT { return; }
    var values := Hours(js);
    var variance := Variance(values);
    if variance == 0.0 { return; }
    var average := Mean(values);
    ghost var ds := Deviations(values);
    var i := 0;
    while i < |js|
      invariant 0 <= i <= |js| && found == Report(js, ds, variance, z, i)
    {
      var deviation := js[i].hours - average;
      assert deviation == ds[i];
      if Exceeds(deviation, variance, z) {
        found := found + [Anomaly(js[i], SeverityOf(deviation, variance), |js|)];
      }
      i := i + 1;
    }
  }

  /** The anomalies of one route, in the order they are reported. */
  function OnRoute(found: seq<Anomaly>, r: Route): seq<Anomaly> {
    if found == [] then []
    else OnRoute(found[..|found| - 1], r) + if RouteOf(found[|found| - 1].journey) == r then [found[|found| - 1]] else []
  }

  lemma {:induction false} OnRouteJoin(a: seq<Anomaly>, b: seq<Anomaly>, r: Route)
    ensures OnRoute(a + b, r) == OnRoute(a, r) + OnRoute(b, r)
  {
    if b == [] {
      assert a + b == a;
    } else {
      assert (a + b)[..|a + b| - 1] == a + b[..|b| - 1];
      OnRouteJoin(a, b[..|b| - 1], r);
    }
  }

  lemma JoinFirst(a: seq<Anomaly>, b: seq<Anomaly>, r: Route)
    requires OnRoute(a, r) == []
    ensures OnRoute(a + b, r) == OnRoute(b, r)
  {
    OnRouteJoin(a, b, r);
  }

  lemma JoinElsewhere(a: seq<Anomaly>, b: seq<Anomaly>, r: Route)
    requires OnRoute(b, r) == []
    ensures OnRoute(a + b, r) == OnRoute(a, r)
  {
    OnRouteJoin(a, b, r);
  }

  lemma {:induction false} CohortOnRoute(journeys: seq<Journey>, route: Route)
    ensures forall j :: j in Cohort(journeys, route) ==> RouteOf(j) == route
  {
    if journeys != [] { CohortOnRoute(journeys[..|journeys| - 1], route); }
  }

  lemma {:induction false} OnlyOnRoute(found: seq<Anomaly>, route: Route, r: Route)
    requires forall a :: a in found ==> RouteOf(a.journey) == route
    ensures OnRoute(found, r) == if r == route then found else []
  {
    if found != [] {
      OnlyOnRoute(found[..|found| - 1], route, r);
    }
  }

  lemma {:induction false} ReportFrom(js: seq<Journey>, ds: seq<real>, variance: real, z: real, n: nat)
    requires n <= |js| == |ds|
    ensures forall a :: a in Report(js, ds, variance, z, n) ==> a.journey in js
  {
    if n > 0 { ReportFrom(js, ds, variance, z, n - 1); }
  }

  /** The report of a cohort lies on its route. */
  lemma CohortReportOnRoute(journeys: seq<Journey>, z: real, route: Route, r: Route)
    ensures OnRoute(CohortReport(Cohort(journeys, route), z), r) == if r == route then CohortReport(Cohort(journeys, route), z) else []
  {
    var js := Cohort(journeys, route);
    CohortOnRoute(journeys, route);
    if Assessed(js) {
      ReportFrom(js, Deviations(Hours(js)), Variance(Hours(js)), z, |js|);
    }
    OnlyOnRoute(CohortReport(js, z), route, r);
  }

  /** The routes outside `todo` are reported in full, the others not at all. */
  ghost predicate Reported(full: Route -> seq<Anomaly>, results: seq<Anomaly>, todo: set<Route>) {
    forall r :: OnRoute(results, r) == if r in todo then [] else full(r)
  }

  lemma ReportedNext(full: Route -> seq<Anomaly>, results: seq<Anomaly>, todo: set<Route>, r: Route)
    requires Reported(full, results, todo) && r in todo
    requires forall s :: OnRoute(full(r), s) == if s == r then full(r) else []
    ensures Reported(full, results + full(r), todo - {r})
  {
    forall s ensures OnRoute(results + full(r), s) == if s in todo - {r} then [] else full(s) {
      if s == r { JoinFirst(results, full(r), s); } else { JoinElsewhere(results, full(r), s); }
    }
  }

  /** `detect_anomalies`: what it reports on a route is exactly the report of that route's cohort, each anomaly once. */
  method DetectAnomalies(journeys: seq<Journey>, z: real) returns (results: seq<Anomaly>)
    ensures forall r :: OnRoute(results, r) == CohortReport(Cohort(journeys, r), z)
  {
    var groups := GroupByRoute(journeys);
    results := [];
    var todo := groups.Keys;
    ghost var full := r => CohortReport(Cohort(journeys, r), z);
    while todo != {}
      invariant todo <= groups.Keys && Reported(full, results, todo)
      decreases todo
    {
      var r :| r in todo;
      var found := ReportGroup(groups[r], z);
      forall s ensures OnRoute(full(r), s) == if s == r then full(r) else [] {
        CohortReportOnRoute(journeys, z, r, s);
      }
      ReportedNext(full, results, todo, r);
      results := results + found;
      todo := todo - {r};
    }
  }

  // ---- the report, told by scores ----

  /** The size of a z-score: the deviation over the standard deviation s, without its sign. */
  function Score(deviation: real, s: real): real
    requires s > 0.0
  {
    (if deviation < 0.0 then -deviation else deviation) / s
  }

  lemma TimesAbove(a: real, b: real, s: real)
    requires s > 0.0 && a > b
    ensures a * s > b * s
  {}

  lemma QuotientAbove(a: real, s: real, z: real)
    requires s > 0.0
    ensures a / s > z <==> a > z * s
  {
    var q := a / s;
    assert q * s == a;
    if q > z { TimesAbove(q, z, s); }
    if z > q { TimesAbove(z, q, s); }
  }

  lemma SquareGrows(a: real, b: real)
    requires a > b >= 0.0
    ensures Square(a) > Square(b)
  {
    ProductGrows(a, b);
  }

  lemma ProductGrows(a: real, b: real)
    requires a > b >= 0.0
    ensures a * a > b * b
  {
    TimesAbove(a, b, a + b);
    assert a * (a + b) == a * a + a * b && b * (a + b) == b * b + a * b;
  }

  lemma SquaresCompare(a: real, b: real)
    requires a >= 0.0 && b >= 0.0
    ensures a > b <==> Square(a) > Square(b)
  {
    if a > b { SquareGrows(a, b); }
    if b > a { SquareGrows(b, a); }
  }

  lemma SquareOfProduct(z: real, s: real)
    ensures Square(z * s) == Square(z) * Square(s)
  {
    assert (z * s) * (z * s) == z * (s * (z * s)) == z * (z * (s * s)) == (z * z) * (s * s);
  }

  /** The comparison by squares is the comparison of the score with the threshold. */
  lemma ExceedsByScore(deviation: real, variance: real, s: real, z: real)
    requires s > 0.0 && variance == s * s
    ensures Exceeds(deviation, variance, z) <==> Score(deviation, s) > z
  {
    var a := if deviation < 0.0 then -deviation else deviation;
    assert Square(a) == Square(deviation);
    QuotientAbove(a, s, z);
    if z >= 0.0 {
      ProductNonnegative(z, s);
      SquaresCompare(a, z * s);
      SquareOfProduct(z, s);
    } else {
      QuotientAbove(a, s, 0.0);
      if a == 0.0 { assert a / s == 0.0; }
    }
  }

  /** High above three standard deviations, medium above two and a half, low below. */
  lemma SeverityByScore(deviation: real, variance: real, s: real)
    requires s > 0.0 && variance == s * s
    ensures SeverityOf(deviation, variance) == High <==> Score(deviation, s) > 3.0
    ensures SeverityOf(deviation, variance) == Medium <==> 2.5 < Score(deviation, s) <= 3.0
    ensures SeverityOf(deviation, variance) == Low <==> Score(deviation, s) <= 2.5
  {
    ExceedsByScore(deviation, variance, s, 3.0);
    ExceedsByScore(deviation, variance, s, 2.5);
  }

  lemma {:induction false} ReportMembers(js: seq<Journey>, ds: seq<real>, variance: real, z: real, n: nat, a: Anomaly)
    requires n <= |js| == |ds|
    ensures a in Report(js, ds, variance, z, n) <==>
      exists i :: 0 <= i < n && Exceeds(ds[i], variance, z) && a == Anomaly(js[i], SeverityOf(ds[i], variance), |js|)
  {
    if n > 0 { ReportMembers(js, ds, variance, z, n - 1, a); }
  }

  /** The anomaly reports a journey with that deviation: its score exceeds the threshold, and the severity is that of its score. */
  predicate Scored(j: Journey, deviation: real, s: real, z: real, n: nat, a: Anomaly)
    requires s > 0.0
  {
    && a.journey == j && a.sampleSize == n && Score(deviation, s) > z
    && (a.severity == High <==> Score(deviation, s) > 3.0)
    && (a.severity == Medium <==> 2.5 < Score(deviation, s) <= 3.0)
  }

  lemma ScoredExactly(j: Journey, d: real, v: real, s: real, z: real, n: nat, a: Anomaly)
    requires s > 0.0 && v == s * s
    ensures Exceeds(d, v, z) && a == Anomaly(j, SeverityOf(d, v), n) <==> Scored(j, d, s, z, n, a)
  {
    ExceedsByScore(d, v, s, z);
    SeverityByScore(d, v, s);
  }

  lemma ReportScored(js: seq<Journey>, ds: seq<real>, m: real, v: real, s: real, z: real, a: Anomaly)
    requires |js| == |ds| && s > 0.0 && v == s * s && forall i :: 0 <= i < |js| ==> ds[i] == js[i].hours - m
    ensures a in Report(js, ds, v, z, |js|) <==> exists i :: 0 <= i < |js| && Scored(js[i], js[i].hours - m, s, z, |js|, a)
  {
    ReportMembers(js, ds, v, z, |js|, a);
    forall i | 0 <= i < |js|
      ensures Exceeds(ds[i], v, z) && a == Anomaly(js[i], SeverityOf(ds[i], v), |js|) <==> Scored(js[i], js[i].hours - m, s, z, |js|, a)
    {
      ScoredExactly(js[i], ds[i], v, s, z, |js|, a);
    }
  }

  /** In a cohort with standard deviation s exactly the journeys whose score exceeds the threshold are reported, with the severity of
      their score and the size of the cohort. */
  lemma ReportByScore(js: seq<Journey>, z: real, hours: seq<real>, m: real, s: real, report: seq<Anomaly>, a: Anomaly)
    requires |js| >= 10 && hours == Hours(js) && m == Mean(hours) && s > 0.0 && Variance(hours) == s * s && report == CohortReport(js, z)
    ensures a in report <==> exists i :: 0 <= i < |js| && Scored(js[i], js[i].hours - m, s, z, |js|, a)
  {
    var ds, v := Deviations(hours), Variance(hours);
    DeviationsAt(js, hours);
    ReportIs(js, z, hours, s, v, ds, report);
    ReportScored(js, ds, m, v, s, z, a);
  }

  lemma ReportIs(js: seq<Journey>, z: real, hours: seq<real>, s: real, v: real, ds: seq<real>, report: seq<Anomaly>)
    requires |js| >= 10 && hours == Hours(js) && ds == Deviations(hours) && v == Variance(hours) && s > 0.0 && v == s * s
    requires report == CohortReport(js, z)
    ensures report == Report(js, ds, v, z, |js|)
  {
    ProductGrows(s, 0.0);
  }

  lemma DeviationsAt(js: seq<Journey>, hours: seq<real>)
    requires js != [] && hours == Hours(js)
    ensures forall i :: 0 <= i < |js| ==> Deviations(hours)[i] == js[i].hours - Mean(hours)
  {}

  lemma {:induction false} NoSquares(xs: seq<real>)
    ensures SumSquares(xs) == 0.0 <==> forall i :: 0 <= i < |xs| ==> xs[i] == 0.0
  {
    if xs != [] {
      var n := |xs| - 1;
      NoSquares(xs[..n]);
      NonzeroSquare(xs[n]);
      if forall i :: 0 <= i < |xs| ==> xs[i] == 0.0 { assert forall i :: 0 <= i < n ==> xs[..n][i] == xs[i]; }
      if SumSquares(xs) == 0.0 { assert forall i :: 0 <= i < n ==> xs[i] == xs[..n][i]; }
    }
  }

  lemma NonzeroSquare(x: real)
    ensures Square(x) == 0.0 <==> x == 0.0
  {
    var y := if x < 0.0 then 0.0 - x else x;
    assert y * y == x * x;
    if y > 0.0 { SquareGrows(y, 0.0); }
  }

  lemma {:induction false} EqualSum(xs: seq<real>, x: real)
    requires forall i :: 0 <= i < |xs| ==> xs[i] == x
    ensures Sum(xs) == x * |xs| as real
  {
    if xs != [] { EqualSum(xs[..|xs| - 1], x); }
  }

  /** A cohort is passed over exactly when it has fewer than ten journeys or they all took equally long. */
  lemma SuppressedExactly(js: seq<Journey>)
    ensures Assessed(js) <==> |js| >= 10 && exists i, j :: 0 <= i < j < |js| && js[i].hours != js[j].hours
  {
    if |js| >= 10 {
      SpreadExactly(Hours(js));
      assert forall i :: 0 <= i < |js| ==> Hours(js)[i] == js[i].hours;
    }
  }

  lemma SpreadExactly(xs: seq<real>)
    requires |xs| >= 2
    ensures Variance(xs) != 0.0 <==> exists i, j :: 0 <= i < j < |xs| && xs[i] != xs[j]
  {
    var m, ds := Mean(xs), Deviations(xs);
    NoSquares(ds);
    ZeroQuotient(SumSquares(ds), (|xs| - 1) as real);
    AllAtMean(xs, m, ds);
    if forall i, j :: 0 <= i < j < |xs| ==> xs[i] == xs[j] {
      EqualMean(xs);
    }
  }

  lemma EqualMean(xs: seq<real>)
    requires |xs| >= 2 && forall i, j :: 0 <= i < j < |xs| ==> xs[i] == xs[j]
    ensures Mean(xs) == xs[0]
  {
    EqualSum(xs, xs[0]);
    Ratio(xs[0], |xs| as real);
  }

  lemma AllAtMean(xs: seq<real>, m: real, ds: seq<real>)
    requires |ds| == |xs| >= 2 && forall i :: 0 <= i < |xs| ==> ds[i] == xs[i] - m
    ensures (forall i :: 0 <= i < |ds| ==> ds[i] == 0.0) ==> forall i, j :: 0 <= i < j < |xs| ==> xs[i] == xs[j]
    ensures xs[0] == m && (forall i, j :: 0 <= i < j < |xs| ==> xs[i] == xs[j]) ==> forall i :: 0 <= i < |ds| ==> ds[i] == 0.0
  {
    if forall i :: 0 <= i < |ds| ==> ds[i] == 0.0 {
      forall i, j | 0 <= i < j < |xs| ensures xs[i] == xs[j] { assert ds[i] == 0.0 && ds[j] == 0.0; }
    }
  }

  lemma ZeroQuotient(a: real, b: real)
    requires b > 0.0
    ensures a / b == 0.0 <==> a == 0.0
  {
    assert (a / b) * b == a;
  }

  /** On a cohort that is passed over nothing is reported. */
  lemma NothingSuppressed(js: seq<Journey>, z: real)
    requires |js| < 10 || forall i, j :: 0 <= i < j < |js| ==> js[i].hours == js[j].hours
    ensures CohortReport(js, z) == []
  {
    SuppressedExactly(js);
  }
}
