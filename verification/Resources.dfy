/** The resource-trend analysis of the lifecycle campaign: an ordinary least squares slope
    over the cycles, with the floating-point arithmetic taken as exact. */
module Resources {
  import opened Selections

  datatype Metric = RssBytes | FileDescriptors | Threads

  const METRICS: seq<Metric> := [RssBytes, FileDescriptors, Threads]

  /** One reading; the baseline is a reading too, with a negative cycle. */
  datatype Sample = Sample(cycle: int, rssBytes: int, fileDescriptors: int, threads: int) {
    function Get(metric: Metric): int {
      match metric
      case RssBytes => rssBytes
      case FileDescriptors => fileDescriptors
      case Threads => threads
    }
  }

  datatype Row = Row(
    baseline: int,
    final: int,
    peak: int,
    peakGrowth: int,
    slopePerCycle: real,
    projectedGrowth: real)

  // ---------------------------------------------------------------- sums

  function SumUpTo(f: int -> real, n: nat): real {
    if n == 0 then 0.0 else SumUpTo(f, n - 1) + f(n - 1)
  }

  /** The sum of f(0) to f(n-1). */
  function Sum(f: int -> real, n: nat): real {
    SumUpTo(f, n)
  }

  lemma SumStep(f: int -> real, n: nat)
    ensures Sum(f, 0) == 0.0
    ensures n > 0 ==> Sum(f, n) == Sum(f, n - 1) + f(n - 1)
  {
  }

  ghost predicate Combines(f: int -> real, g: int -> real, a: real, b: real, h: int -> real, n: nat) {
    forall i | 0 <= i < n :: h(i) == a * f(i) + b * g(i)
  }

  lemma {:induction false} SumOfCombination(f: int -> real, g: int -> real, a: real, b: real, h: int -> real, n: nat)
    requires Combines(f, g, a, b, h, n)
    ensures Sum(h, n) == a * Sum(f, n) + b * Sum(g, n)
  {
    if n > 0 {
      SumOfCombination(f, g, a, b, h, n - 1);
    }
  }

  lemma {:induction false} SumsAgree(f: int -> real, g: int -> real, n: nat)
    requires forall i | 0 <= i < n :: f(i) == g(i)
    ensures Sum(f, n) == Sum(g, n)
  {
    if n > 0 {
      SumsAgree(f, g, n - 1);
    }
  }

  lemma {:induction false} SumIsMonotone(f: int -> real, g: int -> real, n: nat)
    requires forall i | 0 <= i < n :: f(i) <= g(i)
    ensures Sum(f, n) <= Sum(g, n)
  {
    if n > 0 {
      SumIsMonotone(f, g, n - 1);
    }
  }

  function At(values: seq<int>): int -> real {
    i => if 0 <= i < |values| then values[i] as real else 0.0
  }

  // ---------------------------------------------------------------- the analysis

  function Cycles(samples: seq<Sample>): seq<Sample> {
    if samples == [] then []
    else (if samples[0].cycle >= 0 then [samples[0]] else []) + Cycles(samples[1..])
  }

  function ValuesOf(metric: Metric, cycles: seq<Sample>): seq<int> {
    seq(|cycles|, i requires 0 <= i < |cycles| => cycles[i].Get(metric))
  }

  function Mean(values: seq<int>): real
    requires values != []
  {
    Sum(At(values), |values|) / |values| as real
  }

  /** The centre of the indices 0 to n-1. */
  function Centre(n: nat): real {
    if n == 0 then 0.0 else (n - 1) as real / 2.0
  }

  function Centred(n: nat): int -> real {
    i => i as real - Centre(n)
  }

  function Deviation(values: seq<int>, mean: real): int -> real {
    i => At(values)(i) - mean
  }

  function Product(f: int -> real, g: int -> real): int -> real {
    i => f(i) * g(i)
  }

  function Denominator(n: nat): real {
    Sum(Product(Centred(n), Centred(n)), n)
  }

  function Slope(values: seq<int>): real {
    var n := |values|;
    if n > 1 && Denominator(n) != 0.0 then
      Sum(Product(Centred(n), Deviation(values, Mean(values))), n) / Denominator(n)
    else 0.0
  }

  function Peak(values: seq<int>, default: int): (p: int)
    ensures if values == [] then p == default else p in values && forall v <- values :: v <= p
  {
    if values == [] then default
    else if |values| == 1 then values[0]
    else
      var rest := Peak(values[1..], default);
      assert values == [values[0]] + values[1..];
      if values[0] > rest then values[0] else rest
  }

  function Analyze(metric: Metric, baseline: int, cycles: seq<Sample>): Row {
    var values := ValuesOf(metric, cycles);
    var peak := Peak(values, baseline);
    var slope := Slope(values);
    var projected := slope * |values| as real;
    Row(baseline,
        if values == [] then baseline else values[|values| - 1],
        peak,
        if peak - baseline > 0 then peak - baseline else 0,
        slope,
        if projected > 0.0 then projected else 0.0)
  }

  function IsCycle(): Sample -> bool {
    (sample: Sample) => sample.cycle >= 0
  }

  /** The readings that are analysed: all with a non-negative cycle, in their order. */
  lemma {:induction false} CyclesExactly(samples: seq<Sample>)
    ensures Selects(IsCycle(), samples, Cycles(samples))
  {
    if samples == [] {
      SelectsNothing(IsCycle());
    } else {
      CyclesExactly(samples[1..]);
      SelectsFirst(IsCycle(), samples[0], samples[1..], Cycles(samples[1..]));
      assert samples == [samples[0]] + samples[1..];
    }
  }

  /** Where no cycle is negative these are all the readings. */
  lemma {:induction false} AllAreCycles(samples: seq<Sample>)
    requires forall sample <- samples :: sample.cycle >= 0
    ensures Cycles(samples) == samples
  {
    if samples != [] {
      AllAreCycles(samples[1..]);
    }
  }

  /** Removing every entry with a negative cycle, the baseline among them, changes nothing. */
  lemma CyclesOfCycles(samples: seq<Sample>)
    ensures Cycles(Cycles(samples)) == Cycles(samples)
  {
    CyclesExactly(samples);
    forall sample <- Cycles(samples)
      ensures sample.cycle >= 0
    {
      SelectedSatisfies(IsCycle(), samples, Cycles(samples), sample);
    }
    AllAreCycles(Cycles(samples));
  }

  /** A row, said of the values of one metric in the order of the cycles. */
  ghost predicate Describes(row: Row, baseline: int, values: seq<int>) {
    && row.baseline == baseline
    && row.final == (if values == [] then baseline else values[|values| - 1])
    && (if values == [] then row.peak == baseline else row.peak in values && forall v <- values :: v <= row.peak)
    && row.peakGrowth == (if row.peak > baseline then row.peak - baseline else 0)
    && row.slopePerCycle == Slope(values)
    && (|values| < 2 ==> row.slopePerCycle == 0.0)
    && row.projectedGrowth == (if row.slopePerCycle > 0.0 then row.slopePerCycle * |values| as real else 0.0)
  }

  lemma AnalyzeDescribes(metric: Metric, baseline: int, cycles: seq<Sample>)
    ensures Describes(Analyze(metric, baseline, cycles), baseline, ValuesOf(metric, cycles))
  {
    var values := ValuesOf(metric, cycles);
    ProjectionSign(Slope(values), |values| as real);
  }

  lemma ProjectionSign(slope: real, n: real)
    requires n >= 0.0
    ensures (if slope * n > 0.0 then slope * n else 0.0) == (if slope > 0.0 then slope * n else 0.0)
  {
  }

  /** The rows of the three metrics, each from its own field of the baseline and the readings. */
  ghost predicate DescribesMetrics(analysis: map<Metric, Row>, baseline: Sample, cycles: seq<Sample>) {
    && analysis.Keys == {RssBytes, FileDescriptors, Threads}
    && Describes(analysis[RssBytes], baseline.rssBytes,
                 seq(|cycles|, i requires 0 <= i < |cycles| => cycles[i].rssBytes))
    && Describes(analysis[FileDescriptors], baseline.fileDescriptors,
                 seq(|cycles|, i requires 0 <= i < |cycles| => cycles[i].fileDescriptors))
    && Describes(analysis[Threads], baseline.threads,
                 seq(|cycles|, i requires 0 <= i < |cycles| => cycles[i].threads))
  }

  ghost predicate Analyzed(analysis: map<Metric, Row>, baseline: Sample, cycles: seq<Sample>) {
    forall metric <- analysis :: analysis[metric] == Analyze(metric, baseline.Get(metric), cycles)
  }

  lemma ValuesAre(cycles: seq<Sample>)
    ensures ValuesOf(RssBytes, cycles) == seq(|cycles|, i requires 0 <= i < |cycles| => cycles[i].rssBytes)
    ensures ValuesOf(FileDescriptors, cycles) == seq(|cycles|, i requires 0 <= i < |cycles| => cycles[i].fileDescriptors)
    ensures ValuesOf(Threads, cycles) == seq(|cycles|, i requires 0 <= i < |cycles| => cycles[i].threads)
  {
  }

  lemma AnalyzedDescribes(analysis: map<Metric, Row>, baseline: Sample, cycles: seq<Sample>)
    requires analysis.Keys == {RssBytes, FileDescriptors, Threads} && Analyzed(analysis, baseline, cycles)
    ensures DescribesMetrics(analysis, baseline, cycles)
  {
    ValuesAre(cycles);
    AnalyzeDescribes(RssBytes, baseline.rssBytes, cycles);
    AnalyzeDescribes(FileDescriptors, baseline.fileDescriptors, cycles);
    AnalyzeDescribes(Threads, baseline.threads, cycles);
  }

  method AnalyzeResources(baseline: Sample, samples: seq<Sample>) returns (analysis: map<Metric, Row>)
    ensures Analyzed(analysis, baseline, Cycles(samples))
    ensures Selects(IsCycle(), samples, Cycles(samples)) && DescribesMetrics(analysis, baseline, Cycles(samples))
  {
    var cycles := Cycles(samples);
    analysis := map[];
    for k := 0 to |METRICS|
      invariant analysis.Keys == set metric | metric in METRICS[..k]
      invariant Analyzed(analysis, baseline, cycles)
    {
      var metric := METRICS[k];
      analysis := analysis[metric := Analyze(metric, baseline.Get(metric), cycles)];
      assert METRICS[..k + 1] == METRICS[..k] + [metric];
    }
    assert METRICS[..|METRICS|] == METRICS;
    CyclesExactly(samples);
    AnalyzedDescribes(analysis, baseline, cycles);
  }

  // ---------------------------------------------------------------- the centred indices

  lemma {:induction false} SumOfShifted(f: int -> real, c: real, k: nat)
    requires forall i | 0 <= i < k :: f(i) == i as real - c
    ensures Sum(f, k) == k as real * (k as real - 1.0) / 2.0 - k as real * c
  {
    if k > 0 {
      SumOfShifted(f, c, k - 1);
    }
  }

  /** Six times the sum of (i - c)^2 for i below k. */
  function SquarePolynomial(k: real, c: real): real {
    k * (k - 1.0) * (2.0 * k - 1.0) - 6.0 * c * (k * (k - 1.0)) + 6.0 * (k * (c * c))
  }

  lemma PolynomialStep(k: real, c: real, x: real)
    requires x == k - 1.0 - c
    ensures SquarePolynomial(k, c) == SquarePolynomial(k - 1.0, c) + 6.0 * (x * x)
  {
  }

  lemma {:induction false} SumOfSquares(f: int -> real, c: real, k: nat)
    requires forall i | 0 <= i < k :: f(i) == i as real - c
    ensures 6.0 * Sum(Product(f, f), k) == SquarePolynomial(k as real, c)
  {
    if k > 0 {
      SumOfSquares(f, c, k - 1);
      PolynomialStep(k as real, c, f(k - 1));
    }
  }

  lemma CentredSumsToZero(n: nat)
    ensures Sum(Centred(n), n) == 0.0
  {
    SumOfShifted(Centred(n), Centre(n), n);
  }

  /** The denominator in closed form. */
  lemma DenominatorClosedForm(n: nat)
    ensures Denominator(n) == n as real * (n as real * n as real - 1.0) / 12.0
  {
    SumOfSquares(Centred(n), Centre(n), n);
    if n > 0 {
      ClosedFormAlgebra(n as real);
    }
  }

  lemma ClosedFormAlgebra(x: real)
    ensures SquarePolynomial(x, (x - 1.0) / 2.0) == x * (x * x - 1.0) / 2.0
  {
    var c := (x - 1.0) / 2.0;
    assert x - 1.0 == 2.0 * c;
    assert c * c * 4.0 == (x - 1.0) * (x - 1.0);
  }

  lemma DenominatorIsPositive(n: nat)
    requires n >= 2
    ensures Denominator(n) > 0.0
  {
    DenominatorClosedForm(n);
    CubeGrows(n as real);
  }

  lemma CubeGrows(x: real)
    requires x >= 2.0
    ensures x * (x * x - 1.0) > 0.0
  {
    assert x * x >= 4.0;
  }

  // ---------------------------------------------------------------- least squares

  /** The errors of the line a + b*i. */
  function Residual(values: seq<int>, a: real, b: real): int -> real {
    i => At(values)(i) - a - b * i as real
  }

  function SquaredError(values: seq<int>, a: real, b: real): real {
    Sum(Product(Residual(values, a, b), Residual(values, a, b)), |values|)
  }

  function Intercept(values: seq<int>): real
    requires values != []
  {
    Mean(values) - Slope(values) * Centre(|values|)
  }

  /** The errors of the fitted line. */
  function Fitted(values: seq<int>): int -> real
    requires values != []
  {
    Residual(values, Intercept(values), Slope(values))
  }

  lemma {:induction false} SumOfConstant(f: int -> real, x: real, n: nat)
    requires forall i | 0 <= i < n :: f(i) == x
    ensures Sum(f, n) == n as real * x
  {
    if n > 0 {
      SumOfConstant(f, x, n - 1);
    }
  }

  lemma DeviationCombines(values: seq<int>, ones: int -> real)
    requires values != [] && forall i :: ones(i) == 1.0
    ensures Combines(At(values), ones, 1.0, -Mean(values), Deviation(values, Mean(values)), |values|)
  {
  }

  lemma DeviationsSumToZero(values: seq<int>)
    requires values != []
    ensures Sum(Deviation(values, Mean(values)), |values|) == 0.0
  {
    var ones: int -> real := i => 1.0;
    DeviationCombines(values, ones);
    SumOfCombination(At(values), ones, 1.0, -Mean(values), Deviation(values, Mean(values)), |values|);
    SumOfConstant(ones, 1.0, |values|);
    Quotient(Sum(At(values), |values|), |values| as real);
  }

  lemma Quotient(x: real, d: real)
    requires d != 0.0
    ensures x / d * d == x && d * (x / d) == x
  {
  }

  lemma FittedIsCentred(values: seq<int>, i: int)
    requires values != []
    ensures Fitted(values)(i) == Deviation(values, Mean(values))(i) - Slope(values) * Centred(|values|)(i)
  {
    LineThroughMeans(At(values)(i), Mean(values), Slope(values), i as real, Centre(|values|));
  }

  lemma LineThroughMeans(v: real, mean: real, m: real, i: real, centre: real)
    ensures v - (mean - m * centre) - m * i == (v - mean) - m * (i - centre)
  {
  }

  lemma FittedCombines(values: seq<int>)
    requires values != []
    ensures Combines(Deviation(values, Mean(values)), Centred(|values|), 1.0, -Slope(values), Fitted(values), |values|)
  {
    forall i | 0 <= i < |values|
      ensures Fitted(values)(i) == 1.0 * Deviation(values, Mean(values))(i) + -Slope(values) * Centred(|values|)(i)
    {
      FittedIsCentred(values, i);
    }
  }

  /** The normal equations: the errors of the fitted line sum to zero ... */
  lemma FittedSumsToZero(values: seq<int>)
    requires |values| >= 2
    ensures Sum(Fitted(values), |values|) == 0.0
  {
    FittedCombines(values);
    SumOfCombination(Deviation(values, Mean(values)), Centred(|values|), 1.0, -Slope(values), Fitted(values), |values|);
    CentredSumsToZero(|values|);
    DeviationsSumToZero(values);
  }

  lemma ProductCombines(e: int -> real, y: int -> real, c: int -> real, m: real, n: nat)
    requires Combines(y, c, 1.0, -m, e, n)
    ensures Combines(Product(c, y), Product(c, c), 1.0, -m, Product(e, c), n)
  {
    forall i | 0 <= i < n
      ensures Product(e, c)(i) == 1.0 * Product(c, y)(i) + -m * Product(c, c)(i)
    {
      TimesIndex(e(i), y(i), m, c(i));
    }
  }

  /** ... and are orthogonal to the centred indices. */
  lemma FittedIsOrthogonal(values: seq<int>)
    requires |values| >= 2
    ensures Sum(Product(Fitted(values), Centred(|values|)), |values|) == 0.0
  {
    var n, c, y := |values|, Centred(|values|), Deviation(values, Mean(values));
    FittedCombines(values);
    ProductCombines(Fitted(values), y, c, Slope(values), n);
    SumOfCombination(Product(c, y), Product(c, c), 1.0, -Slope(values), Product(Fitted(values), c), n);
    SlopeTimesDenominator(values);
  }

  lemma SlopeTimesDenominator(values: seq<int>)
    requires |values| >= 2
    ensures Slope(values) * Denominator(|values|) == Sum(Product(Centred(|values|), Deviation(values, Mean(values))), |values|)
  {
    DenominatorIsPositive(|values|);
    Quotient(Sum(Product(Centred(|values|), Deviation(values, Mean(values))), |values|), Denominator(|values|));
  }

  lemma TimesIndex(e: real, y: real, m: real, c: real)
    requires e == 1.0 * y + -m * c
    ensures e * c == 1.0 * (c * y) + -m * (c * c)
  {
    assert -m * c * c == -m * (c * c);
  }

  /** How another line differs from the fitted one: a constant and a slope about the centre. */
  function Gap(values: seq<int>, a: real, b: real): real
    requires values != []
  {
    Intercept(values) - a + (Slope(values) - b) * Centre(|values|)
  }

  function Tilt(alpha: real, beta: real, n: nat): int -> real {
    i => alpha + beta * Centred(n)(i)
  }

  lemma ResidualTilts(values: seq<int>, a: real, b: real)
    requires values != []
    ensures Adds(Residual(values, a, b), Fitted(values), Tilt(Gap(values, a, b), Slope(values) - b, |values|), |values|)
  {
    LinesTilt(values, Intercept(values), Slope(values), a, b, Gap(values, a, b));
  }

  lemma LinesTilt(values: seq<int>, a0: real, m: real, a: real, b: real, gap: real)
    requires gap == a0 - a + (m - b) * Centre(|values|)
    ensures Adds(Residual(values, a, b), Residual(values, a0, m), Tilt(gap, m - b, |values|), |values|)
  {
    forall i | 0 <= i < |values|
      ensures Residual(values, a, b)(i) == Residual(values, a0, m)(i) + Tilt(gap, m - b, |values|)(i)
    {
      LinesTiltAt(values, a0, m, a, b, gap, i);
    }
  }

  lemma LinesTiltAt(values: seq<int>, a0: real, m: real, a: real, b: real, gap: real, i: int)
    requires gap == a0 - a + (m - b) * Centre(|values|)
    ensures Residual(values, a, b)(i) == Residual(values, a0, m)(i) + Tilt(gap, m - b, |values|)(i)
  {
    ShiftLine(At(values)(i), a0, m, a, b, i as real, Centre(|values|), Centred(|values|)(i));
  }

  lemma ShiftLine(v: real, a0: real, m: real, a: real, b: real, i: real, centre: real, c: real)
    requires c == i - centre
    ensures v - a - b * i == (v - a0 - m * i) + ((a0 - a + (m - b) * centre) + (m - b) * c)
  {
  }

  lemma TiltCombines(e: int -> real, alpha: real, beta: real, n: nat)
    ensures Combines(e, Product(e, Centred(n)), alpha, beta, Product(e, Tilt(alpha, beta, n)), n)
  {
    var c, d := Centred(n), Tilt(alpha, beta, n);
    forall i | 0 <= i < n
      ensures Product(e, d)(i) == alpha * e(i) + beta * Product(e, c)(i)
    {
      assert d(i) == alpha + beta * c(i);
      ProductTilts(e, c, d, alpha, beta, i);
    }
  }

  lemma ProductTilts(e: int -> real, c: int -> real, d: int -> real, alpha: real, beta: real, i: int)
    requires d(i) == alpha + beta * c(i)
    ensures Product(e, d)(i) == alpha * e(i) + beta * Product(e, c)(i)
  {
    TimesTilt(e(i), alpha, beta, c(i), d(i));
  }

  lemma FittedIsOrthogonalToTilt(values: seq<int>, alpha: real, beta: real)
    requires |values| >= 2
    ensures Sum(Product(Fitted(values), Tilt(alpha, beta, |values|)), |values|) == 0.0
  {
    var n, e := |values|, Fitted(values);
    TiltCombines(e, alpha, beta, n);
    SumOfCombination(e, Product(e, Centred(n)), alpha, beta, Product(e, Tilt(alpha, beta, n)), n);
    FittedSumsToZero(values);
    FittedIsOrthogonal(values);
  }

  lemma TimesTilt(e: real, alpha: real, beta: real, c: real, d: real)
    requires d == alpha + beta * c
    ensures e * d == alpha * e + beta * (e * c)
  {
  }

  /** `r` is the sum of `e` and `d`. */
  ghost predicate Adds(r: int -> real, e: int -> real, d: int -> real, n: nat) {
    forall i | 0 <= i < n :: r(i) == e(i) + d(i)
  }

  lemma {:induction false} Pythagoras(e: int -> real, d: int -> real, r: int -> real, n: nat)
    requires Adds(r, e, d, n)
    ensures Sum(Product(r, r), n) == Sum(Product(e, e), n) + 2.0 * Sum(Product(e, d), n) + Sum(Product(d, d), n)
  {
    if n > 0 {
      Pythagoras(e, d, r, n - 1);
      SquareOfSum(e(n - 1), d(n - 1), r(n - 1));
    }
  }

  lemma SquareOfSum(e: real, d: real, r: real)
    requires r == e + d
    ensures r * r == e * e + 2.0 * (e * d) + d * d
  {
  }

  ghost predicate Vanishes(d: int -> real, n: nat) {
    forall i | 0 <= i < n :: d(i) == 0.0
  }

  lemma SquareAt(d: int -> real, i: int)
    ensures if d(i) == 0.0 then Product(d, d)(i) == 0.0 else Product(d, d)(i) > 0.0
  {
    SignOfSquare(d(i), Product(d, d)(i));
  }

  lemma SignOfSquare(x: real, square: real)
    requires square == x * x
    ensures if x == 0.0 then square == 0.0 else square > 0.0
  {
    if x > 0.0 {
      PositiveProduct(x, x, square);
    } else if x < 0.0 {
      PositiveProduct(0.0 - x, 0.0 - x, square);
    }
  }

  lemma {:induction false} SumOfSquaresIsPositive(d: int -> real, n: nat)
    ensures if Vanishes(d, n) then Sum(Product(d, d), n) == 0.0 else Sum(Product(d, d), n) > 0.0
  {
    if n > 0 {
      SumOfSquaresIsPositive(d, n - 1);
      SumStep(Product(d, d), n);
      SquareAt(d, n - 1);
      assert Vanishes(d, n) <==> Vanishes(d, n - 1) && d(n - 1) == 0.0;
    }
  }

  /** The fitted line is the one optimum: any other line has a larger squared error. */
  lemma LeastSquares(values: seq<int>, a: real, b: real)
    requires |values| >= 2
    ensures SquaredError(values, Intercept(values), Slope(values)) <= SquaredError(values, a, b)
    ensures SquaredError(values, Intercept(values), Slope(values)) == SquaredError(values, a, b)
            <==> a == Intercept(values) && b == Slope(values)
  {
    var alpha, beta := Gap(values, a, b), Slope(values) - b;
    var d := Tilt(alpha, beta, |values|);
    ResidualTilts(values, a, b);
    Pythagoras(Fitted(values), d, Residual(values, a, b), |values|);
    FittedIsOrthogonalToTilt(values, alpha, beta);
    SumOfSquaresIsPositive(d, |values|);
    TiltVanishes(alpha, beta, |values|);
  }

  lemma TiltVanishes(alpha: real, beta: real, n: nat)
    requires n >= 2
    ensures Vanishes(Tilt(alpha, beta, n), n) <==> alpha == 0.0 && beta == 0.0
  {
    var d, c := Tilt(alpha, beta, n), Centred(n);
    assert d(0) == alpha + beta * c(0) && d(1) == alpha + beta * c(1);
    TwoPoints(alpha, beta, c(0), c(1));
  }

  lemma TwoPoints(alpha: real, beta: real, c0: real, c1: real)
    requires c1 == c0 + 1.0
    ensures alpha + beta * c0 == 0.0 && alpha + beta * c1 == 0.0 ==> alpha == 0.0 && beta == 0.0
  {
    assert beta * c1 == beta * c0 + beta;
  }

  // ---------------------------------------------------------------- growth from cycle to cycle

  function Increment(f: int -> real): int -> real {
    i => f(i + 1) - f(i)
  }

  /** How much the step from cycle k to cycle k+1 counts in the numerator of the slope. */
  function Weight(n: nat): int -> real {
    k => (k + 1) as real * (n - 1 - k) as real / 2.0
  }

  ghost predicate Telescopes(p: int -> real, q: int -> real, r: int -> real, k: nat) {
    p(0) == -r(0) && forall i | 1 <= i < k :: p(i) == q(i - 1) + r(i - 1) - r(i)
  }

  lemma {:induction false} Telescope(p: int -> real, q: int -> real, r: int -> real, k: nat)
    requires k >= 1 && Telescopes(p, q, r, k)
    ensures Sum(p, k) == Sum(q, k - 1) - r(k - 1)
  {
    if k == 1 {
      assert Sum(p, 1) == Sum(p, 0) + p(0);
    } else {
      Telescope(p, q, r, k - 1);
    }
  }

  /** The centred indices are the differences of the weights. */
  ghost predicate AreDifferences(c: int -> real, w: int -> real, n: nat) {
    c(0) == -w(0) && forall i | 1 <= i < n :: c(i) == w(i - 1) - w(i)
  }

  lemma CentredAreDifferences(n: nat)
    requires n >= 1
    ensures AreDifferences(Centred(n), Weight(n), n) && Weight(n)(n - 1) == 0.0
  {
    forall i | 1 <= i < n
      ensures Centred(n)(i) == Weight(n)(i - 1) - Weight(n)(i)
    {
      CentredIsDifference(n, i);
    }
  }

  lemma CentredIsDifference(n: nat, i: nat)
    requires 1 <= i < n
    ensures Centred(n)(i) == Weight(n)(i - 1) - Weight(n)(i)
  {
    WeightAlgebra(n as real, i as real);
  }

  lemma WeightAlgebra(n: real, k: real)
    ensures k - (n - 1.0) / 2.0 == k * (n - k) / 2.0 - (k + 1.0) * (n - 1.0 - k) / 2.0
  {
  }

  lemma PartsStep(c: real, w: real, v: real, f: real, g: real, step: real)
    requires c == v - w && step == f - g
    ensures c * f == v * step + v * g - w * f
  {
  }

  lemma PartsAt(c: int -> real, w: int -> real, f: int -> real, step: int -> real, i: int)
    requires c(i) == w(i - 1) - w(i) && step(i - 1) == f(i) - f(i - 1)
    ensures Product(c, f)(i) == Product(w, step)(i - 1) + Product(w, f)(i - 1) - Product(w, f)(i)
  {
    PartsStep(c(i), w(i), w(i - 1), f(i), f(i - 1), step(i - 1));
  }

  lemma PartsTelescope(c: int -> real, w: int -> real, f: int -> real, step: int -> real, n: nat)
    requires AreDifferences(c, w, n) && forall i :: step(i) == f(i + 1) - f(i)
    ensures Telescopes(Product(c, f), Product(w, step), Product(w, f), n)
  {
    assert c(0) * f(0) == -(w(0) * f(0));
    forall i | 1 <= i < n
      ensures Product(c, f)(i) == Product(w, step)(i - 1) + Product(w, f)(i - 1) - Product(w, f)(i)
    {
      PartsAt(c, w, f, step, i);
    }
  }

  /** Summation by parts. */
  lemma Parts(c: int -> real, w: int -> real, f: int -> real, step: int -> real, n: nat)
    requires n >= 1 && AreDifferences(c, w, n) && w(n - 1) == 0.0
    requires forall i :: step(i) == f(i + 1) - f(i)
    ensures Sum(Product(c, f), n) == Sum(Product(w, step), n - 1)
  {
    PartsTelescope(c, w, f, step, n);
    Telescope(Product(c, f), Product(w, step), Product(w, f), n);
    ZeroProduct(w, f, n - 1);
  }

  /** Weighting values by centred indices is weighting their steps. */
  lemma SummationByParts(n: nat, f: int -> real)
    requires n >= 1
    ensures Sum(Product(Centred(n), f), n) == Sum(Product(Weight(n), Increment(f)), n - 1)
  {
    CentredAreDifferences(n);
    Parts(Centred(n), Weight(n), f, Increment(f), n);
  }

  lemma ZeroProduct(w: int -> real, f: int -> real, i: int)
    requires w(i) == 0.0
    ensures Product(w, f)(i) == 0.0
  {
  }

  lemma {:induction false} ProductsAgree(w: int -> real, f: int -> real, g: int -> real, n: nat)
    requires forall i | 0 <= i < n :: f(i) == g(i)
    ensures Sum(Product(w, f), n) == Sum(Product(w, g), n)
  {
    if n > 0 {
      ProductsAgree(w, f, g, n - 1);
    }
  }

  lemma SameSteps(values: seq<int>, mean: real)
    ensures forall i :: Increment(Deviation(values, mean))(i) == Increment(At(values))(i)
  {
  }

  lemma SlopeNumerator(values: seq<int>)
    requires |values| >= 2
    ensures Slope(values) * Denominator(|values|) == Sum(Product(Weight(|values|), Increment(At(values))), |values| - 1)
  {
    SlopeTimesDenominator(values);
    SummationByParts(|values|, Deviation(values, Mean(values)));
    SameSteps(values, Mean(values));
    ProductsAgree(Weight(|values|), Increment(Deviation(values, Mean(values))), Increment(At(values)), |values| - 1);
  }

  lemma UnitSteps(n: nat, w: int -> real, i: int)
    ensures Product(w, Increment(Centred(n)))(i) == w(i)
  {
    assert Increment(Centred(n))(i) == 1.0;
  }

  lemma WeightsSum(n: nat)
    requires n >= 2
    ensures Sum(Weight(n), n - 1) == Denominator(n)
  {
    forall i | 0 <= i < n - 1
      ensures Product(Weight(n), Increment(Centred(n)))(i) == Weight(n)(i)
    {
      UnitSteps(n, Weight(n), i);
    }
    SumsAgree(Product(Weight(n), Increment(Centred(n))), Weight(n), n - 1);
    SummationByParts(n, Centred(n));
  }

  ghost predicate AllPositive(w: int -> real, n: nat) {
    forall k | 0 <= k < n :: w(k) > 0.0
  }

  ghost predicate AllWithin(step: int -> real, lo: real, hi: real, n: nat) {
    forall k | 0 <= k < n :: lo <= step(k) <= hi
  }

  lemma WeightsArePositive(n: nat)
    requires n >= 1
    ensures AllPositive(Weight(n), n - 1)
  {
    forall k | 0 <= k < n - 1
      ensures Weight(n)(k) > 0.0
    {
      PositiveProduct((k + 1) as real, (n - 1 - k) as real, (k + 1) as real * (n - 1 - k) as real);
    }
  }

  /** `mean` is the mean of the first `n` steps with positive weights `w`. */
  ghost predicate IsWeightedMean(w: int -> real, step: int -> real, mean: real, n: nat) {
    AllPositive(w, n) && Sum(w, n) > 0.0 && mean * Sum(w, n) == Sum(Product(w, step), n)
  }

  /** The slope is a weighted mean of the steps from cycle to cycle: the step after cycle k
      has weight (k+1)(n-1-k)/2 out of a total equal to the denominator. */
  lemma SlopeIsWeightedMean(values: seq<int>)
    requires |values| >= 2
    ensures IsWeightedMean(Weight(|values|), Increment(At(values)), Slope(values), |values| - 1)
    ensures Sum(Weight(|values|), |values| - 1) == Denominator(|values|)
  {
    SlopeNumerator(values);
    WeightsSum(|values|);
    DenominatorIsPositive(|values|);
    WeightsArePositive(|values|);
  }

  lemma PositiveProduct(x: real, y: real, product: real)
    requires x > 0.0 && y > 0.0 && product == x * y
    ensures product > 0.0
  {
  }

  /** Every step from one value to the next is between `lo` and `hi`. */
  ghost predicate StepsWithin(values: seq<int>, lo: real, hi: real) {
    forall k | 0 <= k < |values| - 1 :: lo <= (values[k + 1] - values[k]) as real <= hi
  }

  lemma StepsOf(values: seq<int>, lo: real, hi: real)
    requires values != [] && StepsWithin(values, lo, hi)
    ensures AllWithin(Increment(At(values)), lo, hi, |values| - 1)
  {
    forall k | 0 <= k < |values| - 1
      ensures lo <= Increment(At(values))(k) <= hi
    {
      IncrementAt(values, k);
    }
  }

  lemma IncrementAt(values: seq<int>, k: nat)
    requires k < |values| - 1
    ensures Increment(At(values))(k) == (values[k + 1] - values[k]) as real
  {
    AtIs(values, k);
    AtIs(values, k + 1);
    IncrementIs(At(values), k, values[k + 1] as real, values[k] as real);
    Difference(values[k + 1], values[k]);
  }

  lemma AtIs(values: seq<int>, k: nat)
    requires k < |values|
    ensures At(values)(k) == values[k] as real
  {
  }

  lemma IncrementIs(f: int -> real, k: int, next: real, here: real)
    requires f(k + 1) == next && f(k) == here
    ensures Increment(f)(k) == next - here
  {
  }

  lemma Difference(a: int, b: int)
    ensures a as real - b as real == (a - b) as real
  {
  }

  /** So it lies between the smallest and the largest step. */
  lemma SlopeBetweenSteps(values: seq<int>, lo: real, hi: real)
    requires |values| >= 2 && StepsWithin(values, lo, hi)
    ensures lo <= Slope(values) <= hi
  {
    var n := |values|;
    StepsOf(values, lo, hi);
    SlopeIsWeightedMean(values);
    WeightedMeanBounds(Weight(n), Increment(At(values)), Slope(values), lo, hi, n - 1);
  }

  lemma {:induction false} ScaledSums(w: int -> real, step: int -> real, lo: real, hi: real, n: nat)
    requires AllPositive(w, n) && AllWithin(step, lo, hi, n)
    ensures lo * Sum(w, n) <= Sum(Product(w, step), n) <= hi * Sum(w, n)
  {
    if n > 0 {
      ScaledSums(w, step, lo, hi, n - 1);
      SumStep(w, n);
      SumStep(Product(w, step), n);
      ScaledStep(w(n - 1), step(n - 1), lo, hi, Sum(w, n - 1), Sum(Product(w, step), n - 1), Product(w, step)(n - 1));
    }
  }

  lemma ScaledStep(w: real, x: real, lo: real, hi: real, weights: real, sum: real, product: real)
    requires w > 0.0 && lo <= x <= hi && lo * weights <= sum <= hi * weights && product == w * x
    ensures lo * (weights + w) <= sum + product <= hi * (weights + w)
  {
    ScaledTerm(w, x, lo, hi);
    Distribute(lo, weights, w, weights + w);
    Distribute(hi, weights, w, weights + w);
  }

  lemma Distribute(x: real, a: real, b: real, c: real)
    requires c == a + b
    ensures x * c == x * a + x * b
  {
  }

  lemma WeightedMeanBounds(w: int -> real, step: int -> real, mean: real, lo: real, hi: real, n: nat)
    requires IsWeightedMean(w, step, mean, n) && AllWithin(step, lo, hi, n)
    ensures lo <= mean <= hi
  {
    ScaledSums(w, step, lo, hi, n);
    CancelFactor(Sum(w, n), mean, lo, hi);
  }

  lemma ScaledTerm(w: real, x: real, lo: real, hi: real)
    requires w > 0.0 && lo <= x <= hi
    ensures lo * w <= w * x <= hi * w
  {
  }

  lemma CancelFactor(d: real, x: real, lo: real, hi: real)
    requires d > 0.0 && lo * d <= x * d <= hi * d
    ensures lo <= x <= hi
  {
  }

  /** A leak of at least `leak` in every cycle is projected in full over the campaign. */
  lemma LeakIsProjected(metric: Metric, baseline: int, cycles: seq<Sample>, leak: real)
    requires |cycles| >= 2
    requires forall k | 0 <= k < |cycles| - 1 :: leak <= (cycles[k + 1].Get(metric) - cycles[k].Get(metric)) as real
    ensures Analyze(metric, baseline, cycles).projectedGrowth >= leak * |cycles| as real
  {
    var values := ValuesOf(metric, cycles);
    StepsAtLeast(metric, cycles, leak);
    SlopeBetweenSteps(values, leak, LargestStep(values));
    ProjectionAtLeast(metric, baseline, cycles, leak);
  }

  lemma ProjectionAtLeast(metric: Metric, baseline: int, cycles: seq<Sample>, leak: real)
    requires leak <= Slope(ValuesOf(metric, cycles))
    ensures Analyze(metric, baseline, cycles).projectedGrowth >= leak * |cycles| as real
  {
    var slope, n := Slope(ValuesOf(metric, cycles)), |cycles| as real;
    ScaleInequality(leak, slope, n, leak * n, slope * n);
    Projection(metric, baseline, cycles);
  }

  lemma StepsAtLeast(metric: Metric, cycles: seq<Sample>, leak: real)
    requires forall k | 0 <= k < |cycles| - 1 :: leak <= (cycles[k + 1].Get(metric) - cycles[k].Get(metric)) as real
    ensures StepsWithin(ValuesOf(metric, cycles), leak, LargestStep(ValuesOf(metric, cycles)))
  {
    StepsMatch(metric, cycles);
  }

  lemma Projection(metric: Metric, baseline: int, cycles: seq<Sample>)
    ensures var projected := Slope(ValuesOf(metric, cycles)) * |cycles| as real;
            Analyze(metric, baseline, cycles).projectedGrowth == if projected > 0.0 then projected else 0.0
  {
  }

  lemma StepsMatch(metric: Metric, cycles: seq<Sample>)
    ensures var values := ValuesOf(metric, cycles);
            forall k | 0 <= k < |cycles| - 1 :: values[k + 1] - values[k] == cycles[k + 1].Get(metric) - cycles[k].Get(metric)
  {
  }

  lemma ScaleInequality(x: real, y: real, n: real, p: real, q: real)
    requires x <= y && n >= 0.0 && p == x * n && q == y * n
    ensures p <= q
  {
  }

  function LargestStep(values: seq<int>): (hi: real)
    ensures forall k | 0 <= k < |values| - 1 :: (values[k + 1] - values[k]) as real <= hi
  {
    if |values| < 2 then 0.0
    else
      var rest := LargestStep(values[1..]);
      assert forall k | 1 <= k < |values| - 1 :: values[k + 1] == values[1..][k] && values[k] == values[1..][k - 1];
      if (values[1] - values[0]) as real > rest then (values[1] - values[0]) as real else rest
  }

  function SmallestStep(values: seq<int>): (lo: real)
    ensures forall k | 0 <= k < |values| - 1 :: lo <= (values[k + 1] - values[k]) as real
  {
    if |values| < 2 then 0.0
    else
      var rest := SmallestStep(values[1..]);
      assert forall k | 1 <= k < |values| - 1 :: values[k + 1] == values[1..][k] && values[k] == values[1..][k - 1];
      if (values[1] - values[0]) as real < rest then (values[1] - values[0]) as real else rest
  }

  lemma StepsAtMost(metric: Metric, cycles: seq<Sample>, growth: real)
    requires forall k | 0 <= k < |cycles| - 1 :: (cycles[k + 1].Get(metric) - cycles[k].Get(metric)) as real <= growth
    ensures StepsWithin(ValuesOf(metric, cycles), SmallestStep(ValuesOf(metric, cycles)), growth)
  {
    StepsMatch(metric, cycles);
  }

  lemma ProjectionAtMost(metric: Metric, baseline: int, cycles: seq<Sample>, growth: real)
    requires Slope(ValuesOf(metric, cycles)) <= growth && growth >= 0.0
    ensures Analyze(metric, baseline, cycles).projectedGrowth <= growth * |cycles| as real
  {
    var slope, n := Slope(ValuesOf(metric, cycles)), |cycles| as real;
    ScaleInequality(slope, growth, n, slope * n, growth * n);
    ScaleInequality(0.0, growth, n, 0.0, growth * n);
    Projection(metric, baseline, cycles);
  }

  /** And a metric that grows by at most `growth` in any cycle is never projected to grow by
      more; in particular a metric that never grows is projected not to. */
  lemma ProjectionIsBounded(metric: Metric, baseline: int, cycles: seq<Sample>, growth: real)
    requires growth >= 0.0
    requires forall k | 0 <= k < |cycles| - 1 :: (cycles[k + 1].Get(metric) - cycles[k].Get(metric)) as real <= growth
    ensures Analyze(metric, baseline, cycles).projectedGrowth <= growth * |cycles| as real
  {
    var values := ValuesOf(metric, cycles);
    if |values| >= 2 {
      StepsAtMost(metric, cycles, growth);
      SlopeBetweenSteps(values, SmallestStep(values), growth);
    }
    ProjectionAtMost(metric, baseline, cycles, growth);
  }
}
