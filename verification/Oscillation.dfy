/** The harmonic fit of the memory diagnostics and the search for the joint period. */
module Oscillation {
  import opened Options
  import opened Statistics
  import opened LinearSystem
  import opened LeastSquares

  /** Nothing is used of sine, cosine and pi but that they are fixed. */
  datatype Trig = Trig(sin: real -> real, cos: real -> real, pi: real)

  datatype Fit = Fit(coefficients: seq<real>, score: real, rSquared: real, trendBytesPerHour: real)

  datatype FitResult = Fitted(fit: Fit) | InvalidInput | SingularMatrix(column: nat)

  function Times(samples: seq<Sample>): seq<real> {
    seq(|samples|, i requires 0 <= i < |samples| => samples[i].elapsedSeconds)
  }

  function Center(samples: seq<Sample>): real {
    match Median(Times(samples)) case Some(m) => m case None => 0.0
  }

  function Basis(trig: Trig, omega: real, elapsed: real): (b: seq<real>)
    ensures |b| == 4 && b[0] == 1.0
  {
    [1.0, elapsed, trig.sin(omega * elapsed), trig.cos(omega * elapsed)]
  }

  function Frequency(trig: Trig, period: real): real
    requires period > 0.0
  {
    2.0 * trig.pi / period
  }

  function PointAt(trig: Trig, center: real, omega: real, sample: Sample): (p: Point)
    ensures |p.basis| == 4 && p.basis[0] == 1.0 && p.y == sample.rssBytes
  {
    Point(Basis(trig, omega, sample.elapsedSeconds - center), sample.rssBytes)
  }

  function PointsAt(trig: Trig, center: real, omega: real, samples: seq<Sample>): (points: seq<Point>)
    ensures |points| == |samples| && Width(points, 4)
    ensures forall i :: 0 <= i < |points| ==> points[i] == PointAt(trig, center, omega, samples[i])
  {
    seq(|samples|, i requires 0 <= i < |samples| => PointAt(trig, center, omega, samples[i]))
  }

  /** The observations the fit is made from. */
  function FitPoints(trig: Trig, samples: seq<Sample>, period: real): (points: seq<Point>)
    requires period > 0.0
    ensures |points| == |samples| && Width(points, 4) && HasConstant(points)
  {
    PointsAt(trig, Center(samples), Frequency(trig, period), samples)
  }

  function TotalBytes(samples: seq<Sample>): real {
    if samples == [] then 0.0 else TotalBytes(samples[..|samples| - 1]) + samples[|samples| - 1].rssBytes
  }

  function Mean(samples: seq<Sample>): real
    requires samples != []
  {
    TotalBytes(samples) / |samples| as real
  }

  function Score(residual: real, total: real): real {
    if total == 0.0 then 0.0 else residual / total
  }

  /** The fit is determined by its observations: the one solution of the normal equations. */
  ghost predicate FitsPoints(points: seq<Point>, mean: real, fit: Fit)
    requires Width(points, 4)
  {
    && |fit.coefficients| == 4
    && UniqueSolution(NormalMatrix(points, 4), NormalValues(points, 4), fit.coefficients)
    && fit.score == Score(Rss(points, fit.coefficients), Deviations(points, mean))
    && fit.rSquared == 1.0 - fit.score
    && fit.trendBytesPerHour == fit.coefficients[1] * 3600.0
  }

  ghost predicate IsFit(trig: Trig, samples: seq<Sample>, period: real, fit: Fit)
    requires period > 0.0 && samples != []
  {
    FitsPoints(FitPoints(trig, samples, period), Mean(samples), fit)
  }

  lemma ScoreBounds(residual: real, total: real)
    requires 0.0 <= residual <= total
    ensures 0.0 <= Score(residual, total) <= 1.0
  {
    if total > 0.0 { RatioBounds(residual / total, residual, total); }
  }

  lemma ScoreZero(total: real)
    ensures Score(0.0, total) == 0.0
  {}

  lemma {:induction false} RatioBounds(ratio: real, residual: real, total: real)
    requires total > 0.0 && 0.0 <= residual <= total && ratio * total == residual
    ensures 0.0 <= ratio <= 1.0
  {
    if ratio > 1.0 { Scale(total, 1.0, ratio); }
  }

  ghost predicate HasConstant(points: seq<Point>)
    requires Width(points, 4)
  {
    forall i :: 0 <= i < |points| ==> points[i].basis[0] == 1.0
  }

  /**
   * Whatever the basis functions are, the fitted coefficients have a smaller residual sum than any other
   * four coefficients, and the score and rSquared lie between 0 and 1.
   */
  lemma {:induction false} FitOptimal(points: seq<Point>, mean: real, fit: Fit)
    requires Width(points, 4) && HasConstant(points) && FitsPoints(points, mean, fit)
    ensures forall d: seq<real> :: |d| == 4 && d != fit.coefficients ==> Rss(points, fit.coefficients) < Rss(points, d)
    ensures 0.0 <= fit.score <= 1.0 && 0.0 <= fit.rSquared <= 1.0
  {
    var c := fit.coefficients;
    forall d: seq<real> | |d| == 4 && d != c ensures Rss(points, c) < Rss(points, d) { UniqueOptimum(points, c, d); }
    assert Solves(NormalMatrix(points, 4), NormalValues(points, 4), c);
    FitBeatsConstant(points, c, mean);
    ScoreBounds(Rss(points, c), Deviations(points, mean));
  }

  lemma {:induction false} FitUnique(points: seq<Point>, mean: real, f: Fit, g: Fit)
    requires Width(points, 4) && FitsPoints(points, mean, f) && FitsPoints(points, mean, g)
    ensures f == g
  {
    assert Solves(NormalMatrix(points, 4), NormalValues(points, 4), g.coefficients);
  }

  lemma {:induction false} IsFitUnique(trig: Trig, samples: seq<Sample>, period: real, f: Fit, g: Fit)
    requires period > 0.0 && samples != [] && IsFit(trig, samples, period, f) && IsFit(trig, samples, period, g)
    ensures f == g
  {
    FitUnique(FitPoints(trig, samples, period), Mean(samples), f, g);
  }

  /** Readings that are exactly a trend plus a harmonic are recovered exactly, with score 0. */
  lemma {:induction false} ExactRecovery(points: seq<Point>, mean: real, fit: Fit, truth: seq<real>)
    requires Width(points, 4) && FitsPoints(points, mean, fit) && |truth| == 4
    requires forall i :: 0 <= i < |points| ==> points[i].y == Dot(points[i].basis, truth)
    ensures fit.coefficients == truth && fit.score == 0.0
  {
    hide Rss, Dot, Deviations, Score, UniqueSolution;
    ScoreZero(Deviations(points, mean));
    ExactRss(points, truth);
    ZeroIsLeast(points, fit.coefficients, truth);
  }

  lemma {:induction false} ZeroIsLeast(points: seq<Point>, c: seq<real>, truth: seq<real>)
    requires Width(points, |c|) && |truth| == |c| && Rss(points, truth) == 0.0
    requires UniqueSolution(NormalMatrix(points, |c|), NormalValues(points, |c|), c)
    ensures c == truth
  {
    if c != truth { UniqueOptimum(points, c, truth); }
  }

  lemma {:induction false} ExactRss(points: seq<Point>, truth: seq<real>)
    requires Width(points, |truth|)
    requires forall i :: 0 <= i < |points| ==> points[i].y == Dot(points[i].basis, truth)
    ensures Rss(points, truth) == 0.0
  {
    if points != [] { ExactRss(points[..|points| - 1], truth); }
  }

  // ---------------------------------------------------------------- fitHarmonic

  /** The innermost loop: one row of the normal matrix takes in one sample. */
  method AddRow(matrix: array<Row>, row: nat, basis: seq<real>)
    requires row < matrix.Length && |matrix[row]| == |basis| == matrix.Length
    modifies matrix
    ensures matrix[..] == old(matrix[..])[row := Combined(old(matrix[row]), -basis[row], basis)]
  {
    ghost var was := matrix[row];
    for column := 0 to |basis|
      invariant |matrix[row]| == |basis|
      invariant forall c :: 0 <= c < column ==> matrix[row][c] == Minus(was[c], -basis[row], basis[c])
      invariant forall c :: column <= c < |basis| ==> matrix[row][c] == was[c]
      invariant forall r :: 0 <= r < matrix.Length && r != row ==> matrix[r] == old(matrix[r])
    {
      MinusNegative(was[column], basis[row], basis[column]);
      matrix[row] := matrix[row][column := MulAdd(matrix[row][column], basis[row], basis[column])];
    }
    assert matrix[row] == Combined(was, -basis[row], basis);
  }

  /** Every row of the normal matrix with one sample taken in. */
  function AddedRows(rows: seq<Row>, basis: seq<real>): (r: seq<Row>)
    requires |rows| == |basis| && forall j :: 0 <= j < |rows| ==> |rows[j]| == |basis|
    ensures |r| == |rows| && forall j :: 0 <= j < |r| ==> r[j] == Combined(rows[j], -basis[j], basis)
  {
    seq(|rows|, j requires 0 <= j < |rows| => Combined(rows[j], -basis[j], basis))
  }

  function AddedValues(values: seq<real>, basis: seq<real>, y: real): (r: seq<real>)
    requires |values| == |basis|
    ensures |r| == |values| && forall j :: 0 <= j < |r| ==> r[j] == MulAdd(values[j], basis[j], y)
  {
    seq(|values|, j requires 0 <= j < |values| => MulAdd(values[j], basis[j], y))
  }

  method AddSample(matrix: array<Row>, values: array<real>, basis: seq<real>, y: real)
    requires matrix.Length == values.Length == |basis|
    requires forall j :: 0 <= j < matrix.Length ==> |matrix[j]| == |basis|
    modifies matrix, values
    ensures matrix[..] == AddedRows(old(matrix[..]), basis)
    ensures values[..] == AddedValues(old(values[..]), basis, y)
  {
    for row := 0 to |basis|
      invariant forall j :: 0 <= j < row ==> matrix[j] == Combined(old(matrix[j]), -basis[j], basis)
      invariant forall j :: row <= j < matrix.Length ==> matrix[j] == old(matrix[j])
      invariant forall j :: 0 <= j < row ==> values[j] == MulAdd(old(values[j]), basis[j], y)
      invariant forall j :: row <= j < values.Length ==> values[j] == old(values[j])
    {
      values[row] := MulAdd(values[row], basis[row], y);
      AddRow(matrix, row, basis);
      assert forall r :: 0 <= r < matrix.Length ==> matrix[r] == matrix[..][r];
    }
  }

  lemma NormalStep(points: seq<Point>, i: nat)
    requires Width(points, 4) && i < |points|
    ensures NormalMatrix(points[..i + 1], 4) == AddedRows(NormalMatrix(points[..i], 4), points[i].basis)
    ensures NormalValues(points[..i + 1], 4) == AddedValues(NormalValues(points[..i], 4), points[i].basis, points[i].y)
  {
    assert points[..i + 1][..i] == points[..i];
    forall j | 0 <= j < 4
      ensures NormalMatrix(points[..i + 1], 4)[j] == AddedRows(NormalMatrix(points[..i], 4), points[i].basis)[j] {}
    forall j | 0 <= j < 4
      ensures NormalValues(points[..i + 1], 4)[j]
           == AddedValues(NormalValues(points[..i], 4), points[i].basis, points[i].y)[j] {}
  }

  lemma NormalStart()
    ensures NormalMatrix([], 4) == seq(4, _ => Zeros(4)) && NormalValues([], 4) == seq(4, _ => 0.0)
  {}

  method NormalEquations(points: seq<Point>) returns (matrix: seq<Row>, values: seq<real>)
    requires Width(points, 4)
    ensures matrix == NormalMatrix(points, 4) && values == NormalValues(points, 4)
  {
    hide NormalRow, NormalValue, NormalMatrix, NormalValues, AddedRows, AddedValues, Combined, MulAdd;
    var rows, right := new Row[4](_ => Zeros(4)), new real[4](_ => 0.0);
    NormalStart();
    assert points[..0] == [];
    assert rows[..] == seq(4, _ => Zeros(4)) && right[..] == seq(4, _ => 0.0);
    for i := 0 to |points|
      invariant rows[..] == NormalMatrix(points[..i], 4) && right[..] == NormalValues(points[..i], 4)
    {
      NormalStep(points, i);
      AddSample(rows, right, points[i].basis, points[i].y);
    }
    assert points[..|points|] == points;
    return rows[..], right[..];
  }

  lemma DotFour(b: seq<real>, c: seq<real>)
    requires |b| == |c| == 4 && b[0] == 1.0
    ensures Dot(b, c) == Predicted(c, b)
  {
    var b3, c3, b2, c2, b1, c1 := b[..3], c[..3], b[..2], c[..2], b[..1], c[..1];
    assert b3[..2] == b2 && c3[..2] == c2 && b2[..1] == b1 && c2[..1] == c1 && b1[..0] == [] && c1[..0] == [];
    assert Dot(b1, c1) == c[0];
    assert Dot(b2, c2) == c[0] + c[1] * b[1];
    assert Dot(b3, c3) == c[0] + c[1] * b[1] + c[2] * b[2];
  }

  method MeanBytes(samples: seq<Sample>) returns (mean: real)
    requires samples != []
    ensures mean == Mean(samples)
  {
    var sum := 0.0;
    for i := 0 to |samples|
      invariant sum == TotalBytes(samples[..i])
    {
      assert samples[..i + 1][..i] == samples[..i];
      sum := sum + samples[i].rssBytes;
    }
    assert samples[..|samples|] == samples;
    return sum / |samples| as real;
  }

  function Predicted(c: seq<real>, basis: seq<real>): real
    requires |c| == |basis| == 4
  {
    c[0] + c[1] * basis[1] + c[2] * basis[2] + c[3] * basis[3]
  }

  method Sums(points: seq<Point>, c: seq<real>, mean: real) returns (residual: real, total: real)
    requires |c| == 4 && Width(points, 4) && HasConstant(points)
    ensures residual == Rss(points, c) && total == Deviations(points, mean)
  {
    residual, total := 0.0, 0.0;
    for i := 0 to |points|
      invariant residual == Rss(points[..i], c)
      invariant total == Deviations(points[..i], mean)
    {
      DotFour(points[i].basis, c);
      residual := residual + Squared(points[i].y - Predicted(c, points[i].basis));
      total := total + Squared(points[i].y - mean);
      assert points[..i + 1][..i] == points[..i];
    }
    assert points[..|points|] == points;
  }

  /** The elimination of the normal equations gets to the end. */
  ghost predicate Solvable(points: seq<Point>)
    requires Width(points, 4)
  {
    forall column :: !Stops(NormalMatrix(points, 4), NormalValues(points, 4), column)
  }

  /** What `fitHarmonic` does not throw for. */
  ghost predicate Fittable(trig: Trig, samples: seq<Sample>, period: real) {
    |samples| >= 4 && period > 0.0 && Solvable(FitPoints(trig, samples, period))
  }

  method FitHarmonic(trig: Trig, samples: seq<Sample>, period: real) returns (result: FitResult)
    ensures result.InvalidInput? <==> |samples| < 4 || period <= 0.0
    ensures result.Fitted? <==> Fittable(trig, samples, period)
    ensures result.Fitted? ==> IsFit(trig, samples, period, result.fit)
    ensures result.SingularMatrix? ==> var points := FitPoints(trig, samples, period);
      Stops(NormalMatrix(points, 4), NormalValues(points, 4), result.column)
  {
    hide Stops, NormalMatrix, NormalValues, UniqueSolution, FitsPoints;
    if |samples| < 4 || period <= 0.0 { return InvalidInput; }
    var points := FitPoints(trig, samples, period);
    var matrix, values := NormalEquations(points);
    var solved := SolveLinearSystem(matrix, values);
    if solved.Singular? { return SingularMatrix(solved.column); }
    var mean := MeanBytes(samples);
    var fit := Assess(points, mean, solved.x);
    return Fitted(fit);
  }

  method Assess(points: seq<Point>, mean: real, c: seq<real>) returns (fit: Fit)
    requires |c| == 4 && Width(points, 4) && HasConstant(points)
    requires UniqueSolution(NormalMatrix(points, 4), NormalValues(points, 4), c)
    ensures FitsPoints(points, mean, fit)
  {
    hide NormalMatrix, NormalValues, UniqueSolution, Rss, Deviations;
    var residual, total := Sums(points, c, mean);
    var score := if total == 0.0 then 0.0 else residual / total;
    return Fit(c, score, 1.0 - score, c[1] * 3600.0);
  }

  // ---------------------------------------------------------------- findJointHarmonicPeriod

  datatype JointResult = Best(period: real, fits: seq<Fit>, score: real) | Failed

  /** One fit for each run, all at the same period. */
  ghost predicate AllFit(trig: Trig, runs: seq<seq<Sample>>, period: real, fits: seq<Fit>) {
    if runs == [] then fits == []
    else
      var last := |runs| - 1;
      && period > 0.0 && |fits| == |runs| && AllFit(trig, runs[..last], period, fits[..last])
      && runs[last] != [] && IsFit(trig, runs[last], period, fits[last])
  }

  function TotalScore(fits: seq<Fit>): real {
    if fits == [] then 0.0 else TotalScore(fits[..|fits| - 1]) + fits[|fits| - 1].score
  }

  /** The candidate `period` can be fitted to every run, and its scores add up to `score`. */
  ghost predicate Scored(trig: Trig, runs: seq<seq<Sample>>, period: real, score: real) {
    exists fits :: AllFit(trig, runs, period, fits) && TotalScore(fits) == score
  }

  lemma {:induction false} AllFitUnique(trig: Trig, runs: seq<seq<Sample>>, period: real, f: seq<Fit>, g: seq<Fit>)
    requires AllFit(trig, runs, period, f) && AllFit(trig, runs, period, g)
    ensures f == g
  {
    hide IsFit;
    if runs != [] {
      var last := |runs| - 1;
      AllFitUnique(trig, runs[..last], period, f[..last], g[..last]);
      IsFitUnique(trig, runs[last], period, f[last], g[last]);
      assert f == f[..last] + [f[last]] && g == g[..last] + [g[last]];
    }
  }

  /** A candidate has at most one score. */
  lemma {:induction false} ScoredOnce(trig: Trig, runs: seq<seq<Sample>>, period: real, s: real, t: real)
    requires Scored(trig, runs, period, s) && Scored(trig, runs, period, t)
    ensures s == t
  {
    var f :| AllFit(trig, runs, period, f) && TotalScore(f) == s;
    var g :| AllFit(trig, runs, period, g) && TotalScore(g) == t;
    AllFitUnique(trig, runs, period, f, g);
  }

  ghost predicate AllFittable(trig: Trig, runs: seq<seq<Sample>>, period: real) {
    forall i :: 0 <= i < |runs| ==> Fittable(trig, runs[i], period)
  }

  method FitAll(trig: Trig, runs: seq<seq<Sample>>, period: real) returns (ok: bool, fits: seq<Fit>)
    ensures ok <==> AllFittable(trig, runs, period)
    ensures ok ==> AllFit(trig, runs, period, fits)
  {
    hide IsFit, Fittable;
    fits := [];
    for i := 0 to |runs|
      invariant |fits| == i && AllFit(trig, runs[..i], period, fits)
      invariant forall j :: 0 <= j < i ==> Fittable(trig, runs[j], period)
    {
      var result := FitHarmonic(trig, runs[i], period);
      if !result.Fitted? { return false, fits; }
      assert runs[..i + 1][..i] == runs[..i] && (fits + [result.fit])[..i] == fits;
      fits := fits + [result.fit];
    }
    assert runs[..|runs|] == runs;
    return true, fits;
  }

  method AddScores(fits: seq<Fit>) returns (score: real)
    ensures score == TotalScore(fits)
  {
    score := 0.0;
    for i := 0 to |fits|
      invariant score == TotalScore(fits[..i])
    {
      assert fits[..i + 1][..i] == fits[..i];
      score := score + fits[i].score;
    }
    assert fits[..|fits|] == fits;
  }

  function Candidate(minimum: real, k: nat): real { minimum + k as real }

  /** `best` is the first index of the least score. */
  ghost predicate FirstLeast(scores: seq<real>, best: nat) {
    && best < |scores|
    && (forall k :: 0 <= k < |scores| ==> scores[best] <= scores[k])
    && (forall k :: 0 <= k < best ==> scores[best] < scores[k])
  }

  lemma FirstLeastStep(scores: seq<real>, best: nat, score: real)
    requires scores == [] || FirstLeast(scores, best)
    ensures scores == [] || score < scores[best] ==> FirstLeast(scores + [score], |scores|)
    ensures scores != [] && score >= scores[best] ==> FirstLeast(scores + [score], best)
  {}

  /** Each candidate period can be fitted to each run. */
  ghost predicate EveryCandidate(trig: Trig, runs: seq<seq<Sample>>, minimum: real, maximum: real) {
    forall k: nat :: Candidate(minimum, k) <= maximum ==> AllFittable(trig, runs, Candidate(minimum, k))
  }

  /**
   * The result is the first of the candidate periods `minimum, minimum + 1, ...` up to `maximum` whose summed score
   * is least; the search throws exactly when there is nothing to search or a candidate cannot be fitted to a run.
   */
  method FindJointHarmonicPeriod(trig: Trig, runs: seq<seq<Sample>>, minimum: real, maximum: real)
    returns (result: JointResult, ghost best: nat, ghost scores: seq<real>)
    ensures result.Best? ==>
      && (forall k: nat :: k < |scores| <==> Candidate(minimum, k) <= maximum)
      && (forall k: nat :: k < |scores| ==> Scored(trig, runs, Candidate(minimum, k), scores[k]))
      && FirstLeast(scores, best) && result.period == Candidate(minimum, best) && result.score == scores[best]
      && AllFit(trig, runs, result.period, result.fits) && TotalScore(result.fits) == result.score
    ensures result.Failed? <==> runs == [] || minimum > maximum || !EveryCandidate(trig, runs, minimum, maximum)
  {
    hide AllFit, AllFittable;
    best, scores := 0, [];
    if runs == [] || minimum > maximum { return Failed, best, scores; }
    result := Failed;
    var k: nat := 0;
    assert Candidate(minimum, 0) <= maximum;
    while Candidate(minimum, k) <= maximum
      invariant |scores| == k && (result.Failed? <==> k == 0)
      invariant forall j: nat :: j < k ==> Candidate(minimum, j) <= maximum
      invariant forall j: nat :: j < k ==> AllFittable(trig, runs, Candidate(minimum, j))
      invariant forall j: nat :: j < k ==> Scored(trig, runs, Candidate(minimum, j), scores[j])
      invariant k > 0 ==> FirstLeast(scores, best)
      invariant k > 0 ==> result.period == Candidate(minimum, best) && result.score == scores[best]
      invariant k > 0 ==> AllFit(trig, runs, result.period, result.fits) && TotalScore(result.fits) == result.score
      decreases (maximum - minimum).Floor + 1 - k
    {
      var period := Candidate(minimum, k);
      var ok, fits := FitAll(trig, runs, period);
      if !ok { return Failed, best, scores; }
      var score := AddScores(fits);
      FirstLeastStep(scores, best, score);
      if result.Failed? || score < result.score {
        result := Best(period, fits, score);
        best := k;
      }
      scores := scores + [score];
      k := k + 1;
    }
  }
}
