/** Why the normal equations give the best fit, for any basis and any number of observations. */
module LeastSquares {
  import opened LinearSystem

  /** One observation: the basis functions at its time, and the reading. */
  datatype Point = Point(basis: seq<real>, y: real)

  ghost predicate Width(points: seq<Point>, n: nat) {
    forall i :: 0 <= i < |points| ==> |points[i].basis| == n
  }

  function Squared(x: real): (r: real)
    ensures r >= 0.0
  {
    x * x
  }

  lemma {:induction false} ZeroFactor(a: real, b: real)
    requires a * b == 0.0 && a != 0.0
    ensures b == 0.0
  {
    var inverse := 1.0 / a;
    assert inverse * (a * b) == b;
  }

  lemma SquareZero(x: real)
    requires Squared(x) == 0.0
    ensures x == 0.0
  {
    if x != 0.0 { ZeroFactor(x, x); }
  }

  function Residual(p: Point, c: seq<real>): real
    requires |p.basis| == |c|
  {
    p.y - Dot(p.basis, c)
  }

  /** The residual sum of squares of the coefficients `c`. */
  function Rss(points: seq<Point>, c: seq<real>): (r: real)
    requires Width(points, |c|)
    ensures r >= 0.0
  {
    if points == [] then 0.0
    else Rss(points[..|points| - 1], c) + Squared(Residual(points[|points| - 1], c))
  }

  function Zeros(n: nat): (z: seq<real>)
    ensures |z| == n && forall i :: 0 <= i < n ==> z[i] == 0.0
  {
    seq(n, i => 0.0)
  }

  /** Row `j` of the normal matrix: the sum of `basis[j] * basis`. */
  function NormalRow(points: seq<Point>, n: nat, j: nat): (row: seq<real>)
    requires Width(points, n) && j < n
    ensures |row| == n
  {
    if points == [] then Zeros(n)
    else
      var p := points[|points| - 1];
      Combined(NormalRow(points[..|points| - 1], n, j), -p.basis[j], p.basis)
  }

  /** Entry `j` of the right-hand side: the sum of `basis[j] * y`. */
  function NormalValue(points: seq<Point>, n: nat, j: nat): real
    requires Width(points, n) && j < n
  {
    if points == [] then 0.0
    else
      var p := points[|points| - 1];
      MulAdd(NormalValue(points[..|points| - 1], n, j), p.basis[j], p.y)
  }

  function NormalMatrix(points: seq<Point>, n: nat): (m: seq<seq<real>>)
    requires Width(points, n)
    ensures |m| == n && forall j :: 0 <= j < n ==> m[j] == NormalRow(points, n, j)
  {
    seq(n, j requires 0 <= j < n => NormalRow(points, n, j))
  }

  function NormalValues(points: seq<Point>, n: nat): (v: seq<real>)
    requires Width(points, n)
    ensures |v| == n && forall j :: 0 <= j < n ==> v[j] == NormalValue(points, n, j)
  {
    seq(n, j requires 0 <= j < n => NormalValue(points, n, j))
  }

  // ---------------------------------------------------------------- the gradient vanishes

  /** The sum of `residual * basis`. */
  function Gradient(points: seq<Point>, c: seq<real>): (g: seq<real>)
    requires Width(points, |c|)
    ensures |g| == |c|
  {
    if points == [] then Zeros(|c|)
    else
      var p := points[|points| - 1];
      Combined(Gradient(points[..|points| - 1], c), -Residual(p, c), p.basis)
  }

  function GradientSum(points: seq<Point>, c: seq<real>, j: nat): real
    requires Width(points, |c|) && j < |c|
  {
    if points == [] then 0.0
    else
      var p := points[|points| - 1];
      MulAdd(GradientSum(points[..|points| - 1], c, j), Residual(p, c), p.basis[j])
  }

  function WeightedSum(points: seq<Point>, c: seq<real>, j: nat): real
    requires Width(points, |c|) && j < |c|
  {
    if points == [] then 0.0
    else
      var p := points[|points| - 1];
      MulAdd(WeightedSum(points[..|points| - 1], c, j), p.basis[j], Dot(p.basis, c))
  }

  lemma MinusNegative(a: real, f: real, b: real)
    ensures Minus(a, -f, b) == MulAdd(a, f, b)
  {}

  lemma {:induction false} GradientAt(points: seq<Point>, c: seq<real>, j: nat)
    requires Width(points, |c|) && j < |c|
    ensures Gradient(points, c)[j] == GradientSum(points, c, j)
  {
    if points != [] {
      var init, p := points[..|points| - 1], points[|points| - 1];
      GradientAt(init, c, j);
      MinusNegative(Gradient(init, c)[j], Residual(p, c), p.basis[j]);
    }
  }

  lemma {:induction false} RowDot(points: seq<Point>, c: seq<real>, j: nat)
    requires Width(points, |c|) && j < |c|
    ensures Dot(NormalRow(points, |c|, j), c) == WeightedSum(points, c, j)
  {
    if points == [] {
      DotZeros(Zeros(|c|), c);
    } else {
      var init, p := points[..|points| - 1], points[|points| - 1];
      RowDot(init, c, j);
      DotCombined(NormalRow(init, |c|, j), -p.basis[j], p.basis, c);
      MinusNegative(Dot(NormalRow(init, |c|, j), c), p.basis[j], Dot(p.basis, c));
    }
  }

  lemma {:induction false} SumStep(g: real, v: real, m: real, y: real, t: real, b: real)
    requires g == v - m
    ensures MulAdd(g, y - t, b) == MulAdd(v, b, y) - MulAdd(m, b, t)
  {
    assert (y - t) * b == b * y - b * t;
  }

  lemma {:induction false} SumSplit(points: seq<Point>, c: seq<real>, j: nat)
    requires Width(points, |c|) && j < |c|
    ensures GradientSum(points, c, j) == NormalValue(points, |c|, j) - WeightedSum(points, c, j)
  {
    if points != [] {
      var init, p := points[..|points| - 1], points[|points| - 1];
      SumSplit(init, c, j);
      SumStep(GradientSum(init, c, j), NormalValue(init, |c|, j), WeightedSum(init, c, j),
              p.y, Dot(p.basis, c), p.basis[j]);
    }
  }

  lemma {:induction false} GradientEntry(points: seq<Point>, c: seq<real>, j: nat)
    requires Width(points, |c|) && j < |c|
    ensures Gradient(points, c)[j] == NormalValue(points, |c|, j) - Dot(NormalRow(points, |c|, j), c)
  {
    GradientAt(points, c, j);
    RowDot(points, c, j);
    SumSplit(points, c, j);
  }

  lemma {:induction false} GradientVanishes(points: seq<Point>, c: seq<real>)
    requires Width(points, |c|)
    requires Solves(NormalMatrix(points, |c|), NormalValues(points, |c|), c)
    ensures forall j :: 0 <= j < |c| ==> Gradient(points, c)[j] == 0.0
  {
    forall j | 0 <= j < |c| ensures Gradient(points, c)[j] == 0.0 {
      GradientEntry(points, c, j);
      assert Dot(NormalMatrix(points, |c|)[j], c) == NormalValues(points, |c|)[j];
    }
  }

  // ---------------------------------------------------------------- moving away costs a sum of squares

  /** The sum of `residual * (basis . e)`. */
  function Cross(points: seq<Point>, c: seq<real>, e: seq<real>): real
    requires Width(points, |c|) && |e| == |c|
  {
    if points == [] then 0.0
    else
      var p := points[|points| - 1];
      MulAdd(Cross(points[..|points| - 1], c, e), Residual(p, c), Dot(p.basis, e))
  }

  /** The sum of squares of `basis . e`. */
  function Energy(points: seq<Point>, e: seq<real>): (r: real)
    requires Width(points, |e|)
    ensures r >= 0.0
  {
    if points == [] then 0.0
    else Energy(points[..|points| - 1], e) + Squared(Dot(points[|points| - 1].basis, e))
  }

  lemma {:induction false} CrossIsDot(points: seq<Point>, c: seq<real>, e: seq<real>)
    requires Width(points, |c|) && |e| == |c|
    ensures Cross(points, c, e) == Dot(Gradient(points, c), e)
  {
    if points == [] {
      DotZeros(Zeros(|c|), e);
    } else {
      var init, p := points[..|points| - 1], points[|points| - 1];
      CrossIsDot(init, c, e);
      DotCombined(Gradient(init, c), -Residual(p, c), p.basis, e);
      MinusNegative(Dot(Gradient(init, c), e), Residual(p, c), Dot(p.basis, e));
    }
  }

  lemma {:induction false} DotSymmetric(u: seq<real>, v: seq<real>)
    requires |u| == |v|
    ensures Dot(u, v) == Dot(v, u)
  {
    if u != [] { DotSymmetric(u[..|u| - 1], v[..|v| - 1]); }
  }

  /** `d - c` */
  function Offset(d: seq<real>, c: seq<real>): (e: seq<real>)
    requires |d| == |c|
    ensures |e| == |c| && forall i :: 0 <= i < |e| ==> e[i] == d[i] - c[i]
  {
    Combined(d, 1.0, c)
  }

  lemma {:induction false} DotOffset(b: seq<real>, d: seq<real>, c: seq<real>)
    requires |b| == |d| == |c|
    ensures Dot(b, Offset(d, c)) == Dot(b, d) - Dot(b, c)
  {
    DotSymmetric(b, Offset(d, c));
    DotSymmetric(b, d);
    DotSymmetric(b, c);
    DotCombined(d, 1.0, c, b);
  }

  lemma {:induction false} SquareStep(rss: real, cross: real, energy: real, r: real, t: real)
    ensures (rss - 2.0 * cross + energy) + Squared(r - t)
         == (rss + Squared(r)) - 2.0 * MulAdd(cross, r, t) + (energy + Squared(t))
  {
    assert (r - t) * (r - t) == r * r - 2.0 * (r * t) + t * t;
  }

  lemma {:induction false} RssSplit(points: seq<Point>, c: seq<real>, d: seq<real>)
    requires Width(points, |c|) && |d| == |c|
    ensures Rss(points, d)
         == Rss(points, c) - 2.0 * Cross(points, c, Offset(d, c)) + Energy(points, Offset(d, c))
  {
    if points != [] {
      var init, p, e := points[..|points| - 1], points[|points| - 1], Offset(d, c);
      RssSplit(init, c, d);
      DotOffset(p.basis, d, c);
      SquareStep(Rss(init, c), Cross(init, c, e), Energy(init, e), Residual(p, c), Dot(p.basis, e));
    }
  }

  lemma {:induction false} NoEnergy(points: seq<Point>, n: nat, e: seq<real>, j: nat)
    requires Width(points, n) && |e| == n && j < n && Energy(points, e) == 0.0
    ensures Dot(NormalRow(points, n, j), e) == 0.0
  {
    if points == [] {
      DotZeros(Zeros(n), e);
    } else {
      var init, p := points[..|points| - 1], points[|points| - 1];
      SquareZero(Dot(p.basis, e));
      NoEnergy(init, n, e, j);
      DotCombined(NormalRow(init, n, j), -p.basis[j], p.basis, e);
    }
  }

  lemma {:induction false} CrossVanishes(points: seq<Point>, c: seq<real>, e: seq<real>)
    requires Width(points, |c|) && |e| == |c|
    requires Solves(NormalMatrix(points, |c|), NormalValues(points, |c|), c)
    ensures Cross(points, c, e) == 0.0
  {
    GradientVanishes(points, c);
    CrossIsDot(points, c, e);
    DotZeros(Gradient(points, c), e);
  }

  /** A solution of the normal equations has the least residual sum of all coefficient vectors. */
  lemma {:induction false} NormalEquationsOptimal(points: seq<Point>, c: seq<real>, d: seq<real>)
    requires Width(points, |c|) && |d| == |c|
    requires Solves(NormalMatrix(points, |c|), NormalValues(points, |c|), c)
    ensures Rss(points, c) <= Rss(points, d)
  {
    RssSplit(points, c, d);
    CrossVanishes(points, c, Offset(d, c));
  }

  lemma NoEnergySolves(points: seq<Point>, c: seq<real>, d: seq<real>)
    requires Width(points, |c|) && |d| == |c| && Energy(points, Offset(d, c)) == 0.0
    requires Solves(NormalMatrix(points, |c|), NormalValues(points, |c|), c)
    ensures Solves(NormalMatrix(points, |c|), NormalValues(points, |c|), d)
  {
    var n, e := |c|, Offset(d, c);
    forall j | 0 <= j < n ensures Dot(NormalMatrix(points, n)[j], d) == NormalValues(points, n)[j] {
      NoEnergy(points, n, e, j);
      DotOffset(NormalRow(points, n, j), d, c);
      assert Dot(NormalMatrix(points, n)[j], c) == NormalValues(points, n)[j];
    }
  }

  /** Where the solution is unique, every other vector is strictly worse. */
  lemma {:induction false} UniqueOptimum(points: seq<Point>, c: seq<real>, d: seq<real>)
    requires Width(points, |c|) && |d| == |c| && d != c
    requires UniqueSolution(NormalMatrix(points, |c|), NormalValues(points, |c|), c)
    ensures Rss(points, c) < Rss(points, d)
  {
    assert Solves(NormalMatrix(points, |c|), NormalValues(points, |c|), c);
    RssSplit(points, c, d);
    CrossVanishes(points, c, Offset(d, c));
    if Energy(points, Offset(d, c)) == 0.0 { NoEnergySolves(points, c, d); }
  }

  // ---------------------------------------------------------------- the constant fit

  lemma {:induction false} DotFirst(b: seq<real>, m: real)
    requires b != []
    ensures Dot(b, [m] + Zeros(|b| - 1)) == b[0] * m
  {
    var c := [m] + Zeros(|b| - 1);
    if |b| == 1 {
      assert b[..0] == [];
    } else {
      assert c[..|c| - 1] == [m] + Zeros(|b| - 2);
      DotFirst(b[..|b| - 1], m);
    }
  }

  /** The sum of squared deviations from a constant. */
  function Deviations(points: seq<Point>, m: real): (r: real)
    ensures r >= 0.0
  {
    if points == [] then 0.0
    else Deviations(points[..|points| - 1], m) + Squared(points[|points| - 1].y - m)
  }

  lemma {:induction false} ConstantFit(points: seq<Point>, n: nat, m: real)
    requires n > 0 && Width(points, n) && forall i :: 0 <= i < |points| ==> points[i].basis[0] == 1.0
    ensures Rss(points, [m] + Zeros(n - 1)) == Deviations(points, m)
  {
    if points != [] {
      ConstantFit(points[..|points| - 1], n, m);
      DotFirst(points[|points| - 1].basis, m);
    }
  }

  /** With a constant among the basis functions, the fit never does worse than any constant. */
  lemma {:induction false} FitBeatsConstant(points: seq<Point>, c: seq<real>, m: real)
    requires c != [] && Width(points, |c|) && forall i :: 0 <= i < |points| ==> points[i].basis[0] == 1.0
    requires Solves(NormalMatrix(points, |c|), NormalValues(points, |c|), c)
    ensures 0.0 <= Rss(points, c) <= Deviations(points, m)
  {
    ConstantFit(points, |c|, m);
    NormalEquationsOptimal(points, c, [m] + Zeros(|c| - 1));
  }
}
