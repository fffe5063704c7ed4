/** Gauss-Jordan elimination with partial pivoting, over exact reals. */
module LinearSystem {
  import opened Options

  type Row = seq<real>

  /** Number.EPSILON */
  const EPSILON: real := 1.0 / 4503599627370496.0

  function Abs(x: real): real { if x < 0.0 then -x else x }

  function Dot(u: seq<real>, v: seq<real>): real
    requires |u| == |v|
  {
    if u == [] then 0.0
    else MulAdd(Dot(u[..|u| - 1], v[..|v| - 1]), u[|u| - 1], v[|v| - 1])
  }

  function MulAdd(a: real, u: real, v: real): real { a + u * v }

  /** `x` satisfies `matrix * x == values`. */
  ghost predicate Solves(matrix: seq<Row>, values: seq<real>, x: seq<real>)
    requires |matrix| == |values| && forall i :: 0 <= i < |matrix| ==> |matrix[i]| == |x|
  {
    forall i :: 0 <= i < |matrix| ==> Dot(matrix[i], x) == values[i]
  }

  datatype Outcome = Solution(x: seq<real>) | Singular(column: nat)

  // ---------------------------------------------------------------- augmented rows

  ghost predicate Shape(rows: seq<Row>, n: nat) {
    |rows| == n && forall r :: 0 <= r < n ==> |rows[r]| == n + 1
  }

  /** By how much `x` misses the equation of an augmented row. */
  function Gap(row: Row, x: seq<real>): real
    requires |row| == |x| + 1
  {
    Dot(row[..|x|], x) - row[|x|]
  }

  ghost predicate Holds(rows: seq<Row>, x: seq<real>)
    requires Shape(rows, |x|)
  {
    forall r :: 0 <= r < |rows| ==> Gap(rows[r], x) == 0.0
  }

  /** The rows have the solutions of the original system. */
  ghost predicate Equivalent(rows: seq<Row>, matrix: seq<Row>, values: seq<real>)
    requires Shape(rows, |values|) && Square(matrix, values)
  {
    forall x: seq<real> :: |x| == |values| ==> (Holds(rows, x) <==> Solves(matrix, values, x))
  }

  ghost predicate Square(matrix: seq<Row>, values: seq<real>) {
    |matrix| == |values| && forall i :: 0 <= i < |matrix| ==> |matrix[i]| == |values|
  }

  /** The columns before `column` are unit columns. */
  ghost predicate Reduced(rows: seq<Row>, n: nat, column: nat)
    requires Shape(rows, n)
  {
    forall r, c :: 0 <= r < n && 0 <= c < column && c <= n ==> rows[r][c] == if r == c then 1.0 else 0.0
  }

  /** No entry of the column on or below the diagonal reaches the threshold. */
  ghost predicate ColumnNegligible(rows: seq<Row>, n: nat, column: nat)
    requires Shape(rows, n) && column < n
  {
    forall r :: column <= r < n ==> Abs(rows[r][column]) < EPSILON
  }

  function Scaled(row: Row, d: real): (s: Row)
    requires d != 0.0
    ensures |s| == |row| && forall i :: 0 <= i < |row| ==> s[i] == row[i] / d
  {
    seq(|row|, i requires 0 <= i < |row| => row[i] / d)
  }

  function Minus(a: real, f: real, b: real): (r: real)
    ensures b == 0.0 ==> r == a
  {
    a - f * b
  }

  function Combined(row: Row, f: real, pivot: Row): (s: Row)
    requires |row| == |pivot|
    ensures |s| == |row| && forall i :: 0 <= i < |row| ==> s[i] == Minus(row[i], f, pivot[i])
  {
    seq(|row|, i requires 0 <= i < |row| => Minus(row[i], f, pivot[i]))
  }

  // ---------------------------------------------------------------- linearity

  lemma {:induction false} DotScaled(u: Row, d: real, x: seq<real>)
    requires |u| == |x| && d != 0.0
    ensures Dot(Scaled(u, d), x) == Dot(u, x) / d
  {
    if u != [] {
      var n := |u| - 1;
      assert Scaled(u, d)[..n] == Scaled(u[..n], d);
      DotScaled(u[..n], d, x[..n]);
      DivideSum(Dot(u[..n], x[..n]), u[n], x[n], d);
    }
  }

  lemma {:induction false} DivideSum(a: real, b: real, c: real, d: real)
    requires d != 0.0
    ensures MulAdd(a / d, b / d, c) == MulAdd(a, b, c) / d
  {
    assert (b / d) * c == (b * c) / d;
  }

  lemma {:induction false} CombinedPrefix(u: Row, f: real, p: Row, n: nat)
    requires |u| == |p| && n <= |u|
    ensures Combined(u, f, p)[..n] == Combined(u[..n], f, p[..n])
  {
    forall i | 0 <= i < n ensures Combined(u, f, p)[..n][i] == Combined(u[..n], f, p[..n])[i] {
      assert u[..n][i] == u[i] && p[..n][i] == p[i];
    }
  }

  lemma {:induction false} DotCombined(u: Row, f: real, p: Row, x: seq<real>)
    requires |u| == |p| == |x|
    ensures Dot(Combined(u, f, p), x) == Minus(Dot(u, x), f, Dot(p, x))
  {
    if u != [] {
      var n := |u| - 1;
      CombinedPrefix(u, f, p, n);
      DotCombined(u[..n], f, p[..n], x[..n]);
      Distribute(Dot(u[..n], x[..n]), f, Dot(p[..n], x[..n]), u[n], p[n], x[n]);
    }
  }

  lemma {:induction false} Distribute(a: real, f: real, b: real, u: real, p: real, x: real)
    ensures MulAdd(Minus(a, f, b), Minus(u, f, p), x) == Minus(MulAdd(a, u, x), f, MulAdd(b, p, x))
  {
    assert (u - f * p) * x == u * x - (f * p) * x;
    assert (f * p) * x == f * (p * x);
    assert f * (b + p * x) == f * b + f * (p * x);
  }

  lemma GapScaled(row: Row, d: real, x: seq<real>)
    requires |row| == |x| + 1 && d != 0.0
    ensures Gap(Scaled(row, d), x) == 0.0 <==> Gap(row, x) == 0.0
  {
    assert Scaled(row, d)[..|x|] == Scaled(row[..|x|], d);
    DotScaled(row[..|x|], d, x);
    var a, b := Dot(row[..|x|], x), row[|x|];
    assert a / d - b / d == (a - b) / d;
    assert (a - b) / d == 0.0 <==> a - b == 0.0;
  }

  lemma GapCombined(row: Row, f: real, p: Row, x: seq<real>)
    requires |row| == |p| == |x| + 1 && Gap(p, x) == 0.0
    ensures Gap(Combined(row, f, p), x) == 0.0 <==> Gap(row, x) == 0.0
  {
    CombinedPrefix(row, f, p, |x|);
    DotCombined(row[..|x|], f, p[..|x|], x);
    SameSubtrahend(Dot(row[..|x|], x), f, Dot(p[..|x|], x), row[|x|], p[|x|]);
  }

  lemma SameSubtrahend(a: real, f: real, b: real, c: real, d: real)
    requires b == d
    ensures Minus(a, f, b) - Minus(c, f, d) == a - c
  {}

  // ---------------------------------------------------------------- each step keeps the solutions

  lemma SwapHolds(rows: seq<Row>, i: nat, j: nat, x: seq<real>)
    requires Shape(rows, |x|) && i < |x| && j < |x|
    ensures Holds(Swapped(rows, i, j), x) <==> Holds(rows, x)
  {
    var swapped := Swapped(rows, i, j);
    if Holds(swapped, x) {
      forall r | 0 <= r < |rows| ensures Gap(rows[r], x) == 0.0 {
        assert rows[r] == swapped[if r == i then j else if r == j then i else r];
      }
    }
  }

  lemma ScaleHolds(rows: seq<Row>, i: nat, d: real, x: seq<real>)
    requires Shape(rows, |x|) && i < |x| && d != 0.0
    ensures Holds(rows[i := Scaled(rows[i], d)], x) <==> Holds(rows, x)
  {
    var scaled := rows[i := Scaled(rows[i], d)];
    GapScaled(rows[i], d, x);
    OneRowChanged(rows, scaled, i, x);
  }

  lemma {:induction false} OneRowChanged(rows: seq<Row>, changed: seq<Row>, i: nat, x: seq<real>)
    requires Shape(rows, |x|) && Shape(changed, |x|) && i < |x|
    requires forall r :: 0 <= r < |x| && r != i ==> changed[r] == rows[r]
    requires Gap(changed[i], x) == 0.0 <==> Gap(rows[i], x) == 0.0
    ensures Holds(changed, x) <==> Holds(rows, x)
  {
    if Holds(rows, x) {
      forall r | 0 <= r < |x| ensures Gap(changed[r], x) == 0.0 { assert Gap(rows[r], x) == 0.0; }
    }
    if Holds(changed, x) {
      forall r | 0 <= r < |x| ensures Gap(rows[r], x) == 0.0 { assert Gap(changed[r], x) == 0.0; }
    }
  }

  lemma CombineHolds(rows: seq<Row>, i: nat, f: real, j: nat, x: seq<real>)
    requires Shape(rows, |x|) && i < |x| && j < |x| && i != j
    ensures Holds(rows[i := Combined(rows[i], f, rows[j])], x) <==> Holds(rows, x)
  {
    var combined := rows[i := Combined(rows[i], f, rows[j])];
    if Gap(rows[j], x) == 0.0 {
      GapCombined(rows[i], f, rows[j], x);
      OneRowChanged(rows, combined, i, x);
    } else {
      assert combined[j] == rows[j];
    }
  }

  lemma {:induction false} SwapEquivalent(rows: seq<Row>, i: nat, j: nat, matrix: seq<Row>, values: seq<real>)
    requires Square(matrix, values) && Shape(rows, |values|) && i < |values| && j < |values|
    requires Equivalent(rows, matrix, values)
    ensures Equivalent(Swapped(rows, i, j), matrix, values)
  {
    forall x: seq<real> | |x| == |values| { SwapHolds(rows, i, j, x); }
  }

  lemma ScaleEquivalent(rows: seq<Row>, i: nat, d: real, matrix: seq<Row>, values: seq<real>)
    requires Square(matrix, values) && Shape(rows, |values|) && i < |values| && d != 0.0
    requires Equivalent(rows, matrix, values)
    ensures Equivalent(rows[i := Scaled(rows[i], d)], matrix, values)
  {
    forall x: seq<real> | |x| == |values| { ScaleHolds(rows, i, d, x); }
  }

  lemma CombineEquivalent(rows: seq<Row>, i: nat, f: real, j: nat, matrix: seq<Row>, values: seq<real>)
    requires Square(matrix, values) && Shape(rows, |values|) && i < |values| && j < |values| && i != j
    requires Equivalent(rows, matrix, values)
    ensures Equivalent(rows[i := Combined(rows[i], f, rows[j])], matrix, values)
  {
    forall x: seq<real> | |x| == |values| { CombineHolds(rows, i, f, j, x); }
  }

  // ---------------------------------------------------------------- the ends of the elimination

  lemma {:induction false} AugmentedEquivalent(rows: seq<Row>, matrix: seq<Row>, values: seq<real>)
    requires Square(matrix, values) && |rows| == |values|
    requires forall i :: 0 <= i < |rows| ==> rows[i] == matrix[i] + [values[i]]
    ensures Shape(rows, |values|) && Equivalent(rows, matrix, values)
  {
    forall x: seq<real> | |x| == |values| ensures Holds(rows, x) <==> Solves(matrix, values, x) {
      assert forall i :: 0 <= i < |rows| ==> rows[i][..|x|] == matrix[i];
    }
  }

  lemma {:induction false} DotZeros(u: Row, x: seq<real>)
    requires |u| == |x| && forall i :: 0 <= i < |u| ==> u[i] == 0.0
    ensures Dot(u, x) == 0.0
  {
    if u != [] { DotZeros(u[..|u| - 1], x[..|x| - 1]); }
  }

  lemma {:induction false} DotUnit(u: Row, r: nat, x: seq<real>)
    requires |u| == |x| && r < |u| && forall i :: 0 <= i < |u| ==> u[i] == if i == r then 1.0 else 0.0
    ensures Dot(u, x) == x[r]
  {
    var n := |u| - 1;
    if r == n {
      DotZeros(u[..n], x[..n]);
    } else {
      DotUnit(u[..n], r, x[..n]);
    }
  }

  /** Fully reduced rows have exactly one solution, their last column. */
  lemma ReducedSolution(rows: seq<Row>, n: nat, x: seq<real>)
    requires Shape(rows, n) && Reduced(rows, n, n) && |x| == n
    ensures Holds(rows, x) <==> forall r :: 0 <= r < n ==> x[r] == rows[r][n]
  {
    forall r | 0 <= r < n ensures Gap(rows[r], x) == x[r] - rows[r][n] { DotUnit(rows[r][..n], r, x); }
  }

  // ---------------------------------------------------------------- one column, as a function of the rows

  /** The first of the largest entries of the column among the rows from `column` up to `upTo`. */
  function Pivot(rows: seq<Row>, column: nat, upTo: nat): (p: nat)
    requires column < upTo <= |rows| && forall r :: 0 <= r < |rows| ==> column < |rows[r]|
    ensures column <= p < upTo
    ensures forall r :: column <= r < upTo ==> Abs(rows[r][column]) <= Abs(rows[p][column])
    ensures forall r :: column <= r < p ==> Abs(rows[r][column]) < Abs(rows[p][column])
  {
    if upTo == column + 1 then column
    else
      var p := Pivot(rows, column, upTo - 1);
      if Abs(rows[upTo - 1][column]) > Abs(rows[p][column]) then upTo - 1 else p
  }

  function Swapped(rows: seq<Row>, i: nat, j: nat): seq<Row>
    requires i < |rows| && j < |rows|
  {
    rows[i := rows[j]][j := rows[i]]
  }

  /** The rows with the column's largest entry on the diagonal. */
  ghost function Pivoted(rows: seq<Row>, n: nat, column: nat): (s: seq<Row>)
    requires Shape(rows, n) && column < n
    ensures Shape(s, n)
  {
    Swapped(rows, column, Pivot(rows, column, n))
  }

  /** The first `upTo` rows, except the pivot row itself, without their share of the pivot row. */
  function Cleared(rows: seq<Row>, column: nat, upTo: nat): (s: seq<Row>)
    requires column < |rows| && forall r :: 0 <= r < |rows| ==> |rows[r]| == |rows[column]| && column < |rows[r]|
    ensures |s| == |rows| && forall r :: 0 <= r < |s| ==>
      s[r] == if r < upTo && r != column then Combined(rows[r], rows[r][column], rows[column]) else rows[r]
  {
    seq(|rows|, r requires 0 <= r < |rows| =>
      if r < upTo && r != column then Combined(rows[r], rows[r][column], rows[column]) else rows[r])
  }

  /** The pivot row divided by its pivot. */
  ghost function Normalized(rows: seq<Row>, n: nat, column: nat): (s: seq<Row>)
    requires Shape(rows, n) && column < n && rows[column][column] != 0.0
    ensures Shape(s, n)
  {
    rows[column := Scaled(rows[column], rows[column][column])]
  }

  /** One pass of the outer loop over a column with a usable pivot. */
  ghost function Step(rows: seq<Row>, n: nat, column: nat): (s: seq<Row>)
    requires Shape(rows, n) && column < n && !ColumnNegligible(rows, n, column)
    ensures Shape(s, n)
  {
    PivotUsable(rows, n, column);
    Cleared(Normalized(Pivoted(rows, n, column), n, column), column, n)
  }

  /** The largest entry decides whether the column is negligible. */
  lemma {:induction false} PivotUsable(rows: seq<Row>, n: nat, column: nat)
    requires Shape(rows, n) && column < n
    ensures Pivoted(rows, n, column)[column] == rows[Pivot(rows, column, n)]
    ensures ColumnNegligible(rows, n, column) <==> Abs(Pivoted(rows, n, column)[column][column]) < EPSILON
    ensures !ColumnNegligible(rows, n, column) ==> Pivoted(rows, n, column)[column][column] != 0.0
  {
    var p := Pivot(rows, column, n);
    assert Abs(rows[p][column]) < EPSILON ==> ColumnNegligible(rows, n, column);
  }

  lemma {:induction false} PivotedKeeps(rows: seq<Row>, column: nat, matrix: seq<Row>, values: seq<real>)
    requires Square(matrix, values) && Shape(rows, |values|) && column < |values|
    requires Equivalent(rows, matrix, values) && Reduced(rows, |values|, column)
    ensures var s := Pivoted(rows, |values|, column);
      Equivalent(s, matrix, values) && Reduced(s, |values|, column)
  {
    var p := Pivot(rows, column, |values|);
    SwapEquivalent(rows, column, p, matrix, values);
    SwapKeepsReduced(rows, |values|, column, p);
  }

  lemma {:induction false} SwapKeepsReduced(rows: seq<Row>, n: nat, column: nat, pivot: nat)
    requires Shape(rows, n) && column <= pivot < n && Reduced(rows, n, column)
    ensures Reduced(Swapped(rows, column, pivot), n, column)
  {
    var swapped := Swapped(rows, column, pivot);
    assert forall r :: 0 <= r < n && r != column && r != pivot ==> swapped[r] == rows[r];
    assert swapped[column] == rows[pivot] && swapped[pivot] == rows[column];
  }

  lemma {:induction false} NormalizedKeeps(rows: seq<Row>, column: nat, matrix: seq<Row>, values: seq<real>)
    requires Square(matrix, values) && Shape(rows, |values|) && column < |values| && rows[column][column] != 0.0
    requires Equivalent(rows, matrix, values) && Reduced(rows, |values|, column)
    ensures var s := Normalized(rows, |values|, column);
      Equivalent(s, matrix, values) && Reduced(s, |values|, column) && s[column][column] == 1.0
  {
    ScaleEquivalent(rows, column, rows[column][column], matrix, values);
    ScaleKeepsReduced(rows, |values|, column);
  }

  lemma {:induction false} ScaleKeepsReduced(rows: seq<Row>, n: nat, column: nat)
    requires Shape(rows, n) && column < n && Reduced(rows, n, column) && rows[column][column] != 0.0
    ensures var after := Normalized(rows, n, column);
      Reduced(after, n, column) && after[column][column] == 1.0
  {
    var d := rows[column][column];
    var after := Normalized(rows, n, column);
    assert forall r :: 0 <= r < n && r != column ==> after[r] == rows[r];
    assert forall c :: 0 <= c < column ==> rows[column][c] == 0.0;
    assert d / d == 1.0;
  }

  lemma {:induction false} ClearedNext(rows: seq<Row>, column: nat, k: nat)
    requires column < |rows| && k < |rows|
    requires forall r :: 0 <= r < |rows| ==> |rows[r]| == |rows[column]| && column < |rows[r]|
    ensures var s := Cleared(rows, column, k);
      s[column] == rows[column] && s[k] == rows[k] &&
      Cleared(rows, column, k + 1) ==
        if k == column then s else s[k := Combined(rows[k], rows[k][column], rows[column])]
  {
    var s, t := Cleared(rows, column, k), Cleared(rows, column, k + 1);
    assert k == column ==> t == s;
    assert k != column ==> t == s[k := Combined(rows[k], rows[k][column], rows[column])];
  }

  lemma {:induction false} ClearedKeeps(rows: seq<Row>, column: nat, k: nat, matrix: seq<Row>, values: seq<real>)
    requires Square(matrix, values) && Shape(rows, |values|) && column < |values| && k <= |values|
    requires Equivalent(rows, matrix, values)
    ensures Shape(Cleared(rows, column, k), |values|) && Equivalent(Cleared(rows, column, k), matrix, values)
  {
    hide Equivalent, Combined, Square, Dot;
    if k == 0 {
      assert Cleared(rows, column, 0) == rows;
    } else {
      ClearedKeeps(rows, column, k - 1, matrix, values);
      ClearedNext(rows, column, k - 1);
      var s := Cleared(rows, column, k - 1);
      hide Cleared;
      if k - 1 != column { CombineEquivalent(s, k - 1, rows[k - 1][column], column, matrix, values); }
    }
  }

  lemma {:induction false} ClearedReduces(rows: seq<Row>, n: nat, column: nat)
    requires Shape(rows, n) && column < n && Reduced(rows, n, column) && rows[column][column] == 1.0
    ensures Reduced(Cleared(rows, column, n), n, column + 1)
  {
    var s := Cleared(rows, column, n);
    forall r, c | 0 <= r < n && 0 <= c < column + 1 ensures s[r][c] == if r == c then 1.0 else 0.0 {
      assert c < column ==> rows[column][c] == 0.0;
      if r != column && c == column { assert s[r][c] == rows[r][c] - rows[r][c] * 1.0; }
    }
  }

  /** A pass keeps the solutions and adds one unit column. */
  lemma {:induction false} StepKeeps(rows: seq<Row>, column: nat, matrix: seq<Row>, values: seq<real>)
    requires Square(matrix, values) && Shape(rows, |values|) && column < |values|
    requires Equivalent(rows, matrix, values) && Reduced(rows, |values|, column)
    requires !ColumnNegligible(rows, |values|, column)
    ensures var s := Step(rows, |values|, column);
      Equivalent(s, matrix, values) && Reduced(s, |values|, column + 1)
  {
    hide Equivalent, Reduced, ColumnNegligible, Pivoted, Normalized, Cleared;
    var n := |values|;
    PivotUsable(rows, n, column);
    PivotedKeeps(rows, column, matrix, values);
    var pivoted := Pivoted(rows, n, column);
    NormalizedKeeps(pivoted, column, matrix, values);
    var normalized := Normalized(pivoted, n, column);
    ClearedKeeps(normalized, column, n, matrix, values);
    ClearedReduces(normalized, n, column);
  }

  // ---------------------------------------------------------------- the rows the elimination reaches

  function Augmented(matrix: seq<Row>, values: seq<real>): (rows: seq<Row>)
    requires |matrix| == |values|
    ensures |rows| == |values| && forall i :: 0 <= i < |rows| ==> rows[i] == matrix[i] + [values[i]]
  {
    seq(|values|, i requires 0 <= i < |values| => matrix[i] + [values[i]])
  }

  /** The rows before `column` is treated; none if an earlier column has no usable pivot. */
  ghost function Reached(matrix: seq<Row>, values: seq<real>, column: nat): (rows: Option<seq<Row>>)
    requires Square(matrix, values) && column <= |values|
    ensures rows.Some? ==> Shape(rows.value, |values|)
  {
    if column == 0 then Some(Augmented(matrix, values))
    else match Reached(matrix, values, column - 1)
      case None => None
      case Some(rows) =>
        if ColumnNegligible(rows, |values|, column - 1) then None else Some(Step(rows, |values|, column - 1))
  }

  /** The elimination gets to `column` and finds no usable pivot there. */
  ghost predicate Stops(matrix: seq<Row>, values: seq<real>, column: nat)
    requires Square(matrix, values)
  {
    && column < |values| && Reached(matrix, values, column).Some?
    && ColumnNegligible(Reached(matrix, values, column).value, |values|, column)
  }

  /** What is reached has the solutions of the system and a unit column for each column treated. */
  lemma {:induction false} ReachedKeeps(matrix: seq<Row>, values: seq<real>, column: nat)
    requires Square(matrix, values) && column <= |values| && Reached(matrix, values, column).Some?
    ensures var rows := Reached(matrix, values, column).value;
      Equivalent(rows, matrix, values) && Reduced(rows, |values|, column)
  {
    hide Equivalent, Step, ColumnNegligible;
    if column == 0 {
      AugmentedEquivalent(Augmented(matrix, values), matrix, values);
    } else {
      ReachedKeeps(matrix, values, column - 1);
      StepKeeps(Reached(matrix, values, column - 1).value, column - 1, matrix, values);
    }
  }

  lemma {:induction false} NothingBeyond(matrix: seq<Row>, values: seq<real>, c: nat, column: nat)
    requires Square(matrix, values) && Stops(matrix, values, c) && c < column <= |values|
    ensures Reached(matrix, values, column).None?
  {
    hide ColumnNegligible, Step;
    if column > c + 1 { NothingBeyond(matrix, values, c, column - 1); }
  }

  /** The elimination stops at one column at most. */
  lemma {:induction false} StopsOnce(matrix: seq<Row>, values: seq<real>, c: nat, d: nat)
    requires Square(matrix, values) && Stops(matrix, values, c) && Stops(matrix, values, d)
    ensures c == d
  {
    hide Reached, ColumnNegligible;
    if c < d { NothingBeyond(matrix, values, c, d); }
    if d < c { NothingBeyond(matrix, values, d, c); }
  }

  // ---------------------------------------------------------------- the algorithm

  method FindPivot(rows: array<Row>, column: nat) returns (pivot: nat)
    requires column < rows.Length && Shape(rows[..], rows.Length)
    ensures pivot == Pivot(rows[..], column, rows.Length)
  {
    pivot := column;
    for row := column + 1 to rows.Length
      invariant column <= pivot < rows.Length && pivot == Pivot(rows[..], column, row)
    {
      if Abs(rows[row][column]) > Abs(rows[pivot][column]) { pivot := row; }
    }
  }

  method SwapRows(rows: array<Row>, column: nat, pivot: nat)
    requires column < rows.Length && pivot < rows.Length
    modifies rows
    ensures rows[..] == Swapped(old(rows[..]), column, pivot)
  {
    rows[column], rows[pivot] := rows[pivot], rows[column];
    assert rows[..] == Swapped(old(rows[..]), column, pivot);
  }

  /** Divides the pivot row; entries before `column` are zero already and are not touched. */
  method ScaleRow(rows: array<Row>, column: nat, divisor: real)
    requires column < rows.Length && |rows[column]| == rows.Length + 1 && divisor != 0.0
    requires forall c :: 0 <= c < column ==> rows[column][c] == 0.0
    modifies rows
    ensures rows[..] == old(rows[..])[column := Scaled(old(rows[column]), divisor)]
  {
    ghost var was := rows[column];
    var width := rows.Length;
    for entry := column to width + 1
      invariant |rows[column]| == width + 1
      invariant forall c :: 0 <= c < entry ==> rows[column][c] == was[c] / divisor
      invariant forall c :: entry <= c <= width ==> rows[column][c] == was[c]
      invariant forall r :: 0 <= r < width && r != column ==> rows[r] == old(rows[r])
    {
      rows[column] := rows[column][entry := rows[column][entry] / divisor];
    }
    assert rows[column] == Scaled(was, divisor);
  }

  /** Subtracts `factor` times the pivot row, whose entries before `column` are zero. */
  method EliminateRow(rows: array<Row>, row: nat, column: nat)
    requires row < rows.Length && column < rows.Length && row != column
    requires |rows[row]| == |rows[column]| == rows.Length + 1
    requires forall c :: 0 <= c < column ==> rows[column][c] == 0.0
    modifies rows
    ensures rows[..] == old(rows[..])[row := Combined(old(rows[row]), old(rows[row])[column], old(rows[column]))]
  {
    ghost var was := rows[row];
    var width := rows.Length;
    var factor := rows[row][column];
    for entry := column to width + 1
      invariant |rows[row]| == width + 1 && rows[column] == old(rows[column])
      invariant forall c :: 0 <= c < entry ==> rows[row][c] == Minus(was[c], factor, rows[column][c])
      invariant forall c :: entry <= c <= width ==> rows[row][c] == was[c]
      invariant forall r :: 0 <= r < width && r != row ==> rows[r] == old(rows[r])
    {
      rows[row] := rows[row][entry := Minus(rows[row][entry], factor, rows[column][entry])];
    }
    assert rows[row] == Combined(was, factor, rows[column]);
  }

  method EliminateColumn(rows: array<Row>, column: nat)
    requires column < rows.Length && Shape(rows[..], rows.Length)
    requires forall c :: 0 <= c < column ==> rows[column][c] == 0.0
    modifies rows
    ensures rows[..] == Cleared(old(rows[..]), column, rows.Length)
  {
    hide Cleared, Combined;
    ghost var was := rows[..];
    assert Cleared(was, column, 0) == was;
    for row := 0 to rows.Length
      invariant rows[..] == Cleared(was, column, row)
    {
      ClearedNext(was, column, row);
      assert rows[column] == rows[..][column] && rows[row] == rows[..][row];
      if row != column { EliminateRow(rows, row, column); }
    }
  }

  /** One pass of the outer loop; `false` is the throw. */
  method ReduceColumn(rows: array<Row>, column: nat) returns (ok: bool)
    requires column < rows.Length && Shape(rows[..], rows.Length) && Reduced(rows[..], rows.Length, column)
    modifies rows
    ensures ok <==> !ColumnNegligible(old(rows[..]), rows.Length, column)
    ensures ok ==> rows[..] == Step(old(rows[..]), rows.Length, column)
  {
    hide Cleared, Scaled, ColumnNegligible, Pivot;
    ghost var was := rows[..];
    var n := rows.Length;
    var pivot := FindPivot(rows, column);
    SwapRows(rows, column, pivot);
    PivotUsable(was, n, column);
    SwapKeepsReduced(was, n, column, pivot);
    ghost var pivoted := rows[..];
    assert pivoted == Pivoted(was, n, column) && rows[column] == pivoted[column];
    var divisor := rows[column][column];
    if Abs(divisor) < EPSILON { return false; }
    ScaleRow(rows, column, divisor);
    ghost var normalized := rows[..];
    assert normalized == Normalized(pivoted, n, column) && rows[column] == normalized[column];
    ScaleKeepsReduced(pivoted, n, column);
    EliminateColumn(rows, column);
    return true;
  }

  /** `y` solves the system exactly when it is `x`. */
  ghost predicate UniqueSolution(matrix: seq<Row>, values: seq<real>, x: seq<real>)
    requires Square(matrix, values)
  {
    |x| == |values| && forall y: seq<real> :: |y| == |values| ==> (Solves(matrix, values, y) <==> y == x)
  }

  function LastColumn(rows: seq<Row>, n: nat): seq<real>
    requires Shape(rows, n)
  {
    seq(n, i requires 0 <= i < n => rows[i][n])
  }

  lemma LastColumnSolves(rows: seq<Row>, matrix: seq<Row>, values: seq<real>)
    requires Square(matrix, values) && Shape(rows, |values|) && Equivalent(rows, matrix, values)
    requires Reduced(rows, |values|, |values|)
    ensures UniqueSolution(matrix, values, LastColumn(rows, |values|))
  {
    forall y: seq<real> | |y| == |values|
      ensures Solves(matrix, values, y) <==> y == LastColumn(rows, |values|)
    {
      ReducedSolution(rows, |values|, y);
    }
  }

  /**
   * The result is a throw exactly when the elimination reaches a column without a usable pivot; a returned vector
   * is the one and only solution, so a system with none or with several is never given one.
   */
  method SolveLinearSystem(matrix: seq<Row>, values: seq<real>) returns (result: Outcome)
    requires Square(matrix, values)
    ensures result.Solution? ==> |result.x| == |values| && UniqueSolution(matrix, values, result.x)
    ensures result.Singular? ==> Stops(matrix, values, result.column)
    ensures result.Singular? <==> exists column :: Stops(matrix, values, column)
  {
    hide Step, ColumnNegligible, Equivalent;
    var width := |values|;
    var rows := new Row[width](i requires 0 <= i < width => matrix[i] + [values[i]]);
    assert rows[..] == Augmented(matrix, values);
    for column := 0 to width
      invariant Reached(matrix, values, column) == Some(rows[..])
    {
      ReachedKeeps(matrix, values, column);
      var ok := ReduceColumn(rows, column);
      if !ok { return Singular(column); }
    }
    ReachedKeeps(matrix, values, width);
    LastColumnSolves(rows[..], matrix, values);
    forall column | Stops(matrix, values, column) ensures false { NothingBeyond(matrix, values, column, width); }
    return Solution(LastColumn(rows[..], width));
  }

  // ---------------------------------------------------------------- an exactly zero column

  function Added(x: seq<real>, e: seq<real>): (y: seq<real>)
    requires |x| == |e|
    ensures |y| == |x| && forall i :: 0 <= i < |x| ==> y[i] == x[i] + e[i]
  {
    seq(|x|, i requires 0 <= i < |x| => x[i] + e[i])
  }

  lemma {:induction false} DotAdded(u: Row, x: seq<real>, e: seq<real>)
    requires |u| == |x| == |e|
    ensures Dot(u, Added(x, e)) == Dot(u, x) + Dot(u, e)
  {
    if u != [] {
      var n := |u| - 1;
      assert Added(x, e)[..n] == Added(x[..n], e[..n]);
      DotAdded(u[..n], x[..n], e[..n]);
      AddTerm(Dot(u[..n], x[..n]), Dot(u[..n], e[..n]), u[n], x[n], e[n]);
    }
  }

  lemma {:induction false} AddTerm(a: real, b: real, u: real, x: real, e: real)
    ensures MulAdd(a + b, u, x + e) == MulAdd(a, u, x) + MulAdd(b, u, e)
  {
    assert u * (x + e) == u * x + u * e;
  }

  /** A direction in which rows with an exactly zero column do not change. */
  function Direction(rows: seq<Row>, n: nat, column: nat): (e: seq<real>)
    requires column < n <= |rows| && forall r :: 0 <= r < n ==> column < |rows[r]|
    ensures |e| == n && e[column] == 1.0
    ensures forall i :: 0 <= i < n ==> e[i] == if i < column then -rows[i][column] else if i == column then 1.0 else 0.0
  {
    seq(n, i requires 0 <= i < n => if i < column then -rows[i][column] else if i == column then 1.0 else 0.0)
  }

  lemma {:induction false} DirectionPart(rows: seq<Row>, n: nat, column: nat, r: nat, k: nat)
    requires Shape(rows, n) && column < n && Reduced(rows, n, column) && r < n && k <= n
    requires column <= r ==> rows[r][column] == 0.0
    ensures Dot(rows[r][..k], Direction(rows, n, column)[..k]) == if r < k <= column then -rows[r][column] else 0.0
  {
    var u, e := rows[r], Direction(rows, n, column);
    if k > 0 {
      DirectionPart(rows, n, column, r, k - 1);
      assert u[..k][..k - 1] == u[..k - 1] && e[..k][..k - 1] == e[..k - 1];
      assert u[..k][k - 1] == u[k - 1] && e[..k][k - 1] == e[k - 1];
      assert k - 1 < column ==> u[k - 1] == if r == k - 1 then 1.0 else 0.0;
    }
  }

  lemma {:induction false} ZeroColumnFree(rows: seq<Row>, n: nat, column: nat, x: seq<real>)
    requires Shape(rows, n) && column < n && Reduced(rows, n, column) && |x| == n && Holds(rows, x)
    requires forall r :: column <= r < n ==> rows[r][column] == 0.0
    ensures Holds(rows, Added(x, Direction(rows, n, column)))
  {
    hide Reduced, Dot;
    var e := Direction(rows, n, column);
    forall r | 0 <= r < n ensures Gap(rows[r], Added(x, e)) == 0.0 {
      DotAdded(rows[r][..n], x, e);
      assert e[..n] == e;
      DirectionPart(rows, n, column, r, n);
      assert Gap(rows[r], x) == 0.0;
    }
  }

  /** Where the entries are not just negligible but zero the throw is right: every solution comes with another. */
  lemma {:induction false} ZeroColumnHasNoAnswer(matrix: seq<Row>, values: seq<real>, column: nat, x: seq<real>)
    returns (y: seq<real>)
    requires Square(matrix, values) && Stops(matrix, values, column) && |x| == |values| && Solves(matrix, values, x)
    requires forall r :: column <= r < |values| ==> Reached(matrix, values, column).value[r][column] == 0.0
    ensures |y| == |values| && y != x && Solves(matrix, values, y)
  {
    hide Reached, ColumnNegligible, Reduced, Holds, Solves;
    var rows := Reached(matrix, values, column).value;
    ReachedKeeps(matrix, values, column);
    ZeroColumnFree(rows, |values|, column, x);
    y := Added(x, Direction(rows, |values|, column));
    assert y[column] != x[column];
  }

  /** Otherwise it need not be: a pivot below the threshold is refused although it has its solution. */
  lemma {:induction false} SmallPivotIsRefused(e: real, v: real)
    requires 0.0 < e < EPSILON
    ensures Stops([[e]], [v], 0) && UniqueSolution([[e]], [v], [v / e])
  {
    assert Augmented([[e]], [v])[0] == [e] + [v];
    assert Reached([[e]], [v], 0) == Some(Augmented([[e]], [v]));
    forall y: seq<real> | |y| == 1 ensures Solves([[e]], [v], y) <==> y == [v / e] {
      OneTerm(e, y);
      assert y == [y[0]];
      Quotient(e, y[0], v);
    }
  }

  lemma {:induction false} OneTerm(e: real, y: seq<real>)
    requires |y| == 1
    ensures Dot([e], y) == e * y[0]
  {
    assert [e][..0] == [] && y[..0] == [];
  }

  lemma {:induction false} Quotient(e: real, y: real, v: real)
    requires e > 0.0
    ensures e * y == v <==> y == v / e
  {
    assert e * (v / e) == v;
    if e * y == v { assert y == (e * y) / e; }
  }
}
