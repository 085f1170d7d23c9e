/**
  Least squares by the normal equations: what `least_squares` builds, and why solving
  it minimises the sum of squared residuals.
 */
module LeastSquares {
  import opened Vectors
  import opened LinearSystem

  /** The residual of equation i: its left side at y minus its right side. */
  ghost function Residual(m: Matrix, v: nat, y: Row, i: nat): real
    requires Rectangular(m, v + 1) && |y| == v && i < |m|
  {
    RangeDot(m[i], y, 0, v) - m[i][v]
  }

  ghost function Residuals(m: Matrix, v: nat, y: Row): (r: Row)
    requires Rectangular(m, v + 1) && |y| == v
    ensures |r| == |m| && forall i :: 0 <= i < |m| ==> r[i] == Residual(m, v, y, i)
  {
    seq(|m|, i requires 0 <= i < |m| => Residual(m, v, y, i))
  }

  /** |Ay - b|^2 for the system (A | b). */
  ghost function SquaredError(m: Matrix, v: nat, y: Row): real
    requires Rectangular(m, v + 1) && |y| == v
  {
    Dot(Residuals(m, v, y), Residuals(m, v, y))
  }

  ghost predicate Minimises(m: Matrix, v: nat, x: Row)
    requires Rectangular(m, v + 1)
  {
    |x| == v && forall y :: |y| == v ==> SquaredError(m, v, x) <= SquaredError(m, v, y)
  }

  /** Column j of the system. */
  ghost function Column(m: Matrix, width: nat, j: nat): (c: Row)
    requires Rectangular(m, width) && j < width
    ensures |c| == |m| && forall i :: 0 <= i < |m| ==> c[i] == m[i][j]
  {
    seq(|m|, i requires 0 <= i < |m| => m[i][j])
  }

  /** The normal equations (A^T A | A^T b). */
  ghost predicate Normal(m: Matrix, v: nat, c: Matrix) {
    && Rectangular(m, v + 1) && |c| == v && Rectangular(c, v + 1)
    && forall i, j :: 0 <= i < v && 0 <= j <= v ==> c[i][j] == Dot(Column(m, v + 1, i), Column(m, v + 1, j))
  }

  method BuildNormalEquations(m: Matrix, v: nat) returns (c: Matrix)
    requires m != [] && Rectangular(m, v + 1)
    ensures Normal(m, v, c)
  {
    var t := MakeTransposeMatrix(m, v + 1);
    assert forall j :: 0 <= j <= v ==> t[j] == Column(m, v + 1, j);
    c := seq(v, _ => seq(v + 1, _ => 0.0));
    var i := 0;
    while i < |c|
      invariant 0 <= i <= v == |c| && Rectangular(c, v + 1)
      invariant forall p, q :: 0 <= p < i && 0 <= q <= v ==> c[p][q] == Dot(Column(m, v + 1, p), Column(m, v + 1, q))
    {
      var j := 0;
      while j < |c[i]|
        invariant 0 <= j <= v + 1 && |c| == v && Rectangular(c, v + 1)
        invariant forall p, q :: 0 <= p < i && 0 <= q <= v ==> c[p][q] == Dot(Column(m, v + 1, p), Column(m, v + 1, q))
        invariant forall q :: 0 <= q < j ==> c[i][q] == Dot(Column(m, v + 1, i), Column(m, v + 1, q))
      {
        var d := DotProduct(t[i], t[j]);
        c := c[i := c[i][j := d]];
        j := j + 1;
      }
      i := i + 1;
    }
  }

  // ---------------------------------------------------------------------------
  // The argument

  /** Sum over rows i < n of w[i] * (sum over columns j < k of m[i][j] * d[j]), taken row by row. */
  ghost function ByRows(m: Matrix, v: nat, w: Row, d: Row, n: nat, k: nat): real
    requires Rectangular(m, v + 1) && n <= |m| && n <= |w| && k <= v && k <= |d|
  {
    if n == 0 then 0.0 else ByRows(m, v, w, d, n - 1, k) + w[n - 1] * RangeDot(m[n - 1], d, 0, k)
  }

  lemma {:induction false} ByRowsAddsColumn(m: Matrix, v: nat, w: Row, d: Row, n: nat, k: nat)
    requires Rectangular(m, v + 1) && n <= |m| && |w| == |m| && k < v && k < |d|
    ensures ByRows(m, v, w, d, n, k + 1) == ByRows(m, v, w, d, n, k) + d[k] * RangeDot(Column(m, v + 1, k), w, 0, n)
    decreases n
  {
    if n > 0 {
      ByRowsAddsColumn(m, v, w, d, n - 1, k);
      var a, b, x, y := w[n - 1], RangeDot(m[n - 1], d, 0, k), m[n - 1][k], d[k];
      assert a * (b + x * y) == a * b + y * (x * a);
      var s := RangeDot(Column(m, v + 1, k), w, 0, n - 1);
      assert y * (s + x * a) == y * s + y * (x * a);
    }
  }

  /** The product of column j with a vector of one value per equation. */
  ghost function Slope(m: Matrix, v: nat, w: Row, j: nat): real
    requires Rectangular(m, v + 1) && |w| == |m| && j < v
  {
    Dot(Column(m, v + 1, j), w)
  }

  /** A vector orthogonal to every column is orthogonal to every combination of columns. */
  lemma {:induction false} OrthogonalToCombinations(m: Matrix, v: nat, w: Row, d: Row, k: nat)
    requires Rectangular(m, v + 1) && |w| == |m| && k <= v == |d|
    requires forall j :: 0 <= j < v ==> Slope(m, v, w, j) == 0.0
    ensures ByRows(m, v, w, d, |m|, k) == 0.0
    decreases k
  {
    if k > 0 {
      OrthogonalToCombinations(m, v, w, d, k - 1);
      ByRowsAddsColumn(m, v, w, d, |m|, k - 1);
      assert Slope(m, v, w, k - 1) == 0.0;
    } else {
      ByRowsZero(m, v, w, d, |m|);
    }
  }

  lemma {:induction false} ByRowsZero(m: Matrix, v: nat, w: Row, d: Row, n: nat)
    requires Rectangular(m, v + 1) && n <= |m| && n <= |w|
    ensures ByRows(m, v, w, d, n, 0) == 0.0
  {
    if n > 0 { ByRowsZero(m, v, w, d, n - 1); }
  }

  lemma {:induction false} ExpandSquare(r: Row, e: Row, f: Row, n: nat)
    requires n <= |r| && n <= |e| && n <= |f| && forall i :: 0 <= i < n ==> f[i] == r[i] + e[i]
    ensures RangeDot(f, f, 0, n) == RangeDot(r, r, 0, n) + 2.0 * RangeDot(r, e, 0, n) + RangeDot(e, e, 0, n)
  {
    if n > 0 {
      ExpandSquare(r, e, f, n - 1);
      var a, b := r[n - 1], e[n - 1];
      assert (a + b) * (a + b) == a * a + 2.0 * (a * b) + b * b;
    }
  }

  /** The products with the columns, collected over the columns. */
  lemma {:induction false} ByColumns(m: Matrix, v: nat, w: Row, d: Row, g: Row, k: nat)
    requires Rectangular(m, v + 1) && |w| == |m| && |d| == v && k <= v <= |g|
    requires forall j :: 0 <= j < v ==> g[j] == Slope(m, v, w, j)
    ensures ByRows(m, v, w, d, |m|, k) == RangeDot(g, d, 0, k)
    decreases k
  {
    if k > 0 {
      ByColumns(m, v, w, d, g, k - 1);
      ByRowsAddsColumn(m, v, w, d, |m|, k - 1);
      assert g[k - 1] == Slope(m, v, w, k - 1);
    } else {
      ByRowsZero(m, v, w, d, |m|);
    }
  }

  lemma {:induction false} ProductWithResiduals(m: Matrix, v: nat, w: Row, x: Row, n: nat)
    requires Rectangular(m, v + 1) && |w| == |m| && |x| == v && n <= |m|
    ensures RangeDot(w, Residuals(m, v, x), 0, n) == ByRows(m, v, w, x, n, v) - RangeDot(w, Column(m, v + 1, v), 0, n)
  {
    if n > 0 {
      ProductWithResiduals(m, v, w, x, n - 1);
      var a, b, c := w[n - 1], RangeDot(m[n - 1], x, 0, v), m[n - 1][v];
      assert a * (b - c) == a * b - a * c;
    }
  }

  /** Row i of the normal equations says that the residuals are orthogonal to column i. */
  lemma NormalRow(m: Matrix, v: nat, c: Matrix, x: Row, i: nat)
    requires Normal(m, v, c) && |x| == v && i < v
    ensures Satisfies(c[i], x) <==> Slope(m, v, Residuals(m, v, x), i) == 0.0
  {
    var w := Column(m, v + 1, i);
    forall j | 0 <= j < v ensures c[i][j] == Slope(m, v, w, j) {
      RangeCommutes(w, Column(m, v + 1, j), 0, |m|);
    }
    ByColumns(m, v, w, x, c[i], v);
    ProductWithResiduals(m, v, w, x, |m|);
    assert c[i][v] == Dot(w, Column(m, v + 1, v));
  }

  lemma NormalMeansOrthogonal(m: Matrix, v: nat, c: Matrix, x: Row)
    requires Normal(m, v, c) && |x| == v
    ensures Solves(c, x) <==> forall j :: 0 <= j < v ==> Slope(m, v, Residuals(m, v, x), j) == 0.0
  {
    forall i | 0 <= i < v ensures Satisfies(c[i], x) <==> Slope(m, v, Residuals(m, v, x), i) == 0.0 {
      NormalRow(m, v, c, x, i);
    }
  }

  /** The change of the left sides when x moves by d. */
  ghost function Moved(m: Matrix, v: nat, d: Row): (e: Row)
    requires Rectangular(m, v + 1) && |d| == v
    ensures |e| == |m| && forall i :: 0 <= i < |m| ==> e[i] == RangeDot(m[i], d, 0, v)
  {
    seq(|m|, i requires 0 <= i < |m| => RangeDot(m[i], d, 0, v))
  }

  lemma MovedResiduals(m: Matrix, v: nat, x: Row, y: Row, d: Row)
    requires Rectangular(m, v + 1) && |x| == |y| == |d| == v && forall j :: 0 <= j < v ==> y[j] == d[j] * 1.0 + x[j]
    ensures forall i :: 0 <= i < |m| ==> Residuals(m, v, y)[i] == Residuals(m, v, x)[i] + Moved(m, v, d)[i]
  {
    forall i | 0 <= i < |m| ensures Residuals(m, v, y)[i] == Residuals(m, v, x)[i] + Moved(m, v, d)[i] {
      RangeCommutes(m[i], y, 0, v);
      RangeCommutes(m[i], x, 0, v);
      RangeCommutes(m[i], d, 0, v);
      RangeLinear(d, x, y, 1.0, m[i], 0, v);
    }
  }

  lemma {:induction false} MovedIsByRows(m: Matrix, v: nat, w: Row, d: Row, n: nat)
    requires Rectangular(m, v + 1) && |w| == |m| && |d| == v && n <= |m|
    ensures RangeDot(w, Moved(m, v, d), 0, n) == ByRows(m, v, w, d, n, v)
  {
    if n > 0 { MovedIsByRows(m, v, w, d, n - 1); }
  }

  /** Moving from x to y changes the squared error by twice the slope along the move plus a square. */
  lemma ErrorAfterMove(m: Matrix, v: nat, x: Row, y: Row, d: Row)
    requires Rectangular(m, v + 1) && |x| == |y| == |d| == v && forall j :: 0 <= j < v ==> y[j] == d[j] * 1.0 + x[j]
    ensures SquaredError(m, v, y) == SquaredError(m, v, x)
            + 2.0 * ByRows(m, v, Residuals(m, v, x), d, |m|, v) + Dot(Moved(m, v, d), Moved(m, v, d))
  {
    var r, e, f := Residuals(m, v, x), Moved(m, v, d), Residuals(m, v, y);
    MovedResiduals(m, v, x, y, d);
    ExpandSquare(r, e, f, |m|);
    MovedIsByRows(m, v, r, d, |m|);
  }

  lemma NormalSolutionMinimises(m: Matrix, v: nat, c: Matrix, x: Row)
    requires Normal(m, v, c) && |x| == v && Solves(c, x)
    ensures Minimises(m, v, x)
  {
    NormalMeansOrthogonal(m, v, c, x);
    forall y | |y| == v ensures SquaredError(m, v, x) <= SquaredError(m, v, y) {
      var d := seq(v, j requires 0 <= j < v => y[j] - x[j]);
      ErrorAfterMove(m, v, x, y, d);
      OrthogonalToCombinations(m, v, Residuals(m, v, x), d, v);
      SquareIsNonNegative(Moved(m, v, d), 0, |m|);
    }
  }

  /** A vector that is t in place j and zero elsewhere. */
  ghost function Along(v: nat, j: nat, t: real): Row
    requires j < v
  {
    seq(v, i => if i == j then t else 0.0)
  }

  lemma MoveAlongColumn(m: Matrix, v: nat, j: nat, t: real)
    requires Rectangular(m, v + 1) && j < v
    ensures forall i :: 0 <= i < |m| ==> Moved(m, v, Along(v, j, t))[i] == m[i][j] * t
  {
    var d := Along(v, j, t);
    forall i | 0 <= i < |m| ensures Moved(m, v, d)[i] == m[i][j] * t {
      RangeSplit(m[i], d, 0, j, v);
      RangeSplit(m[i], d, j, j + 1, v);
      RangeZero(m[i], d, 0, j);
      RangeZero(m[i], d, j + 1, v);
      assert RangeDot(m[i], d, j, j + 1) == RangeDot(m[i], d, j, j) + m[i][j] * d[j];
    }
  }

  lemma {:induction false} ScaledProduct(a: Row, c: Row, t: real, w: Row, n: nat)
    requires n <= |a| && n <= |c| && n <= |w| && forall i :: 0 <= i < n ==> a[i] == c[i] * t
    ensures RangeDot(w, a, 0, n) == t * RangeDot(c, w, 0, n)
  {
    if n > 0 {
      ScaledProduct(a, c, t, w, n - 1);
      Distribute(c[n - 1], 0.0, w[n - 1], t);
      var s, z := RangeDot(c, w, 0, n - 1), c[n - 1] * w[n - 1];
      assert t * (s + z) == t * s + t * z;
    }
  }

  /** Along a column with slope s, a step of -s/q with q the column's square lowers the error by s*s/q. */
  lemma SlopeAllowsImprovement(m: Matrix, v: nat, x: Row, j: nat) returns (y: Row)
    requires Rectangular(m, v + 1) && |x| == v && j < v && Slope(m, v, Residuals(m, v, x), j) != 0.0
    ensures |y| == v && SquaredError(m, v, y) < SquaredError(m, v, x)
  {
    var r, c, n := Residuals(m, v, x), Column(m, v + 1, j), |m|;
    var s, q := Slope(m, v, r, j), Dot(c, c);
    SquareIsNonNegative(c, 0, n);
    if q == 0.0 { RangeZero(c, r, 0, n); }
    var t := -s / q;
    var d := Along(v, j, t);
    y := seq(v, i requires 0 <= i < v => d[i] * 1.0 + x[i]);
    ErrorAfterMove(m, v, x, y, d);
    StepProducts(m, v, r, j, t);
    MovedIsByRows(m, v, r, d, n);
    BestStep(s, q, t);
  }

  lemma StepProducts(m: Matrix, v: nat, r: Row, j: nat, t: real)
    requires Rectangular(m, v + 1) && |r| == |m| && j < v
    ensures var e, c := Moved(m, v, Along(v, j, t)), Column(m, v + 1, j);
      Dot(r, e) == t * Slope(m, v, r, j) && Dot(e, e) == t * (t * Dot(c, c))
  {
    var e, c, n := Moved(m, v, Along(v, j, t)), Column(m, v + 1, j), |m|;
    MoveAlongColumn(m, v, j, t);
    ScaledProduct(e, c, t, r, n);
    ScaledProduct(e, c, t, e, n);
    ScaledProduct(e, c, t, c, n);
    RangeCommutes(c, e, 0, n);
  }

  lemma BestStep(s: real, q: real, t: real)
    requires s != 0.0 && q > 0.0 && t == -s / q
    ensures 2.0 * (t * s) + t * (t * q) < 0.0
  {
    assert t * q == -s;
    assert t * (t * q) == t * -s == -(t * s);
    assert t * s == -(s * s) / q;
    Square(s);
    assert (s * s) / q > 0.0;
  }

  /** The least-squares solutions are exactly the solutions of the system that `least_squares` builds. */
  lemma MinimisesIffSolvesNormal(m: Matrix, v: nat, c: Matrix, x: Row)
    requires Normal(m, v, c) && |x| == v
    ensures Minimises(m, v, x) <==> Solves(c, x)
  {
    NormalMeansOrthogonal(m, v, c, x);
    if Solves(c, x) {
      NormalSolutionMinimises(m, v, c, x);
    } else {
      var j :| 0 <= j < v && Slope(m, v, Residuals(m, v, x), j) != 0.0;
      var y := SlopeAllowsImprovement(m, v, x, j);
    }
  }

  ghost predicate IsOnlyMinimiser(m: Matrix, v: nat, x: Row)
    requires Rectangular(m, v + 1)
  {
    Minimises(m, v, x) && forall y :: Minimises(m, v, y) ==> y == x
  }

  lemma UniqueMinimiser(m: Matrix, v: nat, c: Matrix)
    requires Normal(m, v, c)
    ensures forall x :: IsOnlyMinimiser(m, v, x) <==> IsUniqueSolution(c, v, x)
  {
    forall x | |x| == v ensures Minimises(m, v, x) <==> Solves(c, x) {
      MinimisesIffSolvesNormal(m, v, c, x);
    }
  }
}
