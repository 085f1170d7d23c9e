/**
  Gaussian elimination over exact reals.  The matrix is an array of rows; each row holds
  the coefficients of one equation and, last, its right side.
 */
module LinearSystem {
  import opened Vectors

  /** x satisfies the equation of this row. */
  ghost predicate Satisfies(row: Row, x: Row) {
    |row| == |x| + 1 && RangeDot(row, x, 0, |x|) == row[|x|]
  }

  ghost predicate Solves(m: Matrix, x: Row) {
    forall i :: 0 <= i < |m| ==> Satisfies(m[i], x)
  }

  /** The rows below the diagonal are zero in columns 0 to p. */
  ghost predicate ZeroBelow(m: Matrix, p: nat) {
    forall c, r :: 0 <= c < p && c < r < |m| && c < |m[r]| ==> m[r][c] == 0.0
  }

  // ---------------------------------------------------------------------------
  // Row operations

  function Scaled(row: Row, k: real): (r: Row)
    ensures |r| == |row| && forall i :: 0 <= i < |r| ==> r[i] == row[i] * k
  {
    seq(|row|, i requires 0 <= i < |row| => row[i] * k)
  }

  function Added(a: Row, b: Row): (r: Row)
    requires |a| == |b|
    ensures |r| == |a| && forall i :: 0 <= i < |r| ==> r[i] == b[i] + a[i]
  {
    seq(|a|, i requires 0 <= i < |a| => b[i] + a[i])
  }

  /** `fill_row`. */
  method FillRow(m: array<Row>, row: nat, k: real)
    requires row < m.Length
    modifies m
    ensures m[..] == old(m[..])[row := Scaled(old(m[row]), k)]
  {
    var i := 0;
    while i < |m[row]|
      invariant 0 <= i <= |m[row]| == |old(m[row])|
      invariant forall j :: 0 <= j < |m[row]| ==> m[row][j] == if j < i then old(m[row])[j] * k else old(m[row])[j]
      invariant forall r :: 0 <= r < m.Length && r != row ==> m[r] == old(m[r])
    {
      m[row] := m[row][i := m[row][i] * k];
      i := i + 1;
    }
    assert m[row] == Scaled(old(m[row]), k);
  }

  /** `add_rows`. */
  method AddRows(m: array<Row>, a: nat, b: nat)
    requires a < m.Length && b < m.Length && a != b && |m[a]| == |m[b]|
    modifies m
    ensures m[..] == old(m[..])[b := Added(old(m[a]), old(m[b]))]
  {
    var i := 0;
    while i < |m[a]|
      invariant 0 <= i <= |m[b]| == |m[a]| == |old(m[b])|
      invariant forall j :: 0 <= j < |m[b]| ==> m[b][j] == if j < i then old(m[b])[j] + old(m[a])[j] else old(m[b])[j]
      invariant forall r :: 0 <= r < m.Length && r != b ==> m[r] == old(m[r])
    {
      m[b] := m[b][i := Limit(m[b][i] + m[a][i])];
      i := i + 1;
    }
    assert m[b] == Added(old(m[a]), old(m[b]));
  }

  /** `swap_rows`. */
  method SwapRows(m: array<Row>, a: nat, b: nat)
    requires a < m.Length && b < m.Length
    modifies m
    ensures m[..] == old(m[..])[b := old(m[a])][a := old(m[b])]
  {
    var temp := m[b];
    m[b] := m[a];
    m[a] := temp;
  }

  /** Scaling by a non-zero factor and adding a satisfied equation changes nothing. */
  lemma CombinedRow(p: Row, q: Row, k: real, x: Row)
    requires |p| == |q| && k != 0.0 && Satisfies(p, x)
    ensures Satisfies(Added(p, Scaled(q, k)), x) <==> Satisfies(q, x)
  {
    if |q| == |x| + 1 {
      var n, c := |x|, Added(p, Scaled(q, k));
      RangeLinear(q, p, c, k, x, 0, n);
      var d, e := RangeDot(q, x, 0, n), q[n];
      assert RangeDot(c, x, 0, n) - c[n] == k * (d - e);
      if k * (d - e) == 0.0 { ZeroProduct(k, d - e); }
    }
  }

  /** One step of the elimination of column p: how row i changes. */
  ghost function Eliminated(m: Matrix, p: nat, i: nat): Matrix
    requires p < i < |m| && p < |m[p]| && |m[p]| == |m[i]|
  {
    if m[i][p] == 0.0 then m
    else if m[p][p] == 0.0 then m[i := m[p]][p := m[i]]
    else m[i := Added(m[p], Scaled(m[i], -1.0 * (m[p][p] / m[i][p])))]
  }

  lemma EliminatedRows(m: Matrix, p: nat, i: nat)
    requires p < i < |m| && p < |m[p]| && |m[p]| == |m[i]|
    ensures var r := Eliminated(m, p, i); |r| == |m| && forall j :: 0 <= j < |m| && j != p && j != i ==> r[j] == m[j]
    ensures var r := Eliminated(m, p, i); m[i][p] != 0.0 && m[p][p] == 0.0 ==> r[p] == m[i] && r[i] == m[p]
    ensures var r := Eliminated(m, p, i); m[i][p] == 0.0 || m[p][p] != 0.0 ==> r[p] == m[p]
  {
  }

  /** Where neither entry of the column is zero, the row becomes the pivot's row minus the multiple that clears the column. */
  lemma EliminatedEntry(m: Matrix, p: nat, i: nat, j: nat)
    requires p < i < |m| && p < |m[p]| && |m[p]| == |m[i]| && j < |m[i]| && m[i][p] != 0.0 && m[p][p] != 0.0
    ensures var r := Eliminated(m, p, i); |r| == |m| && |r[i]| == |m[i]|
    ensures Eliminated(m, p, i)[i][j] * m[i][p] == m[p][j] * m[i][p] - m[i][j] * m[p][p]
  {
    var q := m[p][p] / m[i][p];
    var k := -1.0 * q;
    Divided(m[p][p], m[i][p]);
    assert Eliminated(m, p, i)[i] == Added(m[p], Scaled(m[i], k));
    ClearedEntry(m[p][j], m[i][j], k, m[i][p], m[p][p], Eliminated(m, p, i)[i][j]);
  }

  lemma ClearedEntry(a: real, b: real, k: real, c: real, d: real, e: real)
    requires k * c == -d && e == b * k + a
    ensures e * c == a * c - b * d
  {
    assert e * c == b * (k * c) + a * c;
  }

  lemma EliminatedSolves(m: Matrix, p: nat, i: nat, x: Row)
    requires p < i < |m| && p < |m[p]| && |m[p]| == |m[i]|
    ensures Solves(Eliminated(m, p, i), x) <==> Solves(m, x)
  {
    hide Satisfies;
    EliminatedRows(m, p, i);
    var r := Eliminated(m, p, i);
    var others := forall j :: 0 <= j < |m| && j != p && j != i ==> Satisfies(m[j], x);
    SolvesByRows(m, p, i, x, others);
    SolvesByRows(r, p, i, x, others);
    if m[i][p] != 0.0 && m[p][p] != 0.0 {
      var k := -1.0 * (m[p][p] / m[i][p]);
      Divided(m[p][p], m[i][p]);
      if Satisfies(m[p], x) { CombinedRow(m[p], m[i], k, x); }
    }
  }

  lemma SolvesByRows(m: Matrix, p: nat, i: nat, x: Row, others: bool)
    requires p < i < |m| && (others <==> forall j :: 0 <= j < |m| && j != p && j != i ==> Satisfies(m[j], x))
    ensures Solves(m, x) <==> Satisfies(m[p], x) && Satisfies(m[i], x) && others
  {
    hide Satisfies;
  }

  lemma EliminatedZero(m: Matrix, p: nat, i: nat, width: nat)
    requires Rectangular(m, width) && p < i < |m| && p < width && ZeroBelow(m, p)
    ensures var r := Eliminated(m, p, i); Rectangular(r, width) && ZeroBelow(r, p) && r[i][p] == 0.0
    ensures forall j :: 0 <= j < |m| && j != p && j != i ==> Eliminated(m, p, i)[j] == m[j]
  {
    if m[i][p] != 0.0 && m[p][p] != 0.0 {
      var q := m[p][p] / m[i][p];
      Divided(m[p][p], m[i][p]);
      assert m[i][p] * (-1.0 * q) == -(m[i][p] * q);
    }
  }

  /** The elimination of column p in the rows below p and before i. */
  ghost function Pass(m: Matrix, p: nat, i: nat, width: nat): (r: Matrix)
    requires Rectangular(m, width) && p < width && p < i <= |m|
    ensures |r| == |m| && Rectangular(r, width)
  {
    if i == p + 1 then m
    else
      var before := Pass(m, p, i - 1, width);
      var r := Eliminated(before, p, i - 1);
      assert forall j :: 0 <= j < |r| ==> |r[j]| == width;
      r
  }

  /** The elimination of the first k columns. */
  ghost function Echelon(m: Matrix, k: nat, width: nat): (r: Matrix)
    requires Rectangular(m, width) && k <= width && k <= |m|
    ensures |r| == |m| && Rectangular(r, width)
  {
    if k == 0 then m else Pass(Echelon(m, k - 1, width), k - 1, |m|, width)
  }

  lemma {:induction false} PassZero(m: Matrix, p: nat, i: nat, width: nat)
    requires Rectangular(m, width) && p < width && p < i <= |m| && ZeroBelow(m, p)
    ensures ZeroBelow(Pass(m, p, i, width), p) && forall r :: p < r < i ==> Pass(m, p, i, width)[r][p] == 0.0
  {
    hide Eliminated;
    if i > p + 1 {
      PassZero(m, p, i - 1, width);
      EliminatedZero(Pass(m, p, i - 1, width), p, i - 1, width);
    }
  }

  lemma {:induction false} EchelonZero(m: Matrix, k: nat, width: nat)
    requires Rectangular(m, width) && k <= width && k <= |m|
    ensures ZeroBelow(Echelon(m, k, width), k)
  {
    hide Pass;
    if k > 0 {
      EchelonZero(m, k - 1, width);
      PassZero(Echelon(m, k - 1, width), k - 1, |m|, width);
    }
  }

  lemma {:induction false} PassSolves(m: Matrix, p: nat, i: nat, width: nat, x: Row)
    requires Rectangular(m, width) && p < width && p < i <= |m|
    ensures Solves(Pass(m, p, i, width), x) <==> Solves(m, x)
  {
    hide Eliminated, Solves;
    if i > p + 1 {
      PassSolves(m, p, i - 1, width, x);
      EliminatedSolves(Pass(m, p, i - 1, width), p, i - 1, x);
    }
  }

  lemma {:induction false} EchelonSolves(m: Matrix, k: nat, width: nat)
    requires Rectangular(m, width) && k <= width && k <= |m|
    ensures forall x :: Solves(Echelon(m, k, width), x) <==> Solves(m, x)
  {
    hide Pass, Solves;
    if k > 0 {
      EchelonSolves(m, k - 1, width);
      forall x ensures Solves(Echelon(m, k, width), x) <==> Solves(m, x) {
        PassSolves(Echelon(m, k - 1, width), k - 1, |m|, width, x);
      }
    }
  }

  method TryMakeRowEchelonForm(m: array<Row>, p: nat, width: nat)
    requires p < m.Length && p < width && Rectangular(m[..], width) && ZeroBelow(m[..], p)
    modifies m
    ensures Rectangular(m[..], width) && ZeroBelow(m[..], p + 1)
    ensures forall x :: Solves(m[..], x) <==> Solves(old(m[..]), x)
    ensures m[..] == Pass(old(m[..]), p, m.Length, width)
  {
    hide Solves, Satisfies;
    var i := p + 1;
    while i < m.Length
      invariant p < i <= m.Length && Rectangular(m[..], width)
      invariant m[..] == Pass(old(m[..]), p, i, width)
    {
      ghost var before := m[..];
      if Limit(m[i][p]) != 0.0 {
        var diffCoeff := m[p][p] / m[i][p];
        Divided(m[p][p], m[i][p]);
        if Limit(diffCoeff) == 0.0 {
          SwapRows(m, p, i);
        } else {
          FillRow(m, i, -1.0 * diffCoeff);
          AddRows(m, p, i);
        }
      }
      assert m[..] == Eliminated(before, p, i);
      i := i + 1;
    }
    PassZero(old(m[..]), p, i, width);
    forall x ensures Solves(m[..], x) <==> Solves(old(m[..]), x) {
      PassSolves(old(m[..]), p, i, width, x);
    }
  }

  // ---------------------------------------------------------------------------
  // Back substitution

  ghost predicate Upper(m: Matrix, n: nat) {
    |m| == n && Rectangular(m, n + 1) && ZeroBelow(m, n)
  }

  lemma EchelonIsUpper(m: Matrix, n: nat)
    requires |m| == n && 0 < n && Rectangular(m, n + 1)
    ensures Upper(Echelon(m, n - 1, n + 1), n)
  {
    EchelonZero(m, n - 1, n + 1);
  }

  ghost predicate PivotsNonZero(m: Matrix, n: nat)
    requires Upper(m, n)
  {
    forall i :: 0 <= i < n ==> m[i][i] != 0.0
  }

  /** The equation of row r without the terms left of the diagonal. */
  ghost predicate SolvesTail(m: Matrix, n: nat, x: Row, r: nat)
    requires |m| == n && Rectangular(m, n + 1) && |x| == n && r < n
  {
    RangeDot(m[r], x, r, n) == m[r][n]
  }

  lemma UpperSolves(m: Matrix, n: nat, x: Row)
    requires Upper(m, n) && |x| == n
    ensures Solves(m, x) <==> forall r :: 0 <= r < n ==> SolvesTail(m, n, x, r)
  {
    forall r | 0 <= r < n ensures Satisfies(m[r], x) <==> SolvesTail(m, n, x, r) {
      RangeSplit(m[r], x, 0, r, n);
      RangeZero(m[r], x, 0, r);
    }
  }

  lemma RangeFirst(a: Row, b: Row, lo: nat, hi: nat)
    requires lo < hi <= |a| && hi <= |b|
    ensures RangeDot(a, b, lo, hi) == a[lo] * b[lo] + RangeDot(a, b, lo + 1, hi)
  {
    RangeSplit(a, b, lo, lo + 1, hi);
    assert RangeDot(a, b, lo, lo + 1) == RangeDot(a, b, lo, lo) + a[lo] * b[lo];
  }

  method FindXi(m: Matrix, row: nat, res: Row, n: nat) returns (xi: real)
    requires |m| == n && Rectangular(m, n + 1) && |res| == n && row < n && m[row][row] != 0.0
    ensures SolvesTail(m, n, res[row := xi], row)
  {
    var right := m[row][n];
    var i := row + 1;
    while i < n
      invariant row + 1 <= i <= n && right == m[row][n] - RangeDot(m[row], res, row + 1, i)
    {
      right := right - res[i] * m[row][i];
      i := i + 1;
    }
    xi := right / m[row][row];
    Divided(right, m[row][row]);
    TailSolved(m, row, res, n, xi);
  }

  lemma TailSolved(m: Matrix, row: nat, res: Row, n: nat, xi: real)
    requires |m| == n && Rectangular(m, n + 1) && |res| == n && row < n
    requires m[row][row] * xi == m[row][n] - RangeDot(m[row], res, row + 1, n)
    ensures SolvesTail(m, n, res[row := xi], row)
  {
    var x := res[row := xi];
    RangeFirst(m[row], x, row, n);
    RangeSame(m[row], x, m[row], res, row + 1, n);
    SameProduct(m[row][row], x[row], xi);
  }

  lemma TailKept(m: Matrix, row: nat, res: Row, n: nat, i: nat, xi: real)
    requires |m| == n && Rectangular(m, n + 1) && |res| == n && i < row < n && SolvesTail(m, n, res, row)
    ensures SolvesTail(m, n, res[i := xi], row)
  {
    RangeSame(m[row], res[i := xi], m[row], res, row, n);
  }

  method FindRoots(m: Matrix, n: nat) returns (res: Row)
    requires Upper(m, n) && PivotsNonZero(m, n)
    ensures |res| == n && Solves(m, res)
  {
    res := seq(n, _ => 0.0);
    var i := n;
    while i > 0
      invariant 0 <= i <= n == |res|
      invariant forall r :: i <= r < n ==> SolvesTail(m, n, res, r)
    {
      i := i - 1;
      var xi := FindXi(m, i, res, n);
      ghost var before := res;
      res := res[i := xi];
      forall r | i < r < n ensures SolvesTail(m, n, res, r) {
        TailKept(m, r, before, n, i, xi);
      }
    }
    UpperSolves(m, n, res);
  }

  lemma CancelFactor(a: real, x: real, y: real, rest: real, right: real)
    requires a != 0.0 && a * x + rest == right && a * y + rest == right
    ensures x == y
  {
    assert x == (right - rest) / a && y == (right - rest) / a;
  }

  lemma SameHere(m: Matrix, n: nat, x: Row, y: Row, i: nat)
    requires Upper(m, n) && |x| == |y| == n && i < n && m[i][i] != 0.0
    requires SolvesTail(m, n, x, i) && SolvesTail(m, n, y, i) && forall j :: i < j < n ==> x[j] == y[j]
    ensures x[i] == y[i]
  {
    RangeFirst(m[i], x, i, n);
    RangeFirst(m[i], y, i, n);
    RangeSame(m[i], x, m[i], y, i + 1, n);
    CancelFactor(m[i][i], x[i], y[i], RangeDot(m[i], x, i + 1, n), m[i][n]);
  }

  lemma UpperIsUnique(m: Matrix, n: nat, x: Row, y: Row)
    requires Upper(m, n) && PivotsNonZero(m, n) && |x| == |y| == n && Solves(m, x) && Solves(m, y)
    ensures x == y
  {
    UpperSolves(m, n, x);
    UpperSolves(m, n, y);
    var i := n;
    while i > 0
      invariant 0 <= i <= n && forall j :: i <= j < n ==> x[j] == y[j]
    {
      i := i - 1;
      SameHere(m, n, x, y, i);
    }
  }

  /** A zero pivot leaves a non-zero direction along which every equation keeps its value. */
  lemma KernelVector(m: Matrix, n: nat, k: nat) returns (h: Row)
    requires Upper(m, n) && k < n && m[k][k] == 0.0 && forall i :: 0 <= i < k ==> m[i][i] != 0.0
    ensures |h| == n && h[k] == 1.0 && forall r :: 0 <= r < n ==> RangeDot(m[r], h, 0, n) == 0.0
  {
    h := seq(n, i => if i == k then 1.0 else 0.0);
    forall r | k <= r < n ensures RangeDot(m[r], h, r, n) == 0.0 {
      RangeZero(m[r], h, r, n);
    }
    var i := k;
    while i > 0
      invariant 0 <= i <= k && |h| == n && h[k] == 1.0
      invariant forall r :: i <= r < n ==> RangeDot(m[r], h, r, n) == 0.0
    {
      i := i - 1;
      var rest := RangeDot(m[i], h, i + 1, n);
      var before := h;
      h := h[i := -rest / m[i][i]];
      Divided(-rest, m[i][i]);
      RangeFirst(m[i], h, i, n);
      RangeSame(m[i], h, m[i], before, i + 1, n);
      forall r | i < r < n ensures RangeDot(m[r], h, r, n) == 0.0 {
        RangeSame(m[r], h, m[r], before, r, n);
      }
    }
    forall r | 0 <= r < n ensures RangeDot(m[r], h, 0, n) == 0.0 {
      RangeSplit(m[r], h, 0, r, n);
      RangeZero(m[r], h, 0, r);
    }
  }

  /** Exactly one vector solves the system. */
  ghost predicate HasUniqueSolution(m: Matrix, n: nat) {
    exists x :: IsUniqueSolution(m, n, x)
  }

  ghost predicate IsUniqueSolution(m: Matrix, n: nat, x: Row) {
    |x| == n && Solves(m, x) && forall y :: |y| == n && Solves(m, y) ==> y == x
  }

  lemma MoveAlong(m: Matrix, n: nat, x: Row, h: Row, y: Row)
    requires |m| == n && Rectangular(m, n + 1) && |x| == |h| == |y| == n && Solves(m, x)
    requires forall r :: 0 <= r < n ==> RangeDot(m[r], h, 0, n) == 0.0
    requires forall i :: 0 <= i < n ==> y[i] == h[i] * 1.0 + x[i]
    ensures Solves(m, y)
  {
    forall r | 0 <= r < n ensures Satisfies(m[r], y) {
      assert Satisfies(m[r], x);
      RangeCommutes(m[r], y, 0, n);
      RangeCommutes(m[r], h, 0, n);
      RangeCommutes(m[r], x, 0, n);
      RangeLinear(h, x, y, 1.0, m[r], 0, n);
    }
  }

  /** A triangular system has exactly one solution if and only if no pivot is zero. */
  lemma PivotsDecideUniqueness(m: Matrix, n: nat)
    requires Upper(m, n)
    ensures PivotsNonZero(m, n) <==> HasUniqueSolution(m, n)
  {
    if PivotsNonZero(m, n) {
      var x := Roots(m, n);
      forall y | |y| == n && Solves(m, y) ensures y == x { UpperIsUnique(m, n, x, y); }
      assert IsUniqueSolution(m, n, x);
    } else if HasUniqueSolution(m, n) {
      var x :| IsUniqueSolution(m, n, x);
      var k := FirstZeroPivot(m, n);
      var h := KernelVector(m, n, k);
      var y := seq(n, i requires 0 <= i < n => h[i] * 1.0 + x[i]);
      MoveAlong(m, n, x, h, y);
    }
  }

  lemma FirstZeroPivot(m: Matrix, n: nat) returns (k: nat)
    requires Upper(m, n) && !PivotsNonZero(m, n)
    ensures k < n && m[k][k] == 0.0 && forall i :: 0 <= i < k ==> m[i][i] != 0.0
  {
    k := 0;
    while m[k][k] != 0.0
      invariant k < n && forall i :: 0 <= i < k ==> m[i][i] != 0.0
      decreases n - k
    {
      k := k + 1;
      if k == n { assert PivotsNonZero(m, n); }
    }
  }

  ghost predicate ZeroRow(row: Row, cols: nat) {
    forall j :: 0 <= j < cols && j < |row| ==> row[j] == 0.0
  }

  /** Back substitution succeeds when every row with a zero pivot is all zero; its unknown is free. */
  lemma Roots(m: Matrix, n: nat) returns (x: Row)
    requires Upper(m, n) && forall r :: 0 <= r < n && m[r][r] == 0.0 ==> ZeroRow(m[r], n + 1)
    ensures |x| == n && Solves(m, x)
  {
    x := seq(n, _ => 0.0);
    var i := n;
    while i > 0
      invariant 0 <= i <= n == |x| && forall r :: i <= r < n ==> SolvesTail(m, n, x, r)
    {
      i := i - 1;
      var before, rest := x, RangeDot(m[i], x, i + 1, n);
      if m[i][i] == 0.0 {
        RangeZero(m[i], x, i, n);
      } else {
        var xi := (m[i][n] - rest) / m[i][i];
        x := x[i := xi];
        Divided(m[i][n] - rest, m[i][i]);
        TailSolved(m, i, before, n, xi);
        forall r | i < r < n ensures SolvesTail(m, n, x, r) {
          TailKept(m, r, before, n, i, xi);
        }
      }
    }
    UpperSolves(m, n, x);
  }
}
