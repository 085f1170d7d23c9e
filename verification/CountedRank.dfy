/**
  Exactly when the counted rank serves: over every right side, the status read off an eliminated
  matrix is the truth if and only if its non-zero rows are linearly independent.
 */
module CountedRank {
  import opened Vectors
  import opened LinearSystem
  import opened SystemStatus

  ghost predicate Wide(m: Matrix, n: nat) { forall r :: 0 <= r < |m| ==> n <= |m[r]| }

  /** Entry j of the combination of the first k rows with factors y. */
  ghost function Comb(y: Row, m: Matrix, j: nat, k: nat): real
    requires k <= |y| && k <= |m| && forall r :: 0 <= r < k ==> j < |m[r]|
  {
    if k == 0 then 0.0 else Comb(y, m, j, k - 1) + y[k - 1] * m[k - 1][j]
  }

  ghost predicate Masked(y: Row, live: seq<bool>) {
    |y| == |live| && forall r :: 0 <= r < |y| && !live[r] ==> y[r] == 0.0
  }

  ghost predicate Vanishes(y: Row, m: Matrix, n: nat)
    requires Wide(m, n) && |y| == |m|
  {
    forall j: nat :: j < n ==> Comb(y, m, j, |m|) == 0.0
  }

  ghost predicate AllZero(y: Row) { forall r :: 0 <= r < |y| ==> y[r] == 0.0 }

  /** No combination of the live rows vanishes but the empty one. */
  ghost predicate Independent(m: Matrix, n: nat, live: seq<bool>)
    requires Wide(m, n) && |live| == |m|
  {
    forall y: Row :: |y| == |m| && Masked(y, live) && Vanishes(y, m, n) ==> AllZero(y)
  }

  // ---------------------------------------------------------------------------
  // Combinations

  lemma {:induction false} CombSame(y: Row, m: Matrix, y': Row, m': Matrix, j: nat, k: nat)
    requires k <= |y| && k <= |m| && k <= |y'| && k <= |m'|
    requires forall r :: 0 <= r < k ==> y[r] == y'[r] && m[r] == m'[r] && j < |m[r]|
    ensures Comb(y, m, j, k) == Comb(y', m', j, k)
  {
    if k > 0 { CombSame(y, m, y', m', j, k - 1); }
  }

  lemma {:induction false} CombZero(y: Row, m: Matrix, j: nat, k: nat)
    requires k <= |y| && k <= |m| && forall r :: 0 <= r < k ==> y[r] == 0.0 && j < |m[r]|
    ensures Comb(y, m, j, k) == 0.0
  {
    if k > 0 { CombZero(y, m, j, k - 1); }
  }

  /** Subtracting multiples of a row with entry e subtracts their combined multiple t of e from the combination. */
  lemma {:induction false} CombReduced(y: Row, m: Matrix, m': Matrix, ks: Row, j: nat, k: nat, t: real, e: real)
    requires k <= |y| && k <= |m| && k <= |m'| && k <= |ks| && t == RangeDot(y, ks, 0, k)
    requires forall r :: 0 <= r < k ==> j < |m[r]| && j < |m'[r]| && m'[r][j] == e * -ks[r] + m[r][j]
    ensures Comb(y, m', j, k) == Comb(y, m, j, k) - t * e
  {
    if k > 0 {
      var before := RangeDot(y, ks, 0, k - 1);
      CombReduced(y, m, m', ks, j, k - 1, before, e);
      Spread(y[k - 1], ks[k - 1], e, before, m[k - 1][j], m'[k - 1][j], t);
    }
  }

  lemma Spread(a: real, b: real, e: real, d: real, f: real, g: real, t: real)
    requires g == e * -b + f && t == d + a * b
    ensures a * g == a * f - t * e + d * e
  {
  }

  /** A combination of the rows, applied to x, combines their values at x. */
  lemma {:induction false} CombApplied(y: Row, m: Matrix, n: nat, x: Row, c: Row, v: Row, k: nat)
    requires Wide(m, n) && |y| == |m| && |x| == |c| == n && k <= |m| == |v|
    requires forall j: nat :: j < n ==> c[j] == Comb(y, m, j, k)
    requires forall r :: 0 <= r < k ==> v[r] == RangeDot(m[r], x, 0, n)
    ensures RangeDot(c, x, 0, n) == RangeDot(y, v, 0, k)
    decreases k
  {
    hide RangeDot, SumOf;
    if k == 0 {
      RangeZero(c, x, 0, n);
      RangeZero(y, v, 0, 0);
    } else {
      var before := seq(n, j requires 0 <= j < n => Comb(y, m, j, k - 1));
      CombApplied(y, m, n, x, before, v, k - 1);
      var f, g := y[k - 1], v[k - 1];
      CombStep(y, m, n, before, c, k, f);
      LinearAt(m[k - 1], before, c, f, x, n, g);
      DotStep(y, v, k, f, g);
    }
  }

  lemma DotStep(y: Row, v: Row, k: nat, f: real, g: real)
    requires 0 < k <= |y| && k <= |v| && f == y[k - 1] && g == v[k - 1]
    ensures RangeDot(y, v, 0, k) == RangeDot(y, v, 0, k - 1) + f * g
  {
  }

  lemma CombStep(y: Row, m: Matrix, n: nat, before: Row, c: Row, k: nat, f: real)
    requires Wide(m, n) && |y| == |m| && |before| == |c| == n && 0 < k <= |m| && f == y[k - 1]
    requires forall j: nat :: j < n ==> c[j] == Comb(y, m, j, k) && before[j] == Comb(y, m, j, k - 1)
    ensures SumOf(c, m[k - 1], f, before, n)
  {
  }

  // ---------------------------------------------------------------------------
  // Independent rows can take any values

  /** A live last row of independent rows is not zero. */
  lemma LastIsNotZero(m: Matrix, n: nat, live: seq<bool>)
    requires m != [] && Wide(m, n) && |live| == |m| && Independent(m, n, live) && live[|m| - 1]
    ensures !ZeroRow(m[|m| - 1], n)
  {
    if ZeroRow(m[|m| - 1], n) {
      var k := |m| - 1;
      var y := seq(|m|, r => if r == k then 1.0 else 0.0);
      forall j: nat | j < n ensures Comb(y, m, j, |m|) == 0.0 {
        CombZero(y, m, j, k);
      }
      assert Masked(y, live) && Vanishes(y, m, n) && !AllZero(y) by { assert y[k] == 1.0; }
    }
  }

  /** The rows before a dead last row are independent. */
  lemma DropDead(m: Matrix, n: nat, live: seq<bool>)
    requires m != [] && Wide(m, n) && |live| == |m| && Independent(m, n, live) && !live[|m| - 1]
    ensures Independent(m[..|m| - 1], n, live[..|m| - 1])
  {
    var k := |m| - 1;
    var m', live' := m[..k], live[..k];
    forall y: Row | |y| == k && Masked(y, live') && Vanishes(y, m', n) ensures AllZero(y) {
      var z := y + [0.0];
      forall j: nat | j < n ensures Comb(z, m, j, |m|) == 0.0 {
        CombSame(z, m, y, m', j, k);
        assert Comb(y, m', j, |m'|) == 0.0;
      }
      assert Masked(z, live) && Vanishes(z, m, n);
      assert forall r :: 0 <= r < k ==> z[r] == y[r];
    }
  }

  /** Reducing the rows before a live last row by it leaves them independent. */
  lemma ReduceByLast(m: Matrix, n: nat, live: seq<bool>, ks: Row, m': Matrix)
    requires m != [] && Wide(m, n) && |live| == |m| && Independent(m, n, live) && live[|m| - 1]
    requires |ks| == |m'| == |m| - 1 && Wide(m', n)
    requires forall r :: 0 <= r < |m'| ==> m'[r] == Reduced(m[r], m[|m| - 1], ks[r], n)
    ensures Independent(m', n, live[..|m| - 1])
  {
    var k := |m| - 1;
    var live' := live[..k];
    forall y: Row | |y| == k && Masked(y, live') && Vanishes(y, m', n) ensures AllZero(y) {
      var t := RangeDot(y, ks, 0, k);
      var z := y + [-t];
      forall j: nat | j < n ensures Comb(z, m, j, |m|) == 0.0 {
        ReducedComb(m, n, ks, m', y, z, t, j);
      }
      assert Masked(z, live) && Vanishes(z, m, n);
      assert forall r :: 0 <= r < k ==> z[r] == y[r];
    }
  }

  lemma ReducedComb(m: Matrix, n: nat, ks: Row, m': Matrix, y: Row, z: Row, t: real, j: nat)
    requires m != [] && Wide(m, n) && |y| == |ks| == |m'| == |m| - 1 && Wide(m', n) && j < n
    requires forall r :: 0 <= r < |m'| ==> m'[r] == Reduced(m[r], m[|m| - 1], ks[r], n)
    requires t == RangeDot(y, ks, 0, |y|) && z == y + [-t] && Comb(y, m', j, |m'|) == 0.0
    ensures Comb(z, m, j, |m|) == 0.0
  {
    hide Reduced, Comb, RangeDot;
    var k, e := |m| - 1, m[|m| - 1][j];
    ReducedEntries(m, n, ks, m', j, e);
    CombReduced(y, m, m', ks, j, k, t, e);
    CombSame(z, m, y, m, j, k);
    var before, minus := Comb(y, m, j, k), -t;
    CombLast(z, m, j, before, minus, e);
    Cancelled(before, t, minus, e);
  }

  lemma Cancelled(a: real, t: real, minus: real, e: real)
    requires a - t * e == 0.0 && minus == -t
    ensures a + minus * e == 0.0
  {
    Negated(t, e);
  }

  lemma ReducedEntries(m: Matrix, n: nat, ks: Row, m': Matrix, j: nat, e: real)
    requires m != [] && Wide(m, n) && |ks| == |m'| == |m| - 1 && Wide(m', n) && j < n && e == m[|m| - 1][j]
    requires forall r :: 0 <= r < |m'| ==> m'[r] == Reduced(m[r], m[|m| - 1], ks[r], n)
    ensures forall r :: 0 <= r < |m'| ==> m'[r][j] == e * -ks[r] + m[r][j]
  {
  }

  lemma CombLast(y: Row, m: Matrix, j: nat, before: real, last: real, e: real)
    requires m != [] && |y| == |m| && forall r :: 0 <= r < |m| ==> j < |m[r]|
    requires before == Comb(y, m, j, |m| - 1) && last == y[|m| - 1] && e == m[|m| - 1][j]
    ensures Comb(y, m, j, |m|) == before + last * e
  {
  }

  /** The value of a row at x, from that of its reduced form, once x is fixed up in column c. */
  lemma FixUp(row: Row, q: Row, k: real, c: nat, n: nat, x: Row, x': Row, v: real, w: real)
    requires c < n <= |row| && n <= |q| && q[c] * k == row[c] && |x| == |x'| == n
    requires forall j :: 0 <= j < n && j != c ==> x'[j] == x[j]
    requires RangeDot(Reduced(row, q, k, n), x, 0, n) == v - k * w && RangeDot(q, x', 0, n) == w
    ensures RangeDot(row, x', 0, n) == v
  {
    hide RangeDot, Reduced;
    var red := Reduced(row, q, k, n);
    ReducedVanishes(row, q, k, c, n);
    IgnoresColumn(red, x, x', c, n);
    ReducedValue(row, q, k, n, x', w);
  }

  lemma ReducedVanishes(row: Row, q: Row, k: real, c: nat, n: nat)
    requires c < n <= |row| && n <= |q| && q[c] * k == row[c]
    ensures Reduced(row, q, k, n)[c] == 0.0
  {
    Negated(k, q[c]);
  }

  lemma IgnoresColumn(red: Row, x: Row, x': Row, c: nat, n: nat)
    requires |red| == |x| == |x'| == n && c < n && red[c] == 0.0
    requires forall j :: 0 <= j < n && j != c ==> x'[j] == x[j]
    ensures RangeDot(red, x', 0, n) == RangeDot(red, x, 0, n)
  {
    RangeSplit(red, x, 0, c, n);
    RangeSplit(red, x', 0, c, n);
    RangeFirst(red, x, c, n);
    RangeFirst(red, x', c, n);
    RangeSame(red, x, red, x', 0, c);
    RangeSame(red, x, red, x', c + 1, n);
  }

  /** x changed in column c so that row q takes the value w. */
  lemma Adjusted(q: Row, c: nat, n: nat, x: Row, w: real) returns (x': Row)
    requires c < n <= |q| && q[c] != 0.0 && |x| == n
    ensures |x'| == n && (forall j :: 0 <= j < n && j != c ==> x'[j] == x[j]) && RangeDot(q, x', 0, n) == w
  {
    var rest := RangeDot(q, x, 0, c) + RangeDot(q, x, c + 1, n);
    x' := x[c := (w - rest) / q[c]];
    Divided(w - rest, q[c]);
    RangeSplit(q, x', 0, c, n);
    RangeFirst(q, x', c, n);
    RangeSame(q, x, q, x', 0, c);
    RangeSame(q, x, q, x', c + 1, n);
  }

  /** The rows before a live last row q, reduced by it to vanish in column c. */
  ghost predicate ReducesTo(m: Matrix, n: nat, c: nat, ks: Row, m': Matrix)
    requires m != [] && Wide(m, n) && c < n
  {
    var q := m[|m| - 1];
    && |ks| == |m'| == |m| - 1 && Wide(m', n)
    && forall r :: 0 <= r < |m'| ==> m'[r] == Reduced(m[r], q, ks[r], n) && q[c] * ks[r] == m[r][c]
  }

  lemma Reduce(m: Matrix, n: nat, c: nat) returns (ks: Row, m': Matrix)
    requires m != [] && Wide(m, n) && c < n && m[|m| - 1][c] != 0.0
    ensures ReducesTo(m, n, c, ks, m')
  {
    var k, q := |m| - 1, m[|m| - 1];
    ks := seq(k, r requires 0 <= r < k => m[r][c] / q[c]);
    m' := seq(k, r requires 0 <= r < k => Reduced(m[r], q, ks[r], n));
    forall r | 0 <= r < k ensures q[c] * ks[r] == m[r][c] {
      Divided(m[r][c], q[c]);
    }
  }

  /** A solution for the reduced rows, fixed up in column c, is one for all. */
  lemma Restore(m: Matrix, n: nat, live: seq<bool>, b: Row, c: nat, ks: Row, m': Matrix, b': Row, x0: Row) returns (x: Row)
    requires m != [] && Wide(m, n) && c < n && |live| == |m| == |b| && ReducesTo(m, n, c, ks, m') && m[|m| - 1][c] != 0.0
    requires |b'| == |m'| && forall r :: 0 <= r < |m'| ==> b'[r] == b[r] - ks[r] * b[|m| - 1]
    requires |x0| == n && forall r :: 0 <= r < |m'| && live[r] ==> RangeDot(m'[r], x0, 0, n) == b'[r]
    ensures |x| == n && forall r :: 0 <= r < |m| && live[r] ==> RangeDot(m[r], x, 0, n) == b[r]
  {
    hide Reduced;
    var k, q := |m| - 1, m[|m| - 1];
    x := Adjusted(q, c, n, x0, b[k]);
    forall r | 0 <= r < k && live[r] ensures RangeDot(m[r], x, 0, n) == b[r] {
      FixUp(m[r], q, ks[r], c, n, x0, x, b[r], b[k]);
    }
  }

  lemma {:induction false} IndependentRowsTakeAnyValues(m: Matrix, n: nat, live: seq<bool>, b: Row) returns (x: Row)
    requires Wide(m, n) && |live| == |m| == |b| && Independent(m, n, live)
    ensures |x| == n && forall r :: 0 <= r < |m| && live[r] ==> RangeDot(m[r], x, 0, n) == b[r]
    decreases |m|
  {
    hide Independent, RangeDot;
    if m == [] {
      x := seq(n, _ => 0.0);
    } else {
      var k := |m| - 1;
      if !live[k] {
        DropDead(m, n, live);
        x := IndependentRowsTakeAnyValues(m[..k], n, live[..k], b[..k]);
      } else {
        LastIsNotZero(m, n, live);
        var c: nat :| c < n && m[k][c] != 0.0;
        var ks, m' := Reduce(m, n, c);
        var b' := seq(k, r requires 0 <= r < k => b[r] - ks[r] * b[k]);
        ReduceByLast(m, n, live, ks, m');
        var x0 := IndependentRowsTakeAnyValues(m', n, live[..k], b');
        assert forall r :: 0 <= r < k && live[r] ==> live[..k][r];
        x := Restore(m, n, live, b, c, ks, m', b', x0);
      }
    }
  }

  // ---------------------------------------------------------------------------
  // A zero pivot makes the rows dependent

  lemma {:induction false} CombRest(y: Row, m: Matrix, j: nat, lo: nat, hi: nat)
    requires lo <= hi <= |y| && hi <= |m| && forall r :: 0 <= r < hi ==> j < |m[r]|
    requires forall r :: lo <= r < hi ==> y[r] == 0.0 || m[r][j] == 0.0
    ensures Comb(y, m, j, hi) == Comb(y, m, j, lo)
  {
    if lo < hi { CombRest(y, m, j, lo, hi - 1); }
  }

  /** The rows down to the diagonal already cancel in column c. */
  ghost predicate Cancels(y: Row, m: Matrix, c: nat)
    requires c < |y| && c < |m| && forall r :: 0 <= r <= c ==> c < |m[r]|
  {
    Comb(y, m, c, c + 1) == 0.0
  }

  lemma CombFixed(y: Row, m: Matrix, i: nat, e: real, before: real, v: real)
    requires i < |y| && i < |m| && (forall r :: 0 <= r <= i ==> i < |m[r]|) && e == m[i][i] && e != 0.0
    requires before == Comb(y, m, i, i) && v == -before / e
    ensures Cancels(y[i := v], m, i)
  {
    var z := y[i := v];
    CombSame(z, m, y, m, i, i);
    Divided(-before, e);
    assert v * e == e * v;
  }

  /** From the last zero pivot on, each row is needed to cancel its column, and all columns cancel. */
  lemma RowKernel(m: Matrix, n: nat, k: nat) returns (y: Row)
    requires Upper(m, n) && k < n && m[k][k] == 0.0 && forall i :: k < i < n ==> m[i][i] != 0.0
    ensures |y| == n && y[k] == 1.0 && Vanishes(y, m, n)
  {
    hide Comb;
    y := seq(n, r => if r == k then 1.0 else 0.0);
    var i := k + 1;
    while i < n
      invariant k < i <= n == |y| && y[k] == 1.0 && forall r :: 0 <= r < k ==> y[r] == 0.0
      invariant forall c: nat :: k < c < i ==> Cancels(y, m, c)
    {
      var before := Comb(y, m, i, i);
      var z := y[i := -before / m[i][i]];
      CombFixed(y, m, i, m[i][i], before, z[i]);
      forall c: nat | k < c < i ensures Cancels(z, m, c) {
        assert Cancels(y, m, c);
        CombSame(z, m, y, m, c, c + 1);
      }
      y, i := z, i + 1;
    }
    forall c: nat | c < n ensures Comb(y, m, c, n) == 0.0 {
      if c <= k {
        CombRest(y, m, c, 0, n);
        CombZero(y, m, c, 0);
      } else {
        assert Cancels(y, m, c);
        CombRest(y, m, c, c + 1, n);
      }
    }
  }

  lemma LastZeroPivot(m: Matrix, n: nat) returns (k: nat)
    requires Upper(m, n) && !PivotsNonZero(m, n)
    ensures k < n && m[k][k] == 0.0 && forall i :: k < i < n ==> m[i][i] != 0.0
  {
    var j: nat :| j < n && m[j][j] == 0.0;
    k := n - 1;
    while m[k][k] != 0.0
      invariant j <= k < n && forall i :: k < i < n ==> m[i][i] != 0.0
      decreases k
    {
      k := k - 1;
    }
  }

  // ---------------------------------------------------------------------------
  // The theorem

  ghost function Live(m: Matrix, n: nat): (live: seq<bool>)
    ensures |live| == |m| && forall r :: 0 <= r < |m| ==> live[r] == !ZeroRow(m[r], n)
  {
    seq(|m|, r requires 0 <= r < |m| => !ZeroRow(m[r], n))
  }

  /** The same coefficients with right side b. */
  ghost function WithRight(m: Matrix, n: nat, b: Row): (w: Matrix)
    requires Wide(m, n) && |b| == |m|
    ensures |w| == |m| && forall r :: 0 <= r < |m| ==> w[r] == m[r][..n] + [b[r]]
  {
    seq(|m|, r requires 0 <= r < |m| => m[r][..n] + [b[r]])
  }

  lemma WithRightIs(m: Matrix, n: nat, b: Row)
    requires Upper(m, n) && |b| == n
    ensures var w := WithRight(m, n, b);
      && Upper(w, n) && Live(w, n) == Live(m, n)
      && (PivotsNonZero(w, n) <==> PivotsNonZero(m, n)) && (HasZeroRow(w, n) <==> HasZeroRow(m, n))
      && forall r :: 0 <= r < n ==> w[r][n] == b[r] && (ZeroRow(w[r], n + 1) <==> ZeroRow(m[r], n) && b[r] == 0.0)
  {
    var w := WithRight(m, n, b);
    forall r | 0 <= r < n ensures ZeroRow(w[r], n) <==> ZeroRow(m[r], n) {
      assert forall j :: 0 <= j < n ==> w[r][j] == m[r][j];
    }
    assert forall r :: 0 <= r < n ==> w[r][r] == m[r][r];
  }

  lemma RightValue(m: Matrix, n: nat, b: Row, x: Row, r: nat)
    requires Upper(m, n) && |b| == |x| == n && r < n
    ensures Satisfies(WithRight(m, n, b)[r], x) <==> RangeDot(m[r], x, 0, n) == b[r]
  {
    RangeSame(WithRight(m, n, b)[r], x, m[r], x, 0, n);
  }

  /** Whatever the right side, the status read off the eliminated coefficients is the truth. */
  ghost predicate AlwaysTruthful(m: Matrix, n: nat)
    requires Wide(m, n) && |m| == n
  {
    forall b: Row :: |b| == n ==> TruthfulAt(m, n, b)
  }

  ghost predicate TruthfulAt(m: Matrix, n: nat, b: Row)
    requires Wide(m, n) && |m| == n == |b|
  {
    Truthful(StatusOf(WithRight(m, n, b), n), WithRight(m, n, b), n)
  }

  lemma IndependentTellsTruth(m: Matrix, n: nat, b: Row)
    requires Upper(m, n) && |b| == n && Independent(m, n, Live(m, n))
    ensures TruthfulAt(m, n, b)
  {
    hide Truthful, StatusOf, Independent;
    var w := WithRight(m, n, b);
    WithRightIs(m, n, b);
    StatusMeans(w, n);
    if HasContradiction(w, n) {
      NotConsistIsTrue(w, n);
    } else if HasZeroRow(w, n) {
      var x := IndependentSolves(m, n, b);
      InfIsTrueIff(w, n);
    } else {
      IndependentPivots(m, n);
      OneIsTrueIff(w, n);
    }
  }

  lemma IndependentSolves(m: Matrix, n: nat, b: Row) returns (x: Row)
    requires Upper(m, n) && |b| == n && Independent(m, n, Live(m, n)) && !HasContradiction(WithRight(m, n, b), n)
    ensures |x| == n && Solves(WithRight(m, n, b), x)
  {
    hide Independent, RangeDot;
    var w := WithRight(m, n, b);
    WithRightIs(m, n, b);
    x := IndependentRowsTakeAnyValues(m, n, Live(m, n), b);
    forall r | 0 <= r < n ensures Satisfies(w[r], x) {
      if !Live(m, n)[r] {
        assert !Contradictory(w, n, r);
        RangeZero(m[r], x, 0, n);
      }
      RightValue(m, n, b, x, r);
    }
  }

  lemma IndependentPivots(m: Matrix, n: nat)
    requires Upper(m, n) && Independent(m, n, Live(m, n)) && !HasZeroRow(m, n)
    ensures PivotsNonZero(m, n)
  {
    if !PivotsNonZero(m, n) {
      var k := LastZeroPivot(m, n);
      var y := RowKernel(m, n, k);
      assert Masked(y, Live(m, n));
    }
  }

  lemma DependentMisleads(m: Matrix, n: nat, y: Row, i: nat)
    requires Upper(m, n) && |y| == n && Masked(y, Live(m, n)) && Vanishes(y, m, n) && i < n && y[i] != 0.0
    ensures !AlwaysTruthful(m, n)
  {
    hide StatusOf;
    var b := seq(n, r => if r == i then 1.0 else 0.0);
    var w := WithRight(m, n, b);
    WithRightIs(m, n, b);
    StatusMeans(w, n);
    forall r: nat | r < n ensures !Contradictory(w, n, r) {
      assert r == i ==> Live(m, n)[r];
    }
    forall x | |x| == n ensures !Solves(w, x) {
      if Solves(w, x) { CombinationFails(m, n, y, i, b, x); }
    }
    assert !TruthfulAt(m, n, b);
  }

  /** Values that are zero but at i cannot satisfy a vanishing combination that needs row i. */
  lemma CombinationFails(m: Matrix, n: nat, y: Row, i: nat, b: Row, x: Row)
    requires Upper(m, n) && |y| == |x| == |b| == n && Vanishes(y, m, n) && i < n && y[i] != 0.0
    requires (forall r :: 0 <= r < n ==> b[r] == if r == i then 1.0 else 0.0)
    ensures !Solves(WithRight(m, n, b), x)
  {
    hide Comb, RangeDot;
    if Solves(WithRight(m, n, b), x) {
      forall r | 0 <= r < n ensures b[r] == RangeDot(m[r], x, 0, n) { RightValue(m, n, b, x, r); }
      var c := seq(n, _ => 0.0);
      CombApplied(y, m, n, x, c, b, n);
      RangeZero(c, x, 0, n);
      UnitDot(y, b, i, n);
    }
  }

  lemma UnitDot(y: Row, b: Row, i: nat, n: nat)
    requires |y| == |b| == n && i < n && forall r :: 0 <= r < n ==> b[r] == if r == i then 1.0 else 0.0
    ensures RangeDot(y, b, 0, n) == y[i]
  {
    RangeSplit(y, b, 0, i, n);
    RangeFirst(y, b, i, n);
    RangeZero(y, b, 0, i);
    RangeZero(y, b, i + 1, n);
  }

  /** Over all right sides the status is the truth iff the non-zero rows are linearly independent. */
  lemma StatusesTrueIffIndependent(m: Matrix, n: nat)
    requires Upper(m, n)
    ensures AlwaysTruthful(m, n) <==> Independent(m, n, Live(m, n))
  {
    hide TruthfulAt, Vanishes, Masked;
    if Independent(m, n, Live(m, n)) {
      forall b: Row | |b| == n ensures TruthfulAt(m, n, b) { IndependentTellsTruth(m, n, b); }
    } else {
      var y: Row :| |y| == n && Masked(y, Live(m, n)) && Vanishes(y, m, n) && !AllZero(y);
      var i: nat :| i < n && y[i] != 0.0;
      DependentMisleads(m, n, y, i);
    }
  }
}
