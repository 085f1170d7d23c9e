/**
  Gaussian elimination on normal equations. The entries are products of columns, and elimination
  keeps them so, for columns reduced by the pivots' columns: a zero pivot is then a zero column,
  which leaves nothing in its row, not even on the right side.
 */
module NormalElimination {
  import opened Vectors
  import opened LeastSquares
  import opened LinearSystem
  import opened Options
  import opened SystemStatus

  /** From row and column p on, row i holds ds[i] times the products of column i. */
  ghost predicate Gram(u: Matrix, p: nat, v: nat, len: nat, qs: Matrix, ds: Row) {
    && |u| == v == |ds| && Rectangular(u, v + 1) && |qs| == v + 1 && Rectangular(qs, len)
    && forall i: nat :: p <= i < v ==> GramRow(u[i], p, v, len, qs, ds[i], i)
  }

  ghost predicate GramRow(row: Row, p: nat, v: nat, len: nat, qs: Matrix, d: real, i: nat)
    requires |row| == v + 1 == |qs| && Rectangular(qs, len) && i < v
  {
    d != 0.0 && forall j: nat :: p <= j <= v ==> row[j] == d * RangeDot(qs[i], qs[j], 0, len)
  }

  // ---------------------------------------------------------------------------
  // Reducing the columns by the pivot's

  /** Column j less its share of column p, so that nothing of p is left in it. */
  ghost predicate ReducedColumn(q: Row, qp: Row, q': Row, t: real, g: real, len: nat)
    requires len <= |q| && len <= |qp|
  {
    q' == Reduced(q, qp, t, len) && t * g == RangeDot(q, qp, 0, len)
  }

  ghost predicate ReducedColumns(qs: Matrix, p: nat, v: nat, len: nat, g: real, ts: Row, qs': Matrix)
    requires |qs| == v + 1 && Rectangular(qs, len) && p <= v
  {
    && |qs'| == |ts| == v + 1 && Rectangular(qs', len)
    && forall j: nat :: p < j <= v ==> ReducedColumn(qs[j], qs[p], qs'[j], ts[j], g, len)
  }

  lemma ReduceColumns(qs: Matrix, p: nat, v: nat, len: nat, g: real) returns (ts: Row, qs': Matrix)
    requires |qs| == v + 1 && Rectangular(qs, len) && p <= v && g != 0.0
    ensures ReducedColumns(qs, p, v, len, g, ts, qs')
  {
    hide RangeDot, Reduced;
    ts := seq(v + 1, j requires 0 <= j <= v => RangeDot(qs[j], qs[p], 0, len) / g);
    qs' := seq(v + 1, j requires 0 <= j <= v => Reduced(qs[j], qs[p], ts[j], len));
    forall j: nat | p < j <= v ensures ReducedColumn(qs[j], qs[p], qs'[j], ts[j], g, len) {
      var d := RangeDot(qs[j], qs[p], 0, len);
      Divided(d, g);
      assert ts[j] * g == g * (d / g);
    }
  }

  lemma NoShareLeft(qj: Row, qp: Row, qj': Row, tj: real, g: real, len: nat)
    requires |qj| == |qp| == len && g == RangeDot(qp, qp, 0, len) && ReducedColumn(qj, qp, qj', tj, g, len)
    ensures RangeDot(qp, qj', 0, len) == 0.0
  {
    hide RangeDot, Reduced;
    RangeCommutes(qp, qj', 0, len);
    ReducedValue(qj, qp, tj, len, qp, g);
  }

  lemma ProductWithReduced(qi: Row, qj: Row, qp: Row, tj: real, gip: real, len: nat)
    requires |qi| == |qj| == |qp| == len && gip == RangeDot(qp, qi, 0, len)
    ensures RangeDot(qi, Reduced(qj, qp, tj, len), 0, len) == RangeDot(qi, qj, 0, len) - tj * gip
  {
    hide RangeDot, Reduced;
    RangeCommutes(qi, Reduced(qj, qp, tj, len), 0, len);
    ReducedValue(qj, qp, tj, len, qi, gip);
    RangeCommutes(qj, qi, 0, len);
  }

  /** Products of reduced columns: those of the columns less the shares of i and j in column p. */
  lemma ReducedProduct(qi: Row, qj: Row, qp: Row, qi': Row, qj': Row, ti: real, tj: real, g: real, gip: real, len: nat)
    requires |qi| == |qj| == |qp| == len && g == RangeDot(qp, qp, 0, len) && gip == RangeDot(qp, qi, 0, len)
    requires ReducedColumn(qi, qp, qi', ti, g, len) && ReducedColumn(qj, qp, qj', tj, g, len)
    ensures RangeDot(qi', qj', 0, len) == RangeDot(qi, qj, 0, len) - tj * gip
  {
    hide RangeDot, ReducedColumn;
    NoShareLeft(qj, qp, qj', tj, g, len);
    ShareOf(qi, qp, qi', ti, g, len);
    ShareOf(qj, qp, qj', tj, g, len);
    ReducedTimes(qi, qp, ti, qj', len);
    ProductWithReduced(qi, qj, qp, tj, gip, len);
  }

  lemma ShareOf(q: Row, qp: Row, q': Row, t: real, g: real, len: nat)
    requires |q| == |qp| == len && ReducedColumn(q, qp, q', t, g, len)
    ensures q' == Reduced(q, qp, t, len)
  {
  }

  lemma ReducedTimes(q: Row, qp: Row, t: real, x: Row, len: nat)
    requires |q| == |qp| == |x| == len && RangeDot(qp, x, 0, len) == 0.0
    ensures RangeDot(Reduced(q, qp, t, len), x, 0, len) == RangeDot(q, x, 0, len)
  {
    hide RangeDot, Reduced;
    ReducedValue(q, qp, t, len, x, 0.0);
  }

  // ---------------------------------------------------------------------------
  // One row

  lemma NewEntry(gij: real, gip: real, gpj: real, g: real, di: real, dp: real, k: real, s: real, tj: real, rij: real, rpj: real, r: real)
    requires s == k * di && s * gip == dp * g && tj * g == gpj
    requires rij == di * gij && rpj == dp * gpj && r == rij * -k + rpj
    ensures r == -s * (gij - tj * gip)
  {
    var x := s * gij;
    assert rij * -k == -x;
    assert rpj == tj * (s * gip);
    assert -s * (gij - tj * gip) == -x + s * (tj * gip);
    assert s * (tj * gip) == tj * (s * gip);
  }

  /** How row i becomes a row of the reduced columns when its column p is eliminated. */
  lemma RowKeepsGram(rp: Row, ri: Row, p: nat, i: nat, v: nat, len: nat, qs: Matrix, dp: real, di: real, g: real, ts: Row, qs': Matrix, r: Row)
    returns (d: real)
    requires p < i < v && |rp| == |ri| == |r| == v + 1 == |qs| && Rectangular(qs, len)
    requires GramRow(rp, p, v, len, qs, dp, p) && GramRow(ri, p, v, len, qs, di, i)
    requires g == RangeDot(qs[p], qs[p], 0, len) && g != 0.0 && ReducedColumns(qs, p, v, len, g, ts, qs')
    requires r == if ri[p] == 0.0 then ri else Added(rp, Scaled(ri, -1.0 * (rp[p] / ri[p])))
    ensures GramRow(r, p + 1, v, len, qs', d, i)
  {
    hide RangeDot;
    var gip := RangeDot(qs[p], qs[i], 0, len);
    RangeCommutes(qs[p], qs[i], 0, len);
    if ri[p] == 0.0 {
      d := di;
      ZeroProduct(di, RangeDot(qs[i], qs[p], 0, len));
      forall j: nat | p + 1 <= j <= v ensures r[j] == d * RangeDot(qs'[i], qs'[j], 0, len) {
        ReducedProduct(qs[i], qs[j], qs[p], qs'[i], qs'[j], ts[i], ts[j], g, 0.0, len);
      }
    } else {
      var k := rp[p] / ri[p];
      var s := k * di;
      d := -s;
      Divided(rp[p], ri[p]);
      PivotScales(rp[p], ri[p], k, s, di, dp, g, gip);
      forall j: nat | p + 1 <= j <= v ensures r[j] == d * RangeDot(qs'[i], qs'[j], 0, len) {
        NewEntryAt(rp, ri, p, i, v, len, qs, dp, di, g, gip, ts, qs', k, s, j, r[j]);
      }
    }
  }

  lemma PivotScales(rpp: real, rip: real, k: real, s: real, di: real, dp: real, g: real, gip: real)
    requires rip * k == rpp && s == k * di && rpp == dp * g && rip == di * gip && dp != 0.0 && g != 0.0
    ensures s * gip == dp * g && s != 0.0
  {
    assert s * gip == k * (di * gip);
    assert k * (di * gip) == k * rip;
    if s == 0.0 { ZeroProduct(dp, g); }
  }

  lemma NewEntryAt(rp: Row, ri: Row, p: nat, i: nat, v: nat, len: nat, qs: Matrix, dp: real, di: real, g: real, gip: real, ts: Row, qs': Matrix, k: real, s: real, j: nat, e: real)
    requires p < i < v && p < j <= v && |rp| == |ri| == v + 1 == |qs| && Rectangular(qs, len)
    requires GramRow(rp, p, v, len, qs, dp, p) && GramRow(ri, p, v, len, qs, di, i)
    requires g == RangeDot(qs[p], qs[p], 0, len) && gip == RangeDot(qs[p], qs[i], 0, len) && ReducedColumns(qs, p, v, len, g, ts, qs')
    requires s == k * di && s * gip == dp * g && e == ri[j] * -k + rp[j]
    ensures e == -s * RangeDot(qs'[i], qs'[j], 0, len)
  {
    hide RangeDot, Reduced;
    var gij, gpj := RangeDot(qs[i], qs[j], 0, len), RangeDot(qs[p], qs[j], 0, len);
    RangeCommutes(qs[p], qs[j], 0, len);
    ReducedProduct(qs[i], qs[j], qs[p], qs'[i], qs'[j], ts[i], ts[j], g, gip, len);
    EntryParts(ri, p, v, len, qs, di, i, j, gij);
    EntryParts(rp, p, v, len, qs, dp, p, j, gpj);
    NewEntry(gij, gip, gpj, g, di, dp, k, s, ts[j], ri[j], rp[j], e);
    var now := RangeDot(qs'[i], qs'[j], 0, len);
    SameProduct(-s, gij - ts[j] * gip, now);
  }

  lemma EntryParts(row: Row, p: nat, v: nat, len: nat, qs: Matrix, d: real, i: nat, j: nat, g: real)
    requires |row| == v + 1 == |qs| && Rectangular(qs, len) && i < v && p <= j <= v
    requires GramRow(row, p, v, len, qs, d, i) && g == RangeDot(qs[i], qs[j], 0, len)
    ensures row[j] == d * g
  {
  }

  // ---------------------------------------------------------------------------
  // One pass

  /** The rows below p and before i hold products of the new columns, the others are as they were. */
  ghost predicate Passed(u: Matrix, w: Matrix, p: nat, i: nat, v: nat, len: nat, qs': Matrix, ds': Row)
    requires |u| == |w| == v && Rectangular(u, v + 1) && Rectangular(w, v + 1) && |qs'| == v + 1 && Rectangular(qs', len) && |ds'| == v
  {
    && (forall r: nat :: p < r < i && r < v ==> GramRow(w[r], p + 1, v, len, qs', ds'[r], r))
    && (forall r: nat :: r < v && (r <= p || i <= r) ==> w[r] == u[r])
  }

  lemma PassStep(u: Matrix, w: Matrix, p: nat, i: nat, v: nat, len: nat, qs: Matrix, ds: Row, g: real, ts: Row, qs': Matrix, ds': Row)
    returns (ds'': Row)
    requires p < i < v && Gram(u, p, v, len, qs, ds) && ReducedColumns(qs, p, v, len, g, ts, qs') && |ds'| == v
    requires g == RangeDot(qs[p], qs[p], 0, len) && g != 0.0
    requires |w| == v && Rectangular(w, v + 1) && Passed(u, w, p, i, v, len, qs', ds')
    ensures var w' := Eliminated(w, p, i);
      |w'| == v && Rectangular(w', v + 1) && |ds''| == v && Passed(u, w', p, i + 1, v, len, qs', ds'')
  {
    hide RangeDot, GramRow, ReducedColumns;
    var w' := Eliminated(w, p, i);
    assert GramRow(u[p], p, v, len, qs, ds[p], p) && GramRow(u[i], p, v, len, qs, ds[i], i);
    assert w[p] == u[p] && w[i] == u[i];
    PivotEntry(u[p], p, v, len, qs, ds[p], g);
    EliminatedRows(w, p, i);
    assert w'[i] == if w[i][p] == 0.0 then w[i] else Added(w[p], Scaled(w[i], -1.0 * (w[p][p] / w[i][p])));
    var d := RowKeepsGram(u[p], u[i], p, i, v, len, qs, ds[p], ds[i], g, ts, qs', w'[i]);
    ds'' := ds'[i := d];
  }

  lemma PivotEntry(row: Row, p: nat, v: nat, len: nat, qs: Matrix, d: real, g: real)
    requires |row| == v + 1 == |qs| && Rectangular(qs, len) && p < v && GramRow(row, p, v, len, qs, d, p)
    requires g == RangeDot(qs[p], qs[p], 0, len)
    ensures row[p] == 0.0 <==> g == 0.0
  {
    hide RangeDot;
    EntryParts(row, p, v, len, qs, d, p, p, g);
    if row[p] == 0.0 { ZeroProduct(d, g); }
  }

  lemma {:induction false} PassKeepsGram(u: Matrix, p: nat, i: nat, v: nat, len: nat, qs: Matrix, ds: Row, g: real, ts: Row, qs': Matrix)
    returns (ds': Row)
    requires p < i <= v && Gram(u, p, v, len, qs, ds) && ReducedColumns(qs, p, v, len, g, ts, qs')
    requires g == RangeDot(qs[p], qs[p], 0, len) && g != 0.0
    ensures |ds'| == v && Passed(u, Pass(u, p, i, v + 1), p, i, v, len, qs', ds')
    decreases i
  {
    hide RangeDot, GramRow, ReducedColumns;
    if i == p + 1 {
      ds' := ds;
    } else {
      var before := PassKeepsGram(u, p, i - 1, v, len, qs, ds, g, ts, qs');
      ds' := PassStep(u, Pass(u, p, i - 1, v + 1), p, i - 1, v, len, qs, ds, g, ts, qs', before);
    }
  }

  /** A zero pivot is a zero column: the pass changes nothing, and the pivot's row is zero from p on. */
  lemma ZeroColumn(u: Matrix, p: nat, v: nat, len: nat, qs: Matrix, ds: Row)
    requires p < v && Gram(u, p, v, len, qs, ds) && RangeDot(qs[p], qs[p], 0, len) == 0.0
    ensures forall j: nat :: p <= j <= v ==> u[p][j] == 0.0
    ensures forall i: nat :: p <= i < v ==> u[i][p] == 0.0
  {
    SquareIsNonNegative(qs[p], 0, len);
    forall j: nat | p <= j <= v ensures u[p][j] == 0.0 {
      assert GramRow(u[p], p, v, len, qs, ds[p], p);
      RangeZero(qs[p], qs[j], 0, len);
      EntryParts(u[p], p, v, len, qs, ds[p], p, j, 0.0);
    }
    forall i: nat | p <= i < v ensures u[i][p] == 0.0 {
      assert GramRow(u[i], p, v, len, qs, ds[i], i);
      RangeZero(qs[i], qs[p], 0, len);
      EntryParts(u[i], p, v, len, qs, ds[i], i, p, 0.0);
    }
  }

  lemma {:induction false} IdlePass(u: Matrix, p: nat, i: nat, v: nat)
    requires |u| == v && Rectangular(u, v + 1) && p < i <= v && forall r: nat :: p < r < v ==> u[r][p] == 0.0
    ensures Pass(u, p, i, v + 1) == u
  {
    if i > p + 1 { IdlePass(u, p, i - 1, v); }
  }

  lemma NextColumns(u: Matrix, p: nat, v: nat, len: nat, qs: Matrix, ds: Row) returns (qs': Matrix, ds': Row)
    requires p < v && Gram(u, p, v, len, qs, ds)
    ensures Gram(Pass(u, p, v, v + 1), p + 1, v, len, qs', ds')
    ensures forall r: nat :: r <= p ==> Pass(u, p, v, v + 1)[r] == u[r]
    ensures CleanRow(u[p], p, v)
  {
    hide RangeDot;
    var g := RangeDot(qs[p], qs[p], 0, len);
    assert GramRow(u[p], p, v, len, qs, ds[p], p);
    PivotEntry(u[p], p, v, len, qs, ds[p], g);
    if g == 0.0 {
      ZeroColumn(u, p, v, len, qs, ds);
      IdlePass(u, p, v, v);
      qs', ds' := qs, ds;
      forall i: nat | p + 1 <= i < v ensures GramRow(u[i], p + 1, v, len, qs, ds[i], i) {
        assert GramRow(u[i], p, v, len, qs, ds[i], i);
      }
    } else {
      var ts;
      ts, qs' := ReduceColumns(qs, p, v, len, g);
      ds' := PassKeepsGram(u, p, v, v, len, qs, ds, g, ts, qs');
    }
  }

  // ---------------------------------------------------------------------------
  // The whole elimination

  /** Rows above p with a zero pivot are zero throughout. */
  ghost predicate CleanAbove(u: Matrix, p: nat, v: nat)
    requires |u| == v && Rectangular(u, v + 1) && p <= v
  {
    forall r: nat :: r < p ==> CleanRow(u[r], r, v)
  }

  ghost predicate CleanRow(row: Row, r: nat, v: nat)
    requires |row| == v + 1 && r < v
  {
    row[r] == 0.0 ==> forall j: nat :: r <= j <= v ==> row[j] == 0.0
  }

  lemma {:induction false} EchelonKeepsGram(c: Matrix, k: nat, v: nat, len: nat, qs0: Matrix, ds0: Row) returns (qs: Matrix, ds: Row)
    requires Gram(c, 0, v, len, qs0, ds0) && k <= v
    ensures Gram(Echelon(c, k, v + 1), k, v, len, qs, ds) && CleanAbove(Echelon(c, k, v + 1), k, v)
  {
    hide GramRow, Pass;
    if k == 0 {
      qs, ds := qs0, ds0;
    } else {
      var u := Echelon(c, k - 1, v + 1);
      var qs1, ds1 := EchelonKeepsGram(c, k - 1, v, len, qs0, ds0);
      qs, ds := NextColumns(u, k - 1, v, len, qs1, ds1);
      var w := Echelon(c, k, v + 1);
      forall r: nat | r < k ensures CleanRow(w[r], r, v) {
        assert w[r] == u[r];
      }
    }
  }

  lemma NormalIsGram(m: Matrix, v: nat, c: Matrix) returns (qs: Matrix, ds: Row)
    requires Normal(m, v, c)
    ensures Gram(c, 0, v, |m|, qs, ds)
  {
    hide RangeDot;
    qs := seq(v + 1, j requires 0 <= j <= v => Column(m, v + 1, j));
    ds := seq(v, _ => 1.0);
    forall i: nat | i < v ensures GramRow(c[i], 0, v, |m|, qs, ds[i], i) {
      forall j: nat | j <= v ensures c[i][j] == ds[i] * RangeDot(qs[i], qs[j], 0, |m|) {
        assert c[i][j] == Dot(Column(m, v + 1, i), Column(m, v + 1, j));
      }
    }
  }

  /** Eliminating normal equations leaves nothing in a row whose pivot is zero, so no contradiction either. */
  lemma NormalRowsVanish(m: Matrix, v: nat, c: Matrix, u: Matrix)
    requires Normal(m, v, c) && 0 < v && u == Echelon(c, v - 1, v + 1) && Upper(u, v)
    ensures forall r :: 0 <= r < v && u[r][r] == 0.0 ==> ZeroRow(u[r], v + 1)
  {
    hide GramRow, Pass, Echelon;
    var qs0, ds0 := NormalIsGram(m, v, c);
    var qs, ds := EchelonKeepsGram(c, v - 1, v, |m|, qs0, ds0);
    var qs1, ds1 := NextColumns(u, v - 1, v, |m|, qs, ds);
    forall r: nat | r < v && u[r][r] == 0.0 ensures ZeroRow(u[r], v + 1) {
      assert CleanRow(u[r], r, v);
    }
  }

  /** So the status of normal equations is always true, and never that they contradict each other. */
  lemma NormalStatus(m: Matrix, v: nat, c: Matrix, u: Matrix)
    requires Normal(m, v, c) && 0 < v && u == Echelon(c, v - 1, v + 1) && Upper(u, v)
    ensures ZeroPivotRowsVanish(u, v) && StatusOf(u, v) != NotConsist
  {
    hide Echelon, Normal, StatusOf;
    NormalRowsVanish(m, v, c, u);
    StatusMeans(u, v);
    forall r: nat | r < v && ZeroRow(u[r], v) ensures !Contradictory(u, v, r) {
      assert u[r][r] == 0.0;
    }
  }

  /** `solve`: the normal equations handed to Gaussian elimination. Without unknowns there are none, and it says so. */
  method Solve(m: Matrix, v: nat) returns (status: Status, solution: Option<Row>)
    requires m != [] && Rectangular(m, v + 1)
    ensures 0 < v ==> (status == ConsistAndOneSolution <==> exists x :: IsOnlyMinimiser(m, v, x))
    ensures 0 < v ==> (status == ConsistAndInfSolution <==> exists x, y :: x != y && Minimises(m, v, x) && Minimises(m, v, y))
    ensures status == NotConsist <==> v == 0
    ensures solution.Some? <==> status == ConsistAndOneSolution
    ensures solution.Some? ==> IsOnlyMinimiser(m, v, solution.value)
  {
    hide Normal, Echelon, Upper, StatusOf, Solves, IsUniqueSolution, Minimises;
    var coeff := BuildNormalEquations(m, v);
    NormalShape(m, v, coeff);
    var rows := new Row[v](i requires 0 <= i < v => coeff[i]);
    assert rows[..] == coeff;
    status, solution := GaussianMethod(rows, v);
    if v == 0 {
      return;
    }
    NormalStatus(m, v, coeff, rows[..]);
    StatusOfMinimisers(m, v, coeff, status);
    UniqueMinimiser(m, v, coeff);
  }

  lemma NormalShape(m: Matrix, v: nat, c: Matrix)
    requires Normal(m, v, c)
    ensures |c| == v && Rectangular(c, v + 1) && Rectangular(m, v + 1)
  {
  }

  /** A true status of the normal equations counts the minimisers. */
  lemma StatusOfMinimisers(m: Matrix, v: nat, c: Matrix, status: Status)
    requires Normal(m, v, c) && Truthful(status, c, v) && status != NotConsist
    ensures HasUniqueSolution(c, v) <==> exists x :: IsOnlyMinimiser(m, v, x)
    ensures status == ConsistAndOneSolution <==> exists x :: IsOnlyMinimiser(m, v, x)
    ensures status == ConsistAndInfSolution <==> exists x, y :: x != y && Minimises(m, v, x) && Minimises(m, v, y)
  {
    hide Normal, Solves;
    NormalShape(m, v, c);
    UniqueMinimiser(m, v, c);
    if HasUniqueSolution(c, v) {
      var x :| IsUniqueSolution(c, v, x);
      assert IsOnlyMinimiser(m, v, x);
    }
    if status == ConsistAndInfSolution {
      var x, y :| |x| == |y| == v && x != y && Solves(c, x) && Solves(c, y);
      MinimisesIffSolvesNormal(m, v, c, x);
      MinimisesIffSolvesNormal(m, v, c, y);
      assert !exists z :: IsOnlyMinimiser(m, v, z);
    }
  }
}
