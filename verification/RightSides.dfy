/**
  The status over every right side of a system as it is handed in. Elimination turns the right
  sides of a matrix into those of its echelon form, one for one, so over all of them the reports
  are true if and only if the non-zero rows of the echelon form are linearly independent.
 */
module RightSides {
  import opened Vectors
  import opened LinearSystem
  import opened SystemStatus
  import opened CountedRank

  // ---------------------------------------------------------------------------
  // What a step of the elimination does to the right side, and back

  ghost function Factor(m: Matrix, p: nat, i: nat): real
    requires p < i < |m| && p < |m[p]| && |m[p]| == |m[i]| && m[i][p] != 0.0
  {
    -1.0 * (m[p][p] / m[i][p])
  }

  ghost function Moved(m: Matrix, p: nat, i: nat, b: Row): (c: Row)
    requires p < i < |m| == |b| && p < |m[p]| && |m[p]| == |m[i]|
    ensures |c| == |b|
  {
    if m[i][p] == 0.0 then b
    else if m[p][p] == 0.0 then b[i := b[p]][p := b[i]]
    else b[i := b[i] * Factor(m, p, i) + b[p]]
  }

  lemma SameFactor(m: Matrix, w: Matrix, p: nat, i: nat)
    requires p < i < |m| == |w| && p < |m[p]| && |m[p]| == |m[i]| && p < |w[p]| && |w[p]| == |w[i]|
    requires m[i][p] == w[i][p] && m[p][p] == w[p][p] && m[i][p] != 0.0
    ensures Factor(m, p, i) == Factor(w, p, i)
  {
    SameQuotient(m[p][p], m[i][p], w[p][p], w[i][p]);
  }

  lemma SameQuotient(a: real, b: real, c: real, d: real)
    requires a == c && b == d && b != 0.0
    ensures a / b == c / d
  {
  }

  lemma CombinedRight(p: Row, q: Row, k: real, n: nat, bp: real, bq: real, v: real)
    requires |p| == |q| == n + 1 && v == bq * k + bp
    ensures Added(p[..n] + [bp], Scaled(q[..n] + [bq], k)) == Added(p, Scaled(q, k))[..n] + [v]
  {
    var p', q' := p[..n] + [bp], q[..n] + [bq];
    var l, r := Added(p', Scaled(q', k)), Added(p, Scaled(q, k))[..n] + [v];
    forall j | 0 <= j <= n ensures l[j] == r[j] {
      SameProduct(k, q'[j], if j < n then q[j] else bq);
    }
  }

  lemma MovedRight(m: Matrix, n: nat, p: nat, i: nat, b: Row)
    requires Rectangular(m, n + 1) && p < i < |m| == |b| && p < n
    ensures Wide(Eliminated(m, p, i), n) && |Eliminated(m, p, i)| == |m|
    ensures Eliminated(WithRight(m, n, b), p, i) == WithRight(Eliminated(m, p, i), n, Moved(m, p, i, b))
  {
    hide WithRight, Factor;
    var w, e, c := WithRight(m, n, b), Eliminated(m, p, i), Moved(m, p, i, b);
    assert w[i][p] == m[i][p] && w[p][p] == m[p][p];
    if m[i][p] != 0.0 && m[p][p] != 0.0 {
      SteppedRight(m, n, p, i, b);
    } else {
      assert Eliminated(w, p, i) == WithRight(e, n, c);
    }
  }

  lemma SteppedRight(m: Matrix, n: nat, p: nat, i: nat, b: Row)
    requires Rectangular(m, n + 1) && p < i < |m| == |b| && p < n && m[i][p] != 0.0 && m[p][p] != 0.0
    ensures Wide(Eliminated(m, p, i), n) && |Eliminated(m, p, i)| == |m|
    ensures Eliminated(WithRight(m, n, b), p, i) == WithRight(Eliminated(m, p, i), n, Moved(m, p, i, b))
  {
    var w, e, c, k := WithRight(m, n, b), Eliminated(m, p, i), Moved(m, p, i, b), Factor(m, p, i);
    assert w[i][p] == m[i][p] && w[p][p] == m[p][p];
    SameFactor(m, w, p, i);
    assert e == m[i := Added(m[p], Scaled(m[i], k))];
    assert Eliminated(w, p, i) == w[i := Added(w[p], Scaled(w[i], k))];
    hide WithRight, Factor, Eliminated, Scaled, Added;
    CombinedRight(m[p], m[i], k, n, b[p], b[i], c[i]);
    assert WithRight(e, n, c) == w[i := e[i][..n] + [c[i]]];
  }

  /** Every right side is reached by a step. */
  lemma MovedBack(m: Matrix, p: nat, i: nat, c: Row) returns (b: Row)
    requires p < i < |m| == |c| && p < |m[p]| && |m[p]| == |m[i]|
    ensures |b| == |c| && Moved(m, p, i, b) == c
  {
    if m[i][p] == 0.0 {
      b := c;
    } else if m[p][p] == 0.0 {
      b := c[i := c[p]][p := c[i]];
    } else {
      var k := Factor(m, p, i);
      Divided(m[p][p], m[i][p]);
      b := c[i := (c[i] - c[p]) / k];
      Divided(c[i] - c[p], k);
      SameProduct(k, b[i], (c[i] - c[p]) / k);
      assert b[i] * k == k * b[i];
    }
  }

  // ---------------------------------------------------------------------------
  // The whole elimination

  lemma {:induction false} PassRight(m: Matrix, n: nat, p: nat, i: nat, b: Row) returns (c: Row)
    requires Rectangular(m, n + 1) && p < n && p < i <= |m| == |b|
    ensures |c| == |m| && Pass(WithRight(m, n, b), p, i, n + 1) == WithRight(Pass(m, p, i, n + 1), n, c)
  {
    hide Eliminated, Moved;
    if i == p + 1 {
      c := b;
    } else {
      var c1 := PassRight(m, n, p, i - 1, b);
      var e := Pass(m, p, i - 1, n + 1);
      c := Moved(e, p, i - 1, c1);
      MovedRight(e, n, p, i - 1, c1);
    }
  }

  lemma {:induction false} PassBack(m: Matrix, n: nat, p: nat, i: nat, c: Row) returns (b: Row)
    requires Rectangular(m, n + 1) && p < n && p < i <= |m| == |c|
    ensures |b| == |m| && Pass(WithRight(m, n, b), p, i, n + 1) == WithRight(Pass(m, p, i, n + 1), n, c)
  {
    hide Eliminated, Moved;
    if i == p + 1 {
      b := c;
    } else {
      var e := Pass(m, p, i - 1, n + 1);
      var c1 := MovedBack(e, p, i - 1, c);
      b := PassBack(m, n, p, i - 1, c1);
      MovedRight(e, n, p, i - 1, c1);
    }
  }

  lemma {:induction false} EchelonRight(m: Matrix, n: nat, k: nat, b: Row) returns (c: Row)
    requires Rectangular(m, n + 1) && k <= n && k <= |m| == |b|
    ensures |c| == |m| && Echelon(WithRight(m, n, b), k, n + 1) == WithRight(Echelon(m, k, n + 1), n, c)
  {
    hide Pass;
    if k == 0 {
      c := b;
    } else {
      var c1 := EchelonRight(m, n, k - 1, b);
      c := PassRight(Echelon(m, k - 1, n + 1), n, k - 1, |m|, c1);
    }
  }

  lemma {:induction false} EchelonBack(m: Matrix, n: nat, k: nat, c: Row) returns (b: Row)
    requires Rectangular(m, n + 1) && k <= n && k <= |m| == |c|
    ensures |b| == |m| && Echelon(WithRight(m, n, b), k, n + 1) == WithRight(Echelon(m, k, n + 1), n, c)
  {
    hide Pass;
    if k == 0 {
      b := c;
    } else {
      var c1 := PassBack(Echelon(m, k - 1, n + 1), n, k - 1, |m|, c);
      b := EchelonBack(m, n, k - 1, c1);
    }
  }

  // ---------------------------------------------------------------------------
  // The theorem

  /** What the method reports of the system with right side b is the truth about that system. */
  ghost predicate ReportedTruly(m: Matrix, n: nat, b: Row)
    requires Rectangular(m, n + 1) && |m| == n == |b| && 0 < n
  {
    var w := WithRight(m, n, b);
    Truthful(StatusOf(Echelon(w, n - 1, n + 1), n), w, n)
  }

  lemma ReportedIff(m: Matrix, n: nat, b: Row, c: Row)
    requires Rectangular(m, n + 1) && |m| == n == |b| == |c| && 0 < n
    requires Echelon(WithRight(m, n, b), n - 1, n + 1) == WithRight(Echelon(m, n - 1, n + 1), n, c)
    ensures ReportedTruly(m, n, b) <==> TruthfulAt(Echelon(m, n - 1, n + 1), n, c)
  {
    hide Echelon, Truthful, StatusOf, Solves;
    var w := WithRight(m, n, b);
    EchelonSolves(w, n - 1, n + 1);
    SameSolutions(Echelon(w, n - 1, n + 1), w, n);
  }

  /** Whatever the right side, the report is true iff the non-zero rows of the echelon form are independent. */
  lemma ReportsTrueIffIndependent(m: Matrix, n: nat)
    requires Rectangular(m, n + 1) && |m| == n && 0 < n
    ensures var u := Echelon(m, n - 1, n + 1);
      (forall b: Row :: |b| == n ==> ReportedTruly(m, n, b)) <==> Independent(u, n, Live(u, n))
  {
    hide Echelon, ReportedTruly, TruthfulAt, Independent;
    var u := Echelon(m, n - 1, n + 1);
    EchelonIsUpper(m, n);
    StatusesTrueIffIndependent(u, n);
    if AlwaysTruthful(u, n) {
      forall b: Row | |b| == n ensures ReportedTruly(m, n, b) {
        var c := EchelonRight(m, n, n - 1, b);
        ReportedIff(m, n, b, c);
      }
    } else {
      var c: Row :| |c| == n && !TruthfulAt(u, n, c);
      var b := EchelonBack(m, n, n - 1, c);
      ReportedIff(m, n, b, c);
    }
  }
}
