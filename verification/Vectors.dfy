/** Sums of products over exact reals, and the matrix utilities built on them. */
module Vectors {

  type Row = seq<real>
  type Matrix = seq<Row>

  /** The sum of a[i] * b[i] for i from lo up to hi. */
  ghost function RangeDot(a: Row, b: Row, lo: nat, hi: nat): real
    requires lo <= hi <= |a| && hi <= |b|
  {
    if lo == hi then 0.0 else RangeDot(a, b, lo, hi - 1) + a[hi - 1] * b[hi - 1]
  }

  ghost function Dot(a: Row, b: Row): real
    requires |a| <= |b|
  {
    RangeDot(a, b, 0, |a|)
  }

  lemma {:induction false} RangeSplit(a: Row, b: Row, lo: nat, mid: nat, hi: nat)
    requires lo <= mid <= hi <= |a| && hi <= |b|
    ensures RangeDot(a, b, lo, hi) == RangeDot(a, b, lo, mid) + RangeDot(a, b, mid, hi)
  {
    if mid < hi { RangeSplit(a, b, lo, mid, hi - 1); }
  }

  lemma {:induction false} RangeZero(a: Row, b: Row, lo: nat, hi: nat)
    requires lo <= hi <= |a| && hi <= |b| && forall i :: lo <= i < hi ==> a[i] == 0.0 || b[i] == 0.0
    ensures RangeDot(a, b, lo, hi) == 0.0
  {
    if lo < hi { RangeZero(a, b, lo, hi - 1); }
  }

  lemma {:induction false} RangeSame(a: Row, b: Row, c: Row, d: Row, lo: nat, hi: nat)
    requires lo <= hi <= |a| && hi <= |b| && hi <= |c| && hi <= |d|
    requires forall i :: lo <= i < hi ==> a[i] == c[i] && b[i] == d[i]
    ensures RangeDot(a, b, lo, hi) == RangeDot(c, d, lo, hi)
  {
    if lo < hi { RangeSame(a, b, c, d, lo, hi - 1); }
  }

  lemma {:induction false} RangeCommutes(a: Row, b: Row, lo: nat, hi: nat)
    requires lo <= hi <= |a| && hi <= |b|
    ensures RangeDot(a, b, lo, hi) == RangeDot(b, a, lo, hi)
  {
    if lo < hi { RangeCommutes(a, b, lo, hi - 1); }
  }

  lemma Distribute(x: real, y: real, z: real, k: real)
    ensures (x * k + y) * z == k * (x * z) + y * z
  {
  }

  /** Linearity: if c is k * a + b, so are its sums of products. */
  lemma {:induction false} RangeLinear(a: Row, b: Row, c: Row, k: real, x: Row, lo: nat, hi: nat)
    requires lo <= hi <= |x| && hi <= |a| && hi <= |b| && hi <= |c|
    requires forall i :: lo <= i < hi ==> c[i] == a[i] * k + b[i]
    ensures RangeDot(c, x, lo, hi) == k * RangeDot(a, x, lo, hi) + RangeDot(b, x, lo, hi)
  {
    if lo < hi {
      RangeLinear(a, b, c, k, x, lo, hi - 1);
      Distribute(a[hi - 1], b[hi - 1], x[hi - 1], k);
    }
  }

  lemma Divided(a: real, b: real)
    requires b != 0.0
    ensures b * (a / b) == a && (a / b == 0.0 <==> a == 0.0)
  {
  }

  lemma SameProduct(a: real, x: real, y: real)
    requires x == y
    ensures a * x == a * y
  {
  }

  lemma Negated(a: real, b: real)
    ensures -a * b == -(a * b) && b * -a == -(a * b)
  {
  }

  /** Row c is k * a + b. */
  ghost predicate SumOf(c: Row, a: Row, k: real, b: Row, n: nat)
    requires n <= |a| && n <= |b| && n <= |c|
  {
    forall i :: 0 <= i < n ==> c[i] == a[i] * k + b[i]
  }

  lemma {:induction false} LinearAt(a: Row, b: Row, c: Row, k: real, x: Row, n: nat, v: real)
    requires n <= |x| && n <= |b| && n <= |c| && n <= |a| && v == RangeDot(a, x, 0, n) && SumOf(c, a, k, b, n)
    ensures RangeDot(c, x, 0, n) == k * v + RangeDot(b, x, 0, n)
  {
    if n > 0 {
      var before := RangeDot(a, x, 0, n - 1);
      LinearAt(a, b, c, k, x, n - 1, before);
      LinearStep(a[n - 1], b[n - 1], c[n - 1], k, x[n - 1], before, v);
    }
  }

  lemma LinearStep(a: real, b: real, c: real, k: real, x: real, before: real, v: real)
    requires c == a * k + b && v == before + a * x
    ensures c * x + k * before == k * v + b * x
  {
  }

  /** Row minus k times q. */
  ghost function Reduced(row: Row, q: Row, k: real, n: nat): (r: Row)
    requires n <= |row| && n <= |q|
    ensures |r| == n
  {
    seq(n, j requires 0 <= j < n => q[j] * -k + row[j])
  }

  lemma ReducedValue(row: Row, q: Row, k: real, n: nat, x: Row, v: real)
    requires n <= |row| && n <= |q| && |x| == n && v == RangeDot(q, x, 0, n)
    ensures RangeDot(Reduced(row, q, k, n), x, 0, n) == RangeDot(row, x, 0, n) - k * v
  {
    hide RangeDot;
    LinearAt(q, row, Reduced(row, q, k, n), -k, x, n, v);
    Negated(k, v);
  }

  lemma ZeroProduct(x: real, y: real)
    requires x * y == 0.0
    ensures x == 0.0 || y == 0.0
  {
    if y != 0.0 { assert x == (x * y) / y; }
  }

  lemma Square(z: real)
    ensures z * z >= 0.0 && (z * z == 0.0 ==> z == 0.0)
  {
    if z * z == 0.0 { ZeroProduct(z, z); }
  }

  lemma {:induction false} SquareIsNonNegative(a: Row, lo: nat, hi: nat)
    requires lo <= hi <= |a|
    ensures RangeDot(a, a, lo, hi) >= 0.0
    ensures RangeDot(a, a, lo, hi) == 0.0 ==> forall i :: lo <= i < hi ==> a[i] == 0.0
  {
    if lo < hi {
      SquareIsNonNegative(a, lo, hi - 1);
      Square(a[hi - 1]);
    }
  }

  // ---------------------------------------------------------------------------
  // matrix_utils

  /** `get_limit` and `is_zero_limit` with a tolerance of zero. */
  function Limit(num: real): real { num }

  method DotProduct(v1: Row, v2: Row) returns (dot: real)
    requires |v1| <= |v2| || v2 == []
    ensures dot == if v2 == [] then 0.0 else Dot(v1, v2)
  {
    if v1 == [] || v2 == [] {
      return 0.0;
    }
    dot := 0.0;
    var i := 0;
    while i < |v1|
      invariant 0 <= i <= |v1| && dot == RangeDot(v1, v2, 0, i)
    {
      dot := dot + Limit(v1[i] * v2[i]);
      dot := Limit(dot);
      i := i + 1;
    }
  }

  ghost predicate Rectangular(m: Matrix, width: nat) {
    forall i :: 0 <= i < |m| ==> |m[i]| == width
  }

  method MakeTransposeMatrix(m: Matrix, width: nat) returns (t: Matrix)
    requires m != [] && Rectangular(m, width)
    ensures |t| == width && Rectangular(t, |m|)
    ensures forall i, j :: 0 <= i < width && 0 <= j < |m| ==> t[i][j] == m[j][i]
  {
    t := seq(width, _ => seq(|m|, _ => 0.0));
    var i := 0;
    while i < |t|
      invariant 0 <= i <= |t| == width && Rectangular(t, |m|)
      invariant forall p, q :: 0 <= p < i && 0 <= q < |m| ==> t[p][q] == m[q][p]
    {
      var j := 0;
      while j < |t[i]|
        invariant 0 <= j <= |m| && |t| == width && Rectangular(t, |m|)
        invariant forall p, q :: 0 <= p < i && 0 <= q < |m| ==> t[p][q] == m[q][p]
        invariant forall q :: 0 <= q < j ==> t[i][q] == m[q][i]
      {
        t := t[i := t[i][j := m[j][i]]];
        j := j + 1;
      }
      i := i + 1;
    }
  }
}
