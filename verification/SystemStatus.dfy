/**
  What the Gaussian method reports: the ranks it counts, the status it returns, and when that
  status is the truth.
 */
module SystemStatus {
  import opened Options
  import opened Vectors
  import opened LinearSystem

  datatype Status = ConsistAndOneSolution | ConsistAndInfSolution | NotConsist

  // ---------------------------------------------------------------------------
  // Counted ranks

  /** The number of rows among the first n that are not zero in the first `cols` columns. */
  ghost function NonZeroRows(m: Matrix, n: nat, cols: nat): nat
    requires n <= |m|
  {
    if n == 0 then 0 else NonZeroRows(m, n - 1, cols) + if ZeroRow(m[n - 1], cols) then 0 else 1
  }

  /** `find_rank`. */
  method FindRank(m: Matrix, n: nat, cols: nat) returns (rank: nat)
    requires n <= |m| && forall i :: 0 <= i < n ==> cols <= |m[i]|
    ensures rank == NonZeroRows(m, n, cols)
  {
    rank := 0;
    var i := 0;
    while i < n
      invariant 0 <= i <= n && rank == NonZeroRows(m, i, cols)
    {
      var allZeros := true;
      var j := 0;
      while j < cols
        invariant 0 <= j <= cols && (allZeros <==> ZeroRow(m[i], j))
      {
        if Limit(m[i][j]) != 0.0 {
          allZeros := false;
        }
        j := j + 1;
      }
      if !allZeros {
        rank := rank + 1;
      }
      i := i + 1;
    }
  }

  lemma {:induction false} RankBounds(m: Matrix, n: nat, cols: nat)
    requires n <= |m|
    ensures NonZeroRows(m, n, cols) <= n
    ensures NonZeroRows(m, n, cols) < n <==> exists r :: 0 <= r < n && ZeroRow(m[r], cols)
  {
    if n > 0 { RankBounds(m, n - 1, cols); }
  }

  lemma {:induction false} RankGrows(m: Matrix, n: nat, cols: nat)
    requires n <= |m|
    ensures NonZeroRows(m, n, cols) <= NonZeroRows(m, n, cols + 1)
    ensures NonZeroRows(m, n, cols) < NonZeroRows(m, n, cols + 1) <==>
      exists r :: 0 <= r < n && ZeroRow(m[r], cols) && !ZeroRow(m[r], cols + 1)
  {
    if n > 0 {
      RankGrows(m, n - 1, cols);
      assert ZeroRow(m[n - 1], cols + 1) ==> ZeroRow(m[n - 1], cols);
    }
  }

  lemma ContradictoryRow(m: Matrix, n: nat, r: nat, x: Row)
    requires |m| == n && Rectangular(m, n + 1) && r < n && ZeroRow(m[r], n) && !ZeroRow(m[r], n + 1)
    ensures !(|x| == n && Solves(m, x))
  {
    if |x| == n {
      RangeZero(m[r], x, 0, n);
      assert m[r][n] != 0.0;
      assert !Satisfies(m[r], x);
    }
  }

  // ---------------------------------------------------------------------------
  // The status and its truth

  /** What the counted ranks of the eliminated matrix are taken to say. */
  ghost function StatusOf(m: Matrix, n: nat): Status
    requires |m| == n
  {
    if NonZeroRows(m, n, n) < NonZeroRows(m, n, n + 1) then NotConsist
    else if n > NonZeroRows(m, n, n) then ConsistAndInfSolution
    else ConsistAndOneSolution
  }

  /** The status says how many vectors solve the system: one, more than one, or none. */
  ghost predicate Truthful(status: Status, m: Matrix, n: nat) {
    match status
    case ConsistAndOneSolution => HasUniqueSolution(m, n)
    case ConsistAndInfSolution => exists x, y :: |x| == |y| == n && x != y && Solves(m, x) && Solves(m, y)
    case NotConsist => forall x :: |x| == n ==> !Solves(m, x)
  }

  ghost predicate Contradictory(m: Matrix, n: nat, r: nat)
    requires r < |m|
  {
    ZeroRow(m[r], n) && !ZeroRow(m[r], n + 1)
  }

  ghost predicate HasContradiction(m: Matrix, n: nat) { exists r: nat :: r < |m| && Contradictory(m, n, r) }

  ghost predicate HasZeroRow(m: Matrix, n: nat) { exists r: nat :: r < |m| && ZeroRow(m[r], n) }

  lemma StatusMeans(m: Matrix, n: nat)
    requires |m| == n
    ensures StatusOf(m, n) == NotConsist <==> HasContradiction(m, n)
    ensures StatusOf(m, n) == ConsistAndOneSolution <==> !HasZeroRow(m, n)
  {
    RankBounds(m, n, n);
    RankGrows(m, n, n);
    if HasContradiction(m, n) {
      var r: nat :| r < |m| && Contradictory(m, n, r);
      assert ZeroRow(m[r], n) && !ZeroRow(m[r], n + 1);
    } else if NonZeroRows(m, n, n) < NonZeroRows(m, n, n + 1) {
      var r: nat :| r < n && ZeroRow(m[r], n) && !ZeroRow(m[r], n + 1);
      assert Contradictory(m, n, r);
    }
  }

  lemma NotConsistIsTrue(m: Matrix, n: nat)
    requires |m| == n && Rectangular(m, n + 1) && StatusOf(m, n) == NotConsist
    ensures Truthful(NotConsist, m, n)
  {
    StatusMeans(m, n);
    var r: nat :| r < |m| && Contradictory(m, n, r);
    forall x | |x| == n ensures !Solves(m, x) { ContradictoryRow(m, n, r, x); }
  }

  /** The report of one solution is true iff no pivot is zero. */
  lemma OneIsTrueIff(m: Matrix, n: nat)
    requires Upper(m, n)
    ensures Truthful(ConsistAndOneSolution, m, n) <==> PivotsNonZero(m, n)
  {
    PivotsDecideUniqueness(m, n);
  }

  /** With a zero pivot, a system that has a solution has another. */
  lemma SecondSolution(m: Matrix, n: nat, x: Row)
    requires Upper(m, n) && !PivotsNonZero(m, n) && |x| == n && Solves(m, x)
    ensures Truthful(ConsistAndInfSolution, m, n)
  {
    var k := FirstZeroPivot(m, n);
    var h := KernelVector(m, n, k);
    var y := seq(n, i requires 0 <= i < n => h[i] * 1.0 + x[i]);
    MoveAlong(m, n, x, h, y);
    assert x[k] != y[k];
  }

  /** The report of infinitely many is true iff there is a solution at all. */
  lemma InfIsTrueIff(m: Matrix, n: nat)
    requires Upper(m, n) && StatusOf(m, n) == ConsistAndInfSolution
    ensures Truthful(ConsistAndInfSolution, m, n) <==> exists x :: |x| == n && Solves(m, x)
  {
    StatusMeans(m, n);
    var r: nat :| r < |m| && ZeroRow(m[r], n);
    assert m[r][r] == 0.0;
    if x :| |x| == n && Solves(m, x) { SecondSolution(m, n, x); }
  }

  /** Every row with a zero pivot is zero in all its coefficients. */
  ghost predicate ZeroPivotRowsVanish(m: Matrix, n: nat)
    requires Upper(m, n)
  {
    forall r :: 0 <= r < n && m[r][r] == 0.0 ==> ZeroRow(m[r], n)
  }

  lemma VanishingRowsTellTruth(m: Matrix, n: nat)
    requires Upper(m, n) && ZeroPivotRowsVanish(m, n)
    ensures Truthful(StatusOf(m, n), m, n)
  {
    StatusMeans(m, n);
    if StatusOf(m, n) == NotConsist {
      NotConsistIsTrue(m, n);
    } else if !HasZeroRow(m, n) {
      OneIsTrueIff(m, n);
    } else {
      forall r | 0 <= r < n && m[r][r] == 0.0 ensures ZeroRow(m[r], n + 1) {
        assert !Contradictory(m, n, r);
      }
      var x := Roots(m, n);
      InfIsTrueIff(m, n);
    }
  }

  lemma SameSolutions(m: Matrix, m': Matrix, n: nat)
    requires forall x :: Solves(m, x) <==> Solves(m', x)
    ensures forall x :: IsUniqueSolution(m, n, x) <==> IsUniqueSolution(m', n, x)
    ensures forall status :: Truthful(status, m, n) <==> Truthful(status, m', n)
  {
    hide Solves;
    if x :| IsUniqueSolution(m, n, x) { assert IsUniqueSolution(m', n, x); }
    if x :| IsUniqueSolution(m', n, x) { assert IsUniqueSolution(m, n, x); }
    forall status ensures Truthful(status, m, n) <==> Truthful(status, m', n) {
    }
  }

  // ---------------------------------------------------------------------------
  // The method

  /** n equations in n unknowns.  `solution` is None when nothing is assigned or a pivot is zero. */
  method GaussianMethod(m: array<Row>, n: nat) returns (status: Status, solution: Option<Row>)
    requires m.Length == n && Rectangular(m[..], n + 1)
    modifies m
    ensures forall x :: Solves(m[..], x) <==> Solves(old(m[..]), x)
    ensures n == 0 ==> status == NotConsist && solution.None?
    ensures n > 0 ==> m[..] == Echelon(old(m[..]), n - 1, n + 1) && Upper(m[..], n) && status == StatusOf(m[..], n)
    ensures n > 0 && status == NotConsist ==> Truthful(status, old(m[..]), n)
    ensures n > 0 && status == ConsistAndOneSolution ==> (Truthful(status, old(m[..]), n) <==> PivotsNonZero(m[..], n))
    ensures n > 0 && ZeroPivotRowsVanish(m[..], n) ==> Truthful(status, old(m[..]), n)
    ensures n > 0 && HasUniqueSolution(old(m[..]), n) ==>
      status == ConsistAndOneSolution && solution.Some? && IsUniqueSolution(old(m[..]), n, solution.value)
    ensures n > 0 && !HasUniqueSolution(old(m[..]), n) ==> solution.None?
  {
    hide Solves, StatusOf, Truthful, HasUniqueSolution, IsUniqueSolution, NonZeroRows, ZeroPivotRowsVanish, Pass;
    solution := None;
    if m.Length == 0 {
      return NotConsist, None;
    }
    ghost var before := m[..];
    var i := 0;
    while i < m.Length - 1
      invariant 0 <= i <= n - 1 && Rectangular(m[..], n + 1) && ZeroBelow(m[..], i)
      invariant m[..] == Echelon(before, i, n + 1)
      invariant forall x :: Solves(m[..], x) <==> Solves(before, x)
    {
      TryMakeRowEchelonForm(m, i, n + 1);
      i := i + 1;
    }
    ghost var u := m[..];
    assert Upper(u, n);
    Reports(before, u, n);
    var varsCnt := |m[0]| - 1;
    var baseRank := FindRank(m[..], m.Length, varsCnt);
    var augmentedRank := FindRank(m[..], m.Length, varsCnt + 1);
    StatusIs(u, n, baseRank, augmentedRank);
    if baseRank < augmentedRank {
      status := NotConsist;
    } else if varsCnt > baseRank {
      status := ConsistAndInfSolution;
    } else {
      status := ConsistAndOneSolution;
      if forall k :: 0 <= k < n ==> m[k][k] != 0.0 {
        var res := FindRoots(m[..], n);
        solution := Some(res);
        OnlyRoots(before, u, n, res);
      }
    }
  }

  lemma StatusIs(m: Matrix, n: nat, base: nat, augmented: nat)
    requires |m| == n && base == NonZeroRows(m, n, n) && augmented == NonZeroRows(m, n, n + 1)
    ensures StatusOf(m, n) == if base < augmented then NotConsist else if n > base then ConsistAndInfSolution else ConsistAndOneSolution
  {
  }

  /** What elimination and counting say of the system before it. */
  lemma Reports(m: Matrix, u: Matrix, n: nat)
    requires Upper(u, n) && forall x :: Solves(u, x) <==> Solves(m, x)
    ensures HasUniqueSolution(m, n) <==> PivotsNonZero(u, n)
    ensures PivotsNonZero(u, n) ==> StatusOf(u, n) == ConsistAndOneSolution
    ensures StatusOf(u, n) == NotConsist ==> Truthful(NotConsist, m, n)
    ensures Truthful(ConsistAndOneSolution, m, n) <==> PivotsNonZero(u, n)
    ensures ZeroPivotRowsVanish(u, n) ==> Truthful(StatusOf(u, n), m, n)
  {
    hide Solves, NonZeroRows;
    SameSolutions(u, m, n);
    OneIsTrueIff(u, n);
    StatusMeans(u, n);
    if PivotsNonZero(u, n) { NoZeroRow(u, n); }
    if StatusOf(u, n) == NotConsist { NotConsistIsTrue(u, n); }
    if ZeroPivotRowsVanish(u, n) { VanishingRowsTellTruth(u, n); }
  }

  lemma NoZeroRow(m: Matrix, n: nat)
    requires Upper(m, n) && PivotsNonZero(m, n)
    ensures !HasZeroRow(m, n)
  {
    forall r: nat | r < n ensures !ZeroRow(m[r], n) {
      assert m[r][r] != 0.0;
    }
  }

  lemma OnlyRoots(m: Matrix, u: Matrix, n: nat, x: Row)
    requires Upper(u, n) && PivotsNonZero(u, n) && |x| == n && Solves(u, x)
    requires forall y :: Solves(u, y) <==> Solves(m, y)
    ensures IsUniqueSolution(m, n, x)
  {
    forall y | |y| == n && Solves(u, y) ensures y == x { UpperIsUnique(u, n, x, y); }
  }

  // ---------------------------------------------------------------------------
  // Counting non-zero rows is not finding the rank

  /** Two contradictory equations that pass for one solution. */
  lemma ContradictionCountedAsSolvable() returns (m: Matrix)
    ensures Upper(m, 2) && Echelon(m, 1, 3) == m && StatusOf(m, 2) == ConsistAndOneSolution
    ensures forall x :: |x| == 2 ==> !Solves(m, x)
  {
    m := [[0.0, 1.0, 1.0], [0.0, 1.0, 2.0]];
    assert m[0][1] == 1.0 && m[1][1] == 1.0;
    assert Pass(m, 0, 1, 3) == m && Pass(m, 0, 2, 3) == m && Echelon(m, 0, 3) == m;
    StatusMeans(m, 2);
    forall x | |x| == 2 ensures !Solves(m, x) {
      RangeSame(m[0], x, m[1], x, 0, 2);
      assert !(Satisfies(m[0], x) && Satisfies(m[1], x));
    }
  }

  /** And, with an empty third equation, for infinitely many. */
  lemma ContradictionCountedAsInfinite() returns (m: Matrix)
    ensures Upper(m, 3) && Echelon(m, 2, 4) == m && StatusOf(m, 3) == ConsistAndInfSolution
    ensures forall x :: |x| == 3 ==> !Solves(m, x)
  {
    m := [[0.0, 0.0, 1.0, 1.0], [0.0, 0.0, 1.0, 2.0], [0.0, 0.0, 0.0, 0.0]];
    assert m[0][2] == 1.0 && m[1][2] == 1.0 && ZeroRow(m[2], 3);
    assert Pass(m, 0, 1, 4) == m && Pass(m, 0, 2, 4) == m && Pass(m, 0, 3, 4) == m;
    assert Pass(m, 1, 2, 4) == m && Pass(m, 1, 3, 4) == m && Echelon(m, 0, 4) == m && Echelon(m, 1, 4) == m;
    StatusMeans(m, 3);
    forall r: nat | r < 3 ensures !Contradictory(m, 3, r) {
      if r == 2 { assert ZeroRow(m[r], 4); }
    }
    forall x | |x| == 3 ensures !Solves(m, x) {
      RangeSame(m[0], x, m[1], x, 0, 3);
      assert !(Satisfies(m[0], x) && Satisfies(m[1], x));
    }
  }
}
