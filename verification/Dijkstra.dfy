/**
  The naive Dijkstra search: every round scans all edges that leave the visited
  vertices and visits the nearest unvisited end.  When no edge qualifies, the C++ code
  falls back to "visiting" vertex 1 at distance INT_MAX.  Sums and the cap on the rounds are
  exact here, and it is stated when they stay within 32 bits.
 */
module Dijkstra {
  import opened FiniteSets

  const INT_MAX: int := 0x7fff_ffff

  type Graph = seq<seq<int>>

  /** An (n+1) by (n+1) matrix of weights; 0 stands for "no edge", row and column 0 are spare. */
  predicate WellSized(g: Graph, n: nat) {
    && |g| == n + 1
    && (forall u :: 0 <= u <= n ==> |g[u]| == n + 1)
    && (forall u, v :: 0 <= u <= n && 0 <= v <= n ==> 0 <= g[u][v] <= INT_MAX)
  }

  /** The edges that the scan looks at. */
  predicate Edge(g: Graph, n: nat, u: nat, v: nat)
    requires WellSized(g, n)
  {
    u <= n && 1 <= v <= n && g[u][v] != 0
  }

  // ---------------------------------------------------------------------------
  // Paths

  ghost predicate IsPath(g: Graph, n: nat, p: seq<nat>)
    requires WellSized(g, n)
  {
    && p != []
    && (forall i :: 0 <= i < |p| ==> p[i] <= n)
    && forall i :: 0 < i < |p| ==> 1 <= p[i] && g[p[i - 1]][p[i]] != 0
  }

  ghost function Weight(g: Graph, n: nat, p: seq<nat>): nat
    requires WellSized(g, n) && IsPath(g, n, p)
  {
    if |p| == 1 then 0
    else
      var q := p[..|p| - 1];
      assert forall i :: 0 <= i < |q| ==> q[i] == p[i];
      Weight(g, n, q) + g[p[|p| - 2]][p[|p| - 1]]
  }

  ghost predicate Joins(g: Graph, n: nat, s: nat, v: nat, p: seq<nat>)
    requires WellSized(g, n)
  {
    IsPath(g, n, p) && p[0] == s && p[|p| - 1] == v
  }

  ghost predicate Reachable(g: Graph, n: nat, s: nat, v: nat)
    requires WellSized(g, n)
  {
    exists p :: Joins(g, n, s, v, p)
  }

  /** d is the least weight of a path from s to v. */
  ghost predicate Shortest(g: Graph, n: nat, s: nat, v: nat, d: int)
    requires WellSized(g, n)
  {
    && (exists p :: Joins(g, n, s, v, p) && Weight(g, n, p) == d)
    && AtLeast(g, n, s, v, d)
  }

  ghost predicate AtLeast(g: Graph, n: nat, s: nat, v: nat, d: int)
    requires WellSized(g, n)
  {
    forall p :: Joins(g, n, s, v, p) ==> d <= Weight(g, n, p)
  }

  /** A least distance plus any one edge stays below INT_MAX. */
  ghost predicate SumsFit(g: Graph, n: nat, s: nat)
    requires WellSized(g, n)
  {
    forall u: nat, v: nat, d: int :: Shortest(g, n, s, u, d) && Edge(g, n, u, v) ==> d + g[u][v] < INT_MAX
  }

  lemma ExtendPath(g: Graph, n: nat, s: nat, u: nat, v: nat, p: seq<nat>)
    requires WellSized(g, n) && Joins(g, n, s, u, p) && Edge(g, n, u, v)
    ensures Joins(g, n, s, v, p + [v]) && Weight(g, n, p + [v]) == Weight(g, n, p) + g[u][v]
  {
    assert (p + [v])[..|p|] == p;
  }

  /** Splits the last edge off a path of two or more vertices. */
  lemma LastEdge(g: Graph, n: nat, s: nat, v: nat, p: seq<nat>)
    requires WellSized(g, n) && Joins(g, n, s, v, p) && |p| > 1
    ensures var u := p[|p| - 2];
      && Edge(g, n, u, v) && Joins(g, n, s, u, p[..|p| - 1])
      && Weight(g, n, p) == Weight(g, n, p[..|p| - 1]) + g[u][v]
  {
    var q := p[..|p| - 1];
    assert forall i :: 0 <= i < |q| ==> q[i] == p[i];
  }

  /** The vertices of `inside` carry least distances, the others INT_MAX. */
  ghost predicate Settled(g: Graph, n: nat, s: nat, inside: set<nat>, dist: seq<int>)
    requires WellSized(g, n)
  {
    && |dist| == n + 1 && s in inside
    && (forall u <- inside :: u <= n && (u == s || 1 <= u) && dist[u] < INT_MAX && Shortest(g, n, s, u, dist[u]))
    && (forall u: nat :: u <= n && u !in inside ==> dist[u] == INT_MAX)
  }

  ghost predicate ClosedSet(g: Graph, n: nat, inside: set<nat>)
    requires WellSized(g, n)
  {
    forall u: nat, w: nat :: u in inside && Edge(g, n, u, w) ==> w in inside
  }

  /** A path out of a settled set is at least as heavy as the lightest way of leaving the set. */
  lemma {:induction false} LeavingCosts(g: Graph, n: nat, s: nat, x: nat, p: seq<nat>, inside: set<nat>, dist: seq<int>, m: int)
    requires WellSized(g, n) && Joins(g, n, s, x, p) && x !in inside && Settled(g, n, s, inside, dist)
    requires forall u: nat, v: nat :: u in inside && v !in inside && Edge(g, n, u, v) ==> m <= dist[u] + g[u][v]
    ensures m <= Weight(g, n, p)
    decreases |p|
  {
    LastEdge(g, n, s, x, p);
    var u, q := p[|p| - 2], p[..|p| - 1];
    if u in inside {
      assert Shortest(g, n, s, u, dist[u]);
    } else {
      LeavingCosts(g, n, s, u, q, inside, dist, m);
    }
  }

  lemma {:induction false} ClosedContainsReachable(g: Graph, n: nat, s: nat, v: nat, p: seq<nat>, inside: set<nat>)
    requires WellSized(g, n) && Joins(g, n, s, v, p) && s in inside && ClosedSet(g, n, inside)
    ensures v in inside
    decreases |p|
  {
    if |p| > 1 {
      LastEdge(g, n, s, v, p);
      ClosedContainsReachable(g, n, s, p[|p| - 2], p[..|p| - 1], inside);
    }
  }

  // ---------------------------------------------------------------------------
  // The search

  /** What the two scanning loops find in one round. */
  ghost predicate Nearest(g: Graph, n: nat, dist: seq<int>, visited: seq<int>, verts: set<nat>, minDist: int, newVertex: nat)
    requires WellSized(g, n) && |dist| == |visited| == n + 1 && forall u <- verts :: u <= n
  {
    && minDist <= INT_MAX
    && (forall u: nat, v: nat :: u in verts && Edge(g, n, u, v) && visited[v] == 0 ==> minDist <= dist[u] + g[u][v])
    && (minDist == INT_MAX ==> newVertex == 1)
    && (minDist < INT_MAX ==> exists u <- verts ::
          Edge(g, n, u, newVertex) && visited[newVertex] == 0 && minDist == dist[u] + g[u][newVertex])
  }

  ghost function Elems(s: seq<nat>): set<nat> {
    set u | u in s
  }

  method Scan(g: Graph, n: nat, dist: array<int>, visited: array<int>, activeVerts: seq<nat>)
    returns (minDist: int, newVertex: nat)
    requires WellSized(g, n) && dist.Length == visited.Length == n + 1
    requires forall k :: 0 <= k < |activeVerts| ==> activeVerts[k] <= n
    ensures Nearest(g, n, dist[..], visited[..], Elems(activeVerts), minDist, newVertex)
  {
    minDist, newVertex := INT_MAX, 1;
    var j := 0;
    assert activeVerts[..0] == [];
    while j < |activeVerts|
      invariant 0 <= j <= |activeVerts|
      invariant Nearest(g, n, dist[..], visited[..], Elems(activeVerts[..j]), minDist, newVertex)
    {
      var curVert := activeVerts[j];
      minDist, newVertex := ScanRow(g, n, dist, visited, curVert, Elems(activeVerts[..j]), minDist, newVertex);
      assert activeVerts[..j + 1] == activeVerts[..j] + [curVert];
      assert Elems(activeVerts[..j + 1]) == Elems(activeVerts[..j]) + {curVert};
      j := j + 1;
    }
    assert activeVerts[..|activeVerts|] == activeVerts;
  }

  /** The inner scanning loop: the edges of one visited vertex. */
  method ScanRow(g: Graph, n: nat, dist: array<int>, visited: array<int>, curVert: nat, ghost before: set<nat>, m: int, v: nat)
    returns (minDist: int, newVertex: nat)
    requires WellSized(g, n) && dist.Length == visited.Length == n + 1
    requires curVert <= n && forall u <- before :: u <= n
    requires Nearest(g, n, dist[..], visited[..], before, m, v)
    ensures Nearest(g, n, dist[..], visited[..], before + {curVert}, minDist, newVertex)
  {
    minDist, newVertex := m, v;
    var i := 1;
    while i < |g[curVert]|
      invariant 1 <= i
      invariant minDist <= m <= INT_MAX
      invariant forall w: nat :: w < i && Edge(g, n, curVert, w) && visited[w] == 0 ==> minDist <= dist[curVert] + g[curVert][w]
      invariant (minDist == m && newVertex == v)
                || (minDist < m && Edge(g, n, curVert, newVertex) && visited[newVertex] == 0
                    && minDist == dist[curVert] + g[curVert][newVertex])
    {
      if g[curVert][i] != 0 {
        var curDist := g[curVert][i] + dist[curVert];
        if curDist < minDist && visited[i] == 0 {
          minDist, newVertex := curDist, i;
        }
      }
      i := i + 1;
    }
  }

  ghost function UpTo(n: nat): (all: set<nat>)
    ensures |all| == n + 1 && forall i: nat :: i in all <==> i <= n
  {
    if n == 0 then {0} else UpTo(n - 1) + {n}
  }

  lemma MissingOne(n: nat, inside: set<nat>, t: nat)
    requires t <= n && t !in inside && forall u <- inside :: u <= n
    ensures |inside| <= n
  {
    SubsetSize(inside, UpTo(n) - {t});
  }

  /** The invariant while every round has found a nearest vertex. */
  ghost predicate Growing(g: Graph, n: nat, s: nat, inside: set<nat>, dist: seq<int>, visited: seq<int>)
    requires WellSized(g, n)
  {
    && Settled(g, n, s, inside, dist) && |visited| == n + 1
    && forall v: nat :: v <= n ==> (visited[v] != 0 <==> v in inside)
  }

  /** The invariant once a round has found no vertex: vertex 1 has been set to INT_MAX. */
  ghost predicate Stuck(g: Graph, n: nat, s: nat, inside: set<nat>, dist: seq<int>, visited: seq<int>)
    requires WellSized(g, n)
  {
    && |dist| == |visited| == n + 1 && s in inside && ClosedSet(g, n, inside)
    && (forall u <- inside :: u <= n && visited[u] != 0)
    && (forall u: nat :: u <= n && u !in inside ==> dist[u] == INT_MAX)
  }

  /** A found vertex is settled at its least distance. */
  lemma Grow(g: Graph, n: nat, s: nat, inside: set<nat>, dist: seq<int>, visited: seq<int>, m: int, v: nat)
    requires WellSized(g, n) && Growing(g, n, s, inside, dist, visited)
    requires Nearest(g, n, dist, visited, inside, m, v) && m < INT_MAX
    ensures v <= n && v !in inside
    ensures Growing(g, n, s, inside + {v}, dist[v := m], visited[v := 1])
  {
    hide Joins, IsPath, Weight;
    FoundIsShortest(g, n, s, inside, dist, visited, m, v);
  }

  lemma FoundIsShortest(g: Graph, n: nat, s: nat, inside: set<nat>, dist: seq<int>, visited: seq<int>, m: int, v: nat)
    requires WellSized(g, n) && Growing(g, n, s, inside, dist, visited)
    requires Nearest(g, n, dist, visited, inside, m, v) && m < INT_MAX
    ensures 1 <= v <= n && v !in inside && Shortest(g, n, s, v, m)
  {
    hide IsPath, Weight;
    var u :| u in inside && Edge(g, n, u, v) && visited[v] == 0 && m == dist[u] + g[u][v];
    assert Shortest(g, n, s, u, dist[u]);
    var p :| Joins(g, n, s, u, p) && Weight(g, n, p) == dist[u];
    ExtendPath(g, n, s, u, v, p);
    forall q | Joins(g, n, s, v, q) ensures m <= Weight(g, n, q) {
      LeavingCosts(g, n, s, v, q, inside, dist, m);
    }
  }

  /** A round that finds nothing has visited everything reachable. */
  lemma GetStuck(g: Graph, n: nat, s: nat, inside: set<nat>, dist: seq<int>, visited: seq<int>, m: int, v: nat)
    requires WellSized(g, n) && 1 <= n && Growing(g, n, s, inside, dist, visited) && SumsFit(g, n, s)
    requires Nearest(g, n, dist, visited, inside, m, v) && m == INT_MAX
    ensures v == 1 && Stuck(g, n, s, inside, dist[v := m], visited[v := 1])
  {
    forall u: nat, w: nat | u in inside && Edge(g, n, u, w) ensures w in inside {
      assert Shortest(g, n, s, u, dist[u]);
    }
  }

  /** Once stuck, a round finds nothing again. */
  lemma StayStuck(g: Graph, n: nat, s: nat, inside: set<nat>, dist: seq<int>, visited: seq<int>, verts: set<nat>, m: int, v: nat)
    requires WellSized(g, n) && 1 <= n && Stuck(g, n, s, inside, dist, visited)
    requires inside <= verts && forall u <- verts :: u <= n
    requires Nearest(g, n, dist, visited, verts, m, v)
    ensures v == 1 && m == INT_MAX && Stuck(g, n, s, inside, dist[v := m], visited[v := 1])
  {
  }

  /** The sums formed in a round stay within 32 bits. */
  ghost predicate RoundFits(g: Graph, n: nat, dist: seq<int>, verts: set<nat>)
    requires WellSized(g, n) && |dist| == n + 1 && forall u <- verts :: u <= n
  {
    forall u: nat, v: nat :: u in verts && Edge(g, n, u, v) ==> dist[u] + g[u][v] <= INT_MAX
  }

  /** Vertex 1 has an outgoing edge. */
  ghost predicate OneLeaves(g: Graph, n: nat)
    requires WellSized(g, n)
  {
    exists v: nat :: Edge(g, n, 1, v)
  }

  /** The sums from the active vertices other than 1 stay within 32 bits. */
  ghost predicate OthersFit(g: Graph, n: nat, dist: seq<int>, verts: set<nat>)
    requires WellSized(g, n) && |dist| == n + 1 && forall u <- verts :: u <= n
  {
    forall u: nat, v: nat :: u in verts && u != 1 && Edge(g, n, u, v) ==> dist[u] + g[u][v] <= INT_MAX
  }

  /**
    The search's loop invariant. `late` counts the rounds that found nothing; `fits` says that no
    sum so far overflowed.
   */
  ghost predicate Inv(g: Graph, n: nat, s: nat, t: nat, inside: set<nat>, late: nat,
                      dist: seq<int>, visited: seq<int>, verts: set<nat>, rounds: nat, fits: bool)
    requires WellSized(g, n)
  {
    && |dist| == |visited| == n + 1 && inside <= verts && (forall u <- verts :: u <= n)
    && |inside| + late == rounds + 1
    && (if late == 0 then Growing(g, n, s, inside, dist, visited) && fits && verts == inside
        else
          && Stuck(g, n, s, inside, dist, visited) && t !in inside && OthersFit(g, n, dist, verts)
          && 1 <= n && 1 in verts && dist[1] == INT_MAX && (forall v: nat :: v <= n && visited[v] != 0 ==> v in inside || v == 1)
          && visited[1] != 0 && (fits <==> late == 1 || !OneLeaves(g, n)) && (late > 1 ==> t != 1))
  }

  lemma StartInv(g: Graph, n: nat, s: nat, t: nat, dist: seq<int>, visited: seq<int>)
    requires WellSized(g, n) && s <= n && |dist| == |visited| == n + 1
    requires forall v: nat :: v <= n ==> dist[v] == (if v == s then 0 else INT_MAX) && visited[v] == (if v == s then 1 else 0)
    ensures Inv(g, n, s, t, {s}, 0, dist, visited, {s}, 0, true)
  {
    assert Joins(g, n, s, s, [s]) && Weight(g, n, [s]) == 0;
    assert Shortest(g, n, s, s, 0);
  }

  /** Once stuck, a round's sums fit exactly if vertex 1, at INT_MAX, has no edge to add. */
  lemma LateRoundFits(g: Graph, n: nat, dist: seq<int>, verts: set<nat>)
    requires WellSized(g, n) && |dist| == n + 1 && (forall u <- verts :: u <= n)
    requires 1 <= n && 1 in verts && dist[1] == INT_MAX && OthersFit(g, n, dist, verts)
    ensures RoundFits(g, n, dist, verts) <==> !OneLeaves(g, n)
  {
    if OneLeaves(g, n) {
      var v: nat :| Edge(g, n, 1, v);
      assert dist[1] + g[1][v] > INT_MAX;
    }
  }

  lemma LateRound(g: Graph, n: nat, s: nat, t: nat, inside: set<nat>, late: nat,
                  dist: seq<int>, visited: seq<int>, verts: set<nat>, rounds: nat, fits: bool, m: int, v: nat)
    requires WellSized(g, n) && 1 <= n && t <= n && |visited| > t && visited[t] == 0 && late > 0
    requires Inv(g, n, s, t, inside, late, dist, visited, verts, rounds, fits)
    requires Nearest(g, n, dist, visited, verts, m, v)
    ensures v <= n
    ensures Inv(g, n, s, t, inside, late + 1, dist[v := m], visited[v := 1], verts + {v}, rounds + 1, fits && RoundFits(g, n, dist, verts))
  {
    hide Nearest, RoundFits, OneLeaves, Stuck, OthersFit;
    StayStuck(g, n, s, inside, dist, visited, verts, m, v);
    LateRoundFits(g, n, dist, verts);
    assert verts + {1} == verts && dist[1 := m] == dist;
  }

  lemma FirstLateRound(g: Graph, n: nat, s: nat, t: nat, inside: set<nat>,
                       dist: seq<int>, visited: seq<int>, verts: set<nat>, rounds: nat, fits: bool, m: int, v: nat)
    requires WellSized(g, n) && SumsFit(g, n, s) && 1 <= n && t <= n && |visited| > t && visited[t] == 0
    requires Inv(g, n, s, t, inside, 0, dist, visited, verts, rounds, fits)
    requires Nearest(g, n, dist, visited, verts, m, v) && m == INT_MAX
    ensures v <= n
    ensures Inv(g, n, s, t, inside, 1, dist[v := m], visited[v := 1], verts + {v}, rounds + 1, fits && RoundFits(g, n, dist, verts))
  {
    hide Nearest, SumsFit, RoundFits, OneLeaves, Stuck, OthersFit, Settled;
    GetStuck(g, n, s, inside, dist, visited, m, v);
    SettledFits(g, n, s, inside, dist, visited);
    OthersFitAfter(g, n, dist, verts, m);
  }

  lemma GrowRound(g: Graph, n: nat, s: nat, t: nat, inside: set<nat>,
                  dist: seq<int>, visited: seq<int>, verts: set<nat>, rounds: nat, fits: bool, m: int, v: nat)
    requires WellSized(g, n) && SumsFit(g, n, s) && 1 <= n && t <= n && |visited| > t && visited[t] == 0
    requires Inv(g, n, s, t, inside, 0, dist, visited, verts, rounds, fits)
    requires Nearest(g, n, dist, visited, verts, m, v) && m < INT_MAX
    ensures v <= n
    ensures Inv(g, n, s, t, inside + {v}, 0, dist[v := m], visited[v := 1], verts + {v}, rounds + 1, fits && RoundFits(g, n, dist, verts))
  {
    hide Nearest, SumsFit, RoundFits, Growing;
    assert |dist| == n + 1;
    SettledFits(g, n, s, inside, dist, visited);
    Grow(g, n, s, inside, dist, visited, m, v);
  }

  /** One round keeps the invariant. */
  lemma Round(g: Graph, n: nat, s: nat, t: nat, inside: set<nat>, late: nat,
              dist: seq<int>, visited: seq<int>, verts: set<nat>, rounds: nat, fits: bool, m: int, v: nat)
    returns (inside': set<nat>, late': nat)
    requires WellSized(g, n) && SumsFit(g, n, s) && 1 <= n && t <= n && visited != [] && |visited| > t && visited[t] == 0
    requires |dist| == n + 1 == |visited| && forall u <- verts :: u <= n
    requires Inv(g, n, s, t, inside, late, dist, visited, verts, rounds, fits)
    requires Nearest(g, n, dist, visited, verts, m, v)
    ensures v <= n
    ensures Inv(g, n, s, t, inside', late', dist[v := m], visited[v := 1], verts + {v}, rounds + 1, fits && RoundFits(g, n, dist, verts))
  {
    hide Nearest, SumsFit, RoundFits, Inv;
    NearestIsBounded(g, n, dist, visited, verts, m, v);
    if late > 0 {
      LateRound(g, n, s, t, inside, late, dist, visited, verts, rounds, fits, m, v);
      inside', late' := inside, late + 1;
    } else if m == INT_MAX {
      FirstLateRound(g, n, s, t, inside, dist, visited, verts, rounds, fits, m, v);
      inside', late' := inside, 1;
    } else {
      GrowRound(g, n, s, t, inside, dist, visited, verts, rounds, fits, m, v);
      inside', late' := inside + {v}, 0;
    }
  }

  lemma OthersFitAfter(g: Graph, n: nat, dist: seq<int>, verts: set<nat>, m: int)
    requires WellSized(g, n) && 1 <= n && |dist| == n + 1 && (forall u <- verts :: u <= n) && RoundFits(g, n, dist, verts)
    ensures OthersFit(g, n, dist[1 := m], verts + {1})
  {
  }

  lemma NearestIsBounded(g: Graph, n: nat, dist: seq<int>, visited: seq<int>, verts: set<nat>, m: int, v: nat)
    requires WellSized(g, n) && |dist| == |visited| == n + 1 && forall u <- verts :: u <= n
    requires Nearest(g, n, dist, visited, verts, m, v)
    ensures m <= INT_MAX
  {
  }

  lemma SettledFits(g: Graph, n: nat, s: nat, inside: set<nat>, dist: seq<int>, visited: seq<int>)
    requires WellSized(g, n) && SumsFit(g, n, s) && Growing(g, n, s, inside, dist, visited)
    ensures RoundFits(g, n, dist, inside)
  {
    forall u: nat, v: nat | u in inside && Edge(g, n, u, v) ensures dist[u] + g[u][v] <= INT_MAX {
      assert Shortest(g, n, s, u, dist[u]);
    }
  }

  lemma ShortestIsReachable(g: Graph, n: nat, s: nat, t: nat, d: int)
    requires WellSized(g, n) && Shortest(g, n, s, t, d)
    ensures Reachable(g, n, s, t)
  {
  }

  /** The bound on `inter_cnt`. */
  function Cap(n: nat): (c: nat)
    ensures c > 0 ==> n > 0
  {
    n * n
  }

  /** What 32 bits keep of a number. */
  function Wrapped(x: int): int { (x + INT_MAX + 1) % (2 * (INT_MAX + 1)) - INT_MAX - 1 }

  /** The product that bounds the loop is what an `int` holds exactly up to 46340 vertices. */
  lemma CapFitsIff(n: nat)
    ensures Cap(n) == n * n && (Cap(n) <= INT_MAX <==> n <= 46340)
    ensures n <= 46340 ==> Wrapped(Cap(n)) == Cap(n)
  {
    if n <= 46340 { Squares(n, 46340); } else { Squares(46341, n); }
  }

  lemma Squares(a: nat, b: nat)
    requires a <= b
    ensures Cap(a) <= Cap(b)
  {
  }

  /** With one vertex more it would wrap below zero, so that the loop would not begin. */
  lemma CapWrapsBelowZero()
    ensures Wrapped(Cap(46341)) < 0
  {
  }

  lemma CapIsAmple(n: nat)
    ensures n < 2 ==> Cap(n) == n
    ensures n >= 2 ==> Cap(n) >= 2 * n
  {
  }

  /** What the invariant says when the loop stops. */
  lemma Finish(g: Graph, n: nat, s: nat, t: nat, inside: set<nat>, late: nat,
               dist: seq<int>, visited: seq<int>, verts: set<nat>, rounds: nat, fits: bool)
    requires WellSized(g, n) && t <= n && SumsFit(g, n, s)
    requires Inv(g, n, s, t, inside, late, dist, visited, verts, rounds, fits)
    requires rounds <= Cap(n) && (Cap(n) <= rounds || visited[t] != 0)
    ensures Reachable(g, n, s, t) ==> Shortest(g, n, s, t, dist[t]) && fits && rounds <= n && (1 <= s ==> rounds < n)
    ensures if Reachable(g, n, s, t) then dist[t] < INT_MAX else dist[t] == INT_MAX
    ensures !Reachable(g, n, s, t) ==> (fits <==> n < 2 || t == 1 || !OneLeaves(g, n))
    ensures !Reachable(g, n, s, t) && t != 1 ==> rounds == Cap(n)
  {
    hide Shortest, Joins, OneLeaves, Cap, OthersFit;
    CapIsAmple(n);
    if late > 0 {
      if p :| Joins(g, n, s, t, p) {
        ClosedContainsReachable(g, n, s, t, p, inside);
      }
      MissingOne(n, inside, t);
      assert s in inside;
      assert |inside| >= 1;
    } else {
      SubsetSize(inside, UpTo(n));
      if t in inside { ShortestIsReachable(g, n, s, t, dist[t]); }
      if t !in inside { MissingOne(n, inside, t); }
      if 1 <= s { MissingOne(n, inside, 0); }
    }
  }

  // ---------------------------------------------------------------------------
  // The sums of a whole search

  /** What the arrays hold when a round begins, and the vertices it scans. */
  datatype Snapshot = Snapshot(dist: seq<int>, visited: seq<int>, verts: set<nat>)

  ghost predicate Shaped(n: nat, a: Snapshot) {
    |a.dist| == |a.visited| == n + 1 && forall u <- a.verts :: u <= n
  }

  ghost predicate Follows(g: Graph, n: nat, a: Snapshot, b: Snapshot)
    requires WellSized(g, n) && Shaped(n, a)
  {
    exists m, v: nat :: v <= n && Nearest(g, n, a.dist, a.visited, a.verts, m, v)
      && b == Snapshot(a.dist[v := m], a.visited[v := 1], a.verts + {v})
  }

  /** The rounds of a search from s, in order. */
  ghost predicate Trace(g: Graph, n: nat, s: nat, seen: seq<Snapshot>)
    requires WellSized(g, n)
  {
    && seen != [] && (forall k :: 0 <= k < |seen| ==> Shaped(n, seen[k])) && seen[0].verts == {s}
    && (forall v: nat :: v <= n ==> seen[0].dist[v] == (if v == s then 0 else INT_MAX) && seen[0].visited[v] == (if v == s then 1 else 0))
    && forall k :: 0 < k < |seen| ==> Follows(g, n, seen[k - 1], seen[k])
  }

  /** No sum formed in any of the rounds overflowed. */
  ghost predicate AllFit(g: Graph, n: nat, seen: seq<Snapshot>)
    requires WellSized(g, n) && forall k :: 0 <= k < |seen| ==> Shaped(n, seen[k])
  {
    forall k :: 0 <= k < |seen| - 1 ==> SumsFitIn(g, n, seen[k])
  }

  ghost predicate SumsFitIn(g: Graph, n: nat, a: Snapshot)
    requires WellSized(g, n) && Shaped(n, a)
  {
    RoundFits(g, n, a.dist, a.verts)
  }

  lemma TraceGrows(g: Graph, n: nat, s: nat, seen: seq<Snapshot>, b: Snapshot, fits: bool)
    requires WellSized(g, n) && Trace(g, n, s, seen) && Shaped(n, b) && Follows(g, n, seen[|seen| - 1], b)
    requires fits == AllFit(g, n, seen)
    ensures Trace(g, n, s, seen + [b])
    ensures AllFit(g, n, seen + [b]) <==> fits && SumsFitIn(g, n, seen[|seen| - 1])
  {
    hide Follows, SumsFitIn;
    var more, last := seen + [b], |seen| - 1;
    forall k | 0 < k < |more| ensures Follows(g, n, more[k - 1], more[k]) {
      if k == |seen| { assert more[k - 1] == seen[last]; } else { assert Follows(g, n, seen[k - 1], seen[k]); }
    }
    if AllFit(g, n, more) {
      assert SumsFitIn(g, n, more[last]);
      forall k | 0 <= k < last ensures SumsFitIn(g, n, seen[k]) {
        assert SumsFitIn(g, n, more[k]);
      }
    }
  }

  /** One iteration of the search loop. */
  method Visit(g: Graph, n: nat, ghost s: nat, ghost t: nat, dist: array<int>, visited: array<int>, activeVerts: seq<nat>,
               ghost inside: set<nat>, ghost late: nat, ghost rounds: nat, ghost fits: bool)
    returns (more: seq<nat>, ghost inside': set<nat>, ghost late': nat, ghost fits': bool)
    requires WellSized(g, n) && SumsFit(g, n, s) && 1 <= n && t <= n && dist.Length == visited.Length == n + 1 && dist != visited
    requires visited[t] == 0 && forall k :: 0 <= k < |activeVerts| ==> activeVerts[k] <= n
    requires Inv(g, n, s, t, inside, late, dist[..], visited[..], Elems(activeVerts), rounds, fits)
    modifies dist, visited
    ensures forall k :: 0 <= k < |more| ==> more[k] <= n
    ensures Inv(g, n, s, t, inside', late', dist[..], visited[..], Elems(more), rounds + 1, fits')
    ensures fits' == (fits && RoundFits(g, n, old(dist[..]), Elems(activeVerts)))
    ensures Follows(g, n, Snapshot(old(dist[..]), old(visited[..]), Elems(activeVerts)), Snapshot(dist[..], visited[..], Elems(more)))
  {
    hide SumsFit, RoundFits, Nearest, Inv, WellSized;
    ghost var d, w, verts := dist[..], visited[..], Elems(activeVerts);
    var minDist, newVertex := Scan(g, n, dist, visited, activeVerts);
    inside', late' := Round(g, n, s, t, inside, late, d, w, verts, rounds, fits, minDist, newVertex);
    fits' := fits && RoundFits(g, n, d, verts);
    more := activeVerts + [newVertex];
    dist[newVertex] := minDist;
    visited[newVertex] := 1;
    assert dist[..] == d[newVertex := minDist] && visited[..] == w[newVertex := 1];
    assert Elems(more) == verts + {newVertex};
  }

  /**
    `rounds` is the final value of `inter_cnt` and `seen` what each round began with. When the target
    is unreachable some sum overflows exactly if a round follows the first one that found nothing and
    vertex 1, then at INT_MAX, has an edge.
   */
  method Search(g: Graph, startVert: nat, targetVert: nat, n: nat) returns (r: int, rounds: nat, ghost seen: seq<Snapshot>)
    requires WellSized(g, n) && startVert <= n && targetVert <= n && SumsFit(g, n, startVert)
    ensures Trace(g, n, startVert, seen) && |seen| == rounds + 1
    ensures r == if seen[rounds].dist[targetVert] != INT_MAX then seen[rounds].dist[targetVert] else -1
    ensures Reachable(g, n, startVert, targetVert) ==> Shortest(g, n, startVert, targetVert, r)
    ensures Reachable(g, n, startVert, targetVert) ==> AllFit(g, n, seen) && rounds <= n && (1 <= startVert ==> rounds < n)
    ensures !Reachable(g, n, startVert, targetVert) ==> r == -1
    ensures !Reachable(g, n, startVert, targetVert) ==>
      (AllFit(g, n, seen) <==> n < 2 || targetVert == 1 || !OneLeaves(g, n))
    ensures rounds <= Cap(n) && (Cap(n) <= INT_MAX <==> n <= 46340)
    ensures !Reachable(g, n, startVert, targetVert) && targetVert != 1 ==> rounds == Cap(n)
  {
    CapFitsIff(n);
    hide SumsFit, Shortest, Reachable, RoundFits, Nearest, Inv, WellSized, Cap, Trace, AllFit, Follows, OneLeaves;
    var dist := new int[n + 1](_ => INT_MAX);
    var visited := new int[n + 1](_ => 0);
    dist[startVert] := 0;
    visited[startVert] := 1;
    var activeVerts := [startVert];
    rounds := 0;
    ghost var inside, late, fits := {startVert}, 0, true;
    StartInv(g, n, startVert, targetVert, dist[..], visited[..]);
    assert Elems(activeVerts) == {startVert};
    seen := [Snapshot(dist[..], visited[..], Elems(activeVerts))];
    StartTrace(g, n, startVert, seen);
    var cap := Cap(n);
    while rounds < cap && visited[targetVert] == 0
      invariant rounds <= cap && forall k :: 0 <= k < |activeVerts| ==> activeVerts[k] <= n
      invariant Inv(g, n, startVert, targetVert, inside, late, dist[..], visited[..], Elems(activeVerts), rounds, fits)
      invariant |seen| == rounds + 1 && seen[rounds] == Snapshot(dist[..], visited[..], Elems(activeVerts))
      invariant Trace(g, n, startVert, seen) && (forall k :: 0 <= k < |seen| ==> Shaped(n, seen[k])) && fits == AllFit(g, n, seen)
      decreases cap - rounds
    {
      ghost var before := activeVerts;
      activeVerts, inside, late, fits := Visit(g, n, startVert, targetVert, dist, visited, activeVerts, inside, late, rounds, fits);
      ghost var now := Snapshot(dist[..], visited[..], Elems(activeVerts));
      TraceGrows(g, n, startVert, seen, now, AllFit(g, n, seen));
      seen := seen + [now];
      rounds := rounds + 1;
    }
    Finish(g, n, startVert, targetVert, inside, late, dist[..], visited[..], Elems(activeVerts), rounds, fits);
    r := if dist[targetVert] != INT_MAX then dist[targetVert] else -1;
  }

  lemma StartTrace(g: Graph, n: nat, s: nat, seen: seq<Snapshot>)
    requires WellSized(g, n) && s <= n && |seen| == 1 && Shaped(n, seen[0]) && seen[0].verts == {s}
    requires forall v: nat :: v <= n ==> seen[0].dist[v] == (if v == s then 0 else INT_MAX) && seen[0].visited[v] == (if v == s then 1 else 0)
    ensures Trace(g, n, s, seen) && AllFit(g, n, seen)
  {
  }

  // ---------------------------------------------------------------------------
  // An overflow

  /** Three vertices and one edge, from 1 to 2. */
  function OneEdge(): Graph { [[0, 0, 0, 0], [0, 0, 1, 0], [0, 0, 0, 0], [0, 0, 0, 0]] }

  lemma OneEdgeIs()
    ensures WellSized(OneEdge(), 3) && OneEdge()[1][2] == 1
    ensures forall u: nat, v: nat :: Edge(OneEdge(), 3, u, v) <==> u == 1 && v == 2
  {
    var g := OneEdge();
    assert g[0] == g[2] == g[3] == [0, 0, 0, 0] && g[1] == [0, 0, 1, 0];
  }

  lemma OneEdgeFits()
    ensures WellSized(OneEdge(), 3) && SumsFit(OneEdge(), 3, 1) && !Reachable(OneEdge(), 3, 1, 3)
  {
    var g := OneEdge();
    OneEdgeIs();
    hide OneEdge;
    assert Joins(g, 3, 1, 1, [1]) && Weight(g, 3, [1]) == 0;
    forall u: nat, v: nat, d: int | Shortest(g, 3, 1, u, d) && Edge(g, 3, u, v) ensures d + g[u][v] < INT_MAX {
      assert u == 1 && v == 2 && AtLeast(g, 3, 1, 1, d) && d <= Weight(g, 3, [1]);
    }
    if p :| Joins(g, 3, 1, 3, p) { ClosedContainsReachable(g, 3, 1, 3, p, {1, 2}); }
  }

  /** A search for vertex 3, which no edge reaches, adds the edge's weight to INT_MAX. */
  method UnreachableOverflows() returns (g: Graph, r: int, ghost seen: seq<Snapshot>)
    ensures g == OneEdge() && WellSized(g, 3) && Trace(g, 3, 1, seen) && r == -1 && !AllFit(g, 3, seen)
  {
    g := OneEdge();
    OneEdgeFits();
    OneEdgeIs();
    assert Edge(g, 3, 1, 2);
    var rounds;
    r, rounds, seen := Search(g, 1, 3, 3);
  }
}
