/**
  Counting the triangles of a simple undirected graph.  Vertices are 1 to n; entry 0 of
  the adjacency lists is spare.
 */
module Triangles {

  type Graph = seq<seq<nat>>

  datatype VertexColors = VertexColors(isRed: bool, isBlue: bool, isBlack: bool)

  /** Lists are mutual, in range, without loops and without repeats. */
  ghost predicate Simple(g: Graph, n: nat) {
    && |g| == n + 1 && g[0] == []
    && (forall u: nat, w: nat {:trigger w in g[u]} :: u <= n && w in g[u] ==> 1 <= w <= n && w != u && u in g[w])
    && (forall u: nat, i, j :: u <= n && 0 <= i < j < |g[u]| ==> g[u][i] != g[u][j])
  }

  /** Pairs of adjacent vertices, both unvisited neighbours of `vertex`. */
  ghost function OpenPairs(g: Graph, n: nat, visited: seq<bool>, vertex: nat): set<(nat, nat)>
    requires Simple(g, n) && |visited| == n + 1 && vertex <= n
  {
    set x, y | x in g[vertex] && y in g[vertex] && IsOpenPair(g, n, visited, vertex, x, y) :: (x, y)
  }

  ghost predicate IsOpenPair(g: Graph, n: nat, visited: seq<bool>, vertex: nat, x: nat, y: nat)
    requires Simple(g, n) && |visited| == n + 1 && vertex <= n && x in g[vertex] && y in g[vertex]
  {
    x < y && !visited[x] && !visited[y] && y in g[x]
  }

  // ---------------------------------------------------------------------------
  // One call of trianglesCnt

  /** Pair (x, y) of the queue `all` is counted once one of its ends is among the first k served. */
  ghost predicate Counted(g: Graph, n: nat, all: seq<nat>, k: nat, x: nat, y: nat)
    requires Simple(g, n) && k <= |all|
  {
    x < y && x <= n && x in all && y in all && y in g[x] && (x in all[..k] || y in all[..k])
  }

  /** ... or while vertex all[k] is served, once the other end has been met in its list. */
  ghost predicate CountedNow(g: Graph, n: nat, all: seq<nat>, k: nat, j: nat, x: nat, y: nat)
    requires Simple(g, n) && k < |all| && all[k] <= n && j <= |g[all[k]]|
  {
    || Counted(g, n, all, k, x, y)
    || (x < y && x in all && y in all
        && ((x == all[k] && y in g[all[k]][..j]) || (y == all[k] && x in g[all[k]][..j])))
  }

  function Pair(u: nat, w: nat): (nat, nat) {
    if u < w then (u, w) else (w, u)
  }

  ghost predicate Colored(n: nat, vc: seq<VertexColors>, visited: seq<bool>, vertex: nat, all: seq<nat>, red: nat) {
    && |vc| == |visited| == n + 1 && red <= |all|
    && (forall v: nat :: v <= n ==> (vc[v].isBlue <==> v in all))
    && (forall v: nat :: v <= n ==> (vc[v].isRed <==> v == vertex || v in all[..red]))
  }

  /** Serving vertex all[k]: counts its edges to later vertices of the queue. */
  method Serve(g: Graph, n: nat, vc0: seq<VertexColors>, visited: array<bool>, vertex: nat, ghost all: seq<nat>, ghost k: nat,
               cur: nat, cnt0: nat, ghost done0: set<(nat, nat)>)
    returns (vc: seq<VertexColors>, cnt: nat, ghost done: set<(nat, nat)>)
    requires Simple(g, n) && visited.Length == n + 1 && vertex <= n && visited[vertex]
    requires k < |all| && cur == all[k] && cur <= n
    requires forall i :: 0 <= i < |all| ==> all[i] <= n && !visited[all[i]]
    requires forall i, j :: 0 <= i < j < |all| ==> all[i] != all[j]
    requires Colored(n, vc0, visited[..], vertex, all, k)
    requires cnt0 == |done0| && forall x: nat, y: nat :: (x, y) in done0 <==> Counted(g, n, all, k, x, y)
    ensures Colored(n, vc, visited[..], vertex, all, k + 1)
    ensures cnt == |done| && forall x: nat, y: nat :: (x, y) in done <==> Counted(g, n, all, k + 1, x, y)
  {
    vc := vc0[cur := vc0[cur].(isRed := true)];
    cnt, done := cnt0, done0;
    assert all[..k + 1] == all[..k] + [cur];
    var i := 0;
    while i < |g[cur]|
      invariant 0 <= i <= |g[cur]|
      invariant Colored(n, vc, visited[..], vertex, all, k + 1)
      invariant cnt == |done|
      invariant forall x: nat, y: nat :: (x, y) in done <==> CountedNow(g, n, all, k, i, x, y)
    {
      var w := g[cur][i];
      assert w in g[cur] && g[cur][..i + 1] == g[cur][..i] + [w];
      if !vc[w].isRed && !visited[w] {
        vc := vc[w := vc[w].(isBlack := true)];
        if vc[w].isBlack && vc[w].isBlue {
          cnt := cnt + 1;
          assert Pair(cur, w) !in done;
          done := done + {Pair(cur, w)};
        }
      }
      i := i + 1;
    }
    assert g[cur][..i] == g[cur];
  }

  /** The queue that the first loop fills: the unvisited neighbours, in list order. */
  ghost predicate QueueOf(g: Graph, n: nat, visited: seq<bool>, vertex: nat, j: nat, all: seq<nat>)
    requires Simple(g, n) && |visited| == n + 1 && vertex <= n && j <= |g[vertex]|
  {
    && (forall v: nat :: v in all <==> v in g[vertex][..j] && v <= n && !visited[v])
    && (forall a, b :: 0 <= a < b < |all| ==> all[a] != all[b])
  }

  /** The first loop of `trianglesCnt`. */
  method FillQueue(g: Graph, n: nat, vc0: seq<VertexColors>, visited: array<bool>, vertex: nat)
    returns (q: seq<nat>, vc: seq<VertexColors>)
    requires Simple(g, n) && visited.Length == n + 1 && 1 <= vertex <= n && visited[vertex]
    requires Colored(n, vc0, visited[..], vertex, [], 0)
    ensures QueueOf(g, n, visited[..], vertex, |g[vertex]|, q) && Colored(n, vc, visited[..], vertex, q, 0)
  {
    q, vc := [], vc0;
    var i := 0;
    while i < |g[vertex]|
      invariant 0 <= i <= |g[vertex]|
      invariant QueueOf(g, n, visited[..], vertex, i, q) && Colored(n, vc, visited[..], vertex, q, 0)
    {
      var w := g[vertex][i];
      assert w in g[vertex] && g[vertex][..i + 1] == g[vertex][..i] + [w];
      if !visited[w] {
        q := q + [w];
        vc := vc[w := vc[w].(isBlue := true)];
      }
      i := i + 1;
    }
  }

  lemma QueueIsOpen(g: Graph, n: nat, visited: seq<bool>, vertex: nat, all: seq<nat>)
    requires Simple(g, n) && |visited| == n + 1 && vertex <= n
    requires QueueOf(g, n, visited, vertex, |g[vertex]|, all)
    ensures forall a :: 0 <= a < |all| ==> all[a] <= n && !visited[all[a]]
    ensures forall a, b :: 0 <= a < b < |all| ==> all[a] != all[b]
  {
    forall a | 0 <= a < |all| ensures all[a] <= n && !visited[all[a]] {
      assert all[a] in all;
    }
  }

  lemma DoneIsOpenPairs(g: Graph, n: nat, visited: seq<bool>, vertex: nat, all: seq<nat>, done: set<(nat, nat)>)
    requires Simple(g, n) && |visited| == n + 1 && vertex <= n
    requires QueueOf(g, n, visited, vertex, |g[vertex]|, all)
    requires forall x: nat, y: nat :: (x, y) in done <==> Counted(g, n, all, |all|, x, y)
    ensures done == OpenPairs(g, n, visited, vertex)
  {
    var pairs := OpenPairs(g, n, visited, vertex);
    assert g[vertex][..|g[vertex]|] == g[vertex] && all[..|all|] == all;
    forall p | p in done ensures p in pairs {
      assert p == (p.0, p.1);
      assert p.0 in g[vertex] && p.1 in g[vertex] && IsOpenPair(g, n, visited, vertex, p.0, p.1);
    }
    forall p | p in pairs ensures p in done {
      assert p == (p.0, p.1) && Counted(g, n, all, |all|, p.0, p.1);
    }
  }

  method TrianglesCnt(g: Graph, n: nat, colors: seq<VertexColors>, visited: array<bool>, vertex: nat) returns (cnt: nat)
    requires Simple(g, n) && visited.Length == n + 1 && 1 <= vertex <= n
    requires |colors| == n + 1 && forall v: nat :: v <= n ==> colors[v] == VertexColors(false, false, false)
    modifies visited
    ensures visited[..] == old(visited[..])[vertex := true]
    ensures cnt == |OpenPairs(g, n, visited[..], vertex)|
  {
    var vc := colors[vertex := colors[vertex].(isRed := true)];
    visited[vertex] := true;
    cnt := 0;
    var q;
    q, vc := FillQueue(g, n, vc, visited, vertex);
    ghost var all, k, done := q, 0, {};
    QueueIsOpen(g, n, visited[..], vertex, all);
    while q != []
      invariant 0 <= k <= |all| && q == all[k..] && visited[..] == old(visited[..])[vertex := true]
      invariant Colored(n, vc, visited[..], vertex, all, k)
      invariant cnt == |done| && forall x: nat, y: nat :: (x, y) in done <==> Counted(g, n, all, k, x, y)
      decreases |q|
    {
      var curVertex := q[0];
      q := q[1..];
      vc, cnt, done := Serve(g, n, vc, visited, vertex, all, k, curVertex, cnt, done);
      k := k + 1;
    }
    DoneIsOpenPairs(g, n, visited[..], vertex, all, done);
  }

  // ---------------------------------------------------------------------------
  // The whole count

  ghost predicate IsTriangle(g: Graph, n: nat, a: nat, b: nat, c: nat)
    requires Simple(g, n)
  {
    1 <= a < b < c <= n && b in g[a] && c in g[a] && c in g[b]
  }

  /** The triangles, each written once with its vertices in increasing order. */
  ghost function AllTriangles(g: Graph, n: nat): set<(nat, nat, nat)>
    requires Simple(g, n)
  {
    TrianglesBelow(g, n, n + 1)
  }

  /** Those whose least vertex is below `bound`. */
  ghost function TrianglesBelow(g: Graph, n: nat, bound: nat): set<(nat, nat, nat)>
    requires Simple(g, n)
  {
    set a: nat, b: nat, c: nat | a < bound && a <= n && b <= n && c <= n && IsTriangle(g, n, a, b, c) :: (a, b, c)
  }

  ghost function Triples(a: nat, pairs: set<(nat, nat)>): set<(nat, nat, nat)> {
    set p | p in pairs :: (a, p.0, p.1)
  }

  lemma {:induction false} TriplesSize(a: nat, pairs: set<(nat, nat)>)
    ensures |Triples(a, pairs)| == |pairs|
  {
    if p :| p in pairs {
      TriplesSize(a, pairs - {p});
      assert Triples(a, pairs) == Triples(a, pairs - {p}) + {(a, p.0, p.1)};
    } else {
      assert Triples(a, pairs) == {};
    }
  }

  /** The triangles with least vertex i are the pairs that `trianglesCnt` finds at i. */
  lemma NewTriangles(g: Graph, n: nat, visited: seq<bool>, i: nat)
    requires Simple(g, n) && 1 <= i <= n && |visited| == n + 1
    requires forall v: nat :: 1 <= v <= n ==> (visited[v] <==> v <= i)
    ensures |TrianglesBelow(g, n, i + 1)| == |TrianglesBelow(g, n, i)| + |OpenPairs(g, n, visited, i)|
  {
    var old', new', pairs := TrianglesBelow(g, n, i), TrianglesBelow(g, n, i + 1), OpenPairs(g, n, visited, i);
    forall t | t in new' ensures t in old' + Triples(i, pairs) {
      if t.0 == i { assert (t.1, t.2) in pairs; assert t == (i, (t.1, t.2).0, (t.1, t.2).1); }
    }
    forall t | t in Triples(i, pairs) ensures t in new' {
      assert IsTriangle(g, n, t.0, t.1, t.2) && t == (t.0, t.1, t.2);
    }
    assert new' == old' + Triples(i, pairs);
    assert old' !! Triples(i, pairs);
    TriplesSize(i, pairs);
  }

  method CountTriangles(g: Graph, n: nat) returns (cnt: nat)
    requires Simple(g, n)
    ensures cnt == |AllTriangles(g, n)|
  {
    var colors := seq(n + 1, _ => VertexColors(false, false, false));
    var visited := new bool[n + 1](_ => false);
    cnt := 0;
    var i := 1;
    assert TrianglesBelow(g, n, 1) == {};
    while i < visited.Length
      invariant 1 <= i <= n + 1
      invariant forall v: nat :: v <= n ==> (visited[v] <==> 1 <= v < i)
      invariant cnt == |TrianglesBelow(g, n, i)|
    {
      if !visited[i] {
        var found := TrianglesCnt(g, n, colors, visited, i);
        cnt := cnt + found;
        NewTriangles(g, n, visited[..], i);
      }
      i := i + 1;
    }
  }

  /** Every set of three pairwise adjacent vertices is written as exactly one triple. */
  lemma TriplesAreThreeSets(g: Graph, n: nat, u: nat, v: nat, w: nat)
    requires Simple(g, n) && u <= n && v <= n && w <= n && v in g[u] && w in g[u] && w in g[v]
    ensures exists t :: t in AllTriangles(g, n) && {t.0, t.1, t.2} == {u, v, w}
    ensures forall s, t | s in AllTriangles(g, n) && t in AllTriangles(g, n) ::
              {s.0, s.1, s.2} == {t.0, t.1, t.2} ==> s == t
  {
    var a := if u < v then (if u < w then u else w) else if v < w then v else w;
    var c := if u > v then (if u > w then u else w) else if v > w then v else w;
    var b := if u != a && u != c then u else if v != a && v != c then v else w;
    assert IsTriangle(g, n, a, b, c);
    assert (a, b, c) in AllTriangles(g, n) && {a, b, c} == {u, v, w};
    forall s, t | s in AllTriangles(g, n) && t in AllTriangles(g, n) && {s.0, s.1, s.2} == {t.0, t.1, t.2} ensures s == t {
      assert s.0 in {t.0, t.1, t.2} && s.1 in {t.0, t.1, t.2} && s.2 in {t.0, t.1, t.2};
      assert t.0 in {s.0, s.1, s.2} && t.1 in {s.0, s.1, s.2} && t.2 in {s.0, s.1, s.2};
    }
  }
}
