/**
  What a chain of map-reduce jobs computes: after k jobs every vertex holds its
  breadth-first distance from the source if that is at most k, and INF otherwise.
 */
module BfsRounds {
  import opened FiniteSets
  import opened VertexLine
  import opened MapReduceBfs

  /** Neighbour lists by vertex. */
  type Graph = map<nat, seq<string>>

  ghost predicate Edge(g: Graph, u: nat, v: nat) {
    u in g && exists el <- g[u] :: IdOf(el) == v
  }

  /** Every neighbour has a line of its own. */
  ghost predicate Closed(g: Graph) {
    forall u, v :: Edge(g, u, v) ==> v in g
  }

  /** There is a walk of exactly n edges from s to v. */
  ghost predicate Walk(g: Graph, s: nat, v: nat, n: nat)
    decreases n
  {
    if n == 0 then v == s else exists u :: Edge(g, u, v) && Walk(g, s, u, n - 1)
  }

  /** d is the breadth-first distance from s to v. */
  ghost predicate Nearest(g: Graph, s: nat, v: nat, d: nat) {
    Walk(g, s, v, d) && forall j: nat :: j < d ==> !Walk(g, s, v, j)
  }

  /** d is the breadth-first distance if that is at most k, and INF otherwise. */
  ghost predicate Truncated(g: Graph, s: nat, k: nat, v: nat, d: int) {
    if d == INF then forall j: nat :: j <= k ==> !Walk(g, s, v, j)
    else 0 <= d <= k && Nearest(g, s, v, d)
  }

  /** The lines hold the graph, one line a vertex, with distances exact up to k. */
  ghost predicate Represents(lines: seq<VertexInfo>, g: Graph, s: nat, k: nat) {
    && DistinctIds(lines)
    && (forall v <- g :: HasId(lines, v))
    && (forall r <- lines :: r.id in g && r.adj == g[r.id] && Truncated(g, s, k, r.id, r.dist))
  }

  /** One job, for some order of the lines in and between groups. */
  ghost predicate Job(before: seq<VertexInfo>, shuffled: seq<VertexInfo>, after: seq<VertexInfo>) {
    && shuffled != [] && Grouped(shuffled)
    && (forall r :: r in shuffled <==> r in MapAll(before))
    && after == ReduceFrom(shuffled[0], shuffled[1..])
  }

  lemma {:induction false} NearestExists(g: Graph, s: nat, v: nat, j: nat) returns (d: nat)
    requires Walk(g, s, v, j)
    ensures d <= j && Nearest(g, s, v, d)
  {
    if i: nat :| i < j && Walk(g, s, v, i) {
      d := NearestExists(g, s, v, i);
    } else {
      d := j;
    }
  }

  lemma {:induction false} WalkStaysInside(g: Graph, s: nat, v: nat, n: nat)
    requires s in g && Closed(g) && Walk(g, s, v, n)
    ensures v in g
  {
  }

  ghost predicate NoFurther(g: Graph, s: nat, v: nat, d: nat) {
    exists j: nat :: j <= d && Nearest(g, s, v, j)
  }

  /** The last edge of a shortest walk leaves a vertex one step nearer. */
  lemma StepBack(g: Graph, s: nat, v: nat, d: nat) returns (u: nat)
    requires 0 < d && Nearest(g, s, v, d)
    ensures Edge(g, u, v) && Nearest(g, s, u, d - 1)
  {
    u :| Edge(g, u, v) && Walk(g, s, u, d - 1);
    forall j: nat | j < d - 1 ensures !Walk(g, s, u, j) {
      assert !Walk(g, s, v, j + 1);
    }
  }

  /** The vertices along a shortest walk: one at each distance from 0 to d. */
  lemma {:induction false} Layers(g: Graph, s: nat, v: nat, d: nat) returns (vs: set<nat>)
    requires s in g && Closed(g) && Nearest(g, s, v, d)
    ensures vs <= g.Keys && |vs| == d + 1
    ensures forall u <- vs :: NoFurther(g, s, u, d)
    decreases d
  {
    hide Walk, Edge;
    assert v in g by { WalkStaysInside(g, s, v, d); }
    if d == 0 {
      vs := {v};
    } else {
      var u := StepBack(g, s, v, d);
      var below := Layers(g, s, u, d - 1);
      assert !NoFurther(g, s, v, d - 1);
      vs := below + {v};
      forall w <- vs ensures NoFurther(g, s, w, d) {
        if w in below {
          var j: nat :| j <= d - 1 && Nearest(g, s, w, j);
        }
      }
    }
  }

  lemma NearestIsSmall(g: Graph, s: nat, v: nat, d: nat)
    requires s in g && Closed(g) && Nearest(g, s, v, d)
    ensures d < |g|
  {
    var vs := Layers(g, s, v, d);
    SubsetSize(vs, g.Keys);
  }

  /** The messages a vertex receives: its own line, and offers along incoming edges. */
  lemma MessagesOf(before: seq<VertexInfo>, g: Graph, s: nat, k: nat, r: VertexInfo)
    requires Represents(before, g, s, k) && r in MapAll(before)
    ensures r in before || exists u <- before :: Edge(g, u.id, r.id) && r.dist == Offer(u.dist) && r.adj == []
  {
    MapAllEmits(before, r);
    if r !in before {
      var u, el :| u in before && el in u.adj && r == VertexInfo(IdOf(el), Offer(u.dist), []);
      assert Edge(g, u.id, r.id);
    }
  }

  lemma ExtendWalk(g: Graph, s: nat, u: nat, v: nat, n: nat)
    requires Edge(g, u, v) && Walk(g, s, u, n)
    ensures Walk(g, s, v, n + 1)
  {
  }

  /** A finite message is the length of a walk of at most k + 1 edges. */
  lemma MessageIsWalk(before: seq<VertexInfo>, g: Graph, s: nat, k: nat, r: VertexInfo)
    requires Represents(before, g, s, k) && r in MapAll(before)
    ensures r.dist != INF ==> 0 <= r.dist <= k + 1 && Walk(g, s, r.id, r.dist)
  {
    hide Walk, Edge, MapAll;
    MessagesOf(before, g, s, k, r);
    if r in before {
      assert Truncated(g, s, k, r.id, r.dist);
    } else if r.dist != INF {
      var u :| u in before && Edge(g, u.id, r.id) && r.dist == Offer(u.dist);
      assert Truncated(g, s, k, u.id, u.dist);
      ExtendWalk(g, s, u.id, r.id, u.dist);
    }
  }

  /** The message that brings a breadth-first distance of at most k + 1. */
  lemma MessageArrives(before: seq<VertexInfo>, g: Graph, s: nat, k: nat, v: nat, d: nat) returns (r: VertexInfo)
    requires Represents(before, g, s, k) && s in g && Closed(g) && |g| <= INF
    requires Nearest(g, s, v, d) && d <= k + 1
    ensures r in MapAll(before) && r.id == v && r.dist <= d
  {
    WalkStaysInside(g, s, v, d);
    NearestIsSmall(g, s, v, d);
    if d <= k {
      assert HasId(before, v);
      r :| r in before && r.id == v;
    } else {
      var u :| Edge(g, u, v) && Walk(g, s, u, d - 1);
      assert HasId(before, u);
      var ru :| ru in before && ru.id == u;
      var el :| el in g[u] && IdOf(el) == v;
      r := VertexInfo(v, Offer(ru.dist), []);
      assert el in ru.adj && r == VertexInfo(IdOf(el), Offer(ru.dist), []);
    }
    MapAllEmits(before, r);
  }

  lemma ShuffledLists(before: seq<VertexInfo>, shuffled: seq<VertexInfo>, g: Graph, s: nat, k: nat)
    requires Represents(before, g, s, k) && Closed(g)
    requires forall r :: r in shuffled <==> r in MapAll(before)
    ensures ListsFrom(shuffled, g)
  {
    forall r <- shuffled ensures r.id in g && (r.adj == [] || r.adj == g[r.id]) {
      MessagesOf(before, g, s, k, r);
    }
  }

  lemma LeastIsTruncated(before: seq<VertexInfo>, shuffled: seq<VertexInfo>, g: Graph, s: nat, k: nat, o: VertexInfo)
    requires Represents(before, g, s, k) && s in g && Closed(g) && |g| <= INF
    requires forall r :: r in shuffled <==> r in MapAll(before)
    requires Summarises(o, shuffled, g)
    ensures Truncated(g, s, k + 1, o.id, o.dist)
  {
    var m :| m in shuffled && m.id == o.id && m.dist == o.dist;
    MessageIsWalk(before, g, s, k, m);
    if j: nat :| j <= k + 1 && Walk(g, s, o.id, j) {
      var d := NearestExists(g, s, o.id, j);
      NearestIsSmall(g, s, o.id, d);
      var r := MessageArrives(before, g, s, k, o.id, d);
    }
  }

  /** A vertex's own line goes through the job, so its list does too. */
  lemma OwnLineArrives(before: seq<VertexInfo>, shuffled: seq<VertexInfo>, g: Graph, s: nat, k: nat, v: nat) returns (r: VertexInfo)
    requires Represents(before, g, s, k) && v in g
    requires forall r :: r in shuffled <==> r in MapAll(before)
    ensures r in shuffled && r.id == v && r.adj == g[v]
  {
    assert HasId(before, v);
    r :| r in before && r.id == v;
    MapAllEmits(before, r);
  }

  /** One job turns distances exact up to k into distances exact up to k + 1. */
  lemma JobAdvances(before: seq<VertexInfo>, shuffled: seq<VertexInfo>, after: seq<VertexInfo>, g: Graph, s: nat, k: nat)
    requires Represents(before, g, s, k) && Job(before, shuffled, after)
    requires s in g && Closed(g) && |g| <= INF
    ensures Represents(after, g, s, k + 1)
  {
    hide Represents, MapAll, ReduceFrom, Closed, Grouped;
    ShuffledLists(before, shuffled, g, s, k);
    assert shuffled == [shuffled[0]] + shuffled[1..];
    ReduceIsGroupwise(shuffled[0], shuffled[1..], g);
    ReducedRepresents(before, shuffled, after, g, s, k);
  }

  lemma ReducedRepresents(before: seq<VertexInfo>, shuffled: seq<VertexInfo>, after: seq<VertexInfo>, g: Graph, s: nat, k: nat)
    requires Represents(before, g, s, k) && s in g && Closed(g) && |g| <= INF
    requires forall r :: r in shuffled <==> r in MapAll(before)
    requires ReducedTo(shuffled, after, g)
    ensures Represents(after, g, s, k + 1)
  {
    hide Walk, Edge, MapAll, Truncated, Closed;
    forall v <- g ensures HasId(after, v) {
      var r := OwnLineArrives(before, shuffled, g, s, k, v);
    }
    forall o <- after ensures o.id in g && o.adj == g[o.id] && Truncated(g, s, k + 1, o.id, o.dist) {
      assert Summarises(o, shuffled, g);
      var r := OwnLineArrives(before, shuffled, g, s, k, o.id);
      LeastIsTruncated(before, shuffled, g, s, k, o);
    }
  }
}
