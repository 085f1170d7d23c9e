/**
  One map-reduce job of the breadth-first search, and chains of such jobs.  A job maps
  every line, brings lines with equal keys together in any order, and reduces each group.
 */
module MapReduceBfs {
  import opened VertexLine

  // ---------------------------------------------------------------------------
  // The mapper

  /** The distance a vertex offers to its neighbours. */
  function Offer(dist: int): int {
    if dist == INF then INF else dist + 1
  }

  function Updates(adj: seq<string>, dist: int): (r: seq<VertexInfo>)
    ensures |r| == |adj|
    ensures forall i :: 0 <= i < |r| ==> r[i] == VertexInfo(IdOf(adj[i]), Offer(dist), [])
  {
    seq(|adj|, i requires 0 <= i < |adj| => VertexInfo(IdOf(adj[i]), Offer(dist), []))
  }

  function MapAll(lines: seq<VertexInfo>): seq<VertexInfo> {
    if lines == [] then []
    else [lines[0]] + Updates(lines[0].adj, lines[0].dist) + MapAll(lines[1..])
  }

  /** What a job's map phase emits: every vertex itself, and one offer along every edge. */
  lemma {:induction false} MapAllEmits(lines: seq<VertexInfo>, v: VertexInfo)
    ensures v in MapAll(lines) <==>
            v in lines || exists u, el :: u in lines && el in u.adj && v == VertexInfo(IdOf(el), Offer(u.dist), [])
  {
    if lines != [] {
      MapAllEmits(lines[1..], v);
      var ups := Updates(lines[0].adj, lines[0].dist);
      if v in ups {
        var i :| 0 <= i < |ups| && ups[i] == v;
        assert lines[0] in lines && lines[0].adj[i] in lines[0].adj;
      }
      forall el | el in lines[0].adj && v == VertexInfo(IdOf(el), Offer(lines[0].dist), [])
        ensures v in ups
      {
        var i :| 0 <= i < |lines[0].adj| && lines[0].adj[i] == el;
        assert ups[i] == v;
      }
    }
  }

  // ---------------------------------------------------------------------------
  // The reducer

  /** The elements of `source` that `dest` lacks, repeats included. */
  function Missing(dest: seq<string>, source: seq<string>): seq<string> {
    if source == [] then []
    else (if source[0] in dest then [] else [source[0]]) + Missing(dest, source[1..])
  }

  /** The elements are kept or dropped one by one, in order: dropped iff the list has them. */
  lemma {:induction false} MissingFilters(dest: seq<string>, a: seq<string>, b: seq<string>, el: string)
    ensures Missing(dest, a + b) == Missing(dest, a) + Missing(dest, b)
    ensures Missing(dest, [el]) == if el in dest then [] else [el]
  {
    assert [el][1..] == [];
    if a == [] {
      assert a + b == b;
    } else {
      MissingFilters(dest, a[1..], b, el);
      var first := if a[0] in dest then [] else [a[0]];
      assert (a + b)[1..] == a[1..] + b;
      assert first + (Missing(dest, a[1..]) + Missing(dest, b)) == (first + Missing(dest, a[1..])) + Missing(dest, b);
    }
  }

  lemma {:induction false} MissingCounts(dest: seq<string>, a: seq<string>, el: string)
    ensures multiset(Missing(dest, a))[el] == if el in dest then 0 else multiset(a)[el]
  {
    if a != [] {
      MissingCounts(dest, a[1..], el);
      assert a == [a[0]] + a[1..];
    }
  }

  method MergeVects(dest: seq<string>, source: seq<string>) returns (r: seq<string>)
    ensures r == dest + Missing(dest, source)
  {
    r := dest;
    var i := 0;
    while i < |source|
      invariant 0 <= i <= |source|
      invariant r + Missing(dest, source[i..]) == dest + Missing(dest, source)
    {
      assert source[i..][1..] == source[i + 1..];
      if source[i] !in dest {
        r := r + [source[i]];
      }
      i := i + 1;
    }
  }

  function Combine(a: VertexInfo, b: VertexInfo): VertexInfo {
    VertexInfo(a.id, if b.dist <= a.dist then b.dist else a.dist, a.adj + Missing(a.adj, b.adj))
  }

  /** The reducer's output when `cur` summarises the group it is in and `rest` is still to come. */
  function ReduceFrom(cur: VertexInfo, rest: seq<VertexInfo>): seq<VertexInfo>
    decreases |rest|
  {
    if rest == [] then [cur]
    else if rest[0].id != cur.id then [cur] + ReduceFrom(rest[0], rest[1..])
    else ReduceFrom(Combine(cur, rest[0]), rest[1..])
  }

  /** Lines with the same vertex are next to each other. */
  ghost predicate Grouped(lines: seq<VertexInfo>) {
    forall i, j, k :: 0 <= i < j < k < |lines| && lines[i].id == lines[k].id ==> lines[j].id == lines[i].id
  }

  ghost predicate DistinctIds(lines: seq<VertexInfo>) {
    forall i, j :: 0 <= i < j < |lines| ==> lines[i].id != lines[j].id
  }

  /** Every line's list is empty or the vertex's own list. */
  ghost predicate ListsFrom(lines: seq<VertexInfo>, lists: map<nat, seq<string>>) {
    forall r <- lines :: r.id in lists && (r.adj == [] || r.adj == lists[r.id])
  }

  ghost predicate HasId(lines: seq<VertexInfo>, id: nat) {
    exists r <- lines :: r.id == id
  }

  ghost predicate HasDist(lines: seq<VertexInfo>, id: nat, dist: int) {
    exists r <- lines :: r.id == id && r.dist == dist
  }

  /** `o` carries the least distance of its group and the group's neighbour list. */
  ghost predicate Summarises(o: VertexInfo, lines: seq<VertexInfo>, lists: map<nat, seq<string>>) {
    && HasDist(lines, o.id, o.dist)
    && (forall r <- lines :: r.id == o.id ==> o.dist <= r.dist)
    && o.id in lists && (o.adj == [] || o.adj == lists[o.id])
    && (forall r <- lines :: r.id == o.id && r.adj == lists[o.id] ==> o.adj == lists[o.id])
  }

  ghost predicate ReducedTo(lines: seq<VertexInfo>, out: seq<VertexInfo>, lists: map<nat, seq<string>>) {
    && DistinctIds(out)
    && (forall o <- out :: Summarises(o, lines, lists))
    && (forall r <- lines :: HasId(out, r.id))
  }

  lemma {:induction false} NothingMissing(dest: seq<string>, source: seq<string>)
    requires forall el <- source :: el in dest
    ensures Missing(dest, source) == []
  {
    if source != [] { NothingMissing(dest, source[1..]); }
  }

  lemma {:induction false} AllMissing(source: seq<string>)
    ensures Missing([], source) == source
  {
    if source != [] { AllMissing(source[1..]); }
  }

  lemma CombineLists(a: VertexInfo, b: VertexInfo, list: seq<string>)
    requires (a.adj == [] || a.adj == list) && (b.adj == [] || b.adj == list)
    ensures Combine(a, b).adj == if a.adj == [] && b.adj == [] then [] else list
  {
    AllMissing(b.adj);
    if a.adj == list { NothingMissing(a.adj, b.adj); }
  }

  /** Replacing two lines of a group by their combination keeps every summary. */
  lemma CombineKeepsSummaries(o: VertexInfo, a: VertexInfo, b: VertexInfo, rest: seq<VertexInfo>, lists: map<nat, seq<string>>)
    requires a.id == b.id && ListsFrom([a, b] + rest, lists)
    requires Summarises(o, [Combine(a, b)] + rest, lists)
    ensures Summarises(o, [a, b] + rest, lists)
  {
    var old', new' := [a, b] + rest, [Combine(a, b)] + rest;
    assert a in old' && b in old' && Combine(a, b) in new';
    CombineLists(a, b, lists[a.id]);
    var r :| r in new' && r.id == o.id && r.dist == o.dist;
    assert r in rest ==> r in old';
    assert forall q <- old' :: q == a || q == b || (q in rest && q in new');
  }

  lemma JoinGroup(a: VertexInfo, b: VertexInfo, rest: seq<VertexInfo>, out: seq<VertexInfo>, lists: map<nat, seq<string>>)
    requires a.id == b.id && ListsFrom([a, b] + rest, lists)
    requires ReducedTo([Combine(a, b)] + rest, out, lists)
    ensures ReducedTo([a, b] + rest, out, lists)
  {
    forall o <- out ensures Summarises(o, [a, b] + rest, lists) {
      CombineKeepsSummaries(o, a, b, rest, lists);
    }
    forall r <- [a, b] + rest ensures HasId(out, r.id) {
      var q := if r == a || r == b then Combine(a, b) else r;
      assert q in [Combine(a, b)] + rest && q.id == r.id;
    }
  }

  /** A later group's summary still holds once a line of another vertex is put in front. */
  lemma SummaryIgnoresOthers(o: VertexInfo, a: VertexInfo, rest: seq<VertexInfo>, lists: map<nat, seq<string>>)
    requires Summarises(o, rest, lists) && o.id != a.id
    ensures Summarises(o, [a] + rest, lists)
  {
    var r :| r in rest && r.id == o.id && r.dist == o.dist;
    assert r in [a] + rest;
  }

  lemma SplitOff(a: VertexInfo, rest: seq<VertexInfo>, out: seq<VertexInfo>, lists: map<nat, seq<string>>)
    requires forall r <- rest :: r.id != a.id
    requires a.id in lists && (a.adj == [] || a.adj == lists[a.id])
    requires ReducedTo(rest, out, lists)
    ensures ReducedTo([a] + rest, [a] + out, lists)
  {
    assert a in [a] + rest && a in [a] + out;
    assert Summarises(a, [a] + rest, lists);
    forall o <- out ensures o.id != a.id && Summarises(o, [a] + rest, lists) {
      assert Summarises(o, rest, lists);
      SummaryIgnoresOthers(o, a, rest, lists);
    }
    forall r <- [a] + rest ensures HasId([a] + out, r.id) {
      if r in rest {
        var o :| o in out && o.id == r.id;
        assert o in [a] + out;
      }
    }
  }

  lemma GroupedParts(a: VertexInfo, b: VertexInfo, rest: seq<VertexInfo>)
    requires Grouped([a, b] + rest)
    ensures Grouped([b] + rest)
    ensures forall c: VertexInfo :: c.id == a.id == b.id ==> Grouped([c] + rest)
    ensures a.id != b.id ==> forall r <- [b] + rest :: r.id != a.id
  {
    var lines := [a, b] + rest;
    assert forall c: VertexInfo, i :: 0 < i <= |rest| ==> ([c] + rest)[i] == lines[i + 1];
    assert lines[0] == a && lines[1] == b;
    forall r <- [b] + rest ensures a.id != b.id ==> r.id != a.id {
      var k :| 0 <= k <= |rest| && ([b] + rest)[k] == r;
      assert lines[k + 1] == r;
    }
  }

  lemma {:induction false} ReduceIsGroupwise(cur: VertexInfo, rest: seq<VertexInfo>, lists: map<nat, seq<string>>)
    requires Grouped([cur] + rest) && ListsFrom([cur] + rest, lists)
    ensures ReducedTo([cur] + rest, ReduceFrom(cur, rest), lists)
    decreases |rest|
  {
    assert cur in [cur] + rest;
    if rest == [] {
      assert [cur] + rest == [cur];
    } else {
      var b, tail := rest[0], rest[1..];
      assert [cur] + rest == [cur, b] + tail && rest == [b] + tail;
      assert forall r <- rest :: r in [cur] + rest;
      GroupedParts(cur, b, tail);
      if b.id == cur.id {
        CombineLists(cur, b, lists[cur.id]);
        ReduceIsGroupwise(Combine(cur, b), tail, lists);
        JoinGroup(cur, b, tail, ReduceFrom(cur, rest), lists);
      } else {
        ReduceIsGroupwise(b, tail, lists);
        SplitOff(cur, rest, ReduceFrom(b, tail), lists);
      }
    }
  }
}
