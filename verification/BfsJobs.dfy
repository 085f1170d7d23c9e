/**
  The mapper and reducer programs on text, and runs of whole jobs on text: the
  breadth-first theorem for the files that the programs actually read and write.
 */
module BfsJobs {
  import opened Options
  import opened VertexLine
  import opened MapReduceBfs
  import opened BfsRounds

  ghost predicate Readable(lines: seq<string>) {
    forall l <- lines :: ParseLine(l).Some?
  }

  function PrintAll(vs: seq<VertexInfo>): (lines: seq<string>)
    ensures |lines| == |vs| && forall i :: 0 <= i < |vs| ==> lines[i] == PrintLine(vs[i])
  {
    seq(|vs|, i requires 0 <= i < |vs| => PrintLine(vs[i]))
  }

  ghost function ParseAll(lines: seq<string>): (vs: seq<VertexInfo>)
    requires Readable(lines)
    ensures |vs| == |lines| && forall i :: 0 <= i < |vs| ==> Some(vs[i]) == ParseLine(lines[i])
  {
    seq(|lines|, i requires 0 <= i < |lines| => assert lines[i] in lines; ParseLine(lines[i]).value)
  }

  function UpdateLines(adj: seq<string>, dist: int): (r: seq<string>)
    ensures |r| == |adj| && forall i :: 0 <= i < |r| ==> r[i] == UpdateLine(adj[i], dist)
  {
    seq(|adj|, i requires 0 <= i < |adj| => UpdateLine(adj[i], dist))
  }

  ghost function MapText(lines: seq<string>): seq<string>
    requires Readable(lines)
  {
    if lines == [] then []
    else
      var v := ParseLine(lines[0]).value;
      [lines[0]] + UpdateLines(v.adj, v.dist) + MapText(lines[1..])
  }

  lemma MapTextStep(out: seq<string>, lines: seq<string>, i: nat)
    requires Readable(lines) && i < |lines|
    ensures lines[i] in lines
    ensures var v := ParseLine(lines[i]).value;
      out + MapText(lines[i..]) == (out + [lines[i]] + UpdateLines(v.adj, v.dist)) + MapText(lines[i + 1..])
  {
    assert lines[i..][1..] == lines[i + 1..];
  }

  method Mapper(lines: seq<string>) returns (out: seq<string>)
    requires Readable(lines)
    ensures out == MapText(lines)
  {
    hide ParseLine;
    out := [];
    var i := 0;
    while i < |lines|
      invariant 0 <= i <= |lines|
      invariant out + MapText(lines[i..]) == MapText(lines)
    {
      MapTextStep(out, lines, i);
      var info := ParseLine(lines[i]).value;
      ghost var emitted := out + [lines[i]] + UpdateLines(info.adj, info.dist);
      out := out + [lines[i]];
      if info.adj != [] {
        out := out + UpdateLines(info.adj, info.dist);
      }
      assert out == emitted;
      i := i + 1;
    }
  }

  /** Where the output of line i begins: every line before it was followed by one line per neighbour. */
  ghost function Start(lines: seq<string>, i: nat): nat
    requires Readable(lines) && i <= |lines|
  {
    if i == 0 then 0 else 1 + |ParseLine(lines[0]).value.adj| + Start(lines[1..], i - 1)
  }

  /** At `at` stands the line, then for each of its neighbours in order the line that offers it the next distance. */
  ghost predicate EmittedAt(out: seq<string>, at: nat, line: string)
    requires ParseLine(line).Some?
  {
    var v := ParseLine(line).value;
    && at + |v.adj| < |out| && out[at] == line
    && forall k: nat :: k < |v.adj| ==>
         out[at + 1 + k] == v.adj[k] + "\t" + (if v.dist == 0x7fff_ffff then "INF" else IntText(v.dist + 1)) + "\t{}"
  }

  lemma EmittedFirst(line: string, rest: seq<string>)
    requires ParseLine(line).Some?
    ensures var v := ParseLine(line).value; EmittedAt([line] + UpdateLines(v.adj, v.dist) + rest, 0, line)
  {
    hide ParseLine, IntText;
    var v := ParseLine(line).value;
    var out := [line] + UpdateLines(v.adj, v.dist) + rest;
    forall k: nat | k < |v.adj| ensures out[0 + 1 + k] == UpdateLine(v.adj[k], v.dist) {
    }
  }

  lemma EmittedLater(first: seq<string>, rest: seq<string>, at: nat, line: string)
    requires ParseLine(line).Some? && EmittedAt(rest, at, line)
    ensures EmittedAt(first + rest, |first| + at, line)
  {
    hide ParseLine, IntText;
    var out := first + rest;
    assert forall i :: 0 <= i < |rest| ==> out[|first| + i] == rest[i];
  }

  lemma {:induction false} MapTextAt(lines: seq<string>, i: nat)
    requires Readable(lines) && i < |lines|
    ensures ParseLine(lines[i]).Some? && EmittedAt(MapText(lines), Start(lines, i), lines[i])
    ensures |MapText(lines)| == Start(lines, |lines|)
  {
    hide ParseLine, EmittedAt;
    assert lines[0] in lines;
    MapTextLength(lines);
    var v, tail := ParseLine(lines[0]).value, lines[1..];
    var first := [lines[0]] + UpdateLines(v.adj, v.dist);
    assert MapText(lines) == first + MapText(tail);
    if i == 0 {
      EmittedFirst(lines[0], MapText(tail));
    } else {
      MapTextAt(tail, i - 1);
      assert tail[i - 1] == lines[i];
      EmittedLater(first, MapText(tail), Start(tail, i - 1), lines[i]);
    }
  }

  lemma {:induction false} MapTextLength(lines: seq<string>)
    requires Readable(lines)
    ensures |MapText(lines)| == Start(lines, |lines|)
  {
    hide ParseLine, UpdateLine;
    if lines != [] {
      assert lines[0] in lines;
      MapTextLength(lines[1..]);
    }
  }

  ghost function Reduce(vs: seq<VertexInfo>): seq<VertexInfo>
    requires vs != []
  {
    ReduceFrom(vs[0], vs[1..])
  }

  lemma ReduceStep(out: seq<string>, cur: VertexInfo, all: seq<VertexInfo>, i: nat)
    requires i < |all|
    ensures cur.id != all[i].id ==>
      out + PrintAll(ReduceFrom(cur, all[i..])) == (out + [PrintLine(cur)]) + PrintAll(ReduceFrom(all[i], all[i + 1..]))
    ensures cur.id == all[i].id ==>
      ReduceFrom(cur, all[i..]) == ReduceFrom(Combine(cur, all[i]), all[i + 1..])
  {
    assert all[i..][1..] == all[i + 1..];
    var rest := ReduceFrom(all[i], all[i + 1..]);
    assert PrintAll([cur] + rest) == [PrintLine(cur)] + PrintAll(rest);
  }

  method Reducer(lines: seq<string>) returns (out: seq<string>)
    requires lines != [] && Readable(lines)
    ensures out == PrintAll(Reduce(ParseAll(lines)))
  {
    hide ParseLine, PrintLine, Missing;
    ghost var all := ParseAll(lines);
    var prevInfo := ParseLine(lines[0]).value;
    var total := prevInfo.adj;
    var minDist := prevInfo.dist;
    out := [];
    var i := 1;
    while i < |lines|
      invariant 1 <= i <= |lines|
      invariant out + PrintAll(ReduceFrom(VertexInfo(prevInfo.id, minDist, total), all[i..])) == PrintAll(Reduce(all))
    {
      var curInfo := ParseLine(lines[i]).value;
      ReduceStep(out, VertexInfo(prevInfo.id, minDist, total), all, i);
      if curInfo.id != prevInfo.id {
        out := out + [PrintLine(VertexInfo(prevInfo.id, minDist, total))];
        total := curInfo.adj;
        minDist := curInfo.dist;
      } else {
        total := MergeVects(total, curInfo.adj);
        if curInfo.dist <= minDist {
          minDist := curInfo.dist;
        }
      }
      prevInfo := curInfo;
      i := i + 1;
    }
    out := out + [PrintLine(VertexInfo(prevInfo.id, minDist, total))];
  }

  // ---------------------------------------------------------------------------
  // The two programs on a few lines

  lemma NumberIs(s: string, n: nat)
    requires n < 10 && s == [DECIMALS[n]]
    ensures AllDecimal(s) && Number(s) == n && Digits(n) == s
  {
    DigitsAreDecimal(0, n);
    ValueOfDigits(n);
    ValueIsNumber(Digits(n));
  }

  lemma OneLine(line: string, id: nat, dist: string, d: int, adj: seq<string>, list: string)
    requires id < 10 && if dist == "INF" then d == 0x7fff_ffff else 0 <= d < 10 && dist == [DECIMALS[d]]
    requires (forall el <- adj :: el != "" && ',' !in el && '}' !in el) && list == Join(adj, ',')
    requires line == [DECIMALS[id]] + "\t" + dist + "\t{" + list + "}"
    ensures ParseLine(line) == Some(VertexInfo(id, d, adj))
  {
    hide ParseLine, Number, Digits;
    NumberIs([DECIMALS[id]], id);
    if dist != "INF" { NumberIs(dist, d); }
    LineReads([DECIMALS[id]], dist, adj);
  }

  lemma SmallJoins()
    ensures Join(["2", "3"], ',') == "2,3" && Join(["1"], ',') == "1" && Join(["2"], ',') == "2"
    ensures Join(["3", "2"], ',') == "3,2" && Join([], ',') == ""
  {
    assert ["2", "3"][1..] == ["3"] && ["3", "2"][1..] == ["2"];
  }

  /** A reached vertex with two neighbours, and an unreached one. */
  method MapSmall() returns (out: seq<string>)
    ensures out == ["1\t0\t{2,3}", "2\t1\t{}", "3\t1\t{}", "7\tINF\t{1}", "1\tINF\t{}"]
  {
    hide ParseLine, Join, Digits;
    var lines := ["1\t0\t{2,3}", "7\tINF\t{1}"];
    SmallJoins();
    OneLine(lines[0], 1, "0", 0, ["2", "3"], "2,3");
    OneLine(lines[1], 7, "INF", 0x7fff_ffff, ["1"], "1");
    NumberIs("1", 1);
    out := Mapper(lines);
    var two, one := UpdateLines(["2", "3"], 0), UpdateLines(["1"], INF);
    SmallUpdates();
    MapTextStep([], lines, 0);
    assert lines[0..] == lines && [] + [lines[0]] + two == [lines[0]] + two;
    MapTextStep([lines[0]] + two, lines, 1);
    assert lines[2..] == [];
    assert out == [lines[0]] + two + [lines[1]] + one;
  }

  lemma SmallUpdates()
    ensures UpdateLines(["2", "3"], 0) == ["2\t1\t{}", "3\t1\t{}"] && UpdateLines(["1"], INF) == ["1\tINF\t{}"]
  {
    hide Digits;
    NumberIs("1", 1);
    assert UpdateLine("2", 0) == "2\t1\t{}" && UpdateLine("3", 0) == "3\t1\t{}" && UpdateLine("1", INF) == "1\tINF\t{}";
    var two, one := UpdateLines(["2", "3"], 0), UpdateLines(["1"], INF);
    assert two == [two[0], two[1]] && one == [one[0]];
  }

  /** Two lines of one vertex, with different lists, and one of another. */
  method ReduceSmall() returns (out: seq<string>)
    ensures out == ["1\t5\t{2,3}", "2\tINF\t{}"]
  {
    hide ParseLine, Join, Digits, ReduceFrom;
    var lines := ["1\t5\t{2}", "1\tINF\t{3,2}", "2\tINF\t{}"];
    SmallJoins();
    OneLine(lines[0], 1, "5", 5, ["2"], "2");
    OneLine(lines[1], 1, "INF", 0x7fff_ffff, ["3", "2"], "3,2");
    OneLine(lines[2], 2, "INF", 0x7fff_ffff, [], "");
    NumberIs("1", 1);
    NumberIs("2", 2);
    NumberIs("5", 5);
    out := Reducer(lines);
    SmallReduction();
    assert ParseAll(lines) == [VertexInfo(1, 5, ["2"]), VertexInfo(1, INF, ["3", "2"]), VertexInfo(2, INF, [])];
    assert PrintLine(VertexInfo(1, 5, ["2", "3"])) == "1\t5\t{2,3}" && PrintLine(VertexInfo(2, INF, [])) == "2\tINF\t{}";
  }

  lemma SmallReduction()
    ensures Reduce([VertexInfo(1, 5, ["2"]), VertexInfo(1, INF, ["3", "2"]), VertexInfo(2, INF, [])])
         == [VertexInfo(1, 5, ["2", "3"]), VertexInfo(2, INF, [])]
  {
    var a, b, c := VertexInfo(1, 5, ["2"]), VertexInfo(1, INF, ["3", "2"]), VertexInfo(2, INF, []);
    assert [a, b, c][1..] == [b, c] && [b, c][1..] == [c] && [c][1..] == [];
    assert ["3", "2"] == ["3"] + ["2"];
    MissingFilters(["2"], ["3"], ["2"], "3");
    MissingFilters(["2"], ["3"], ["2"], "2");
    assert "3" != "2" by { assert "3"[0] != "2"[0]; }
    assert Combine(a, b) == VertexInfo(1, 5, ["2", "3"]);
    assert ReduceFrom(a, [b, c]) == ReduceFrom(Combine(a, b), [c]);
    assert ReduceFrom(Combine(a, b), [c]) == [Combine(a, b)] + ReduceFrom(c, []);
  }

  // ---------------------------------------------------------------------------
  // Runs of jobs

  /** A line that reads as a record and starts with that record's id as printed. */
  ghost predicate Tidy(line: string) {
    var v := ParseLine(line);
    v.Some? && WellFormed(v.value) && Key(line) == Digits(v.value.id)
  }

  ghost predicate AllTidy(lines: seq<string>) {
    forall l <- lines :: Tidy(l)
  }

  ghost predicate GroupedByKey(lines: seq<string>) {
    forall i, j, k :: 0 <= i < j < k < |lines| && Key(lines[i]) == Key(lines[k]) ==> Key(lines[j]) == Key(lines[i])
  }

  /** One job on text, for some order of the lines in and between groups. */
  ghost predicate TextJob(before: seq<string>, after: seq<string>) {
    AllTidy(before) && exists shuffled: seq<string> ::
      && shuffled != [] && Readable(shuffled) && GroupedByKey(shuffled)
      && (forall l :: l in shuffled <==> l in MapText(before))
      && after == PrintAll(Reduce(ParseAll(shuffled)))
  }

  lemma UpdateLinesRead(v: VertexInfo)
    requires WellFormed(v)
    ensures AllTidy(UpdateLines(v.adj, v.dist))
    ensures ParseAll(UpdateLines(v.adj, v.dist)) == Updates(v.adj, v.dist)
  {
    hide ParseLine, UpdateLine, Digits;
    var ls := UpdateLines(v.adj, v.dist);
    forall i | 0 <= i < |ls| ensures Tidy(ls[i]) && ParseLine(ls[i]) == Some(Updates(v.adj, v.dist)[i]) {
      assert v.adj[i] in v.adj;
      UpdateLineReads(v.adj[i], v.dist);
    }
  }

  /** Reading the mapper's output is the same as mapping what was read. */
  lemma {:induction false} MapTextReads(lines: seq<string>)
    requires AllTidy(lines)
    ensures AllTidy(MapText(lines)) && ParseAll(MapText(lines)) == MapAll(ParseAll(lines))
  {
    hide ParseLine, Digits, Key, WellFormed, Updates, UpdateLines;
    if lines != [] {
      assert Tidy(lines[0]) && forall l <- lines[1..] :: l in lines && Tidy(l);
      var v := ParseLine(lines[0]).value;
      var ups, tail := UpdateLines(v.adj, v.dist), MapText(lines[1..]);
      UpdateLinesRead(v);
      MapTextReads(lines[1..]);
      assert ParseAll(lines)[0] == v && ParseAll(lines)[1..] == ParseAll(lines[1..]);
      assert MapText(lines) == [lines[0]] + ups + tail;
      ParseAllConcat([lines[0]], ups);
      ParseAllConcat([lines[0]] + ups, tail);
      assert ParseAll([lines[0]]) == [v];
    }
  }

  lemma ParseAllConcat(a: seq<string>, b: seq<string>)
    requires AllTidy(a) && AllTidy(b)
    ensures AllTidy(a + b) && ParseAll(a + b) == ParseAll(a) + ParseAll(b)
  {
    hide ParseLine, Digits, Key, WellFormed;
  }

  lemma {:induction false} MissingComesFromSource(dest: seq<string>, source: seq<string>)
    ensures forall el <- Missing(dest, source) :: el in source
  {
    if source != [] { MissingComesFromSource(dest, source[1..]); }
  }

  lemma {:induction false} ReduceStaysWellFormed(cur: VertexInfo, rest: seq<VertexInfo>)
    requires WellFormed(cur) && forall r <- rest :: WellFormed(r)
    ensures forall o <- ReduceFrom(cur, rest) :: WellFormed(o)
    decreases |rest|
  {
    hide Canonical;
    if rest != [] {
      assert WellFormed(rest[0]);
      MissingComesFromSource(cur.adj, rest[0].adj);
      ReduceStaysWellFormed(if rest[0].id != cur.id then rest[0] else Combine(cur, rest[0]), rest[1..]);
    }
  }

  lemma PrintAllReads(vs: seq<VertexInfo>)
    requires forall v <- vs :: WellFormed(v)
    ensures AllTidy(PrintAll(vs)) && ParseAll(PrintAll(vs)) == vs
  {
    hide ParseLine, PrintLine, Digits, Key, WellFormed;
    var ls := PrintAll(vs);
    forall i | 0 <= i < |ls| ensures Tidy(ls[i]) && ParseLine(ls[i]) == Some(vs[i]) {
      assert vs[i] in vs;
      ParseUndoesPrint(vs[i]);
    }
  }

  lemma DigitsAreInjective(a: nat, b: nat)
    requires Digits(a) == Digits(b)
    ensures a == b
  {
    ValueOfDigits(a);
    ValueOfDigits(b);
  }

  lemma GroupedByKeyReads(lines: seq<string>)
    requires AllTidy(lines) && GroupedByKey(lines)
    ensures Grouped(ParseAll(lines))
  {
    hide ParseLine, Digits, Key, WellFormed;
    var vs := ParseAll(lines);
    forall i, j, k | 0 <= i < j < k < |vs| && vs[i].id == vs[k].id ensures vs[j].id == vs[i].id {
      assert Tidy(lines[i]) && Tidy(lines[j]) && Tidy(lines[k]);
      DigitsAreInjective(vs[j].id, vs[i].id);
    }
  }

  lemma SameLinesRead(a: seq<string>, b: seq<string>)
    requires Readable(a) && Readable(b) && forall l <- a :: l in b
    ensures forall v <- ParseAll(a) :: v in ParseAll(b)
  {
    hide ParseLine;
    forall v <- ParseAll(a) ensures v in ParseAll(b) {
      var i :| 0 <= i < |a| && ParseAll(a)[i] == v;
      assert a[i] in a;
      var j :| 0 <= j < |b| && b[j] == a[i];
      assert ParseAll(b)[j] == v;
    }
  }

  /** A job on text is a job on the records that the text holds. */
  lemma TextJobIsJob(before: seq<string>, after: seq<string>) returns (shuffled: seq<VertexInfo>)
    requires TextJob(before, after)
    ensures AllTidy(after) && Job(ParseAll(before), shuffled, ParseAll(after))
  {
    hide ParseLine, PrintLine, Digits, Key, Tidy;
    MapTextReads(before);
    var lines :| lines != [] && Readable(lines) && GroupedByKey(lines)
                 && (forall l :: l in lines <==> l in MapText(before))
                 && after == PrintAll(Reduce(ParseAll(lines)));
    shuffled := ParseAll(lines);
    GroupedByKeyReads(lines);
    SameLinesRead(lines, MapText(before));
    SameLinesRead(MapText(before), lines);
    forall v <- shuffled ensures WellFormed(v) {
      TidyIsWellFormed(lines, v);
    }
    assert shuffled[0] in shuffled;
    ReduceStaysWellFormed(shuffled[0], shuffled[1..]);
    PrintAllReads(Reduce(shuffled));
  }

  lemma TidyIsWellFormed(lines: seq<string>, v: VertexInfo)
    requires AllTidy(lines) && v in ParseAll(lines)
    ensures WellFormed(v)
  {
    hide ParseLine, Digits, Key;
    var i :| 0 <= i < |lines| && ParseAll(lines)[i] == v;
    assert Tidy(lines[i]);
  }

  /** The files of a chain of jobs, from the input on. */
  ghost predicate Run(files: seq<seq<string>>) {
    files != [] && forall i :: 0 <= i < |files| - 1 ==> TextJob(files[i], files[i + 1])
  }

  /** The input: one tidy line a vertex, the source at 0 and every other vertex at INF. */
  ghost predicate Input(lines: seq<string>, g: Graph, s: nat) {
    AllTidy(lines) && DistinctIds(ParseAll(lines))
    && (forall v <- g :: HasId(ParseAll(lines), v))
    && (forall r <- ParseAll(lines) :: r.id in g && r.adj == g[r.id] && r.dist == if r.id == s then 0 else INF)
  }

  lemma InputRepresents(lines: seq<string>, g: Graph, s: nat)
    requires Input(lines, g, s)
    ensures AllTidy(lines) && Represents(ParseAll(lines), g, s, 0)
  {
    hide ParseLine, Tidy;
    forall r <- ParseAll(lines) ensures Truncated(g, s, 0, r.id, r.dist) {
      assert Walk(g, s, r.id, 0) <==> r.id == s;
    }
  }

  /** After k jobs every vertex holds its breadth-first distance if that is at most k, else INF. */
  lemma {:induction false} RunComputesDistances(files: seq<seq<string>>, g: Graph, s: nat, k: nat)
    requires Run(files) && Input(files[0], g, s) && k < |files|
    requires s in g && Closed(g) && |g| <= INF
    ensures AllTidy(files[k]) && Represents(ParseAll(files[k]), g, s, k)
  {
    hide Tidy, ParseLine, Job, Represents, TextJob;
    if k == 0 {
      InputRepresents(files[0], g, s);
    } else {
      RunComputesDistances(files, g, s, k - 1);
      assert TextJob(files[k - 1], files[k - 1 + 1]);
      var shuffled := TextJobIsJob(files[k - 1], files[k]);
      JobAdvances(ParseAll(files[k - 1]), shuffled, ParseAll(files[k]), g, s, k - 1);
    }
  }

  /** The line holds the vertex's breadth-first distance, or INF and the vertex is unreachable. */
  ghost predicate Final(g: Graph, s: nat, r: VertexInfo) {
    if r.dist == INF then forall n: nat :: !Walk(g, s, r.id, n)
    else 0 <= r.dist && Nearest(g, s, r.id, r.dist)
  }

  lemma FiniteSpreads(g: Graph, s: nat, k: nat, u: nat, du: int, v: nat, dv: int)
    requires Edge(g, u, v) && Truncated(g, s, k, u, du) && du != INF && Truncated(g, s, k + 1, v, dv)
    ensures dv != INF
  {
    ExtendWalk(g, s, u, v, du);
  }

  lemma LastEdge(g: Graph, s: nat, v: nat, n: nat) returns (u: nat)
    requires Walk(g, s, v, n)
    ensures if n == 0 then v == s else Edge(g, u, v) && Walk(g, s, u, n - 1)
  {
    if n == 0 {
      u := 0;
    } else {
      u :| Edge(g, u, v) && Walk(g, s, u, n - 1);
    }
  }

  lemma {:induction false} StableMeansReached(lines: seq<VertexInfo>, g: Graph, s: nat, k: nat, n: nat, r: VertexInfo)
    requires s in g && Closed(g)
    requires Represents(lines, g, s, k) && Represents(lines, g, s, k + 1)
    requires r in lines && Walk(g, s, r.id, n)
    ensures r.dist != INF
    decreases n
  {
    hide Walk, Nearest, Edge;
    var u := LastEdge(g, s, r.id, n);
    if n == 0 {
      assert Truncated(g, s, k, r.id, r.dist);
    } else {
      assert u in g by { WalkStaysInside(g, s, u, n - 1); }
      assert HasId(lines, u);
      var ru :| ru in lines && ru.id == u;
      StableMeansReached(lines, g, s, k, n - 1, ru);
      FiniteSpreads(g, s, k, u, ru.dist, r.id, r.dist);
    }
  }

  /** A job that changes no record has reached the final distances. */
  lemma StableIsFinal(lines: seq<VertexInfo>, g: Graph, s: nat, k: nat, r: VertexInfo)
    requires s in g && Closed(g) && r in lines
    requires Represents(lines, g, s, k) && Represents(lines, g, s, k + 1)
    ensures Final(g, s, r)
  {
    hide Walk, Edge;
    assert Truncated(g, s, k, r.id, r.dist);
    if n: nat :| r.dist == INF && Walk(g, s, r.id, n) {
      StableMeansReached(lines, g, s, k, n, r);
    }
  }

  lemma SameRecordsRepresent(a: seq<VertexInfo>, b: seq<VertexInfo>, g: Graph, s: nat, k: nat)
    requires Represents(a, g, s, k) && Represents(b, g, s, k + 1) && forall r :: r in a <==> r in b
    ensures Represents(b, g, s, k)
  {
    hide Truncated;
    forall v <- g ensures HasId(b, v) {
      assert HasId(a, v);
    }
  }

  lemma UnchangedMeansFinal(files: seq<seq<string>>, g: Graph, s: nat, k: nat)
    requires Run(files) && Input(files[0], g, s) && k + 1 < |files|
    requires s in g && Closed(g) && |g| <= INF
    requires Readable(files[k]) && Readable(files[k + 1])
    requires forall r :: r in ParseAll(files[k]) <==> r in ParseAll(files[k + 1])
    ensures forall r <- ParseAll(files[k + 1]) :: Final(g, s, r)
  {
    hide ParseLine, Represents, Run, Input;
    RunComputesDistances(files, g, s, k);
    RunComputesDistances(files, g, s, k + 1);
    var lines := ParseAll(files[k + 1]);
    SameRecordsRepresent(ParseAll(files[k]), lines, g, s, k);
    forall r <- lines ensures Final(g, s, r) {
      StableIsFinal(lines, g, s, k, r);
    }
  }

  /** As many jobs as there are vertices, less one, always suffice. */
  lemma EnoughJobs(files: seq<seq<string>>, g: Graph, s: nat, k: nat)
    requires Run(files) && Input(files[0], g, s) && k < |files| && |g| <= k + 1
    requires s in g && Closed(g) && |g| <= INF
    ensures Readable(files[k]) && forall r <- ParseAll(files[k]) :: Final(g, s, r)
  {
    hide Tidy, ParseLine;
    RunComputesDistances(files, g, s, k);
    forall r <- ParseAll(files[k]) ensures Final(g, s, r) {
      assert Truncated(g, s, k, r.id, r.dist);
      if n: nat :| r.dist == INF && Walk(g, s, r.id, n) {
        var d := NearestExists(g, s, r.id, n);
        NearestIsSmall(g, s, r.id, d);
      }
    }
  }
}
