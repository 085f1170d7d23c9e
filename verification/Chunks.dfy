/**
  The boundary-tag allocator seen as a list of chunks in address order.  Addresses are
  word indices into the buffer and sizes count 8-byte words; a chunk has a four-word
  header, its payload, and a right border marker.
 */
module Chunks {

  /** Words of metadata per chunk: METAINFO_SIZE is 40 bytes. */
  const META: nat := 5
  /** Words of header before the payload. */
  const HEADER: nat := 4

  /** `at` is the payload's address; `left` and `right` tell whether the markers read FREE. */
  datatype Chunk = Chunk(at: nat, words: nat, left: bool, right: bool)

  function End(c: Chunk): nat { c.at + c.words + META }

  /** The chunks cover a buffer of `len` words exactly, each starting where the one before ends. */
  ghost predicate Tiles(cs: seq<Chunk>, len: nat) {
    && cs != [] && cs[0].at == HEADER
    && (forall k :: 0 <= k < |cs| - 1 ==> End(cs[k]) == cs[k + 1].at)
    && End(cs[|cs| - 1]) == len + HEADER
  }

  ghost function TotalWords(cs: seq<Chunk>): nat {
    if cs == [] then 0 else TotalWords(cs[..|cs| - 1]) + cs[|cs| - 1].words + META
  }

  /** The sizes and the metadata of all chunks add up to the buffer. */
  lemma {:induction false} TilesAddUp(cs: seq<Chunk>, len: nat)
    requires Tiles(cs, len)
    ensures TotalWords(cs) == len
  {
    var n := |cs| - 1;
    if n == 0 {
      assert cs[..0] == [];
    } else {
      assert End(cs[n - 1]) == cs[n - 1 + 1].at;
      TilesStayInside(cs, len, n);
      TilesAddUp(cs[..n], cs[n].at - HEADER);
    }
  }

  lemma {:induction false} TilesAreOrdered(cs: seq<Chunk>, len: nat, i: nat, j: nat)
    requires Tiles(cs, len) && i < j < |cs|
    ensures End(cs[i]) <= cs[j].at
    decreases j
  {
    if i < j - 1 {
      TilesAreOrdered(cs, len, i, j - 1);
      assert End(cs[j - 1]) == cs[j - 1 + 1].at;
    } else {
      assert End(cs[i]) == cs[i + 1].at;
    }
  }

  lemma TilesStayInside(cs: seq<Chunk>, len: nat, k: nat)
    requires Tiles(cs, len) && k < |cs|
    ensures HEADER <= cs[k].at && End(cs[k]) <= len + HEADER
  {
    if 0 < k { TilesAreOrdered(cs, len, 0, k); }
    if k < |cs| - 1 { TilesAreOrdered(cs, len, k, |cs| - 1); }
  }

  // ---------------------------------------------------------------------------
  // Operations

  /** `find_chunk`: the first chunk that is strictly larger than the request; |cs| if none is. */
  function Choose(cs: seq<Chunk>, need: nat): (k: nat)
    ensures k <= |cs|
    ensures forall i :: 0 <= i < k ==> cs[i].words <= need
    ensures k < |cs| ==> cs[k].words > need
  {
    if cs == [] || cs[0].words > need then 0 else 1 + Choose(cs[1..], need)
  }

  /** `myalloc` on chunk k: what stays in place, then the new chunk at its end. */
  function Split(cs: seq<Chunk>, k: nat, words: nat): seq<Chunk>
    requires k < |cs| && cs[k].words > words + META
  {
    var rest := cs[k].words - words - META;
    cs[..k] + [cs[k].(words := rest, right := true), Chunk(cs[k].at + rest + META, words, false, false)] + cs[k + 1..]
  }

  /** `merge_chunks` on chunks k and k + 1. */
  function Merge(cs: seq<Chunk>, k: nat): seq<Chunk>
    requires k + 1 < |cs|
  {
    cs[..k] + [Chunk(cs[k].at, cs[k].words + cs[k + 1].words + META, true, true)] + cs[k + 2..]
  }

  /** `free_chunk`. */
  function Release(cs: seq<Chunk>, k: nat): seq<Chunk>
    requires k < |cs|
  {
    cs[k := cs[k].(left := true, right := true)]
  }

  /** Whether `myfree` finds the chunk before k free: it reads the right marker at the end of the list, else the left one. */
  predicate PrevFree(cs: seq<Chunk>, k: nat)
    requires k < |cs|
  {
    0 < k && if k + 1 < |cs| then cs[k - 1].left else cs[k - 1].right
  }

  predicate NextFree(cs: seq<Chunk>, k: nat)
    requires k < |cs|
  {
    k + 1 < |cs| && cs[k + 1].left
  }

  /** `myfree` of chunk k. */
  function Freed(cs: seq<Chunk>, k: nat): seq<Chunk>
    requires k < |cs|
  {
    if cs[k].right || cs[k].left then cs
    else if PrevFree(cs, k) && NextFree(cs, k) then Merge(Merge(cs, k), k - 1)
    else if PrevFree(cs, k) then Merge(cs, k - 1)
    else if NextFree(cs, k) then Merge(cs, k)
    else Release(cs, k)
  }

  /** The new chunk is the end of the old one, exactly as large as asked for and in use; the rest stays where it was. */
  lemma SplitIs(cs: seq<Chunk>, k: nat, words: nat)
    requires k < |cs| && cs[k].words > words + META
    ensures var r := Split(cs, k, words);
      && |r| == |cs| + 1 && r[..k] == cs[..k] && r[k + 2..] == cs[k + 1..]
      && r[k].at == cs[k].at && r[k].words > 0 && r[k].left == cs[k].left && r[k].right
      && r[k + 1].at == End(r[k]) && End(r[k + 1]) == End(cs[k])
      && r[k + 1].words == words && !r[k + 1].left && !r[k + 1].right
  {
  }

  /** Two neighbours become one free chunk from the beginning of the first to the end of the second. */
  lemma MergeIs(cs: seq<Chunk>, k: nat)
    requires k + 1 < |cs| && End(cs[k]) == cs[k + 1].at
    ensures var r := Merge(cs, k);
      && |r| == |cs| - 1 && r[..k] == cs[..k] && r[k + 1..] == cs[k + 2..]
      && r[k].at == cs[k].at && End(r[k]) == End(cs[k + 1]) && r[k].left && r[k].right
  {
  }

  // ---------------------------------------------------------------------------
  // Tiling holds for the code as written

  lemma SplitTiles(cs: seq<Chunk>, len: nat, k: nat, words: nat)
    requires Tiles(cs, len) && k < |cs| && cs[k].words > words + META
    ensures Tiles(Split(cs, k, words), len)
  {
    var r := Split(cs, k, words);
    forall i | 0 <= i < |r| - 1 ensures End(r[i]) == r[i + 1].at {
      if i < k { assert End(cs[i]) == cs[i + 1].at; }
      if i > k { assert r[i + 1] == cs[i]; assert i - 1 < |cs| - 1 && End(cs[i - 1]) == cs[i - 1 + 1].at; }
    }
  }

  lemma MergeTiles(cs: seq<Chunk>, len: nat, k: nat)
    requires Tiles(cs, len) && k + 1 < |cs|
    ensures Tiles(Merge(cs, k), len)
  {
    var r := Merge(cs, k);
    assert End(cs[k]) == cs[k + 1].at;
    forall i | 0 <= i < |r| - 1 ensures End(r[i]) == r[i + 1].at {
      if i < k { assert End(cs[i]) == cs[i + 1].at; }
      if i >= k { assert End(cs[i + 1]) == cs[i + 1 + 1].at; }
    }
  }

  lemma ReleaseTiles(cs: seq<Chunk>, len: nat, k: nat)
    requires Tiles(cs, len) && k < |cs|
    ensures Tiles(Release(cs, k), len)
  {
    assert forall i :: 0 <= i < |cs| ==> Release(cs, k)[i].at == cs[i].at && End(Release(cs, k)[i]) == End(cs[i]);
  }

  lemma FreedTiles(cs: seq<Chunk>, len: nat, k: nat)
    requires Tiles(cs, len) && k < |cs|
    ensures Tiles(Freed(cs, k), len)
  {
    hide Tiles;
    if Release(cs, k) == Freed(cs, k) { ReleaseTiles(cs, len, k); }
    if PrevFree(cs, k) { MergeTiles(cs, len, k - 1); }
    if NextFree(cs, k) {
      MergeTiles(cs, len, k);
      if PrevFree(cs, k) { MergeTiles(Merge(cs, k), len, k - 1); }
    }
  }

  // ---------------------------------------------------------------------------
  // Markers and live chunks, when every chunk that is split is free

  /** Both markers of every chunk agree, and no two neighbours are both free. */
  ghost predicate Coalesced(cs: seq<Chunk>) {
    && (forall k :: 0 <= k < |cs| ==> cs[k].left == cs[k].right)
    && (forall k :: 0 <= k < |cs| - 1 ==> !(cs[k].left && cs[k + 1].left))
  }

  ghost function Live(cs: seq<Chunk>): set<Chunk> {
    set c | c in cs && !c.left
  }

  /** Splitting keeps the heap coalesced exactly when the chosen chunk was free. */
  lemma SplitCoalesced(cs: seq<Chunk>, k: nat, words: nat)
    requires Coalesced(cs) && k < |cs| && cs[k].words > words + META
    ensures Coalesced(Split(cs, k, words)) <==> cs[k].left
  {
    var r := Split(cs, k, words);
    assert r[k].left == cs[k].left && r[k].right;
    if cs[k].left {
      forall i | 0 <= i < |r| - 1 ensures !(r[i].left && r[i + 1].left) {
        if i < k { assert !(cs[i].left && cs[i + 1].left); }
        if i > k + 1 { assert r[i] == cs[i - 1] && r[i + 1] == cs[i - 1 + 1]; }
      }
    }
  }

  /** `myalloc` adds the new chunk to the live ones and disturbs no other. */
  lemma SplitLive(cs: seq<Chunk>, k: nat, words: nat)
    requires k < |cs| && cs[k].words > words + META && cs[k].left
    ensures Live(Split(cs, k, words)) == Live(cs) + {Split(cs, k, words)[k + 1]}
  {
    assert cs == cs[..k] + [cs[k]] + cs[k + 1..];
  }

  /** Splitting a live chunk hands out memory inside that chunk's payload. */
  lemma SplitOfLiveOverlaps(cs: seq<Chunk>, k: nat, words: nat)
    requires k < |cs| && cs[k].words > words + META && !cs[k].left
    ensures var c := Split(cs, k, words)[k + 1];
      cs[k].at < c.at && c.at + c.words <= cs[k].at + cs[k].words
    ensures cs[k] !in Split(cs, k, words)[k..k + 2]
  {
  }

  lemma MergeLive(cs: seq<Chunk>, k: nat)
    requires k + 1 < |cs|
    ensures Live(Merge(cs, k)) == Live(cs[..k]) + Live(cs[k + 2..])
  {
  }

  lemma LiveConcat(a: seq<Chunk>, b: seq<Chunk>)
    ensures Live(a + b) == Live(a) + Live(b)
  {
  }

  /** The live chunks other than k. */
  lemma LiveWithout(cs: seq<Chunk>, len: nat, k: nat)
    requires Tiles(cs, len) && k < |cs|
    ensures Live(cs) - {cs[k]} == Live(cs[..k]) + Live(cs[k + 1..])
  {
    assert cs == cs[..k] + [cs[k]] + cs[k + 1..];
    TilesOnce(cs, len, k);
    hide Tiles;
    LiveConcat(cs[..k] + [cs[k]], cs[k + 1..]);
    LiveConcat(cs[..k], [cs[k]]);
    assert Live([cs[k]]) <= {cs[k]};
  }

  lemma TilesOnce(cs: seq<Chunk>, len: nat, k: nat)
    requires Tiles(cs, len) && k < |cs|
    ensures cs[k] !in cs[..k] && cs[k] !in cs[k + 1..]
  {
    if i :| 0 <= i < k && cs[i] == cs[k] { TilesAreOrdered(cs, len, i, k); }
    if i :| k < i < |cs| && cs[i] == cs[k] { TilesAreOrdered(cs, len, k, i); }
  }

  /** A free chunk next to position k does not matter to the live set. */
  lemma LiveDrop(cs: seq<Chunk>, k: nat)
    requires k < |cs| && cs[k].left
    ensures Live(cs[k..]) == Live(cs[k + 1..]) && Live(cs[..k + 1]) == Live(cs[..k])
  {
    assert cs[k..] == [cs[k]] + cs[k + 1..] && cs[..k + 1] == cs[..k] + [cs[k]];
    LiveConcat([cs[k]], cs[k + 1..]);
    LiveConcat(cs[..k], [cs[k]]);
  }

  /** `myfree` takes the chunk out of the live ones and disturbs no other. */
  lemma FreedLive(cs: seq<Chunk>, len: nat, k: nat)
    requires Tiles(cs, len) && Coalesced(cs) && k < |cs| && !cs[k].left
    ensures Live(Freed(cs, k)) == Live(cs) - {cs[k]}
  {
    hide Live, Tiles;
    LiveWithout(cs, len, k);
    if PrevFree(cs, k) { LiveDrop(cs, k - 1); }
    if NextFree(cs, k) { LiveDrop(cs, k + 1); }
    if PrevFree(cs, k) && NextFree(cs, k) {
      var once := Merge(cs, k);
      MergeLive(once, k - 1);
      assert once[..k - 1] == cs[..k - 1] && once[k - 1 + 2..] == cs[k + 2..];
    } else if PrevFree(cs, k) {
      MergeLive(cs, k - 1);
    } else if NextFree(cs, k) {
      MergeLive(cs, k);
    } else {
      assert Release(cs, k) == cs[..k] + [cs[k].(left := true, right := true)] + cs[k + 1..];
      MergeReleased(cs, k);
    }
  }

  lemma MergeReleased(cs: seq<Chunk>, k: nat)
    requires k < |cs|
    ensures Live(Release(cs, k)) == Live(cs[..k]) + Live(cs[k + 1..])
  {
    var freed := [cs[k].(left := true, right := true)];
    assert Release(cs, k) == cs[..k] + freed + cs[k + 1..];
    LiveConcat(cs[..k] + freed, cs[k + 1..]);
    LiveConcat(cs[..k], freed);
  }

  lemma NotBothFree(cs: seq<Chunk>, k: nat)
    requires Coalesced(cs) && k + 1 < |cs|
    ensures !cs[k].left || !cs[k + 1].left
  {
  }

  /** Replacing chunks lo to hi by one free chunk, between live neighbours. */
  lemma JoinCoalesced(cs: seq<Chunk>, lo: nat, hi: nat, c: Chunk)
    requires Coalesced(cs) && lo <= hi <= |cs| && c.left && c.right
    requires (lo == 0 || !cs[lo - 1].left) && (hi == |cs| || !cs[hi].left)
    ensures Coalesced(cs[..lo] + [c] + cs[hi..])
  {
    var r := cs[..lo] + [c] + cs[hi..];
    forall i | 0 <= i < |r| - 1 ensures !(r[i].left && r[i + 1].left) {
      if i + 1 < lo { assert !(cs[i].left && cs[i + 1].left); }
      if i > lo { assert r[i] == cs[i - lo - 1 + hi] && r[i + 1] == cs[i - lo - 1 + hi + 1]; }
    }
  }

  /** `myfree` turns the chunk and its free neighbours into one free chunk. */
  lemma FreedIsJoin(cs: seq<Chunk>, k: nat)
    requires k < |cs| && !cs[k].left && !cs[k].right
    ensures var lo := if PrevFree(cs, k) then k - 1 else k;
      var hi := if NextFree(cs, k) then k + 2 else k + 1;
      var r := Freed(cs, k);
      lo < |r| && r[lo].left && r[lo].right && r[lo].at == cs[lo].at && r == cs[..lo] + [r[lo]] + cs[hi..]
  {
    if PrevFree(cs, k) && NextFree(cs, k) {
      var once := Merge(cs, k);
      assert once[..k - 1] == cs[..k - 1] && once[k - 1 + 2..] == cs[k + 2..];
    }
  }

  lemma FreedCoalesced(cs: seq<Chunk>, k: nat)
    requires Coalesced(cs) && k < |cs|
    ensures Coalesced(Freed(cs, k))
  {
    if !cs[k].left {
      FreedIsJoin(cs, k);
      var lo := if PrevFree(cs, k) then k - 1 else k;
      var hi := if NextFree(cs, k) then k + 2 else k + 1;
      if 0 < lo { NotBothFree(cs, lo - 1); }
      if hi < |cs| { NotBothFree(cs, hi - 1); }
      hide Freed;
      JoinCoalesced(cs, lo, hi, Freed(cs, k)[lo]);
    }
  }

  // ---------------------------------------------------------------------------
  // Runs

  /** The heap, and the chunks that the program has been handed and has not freed. */
  datatype State = State(cs: seq<Chunk>, held: set<Chunk>)

  function Fresh(len: nat): seq<Chunk>
    requires META <= len
  {
    [Chunk(HEADER, len - META, true, true)]
  }

  ghost predicate AllocStep(s: State, words: nat, s': State) {
    var k := Choose(s.cs, words + META);
    if k == |s.cs| then s' == s
    else s' == State(Split(s.cs, k, words), s.held + {Split(s.cs, k, words)[k + 1]})
  }

  /** The request is not served from a chunk that is in use. */
  ghost predicate ChoosesFree(s: State, words: nat) {
    var k := Choose(s.cs, words + META);
    k < |s.cs| ==> s.cs[k].left
  }

  ghost predicate FreeStep(s: State, c: Chunk, s': State) {
    exists k :: 0 <= k < |s.cs| && s.cs[k] == c && s' == State(Freed(s.cs, k), s.held - {c})
  }

  /** A step of a program that frees only what it holds, on requests that meet free chunks. */
  ghost predicate CarefulStep(s: State, s': State) {
    || (exists words: nat :: ChoosesFree(s, words) && AllocStep(s, words, s'))
    || (exists c :: c in s.held && FreeStep(s, c, s'))
  }

  /** Any allocation, and a free of any current chunk. */
  ghost predicate AnyStep(s: State, s': State) {
    (exists words: nat :: AllocStep(s, words, s')) || (exists c :: FreeStep(s, c, s'))
  }

  ghost predicate CarefulRun(run: seq<State>, len: nat) {
    && META <= len && run != [] && run[0] == State(Fresh(len), {})
    && forall i :: 0 <= i < |run| - 1 ==> CarefulStep(run[i], run[i + 1])
  }

  ghost predicate AnyRun(run: seq<State>, len: nat) {
    && META <= len && run != [] && run[0] == State(Fresh(len), {})
    && forall i :: 0 <= i < |run| - 1 ==> AnyStep(run[i], run[i + 1])
  }

  /** Whatever the program does, the chunks tile the buffer. */
  lemma {:induction false} EveryRunTiles(run: seq<State>, len: nat, i: nat)
    requires AnyRun(run, len) && i < |run|
    ensures Tiles(run[i].cs, len) && TotalWords(run[i].cs) == len
  {
    if i > 0 {
      EveryRunTiles(run, len, i - 1);
      var s, s' := run[i - 1], run[i - 1 + 1];
      assert AnyStep(s, s');
      if words: nat :| AllocStep(s, words, s') {
        var k := Choose(s.cs, words + META);
        if k < |s.cs| { SplitTiles(s.cs, len, k, words); }
      } else {
        var c :| FreeStep(s, c, s');
        var k :| 0 <= k < |s.cs| && s.cs[k] == c && s' == State(Freed(s.cs, k), s.held - {c});
        FreedTiles(s.cs, len, k);
      }
    }
    TilesAddUp(run[i].cs, len);
  }

  ghost predicate Safe(s: State, len: nat) {
    Tiles(s.cs, len) && Coalesced(s.cs) && s.held == Live(s.cs)
  }

  lemma StepStaysSafe(s: State, s': State, len: nat)
    requires Safe(s, len) && CarefulStep(s, s')
    ensures Safe(s', len)
  {
    hide Tiles, Coalesced, Live;
    if words: nat :| ChoosesFree(s, words) && AllocStep(s, words, s') {
      var k := Choose(s.cs, words + META);
      if k < |s.cs| {
        SplitTiles(s.cs, len, k, words);
        SplitCoalesced(s.cs, k, words);
        SplitLive(s.cs, k, words);
      }
    } else {
      var c :| c in s.held && FreeStep(s, c, s');
      var k :| 0 <= k < |s.cs| && s.cs[k] == c && s' == State(Freed(s.cs, k), s.held - {c});
      assert !c.left by { LiveIsInUse(s.cs, c); }
      FreedTiles(s.cs, len, k);
      FreedCoalesced(s.cs, k);
      FreedLive(s.cs, len, k);
    }
  }

  /** An allocation keeps the heap safe exactly when the chunk it is served from was free. */
  lemma AllocSafeIffChoosesFree(s: State, words: nat, s': State, len: nat)
    requires Safe(s, len) && AllocStep(s, words, s')
    ensures Safe(s', len) <==> ChoosesFree(s, words)
  {
    var k := Choose(s.cs, words + META);
    if k < |s.cs| { SplitCoalesced(s.cs, k, words); }
    if ChoosesFree(s, words) { StepStaysSafe(s, s', len); }
  }

  lemma LiveIsInUse(cs: seq<Chunk>, c: Chunk)
    requires c in Live(cs)
    ensures c in cs && !c.left
  {
  }

  lemma {:induction false} CarefulRunStaysSafe(run: seq<State>, len: nat, i: nat)
    requires CarefulRun(run, len) && i < |run|
    ensures Safe(run[i], len)
  {
    if i > 0 {
      CarefulRunStaysSafe(run, len, i - 1);
      assert CarefulStep(run[i - 1], run[i - 1 + 1]);
      StepStaysSafe(run[i - 1], run[i], len);
    }
  }

  /** Live payloads are inside the buffer and pairwise disjoint. */
  lemma HeldAreDisjoint(run: seq<State>, len: nat, i: nat, c: Chunk, d: Chunk)
    requires CarefulRun(run, len) && i < |run| && c in run[i].held && d in run[i].held
    ensures HEADER <= c.at && c.at + c.words < len
    ensures c == d || c.at + c.words < d.at || d.at + d.words < c.at
  {
    CarefulRunStaysSafe(run, len, i);
    var cs := run[i].cs;
    var j :| 0 <= j < |cs| && cs[j] == c;
    var k :| 0 <= k < |cs| && cs[k] == d;
    TilesStayInside(cs, len, j);
    if j < k { TilesAreOrdered(cs, len, j, k); }
    if k < j { TilesAreOrdered(cs, len, k, j); }
  }

  /** Once everything is freed, the heap is the single free chunk it started as. */
  lemma AllFreedIsFresh(run: seq<State>, len: nat, i: nat)
    requires CarefulRun(run, len) && i < |run| && run[i].held == {}
    ensures run[i].cs == Fresh(len)
  {
    CarefulRunStaysSafe(run, len, i);
    var cs := run[i].cs;
    forall k | 0 <= k < |cs| ensures cs[k].left {
      assert cs[k] in Live(cs) || cs[k].left;
    }
    if |cs| > 1 { NotBothFree(cs, 0); }
  }

  /** The status that `find_chunk` loads and never tests matters: a short run that splits a live chunk. */
  lemma UncheckedStatusOverlaps() returns (run: seq<State>, c: Chunk, d: Chunk)
    ensures AnyRun(run, 25) && |run| == 3
    ensures c in run[2].held && d in run[2].held && c != d
    ensures c.at < d.at && d.at + d.words <= c.at + c.words
  {
    var s0 := State(Fresh(25), {});
    var cs1 := Split(s0.cs, 0, 10);
    c := cs1[1];
    var s1 := State(cs1, {c});
    assert AllocStep(s0, 10, s1);
    assert Choose(cs1[1..], 6) == 0 && Choose(cs1, 6) == 1;
    var cs2 := Split(cs1, 1, 1);
    d := cs2[2];
    var s2 := State(cs2, {c, d});
    assert AllocStep(s1, 1, s2);
    run := [s0, s1, s2];
  }

  /** Freeing the inner block then frees the outer one too: the marker read at the end of the list is the split's. */
  lemma FreeTakesHeldBlock() returns (run: seq<State>, c: Chunk, d: Chunk)
    ensures AnyRun(run, 25) && |run| == 4 && d in run[2].held
    ensures run[3].held == run[2].held - {d} && c in run[3].held && c.(left := true, right := true) in run[3].cs
  {
    var s0 := State(Fresh(25), {});
    c := Chunk(14, 10, false, false);
    d := Chunk(23, 1, false, false);
    var cs1, cs2 := [Chunk(4, 5, true, true), c], [Chunk(4, 5, true, true), Chunk(14, 4, false, true), d];
    var s1, s2 := State(cs1, {c}), State(cs2, {c, d});
    assert AllocStep(s0, 10, s1);
    assert Choose(cs1[1..], 6) == 0 && Choose(cs1, 6) == 1 && Split(cs1, 1, 1) == cs2;
    assert AllocStep(s1, 1, s2);
    var cs3 := Freed(cs2, 2);
    var s3 := State(cs3, {c, d} - {d});
    assert cs3[1] == c.(left := true, right := true);
    assert cs2[2] == d && FreeStep(s2, d, s3);
    run := [s0, s1, s2, s3];
  }
}
