/**
  The boundary-tag allocator on the buffer itself.  A pointer is an index into the
  buffer's words and NULL is 0, which is never a payload address.  Sizes are in bytes,
  as in the C code, and multiples of the 8-byte word.
 */
module Allocator {
  import opened Chunks

  const FREE: int := 1
  const ALLOCATED: int := 0
  const METAINFO_SIZE: int := 40
  const WORD: int := 8
  const NULL: int := 0

  function Marker(free: bool): int { if free then FREE else ALLOCATED }

  /** The five metadata words of chunk k. */
  ghost predicate Holds(mem: seq<int>, cs: seq<Chunk>, k: nat)
    requires k < |cs|
  {
    var c := cs[k];
    && HEADER <= c.at && c.at + c.words < |mem|
    && mem[c.at - 4] == WORD * c.words
    && mem[c.at - 3] == (if k + 1 < |cs| then cs[k + 1].at else NULL)
    && mem[c.at - 2] == (if k > 0 then cs[k - 1].at else NULL)
    && mem[c.at - 1] == Marker(c.left)
    && mem[c.at + c.words] == Marker(c.right)
  }

  ghost predicate Mirrors(mem: seq<int>, cs: seq<Chunk>) {
    Tiles(cs, |mem|) && forall k :: 0 <= k < |cs| ==> Holds(mem, cs, k)
  }

  class Heap {
    const mem: array<int>
    var head: int
    ghost var chunks: seq<Chunk>

    ghost predicate Valid()
      reads this, mem
    {
      Mirrors(mem[..], chunks) && head == HEADER
    }

    // Accessors

    function GetSize(chunk: int): int
      requires 4 <= chunk <= mem.Length
      reads mem
    {
      mem[chunk - 4]
    }

    function GetNext(chunk: int): int
      requires 4 <= chunk <= mem.Length
      reads mem
    {
      mem[chunk - 3]
    }

    function GetPrev(chunk: int): int
      requires 4 <= chunk <= mem.Length
      reads mem
    {
      mem[chunk - 2]
    }

    function GetLeft(chunk: int): int
      requires 4 <= chunk <= mem.Length
      reads mem
    {
      mem[chunk - 1]
    }

    function GetRight(chunk: int): int
      requires 4 <= chunk <= mem.Length && 0 <= chunk + mem[chunk - 4] / WORD < mem.Length
      reads mem
    {
      mem[chunk + GetSize(chunk) / WORD]
    }

    /** `make_chunk`: writes a header and both markers for a chunk that starts at `start`. */
    method MakeChunk(start: int, size: int, status: int) returns (chunk: int)
      requires 0 <= start && 0 <= size && size % WORD == 0 && start + 4 + size / WORD < mem.Length
      modifies mem
      ensures chunk == start + 4
      ensures mem[chunk - 4] == size && mem[chunk - 3] == NULL && mem[chunk - 2] == NULL
      ensures mem[chunk - 1] == status && mem[chunk + size / WORD] == status
      ensures forall i :: 0 <= i < mem.Length && !(start <= i < start + 4) && i != chunk + size / WORD ==> mem[i] == old(mem[i])
    {
      chunk := start + 4;
      mem[chunk - 4] := size;
      mem[chunk - 3] := NULL;
      mem[chunk - 2] := NULL;
      mem[chunk - 1] := status;
      mem[chunk + size / WORD] := status;
    }

    /** `mysetup` on a buffer of `size` bytes. */
    constructor (buf: array<int>, size: int)
      requires METAINFO_SIZE <= size && size == WORD * buf.Length
      modifies buf
      ensures Valid() && mem == buf && chunks == Fresh(buf.Length)
    {
      mem := buf;
      new;
      head := MakeChunk(0, size - METAINFO_SIZE, FREE);
      chunks := Fresh(buf.Length);
    }

    /** `find_chunk` for a request of `size` bytes, metadata included. */
    method FindChunk(size: int) returns (chunk: int)
      requires Valid() && 0 <= size && size % WORD == 0
      ensures var k := Choose(chunks, size / WORD);
        if k < |chunks| then chunk == chunks[k].at && chunk != NULL else chunk == NULL
    {
      chunk := head;
      ghost var k := 0;
      while true
        invariant 0 <= k < |chunks| && chunk == chunks[k].at
        invariant forall i :: 0 <= i < k ==> chunks[i].words <= size / WORD
        decreases |chunks| - k
      {
        assert Holds(mem[..], chunks, k);
        if GetSize(chunk) > size {
          ChooseIs(chunks, size / WORD, k);
          return;
        }
        chunk := GetNext(chunk);
        k := k + 1;
        if chunk == NULL {
          ChooseIs(chunks, size / WORD, k);
          return;
        }
      }
    }

    /** `add_next`: links `r` in after `l`. */
    method AddNext(l: int, r: int)
      requires 4 <= l <= mem.Length && 4 <= r <= mem.Length && l + 4 <= r
      requires GetNext(l) == NULL || r + 4 <= GetNext(l) <= mem.Length
      modifies mem
      ensures mem[r - 3] == old(mem[l - 3]) && mem[r - 2] == l && mem[l - 3] == r
      ensures old(mem[l - 3]) != NULL ==> mem[old(mem[l - 3]) - 2] == r
      ensures forall i | 0 <= i < mem.Length && i != r - 3 && i != r - 2 && i != l - 3 ::
                old(mem[l - 3]) == NULL || i != old(mem[l - 3]) - 2 ==> mem[i] == old(mem[i])
    {
      var next := GetNext(l);
      if next != NULL {
        mem[next - 2] := r;
      }
      mem[r - 3] := next;
      mem[r - 2] := l;
      mem[l - 3] := r;
    }

    /** The part of `myalloc` that cuts a new chunk off the end of `chunk`. */
    method Cut(chunk: int, size: int, ghost words: nat, ghost rest: nat) returns (newChunk: int)
      requires 4 <= chunk && size == WORD * words && GetSizeIs(chunk, words + rest + META) && 0 < rest
      requires GetNext(chunk) == NULL || chunk + words + rest + 2 * META <= GetNext(chunk) <= mem.Length
      modifies mem
      ensures newChunk == chunk + rest + META
      ensures CutAt(old(mem[..]), mem[..], chunk, words, rest, old(mem[chunk - 3]))
    {
      var realSize := size + METAINFO_SIZE;
      var oldChunkNewSize := GetSize(chunk) - realSize;
      assert oldChunkNewSize == WORD * rest;
      mem[chunk - 4] := oldChunkNewSize;
      mem[chunk + oldChunkNewSize / WORD] := FREE;
      var offset := oldChunkNewSize / WORD + 1;
      newChunk := MakeChunk(chunk + offset, size, ALLOCATED);
      AddNext(chunk, newChunk);
    }

    ghost predicate GetSizeIs(chunk: int, words: nat)
      requires 4 <= chunk
      reads mem
    {
      chunk + words < mem.Length && mem[chunk - 4] == WORD * words
    }

    /** The cut, on chunk k of the list. */
    method SplitChunk(chunk: int, size: int, ghost k: nat, ghost words: nat) returns (p: int)
      requires Valid() && k < |chunks| && chunk == chunks[k].at && size == WORD * words && chunks[k].words > words + META
      modifies this, mem
      ensures Valid() && head == old(head) && chunks == Split(old(chunks), k, words) && p == chunks[k + 1].at
      ensures KeptOutside(old(mem[..]), mem[..], old(chunks), k, k + 1)
    {
      hide Mirrors, KeptOutside, CutAt;
      ghost var m0, rest := mem[..], chunks[k].words - words - META;
      HeldAt(m0, chunks, k);
      if k + 1 < |chunks| { HeldAt(m0, chunks, k + 1); }
      p := Cut(chunk, size, words, rest);
      ghost var m1 := mem[..];
      assert SplitWritten(m0, m1, chunks, k, words);
      SplitMirrors(m0, m1, chunks, k, words);
      chunks := Split(chunks, k, words);
    }

    /** `myalloc`. */
    method Alloc(size: int) returns (p: int)
      requires Valid() && 0 <= size && size % WORD == 0
      modifies this, mem
      ensures Valid() && head == old(head)
      ensures var k := Choose(old(chunks), size / WORD + META);
        if k == |old(chunks)| then p == NULL && chunks == old(chunks) && mem[..] == old(mem[..])
        else && chunks == Split(old(chunks), k, size / WORD) && p == chunks[k + 1].at
             && KeptOutside(old(mem[..]), mem[..], old(chunks), k, k + 1)
             && chunks[k + 1].words == size / WORD && p + size / WORD + META == End(old(chunks)[k])
    {
      hide Mirrors, KeptOutside, Split;
      var realSize := size + METAINFO_SIZE;
      p := FindChunk(realSize);
      assert realSize / WORD == size / WORD + META;
      if p != NULL {
        SplitIs(chunks, Choose(chunks, realSize / WORD), size / WORD);
        p := SplitChunk(p, size, Choose(chunks, realSize / WORD), size / WORD);
      }
    }

    /** `merge_chunks` on the words. */
    method MergeWords(l: int, r: int, ghost lw: nat, ghost rw: nat)
      requires 4 <= l && l + lw + META <= r && GetSizeIs(l, lw) && GetSizeIs(r, rw)
      requires GetNext(r) == NULL || r + rw + META <= GetNext(r) <= mem.Length
      modifies mem
      ensures Joined(old(mem[..]), mem[..], l, lw, r, rw, old(mem[r - 3]))
    {
      mem[r + GetSize(r) / WORD] := FREE;
      var nextR := GetNext(r);
      if nextR != NULL {
        mem[nextR - 2] := l;
      }
      mem[l - 1] := FREE;
      mem[l - 3] := nextR;
      mem[l - 4] := GetSize(l) + GetSize(r) + METAINFO_SIZE;
    }

    /** `merge_chunks` on chunks k and k + 1 of the list. */
    method MergeChunks(l: int, r: int, ghost k: nat)
      requires Valid() && k + 1 < |chunks| && l == chunks[k].at && r == chunks[k + 1].at
      modifies this, mem
      ensures Valid() && head == old(head) && chunks == Merge(old(chunks), k)
      ensures PayloadsKept(old(mem[..]), mem[..], old(chunks))
    {
      hide Mirrors, PayloadsKept, Joined, Merge;
      ghost var m0 := mem[..];
      HeldAt(m0, chunks, k);
      HeldAt(m0, chunks, k + 1);
      if k + 2 < |chunks| { HeldAt(m0, chunks, k + 2); }
      MergeWords(l, r, chunks[k].words, chunks[k + 1].words);
      ghost var m1 := mem[..];
      assert JoinedAt(m0, m1, chunks, k);
      MergeMirrors(m0, m1, chunks, k);
      chunks := Merge(chunks, k);
    }

    /** `free_chunk`. */
    method FreeChunk(chunk: int, ghost k: nat)
      requires Valid() && k < |chunks| && chunk == chunks[k].at
      modifies this, mem
      ensures Valid() && head == old(head) && chunks == Release(old(chunks), k)
      ensures PayloadsKept(old(mem[..]), mem[..], old(chunks))
    {
      ghost var m0 := mem[..];
      assert Holds(m0, chunks, k);
      mem[chunk - 1] := FREE;
      mem[chunk + GetSize(chunk) / WORD] := FREE;
      ReleaseMirrors(m0, mem[..], chunks, k);
      chunks := Release(chunks, k);
    }

    /** The part of `myfree` for a chunk with neighbours on both sides. */
    method FreeMiddle(p: int, prev: int, next: int, ghost k: nat)
      requires Valid() && 0 < k && k + 1 < |chunks| && !chunks[k].left && !chunks[k].right
      requires prev == chunks[k - 1].at && p == chunks[k].at && next == chunks[k + 1].at
      modifies this, mem
      ensures Valid() && head == old(head) && chunks == Freed(old(chunks), k)
      ensures PayloadsKept(old(mem[..]), mem[..], old(chunks))
    {
      ghost var m0 := mem[..];
      ReadsAround(m0, chunks, k);
      MergeKeepsAddresses(chunks, k);
      assert (GetLeft(prev) == FREE) == chunks[k - 1].left && (GetLeft(next) == FREE) == chunks[k + 1].left;
      hide Mirrors, PayloadsKept, Merge, Release, Reads;
      if GetLeft(prev) == FREE && GetLeft(next) == FREE {
        MergeChunks(p, next, k);
        ghost var m1 := mem[..];
        MergeChunks(prev, p, k - 1);
        KeptTwice(m0, m1, mem[..], old(chunks), k);
      } else if GetLeft(prev) == FREE && GetLeft(next) != FREE {
        MergeChunks(prev, p, k - 1);
      } else if GetLeft(prev) != FREE && GetLeft(next) == FREE {
        MergeChunks(p, next, k);
      } else {
        FreeChunk(p, k);
      }
    }

    /** `myfree` of chunk k, or of NULL. */
    method Free(p: int, ghost k: nat)
      requires Valid() && (p == NULL || (k < |chunks| && p == chunks[k].at))
      modifies this, mem
      ensures Valid() && head == old(head)
      ensures chunks == if p == NULL then old(chunks) else Freed(old(chunks), k)
      ensures p == NULL || old(chunks)[k].left || old(chunks)[k].right ==> chunks == old(chunks) && mem[..] == old(mem[..])
      ensures PayloadsKept(old(mem[..]), mem[..], old(chunks))
    {
      hide Mirrors, PayloadsKept, Merge, Release;
      KeptSame(mem[..], chunks);
      if p == NULL {
        return;
      }
      ReadsAround(mem[..], chunks, k);
      if GetRight(p) == FREE || GetLeft(p) == FREE {
        return;
      }
      var prev, next := GetPrev(p), GetNext(p);
      if prev == NULL && next == NULL {
        FreeChunk(p, k);
      } else if prev != NULL && next == NULL {
        if GetRight(prev) == FREE {
          MergeChunks(prev, p, k - 1);
        } else {
          FreeChunk(p, k);
        }
      } else if prev == NULL && next != NULL {
        if GetLeft(next) == FREE {
          MergeChunks(p, next, k);
        } else {
          FreeChunk(p, k);
        }
      } else {
        FreeMiddle(p, prev, next, k);
      }
    }
  }

  /** Sixteen words set up, then one of them allocated: every header word and marker, as the buffer holds them. */
  method SmallBuffer() returns (buf: array<int>, p: int)
    ensures fresh(buf) && buf.Length == 16 && p == 14
    ensures buf[0] == 40 && buf[1] == 14 && buf[2] == 0 && buf[3] == 1 && buf[9] == 1
    ensures buf[10] == 8 && buf[11] == 0 && buf[12] == 4 && buf[13] == 0 && buf[15] == 0
  {
    buf := new int[16];
    var heap := new Heap(buf, 128);
    assert heap.chunks == [Chunk(4, 11, true, true)] && Choose(heap.chunks, 6) == 0;
    p := heap.Alloc(8);
    assert Holds(heap.mem[..], heap.chunks, 0) && Holds(heap.mem[..], heap.chunks, 1);
  }

  /** No word of the chunk's payload has changed. */
  ghost predicate Kept(m0: seq<int>, m1: seq<int>, c: Chunk) {
    |m0| == |m1| && forall i :: c.at <= i < c.at + c.words && i < |m0| ==> m1[i] == m0[i]
  }

  /** No word of any chunk's payload has changed, except perhaps in chunks lo to hi. */
  ghost predicate KeptOutside(m0: seq<int>, m1: seq<int>, cs: seq<Chunk>, lo: nat, hi: nat) {
    forall t :: 0 <= t < |cs| && !(lo <= t < hi) ==> Kept(m0, m1, cs[t])
  }

  ghost predicate PayloadsKept(m0: seq<int>, m1: seq<int>, cs: seq<Chunk>) {
    forall t :: 0 <= t < |cs| ==> Kept(m0, m1, cs[t])
  }

  /** The words of a chunk, metadata included. */
  predicate Spans(c: Chunk, i: int) {
    c.at - 4 <= i <= c.at + c.words
  }

  /** A chunk keeps its metadata when its links stay right and nothing else in it has changed. */
  lemma HoldsAgain(m0: seq<int>, m1: seq<int>, cs: seq<Chunk>, j: nat, r: seq<Chunk>, k: nat)
    requires j < |cs| && k < |r| && cs[j] == r[k] && |m0| == |m1| && Holds(m0, cs, j)
    requires forall i :: 0 <= i < |m0| && Spans(cs[j], i) && i != cs[j].at - 2 ==> m1[i] == m0[i]
    requires k + 1 < |r| <==> j + 1 < |cs|
    requires j + 1 < |cs| ==> r[k + 1].at == cs[j + 1].at
    requires m1[r[k].at - 2] == if k > 0 then r[k - 1].at else NULL
    ensures Holds(m1, r, k)
  {
  }

  /** Only words of chunks lo to hi, and the back link of chunk hi, have changed. */
  ghost predicate ChangedWithin(m0: seq<int>, m1: seq<int>, cs: seq<Chunk>, lo: nat, hi: nat)
    requires lo < hi <= |cs|
  {
    && |m0| == |m1|
    && forall i :: 0 <= i < |m0| && !(cs[lo].at - 4 <= i <= cs[hi - 1].at + cs[hi - 1].words) && (hi < |cs| ==> i != cs[hi].at - 2)
                   ==> m1[i] == m0[i]
  }

  lemma OutsideKept(m0: seq<int>, m1: seq<int>, cs: seq<Chunk>, lo: nat, hi: nat, j: nat)
    requires Tiles(cs, |m0|) && lo < hi <= |cs| && ChangedWithin(m0, m1, cs, lo, hi) && j < |cs| && !(lo <= j < hi)
    ensures forall i :: 0 <= i < |m0| && Spans(cs[j], i) && (j == hi ==> i != cs[j].at - 2) ==> m1[i] == m0[i]
  {
    hide Tiles;
    if j < lo { TilesAreOrdered(cs, |m0|, j, lo); } else { TilesAreOrdered(cs, |m0|, hi - 1, j); }
    if hi < |cs| {
      if j < hi { TilesAreOrdered(cs, |m0|, j, hi); }
      if hi < j { TilesAreOrdered(cs, |m0|, hi, j); }
    }
  }

  /** `r` is `cs` with chunks lo to hi replaced by n others. */
  ghost predicate Replaces(cs: seq<Chunk>, lo: nat, hi: nat, n: nat, r: seq<Chunk>)
    requires lo < hi <= |cs|
  {
    && |r| == |cs| - (hi - lo) + n
    && (forall q :: 0 <= q < lo ==> r[q] == cs[q])
    && (forall q :: lo + n <= q < |r| ==> r[q] == cs[q - lo - n + hi])
  }

  /** Chunks outside the changed ones still hold after those have been replaced. */
  lemma ReplaceMirrors(m0: seq<int>, m1: seq<int>, cs: seq<Chunk>, lo: nat, hi: nat, n: nat, r: seq<Chunk>)
    requires Mirrors(m0, cs) && lo < hi <= |cs| && ChangedWithin(m0, m1, cs, lo, hi)
    requires 0 < n && Replaces(cs, lo, hi, n, r) && r[lo].at == cs[lo].at
    requires hi < |cs| ==> Holds(m0, cs, hi) && m1[cs[hi].at - 2] == r[lo + n - 1].at
    requires Tiles(r, |m0|) && forall q :: lo <= q < lo + n ==> Holds(m1, r, q)
    ensures Mirrors(m1, r) && KeptOutside(m0, m1, cs, lo, hi)
  {
    hide Tiles;
    forall q | 0 <= q < |r| ensures Holds(m1, r, q) {
      if q < lo {
        assert Holds(m0, cs, q);
        OutsideKept(m0, m1, cs, lo, hi, q);
        HoldsAgain(m0, m1, cs, q, r, q);
      } else if q >= lo + n {
        var j := q - lo - n + hi;
        assert Holds(m0, cs, j);
        OutsideKept(m0, m1, cs, lo, hi, j);
        HoldsAgain(m0, m1, cs, j, r, q);
      }
    }
    forall t | 0 <= t < |cs| && !(lo <= t < hi) ensures Kept(m0, m1, cs[t]) {
      OutsideKept(m0, m1, cs, lo, hi, t);
      assert Holds(m0, cs, t);
    }
  }

  /** The words that `merge_chunks` leaves behind; `next` is the chunk after `r`. */
  ghost predicate Joined(m0: seq<int>, m1: seq<int>, l: int, lw: nat, r: int, rw: nat, next: int) {
    && |m1| == |m0| && 4 <= l && l + lw + META <= r && r + rw < |m0| && (next == NULL || r + rw + META <= next <= |m0|)
    && m1[l - 4] == WORD * (lw + rw + META) && m1[l - 3] == next && m1[l - 1] == FREE
    && m1[r + rw] == FREE && (next != NULL ==> m1[next - 2] == l)
    && (forall i | 0 <= i < |m0| && i != l - 4 && i != l - 3 && i != l - 1 && i != r + rw ::
          next == NULL || i != next - 2 ==> m1[i] == m0[i])
  }

  ghost predicate JoinedAt(m0: seq<int>, m1: seq<int>, cs: seq<Chunk>, k: nat)
    requires k + 1 < |cs|
  {
    Joined(m0, m1, cs[k].at, cs[k].words, cs[k + 1].at, cs[k + 1].words, if k + 2 < |cs| then cs[k + 2].at else NULL)
  }

  lemma MergeHolds(m0: seq<int>, m1: seq<int>, cs: seq<Chunk>, k: nat)
    requires k + 1 < |cs| && Holds(m0, cs, k) && Holds(m0, cs, k + 1) && (k + 2 < |cs| ==> Holds(m0, cs, k + 2))
    requires JoinedAt(m0, m1, cs, k)
    requires End(cs[k]) == cs[k + 1].at && (k + 2 < |cs| ==> End(cs[k + 1]) <= cs[k + 2].at)
    ensures ChangedWithin(m0, m1, cs, k, k + 2) && Holds(m1, Merge(cs, k), k)
    ensures Kept(m0, m1, cs[k]) && Kept(m0, m1, cs[k + 1])
    ensures k + 2 < |cs| ==> m1[cs[k + 2].at - 2] == cs[k].at
    ensures Replaces(cs, k, k + 2, 1, Merge(cs, k)) && Merge(cs, k)[k].at == cs[k].at
  {
  }

  lemma MergeMirrors(m0: seq<int>, m1: seq<int>, cs: seq<Chunk>, k: nat)
    requires Mirrors(m0, cs) && k + 1 < |cs|
    requires Holds(m0, cs, k) && Holds(m0, cs, k + 1) && (k + 2 < |cs| ==> Holds(m0, cs, k + 2))
    requires JoinedAt(m0, m1, cs, k)
    ensures Mirrors(m1, Merge(cs, k)) && PayloadsKept(m0, m1, cs)
  {
    MergeTiles(cs, |m0|, k);
    assert End(cs[k]) == cs[k + 1].at;
    hide Tiles;
    if k + 2 < |cs| { TilesAreOrdered(cs, |m0|, k + 1, k + 2); }
    MergeHolds(m0, m1, cs, k);
    hide Holds, JoinedAt, ChangedWithin, Merge, Replaces, Kept, Mirrors;
    ReplaceMirrors(m0, m1, cs, k, k + 2, 1, Merge(cs, k));
  }

  lemma HeldAt(m: seq<int>, cs: seq<Chunk>, k: nat)
    requires Mirrors(m, cs) && k < |cs|
    ensures Holds(m, cs, k) && (k + 1 < |cs| ==> End(cs[k]) <= cs[k + 1].at)
  {
    if k + 1 < |cs| { TilesAreOrdered(cs, |m|, k, k + 1); }
  }

  lemma KeptSame(m: seq<int>, cs: seq<Chunk>)
    ensures PayloadsKept(m, m, cs)
  {
  }

  /** What `myfree` reads of a chunk: its size and markers. */
  ghost predicate Reads(m: seq<int>, c: Chunk) {
    && 4 <= c.at && c.at + c.words < |m| && m[c.at - 4] == WORD * c.words && m[c.at - 4] / WORD == c.words
    && m[c.at - 1] == Marker(c.left) && m[c.at + c.words] == Marker(c.right)
  }

  lemma ReadsAround(m: seq<int>, cs: seq<Chunk>, k: nat)
    requires Mirrors(m, cs) && k < |cs|
    ensures Reads(m, cs[k]) && (0 < k ==> Reads(m, cs[k - 1])) && (k + 1 < |cs| ==> Reads(m, cs[k + 1]))
    ensures m[cs[k].at - 2] == (if 0 < k then cs[k - 1].at else NULL)
    ensures m[cs[k].at - 3] == (if k + 1 < |cs| then cs[k + 1].at else NULL)
  {
    assert Holds(m, cs, k);
    assert 0 < k ==> Holds(m, cs, k - 1);
    assert k + 1 < |cs| ==> Holds(m, cs, k + 1);
  }

  lemma MergeKeepsAddresses(cs: seq<Chunk>, k: nat)
    requires 0 < k && k + 1 < |cs|
    ensures var r := Merge(cs, k); |r| == |cs| - 1 && r[k - 1] == cs[k - 1] && r[k].at == cs[k].at
  {
  }

  /** Two merges in a row, of chunk k with its successor and then with its predecessor. */
  lemma KeptTwice(m0: seq<int>, m1: seq<int>, m2: seq<int>, cs: seq<Chunk>, k: nat)
    requires Mirrors(m0, cs) && k + 1 < |cs| && PayloadsKept(m0, m1, cs) && PayloadsKept(m1, m2, Merge(cs, k))
    ensures PayloadsKept(m0, m2, cs)
  {
    var r := Merge(cs, k);
    assert End(cs[k]) == cs[k + 1].at;
    forall t | 0 <= t < |cs| ensures Kept(m0, m2, cs[t]) {
      assert Kept(m0, m1, cs[t]);
      var d := r[if t < k then t else if t <= k + 1 then k else t - 1];
      assert Kept(m1, m2, d) && d.at <= cs[t].at && cs[t].at + cs[t].words <= d.at + d.words;
    }
  }

  lemma ReleaseMirrors(m0: seq<int>, m1: seq<int>, cs: seq<Chunk>, k: nat)
    requires Mirrors(m0, cs) && k < |cs| && |m1| == |m0| && Holds(m0, cs, k)
    requires m1[cs[k].at - 1] == FREE && m1[cs[k].at + cs[k].words] == FREE
    requires forall i | 0 <= i < |m0| && i != cs[k].at - 1 && i != cs[k].at + cs[k].words :: m1[i] == m0[i]
    ensures Mirrors(m1, Release(cs, k)) && PayloadsKept(m0, m1, cs)
  {
    var r := Release(cs, k);
    ReleaseTiles(cs, |m0|, k);
    hide Tiles;
    if k + 1 < |cs| {
      assert Holds(m0, cs, k + 1);
      TilesAreOrdered(cs, |m0|, k, k + 1);
    }
    assert Holds(m1, r, k) && ChangedWithin(m0, m1, cs, k, k + 1) && Kept(m0, m1, cs[k]);
    hide ChangedWithin, Kept;
    ReplaceMirrors(m0, m1, cs, k, k + 1, 1, r);
  }

  /** The words that `myalloc` leaves behind after cutting `chunk`; `next` is the chunk after it. */
  ghost predicate CutAt(m0: seq<int>, m1: seq<int>, chunk: int, words: nat, rest: nat, next: int) {
    var d := chunk + rest + META;
    && |m1| == |m0| && 4 <= chunk && d + words < |m0| && (next == NULL || d + words + META <= next <= |m0|)
    && m1[chunk - 4] == WORD * rest && m1[chunk - 3] == d && m1[chunk + rest] == FREE
    && m1[d - 4] == WORD * words && m1[d - 3] == next && m1[d - 2] == chunk
    && m1[d - 1] == ALLOCATED && m1[d + words] == ALLOCATED
    && (next != NULL ==> m1[next - 2] == d)
    && (forall i | 0 <= i < |m0| && i != chunk - 4 && i != chunk - 3 && i != chunk + rest
                   && !(d - 4 <= i < d) && i != d + words ::
          next == NULL || i != next - 2 ==> m1[i] == m0[i])
  }

  ghost predicate SplitWritten(m0: seq<int>, m1: seq<int>, cs: seq<Chunk>, k: nat, words: nat)
    requires k < |cs| && cs[k].words > words + META
  {
    CutAt(m0, m1, cs[k].at, words, cs[k].words - words - META, if k + 1 < |cs| then cs[k + 1].at else NULL)
  }

  lemma SplitHolds(m0: seq<int>, m1: seq<int>, cs: seq<Chunk>, k: nat, words: nat)
    requires k < |cs| && cs[k].words > words + META && Holds(m0, cs, k) && (k + 1 < |cs| ==> Holds(m0, cs, k + 1))
    requires SplitWritten(m0, m1, cs, k, words) && (k + 1 < |cs| ==> End(cs[k]) <= cs[k + 1].at)
    ensures ChangedWithin(m0, m1, cs, k, k + 1)
    ensures Holds(m1, Split(cs, k, words), k) && Holds(m1, Split(cs, k, words), k + 1)
    ensures k + 1 < |cs| ==> m1[cs[k + 1].at - 2] == Split(cs, k, words)[k + 1].at
    ensures Replaces(cs, k, k + 1, 2, Split(cs, k, words)) && Split(cs, k, words)[k].at == cs[k].at
  {
  }

  lemma SplitMirrors(m0: seq<int>, m1: seq<int>, cs: seq<Chunk>, k: nat, words: nat)
    requires Mirrors(m0, cs) && k < |cs| && cs[k].words > words + META
    requires Holds(m0, cs, k) && (k + 1 < |cs| ==> Holds(m0, cs, k + 1))
    requires SplitWritten(m0, m1, cs, k, words)
    ensures Mirrors(m1, Split(cs, k, words)) && KeptOutside(m0, m1, cs, k, k + 1)
  {
    SplitTiles(cs, |m0|, k, words);
    hide Tiles;
    if k + 1 < |cs| { TilesAreOrdered(cs, |m0|, k, k + 1); }
    SplitHolds(m0, m1, cs, k, words);
    hide Holds, SplitWritten, ChangedWithin, Split, Replaces, Kept, Mirrors, KeptOutside;
    ReplaceMirrors(m0, m1, cs, k, k + 1, 2, Split(cs, k, words));
  }

  /** The program's own stores into a payload leave every chunk's metadata alone. */
  lemma PayloadStoresAreHarmless(m: seq<int>, cs: seq<Chunk>, k: nat, i: nat, v: int)
    requires Mirrors(m, cs) && k < |cs| && cs[k].at <= i < cs[k].at + cs[k].words && i < |m|
    ensures Mirrors(m[i := v], cs)
  {
    var m1 := m[i := v];
    forall q | 0 <= q < |cs| ensures Holds(m1, cs, q) {
      assert Holds(m, cs, q);
      if q < k { TilesAreOrdered(cs, |m|, q, k); }
      if k < q { TilesAreOrdered(cs, |m|, k, q); }
    }
  }

  lemma {:induction false} ChooseIs(cs: seq<Chunk>, need: nat, k: nat)
    requires k <= |cs| && forall i :: 0 <= i < k ==> cs[i].words <= need
    requires k < |cs| ==> cs[k].words > need
    ensures Choose(cs, need) == k
  {
    if k > 0 { ChooseIs(cs[1..], need, k - 1); }
  }
}
