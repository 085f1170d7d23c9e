/**
  Programs over the allocator: sequences of allocations, frees and stores, carried out on the
  word buffer. Every block that a program holds behaves as a memory of its own: whatever else is
  allocated, freed and stored, it keeps the words last stored in it.
 */
module HeapPrograms {
  import opened Chunks
  import opened Allocator

  datatype Op = Malloc(words: nat) | Release(slot: nat) | Store(slot: nat, offset: nat, value: int)

  /** A pointer variable: NULL, or a block with the words the program has stored in it. */
  datatype Slot = Empty | Full(chunk: Chunk, stored: map<nat, int>)

  datatype Program = Program(cs: seq<Chunk>, slots: seq<Slot>)

  function IndexOf(cs: seq<Chunk>, c: Chunk): (k: nat)
    ensures k <= |cs| && (k < |cs| ==> cs[k] == c) && (k == |cs| ==> c !in cs)
  {
    if cs == [] || cs[0] == c then 0 else 1 + IndexOf(cs[1..], c)
  }

  predicate HasBlock(p: Program, slot: nat) { slot < |p.slots| && p.slots[slot].Full? }

  function Allocated(p: Program, words: nat): Program {
    var k := Choose(p.cs, words + META);
    if k == |p.cs| then p.(slots := p.slots + [Empty])
    else Program(Split(p.cs, k, words), p.slots + [Full(Split(p.cs, k, words)[k + 1], map[])])
  }

  function Released(p: Program, slot: nat): Program
    requires HasBlock(p, slot)
  {
    var k := IndexOf(p.cs, p.slots[slot].chunk);
    Program(if k < |p.cs| then Freed(p.cs, k) else p.cs, p.slots[slot := Empty])
  }

  function Stored(p: Program, slot: nat, offset: nat, value: int): Program
    requires HasBlock(p, slot)
  {
    var b := p.slots[slot];
    if offset < b.chunk.words then p.(slots := p.slots[slot := Full(b.chunk, b.stored[offset := value])]) else p
  }

  /** What an operation means, block by block; one that names no block or a word outside it does nothing. */
  function Apply(p: Program, op: Op): Program {
    match op
    case Malloc(words) => Allocated(p, words)
    case Release(slot) => if HasBlock(p, slot) then Released(p, slot) else p
    case Store(slot, offset, value) => if HasBlock(p, slot) then Stored(p, slot, offset, value) else p
  }

  function ApplyAll(len: nat, ops: seq<Op>): Program
    requires META <= len
  {
    if ops == [] then Program(Fresh(len), []) else Apply(ApplyAll(len, ops[..|ops| - 1]), ops[|ops| - 1])
  }

  ghost predicate MeetsFree(p: Program, op: Op) { op.Malloc? ==> ChoosesFree(State(p.cs, {}), op.words) }

  /** No allocation of the program is served from a block in use. */
  ghost predicate Careful(len: nat, ops: seq<Op>)
    requires META <= len
  {
    forall i :: 0 <= i < |ops| ==> MeetsFree(ApplyAll(len, ops[..i]), ops[i])
  }

  ghost function HeldBy(slots: seq<Slot>): set<Chunk> {
    set i | 0 <= i < |slots| && slots[i].Full? :: slots[i].chunk
  }

  /** No two pointers are the same, and what was stored was stored inside. */
  ghost predicate Separate(slots: seq<Slot>) {
    && (forall i, j :: 0 <= i < j < |slots| && slots[i].Full? && slots[j].Full? ==> slots[i].chunk != slots[j].chunk)
    && (forall i, o :: 0 <= i < |slots| && slots[i].Full? && o in slots[i].stored ==> o < slots[i].chunk.words)
  }

  ghost predicate Sane(p: Program, len: nat) { Safe(State(p.cs, HeldBy(p.slots)), len) && Separate(p.slots) }

  // ---------------------------------------------------------------------------
  // The program's operations are steps of the allocator's runs

  lemma NewIsNew(cs: seq<Chunk>, len: nat, k: nat, words: nat)
    requires Tiles(cs, len) && k < |cs| && cs[k].words > words + META
    ensures Split(cs, k, words)[k + 1] !in cs
  {
    var r := Split(cs, k, words);
    SplitTiles(cs, len, k, words);
    hide Tiles;
    forall i | 0 <= i < |cs| ensures cs[i].at != r[k + 1].at {
      if i < k { TilesAreOrdered(r, len, i, k + 1); }
      if k < i { TilesAreOrdered(r, len, k + 1, i + 1); }
    }
  }

  /** A block is exactly as large as was asked for and nothing has been stored in it; there is none iff no chunk is larger. */
  lemma BlockIsAsAsked(p: Program, words: nat)
    ensures var q := Allocated(p, words);
      && |q.slots| == |p.slots| + 1 && q.slots[..|p.slots|] == p.slots
      && (q.slots[|p.slots|].Full? <==> exists c <- p.cs :: c.words > words + META)
      && (q.slots[|p.slots|].Full? ==> q.slots[|p.slots|].chunk.words == words && q.slots[|p.slots|].stored == map[])
  {
    var k := Choose(p.cs, words + META);
    if k < |p.cs| {
      SplitIs(p.cs, k, words);
      assert p.cs[k] in p.cs;
    }
  }

  lemma HeldIs(slots: seq<Slot>, i: nat)
    requires i < |slots| && slots[i].Full?
    ensures slots[i].chunk in HeldBy(slots)
  {
  }

  lemma HeldAppend(slots: seq<Slot>, x: Slot)
    ensures HeldBy(slots + [x]) == HeldBy(slots) + if x.Full? then {x.chunk} else {}
  {
    var more := slots + [x];
    assert forall i :: 0 <= i < |slots| ==> more[i] == slots[i];
    assert more[|slots|] == x;
  }

  lemma SeparateAppend(slots: seq<Slot>, x: Slot)
    requires Separate(slots) && (x.Full? ==> x.chunk !in HeldBy(slots) && x.stored == map[])
    ensures Separate(slots + [x])
  {
    assert forall i :: 0 <= i < |slots| && slots[i].Full? ==> slots[i].chunk in HeldBy(slots);
  }

  /** Emptying a slot, or storing into its block. */
  lemma HeldUpdate(slots: seq<Slot>, i: nat, x: Slot)
    requires Separate(slots) && i < |slots| && slots[i].Full?
    requires x.Full? ==> x.chunk == slots[i].chunk && forall o :: o in x.stored ==> o < x.chunk.words
    ensures HeldBy(slots[i := x]) == if x.Full? then HeldBy(slots) else HeldBy(slots) - {slots[i].chunk}
    ensures Separate(slots[i := x])
  {
    var now := slots[i := x];
    assert forall j :: 0 <= j < |slots| && j != i ==> now[j] == slots[j];
    forall c ensures c in HeldBy(now) <==> c in HeldBy(slots) && (x.Full? || c != slots[i].chunk) {
      if j :| 0 <= j < |slots| && slots[j].Full? && slots[j].chunk == c {
        if j != i { HeldIs(now, j); } else if x.Full? { HeldIs(now, i); }
      }
    }
  }

  ghost function StateOf(p: Program): State { State(p.cs, HeldBy(p.slots)) }

  lemma SafeParts(s: State, len: nat)
    requires Safe(s, len)
    ensures Tiles(s.cs, len) && Coalesced(s.cs) && forall c :: c in s.held ==> c in s.cs && !c.left && !c.right
  {
  }

  lemma MallocIsStep(p: Program, words: nat, len: nat)
    requires Sane(p, len) && MeetsFree(p, Malloc(words))
    ensures Sane(Allocated(p, words), len) && CarefulStep(StateOf(p), StateOf(Allocated(p, words)))
  {
    hide Safe, HeldBy, Separate, Tiles, Coalesced;
    var q, s, k := Allocated(p, words), StateOf(p), Choose(p.cs, words + META);
    SafeParts(s, len);
    if k < |p.cs| { NewIsNew(p.cs, len, k, words); }
    var x := if k == |p.cs| then Empty else Full(Split(p.cs, k, words)[k + 1], map[]);
    assert q.slots == p.slots + [x];
    HeldAppend(p.slots, x);
    SeparateAppend(p.slots, x);
    assert ChoosesFree(s, words) && AllocStep(s, words, StateOf(q));
    StepStaysSafe(s, StateOf(q), len);
  }

  lemma ReleaseIsStep(p: Program, slot: nat, len: nat)
    requires Sane(p, len) && HasBlock(p, slot)
    ensures Sane(Released(p, slot), len) && CarefulStep(StateOf(p), StateOf(Released(p, slot)))
  {
    hide Safe, HeldBy, Separate, Freed, Tiles, Coalesced;
    var q, s, c := Released(p, slot), StateOf(p), p.slots[slot].chunk;
    HeldIs(p.slots, slot);
    SafeParts(s, len);
    HeldUpdate(p.slots, slot, Empty);
    assert FreeStep(s, c, StateOf(q));
    StepStaysSafe(s, StateOf(q), len);
  }

  lemma StoreIsSilent(p: Program, slot: nat, offset: nat, value: int, len: nat)
    requires Sane(p, len) && HasBlock(p, slot)
    ensures Sane(Stored(p, slot, offset, value), len) && StateOf(Stored(p, slot, offset, value)) == StateOf(p)
  {
    hide Safe, HeldBy;
    var b := p.slots[slot];
    if offset < b.chunk.words { HeldUpdate(p.slots, slot, Full(b.chunk, b.stored[offset := value])); }
  }

  /** The states of a careful program are the last states of careful runs of the allocator. */
  lemma {:induction false} AsRun(len: nat, ops: seq<Op>) returns (run: seq<State>)
    requires META <= len && Careful(len, ops)
    ensures CarefulRun(run, len) && run[|run| - 1] == StateOf(ApplyAll(len, ops)) && Sane(ApplyAll(len, ops), len)
  {
    hide Sane, CarefulStep, MeetsFree, Apply;
    if ops == [] {
      run := [State(Fresh(len), {})];
      FreshIsSane(len);
    } else {
      var n := |ops| - 1;
      var op, p := ops[n], ApplyAll(len, ops[..n]);
      CarefulPrefix(len, ops);
      run := AsRun(len, ops[..n]);
      var q := ApplyAll(len, ops);
      OpIsStep(p, op, len);
      if StateOf(q) != StateOf(p) { run := run + [StateOf(q)]; }
    }
  }

  lemma FreshIsSane(len: nat)
    requires META <= len
    ensures Sane(Program(Fresh(len), []), len) && HeldBy([]) == {}
  {
  }

  lemma CarefulPrefix(len: nat, ops: seq<Op>)
    requires META <= len && Careful(len, ops) && ops != []
    ensures Careful(len, ops[..|ops| - 1]) && MeetsFree(ApplyAll(len, ops[..|ops| - 1]), ops[|ops| - 1])
  {
    hide MeetsFree, ApplyAll;
    var front := ops[..|ops| - 1];
    forall i | 0 <= i < |front| ensures MeetsFree(ApplyAll(len, front[..i]), front[i]) {
      assert front[..i] == ops[..i] && front[i] == ops[i];
    }
  }

  lemma OpIsStep(p: Program, op: Op, len: nat)
    requires Sane(p, len) && MeetsFree(p, op)
    ensures var q := Apply(p, op); Sane(q, len) && (StateOf(q) == StateOf(p) || CarefulStep(StateOf(p), StateOf(q)))
  {
    hide Sane, CarefulStep, Released, Stored, Allocated, StateOf;
    match op
    case Malloc(words) => MallocIsStep(p, words, len);
    case Release(slot) => if HasBlock(p, slot) { ReleaseIsStep(p, slot, len); }
    case Store(slot, offset, value) => if HasBlock(p, slot) { StoreIsSilent(p, slot, offset, value, len); }
  }

  /** A careful program that has released every block finds the buffer one free chunk again. */
  lemma ReleasedAllIsFresh(len: nat, ops: seq<Op>)
    requires META <= len && Careful(len, ops) && forall i :: 0 <= i < |ApplyAll(len, ops).slots| ==> ApplyAll(len, ops).slots[i].Empty?
    ensures ApplyAll(len, ops).cs == Fresh(len)
  {
    hide ApplyAll, CarefulRun;
    var run := AsRun(len, ops);
    RunIsNotEmpty(run, len);
    AllFreedIsFresh(run, len, |run| - 1);
  }

  lemma RunIsNotEmpty(run: seq<State>, len: nat)
    requires CarefulRun(run, len)
    ensures run != []
  {
  }

  // ---------------------------------------------------------------------------
  // Careful programs are those whose blocks never overlap

  /** The blocks' payloads do not meet. */
  ghost predicate Apart(slots: seq<Slot>) {
    forall i, j :: 0 <= i < j < |slots| && slots[i].Full? && slots[j].Full? ==> Disjoint(slots[i].chunk, slots[j].chunk)
  }

  ghost predicate Disjoint(c: Chunk, d: Chunk) { c.at + c.words < d.at || d.at + d.words < c.at }

  lemma SaneIsApart(p: Program, len: nat)
    requires Sane(p, len)
    ensures Apart(p.slots)
  {
    hide Safe;
    forall i, j | 0 <= i < j < |p.slots| && p.slots[i].Full? && p.slots[j].Full? ensures Disjoint(p.slots[i].chunk, p.slots[j].chunk) {
      var k := BlockIsListed(p, len, i);
      var t := BlockIsListed(p, len, j);
      SafeParts(StateOf(p), len);
      if k < t { TilesAreOrdered(p.cs, len, k, t); } else { TilesAreOrdered(p.cs, len, t, k); }
    }
  }

  lemma BlockIsListed(p: Program, len: nat, i: nat) returns (k: nat)
    requires Sane(p, len) && HasBlock(p, i)
    ensures k < |p.cs| && p.cs[k] == p.slots[i].chunk && !p.cs[k].left && k == IndexOf(p.cs, p.cs[k])
  {
    hide Safe;
    HeldIs(p.slots, i);
    SafeParts(StateOf(p), len);
    k := IndexOf(p.cs, p.slots[i].chunk);
  }

  lemma CarelessMeets(p: Program, words: nat, len: nat)
    requires Sane(p, len) && !MeetsFree(p, Malloc(words))
    ensures !Apart(Allocated(p, words).slots)
  {
    hide Tiles, Coalesced, Separate;
    var k, q := Choose(p.cs, words + META), Allocated(p, words);
    assert p.cs[k] in Live(p.cs);
    var i :| 0 <= i < |p.slots| && p.slots[i].Full? && p.slots[i].chunk == p.cs[k];
    SplitOfLiveOverlaps(p.cs, k, words);
    assert q.slots[i] == p.slots[i] && !Disjoint(q.slots[i].chunk, q.slots[|p.slots|].chunk);
  }

  /** The blocks never overlap if and only if no allocation is served from a block in use. */
  lemma CarefulIffApart(len: nat, ops: seq<Op>)
    requires META <= len
    ensures Careful(len, ops) <==> forall n :: 0 <= n <= |ops| ==> Apart(ApplyAll(len, ops[..n]).slots)
  {
    hide Apart, MeetsFree, ApplyAll;
    if Careful(len, ops) {
      forall n | 0 <= n <= |ops| ensures Apart(ApplyAll(len, ops[..n]).slots) {
        CarefulFront(len, ops, n);
        var run := AsRun(len, ops[..n]);
        SaneIsApart(ApplyAll(len, ops[..n]), len);
      }
    } else {
      var i :| 0 <= i < |ops| && !MeetsFree(ApplyAll(len, ops[..i]), ops[i]);
      var n := FirstMeeting(len, ops, i);
    }
  }

  lemma CarefulFront(len: nat, ops: seq<Op>, n: nat)
    requires META <= len && n <= |ops| && forall i :: 0 <= i < n ==> MeetsFree(ApplyAll(len, ops[..i]), ops[i])
    ensures Careful(len, ops[..n])
  {
    hide MeetsFree, ApplyAll;
    forall i | 0 <= i < n ensures MeetsFree(ApplyAll(len, ops[..n][..i]), ops[..n][i]) {
      assert ops[..n][..i] == ops[..i];
    }
  }

  /** The first careless allocation, at i or before, makes two blocks meet. */
  lemma {:induction false} FirstMeeting(len: nat, ops: seq<Op>, i: nat) returns (n: nat)
    requires META <= len && i < |ops| && !MeetsFree(ApplyAll(len, ops[..i]), ops[i])
    ensures n <= |ops| && !Apart(ApplyAll(len, ops[..n]).slots)
    decreases i
  {
    hide Apart;
    if j :| 0 <= j < i && !MeetsFree(ApplyAll(len, ops[..j]), ops[j]) {
      n := FirstMeeting(len, ops, j);
    } else {
      CarefulFront(len, ops, i);
      var run := AsRun(len, ops[..i]);
      CarelessMeets(ApplyAll(len, ops[..i]), ops[i].words, len);
      n := i + 1;
      assert ops[..n][..i] == ops[..i];
    }
  }

  // ---------------------------------------------------------------------------
  // On the buffer

  /** The pointer is the block's address, and every word that was stored is there. */
  ghost predicate SlotMatches(mem: seq<int>, ptr: int, slot: Slot) {
    match slot
    case Empty => ptr == NULL
    case Full(c, stored) =>
      ptr == c.at && c.at + c.words < |mem| && forall o :: o in stored && o < c.words ==> mem[c.at + o] == stored[o]
  }

  ghost predicate Matches(mem: seq<int>, ptrs: seq<int>, slots: seq<Slot>) {
    |ptrs| == |slots| && forall i :: 0 <= i < |slots| ==> SlotMatches(mem, ptrs[i], slots[i])
  }

  /** The buffer and the pointers are in the program's state. */
  ghost predicate Represents(mem: seq<int>, cs: seq<Chunk>, ptrs: seq<int>, p: Program) {
    Mirrors(mem, cs) && cs == p.cs && Sane(p, |mem|) && Matches(mem, ptrs, p.slots)
  }

  /** A block that keeps its words keeps what was stored in it. */
  lemma KeptMatches(m0: seq<int>, m1: seq<int>, ptr: int, slot: Slot)
    requires SlotMatches(m0, ptr, slot) && (slot.Full? ==> Kept(m0, m1, slot.chunk))
    ensures SlotMatches(m1, ptr, slot)
  {
  }

  /** Blocks other than chunk k keep what was stored in them. */
  lemma AllMatch(m0: seq<int>, m1: seq<int>, ptrs: seq<int>, p: Program, k: nat)
    requires Sane(p, |m0|) && Matches(m0, ptrs, p.slots) && k <= |p.cs| && (k < |p.cs| ==> p.cs[k].left)
    requires |m1| == |m0| && KeptOutside(m0, m1, p.cs, k, k + 1)
    ensures Matches(m1, ptrs, p.slots)
  {
    hide Sane, Kept;
    forall i | 0 <= i < |p.slots| ensures SlotMatches(m1, ptrs[i], p.slots[i]) {
      if p.slots[i].Full? { var t := BlockIsListed(p, |m0|, i); }
      KeptMatches(m0, m1, ptrs[i], p.slots[i]);
    }
  }

  lemma NewMatches(mem: seq<int>, cs: seq<Chunk>, k: nat)
    requires Mirrors(mem, cs) && k < |cs|
    ensures SlotMatches(mem, cs[k].at, Full(cs[k], map[]))
  {
    assert Holds(mem, cs, k);
  }

  lemma AppendMatches(mem: seq<int>, ptrs: seq<int>, slots: seq<Slot>, ptr: int, slot: Slot)
    requires Matches(mem, ptrs, slots) && SlotMatches(mem, ptr, slot)
    ensures Matches(mem, ptrs + [ptr], slots + [slot])
  {
  }

  lemma NullMatches(mem: seq<int>)
    ensures SlotMatches(mem, NULL, Empty)
  {
  }

  lemma UpdateMatches(mem: seq<int>, ptrs: seq<int>, slots: seq<Slot>, i: nat, ptr: int, slot: Slot)
    requires Matches(mem, ptrs, slots) && i < |ptrs| && SlotMatches(mem, ptr, slot)
    ensures Matches(mem, ptrs[i := ptr], slots[i := slot])
  {
  }

  lemma KeptAsOutside(m0: seq<int>, m1: seq<int>, cs: seq<Chunk>)
    requires PayloadsKept(m0, m1, cs)
    ensures KeptOutside(m0, m1, cs, |cs|, |cs| + 1)
  {
  }

  /** What `myalloc` promises. */
  ghost predicate AllocOutcome(m0: seq<int>, cs: seq<Chunk>, words: nat, m1: seq<int>, r: seq<Chunk>, q: int) {
    var k := Choose(cs, words + META);
    if k == |cs| then q == NULL && r == cs && m1 == m0
    else r == Split(cs, k, words) && q == r[k + 1].at && KeptOutside(m0, m1, cs, k, k + 1)
  }

  lemma MallocRepresents(m0: seq<int>, ptrs: seq<int>, p: Program, words: nat, m1: seq<int>, r: seq<Chunk>, q: int)
    requires Represents(m0, p.cs, ptrs, p) && MeetsFree(p, Malloc(words))
    requires |m1| == |m0| && Mirrors(m1, r) && AllocOutcome(m0, p.cs, words, m1, r, q)
    ensures Represents(m1, r, ptrs + [q], Allocated(p, words))
  {
    hide Sane, KeptOutside, Mirrors, Matches, SlotMatches;
    var k := Choose(p.cs, words + META);
    MallocIsStep(p, words, |m0|);
    if k < |p.cs| {
      AllMatch(m0, m1, ptrs, p, k);
      NewMatches(m1, r, k + 1);
      AppendMatches(m1, ptrs, p.slots, q, Full(r[k + 1], map[]));
    } else {
      NullMatches(m1);
      AppendMatches(m1, ptrs, p.slots, q, Empty);
    }
  }

  method ExecuteMalloc(heap: Heap, ptrs: seq<int>, words: nat, ghost p: Program) returns (r: seq<int>)
    requires heap.Valid() && Represents(heap.mem[..], heap.chunks, ptrs, p) && MeetsFree(p, Malloc(words))
    modifies heap, heap.mem
    ensures heap.Valid() && Represents(heap.mem[..], heap.chunks, r, Apply(p, Malloc(words)))
  {
    ghost var m0 := heap.mem[..];
    SameChunks(heap, ptrs, p);
    hide Sane, KeptOutside, Mirrors, Represents, Split, MeetsFree, Allocated;
    var size := WORD * words;
    assert size / WORD == words;
    var q := heap.Alloc(size);
    r := ptrs + [q];
    assert AllocOutcome(m0, p.cs, words, heap.mem[..], heap.chunks, q);
    MallocRepresents(m0, ptrs, p, words, heap.mem[..], heap.chunks, q);
  }

  lemma SameChunks(heap: Heap, ptrs: seq<int>, p: Program)
    requires Represents(heap.mem[..], heap.chunks, ptrs, p)
    ensures heap.chunks == p.cs
  {
  }

  /** What pointer `slot` is: NULL or the address of a listed block that nobody has freed. */
  lemma PointerIs(mem: seq<int>, ptrs: seq<int>, p: Program, slot: nat) returns (k: nat)
    requires Represents(mem, p.cs, ptrs, p) && slot < |ptrs|
    ensures |ptrs| == |p.slots| && (ptrs[slot] == NULL <==> !HasBlock(p, slot))
    ensures HasBlock(p, slot) ==> && k < |p.cs| && ptrs[slot] == p.cs[k].at && p.cs[k] == p.slots[slot].chunk
                                  && k == IndexOf(p.cs, p.cs[k]) && Holds(mem, p.cs, k)
  {
    hide Sane;
    assert SlotMatches(mem, ptrs[slot], p.slots[slot]);
    k := 0;
    if HasBlock(p, slot) {
      k := BlockIsListed(p, |mem|, slot);
      assert Holds(mem, p.cs, k);
    }
  }

  lemma ReleaseRepresents(m0: seq<int>, ptrs: seq<int>, p: Program, slot: nat, k: nat, m1: seq<int>)
    requires Represents(m0, p.cs, ptrs, p) && HasBlock(p, slot) && k < |p.cs| && p.cs[k] == p.slots[slot].chunk && k == IndexOf(p.cs, p.cs[k])
    requires |m1| == |m0| && Mirrors(m1, Freed(p.cs, k)) && PayloadsKept(m0, m1, p.cs)
    ensures Represents(m1, Freed(p.cs, k), ptrs[slot := NULL], Released(p, slot))
  {
    hide Sane, Matches, SlotMatches, KeptOutside, PayloadsKept, Mirrors, Freed;
    ReleaseIsStep(p, slot, |m0|);
    KeptAsOutside(m0, m1, p.cs);
    AllMatch(m0, m1, ptrs, p, |p.cs|);
    NullMatches(m1);
    assert |ptrs| == |p.slots| by { SameLength(m1, ptrs, p.slots); }
    UpdateMatches(m1, ptrs, p.slots, slot, NULL, Empty);
  }

  lemma SameLength(mem: seq<int>, ptrs: seq<int>, slots: seq<Slot>)
    requires Matches(mem, ptrs, slots)
    ensures |ptrs| == |slots|
  {
  }

  lemma IdleRepresents(m0: seq<int>, ptrs: seq<int>, p: Program, m1: seq<int>)
    requires Represents(m0, p.cs, ptrs, p) && |m1| == |m0| && Mirrors(m1, p.cs) && PayloadsKept(m0, m1, p.cs)
    ensures Represents(m1, p.cs, ptrs, p)
  {
    hide Sane, Matches, KeptOutside, PayloadsKept, Mirrors;
    KeptAsOutside(m0, m1, p.cs);
    AllMatch(m0, m1, ptrs, p, |p.cs|);
  }

  method ExecuteRelease(heap: Heap, ptrs: seq<int>, slot: nat, ghost p: Program) returns (r: seq<int>)
    requires heap.Valid() && Represents(heap.mem[..], heap.chunks, ptrs, p) && slot < |ptrs|
    modifies heap, heap.mem
    ensures heap.Valid() && Represents(heap.mem[..], heap.chunks, r, Apply(p, Release(slot)))
  {
    ghost var m0 := heap.mem[..];
    SameChunks(heap, ptrs, p);
    hide Sane, PayloadsKept, Mirrors, Represents, Freed, Released, Holds;
    ghost var k := PointerIs(m0, ptrs, p, slot);
    heap.Free(ptrs[slot], k);
    r := ptrs[slot := NULL];
    if HasBlock(p, slot) {
      ReleaseRepresents(m0, ptrs, p, slot, k, heap.mem[..]);
    } else {
      assert r == ptrs;
      IdleRepresents(m0, ptrs, p, heap.mem[..]);
    }
  }

  /** A store into block k touches no other block. */
  lemma StoreKeeps(m: seq<int>, cs: seq<Chunk>, k: nat, t: nat, offset: nat, v: int)
    requires Mirrors(m, cs) && k < |cs| && t < |cs| && t != k && offset < cs[k].words && Holds(m, cs, k)
    ensures Kept(m, m[cs[k].at + offset := v], cs[t])
  {
    if t < k { TilesAreOrdered(cs, |m|, t, k); } else { TilesAreOrdered(cs, |m|, k, t); }
  }

  lemma StoreMatches(m: seq<int>, ptrs: seq<int>, p: Program, slot: nat, k: nat, offset: nat, v: int)
    requires Represents(m, p.cs, ptrs, p) && HasBlock(p, slot) && k < |p.cs| && p.cs[k] == p.slots[slot].chunk
    requires Holds(m, p.cs, k) && offset < p.cs[k].words
    ensures Matches(m[p.cs[k].at + offset := v], ptrs, Stored(p, slot, offset, v).slots)
  {
    hide Safe, Mirrors, Holds, Kept;
    var m1, q := m[p.cs[k].at + offset := v], Stored(p, slot, offset, v);
    forall i | 0 <= i < |p.slots| ensures SlotMatches(m1, ptrs[i], q.slots[i]) {
      assert SlotMatches(m, ptrs[i], p.slots[i]);
      if i != slot {
        if p.slots[i].Full? {
          var t := BlockIsListed(p, |m|, i);
          StoreKeeps(m, p.cs, k, t, offset, v);
        }
        KeptMatches(m, m1, ptrs[i], p.slots[i]);
      }
    }
  }

  lemma StoreRepresents(m: seq<int>, ptrs: seq<int>, p: Program, slot: nat, k: nat, offset: nat, v: int)
    requires Represents(m, p.cs, ptrs, p) && HasBlock(p, slot) && k < |p.cs| && p.cs[k] == p.slots[slot].chunk
    requires Holds(m, p.cs, k) && offset < p.cs[k].words
    ensures Represents(m[p.cs[k].at + offset := v], p.cs, ptrs, Stored(p, slot, offset, v))
  {
    hide Sane, Matches, Mirrors;
    StoreMatches(m, ptrs, p, slot, k, offset, v);
    PayloadStoresAreHarmless(m, p.cs, k, p.cs[k].at + offset, v);
    StoreIsSilent(p, slot, offset, v, |m|);
  }

  method ExecuteStore(heap: Heap, ptrs: seq<int>, slot: nat, offset: nat, value: int, ghost p: Program)
    requires heap.Valid() && Represents(heap.mem[..], heap.chunks, ptrs, p) && slot < |ptrs|
    modifies heap.mem
    ensures heap.Valid() && Represents(heap.mem[..], heap.chunks, ptrs, Apply(p, Store(slot, offset, value)))
  {
    ghost var m0 := heap.mem[..];
    SameChunks(heap, ptrs, p);
    hide Sane, Represents, Mirrors;
    ghost var k := PointerIs(m0, ptrs, p, slot);
    var q := ptrs[slot];
    if q != NULL && offset < heap.GetSize(q) / WORD {
      StoreRepresents(m0, ptrs, p, slot, k, offset, value);
      heap.mem[q + offset] := value;
      assert heap.mem[..] == m0[q + offset := value];
      Mirrored(heap.mem[..], heap.chunks, ptrs, Stored(p, slot, offset, value));
    }
  }

  lemma Mirrored(mem: seq<int>, cs: seq<Chunk>, ptrs: seq<int>, p: Program)
    requires Represents(mem, cs, ptrs, p)
    ensures Mirrors(mem, cs)
  {
  }

  method ExecuteOne(heap: Heap, ptrs: seq<int>, op: Op, ghost p: Program) returns (r: seq<int>)
    requires heap.Valid() && Represents(heap.mem[..], heap.chunks, ptrs, p) && MeetsFree(p, op)
    modifies heap, heap.mem
    ensures heap.Valid() && Represents(heap.mem[..], heap.chunks, r, Apply(p, op))
  {
    hide Sane, Mirrors;
    r := ptrs;
    match op
    case Malloc(words) => r := ExecuteMalloc(heap, ptrs, words, p);
    case Release(slot) => if slot < |ptrs| { r := ExecuteRelease(heap, ptrs, slot, p); }
    case Store(slot, offset, value) => if slot < |ptrs| { ExecuteStore(heap, ptrs, slot, offset, value, p); }
  }

  /** A careful program on a fresh heap: the pointers and the words it stored are as block-by-block memory has them. */
  method Execute(heap: Heap, ops: seq<Op>) returns (ptrs: seq<int>)
    requires heap.Valid() && META <= heap.mem.Length && heap.chunks == Fresh(heap.mem.Length) && Careful(heap.mem.Length, ops)
    modifies heap, heap.mem
    ensures heap.Valid() && heap.chunks == ApplyAll(heap.mem.Length, ops).cs
    ensures Matches(heap.mem[..], ptrs, ApplyAll(heap.mem.Length, ops).slots)
  {
    ptrs := [];
    ghost var len := heap.mem.Length;
    FreshIsSane(len);
    assert ops[..0] == [];
    for i := 0 to |ops|
      invariant heap.Valid() && Represents(heap.mem[..], heap.chunks, ptrs, ApplyAll(len, ops[..i]))
    {
      hide Represents, Mirrors, MeetsFree;
      ghost var p := ApplyAll(len, ops[..i]);
      assert ops[..i + 1][..i] == ops[..i];
      ptrs := ExecuteOne(heap, ptrs, ops[i], p);
    }
    assert ops[..|ops|] == ops;
  }
}
