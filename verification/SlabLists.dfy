/**
  The slab cache's linked structures: a slab with its chain of free blocks, and the
  doubly linked lists that slabs are moved between.  A list's head is the slab added
  last; `prev` leads from there to the older ones.
 */
module SlabLists {

  /** A block carved out of a slab.  `offset` is its byte offset in the slab's memory. */
  class Block {
    const slab: Slab
    const offset: nat
    var next: Block?

    constructor (slab: Slab, offset: nat)
      ensures this.slab == slab && this.offset == offset && next == null
    {
      this.slab, this.offset := slab, offset;
      next := null;
    }
  }

  const SLAB_HEADER: nat := 64
  const BLOCK_HEADER: nat := 24

  function BlockOffset(objectSize: nat, i: nat): nat {
    SLAB_HEADER + i * (objectSize + BLOCK_HEADER)
  }

  lemma BlockOffsetStep(objectSize: nat, i: nat)
    ensures BlockOffset(objectSize, i + 1) == BlockOffset(objectSize, i) + objectSize + BLOCK_HEADER
  {
  }

  class Slab {
    var size: nat
    const capacity: nat
    const blockSize: nat
    var firstBlock: Block?
    var prev: Slab?
    var next: Slab?
    var list: SlabList?
    ghost var blocks: seq<Block>
    ghost var chain: seq<Block>

    /** All blocks, in address order. */
    ghost predicate Laid()
      reads this`blocks
    {
      && |blocks| == capacity
      && (forall i :: 0 <= i < |blocks| ==> blocks[i].slab == this && blocks[i].offset == BlockOffset(blockSize, i))
      && (forall i, j :: 0 <= i < j < |blocks| ==> blocks[i] != blocks[j])
    }

    /** The free chain: `capacity - size` distinct blocks of this slab, linked from `firstBlock`. */
    ghost predicate Chained()
      reads this`blocks, this`chain, this`size, this`firstBlock, blocks
    {
      && Laid()
      && size + |chain| == capacity
      && (forall i :: 0 <= i < |chain| ==> chain[i] in blocks)
      && (forall i, j :: 0 <= i < j < |chain| ==> chain[i] != chain[j])
      && firstBlock == BlockAt(chain, 0)
      && (forall i {:trigger chain[i].next} :: 0 <= i < |chain| ==> chain[i].next == BlockAt(chain, i + 1))
    }

    /** `create_slab`, up to the block list. */
    constructor (objectSize: nat, slabObjects: nat)
      ensures size == 0 && capacity == slabObjects && blockSize == objectSize
      ensures prev == null && next == null && list == null
    {
      size, capacity, blockSize := 0, slabObjects, objectSize;
      prev, next, list, firstBlock := null, null, null, null;
      blocks, chain := [], [];
    }

    method InitBlockList()
      requires 1 <= capacity && size == 0
      modifies this`firstBlock, this`blocks, this`chain
      ensures Chained() && chain == blocks
      ensures forall i :: 0 <= i < |blocks| ==> fresh(blocks[i]) && blocks[i].slab == this
    {
      var block := new Block(this, SLAB_HEADER);
      firstBlock := block;
      blocks := [block];
      var prevBlock := block;
      var index := 1;
      assert block.offset == BlockOffset(blockSize, 0);
      hide BlockOffset;
      while index < capacity
        invariant 1 <= index <= capacity && |blocks| == index
        invariant forall i :: 0 <= i < |blocks| ==> fresh(blocks[i])
        invariant forall i :: 0 <= i < |blocks| ==> blocks[i].slab == this && blocks[i].offset == BlockOffset(blockSize, i)
        invariant forall i, j :: 0 <= i < j < |blocks| ==> blocks[i] != blocks[j]
        invariant prevBlock == blocks[index - 1] && firstBlock == blocks[0]
        invariant forall i {:trigger blocks[i].next} :: 0 <= i < |blocks| ==> blocks[i].next == BlockAt(blocks, i + 1)
      {
        BlockOffsetStep(blockSize, index - 1);
        block := new Block(this, prevBlock.offset + blockSize + BLOCK_HEADER);
        prevBlock.next := block;
        prevBlock := block;
        blocks := blocks + [block];
        index := index + 1;
      }
      chain := blocks;
    }

    lemma Sizes()
      requires Chained()
      ensures size + |chain| == capacity
    {
    }

    /** `slab_is_full`. */
    predicate IsFull()
      reads this`size
    {
      size >= capacity
    }

    method AllocBlock() returns (b: Block?)
      requires Chained()
      modifies this`size, this`firstBlock, this`chain, blocks`next
      ensures Chained() && blocks == old(blocks)
      ensures if old(size) < capacity
              then size == old(size) + 1 && b != null && old(chain) == [b] + chain && b in blocks && b !in chain
              else b == null && size == old(size) && chain == old(chain)
    {
      if size >= capacity {
        return null;
      }
      b := firstBlock;
      firstBlock := firstBlock.next;
      size := size + 1;
      b.next := null;
      chain := chain[1..];
    }

    /** Following `next` from `firstBlock` meets the blocks of c and then ends. */
    ghost predicate EndsAfter(c: seq<Block>)
      reads this`firstBlock, c
    {
      firstBlock == BlockAt(c, 0) && forall i {:trigger c[i].next} :: 0 <= i < |c| ==> c[i].next == BlockAt(c, i + 1)
    }

    /** A block freed twice in a row, or on an empty slab, is refused; one deeper in the chain ties it into a ring. */
    method FreeBlock(target: Block)
      requires Chained() && target in blocks
      modifies this`size, this`firstBlock, this`chain, blocks`next
      ensures blocks == old(blocks)
      ensures Chained() <==> old(size) == 0 || target !in Deeper(old(chain))
      ensures target !in old(chain) ==> chain == [target] + old(chain) && size + 1 == old(size)
      ensures old(size) == 0 || (old(chain) != [] && target == old(chain)[0]) ==> chain == old(chain) && size == old(size)
      ensures forall x :: x in chain <==> x in old(chain) || x == target
      ensures !Chained() ==> forall c: seq<Block> :: (forall b <- c :: b in blocks) ==> !EndsAfter(c)
    {
      if size == 0 {
        FullChainCovers(chain, blocks, target);
        return;
      }
      if firstBlock == target {
        return;
      }
      target.next := firstBlock;
      firstBlock := target;
      size := size - 1;
      ghost var before := chain;
      chain := [target] + chain;
      if target in before {
        ghost var d :| 0 < d < |before| && before[d] == target;
        assert chain[0] == chain[d + 1] && target in Deeper(before);
        TiedIntoRing(before, target, d);
      }
    }

    /** The first block leads to itself through the blocks before place d of the old chain. */
    lemma TiedIntoRing(before: seq<Block>, target: Block, d: nat)
      requires firstBlock == target && 0 < d < |before| && before[d] == target && target.next == before[0]
      requires forall i {:trigger before[i].next} :: 0 <= i < d ==> before[i].next == before[i + 1]
      ensures forall c: seq<Block> :: (forall b <- c :: b in blocks) ==> !EndsAfter(c)
    {
      var ring := set i | 0 <= i <= d :: before[i];
      forall b | b in ring ensures b.next != null && b.next in ring {
        var i :| 0 <= i <= d && before[i] == b;
        if i < d { assert before[i].next == before[i + 1]; }
      }
      forall c: seq<Block> | forall b <- c :: b in blocks ensures !EndsAfter(c) {
        if EndsAfter(c) { RingNeverEnds(target, ring, c); }
      }
    }
  }

  /** Three blocks handed out, then a, b and a again freed: the second free of a is not refused. */
  method DoubleFreeTiesRing() returns (slab: Slab)
    ensures fresh(slab) && !slab.Chained()
    ensures forall c: seq<Block> :: (forall b <- c :: b in slab.blocks) ==> !slab.EndsAfter(c)
  {
    hide Slab.Chained;
    slab := new Slab(8, 3);
    slab.InitBlockList();
    slab.Sizes();
    var a := slab.AllocBlock();
    slab.Sizes();
    var b := slab.AllocBlock();
    slab.Sizes();
    var c := slab.AllocBlock();
    slab.Sizes();
    slab.FreeBlock(a);
    slab.Sizes();
    slab.FreeBlock(b);
    slab.Sizes();
    assert Deeper(slab.chain)[0] == a;
    slab.FreeBlock(a);
  }

  /** The chain without its first block. */
  ghost function Deeper(chain: seq<Block>): seq<Block> { if chain == [] then [] else chain[1..] }

  /** A walk among blocks that only lead to each other does not end. */
  lemma RingNeverEnds(first: Block, ring: set<Block>, c: seq<Block>)
    requires first in ring && forall b <- ring :: b.next != null && b.next in ring
    ensures !(BlockAt(c, 0) == first && forall i {:trigger c[i].next} :: 0 <= i < |c| ==> c[i].next == BlockAt(c, i + 1))
  {
    if BlockAt(c, 0) == first && forall i {:trigger c[i].next} :: 0 <= i < |c| ==> c[i].next == BlockAt(c, i + 1) {
      var k := 0;
      while k < |c| - 1
        invariant 0 <= k < |c| && c[k] in ring
      {
        assert c[k].next == c[k + 1];
        k := k + 1;
      }
    }
  }

  /** A chain of as many distinct blocks as there are holds every block. */
  lemma FullChainCovers(chain: seq<Block>, blocks: seq<Block>, b: Block)
    requires |chain| == |blocks| && b in blocks && forall i :: 0 <= i < |chain| ==> chain[i] in blocks
    requires forall i, j :: 0 <= i < j < |chain| ==> chain[i] != chain[j]
    ensures b in chain
  {
    if b !in chain {
      MoreThanFits(chain + [b], blocks);
    }
  }

  lemma {:induction false} MoreThanFits(a: seq<Block>, bs: seq<Block>)
    requires forall i :: 0 <= i < |a| ==> a[i] in bs
    requires forall i, j :: 0 <= i < j < |a| ==> a[i] != a[j]
    ensures |a| <= |bs|
    decreases |bs|
  {
    if a != [] {
      var x, n := a[|a| - 1], |a| - 1;
      var k :| 0 <= k < |bs| && bs[k] == x;
      var rest := bs[..k] + bs[k + 1..];
      forall i | 0 <= i < n ensures a[i] in rest {
        var j :| 0 <= j < |bs| && bs[j] == a[i];
        assert rest[if j < k then j else j - 1] == a[i];
      }
      MoreThanFits(a[..n], rest);
    }
  }

  ghost function BlockAt(bs: seq<Block>, i: nat): Block? {
    if i < |bs| then bs[i] else null
  }

  ghost function SlabAt(ss: seq<Slab>, i: int): Slab? {
    if 0 <= i < |ss| then ss[i] else null
  }

  ghost function Without(ss: seq<Slab>, k: nat): (r: seq<Slab>)
    requires k < |ss|
    ensures |r| == |ss| - 1 && forall i :: 0 <= i < |r| ==> r[i] == ss[if i < k then i else i + 1]
  {
    ss[..k] + ss[k + 1..]
  }

  lemma WithoutDistinct(ss: seq<Slab>, k: nat)
    requires k < |ss| && forall i, j :: 0 <= i < j < |ss| ==> ss[i] != ss[j]
    ensures var r := Without(ss, k); (forall i, j :: 0 <= i < j < |r| ==> r[i] != r[j]) && ss[k] !in r
  {
  }

  lemma WithoutKeepsOthers(ss: seq<Slab>, k: nat, s: Slab)
    requires k < |ss| && s in ss && s != ss[k]
    ensures s in Without(ss, k)
  {
    var j :| 0 <= j < |ss| && ss[j] == s;
    assert Without(ss, k)[if j < k then j else j - 1] == s;
  }

  // Links as values

  ghost function Prevs(ss: set<Slab>): map<Slab, Slab?>
    reads ss`prev
  {
    map s | s in ss :: s.prev
  }

  ghost function Nexts(ss: set<Slab>): map<Slab, Slab?>
    reads ss`next
  {
    map s | s in ss :: s.next
  }

  /** Mirrored links over these slabs, given the values of the link fields. */
  ghost predicate Mirrored(ss: seq<Slab>, prevs: map<Slab, Slab?>, nexts: map<Slab, Slab?>) {
    && (forall i, j :: 0 <= i < j < |ss| ==> ss[i] != ss[j])
    && (forall i {:trigger ss[i] in prevs} {:trigger ss[i] in nexts} :: 0 <= i < |ss| ==> ss[i] in prevs && ss[i] in nexts)
    && (forall i {:trigger prevs[ss[i]]} :: 0 <= i < |ss| ==> prevs[ss[i]] == SlabAt(ss, i - 1))
    && (forall i {:trigger nexts[ss[i]]} :: 0 <= i < |ss| ==> nexts[ss[i]] == SlabAt(ss, i + 1))
  }

  /** The field values after `slab`'s is cleared and `at`'s is set to `value`. */
  ghost function Relinked(m: map<Slab, Slab?>, slab: Slab, at: Slab?, value: Slab?): map<Slab, Slab?> {
    map s | s in m :: if s == slab then null else if s == at then value else m[s]
  }

  lemma MirroredWithout(ss: seq<Slab>, k: nat, prevs: map<Slab, Slab?>, nexts: map<Slab, Slab?>)
    requires Mirrored(ss, prevs, nexts) && k < |ss|
    ensures Mirrored(Without(ss, k), Relinked(prevs, ss[k], SlabAt(ss, k + 1), SlabAt(ss, k - 1)) - {ss[k]},
                     Relinked(nexts, ss[k], SlabAt(ss, k - 1), SlabAt(ss, k + 1)) - {ss[k]})
  {
    var prevs' := Relinked(prevs, ss[k], SlabAt(ss, k + 1), SlabAt(ss, k - 1)) - {ss[k]};
    var nexts' := Relinked(nexts, ss[k], SlabAt(ss, k - 1), SlabAt(ss, k + 1)) - {ss[k]};
    hide Mirrored;
    UnlinkMirrored(ss, k, prevs, nexts, prevs', nexts');
  }

  lemma UnlinkMirrored(ss: seq<Slab>, k: nat, prevs: map<Slab, Slab?>, nexts: map<Slab, Slab?>,
                       prevs': map<Slab, Slab?>, nexts': map<Slab, Slab?>)
    requires Mirrored(ss, prevs, nexts) && k < |ss|
    requires forall s {:trigger prevs'[s]} {:trigger s in prevs'} :: s in prevs && s != ss[k] ==>
      s in prevs' && prevs'[s] == if s == SlabAt(ss, k + 1) then SlabAt(ss, k - 1) else prevs[s]
    requires forall s {:trigger nexts'[s]} {:trigger s in nexts'} :: s in nexts && s != ss[k] ==>
      s in nexts' && nexts'[s] == if s == SlabAt(ss, k - 1) then SlabAt(ss, k + 1) else nexts[s]
    ensures Mirrored(Without(ss, k), prevs', nexts')
  {
    WithoutDistinct(ss, k);
    var r := Without(ss, k);
    hide Without;
    forall i | 0 <= i < |r| ensures r[i] in prevs' && prevs'[r[i]] == SlabAt(r, i - 1)
                                    && r[i] in nexts' && nexts'[r[i]] == SlabAt(r, i + 1) {
      var j := if i < k then i else i + 1;
      assert r[i] == ss[j] && ss[j] in prevs && ss[j] in nexts;
    }
  }

  /** The `next` values after `x` is put behind `last`. */
  ghost function Appended(nexts: map<Slab, Slab?>, last: Slab?, x: Slab): map<Slab, Slab?> {
    map s | s in nexts.Keys + {x} :: if s == x then null else if s == last then x else nexts[s]
  }

  lemma MirroredAppend(ss: seq<Slab>, x: Slab, prevs: map<Slab, Slab?>, nexts: map<Slab, Slab?>)
    requires Mirrored(ss, prevs, nexts) && x !in prevs && x !in nexts
    ensures var last := SlabAt(ss, |ss| - 1);
      Mirrored(ss + [x], prevs[x := last], Appended(nexts, last, x))
  {
    var r := ss + [x];
    forall i | 0 <= i < |ss|
      ensures r[i] in prevs && r[i] in nexts && r[i] != x
      ensures prevs[r[i]] == SlabAt(ss, i - 1) && nexts[r[i]] == SlabAt(ss, i + 1)
    {
      assert r[i] == ss[i] && ss[i] in prevs && ss[i] in nexts;
    }
  }

  class SlabList {
    var size: nat
    var head: Slab?
    ghost var slabs: seq<Slab>
    ghost var repr: set<Slab>

    /** The list's slabs from the oldest to the head, with mirrored links, all naming this list. */
    ghost predicate Linked()
      reads this, repr`prev, repr`next, repr`list
    {
      && size == |slabs| && head == SlabAt(slabs, |slabs| - 1)
      && Mirrored(slabs, Prevs(repr), Nexts(repr))
      && (forall s <- repr :: s.list == this)
    }

    /** `slab_list_init`. */
    constructor ()
      ensures Linked() && slabs == [] && repr == {}
    {
      size, head, slabs, repr := 0, null, [], {};
    }

    /** The field updates of `add_to_list`. */
    method Link(slab: Slab)
      requires slab !in repr && slab.next == null && (head == null <==> size == 0) && (head != null ==> head in repr)
      modifies this`head, this`size, slab`prev, slab`next, slab`list, repr`next
      ensures size == old(size) + 1 && head == slab && slab.list == this
      ensures Prevs(repr + {slab}) == old(Prevs(repr))[slab := old(head)]
      ensures Nexts(repr + {slab}) == Appended(old(Nexts(repr)), old(head), slab)
    {
      if size == 0 || head == null {
        head := slab;
        head.prev := null;
        head.next := null;
      } else {
        slab.prev := head;
        head.next := slab;
        head := slab;
      }
      size := size + 1;
      slab.list := this;
    }

    method Add(slab: Slab)
      requires Linked() && slab !in repr && slab.next == null
      modifies this, slab`prev, slab`next, slab`list, repr`next
      ensures Linked() && slabs == old(slabs) + [slab] && repr == old(repr) + {slab} && slab.list == this
    {
      hide Mirrored, Appended;
      MirroredAppend(slabs, slab, Prevs(repr), Nexts(repr));
      if size > 0 { NeighboursOf(slabs, size - 1, Prevs(repr), Nexts(repr)); }
      Link(slab);
      slabs, repr := slabs + [slab], repr + {slab};
    }

    /** The pointer updates of `delete_from_list`. */
    method Unlink(slab: Slab)
      requires slab in repr && slab.prev != slab && slab.next != slab
      requires slab.prev != null ==> slab.prev in repr && slab.prev.next == slab && slab.prev != slab.next
      requires slab.next != null ==> slab.next in repr && slab.next.prev == slab
      requires 0 < size && head != null && (head == slab <==> slab.next == null)
      modifies this`head, this`size, repr`prev, repr`next
      ensures size == old(size) - 1 && head == (if old(head) == slab then old(slab.prev) else old(head))
      ensures slab.prev == null && slab.next == null
      ensures Prevs(repr) == Relinked(old(Prevs(repr)), slab, old(slab.next), old(slab.prev))
      ensures Nexts(repr) == Relinked(old(Nexts(repr)), slab, old(slab.prev), old(slab.next))
    {
      if head == slab || size == 0 {
        head := head.prev;
        if head != null {
          head.next := null;
        }
      } else {
        var next, prev := slab.next, slab.prev;
        if prev != null {
          prev.next := slab.next;
        }
        if next != null {
          next.prev := slab.prev;
        }
      }
      slab.next := null;
      slab.prev := null;
      size := size - 1;
    }

    method Delete(slab: Slab, ghost k: nat)
      requires Linked() && k < |slabs| && slab == slabs[k]
      modifies this, repr`prev, repr`next
      ensures Linked() && slabs == Without(old(slabs), k) && repr == old(repr) - {slab}
      ensures slab.prev == null && slab.next == null
    {
      hide Mirrored, Without, Relinked;
      ghost var was, prevs, nexts := slabs, Prevs(repr), Nexts(repr);
      NeighboursOf(was, k, prevs, nexts);
      MirroredWithout(was, k, prevs, nexts);
      Unlink(slab);
      ghost var prevs', nexts' := Prevs(repr) - {slab}, Nexts(repr) - {slab};
      slabs, repr := Without(was, k), repr - {slab};
      assert Prevs(repr) == prevs' && Nexts(repr) == nexts';
    }

    /** `slab_list_free`, apart from returning the memory. */
    method DeleteAll()
      requires Linked()
      modifies this, repr`prev, repr`next
      ensures Linked() && slabs == [] && repr == old(repr) - set s | s in old(slabs)
    {
      hide Linked;
      HeadIsLast();
      if size == 0 {
        assert old(slabs) == [];
        return;
      }
      var current := head;
      while current != null
        invariant Linked() && size == |slabs| && head == SlabAt(slabs, |slabs| - 1) && current == head
        invariant slabs <= old(slabs) && repr == old(repr) - set s | s in old(slabs)[|slabs|..]
        decreases |slabs|
      {
        var temp := current;
        PrevOfHead();
        current := current.prev;
        ghost var n := |slabs| - 1;
        Delete(temp, n);
        HeadIsLast();
        assert slabs == old(slabs)[..n];
        assert old(slabs)[n..] == [temp] + old(slabs)[n + 1..];
      }
    }

    lemma HeadIsLast()
      requires Linked()
      ensures size == |slabs| && head == SlabAt(slabs, |slabs| - 1)
    {
    }

    lemma PrevOfHead()
      requires Linked() && size > 0
      ensures head != null && head in repr && head.prev == SlabAt(slabs, |slabs| - 2)
    {
      NeighboursOf(slabs, size - 1, Prevs(repr), Nexts(repr));
    }
  }

  lemma NeighboursOf(ss: seq<Slab>, k: nat, prevs: map<Slab, Slab?>, nexts: map<Slab, Slab?>)
    requires Mirrored(ss, prevs, nexts) && k < |ss|
    ensures ss[k] in prevs && ss[k] in nexts && prevs[ss[k]] == SlabAt(ss, k - 1) && nexts[ss[k]] == SlabAt(ss, k + 1)
    ensures k > 0 ==> ss[k - 1] in nexts && nexts[ss[k - 1]] == ss[k] && ss[k - 1] != ss[k]
    ensures k + 1 < |ss| ==> ss[k + 1] in prevs && prevs[ss[k + 1]] == ss[k] && ss[k + 1] != ss[k]
    ensures 0 < k < |ss| - 1 ==> ss[k - 1] != ss[k + 1]
    ensures ss[|ss| - 1] == ss[k] <==> k == |ss| - 1
  {
    assert ss[k] in prevs;
    assert k > 0 ==> ss[k - 1] in nexts;
    assert k + 1 < |ss| ==> ss[k + 1] in prevs;
  }
}
