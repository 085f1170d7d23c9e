/**
  The object cache on top of slabs: three lists of slabs, sorted by how full they are,
  and the operations that move slabs between them.
 */
module SlabCache {
  import opened SlabLists
  import opened SlabSizing

  class Cache {
    const slabsFree: SlabList
    const slabsPartial: SlabList
    const slabsFull: SlabList
    const objectSize: nat
    const slabOrder: nat
    const slabSize: nat
    const slabObjects: nat

    ghost var slabs: set<Slab>
    ghost var blocks: set<Block>
    /** The blocks handed out and not yet returned. */
    ghost var live: set<Block>

    ghost predicate IsList(l: SlabList?) {
      l == slabsFree || l == slabsPartial || l == slabsFull
    }

    /** Every slab is in exactly one list, the one its `list` field names. */
    ghost predicate Lists()
      reads this`slabs, slabsFree, slabsPartial, slabsFull, slabs`prev, slabs`next, slabs`list
    {
      ListsOver(slabs)
    }

    ghost predicate ListsOver(ss: set<Slab>)
      reads slabsFree, slabsPartial, slabsFull, ss`prev, ss`next, ss`list
    {
      && slabsFree != slabsPartial && slabsFree != slabsFull && slabsPartial != slabsFull
      && slabsFree.repr <= ss && slabsPartial.repr <= ss && slabsFull.repr <= ss
      && slabsFree.repr !! slabsPartial.repr !! slabsFull.repr
      && slabsFree.Linked() && slabsPartial.Linked() && slabsFull.Linked()
      && (forall s <- ss :: IsList(s.list) && s in s.list.repr && s in s.list.slabs)
    }

    /** Every slab's blocks are either on its free chain or live. */
    ghost predicate Blocks()
      reads this, slabs`blocks, slabs`chain, slabs`size, slabs`firstBlock, blocks
    {
      && (forall s <- slabs, b <- s.blocks :: b in blocks && b.slab == s)
      && (forall s <- slabs :: s.Chained() && s.capacity == slabObjects && s.blockSize == objectSize)
      && (forall b <- blocks :: b.slab in slabs && b in b.slab.blocks)
      && (forall b <- blocks :: b in live <==> b !in b.slab.chain)
      && live <= blocks
    }

    /** The list that a slab with this many blocks in use belongs to. */
    ghost function ListFor(size: nat): SlabList {
      if size == 0 then slabsFree else if size == slabObjects then slabsFull else slabsPartial
    }

    ghost predicate Valid()
      reads this, slabsFree, slabsPartial, slabsFull, slabs, blocks
    {
      && 1 <= slabObjects && Lists() && Blocks()
      && (forall s <- slabs :: s.list == ListFor(s.size))
    }

    /** `cache_setup`, for objects of which at least one fits in the largest slab. */
    constructor (objectSize: nat)
      requires TotalSize(objectSize, 1) <= CalculateSlabSize(MAX_ORDER)
      ensures Valid() && slabs == {} && blocks == {} && live == {} && this.objectSize == objectSize
      ensures slabSize == CalculateSlabSize(slabOrder) && SLAB_HEADER <= slabSize
      ensures slabObjects == CalculateObjectCnt(slabSize, objectSize)
      ensures ChosenOrder(objectSize, slabOrder) && (slabOrder < MAX_ORDER ==> slabObjects >= DEFAULT_SIZE)
      ensures fresh(slabsFree) && fresh(slabsPartial) && fresh(slabsFull)
    {
      hide CalculateSlabSize, CalculateObjectCnt, TotalSize, SlabList.Linked, Slab.Chained, Holds;
      slabsFree := new SlabList();
      slabsPartial := new SlabList();
      slabsFull := new SlabList();
      this.objectSize := objectSize;
      var order := GetSlabOrder(objectSize, DEFAULT_SIZE);
      var size := CalculateSlabSize(order);
      slabOrder, slabSize := order, size;
      OneObjectFits(objectSize, order);
      if order < MAX_ORDER { DefaultCountFits(objectSize, order); }
      slabObjects := CalculateObjectCnt(size, objectSize);
      slabs, blocks, live := {}, {}, {};
    }

    /** `slab_reposition`. */
    method Reposition(src: SlabList, dest: SlabList, slab: Slab)
      requires Lists() && IsList(dest) && slab in slabs && slab.list == src
      modifies slabsFree, slabsPartial, slabsFull, slabs`prev, slabs`next, slabs`list
      ensures Lists() && slab.list == dest
      ensures forall s :: s in slabs && s != slab ==> s.list == old(s.list)
    {
      hide ListsOver;
      ghost var others := slabs - {slab};
      Delist(src, slab);
      Enlist(dest, others, slab);
      assert others + {slab} == slabs;
    }

    /** Its `delete_from_list`. */
    method Delist(src: SlabList, slab: Slab)
      requires ListsOver(slabs) && slab in slabs && slab.list == src
      modifies slabsFree, slabsPartial, slabsFull, slabs`prev, slabs`next
      ensures ListsOver(slabs - {slab}) && slab.next == null
    {
      hide SlabList.Linked, Without;
      ghost var k :| 0 <= k < |src.slabs| && src.slabs[k] == slab;
      ghost var was := src.slabs;
      src.Delete(slab, k);
      forall s | s in slabs && s != slab ensures IsList(s.list) && s in s.list.repr && s in s.list.slabs {
        if s.list == src { WithoutKeepsOthers(was, k, s); }
      }
    }

    /** An `add_to_list` of a slab that is on none. */
    method Enlist(dest: SlabList, ghost ss: set<Slab>, slab: Slab)
      requires ListsOver(ss) && IsList(dest) && slab !in ss && slab.next == null
      modifies dest, slab`prev, slab`next, slab`list, ss`next
      ensures ListsOver(ss + {slab}) && slab.list == dest
    {
      hide SlabList.Linked;
      dest.Add(slab);
    }

    /** Takes one block of a slab that has room: the call of `alloc_block` in `cache_alloc`. */
    method Take(slab: Slab) returns (b: Block)
      requires Blocks() && slab in slabs && slab.size < slab.capacity
      modifies this`live, slab`size, slab`firstBlock, slab`chain, blocks`next
      ensures Blocks() && slab.size == old(slab.size) + 1
      ensures b in blocks && b.slab == slab && b !in old(live) && live == old(live) + {b}
    {
      hide Slab.Chained;
      BlocksOf(slab);
      assert forall i :: 0 <= i < |slab.blocks| ==> slab.blocks[i] in slab.blocks;
      b := slab.AllocBlock();
      live := live + {b};
      assert forall x :: x in slab.blocks ==> x.slab == slab;
      forall s | s in slabs && s != slab ensures s.Chained() {
        assert forall x :: x in s.blocks ==> x.slab == s;
      }
      forall x | x in blocks ensures x in live <==> x !in x.slab.chain {
        assert x.slab == slab || x.slab.chain == old(x.slab.chain);
      }
    }

    lemma BlocksOf(slab: Slab)
      requires Blocks() && slab in slabs
      ensures slab.Chained() && forall x :: x in slab.blocks ==> x.slab == slab && x in blocks && (x in live <==> x !in slab.chain)
      ensures forall s <- slabs, x <- s.blocks :: x in blocks && x.slab == s
      ensures forall x <- blocks :: x.slab in slabs && x in x.slab.blocks
    {
    }

    lemma ListsDiffer()
      requires Lists()
      ensures slabsFree != slabsPartial && slabsFree != slabsFull && slabsPartial != slabsFull
    {
    }

    lemma HeadsAreSlabs()
      requires Lists()
      ensures forall l :: (l == slabsFree || l == slabsPartial) && l.size > 0 ==> l.head != null && l.head in slabs && l.head.list == l
    {
      forall l | (l == slabsFree || l == slabsPartial) && l.size > 0 ensures l.head != null && l.head in l.repr {
        assert l.slabs[l.size - 1] in Prevs(l.repr);
      }
    }

    /** The part of `cache_alloc` that adds a fresh slab to the partial list. */
    method Extend() returns (slab: Slab)
      requires 1 <= slabObjects && Lists() && Blocks()
      modifies this`slabs, this`blocks, slabsPartial, slabs`next
      ensures Lists() && Blocks() && fresh(slab) && slabs == old(slabs) + {slab}
      ensures fresh(blocks - old(blocks)) && old(blocks) <= blocks
      ensures slab.list == slabsPartial && slab.size == 0 && slab.capacity == slabObjects
    {
      hide ListsOver, Slab.Chained, Blocks;
      NoStrayBlocks();
      slab := new Slab(objectSize, slabObjects);
      slab.InitBlockList();
      Enlist(slabsPartial, slabs, slab);
      Enrol(slab);
    }

    lemma NoStrayBlocks()
      requires Blocks()
      ensures live <= blocks
    {
    }

    /** Accounts for a fresh slab. */
    ghost method Enrol(slab: Slab)
      requires Blocks() && slab !in slabs && slab.Chained() && slab.chain == slab.blocks
      requires slab.capacity == slabObjects && slab.blockSize == objectSize
      requires forall i :: 0 <= i < |slab.blocks| ==> slab.blocks[i].slab == slab && slab.blocks[i] !in blocks
      modifies this`slabs, this`blocks
      ensures Blocks() && slabs == old(slabs) + {slab} && blocks == old(blocks) + set b | b in slab.blocks
    {
      hide Slab.Chained;
      ghost var added := set b | b in slab.blocks;
      slabs, blocks := slabs + {slab}, blocks + added;
    }

    method CacheAlloc() returns (b: Block)
      requires Valid()
      modifies this, slabsFree, slabsPartial, slabsFull, slabs, blocks
      ensures Valid() && fresh(slabs - old(slabs)) && fresh(blocks - old(blocks))
      ensures old(slabs) <= slabs && old(blocks) <= blocks
      ensures old(slabsFree.size) > 0 || old(slabsPartial.size) > 0 ==> slabs == old(slabs) && blocks == old(blocks)
      ensures b in blocks && b !in old(live) && live == old(live) + {b}
      ensures if old(slabsFree.size) > 0 then b.slab == old(slabsFree.head)
              else if old(slabsPartial.size) > 0 then b.slab == old(slabsPartial.head)
              else b.slab !in old(slabs) && slabs == old(slabs) + {b.slab}
    {
      hide Lists, Blocks;
      ListsDiffer();
      HeadsAreSlabs();
      SizesOf();
      if slabsFree.size > 0 {
        b := AllocFree(slabsFree.head);
      } else if slabsPartial.size == 0 {
        var slab := Extend();
        b := AllocPartial(slab);
      } else {
        b := AllocPartial(slabsPartial.head);
      }
    }

    /** `cache_alloc` on a slab of the free list. */
    method AllocFree(slab: Slab) returns (b: Block)
      requires Valid() && slab in slabs && slab.list == slabsFree
      modifies this`live, slabsFree, slabsPartial, slabsFull, slabs, blocks
      ensures Valid() && b in blocks && b !in old(live) && live == old(live) + {b} && b.slab == slab
    {
      hide Lists, Blocks;
      ListsDiffer();
      SizesOf();
      b := Take(slab);
      if slab.IsFull() {
        Reposition(slabsFree, slabsFull, slab);
      } else {
        Reposition(slabsFree, slabsPartial, slab);
      }
    }

    /** `cache_alloc` on a slab of the partial list, perhaps a fresh one. */
    method AllocPartial(slab: Slab) returns (b: Block)
      requires 1 <= slabObjects && Lists() && Blocks() && slab in slabs && slab.list == slabsPartial && slab.size < slab.capacity
      requires forall s <- slabs :: s != slab ==> s.list == ListFor(s.size)
      modifies this`live, slabsFree, slabsPartial, slabsFull, slabs, blocks
      ensures Valid() && b in blocks && b !in old(live) && live == old(live) + {b} && b.slab == slab
    {
      hide Lists, Blocks;
      ListsDiffer();
      SizesOf();
      b := Take(slab);
      if slab.IsFull() {
        Reposition(slabsPartial, slabsFull, slab);
      }
    }

    /** The call of `free_block` in `cache_free`: takes back a live block, refuses the one freed last. */
    method Give(slab: Slab, b: Block)
      requires Blocks() && b in blocks && b.slab == slab && (b in live || slab.size == 0 || slab.firstBlock == b)
      modifies this`live, slab`size, slab`firstBlock, slab`chain, blocks`next
      ensures Blocks() && live == old(live) - {b}
      ensures slab.size == old(slab.size) - if b in old(live) then 1 else 0
    {
      hide Slab.Chained;
      ChainOf(slab, b);
      BlocksOf(slab);
      assert forall i :: 0 <= i < |slab.blocks| ==> slab.blocks[i] in slab.blocks;
      slab.FreeBlock(b);
      live := live - {b};
      assert forall x :: x in slab.blocks ==> x.slab == slab;
      forall s | s in slabs && s != slab ensures s.Chained() {
        assert forall x :: x in s.blocks ==> x.slab == s;
      }
      forall x | x in blocks ensures x in live <==> x !in x.slab.chain {
        assert x.slab == slab || x.slab.chain == old(x.slab.chain);
      }
    }

    lemma ChainOf(slab: Slab, b: Block)
      requires Blocks() && b in blocks && b.slab == slab
      ensures slab in slabs && slab.Chained() && b in slab.blocks && (b in live <==> b !in slab.chain)
      ensures slab.size == 0 ==> b in slab.chain
      ensures slab.firstBlock == b ==> b in slab.chain && slab.chain[0] == b && b !in Deeper(slab.chain)
    {
      if slab.size == 0 { FullChainCovers(slab.chain, slab.blocks, b); }
    }

    method CacheFree(b: Block)
      requires Valid() && b in blocks && (b in live || b.slab.size == 0 || b.slab.firstBlock == b)
      modifies this`live, slabsFree, slabsPartial, slabsFull, slabs, blocks
      ensures Valid() && live == old(live) - {b}
    {
      hide Lists, Blocks;
      ListsDiffer();
      SizesOf();
      BlockHome(b);
      var slab := b.slab;
      var list := slab.list;
      Give(slab, b);
      if slab.size == 0 {
        Reposition(list, slabsFree, slab);
      } else {
        Reposition(list, slabsPartial, slab);
      }
    }

    lemma BlockHome(b: Block)
      requires Lists() && Blocks() && b in blocks
      ensures b.slab in slabs && b.slab.list != null
      ensures b in live ==> b.slab.size > 0
      ensures b !in live ==> b.slab.size < b.slab.capacity
    {
      if b in live { LiveBlockInUse(b); }
    }

    /** `cache_shrink`: drops the slabs that have no block in use. */
    method CacheShrink()
      requires Valid()
      modifies this`slabs, this`blocks, slabsFree, slabs`prev, slabs`next
      ensures Valid() && slabsFree.slabs == []
      ensures slabs == (set s | s in old(slabs) && old(s.size) > 0)
    {
      hide Blocks, SlabList.Linked;
      ghost var gone := slabsFree.repr;
      slabsFree.DeleteAll();
      assert slabsFree.repr == {};
      Retire(gone);
    }

    /** Stops accounting for slabs that have no block in use. */
    ghost method Retire(gone: set<Slab>)
      requires Blocks() && gone <= slabs && forall s <- gone :: s.size == 0
      modifies this`slabs, this`blocks
      ensures Blocks() && slabs == old(slabs) - gone
    {
      forall b | b in live ensures b.slab !in gone { LiveBlockInUse(b); }
      hide Slab.Chained;
      slabs, blocks := slabs - gone, set b | b in blocks && b.slab !in gone;
    }

    lemma LiveBlockInUse(b: Block)
      requires Blocks() && b in live
      ensures b.slab.size > 0
    {
      var slab := b.slab;
      if slab.size == 0 { FullChainCovers(slab.chain, slab.blocks, b); }
    }

    lemma SizesOf()
      requires Blocks()
      ensures forall s <- slabs :: s.capacity == slabObjects && s.size <= slabObjects
    {
    }
  }

  /** Small objects: one page, with as many 8-byte objects as fit beside the headers. */
  method SmallObjects() returns (cache: Cache)
    ensures fresh(cache) && cache.Valid() && cache.slabOrder == 0 && cache.slabSize == 4096 && cache.slabObjects == 126
  {
    assert TotalSize(8, 1) == 96 && TotalSize(8, DEFAULT_SIZE) == 384;
    SlabSizeIsPowerOfTwoPages(0);
    LargerOrderHoldsMore(0, MAX_ORDER, 96);
    cache := new Cache(8);
    assert Holds(0, TotalSize(8, DEFAULT_SIZE));
  }
}
