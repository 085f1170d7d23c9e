/**
  How the slab cache chooses the size of its slabs and how many objects go into one.
 */
module SlabSizing {
  import opened Bits
  import opened SlabLists

  const PAGE_SIZE: nat := 4096
  const DEFAULT_SIZE: nat := 10
  const MAX_ORDER: nat := 10

  function CalculateSlabSize(order: nat): nat {
    (if order != 0 then ShiftLeft(2, order - 1) else 1) * PAGE_SIZE
  }

  lemma {:induction false} ShiftIsPow2(n: nat)
    ensures ShiftLeft(2, n) == Pow2(n + 1)
  {
    if n > 0 { ShiftIsPow2(n - 1); }
  }

  lemma SlabSizeIsPowerOfTwoPages(order: nat)
    ensures CalculateSlabSize(order) == Pow2(order) * PAGE_SIZE
  {
    if order > 0 { ShiftIsPow2(order - 1); }
  }

  /** The bytes that `count` objects take, with their headers and the slab's. */
  function TotalSize(objectSize: nat, count: nat): nat {
    (objectSize + BLOCK_HEADER) * count + SLAB_HEADER
  }

  ghost predicate Holds(order: nat, total: nat) {
    total <= CalculateSlabSize(order)
  }

  lemma {:induction false} LargerOrderHoldsMore(a: nat, b: nat, total: nat)
    requires a <= b && Holds(a, total)
    ensures Holds(b, total)
    decreases b - a
  {
    SlabSizeIsPowerOfTwoPages(a);
    SlabSizeIsPowerOfTwoPages(b);
    if a < b {
      SlabSizeIsPowerOfTwoPages(a + 1);
      assert Pow2(a + 1) == 2 * Pow2(a);
      LargerOrderHoldsMore(a + 1, b, total);
    }
  }

  /** The least order up to the largest whose pages hold the default number of objects, or the largest. */
  ghost predicate ChosenOrder(objectSize: nat, order: nat) {
    && order <= MAX_ORDER && (Holds(order, TotalSize(objectSize, DEFAULT_SIZE)) || order == MAX_ORDER)
    && forall o: nat :: o < order ==> !Holds(o, TotalSize(objectSize, DEFAULT_SIZE))
  }

  lemma HoldsFrom(order: nat, total: nat)
    requires Holds(order, total)
    ensures forall o: nat :: order <= o ==> Holds(o, total)
  {
    forall o: nat | order <= o ensures Holds(o, total) { LargerOrderHoldsMore(order, o, total); }
  }

  /** The least order up to 10 whose pages hold the default number of objects, or 10; unless capped, exactly the orders from there on hold them. */
  method GetSlabOrder(objectSize: nat, defaultCnt: nat) returns (order: nat)
    ensures order <= MAX_ORDER
    ensures forall o: nat :: o < order ==> !Holds(o, TotalSize(objectSize, defaultCnt))
    ensures Holds(order, TotalSize(objectSize, defaultCnt)) || order == MAX_ORDER
    ensures order < MAX_ORDER ==> forall o: nat :: Holds(o, TotalSize(objectSize, defaultCnt)) <==> order <= o
  {
    var base := 2;
    order := 0;
    var total := TotalSize(objectSize, defaultCnt);
    if PAGE_SIZE >= total {
      HoldsFrom(0, total);
      return;
    }
    order := order + 1;
    SlabSizeIsPowerOfTwoPages(1);
    while PAGE_SIZE * base < total && order < 10
      invariant 1 <= order <= 10 && base == Pow2(order)
      invariant forall o: nat :: o < order ==> !Holds(o, total)
    {
      SlabSizeIsPowerOfTwoPages(order);
      order := order + 1;
      base := base * 2;
    }
    SlabSizeIsPowerOfTwoPages(order);
    if order < MAX_ORDER { HoldsFrom(order, total); }
  }

  function CalculateObjectCnt(slabSize: nat, objectSize: nat): nat
    requires SLAB_HEADER <= slabSize
  {
    (slabSize - SLAB_HEADER) / (objectSize + BLOCK_HEADER)
  }

  /** The count is the largest number of objects that fit. */
  lemma ObjectCntIsMaximal(slabSize: nat, objectSize: nat, n: nat)
    requires SLAB_HEADER <= slabSize
    ensures TotalSize(objectSize, n) <= slabSize <==> n <= CalculateObjectCnt(slabSize, objectSize)
  {
    var size, room, cnt := objectSize + BLOCK_HEADER, slabSize - SLAB_HEADER, CalculateObjectCnt(slabSize, objectSize);
    assert cnt * size <= room < (cnt + 1) * size;
    if n <= cnt {
      assert size * n <= size * cnt;
    } else {
      assert size * (cnt + 1) <= size * n;
    }
  }

  /** Unless the order was capped, a slab holds at least the default number of objects. */
  lemma DefaultCountFits(objectSize: nat, order: nat)
    requires Holds(order, TotalSize(objectSize, DEFAULT_SIZE))
    ensures CalculateObjectCnt(CalculateSlabSize(order), objectSize) >= DEFAULT_SIZE
  {
    ObjectCntIsMaximal(CalculateSlabSize(order), objectSize, DEFAULT_SIZE);
  }

  lemma OneObjectFits(objectSize: nat, order: nat)
    requires TotalSize(objectSize, 1) <= CalculateSlabSize(MAX_ORDER)
    requires Holds(order, TotalSize(objectSize, DEFAULT_SIZE)) || order == MAX_ORDER
    ensures SLAB_HEADER <= CalculateSlabSize(order) && CalculateObjectCnt(CalculateSlabSize(order), objectSize) >= 1
  {
    SlabSizeIsPowerOfTwoPages(order);
    ObjectCntIsMaximal(CalculateSlabSize(order), objectSize, 1);
  }

  /** Every block of a slab lies inside `slabSize`, after the slab's header, and so does no later one. */
  lemma BlockIsInside(slabSize: nat, objectSize: nat, i: nat)
    requires SLAB_HEADER <= slabSize
    ensures SLAB_HEADER <= BlockOffset(objectSize, i)
    ensures BlockOffset(objectSize, i) + BLOCK_HEADER + objectSize <= slabSize <==> i < CalculateObjectCnt(slabSize, objectSize)
  {
    var size := objectSize + BLOCK_HEADER;
    ObjectCntIsMaximal(slabSize, objectSize, i + 1);
    assert size * (i + 1) == i * size + size;
  }

  lemma BlocksAreDisjoint(objectSize: nat, i: nat, j: nat)
    requires i < j
    ensures BlockOffset(objectSize, i) + BLOCK_HEADER + objectSize <= BlockOffset(objectSize, j)
  {
    var size := objectSize + BLOCK_HEADER;
    assert (i + 1) * size <= j * size;
    assert (i + 1) * size == i * size + size;
  }

  /** `alloc_slab` asks for `order` pages, which is less than the slab size for every order. */
  lemma RequestIsShort(order: nat)
    ensures PAGE_SIZE * order < CalculateSlabSize(order)
  {
    SlabSizeIsPowerOfTwoPages(order);
  }
}
