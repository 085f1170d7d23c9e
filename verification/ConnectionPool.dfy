/**
  The file server's pool of connections: a 64-bit word with one bit per slot, set while the
  slot is free, and an array of connection descriptors.
 */
module ConnectionPool {
  import opened Bits

  const INT64_MAX: nat := Pow2(63) - 1
  const NOT_OK: int := -1
  /** Masks are shifted `int`s, so slots past bit 30 cannot be addressed. */
  const MAX_SIZE: nat := 31

  // ---------------------------------------------------------------------------
  // The bitmap

  predicate PoolIsFree(bitmap: nat) { bitmap == INT64_MAX }

  predicate PoolIsFull(bitmap: nat, size: nat) {
    bitmap == ShiftLeft(ShiftRight(INT64_MAX, size), size)
  }

  /** The slot that booking takes: the trailing zeros of the word cut down to 32 bits. */
  function BookedSlot(bitmap: nat): nat
    requires Truncate(bitmap, 32) > 0
  {
    TrailingZeros(Truncate(bitmap, 32))
  }

  /** `1 << r` as an `int`, widened to 64 bits: bit 31 is the sign and spreads upwards. */
  function Mask(r: nat): nat {
    if r == 31 then ShiftLeft(ShiftRight(Pow2(64) - 1, 31), 31) else ShiftLeft(1, r)
  }

  function Booked(bitmap: nat): nat
    requires Truncate(bitmap, 32) > 0
  {
    AndNot(bitmap, Mask(BookedSlot(bitmap)))
  }

  function Unbooked(bitmap: nat, offset: nat): nat { Or(bitmap, Mask(offset)) }

  /** From bit `size` up, exactly the bits of INT64_MAX are set. */
  ghost predicate Sound(bitmap: nat, size: nat) {
    forall k: nat :: k >= size ==> (Bit(bitmap, k) <==> k < 63)
  }

  ghost predicate AllFree(bitmap: nat, size: nat) { forall k: nat :: k < size ==> Bit(bitmap, k) }

  ghost predicate AllTaken(bitmap: nat, size: nat) { forall k: nat :: k < size ==> !Bit(bitmap, k) }

  lemma FreshIsSound(size: nat)
    ensures Sound(INT64_MAX, size) && forall k: nat :: k < 63 ==> Bit(INT64_MAX, k)
  {
    hide Bit, Pow2;
    forall k: nat ensures Bit(INT64_MAX, k) <==> k < 63 { BitOfAllOnes(63, k); }
  }

  lemma FreeIff(bitmap: nat, size: nat)
    requires Sound(bitmap, size) && size <= MAX_SIZE
    ensures PoolIsFree(bitmap) <==> AllFree(bitmap, size)
  {
    hide Pow2;
    FreshIsSound(0);
    if AllFree(bitmap, size) {
      SameBits(bitmap, INT64_MAX);
    }
  }

  lemma FullIff(bitmap: nat, size: nat)
    requires Sound(bitmap, size) && size <= MAX_SIZE
    ensures PoolIsFull(bitmap, size) <==> AllTaken(bitmap, size)
  {
    hide Pow2, ShiftLeft, ShiftRight;
    FreshIsSound(0);
    var none := ShiftLeft(ShiftRight(INT64_MAX, size), size);
    forall k: nat ensures Bit(none, k) <==> size <= k < 63 { BitOfShifts(INT64_MAX, size, k); }
    if AllTaken(bitmap, size) {
      SameBits(bitmap, none);
    }
  }

  lemma BitOfMask(r: nat, k: nat)
    requires r <= 31
    ensures Bit(Mask(r), k) <==> if r == 31 then 31 <= k < 64 else k == r
  {
    hide Bit, Pow2, ShiftLeft, ShiftRight;
    if r == 31 {
      BitOfShifts(Pow2(64) - 1, 31, k);
      BitOfAllOnes(64, k);
    } else {
      ShiftOfOne(r);
      BitOfPow2(r, k);
    }
  }

  lemma TruncatePositive(bitmap: nat, j: nat)
    requires Bit(bitmap, j) && j < 32
    ensures Truncate(bitmap, 32) > 0
  {
    hide Truncate;
    BitOfTruncate(bitmap, 32, j);
    BitOfZero(j);
  }

  /** Booking takes the lowest free slot; past the last slot exactly when the pool is full. */
  lemma BookLowest(bitmap: nat, size: nat)
    requires Sound(bitmap, size) && size <= MAX_SIZE
    ensures Truncate(bitmap, 32) > 0
    ensures var r := BookedSlot(bitmap); r <= size && Bit(bitmap, r) && forall i: nat :: i < r ==> !Bit(bitmap, i)
    ensures BookedSlot(bitmap) == size <==> PoolIsFull(bitmap, size)
  {
    hide Bit, Truncate, TrailingZeros, PoolIsFull;
    TruncatePositive(bitmap, size);
    var t := Truncate(bitmap, 32);
    LowestBit(t);
    var r := BookedSlot(bitmap);
    BitOfTruncate(bitmap, 32, r);
    forall i: nat | i < r ensures !Bit(bitmap, i) {
      assert !Bit(t, i);
      BitOfTruncate(bitmap, 32, i);
    }
    FullIff(bitmap, size);
  }

  lemma BookedBits(bitmap: nat, size: nat)
    requires Sound(bitmap, size) && size <= MAX_SIZE
    requires Truncate(bitmap, 32) > 0
    ensures PoolIsFull(bitmap, size) ==> !Sound(Booked(bitmap), size)
    ensures !PoolIsFull(bitmap, size) ==>
      forall k: nat :: Bit(Booked(bitmap), k) <==> Bit(bitmap, k) && k != BookedSlot(bitmap)
  {
    hide Bit, Truncate, TrailingZeros, PoolIsFull, Mask, BookedSlot;
    BookLowest(bitmap, size);
    var r := BookedSlot(bitmap);
    forall k: nat ensures Bit(Booked(bitmap), k) <==> Bit(bitmap, k) && !Bit(Mask(r), k) {
      BitOfAndNot(bitmap, Mask(r), k);
    }
    if PoolIsFull(bitmap, size) {
      BitOfMask(r, r);
    } else {
      forall k: nat ensures Bit(Mask(r), k) <==> k == r { BitOfMask(r, k); }
    }
  }

  lemma UnbookedBits(bitmap: nat, offset: nat)
    requires offset < MAX_SIZE
    ensures forall k: nat :: Bit(Unbooked(bitmap, offset), k) <==> Bit(bitmap, k) || k == offset
  {
    hide Bit, Mask, Or;
    forall k: nat ensures Bit(Unbooked(bitmap, offset), k) <==> Bit(bitmap, k) || k == offset {
      BitOfOr(bitmap, Mask(offset), k);
      BitOfMask(offset, k);
    }
  }

  lemma UnbookUndoesBook(bitmap: nat, size: nat)
    requires Sound(bitmap, size) && size <= MAX_SIZE && !PoolIsFull(bitmap, size)
    requires Truncate(bitmap, 32) > 0
    ensures Unbooked(Booked(bitmap), BookedSlot(bitmap)) == bitmap
  {
    hide Bit, Truncate, PoolIsFull, Booked, Unbooked, BookedSlot;
    BookLowest(bitmap, size);
    BookedBits(bitmap, size);
    UnbookedBits(Booked(bitmap), BookedSlot(bitmap));
    SameBits(Unbooked(Booked(bitmap), BookedSlot(bitmap)), bitmap);
  }

  // ---------------------------------------------------------------------------
  // The pool

  datatype ConnectionDesc = ConnectionDesc(sock: int, offset: int)

  const ZEROED := ConnectionDesc(0, 0)

  class ConnectionsPool {
    const size: nat
    const connections: array<ConnectionDesc>
    var freeSpaceBitmap: nat

    ghost predicate Valid()
      reads this
    {
      connections.Length == size <= MAX_SIZE && Sound(freeSpaceBitmap, size)
    }

    ghost function Taken(): set<nat>
      reads this
    {
      set k: nat | k < size && !Bit(freeSpaceBitmap, k)
    }

    constructor (size: nat)
      requires size <= MAX_SIZE
      ensures Valid() && this.size == size && Taken() == {} && fresh(connections)
      ensures forall k :: 0 <= k < size ==> connections[k] == ZEROED
    {
      this.size := size;
      connections := new ConnectionDesc[size](_ => ZEROED);
      freeSpaceBitmap := INT64_MAX;
      new;
      FreshIsSound(size);
    }

    /**
      Takes the lowest free slot. On a full pool it fails, and has by then cleared the bit past
      the last slot: the spare bits survive the call exactly when the pool was not full.
     */
    method StoreConnection(sock: int) returns (offset: int)
      requires connections.Length == size <= MAX_SIZE
      requires freeSpaceBitmap != 0 ==> Truncate(freeSpaceBitmap, 32) > 0
      modifies `freeSpaceBitmap, connections
      ensures old(Valid()) ==> (Valid() <==> !old(PoolIsFull(freeSpaceBitmap, size)))
      ensures old(Valid()) ==> (offset == NOT_OK <==> old(PoolIsFull(freeSpaceBitmap, size)))
      ensures offset == NOT_OK ==> connections[..] == old(connections[..])
      ensures old(Valid()) && offset != NOT_OK ==>
        && 0 <= offset < size && offset !in old(Taken()) && Taken() == old(Taken()) + {offset}
        && (forall k: nat :: k < offset ==> k in old(Taken()))
        && connections[..] == old(connections[..])[offset := ConnectionDesc(sock, offset)]
        && Unbooked(freeSpaceBitmap, offset) == old(freeSpaceBitmap)
      ensures offset != NOT_OK ==>
        && old(freeSpaceBitmap) != 0 && offset == old(BookedSlot(freeSpaceBitmap))
        && freeSpaceBitmap == old(Booked(freeSpaceBitmap))
    {
      hide Bit, Truncate, PoolIsFull, Booked, BookedSlot, Unbooked, Sound;
      ghost var before := freeSpaceBitmap;
      if freeSpaceBitmap == 0 {
        ZeroIsUnsound(size);
        return NOT_OK;
      }
      offset := BookedSlot(freeSpaceBitmap);
      freeSpaceBitmap := Booked(freeSpaceBitmap);
      if Sound(before, size) { StoreFacts(before, size); }
      if offset >= size {
        return NOT_OK;
      }
      connections[offset] := ConnectionDesc(sock, offset);
    }

    /** Gives the slot back; `closed` is the socket closed, `free` whether `cond` is broadcast too. */
    method ReleaseConnection(offset: nat) returns (closed: int, free: bool)
      requires Valid() && offset < size
      modifies `freeSpaceBitmap, connections
      ensures Valid() && Taken() == old(Taken()) - {offset} && freeSpaceBitmap == Unbooked(old(freeSpaceBitmap), offset)
      ensures connections[..] == old(connections[..])[offset := ZEROED] && closed == old(connections[offset].sock)
      ensures free <==> Taken() == {}
    {
      hide PoolIsFree, Unbooked;
      closed := connections[offset].sock;
      UnbookedBits(freeSpaceBitmap, offset);
      freeSpaceBitmap := Unbooked(freeSpaceBitmap, offset);
      FreeIff(freeSpaceBitmap, size);
      free := PoolIsFree(freeSpaceBitmap);
      if !free {
        var k: nat :| k < size && !Bit(freeSpaceBitmap, k);
        assert k in Taken();
      }
      connections[offset] := ZEROED;
    }
  }

  lemma ZeroIsUnsound(size: nat)
    requires size <= MAX_SIZE
    ensures !Sound(0, size)
  {
    hide Bit;
    BitOfZero(MAX_SIZE);
  }

  /** What storing needs of booking, as sets of slots. */
  lemma StoreFacts(bitmap: nat, size: nat)
    requires Sound(bitmap, size) && size <= MAX_SIZE && Truncate(bitmap, 32) > 0
    ensures var r := BookedSlot(bitmap); var after := Booked(bitmap);
      && (Sound(after, size) <==> !PoolIsFull(bitmap, size))
      && (r >= size <==> PoolIsFull(bitmap, size))
      && (r < size ==>
        && Bit(bitmap, r) && (forall k: nat :: k < r ==> !Bit(bitmap, k))
        && (forall k: nat :: Bit(after, k) <==> Bit(bitmap, k) && k != r)
        && Unbooked(after, r) == bitmap)
  {
    hide Bit, Truncate, PoolIsFull, Booked, BookedSlot, Unbooked;
    BookLowest(bitmap, size);
    BookedBits(bitmap, size);
    if !PoolIsFull(bitmap, size) { UnbookUndoesBook(bitmap, size); }
  }

  /** Two stores into a pool of one slot: the second fails and takes a spare bit with it. */
  method FullStoreLosesSpareBit() returns (pool: ConnectionsPool, second: int)
    ensures fresh(pool) && pool.size == 1 && second == NOT_OK && !pool.Valid()
  {
    hide Bit, Truncate, PoolIsFull, Booked, BookedSlot, Unbooked, Sound;
    pool := new ConnectionsPool(1);
    assert Sound(pool.freeSpaceBitmap, 1) && 0 !in pool.Taken();
    BookLowest(pool.freeSpaceBitmap, 1);
    FullIff(pool.freeSpaceBitmap, 1);
    var first := pool.StoreConnection(5);
    assert first == 0 && 0 in pool.Taken();
    BookLowest(pool.freeSpaceBitmap, 1);
    FullIff(pool.freeSpaceBitmap, 1);
    second := pool.StoreConnection(6);
  }
}
