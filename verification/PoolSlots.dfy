/**
  What the slots hold and what the threads see of them: a slot's descriptor is cleared once its
  worker is done with it, the acceptor waits exactly while every slot is taken, and a worker wakes
  the shutdown exactly when none is.
 */
module PoolSlots {
  import opened Bits
  import opened ConnectionPool
  import opened PoolProtocol
  import opened PoolRuns

  /** A worker is between unbooking slot k and clearing it. */
  ghost predicate BeingReleased(s: State, k: nat) { exists id: nat :: ReleasedBy(s, k, id) }

  predicate ReleasedBy(s: State, k: nat, id: nat) {
    id in s.workers && Releasing(s.workers[id].stage) && s.workers[id].arg == k
  }

  /** A free slot that nobody is releasing holds no connection. */
  ghost predicate CleanAt(s: State, k: nat) {
    k < |s.connections| && !Taken(s, k) ==> BeingReleased(s, k) || s.connections[k] == ZEROED
  }

  lemma SameClean(s: State, t: State, k: nat)
    requires CleanAt(s, k) && t.bitmap == s.bitmap && t.connections == s.connections
    requires forall id: nat :: ReleasedBy(s, k, id) ==> ReleasedBy(t, k, id)
    ensures CleanAt(t, k)
  {
    hide Bit;
  }

  lemma StoreCleans(s: State, k: nat)
    requires Inv(s) && Enabled(s, Store) && CleanAt(s, k)
    ensures CleanAt(Do(s, Store), k)
  {
    hide Bit, PoolIsFull, PoolIsFree, Truncate, Booked, BookedSlot, Inv;
    StoreTakes(s);
    var t := Do(s, Store);
    if BeingReleased(s, k) {
      var id: nat :| ReleasedBy(s, k, id);
      assert ReleasedBy(t, k, id);
    }
  }

  lemma CreateFailsCleans(s: State, k: nat)
    requires Inv(s) && Enabled(s, CreateFails) && CleanAt(s, k)
    ensures CleanAt(Do(s, CreateFails), k)
  {
    hide Bit, PoolIsFull, PoolIsFree, Unbooked;
    ClosedBits(s, s.main.slot);
    assert !BeingReleased(s, k);
  }

  lemma UnbookCleans(s: State, id: nat, k: nat)
    requires Inv(s) && Enabled(s, Unbook(id)) && CleanAt(s, k)
    ensures CleanAt(Do(s, Unbook(id)), k)
  {
    hide Bit, PoolIsFull, PoolIsFree, Unbooked;
    var t, slot := Do(s, Unbook(id)), s.workers[id].desc.offset;
    assert Owns(s, id, s.workers[id].arg);
    ClosedBits(s, slot);
    if k == slot {
      assert ReleasedBy(t, k, id);
    } else {
      assert !BeingReleased(s, k);
    }
  }

  lemma ClearCleans(s: State, id: nat, k: nat)
    requires Inv(s) && Enabled(s, Clear(id)) && CleanAt(s, k)
    ensures CleanAt(Do(s, Clear(id)), k)
  {
    hide Bit, PoolIsFull, PoolIsFree;
    if k != s.workers[id].desc.offset { assert !BeingReleased(s, k); }
  }

  predicate Moves(step: Step) { step.Store? || step.CreateFails? || step.Unbook? || step.Clear? }

  lemma OtherCleans(s: State, step: Step, k: nat)
    requires Enabled(s, step) && !Moves(step) && CleanAt(s, k)
    ensures CleanAt(Do(s, step), k)
  {
    hide Bit, PoolIsFull, PoolIsFree, CleanAt;
    SameClean(s, Do(s, step), k);
  }

  lemma StepCleans(s: State, step: Step, k: nat)
    requires Inv(s) && Enabled(s, step) && CleanAt(s, k)
    ensures CleanAt(Do(s, step), k)
  {
    hide Inv, CleanAt, Do, Enabled;
    match step
    case Store => StoreCleans(s, k);
    case CreateFails => CreateFailsCleans(s, k);
    case Unbook(id) => UnbookCleans(s, id, k);
    case Clear(id) => ClearCleans(s, id, k);
    case _ => OtherCleans(s, step, k);
  }

  lemma {:induction false} RunCleans(s: State, steps: seq<Step>, t: State, k: nat)
    requires Inv(s) && Run(s, steps, t) && CleanAt(s, k)
    ensures CleanAt(t, k)
    decreases |steps|
  {
    hide Inv, Enabled, Do, CleanAt;
    if steps != [] {
      StepKeeps(s, steps[0]);
      StepCleans(s, steps[0], k);
      RunCleans(Do(s, steps[0]), steps[1..], t, k);
    }
  }

  /** In every interleaving a free slot is cleared unless its last worker is just about to; after the shutdown all are. */
  lemma FreeSlotsAreCleared(size: nat, t: State, k: nat)
    requires Reachable(size, t) && k < size
    ensures |t.connections| == size
    ensures Bit(t.bitmap, k) && !BeingReleased(t, k) ==> t.connections[k] == ConnectionDesc(0, 0)
    ensures Ended(t.main) ==> t.connections[k] == ConnectionDesc(0, 0)
  {
    hide Inv, Run, Bit;
    var steps :| Run(Init(size), steps, t);
    InitInv(size);
    RunCleans(Init(size), steps, t, k);
    ReachableInv(size, t);
    if Ended(t.main) {
      ReturnsDrained(size, t, Signal);
      FreshIsSound(size);
      AllBitsSet(t, k);
    }
  }

  lemma AllBitsSet(t: State, k: nat)
    requires t.bitmap == INT64_MAX && k < MAX_SIZE
    ensures Bit(t.bitmap, k)
  {
    hide Bit, Pow2;
    FreshIsSound(0);
  }

  /** The acceptor that looks at the pool parks iff every slot is taken, and the shutdown iff some slot is. */
  lemma TestParksIff(size: nat, t: State)
    requires Reachable(size, t) && Enabled(t, Test)
    ensures t.main.Testing? ==> (Do(t, Test).main.Parked? <==> forall k: nat :: k < size ==> Taken(t, k))
    ensures t.main.EndTesting? ==> (Do(t, Test).main.EndParked? <==> exists k: nat :: Taken(t, k))
  {
    hide Bit, PoolIsFull, PoolIsFree, Reachable;
    ReachableInv(size, t);
    FullIff(t.bitmap, size);
    FreeIff(t.bitmap, size);
    assert forall k: nat :: k < size ==> (Taken(t, k) <==> !Bit(t.bitmap, k));
    if t.main.EndTesting? && !PoolIsFree(t.bitmap) {
      var k: nat :| k < size && !Bit(t.bitmap, k);
      assert Taken(t, k);
    }
  }

  /** A worker's check wakes the parked shutdown iff no slot is taken any more; its announcement always wakes the acceptor. */
  lemma CheckWakesIff(size: nat, t: State, id: nat)
    requires Reachable(size, t)
    ensures t.main.EndParked? && Enabled(t, Check(id)) ==> (Do(t, Check(id)).main.EndNotified? <==> forall k: nat :: !Taken(t, k))
    ensures t.main.Parked? && Enabled(t, Announce(id)) ==> Do(t, Announce(id)).main == Notified(t.main.sock)
  {
    hide Bit, PoolIsFull, PoolIsFree, Reachable;
    ReachableInv(size, t);
    FreeIff(t.bitmap, size);
    if forall k: nat :: !Taken(t, k) {
      assert forall k: nat :: k < size ==> Bit(t.bitmap, k) || Taken(t, k);
    } else {
      var k: nat :| Taken(t, k);
      assert !AllFree(t.bitmap, size);
    }
  }
}
