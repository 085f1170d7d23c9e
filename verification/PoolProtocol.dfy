/**
  The acceptor, the worker threads and the shutdown of the file server, as interleaved steps
  around one lock and two condition variables.

  The main thread is both the acceptor, which waits on `is_free_cond` while the pool is full,
  and, once a signal ends its loop, the one that waits on `cond` for the pool to drain. A
  worker releases its slot in four steps under the lock, as the release routine does: close
  and unbook, broadcast `cond` if the pool became free, broadcast `is_free_cond`, clear the
  descriptor.
 */
module PoolProtocol {
  import opened Bits
  import opened ConnectionPool

  datatype Stage = Starting | Serving | Wanting | Inside | Unbooking | Checked | Announced | Cleared

  /** A thread started with the address of `args[arg]`; `desc` is its own copy of the descriptor. */
  datatype Worker = Worker(arg: nat, desc: ConnectionDesc, stage: Stage)

  datatype Main =
    | Selecting | Accepted(sock: int) | Testing(sock: int) | Parked(sock: int) | Notified(sock: int)
    | Storing(sock: int) | Stored(slot: nat) | Unlocking
    | Ending | EndTesting | EndParked | EndNotified | EndUnlocking | Returned

  datatype Lock = Free | ByMain | ByWorker(id: nat)

  datatype State = State(bitmap: nat, connections: seq<ConnectionDesc>, workers: map<nat, Worker>,
                         main: Main, lock: Lock, open: set<int>)

  datatype Step =
    | Accept(sock: int) | Signal | MainLock | Test | Spurious | Store | Create(id: nat) | CreateFails | MainUnlock
    | Read(id: nat) | Finish(id: nat) | WorkerLock(id: nat) | Unbook(id: nat) | Check(id: nat)
    | Announce(id: nat) | Clear(id: nat) | WorkerUnlock(id: nat)

  // ---------------------------------------------------------------------------
  // Steps

  function Init(size: nat): State {
    State(INT64_MAX, seq(size, _ => ZEROED), map[], Selecting, Free, {})
  }

  predicate At(s: State, id: nat, stage: Stage) { id in s.workers && s.workers[id].stage == stage }

  predicate Enabled(s: State, step: Step) {
    match step
    case Accept(sock) => s.main.Selecting? && sock !in s.open
    case Signal => s.main.Selecting?
    case MainLock => s.lock.Free? && (s.main.Accepted? || s.main.Notified? || s.main.Ending? || s.main.EndNotified?)
    case Test => s.main.Testing? || s.main.EndTesting?
    case Spurious => s.main.Parked? || s.main.EndParked?
    case Store => s.main.Storing? && s.bitmap != 0 && Truncate(s.bitmap, 32) > 0
    case Create(id) => s.main.Stored? && id !in s.workers
    case CreateFails => s.main.Stored? && s.main.slot < |s.connections|
    case MainUnlock => s.main.Unlocking? || s.main.EndUnlocking?
    case Read(id) => At(s, id, Starting) && s.workers[id].arg < |s.connections|
    case Finish(id) => At(s, id, Serving)
    case WorkerLock(id) => At(s, id, Wanting) && s.lock.Free?
    case Unbook(id) => At(s, id, Inside) && 0 <= s.workers[id].desc.offset < |s.connections|
    case Check(id) => At(s, id, Unbooking)
    case Announce(id) => At(s, id, Checked)
    case Clear(id) => At(s, id, Announced) && 0 <= s.workers[id].desc.offset < |s.connections|
    case WorkerUnlock(id) => At(s, id, Cleared)
  }

  function Advance(s: State, id: nat, stage: Stage): State
    requires id in s.workers
  {
    s.(workers := s.workers[id := s.workers[id].(stage := stage)])
  }

  function Locked(main: Main): Main {
    match main
    case Accepted(sock) => Testing(sock)
    case Notified(sock) => Testing(sock)
    case Ending => EndTesting
    case EndNotified => EndTesting
    case _ => main
  }

  /** The broadcasts: each wakes the main thread if it waits on that condition variable. */
  function WakeEnd(main: Main): Main { if main.EndParked? then EndNotified else main }

  function WakeAcceptor(main: Main): Main { if main.Parked? then Notified(main.sock) else main }

  function Tested(s: State): State
    requires s.main.Testing? || s.main.EndTesting?
  {
    match s.main
    case Testing(sock) =>
      if PoolIsFull(s.bitmap, |s.connections|) then s.(main := Parked(sock), lock := Free)
      else s.(main := Storing(sock))
    case EndTesting =>
      if !PoolIsFree(s.bitmap) then s.(main := EndParked, lock := Free) else s.(main := EndUnlocking)
  }

  /** Storing the connection; the socket stays open and unserved if there is no slot for it. */
  function StoreAt(s: State): State
    requires s.main.Storing? && s.bitmap != 0 && Truncate(s.bitmap, 32) > 0
  {
    var k := BookedSlot(s.bitmap);
    var t := s.(bitmap := Booked(s.bitmap));
    if k >= |s.connections| then t.(main := Unlocking)
    else t.(connections := s.connections[k := ConnectionDesc(s.main.sock, k)], main := Stored(k))
  }

  function Close(s: State, k: nat): State
    requires k < |s.connections|
  {
    s.(bitmap := Unbooked(s.bitmap, k), open := s.open - {s.connections[k].sock})
  }

  function Do(s: State, step: Step): State
    requires Enabled(s, step)
  {
    match step
    case Accept(sock) => s.(main := Accepted(sock), open := s.open + {sock})
    case Signal => s.(main := Ending)
    case MainLock => s.(main := Locked(s.main), lock := ByMain)
    case Test => Tested(s)
    case Spurious => s.(main := WakeEnd(WakeAcceptor(s.main)))
    case Store => StoreAt(s)
    case Create(id) => s.(workers := s.workers[id := Worker(s.main.slot, ZEROED, Starting)], main := Unlocking)
    case CreateFails =>
      var t := Close(s, s.main.slot);
      t.(connections := t.connections[s.main.slot := ZEROED], main := Unlocking)
    case MainUnlock => s.(main := if s.main.Unlocking? then Selecting else Returned, lock := Free)
    case Read(id) =>
      var w := s.workers[id];
      s.(workers := s.workers[id := Worker(w.arg, s.connections[w.arg], Serving)])
    case Finish(id) => Advance(s, id, Wanting)
    case WorkerLock(id) => Advance(s, id, Inside).(lock := ByWorker(id))
    case Unbook(id) => Close(Advance(s, id, Unbooking), s.workers[id].desc.offset)
    case Check(id) => Advance(s, id, Checked).(main := if PoolIsFree(s.bitmap) then WakeEnd(s.main) else s.main)
    case Announce(id) => Advance(s, id, Announced).(main := WakeAcceptor(s.main))
    case Clear(id) =>
      Advance(s, id, Cleared).(connections := s.connections[s.workers[id].desc.offset := ZEROED])
    case WorkerUnlock(id) => s.(workers := s.workers - {id}, lock := Free)
  }

  ghost predicate Run(s: State, steps: seq<Step>, t: State)
    decreases |steps|
  {
    if steps == [] then s == t else Enabled(s, steps[0]) && Run(Do(s, steps[0]), steps[1..], t)
  }

  // ---------------------------------------------------------------------------
  // The invariant

  predicate Holds(stage: Stage) { stage.Starting? || stage.Serving? || stage.Wanting? || stage.Inside? }

  predicate Releasing(stage: Stage) { stage.Unbooking? || stage.Checked? || stage.Announced? }

  predicate InLock(stage: Stage) { stage.Inside? || Releasing(stage) || stage.Cleared? }

  predicate MainInLock(main: Main) {
    main.Testing? || main.Storing? || main.Stored? || main.Unlocking? || main.EndTesting? || main.EndUnlocking?
  }

  /** Worker `id` owns slot `k`. */
  predicate Owns(s: State, id: nat, k: nat) { id in s.workers && Holds(s.workers[id].stage) && s.workers[id].arg == k }

  /** Main has stored a connection in slot `k` and not yet started a thread for it. */
  predicate MainOwns(s: State, k: nat) { s.main.Stored? && s.main.slot == k }

  ghost predicate HasOwner(s: State, k: nat) { MainOwns(s, k) || exists id: nat :: Owns(s, id, k) }

  predicate Taken(s: State, k: nat) { k < |s.connections| && !Bit(s.bitmap, k) }

  ghost predicate Owners(s: State) {
    && (forall k: nat :: MainOwns(s, k) ==> Taken(s, k) && s.connections[k].offset == k)
    && (forall id: nat, k: nat :: Owns(s, id, k) ==>
          && Taken(s, k) && !MainOwns(s, k) && s.connections[k].offset == k
          && (s.workers[id].stage != Starting ==> s.workers[id].desc == s.connections[k]))
    && (forall id1: nat, id2: nat, k: nat :: Owns(s, id1, k) && Owns(s, id2, k) ==> id1 == id2)
    && (forall k: nat :: Taken(s, k) ==> HasOwner(s, k))
  }

  /** A worker between unbooking and clearing finds its slot still free. */
  ghost predicate Releases(s: State) {
    forall id: nat :: id in s.workers && Releasing(s.workers[id].stage) ==>
      var k := s.workers[id].arg; s.workers[id].desc.offset == k < |s.connections| && !Taken(s, k)
  }

  ghost predicate Locking(s: State) {
    && (s.lock.ByMain? <==> MainInLock(s.main))
    && (forall id: nat :: id in s.workers ==> (InLock(s.workers[id].stage) <==> s.lock == ByWorker(id)))
    && (s.lock.ByWorker? ==> s.lock.id in s.workers)
  }

  /** A worker is about to announce on `is_free_cond`. */
  predicate AboutToAnnounce(s: State) {
    s.lock.ByWorker? && s.lock.id in s.workers && (s.workers[s.lock.id].stage.Unbooking? || s.workers[s.lock.id].stage.Checked?)
  }

  /** A worker is about to look whether the pool became free. */
  predicate AboutToCheck(s: State) {
    s.lock.ByWorker? && s.lock.id in s.workers && s.workers[s.lock.id].stage.Unbooking?
  }

  predicate Waiting(s: State) {
    && (s.main.Parked? ==> PoolIsFull(s.bitmap, |s.connections|) || AboutToAnnounce(s))
    && (s.main.EndParked? ==> !PoolIsFree(s.bitmap) || AboutToCheck(s))
    && (s.main.Storing? ==> !PoolIsFull(s.bitmap, |s.connections|))
  }

  predicate Ended(main: Main) { main.EndUnlocking? || main.Returned? }

  predicate Drained(s: State) { Ended(s.main) ==> PoolIsFree(s.bitmap) && s.workers == map[] }

  /** The socket that main has accepted and not yet stored. */
  predicate MainSock(main: Main, f: int) {
    (main.Accepted? || main.Testing? || main.Parked? || main.Notified? || main.Storing?) && main.sock == f
  }

  predicate SlotSock(s: State, k: nat, f: int) { Taken(s, k) && s.connections[k].sock == f }

  ghost predicate HasConnection(s: State, f: int) { MainSock(s.main, f) || exists k: nat :: SlotSock(s, k, f) }

  /** The open sockets are those of the taken slots and main's, each once. */
  ghost predicate Sockets(s: State) {
    && (forall f :: f in s.open <==> HasConnection(s, f))
    && (forall k: nat, f :: SlotSock(s, k, f) ==> !MainSock(s.main, f))
    && (forall j: nat, k: nat, f :: SlotSock(s, j, f) && SlotSock(s, k, f) ==> j == k)
  }

  ghost predicate Inv(s: State) {
    && |s.connections| <= MAX_SIZE && Sound(s.bitmap, |s.connections|)
    && Owners(s) && Releases(s) && Locking(s) && Waiting(s) && Drained(s) && Sockets(s)
  }

  // ---------------------------------------------------------------------------
  // Steps that leave owners and sockets alone

  predicate Owner(s: State, id: nat) { id in s.workers && Holds(s.workers[id].stage) }

  predicate SameOwner(s: State, t: State, id: nat) {
    && (Owner(s, id) <==> Owner(t, id))
    && (Owner(s, id) ==>
          var v, w := s.workers[id], t.workers[id];
          && w.arg == v.arg
          && (w.stage.Starting? || (!v.stage.Starting? && w.desc == v.desc)
              || (w.arg < |s.connections| && w.desc == s.connections[w.arg])))
  }

  ghost predicate SameSlots(s: State, t: State) {
    && s.bitmap == t.bitmap && |s.connections| == |t.connections|
    && forall k: nat :: Taken(s, k) ==> t.connections[k] == s.connections[k]
  }

  lemma OwnersFrame(s: State, t: State)
    requires Owners(s) && SameSlots(s, t)
    requires forall id: nat :: SameOwner(s, t, id)
    requires forall k: nat :: MainOwns(s, k) <==> MainOwns(t, k)
    ensures Owners(t)
  {
    hide Bit;
    assert forall k: nat :: Taken(s, k) <==> Taken(t, k);
    forall id: nat, k: nat
      ensures Owns(s, id, k) <==> Owns(t, id, k)
      ensures Owns(t, id, k) && t.workers[id].stage != Starting ==> t.workers[id].desc == t.connections[k]
    {
      assert SameOwner(s, t, id);
      if Owns(s, id, k) { assert Taken(s, k); }
    }
    forall k: nat | Taken(t, k) ensures HasOwner(t, k) {
      assert Taken(s, k);
      if !MainOwns(s, k) {
        var id: nat :| Owns(s, id, k);
        assert Owns(t, id, k);
      }
    }
  }

  lemma SocketsFrame(s: State, t: State)
    requires Sockets(s) && SameSlots(s, t) && s.open == t.open
    requires forall f :: MainSock(s.main, f) <==> MainSock(t.main, f)
    ensures Sockets(t)
  {
    hide Bit;
    forall k: nat, f ensures SlotSock(s, k, f) <==> SlotSock(t, k, f) {
      assert Taken(s, k) <==> Taken(t, k);
    }
    forall f ensures HasConnection(s, f) <==> HasConnection(t, f) {
    }
  }

  // ---------------------------------------------------------------------------
  // Every step keeps it

  lemma SignalKeeps(s: State)
    requires Inv(s) && Enabled(s, Signal)
    ensures Inv(Do(s, Signal))
  {
    hide Bit, PoolIsFull, PoolIsFree, Sound, Truncate, Owners, Sockets;
    var t := Do(s, Signal);
    OwnersFrame(s, t);
    SocketsFrame(s, t);
  }

  lemma MainLockKeeps(s: State)
    requires Inv(s) && Enabled(s, MainLock)
    ensures Inv(Do(s, MainLock))
  {
    hide Bit, PoolIsFull, PoolIsFree, Sound, Truncate, Owners, Sockets;
    var t := Do(s, MainLock);
    OwnersFrame(s, t);
    SocketsFrame(s, t);
  }

  lemma WorkerTakes(s: State, id: nat)
    requires Owners(s) && Locking(s) && s.lock.ByMain? && id in s.workers
    ensures !AllFree(s.bitmap, |s.connections|)
  {
    hide Bit;
    assert Holds(s.workers[id].stage);
    assert Owns(s, id, s.workers[id].arg);
    assert Taken(s, s.workers[id].arg);
  }

  /** With the lock in main's hands and every bit set, no worker is left. */
  lemma FreeMeansNoWorker(s: State)
    requires Inv(s) && s.lock.ByMain? && PoolIsFree(s.bitmap)
    ensures s.workers == map[]
  {
    hide Bit, PoolIsFree, Owners, Locking, AllFree;
    FreeIff(s.bitmap, |s.connections|);
    forall id: nat ensures id !in s.workers {
      if id in s.workers { WorkerTakes(s, id); }
    }
  }

  lemma TestKeeps(s: State)
    requires Inv(s) && Enabled(s, Test)
    ensures Inv(Do(s, Test))
  {
    hide Bit, PoolIsFull, PoolIsFree, Sound, Truncate, Owners, Sockets;
    var t := Do(s, Test);
    if s.main.EndTesting? && PoolIsFree(s.bitmap) { FreeMeansNoWorker(s); }
    OwnersFrame(s, t);
    SocketsFrame(s, t);
  }

  lemma SpuriousKeeps(s: State)
    requires Inv(s) && Enabled(s, Spurious)
    ensures Inv(Do(s, Spurious))
  {
    hide Bit, PoolIsFull, PoolIsFree, Sound, Truncate, Owners, Sockets;
    var t := Do(s, Spurious);
    OwnersFrame(s, t);
    SocketsFrame(s, t);
  }

  lemma MainUnlockKeeps(s: State)
    requires Inv(s) && Enabled(s, MainUnlock)
    ensures Inv(Do(s, MainUnlock))
  {
    hide Bit, PoolIsFull, PoolIsFree, Sound, Truncate, Owners, Sockets;
    var t := Do(s, MainUnlock);
    OwnersFrame(s, t);
    SocketsFrame(s, t);
  }

  lemma ReadKeeps(s: State, id: nat)
    requires Inv(s) && Enabled(s, Read(id))
    ensures Inv(Do(s, Read(id)))
  {
    hide Bit, PoolIsFull, PoolIsFree, Sound, Truncate, Owners, Sockets;
    var t := Do(s, Read(id));
    OwnersFrame(s, t);
    SocketsFrame(s, t);
  }

  lemma FinishKeeps(s: State, id: nat)
    requires Inv(s) && Enabled(s, Finish(id))
    ensures Inv(Do(s, Finish(id)))
  {
    hide Bit, PoolIsFull, PoolIsFree, Sound, Truncate, Owners, Sockets;
    var t := Do(s, Finish(id));
    OwnersFrame(s, t);
    SocketsFrame(s, t);
  }

  lemma WorkerLockKeeps(s: State, id: nat)
    requires Inv(s) && Enabled(s, WorkerLock(id))
    ensures Inv(Do(s, WorkerLock(id)))
  {
    hide Bit, PoolIsFull, PoolIsFree, Sound, Truncate, Owners, Sockets;
    var t := Do(s, WorkerLock(id));
    OwnersFrame(s, t);
    SocketsFrame(s, t);
  }

  lemma CheckKeeps(s: State, id: nat)
    requires Inv(s) && Enabled(s, Check(id))
    ensures Inv(Do(s, Check(id)))
  {
    hide Bit, PoolIsFull, PoolIsFree, Sound, Truncate, Owners, Sockets;
    var t := Do(s, Check(id));
    OwnersFrame(s, t);
    SocketsFrame(s, t);
  }

  lemma AnnounceKeeps(s: State, id: nat)
    requires Inv(s) && Enabled(s, Announce(id))
    ensures Inv(Do(s, Announce(id)))
  {
    hide Bit, PoolIsFull, PoolIsFree, Sound, Truncate, Owners, Sockets;
    var t := Do(s, Announce(id));
    OwnersFrame(s, t);
    SocketsFrame(s, t);
  }

  lemma ClearKeeps(s: State, id: nat)
    requires Inv(s) && Enabled(s, Clear(id))
    ensures Inv(Do(s, Clear(id)))
  {
    hide Bit, PoolIsFull, PoolIsFree, Sound, Truncate, Owners, Sockets;
    var t := Do(s, Clear(id));
    OwnersFrame(s, t);
    SocketsFrame(s, t);
  }

  lemma WorkerUnlockKeeps(s: State, id: nat)
    requires Inv(s) && Enabled(s, WorkerUnlock(id))
    ensures Inv(Do(s, WorkerUnlock(id)))
  {
    hide Bit, PoolIsFull, PoolIsFree, Sound, Truncate, Owners, Sockets;
    var t := Do(s, WorkerUnlock(id));
    OwnersFrame(s, t);
    SocketsFrame(s, t);
  }

  lemma AcceptKeeps(s: State, sock: int)
    requires Inv(s) && Enabled(s, Accept(sock))
    ensures Inv(Do(s, Accept(sock)))
  {
    hide Bit, PoolIsFull, PoolIsFree, Sound, Truncate, Owners;
    var t := Do(s, Accept(sock));
    OwnersFrame(s, t);
    forall k: nat, f ensures SlotSock(s, k, f) <==> SlotSock(t, k, f) {
      assert Taken(s, k) <==> Taken(t, k);
    }
    forall f ensures HasConnection(t, f) <==> HasConnection(s, f) || f == sock {
    }
    forall k: nat, f | SlotSock(t, k, f) ensures f != sock {
      assert HasConnection(s, f);
    }
  }

  lemma CreateKeeps(s: State, id: nat)
    requires Inv(s) && Enabled(s, Create(id))
    ensures Inv(Do(s, Create(id)))
  {
    hide Bit, PoolIsFull, PoolIsFree, Sound, Truncate, Sockets;
    var t := Do(s, Create(id));
    SocketsFrame(s, t);
    assert MainOwns(s, s.main.slot);
    forall i: nat, k: nat ensures Owns(t, i, k) <==> Owns(s, i, k) || (i == id && MainOwns(s, k)) {
    }
    forall k: nat ensures Taken(s, k) <==> Taken(t, k) {
    }
    forall k: nat | Taken(t, k) ensures HasOwner(t, k) {
      assert HasOwner(s, k);
      if MainOwns(s, k) {
        assert Owns(t, id, k);
      } else {
        var i: nat :| Owns(s, i, k);
        assert Owns(t, i, k);
      }
    }
  }

  // ---------------------------------------------------------------------------
  // Steps that book and unbook

  /** A slot changes hands in the bitmap and nowhere else. */
  ghost predicate Gains(s: State, t: State, slot: nat) {
    && |t.connections| == |s.connections| && slot < |s.connections| && !Taken(s, slot)
    && forall k: nat :: Taken(t, k) <==> Taken(s, k) || k == slot
  }

  lemma StoreKeeps(s: State)
    requires Inv(s) && Enabled(s, Store)
    ensures Inv(Do(s, Store))
  {
    hide Bit, PoolIsFull, PoolIsFree, Sound, Truncate, Owners, Sockets, Booked, BookedSlot;
    var t := Do(s, Store);
    StoreTakes(s);
    StoreOwners(s, t);
    StoreSockets(s, t);
  }

  lemma StoringHasRoom(s: State)
    requires Waiting(s) && s.main.Storing?
    ensures !PoolIsFull(s.bitmap, |s.connections|)
  {
  }

  lemma StoreTakes(s: State)
    requires Inv(s) && Enabled(s, Store)
    ensures var t, k := Do(s, Store), BookedSlot(s.bitmap);
      && Gains(s, t, k) && Sound(t.bitmap, |s.connections|)
      && t.connections == s.connections[k := ConnectionDesc(s.main.sock, k)] && t.main == Stored(k)
  {
    hide PoolIsFull, Truncate, Booked, BookedSlot, Owners, Sockets, Locking, Waiting, Releases, Drained;
    var t, slot := Do(s, Store), BookedSlot(s.bitmap);
    StoringHasRoom(s);
    StoreFacts(s.bitmap, |s.connections|);
    forall k: nat ensures Taken(t, k) <==> Taken(s, k) || k == slot {
      assert Bit(t.bitmap, k) <==> Bit(s.bitmap, k) && k != slot;
    }
  }

  lemma StoreOwners(s: State, t: State)
    requires Owners(s) && Locking(s) && Releases(s) && s.main.Storing? && t.main.Stored? && Gains(s, t, t.main.slot)
    requires t.connections == s.connections[t.main.slot := ConnectionDesc(s.main.sock, t.main.slot)]
    requires t.workers == s.workers
    ensures Owners(t) && Releases(t)
  {
    hide Bit;
    forall i: nat, k: nat ensures Owns(t, i, k) <==> Owns(s, i, k) {
    }
    forall k: nat | Taken(t, k) ensures HasOwner(t, k) {
      if k != t.main.slot {
        assert HasOwner(s, k);
        var i: nat :| Owns(s, i, k);
        assert Owns(t, i, k);
      }
    }
  }

  lemma StoreSockets(s: State, t: State)
    requires Sockets(s) && s.main.Storing? && t.main.Stored? && Gains(s, t, t.main.slot) && t.open == s.open
    requires t.connections == s.connections[t.main.slot := ConnectionDesc(s.main.sock, t.main.slot)]
    ensures Sockets(t)
  {
    hide Bit;
    var slot, sock := t.main.slot, s.main.sock;
    forall k: nat, f ensures SlotSock(t, k, f) <==> SlotSock(s, k, f) || (k == slot && f == sock) {
    }
    forall f ensures HasConnection(t, f) <==> HasConnection(s, f) {
      if MainSock(s.main, f) { assert SlotSock(t, slot, f); }
    }
  }

  ghost predicate Loses(s: State, t: State, slot: nat) {
    && |t.connections| == |s.connections| && Taken(s, slot)
    && (forall k: nat :: Taken(t, k) <==> Taken(s, k) && k != slot)
    && (forall k: nat :: Taken(t, k) ==> t.connections[k] == s.connections[k])
  }

  lemma LosesSockets(s: State, t: State, slot: nat)
    requires Sockets(s) && Loses(s, t, slot) && t.open == s.open - {s.connections[slot].sock}
    requires forall f :: MainSock(s.main, f) <==> MainSock(t.main, f)
    ensures Sockets(t) && s.connections[slot].sock in s.open
  {
    hide Bit;
    var sock := s.connections[slot].sock;
    assert SlotSock(s, slot, sock);
    forall k: nat, f ensures SlotSock(t, k, f) <==> SlotSock(s, k, f) && f != sock {
    }
    forall f ensures HasConnection(t, f) <==> HasConnection(s, f) && f != sock {
    }
  }

  lemma LosesOwners(s: State, t: State, slot: nat)
    requires Owners(s) && Loses(s, t, slot)
    requires forall i: nat, k: nat :: Owns(t, i, k) <==> Owns(s, i, k) && k != slot
    requires forall k: nat :: MainOwns(t, k) <==> MainOwns(s, k) && k != slot
    requires forall i: nat :: Owner(t, i) ==> i in s.workers && t.workers[i] == s.workers[i]
    ensures Owners(t)
  {
    hide Bit;
    forall i: nat, k: nat | Owns(t, i, k) && t.workers[i].stage != Starting ensures t.workers[i].desc == t.connections[k] {
      assert Owner(t, i);
    }
    forall k: nat | Taken(t, k) ensures HasOwner(t, k) {
      assert HasOwner(s, k);
      if !MainOwns(s, k) {
        var i: nat :| Owns(s, i, k);
        assert Owns(t, i, k);
      }
    }
  }

  lemma ClosedBits(s: State, slot: nat)
    requires Inv(s) && Taken(s, slot)
    ensures var t := Close(s, slot); Loses(s, t, slot) && Sound(t.bitmap, |t.connections|)
  {
    hide Owners, Sockets, Locking, Waiting, Releases, Drained, Unbooked;
    UnbookedBits(s.bitmap, slot);
    var t := Close(s, slot);
    forall k: nat ensures Taken(t, k) <==> Taken(s, k) && k != slot {
      assert Bit(t.bitmap, k) <==> Bit(s.bitmap, k) || k == slot;
    }
  }

  lemma UnbookKeeps(s: State, id: nat)
    requires Inv(s) && Enabled(s, Unbook(id))
    ensures Inv(Do(s, Unbook(id)))
  {
    hide Bit, PoolIsFull, PoolIsFree, Sound, Truncate, Sockets, Unbooked;
    var t, slot := Do(s, Unbook(id)), s.workers[id].arg;
    assert Owns(s, id, slot);
    assert s.workers[id].desc.offset == slot;
    ClosedBits(s, slot);
    assert forall k: nat :: Taken(t, k) <==> Taken(Close(s, slot), k);
    forall i: nat, k: nat ensures Owns(t, i, k) <==> Owns(s, i, k) && k != slot {
      assert Owns(t, i, k) <==> Owns(s, i, k) && i != id;
    }
    LosesSockets(s, t, slot);
    LosesOwners(s, t, slot);
  }

  lemma CreateFailsKeeps(s: State)
    requires Inv(s) && Enabled(s, CreateFails)
    ensures Inv(Do(s, CreateFails))
  {
    hide Bit, PoolIsFull, PoolIsFree, Sound, Truncate, Sockets, Unbooked;
    var t, slot := Do(s, CreateFails), s.main.slot;
    assert MainOwns(s, slot);
    ClosedBits(s, slot);
    assert forall k: nat :: Taken(t, k) <==> Taken(Close(s, slot), k);
    LosesSockets(s, t, slot);
    LosesOwners(s, t, slot);
  }
}
