/**
  What holds in every run of the file server's acceptor, workers and shutdown: who owns each
  slot, that nobody is left waiting, and that the pool drains.
 */
module PoolRuns {
  import opened Bits
  import opened ConnectionPool
  import opened PoolProtocol

  // ---------------------------------------------------------------------------
  // Every run

  lemma StepKeeps(s: State, step: Step)
    requires Inv(s) && Enabled(s, step)
    ensures Inv(Do(s, step)) && |Do(s, step).connections| == |s.connections|
  {
    hide Inv, PoolIsFull, PoolIsFree, Truncate, Booked, BookedSlot, Unbooked;
    match step
    case Accept(sock) => AcceptKeeps(s, sock);
    case Signal => SignalKeeps(s);
    case MainLock => MainLockKeeps(s);
    case Test => TestKeeps(s);
    case Spurious => SpuriousKeeps(s);
    case Store => StoreKeeps(s);
    case Create(id) => CreateKeeps(s, id);
    case CreateFails => CreateFailsKeeps(s);
    case MainUnlock => MainUnlockKeeps(s);
    case Read(id) => ReadKeeps(s, id);
    case Finish(id) => FinishKeeps(s, id);
    case WorkerLock(id) => WorkerLockKeeps(s, id);
    case Unbook(id) => UnbookKeeps(s, id);
    case Check(id) => CheckKeeps(s, id);
    case Announce(id) => AnnounceKeeps(s, id);
    case Clear(id) => ClearKeeps(s, id);
    case WorkerUnlock(id) => WorkerUnlockKeeps(s, id);
  }

  lemma InitInv(size: nat)
    requires size <= MAX_SIZE
    ensures Inv(Init(size))
  {
    hide Bit, PoolIsFull, PoolIsFree, Pow2;
    FreshIsSound(size);
    assert forall k: nat :: !Taken(Init(size), k);
  }

  lemma {:induction false} RunKeeps(s: State, steps: seq<Step>, t: State)
    requires Inv(s) && Run(s, steps, t)
    ensures Inv(t) && |t.connections| == |s.connections|
    decreases |steps|
  {
    hide Inv, Enabled, Do;
    if steps != [] {
      StepKeeps(s, steps[0]);
      RunKeeps(Do(s, steps[0]), steps[1..], t);
    }
  }

  /** State `t` can be reached by a server whose pool has `size` slots. */
  ghost predicate Reachable(size: nat, t: State) { size <= MAX_SIZE && exists steps :: Run(Init(size), steps, t) }

  lemma ReachableInv(size: nat, t: State)
    requires Reachable(size, t)
    ensures Inv(t) && |t.connections| == size
  {
    hide Inv, Run;
    var steps :| Run(Init(size), steps, t);
    InitInv(size);
    RunKeeps(Init(size), steps, t);
  }

  /** A slot's bit is clear exactly while one connection owns it; the bits past the slots stay set. */
  lemma SlotHasOneOwner(size: nat, t: State, k: nat)
    requires Reachable(size, t)
    ensures k < size ==> (!Bit(t.bitmap, k) <==> HasOwner(t, k))
    ensures forall i: nat, j: nat :: Owns(t, i, k) && Owns(t, j, k) ==> i == j
    ensures MainOwns(t, k) ==> forall i: nat :: !Owns(t, i, k)
    ensures k >= size ==> (Bit(t.bitmap, k) <==> k < 63) && !HasOwner(t, k)
  {
    hide Reachable;
    ReachableInv(size, t);
    assert Taken(t, k) <==> k < size && !Bit(t.bitmap, k);
    if HasOwner(t, k) && !MainOwns(t, k) {
      var i: nat :| Owns(t, i, k);
      assert Taken(t, k);
    }
  }

  /** Two threads are never inside the lock together. */
  lemma OneInside(size: nat, t: State)
    requires Reachable(size, t)
    ensures forall i: nat, j: nat :: i in t.workers && j in t.workers && InLock(t.workers[i].stage) && InLock(t.workers[j].stage) ==> i == j
    ensures MainInLock(t.main) ==> forall i: nat :: i in t.workers ==> !InLock(t.workers[i].stage)
  {
    hide Reachable;
    ReachableInv(size, t);
  }

  /**
    When the wait for the workers returns, every slot is free, every accepted socket has been
    closed, no worker is left, and nothing can touch the pool that is then destroyed.
   */
  lemma ReturnsDrained(size: nat, t: State, step: Step)
    requires Reachable(size, t) && Ended(t.main)
    ensures t.bitmap == INT64_MAX && t.workers == map[] && t.open == {}
    ensures t.main.Returned? ==> !Enabled(t, step)
  {
    hide Reachable, Bit;
    ReachableInv(size, t);
    FreeIff(t.bitmap, size);
    forall f ensures f !in t.open {
      assert forall k: nat :: !SlotSock(t, k, f) by { assert AllFree(t.bitmap, size); }
    }
  }

  /** A close is always of a socket that is open, by the connection that owns it. */
  lemma ClosesOwnSocket(size: nat, t: State, id: nat)
    requires Reachable(size, t) && Enabled(t, Unbook(id))
    ensures var w := t.workers[id]; w.desc.offset == w.arg && w.desc == t.connections[w.arg] && w.desc.sock in t.open
  {
    hide Reachable, Bit;
    ReachableInv(size, t);
    var w := t.workers[id];
    assert Owns(t, id, w.arg);
    assert SlotSock(t, w.arg, w.desc.sock);
    assert HasConnection(t, w.desc.sock);
  }

  // ---------------------------------------------------------------------------
  // Nobody is left waiting

  predicate WorkerStep(step: Step) {
    step.Read? || step.Finish? || step.WorkerLock? || step.Unbook? || step.Check? || step.Announce? || step.Clear? || step.WorkerUnlock?
  }

  predicate MainWaits(s: State) { s.main.Parked? || s.main.EndParked? }

  /** A worker that is not kept out by the lock can take its next step. */
  lemma WorkerMoves(s: State, id: nat) returns (step: Step)
    requires Inv(s) && id in s.workers && (s.lock.Free? || s.lock == ByWorker(id))
    ensures Enabled(s, step) && WorkerStep(step) && step.id == id
  {
    hide Bit, PoolIsFull, PoolIsFree, Sockets;
    var w := s.workers[id];
    if Holds(w.stage) { assert Owns(s, id, w.arg); }
    match w.stage
    case Starting => step := Read(id);
    case Serving => step := Finish(id);
    case Wanting => step := WorkerLock(id);
    case Inside => step := Unbook(id);
    case Unbooking => step := Check(id);
    case Checked => step := Announce(id);
    case Announced => step := Clear(id);
    case Cleared => step := WorkerUnlock(id);
  }

  lemma WaitsForSomeone(s: State) returns (id: nat)
    requires Inv(s) && MainWaits(s) && |s.connections| > 0
    ensures id in s.workers && (s.lock.Free? || s.lock == ByWorker(id))
  {
    hide Bit, PoolIsFull, PoolIsFree, Sockets;
    if s.lock.ByWorker? { return s.lock.id; }
    FreeIff(s.bitmap, |s.connections|);
    FullIff(s.bitmap, |s.connections|);
    var k: nat := 0;
    if s.main.Parked? {
      assert Taken(s, k);
    } else {
      k :| k < |s.connections| && !Bit(s.bitmap, k);
      assert Taken(s, k);
    }
    assert HasOwner(s, k);
    id :| Owns(s, id, k);
  }

  lemma MainMoves(s: State) returns (step: Step)
    requires Inv(s) && !MainWaits(s) && !s.main.Returned? && (s.lock.Free? || s.lock.ByMain?)
    ensures Enabled(s, step) && step != Spurious
  {
    hide Bit, PoolIsFull, PoolIsFree, Truncate, Sockets, BookedSlot;
    match s.main
    case Selecting => step := Signal;
    case Testing(_) => step := Test;
    case EndTesting => step := Test;
    case Storing(_) =>
      BookLowest(s.bitmap, |s.connections|);
      if s.bitmap == 0 { ZeroIsUnsound(|s.connections|); }
      step := Store;
    case Stored(k) =>
      assert MainOwns(s, k);
      step := CreateFails;
    case Unlocking => step := MainUnlock;
    case EndUnlocking => step := MainUnlock;
    case _ => step := MainLock;
  }

  /** Until it returns, a server with at least one slot can always take a step that is not a spurious wake-up. */
  lemma NoDeadlock(size: nat, t: State) returns (step: Step)
    requires Reachable(size, t) && size > 0 && !t.main.Returned?
    ensures Enabled(t, step) && step != Spurious
    ensures MainWaits(t) ==> WorkerStep(step)
  {
    hide Reachable, Inv, Enabled;
    ReachableInv(size, t);
    if t.lock.ByWorker? { LockHolder(t); }
    if MainWaits(t) {
      var id := WaitsForSomeone(t);
      step := WorkerMoves(t, id);
    } else if t.lock.ByWorker? {
      step := WorkerMoves(t, t.lock.id);
    } else {
      step := MainMoves(t);
    }
  }

  lemma LockHolder(s: State)
    requires Inv(s) && s.lock.ByWorker?
    ensures s.lock.id in s.workers
  {
  }

  /** With no slots at all the acceptor parks for good. */
  lemma EmptyPoolStrands(sock: int, step: Step)
    ensures var t := Init(0).(main := Parked(sock), open := {sock});
      Reachable(0, t) && (Enabled(t, step) ==> step == Spurious)
  {
    hide Pow2;
    var t := Init(0).(main := Parked(sock), open := {sock});
    var a := Do(Init(0), Accept(sock));
    var b := Do(a, MainLock);
    assert Run(t, [], t) && Do(b, Test) == t;
    assert Run(b, [Test], t);
    assert Run(a, [MainLock, Test], t) by { assert [MainLock, Test][1..] == [Test]; }
    assert Run(Init(0), [Accept(sock), MainLock, Test], t) by {
      assert [Accept(sock), MainLock, Test][1..] == [MainLock, Test];
    }
  }

  /**
    A parked acceptor whose pool is no longer full is about to be notified: the lock is held by
    the worker that made room, and its next one or two steps do it. Likewise for the shutdown.
   */
  lemma NeverStranded(size: nat, t: State) returns (steps: seq<Step>, u: State)
    requires Reachable(size, t)
    requires (t.main.Parked? && !PoolIsFull(t.bitmap, size)) || (t.main.EndParked? && PoolIsFree(t.bitmap))
    ensures t.lock.ByWorker? && |steps| <= 2 && Run(t, steps, u)
    ensures forall i :: 0 <= i < |steps| ==> WorkerStep(steps[i]) && steps[i].id == t.lock.id
    ensures u.main == (if t.main.Parked? then Notified(t.main.sock) else EndNotified) && u.bitmap == t.bitmap
  {
    hide Reachable, Bit, PoolIsFull, PoolIsFree, Owners, Sockets, Sound, Releases;
    ReachableInv(size, t);
    var id := t.lock.id;
    var a := if t.workers[id].stage.Unbooking? then Do(t, Check(id)) else t;
    u := if t.main.Parked? then Do(a, Announce(id)) else a;
    assert Run(u, [], u);
    if t.main.EndParked? {
      steps := [Check(id)];
    } else {
      assert Run(a, [Announce(id)], u);
      if t.workers[id].stage.Unbooking? {
        steps := [Check(id), Announce(id)];
        assert steps[1..] == [Announce(id)];
      } else {
        steps := [Announce(id)];
      }
    }
  }

  // ---------------------------------------------------------------------------
  // The drain ends

  function Left(stage: Stage): nat {
    match stage
    case Starting => 8 case Serving => 7 case Wanting => 6 case Inside => 5
    case Unbooking => 4 case Checked => 3 case Announced => 2 case Cleared => 1
  }

  /** The steps that the workers still have to take. */
  ghost function Work(workers: map<nat, Worker>): nat
    decreases |workers|
  {
    if workers == map[] then 0 else
      var id :| id in workers;
      Left(workers[id].stage) + Work(workers - {id})
  }

  lemma {:induction false} WorkOf(workers: map<nat, Worker>, id: nat)
    requires id in workers
    ensures Work(workers) == Left(workers[id].stage) + Work(workers - {id})
    decreases |workers|
  {
    hide Left;
    var i :| i in workers && Work(workers) == Left(workers[i].stage) + Work(workers - {i});
    if i != id {
      WorkOf(workers - {i}, id);
      WorkOf(workers - {id}, i);
      assert workers - {i} - {id} == workers - {id} - {i};
    }
  }

  lemma WorkerStepWorks(s: State, step: Step)
    requires Enabled(s, step) && WorkerStep(step)
    ensures Work(Do(s, step).workers) == Work(s.workers) - 1
  {
    hide Work, PoolIsFull, PoolIsFree, Unbooked;
    var t, id := Do(s, step), step.id;
    WorkOf(s.workers, id);
    assert t.workers - {id} == s.workers - {id};
    if id in t.workers { WorkOf(t.workers, id); } else { assert t.workers == s.workers - {id}; }
  }

  ghost predicate WorkerRun(s: State, steps: seq<Step>, t: State) {
    Run(s, steps, t) && forall i :: 0 <= i < |steps| ==> WorkerStep(steps[i])
  }

  lemma {:induction false} WorkerRunIsShort(s: State, steps: seq<Step>, t: State)
    requires WorkerRun(s, steps, t)
    ensures |steps| + Work(t.workers) == Work(s.workers)
    ensures s.main.EndParked? ==> t.main.EndParked? || t.main.EndNotified?
    ensures s.main.Parked? ==> t.main.Parked? || t.main == Notified(s.main.sock)
    ensures !MainWaits(s) ==> t.main == s.main
    decreases |steps|
  {
    hide Work, PoolIsFull, PoolIsFree, Unbooked, Enabled;
    if steps != [] {
      var a, rest := Do(s, steps[0]), steps[1..];
      WorkerStepWorks(s, steps[0]);
      WorkerStepsMain(s, steps[0]);
      assert forall i :: 0 <= i < |rest| ==> rest[i] == steps[i + 1];
      WorkerRunIsShort(a, rest, t);
    }
  }

  lemma WorkerStepsMain(s: State, step: Step)
    requires Enabled(s, step) && WorkerStep(step)
    ensures Do(s, step).main in {s.main, WakeEnd(s.main), WakeAcceptor(s.main)}
  {
  }

  /**
    Let the workers run until none of them can move, while main waits: they take exactly the
    steps they had left, they all exit, and main has been notified.
   */
  lemma WorkersFinish(size: nat, s: State, steps: seq<Step>, t: State)
    requires Reachable(size, s) && size > 0 && MainWaits(s) && WorkerRun(s, steps, t)
    requires forall step :: WorkerStep(step) ==> !Enabled(t, step)
    ensures |steps| == Work(s.workers) && t.workers == map[] && !MainWaits(t)
  {
    hide Reachable, Inv, Enabled, Run;
    ReachableInv(size, s);
    RunKeeps(s, steps, t);
    WorkerRunIsShort(s, steps, t);
    if MainWaits(t) {
      var id := WaitsForSomeone(t);
      var step := WorkerMoves(t, id);
    }
    assert t.lock.Free? by { LockIsFree(s, t); }
    forall id: nat ensures id !in t.workers {
      if id in t.workers {
        var step := WorkerMoves(t, id);
      }
    }
  }

  lemma LockIsFree(s: State, t: State)
    requires Inv(t) && MainWaits(s)
    requires t.main == s.main || t.main.EndNotified? || t.main.Notified?
    requires forall step :: WorkerStep(step) ==> !Enabled(t, step)
    ensures t.lock.Free?
  {
    hide Enabled;
    if t.lock.ByWorker? {
      var step := WorkerMoves(t, t.lock.id);
    }
  }
}
