/**
  What every run of the priority fan-out and fan-in does: no channel is misused, the output
  channel is closed in the end, and by then it has carried the responses in priority order.
 */
module PriorityFanRuns {
  import opened PriorityFan

  lemma {:induction false} RunKeeps(s: State, steps: seq<Step>, t: State)
    requires Inv(s) && Run(s, steps, t)
    ensures Inv(t) && t.urls == s.urls && |t.workers| == |s.workers|
    decreases |steps|
  {
    hide Inv, Enabled, Do;
    if steps != [] {
      StepKeeps(s, steps[0]);
      RunKeeps(Do(s, steps[0]), steps[1..], t);
    }
  }

  ghost predicate Reachable(urls: seq<Url>, workersCnt: int, t: State) {
    Sendable(urls) && exists steps :: Run(Init(urls, workersCnt), steps, t)
  }

  lemma ReachableInv(urls: seq<Url>, workersCnt: int, t: State)
    requires Reachable(urls, workersCnt, t)
    ensures Inv(t) && t.urls == urls && |t.workers| == WorkersCount(workersCnt)
  {
    hide Inv, Run;
    var steps :| Run(Init(urls, workersCnt), steps, t);
    InitInv(urls, workersCnt);
    RunKeeps(Init(urls, workersCnt), steps, t);
  }

  // ---------------------------------------------------------------------------
  // Safety

  lemma NeverPanics(urls: seq<Url>, workersCnt: int, t: State)
    requires Reachable(urls, workersCnt, t)
    ensures !t.panicked
  {
    ReachableInv(urls, workersCnt, t);
  }

  lemma {:induction false} EveryPriority(urls: seq<Url>)
    requires Sendable(urls)
    ensures Of(urls, 0) + Of(urls, 1) + Of(urls, 2) == |urls|
  {
    if urls != [] { EveryPriority(urls[..|urls| - 1]); }
  }

  /** The slices never hold more than was sent, so the output buffer has room for them. */
  lemma OutFits(s: State)
    requires Inv(s)
    ensures |All(s)| <= |s.urls| && |s.out| <= |s.urls|
  {
    hide Ledger, Workers, Sorted;
    EveryPriority(s.urls[..s.next]);
  }

  lemma Stopped(s: State)
    requires Inv(s) && s.outClosed
    ensures s.wg == 0 && s.wgMerge == 0
  {
    hide Cargo, Workers, Sorted;
    assert s.finished[0];
    assert 0 < s.closedOut;
  }

  /** When the output channel closes: every URL was answered, High before Middle before Low. */
  lemma WhenClosed(urls: seq<Url>, workersCnt: int, t: State)
    requires Reachable(urls, workersCnt, t) && t.outClosed
    ensures |t.out| == |urls| && |t.collected| == 3 && t.out == t.collected[0] + t.collected[1] + t.collected[2]
    ensures forall p: nat :: p < 3 ==> AllResponses(t.collected[p], p) && |t.collected[p]| == Of(urls, p)
    ensures forall i, j :: 0 <= i < j < |t.out| ==> t.out[i].url.priority <= t.out[j].url.priority
  {
    hide Ledger, Reachable;
    ReachableInv(urls, workersCnt, t);
    Stopped(t);
    AllExited(t);
    assert t.urls[..t.next] == urls;
    forall p: nat | p < 3 ensures |t.collected[p]| == Of(urls, p) {
      NoneActive(t, p);
      assert Counted(t, p);
    }
    EveryPriority(urls);
  }

  lemma NoneActive(s: State, p: nat)
    requires Inv(s) && s.wg == 0
    ensures Sum(s.workers, Active(p)) == 0
  {
    hide Cargo, Sorted;
    AllExited(s);
    SumIsZero(s.workers, Active(p));
  }

  /** The requests whose answers nobody has taken; abandoned, once their workers have exited. */
  ghost function Open(s: State): multiset<Url> { Union(s.workers, Pending()) }

  /**
    The URLs of the responses are the input's, less the requests whose answers nobody took, plus
    once more those that the deadline answered.
   */
  lemma ResponseUrls(urls: seq<Url>, workersCnt: int, t: State)
    requires Reachable(urls, workersCnt, t) && t.outClosed
    ensures multiset(UrlsOf(t.out)) + Open(t) == multiset(urls) + t.timedOut
    ensures |Open(t)| == |t.timedOut|
  {
    hide Reachable, Counted, Sorted, Workers;
    ReachableInv(urls, workersCnt, t);
    Stopped(t);
    AllExited(t);
    UnionIsEmpty(t.workers, Busy());
    assert t.urls[..t.next] == urls;
    var c := t.collected;
    assert UrlsOf(t.out) == UrlsOf(c[0]) + UrlsOf(c[1]) + UrlsOf(c[2]);
    assert Queued(t) == multiset{};
    WhenClosed(urls, workersCnt, t);
    assert |multiset(UrlsOf(t.out)) + Open(t)| == |multiset(urls) + t.timedOut|;
  }

  /** The responses are for exactly the given URLs iff the abandoned requests are those that timed out. */
  lemma ExactlyTheUrlsIff(urls: seq<Url>, workersCnt: int, t: State)
    requires Reachable(urls, workersCnt, t) && t.outClosed
    ensures multiset(UrlsOf(t.out)) == multiset(urls) <==> Open(t) == t.timedOut
  {
    hide Reachable, UrlsOf, Open;
    ResponseUrls(urls, workersCnt, t);
    var r, a, u, m := multiset(UrlsOf(t.out)), Open(t), multiset(urls), t.timedOut;
    forall x ensures r[x] + a[x] == u[x] + m[x] {
      assert (r + a)[x] == (u + m)[x];
    }
  }

  predicate NeverExpires(steps: seq<Step>) { forall i :: 0 <= i < |steps| ==> !steps[i].Expire? }

  lemma {:induction false} NoTimeouts(s: State, steps: seq<Step>, t: State)
    requires Inv(s) && Run(s, steps, t) && NeverExpires(steps)
    requires s.timedOut == multiset{} && (s.expired ==> s.closedOut == 3)
    ensures t.timedOut == multiset{}
    decreases |steps|
  {
    hide Inv, Enabled, Do;
    if steps != [] {
      var a, rest := Do(s, steps[0]), steps[1..];
      StepKeeps(s, steps[0]);
      NoTimeout(s, steps[0]);
      assert forall i :: 0 <= i < |rest| ==> rest[i] == steps[i + 1];
      NoTimeouts(a, rest, t);
    }
  }

  lemma NoTimeout(s: State, step: Step)
    requires Inv(s) && Enabled(s, step) && !step.Expire? && s.timedOut == multiset{} && (s.expired ==> s.closedOut == 3)
    ensures var t := Do(s, step); t.timedOut == multiset{} && (t.expired ==> t.closedOut == 3)
  {
    hide Inv, Do;
    if OfProducer(step) {
      ProducerTimesNone(s, step);
    } else if OfWorker(step) {
      if step.Timeout? { NotAllExited(s, step.w); }
      WorkerTimesNone(s, step);
    } else {
      MergerTimesNone(s, step);
    }
  }

  lemma ProducerTimesNone(s: State, step: Step)
    requires Enabled(s, step) && OfProducer(step) && !step.Expire?
    ensures var t := Do(s, step); t.timedOut == s.timedOut && t.expired == s.expired && t.closedOut == s.closedOut
  {
  }

  lemma WorkerTimesNone(s: State, step: Step)
    requires Enabled(s, step) && OfWorker(step) && !step.Timeout?
    ensures var t := Do(s, step); t.timedOut == s.timedOut && t.expired == s.expired && t.closedOut == s.closedOut
  {
    assert Do(s, step) == WorkerDoes(s, step);
    match step
    case Take(w) =>
    case Respond(w, url, code) =>
    case Deliver(w) =>
    case Exit(w) =>
  }

  lemma MergerTimesNone(s: State, step: Step)
    requires Enabled(s, step) && !OfProducer(step) && !OfWorker(step)
    ensures Do(s, step).timedOut == s.timedOut
    ensures step.CloseOutput? ==> Do(s, step).expired == s.expired && s.closedOut < 3
    ensures !step.CloseOutput? ==> Do(s, step).closedOut == s.closedOut && (Do(s, step).expired ==> s.expired || s.closedOut == 3)
  {
  }

  /** As long as the context does not expire, every URL is answered exactly as often as it was given. */
  lemma WithoutExpiry(urls: seq<Url>, workersCnt: int, steps: seq<Step>, t: State)
    requires Sendable(urls) && Run(Init(urls, workersCnt), steps, t) && NeverExpires(steps) && t.outClosed
    ensures multiset(UrlsOf(t.out)) == multiset(urls)
  {
    hide Inv, Run, UrlsOf, Open;
    InitInv(urls, workersCnt);
    NoTimeouts(Init(urls, workersCnt), steps, t);
    assert Reachable(urls, workersCnt, t);
    ResponseUrls(urls, workersCnt, t);
    assert Open(t) == multiset{};
    ExactlyTheUrlsIff(urls, workersCnt, t);
  }

  // ---------------------------------------------------------------------------
  // The steps of the producer, the collectors, the merger and the printer leave the workers alone

  ghost predicate Leaves(s: State, t: State) {
    Shape(t) && t.workers == s.workers && t.collected == s.collected && t.timedOut == s.timedOut
  }

  lemma ProducerLeaves(s: State, step: Step)
    requires Enabled(s, step) && OfProducer(step)
    ensures Leaves(s, Do(s, step))
  {
  }

  lemma MergerLeaves(s: State, step: Step)
    requires Enabled(s, step) && !OfProducer(step) && !OfWorker(step)
    ensures Leaves(s, Do(s, step))
  {
  }

  // ---------------------------------------------------------------------------
  // Every run ends, and with the output closed

  function B(b: bool): int { if b then 0 else 1 }

  function Rank(s: State): int
    requires Shape(s)
  {
    Sum(s.workers, Effort()) + Rest(s)
  }

  /** What the producer, the channels, the collectors, the merger and the printer still have to do. */
  function Rest(s: State): int
    requires Shape(s)
  {
    4 * (|s.urls| - s.next) + 3 * (|s.inputs[0]| + |s.inputs[1]| + |s.inputs[2]|)
    + (3 - s.closedIn) + B(s.produced) + (3 - s.closedOut) + B(s.cancelled) + s.wgMerge
    + (|s.urls| - |s.out|) + B(s.outClosed) + (|s.urls| - s.printed) + B(s.expired)
  }

  lemma RankIsNat(s: State)
    requires Inv(s)
    ensures Rank(s) >= 0
  {
    hide Cargo, Workers, Sorted, Sum;
    OutFits(s);
  }

  lemma TakeRanks(s: State, w: nat)
    requires Enabled(s, Take(w)) && !s.panicked && !Do(s, Take(w)).panicked
    ensures Rank(Do(s, Take(w))) < Rank(s)
  {
    SumUpdate(s.workers, Effort(), w, Do(s, Take(w)).workers[w]);
  }

  lemma RespondRanks(s: State, w: nat, url: Url, code: string)
    requires Enabled(s, Respond(w, url, code)) && !s.panicked && !Do(s, Respond(w, url, code)).panicked
    ensures Rank(Do(s, Respond(w, url, code))) < Rank(s)
  {
    SumUpdate(s.workers, Effort(), w, Do(s, Respond(w, url, code)).workers[w]);
  }

  lemma TimeoutRanks(s: State, w: nat)
    requires Enabled(s, Timeout(w)) && !s.panicked && !Do(s, Timeout(w)).panicked
    ensures Rank(Do(s, Timeout(w))) < Rank(s)
  {
    SumUpdate(s.workers, Effort(), w, Do(s, Timeout(w)).workers[w]);
  }

  lemma DeliverRanks(s: State, w: nat)
    requires Enabled(s, Deliver(w)) && !s.panicked && !Do(s, Deliver(w)).panicked
    ensures Rank(Do(s, Deliver(w))) < Rank(s)
  {
    hide Sum;
    var t, p := Do(s, Deliver(w)), w % 3;
    assert t == Set(s, w, Idle, s.workers[w].pending).(collected := s.collected[p := s.collected[p] + [s.workers[w].phase.resp]]);
    SumUpdate(s.workers, Effort(), w, t.workers[w]);
  }

  lemma ExitRanks(s: State, w: nat)
    requires Enabled(s, Exit(w)) && !s.panicked && !Do(s, Exit(w)).panicked
    ensures Rank(Do(s, Exit(w))) < Rank(s)
  {
    hide Sum;
    var t := Do(s, Exit(w));
    assert t == Set(s, w, Exited, s.workers[w].pending).(wg := s.wg - 1);
    SumUpdate(s.workers, Effort(), w, t.workers[w]);
  }

  lemma ProducerRanks(s: State, step: Step)
    requires Enabled(s, step) && OfProducer(step) && !s.panicked && !Do(s, step).panicked
    ensures Rank(Do(s, step)) < Rank(s)
  {
    assert Do(s, step).workers == s.workers;
  }

  lemma MergerRanks(s: State, step: Step)
    requires Enabled(s, step) && !OfProducer(step) && !OfWorker(step) && !s.panicked && !Do(s, step).panicked
    ensures Rank(Do(s, step)) < Rank(s)
  {
    assert Do(s, step).workers == s.workers;
  }

  lemma RankFalls(s: State, step: Step)
    requires Inv(s) && Enabled(s, step) && Inv(Do(s, step))
    ensures Rank(Do(s, step)) < Rank(s)
  {
    hide Cargo, Workers, Sorted, Rank, Do, Enabled;
    match step
    case Take(w) => TakeRanks(s, w);
    case Respond(w, url, code) => RespondRanks(s, w, url, code);
    case Timeout(w) => TimeoutRanks(s, w);
    case Deliver(w) => DeliverRanks(s, w);
    case Exit(w) => ExitRanks(s, w);
    case _ => if OfProducer(step) { ProducerRanks(s, step); } else { MergerRanks(s, step); }
  }

  lemma {:induction false} RunIsShort(s: State, steps: seq<Step>, t: State)
    requires Inv(s) && Run(s, steps, t)
    ensures Inv(t) && |steps| + Rank(t) <= Rank(s)
    decreases |steps|
  {
    hide Inv, Enabled, Do, Rank;
    if steps != [] {
      StepKeeps(s, steps[0]);
      RankFalls(s, steps[0]);
      RunIsShort(Do(s, steps[0]), steps[1..], t);
    }
  }

  /** A worker with something to do can do it. */
  lemma WorkerMoves(s: State, w: nat) returns (step: Step)
    requires Inv(s) && w < |s.workers| && !s.workers[w].phase.Exited?
    requires s.workers[w].phase.Idle? ==> s.inputs[w % 3] != []
    ensures Enabled(s, step) && !step.Expire? && !step.Print?
  {
    hide Cargo, Sorted, Sum;
    NotAllExited(s, w);
    assert WorkerOk(s, w);
    match s.workers[w].phase
    case Idle => step := Take(w);
    case Waiting(_) =>
      var u :| u in s.workers[w].pending;
      step := Respond(w, u, "");
    case Sending(_) => step := Deliver(w);
  }

  lemma ProducerMoves(s: State) returns (step: Step)
    requires Inv(s) && s.closedIn < 3
    ensures Enabled(s, step) && !step.Expire? && !step.Print?
  {
    hide Cargo, Sorted, Sum;
    if s.next == |s.urls| { return CloseInput; }
    var p := s.urls[s.next].priority;
    if |s.inputs[p]| < |s.workers| { return Produce; }
    assert WorkerOk(s, p) && p % 3 == p;
    step := WorkerMoves(s, p);
  }

  lemma EndMoves(s: State) returns (step: Step)
    requires Inv(s) && !s.outClosed && s.closedIn == 3 && forall w: nat :: w < |s.workers| ==> s.workers[w].phase.Exited?
    ensures Enabled(s, step) && !step.Expire? && !step.Print?
  {
    hide Cargo, Sorted, Workers;
    SumIsZero(s.workers, Living());
    OutFits(s);
    if !s.produced { return FinishProducing; }
    if s.closedOut < 3 { return CloseOutput; }
    if !s.finished[0] { return FinishCollecting(0); }
    if !s.finished[1] { return FinishCollecting(1); }
    if !s.finished[2] { return FinishCollecting(2); }
    if |s.out| < |All(s)| { return Fill; }
    return CloseOut;
  }

  lemma NoDeadlock(s: State) returns (step: Step)
    requires Inv(s) && !s.outClosed
    ensures Enabled(s, step) && !step.Expire? && !step.Print?
  {
    hide Cargo, Sorted, Sum, WorkerOk;
    if s.closedIn < 3 {
      step := ProducerMoves(s);
    } else if w: nat :| w < |s.workers| && !s.workers[w].phase.Exited? {
      if s.workers[w].phase.Idle? && s.inputs[w % 3] == [] { return Exit(w); }
      step := WorkerMoves(s, w);
    } else {
      step := EndMoves(s);
    }
  }

  lemma {:induction false} InitialEffort(ws: seq<Worker>)
    requires forall i :: 0 <= i < |ws| ==> ws[i].phase.Idle?
    ensures Sum(ws, Effort()) == |ws|
  {
    if ws != [] { InitialEffort(ws[..|ws| - 1]); }
  }

  /**
    Every run is short, and one that cannot go on has closed the output channel and printed all
    of it, whatever the interleaving and whenever the deadline strikes.
   */
  lemma EveryRunCloses(urls: seq<Url>, workersCnt: int, steps: seq<Step>, t: State)
    requires Sendable(urls) && Run(Init(urls, workersCnt), steps, t)
    ensures |steps| <= 6 * |urls| + WorkersCount(workersCnt) + 14
    ensures (forall step :: Enabled(t, step) ==> step.Expire?) ==> t.outClosed && t.printed == |t.out| == |urls|
  {
    hide Inv, Run, Enabled;
    var s := Init(urls, workersCnt);
    InitInv(urls, workersCnt);
    InitialEffort(s.workers);
    RunIsShort(s, steps, t);
    RankIsNat(t);
    if forall step :: Enabled(t, step) ==> step.Expire? {
      if !t.outClosed {
        var step := NoDeadlock(t);
      }
      assert Reachable(urls, workersCnt, t);
      WhenClosed(urls, workersCnt, t);
      PrintMoves(t);
    }
  }

  lemma PrintMoves(s: State)
    requires Inv(s)
    ensures s.printed == |s.out| || Enabled(s, Print)
  {
  }
}
