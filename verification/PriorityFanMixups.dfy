/**
  Which runs answer exactly the given URLs, when these differ: those in which no worker takes the
  answer to another request for that of its own URL.
 */
module PriorityFanMixups {
  import opened PriorityFan
  import opened PriorityFanRuns
  import opened PriorityFanExact

  /** The worker takes an answer to another request than that of its current URL. */
  predicate Mixup(s: State, step: Step)
    requires Enabled(s, step)
  {
    step.Respond? && step.url != s.workers[step.w].phase.url
  }

  ghost predicate NoMixups(s: State, steps: seq<Step>, t: State)
    requires Run(s, steps, t)
    decreases |steps|
  {
    steps == [] || (!Mixup(s, steps[0]) && NoMixups(Do(s, steps[0]), steps[1..], t))
  }

  // ---------------------------------------------------------------------------
  // What each step does to the ledger

  function Waits(): Worker -> multiset<Url> {
    (w: Worker) => if w.phase.Waiting? then multiset{w.phase.url} else multiset{}
  }

  ghost function Awaited(s: State): multiset<Url> { Union(s.workers, Waits()) }

  /** The responses that have left their workers' requests: in a worker's hands or collected. */
  ghost function Emitted(s: State): multiset<Url>
    requires Shape(s)
  {
    Union(s.workers, Busy()) + Gathered(s)
  }

  function One(x: Url, u: Url): int { if x == u then 1 else 0 }

  /** From s to t the counts of u change by these: requests open, workers awaiting it, responses, timeouts. */
  ghost predicate Moves(s: State, t: State, u: Url, requests: int, awaited: int, responses: int, timeouts: int) {
    && Shape(s) && Shape(t)
    && Open(t)[u] == Open(s)[u] + requests && Awaited(t)[u] == Awaited(s)[u] + awaited
    && Emitted(t)[u] == Emitted(s)[u] + responses && t.timedOut[u] == s.timedOut[u] + timeouts
  }

  ghost predicate Still(s: State, t: State, u: Url) { Moves(s, t, u, 0, 0, 0, 0) }

  function WaitsIn(w: Worker): multiset<Url> { if w.phase.Waiting? then multiset{w.phase.url} else multiset{} }

  lemma CountsMove(ws: seq<Worker>, w: nat, x: Worker, u: Url)
    requires w < |ws|
    ensures Union(ws[w := x], Waits())[u] + WaitsIn(ws[w])[u] == Union(ws, Waits())[u] + WaitsIn(x)[u]
    ensures Union(ws[w := x], Pending())[u] + ws[w].pending[u] == Union(ws, Pending())[u] + x.pending[u]
    ensures Union(ws[w := x], Busy())[u] + BusyIn(ws[w])[u] == Union(ws, Busy())[u] + BusyIn(x)[u]
  {
    UnionUpdate(ws, Waits(), w, x);
    UnionUpdate(ws, Pending(), w, x);
    UnionUpdate(ws, Busy(), w, x);
    At(Union(ws[w := x], Waits()), WaitsIn(ws[w]), Union(ws, Waits()), WaitsIn(x), u);
    At(Union(ws[w := x], Pending()), ws[w].pending, Union(ws, Pending()), x.pending, u);
    At(Union(ws[w := x], Busy()), BusyIn(ws[w]), Union(ws, Busy()), BusyIn(x), u);
  }

  lemma At(a: multiset<Url>, b: multiset<Url>, c: multiset<Url>, d: multiset<Url>, u: Url)
    requires a + b == c + d
    ensures a[u] + b[u] == c[u] + d[u]
  {
    assert (a + b)[u] == (c + d)[u];
  }

  /** Only worker w changes, and the slices stay. */
  lemma OneWorkerMoves(s: State, t: State, w: nat, u: Url)
    requires Shape(s) && Shape(t) && OneChanges(s, t, w) && t.collected == s.collected
    ensures Open(t)[u] + s.workers[w].pending[u] == Open(s)[u] + t.workers[w].pending[u]
    ensures Awaited(t)[u] + WaitsIn(s.workers[w])[u] == Awaited(s)[u] + WaitsIn(t.workers[w])[u]
    ensures Emitted(t)[u] + BusyIn(s.workers[w])[u] == Emitted(s)[u] + BusyIn(t.workers[w])[u]
  {
    hide Pending, Busy, Waits, WaitsIn, BusyIn;
    CountsMove(s.workers, w, t.workers[w], u);
    SameGathered(s, t);
  }

  lemma SameGathered(s: State, t: State)
    requires Shape(s) && Shape(t) && t.collected == s.collected
    ensures Gathered(t) == Gathered(s)
  {
  }

  lemma TakeMoves(s: State, w: nat, u: Url)
    requires Enabled(s, Take(w))
    ensures var x := s.inputs[w % 3][0]; Moves(s, Do(s, Take(w)), u, One(x, u), One(x, u), 0, 0)
  {
    hide Open, Awaited, Emitted;
    OneWorkerMoves(s, Do(s, Take(w)), w, u);
  }

  lemma RespondMoves(s: State, w: nat, x: Url, code: string, u: Url)
    requires Enabled(s, Respond(w, x, code))
    ensures var v := s.workers[w].phase.url; Moves(s, Do(s, Respond(w, x, code)), u, -One(x, u), -One(v, u), One(x, u), 0)
  {
    hide Open, Awaited, Emitted;
    var t := Do(s, Respond(w, x, code));
    OneWorkerMoves(s, t, w, u);
    assert t.workers[w] == Worker(Sending(Response(code, x)), s.workers[w].pending - multiset{x});
  }

  lemma TimeoutMoves(s: State, w: nat, u: Url)
    requires Enabled(s, Timeout(w))
    ensures var v := s.workers[w].phase.url; Moves(s, Do(s, Timeout(w)), u, 0, -One(v, u), One(v, u), One(v, u))
  {
    hide Open, Awaited, Emitted;
    OneWorkerMoves(s, Do(s, Timeout(w)), w, u);
  }

  lemma ExitMoves(s: State, w: nat, u: Url)
    requires Enabled(s, Exit(w))
    ensures Still(s, Do(s, Exit(w)), u)
  {
    hide Open, Awaited, Emitted;
    if s.wg > 0 { OneWorkerMoves(s, Do(s, Exit(w)), w, u); } else { Untouched(s, Do(s, Exit(w)), u); }
  }

  lemma DeliverIs(s: State, w: nat)
    requires Enabled(s, Deliver(w)) && w % 3 >= s.closedOut
    ensures var t, p := Do(s, Deliver(w)), w % 3;
      && Shape(t) && t.workers == s.workers[w := Worker(Idle, s.workers[w].pending)] && t.timedOut == s.timedOut
      && t.collected == s.collected[p := s.collected[p] + [s.workers[w].phase.resp]]
  {
  }

  lemma DeliverMoves(s: State, w: nat, u: Url)
    requires Enabled(s, Deliver(w))
    ensures Still(s, Do(s, Deliver(w)), u)
  {
    if w % 3 < s.closedOut {
      Untouched(s, Do(s, Deliver(w)), u);
    } else {
      DeliveredMoves(s, w, u);
    }
  }

  lemma DeliveredMoves(s: State, w: nat, u: Url)
    requires Enabled(s, Deliver(w)) && w % 3 >= s.closedOut
    ensures Still(s, Do(s, Deliver(w)), u)
  {
    hide Gathered, Union, Do, Busy, Waits, Pending;
    var t := Do(s, Deliver(w));
    DeliverIs(s, w);
    CountsMove(s.workers, w, t.workers[w], u);
    GatheredChanges(s, t, w % 3, s.workers[w].phase.resp);
  }

  lemma Untouched(s: State, t: State, u: Url)
    requires Shape(s) && Shape(t) && t.workers == s.workers && t.collected == s.collected && t.timedOut == s.timedOut
    ensures Still(s, t, u)
  {
    SameGathered(s, t);
  }

  lemma OtherMoves(s: State, step: Step, u: Url)
    requires Enabled(s, step) && !OfWorker(step)
    ensures Still(s, Do(s, step), u)
  {
    hide Still, Do;
    if OfProducer(step) { ProducerLeaves(s, step); } else { MergerLeaves(s, step); }
    Untouched(s, Do(s, step), u);
  }

  // ---------------------------------------------------------------------------
  // What no step breaks, and what only a mixup breaks

  /** Every timeout of u has given a response for u. */
  ghost predicate Answered(s: State, u: Url)
    requires Shape(s)
  {
    s.timedOut[u] <= Emitted(s)[u]
  }

  /** Of the requests for u still open, all but the awaited ones are those that timed out. */
  ghost predicate Clean(s: State, u: Url) { Open(s)[u] == s.timedOut[u] + Awaited(s)[u] }

  ghost predicate Grows(s: State, t: State, u: Url) {
    && Shape(s) && Shape(t)
    && Emitted(s)[u] <= Emitted(t)[u] && (Answered(s, u) ==> Answered(t, u))
  }

  lemma StepGrows(s: State, step: Step, u: Url)
    requires Enabled(s, step)
    ensures Grows(s, Do(s, step), u)
    ensures !Mixup(s, step) && Clean(s, u) ==> Clean(Do(s, step), u)
    ensures step.Respond? ==> Emitted(Do(s, step))[step.url] == Emitted(s)[step.url] + 1
  {
    hide Open, Awaited, Emitted, Enabled, Do;
    match step
    case Take(w) => TakeMoves(s, w, u);
    case Respond(w, x, code) =>
      RespondMoves(s, w, x, code, u);
      RespondMoves(s, w, x, code, x);
    case Timeout(w) => TimeoutMoves(s, w, u);
    case Deliver(w) => DeliverMoves(s, w, u);
    case Exit(w) => ExitMoves(s, w, u);
    case _ => OtherMoves(s, step, u);
  }

  // ---------------------------------------------------------------------------
  // Whole runs

  lemma {:induction false} RunGrows(s: State, steps: seq<Step>, t: State, u: Url)
    requires Inv(s) && Run(s, steps, t)
    ensures Grows(s, t, u)
    decreases |steps|
  {
    hide Inv, Enabled, Do, Emitted;
    InvBasics(s);
    if steps != [] {
      StepKeeps(s, steps[0]);
      StepGrows(s, steps[0], u);
      RunGrows(Do(s, steps[0]), steps[1..], t, u);
    }
  }

  lemma {:induction false} RunIsClean(s: State, steps: seq<Step>, t: State, u: Url)
    requires Run(s, steps, t) && NoMixups(s, steps, t) && Clean(s, u)
    ensures Clean(t, u)
    decreases |steps|
  {
    hide Enabled, Do, Clean, Mixup;
    if steps != [] {
      StepGrows(s, steps[0], u);
      RunIsClean(Do(s, steps[0]), steps[1..], t, u);
    }
  }

  lemma UnionAt(ws: seq<Worker>, f: Worker -> multiset<Url>, x: Url)
    requires ws != []
    ensures Union(ws, f)[x] == Union(ws[..|ws| - 1], f)[x] + f(ws[|ws| - 1])[x]
  {
  }

  /** A worker awaits a URL only with a request of its own for it open. */
  lemma {:induction false} AwaitedAreOpen(ws: seq<Worker>, w: nat, x: Url)
    requires forall i: nat :: i < |ws| ==> WaitsIn(ws[i])[x] <= ws[i].pending[x]
    ensures Union(ws, Waits())[x] <= Union(ws, Pending())[x]
    ensures w < |ws| && WaitsIn(ws[w])[x] < ws[w].pending[x] ==> Union(ws, Waits())[x] < Union(ws, Pending())[x]
  {
    hide Union, Waits, Pending, WaitsIn;
    if ws == [] {
      NoWorkers();
    } else {
      var n := |ws| - 1;
      AwaitedAreOpen(ws[..n], w, x);
      UnionAt(ws, Waits(), x);
      UnionAt(ws, Pending(), x);
      WaitsAre(ws[n]);
    }
  }

  lemma NoWorkers()
    ensures Union([], Waits()) == multiset{} == Union([], Pending())
  {
  }

  lemma WaitsAre(w: Worker)
    ensures Waits()(w) == WaitsIn(w) && Pending()(w) == w.pending
  {
  }

  /** An answer that is not the worker's own is one to a request that timed out. */
  lemma StaleTimedOut(s: State, step: Step)
    requires Inv(s) && Enabled(s, step) && Mixup(s, step) && Clean(s, step.url)
    ensures s.timedOut[step.url] >= 1
  {
    hide Cargo, Control, Sorted, Union;
    var x, w := step.url, s.workers[step.w];
    forall i: nat | i < |s.workers| ensures WaitsIn(s.workers[i])[x] <= s.workers[i].pending[x] {
      assert WorkerOk(s, i);
    }
    AwaitedAreOpen(s.workers, step.w, x);
  }

  lemma {:induction false} MixupAnswersTwice(s: State, steps: seq<Step>, t: State) returns (x: Url)
    requires Inv(s) && Run(s, steps, t) && !NoMixups(s, steps, t) && forall u :: Clean(s, u) && Answered(s, u)
    ensures Shape(t) && Emitted(t)[x] >= 2
    decreases |steps|
  {
    hide Inv, Enabled, Do, Clean, Mixup, Emitted;
    var step := steps[0];
    var a := Do(s, step);
    StepKeeps(s, step);
    InvBasics(a);
    if Mixup(s, step) {
      x := MixupAnswers(s, step);
      RunGrows(a, steps[1..], t, x);
    } else {
      forall u ensures Clean(a, u) && Answered(a, u) {
        StepGrows(s, step, u);
        assert Clean(s, u) && Answered(s, u);
      }
      x := MixupAnswersTwice(a, steps[1..], t);
    }
  }

  lemma MixupAnswers(s: State, step: Step) returns (x: Url)
    requires Inv(s) && Enabled(s, step) && Mixup(s, step) && forall u :: Clean(s, u) && Answered(s, u)
    ensures Shape(Do(s, step)) && Emitted(Do(s, step))[x] >= 2
  {
    hide Inv, Do, Enabled, Emitted, Clean;
    x := step.url;
    InvBasics(s);
    assert Clean(s, x) && Answered(s, x);
    StaleTimedOut(s, step);
    StepGrows(s, step, x);
  }

  lemma StartIsClean(urls: seq<Url>, workersCnt: int, u: Url)
    requires Sendable(urls)
    ensures Clean(Init(urls, workersCnt), u) && Answered(Init(urls, workersCnt), u)
  {
    var ws := Init(urls, workersCnt).workers;
    UnionIsEmpty(ws, Pending());
    UnionIsEmpty(ws, Waits());
  }

  lemma AtTheEnd(s: State)
    requires Inv(s) && s.outClosed
    ensures Awaited(s) == multiset{} && Emitted(s) == multiset(UrlsOf(s.out))
  {
    hide Cargo, Sorted, Workers;
    Stopped(s);
    AllExited(s);
    UnionIsEmpty(s.workers, Busy());
    UnionIsEmpty(s.workers, Waits());
    var c := s.collected;
    assert UrlsOf(s.out) == UrlsOf(c[0]) + UrlsOf(c[1]) + UrlsOf(c[2]);
  }

  /** Without a mixup every URL is answered exactly as often as it was given, deadline or not. */
  lemma NoMixupsExact(urls: seq<Url>, workersCnt: int, steps: seq<Step>, t: State)
    requires Sendable(urls) && Run(Init(urls, workersCnt), steps, t) && t.outClosed
    requires NoMixups(Init(urls, workersCnt), steps, t)
    ensures Exact(t)
  {
    hide Run, NoMixups, Inv, UrlsOf, Open, Awaited, Emitted;
    var s := Init(urls, workersCnt);
    assert Reachable(urls, workersCnt, t);
    ReachableInv(urls, workersCnt, t);
    AtTheEnd(t);
    forall u ensures Open(t)[u] == t.timedOut[u] {
      StartIsClean(urls, workersCnt, u);
      RunIsClean(s, steps, t, u);
    }
    ExactlyTheUrlsIff(urls, workersCnt, t);
  }

  ghost predicate Different(urls: seq<Url>) { forall i, j :: 0 <= i < j < |urls| ==> urls[i] != urls[j] }

  lemma {:induction false} DifferentOccurOnce(urls: seq<Url>, u: Url)
    requires Different(urls)
    ensures multiset(urls)[u] <= 1
  {
    if urls != [] {
      var n := |urls| - 1;
      DifferentOccurOnce(urls[..n], u);
      assert urls == urls[..n] + [urls[n]];
    }
  }

  /** When the URLs differ, a run is exact if and only if no worker takes another request's answer. */
  lemma ExactIffNoMixups(urls: seq<Url>, workersCnt: int, steps: seq<Step>, t: State)
    requires Sendable(urls) && Different(urls) && Run(Init(urls, workersCnt), steps, t) && t.outClosed
    ensures Exact(t) <==> NoMixups(Init(urls, workersCnt), steps, t)
  {
    hide Run, NoMixups, Inv, UrlsOf, Clean, Answered, Emitted;
    var s := Init(urls, workersCnt);
    if NoMixups(s, steps, t) {
      NoMixupsExact(urls, workersCnt, steps, t);
    } else {
      assert Reachable(urls, workersCnt, t);
      ReachableInv(urls, workersCnt, t);
      InitInv(urls, workersCnt);
      forall u ensures Clean(s, u) && Answered(s, u) {
        StartIsClean(urls, workersCnt, u);
      }
      var x := MixupAnswersTwice(s, steps, t);
      AtTheEnd(t);
      DifferentOccurOnce(urls, x);
    }
  }
}
