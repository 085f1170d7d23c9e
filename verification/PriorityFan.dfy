/**
  The priority fan-out and fan-in of the URL validator, as interleaved steps of its goroutines:
  one producer, the workers of each priority, the requests they start, the goroutine that
  closes the response channels, one collector per priority, the merger and the printer.

  Channels are sequences; an unbuffered send happens together with its receive. A send on a
  closed channel and a wait group going below zero set `panicked`; each channel has one closer.
 */
module PriorityFan {

  datatype Url = Url(name: string, priority: nat)
  datatype Response = Response(code: string, url: Url)

  /** A worker, and the requests it started whose answers nobody has received. */
  datatype Phase = Idle | Waiting(url: Url) | Sending(resp: Response) | Exited
  datatype Worker = Worker(phase: Phase, pending: multiset<Url>)

  datatype State = State(
    urls: seq<Url>, next: nat, inputs: seq<seq<Url>>, closedIn: nat, produced: bool,
    workers: seq<Worker>, wg: nat,
    closedOut: nat, collected: seq<seq<Response>>, finished: seq<bool>, wgMerge: nat,
    out: seq<Response>, outClosed: bool, printed: nat,
    expired: bool, cancelled: bool, timedOut: multiset<Url>, panicked: bool)

  datatype Step =
    | Expire | Produce | CloseInput | FinishProducing
    | Take(w: nat) | Respond(w: nat, url: Url, code: string) | Timeout(w: nat) | Deliver(w: nat) | Exit(w: nat)
    | CloseOutput | Cancel | FinishCollecting(p: nat) | Fill | CloseOut | Print

  const TIMEOUT_CODE := "500 Internal Server Error"

  // ---------------------------------------------------------------------------
  // Steps

  function WorkersCount(workersCnt: int): (n: nat)
    ensures n >= 3 && n >= workersCnt && (n == 3 || n == workersCnt)
  {
    if workersCnt < 3 then 3 else workersCnt
  }

  function Init(urls: seq<Url>, workersCnt: int): State {
    var n := WorkersCount(workersCnt);
    State(urls, 0, [[], [], []], 0, false, seq(n, _ => Worker(Idle, multiset{})), n + 1,
          0, [[], [], []], [false, false, false], 3, [], false, 0, false, false, multiset{}, false)
  }

  /** Everything the collectors have appended, highest priority first. */
  function All(s: State): seq<Response>
    requires |s.collected| == 3
  {
    s.collected[0] + s.collected[1] + s.collected[2]
  }

  predicate Shape(s: State) { |s.inputs| == 3 && |s.collected| == 3 && |s.finished| == 3 && |s.workers| >= 3 }

  predicate OfProducer(step: Step) { step.Expire? || step.Produce? || step.CloseInput? || step.FinishProducing? }

  predicate OfWorker(step: Step) { step.Take? || step.Respond? || step.Timeout? || step.Deliver? || step.Exit? }

  predicate ProducerMay(s: State, step: Step)
    requires Shape(s) && OfProducer(step)
  {
    match step
    case Expire => !s.expired
    case Produce => s.next < |s.urls| && s.urls[s.next].priority < 3
                    && |s.inputs[s.urls[s.next].priority]| < |s.workers|
    case CloseInput => s.next == |s.urls| && !s.produced && s.closedIn < 3
    case FinishProducing => s.closedIn == 3 && !s.produced
  }

  predicate WorkerMay(s: State, step: Step)
    requires Shape(s) && OfWorker(step)
  {
    && step.w < |s.workers|
    && match step
       case Take(w) => s.workers[w].phase.Idle? && s.inputs[w % 3] != []
       case Respond(w, url, _) => s.workers[w].phase.Waiting? && url in s.workers[w].pending
       case Timeout(w) => s.workers[w].phase.Waiting? && s.expired
       case Deliver(w) => s.workers[w].phase.Sending? && (!s.finished[w % 3] || w % 3 < s.closedOut)
       case Exit(w) => s.workers[w].phase.Idle? && s.inputs[w % 3] == [] && w % 3 < s.closedIn
  }

  predicate MergerMay(s: State, step: Step)
    requires Shape(s) && !OfProducer(step) && !OfWorker(step)
  {
    match step
    case CloseOutput => s.wg == 0 && s.closedOut < 3
    case Cancel => s.closedOut == 3 && !s.cancelled
    case FinishCollecting(p) => p < 3 && !s.finished[p] && p < s.closedOut
    case Fill => s.wgMerge == 0 && !s.outClosed && |s.out| < |All(s)| && |s.out| < s.printed + |s.urls|
    case CloseOut => s.wgMerge == 0 && !s.outClosed && |s.out| >= |All(s)|
    case Print => s.printed < |s.out|
  }

  predicate Enabled(s: State, step: Step) {
    && Shape(s)
    && if OfProducer(step) then ProducerMay(s, step) else if OfWorker(step) then WorkerMay(s, step) else MergerMay(s, step)
  }

  function Panic(s: State): State { s.(panicked := true) }

  function Set(s: State, w: nat, phase: Phase, pending: multiset<Url>): State
    requires w < |s.workers|
  {
    s.(workers := s.workers[w := Worker(phase, pending)])
  }

  function ProducerDoes(s: State, step: Step): State
    requires Shape(s) && OfProducer(step) && ProducerMay(s, step)
  {
    match step
    case Expire => s.(expired := true)
    case Produce =>
      var url := s.urls[s.next];
      if url.priority < s.closedIn then Panic(s)
      else s.(next := s.next + 1, inputs := s.inputs[url.priority := s.inputs[url.priority] + [url]])
    case CloseInput => s.(closedIn := s.closedIn + 1)
    case FinishProducing => if s.wg == 0 then Panic(s) else s.(produced := true, wg := s.wg - 1)
  }

  function WorkerDoes(s: State, step: Step): State
    requires Shape(s) && OfWorker(step) && WorkerMay(s, step)
  {
    match step
    case Take(w) =>
      var url := s.inputs[w % 3][0];
      Set(s, w, Waiting(url), s.workers[w].pending + multiset{url}).(inputs := s.inputs[w % 3 := s.inputs[w % 3][1..]])
    case Respond(w, url, code) => Set(s, w, Sending(Response(code, url)), s.workers[w].pending - multiset{url})
    case Timeout(w) =>
      var url := s.workers[w].phase.url;
      Set(s, w, Sending(Response(TIMEOUT_CODE, url)), s.workers[w].pending).(timedOut := s.timedOut + multiset{url})
    case Deliver(w) =>
      if w % 3 < s.closedOut then Panic(s)
      else Set(s, w, Idle, s.workers[w].pending)
           .(collected := s.collected[w % 3 := s.collected[w % 3] + [s.workers[w].phase.resp]])
    case Exit(w) => if s.wg == 0 then Panic(s) else Set(s, w, Exited, s.workers[w].pending).(wg := s.wg - 1)
  }

  function MergerDoes(s: State, step: Step): State
    requires Shape(s) && !OfProducer(step) && !OfWorker(step) && MergerMay(s, step)
  {
    match step
    case CloseOutput => s.(closedOut := s.closedOut + 1)
    case Cancel => s.(expired := true, cancelled := true)
    case FinishCollecting(p) => if s.wgMerge == 0 then Panic(s) else s.(finished := s.finished[p := true], wgMerge := s.wgMerge - 1)
    case Fill => s.(out := s.out + [All(s)[|s.out|]])
    case CloseOut => s.(outClosed := true)
    case Print => s.(printed := s.printed + 1)
  }

  function Do(s: State, step: Step): State
    requires Enabled(s, step)
  {
    if OfProducer(step) then ProducerDoes(s, step) else if OfWorker(step) then WorkerDoes(s, step) else MergerDoes(s, step)
  }

  ghost predicate Run(s: State, steps: seq<Step>, t: State)
    decreases |steps|
  {
    if steps == [] then s == t else Enabled(s, steps[0]) && Run(Do(s, steps[0]), steps[1..], t)
  }

  // ---------------------------------------------------------------------------
  // Sums over the workers

  function Sum(ws: seq<Worker>, f: (nat, Worker) -> nat): nat {
    if ws == [] then 0 else Sum(ws[..|ws| - 1], f) + f(|ws| - 1, ws[|ws| - 1])
  }

  function Union(ws: seq<Worker>, f: Worker -> multiset<Url>): multiset<Url> {
    if ws == [] then multiset{} else Union(ws[..|ws| - 1], f) + f(ws[|ws| - 1])
  }

  lemma {:induction false} SumUpdate(ws: seq<Worker>, f: (nat, Worker) -> nat, w: nat, x: Worker)
    requires w < |ws|
    ensures Sum(ws[w := x], f) + f(w, ws[w]) == Sum(ws, f) + f(w, x)
  {
    var n := |ws| - 1;
    if w < n {
      SumUpdate(ws[..n], f, w, x);
      assert ws[w := x][..n] == ws[..n][w := x];
    } else {
      assert ws[w := x][..n] == ws[..n];
    }
  }

  lemma {:induction false} UnionUpdate(ws: seq<Worker>, f: Worker -> multiset<Url>, w: nat, x: Worker)
    requires w < |ws|
    ensures Union(ws[w := x], f) + f(ws[w]) == Union(ws, f) + f(x)
  {
    var n := |ws| - 1;
    if w < n {
      UnionUpdate(ws[..n], f, w, x);
      assert ws[w := x][..n] == ws[..n][w := x];
      var a, b := Union(ws[..n][w := x], f), Union(ws[..n], f);
      assert (a + f(ws[n])) + f(ws[w]) == (a + f(ws[w])) + f(ws[n]);
      assert (b + f(ws[n])) + f(x) == (b + f(x)) + f(ws[n]);
    } else {
      assert ws[w := x][..n] == ws[..n];
    }
  }

  lemma {:induction false} SumIsZero(ws: seq<Worker>, f: (nat, Worker) -> nat)
    ensures Sum(ws, f) == 0 <==> forall i: nat :: i < |ws| ==> f(i, ws[i]) == 0
  {
    if ws != [] {
      var n := |ws| - 1;
      SumIsZero(ws[..n], f);
      assert forall i: nat :: i < n ==> ws[..n][i] == ws[i];
      if forall i: nat :: i < n ==> f(i, ws[..n][i]) == 0 {
        assert Sum(ws[..n], f) == 0;
      }
    }
  }

  lemma {:induction false} UnionIsEmpty(ws: seq<Worker>, f: Worker -> multiset<Url>)
    requires forall i: nat :: i < |ws| ==> f(ws[i]) == multiset{}
    ensures Union(ws, f) == multiset{}
  {
    if ws != [] { UnionIsEmpty(ws[..|ws| - 1], f); }
  }

  function Active(p: nat): (nat, Worker) -> nat {
    (i: nat, w: Worker) => if i % 3 == p && (w.phase.Waiting? || w.phase.Sending?) then 1 else 0
  }

  function Living(): (nat, Worker) -> nat { (i: nat, w: Worker) => if w.phase.Exited? then 0 else 1 }

  function Effort(): (nat, Worker) -> nat {
    (i: nat, w: Worker) => match w.phase case Idle => 1 case Waiting(_) => 3 case Sending(_) => 2 case Exited => 0
  }

  function Pending(): Worker -> multiset<Url> { (w: Worker) => w.pending }

  function Busy(): Worker -> multiset<Url> {
    (w: Worker) => if w.phase.Sending? then multiset{w.phase.resp.url} else multiset{}
  }

  // ---------------------------------------------------------------------------
  // The invariant

  function UrlsOf(rs: seq<Response>): seq<Url> { seq(|rs|, i requires 0 <= i < |rs| => rs[i].url) }

  /** How many of the URLs have priority `p`. */
  function Of(urls: seq<Url>, p: nat): (n: nat)
    ensures n <= |urls|
  {
    if urls == [] then 0 else Of(urls[..|urls| - 1], p) + if urls[|urls| - 1].priority == p then 1 else 0
  }

  predicate Sendable(urls: seq<Url>) { forall i :: 0 <= i < |urls| ==> urls[i].priority < 3 }

  /** The goroutines' control: who has closed what, and what the wait groups count. */
  ghost predicate Control(s: State) {
    && Shape(s) && !s.panicked && Sendable(s.urls)
    && s.next <= |s.urls| && s.closedIn <= 3 && (s.closedIn > 0 ==> s.next == |s.urls|) && (s.produced ==> s.closedIn == 3)
    && s.wg == Sum(s.workers, Living()) + (if s.produced then 0 else 1)
    && s.closedOut <= 3 && (s.closedOut > 0 ==> s.wg == 0)
    && (forall p: nat :: p < 3 && s.finished[p] ==> p < s.closedOut)
    && s.wgMerge == (if s.finished[0] then 0 else 1) + (if s.finished[1] then 0 else 1) + (if s.finished[2] then 0 else 1)
    && (|s.out| > 0 || s.outClosed ==> s.wgMerge == 0)
    && s.out <= All(s) && (s.outClosed ==> |s.out| == |All(s)|) && s.printed <= |s.out|
  }

  ghost predicate WorkerOk(s: State, i: nat)
    requires Shape(s) && i < |s.workers|
  {
    var w := s.workers[i];
    && (w.phase.Exited? ==> s.inputs[i % 3] == [] && i % 3 < s.closedIn)
    && (w.phase.Waiting? ==> w.phase.url in w.pending && w.phase.url.priority == i % 3)
    && (w.phase.Sending? ==> w.phase.resp.url.priority == i % 3)
    && (forall u :: u in w.pending ==> u.priority == i % 3)
  }

  ghost predicate Workers(s: State)
    requires Shape(s)
  {
    forall i: nat :: i < |s.workers| ==> WorkerOk(s, i)
  }

  /** Every channel and every slice holds only its own priority. */
  ghost predicate Sorted(s: State)
    requires Shape(s)
  {
    forall p: nat :: p < 3 ==> AllUrls(s.inputs[p], p) && AllResponses(s.collected[p], p)
  }

  predicate AllUrls(urls: seq<Url>, p: nat) { forall i :: 0 <= i < |urls| ==> urls[i].priority == p }

  predicate AllResponses(rs: seq<Response>, p: nat) { forall i :: 0 <= i < |rs| ==> rs[i].url.priority == p }

  ghost predicate Counted(s: State, p: nat)
    requires Shape(s) && s.next <= |s.urls| && p < 3
  {
    |s.inputs[p]| + Sum(s.workers, Active(p)) + |s.collected[p]| == Of(s.urls[..s.next], p)
  }

  ghost function Queued(s: State): multiset<Url>
    requires Shape(s)
  {
    multiset(s.inputs[0]) + multiset(s.inputs[1]) + multiset(s.inputs[2])
  }

  ghost function Gathered(s: State): multiset<Url>
    requires Shape(s)
  {
    multiset(UrlsOf(s.collected[0])) + multiset(UrlsOf(s.collected[1])) + multiset(UrlsOf(s.collected[2]))
  }

  ghost function InFlight(s: State): multiset<Url>
    requires Shape(s)
  {
    Queued(s) + Union(s.workers, Pending()) + Union(s.workers, Busy()) + Gathered(s)
  }

  /** What was sent, plus what the deadline answered, is what is still anywhere on its way or collected. */
  ghost predicate Ledger(s: State)
    requires Shape(s) && s.next <= |s.urls|
  {
    multiset(s.urls[..s.next]) + s.timedOut == InFlight(s)
  }

  ghost predicate Inv(s: State) {
    Control(s) && Workers(s) && Sorted(s) && Cargo(s) && Given(s)
  }

  /** Only URLs of the input time out. */
  ghost predicate Given(s: State) { forall u :: u in s.timedOut ==> u in s.urls }

  // ---------------------------------------------------------------------------
  // What the wait groups mean

  lemma AllExited(s: State)
    requires Inv(s) && s.wg == 0
    ensures s.produced && s.closedIn == 3 && s.next == |s.urls|
    ensures forall i: nat :: i < |s.workers| ==> s.workers[i].phase.Exited?
    ensures forall p: nat :: p < 3 ==> s.inputs[p] == []
  {
    hide Counted, Ledger, Sorted;
    SumIsZero(s.workers, Living());
    forall i: nat | i < |s.workers| ensures s.workers[i].phase.Exited? {
      assert Living()(i, s.workers[i]) == 0;
    }
    forall p: nat | p < 3 ensures s.inputs[p] == [] {
      assert WorkerOk(s, p) && p % 3 == p;
    }
  }

  lemma NotAllExited(s: State, w: nat)
    requires Inv(s) && w < |s.workers| && !s.workers[w].phase.Exited?
    ensures s.wg > 0 && s.closedOut == 0 && s.wgMerge == 3 && s.out == [] && !s.outClosed
  {
    hide Counted, Ledger, Sorted;
    if s.wg == 0 { AllExited(s); }
  }

  // ---------------------------------------------------------------------------
  // Every step keeps it

  predicate SameShape(s: State, t: State) { t.urls == s.urls && |t.workers| == |s.workers| }

  ghost predicate Cargo(s: State)
    requires Shape(s) && s.next <= |s.urls|
  {
    Counted(s, 0) && Counted(s, 1) && Counted(s, 2) && Ledger(s)
  }

  /** The steps that move no URL and no response. */
  lemma CargoFrame(s: State, t: State)
    requires Shape(s) && s.next <= |s.urls| && Cargo(s) && Workers(s)
    requires t.urls == s.urls && t.next == s.next && t.inputs == s.inputs && t.workers == s.workers
    requires t.collected == s.collected && t.timedOut == s.timedOut && Shape(t) && t.closedIn >= s.closedIn
    ensures Cargo(t) && Workers(t)
  {
    forall i: nat | i < |t.workers| ensures WorkerOk(t, i) {
      assert WorkerOk(s, i);
    }
  }

  lemma InitInv(urls: seq<Url>, workersCnt: int)
    requires Sendable(urls)
    ensures Inv(Init(urls, workersCnt))
  {
    var s := Init(urls, workersCnt);
    var n := |s.workers|;
    SumIsZero(s.workers, Active(0));
    SumIsZero(s.workers, Active(1));
    SumIsZero(s.workers, Active(2));
    UnionIsEmpty(s.workers, Pending());
    UnionIsEmpty(s.workers, Busy());
    LivingAll(s.workers);
  }

  lemma {:induction false} LivingAll(ws: seq<Worker>)
    requires forall i :: 0 <= i < |ws| ==> !ws[i].phase.Exited?
    ensures Sum(ws, Living()) == |ws|
  {
    if ws != [] { LivingAll(ws[..|ws| - 1]); }
  }

  lemma ExpireKeeps(s: State)
    requires Inv(s) && Enabled(s, Expire)
    ensures Inv(Do(s, Expire)) && SameShape(s, Do(s, Expire))
  {
    hide Counted, Ledger, Living;
    var t := Do(s, Expire);
    CargoFrame(s, t);
  }

  lemma CloseInputKeeps(s: State)
    requires Inv(s) && Enabled(s, CloseInput)
    ensures Inv(Do(s, CloseInput)) && SameShape(s, Do(s, CloseInput))
  {
    hide Counted, Ledger, Living;
    var t := Do(s, CloseInput);
    CargoFrame(s, t);
  }

  lemma FinishProducingKeeps(s: State)
    requires Inv(s) && Enabled(s, FinishProducing)
    ensures Inv(Do(s, FinishProducing)) && SameShape(s, Do(s, FinishProducing))
  {
    hide Counted, Ledger, Living;
    var t := Do(s, FinishProducing);
    CargoFrame(s, t);
  }

  lemma CloseOutputKeeps(s: State)
    requires Inv(s) && Enabled(s, CloseOutput)
    ensures Inv(Do(s, CloseOutput)) && SameShape(s, Do(s, CloseOutput))
  {
    hide Counted, Ledger, Living;
    var t := Do(s, CloseOutput);
    CargoFrame(s, t);
  }

  lemma CancelKeeps(s: State)
    requires Inv(s) && Enabled(s, Cancel)
    ensures Inv(Do(s, Cancel)) && SameShape(s, Do(s, Cancel))
  {
    hide Counted, Ledger, Living;
    var t := Do(s, Cancel);
    CargoFrame(s, t);
  }

  lemma FinishCollectingKeeps(s: State, p: nat)
    requires Inv(s) && Enabled(s, FinishCollecting(p))
    ensures Inv(Do(s, FinishCollecting(p))) && SameShape(s, Do(s, FinishCollecting(p)))
  {
    hide Counted, Ledger, Living;
    var t := Do(s, FinishCollecting(p));
    CargoFrame(s, t);
  }

  lemma FillKeeps(s: State)
    requires Inv(s) && Enabled(s, Fill)
    ensures Inv(Do(s, Fill)) && SameShape(s, Do(s, Fill))
  {
    hide Counted, Ledger, Living;
    var t := Do(s, Fill);
    CargoFrame(s, t);
  }

  lemma CloseOutKeeps(s: State)
    requires Inv(s) && Enabled(s, CloseOut)
    ensures Inv(Do(s, CloseOut)) && SameShape(s, Do(s, CloseOut))
  {
    hide Counted, Ledger, Living;
    var t := Do(s, CloseOut);
    CargoFrame(s, t);
  }

  lemma PrintKeeps(s: State)
    requires Inv(s) && Enabled(s, Print)
    ensures Inv(Do(s, Print)) && SameShape(s, Do(s, Print))
  {
    hide Counted, Ledger, Living;
    var t := Do(s, Print);
    CargoFrame(s, t);
  }

  // ---------------------------------------------------------------------------
  // Steps that move a URL or a response

  function ActiveIn(w: Worker): nat { if w.phase.Waiting? || w.phase.Sending? then 1 else 0 }

  function BusyIn(w: Worker): multiset<Url> { if w.phase.Sending? then multiset{w.phase.resp.url} else multiset{} }

  /** How the sums change when worker `w` becomes `x`. */
  lemma WorkerChanges(ws: seq<Worker>, w: nat, x: Worker)
    requires w < |ws|
    ensures forall p: nat :: Sum(ws[w := x], Active(p)) + (if w % 3 == p then ActiveIn(ws[w]) else 0)
                          == Sum(ws, Active(p)) + (if w % 3 == p then ActiveIn(x) else 0)
    ensures Union(ws[w := x], Pending()) + ws[w].pending == Union(ws, Pending()) + x.pending
    ensures Union(ws[w := x], Busy()) + BusyIn(ws[w]) == Union(ws, Busy()) + BusyIn(x)
    ensures x.phase.Exited? == ws[w].phase.Exited? ==> Sum(ws[w := x], Living()) == Sum(ws, Living())
    ensures x.phase.Exited? && !ws[w].phase.Exited? ==> Sum(ws[w := x], Living()) + 1 == Sum(ws, Living())
  {
    forall p: nat ensures Sum(ws[w := x], Active(p)) + (if w % 3 == p then ActiveIn(ws[w]) else 0)
                       == Sum(ws, Active(p)) + (if w % 3 == p then ActiveIn(x) else 0) {
      SumUpdate(ws, Active(p), w, x);
    }
    UnionUpdate(ws, Pending(), w, x);
    UnionUpdate(ws, Busy(), w, x);
    SumUpdate(ws, Living(), w, x);
  }

  lemma QueueChanges(s: State, t: State, p: nat)
    requires Shape(s) && Shape(t) && p < 3 && t.inputs == s.inputs[p := t.inputs[p]]
    ensures Queued(t) + multiset(s.inputs[p]) == Queued(s) + multiset(t.inputs[p])
  {
  }

  lemma GatheredChanges(s: State, t: State, p: nat, r: Response)
    requires Shape(s) && Shape(t) && p < 3 && t.collected == s.collected[p := s.collected[p] + [r]]
    ensures Gathered(t) == Gathered(s) + multiset{r.url}
  {
    assert UrlsOf(s.collected[p] + [r]) == UrlsOf(s.collected[p]) + [r.url];
  }

  predicate OneChanges(s: State, t: State, w: nat) {
    w < |s.workers| == |t.workers| && t.workers == s.workers[w := t.workers[w]]
  }

  /** Worker `w` alone changes, and no URL leaves or enters the input channels and the slices. */
  lemma WorkersKeep(s: State, t: State, w: nat)
    requires Shape(s) && Workers(s) && OneChanges(s, t, w)
    requires t.inputs == s.inputs && t.closedIn == s.closedIn && Shape(t) && WorkerOk(t, w)
    ensures Workers(t)
  {
    forall i: nat | i < |t.workers| ensures WorkerOk(t, i) {
      if i != w { assert WorkerOk(s, i); }
    }
  }

  lemma Balance(a: multiset<Url>, q: multiset<Url>, p: multiset<Url>, b: multiset<Url>, g: multiset<Url>,
                a1: multiset<Url>, q1: multiset<Url>, p1: multiset<Url>, b1: multiset<Url>, g1: multiset<Url>,
                oq: multiset<Url>, nq: multiset<Url>, op: multiset<Url>, np: multiset<Url>,
                ob: multiset<Url>, nb: multiset<Url>, na: multiset<Url>, ng: multiset<Url>)
    requires a == q + p + b + g
    requires q1 + oq == q + nq && p1 + op == p + np && b1 + ob == b + nb && a1 == a + na && g1 == g + ng
    requires oq + op + ob + na == nq + np + nb + ng
    ensures a1 == q1 + p1 + b1 + g1
  {
    forall u ensures a1[u] == (q1 + p1 + b1 + g1)[u] {
      assert (q1 + oq)[u] == (q + nq)[u] && (p1 + op)[u] == (p + np)[u] && (b1 + ob)[u] == (b + nb)[u];
      assert (oq + op + ob + na)[u] == (nq + np + nb + ng)[u];
    }
  }

  /** What worker `w` gives up and takes on, what the channels and slices give and take, must balance. */
  lemma LedgerMoves(s: State, t: State, w: nat, oq: multiset<Url>, nq: multiset<Url>, na: multiset<Url>, ng: multiset<Url>)
    requires Shape(s) && Shape(t) && s.next <= |s.urls| && t.next <= |t.urls| && Ledger(s) && OneChanges(s, t, w)
    requires Queued(t) + oq == Queued(s) + nq && Gathered(t) == Gathered(s) + ng
    requires multiset(t.urls[..t.next]) + t.timedOut == multiset(s.urls[..s.next]) + s.timedOut + na
    requires oq + s.workers[w].pending + BusyIn(s.workers[w]) + na == nq + t.workers[w].pending + BusyIn(t.workers[w]) + ng
    ensures Ledger(t)
  {
    hide Queued, Gathered, Pending, Busy, BusyIn, Active, Living;
    WorkerChanges(s.workers, w, t.workers[w]);
    Balance(multiset(s.urls[..s.next]) + s.timedOut, Queued(s), Union(s.workers, Pending()), Union(s.workers, Busy()), Gathered(s),
            multiset(t.urls[..t.next]) + t.timedOut, Queued(t), Union(t.workers, Pending()), Union(t.workers, Busy()), Gathered(t),
            oq, nq, s.workers[w].pending, t.workers[w].pending, BusyIn(s.workers[w]), BusyIn(t.workers[w]), na, ng);
  }

  /** What the queue, the worker and the slice of priority `p` hold between them. */
  function Share(s: State, w: nat, p: nat): nat
    requires Shape(s) && p < 3 && w < |s.workers|
  {
    |s.inputs[p]| + (if w % 3 == p then ActiveIn(s.workers[w]) else 0) + |s.collected[p]|
  }

  lemma CountMoves(s: State, t: State, w: nat, p: nat)
    requires Shape(s) && Shape(t) && s.next <= |s.urls| && t.next <= |t.urls| && OneChanges(s, t, w)
    requires p < 3 && Counted(s, p)
    requires Share(t, w, p) + Of(s.urls[..s.next], p) == Share(s, w, p) + Of(t.urls[..t.next], p)
    ensures Counted(t, p)
  {
    hide Pending, Busy, BusyIn, Active, Living;
    WorkerChanges(s.workers, w, t.workers[w]);
  }

  /** The workers' steps that leave the queues, the slices and the producer alone. */
  lemma WorkerOnly(s: State, t: State, w: nat)
    requires Shape(s) && s.next <= |s.urls| && Workers(s) && Sorted(s) && Cargo(s)
    requires Shape(t) && OneChanges(s, t, w) && WorkerOk(t, w)
    requires t.urls == s.urls && t.next == s.next && t.inputs == s.inputs && t.collected == s.collected && t.closedIn == s.closedIn
    requires ActiveIn(t.workers[w]) == ActiveIn(s.workers[w])
    requires s.timedOut <= t.timedOut
    requires s.workers[w].pending + BusyIn(s.workers[w]) + (t.timedOut - s.timedOut) == t.workers[w].pending + BusyIn(t.workers[w])
    ensures Cargo(t) && Workers(t) && Sorted(t)
  {
    hide Control, Counted, Ledger, BusyIn, ActiveIn, UrlsOf;
    CountMoves(s, t, w, 0);
    CountMoves(s, t, w, 1);
    CountMoves(s, t, w, 2);
    var none, more := multiset{}, t.timedOut - s.timedOut;
    assert Queued(t) + none == Queued(s) + none && Gathered(t) == Gathered(s) + none;
    assert s.timedOut + more == t.timedOut;
    var was, now := s.workers[w].pending + BusyIn(s.workers[w]), t.workers[w].pending + BusyIn(t.workers[w]);
    assert none + was + more == none + now + none;
    assert none + s.workers[w].pending == s.workers[w].pending && none + t.workers[w].pending == t.workers[w].pending;
    LedgerMoves(s, t, w, none, none, more, none);
    WorkersKeep(s, t, w);
  }

  lemma ControlKeeps(s: State, t: State, w: nat)
    requires Control(s) && Shape(t) && OneChanges(s, t, w) && t.workers[w].phase.Exited? == s.workers[w].phase.Exited?
    requires t == s.(workers := t.workers, timedOut := t.timedOut)
    ensures Control(t)
  {
    hide Pending, Busy, BusyIn, Active, Living, ActiveIn;
    WorkerChanges(s.workers, w, t.workers[w]);
  }

  lemma RespondKeeps(s: State, w: nat, url: Url, code: string)
    requires Inv(s) && Enabled(s, Respond(w, url, code))
    ensures Inv(Do(s, Respond(w, url, code))) && SameShape(s, Do(s, Respond(w, url, code)))
  {
    hide Counted, Ledger, Living;
    var t := Do(s, Respond(w, url, code));
    assert WorkerOk(s, w);
    ControlKeeps(s, t, w);
    WorkerOnly(s, t, w);
  }

  lemma TimeoutKeeps(s: State, w: nat)
    requires Inv(s) && Enabled(s, Timeout(w))
    ensures Inv(Do(s, Timeout(w))) && SameShape(s, Do(s, Timeout(w)))
  {
    hide Counted, Ledger, Living;
    var t := Do(s, Timeout(w));
    assert WorkerOk(s, w);
    ControlKeeps(s, t, w);
    WorkerOnly(s, t, w);
    PendingIsGiven(s, w, s.workers[w].phase.url);
  }

  lemma {:induction false} PendingInUnion(ws: seq<Worker>, w: nat, u: Url)
    requires w < |ws| && u in ws[w].pending
    ensures u in Union(ws, Pending())
  {
    var n := |ws| - 1;
    if w < n { PendingInUnion(ws[..n], w, u); }
  }

  /** A request still open is for a URL of the input. */
  lemma PendingIsGiven(s: State, w: nat, u: Url)
    requires Shape(s) && s.next <= |s.urls| && Ledger(s) && Given(s) && w < |s.workers| && u in s.workers[w].pending
    ensures u in s.urls
  {
    hide Queued, Gathered, Pending, Busy;
    PendingInUnion(s.workers, w, u);
    assert u in InFlight(s);
    assert u in multiset(s.urls[..s.next]) + s.timedOut;
    if u in s.urls[..s.next] { assert u in s.urls; }
  }

  lemma ExitKeeps(s: State, w: nat)
    requires Inv(s) && Enabled(s, Exit(w))
    ensures Inv(Do(s, Exit(w))) && SameShape(s, Do(s, Exit(w)))
  {
    hide Counted, Ledger, Pending, Busy, Active, Living;
    var t := Do(s, Exit(w));
    assert WorkerOk(s, w);
    NotAllExited(s, w);
    WorkerOnly(s, t, w);
    WorkerChanges(s.workers, w, t.workers[w]);
  }

  lemma DeliverKeeps(s: State, w: nat)
    requires Inv(s) && Enabled(s, Deliver(w))
    ensures Inv(Do(s, Deliver(w))) && SameShape(s, Do(s, Deliver(w)))
  {
    hide Counted, Ledger, Queued, Gathered, Pending, Busy, Active, Living, UrlsOf;
    var t := Do(s, Deliver(w));
    assert WorkerOk(s, w);
    NotAllExited(s, w);
    WorkersKeep(s, t, w);
    WorkerChanges(s.workers, w, t.workers[w]);
    DeliverCargo(s, w);
  }

  lemma DeliverCargo(s: State, w: nat)
    requires Inv(s) && Enabled(s, Deliver(w)) && w % 3 >= s.closedOut
    ensures Cargo(Do(s, Deliver(w)))
  {
    hide Counted, Ledger, Gathered, Pending, Busy, Active, Living, UrlsOf, Workers, Sorted;
    var t := Do(s, Deliver(w));
    CountMoves(s, t, w, 0);
    CountMoves(s, t, w, 1);
    CountMoves(s, t, w, 2);
    var resp := s.workers[w].phase.resp;
    GatheredChanges(s, t, w % 3, resp);
    assert Queued(t) == Queued(s);
    LedgerMoves(s, t, w, multiset{}, multiset{}, multiset{}, multiset{resp.url});
  }

  lemma TakeKeeps(s: State, w: nat)
    requires Inv(s) && Enabled(s, Take(w))
    ensures Inv(Do(s, Take(w))) && SameShape(s, Do(s, Take(w)))
  {
    hide Cargo, Living;
    var t := Do(s, Take(w));
    TakeCargo(s, w);
    TakeWorkers(s, w);
    LivingStays(s.workers, w, t.workers[w]);
  }

  lemma LivingStays(ws: seq<Worker>, w: nat, x: Worker)
    requires w < |ws| && x.phase.Exited? == ws[w].phase.Exited?
    ensures Sum(ws[w := x], Living()) == Sum(ws, Living())
  {
    SumUpdate(ws, Living(), w, x);
  }

  lemma TakeWorkers(s: State, w: nat)
    requires Shape(s) && Workers(s) && Sorted(s) && Enabled(s, Take(w))
    ensures Workers(Do(s, Take(w))) && Sorted(Do(s, Take(w)))
  {
    var t, p := Do(s, Take(w)), w % 3;
    assert s.inputs[p] == [s.inputs[p][0]] + t.inputs[p];
    forall i: nat | i < |t.workers| ensures WorkerOk(t, i) {
      assert WorkerOk(s, i);
    }
  }

  lemma TakeCargo(s: State, w: nat)
    requires Inv(s) && Enabled(s, Take(w))
    ensures Cargo(Do(s, Take(w)))
  {
    hide Counted, Ledger, Queued, UrlsOf, Pending, Busy, Active, Living, Workers, Sorted;
    var t, p := Do(s, Take(w)), w % 3;
    CountMoves(s, t, w, 0);
    CountMoves(s, t, w, 1);
    CountMoves(s, t, w, 2);
    assert s.inputs[p] == [s.inputs[p][0]] + t.inputs[p];
    QueueChanges(s, t, p);
    assert Gathered(t) == Gathered(s);
    LedgerMoves(s, t, w, multiset(s.inputs[p]), multiset(t.inputs[p]), multiset{}, multiset{});
  }

  lemma ProduceKeeps(s: State)
    requires Inv(s) && Enabled(s, Produce)
    ensures Inv(Do(s, Produce)) && SameShape(s, Do(s, Produce))
  {
    hide Counted, Ledger, Queued, Gathered, Pending, Busy, Active, Living;
    var t := Do(s, Produce);
    forall i: nat | i < |t.workers| ensures WorkerOk(t, i) {
      assert WorkerOk(s, i);
    }
    ProduceCargo(s);
  }

  lemma ProduceCargo(s: State)
    requires Inv(s) && Enabled(s, Produce)
    ensures Cargo(Do(s, Produce))
  {
    hide Counted, Ledger, Queued, UrlsOf, Pending, Busy, Active, Living, Workers, Sorted;
    var t, url := Do(s, Produce), s.urls[s.next];
    var p := url.priority;
    assert s.urls[..t.next][..s.next] == s.urls[..s.next];
    assert s.urls[..t.next] == s.urls[..s.next] + [url];
    CountMoves(s, t, 0, 0);
    CountMoves(s, t, 0, 1);
    CountMoves(s, t, 0, 2);
    QueueChanges(s, t, p);
    assert Gathered(t) == Gathered(s);
    LedgerMoves(s, t, 0, multiset(s.inputs[p]), multiset(t.inputs[p]), multiset{url}, multiset{});
  }

  // ---------------------------------------------------------------------------
  // Every run

  lemma StepKeeps(s: State, step: Step)
    requires Inv(s) && Enabled(s, step)
    ensures Inv(Do(s, step)) && SameShape(s, Do(s, step))
  {
    hide Inv, Do, Enabled;
    match step
    case Expire => ExpireKeeps(s);
    case Produce => ProduceKeeps(s);
    case CloseInput => CloseInputKeeps(s);
    case FinishProducing => FinishProducingKeeps(s);
    case Take(w) => TakeKeeps(s, w);
    case Respond(w, url, code) => RespondKeeps(s, w, url, code);
    case Timeout(w) => TimeoutKeeps(s, w);
    case Deliver(w) => DeliverKeeps(s, w);
    case Exit(w) => ExitKeeps(s, w);
    case CloseOutput => CloseOutputKeeps(s);
    case Cancel => CancelKeeps(s);
    case FinishCollecting(p) => FinishCollectingKeeps(s, p);
    case Fill => FillKeeps(s);
    case CloseOut => CloseOutKeeps(s);
    case Print => PrintKeeps(s);
  }
}
