/**
  Where the answers come from and in which order they go: every response is one that some request or
  the deadline gave, each priority's URLs are taken in the order of the input, and its responses are
  collected in the order of their delivery.
 */
module PriorityFanAnswers {
  import opened PriorityFan
  import opened PriorityFanRuns
  import opened PriorityFanExact

  // ---------------------------------------------------------------------------
  // Answers are given by steps

  /** The step gives this answer: a request's code for its URL, or the deadline's for the worker's. */
  ghost predicate Gives(s: State, step: Step, r: Response)
    requires Enabled(s, step)
  {
    match step
    case Respond(_, url, code) => r == Response(code, url)
    case Timeout(w) => r == Response("500 Internal Server Error", s.workers[w].phase.url)
    case _ => false
  }

  ghost predicate InHand(s: State, r: Response) {
    exists w: nat :: w < |s.workers| && s.workers[w].phase == Sending(r)
  }

  ghost predicate Carries(s: State, r: Response)
    requires Shape(s)
  {
    InHand(s, r) || r in s.collected[0] || r in s.collected[1] || r in s.collected[2]
  }

  /** Worker w is now in this phase, the channels and the slices are as given, and the producer is where it was. */
  ghost predicate WorkerStep(s: State, t: State, w: nat, phase: Phase, inputs: seq<seq<Url>>, collected: seq<seq<Response>>) {
    && Shape(t) && w < |s.workers| == |t.workers| && t.workers[w].phase == phase
    && (forall i: nat :: i < |s.workers| && i != w ==> t.workers[i] == s.workers[i])
    && t.inputs == inputs && t.collected == collected && t.urls == s.urls && t.next == s.next
  }

  lemma TakeStep(s: State, w: nat)
    requires Enabled(s, Take(w))
    ensures var q := s.inputs[w % 3]; WorkerStep(s, Do(s, Take(w)), w, Waiting(q[0]), s.inputs[w % 3 := q[1..]], s.collected)
  {
  }

  lemma RespondStep(s: State, w: nat, url: Url, code: string)
    requires Enabled(s, Respond(w, url, code))
    ensures WorkerStep(s, Do(s, Respond(w, url, code)), w, Sending(Response(code, url)), s.inputs, s.collected)
  {
  }

  lemma TimeoutStep(s: State, w: nat)
    requires Enabled(s, Timeout(w))
    ensures WorkerStep(s, Do(s, Timeout(w)), w, Sending(Response(TIMEOUT_CODE, s.workers[w].phase.url)), s.inputs, s.collected)
  {
  }

  lemma DeliverStep(s: State, w: nat)
    requires Enabled(s, Deliver(w)) && !s.panicked && !Do(s, Deliver(w)).panicked
    ensures var p, r := w % 3, s.workers[w].phase.resp;
      WorkerStep(s, Do(s, Deliver(w)), w, Idle, s.inputs, s.collected[p := s.collected[p] + [r]])
  {
  }

  lemma ExitStep(s: State, w: nat)
    requires Enabled(s, Exit(w)) && !s.panicked && !Do(s, Exit(w)).panicked
    ensures WorkerStep(s, Do(s, Exit(w)), w, Exited, s.inputs, s.collected)
  {
  }

  /** What the worker's phase becomes, and what joins its slice. */
  ghost function PhaseAfter(s: State, step: Step): Phase
    requires Enabled(s, step) && OfWorker(step)
  {
    match step
    case Take(w) => Waiting(s.inputs[w % 3][0])
    case Respond(_, url, code) => Sending(Response(code, url))
    case Timeout(w) => Sending(Response(TIMEOUT_CODE, s.workers[w].phase.url))
    case Deliver(_) => Idle
    case Exit(_) => Exited
  }

  lemma WorkerDoesIs(s: State, step: Step)
    requires Enabled(s, step) && OfWorker(step) && !s.panicked && !Do(s, step).panicked
    ensures var t := Do(s, step);
      && Shape(t) && WorkerStep(s, t, step.w, PhaseAfter(s, step), t.inputs, t.collected)
      && (!step.Take? ==> t.inputs == s.inputs)
      && forall p: nat :: p < 3 ==> t.collected[p] == s.collected[p] + DeliveredBy(s, step, p)
  {
    hide Do, WorkerStep;
    match step
    case Take(w) => TakeStep(s, w); Unpack(s, Do(s, step), w);
    case Respond(w, url, code) => RespondStep(s, w, url, code); Unpack(s, Do(s, step), w);
    case Timeout(w) => TimeoutStep(s, w); Unpack(s, Do(s, step), w);
    case Deliver(w) => DeliverStep(s, w); Unpack(s, Do(s, step), w);
    case Exit(w) => ExitStep(s, w); Unpack(s, Do(s, step), w);
  }

  lemma Unpack(s: State, t: State, w: nat)
    ensures forall phase, inputs, collected :: WorkerStep(s, t, w, phase, inputs, collected) ==> Shape(t) && t.inputs == inputs && t.collected == collected
  {
  }

  lemma OthersLeave(s: State, step: Step)
    requires Enabled(s, step) && !OfWorker(step)
    ensures var t := Do(s, step); Shape(t) && t.workers == s.workers && t.collected == s.collected
  {
    if OfProducer(step) { ProducerLeaves(s, step); } else { MergerLeaves(s, step); }
  }

  lemma StepCarries(s: State, step: Step, r: Response)
    requires Enabled(s, step) && !s.panicked && !Do(s, step).panicked && Shape(Do(s, step)) && Carries(Do(s, step), r)
    ensures Carries(s, r) || Gives(s, step, r)
  {
    hide Do;
    var t := Do(s, step);
    if OfWorker(step) {
      WorkerDoesIs(s, step);
      if InHand(t, r) {
        var i: nat :| i < |t.workers| && t.workers[i].phase == Sending(r);
        if i != step.w { assert s.workers[i].phase == Sending(r); }
      } else if step.Deliver? && r == s.workers[step.w].phase.resp {
        assert s.workers[step.w].phase == Sending(r);
      }
    } else {
      OthersLeave(s, step);
      if InHand(t, r) {
        var i: nat :| i < |t.workers| && t.workers[i].phase == Sending(r);
        assert s.workers[i].phase == Sending(r);
      }
    }
  }

  /** Some step of the run answered so: the request itself, or the deadline for a URL of the input. */
  ghost predicate AnsweredBy(step: Step, r: Response, urls: seq<Url>) {
    || (step.Respond? && step.url == r.url && step.code == r.code)
    || (step.Timeout? && r.code == "500 Internal Server Error" && r.url in urls)
  }

  lemma GivesIs(s: State, step: Step, r: Response)
    requires Inv(s) && Enabled(s, step) && Gives(s, step, r)
    ensures AnsweredBy(step, r, s.urls)
  {
    if step.Timeout? {
      assert WorkerOk(s, step.w);
      PendingIsGiven(s, step.w, r.url);
    }
  }

  lemma {:induction false} RunCarries(s: State, steps: seq<Step>, t: State, r: Response) returns (i: nat)
    requires Inv(s) && Run(s, steps, t) && Shape(s) && Shape(t) && Carries(t, r) && !Carries(s, r)
    ensures i < |steps| && AnsweredBy(steps[i], r, s.urls)
    decreases |steps|
  {
    hide Inv, Enabled, Do, Carries, Gives, AnsweredBy;
    var step, a := steps[0], Do(s, steps[0]);
    StepKeeps(s, step);
    InvBasics(s);
    InvBasics(a);
    if Carries(a, r) {
      StepCarries(s, step, r);
      GivesIs(s, step, r);
      i := 0;
    } else {
      var j := RunCarries(a, steps[1..], t, r);
      i := j + 1;
    }
  }

  lemma NothingCarried(urls: seq<Url>, workersCnt: int, r: Response)
    ensures Shape(Init(urls, workersCnt)) && !Carries(Init(urls, workersCnt), r)
  {
  }

  /** Each response sent out is an answer that some step of the run gave. */
  lemma EveryAnswerWasGiven(urls: seq<Url>, workersCnt: int, steps: seq<Step>, t: State, k: nat) returns (i: nat)
    requires Sendable(urls) && Run(Init(urls, workersCnt), steps, t) && k < |t.out|
    ensures i < |steps| && AnsweredBy(steps[i], t.out[k], urls)
  {
    hide Run, Inv, AnsweredBy;
    InitInv(urls, workersCnt);
    RunKeeps(Init(urls, workersCnt), steps, t);
    InvBasics(t);
    OutIsCarried(t, k);
    NothingCarried(urls, workersCnt, t.out[k]);
    i := RunCarries(Init(urls, workersCnt), steps, t, t.out[k]);
  }

  lemma OutIsCarried(t: State, k: nat)
    requires Inv(t) && Shape(t) && k < |t.out|
    ensures Carries(t, t.out[k])
  {
    hide Cargo, Workers, Sorted;
    assert t.out[k] == All(t)[k];
  }

  // ---------------------------------------------------------------------------
  // Responses are collected in the order of delivery

  ghost function DeliveredBy(s: State, step: Step, p: nat): seq<Response>
    requires Enabled(s, step)
  {
    if step.Deliver? && step.w % 3 == p then [s.workers[step.w].phase.resp] else []
  }

  ghost function Delivered(s: State, steps: seq<Step>, t: State, p: nat): seq<Response>
    requires Run(s, steps, t)
    decreases |steps|
  {
    if steps == [] then [] else DeliveredBy(s, steps[0], p) + Delivered(Do(s, steps[0]), steps[1..], t, p)
  }

  lemma StepCollects(s: State, step: Step, p: nat)
    requires Enabled(s, step) && !s.panicked && !Do(s, step).panicked && p < 3 && Shape(Do(s, step))
    ensures Do(s, step).collected[p] == s.collected[p] + DeliveredBy(s, step, p)
  {
    hide Do;
    if OfWorker(step) { WorkerDoesIs(s, step); } else { OthersLeave(s, step); }
  }

  lemma {:induction false} CollectedInOrder(s: State, steps: seq<Step>, t: State, p: nat)
    requires Inv(s) && Run(s, steps, t) && p < 3
    ensures Shape(s) && Shape(t) && t.collected[p] == s.collected[p] + Delivered(s, steps, t, p)
    decreases |steps|
  {
    hide Inv, Enabled, Do, DeliveredBy;
    InvBasics(s);
    if steps != [] {
      var a := Do(s, steps[0]);
      StepKeeps(s, steps[0]);
      InvBasics(a);
      StepCollects(s, steps[0], p);
      CollectedInOrder(a, steps[1..], t, p);
    }
  }

  // ---------------------------------------------------------------------------
  // URLs are taken in the order of the input

  /** The URLs of priority p, in order. */
  ghost function OfPriority(urls: seq<Url>, p: nat): seq<Url> {
    if urls == [] then []
    else OfPriority(urls[..|urls| - 1], p) + if urls[|urls| - 1].priority == p then [urls[|urls| - 1]] else []
  }

  /** The URL that the worker awaits after the step, if it took one of priority p. */
  ghost function TakenBy(s: State, step: Step, p: nat): seq<Url>
    requires Enabled(s, step)
  {
    var t := Do(s, step);
    if step.Take? && step.w % 3 == p && step.w < |t.workers| && t.workers[step.w].phase.Waiting?
    then [t.workers[step.w].phase.url] else []
  }

  ghost function Taken(s: State, steps: seq<Step>, t: State, p: nat): seq<Url>
    requires Run(s, steps, t)
    decreases |steps|
  {
    if steps == [] then [] else TakenBy(s, steps[0], p) + Taken(Do(s, steps[0]), steps[1..], t, p)
  }

  /** The channel of priority p holds what was sent and not yet taken, and no more than its capacity. */
  ghost predicate Queues(s: State, p: nat, taken: seq<Url>)
    requires Shape(s) && p < 3
  {
    && s.next <= |s.urls| && OfPriority(s.urls[..s.next], p) == taken + s.inputs[p]
    && |s.inputs[p]| <= |s.workers|
  }

  lemma ProduceStep(s: State)
    requires Enabled(s, Produce) && !s.panicked && !Do(s, Produce).panicked
    ensures var t, url := Do(s, Produce), s.urls[s.next];
      && Shape(t) && t.urls == s.urls && t.next == s.next + 1 && |t.workers| == |s.workers|
      && t.inputs == s.inputs[url.priority := s.inputs[url.priority] + [url]]
  {
  }

  lemma ProduceQueues(s: State, p: nat, taken: seq<Url>)
    requires Enabled(s, Produce) && !s.panicked && !Do(s, Produce).panicked && p < 3 && Queues(s, p, taken)
    ensures Shape(Do(s, Produce)) && Queues(Do(s, Produce), p, taken)
  {
    hide Do;
    ProduceStep(s);
    var t, url := Do(s, Produce), s.urls[s.next];
    assert s.urls[..t.next] == s.urls[..s.next] + [url];
    assert s.urls[..t.next][..s.next] == s.urls[..s.next];
  }

  lemma TakeQueues(s: State, w: nat, p: nat, taken: seq<Url>)
    requires Enabled(s, Take(w)) && p < 3 && Queues(s, p, taken)
    ensures Shape(Do(s, Take(w))) && Queues(Do(s, Take(w)), p, taken + TakenBy(s, Take(w), p))
  {
    hide Do, OfPriority;
    var t := Do(s, Take(w));
    TakeStep(s, w);
    if w % 3 == p {
      assert s.inputs[p] == [s.inputs[p][0]] + t.inputs[p];
      assert TakenBy(s, Take(w), p) == [s.inputs[p][0]];
    }
  }

  lemma SameQueues(s: State, t: State, p: nat, taken: seq<Url>)
    requires Shape(s) && Shape(t) && p < 3 && Queues(s, p, taken)
    requires t.urls == s.urls && t.next == s.next && t.inputs == s.inputs && |t.workers| == |s.workers|
    ensures Queues(t, p, taken)
  {
  }

  lemma ProducerInputs(s: State, step: Step)
    requires Enabled(s, step) && OfProducer(step) && !step.Produce?
    ensures var t := Do(s, step); Shape(t) && t.urls == s.urls && t.next == s.next && t.inputs == s.inputs && |t.workers| == |s.workers|
  {
  }

  lemma MergerInputs(s: State, step: Step)
    requires Enabled(s, step) && !OfProducer(step) && !OfWorker(step)
    ensures var t := Do(s, step); Shape(t) && t.urls == s.urls && t.next == s.next && t.inputs == s.inputs && |t.workers| == |s.workers|
  {
  }

  lemma StepQueues(s: State, step: Step, p: nat, taken: seq<Url>)
    requires Enabled(s, step) && !s.panicked && !Do(s, step).panicked && p < 3 && Queues(s, p, taken)
    ensures Shape(Do(s, step)) && Queues(Do(s, step), p, taken + TakenBy(s, step, p))
  {
    hide Do, Queues;
    if step.Take? {
      TakeQueues(s, step.w, p, taken);
    } else {
      assert taken + TakenBy(s, step, p) == taken;
      if step.Produce? {
        ProduceQueues(s, p, taken);
      } else {
        if OfProducer(step) { ProducerInputs(s, step); } else if OfWorker(step) { WorkerDoesIs(s, step); } else { MergerInputs(s, step); }
        SameQueues(s, Do(s, step), p, taken);
      }
    }
  }

  lemma {:induction false} RunQueues(s: State, steps: seq<Step>, t: State, p: nat, taken: seq<Url>)
    requires Inv(s) && Run(s, steps, t) && p < 3 && Shape(s) && Queues(s, p, taken)
    ensures Shape(t) && Queues(t, p, taken + Taken(s, steps, t, p))
    decreases |steps|
  {
    hide Inv, Enabled, Do, Queues, TakenBy;
    InvBasics(s);
    if steps == [] {
      assert taken + [] == taken;
    } else {
      var a, first := Do(s, steps[0]), TakenBy(s, steps[0], p);
      StepKeeps(s, steps[0]);
      InvBasics(a);
      StepQueues(s, steps[0], p, taken);
      RunQueues(a, steps[1..], t, p, taken + first);
      assert taken + first + Taken(a, steps[1..], t, p) == taken + (first + Taken(a, steps[1..], t, p));
    }
  }

  /** In every run the workers of a priority take its URLs in the order of the input, from a channel of their number. */
  lemma TakenInOrder(urls: seq<Url>, workersCnt: int, steps: seq<Step>, t: State, p: nat)
    requires Sendable(urls) && Run(Init(urls, workersCnt), steps, t) && p < 3
    ensures Shape(t) && t.next <= |urls|
    ensures Taken(Init(urls, workersCnt), steps, t, p) + t.inputs[p] == OfPriority(urls[..t.next], p)
    ensures |t.inputs[p]| <= WorkersCount(workersCnt)
  {
    hide Inv, Run, Taken;
    var s := Init(urls, workersCnt);
    InitInv(urls, workersCnt);
    RunKeeps(s, steps, t);
    assert urls[..0] == [];
    RunQueues(s, steps, t, p, []);
    assert [] + Taken(s, steps, t, p) == Taken(s, steps, t, p);
  }
}
