/**
  Whether the responses are for exactly the given URLs. A worker uses one response channel for all
  its requests, so once the deadline has passed a late answer can be taken for a later URL. Over
  all runs the responses are exact if and only if URLs of equal priority are equal; for different
  URLs a run is exact if and only if no worker takes an answer to another request than its own.
 */
module PriorityFanExact {
  import opened PriorityFan
  import opened PriorityFanRuns

  ghost predicate Exact(t: State) { multiset(UrlsOf(t.out)) == multiset(t.urls) }

  /** URLs of equal priority are equal. */
  ghost predicate Uniform(urls: seq<Url>) {
    forall i, j :: 0 <= i < |urls| && 0 <= j < |urls| && urls[i].priority == urls[j].priority ==> urls[i] == urls[j]
  }

  // ---------------------------------------------------------------------------
  // Uniform URLs are always answered exactly

  lemma {:induction false} CountIsOf(l: seq<Url>, urls: seq<Url>, u: Url)
    requires Uniform(urls) && u in urls && forall i :: 0 <= i < |l| ==> l[i] in urls
    ensures multiset(l)[u] == Of(l, u.priority)
  {
    if l != [] {
      var n := |l| - 1;
      CountIsOf(l[..n], urls, u);
      assert l == l[..n] + [l[n]];
      assert l[n] in urls;
    }
  }

  lemma {:induction false} OfConcat(a: seq<Url>, b: seq<Url>, p: nat)
    ensures Of(a + b, p) == Of(a, p) + Of(b, p)
  {
    if b == [] {
      assert a + b == a;
    } else {
      OfConcat(a, b[..|b| - 1], p);
      assert (a + b)[..|a + b| - 1] == a + b[..|b| - 1];
    }
  }

  lemma {:induction false} OfAll(rs: seq<Response>, q: nat, p: nat)
    requires AllResponses(rs, q)
    ensures Of(UrlsOf(rs), p) == if p == q then |rs| else 0
  {
    if rs != [] {
      var n := |rs| - 1;
      OfAll(rs[..n], q, p);
      assert UrlsOf(rs)[..n] == UrlsOf(rs[..n]);
    }
  }

  lemma UniformIsExact(urls: seq<Url>, workersCnt: int, t: State)
    requires Reachable(urls, workersCnt, t) && t.outClosed && Uniform(urls)
    ensures Exact(t)
  {
    hide Reachable, Inv, Open, Uniform, UrlsOf, Of;
    ReachableInv(urls, workersCnt, t);
    WhenClosed(urls, workersCnt, t);
    ResponseUrls(urls, workersCnt, t);
    var l := UrlsOf(t.out);
    forall i | 0 <= i < |l| ensures l[i] in urls {
      assert l[i] in multiset(l) + Open(t);
      assert l[i] in multiset(urls) + t.timedOut;
      GivenIs(t, l[i]);
    }
    forall u ensures multiset(l)[u] == multiset(urls)[u] {
      GivenIs(t, u);
      if u in urls {
        CountIsOf(l, urls, u);
        CountIsOf(urls, urls, u);
        OutCounts(t, u.priority);
      } else {
        assert u !in l;
      }
    }
  }

  lemma GivenIs(t: State, u: Url)
    requires Inv(t)
    ensures (u in t.timedOut ==> u in t.urls) && (u in t.urls ==> u.priority < 3)
  {
  }

  lemma OutCounts(t: State, p: nat)
    requires |t.collected| == 3 && t.out == t.collected[0] + t.collected[1] + t.collected[2] && p < 3
    requires forall q: nat :: q < 3 ==> AllResponses(t.collected[q], q)
    ensures Of(UrlsOf(t.out), p) == |t.collected[p]|
  {
    var c := t.collected;
    var u0, u1, u2 := UrlsOf(c[0]), UrlsOf(c[1]), UrlsOf(c[2]);
    assert UrlsOf(t.out) == u0 + u1 + u2;
    OfConcat(u0 + u1, u2, p);
    OfConcat(u0, u1, p);
    OfAll(c[0], 0, p);
    OfAll(c[1], 1, p);
    OfAll(c[2], 2, p);
  }

  // ---------------------------------------------------------------------------
  // From a quiet state every way to the end keeps what was abandoned

  lemma {:induction false} RunAppend(s: State, a: seq<Step>, m: State, b: seq<Step>, t: State)
    requires Run(s, a, m) && Run(m, b, t)
    ensures Run(s, a + b, t)
    decreases |a|
  {
    hide Enabled, Do;
    if a == [] {
      assert a + b == b;
    } else {
      RunAppend(Do(s, a[0]), a[1..], m, b, t);
      assert (a + b)[0] == a[0] && (a + b)[1..] == a[1..] + b;
    }
  }

  lemma OneStep(s: State, step: Step)
    requires Enabled(s, step)
    ensures Run(s, [step], Do(s, step))
  {
    hide Enabled, Do;
    assert [step][1..] == [];
  }

  /** Every URL has been sent and answered, and no worker has one. */
  ghost predicate Quiet(s: State) {
    && Shape(s) && s.next == |s.urls| && s.inputs == [[], [], []]
    && forall w: nat :: w < |s.workers| ==> s.workers[w].phase.Idle? || s.workers[w].phase.Exited?
  }

  lemma QuietStep(s: State, step: Step)
    requires Quiet(s) && Enabled(s, step) && !Do(s, step).panicked
    ensures var t := Do(s, step); Quiet(t) && t.timedOut == s.timedOut && Open(t) == Open(s)
  {
    if OfWorker(step) {
      QuietExit(s, step);
    } else if OfProducer(step) {
      assert Do(s, step).workers == s.workers;
    } else {
      assert Do(s, step).workers == s.workers;
    }
  }

  lemma QuietExit(s: State, step: Step)
    requires Quiet(s) && Enabled(s, step) && !Do(s, step).panicked && OfWorker(step)
    ensures var t := Do(s, step); Quiet(t) && t.timedOut == s.timedOut && Open(t) == Open(s)
  {
    hide Do;
    OnlyExits(s, step);
    ExitIs(s, step.w);
    SamePending(s.workers, step.w, Worker(Exited, s.workers[step.w].pending));
  }

  lemma OnlyExits(s: State, step: Step)
    requires Quiet(s) && Enabled(s, step) && OfWorker(step)
    ensures step == Exit(step.w) && step.w < |s.workers|
  {
    QuietWorker(s, step.w);
  }

  lemma QuietWorker(s: State, w: nat)
    requires Quiet(s) && w < |s.workers|
    ensures !s.workers[w].phase.Waiting? && !s.workers[w].phase.Sending? && s.inputs[w % 3] == []
  {
  }

  lemma ExitIs(s: State, w: nat)
    requires Quiet(s) && Enabled(s, Exit(w)) && !Do(s, Exit(w)).panicked
    ensures var t := Do(s, Exit(w));
      && t.workers == s.workers[w := Worker(Exited, s.workers[w].pending)] && t.timedOut == s.timedOut
      && t.next == s.next && t.urls == s.urls && t.inputs == s.inputs && Shape(t)
  {
  }

  lemma SamePending(ws: seq<Worker>, w: nat, x: Worker)
    requires w < |ws| && x.pending == ws[w].pending
    ensures Union(ws[w := x], Pending()) == Union(ws, Pending())
  {
    UnionUpdate(ws, Pending(), w, x);
    Cancel1(Union(ws[w := x], Pending()), Union(ws, Pending()), x.pending);
  }

  lemma Cancel1(a: multiset<Url>, b: multiset<Url>, c: multiset<Url>)
    requires a + c == b + c
    ensures a == b
  {
    forall u ensures a[u] == b[u] {
      assert (a + c)[u] == (b + c)[u];
    }
  }

  lemma {:induction false} QuietCloses(s: State) returns (steps: seq<Step>, t: State)
    requires Inv(s) && Quiet(s)
    ensures Run(s, steps, t) && t.outClosed && t.timedOut == s.timedOut && Open(t) == Open(s)
    decreases Rank(s)
  {
    hide Inv, Quiet, Enabled, Do, Rank, Open;
    if s.outClosed {
      steps, t := [], s;
    } else {
      var step := NoDeadlock(s);
      var a := Do(s, step);
      StepKeeps(s, step);
      InvBasics(a);
      QuietStep(s, step);
      RankFalls(s, step);
      RankIsNat(a);
      RankIsNat(s);
      var rest;
      rest, t := QuietCloses(a);
      OneStep(s, step);
      steps := [step] + rest;
      RunAppend(s, [step], a, rest, t);
    }
  }

  // ---------------------------------------------------------------------------
  // One URL at a time, served by the first worker of its priority

  /**
    Before any input is closed and after the deadline: URL n is next, only worker q is at work, with
    `queue` in its channel, and the other workers are those of `crew`.
   */
  ghost predicate Desk(s: State, n: nat, crew: seq<Worker>, q: nat, phase: Phase, pend: multiset<Url>, queue: seq<Url>, late: multiset<Url>) {
    && Inv(s) && q < 3 <= |crew| && s.next == n && s.closedIn == 0 && s.expired && s.timedOut == late
    && s.workers == crew[q := Worker(phase, pend)] && s.inputs == [[], [], []][q := queue]
  }

  lemma DeskProduce(s: State, n: nat, crew: seq<Worker>, q: nat, pend: multiset<Url>, late: multiset<Url>) returns (t: State)
    requires Desk(s, n, crew, q, Idle, pend, [], late) && n < |s.urls| && s.urls[n].priority == q
    ensures Run(s, [Produce], t) && Desk(t, n + 1, crew, q, Idle, pend, [s.urls[n]], late) && t.urls == s.urls
  {
    hide Inv;
    InvBasics(s);
    t := Do(s, Produce);
    StepKeeps(s, Produce);
    OneStep(s, Produce);
    assert [] + [s.urls[n]] == [s.urls[n]];
  }

  lemma DeskTake(s: State, n: nat, crew: seq<Worker>, q: nat, pend: multiset<Url>, u: Url, late: multiset<Url>) returns (t: State)
    requires Desk(s, n, crew, q, Idle, pend, [u], late)
    ensures Run(s, [Take(q)], t) && Desk(t, n, crew, q, Waiting(u), pend + multiset{u}, [], late) && t.urls == s.urls
  {
    hide Inv;
    InvBasics(s);
    t := Do(s, Take(q));
    StepKeeps(s, Take(q));
    OneStep(s, Take(q));
    assert [u][1..] == [];
  }

  lemma DeskRespond(s: State, n: nat, crew: seq<Worker>, q: nat, u: Url, pend: multiset<Url>, late: multiset<Url>, x: Url) returns (t: State)
    requires Desk(s, n, crew, q, Waiting(u), pend, [], late) && x in pend
    ensures Run(s, [Respond(q, x, "")], t) && Desk(t, n, crew, q, Sending(Response("", x)), pend - multiset{x}, [], late) && t.urls == s.urls
  {
    hide Inv;
    InvBasics(s);
    t := Do(s, Respond(q, x, ""));
    StepKeeps(s, Respond(q, x, ""));
    OneStep(s, Respond(q, x, ""));
  }

  lemma DeskTimeout(s: State, n: nat, crew: seq<Worker>, q: nat, u: Url, pend: multiset<Url>, late: multiset<Url>) returns (t: State)
    requires Desk(s, n, crew, q, Waiting(u), pend, [], late)
    ensures Run(s, [Timeout(q)], t) && t.urls == s.urls
    ensures Desk(t, n, crew, q, Sending(Response(TIMEOUT_CODE, u)), pend, [], late + multiset{u})
  {
    hide Inv;
    InvBasics(s);
    t := Do(s, Timeout(q));
    StepKeeps(s, Timeout(q));
    OneStep(s, Timeout(q));
  }

  lemma DeskDeliver(s: State, n: nat, crew: seq<Worker>, q: nat, r: Response, pend: multiset<Url>, late: multiset<Url>) returns (t: State)
    requires Desk(s, n, crew, q, Sending(r), pend, [], late)
    ensures Run(s, [Deliver(q)], t) && Desk(t, n, crew, q, Idle, pend, [], late) && t.urls == s.urls
  {
    hide Inv;
    InvBasics(s);
    BusyIsOpen(s, q);
    t := Do(s, Deliver(q));
    StepKeeps(s, Deliver(q));
    OneStep(s, Deliver(q));
  }

  lemma InvBasics(s: State)
    requires Inv(s)
    ensures Shape(s) && !s.panicked
  {
  }

  lemma BusyIsOpen(s: State, w: nat)
    requires Inv(s) && w < |s.workers| && !s.workers[w].phase.Exited?
    ensures s.closedOut == 0 && |s.finished| == 3 && !s.finished[0] && !s.finished[1] && !s.finished[2]
  {
    NotAllExited(s, w);
  }

  // ---------------------------------------------------------------------------
  // A run that answers one URL twice and another never

  /** All workers idle; worker p still has the requests of `left` open. */
  function CrewOf(count: nat, p: nat, left: multiset<Url>): seq<Worker> {
    seq(count, w => Worker(Idle, if w == p then left else multiset{}))
  }

  ghost predicate Calm(s: State, n: nat, count: nat, p: nat, left: multiset<Url>, late: multiset<Url>) {
    Desk(s, n, CrewOf(count, p, left), p, Idle, left, [], late)
  }

  function LeftAt(p: nat, q: nat, left: multiset<Url>): multiset<Url> { if q == p then left else multiset{} }

  /** In a calm state the desk of any priority is free. */
  lemma AnyDesk(s: State, n: nat, count: nat, p: nat, left: multiset<Url>, late: multiset<Url>, q: nat)
    requires q < 3 <= count && p < 3
    ensures Calm(s, n, count, p, left, late) <==> Desk(s, n, CrewOf(count, p, left), q, Idle, LeftAt(p, q, left), [], late)
  {
    hide Inv;
    var crew := CrewOf(count, p, left);
    assert crew[q := Worker(Idle, LeftAt(p, q, left))] == crew && crew[p := Worker(Idle, left)] == crew;
    var none: seq<seq<Url>> := [[], [], []];
    assert none[q := []] == none && none[p := []] == none;
  }

  lemma NewLeft(s: State, n: nat, count: nat, p: nat, left: multiset<Url>, now: multiset<Url>, late: multiset<Url>)
    requires p < 3 <= count && Desk(s, n, CrewOf(count, p, left), p, Idle, now, [], late)
    ensures Calm(s, n, count, p, now, late)
  {
    hide Inv;
    assert CrewOf(count, p, left)[p := Worker(Idle, now)] == CrewOf(count, p, now)[p := Worker(Idle, now)];
  }

  /** The next URL reaches worker q, who takes it. */
  lemma Hand(s: State, n: nat, crew: seq<Worker>, q: nat, pend: multiset<Url>, late: multiset<Url>) returns (steps: seq<Step>, t: State)
    requires Desk(s, n, crew, q, Idle, pend, [], late) && n < |s.urls| && s.urls[n].priority == q
    ensures Run(s, steps, t) && t.urls == s.urls && Desk(t, n + 1, crew, q, Waiting(s.urls[n]), pend + multiset{s.urls[n]}, [], late)
  {
    hide Desk, Run;
    var a := DeskProduce(s, n, crew, q, pend, late);
    t := DeskTake(a, n + 1, crew, q, pend, s.urls[n], late);
    steps := [Produce] + [Take(q)];
    RunAppend(s, [Produce], a, [Take(q)], t);
  }

  /** It answers with request x, be it its own or an older one. */
  lemma Answer(s: State, n: nat, crew: seq<Worker>, q: nat, u: Url, pend: multiset<Url>, late: multiset<Url>, x: Url) returns (steps: seq<Step>, t: State)
    requires Desk(s, n, crew, q, Waiting(u), pend, [], late) && x in pend
    ensures Run(s, steps, t) && t.urls == s.urls && Desk(t, n, crew, q, Idle, pend - multiset{x}, [], late)
  {
    hide Desk, Run;
    var a := DeskRespond(s, n, crew, q, u, pend, late, x);
    t := DeskDeliver(a, n, crew, q, Response("", x), pend - multiset{x}, late);
    steps := [Respond(q, x, "")] + [Deliver(q)];
    RunAppend(s, [Respond(q, x, "")], a, [Deliver(q)], t);
  }

  /** Or the deadline answers for it. */
  lemma GiveUp(s: State, n: nat, crew: seq<Worker>, q: nat, u: Url, pend: multiset<Url>, late: multiset<Url>) returns (steps: seq<Step>, t: State)
    requires Desk(s, n, crew, q, Waiting(u), pend, [], late)
    ensures Run(s, steps, t) && t.urls == s.urls && Desk(t, n, crew, q, Idle, pend, [], late + multiset{u})
  {
    hide Desk, Run;
    var a := DeskTimeout(s, n, crew, q, u, pend, late);
    t := DeskDeliver(a, n, crew, q, Response(TIMEOUT_CODE, u), pend, late + multiset{u});
    steps := [Timeout(q)] + [Deliver(q)];
    RunAppend(s, [Timeout(q)], a, [Deliver(q)], t);
  }

  lemma ServeOwn(s: State, n: nat, count: nat, p: nat, left: multiset<Url>, late: multiset<Url>) returns (steps: seq<Step>, t: State)
    requires p < 3 <= count && Calm(s, n, count, p, left, late) && n < |s.urls| && s.urls[n].priority < 3
    ensures Run(s, steps, t) && t.urls == s.urls && Calm(t, n + 1, count, p, left, late)
  {
    hide Desk, Run, Calm;
    var u, crew := s.urls[n], CrewOf(count, p, left);
    var q := u.priority;
    var mine := LeftAt(p, q, left);
    AnyDesk(s, n, count, p, left, late, q);
    var front, a := Hand(s, n, crew, q, mine, late);
    var back;
    back, t := Answer(a, n + 1, crew, q, u, mine + multiset{u}, late, u);
    assert mine + multiset{u} - multiset{u} == mine;
    AnyDesk(t, n + 1, count, p, left, late, q);
    steps := front + back;
    RunAppend(s, front, a, back, t);
  }

  lemma ServeLate(s: State, n: nat, count: nat, p: nat, left: multiset<Url>, late: multiset<Url>) returns (steps: seq<Step>, t: State)
    requires p < 3 <= count && Calm(s, n, count, p, left, late) && n < |s.urls| && s.urls[n].priority == p
    ensures Run(s, steps, t) && t.urls == s.urls && Calm(t, n + 1, count, p, left + multiset{s.urls[n]}, late + multiset{s.urls[n]})
  {
    hide Desk, Run;
    var u, crew := s.urls[n], CrewOf(count, p, left);
    var front, a := Hand(s, n, crew, p, left, late);
    var back;
    back, t := GiveUp(a, n + 1, crew, p, u, left + multiset{u}, late);
    NewLeft(t, n + 1, count, p, left, left + multiset{u}, late + multiset{u});
    steps := front + back;
    RunAppend(s, front, a, back, t);
  }

  lemma ServeStale(s: State, n: nat, count: nat, p: nat, x: Url, late: multiset<Url>) returns (steps: seq<Step>, t: State)
    requires p < 3 <= count && Calm(s, n, count, p, multiset{x}, late) && n < |s.urls| && s.urls[n].priority == p
    ensures Run(s, steps, t) && t.urls == s.urls && Calm(t, n + 1, count, p, multiset{s.urls[n]}, late)
  {
    hide Desk, Run;
    var u, crew := s.urls[n], CrewOf(count, p, multiset{x});
    var front, a := Hand(s, n, crew, p, multiset{x}, late);
    var back;
    back, t := Answer(a, n + 1, crew, p, u, multiset{x} + multiset{u}, late, x);
    assert multiset{x} + multiset{u} - multiset{x} == multiset{u};
    NewLeft(t, n + 1, count, p, multiset{x}, multiset{u}, late);
    steps := front + back;
    RunAppend(s, front, a, back, t);
  }

  /** What is left open and what timed out, when URL i times out and its answer comes as that of URL j. */
  function LeftBy(urls: seq<Url>, i: nat, j: nat, n: nat): multiset<Url>
    requires i < j < |urls|
  {
    if n <= i then multiset{} else if n <= j then multiset{urls[i]} else multiset{urls[j]}
  }

  function LateBy(urls: seq<Url>, i: nat, n: nat): multiset<Url>
    requires i < |urls|
  {
    if n <= i then multiset{} else multiset{urls[i]}
  }

  lemma ServeNext(s: State, n: nat, count: nat, i: nat, j: nat) returns (steps: seq<Step>, t: State)
    requires 3 <= count && Sendable(s.urls) && i < j < |s.urls| && s.urls[i].priority == s.urls[j].priority && n < |s.urls|
    requires Calm(s, n, count, s.urls[i].priority, LeftBy(s.urls, i, j, n), LateBy(s.urls, i, n))
    ensures Run(s, steps, t) && t.urls == s.urls
    ensures Calm(t, n + 1, count, s.urls[i].priority, LeftBy(s.urls, i, j, n + 1), LateBy(s.urls, i, n + 1))
  {
    hide Calm, Run;
    var p, none := s.urls[i].priority, multiset{};
    if n == i {
      steps, t := ServeLate(s, n, count, p, none, none);
      assert none + multiset{s.urls[i]} == multiset{s.urls[i]};
    } else if n == j {
      steps, t := ServeStale(s, n, count, p, s.urls[i], multiset{s.urls[i]});
    } else {
      steps, t := ServeOwn(s, n, count, p, LeftBy(s.urls, i, j, n), LateBy(s.urls, i, n));
    }
  }

  lemma {:induction false} ServeAll(s: State, n: nat, count: nat, i: nat, j: nat) returns (steps: seq<Step>, t: State)
    requires 3 <= count && Sendable(s.urls) && i < j < |s.urls| && s.urls[i].priority == s.urls[j].priority && n <= |s.urls|
    requires Calm(s, n, count, s.urls[i].priority, LeftBy(s.urls, i, j, n), LateBy(s.urls, i, n))
    ensures Run(s, steps, t) && t.urls == s.urls
    ensures Calm(t, |s.urls|, count, s.urls[i].priority, multiset{s.urls[j]}, multiset{s.urls[i]})
    decreases |s.urls| - n
  {
    hide Calm, Run;
    if n == |s.urls| {
      steps, t := [], s;
      EmptyRun(s);
    } else {
      var front, a := ServeNext(s, n, count, i, j);
      var back;
      back, t := ServeAll(a, n + 1, count, i, j);
      steps := front + back;
      RunAppend(s, front, a, back, t);
    }
  }

  lemma EmptyRun(s: State)
    ensures Run(s, [], s)
  {
  }

  lemma {:induction false} CrewPending(ws: seq<Worker>, p: nat, left: multiset<Url>)
    requires forall w: nat :: w < |ws| ==> ws[w].pending == if w == p then left else multiset{}
    ensures Union(ws, Pending()) == if p < |ws| then left else multiset{}
  {
    if ws != [] { CrewPending(ws[..|ws| - 1], p, left); }
  }

  lemma CalmIsQuiet(s: State, count: nat, p: nat, left: multiset<Url>, late: multiset<Url>)
    requires p < 3 <= count && Calm(s, |s.urls|, count, p, left, late)
    ensures Inv(s) && Quiet(s) && Open(s) == left && s.timedOut == late
  {
    hide Inv;
    InvBasics(s);
    assert CrewOf(count, p, left)[p := Worker(Idle, left)] == CrewOf(count, p, left);
    CrewPending(s.workers, p, left);
  }

  lemma ExpiredStart(urls: seq<Url>, workersCnt: int, p: nat) returns (s: State)
    requires Sendable(urls) && p < 3
    ensures Run(Init(urls, workersCnt), [Expire], s) && s.urls == urls
    ensures Calm(s, 0, WorkersCount(workersCnt), p, multiset{}, multiset{})
  {
    hide Inv;
    var s0, count := Init(urls, workersCnt), WorkersCount(workersCnt);
    InitInv(urls, workersCnt);
    s := Do(s0, Expire);
    StepKeeps(s0, Expire);
    OneStep(s0, Expire);
    assert s.workers == CrewOf(count, p, multiset{})[p := Worker(Idle, multiset{})];
    assert s.inputs == [[], [], []][p := []];
  }

  /** If two URLs of one priority differ, some run closes with one answered twice and the other never. */
  lemma SomeRunIsInexact(urls: seq<Url>, workersCnt: int, i: nat, j: nat) returns (t: State)
    requires Sendable(urls) && i < j < |urls| && urls[i].priority == urls[j].priority && urls[i] != urls[j]
    ensures Reachable(urls, workersCnt, t) && t.outClosed && !Exact(t)
  {
    hide Run, Inv, Calm, Quiet, Open, UrlsOf;
    var s0, count, p := Init(urls, workersCnt), WorkersCount(workersCnt), urls[i].priority;
    var s := ExpiredStart(urls, workersCnt, p);
    var serve, a := ServeAll(s, 0, count, i, j);
    CalmIsQuiet(a, count, p, multiset{urls[j]}, multiset{urls[i]});
    var close;
    close, t := QuietCloses(a);
    RunAppend(s0, [Expire], s, serve, a);
    RunAppend(s0, [Expire] + serve, a, close, t);
    ReachableInv(urls, workersCnt, t);
    ExactlyTheUrlsIff(urls, workersCnt, t);
    assert urls[j] in multiset{urls[j]} && urls[j] !in multiset{urls[i]};
  }

  /** Every run that closes is exact iff URLs of equal priority are equal. */
  lemma AlwaysExactIffUniform(urls: seq<Url>, workersCnt: int)
    requires Sendable(urls)
    ensures (forall t :: Reachable(urls, workersCnt, t) && t.outClosed ==> Exact(t)) <==> Uniform(urls)
  {
    hide Reachable, Exact;
    if Uniform(urls) {
      forall t | Reachable(urls, workersCnt, t) && t.outClosed ensures Exact(t) {
        UniformIsExact(urls, workersCnt, t);
      }
    } else {
      var i, j :| 0 <= i < |urls| && 0 <= j < |urls| && urls[i].priority == urls[j].priority && urls[i] != urls[j];
      var t := SomeRunIsInexact(urls, workersCnt, if i < j then i else j, if i < j then j else i);
    }
  }
}
