/**
  The reference-counted pointer: handles that share a heap-allocated counter, and the object
  that the last of them deletes.

  `delete` is modelled by counting: an object is deleted once for every `delete` of it, so that
  deleting twice and never deleting are both visible.
 */
module SharedPointer {
  import opened Options

  class Expression {
    var deletes: nat

    constructor ()
      ensures deletes == 0
    {
      deletes := 0;
    }
  }

  class Counter {
    var value: int
    var deletes: nat

    constructor ()
      ensures value == 1 && deletes == 0
    {
      value, deletes := 1, 0;
    }
  }

  ghost function Sharers(all: set<SharedPtr>, c: Counter): set<SharedPtr>
    reads all
  {
    set h | h in all && h.counter == c
  }

  ghost predicate Held(all: set<SharedPtr>, e: Expression)
    reads all
  {
    exists h :: h in all && h.ptr == e
  }

  ghost function Counters(all: set<SharedPtr>): set<Counter>
    reads all
  {
    set h | h in all :: h.counter
  }

  /**
    Of all live handles and all objects ever given to one: every counter is the number of
    handles that share it and is still allocated, two handles share a counter exactly when they
    hold the same object, and an object has been deleted once if no handle holds it and not at
    all otherwise.
   */
  ghost predicate Good(all: set<SharedPtr>, made: set<Expression>)
    reads all, Counters(all), made
  {
    Counts(all, null, 0) && Shared(all) && Deleted(all, made)
  }

  /** Every counter is right, except that `c` is ahead by `d`. */
  ghost predicate Counts(all: set<SharedPtr>, c: Counter?, d: int)
    reads all, Counters(all)
  {
    forall h :: h in all ==>
      h.counter.deletes == 0 && h.counter.value == |Sharers(all, h.counter)| + if h.counter == c then d else 0
  }

  ghost predicate Shared(all: set<SharedPtr>)
    reads all
  {
    && (forall g, h :: g in all && h in all && g.counter == h.counter ==> g.ptr == h.ptr)
    && (forall g, h :: g in all && h in all && g.ptr == h.ptr != null ==> g.counter == h.counter)
  }

  ghost predicate Deleted(all: set<SharedPtr>, made: set<Expression>)
    reads all, made
  {
    && (forall h :: h in all && h.ptr != null ==> h.ptr in made)
    && (forall e :: e in made ==> e.deletes == if Held(all, e) then 0 else 1)
  }

  ghost function Objects(e: Expression?): set<Expression> { if e == null then {} else {e} }

  /** A pointer that a handle may take over: not one that was given to a handle before. */
  ghost predicate Fresh(e: Expression?, made: set<Expression>)
    reads e
  {
    e != null ==> e !in made && e.deletes == 0
  }

  class SharedPtr {
    var ptr: Expression?
    var counter: Counter

    constructor (ptr: Expression?, ghost all: set<SharedPtr>, ghost made: set<Expression>)
      requires Good(all, made) && Fresh(ptr, made)
      ensures this.ptr == ptr && fresh(counter)
      ensures Good(all + {this}, made + Objects(ptr))
    {
      this.ptr := ptr;
      counter := new Counter();
      new;
      EnterAlone(all, made, this);
    }

    constructor Copy(other: SharedPtr, ghost all: set<SharedPtr>, ghost made: set<Expression>)
      requires Good(all, made) && other in all
      modifies other.counter
      ensures ptr == other.ptr && counter == other.counter
      ensures Good(all + {this}, made)
    {
      ptr := other.ptr;
      counter := other.counter;
      new;
      Join(other, all, made);
    }

    /** The handle, already pointing where `other` does, adds itself to the count. */
    method Join(other: SharedPtr, ghost all: set<SharedPtr>, ghost made: set<Expression>)
      requires Good(all, made) && other in all && this !in all && counter == other.counter && ptr == other.ptr
      modifies counter`value
      ensures Good(all + {this}, made)
    {
      counter.value := counter.value + 1;
      EnterShared(all, made, this, other);
    }

    method Decrement(ghost all: set<SharedPtr>)
      requires Counts(all, null, 0) && this in all
      modifies counter`value
      ensures Counts(all, counter, -1) && counter.value == |Sharers(all - {this}, counter)|
    {
      SharersLess(all, this);
      counter.value := counter.value - 1;
    }

    method DeleteLast(ghost all: set<SharedPtr>, ghost made: set<Expression>)
      requires Counts(all, counter, -1) && Shared(all) && Deleted(all, made) && this in all
      requires Sharers(all - {this}, counter) == {}
      modifies counter`deletes, Objects(ptr)`deletes
      ensures Good(all - {this}, made) && counter.deletes == 1
    {
      hide Counts, Shared, Held;
      LastCounts(all, this);
      LastHolds(all, made, this);
      if ptr != null { ptr.deletes := ptr.deletes + 1; }
      counter.deletes := counter.deletes + 1;
    }

    /** What destruction, reset and assignment all begin with: the handle gives up its share. */
    method Leave(ghost all: set<SharedPtr>, ghost made: set<Expression>)
      requires Good(all, made) && this in all
      modifies counter, Objects(ptr)
      ensures Good(all - {this}, made)
      ensures counter.deletes == if Sharers(all - {this}, counter) == {} then 1 else 0
    {
      hide Counts, Shared, Deleted, Sharers;
      Decrement(all);
      if counter.value == 0 {
        DeleteLast(all, made);
      } else {
        LeaveShared(all, made, this);
      }
    }

    /** The destructor. */
    method Destroy(ghost all: set<SharedPtr>, ghost made: set<Expression>)
      requires Good(all, made) && this in all
      modifies counter, Objects(ptr)
      ensures Good(all - {this}, made)
      ensures counter.deletes == if Sharers(all - {this}, counter) == {} then 1 else 0
    {
      Leave(all, made);
    }

    /** The second half of a reset: the handle, outside the live ones, takes over `p` alone. */
    method Renew(p: Expression?, ghost all: set<SharedPtr>, ghost made: set<Expression>)
      requires Good(all, made) && this !in all && Fresh(p, made)
      modifies this
      ensures Good(all + {this}, made + Objects(p)) && ptr == p && fresh(counter)
    {
      ptr := p;
      counter := new Counter();
      EnterAlone(all, made, this);
    }

    method Reset(p: Expression?, ghost all: set<SharedPtr>, ghost made: set<Expression>)
      requires Good(all, made) && this in all && Fresh(p, made)
      modifies this, counter, Objects(ptr)
      ensures Good(all, made + Objects(p)) && ptr == p && fresh(counter)
      ensures old(counter).deletes == if old(Sharers(all - {this}, counter)) == {} then 1 else 0
    {
      hide Good, Sharers;
      OwnIsMade(all, made, this);
      Leave(all, made);
      Renew(p, all - {this}, made);
      assert all - {this} + {this} == all;
    }

    /** The second half of an assignment: the handle, outside the live ones, points where `other` does. */
    method Follow(other: SharedPtr, ghost all: set<SharedPtr>, ghost made: set<Expression>)
      requires Good(all, made) && other in all && this !in all
      modifies this, other.counter`value
      ensures Good(all + {this}, made) && ptr == old(other.ptr) && counter == old(other.counter)
    {
      ptr := other.ptr;
      counter := other.counter;
      Join(other, all, made);
    }

    method Assign(other: SharedPtr, ghost all: set<SharedPtr>, ghost made: set<Expression>)
      requires Good(all, made) && this in all && other in all
      modifies this, counter, other.counter, Objects(ptr)
      ensures Good(all, made) && ptr == old(other.ptr) && counter == old(other.counter)
      ensures this != other ==> old(counter).deletes == if old(Sharers(all - {this}, counter)) == {} then 1 else 0
    {
      hide Good, Sharers;
      if this != other {
        Leave(all, made);
        Follow(other, all - {this}, made);
        assert all - {this} + {this} == all;
      }
    }
  }

  lemma OwnIsMade(all: set<SharedPtr>, made: set<Expression>, h: SharedPtr)
    requires Good(all, made) && h in all
    ensures Objects(h.ptr) <= made
  {
  }

  lemma LastCounts(all: set<SharedPtr>, h: SharedPtr)
    requires Counts(all, h.counter, -1) && h in all && Sharers(all - {h}, h.counter) == {}
    ensures Counts(all - {h}, null, 0) && h.counter !in Counters(all - {h}) && h.counter.deletes == 0
  {
    SharersLess(all, h);
    forall g | g in all - {h} ensures g.counter != h.counter {
      assert g !in Sharers(all - {h}, h.counter);
    }
  }

  lemma LastHolds(all: set<SharedPtr>, made: set<Expression>, h: SharedPtr)
    requires Shared(all) && Deleted(all, made) && h in all && Sharers(all - {h}, h.counter) == {}
    ensures Shared(all - {h}) && forall g :: g in all - {h} && g.ptr != null ==> g.ptr in made
    ensures h.ptr != null ==> h.ptr in made && h.ptr.deletes == 0 && !Held(all - {h}, h.ptr)
    ensures forall e :: e in made && e != h.ptr ==> e.deletes == if Held(all - {h}, e) then 0 else 1
  {
    var less := all - {h};
    forall g | g in less ensures g.counter != h.counter {
      assert g !in Sharers(less, h.counter);
    }
    if h.ptr != null { assert Held(all, h.ptr); }
    forall e | e in made && e != h.ptr ensures Held(less, e) <==> Held(all, e) {
      if Held(all, e) {
        var k :| k in all && k.ptr == e;
        assert k in less;
      }
    }
  }

  lemma LeaveShared(all: set<SharedPtr>, made: set<Expression>, h: SharedPtr)
    requires Counts(all, h.counter, -1) && Shared(all) && Deleted(all, made) && h in all
    requires Sharers(all - {h}, h.counter) != {}
    ensures Good(all - {h}, made) && h.counter.deletes == 0
  {
    SharersLess(all, h);
    var less := all - {h};
    var g :| g in Sharers(less, h.counter);
    forall e | e in made ensures e.deletes == if Held(less, e) then 0 else 1 {
      if Held(all, e) {
        var k :| k in all && k.ptr == e;
        if k == h { assert g in less && g.ptr == e; } else { assert k in less; }
      }
    }
  }

  lemma SharersLess(all: set<SharedPtr>, h: SharedPtr)
    requires h in all
    ensures forall c :: Sharers(all - {h}, c) == Sharers(all, c) - {h}
    ensures |Sharers(all - {h}, h.counter)| == |Sharers(all, h.counter)| - 1
  {
    assert Sharers(all - {h}, h.counter) == Sharers(all, h.counter) - {h};
  }

  lemma SharersMore(all: set<SharedPtr>, h: SharedPtr)
    requires h !in all
    ensures forall c :: Sharers(all + {h}, c) == if c == h.counter then Sharers(all, c) + {h} else Sharers(all, c)
    ensures |Sharers(all + {h}, h.counter)| == |Sharers(all, h.counter)| + 1
  {
    assert Sharers(all + {h}, h.counter) == Sharers(all, h.counter) + {h};
  }

  lemma EnterAlone(all: set<SharedPtr>, made: set<Expression>, h: SharedPtr)
    requires Good(all, made) && h !in all && h.counter !in Counters(all) && h.counter.value == 1 && h.counter.deletes == 0
    requires Fresh(h.ptr, made)
    ensures Good(all + {h}, made + Objects(h.ptr))
  {
    SharersMore(all, h);
    assert Sharers(all, h.counter) == {};
    var more, now := all + {h}, made + Objects(h.ptr);
    forall e | e in now ensures e.deletes == if Held(more, e) then 0 else 1 {
      if e == h.ptr {
        assert h in more;
      } else if Held(all, e) {
        var g :| g in all && g.ptr == e;
        assert g in more;
      }
    }
  }

  lemma EnterShared(all: set<SharedPtr>, made: set<Expression>, h: SharedPtr, g: SharedPtr)
    requires g in all && h !in all && h.counter == g.counter && h.ptr == g.ptr
    requires Counts(all, g.counter, 1) && Shared(all) && Deleted(all, made)
    ensures Good(all + {h}, made)
  {
    SharersMore(all, h);
    var more := all + {h};
    forall e | e in made ensures e.deletes == if Held(more, e) then 0 else 1 {
      if Held(all, e) {
        var k :| k in all && k.ptr == e;
        assert k in more;
      }
    }
  }

  // ---------------------------------------------------------------------------
  // Every sequence of operations

  /** One statement on named handles; `alloc` says whether it passes a new object or none. */
  datatype Op = Construct(v: nat, alloc: bool) | CopyFrom(v: nat, src: nat) | AssignFrom(v: nat, src: nat)
              | ResetTo(v: nat, alloc: bool) | Drop(v: nat)

  type Vars = map<nat, SharedPtr>

  /** No two variables are the same handle. */
  ghost predicate Apart(vars: Vars) { forall i, j :: i in vars && j in vars && vars[i] == vars[j] ==> i == j }

  lemma Declared(vars: Vars, v: nat, h: SharedPtr)
    requires Apart(vars) && v !in vars && h !in vars.Values
    ensures Apart(vars[v := h]) && vars[v := h].Values == vars.Values + {h}
  {
    var more := vars[v := h];
    forall g | g in vars.Values + {h} ensures g in more.Values {
      if g == h {
        assert more[v] == h;
      } else {
        var i :| i in vars && vars[i] == g;
        assert more[i] == g;
      }
    }
  }

  lemma Dropped(vars: Vars, v: nat)
    requires Apart(vars) && v in vars
    ensures Apart(vars - {v}) && (vars - {v}).Values == vars.Values - {vars[v]}
  {
    var less := vars - {v};
    forall g | g in vars.Values - {vars[v]} ensures g in less.Values {
      var i :| i in vars && vars[i] == g;
      assert less[i] == g;
    }
  }

  // What a program means, without counters: which variable holds which object, objects being
  // numbered in the order in which they are handed over.

  datatype Meaning = Meaning(holds: map<nat, Option<nat>>, made: nat)

  function Hand(m: Meaning, v: nat, alloc: bool): Meaning {
    if alloc then Meaning(m.holds[v := Some(m.made)], m.made + 1) else m.(holds := m.holds[v := None])
  }

  /** An operation that names the wrong variables is not part of a program and does nothing. */
  function Step(m: Meaning, op: Op): Meaning {
    match op
    case Construct(v, alloc) => if v in m.holds then m else Hand(m, v, alloc)
    case CopyFrom(v, src) => if v in m.holds || src !in m.holds then m else m.(holds := m.holds[v := m.holds[src]])
    case AssignFrom(v, src) => if v !in m.holds || src !in m.holds then m else m.(holds := m.holds[v := m.holds[src]])
    case ResetTo(v, alloc) => if v !in m.holds then m else Hand(m, v, alloc)
    case Drop(v) => m.(holds := m.holds - {v})
  }

  function Means(ops: seq<Op>): Meaning {
    if ops == [] then Meaning(map[], 0) else Step(Means(ops[..|ops| - 1]), ops[|ops| - 1])
  }

  ghost predicate Holds(m: Meaning, k: nat) { exists v :: v in m.holds && m.holds[v] == Some(k) }

  ghost function SetOf(objs: seq<Expression>): set<Expression> { set e | e in objs }

  ghost function Pointee(o: Option<nat>, objs: seq<Expression>): Expression? {
    if o.Some? && o.value < |objs| then objs[o.value] else null
  }

  /** The handles point where the program's meaning says. */
  ghost predicate Agrees(vars: Vars, objs: seq<Expression>, m: Meaning)
    reads vars.Values
  {
    && vars.Keys == m.holds.Keys && |objs| == m.made
    && (forall i, j :: 0 <= i < j < |objs| ==> objs[i] != objs[j])
    && (forall v :: v in vars ==> vars[v].ptr == Pointee(m.holds[v], objs) && (m.holds[v].Some? ==> m.holds[v].value < m.made))
  }

  ghost predicate Running(vars: Vars, objs: seq<Expression>, m: Meaning)
    reads vars.Values, Counters(vars.Values), SetOf(objs)
  {
    Good(vars.Values, SetOf(objs)) && Apart(vars) && Agrees(vars, objs, m)
  }

  ghost function Handed(objs: seq<Expression>, e: Expression?): seq<Expression> { if e == null then objs else objs + [e] }

  method Allocate(alloc: bool, ghost all: set<SharedPtr>, ghost made: set<Expression>) returns (e: Expression?)
    requires Good(all, made)
    ensures Good(all, made) && Fresh(e, made) && (e != null <==> alloc) && fresh(Objects(e))
  {
    e := null;
    if alloc { e := new Expression(); }
  }

  method ConstructNew(alloc: bool, ghost all: set<SharedPtr>, ghost made: set<Expression>) returns (h: SharedPtr, ghost e: Expression?)
    requires Good(all, made)
    ensures Good(all + {h}, made + Objects(e)) && fresh(h) && fresh(h.counter) && h.ptr == e
    ensures (e != null <==> alloc) && fresh(Objects(e))
  {
    hide Good;
    var o := Allocate(alloc, all, made);
    h := new SharedPtr(o, all, made);
    e := o;
  }

  method CopyNew(other: SharedPtr, ghost all: set<SharedPtr>, ghost made: set<Expression>) returns (h: SharedPtr)
    requires Good(all, made) && other in all
    modifies other.counter
    ensures Good(all + {h}, made) && fresh(h) && h.counter == other.counter && h.ptr == other.ptr
  {
    hide Good;
    h := new SharedPtr.Copy(other, all, made);
  }

  method ResetNew(h: SharedPtr, alloc: bool, ghost all: set<SharedPtr>, ghost made: set<Expression>) returns (ghost e: Expression?)
    requires Good(all, made) && h in all
    modifies h, h.counter, Objects(h.ptr)
    ensures Good(all, made + Objects(e)) && fresh(h.counter) && h.ptr == e
    ensures (e != null <==> alloc) && fresh(Objects(e))
    ensures forall c :: c in old(Counters(all)) && c !in Counters(all) ==> c.deletes == 1
  {
    hide Good;
    ghost var was, own, others := Counters(all), h.counter, Sharers(all - {h}, h.counter);
    assert was <= Counters(all - {h}) + {own};
    var o := Allocate(alloc, all, made);
    h.Reset(o, all, made);
    Retired(all, h, was, own, others);
    e := o;
  }

  lemma HandedSet(objs: seq<Expression>, e: Expression?)
    ensures SetOf(Handed(objs, e)) == SetOf(objs) + Objects(e)
  {
  }

  method ExecuteConstruct(v: nat, alloc: bool, vars: Vars, ghost objs: seq<Expression>, ghost m: Meaning)
    returns (after: Vars, ghost now: seq<Expression>)
    requires Running(vars, objs, m) && v !in vars
    ensures Running(after, now, Step(m, Construct(v, alloc))) && fresh(SetOf(now) - SetOf(objs))
    ensures fresh(after.Values - vars.Values) && fresh(Counters(after.Values) - old(Counters(vars.Values)))
    ensures vars.Values <= after.Values
  {
    hide Good;
    var h;
    ghost var e;
    h, e := ConstructNew(alloc, vars.Values, SetOf(objs));
    Declared(vars, v, h);
    HandedSet(objs, e);
    after, now := vars[v := h], Handed(objs, e);
  }

  method ExecuteCopy(v: nat, src: nat, vars: Vars, ghost objs: seq<Expression>, ghost m: Meaning) returns (after: Vars)
    requires Running(vars, objs, m) && v !in vars && src in vars
    modifies vars[src].counter
    ensures Running(after, objs, Step(m, CopyFrom(v, src)))
    ensures fresh(after.Values - vars.Values) && Counters(after.Values) <= old(Counters(vars.Values))
    ensures vars.Values <= after.Values
  {
    hide Good;
    var h := CopyNew(vars[src], vars.Values, SetOf(objs));
    Declared(vars, v, h);
    after := vars[v := h];
  }

  method ExecuteAssign(v: nat, src: nat, vars: Vars, ghost objs: seq<Expression>, ghost m: Meaning)
    requires Running(vars, objs, m) && v in vars && src in vars
    modifies vars[v], vars[v].counter, vars[src].counter, Objects(vars[v].ptr)
    ensures Running(vars, objs, Step(m, AssignFrom(v, src)))
    ensures Counters(vars.Values) <= old(Counters(vars.Values))
    ensures forall c :: c in old(Counters(vars.Values)) && c !in Counters(vars.Values) ==> c.deletes == 1
  {
    hide Good;
    ghost var h, was, own := vars[v], Counters(vars.Values), vars[v].counter;
    ghost var others := Sharers(vars.Values - {h}, own);
    assert was <= Counters(vars.Values - {h}) + {own};
    vars[v].Assign(vars[src], vars.Values, SetOf(objs));
    Retired(vars.Values, h, was, own, others);
  }

  method ExecuteReset(v: nat, alloc: bool, vars: Vars, ghost objs: seq<Expression>, ghost m: Meaning) returns (ghost now: seq<Expression>)
    requires Running(vars, objs, m) && v in vars
    modifies vars[v], vars[v].counter, Objects(vars[v].ptr)
    ensures Running(vars, now, Step(m, ResetTo(v, alloc))) && fresh(SetOf(now) - SetOf(objs))
    ensures fresh(Counters(vars.Values) - old(Counters(vars.Values)))
    ensures forall c :: c in old(Counters(vars.Values)) && c !in Counters(vars.Values) ==> c.deletes == 1
  {
    hide Good;
    ghost var e := ResetNew(vars[v], alloc, vars.Values, SetOf(objs));
    HandedSet(objs, e);
    now := Handed(objs, e);
  }

  method ExecuteDrop(v: nat, vars: Vars, ghost objs: seq<Expression>, ghost m: Meaning) returns (after: Vars)
    requires Running(vars, objs, m) && v in vars
    modifies vars[v].counter, Objects(vars[v].ptr)
    ensures Running(after, objs, Step(m, Drop(v))) && after.Values <= vars.Values
    ensures Counters(after.Values) <= old(Counters(vars.Values))
    ensures forall c :: c in old(Counters(vars.Values)) && c !in Counters(after.Values) ==> c.deletes == 1
  {
    hide Good;
    vars[v].Destroy(vars.Values, SetOf(objs));
    Dropped(vars, v);
    after := vars - {v};
    LeftAlone(vars.Values, vars[v]);
  }

  /** A counter that was in use and is not any more was used by handle h alone. */
  lemma Retired(all: set<SharedPtr>, h: SharedPtr, was: set<Counter>, own: Counter, others: set<SharedPtr>)
    requires h in all && was <= Counters(all - {h}) + {own}
    requires forall g :: g in others ==> g in all - {h} && g.counter == own
    ensures forall c :: c in was && c !in Counters(all) ==> c == own && others == {}
  {
    assert Counters(all - {h}) <= Counters(all);
    if g :| g in others { assert own in Counters(all); }
  }

  lemma LeftAlone(all: set<SharedPtr>, h: SharedPtr)
    requires h in all
    ensures forall c :: c in Counters(all) && c !in Counters(all - {h}) ==> c == h.counter && Sharers(all - {h}, c) == {}
  {
    forall c | c in Counters(all) && c !in Counters(all - {h}) ensures c == h.counter && Sharers(all - {h}, c) == {} {
      var g :| g in all && g.counter == c;
    }
  }

  method Execute(op: Op, vars: Vars, ghost objs: seq<Expression>, ghost m: Meaning) returns (after: Vars, ghost now: seq<Expression>)
    requires Running(vars, objs, m)
    modifies vars.Values, Counters(vars.Values), SetOf(objs)
    ensures Running(after, now, Step(m, op)) && fresh(SetOf(now) - SetOf(objs))
    ensures fresh(after.Values - vars.Values) && fresh(Counters(after.Values) - old(Counters(vars.Values)))
    ensures forall c :: c in old(Counters(vars.Values)) && c !in Counters(after.Values) ==> c.deletes == 1
  {
    hide Running, Apart, Agrees, Good, Step;
    after, now := vars, objs;
    SameNames(vars, objs, m);
    if op.v in vars { OwnPointee(vars, objs, m, op.v); }
    match op
    case Construct(v, alloc) =>
      if v !in vars {
        after, now := ExecuteConstruct(v, alloc, vars, objs, m);
        MoreCounters(vars.Values, after.Values);
      } else { StepSkips(m, op); }
    case CopyFrom(v, src) =>
      if v !in vars && src in vars {
        after := ExecuteCopy(v, src, vars, objs, m);
        MoreCounters(vars.Values, after.Values);
      } else { StepSkips(m, op); }
    case AssignFrom(v, src) =>
      if v in vars && src in vars { ExecuteAssign(v, src, vars, objs, m); } else { StepSkips(m, op); }
    case ResetTo(v, alloc) =>
      if v in vars { now := ExecuteReset(v, alloc, vars, objs, m); } else { StepSkips(m, op); }
    case Drop(v) =>
      if v in vars { after := ExecuteDrop(v, vars, objs, m); } else { StepSkips(m, op); }
  }

  lemma MoreCounters(less: set<SharedPtr>, all: set<SharedPtr>)
    requires less <= all
    ensures Counters(less) <= Counters(all)
  {
  }

  lemma SameNames(vars: Vars, objs: seq<Expression>, m: Meaning)
    requires Running(vars, objs, m)
    ensures vars.Keys == m.holds.Keys
  {
  }

  lemma OwnPointee(vars: Vars, objs: seq<Expression>, m: Meaning, v: nat)
    requires Running(vars, objs, m) && v in vars
    ensures Objects(vars[v].ptr) <= SetOf(objs)
  {
  }

  predicate Skips(m: Meaning, op: Op) {
    match op
    case Construct(v, _) => v in m.holds
    case CopyFrom(v, src) => v in m.holds || src !in m.holds
    case AssignFrom(v, src) => v !in m.holds || src !in m.holds
    case ResetTo(v, _) => v !in m.holds
    case Drop(v) => v !in m.holds
  }

  lemma StepSkips(m: Meaning, op: Op)
    requires Skips(m, op)
    ensures Step(m, op) == m
  {
    if op.Drop? { assert m.holds - {op.v} == m.holds; }
  }

  /**
    Any sequence of operations leaves each variable holding what its meaning says, each counter at
    the number of handles that share it, and each object and each counter ever made deleted exactly
    once if no variable holds it and not at all while one does.
   */
  method ExecuteAll(ops: seq<Op>) returns (vars: Vars, ghost objs: seq<Expression>, ghost counters: set<Counter>)
    ensures Running(vars, objs, Means(ops))
    ensures Counters(vars.Values) <= counters && forall c :: c in counters ==> c.deletes == if c in Counters(vars.Values) then 0 else 1
    ensures forall k: nat :: k < |objs| ==> objs[k].deletes == if Holds(Means(ops), k) then 0 else 1
    ensures forall v :: v in vars && vars[v].ptr != null ==> vars[v].counter.value == Count(Means(ops), v)
  {
    hide Good, Step, Running, Holds, Count, Counters;
    vars, objs, counters := map[], [], {};
    NothingYet(vars, objs);
    for i := 0 to |ops|
      invariant Running(vars, objs, Means(ops[..i]))
      invariant fresh(SetOf(objs)) && fresh(vars.Values) && fresh(counters) && Counters(vars.Values) <= counters
      invariant forall c :: c in counters ==> c.deletes == if c in Counters(vars.Values) then 0 else 1
    {
      assert ops[..i + 1][..i] == ops[..i];
      vars, objs := Execute(ops[i], vars, objs, Means(ops[..i]));
      InUse(vars, objs, Means(ops[..i + 1]));
      counters := counters + Counters(vars.Values);
    }
    assert ops[..|ops|] == ops;
    DeletedIff(vars, objs, Means(ops));
    CountIs(vars, objs, Means(ops));
  }

  lemma NothingYet(vars: Vars, objs: seq<Expression>)
    requires vars == map[] && objs == []
    ensures Running(vars, objs, Means([])) && Counters(vars.Values) == {}
  {
  }

  lemma InUse(vars: Vars, objs: seq<Expression>, m: Meaning)
    requires Running(vars, objs, m)
    ensures forall c :: c in Counters(vars.Values) ==> c.deletes == 0
  {
  }

  lemma DeletedIff(vars: Vars, objs: seq<Expression>, m: Meaning)
    requires Running(vars, objs, m)
    ensures forall k: nat :: k < |objs| ==> objs[k].deletes == if Holds(m, k) then 0 else 1
  {
    forall k: nat | k < |objs| ensures Held(vars.Values, objs[k]) <==> Holds(m, k) {
      if Holds(m, k) {
        var v :| v in m.holds && m.holds[v] == Some(k);
        assert vars[v] in vars.Values && vars[v].ptr == objs[k];
      }
      if Held(vars.Values, objs[k]) {
        var h :| h in vars.Values && h.ptr == objs[k];
        var v :| v in vars && vars[v] == h;
        assert m.holds[v] == Some(k);
      }
    }
    assert forall k: nat :: k < |objs| ==> objs[k] in SetOf(objs);
  }

  ghost function Namesakes(m: Meaning, v: nat): set<nat> {
    set u | u in m.holds && v in m.holds && m.holds[u] == m.holds[v]
  }

  /** How many variables hold what `v` holds. */
  ghost function Count(m: Meaning, v: nat): nat { |Namesakes(m, v)| }

  ghost function HandlesNamed(vars: Vars, names: set<nat>): set<SharedPtr> {
    set v | v in names && v in vars :: vars[v]
  }

  lemma {:induction false} HandlesOf(vars: Vars, names: set<nat>)
    requires Apart(vars) && names <= vars.Keys
    ensures |HandlesNamed(vars, names)| == |names|
  {
    if names != {} {
      var u :| u in names;
      var less := names - {u};
      HandlesOf(vars, less);
      assert HandlesNamed(vars, names) == HandlesNamed(vars, less) + {vars[u]};
    }
  }

  lemma CountIs(vars: Vars, objs: seq<Expression>, m: Meaning)
    requires Running(vars, objs, m)
    ensures forall v :: v in vars && vars[v].ptr != null ==> vars[v].counter.value == Count(m, v)
  {
    forall v | v in vars && vars[v].ptr != null ensures vars[v].counter.value == Count(m, v) {
      CountOf(vars, objs, m, v);
    }
  }

  lemma CountOf(vars: Vars, objs: seq<Expression>, m: Meaning, v: nat)
    requires Running(vars, objs, m) && v in vars && vars[v].ptr != null
    ensures vars[v].counter.value == Count(m, v)
  {
    hide Good, Running, Sharers;
    SameNames(vars, objs, m);
    var names := Namesakes(m, v);
    CounterIs(vars, objs, m, v);
    HandlesOf(vars, names);
    var handles := HandlesNamed(vars, names);
    var sharers := Sharers(vars.Values, vars[v].counter);
    forall h | h in handles ensures h in sharers {
      SharesIff(vars, objs, m, v, h);
    }
    forall h | h in sharers ensures h in handles {
      SharesIff(vars, objs, m, v, h);
    }
    assert handles == sharers;
  }

  lemma CounterIs(vars: Vars, objs: seq<Expression>, m: Meaning, v: nat)
    requires Running(vars, objs, m) && v in vars
    ensures Apart(vars) && vars[v].counter.value == |Sharers(vars.Values, vars[v].counter)|
  {
    assert vars[v] in vars.Values;
  }

  lemma SharesIff(vars: Vars, objs: seq<Expression>, m: Meaning, v: nat, h: SharedPtr)
    requires Running(vars, objs, m) && v in vars && vars[v].ptr != null
    ensures h in Sharers(vars.Values, vars[v].counter) <==> exists u :: u in m.holds && m.holds[u] == m.holds[v] && vars[u] == h
  {
    assert vars[v] in vars.Values;
    if h in vars.Values {
      var u :| u in vars && vars[u] == h;
      assert h.ptr == vars[v].ptr <==> m.holds[u] == m.holds[v];
    }
  }
}
