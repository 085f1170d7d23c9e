/**
  The doubly linked list of lines in `problem-3`, and the bubble sort that the
  sorting thread runs on it while it holds the mutex.  The sort relinks nodes; it
  never touches a node's line.
 */
module ListSort {

  class Node {
    const line: string
    var next: Node?
    var prev: Node?

    constructor (line: string)
      ensures this.line == line && next == null && prev == null
    {
      this.line := line;
      next, prev := null, null;
    }
  }

  /** The sign of `strcmp`: -1, 0 or 1, decided at the first difference. */
  function Compare(a: string, b: string): int {
    if a == [] && b == [] then 0
    else if a == [] then -1
    else if b == [] then 1
    else if a[0] < b[0] then -1
    else if a[0] > b[0] then 1
    else Compare(a[1..], b[1..])
  }

  /** At position k the two lines part: a ends there, or has the smaller character. */
  ghost predicate PartsAt(a: string, b: string, k: nat) {
    k <= |a| && k < |b| && a[..k] == b[..k] && (k < |a| ==> a[k] < b[k])
  }

  /** a is a proper prefix of b, or smaller at the first difference. */
  ghost predicate Precedes(a: string, b: string) { exists k: nat :: PartsAt(a, b, k) }

  /** The sign says which line comes first in dictionary order. */
  lemma {:induction false} CompareIs(a: string, b: string)
    ensures Compare(a, b) < 0 <==> Precedes(a, b)
    ensures Compare(a, b) > 0 <==> Precedes(b, a)
    ensures Compare(a, b) == 0 <==> a == b
  {
    if a == [] || b == [] || a[0] != b[0] {
      FirstParts(a, b);
      FirstParts(b, a);
    } else {
      CompareIs(a[1..], b[1..]);
      LaterParts(a, b);
      LaterParts(b, a);
      assert a == [a[0]] + a[1..] && b == [b[0]] + b[1..];
    }
  }

  lemma FirstParts(a: string, b: string)
    requires a == [] || b == [] || a[0] != b[0]
    ensures Precedes(a, b) <==> b != [] && (a == [] || a[0] < b[0])
  {
    if k: nat :| PartsAt(a, b, k) {
      if k > 0 { SharedFirst(a, b, k); }
    }
    if b != [] && (a == [] || a[0] < b[0]) { assert PartsAt(a, b, 0); }
  }

  lemma SharedFirst(a: string, b: string, k: nat)
    requires PartsAt(a, b, k) && k > 0
    ensures a[0] == b[0]
  {
    assert a[0] == a[..k][0] && b[0] == b[..k][0];
  }

  lemma LaterParts(a: string, b: string)
    requires a != [] && b != [] && a[0] == b[0]
    ensures Precedes(a, b) <==> Precedes(a[1..], b[1..])
  {
    if k: nat :| PartsAt(a, b, k) {
      assert k > 0 && a[1..][..k - 1] == a[..k][1..] && b[1..][..k - 1] == b[..k][1..];
      assert PartsAt(a[1..], b[1..], k - 1);
    }
    if k: nat :| PartsAt(a[1..], b[1..], k) {
      assert a[..k + 1] == [a[0]] + a[1..][..k] && b[..k + 1] == [b[0]] + b[1..][..k];
      assert PartsAt(a, b, k + 1);
    }
  }

  lemma {:induction false} CompareIsAntisymmetric(a: string, b: string)
    ensures Compare(a, b) == -Compare(b, a)
    ensures Compare(a, b) == 0 <==> a == b
  {
    if a != [] && b != [] {
      if a[0] == b[0] {
        CompareIsAntisymmetric(a[1..], b[1..]);
        assert a == [a[0]] + a[1..] && b == [b[0]] + b[1..];
      }
    }
  }

  lemma {:induction false} CompareIsTransitive(a: string, b: string, c: string)
    requires Compare(a, b) <= 0 && Compare(b, c) <= 0
    ensures Compare(a, c) <= 0
  {
    if a != [] && b != [] && c != [] && a[0] == b[0] == c[0] {
      CompareIsTransitive(a[1..], b[1..], c[1..]);
    }
  }

  // ---------------------------------------------------------------------------
  // List shape

  /** The node at position i, or null just outside the list. */
  ghost function At(nodes: seq<Node>, i: int): Node? {
    if 0 <= i < |nodes| then nodes[i] else null
  }

  ghost predicate Distinct(nodes: seq<Node>) {
    forall i, j :: 0 <= i < j < |nodes| ==> nodes[i] != nodes[j]
  }

  /** `nodes` lists the nodes from `head` on, and `prev` mirrors `next` throughout. */
  ghost predicate Chain(head: Node?, nodes: seq<Node>)
    reads nodes
  {
    && Distinct(nodes)
    && head == At(nodes, 0)
    && (forall i {:trigger nodes[i].next} :: 0 <= i < |nodes| ==> nodes[i].next == At(nodes, i + 1))
    && (forall i {:trigger nodes[i].prev} :: 0 <= i < |nodes| ==> nodes[i].prev == At(nodes, i - 1))
  }

  // ---------------------------------------------------------------------------
  // Order and stability

  ghost predicate LessEq(a: Node, b: Node) {
    Compare(a.line, b.line) <= 0
  }

  ghost predicate Sorted(nodes: seq<Node>) {
    forall i, j :: 0 <= i < j < |nodes| ==> LessEq(nodes[i], nodes[j])
  }

  /** The nodes that hold exactly this line, in list order. */
  ghost function Having(nodes: seq<Node>, key: string): seq<Node> {
    if nodes == [] then [] else Keep(nodes[0], key) + Having(nodes[1..], key)
  }

  ghost function Keep(n: Node, key: string): seq<Node> {
    if n.line == key then [n] else []
  }

  /** Same nodes, and nodes with equal lines keep their relative order. */
  ghost predicate StablePermutation(a: seq<Node>, b: seq<Node>) {
    multiset(a) == multiset(b) && forall key :: Having(a, key) == Having(b, key)
  }

  /** What one `swap` does to the list order. */
  ghost function Swapped(nodes: seq<Node>, i: nat): (r: seq<Node>)
    requires i + 1 < |nodes|
    ensures |r| == |nodes| && r[i] == nodes[i + 1] && r[i + 1] == nodes[i]
    ensures forall k :: 0 <= k < |r| && k != i && k != i + 1 ==> r[k] == nodes[k]
  {
    nodes[i := nodes[i + 1]][i + 1 := nodes[i]]
  }

  lemma SwappedStaysDistinct(nodes: seq<Node>, i: nat)
    requires i + 1 < |nodes| && Distinct(nodes)
    ensures Distinct(Swapped(nodes, i))
    ensures forall n <- nodes :: n in Swapped(nodes, i)
  {
    forall n <- nodes ensures n in Swapped(nodes, i) {
      var k :| 0 <= k < |nodes| && nodes[k] == n;
      assert n == Swapped(nodes, i)[if k == i then i + 1 else if k == i + 1 then i else k];
    }
  }

  lemma {:induction false} SwapKeepsGroup(pre: seq<Node>, l: Node, r: Node, post: seq<Node>, key: string)
    requires l.line != r.line
    ensures Having(pre + [l, r] + post, key) == Having(pre + [r, l] + post, key)
  {
    var a, b := pre + [l, r] + post, pre + [r, l] + post;
    if pre == [] {
      assert a[1..] == [r] + post && a[1..][1..] == post;
      assert b[1..] == [l] + post && b[1..][1..] == post;
    } else {
      assert a[1..] == pre[1..] + [l, r] + post && b[1..] == pre[1..] + [r, l] + post;
      SwapKeepsGroup(pre[1..], l, r, post, key);
    }
  }

  lemma SwappedIsStable(nodes: seq<Node>, i: nat)
    requires i + 1 < |nodes|
    requires nodes[i].line != nodes[i + 1].line
    ensures StablePermutation(nodes, Swapped(nodes, i))
  {
    var pre, post := nodes[..i], nodes[i + 2..];
    var l, r := nodes[i], nodes[i + 1];
    assert nodes == pre + [l, r] + post;
    assert Swapped(nodes, i) == pre + [r, l] + post;
    assert multiset(nodes) == multiset(pre) + multiset([l, r]) + multiset(post);
    assert multiset(Swapped(nodes, i)) == multiset(pre) + multiset([r, l]) + multiset(post);
    forall key ensures Having(nodes, key) == Having(Swapped(nodes, i), key) {
      SwapKeepsGroup(pre, l, r, post, key);
    }
  }

  lemma {:induction false} HavingIsPart(nodes: seq<Node>, key: string, n: Node)
    requires n in Having(nodes, key)
    ensures n in nodes
  {
    if nodes[0] != n { HavingIsPart(nodes[1..], key, n); }
  }

  lemma {:induction false} HavingContains(nodes: seq<Node>, n: Node)
    requires n in nodes
    ensures n in Having(nodes, n.line)
  {
    if nodes[0] != n { HavingContains(nodes[1..], n); }
  }

  /** Sortedness and stability leave one possible outcome. */
  lemma {:induction false} StableSortIsUnique(a: seq<Node>, b: seq<Node>)
    requires Sorted(a) && Sorted(b)
    requires forall key :: Having(a, key) == Having(b, key)
    ensures a == b
  {
    hide Compare;
    if a != [] {
      HavingContains(a, a[0]);
      assert b != [];
      HavingContains(b, b[0]);
      FirstIsLeast(a, b);
      FirstIsLeast(b, a);
      CompareIsAntisymmetric(a[0].line, b[0].line);
      assert Having(a, a[0].line)[0] == a[0];
      assert Having(b, b[0].line)[0] == b[0];
      assert a[0] == b[0];
      forall key ensures Having(a[1..], key) == Having(b[1..], key) {
        var f := Keep(a[0], key);
        assert Having(a, key) == f + Having(a[1..], key);
        assert Having(b, key) == f + Having(b[1..], key);
        assert Having(a[1..], key) == Having(a, key)[|f|..];
        assert Having(b[1..], key) == Having(b, key)[|f|..];
      }
      StableSortIsUnique(a[1..], b[1..]);
      assert a == [a[0]] + a[1..] && b == [b[0]] + b[1..];
    }
  }

  lemma FirstIsLeast(a: seq<Node>, b: seq<Node>)
    requires a != [] && b != [] && Sorted(a)
    requires forall key :: Having(a, key) == Having(b, key)
    ensures LessEq(a[0], b[0])
  {
    HavingContains(b, b[0]);
    HavingIsPart(a, b[0].line, b[0]);
    var k :| 0 <= k < |a| && a[k] == b[0];
    CompareIsAntisymmetric(a[0].line, a[0].line);
  }

  // ---------------------------------------------------------------------------
  // What sorted and stable say of positions

  /** Every earlier line is the same as a later one or comes before it. */
  ghost predicate Ascending(nodes: seq<Node>) {
    forall i, j :: 0 <= i < j < |nodes| ==> nodes[i].line == nodes[j].line || Precedes(nodes[i].line, nodes[j].line)
  }

  lemma SortedAscends(nodes: seq<Node>)
    requires Sorted(nodes)
    ensures Ascending(nodes)
  {
    hide Compare, Precedes;
    forall i, j | 0 <= i < j < |nodes| ensures nodes[i].line == nodes[j].line || Precedes(nodes[i].line, nodes[j].line) {
      assert LessEq(nodes[i], nodes[j]);
      CompareIs(nodes[i].line, nodes[j].line);
    }
  }

  /** Nodes with equal lines stand in the same order in both. */
  ghost predicate SameOrder(a: seq<Node>, b: seq<Node>) {
    forall i, j, p, q | 0 <= i < j < |a| && 0 <= p < |b| && 0 <= q < |b| && a[i].line == a[j].line ::
      b[p] == a[i] && b[q] == a[j] ==> p < q
  }

  lemma {:induction false} PlacesIn(nodes: seq<Node>, key: string, i: nat, j: nat) returns (u: nat, v: nat)
    requires i < j < |nodes| && nodes[i].line == nodes[j].line == key
    ensures u < v < |Having(nodes, key)| && Having(nodes, key)[u] == nodes[i] && Having(nodes, key)[v] == nodes[j]
  {
    var rest := nodes[1..];
    if i == 0 {
      HavingContains(rest, nodes[j]);
      var w :| 0 <= w < |Having(rest, key)| && Having(rest, key)[w] == nodes[j];
      u, v := 0, w + 1;
    } else {
      u, v := PlacesIn(rest, key, i - 1, j - 1);
      var f := |Keep(nodes[0], key)|;
      u, v := u + f, v + f;
    }
  }

  lemma {:induction false} HavingDistinct(nodes: seq<Node>, key: string)
    requires Distinct(nodes)
    ensures Distinct(Having(nodes, key))
  {
    if nodes != [] {
      var rest := nodes[1..];
      HavingDistinct(rest, key);
      if nodes[0].line == key && nodes[0] in Having(rest, key) {
        HavingIsPart(rest, key, nodes[0]);
      }
    }
  }

  lemma StableKeepsOrder(a: seq<Node>, b: seq<Node>)
    requires StablePermutation(a, b) && Distinct(a) && Distinct(b)
    ensures SameOrder(a, b)
  {
    hide Having;
    forall i, j, p, q | 0 <= i < j < |a| && 0 <= p < |b| && 0 <= q < |b| && a[i].line == a[j].line && b[p] == a[i] && b[q] == a[j]
      ensures p < q
    {
      if q < p {
        var key := a[i].line;
        var u, v := PlacesIn(a, key, i, j);
        var w, x := PlacesIn(b, key, q, p);
        HavingDistinct(a, key);
      }
    }
  }

  // ---------------------------------------------------------------------------
  // Facts the sorting loops use

  /** From position m on every node is in its final place. */
  ghost predicate Settled(nodes: seq<Node>, m: nat) {
    forall i, j :: 0 <= i < j < |nodes| && m <= j ==> LessEq(nodes[i], nodes[j])
  }

  /** Position c holds a largest line among positions 0 to c. */
  ghost predicate Largest(nodes: seq<Node>, c: nat)
    requires c < |nodes|
  {
    forall i :: 0 <= i < c ==> LessEq(nodes[i], nodes[c])
  }

  ghost predicate SortedUpTo(nodes: seq<Node>, c: nat)
    requires c < |nodes|
  {
    forall i, j :: 0 <= i < j <= c ==> LessEq(nodes[i], nodes[j])
  }

  lemma FirstAlone(nodes: seq<Node>)
    requires nodes != []
    ensures Largest(nodes, 0) && SortedUpTo(nodes, 0)
  {
  }

  lemma SortedMovesOn(nodes: seq<Node>, c: nat)
    requires c + 1 < |nodes| && SortedUpTo(nodes, c) && Largest(nodes, c + 1)
    ensures SortedUpTo(nodes, c + 1)
  {
  }

  lemma PassEnds(nodes: seq<Node>, m: nat)
    requires 1 <= m <= |nodes| && Largest(nodes, m - 1) && Settled(nodes, m)
    ensures Settled(nodes, m - 1) && (SortedUpTo(nodes, m - 1) ==> Sorted(nodes))
  {
    hide LessEq;
    if SortedUpTo(nodes, m - 1) {
      forall i, j | 0 <= i < j < |nodes| ensures LessEq(nodes[i], nodes[j]) {
      }
    }
  }

  lemma LargestMovesOn(nodes: seq<Node>, c: nat)
    requires c + 1 < |nodes| && Largest(nodes, c) && LessEq(nodes[c], nodes[c + 1])
    ensures Largest(nodes, c + 1)
  {
    forall i | 0 <= i < c ensures LessEq(nodes[i], nodes[c + 1]) {
      CompareIsTransitive(nodes[i].line, nodes[c].line, nodes[c + 1].line);
    }
  }

  lemma LargestIsCarried(nodes: seq<Node>, c: nat, m: nat)
    requires c + 1 < m <= |nodes| && Largest(nodes, c) && Settled(nodes, m)
    requires !LessEq(nodes[c], nodes[c + 1])
    ensures Largest(Swapped(nodes, c), c + 1) && Settled(Swapped(nodes, c), m)
  {
    CompareIsAntisymmetric(nodes[c].line, nodes[c + 1].line);
  }

  lemma CarryStep(start: seq<Node>, nodes: seq<Node>, c: nat, m: nat)
    requires c + 1 < m <= |nodes| && Largest(nodes, c) && Settled(nodes, m)
    requires StablePermutation(start, nodes)
    requires Compare(nodes[c].line, nodes[c + 1].line) > 0
    ensures Largest(Swapped(nodes, c), c + 1) && Settled(Swapped(nodes, c), m)
    ensures StablePermutation(start, Swapped(nodes, c))
  {
    CompareIsAntisymmetric(nodes[c].line, nodes[c + 1].line);
    LargestIsCarried(nodes, c, m);
    SwappedIsStable(nodes, c);
    StableIsTransitive(start, nodes, Swapped(nodes, c));
  }

  lemma StableIsReflexive(a: seq<Node>)
    ensures StablePermutation(a, a)
  {
  }

  lemma StableIsTransitive(a: seq<Node>, b: seq<Node>, c: seq<Node>)
    requires StablePermutation(a, b) && StablePermutation(b, c)
    ensures StablePermutation(a, c)
  {
    forall key ensures Having(a, key) == Having(c, key) {
      assert Having(a, key) == Having(b, key);
    }
  }

  /**
    Exchanges two neighbouring nodes of a list by relinking.  `nodes` and `i` name the
    list and the position of `l`.  When `r` does not follow `l`, nothing is written.
   */
  method Swap(l: Node, r: Node, ghost nodes: seq<Node>, ghost i: nat, ghost repr: set<Node>) returns (res: int)
    requires Chain(At(nodes, 0), nodes) && i < |nodes| && nodes[i] == l
    requires forall n <- nodes :: n in repr
    modifies repr
    ensures res == if old(l.next) == r then 0 else 1
    ensures res == 1 ==> Chain(At(nodes, 0), nodes)
    ensures forall n <- repr :: res == 1 || n !in nodes ==> n.next == old(n.next) && n.prev == old(n.prev)
    ensures res == 0 ==> i + 1 < |nodes| && r == nodes[i + 1]
    ensures res == 0 ==> Chain(At(Swapped(nodes, i), 0), Swapped(nodes, i))
  {
    if l.next != r {
      return 1;
    }
    hide Swapped, Distinct;
    ghost var now, before, after := Swapped(nodes, i), At(nodes, i - 1), At(nodes, i + 2);
    SwappedStaysDistinct(nodes, i);
    Neighbours(nodes, i);
    Relink(l, r);
    forall k | 0 <= k < |now| ensures now[k].next == At(now, k + 1) {
      if k != i - 1 && k != i && k != i + 1 {
        Elsewhere(nodes, i, k);
        assert now[k].next == old(now[k].next);
      }
    }
    forall k | 0 <= k < |now| ensures now[k].prev == At(now, k - 1) {
      if k != i + 2 && k != i && k != i + 1 {
        Elsewhere(nodes, i, k);
        assert now[k].prev == old(now[k].prev);
      }
    }
    return 0;
  }

  /** The four nodes around an exchange are different. */
  lemma Neighbours(nodes: seq<Node>, i: nat)
    requires Distinct(nodes) && i + 1 < |nodes|
    ensures var before, l, r, after := At(nodes, i - 1), nodes[i], nodes[i + 1], At(nodes, i + 2);
      l != r && before != l && before != r && after != l && after != r && (after == null || after != before)
  {
  }

  lemma Elsewhere(nodes: seq<Node>, i: nat, k: nat)
    requires Distinct(nodes) && i + 1 < |nodes| && k < |nodes| && k != i && k != i + 1
    ensures nodes[k] != nodes[i] && nodes[k] != nodes[i + 1]
    ensures k != i - 1 ==> nodes[k] != At(nodes, i - 1)
    ensures k != i + 2 ==> nodes[k] != At(nodes, i + 2)
  {
  }

  ghost function Some(n: Node?): set<Node> { if n == null then {} else {n} }

  /** The pointer writes of `swap`. */
  method Relink(l: Node, r: Node)
    requires l.next == r && l != r && l.prev != l && l.prev != r && r.next != l && r.next != r && (r.next == null || r.next != l.prev)
    modifies l, r, Some(r.next)`prev, Some(l.prev)`next
    ensures r.next == l && l.prev == r && l.next == old(r.next) && r.prev == old(l.prev)
    ensures old(r.next) != null ==> old(r.next).prev == l
    ensures old(l.prev) != null ==> old(l.prev).next == r
  {
    l.next := r.next;
    if r.next != null {
      r.next.prev := l;
    }
    if l.prev != null {
      l.prev.next := r;
    }
    r.prev := l.prev;
    l.prev := r;
    r.next := l;
  }

  /** The shared list: `head` is the C program's `*list`. */
  class LineList {
    var head: Node?
    ghost var nodes: seq<Node>
    ghost var repr: set<Node>

    ghost predicate Valid()
      reads this, repr
    {
      (forall n <- nodes :: n in repr) && (forall n <- repr :: n in nodes) && Chain(head, nodes)
    }

    constructor ()
      ensures Valid() && nodes == [] && repr == {}
    {
      head, nodes, repr := null, [], {};
    }

    method AddToHead(val: string)
      requires Valid()
      modifies this, repr
      ensures Valid()
      ensures |nodes| == |old(nodes)| + 1 && nodes[1..] == old(nodes)
      ensures fresh(nodes[0]) && repr == old(repr) + {nodes[0]} && nodes[0].line == val
    {
      var node := new Node(val);
      if head == null {
        head := node;
      } else {
        node.next := head;
        head.prev := node;
        head := node;
      }
      nodes, repr := [node] + nodes, repr + {node};
    }

    /** The body of the sort's inner loop when the two lines are out of order. */
    method Exchange(current: Node, ghost c: nat) returns (nextNode: Node)
      requires Valid() && c + 1 < |nodes| && current == nodes[c]
      modifies this, repr
      ensures Valid() && repr == old(repr) && nodes == Swapped(old(nodes), c) && nextNode == nodes[c]
    {
      nextNode := current.next;
      SwappedStaysDistinct(nodes, c);
      if current == head {
        head := nextNode;
      }
      var _ := Swap(current, nextNode, nodes, c, repr);
      nodes := Swapped(nodes, c);
    }

    /** One pass of the outer loop: carries a largest line up to just before `end`. */
    method Pass(end: Node?, ghost m: nat) returns (isSwapped: bool, current: Node)
      requires Valid() && 1 <= m <= |nodes| && end == At(nodes, m) && Settled(nodes, m)
      modifies this, repr
      ensures Valid() && repr == old(repr) && StablePermutation(old(nodes), nodes) && |nodes| == |old(nodes)|
      ensures Settled(nodes, m - 1) && current == nodes[m - 1]
      ensures if isSwapped then 2 <= m else Sorted(nodes)
    {
      hide StablePermutation, Compare, Swapped, Settled, Largest, SortedUpTo, Sorted;
      assert StablePermutation(nodes, nodes) by { StableIsReflexive(nodes); }
      FirstAlone(nodes);
      isSwapped, current := false, head;
      ghost var c: nat := 0;
      while current.next != end
        invariant Valid() && c < m <= |nodes| && current == nodes[c] && end == At(nodes, m)
        invariant StablePermutation(old(nodes), nodes) && |nodes| == |old(nodes)|
        invariant repr == old(repr)
        invariant Settled(nodes, m) && Largest(nodes, c)
        invariant isSwapped ==> 1 <= c
        invariant !isSwapped ==> SortedUpTo(nodes, c)
        decreases m - c
      {
        if Compare(current.line, current.next.line) > 0 {
          CarryStep(old(nodes), nodes, c, m);
          current := Exchange(current, c);
          isSwapped := true;
        } else {
          LargestMovesOn(nodes, c);
          if !isSwapped { SortedMovesOn(nodes, c); }
        }
        current := current.next;
        c := c + 1;
      }
      PassEnds(nodes, m);
    }

    /** One critical section of the sorting thread. */
    method Sort()
      requires Valid() && head != null
      modifies this, repr
      ensures Valid() && repr == old(repr)
      ensures Sorted(nodes) && Ascending(nodes)
      ensures StablePermutation(old(nodes), nodes) && SameOrder(old(nodes), nodes)
    {
      hide SameOrder, Ascending, Compare, StablePermutation;
      assert StablePermutation(nodes, nodes) by { StableIsReflexive(nodes); }
      var isSwapped, end := true, null;
      ghost var m: nat := |nodes|;
      while isSwapped
        invariant Valid() && StablePermutation(old(nodes), nodes)
        invariant repr == old(repr)
        invariant isSwapped ==> 1 <= m <= |nodes| && end == At(nodes, m) && Settled(nodes, m)
        invariant !isSwapped ==> Sorted(nodes)
        decreases isSwapped, m
      {
        ghost var before := nodes;
        isSwapped, end := Pass(end, m);
        StableIsTransitive(old(nodes), before, nodes);
        m := m - 1;
      }
      SortedAscends(nodes);
      StableKeepsOrder(old(nodes), nodes);
    }
  }
}
