/** What the use-time walk decides: it succeeds exactly when everything the root
    depends on is present, passes its gate and is free of cycles, and it then
    reports exactly that closure. */
module UseWalkExact {
  import opened Options
  import opened Sequences
  import opened Paths
  import opened Permutations
  import opened Replay
  import opened UseWalk

  function Ids(records: seq<TraversedState>): (r: seq<Id>)
    ensures |r| == |records|
  {
    seq(|records|, i requires 0 <= i < |records| => records[i].id)
  }

  /** Total length of the dependency lists of some nodes. */
  function Degree(g: Projections, ids: seq<Id>): nat {
    if ids == [] then 0
    else Degree(g, ids[..|ids| - 1]) + if ids[|ids| - 1] in g then |g[ids[|ids| - 1]].Dependencies()| else 0
  }

  lemma {:induction false} DegreeConcat(g: Projections, a: seq<Id>, b: seq<Id>)
    ensures Degree(g, a + b) == Degree(g, a) + Degree(g, b)
  {
    if b == [] {
      assert a + b == a;
    } else {
      DegreeConcat(g, a, b[..|b| - 1]);
      assert (a + b)[..|a + b| - 1] == a + b[..|b| - 1];
    }
  }

  ghost predicate Passes(g: Projections, clock: int, n: Id) {
    n in g && Gate(g[n], clock) == None
  }

  /** Everything reachable from the root is present and passes, without cycles. */
  ghost predicate ClosureSound(g: Projections, clock: int, root: Id) {
    && (forall n :: Reaches(DependencyGraph(g), root, n) ==> Passes(g, clock, n))
    && !CycleReachable(DependencyGraph(g), root)
  }

  // ----- The invariant of a walk under way

  ghost predicate StackSound(g: Projections, root: Id, stack: seq<Id>) {
    && stack != [] && stack[0] == root
    && NoRepeats(stack)
    && Walkable(DependencyGraph(g), stack)
    && (forall x :: x in stack ==> x in g)
  }

  ghost predicate DoneSound(g: Projections, clock: int, root: Id, stack: seq<Id>, done: seq<Id>) {
    && Topological(DependencyGraph(g), done)
    && (forall x :: x in done ==> Passes(g, clock, x) && x !in stack && Reaches(DependencyGraph(g), root, x))
  }

  /** Records of nodes that are present, pass and hang below the root. */
  ghost predicate PresentRecords(g: Projections, clock: int, root: Id, records: seq<TraversedState>) {
    forall i :: 0 <= i < |records| ==>
      && Passes(g, clock, records[i].id)
      && records[i] == Found(g, records[i].id, NODE_PRESENT)
      && Reaches(DependencyGraph(g), root, records[i].id)
  }

  ghost predicate RecordsSound(g: Projections, clock: int, root: Id, stack: seq<Id>, w: Walk)
    requires stack != []
  {
    && PresentRecords(g, clock, root, w.records)
    && NoRepeats(Ids(w.records))
    && (forall n :: n in Ids(w.records) <==> n in w.done || n in stack[1..])
  }

  ghost predicate Sound(g: Projections, clock: int, root: Id, stack: seq<Id>, w: Walk) {
    StackSound(g, root, stack) && DoneSound(g, clock, root, stack, w.done) && RecordsSound(g, clock, root, stack, w)
  }

  /** The failure a walk reports is a real defect below the root. */
  ghost predicate RealDefect(g: Projections, clock: int, root: Id, w: Walk)
    requires w.outcome.Failed?
  {
    var d, code, cycle := DependencyGraph(g), w.outcome.code, w.outcome.cycle;
    && NoRepeats(Ids(w.records))
    && if code == DEPENDENCY_CYCLE then
         CycleWitness(d, cycle) && ReachesOrIs(d, root, cycle[0]) && PresentRecords(g, clock, root, w.records)
       else
         && cycle == [] && w.records != []
         && var k := |w.records| - 1; var last := w.records[k];
         && PresentRecords(g, clock, root, w.records[..k])
         && Reaches(d, root, last.id)
         && if code == DEPENDENCY_MISSING then last.id !in g && last == Absent(last.id, code)
            else last.id in g && Gate(g[last.id], clock) == Some(code) && last == Found(g, last.id, code)
  }

  ghost predicate AllIn(a: seq<Id>, b: seq<Id>) {
    forall x :: x in a ==> x in b
  }

  ghost predicate AllEdges(g: Projections, n: Id, children: seq<Id>) {
    forall i :: 0 <= i < |children| ==> Edge(DependencyGraph(g), n, children[i])
  }

  /** What one visit, or a run of visits, achieves. */
  ghost predicate Advanced(g: Projections, clock: int, root: Id, stack: seq<Id>, w: Walk, r: Walk, edges: nat) {
    if r.outcome.Ok? then
      && Sound(g, clock, root, stack, r)
      && w.done <= r.done
      && r.edges == w.edges + edges + Degree(g, r.done[|w.done|..])
    else RealDefect(g, clock, root, r)
  }

  lemma BelowRoot(g: Projections, root: Id, stack: seq<Id>, node: Id)
    requires StackSound(g, root, stack) && Edge(DependencyGraph(g), stack[|stack| - 1], node)
    ensures Reaches(DependencyGraph(g), root, node)
  {
    var d := DependencyGraph(g);
    if |stack| > 1 {
      StretchReaches(d, stack, 0, |stack| - 1);
    }
    ReachesExtend(d, root, stack[|stack| - 1], node);
  }

  lemma SuffixCloses(d: Graph, stack: seq<Id>, i: nat, node: Id)
    requires i < |stack| && stack[i] == node && Walkable(d, stack) && Edge(d, stack[|stack| - 1], node)
    ensures Walkable(d, Close(stack[i..]))
  {
    var c := stack[i..];
    forall k | 0 <= k < |Close(c)| - 1
      ensures Edge(d, Close(c)[k], Close(c)[k + 1])
    {
      if k < |c| - 1 {
        assert Edge(d, stack[i + k], stack[i + k + 1]);
      }
    }
  }

  /** A suffix of the stack closed by an edge is reported as a cycle below its bottom. */
  lemma SuffixIsCycle(d: Graph, stack: seq<Id>, i: nat, node: Id)
    requires NoRepeats(stack) && Walkable(d, stack)
    requires i < |stack| && stack[i] == node && Edge(d, stack[|stack| - 1], node)
    ensures var c := CanonicalWitness(stack[i..] + [node]);
            CycleWitness(d, c) && ReachesOrIs(d, stack[0], c[0])
  {
    var c := stack[i..];
    assert c + [node] == Close(c);
    SuffixCloses(d, stack, i, node);
    CanonicalWitnessIsCycle(d, c);
    var first := CanonicalWitness(Close(c))[0];
    var j :| 0 <= j < |c| && c[j] == first;
    if i + j > 0 {
      StretchReaches(d, stack, 0, i + j);
    }
  }

  lemma CycleFound(g: Projections, clock: int, root: Id, stack: seq<Id>, w: Walk, node: Id)
    requires Sound(g, clock, root, stack, w) && w.outcome.Ok?
    requires Edge(DependencyGraph(g), stack[|stack| - 1], node) && node in stack
    ensures RealDefect(g, clock, root, Visit(g, clock, stack, w, node))
  {
    SuffixIsCycle(DependencyGraph(g), stack, IndexOf(stack, node), node);
  }

  lemma LeafFound(g: Projections, clock: int, root: Id, stack: seq<Id>, w: Walk, node: Id)
    requires Sound(g, clock, root, stack, w) && w.outcome.Ok?
    requires Edge(DependencyGraph(g), stack[|stack| - 1], node) && node !in stack && node !in w.done
    requires !Passes(g, clock, node)
    ensures var r := Visit(g, clock, stack, w, node); r.outcome.Failed? && RealDefect(g, clock, root, r)
  {
    BelowRoot(g, root, stack, node);
    var r := Visit(g, clock, stack, w, node);
    assert r.records[..|r.records| - 1] == w.records;
    assert node !in Ids(w.records);
    forall i, j | 0 <= i < j < |r.records|
      ensures Ids(r.records)[i] != Ids(r.records)[j]
    {
      assert Ids(r.records)[i] == Ids(w.records)[i];
      if j < |w.records| { assert Ids(r.records)[j] == Ids(w.records)[j]; }
    }
  }

  lemma Descend(g: Projections, clock: int, root: Id, stack: seq<Id>, w: Walk, node: Id)
    requires Sound(g, clock, root, stack, w)
    requires Edge(DependencyGraph(g), stack[|stack| - 1], node) && node !in stack && node !in w.done
    requires Passes(g, clock, node)
    ensures Sound(g, clock, root, stack + [node], w.(records := w.records + [Found(g, node, NODE_PRESENT)]))
  {
    BelowRoot(g, root, stack, node);
    var s, r := stack + [node], w.records + [Found(g, node, NODE_PRESENT)];
    assert Ids(r) == Ids(w.records) + [node];
    assert node !in Ids(w.records);
    assert s[1..] == stack[1..] + [node];
    forall i | 0 <= i < |s| - 1
      ensures Edge(DependencyGraph(g), s[i], s[i + 1])
    {
      if i + 1 < |stack| { assert Edge(DependencyGraph(g), stack[i], stack[i + 1]); }
    }
  }

  lemma Ascend(g: Projections, clock: int, root: Id, stack: seq<Id>, w: Walk, node: Id)
    requires stack != [] && Sound(g, clock, root, stack + [node], w) && Passes(g, clock, node)
    requires forall c :: c in g[node].Dependencies() ==> c in w.done
    ensures Sound(g, clock, root, stack, w.(done := w.done + [node]))
  {
    var d, s, done := DependencyGraph(g), stack + [node], w.done + [node];
    assert s[1..] == stack[1..] + [node];
    forall i | 0 <= i < |stack| - 1
      ensures Edge(d, stack[i], stack[i + 1])
    {
      assert Edge(d, s[i], s[i + 1]);
    }
    forall i, j | 0 <= i < j <= |stack|
      ensures s[i] != s[j]
    {
    }
    forall i | 0 <= i < |stack|
      ensures stack[i] != node
    {
      assert s[i] == stack[i] && s[|stack|] == node;
    }
    assert NoRepeats(stack) by {
      forall i, j | 0 <= i < j < |stack|
        ensures stack[i] != stack[j]
      {
        assert s[i] == stack[i] && s[j] == stack[j];
      }
    }
    StretchReaches(d, s, 0, |stack|);
    forall i, y | 0 <= i < |done| && Edge(d, done[i], y)
      ensures y in done[..i]
    {
      if i < |w.done| {
        assert Edge(d, w.done[i], y) && done[..i] == w.done[..i];
      } else {
        assert done[..i] == w.done;
      }
    }
  }

  lemma CountFinished(g: Projections, before: seq<Id>, done: seq<Id>, node: Id)
    requires before <= done && node in g
    ensures Degree(g, (done + [node])[|before|..]) == Degree(g, done[|before|..]) + |g[node].Dependencies()|
  {
    assert (done + [node])[|before|..] == done[|before|..] + [node];
    DegreeConcat(g, done[|before|..], [node]);
  }

  lemma AdvanceCounted(g: Projections, clock: int, root: Id, stack: seq<Id>, w: Walk, v: Walk)
    requires Advanced(g, clock, root, stack, w.(edges := w.edges + 1), v, 0)
    ensures Advanced(g, clock, root, stack, w, v, 1)
  {
  }

  lemma FirstAndRest(children: seq<Id>, a: seq<Id>, b: seq<Id>)
    requires children != [] && children[0] in a && AllIn(children[1..], b)
    ensures a <= b ==> AllIn(children, b)
  {
    assert children == [children[0]] + children[1..];
  }

  lemma AdvanceTwice(g: Projections, clock: int, root: Id, stack: seq<Id>, w: Walk, v: Walk, r: Walk, e: nat, f: nat)
    requires v.outcome.Ok? && Advanced(g, clock, root, stack, w, v, e)
    requires Advanced(g, clock, root, stack, v, r, f)
    ensures Advanced(g, clock, root, stack, w, r, e + f)
  {
    if r.outcome.Ok? {
      assert r.done[|w.done|..] == v.done[|w.done|..] + r.done[|v.done|..];
      DegreeConcat(g, v.done[|w.done|..], r.done[|v.done|..]);
    }
  }

  lemma {:induction false} VisitAdvances(g: Projections, clock: int, root: Id, stack: seq<Id>, w: Walk, node: Id)
    requires Sound(g, clock, root, stack, w) && w.outcome.Ok?
    requires Edge(DependencyGraph(g), stack[|stack| - 1], node)
    ensures var r := Visit(g, clock, stack, w, node);
            Advanced(g, clock, root, stack, w, r, 0) && (r.outcome.Ok? ==> node in r.done)
    decreases g.Keys - Elements(stack) - Elements(w.done), 0
  {
    if node in stack {
      CycleFound(g, clock, root, stack, w, node);
    } else if node in w.done {
      assert w.done[|w.done|..] == [];
    } else if !Passes(g, clock, node) {
      LeafFound(g, clock, root, stack, w, node);
    } else {
      var w1 := w.(records := w.records + [Found(g, node, NODE_PRESENT)]);
      Descend(g, clock, root, stack, w, node);
      var s := stack + [node];
      assert node in g.Keys - Elements(stack) - Elements(w.done) && node !in g.Keys - Elements(s) - Elements(w1.done);
      VisitAllAdvances(g, clock, root, s, w1, g[node].Dependencies());
      var w2 := VisitAll(g, clock, s, w1, g[node].Dependencies());
      if w2.outcome.Ok? {
        Ascend(g, clock, root, stack, w2, node);
        CountFinished(g, w.done, w2.done, node);
      }
    }
  }

  /** The specification of a run of visits over a child list. */
  ghost predicate AdvancedAll(g: Projections, clock: int, root: Id, stack: seq<Id>, w: Walk, children: seq<Id>) {
    var r := VisitAll(g, clock, stack, w, children);
    Advanced(g, clock, root, stack, w, r, |children|) && (r.outcome.Ok? ==> AllIn(children, r.done))
  }

  lemma VisitThenRest(g: Projections, clock: int, root: Id, stack: seq<Id>, w: Walk, v: Walk, children: seq<Id>)
    requires children != [] && w.outcome.Ok?
    requires v == Visit(g, clock, stack, w.(edges := w.edges + 1), children[0])
    requires Advanced(g, clock, root, stack, w.(edges := w.edges + 1), v, 0)
    requires v.outcome.Ok? ==> children[0] in v.done && AdvancedAll(g, clock, root, stack, v, children[1..])
    ensures AdvancedAll(g, clock, root, stack, w, children)
  {
    var rest := children[1..];
    var r := VisitAll(g, clock, stack, v, rest);
    assert VisitAll(g, clock, stack, w, children) == r;
    AdvanceCounted(g, clock, root, stack, w, v);
    if v.outcome.Ok? {
      AdvanceTwice(g, clock, root, stack, w, v, r, 1, |rest|);
      if r.outcome.Ok? {
        FirstAndRest(children, v.done, r.done);
      }
    } else {
      assert r == v;
    }
  }

  lemma {:induction false} VisitAllAdvances(g: Projections, clock: int, root: Id, stack: seq<Id>, w: Walk,
      children: seq<Id>)
    requires Sound(g, clock, root, stack, w) && w.outcome.Ok?
    requires AllEdges(g, stack[|stack| - 1], children)
    ensures AdvancedAll(g, clock, root, stack, w, children)
    decreases g.Keys - Elements(stack) - Elements(w.done), 1 + |children|
  {
    if children == [] {
      assert w.done[|w.done|..] == [];
    } else {
      var w0 := w.(edges := w.edges + 1);
      assert Edge(DependencyGraph(g), stack[|stack| - 1], children[0]);
      VisitAdvances(g, clock, root, stack, w0, children[0]);
      var v := Visit(g, clock, stack, w0, children[0]);
      if v.outcome.Ok? {
        VisitAllAdvances(g, clock, root, stack, v, children[1..]);
      }
      VisitThenRest(g, clock, root, stack, w, v, children);
    }
  }

  // ----- Main results

  lemma WalkAdvances(g: Projections, clock: int, root: Id)
    requires root in g
    ensures var w := WalkFrom(g, clock, root);
            && Advanced(g, clock, root, [root], START, w, |g[root].Dependencies()|)
            && (w.outcome.Ok? ==> AllIn(g[root].Dependencies(), w.done))
  {
    assert Sound(g, clock, root, [root], START);
    VisitAllAdvances(g, clock, root, [root], START, g[root].Dependencies());
  }

  /** A successful walk lists the closure of the root, each node once, and has
      examined every edge leaving the root or a listed node. */
  lemma SuccessReportsClosure(g: Projections, clock: int, root: Id)
    requires root in g && WalkFrom(g, clock, root).outcome.Ok?
    ensures var w := WalkFrom(g, clock, root);
            && NoRepeats(Ids(w.records))
            && (forall n :: n in Ids(w.records) <==> Reaches(DependencyGraph(g), root, n))
            && root !in Ids(w.records)
            && (forall i :: 0 <= i < |w.records| ==>
              w.records[i].id in g && w.records[i] == Found(g, w.records[i].id, NODE_PRESENT))
            && w.edges == Degree(g, [root] + Ids(w.records))
  {
    WalkAdvances(g, clock, root);
    var d, w := DependencyGraph(g), WalkFrom(g, clock, root);
    var s := Elements(w.done);
    forall x, y | x in s && Edge(d, x, y)
      ensures y in s
    {
      var i :| 0 <= i < |w.done| && w.done[i] == x;
      assert y in w.done[..i];
    }
    forall n | Reaches(d, root, n)
      ensures n in Ids(w.records)
    {
      ClosedReaches(d, s, root, n);
    }
    forall n | n in Ids(w.records)
      ensures Reaches(d, root, n)
    {
      var i :| 0 <= i < |w.records| && Ids(w.records)[i] == n;
    }
    DegreeConcat(g, [root], Ids(w.records));
    assert w.done[0..] == w.done;
    assert Degree(g, [root]) == |g[root].Dependencies()|;
    DegreeDependsOnMembers(g, w.done, Ids(w.records));
  }

  lemma {:induction false} DegreeDependsOnMembers(g: Projections, a: seq<Id>, b: seq<Id>)
    requires NoRepeats(a) && NoRepeats(b) && AllIn(a, b) && AllIn(b, a)
    ensures Degree(g, a) == Degree(g, b)
  {
    assert forall i :: 0 <= i < |b| ==> b[i] in a;
    if a == [] {
    } else {
      var k, x := |a| - 1, a[|a| - 1];
      assert x in a && a[..k] + [x] == a;
      DegreeConcat(g, a[..k], [x]);
      var j :| 0 <= j < |b| && b[j] == x;
      WithoutMember(a, k);
      WithoutMember(b, j);
      DegreeDependsOnMembers(g, a[..k], Drop(b, j));
      assert Drop(a, k) == a[..k];
      DegreeWithout(g, b, j);
    }
  }

  lemma DegreeWithout(g: Projections, s: seq<Id>, j: nat)
    requires j < |s|
    ensures Degree(g, s) == Degree(g, Drop(s, j)) + Degree(g, [s[j]])
  {
    assert s == s[..j] + [s[j]] + s[j + 1..];
    DegreeConcat(g, s[..j], [s[j]]);
    DegreeConcat(g, s[..j] + [s[j]], s[j + 1..]);
    DegreeConcat(g, s[..j], s[j + 1..]);
  }

  lemma WithoutMember(s: seq<Id>, j: nat)
    requires NoRepeats(s) && j < |s|
    ensures NoRepeats(Drop(s, j))
    ensures forall y :: y in Drop(s, j) <==> y in s && y != s[j]
  {
    var t := Drop(s, j);
    forall y | y in s && y != s[j]
      ensures y in t
    {
      var i :| 0 <= i < |s| && s[i] == y;
      assert t[if i < j then i else i - 1] == y;
    }
  }

  /** The walk succeeds exactly when the root's closure is sound. */
  lemma WalkExact(g: Projections, clock: int, root: Id)
    requires root in g
    ensures WalkFrom(g, clock, root).outcome.Ok? <==> ClosureSound(g, clock, root)
  {
    WalkAdvances(g, clock, root);
    var d, w := DependencyGraph(g), WalkFrom(g, clock, root);
    if w.outcome.Ok? {
      SuccessReportsClosure(g, clock, root);
      forall n | Reaches(d, root, n)
        ensures Passes(g, clock, n) && !Reaches(d, n, n)
      {
        assert n in Ids(w.records);
        TopologicalAcyclic(d, w.done, n);
      }
      assert !Reaches(d, root, root);
    } else if w.outcome.code == DEPENDENCY_CYCLE {
      var c := w.outcome.cycle;
      assert Path(d, c, c[0], c[0]);
    }
  }

  /** A failing walk names a real defect: a witness that is a cycle below the
      root, or a last record that is missing or stopped at its gate. */
  lemma FailureNamesDefect(g: Projections, clock: int, root: Id)
    requires root in g && WalkFrom(g, clock, root).outcome.Failed?
    ensures RealDefect(g, clock, root, WalkFrom(g, clock, root))
    ensures WalkFrom(g, clock, root).outcome.code in GATE_CODES + {DEPENDENCY_CYCLE, DEPENDENCY_MISSING, RAISES}
  {
    WalkAdvances(g, clock, root);
  }
}
