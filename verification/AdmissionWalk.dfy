/** The admission-time dependency traversal: a second depth-first search, which
    never takes a node off its stack index, applies no gate and never stops. */
module AdmissionWalk {
  import opened Options
  import opened Sequences
  import opened Paths
  import opened Registry
  import opened Replay
  import opened UseWalk
  import opened UseWalkExact

  /** The part of a projection that admission reads. */
  datatype AdmissionState = AdmissionState(sequence: int, digest: Option<Digest>, dependencies: seq<Id>)

  type AdmissionStates = map<Id, AdmissionState>

  function Dependencies(m: AdmissionStates): (d: Graph)
    ensures d.Keys == m.Keys
  {
    map id | id in m :: m[id].dependencies
  }

  /** The ids discovered so far, in order, after one visit. */
  function Discover(m: AdmissionStates, candidate: Id, seen: seq<Id>, node: Id): (r: seq<Id>)
    ensures seen <= r
    decreases m.Keys - Elements(seen), 0
  {
    if node == candidate || node in seen || node !in m then seen
    else
      assert node in m.Keys - Elements(seen) && node in Elements(seen + [node]);
      DiscoverAll(m, candidate, seen + [node], m[node].dependencies)
  }

  function DiscoverAll(m: AdmissionStates, candidate: Id, seen: seq<Id>, children: seq<Id>): (r: seq<Id>)
    ensures seen <= r
    decreases m.Keys - Elements(seen), 1 + |children|
  {
    if children == [] then seen
    else
      var s := Discover(m, candidate, seen, children[0]);
      assert Elements(seen) <= Elements(s);
      DiscoverAll(m, candidate, s, children[1..])
  }

  function Record(m: AdmissionStates, id: Id): TraversedDependency
    requires id in m
  {
    TraversedDependency(id, m[id].sequence, m[id].digest, m[id].dependencies)
  }

  lemma {:induction false} DiscoverPresent(m: AdmissionStates, candidate: Id, seen: seq<Id>, node: Id)
    requires forall x :: x in seen ==> x in m
    ensures forall x :: x in Discover(m, candidate, seen, node) ==> x in m
    decreases m.Keys - Elements(seen), 0
  {
    if !(node == candidate || node in seen || node !in m) {
      assert node in m.Keys - Elements(seen) && node in Elements(seen + [node]);
      DiscoverAllPresent(m, candidate, seen + [node], m[node].dependencies);
    }
  }

  lemma {:induction false} DiscoverAllPresent(m: AdmissionStates, candidate: Id, seen: seq<Id>, children: seq<Id>)
    requires forall x :: x in seen ==> x in m
    ensures forall x :: x in DiscoverAll(m, candidate, seen, children) ==> x in m
    decreases m.Keys - Elements(seen), 1 + |children|
  {
    if children != [] {
      var s := Discover(m, candidate, seen, children[0]);
      DiscoverPresent(m, candidate, seen, children[0]);
      assert Elements(seen) <= Elements(s);
      DiscoverAllPresent(m, candidate, s, children[1..]);
    }
  }

  /** The traversal's records. */
  function Records(m: AdmissionStates, ids: seq<Id>): (r: seq<TraversedDependency>)
    requires forall x :: x in ids ==> x in m
    ensures |r| == |ids|
  {
    seq(|ids|, i requires 0 <= i < |ids| => Record(m, ids[i]))
  }

  function Traversal(m: AdmissionStates, candidate: Id, dependencies: seq<Id>): seq<TraversedDependency> {
    DiscoverAllPresent(m, candidate, [], dependencies);
    Records(m, DiscoverAll(m, candidate, [], dependencies))
  }

  // ----- The traversal as executed

  class AdmissionWalker {
    const m: AdmissionStates
    var traversed: seq<TraversedDependency>
    var visited: set<Id>
    var stackIndex: map<Id, nat>
    ghost const candidate: Id
    ghost var seen: seq<Id>

    ghost predicate Valid()
      reads this
    {
      && (forall x :: x in seen ==> x in m)
      && traversed == Records(m, seen)
      && stackIndex.Keys == Elements(seen) + {candidate}
      && visited <= Elements(seen)
    }

    constructor (m: AdmissionStates, candidate: Id)
      ensures Valid() && this.m == m && this.candidate == candidate && seen == []
    {
      this.m, this.candidate := m, candidate;
      traversed, visited, stackIndex, seen := [], {}, map[candidate := 0], [];
    }

    method Dfs(node: Id)
      requires Valid()
      modifies this
      ensures Valid() && seen == Discover(m, candidate, old(seen), node)
      decreases m.Keys - Elements(seen), 0
    {
      if node in stackIndex {
        return;
      }
      if node in visited {
        return;
      }
      if node !in m {
        return;
      }
      Add(node);
      assert node in m.Keys - Elements(old(seen)) && node in Elements(seen);
      DfsAll(m[node].dependencies);
      assert seen[|old(seen)|] == node;
      visited := visited + {node};
    }

    method Add(node: Id)
      requires Valid() && node in m && node !in stackIndex
      modifies this`traversed, this`stackIndex, this`seen
      ensures Valid() && seen == old(seen) + [node]
    {
      traversed := traversed + [Record(m, node)];
      stackIndex := stackIndex[node := |stackIndex|];
      seen := seen + [node];
      assert Elements(seen) == Elements(old(seen)) + {node};
      assert traversed == Records(m, seen);
    }

    method DfsAll(children: seq<Id>)
      requires Valid()
      modifies this
      ensures Valid() && seen == DiscoverAll(m, candidate, old(seen), children)
      decreases m.Keys - Elements(seen), 1
    {
      for i := 0 to |children|
        invariant Valid() && old(seen) <= seen
        invariant DiscoverAll(m, candidate, old(seen), children) == DiscoverAll(m, candidate, seen, children[i..])
      {
        assert Elements(old(seen)) <= Elements(seen);
        Dfs(children[i]);
        assert children[i..][1..] == children[i + 1..];
      }
    }
  }

  method AdmissionTraversal(candidate: Id, dependencies: seq<Id>, m: AdmissionStates)
    returns (t: seq<TraversedDependency>)
    ensures t == Traversal(m, candidate, dependencies)
  {
    var w := new AdmissionWalker(m, candidate);
    w.DfsAll(dependencies);
    t := w.traversed;
  }

  // ----- What it discovers

  /** A walk from one of the dependencies through present nodes other than the candidate. */
  ghost predicate OpenPath(m: AdmissionStates, candidate: Id, dependencies: seq<Id>, p: seq<Id>, n: Id) {
    && p != [] && p[0] in dependencies && p[|p| - 1] == n
    && Walkable(Dependencies(m), p)
    && (forall i :: 0 <= i < |p| ==> p[i] in m && p[i] != candidate)
  }

  ghost predicate Open(m: AdmissionStates, candidate: Id, dependencies: seq<Id>, n: Id) {
    exists p :: OpenPath(m, candidate, dependencies, p, n)
  }

  /** Everything behind position `k` has its successors discovered. */
  ghost predicate ClosedFrom(m: AdmissionStates, candidate: Id, seen: seq<Id>, k: nat) {
    forall i, c :: k <= i < |seen| && Edge(Dependencies(m), seen[i], c) && c in m && c != candidate ==> c in seen
  }

  /** What one visit, or a run of visits, adds. */
  ghost predicate Grown(m: AdmissionStates, candidate: Id, dependencies: seq<Id>, seen: seq<Id>, r: seq<Id>) {
    && seen <= r && NoRepeats(r)
    && (forall x :: x in r ==> Open(m, candidate, dependencies, x))
    && ClosedFrom(m, candidate, r, |seen|)
  }

  lemma {:induction false} DiscoverGrows(m: AdmissionStates, candidate: Id, dependencies: seq<Id>, seen: seq<Id>,
      node: Id)
    requires NoRepeats(seen) && forall x :: x in seen ==> Open(m, candidate, dependencies, x)
    requires node in m && node != candidate ==> Open(m, candidate, dependencies, node)
    ensures var r := Discover(m, candidate, seen, node);
            Grown(m, candidate, dependencies, seen, r) && (node in m && node != candidate ==> node in r)
    decreases m.Keys - Elements(seen), 0
  {
    if !(node == candidate || node in seen || node !in m) {
      assert node in m.Keys - Elements(seen) && node in Elements(seen + [node]);
      forall i | 0 <= i < |m[node].dependencies|
        ensures Offered(m, candidate, dependencies, m[node].dependencies[i])
      {
        ExtendOpen(m, candidate, dependencies, node, m[node].dependencies[i]);
      }
      DiscoverAllGrows(m, candidate, dependencies, seen + [node], m[node].dependencies);
      var r := DiscoverAll(m, candidate, seen + [node], m[node].dependencies);
      assert r[|seen|] == node;
    }
  }

  ghost predicate Offered(m: AdmissionStates, candidate: Id, dependencies: seq<Id>, c: Id) {
    c in m && c != candidate ==> Open(m, candidate, dependencies, c)
  }

  lemma ExtendOpen(m: AdmissionStates, candidate: Id, dependencies: seq<Id>, n: Id, c: Id)
    requires Open(m, candidate, dependencies, n) && Edge(Dependencies(m), n, c)
    ensures Offered(m, candidate, dependencies, c)
  {
    if c in m && c != candidate {
      var p :| OpenPath(m, candidate, dependencies, p, n);
      assert OpenPath(m, candidate, dependencies, p + [c], c);
    }
  }

  lemma {:induction false} DiscoverAllGrows(m: AdmissionStates, candidate: Id, dependencies: seq<Id>, seen: seq<Id>,
      children: seq<Id>)
    requires NoRepeats(seen) && forall x :: x in seen ==> Open(m, candidate, dependencies, x)
    requires forall i :: 0 <= i < |children| ==> Offered(m, candidate, dependencies, children[i])
    ensures var r := DiscoverAll(m, candidate, seen, children);
            && Grown(m, candidate, dependencies, seen, r)
            && forall c :: c in children && c in m && c != candidate ==> c in r
    decreases m.Keys - Elements(seen), 1 + |children|
  {
    if children != [] {
      assert Offered(m, candidate, dependencies, children[0]);
      DiscoverGrows(m, candidate, dependencies, seen, children[0]);
      var s := Discover(m, candidate, seen, children[0]);
      assert Elements(seen) <= Elements(s);
      var rest := children[1..];
      forall i | 0 <= i < |rest|
        ensures Offered(m, candidate, dependencies, rest[i])
      {
        assert Offered(m, candidate, dependencies, children[i + 1]);
      }
      DiscoverAllGrows(m, candidate, dependencies, s, rest);
      var r := DiscoverAll(m, candidate, s, rest);
      assert DiscoverAll(m, candidate, seen, children) == r;
      assert children == [children[0]] + rest;
      GrownTwice(m, candidate, dependencies, seen, s, r);
    }
  }

  lemma GrownTwice(m: AdmissionStates, candidate: Id, dependencies: seq<Id>, seen: seq<Id>, s: seq<Id>, r: seq<Id>)
    requires Grown(m, candidate, dependencies, seen, s) && Grown(m, candidate, dependencies, s, r)
    ensures Grown(m, candidate, dependencies, seen, r)
  {
    forall i, c | |seen| <= i < |r| && Edge(Dependencies(m), r[i], c) && c in m && c != candidate
      ensures c in r
    {
      if i < |s| { assert Edge(Dependencies(m), s[i], c); }
    }
  }

  /** The traversal discovers, once each, exactly the present nodes that can be
      reached from the dependencies without passing through the candidate or
      an absent node. */
  lemma AdmissionExact(m: AdmissionStates, candidate: Id, dependencies: seq<Id>)
    ensures var r := DiscoverAll(m, candidate, [], dependencies);
            NoRepeats(r) && forall n :: n in r <==> Open(m, candidate, dependencies, n)
  {
    forall i | 0 <= i < |dependencies|
      ensures Offered(m, candidate, dependencies, dependencies[i])
    {
      var c := dependencies[i];
      if c in m && c != candidate {
        assert OpenPath(m, candidate, dependencies, [c], c);
      }
    }
    DiscoverAllGrows(m, candidate, dependencies, [], dependencies);
    var r := DiscoverAll(m, candidate, [], dependencies);
    forall n | Open(m, candidate, dependencies, n)
      ensures n in r
    {
      var p :| OpenPath(m, candidate, dependencies, p, n);
      OpenDiscovered(m, candidate, dependencies, p, |p| - 1, r);
    }
  }

  lemma {:induction false} OpenDiscovered(m: AdmissionStates, candidate: Id, dependencies: seq<Id>, p: seq<Id>, k: nat,
      r: seq<Id>)
    requires k < |p| && OpenPath(m, candidate, dependencies, p, p[|p| - 1])
    requires ClosedFrom(m, candidate, r, 0)
    requires forall c :: c in dependencies && c in m && c != candidate ==> c in r
    ensures p[k] in r
  {
    if k > 0 {
      OpenDiscovered(m, candidate, dependencies, p, k - 1, r);
      var i :| 0 <= i < |r| && r[i] == p[k - 1];
      assert Edge(Dependencies(m), p[k - 1], p[k - 1 + 1]);
    }
  }

  // ----- The two walks agree

  ghost predicate SameDependencies(g: Projections, m: AdmissionStates) {
    g.Keys == m.Keys && forall id :: id in g ==> g[id].Dependencies() == m[id].dependencies
  }

  lemma {:induction false} VisitAgrees(g: Projections, m: AdmissionStates, clock: int, root: Id, stack: seq<Id>,
      w: Walk, node: Id)
    requires SameDependencies(g, m) && Sound(g, clock, root, stack, w) && w.outcome.Ok?
    requires Edge(DependencyGraph(g), stack[|stack| - 1], node)
    requires Visit(g, clock, stack, w, node).outcome.Ok?
    ensures Discover(m, root, Ids(w.records), node) == Ids(Visit(g, clock, stack, w, node).records)
    decreases g.Keys - Elements(stack) - Elements(w.done), 0
  {
    if node !in w.done {
      var w1 := w.(records := w.records + [Found(g, node, NODE_PRESENT)]);
      assert Passes(g, clock, node);
      Descend(g, clock, root, stack, w, node);
      assert Ids(w1.records) == Ids(w.records) + [node];
      assert node in g.Keys - Elements(stack) - Elements(w.done) && node in Elements(stack + [node]);
      VisitAllAgrees(g, m, clock, root, stack + [node], w1, g[node].Dependencies());
      assert node !in Ids(w.records) && node != root;
    }
  }

  lemma {:induction false} VisitAllAgrees(g: Projections, m: AdmissionStates, clock: int, root: Id, stack: seq<Id>,
      w: Walk, children: seq<Id>)
    requires SameDependencies(g, m) && Sound(g, clock, root, stack, w) && w.outcome.Ok?
    requires AllEdges(g, stack[|stack| - 1], children)
    requires VisitAll(g, clock, stack, w, children).outcome.Ok?
    ensures DiscoverAll(m, root, Ids(w.records), children) == Ids(VisitAll(g, clock, stack, w, children).records)
    decreases g.Keys - Elements(stack) - Elements(w.done), 1 + |children|
  {
    if children != [] {
      var w0 := w.(edges := w.edges + 1);
      assert Edge(DependencyGraph(g), stack[|stack| - 1], children[0]);
      var v := Visit(g, clock, stack, w0, children[0]);
      VisitAdvances(g, clock, root, stack, w0, children[0]);
      VisitAgrees(g, m, clock, root, stack, w0, children[0]);
      VisitAllAgrees(g, m, clock, root, stack, v, children[1..]);
    }
  }

  /** Whenever the use-time walk succeeds, admission over the same dependencies
      discovers the same nodes in the same order. */
  lemma WalksAgree(g: Projections, m: AdmissionStates, clock: int, root: Id)
    requires SameDependencies(g, m) && root in g && WalkFrom(g, clock, root).outcome.Ok?
    ensures DiscoverAll(m, root, [], g[root].Dependencies()) == Ids(WalkFrom(g, clock, root).records)
  {
    assert Sound(g, clock, root, [root], START);
    assert Ids(START.records) == [];
    VisitAllAgrees(g, m, clock, root, [root], START, g[root].Dependencies());
  }

  // ----- The projections admission works on

  function AdmissionProjection(h: Log): AdmissionState
    requires h != []
  {
    var last, proposal := h[|h| - 1], Run(h).proposal;
    AdmissionState(last.body.sequence, last.digest, if proposal.Some? then proposal.value.dependencies else [])
  }

  /** What the admission traversal sees of a log. */
  function AdmissionProjections(log: Log): AdmissionStates {
    map id | id in Entities(log) :: AdmissionProjection(History(log, id))
  }

  method ProjectForAdmission(log: Log) returns (m: AdmissionStates)
    ensures m == AdmissionProjections(log)
  {
    m := map[];
    for i := 0 to |log|
      invariant m == AdmissionProjections(log[..i])
    {
      AdmissionNext(log, i);
      m := AfterEvent(m, log[i]);
    }
    assert log[..|log|] == log;
  }

  /** One turn of the admission replay. */
  function AfterEvent(m: AdmissionStates, e: Envelope): AdmissionStates {
    var id := e.body.entity;
    var before := if id in m then m[id] else AdmissionState(e.body.sequence, e.digest, []);
    var deps := if e.body.payload.Propose? then e.body.payload.proposal.dependencies else before.dependencies;
    m[id := AdmissionState(e.body.sequence, e.digest, deps)]
  }

  lemma AdmissionStep(log: Log, e: Envelope)
    ensures AdmissionProjections(log + [e]) == AfterEvent(AdmissionProjections(log), e)
  {
    OwnStep(log, e);
    OtherSteps(log, e);
    UpdatedMap(AdmissionProjections(log + [e]), AdmissionProjections(log), e.body.entity);
  }

  lemma OtherSteps(log: Log, e: Envelope)
    ensures forall x :: x in Entities(log) && x != e.body.entity ==>
      x in Entities(log + [e]) && AdmissionProjections(log + [e])[x] == AdmissionProjections(log)[x]
  {
    forall x | x in Entities(log) && x != e.body.entity
      ensures x in Entities(log + [e]) && AdmissionProjections(log + [e])[x] == AdmissionProjections(log)[x]
    {
      OtherHistory(log, e, x);
    }
  }

  lemma AdmissionNext(log: Log, i: nat)
    requires i < |log|
    ensures AdmissionProjections(log[..i + 1]) == AfterEvent(AdmissionProjections(log[..i]), log[i])
  {
    assert log[..i + 1] == log[..i] + [log[i]];
    AdmissionStep(log[..i], log[i]);
  }

  lemma UpdatedMap(a: AdmissionStates, b: AdmissionStates, id: Id)
    requires a.Keys == b.Keys + {id} && forall x :: x in b && x != id ==> a[x] == b[x]
    ensures a == b[id := a[id]]
  {
  }

  lemma OwnStep(log: Log, e: Envelope)
    ensures var id := e.body.entity;
            && Entities(log + [e]) == Entities(log) + {id}
            && AdmissionProjections(log + [e])[id] == AfterEvent(AdmissionProjections(log), e)[id]
  {
    EntitiesLast(log + [e]);
    assert (log + [e])[..|log|] == log;
    HistoryStep(log, e);
  }

  lemma OtherHistory(log: Log, e: Envelope, id: Id)
    requires id != e.body.entity
    ensures History(log + [e], id) == History(log, id)
  {
    assert (log + [e])[..|log|] == log;
  }

  lemma HistoryStep(log: Log, e: Envelope)
    ensures var id := e.body.entity; var h := History(log, id);
            && History(log + [e], id) == h + [e]
            && AdmissionProjection(h + [e]).sequence == e.body.sequence
            && AdmissionProjection(h + [e]).digest == e.digest
            && AdmissionProjection(h + [e]).dependencies ==
                 if e.body.payload.Propose? then e.body.payload.proposal.dependencies
                 else if h == [] then [] else AdmissionProjection(h).dependencies
  {
    assert (log + [e])[..|log|] == log;
    ProjectionStep(History(log, e.body.entity), e);
  }

  lemma ProjectionStep(h: Log, e: Envelope)
    ensures AdmissionProjection(h + [e]).sequence == e.body.sequence
    ensures AdmissionProjection(h + [e]).digest == e.digest
    ensures AdmissionProjection(h + [e]).dependencies ==
      if e.body.payload.Propose? then e.body.payload.proposal.dependencies
      else if h == [] then [] else AdmissionProjection(h).dependencies
  {
    assert (h + [e])[..|h|] == h;
    assert Run(h + [e]) == Step(Run(h), e.body.payload);
  }
}
