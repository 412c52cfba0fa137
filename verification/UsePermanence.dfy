/** How the outcome of the use-time walk moves with the log and with the clock. */
module UsePermanence {
  import opened Options
  import opened Text
  import opened Paths
  import opened Replay
  import opened UseWalk
  import opened UseWalkExact
  import opened AdmissionWalk

  // ----- Permanence of structural success

  /** Two graphs give the nodes of `s` the same successors, all within `s`. */
  ghost predicate SharedClosure(d: Graph, e: Graph, s: set<Id>) {
    forall x :: x in s ==> x in d && x in e && d[x] == e[x] && forall y :: y in d[x] ==> y in s
  }

  lemma {:induction false} SharedWalk(d: Graph, e: Graph, s: set<Id>, p: seq<Id>, k: nat)
    requires SharedClosure(d, e, s)
    requires Walkable(e, p) && k < |p| && p[0] in s
    ensures p[k] in s && forall i :: 0 <= i < k ==> Edge(d, p[i], p[i + 1])
  {
    if k > 0 {
      SharedWalk(d, e, s, p, k - 1);
      assert Edge(e, p[k - 1], p[k - 1 + 1]);
    }
  }

  lemma SharedReaches(d: Graph, e: Graph, s: set<Id>, a: Id, b: Id)
    requires SharedClosure(d, e, s) && a in s && Reaches(e, a, b)
    ensures b in s && Reaches(d, a, b)
  {
    var p :| Path(e, p, a, b);
    SharedWalk(d, e, s, p, |p| - 1);
    assert Path(d, p, a, b);
  }

  /** The root and everything its successful walk listed. */
  function ClosureOf(g: Projections, clock: int, root: Id): (ids: seq<Id>)
    requires root in g
    ensures root in ids
  {
    [root] + Ids(WalkFrom(g, clock, root).records)
  }

  lemma SuccessClosed(g: Projections, clock: int, root: Id)
    requires root in g && WalkFrom(g, clock, root).outcome.Ok?
    ensures var ids := ClosureOf(g, clock, root);
            && (forall n :: n in ids <==> ReachesOrIs(DependencyGraph(g), root, n))
            && (forall n :: n in ids ==> n in g)
            && (forall n, y :: n in ids && y in g[n].Dependencies() ==> y in ids)
  {
    SuccessReportsClosure(g, clock, root);
    var d, ids := DependencyGraph(g), ClosureOf(g, clock, root);
    forall n
      ensures n in ids <==> ReachesOrIs(d, root, n)
    {
      assert n in ids <==> n == root || n in Ids(WalkFrom(g, clock, root).records);
    }
    forall n | n in ids
      ensures n in g
    {
      if n != root {
        var i :| 0 <= i < |WalkFrom(g, clock, root).records| && Ids(WalkFrom(g, clock, root).records)[i] == n;
      }
    }
    forall n, y | n in ids && y in g[n].Dependencies()
      ensures y in ids
    {
      ReachesExtend(d, root, n, y);
    }
  }

  /** A node is still there, with the same dependencies, and still proposed if it was. */
  ghost predicate KeptIn(g: Projections, h: Projections, n: Id) {
    n in g ==>
      && n in h && h[n].Dependencies() == g[n].Dependencies()
      && (g[n].proposal.Some? ==> h[n].proposal.Some?)
  }

  /** Once the walk has succeeded it can later fail only at a gate: if `h` keeps
      the nodes that were walked, whatever becomes of all others, the root's
      closure in `h` is the one already walked. */
  lemma StructureIsPermanent(g: Projections, h: Projections, clock: int, later: int, root: Id)
    requires root in g && WalkFrom(g, clock, root).outcome.Ok?
    requires forall n :: n in ClosureOf(g, clock, root) ==> KeptIn(g, h, n)
    ensures root in h
    ensures var w := WalkFrom(h, later, root);
            w.outcome.Failed? ==> w.outcome.code in GATE_CODES
    ensures forall n :: Reaches(DependencyGraph(h), root, n) <==> Reaches(DependencyGraph(g), root, n)
  {
    var d, e := DependencyGraph(g), DependencyGraph(h);
    var s := Elements(ClosureOf(g, clock, root));
    SuccessClosed(g, clock, root);
    assert SharedClosure(d, e, s) && SharedClosure(e, d, s);
    forall n
      ensures Reaches(e, root, n) <==> Reaches(d, root, n)
    {
      if Reaches(e, root, n) { SharedReaches(d, e, s, root, n); }
      if Reaches(d, root, n) { SharedReaches(e, d, s, root, n); }
    }
    var w := WalkFrom(h, later, root);
    if w.outcome.Failed? {
      FailureNamesDefect(h, later, root);
      WalkExact(g, clock, root);
      if w.outcome.code == DEPENDENCY_CYCLE {
        var c := w.outcome.cycle;
        assert Path(e, c, c[0], c[0]);
        SharedReaches(d, e, s, c[0], c[0]);
      }
    }
  }

  /** The same over logs: extending a log without proposing a walked entity again
      can turn a successful walk only into a gate failure. */
  lemma ExtensionFailsOnlyAtGates(log: Log, ext: Log, clock: int, later: int, root: Id)
    requires root in Project(log) && WalkFrom(Project(log), clock, root).outcome.Ok?
    requires forall n :: n in ClosureOf(Project(log), clock, root) ==> NotProposed(ext, n)
    ensures root in Project(log + ext)
    ensures var w := WalkFrom(Project(log + ext), later, root);
            w.outcome.Failed? ==> w.outcome.code in GATE_CODES
  {
    var g, h := Project(log), Project(log + ext);
    forall n | n in ClosureOf(g, clock, root) && n in g
      ensures KeptIn(g, h, n)
    {
      ExtensionKeepsProposal(log, ext, n);
    }
    StructureIsPermanent(g, h, clock, later, root);
  }

  // ----- The validity window

  /** The root passes its own gate and its walk succeeds. */
  predicate Usable(g: Projections, clock: int, root: Id)
    requires root in g
  {
    Gate(g[root], clock) == None && WalkFrom(g, clock, root).outcome.Ok?
  }

  function Start(g: Projections, n: Id): int {
    if n in g && g[n].proposal.Some? then g[n].proposal.value.validFrom else 0
  }

  function End(g: Projections, n: Id): Option<int> {
    if n in g && g[n].proposal.Some? then g[n].proposal.value.expiresAt else None
  }

  /** The latest start among some nodes. */
  function LatestStart(g: Projections, ids: seq<Id>): (t: int)
    requires ids != []
    ensures exists n :: n in ids && Start(g, n) == t
    ensures forall n :: n in ids ==> Start(g, n) <= t
  {
    var first := Start(g, ids[0]);
    if |ids| == 1 then first
    else
      var rest := LatestStart(g, ids[1..]);
      assert ids == [ids[0]] + ids[1..];
      if first >= rest then first else rest
  }

  /** The earliest end among some nodes, if any of them ends. */
  function EarliestEnd(g: Projections, ids: seq<Id>): (t: Option<int>)
    ensures t.Some? ==> exists n :: n in ids && End(g, n) == t
    ensures forall n :: n in ids && End(g, n).Some? ==> t.Some? && t.value <= End(g, n).value
  {
    if ids == [] then None
    else
      var first, rest := End(g, ids[0]), EarliestEnd(g, ids[1..]);
      assert ids == [ids[0]] + ids[1..];
      if first.None? then rest
      else if rest.None? || first.value <= rest.value then first else rest
  }

  predicate Within(clock: int, start: int, end: Option<int>) {
    start <= clock && (end.Some? ==> clock < end.value)
  }

  /** Whatever the clock may be, the gate lets the assumption's standing pass. */
  predicate Standing(p: Projection) {
    p.Active() && p.activeChallenges == [] && p.proposal.Some?
  }

  lemma GateWindow(p: Projection, clock: int)
    ensures Gate(p, clock) == None
      <==> Standing(p) && Within(clock, p.proposal.value.validFrom, p.proposal.value.expiresAt)
  {
  }

  /** The root and everything it reaches is present and in good standing, and no
      cycle is reachable. */
  ghost predicate Sustained(g: Projections, root: Id) {
    && (forall n :: ReachesOrIs(DependencyGraph(g), root, n) ==> n in g && Standing(g[n]))
    && !CycleReachable(DependencyGraph(g), root)
  }

  /** A root is usable at a clock exactly when its closure is sustained and the
      clock lies in the window of every node in it. */
  lemma UsableExact(g: Projections, clock: int, root: Id)
    requires root in g
    ensures Usable(g, clock, root) <==>
      && Sustained(g, root)
      && forall n :: ReachesOrIs(DependencyGraph(g), root, n) ==> Within(clock, Start(g, n), End(g, n))
  {
    var d := DependencyGraph(g);
    WalkExact(g, clock, root);
    forall n | n in g
      ensures Passes(g, clock, n) <==> Standing(g[n]) && Within(clock, Start(g, n), End(g, n))
    {
      GateWindow(g[n], clock);
    }
    assert Usable(g, clock, root) <==>
      (forall n :: ReachesOrIs(d, root, n) ==> Passes(g, clock, n)) && !CycleReachable(d, root);
  }

  /** The projected nodes the root is or reaches, in order. */
  ghost function Closure(g: Projections, root: Id): seq<Id> {
    SortedSet(set n | n in g && ReachesOrIs(DependencyGraph(g), root, n))
  }

  /** The clocks at which a root is usable are those, if its closure is sustained,
      from the latest start in the closure up to, but not including, the earliest
      end; there are none if that window is empty or the closure is not sustained. */
  lemma UsableExactlyInWindow(g: Projections, clock: int, root: Id)
    requires root in g
    ensures var ids := Closure(g, root);
            && ids != []
            && (Usable(g, clock, root)
              <==> Sustained(g, root) && Within(clock, LatestStart(g, ids), EarliestEnd(g, ids)))
  {
    var d, ids := DependencyGraph(g), Closure(g, root);
    UsableExact(g, clock, root);
    assert root in ids;
    WindowExact(g, clock, ids);
    assert Sustained(g, root) ==> forall n :: ReachesOrIs(d, root, n) <==> n in ids;
  }

  lemma WindowExact(g: Projections, clock: int, ids: seq<Id>)
    requires ids != []
    ensures Within(clock, LatestStart(g, ids), EarliestEnd(g, ids))
      <==> forall n :: n in ids ==> Within(clock, Start(g, n), End(g, n))
  {
    var start, end := LatestStart(g, ids), EarliestEnd(g, ids);
    var s :| s in ids && Start(g, s) == start;
    if end.Some? {
      var e :| e in ids && End(g, e) == end;
    }
  }

  // ----- Admission and use replay the same log

  /** On any log, a successful use-time walk lists the nodes that an admission
      of the same candidate would list, in the same order. */
  lemma AdmissionSeesUseClosure(log: Log, clock: int, root: Id)
    requires root in Project(log)
    requires WalkFrom(Project(log), clock, root).outcome.Ok?
    ensures DiscoverAll(AdmissionProjections(log), root, [], Project(log)[root].Dependencies())
         == Ids(WalkFrom(Project(log), clock, root).records)
  {
    WalksAgree(Project(log), AdmissionProjections(log), clock, root);
  }
}
