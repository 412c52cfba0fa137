/** The whole use-time decision: evaluations in the order required, one reported
    code, and work counters shared between the evaluations. */
module Admissibility {
  import opened Options
  import opened Sequences
  import opened Paths
  import opened Permutations
  import opened Registry
  import opened Replay
  import opened UseWalk
  import opened UseWalkExact
  import opened UseDecision

  // ----- Sums over sets of nodes

  function EventsOf(g: Projections, n: Id): nat {
    if n in g then g[n].eventCount else 0
  }

  function ChallengesOf(g: Projections, n: Id): nat {
    if n in g then |g[n].activeChallenges| else 0
  }

  ghost function SumOver(s: set<Id>, f: Id -> nat): nat {
    if s == {} then 0 else
      var x :| x in s;
      f(x) + SumOver(s - {x}, f)
  }

  lemma {:induction false} SumOverRemove(s: set<Id>, f: Id -> nat, y: Id)
    requires y in s
    ensures SumOver(s, f) == f(y) + SumOver(s - {y}, f)
  {
    var x :| x in s && SumOver(s, f) == f(x) + SumOver(s - {x}, f);
    if x != y {
      SumOverRemove(s - {x}, f, y);
      SumOverRemove(s - {y}, f, x);
      assert s - {x} - {y} == s - {y} - {x};
    }
  }

  lemma SumOverAdd(s: set<Id>, f: Id -> nat, y: Id)
    requires y !in s
    ensures SumOver(s + {y}, f) == f(y) + SumOver(s, f)
  {
    SumOverRemove(s + {y}, f, y);
    assert s + {y} - {y} == s;
  }

  // ----- The counters

  class WorkCounters {
    ghost const g: Projections
    var histories: nat
    var events: nat
    var uniqueNodes: nat
    var challenges: nat
    var seen: set<Id>

    /** Each node seen is counted once, with its own history and challenges. */
    ghost predicate Valid()
      reads this
    {
      && histories == uniqueNodes == |seen|
      && events == SumOver(seen, n => EventsOf(g, n))
      && challenges == SumOver(seen, n => ChallengesOf(g, n))
    }

    constructor (ghost g: Projections)
      ensures Valid() && this.g == g && seen == {}
    {
      this.g := g;
      histories, events, uniqueNodes, challenges, seen := 0, 0, 0, 0, {};
    }

    method CountNode(id: Id, history: nat, active: nat)
      requires Valid() && history == EventsOf(g, id) && active == ChallengesOf(g, id)
      modifies this
      ensures Valid() && seen == old(seen) + {id}
    {
      if id in seen {
        return;
      }
      SumOverAdd(seen, n => EventsOf(g, n), id);
      SumOverAdd(seen, n => ChallengesOf(g, n), id);
      seen := seen + {id};
      histories := histories + 1;
      events := events + history;
      uniqueNodes := uniqueNodes + 1;
      challenges := challenges + active;
    }

    method CountEvaluation(e: Evaluation)
      requires Valid() && RecordsMatch(g, [e.self] + e.traversed)
      modifies this
      ensures Valid() && seen == old(seen) + Nodes(e)
    {
      SelfAndTraversed(g, e);
      CountNode(e.self.id, e.self.eventCount, ActiveIn(e.self));
      CountRecords(e.traversed);
    }

    method CountRecords(records: seq<TraversedState>)
      requires Valid() && RecordsMatch(g, records)
      modifies this
      ensures Valid() && seen == old(seen) + Elements(Ids(records))
    {
      for i := 0 to |records|
        invariant Valid() && seen == old(seen) + Elements(Ids(records[..i]))
      {
        CountNode(records[i].id, records[i].eventCount, ActiveIn(records[i]));
        IdsNext(records, i);
      }
      assert records[..|records|] == records;
    }
  }

  lemma IdsNext(records: seq<TraversedState>, i: nat)
    requires i < |records|
    ensures Elements(Ids(records[..i + 1])) == Elements(Ids(records[..i])) + {records[i].id}
  {
    assert Ids(records[..i + 1]) == Ids(records[..i]) + [records[i].id];
  }

  function ActiveIn(r: TraversedState): nat {
    if r.projection.Some? then |r.projection.value.activeChallenges| else 0
  }

  lemma SelfAndTraversed(g: Projections, e: Evaluation)
    requires RecordsMatch(g, [e.self] + e.traversed)
    ensures e.self.eventCount == EventsOf(g, e.self.id) && ActiveIn(e.self) == ChallengesOf(g, e.self.id)
    ensures RecordsMatch(g, e.traversed)
  {
    var all := [e.self] + e.traversed;
    assert all[0] == e.self && forall i :: 0 <= i < |e.traversed| ==> all[i + 1] == e.traversed[i];
  }

  /** Records carry the counts of the nodes they name. */
  ghost predicate RecordsMatch(g: Projections, records: seq<TraversedState>) {
    forall i :: 0 <= i < |records| ==>
      records[i].eventCount == EventsOf(g, records[i].id) && ActiveIn(records[i]) == ChallengesOf(g, records[i].id)
  }

  /** The nodes an evaluation looked at. */
  function Nodes(e: Evaluation): set<Id> {
    {e.self.id} + Elements(Ids(e.traversed))
  }

  lemma EvaluationMatches(g: Projections, b: Binding, id: Id)
    ensures var e := Evaluate(g, b, id).0; e.self.id == id && RecordsMatch(g, [e.self] + e.traversed)
  {
    if id in g && Gate(g[id], b.clock).None? {
      var w := WalkFrom(g, b.clock, id);
      if w.outcome.Ok? {
        SuccessReportsClosure(g, b.clock, id);
      } else {
        FailureNamesDefect(g, b.clock, id);
      }
      WalkRecordsMatch(g, b.clock, id);
    }
  }

  lemma WalkRecordsMatch(g: Projections, clock: int, id: Id)
    requires id in g
    ensures RecordsMatch(g, WalkFrom(g, clock, id).records)
  {
    var w := WalkFrom(g, clock, id);
    if w.outcome.Ok? {
      SuccessReportsClosure(g, clock, id);
    } else {
      FailureNamesDefect(g, clock, id);
      if w.outcome.code != DEPENDENCY_CYCLE {
        var k := |w.records| - 1;
        assert w.records == w.records[..k] + [w.records[k]];
      }
    }
  }

  // ----- The decision

  datatype Report = Report(code: Code, firstDigest: Option<Digest>)

  const CLEAR := Report(ALLOWED, None)

  /** The reported code is the first denial's; a denial under the allowed code
      leaves the report open. */
  function ReportStep(g: Projections, r: Report, e: Evaluation): Report {
    if e.result == ALLOW || r.code != ALLOWED then r
    else Report(e.code, if e.id in g then g[e.id].currentDigest else r.firstDigest)
  }

  function Reported(g: Projections, evaluations: seq<Evaluation>): Report {
    if evaluations == [] then CLEAR
    else ReportStep(g, Reported(g, evaluations[..|evaluations| - 1]), evaluations[|evaluations| - 1])
  }

  function Evaluations(g: Projections, b: Binding, required: seq<Id>): (r: seq<Evaluation>)
    ensures |r| == |required|
  {
    seq(|required|, i requires 0 <= i < |required| => Evaluate(g, b, required[i]).0)
  }

  /** Every node looked at on behalf of the required assumptions. */
  function Touched(g: Projections, b: Binding, required: seq<Id>): set<Id> {
    if required == [] then {}
    else Touched(g, b, required[..|required| - 1]) + Nodes(Evaluate(g, b, required[|required| - 1]).0)
  }

  function TotalEdges(g: Projections, b: Binding, required: seq<Id>): nat {
    if required == [] then 0
    else TotalEdges(g, b, required[..|required| - 1]) + Evaluate(g, b, required[|required| - 1]).1
  }

  function TotalRefs(g: Projections, b: Binding, required: seq<Id>): nat {
    if required == [] then 0
    else TotalRefs(g, b, required[..|required| - 1]) + |Evaluate(g, b, required[|required| - 1]).0.evidence|
  }

  /** The counters in closed form. */
  ghost function ClosedWork(g: Projections, b: Binding, required: seq<Id>): Work {
    var t := Touched(g, b, required);
    Work(|t|, SumOver(t, n => EventsOf(g, n)), |t|, TotalEdges(g, b, required), TotalRefs(g, b, required),
         SumOver(t, n => ChallengesOf(g, n)))
  }

  ghost predicate AllAllowed(g: Projections, b: Binding, required: seq<Id>) {
    forall id :: id in required ==> Evaluate(g, b, id).0.result == ALLOW
  }

  datatype UseDecisionResult = UseDecisionResult(
    evaluations: seq<Evaluation>, work: Work, report: Report, admissible: bool)

  /** The results gathered for the assumptions evaluated so far. */
  datatype Gathering = Gathering(evaluations: seq<Evaluation>, report: Report, admissible: bool, edges: nat, refs: nat)

  const EMPTY := Gathering([], CLEAR, true, 0, 0)

  function Add(g: Projections, x: Gathering, e: Evaluation, examined: nat): Gathering {
    Gathering(x.evaluations + [e], ReportStep(g, x.report, e), x.admissible && e.result == ALLOW,
              x.edges + examined, x.refs + |e.evidence|)
  }

  function GatherAll(g: Projections, b: Binding, required: seq<Id>): Gathering {
    if required == [] then EMPTY
    else
      var (e, examined) := Evaluate(g, b, required[|required| - 1]);
      Add(g, GatherAll(g, b, required[..|required| - 1]), e, examined)
  }

  lemma {:induction false} GatherEvaluations(g: Projections, b: Binding, required: seq<Id>)
    ensures GatherAll(g, b, required).evaluations == Evaluations(g, b, required)
  {
    if required != [] {
      GatherEvaluations(g, b, required[..|required| - 1]);
    }
  }

  lemma {:induction false} GatherReport(g: Projections, b: Binding, required: seq<Id>)
    ensures GatherAll(g, b, required).report == Reported(g, GatherAll(g, b, required).evaluations)
  {
    if required != [] {
      var x, y := GatherAll(g, b, required), GatherAll(g, b, required[..|required| - 1]);
      GatherReport(g, b, required[..|required| - 1]);
      assert x.evaluations[..|x.evaluations| - 1] == y.evaluations;
    }
  }

  lemma {:induction false} GatherTotals(g: Projections, b: Binding, required: seq<Id>)
    ensures var x := GatherAll(g, b, required);
            x.edges == TotalEdges(g, b, required) && x.refs == TotalRefs(g, b, required)
  {
    if required != [] {
      GatherTotals(g, b, required[..|required| - 1]);
    }
  }

  lemma {:induction false} GatherAdmissible(g: Projections, b: Binding, required: seq<Id>)
    ensures GatherAll(g, b, required).admissible <==> AllAllowed(g, b, required)
  {
    if required != [] {
      var k := |required| - 1;
      GatherAdmissible(g, b, required[..k]);
      assert required == required[..k] + [required[k]];
    }
  }

  lemma Gathered(g: Projections, b: Binding, required: seq<Id>)
    ensures var x := GatherAll(g, b, required);
            && x.evaluations == Evaluations(g, b, required) && x.report == Reported(g, x.evaluations)
            && (x.admissible <==> AllAllowed(g, b, required))
            && x.edges == TotalEdges(g, b, required) && x.refs == TotalRefs(g, b, required)
  {
    GatherEvaluations(g, b, required);
    GatherReport(g, b, required);
    GatherTotals(g, b, required);
    GatherAdmissible(g, b, required);
  }

  /** Some required assumption cannot be evaluated. */
  predicate AnyRaises(g: Projections, b: Binding, required: seq<Id>) {
    exists id :: id in required && Raises(g, b, id)
  }

  /** The decision on a log; an error raised by any evaluation leaves none. */
  method Decide(log: Log, b: Binding) returns (r: Option<UseDecisionResult>)
    ensures r.None? <==> AnyRaises(Project(log), b, b.required)
    ensures r.Some? ==>
      var g, d := Project(log), r.value;
      && d.evaluations == Evaluations(g, b, b.required)
      && d.work == ClosedWork(g, b, b.required)
      && d.report == Reported(g, d.evaluations)
      && (d.admissible <==> AllAllowed(g, b, b.required))
  {
    var g := ProjectLog(log);
    var counters := new WorkCounters(g);
    var x := EvaluateRequired(g, b, counters);
    if x.None? {
      return None;
    }
    Gathered(g, b, b.required);
    r := Some(UseDecisionResult(x.value.evaluations,
      Work(counters.histories, counters.events, counters.uniqueNodes, x.value.edges, x.value.refs, counters.challenges),
      x.value.report, x.value.admissible));
  }

  /** The loop over the required assumptions, sharing the counters. */
  method EvaluateRequired(g: Projections, b: Binding, counters: WorkCounters) returns (r: Option<Gathering>)
    requires counters.Valid() && counters.g == g && counters.seen == {}
    modifies counters
    ensures r == if AnyRaises(g, b, b.required) then None else Some(GatherAll(g, b, b.required))
    ensures r.Some? ==> counters.Valid() && counters.seen == Touched(g, b, b.required)
  {
    var x := EMPTY;
    for i := 0 to |b.required|
      invariant counters.Valid()
      invariant !AnyRaises(g, b, b.required[..i])
      invariant counters.seen == Touched(g, b, b.required[..i])
      invariant x == GatherAll(g, b, b.required[..i])
    {
      var e := EvaluateRoot(g, b, b.required[i]);
      TakeNext(b.required, i);
      if e.None? {
        return None;
      }
      EvaluationMatches(g, b, b.required[i]);
      counters.CountEvaluation(e.value.0);
      x := Add(g, x, e.value.0, e.value.1);
    }
    assert b.required[..|b.required|] == b.required;
    r := Some(x);
  }

  lemma {:induction false} TouchedExact(g: Projections, b: Binding, required: seq<Id>)
    ensures Touched(g, b, required) == set id, n | id in required && n in Nodes(Evaluate(g, b, id).0) :: n
  {
    if required != [] {
      var k := |required| - 1;
      TouchedExact(g, b, required[..k]);
      assert required == required[..k] + [required[k]];
    }
  }

  // ----- What the decision means

  /** The decision is admissible exactly when every required assumption is. */
  lemma AdmissibleExact(g: Projections, b: Binding)
    ensures AllAllowed(g, b, b.required) <==> forall id :: id in b.required ==> Admissible(g, b, id)
  {
    forall id | id in b.required
      ensures Evaluate(g, b, id).0.result == ALLOW <==> Admissible(g, b, id)
    {
      AllowExact(g, b, id);
    }
  }

  lemma {:induction false} SumsIgnoreOrder(g: Projections, b: Binding, p: seq<Id>, q: seq<Id>)
    requires multiset(p) == multiset(q)
    ensures TotalEdges(g, b, p) == TotalEdges(g, b, q) && TotalRefs(g, b, p) == TotalRefs(g, b, q)
  {
    if p == [] {
      assert |multiset(q)| == 0;
    } else {
      var k, j := LastMatch(p, q);
      SumsIgnoreOrder(g, b, p[..k], Drop(q, j));
      SumsWithout(g, b, q, j);
    }
  }

  lemma LastMatch(p: seq<Id>, q: seq<Id>) returns (k: nat, j: nat)
    requires p != [] && multiset(p) == multiset(q)
    ensures k == |p| - 1 && j < |q| && q[j] == p[k]
    ensures multiset(p[..k]) == multiset(Drop(q, j))
  {
    k := |p| - 1;
    SplitLast(p);
    j :| 0 <= j < |q| && q[j] == p[k];
    DropMultiset(q, j);
  }

  lemma {:induction false} SumsWithout(g: Projections, b: Binding, q: seq<Id>, j: nat)
    requires j < |q|
    ensures TotalEdges(g, b, q) == TotalEdges(g, b, Drop(q, j)) + Evaluate(g, b, q[j]).1
    ensures TotalRefs(g, b, q) == TotalRefs(g, b, Drop(q, j)) + |Evaluate(g, b, q[j]).0.evidence|
  {
    var k := |q| - 1;
    DropEarlier(q, j);
    if j < k {
      SumsWithout(g, b, q[..k], j);
    }
  }

  /** Neither the counters nor admissibility depend on the order in which the
      assumptions are required. */
  lemma DecisionIgnoresOrder(g: Projections, b: Binding, p: seq<Id>, q: seq<Id>)
    requires multiset(p) == multiset(q)
    ensures ClosedWork(g, b, p) == ClosedWork(g, b, q)
    ensures AllAllowed(g, b, p) <==> AllAllowed(g, b, q)
  {
    SumsIgnoreOrder(g, b, p, q);
    assert forall x :: x in p <==> x in multiset(p);
    assert forall x :: x in q <==> x in multiset(q);
    TouchedIgnoresOrder(g, b, p, q);
  }

  lemma TouchedIgnoresOrder(g: Projections, b: Binding, p: seq<Id>, q: seq<Id>)
    requires forall x :: x in p <==> x in q
    ensures Touched(g, b, p) == Touched(g, b, q)
  {
    TouchedExact(g, b, p);
    TouchedExact(g, b, q);
  }

  lemma {:induction false} ReportedAllowed(g: Projections, evaluations: seq<Evaluation>)
    ensures Reported(g, evaluations).code == ALLOWED
       <==> forall e :: e in evaluations && e.result == DENY ==> e.code == ALLOWED
  {
    if evaluations != [] {
      var k := |evaluations| - 1;
      ReportedAllowed(g, evaluations[..k]);
      assert evaluations == evaluations[..k] + [evaluations[k]];
    }
  }

  /** Denied, and not under the allowed code. */
  predicate DeniedOtherwise(e: Evaluation) {
    e.result == DENY && e.code != ALLOWED
  }

  /** Denied, with a known assumption whose digest goes into the report. */
  predicate Carries(g: Projections, e: Evaluation) {
    e.result == DENY && e.id in g
  }

  ghost predicate LastCarrier(g: Projections, es: seq<Evaluation>, i: int) {
    0 <= i < |es| && Carries(g, es[i]) && forall j :: i < j < |es| ==> !Carries(g, es[j])
  }

  /** The digest is that of the last denied known assumption, if there is one. */
  ghost predicate DigestFrom(g: Projections, es: seq<Evaluation>, digest: Option<Digest>) {
    if forall i :: 0 <= i < |es| ==> !Carries(g, es[i]) then digest == None
    else exists i :: LastCarrier(g, es, i) && digest == g[es[i].id].currentDigest
  }

  /** The first evaluation denied otherwise is at `n - 1`, or `n` is past the end. */
  ghost predicate Settled(es: seq<Evaluation>, n: nat) {
    && n <= |es| && (forall i :: 0 <= i < n - 1 ==> !DeniedOtherwise(es[i]))
    && (n < |es| ==> n > 0 && DeniedOtherwise(es[n - 1]))
  }

  lemma SettledNext(es: seq<Evaluation>, n: nat)
    requires es != [] && Settled(es[..|es| - 1], n)
    ensures n <= |es| - 1
    ensures n > 0 && DeniedOtherwise(es[n - 1]) ==> Settled(es, n)
    ensures n == 0 || !DeniedOtherwise(es[n - 1]) ==> n == |es| - 1 && Settled(es, |es|)
  {
    var k := |es| - 1;
    assert forall i :: 0 <= i < k ==> es[..k][i] == es[i];
  }

  /** The report after the first `n` evaluations: the code of the denial that
      settles it, or the allowed code, and the digest of the last known assumption
      denied by then. */
  ghost predicate Reports(g: Projections, es: seq<Evaluation>, n: nat, r: Report)
    requires n <= |es|
  {
    && r.code == (if n > 0 && DeniedOtherwise(es[n - 1]) then es[n - 1].code else ALLOWED)
    && DigestFrom(g, es[..n], r.firstDigest)
  }

  /** The report is settled by the first evaluation denied under another code than
      the allowed one; an unknown assumption denied there brings no digest of its own. */
  lemma {:induction false} ReportedExact(g: Projections, es: seq<Evaluation>) returns (n: nat)
    ensures Settled(es, n) && Reports(g, es, n, Reported(g, es))
  {
    if es == [] {
      n := 0;
    } else {
      var k := |es| - 1;
      n := ReportedExact(g, es[..k]);
      SettledNext(es, n);
      var r := Reported(g, es[..k]);
      if n > 0 && DeniedOtherwise(es[n - 1]) {
        ReportStays(g, es, n, r);
      } else {
        assert es[..k][..k] == es[..k];
        ReportGrows(g, es, r);
        n := |es|;
      }
    }
  }

  lemma ReportStays(g: Projections, es: seq<Evaluation>, n: nat, r: Report)
    requires es != [] && n < |es| && Reports(g, es[..|es| - 1], n, r)
    requires n > 0 && DeniedOtherwise(es[n - 1])
    ensures Reports(g, es, n, ReportStep(g, r, es[|es| - 1]))
  {
    assert es[..|es| - 1][n - 1] == es[n - 1] && es[..|es| - 1][..n] == es[..n];
  }

  lemma ReportGrows(g: Projections, es: seq<Evaluation>, r: Report)
    requires es != [] && r.code == ALLOWED && DigestFrom(g, es[..|es| - 1], r.firstDigest)
    ensures Reports(g, es, |es|, ReportStep(g, r, es[|es| - 1]))
  {
    DigestStep(g, es, r.firstDigest);
    assert es[..|es|] == es;
  }

  lemma DigestStep(g: Projections, es: seq<Evaluation>, digest: Option<Digest>)
    requires es != [] && DigestFrom(g, es[..|es| - 1], digest)
    ensures var last := es[|es| - 1];
            DigestFrom(g, es, if Carries(g, last) then g[last.id].currentDigest else digest)
  {
    var k := |es| - 1;
    if Carries(g, es[k]) {
      assert LastCarrier(g, es, k);
    } else if j :| 0 <= j < k && Carries(g, es[..k][j]) {
      assert Carries(g, es[j]);
      var i :| LastCarrier(g, es[..k], i) && digest == g[es[..k][i].id].currentDigest;
      assert forall m :: i < m < k ==> !Carries(g, es[..k][m]);
      assert forall m :: i < m < k ==> es[..k][m] == es[m];
      assert LastCarrier(g, es, i);
    } else {
      assert forall m :: 0 <= m < k ==> es[..k][m] == es[m];
    }
  }

  /** A required assumption denied by a receipt that itself carries the allowed code. */
  ghost predicate DeniedAsAllowed(g: Projections, b: Binding, id: Id) {
    Evaluate(g, b, id).0.result == DENY && Evaluate(g, b, id).0.code == ALLOWED
  }

  /** The reported code says "allowed" exactly when the decision is admissible,
      unless the only denials there are carry the allowed code. */
  lemma ReportTellsAdmissible(g: Projections, b: Binding)
    ensures (Reported(g, Evaluations(g, b, b.required)).code == ALLOWED <==> AllAllowed(g, b, b.required))
       <==> (AllAllowed(g, b, b.required)
             || exists id :: id in b.required && Evaluate(g, b, id).0.result == DENY && !DeniedAsAllowed(g, b, id))
  {
    var es := Evaluations(g, b, b.required);
    ReportedAllowed(g, es);
    forall id | id in b.required
      ensures Evaluate(g, b, id).0 in es
    {
      var i :| 0 <= i < |b.required| && b.required[i] == id;
      assert es[i] == Evaluate(g, b, id).0;
    }
    forall e | e in es
      ensures exists id :: id in b.required && e == Evaluate(g, b, id).0
    {
      var i :| 0 <= i < |es| && es[i] == e;
      assert b.required[i] in b.required && e == Evaluate(g, b, b.required[i]).0;
    }
  }

  /** A well-formed pinned receipt that withholds permission yet carries the
      allowed code: an assumption with this proposal would be denied under it. */
  ghost predicate Misleading(b: Binding, evidenceId: string, p: Proposal) {
    && evidenceId in b.requests
    && Uncountable(b, Projection(Some(p), ADMITTED, [], None, 0, 0), evidenceId).None?
    && b.requests[evidenceId].receipt.allowed != Some(true)
    && DenialCode(b.requests[evidenceId].receipt) == ALLOWED
  }

  /** The binding pins no such receipt. */
  ghost predicate Honest(b: Binding) {
    forall e, p :: !Misleading(b, e, p)
  }

  lemma {:induction false} ScanHonest(g: Projections, b: Binding, ph: Phase, checks: seq<Check>)
    requires Honest(b) && ph.failure != Some(ALLOWED)
    requires forall c :: c in checks && c.owner in g ==> g[c.owner].proposal.Some?
    ensures Scan(g, b, ph, checks).failure != Some(ALLOWED)
    decreases |checks|
  {
    if checks != [] {
      var c := checks[0];
      if c.owner in g {
        assert !Misleading(b, c.evidenceId, g[c.owner].proposal.value);
      }
      ScanHonest(g, b, CheckStep(g, b, ph, c), checks[1..]);
    }
  }

  /** With an honest binding, the reported code alone tells whether the decision is admissible. */
  lemma HonestReportTells(g: Projections, b: Binding)
    requires Honest(b)
    ensures Reported(g, Evaluations(g, b, b.required)).code == ALLOWED <==> AllAllowed(g, b, b.required)
  {
    forall id
      ensures !DeniedAsAllowed(g, b, id)
    {
      if id in g && Gate(g[id], b.clock).None? {
        var w := WalkFrom(g, b.clock, id);
        if w.outcome.Failed? {
          FailureNamesDefect(g, b.clock, id);
        } else {
          var checks := Checks(g, [id] + Ids(w.records));
          forall c | c in checks && c.owner in g
            ensures g[c.owner].proposal.Some?
          {
            ChecksMembers(g, [id] + Ids(w.records), c);
          }
          ScanHonest(g, b, NO_CHECKS, checks);
        }
      }
    }
    ReportTellsAdmissible(g, b);
  }

  /** The log in which a misleading receipt is met: one assumption, proposed
      with that evidence and admitted. */
  function VictimLog(b: Binding, evidenceId: string, p: Proposal): Log {
    var q := p.(dependencies := [], evidence := [evidenceId], validFrom := b.clock, expiresAt := None);
    var proposes := Signed(EventBody("a", 1, None, 1, Literal(PlainDigest()), Propose(q)));
    var admits := EventBody("a", 2, proposes.digest, 2, Literal(PlainDigest()),
      Admit("authority:admitter", Literal(PlainDigest())));
    [proposes, Signed(admits)]
  }

  lemma VictimProjected(b: Binding, evidenceId: string, p: Proposal)
    ensures var log := VictimLog(b, evidenceId, p);
            var q := p.(dependencies := [], evidence := [evidenceId], validFrom := b.clock, expiresAt := None);
            Project(log) == map["a" := Projection(Some(q), ADMITTED, [], log[1].digest, 2, 2)]
  {
    var log := VictimLog(b, evidenceId, p);
    assert log == [log[0], log[1]];
    PairReplayed(log[0], log[1], "a");
  }

  lemma PairReplayed(e: Envelope, f: Envelope, id: Id)
    requires e.body.entity == id && f.body.entity == id
    ensures Entities([e, f]) == {id} && History([e, f], id) == [e, f]
    ensures Run([e, f]) == Step(Step(UNBORN, e.body.payload), f.body.payload)
  {
    assert [e, f][..1] == [e] && [e][..0] == [];
    assert History([e], id) == [e];
    assert Run([e]) == Step(UNBORN, e.body.payload);
    assert e in [e, f];
  }

  /** One admitted assumption without dependencies, resting on one piece of evidence. */
  lemma SoleEvidence(g: Projections, b: Binding, evidenceId: string)
    requires "a" in g && g["a"].proposal.Some? && Gate(g["a"], b.clock) == None
    requires g["a"].Dependencies() == [] && g["a"].Evidence() == [evidenceId]
    ensures !Raises(g, b, "a")
    ensures var ph := CheckStep(g, b, NO_CHECKS, Check("a", evidenceId));
            var e := Evaluate(g, b, "a").0;
            ph.failure.Some? ==> e.result == DENY && e.code == ph.failure.value
  {
    assert WalkFrom(g, b.clock, "a") == START;
    assert ["a"] + Ids(START.records) == ["a"];
    assert OwnerChecks(g, "a") == [Check("a", evidenceId)];
    assert Checks(g, ["a"]) == [Check("a", evidenceId)] by { assert Checks(g, ["a"][1..]) == []; }
    var ph := CheckStep(g, b, NO_CHECKS, Check("a", evidenceId));
    assert Scan(g, b, NO_CHECKS, [Check("a", evidenceId)]) == ph by { assert [Check("a", evidenceId)][1..] == []; }
  }

  lemma MisleadingMisreports(b: Binding, evidenceId: string, p: Proposal)
    requires Misleading(b, evidenceId, p) && b.required == ["a"]
    ensures var g := Project(VictimLog(b, evidenceId, p));
            && !AnyRaises(g, b, b.required)
            && Reported(g, Evaluations(g, b, b.required)).code == ALLOWED && !AllAllowed(g, b, b.required)
  {
    var g := Project(VictimLog(b, evidenceId, p));
    VictimProjected(b, evidenceId, p);
    SoleEvidence(g, b, evidenceId);
    assert Uncountable(b, g["a"], evidenceId) == None;
    assert DeniedAsAllowed(g, b, "a");
    assert Evaluations(g, b, ["a"]) == [Evaluate(g, b, "a").0];
    ReportedAllowed(g, Evaluations(g, b, ["a"]));
    assert "a" in b.required;
  }

  lemma HonestyIrrelevantToRequired(b: Binding, required: seq<Id>, evidenceId: string, p: Proposal)
    ensures Misleading(b, evidenceId, p) <==> Misleading(b.(required := required), evidenceId, p)
  {
  }

  /** The report of a decision agrees with it. */
  ghost predicate ReportAgrees(log: Log, b: Binding) {
    var g := Project(log);
    Reported(g, Evaluations(g, b, b.required)).code == ALLOWED <==> AllAllowed(g, b, b.required)
  }

  /** The report agrees with every decision reached, whatever the log and whatever
      is required, exactly when the binding pins no misleading receipt. */
  lemma ReportAgreesExactly(b: Binding)
    ensures (forall log, required :: !AnyRaises(Project(log), b.(required := required), required)
               ==> ReportAgrees(log, b.(required := required)))
       <==> Honest(b)
  {
    if Honest(b) {
      forall log, required: seq<Id>
        ensures ReportAgrees(log, b.(required := required))
      {
        forall e, p { HonestyIrrelevantToRequired(b, required, e, p); }
        HonestReportTells(Project(log), b.(required := required));
      }
    } else {
      var e, p :| Misleading(b, e, p);
      var c := b.(required := ["a"]);
      HonestyIrrelevantToRequired(b, ["a"], e, p);
      MisleadingMisreports(c, e, p);
      assert !ReportAgrees(VictimLog(c, e, p), c);
    }
  }

  /** Such bindings exist. */
  lemma MisleadingReceiptExists() returns (b: Binding)
    ensures !Honest(b)
  {
    var p := Proposal("p", [], "MATERIAL", "authority:proposer", 0, 0, None, [], ["e"], [], "D2");
    var open := Binding(["a"], 5, "d", map[]);
    var record := Projection(Some(p), ADMITTED, [], None, 0, 0);
    var request := RebuiltRequest(open, record, "e");
    var receipt := UseReceipt([], Some(false), None, None, Some(ALLOWED), [], None, "e", Some(request));
    var unsealed := Pinned(Some(request), receipt, None);
    var pinned := unsealed.(receiptDigest := Some(RebuiltReceipt(unsealed, "e")));
    b := open.(requests := map["e" := pinned]);
    assert RebuiltRequest(b, record, "e") == request;
    assert RebuiltReceipt(pinned, "e") == RebuiltReceipt(unsealed, "e");
    assert Misleading(b, "e", p);
  }
}
