/** The use-time admissibility decision over many required assumptions, with its
    shared work counters and its evidence checks. */
module UseDecision {
  import opened Options
  import opened Text
  import opened Paths
  import opened Registry
  import opened Replay
  import opened UseWalk
  import opened UseWalkExact
  import opened Walkers

  const ALLOWED: Code := "ASSUMPTION_USE_ALLOWED"
  const MISSING: Code := "ASSUMPTION_USE_MISSING"
  const REQUEST_MISSING: Code := "ASSUMPTION_USE_EVIDENCE_REQUEST_MISSING"
  const REQUEST_MISMATCH: Code := "ASSUMPTION_USE_EVIDENCE_REQUEST_MISMATCH"
  const RECEIPT_INVALID: Code := "ASSUMPTION_USE_EVIDENCE_RECEIPT_INVALID"
  const INADMISSIBLE: Code := "EVIDENCE_INADMISSIBLE"

  /** An evidence request and its receipt as pinned by the binding. */
  datatype Pinned = Pinned(requestDigest: Option<Digest>, receipt: UseReceipt, receiptDigest: Option<Digest>)

  datatype Binding = Binding(
    required: seq<Id>, clock: int, decisionId: string, requests: map<string, Pinned>)

  datatype EvidenceEvaluation = EvidenceEvaluation(owner: Id, pinned: Pinned)

  datatype Evaluation = Evaluation(
    id: Id, code: Code, result: Decision, self: TraversedState,
    traversed: seq<TraversedState>, cycle: seq<Id>, evidence: seq<EvidenceEvaluation>)

  datatype Work = Work(histories: nat, events: nat, uniqueNodes: nat, edges: nat, evidenceRefs: nat, challenges: nat)

  // ----- Evidence

  function RebuiltRequest(b: Binding, p: Projection, evidenceId: string): Digest {
    var q := p.proposal;
    OfUseRequest(UseRequest(
      Sorted(if q.Some? then q.value.limitations else []), b.clock, b.decisionId, evidenceId,
      if q.Some? then Some(q.value.propositionId) else None,
      if q.Some? then Some(q.value.reuseClass) else None,
      Sorted(if q.Some? then q.value.scopeIds else [])))
  }

  function RebuiltReceipt(pinned: Pinned, evidenceId: string): Digest {
    OfUseReceipt(pinned.receipt.(
      advisories := SortedSet(set a | a in pinned.receipt.advisories),
      dependencyDigests := Sorted(pinned.receipt.dependencyDigests),
      evidenceId := evidenceId,
      requestDigest := pinned.requestDigest))
  }

  /** Why a pinned request or receipt cannot even be counted. */
  function Uncountable(b: Binding, p: Projection, evidenceId: string): Option<Code> {
    if evidenceId !in b.requests then Some(REQUEST_MISSING)
    else if b.requests[evidenceId].requestDigest != Some(RebuiltRequest(b, p, evidenceId)) then Some(REQUEST_MISMATCH)
    else if b.requests[evidenceId].receiptDigest != Some(RebuiltReceipt(b.requests[evidenceId], evidenceId)) then
      Some(RECEIPT_INVALID)
    else None
  }

  function DenialCode(r: UseReceipt): Code {
    if r.code.Some? then r.code.value else INADMISSIBLE
  }

  datatype Check = Check(owner: Id, evidenceId: string)

  /** The evidence of the owners in order, owner by owner. */
  function Checks(g: Projections, owners: seq<Id>): seq<Check> {
    if owners == [] then [] else OwnerChecks(g, owners[0]) + Checks(g, owners[1..])
  }

  function OwnerChecks(g: Projections, owner: Id): seq<Check> {
    var e := if owner in g then g[owner].Evidence() else [];
    seq(|e|, i requires 0 <= i < |e| => Check(owner, e[i]))
  }

  predicate CheckPasses(g: Projections, b: Binding, c: Check) {
    && c.owner in g && Uncountable(b, g[c.owner], c.evidenceId).None?
    && b.requests[c.evidenceId].receipt.allowed == Some(true)
  }

  datatype Phase = Phase(evaluations: seq<EvidenceEvaluation>, failure: Option<Code>)

  /** One check, after the ones before it; owners without a projection have none. */
  function CheckStep(g: Projections, b: Binding, ph: Phase, c: Check): Phase {
    if ph.failure.Some? || c.owner !in g then ph
    else
      var bad := Uncountable(b, g[c.owner], c.evidenceId);
      if bad.Some? then ph.(failure := bad)
      else
        var pinned := b.requests[c.evidenceId];
        Phase(ph.evaluations + [EvidenceEvaluation(c.owner, pinned)],
              if pinned.receipt.allowed == Some(true) then None else Some(DenialCode(pinned.receipt)))
  }

  /** The evidence phase: the checks in order, up to the first that fails. */
  function Scan(g: Projections, b: Binding, ph: Phase, checks: seq<Check>): Phase
    decreases |checks|
  {
    if checks == [] then ph else Scan(g, b, CheckStep(g, b, ph, checks[0]), checks[1..])
  }

  const NO_CHECKS := Phase([], None)

  lemma {:induction false} ScanConcat(g: Projections, b: Binding, ph: Phase, x: seq<Check>, y: seq<Check>)
    ensures Scan(g, b, ph, x + y) == Scan(g, b, Scan(g, b, ph, x), y)
    decreases |x|
  {
    if x == [] {
      assert x + y == y;
    } else {
      assert (x + y)[1..] == x[1..] + y;
      ScanConcat(g, b, CheckStep(g, b, ph, x[0]), x[1..], y);
    }
  }

  lemma {:induction false} ScanStopped(g: Projections, b: Binding, ph: Phase, checks: seq<Check>)
    requires ph.failure.Some?
    ensures Scan(g, b, ph, checks) == ph
  {
    if checks != [] {
      ScanStopped(g, b, ph, checks[1..]);
    }
  }

  method EvidencePhase(g: Projections, b: Binding, owners: seq<Id>) returns (ph: Phase)
    ensures ph == Scan(g, b, NO_CHECKS, Checks(g, owners))
  {
    ph := NO_CHECKS;
    for i := 0 to |owners|
      invariant Scan(g, b, NO_CHECKS, Checks(g, owners)) == Scan(g, b, ph, Checks(g, owners[i..]))
    {
      if ph.failure.Some? {
        ScanStopped(g, b, ph, Checks(g, owners[i..]));
        return;
      }
      assert owners[i..][0] == owners[i] && owners[i..][1..] == owners[i + 1..];
      ScanConcat(g, b, ph, OwnerChecks(g, owners[i]), Checks(g, owners[i + 1..]));
      ph := OwnerPhase(g, b, ph, owners[i]);
    }
  }

  /** The inner loop, over one owner's evidence. */
  method OwnerPhase(g: Projections, b: Binding, before: Phase, owner: Id) returns (ph: Phase)
    requires before.failure.None?
    ensures ph == Scan(g, b, before, OwnerChecks(g, owner))
  {
    ph := before;
    if owner !in g {
      return;
    }
    var evidence := g[owner].Evidence();
    ghost var checks := OwnerChecks(g, owner);
    for j := 0 to |evidence|
      invariant ph.failure.None?
      invariant Scan(g, b, before, checks) == Scan(g, b, ph, checks[j..])
    {
      assert checks[j..][0] == Check(owner, evidence[j]) && checks[j..][1..] == checks[j + 1..];
      var bad := Uncountable(b, g[owner], evidence[j]);
      if bad.Some? {
        ph := ph.(failure := bad);
        ScanStopped(g, b, ph, checks[j + 1..]);
        return;
      }
      var pinned := b.requests[evidence[j]];
      ph := ph.(evaluations := ph.evaluations + [EvidenceEvaluation(owner, pinned)]);
      if pinned.receipt.allowed != Some(true) {
        ph := ph.(failure := Some(DenialCode(pinned.receipt)));
        ScanStopped(g, b, ph, checks[j + 1..]);
        return;
      }
    }
  }

  lemma {:induction false} ScanPasses(g: Projections, b: Binding, ph: Phase, checks: seq<Check>)
    requires ph.failure.None? && forall c :: c in checks ==> c.owner in g
    ensures Scan(g, b, ph, checks).failure.None? <==> forall c :: c in checks ==> CheckPasses(g, b, c)
    decreases |checks|
  {
    if checks != [] {
      var c, next := checks[0], CheckStep(g, b, ph, checks[0]);
      assert checks == [c] + checks[1..];
      if next.failure.Some? {
        ScanStopped(g, b, next, checks[1..]);
      } else {
        ScanPasses(g, b, next, checks[1..]);
      }
    }
  }

  lemma {:induction false} ChecksMembers(g: Projections, owners: seq<Id>, c: Check)
    ensures c in Checks(g, owners) <==> c.owner in owners && c.owner in g && c.evidenceId in g[c.owner].Evidence()
  {
    if owners != [] {
      ChecksMembers(g, owners[1..], c);
      assert owners == [owners[0]] + owners[1..];
      var mine := OwnerChecks(g, owners[0]);
      if c.owner == owners[0] && c.owner in g && c.evidenceId in g[c.owner].Evidence() {
        var j :| 0 <= j < |g[c.owner].Evidence()| && g[c.owner].Evidence()[j] == c.evidenceId;
        assert mine[j] == c;
      }
    }
  }

  // ----- One required assumption

  /** The evaluation of one required assumption, and the edges its walk examined. */
  function Evaluate(g: Projections, b: Binding, id: Id): (Evaluation, nat) {
    if id !in g then
      (Evaluation(id, MISSING, DENY, Absent(id, MISSING), [], [], []), 0)
    else if Gate(g[id], b.clock).Some? then
      var code := Gate(g[id], b.clock).value;
      (Evaluation(id, code, DENY, Found(g, id, code), [], [], []), 0)
    else
      var self, w := Found(g, id, NODE_PRESENT), WalkFrom(g, b.clock, id);
      if w.outcome.Failed? then
        (Evaluation(id, w.outcome.code, DENY, self, w.records, w.outcome.cycle, []), w.edges)
      else
        var ph := Scan(g, b, NO_CHECKS, Checks(g, [id] + Ids(w.records)));
        (if ph.failure.Some? then Evaluation(id, ph.failure.value, DENY, self, w.records, [], ph.evaluations)
         else Evaluation(id, ALLOWED, ALLOW, self, w.records, [], ph.evaluations), w.edges)
  }

  /** Evaluating the assumption raises an error: its own gate does, or its walk
      comes upon a gate that does. */
  predicate Raises(g: Projections, b: Binding, id: Id) {
    id in g && match Gate(g[id], b.clock)
               case Some(code) => code == RAISES
               case None => WalkFrom(g, b.clock, id).outcome.Failed? && WalkFrom(g, b.clock, id).outcome.code == RAISES
  }

  /** Nothing raises where every assumption in good standing was proposed. */
  lemma ProposedNeverRaises(g: Projections, b: Binding, id: Id)
    requires forall n :: n in g && g[n].Active() && g[n].activeChallenges == [] ==> g[n].proposal.Some?
    ensures !Raises(g, b, id)
  {
    if id in g && Gate(g[id], b.clock).None? && WalkFrom(g, b.clock, id).outcome.Failed? {
      FailureNamesDefect(g, b.clock, id);
    }
  }

  method EvaluateRoot(g: Projections, b: Binding, id: Id) returns (r: Option<(Evaluation, nat)>)
    ensures r == if Raises(g, b, id) then None else Some(Evaluate(g, b, id))
  {
    if id !in g {
      return Some((Evaluation(id, MISSING, DENY, Absent(id, MISSING), [], [], []), 0));
    }
    var gate := Gate(g[id], b.clock);
    if gate.Some? {
      return if gate.value == RAISES then None
             else Some((Evaluation(id, gate.value, DENY, Found(g, id, gate.value), [], [], []), 0));
    }
    var self := Found(g, id, NODE_PRESENT);
    var w := RunWalk(g, b.clock, id);
    if w.outcome.Failed? {
      return if w.outcome.code == RAISES then None
             else Some((Evaluation(id, w.outcome.code, DENY, self, w.records, w.outcome.cycle, []), w.edges));
    }
    var ph := EvidencePhase(g, b, [id] + Ids(w.records));
    var e := if ph.failure.Some? then Evaluation(id, ph.failure.value, DENY, self, w.records, [], ph.evaluations)
             else Evaluation(id, ALLOWED, ALLOW, self, w.records, [], ph.evaluations);
    r := Some((e, w.edges));
  }

  ghost predicate EvidencePasses(g: Projections, b: Binding, owner: Id)
    requires owner in g
  {
    forall e :: e in g[owner].Evidence() ==> CheckPasses(g, b, Check(owner, e))
  }

  /** Every part of the closure is in force and all its evidence is allowed. */
  ghost predicate Admissible(g: Projections, b: Binding, id: Id) {
    && Passes(g, b.clock, id)
    && ClosureSound(g, b.clock, id)
    && forall n :: n in g && ReachesOrIs(DependencyGraph(g), id, n) ==> EvidencePasses(g, b, n)
  }

  /** A required assumption is allowed exactly when it passes its gate, its
      closure is sound and all evidence in the closure passes; its code is then
      the allowed code. */
  lemma AllowExact(g: Projections, b: Binding, id: Id)
    ensures Evaluate(g, b, id).0.result == ALLOW <==> Admissible(g, b, id)
    ensures Evaluate(g, b, id).0.result == ALLOW ==> Evaluate(g, b, id).0.code == ALLOWED
  {
    if id in g && Gate(g[id], b.clock).None? {
      WalkExact(g, b.clock, id);
      var w := WalkFrom(g, b.clock, id);
      if w.outcome.Ok? {
        AllowExactEvidence(g, b, id);
      }
    }
  }

  lemma AllowExactEvidence(g: Projections, b: Binding, id: Id)
    requires id in g && WalkFrom(g, b.clock, id).outcome.Ok?
    ensures Scan(g, b, NO_CHECKS, Checks(g, [id] + Ids(WalkFrom(g, b.clock, id).records))).failure.None?
       <==> forall n :: n in g && ReachesOrIs(DependencyGraph(g), id, n) ==> EvidencePasses(g, b, n)
  {
    SuccessReportsClosure(g, b.clock, id);
    var owners := [id] + Ids(WalkFrom(g, b.clock, id).records);
    var checks := Checks(g, owners);
    forall c
      ensures c in checks <==> c.owner in owners && c.owner in g && c.evidenceId in g[c.owner].Evidence()
    {
      ChecksMembers(g, owners, c);
    }
    ScanPasses(g, b, NO_CHECKS, checks);
    assert forall n :: n in owners <==> n == id || n in Ids(WalkFrom(g, b.clock, id).records);
    if forall c :: c in checks ==> CheckPasses(g, b, c) {
      forall n | n in g && ReachesOrIs(DependencyGraph(g), id, n)
        ensures EvidencePasses(g, b, n)
      {
        forall e | e in g[n].Evidence()
          ensures CheckPasses(g, b, Check(n, e))
        {
          assert Check(n, e) in checks;
        }
      }
    }
    if forall n :: n in g && ReachesOrIs(DependencyGraph(g), id, n) ==> EvidencePasses(g, b, n) {
      forall c | c in checks
        ensures CheckPasses(g, b, c)
      {
        assert EvidencePasses(g, b, c.owner);
        assert c == Check(c.owner, c.evidenceId);
      }
    }
  }
}
