/** The transitions the kernel proposes for the three core events, and when the
    verifier accepts them. */
module Proposer {
  import opened Kernel
  import opened KernelRuns
  import opened Traces

  datatype Refusal =
    | AUTHORITY | EVIDENCE_NOT_NEW | BASIS_NOT_NEW | EVIDENCE_NOT_CURRENT | ISSUED_IN_FUTURE
    | BASIS_UNAPPROVED | BASIS_EMPTY | BASIS_UNKNOWN_EVIDENCE | SOURCE_CLAIM | VERDICT_CLAIM
    | CLOSURE_REPEATED | REQUEST_UNKNOWN | REQUEST_CLOSED

  datatype ProposalResult = Proposed(after: ControlState) | Raised(error: Refusal)

  // ----- Dependency change

  function Invalidate(e: Evidence, dependency: string): Evidence {
    if Hit(e, dependency) then e.(status := INVALIDATED) else e
  }

  function InvalidateAll(evidence: seq<Evidence>, dependency: string): (r: seq<Evidence>)
    ensures |r| == |evidence|
  {
    seq(|evidence|, i requires 0 <= i < |evidence| => Invalidate(evidence[i], dependency))
  }

  function ChangeAudit(e: Event): AuditEvent
    requires e.DependencyChange?
  {
    AuditEvent("DependencyChange",
      map["dependency_id" := e.dependency,
          "apparent_direction" :=
            if e.direction.Some? && e.direction.value != "" then e.direction.value else "unspecified"])
  }

  function ApplyChange(s: ControlState, e: Event): ControlState
    requires e.DependencyChange?
  {
    var evidence := InvalidateAll(s.evidence, e.dependency);
    var source := Surviving(s.currentSource, BasesById(s.bases), EvidenceById(evidence));
    var verdict := Surviving(s.currentVerdict, BasesById(s.bases), EvidenceById(evidence));
    s.(evidence := evidence, source := DemotedSource(s.source, source),
       assurance := DemotedAssurance(s.obligation, s.assurance, verdict),
       currentSource := source, currentVerdict := verdict, history := s.history + [ChangeAudit(e)])
  }

  /** The identities of the evidence a dependency change invalidates. */
  function HitIds(s: ControlState, dependency: string): set<string> {
    set x | x in s.evidence && Hit(x, dependency) :: x.id
  }

  /** The loop that rebuilds the evidence, noting what it invalidates. */
  method ProposeChange(s: ControlState, e: Event) returns (after: ControlState, trace: Trace)
    requires e.DependencyChange?
    ensures after == ApplyChange(s, e)
    ensures trace == ChangeTrace(s, after, HitIds(s, e.dependency))
  {
    var invalidated: set<string> := {};
    var updated: seq<Evidence> := [];
    for i := 0 to |s.evidence|
      invariant updated == InvalidateAll(s.evidence[..i], e.dependency)
      invariant invalidated == set x | x in s.evidence[..i] && Hit(x, e.dependency) :: x.id
    {
      var item := s.evidence[i];
      assert s.evidence[..i + 1] == s.evidence[..i] + [item];
      if Current(item) && e.dependency in item.dependencies {
        invalidated := invalidated + {item.id};
        updated := updated + [item.(status := INVALIDATED)];
      } else {
        updated := updated + [item];
      }
    }
    assert s.evidence[..|s.evidence|] == s.evidence;
    var source := Surviving(s.currentSource, BasesById(s.bases), EvidenceById(updated));
    var verdict := Surviving(s.currentVerdict, BasesById(s.bases), EvidenceById(updated));
    after := s.(evidence := updated, source := DemotedSource(s.source, source),
                assurance := DemotedAssurance(s.obligation, s.assurance, verdict),
                currentSource := source, currentVerdict := verdict, history := s.history + [ChangeAudit(e)]);
    trace := ChangeTrace(s, after, invalidated);
  }

  lemma {:induction false} InvalidatedById(evidence: seq<Evidence>, dependency: string)
    ensures var m, n := EvidenceById(evidence), EvidenceById(InvalidateAll(evidence, dependency));
            n.Keys == m.Keys && forall id :: id in m ==> n[id] == Invalidate(m[id], dependency)
  {
    if evidence != [] {
      var k := |evidence| - 1;
      InvalidatedById(evidence[..k], dependency);
      assert InvalidateAll(evidence, dependency)[..k] == InvalidateAll(evidence[..k], dependency);
    }
  }

  lemma SurvivorsSound(s: ControlState, d: string)
    requires Sound(s)
    ensures var n := EvidenceById(InvalidateAll(s.evidence, d));
            var source := Surviving(s.currentSource, BasesById(s.bases), n);
            var verdict := Surviving(s.currentVerdict, BasesById(s.bases), n);
            && |n| == |s.evidence|
            && (source != {} ==> DemotedSource(s.source, source) == s.source)
            && (verdict != {} ==> s.obligation == CURRENT ==>
              DemotedAssurance(s.obligation, s.assurance, verdict) == s.assurance)
  {
    InvalidatedById(s.evidence, d);
    assert |EvidenceById(InvalidateAll(s.evidence, d)).Keys| == |EvidenceById(s.evidence).Keys|;
  }

  lemma ChangeSound(s: ControlState, e: Event)
    requires e.DependencyChange? && Sound(s)
    ensures Sound(ApplyChange(s, e))
  {
    var after := ApplyChange(s, e);
    InvalidatedById(s.evidence, e.dependency);
    SurvivorsSound(s, e.dependency);
    forall id | id in after.currentSource
      ensures ReferenceOk(after, id, SOURCE, SourceValue(after.source))
    {
      assert ReferenceOk(s, id, SOURCE, SourceValue(s.source));
    }
    forall id | id in after.currentVerdict
      ensures ReferenceOk(after, id, VERDICT, AssuranceValue(after.assurance))
    {
      assert ReferenceOk(s, id, VERDICT, AssuranceValue(s.assurance));
    }
  }

  lemma ChangeKeepsPast(s: ControlState, e: Event)
    requires e.DependencyChange?
    ensures Preserves(s, ApplyChange(s, e))
    ensures DependencyChangeOk(s, e.dependency, ApplyChange(s, e))
  {
    InvalidatedById(s.evidence, e.dependency);
  }

  /** A proposed dependency change passes every core check, from every valid state. */
  lemma ChangeAccepted(s: ControlState, e: Event)
    requires e.DependencyChange? && Sound(s)
    ensures Accepted(s, e, ApplyChange(s, e))
  {
    ChangeSound(s, e);
    ChangeKeepsPast(s, e);
    StateOkExact(s);
    TransitionOkExact(s, ApplyChange(s, e));
  }

  // ----- Retirement

  function RetireAudit(e: Event): AuditEvent
    requires e.RetireControl?
  {
    AuditEvent("RetireControl", map["authority" := e.authority, "evidence_id" := e.evidence.id])
  }

  function Retired(s: ControlState, e: Event): ControlState
    requires e.RetireControl?
  {
    s.(obligation := RETIRED, source := SOURCE_UNKNOWN, assurance := ASSURANCE_NA,
       evidence := s.evidence + [e.evidence],
       currentSource := {}, currentVerdict := {}, history := s.history + [RetireAudit(e)])
  }

  function ApplyRetire(s: ControlState, e: Event): ProposalResult
    requires e.RetireControl?
  {
    if e.authority != "I3" then Raised(AUTHORITY)
    else if e.evidence.id in EvidenceById(s.evidence) then Raised(EVIDENCE_NOT_NEW)
    else if !Current(e.evidence) then Raised(EVIDENCE_NOT_CURRENT)
    else Proposed(Retired(s, e))
  }

  lemma RetiredSound(s: ControlState, e: Event)
    requires e.RetireControl? && Sound(s) && e.evidence.id !in EvidenceById(s.evidence)
    ensures Sound(Retired(s, e)) && Preserves(s, Retired(s, e)) && RetirementOk(s, e, Retired(s, e))
  {
    var after := Retired(s, e);
    assert after.evidence[..|after.evidence| - 1] == s.evidence;
    assert EvidenceById(after.evidence) == EvidenceById(s.evidence)[e.evidence.id := e.evidence];
  }

  lemma RetiredAccepted(s: ControlState, e: Event)
    requires e.RetireControl? && Sound(s) && e.evidence.id !in EvidenceById(s.evidence)
    ensures Accepted(s, e, Retired(s, e))
  {
    RetiredSound(s, e);
    StateOkExact(s);
    TransitionOkExact(s, Retired(s, e));
  }

  /** A retirement has an accepted post-state exactly when its evidence is new. */
  lemma RetirementSatisfiable(s: ControlState, e: Event)
    requires e.RetireControl? && Sound(s)
    ensures (exists after :: Accepted(s, e, after)) <==> e.evidence.id !in EvidenceById(s.evidence)
  {
    if e.evidence.id !in EvidenceById(s.evidence) {
      RetiredAccepted(s, e);
    }
  }

  /** Whatever retirement the kernel proposes passes the core checks. */
  lemma RetireAccepted(s: ControlState, e: Event)
    requires e.RetireControl? && Sound(s) && ApplyRetire(s, e).Proposed?
    ensures Accepted(s, e, ApplyRetire(s, e).after)
  {
    RetiredAccepted(s, e);
  }
}
