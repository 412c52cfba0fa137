/** Proposed reassessments, and exactly which of them the verifier accepts. */
module Reassessment {
  import opened Options
  import opened Text
  import opened Kernel
  import opened Traces
  import opened Proposer

  // ----- Closing requests

  function RequestsById(requests: seq<Request>): map<string, Request> {
    if requests == [] then map[]
    else RequestsById(requests[..|requests| - 1])[requests[|requests| - 1].id := requests[|requests| - 1]]
  }

  function Close(r: Request, time: int): Request {
    if r.status == CLOSED then r else r.(status := CLOSED, closedAt := Some(time))
  }

  predicate Repeats(ids: seq<string>) {
    exists i, j :: 0 <= i < j < |ids| && ids[i] == ids[j]
  }

  function ClosureRefusal(s: ControlState, ids: seq<string>): Option<Refusal> {
    var known := RequestsById(s.requests);
    if Repeats(ids) then Some(CLOSURE_REPEATED)
    else if exists i :: i in ids && i !in known then Some(REQUEST_UNKNOWN)
    else if exists i :: i in ids && i in known && known[i].status == CLOSED then Some(REQUEST_CLOSED)
    else None
  }

  function ClosedRequests(s: ControlState, ids: seq<string>): seq<Request> {
    seq(|s.requests|, i requires 0 <= i < |s.requests| =>
      if s.requests[i].id in ids then Close(s.requests[i], s.time) else s.requests[i])
  }

  // ----- The proposal

  function IdsOf(evidence: seq<Evidence>): set<string> {
    set e | e in evidence :: e.id
  }

  function BasisIds(bases: seq<Basis>): set<string> {
    set b | b in bases :: b.id
  }

  function OfKind(bases: seq<Basis>, kind: BasisKind): set<string> {
    set b | b in bases && b.kind == kind :: b.id
  }

  function BasisRefusal(b: Basis, known: set<string>, source: SourceState, assurance: Assurance): Option<Refusal> {
    if !b.approved then Some(BASIS_UNAPPROVED)
    else if b.members == {} then Some(BASIS_EMPTY)
    else if !(b.members <= known) then Some(BASIS_UNKNOWN_EVIDENCE)
    else if b.kind == SOURCE && b.claim != SourceValue(source) then Some(SOURCE_CLAIM)
    else if b.kind == VERDICT && b.claim != AssuranceValue(assurance) then Some(VERDICT_CLAIM)
    else None
  }

  /** The first refusal among the new bases, in order. */
  function BasesRefusal(bases: seq<Basis>, known: set<string>, source: SourceState,
      assurance: Assurance): (r: Option<Refusal>)
    ensures r.None? <==> forall b :: b in bases ==> BasisRefusal(b, known, source, assurance).None?
  {
    if bases == [] then None
    else
      assert bases == [bases[0]] + bases[1..];
      var first := BasisRefusal(bases[0], known, source, assurance);
      if first.Some? then first else BasesRefusal(bases[1..], known, source, assurance)
  }

  function Join(ids: seq<string>): string {
    if ids == [] then "" else if |ids| == 1 then ids[0] else ids[0] + "," + Join(ids[1..])
  }

  function ReassessAudit(e: Event): AuditEvent
    requires e.Reassess?
  {
    var details := map["authority" := e.authority,
                       "evidence_ids" := Join(SortedSet(IdsOf(e.newEvidence))),
                       "basis_ids" := Join(SortedSet(BasisIds(e.newBases)))];
    AuditEvent("Reassess",
      if e.closeRequests == [] then details else details["closed_request_ids" := Join(Sorted(e.closeRequests))])
  }

  /** The current references of a kind whose basis keeps the claim. */
  function Kept(ids: set<string>, bases: map<string, Basis>, kind: BasisKind, claim: string): set<string> {
    set id | id in ids && id in bases && bases[id].kind == kind && bases[id].claim == claim
  }

  /** The old references of a kind that keep their claim, plus the new ones; none
      if the resulting claim is not substantive. */
  function References(old': set<string>, bases: map<string, Basis>, added: seq<Basis>, kind: BasisKind, claim: string,
      substantive: bool): set<string>
  {
    if !substantive then {}
    else Kept(old', bases, kind, claim) + OfKind(added, kind)
  }

  function NewSource(s: ControlState, e: Event): SourceState
    requires e.Reassess?
  {
    Resulting(e.source, s.source)
  }

  function NewAssurance(s: ControlState, e: Event): Assurance
    requires e.Reassess?
  {
    Resulting(e.assurance, s.assurance)
  }

  function Reassessed(s: ControlState, e: Event): ControlState
    requires e.Reassess?
  {
    var source, assurance := NewSource(s, e), NewAssurance(s, e);
    var bases := BasesById(s.bases);
    s.(evidence := s.evidence + e.newEvidence, bases := s.bases + e.newBases,
       currentSource := References(s.currentSource, bases, e.newBases, SOURCE, SourceValue(source),
                                   source != SOURCE_UNKNOWN),
       currentVerdict := References(s.currentVerdict, bases, e.newBases, VERDICT, AssuranceValue(assurance),
                                    Substantive(assurance)),
       source := source, assurance := assurance,
       requests := ClosedRequests(s, e.closeRequests), history := s.history + [ReassessAudit(e)])
  }

  function ReassessRefusal(s: ControlState, e: Event): Option<Refusal>
    requires e.Reassess?
  {
    var evidenceIds, basisIds := EvidenceById(s.evidence).Keys, BasesById(s.bases).Keys;
    if e.authority != "I3" then Some(AUTHORITY)
    else if evidenceIds * IdsOf(e.newEvidence) != {} then Some(EVIDENCE_NOT_NEW)
    else if basisIds * BasisIds(e.newBases) != {} then Some(BASIS_NOT_NEW)
    else if exists x :: x in e.newEvidence && !Current(x) then Some(EVIDENCE_NOT_CURRENT)
    else if exists x :: x in e.newEvidence && x.issuedAt > s.time then Some(ISSUED_IN_FUTURE)
    else
      var bases := BasesRefusal(e.newBases, evidenceIds + IdsOf(e.newEvidence), NewSource(s, e), NewAssurance(s, e));
      if bases.Some? then bases else ClosureRefusal(s, e.closeRequests)
  }

  function ApplyReassess(s: ControlState, e: Event): ProposalResult
    requires e.Reassess?
  {
    var refusal := ReassessRefusal(s, e);
    if refusal.Some? then Raised(refusal.value) else Proposed(Reassessed(s, e))
  }

  // ----- The proposal as executed

  /** The loop that refuses the first new basis at fault. */
  method CheckBases(bases: seq<Basis>, known: set<string>, source: SourceState, assurance: Assurance)
    returns (r: Option<Refusal>)
    ensures r == BasesRefusal(bases, known, source, assurance)
  {
    for i := 0 to |bases|
      invariant BasesRefusal(bases, known, source, assurance) == BasesRefusal(bases[i..], known, source, assurance)
    {
      assert bases[i..][0] == bases[i] && bases[i..][1..] == bases[i + 1..];
      var refusal := BasisRefusal(bases[i], known, source, assurance);
      if refusal.Some? {
        return refusal;
      }
    }
    return None;
  }

  /** The loop that adds the new bases to the references of their kind. */
  method AddReferences(source: set<string>, verdict: set<string>, bases: seq<Basis>)
    returns (sources: set<string>, verdicts: set<string>)
    ensures sources == source + OfKind(bases, SOURCE) && verdicts == verdict + OfKind(bases, VERDICT)
  {
    sources, verdicts := source, verdict;
    for i := 0 to |bases|
      invariant sources == source + OfKind(bases[..i], SOURCE) && verdicts == verdict + OfKind(bases[..i], VERDICT)
    {
      OfKindNext(bases, i);
      if bases[i].kind == SOURCE {
        sources := sources + {bases[i].id};
      } else if bases[i].kind == VERDICT {
        verdicts := verdicts + {bases[i].id};
      }
    }
    assert bases[..|bases|] == bases;
  }

  lemma OfKindNext(bases: seq<Basis>, i: nat)
    requires i < |bases|
    ensures forall kind ::
      OfKind(bases[..i + 1], kind) == OfKind(bases[..i], kind) + if bases[i].kind == kind then {bases[i].id} else {}
  {
    assert bases[..i + 1] == bases[..i] + [bases[i]];
  }

  /** The reassessment, check by check and then reference by reference. */
  method ProposeReassess(s: ControlState, e: Event) returns (p: ProposalResult, trace: Option<Trace>)
    requires e.Reassess?
    ensures p == ApplyReassess(s, e)
    ensures trace == if p.Proposed? then Some(ReassessTrace(s, p.after)) else None
  {
    var evidenceIds, basisIds := EvidenceById(s.evidence).Keys, BasesById(s.bases).Keys;
    if e.authority != "I3" {
      return Raised(AUTHORITY), None;
    }
    if evidenceIds * IdsOf(e.newEvidence) != {} {
      return Raised(EVIDENCE_NOT_NEW), None;
    }
    if basisIds * BasisIds(e.newBases) != {} {
      return Raised(BASIS_NOT_NEW), None;
    }
    if exists x :: x in e.newEvidence && !Current(x) {
      return Raised(EVIDENCE_NOT_CURRENT), None;
    }
    if exists x :: x in e.newEvidence && x.issuedAt > s.time {
      return Raised(ISSUED_IN_FUTURE), None;
    }
    var source, assurance := NewSource(s, e), NewAssurance(s, e);
    var fault := CheckBases(e.newBases, evidenceIds + IdsOf(e.newEvidence), source, assurance);
    if fault.Some? {
      return Raised(fault.value), None;
    }
    var bases := BasesById(s.bases);
    var sources := Kept(s.currentSource, bases, SOURCE, SourceValue(source));
    var verdicts := Kept(s.currentVerdict, bases, VERDICT, AssuranceValue(assurance));
    sources, verdicts := AddReferences(sources, verdicts, e.newBases);
    if source == SOURCE_UNKNOWN {
      sources := {};
    }
    if !Substantive(assurance) {
      verdicts := {};
    }
    var unclosable := ClosureRefusal(s, e.closeRequests);
    if unclosable.Some? {
      return Raised(unclosable.value), None;
    }
    p := Proposed(s.(evidence := s.evidence + e.newEvidence, bases := s.bases + e.newBases,
                     currentSource := sources, currentVerdict := verdicts, source := source, assurance := assurance,
                     requests := ClosedRequests(s, e.closeRequests), history := s.history + [ReassessAudit(e)]));
    trace := Some(ReassessTrace(s, p.after));
  }

  // ----- When the verifier accepts the proposal

  /** A new basis rests on no older evidence that has lost its currency. */
  predicate RestsOnCurrent(s: ControlState, b: Basis) {
    var old' := EvidenceById(s.evidence);
    forall m :: m in b.members && m in old' ==> Current(old'[m])
  }

  /** The new references of one kind are the ones the verifier expects: all of
      them supported when the resulting claim is substantive; none supported, and
      no old one left under a kept claim, when it is not. */
  predicate ReferencesFit(s: ControlState, e: Event, kind: BasisKind, old': set<string>, kept: bool, substantive: bool)
    requires e.Reassess?
  {
    if substantive then forall b :: b in e.newBases && b.kind == kind ==> RestsOnCurrent(s, b)
    else (kept ==> old' == {}) && forall b :: b in e.newBases && b.kind == kind ==> !RestsOnCurrent(s, b)
  }

  predicate IdsDistinct(e: Event)
    requires e.Reassess?
  {
    |IdsOf(e.newEvidence)| == |e.newEvidence| && |BasisIds(e.newBases)| == |e.newBases|
  }

  /** The conditions a caller can check before proposing. */
  predicate Acceptable(s: ControlState, e: Event)
    requires e.Reassess?
  {
    var source, assurance := NewSource(s, e), NewAssurance(s, e);
    && IdsDistinct(e)
    && ReferencesFit(s, e, SOURCE, s.currentSource, source == s.source, source != SOURCE_UNKNOWN)
    && ReferencesFit(s, e, VERDICT, s.currentVerdict, assurance == s.assurance, Substantive(assurance))
    && (source != SOURCE_UNKNOWN && source != s.source ==> OfKind(e.newBases, SOURCE) != {})
    && (s.obligation == CURRENT && Substantive(assurance) && assurance != s.assurance ==>
      OfKind(e.newBases, VERDICT) != {})
    && (s.obligation != CURRENT ==> assurance == ASSURANCE_NA)
  }

  lemma {:induction false} EvidenceAppended(a: seq<Evidence>, b: seq<Evidence>)
    ensures EvidenceById(a + b) == EvidenceById(a) + EvidenceById(b)
  {
    if b == [] {
      assert a + b == a;
    } else {
      assert (a + b)[..|a + b| - 1] == a + b[..|b| - 1];
      EvidenceAppended(a, b[..|b| - 1]);
    }
  }

  lemma {:induction false} BasesAppended(a: seq<Basis>, b: seq<Basis>)
    ensures BasesById(a + b) == BasesById(a) + BasesById(b)
  {
    if b == [] {
      assert a + b == a;
    } else {
      assert (a + b)[..|a + b| - 1] == a + b[..|b| - 1];
      BasesAppended(a, b[..|b| - 1]);
    }
  }

  lemma {:induction false} EvidenceKeys(evidence: seq<Evidence>)
    ensures EvidenceById(evidence).Keys == IdsOf(evidence)
    ensures forall id :: id in EvidenceById(evidence) ==>
      EvidenceById(evidence)[id] in evidence && EvidenceById(evidence)[id].id == id
  {
    if evidence != [] {
      var k := |evidence| - 1;
      EvidenceKeys(evidence[..k]);
      assert evidence == evidence[..k] + [evidence[k]];
      assert IdsOf(evidence) == IdsOf(evidence[..k]) + {evidence[k].id};
    }
  }

  lemma {:induction false} BasesKeys(bases: seq<Basis>)
    ensures BasesById(bases).Keys == BasisIds(bases)
    ensures forall id :: id in BasesById(bases) ==> BasesById(bases)[id] in bases && BasesById(bases)[id].id == id
  {
    if bases != [] {
      var k := |bases| - 1;
      BasesKeys(bases[..k]);
      assert bases == bases[..k] + [bases[k]];
      assert BasisIds(bases) == BasisIds(bases[..k]) + {bases[k].id};
    }
  }

  /** With distinct identities every basis is the one found under its identity. */
  lemma {:induction false} DistinctBases(bases: seq<Basis>)
    requires |BasisIds(bases)| == |bases|
    ensures forall b :: b in bases ==> b.id in BasesById(bases) && BasesById(bases)[b.id] == b
  {
    if bases != [] {
      var k := |bases| - 1;
      assert bases == bases[..k] + [bases[k]];
      BasisIdsBound(bases[..k]);
      assert BasisIds(bases) == BasisIds(bases[..k]) + {bases[k].id};
      assert |BasisIds(bases)| <= |BasisIds(bases[..k])| + 1;
      assert bases[k].id !in BasisIds(bases[..k]);
      DistinctBases(bases[..k]);
    }
  }

  lemma {:induction false} BasisIdsBound(bases: seq<Basis>)
    ensures |BasisIds(bases)| <= |bases|
  {
    if bases != [] {
      var k := |bases| - 1;
      assert bases == bases[..k] + [bases[k]];
      BasisIdsBound(bases[..k]);
      assert BasisIds(bases) == BasisIds(bases[..k]) + {bases[k].id};
    }
  }
}
