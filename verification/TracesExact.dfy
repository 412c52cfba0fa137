/** What the traces of the three core transitions say about them. */
module TracesExact {
  import opened Options
  import opened Text
  import opened Kernel
  import opened KernelRuns
  import opened Traces
  import opened Proposer
  import opened Reassessment
  import opened ReassessmentExact
  import opened ProposedRuns

  /** The trace of a proposed transition. */
  ghost function TraceOf(s: ControlState, e: Event): Trace
    requires !e.Temporal? && Propose(s, e).Proposed?
  {
    var after := Propose(s, e).after;
    match e
    case DependencyChange(d, _) => ChangeTrace(s, after, HitIds(s, d))
    case Reassess(_, _, _, _, _, _) => ReassessTrace(s, after)
    case RetireControl(_, _) => RetireTrace(s, after)
  }

  /** The evidence of that identity was current before and is not any more. */
  ghost predicate LosesCurrency(s: ControlState, after: ControlState, id: string) {
    var old', new' := EvidenceById(s.evidence), EvidenceById(after.evidence);
    id in old' && Current(old'[id]) && !(id in new' && Current(new'[id]))
  }

  /** The trace names as removed exactly the references that leave. */
  ghost predicate NamesRemoved(s: ControlState, after: ControlState, t: Trace) {
    forall id :: id in t.removed <==> id in CurrentIds(s) && id !in CurrentIds(after)
  }

  lemma HitExact(s: ControlState, d: string)
    requires Sound(s)
    ensures forall id :: id in HitIds(s, d) <==> id in EvidenceById(s.evidence) && Hit(EvidenceById(s.evidence)[id], d)
  {
    DistinctEvidence(s.evidence);
    EvidenceKeys(s.evidence);
  }

  lemma ChangeInvalidates(s: ControlState, e: Event)
    requires Sound(s) && e.DependencyChange?
    ensures forall id :: id in HitIds(s, e.dependency) <==> LosesCurrency(s, ApplyChange(s, e), id)
  {
    HitExact(s, e.dependency);
    InvalidatedById(s.evidence, e.dependency);
  }

  lemma AdditionKeepsCurrency(s: ControlState, after: ControlState, added: map<string, Evidence>)
    requires EvidenceById(after.evidence) == EvidenceById(s.evidence) + added
    requires EvidenceById(s.evidence).Keys !! added.Keys
    ensures forall id :: !LosesCurrency(s, after, id)
  {
  }

  lemma ReassessKeepsCurrency(s: ControlState, e: Event)
    requires e.Reassess? && ReassessRefusal(s, e).None?
    ensures forall id :: !LosesCurrency(s, Reassessed(s, e), id)
  {
    UnrefusedIsPermitted(s, e);
    MergedEvidence(s, e);
    AdditionKeepsCurrency(s, Reassessed(s, e), EvidenceById(e.newEvidence));
  }

  lemma RetireKeepsCurrency(s: ControlState, e: Event)
    requires e.RetireControl? && e.evidence.id !in EvidenceById(s.evidence)
    ensures forall id :: !LosesCurrency(s, Retired(s, e), id)
  {
    var evidence := s.evidence + [e.evidence];
    assert evidence[..|evidence| - 1] == s.evidence;
    assert EvidenceById(evidence) == EvidenceById(s.evidence) + map[e.evidence.id := e.evidence];
    AdditionKeepsCurrency(s, Retired(s, e), map[e.evidence.id := e.evidence]);
  }

  ghost predicate NamesInvalidated(s: ControlState, after: ControlState, t: Trace) {
    forall id :: id in t.invalidated <==> LosesCurrency(s, after, id)
  }

  /** Nothing but the evidence a dependency change hits loses its currency. */
  lemma InvalidatedExact(s: ControlState, e: Event)
    requires Sound(s) && !e.Temporal? && Propose(s, e).Proposed?
    ensures NamesInvalidated(s, Propose(s, e).after, TraceOf(s, e))
  {
    match e
    case DependencyChange(_, _) => ChangeInvalidates(s, e);
    case Reassess(_, _, _, _, _, _) => ReassessKeepsCurrency(s, e);
    case RetireControl(_, _) => RetireKeepsCurrency(s, e);
  }

  lemma SortedMembers(ids: seq<string>)
    ensures forall id :: id in Sorted(ids) <==> id in ids
  {
    SortedSorts(ids);
    assert forall id :: id in ids <==> id in multiset(ids);
    assert forall id :: id in Sorted(ids) <==> id in multiset(Sorted(ids));
  }

  /** The trace of a dependency change splits the evidence current before it. */
  lemma ChangeSplitsEvidence(s: ControlState, e: Event, id: string)
    requires Sound(s) && e.DependencyChange?
    ensures var t, old' := TraceOf(s, e), EvidenceById(s.evidence);
            && (id in t.invalidated || id in t.preserved <==> id in old' && Current(old'[id]))
            && !(id in t.invalidated && id in t.preserved)
  {
    var after := ApplyChange(s, e).evidence;
    HitExact(s, e.dependency);
    InvalidatedById(s.evidence, e.dependency);
    SortedMembers(EvidenceIds(CurrentEvidence(after)));
    DistinctEvidence(after);
    EvidenceKeys(after);
  }

  ghost predicate NamesSurviving(after: ControlState, t: Trace) {
    forall id :: id in t.surviving <==> id in CurrentIds(after)
  }

  lemma ChangeTold(s: ControlState, after: ControlState, invalidated: set<string>)
    ensures var t := ChangeTrace(s, after, invalidated); NamesSurviving(after, t) && NamesRemoved(s, after, t)
  {
  }

  lemma ReassessTold(s: ControlState, after: ControlState)
    ensures var t := ReassessTrace(s, after);
            NamesSurviving(after, t) && (NamesRemoved(s, after, t) <==> CurrentIds(s) <= CurrentIds(after))
  {
    assert ReassessTrace(s, after).removed == [];
  }

  lemma RetireTold(s: ControlState, after: ControlState)
    requires CurrentIds(after) == {}
    ensures var t := RetireTrace(s, after); NamesSurviving(after, t) && NamesRemoved(s, after, t)
  {
  }

  lemma ReferencesTold(s: ControlState, e: Event)
    requires !e.Temporal? && Propose(s, e).Proposed?
    ensures var t, after := TraceOf(s, e), Propose(s, e).after;
            && NamesSurviving(after, t)
            && (NamesRemoved(s, after, t) <==> (e.Reassess? ==> CurrentIds(s) <= CurrentIds(after)))
  {
    var after := Propose(s, e).after;
    match e
    case DependencyChange(d, _) => ChangeTold(s, after, HitIds(s, d));
    case Reassess(_, _, _, _, _, _) => ReassessTold(s, after);
    case RetireControl(_, _) => RetireTold(s, after);
  }

  /** The claims that have references stay as they are. */
  predicate ClaimsStay(s: ControlState, e: Event)
    requires e.Reassess?
  {
    && (s.currentSource != {} ==> s.source != SOURCE_UNKNOWN && NewSource(s, e) == s.source)
    && (s.currentVerdict != {} ==> Substantive(s.assurance) && NewAssurance(s, e) == s.assurance)
  }

  /** An old reference of a kind stays exactly when its claim does. */
  lemma StaysExact(s: ControlState, e: Event, kind: BasisKind, old': set<string>, oldClaim: string, claim: string,
      substantive: bool, id: string)
    requires e.Reassess? && Permitted(s, e) && ReferenceOk(s, id, kind, oldClaim) && id in old'
    ensures id in References(old', BasesById(s.bases), e.newBases, kind, claim, substantive)
      <==> substantive && claim == oldClaim
    ensures forall ids, other, c, b | other != kind ::
      id !in References(ids, BasesById(s.bases), e.newBases, other, c, b)
  {
    assert id !in BasesById(s.bases).Keys * BasisIds(e.newBases);
  }

  /** A reassessment drops no reference exactly when the claims that have any stay. */
  lemma DropsNothingExact(s: ControlState, e: Event)
    requires e.Reassess? && Sound(s) && Permitted(s, e)
    ensures CurrentIds(s) <= CurrentIds(Reassessed(s, e)) <==> ClaimsStay(s, e)
  {
    ValuesInjective();
    forall id | id in s.currentSource
      ensures id in CurrentIds(Reassessed(s, e)) <==> NewSource(s, e) != SOURCE_UNKNOWN && NewSource(s, e) == s.source
    {
      StaysExact(s, e, SOURCE, s.currentSource, SourceValue(s.source), SourceValue(NewSource(s, e)),
        NewSource(s, e) != SOURCE_UNKNOWN, id);
    }
    forall id | id in s.currentVerdict
      ensures id in CurrentIds(Reassessed(s, e))
        <==> Substantive(NewAssurance(s, e)) && NewAssurance(s, e) == s.assurance
    {
      StaysExact(s, e, VERDICT, s.currentVerdict, AssuranceValue(s.assurance), AssuranceValue(NewAssurance(s, e)),
        Substantive(NewAssurance(s, e)), id);
    }
  }

  /** A trace tells truly what survives and what was invalidated; it tells what was
      removed unless a reassessment changes a claim that has references. */
  lemma TraceExact(s: ControlState, e: Event)
    requires Sound(s) && !e.Temporal? && Propose(s, e).Proposed?
    ensures var t, after := TraceOf(s, e), Propose(s, e).after;
            && NamesSurviving(after, t)
            && NamesInvalidated(s, after, t)
            && (NamesRemoved(s, after, t) <==> (e.Reassess? ==> ClaimsStay(s, e)))
  {
    InvalidatedExact(s, e);
    ReferencesTold(s, e);
    if e.Reassess? {
      UnrefusedIsPermitted(s, e);
      DropsNothingExact(s, e);
    }
  }

  lemma ConnectedState() returns (s: ControlState)
    ensures Sound(s) && s.source == CONNECTED && s.currentSource == {"b"} && s.currentVerdict == {}
    ensures s.assurance == UNVERIFIED && s.requests == [] && s.obligation == CURRENT
  {
    var item := Evidence("e", "d", CURRENT_EVIDENCE, {}, None, 0, None, None, None);
    var basis := Basis("b", SOURCE, "connected", {"e"}, true);
    s := ControlState("c", CURRENT, CONNECTED, UNVERIFIED, [item], [basis], {"b"}, {}, [], 0, None, None, [], None);
    assert EvidenceById([item]) == map["e" := item] by { assert [item][..0] == []; }
    assert BasesById([basis]) == map["b" := basis] by { assert [basis][..0] == []; }
  }

  /** A control may be withdrawn to an unknown source, losing its references. */
  lemma Withdrawal(s: ControlState) returns (e: Event)
    requires s.requests == [] && s.obligation == CURRENT && s.source == CONNECTED
    requires s.assurance == UNVERIFIED && s.currentVerdict == {}
    ensures e.Reassess? && Propose(s, e).Proposed? && CurrentIds(Propose(s, e).after) == {}
    ensures Acceptable(s, e)
  {
    e := Reassess([], [], Some(SOURCE_UNKNOWN), None, "I3", []);
    assert IdsOf([]) == {} && BasisIds([]) == {};
  }

  /** A valid state, and an accepted reassessment that drops its only reference
      without its trace naming anything as removed. */
  lemma DroppedUnnamed() returns (s: ControlState, e: Event)
    ensures e.Reassess? && Propose(s, e).Proposed? && Accepted(s, e, Propose(s, e).after)
    ensures !NamesRemoved(s, Propose(s, e).after, TraceOf(s, e))
  {
    s := ConnectedState();
    e := Withdrawal(s);
    OracleExact(s, e);
    ReassessTold(s, Propose(s, e).after);
    assert "b" in CurrentIds(s);
  }
}
