/** What holds along every run the oracle accepts, whatever proposes the states. */
module KernelRuns {
  import opened Kernel

  // ----- The checks, as facts about the states

  ghost predicate ReferenceOk(s: ControlState, id: string, kind: BasisKind, claim: string) {
    var bases := BasesById(s.bases);
    id in bases && Supported(bases[id], EvidenceById(s.evidence)) && bases[id].kind == kind && bases[id].claim == claim
  }

  ghost predicate ReferencesOk(s: ControlState, ids: set<string>, kind: BasisKind, claim: string) {
    forall id :: id in ids ==> ReferenceOk(s, id, kind, claim)
  }

  /** A valid state: distinct identities, current references that are supported and
      claim what the state claims, and claims that rest on some reference. */
  ghost predicate Sound(s: ControlState) {
    && |EvidenceById(s.evidence)| == |s.evidence|
    && |BasesById(s.bases)| == |s.bases|
    && ReferencesOk(s, s.currentSource, SOURCE, SourceValue(s.source))
    && ReferencesOk(s, s.currentVerdict, VERDICT, AssuranceValue(s.assurance))
    && (s.source != SOURCE_UNKNOWN ==> s.currentSource != {})
    && (s.obligation == CURRENT && Substantive(s.assurance) ==> s.currentVerdict != {})
    && (s.obligation != CURRENT ==> s.assurance == ASSURANCE_NA)
  }

  lemma CurrentReferences(s: ControlState)
    requires StateOk(s)
    ensures ReferencesOk(s, s.currentSource, SOURCE, SourceValue(s.source))
    ensures ReferencesOk(s, s.currentVerdict, VERDICT, AssuranceValue(s.assurance))
  {
    assert !StateViolates(s, INV_05) && !StateViolates(s, INV_07) && !StateViolates(s, INV_13);
    forall id | id in CurrentIds(s)
      ensures id in BasesById(s.bases) && Supported(BasesById(s.bases)[id], EvidenceById(s.evidence))
    {
      assert !UnfoundedBasis(s, id) && !OutdatedBasis(s, id);
    }
    forall id | id in s.currentSource
      ensures ReferenceOk(s, id, SOURCE, SourceValue(s.source))
    {
      assert id in CurrentIds(s) && !Misclaims(s, id, SOURCE, SourceValue(s.source));
    }
    forall id | id in s.currentVerdict
      ensures ReferenceOk(s, id, VERDICT, AssuranceValue(s.assurance))
    {
      assert id in CurrentIds(s) && !Misclaims(s, id, VERDICT, AssuranceValue(s.assurance));
    }
  }

  lemma StateOkImpliesSound(s: ControlState)
    requires StateOk(s)
    ensures Sound(s)
  {
    CurrentReferences(s);
    assert !StateViolates(s, G_INV_06) && !StateViolates(s, G_INV_11) && !StateViolates(s, INV_04);
    assert !StateViolates(s, INV_05) && !StateViolates(s, INV_07);
  }

  /** A current reference names a known, supported basis. */
  lemma CurrentIsSupported(s: ControlState, id: string)
    requires Sound(s) && id in CurrentIds(s)
    ensures id in BasesById(s.bases) && Supported(BasesById(s.bases)[id], EvidenceById(s.evidence))
  {
    if id in s.currentSource {
      assert ReferenceOk(s, id, SOURCE, SourceValue(s.source));
    } else {
      assert ReferenceOk(s, id, VERDICT, AssuranceValue(s.assurance));
    }
  }

  lemma SourceClaim(s: ControlState, id: string)
    requires Sound(s) && id in s.currentSource
    ensures id in BasesById(s.bases) && BasesById(s.bases)[id].claim == SourceValue(s.source)
  {
    assert ReferenceOk(s, id, SOURCE, SourceValue(s.source));
  }

  lemma VerdictClaim(s: ControlState, id: string)
    requires Sound(s) && id in s.currentVerdict
    ensures id in BasesById(s.bases) && BasesById(s.bases)[id].claim == AssuranceValue(s.assurance)
  {
    assert ReferenceOk(s, id, VERDICT, AssuranceValue(s.assurance));
  }

  lemma SoundImpliesStateOk(s: ControlState)
    requires Sound(s)
    ensures StateOk(s)
  {
    forall id | id in CurrentIds(s)
      ensures !UnfoundedBasis(s, id) && !OutdatedBasis(s, id)
    {
      if id in s.currentSource {
        assert ReferenceOk(s, id, SOURCE, SourceValue(s.source));
      } else {
        assert ReferenceOk(s, id, VERDICT, AssuranceValue(s.assurance));
      }
    }
    forall i
      ensures !StateViolates(s, i)
    {
      match i
      case INV_05 => assert forall id :: id in s.currentSource ==> !Misclaims(s, id, SOURCE, SourceValue(s.source));
      case INV_07 =>
        assert forall id :: id in s.currentVerdict ==> !Misclaims(s, id, VERDICT, AssuranceValue(s.assurance));
      case _ =>
    }
  }

  /** A state passes validation exactly when it is sound. */
  lemma StateOkExact(s: ControlState)
    ensures StateOk(s) <==> Sound(s)
  {
    if StateOk(s) { StateOkImpliesSound(s); }
    if Sound(s) { SoundImpliesStateOk(s); }
  }

  /** Evidence keeps its identity and content, and can only lose its currency. */
  ghost predicate EvidenceKept(old': map<string, Evidence>, new': map<string, Evidence>) {
    forall id :: id in old' ==>
      id in new' && !Rewritten(old'[id], new'[id]) && (Current(new'[id]) ==> Current(old'[id]))
  }

  ghost predicate BasesKept(old': map<string, Basis>, new': map<string, Basis>) {
    forall id :: id in old' ==> id in new' && new'[id] == old'[id]
  }

  /** What every accepted transition keeps of the past. */
  ghost predicate Preserves(before: ControlState, after: ControlState) {
    && before.history <= after.history
    && EvidenceKept(EvidenceById(before.evidence), EvidenceById(after.evidence))
    && BasesKept(BasesById(before.bases), BasesById(after.bases))
  }

  lemma TransitionOkExact(before: ControlState, after: ControlState)
    ensures TransitionOk(before, after) <==> Sound(after) && Preserves(before, after)
  {
    StateOkExact(after);
    if TransitionOk(before, after) {
      forall i
        ensures !StateViolates(after, i)
      {
        assert !TransitionViolates(before, after, i);
      }
      TransitionOkPreserves(before, after);
    }
    if StateOk(after) && Preserves(before, after) {
      forall i
        ensures !TransitionViolates(before, after, i)
      {
        assert !StateViolates(after, i);
      }
    }
  }

  lemma TransitionOkPreserves(before: ControlState, after: ControlState)
    requires TransitionOk(before, after)
    ensures Preserves(before, after)
  {
    assert !TransitionViolates(before, after, INV_19) && !TransitionViolates(before, after, INV_18);
    assert !TransitionViolates(before, after, G_INV_06) && !TransitionViolates(before, after, G_INV_11);
  }

  lemma AcceptedFacts(before: ControlState, e: Event, after: ControlState)
    requires Accepted(before, e, after)
    ensures Sound(before) && Sound(after) && Preserves(before, after) && EventOk(before, e, after)
  {
    StateOkExact(before);
    TransitionOkExact(before, after);
  }

  // ----- Runs

  datatype Run = Run(states: seq<ControlState>, events: seq<Event>)

  ghost predicate AcceptedRun(r: Run) {
    && |r.states| == |r.events| + 1
    && forall k :: 0 <= k < |r.events| ==> Accepted(r.states[k], r.events[k], r.states[k + 1])
  }

  lemma PreservesTransitive(a: ControlState, b: ControlState, c: ControlState)
    requires Preserves(a, b) && Preserves(b, c)
    ensures Preserves(a, c)
  {
  }

  lemma {:induction false} RunPreserves(r: Run, i: nat, j: nat)
    requires AcceptedRun(r) && i <= j <= |r.events|
    ensures Preserves(r.states[i], r.states[j])
    decreases j - i
  {
    if i < j {
      RunPreserves(r, i, j - 1);
      AcceptedFacts(r.states[j - 1], r.events[j - 1], r.states[j - 1 + 1]);
      PreservesTransitive(r.states[i], r.states[j - 1], r.states[j]);
    }
  }

  /** Along every accepted run history only grows, evidence is never deleted or
      rewritten, non-current evidence never becomes current again, and bases never change. */
  lemma PastIsKept(r: Run, i: nat, j: nat)
    requires AcceptedRun(r) && i <= j <= |r.events|
    ensures r.states[i].history <= r.states[j].history
    ensures forall id :: id in EvidenceById(r.states[i].evidence) ==>
      && id in EvidenceById(r.states[j].evidence)
      && !Rewritten(EvidenceById(r.states[i].evidence)[id], EvidenceById(r.states[j].evidence)[id])
      && (Current(EvidenceById(r.states[j].evidence)[id]) ==> Current(EvidenceById(r.states[i].evidence)[id]))
    ensures forall id :: id in BasesById(r.states[i].bases) ==>
      id in BasesById(r.states[j].bases) && BasesById(r.states[j].bases)[id] == BasesById(r.states[i].bases)[id]
  {
    RunPreserves(r, i, j);
  }

  /** A basis that has lost a member to invalidation or expiry is never current again. */
  lemma LostSupportIsFinal(r: Run, i: nat, j: nat, id: string, member: string)
    requires AcceptedRun(r) && i < j <= |r.events|
    requires id in BasesById(r.states[i].bases) && member in BasesById(r.states[i].bases)[id].members
    requires member in EvidenceById(r.states[i].evidence) && !Current(EvidenceById(r.states[i].evidence)[member])
    ensures id !in CurrentIds(r.states[j])
  {
    RunPreserves(r, i, j);
    AcceptedFacts(r.states[j - 1], r.events[j - 1], r.states[j - 1 + 1]);
    assert !Current(EvidenceById(r.states[j].evidence)[member]);
    if id in CurrentIds(r.states[j]) {
      CurrentIsSupported(r.states[j], id);
    }
  }

  ghost predicate CoreRun(r: Run) {
    AcceptedRun(r) && forall k :: 0 <= k < |r.events| ==> !r.events[k].Temporal?
  }

  /** A core event brings into the current references only bases unknown before it. */
  lemma CoreEventAddsOnlyNew(before: ControlState, e: Event, after: ControlState, id: string)
    requires Accepted(before, e, after) && !e.Temporal? && id in BasesById(before.bases)
    ensures id in after.currentSource ==> id in before.currentSource
    ensures id in after.currentVerdict ==> id in before.currentVerdict
  {
    AcceptedFacts(before, e, after);
  }

  lemma StepAddsOnlyNew(r: Run, k: nat, id: string)
    requires CoreRun(r) && k < |r.events| && id in BasesById(r.states[k].bases)
    ensures id in r.states[k + 1].currentSource ==> id in r.states[k].currentSource
    ensures id in r.states[k + 1].currentVerdict ==> id in r.states[k].currentVerdict
  {
    CoreEventAddsOnlyNew(r.states[k], r.events[k], r.states[k + 1], id);
  }

  lemma BasisStays(r: Run, i: nat, j: nat, id: string)
    requires AcceptedRun(r) && i <= j <= |r.events| && id in BasesById(r.states[i].bases)
    ensures id in BasesById(r.states[j].bases)
  {
    RunPreserves(r, i, j);
  }

  lemma {:induction false} StaysOut(r: Run, i: nat, j: nat, id: string)
    requires CoreRun(r) && i <= j <= |r.events| && id in BasesById(r.states[i].bases)
    ensures id !in r.states[i].currentSource ==> id !in r.states[j].currentSource
    ensures id !in r.states[i].currentVerdict ==> id !in r.states[j].currentVerdict
    decreases j - i
  {
    if i < j {
      StaysOut(r, i, j - 1, id);
      BasisStays(r, i, j - 1, id);
      StepAddsOnlyNew(r, j - 1, id);
    }
  }

  /** Along runs of the core events, a basis that leaves the current references of
      a kind never re-enters them. */
  lemma DepartureIsFinal(r: Run, i: nat, j: nat, id: string)
    requires CoreRun(r) && i < j <= |r.events|
    ensures id in r.states[i].currentSource && id !in r.states[i + 1].currentSource ==> id !in r.states[j].currentSource
    ensures id in r.states[i].currentVerdict && id !in r.states[i + 1].currentVerdict ==>
      id !in r.states[j].currentVerdict
  {
    AcceptedFacts(r.states[i], r.events[i], r.states[i + 1]);
    if id in CurrentIds(r.states[i]) {
      CurrentIsSupported(r.states[i], id);
      StaysOut(r, i + 1, j, id);
    }
  }

  // ----- No restoration without fresh support

  /** A basis introduced by a reassessment: approved, unknown before, of the right
      kind, claiming exactly this, and supported by current evidence. */
  ghost predicate FreshSupport(before: ControlState, e: Event, after: ControlState, id: string, kind: BasisKind,
      claim: string)
  {
    && e.Reassess?
    && id in BasesById(e.newBases) && id !in BasesById(before.bases)
    && id in BasesById(after.bases) && BasesById(after.bases)[id] == BasesById(e.newBases)[id]
    && BasesById(e.newBases)[id].kind == kind && BasesById(e.newBases)[id].claim == claim
    && Supported(BasesById(e.newBases)[id], EvidenceById(after.evidence))
  }

  /** An accepted core event that moves the source to another substantive state
      contributes a fresh source basis claiming exactly that state. */
  lemma SourceNeedsFreshSupport(before: ControlState, e: Event, after: ControlState)
    requires Accepted(before, e, after) && !e.Temporal?
    requires after.source != before.source && after.source != SOURCE_UNKNOWN
    ensures exists id ::
      id in after.currentSource && FreshSupport(before, e, after, id, SOURCE, SourceValue(after.source))
  {
    AcceptedFacts(before, e, after);
    ValuesInjective();
    var id :| id in after.currentSource;
    assert e.Reassess?;
    SourceClaim(after, id);
    if id in before.currentSource {
      SourceClaim(before, id);
    }
    assert FreshSupport(before, e, after, id, SOURCE, SourceValue(after.source));
  }

  /** An accepted core event that gives a current obligation another substantive
      verdict contributes a fresh verdict basis claiming exactly that verdict. */
  lemma VerdictNeedsFreshSupport(before: ControlState, e: Event, after: ControlState)
    requires Accepted(before, e, after) && !e.Temporal?
    requires after.assurance != before.assurance && Substantive(after.assurance)
    ensures after.obligation == CURRENT
    ensures exists id ::
      id in after.currentVerdict && FreshSupport(before, e, after, id, VERDICT, AssuranceValue(after.assurance))
  {
    AcceptedFacts(before, e, after);
    ValuesInjective();
    var id :| id in after.currentVerdict;
    assert e.Reassess?;
    VerdictClaim(after, id);
    if id in before.currentVerdict {
      VerdictClaim(before, id);
    }
    assert FreshSupport(before, e, after, id, VERDICT, AssuranceValue(after.assurance));
  }
}
