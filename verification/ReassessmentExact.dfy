/** The verifier accepts a proposed reassessment exactly when it is acceptable. */
module ReassessmentExact {
  import opened Options
  import opened Kernel
  import opened KernelRuns
  import opened Reassessment

  /** What passing the proposal's own checks establishes. */
  ghost predicate Permitted(s: ControlState, e: Event)
    requires e.Reassess?
  {
    && EvidenceById(s.evidence).Keys * IdsOf(e.newEvidence) == {}
    && BasesById(s.bases).Keys * BasisIds(e.newBases) == {}
    && (forall x :: x in e.newEvidence ==> Current(x))
    && (forall b :: b in e.newBases ==>
          b.approved && b.members != {} && b.members <= EvidenceById(s.evidence).Keys + IdsOf(e.newEvidence))
    && (forall b :: b in e.newBases && b.kind == SOURCE ==> b.claim == SourceValue(NewSource(s, e)))
    && (forall b :: b in e.newBases && b.kind == VERDICT ==> b.claim == AssuranceValue(NewAssurance(s, e)))
  }

  lemma UnrefusedIsPermitted(s: ControlState, e: Event)
    requires e.Reassess? && ReassessRefusal(s, e).None?
    ensures Permitted(s, e)
  {
    var known := EvidenceById(s.evidence).Keys + IdsOf(e.newEvidence);
    forall b | b in e.newBases
      ensures BasisRefusal(b, known, NewSource(s, e), NewAssurance(s, e)).None?
    {
    }
  }

  // ----- The merged maps

  lemma MergedEvidence(s: ControlState, e: Event)
    requires e.Reassess? && Permitted(s, e)
    ensures var old', new' := EvidenceById(s.evidence), EvidenceById(e.newEvidence);
            var all := EvidenceById(s.evidence + e.newEvidence);
            && all == old' + new' && old'.Keys * new'.Keys == {} && new'.Keys == IdsOf(e.newEvidence)
            && (forall id :: id in new' ==> Current(new'[id]))
            && |all| == |old'| + |IdsOf(e.newEvidence)|
  {
    EvidenceAppended(s.evidence, e.newEvidence);
    EvidenceKeys(e.newEvidence);
    var old', new' := EvidenceById(s.evidence), EvidenceById(e.newEvidence);
    assert (old' + new').Keys == old'.Keys + new'.Keys;
    assert |(old' + new').Keys| == |old'.Keys| + |new'.Keys|;
  }

  lemma MergedBases(s: ControlState, e: Event)
    requires e.Reassess? && Permitted(s, e)
    ensures var old', new', all := BasesById(s.bases), BasesById(e.newBases), BasesById(s.bases + e.newBases);
            && all == old' + new' && old'.Keys * new'.Keys == {} && new'.Keys == BasisIds(e.newBases)
            && |all| == |old'| + |BasisIds(e.newBases)|
  {
    BasesAppended(s.bases, e.newBases);
    BasesKeys(e.newBases);
    var old', new' := BasesById(s.bases), BasesById(e.newBases);
    assert (old' + new').Keys == old'.Keys + new'.Keys;
    assert |(old' + new').Keys| == |old'.Keys| + |new'.Keys|;
  }

  lemma OldSupportKept(s: ControlState, e: Event, b: Basis)
    requires e.Reassess? && Permitted(s, e) && Supported(b, EvidenceById(s.evidence))
    ensures Supported(b, EvidenceById(s.evidence + e.newEvidence))
  {
    MergedEvidence(s, e);
  }

  lemma Apart(a: set<string>, b: set<string>, x: string)
    requires a * b == {} && x in a
    ensures x !in b
  {
    assert x in b ==> x in a * b;
  }

  lemma MemberFound(s: ControlState, e: Event, b: Basis, m: string)
    requires e.Reassess? && Permitted(s, e) && b in e.newBases && m in b.members
    ensures var old', all := EvidenceById(s.evidence), EvidenceById(s.evidence + e.newEvidence);
            m in all && (Current(all[m]) <==> m in old' ==> Current(old'[m]))
  {
    MergedEvidence(s, e);
    assert m in EvidenceById(s.evidence).Keys + IdsOf(e.newEvidence);
    if m in EvidenceById(s.evidence) {
      Apart(EvidenceById(s.evidence).Keys, IdsOf(e.newEvidence), m);
    }
  }

  lemma NewSupportExact(s: ControlState, e: Event, b: Basis)
    requires e.Reassess? && Permitted(s, e) && b in e.newBases
    ensures Supported(b, EvidenceById(s.evidence + e.newEvidence)) <==> RestsOnCurrent(s, b)
  {
    forall m | m in b.members
      ensures var old', all := EvidenceById(s.evidence), EvidenceById(s.evidence + e.newEvidence);
              m in all && (Current(all[m]) <==> m in old' ==> Current(old'[m]))
    {
      MemberFound(s, e, b, m);
    }
  }

  // ----- One kind of reference

  ghost predicate NewClaims(e: Event, kind: BasisKind, claim: string)
    requires e.Reassess?
  {
    forall b :: b in e.newBases && b.kind == kind ==> b.claim == claim
  }

  lemma ExpectedOld(s: ControlState, e: Event, kind: BasisKind, old': set<string>, oldClaim: string, claim: string,
      id: string)
    requires e.Reassess? && Permitted(s, e) && ReferencesOk(s, old', kind, oldClaim) && id in old'
    ensures var bases, all := BasesById(s.bases + e.newBases), EvidenceById(s.evidence + e.newEvidence);
            id in Claiming(old' + BasisIds(e.newBases), bases, all, kind, claim) <==> claim == oldClaim
    ensures id !in BasisIds(e.newBases)
    ensures id in BasesById(s.bases) && BasesById(s.bases)[id].kind == kind && BasesById(s.bases)[id].claim == oldClaim
  {
    assert ReferenceOk(s, id, kind, oldClaim);
    Apart(BasesById(s.bases).Keys, BasisIds(e.newBases), id);
    MergedBases(s, e);
    OldSupportKept(s, e, BasesById(s.bases)[id]);
  }

  lemma ExpectedNew(s: ControlState, e: Event, kind: BasisKind, old': set<string>, claim: string, b: Basis)
    requires e.Reassess? && Permitted(s, e) && IdsDistinct(e) && NewClaims(e, kind, claim) && b in e.newBases
    ensures var bases, all := BasesById(s.bases + e.newBases), EvidenceById(s.evidence + e.newEvidence);
            b.id in Claiming(old' + BasisIds(e.newBases), bases, all, kind, claim) <==>
              b.kind == kind && RestsOnCurrent(s, b)
  {
    MergedBases(s, e);
    DistinctBases(e.newBases);
    NewSupportExact(s, e, b);
  }

  lemma OldMembers(s: ControlState, e: Event, kind: BasisKind, old': set<string>, oldClaim: string, claim: string,
      substantive: bool)
    requires e.Reassess? && Permitted(s, e) && ReferencesOk(s, old', kind, oldClaim)
    ensures var bases, all := BasesById(s.bases + e.newBases), EvidenceById(s.evidence + e.newEvidence);
            var expected := Claiming(old' + BasisIds(e.newBases), bases, all, kind, claim);
            var proposed := References(old', BasesById(s.bases), e.newBases, kind, claim, substantive);
            forall id :: id in old' ==>
              (id in expected <==> claim == oldClaim) && (id in proposed <==> substantive && claim == oldClaim)
  {
    var expected := Claiming(old' + BasisIds(e.newBases), BasesById(s.bases + e.newBases),
      EvidenceById(s.evidence + e.newEvidence), kind, claim);
    var proposed := References(old', BasesById(s.bases), e.newBases, kind, claim, substantive);
    forall id | id in old'
      ensures (id in expected <==> claim == oldClaim) && (id in proposed <==> substantive && claim == oldClaim)
    {
      ExpectedOld(s, e, kind, old', oldClaim, claim, id);
      OldProposed(s, e, kind, old', oldClaim, claim, substantive, id);
    }
  }

  lemma NewMembers(s: ControlState, e: Event, kind: BasisKind, old': set<string>, oldClaim: string, claim: string,
      substantive: bool)
    requires e.Reassess? && Permitted(s, e) && IdsDistinct(e)
    requires ReferencesOk(s, old', kind, oldClaim) && NewClaims(e, kind, claim)
    ensures var bases, all := BasesById(s.bases + e.newBases), EvidenceById(s.evidence + e.newEvidence);
            var expected := Claiming(old' + BasisIds(e.newBases), bases, all, kind, claim);
            var proposed := References(old', BasesById(s.bases), e.newBases, kind, claim, substantive);
            forall b :: b in e.newBases ==>
              && (b.id in expected <==> b.kind == kind && RestsOnCurrent(s, b))
              && (b.id in proposed <==> substantive && b.kind == kind)
  {
    var expected := Claiming(old' + BasisIds(e.newBases), BasesById(s.bases + e.newBases),
      EvidenceById(s.evidence + e.newEvidence), kind, claim);
    var proposed := References(old', BasesById(s.bases), e.newBases, kind, claim, substantive);
    forall b | b in e.newBases
      ensures (b.id in expected <==> b.kind == kind && RestsOnCurrent(s, b))
      ensures (b.id in proposed <==> substantive && b.kind == kind)
    {
      ExpectedNew(s, e, kind, old', claim, b);
      NewProposed(s, e, kind, old', oldClaim, claim, substantive, b);
    }
  }

  /** The proposed references are the expected ones exactly when they fit. */
  lemma ReferencesExact(s: ControlState, e: Event, kind: BasisKind, old': set<string>, oldClaim: string, claim: string,
      substantive: bool)
    requires e.Reassess? && Permitted(s, e) && IdsDistinct(e)
    requires ReferencesOk(s, old', kind, oldClaim) && NewClaims(e, kind, claim)
    ensures var bases, all := BasesById(s.bases + e.newBases), EvidenceById(s.evidence + e.newEvidence);
            References(old', BasesById(s.bases), e.newBases, kind, claim, substantive)
              == Claiming(old' + BasisIds(e.newBases), bases, all, kind, claim)
            <==> ReferencesFit(s, e, kind, old', claim == oldClaim, substantive)
  {
    var bases, all := BasesById(s.bases + e.newBases), EvidenceById(s.evidence + e.newEvidence);
    var proposed := References(old', BasesById(s.bases), e.newBases, kind, claim, substantive);
    var expected := Claiming(old' + BasisIds(e.newBases), bases, all, kind, claim);
    OldMembers(s, e, kind, old', oldClaim, claim, substantive);
    NewMembers(s, e, kind, old', oldClaim, claim, substantive);
    WithinCandidates(s, e, kind, old', claim, substantive);
    FitFromMembers(s, e, kind, old', claim == oldClaim, substantive, proposed, expected);
  }

  lemma WithinCandidates(s: ControlState, e: Event, kind: BasisKind, old': set<string>, claim: string,
      substantive: bool)
    requires e.Reassess?
    ensures References(old', BasesById(s.bases), e.newBases, kind, claim, substantive) <= old' + BasisIds(e.newBases)
  {
    forall id | id in OfKind(e.newBases, kind)
      ensures id in BasisIds(e.newBases)
    {
    }
  }

  lemma OldProposed(s: ControlState, e: Event, kind: BasisKind, old': set<string>, oldClaim: string, claim: string,
      substantive: bool, id: string)
    requires e.Reassess? && Permitted(s, e) && ReferencesOk(s, old', kind, oldClaim) && id in old'
    requires id !in BasisIds(e.newBases)
    ensures id in References(old', BasesById(s.bases), e.newBases, kind, claim, substantive)
      <==> substantive && claim == oldClaim
  {
    assert ReferenceOk(s, id, kind, oldClaim);
  }

  lemma NewProposed(s: ControlState, e: Event, kind: BasisKind, old': set<string>, oldClaim: string, claim: string,
      substantive: bool, b: Basis)
    requires e.Reassess? && Permitted(s, e) && IdsDistinct(e) && ReferencesOk(s, old', kind, oldClaim)
    requires b in e.newBases
    ensures b.id in References(old', BasesById(s.bases), e.newBases, kind, claim, substantive)
      <==> substantive && b.kind == kind
  {
    DistinctBases(e.newBases);
    Apart(BasisIds(e.newBases), BasesById(s.bases).Keys, b.id);
    assert b.id in OfKind(e.newBases, kind) <==> b.kind == kind;
  }

  lemma FitFromMembers(s: ControlState, e: Event, kind: BasisKind, old': set<string>, kept: bool, substantive: bool,
      proposed: set<string>, expected: set<string>)
    requires e.Reassess?
    requires forall id :: id in old' ==> (id in expected <==> kept) && (id in proposed <==> substantive && kept)
    requires forall b :: b in e.newBases ==>
      && (b.id in expected <==> b.kind == kind && RestsOnCurrent(s, b))
      && (b.id in proposed <==> substantive && b.kind == kind)
    requires expected <= old' + BasisIds(e.newBases) && proposed <= old' + BasisIds(e.newBases)
    ensures proposed == expected <==> ReferencesFit(s, e, kind, old', kept, substantive)
  {
    if ReferencesFit(s, e, kind, old', kept, substantive) {
      forall id | id in old' + BasisIds(e.newBases)
        ensures id in proposed <==> id in expected
      {
        if id !in old' {
          var b :| b in e.newBases && b.id == id;
        }
      }
    }
    if proposed == expected {
      forall b | b in e.newBases && b.kind == kind
        ensures substantive ==> RestsOnCurrent(s, b)
        ensures !substantive ==> !RestsOnCurrent(s, b)
      {
        assert b.id in proposed <==> b.id in expected;
      }
    }
  }

  // ----- The whole proposal

  lemma ProposalPreserves(s: ControlState, e: Event)
    requires e.Reassess? && Permitted(s, e)
    ensures Preserves(s, Reassessed(s, e))
  {
    MergedEvidence(s, e);
    MergedBases(s, e);
    KeptByMerge(EvidenceById(s.evidence), EvidenceById(e.newEvidence));
    assert s.history <= Reassessed(s, e).history;
  }

  lemma KeptByMerge(old': map<string, Evidence>, new': map<string, Evidence>)
    requires old'.Keys * new'.Keys == {}
    ensures EvidenceKept(old', old' + new')
  {
    forall id | id in old'
      ensures id !in new'
    {
      Apart(old'.Keys, new'.Keys, id);
    }
  }

  lemma ReassessOkExact(s: ControlState, e: Event)
    requires e.Reassess? && Permitted(s, e) && IdsDistinct(e) && Sound(s)
    ensures ReassessOk(s, e, Reassessed(s, e)) <==>
      && ReferencesFit(s, e, SOURCE, s.currentSource, NewSource(s, e) == s.source, NewSource(s, e) != SOURCE_UNKNOWN)
      && ReferencesFit(s, e, VERDICT, s.currentVerdict, NewAssurance(s, e) == s.assurance,
                       Substantive(NewAssurance(s, e)))
  {
    ValuesInjective();
    AddedExact(s, e);
    ReferencesExact(s, e, SOURCE, s.currentSource, SourceValue(s.source), SourceValue(NewSource(s, e)),
      NewSource(s, e) != SOURCE_UNKNOWN);
    ReferencesExact(s, e, VERDICT, s.currentVerdict, AssuranceValue(s.assurance), AssuranceValue(NewAssurance(s, e)),
      Substantive(NewAssurance(s, e)));
  }

  lemma AddedExact(s: ControlState, e: Event)
    requires e.Reassess? && Permitted(s, e)
    ensures var old', added := EvidenceById(s.evidence), EvidenceById(e.newEvidence);
            var all := EvidenceById(s.evidence + e.newEvidence);
            all.Keys - old'.Keys == added.Keys && forall id :: id in added && id in all ==> all[id] == added[id]
    ensures var old', added, all := BasesById(s.bases), BasesById(e.newBases), BasesById(s.bases + e.newBases);
            all.Keys - old'.Keys == added.Keys && forall id :: id in added && id in all ==> all[id] == added[id]
    ensures BasesById(e.newBases).Keys == BasisIds(e.newBases)
  {
    MergedEvidence(s, e);
    MergedBases(s, e);
    Added(EvidenceById(s.evidence).Keys, EvidenceById(e.newEvidence).Keys);
    Added(BasesById(s.bases).Keys, BasesById(e.newBases).Keys);
  }

  lemma Added(old': set<string>, new': set<string>)
    requires old' * new' == {}
    ensures old' + new' - old' == new'
  {
    forall x | x in new'
      ensures x !in old'
    {
      assert x in old' ==> x in old' * new';
    }
  }

  lemma SizesExact(s: ControlState, e: Event)
    requires e.Reassess? && Permitted(s, e) && Sound(s)
    ensures var after := Reassessed(s, e);
            |EvidenceById(after.evidence)| == |after.evidence| && |BasesById(after.bases)| == |after.bases| <==>
              IdsDistinct(e)
  {
    MergedEvidence(s, e);
    MergedBases(s, e);
    IdsBound(e.newEvidence);
    BasisIdsBound(e.newBases);
  }

  lemma {:induction false} IdsBound(evidence: seq<Evidence>)
    ensures |IdsOf(evidence)| <= |evidence|
  {
    if evidence != [] {
      var k := |evidence| - 1;
      assert evidence == evidence[..k] + [evidence[k]];
      IdsBound(evidence[..k]);
      assert IdsOf(evidence) == IdsOf(evidence[..k]) + {evidence[k].id};
    }
  }

  /** Expected references are sound references. */
  lemma ClaimingIsReference(s: ControlState, ids: set<string>, kind: BasisKind, claim: string, id: string)
    requires id in Claiming(ids, BasesById(s.bases), EvidenceById(s.evidence), kind, claim)
    ensures ReferenceOk(s, id, kind, claim)
  {
  }

  lemma ProposedReferencesSound(s: ControlState, e: Event)
    requires e.Reassess? && ReassessOk(s, e, Reassessed(s, e))
    ensures var after := Reassessed(s, e);
            && ReferencesOk(after, after.currentSource, SOURCE, SourceValue(after.source))
            && ReferencesOk(after, after.currentVerdict, VERDICT, AssuranceValue(after.assurance))
  {
    var after, added := Reassessed(s, e), BasesById(e.newBases).Keys;
    forall id | id in after.currentSource
      ensures ReferenceOk(after, id, SOURCE, SourceValue(after.source))
    {
      ClaimingIsReference(after, s.currentSource + added, SOURCE, SourceValue(after.source), id);
    }
    forall id | id in after.currentVerdict
      ensures ReferenceOk(after, id, VERDICT, AssuranceValue(after.assurance))
    {
      ClaimingIsReference(after, s.currentVerdict + added, VERDICT, AssuranceValue(after.assurance), id);
    }
  }

  /** When the references fit, what remains of soundness is that substantive claims have support. */
  lemma RestOfSoundness(s: ControlState, e: Event)
    requires e.Reassess? && Permitted(s, e) && IdsDistinct(e) && Sound(s)
    requires ReassessOk(s, e, Reassessed(s, e))
    ensures var after := Reassessed(s, e);
            Sound(after) <==>
              && (after.source != SOURCE_UNKNOWN ==> after.currentSource != {})
              && (after.obligation == CURRENT && Substantive(after.assurance) ==> after.currentVerdict != {})
              && (after.obligation != CURRENT ==> after.assurance == ASSURANCE_NA)
  {
    var after := Reassessed(s, e);
    SizesExact(s, e);
    ProposedReferencesSound(s, e);
  }

  lemma ReferencesNonempty(s: ControlState, e: Event, kind: BasisKind, old': set<string>, oldClaim: string,
      claim: string)
    requires e.Reassess? && ReferencesOk(s, old', kind, oldClaim)
    ensures References(old', BasesById(s.bases), e.newBases, kind, claim, true) != {}
       <==> OfKind(e.newBases, kind) != {} || (claim == oldClaim && old' != {})
  {
    var r := References(old', BasesById(s.bases), e.newBases, kind, claim, true);
    forall id | id in old'
      ensures id in r <== claim == oldClaim
      ensures id in r && id !in OfKind(e.newBases, kind) ==> claim == oldClaim
    {
      assert ReferenceOk(s, id, kind, oldClaim);
    }
    if r != {} {
      var id :| id in r;
      assert id in OfKind(e.newBases, kind) || id in old';
    }
    if claim == oldClaim && old' != {} {
      var id :| id in old';
      assert id in r;
    }
    if OfKind(e.newBases, kind) != {} {
      var id :| id in OfKind(e.newBases, kind);
      assert id in r;
    }
  }

  lemma SupportExact(s: ControlState, e: Event)
    requires e.Reassess? && Sound(s)
    ensures var after := Reassessed(s, e);
            && (after.source != SOURCE_UNKNOWN ==>
                  (after.currentSource != {} <==> after.source == s.source || OfKind(e.newBases, SOURCE) != {}))
            && (s.obligation == CURRENT && Substantive(after.assurance) ==>
                  (after.currentVerdict != {} <==> after.assurance == s.assurance || OfKind(e.newBases, VERDICT) != {}))
  {
    ValuesInjective();
    ReferencesNonempty(s, e, SOURCE, s.currentSource, SourceValue(s.source), SourceValue(NewSource(s, e)));
    ReferencesNonempty(s, e, VERDICT, s.currentVerdict, AssuranceValue(s.assurance),
      AssuranceValue(NewAssurance(s, e)));
  }

  /** A reassessment the kernel proposes passes the core checks exactly when its
      new identities are distinct, its new references fit what the state will
      claim, and every substantive claim it makes has support. */
  lemma ReassessAcceptedExact(s: ControlState, e: Event)
    requires e.Reassess? && Sound(s) && ApplyReassess(s, e).Proposed?
    ensures Accepted(s, e, ApplyReassess(s, e).after) <==> Acceptable(s, e)
  {
    var after := Reassessed(s, e);
    UnrefusedIsPermitted(s, e);
    StateOkExact(s);
    TransitionOkExact(s, after);
    ProposalPreserves(s, e);
    SizesExact(s, e);
    if IdsDistinct(e) {
      ReassessOkExact(s, e);
      SupportExact(s, e);
      if ReassessOk(s, e, after) {
        RestOfSoundness(s, e);
      }
    }
  }

  /** Such proposals need not be acceptable: a control with nothing to its name
      may be proposed as connected, without any basis. */
  lemma UnacceptableIsProposed() returns (s: ControlState, e: Event)
    ensures Sound(s) && e.Reassess? && ApplyReassess(s, e).Proposed?
    ensures !Accepted(s, e, ApplyReassess(s, e).after)
  {
    s := ControlState("c", CURRENT, SOURCE_UNKNOWN, UNVERIFIED, [], [], {}, {}, [], 0, None, None, [], None);
    e := Reassess([], [], Some(CONNECTED), None, "I3", []);
    assert IdsOf([]) == {} && BasisIds([]) == {} && OfKind([], SOURCE) == {};
    ReassessAcceptedExact(s, e);
  }
}
