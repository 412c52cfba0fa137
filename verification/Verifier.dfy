/** The verifier as executed: loops that append to a list of violations. */
module Verifier {
  import opened Options
  import opened Text
  import opened Kernel

  /** A violation, if the condition holds. */
  function When(broken: bool, i: InvariantId): seq<InvariantId> {
    if broken then [i] else []
  }

  /** The member loop for one current basis. */
  method CheckMembers(basis: Basis, evidence: map<string, Evidence>) returns (v: seq<InvariantId>)
    ensures forall i :: i in v <==>
      || (i == INV_07 && exists m :: m in basis.members && m !in evidence)
      || (i == INV_13 && exists m :: m in basis.members && m in evidence && !Current(evidence[m]))
  {
    v := [];
    var members := SortedSet(basis.members);
    for k := 0 to |members|
      invariant forall i :: i in v ==> i == INV_07 || i == INV_13
      invariant INV_07 in v <==> exists j :: 0 <= j < k && members[j] !in evidence
      invariant INV_13 in v <==> exists j :: 0 <= j < k && members[j] in evidence && !Current(evidence[members[j]])
    {
      var m := members[k];
      if m !in evidence {
        v := v + [INV_07];
      } else if !Current(evidence[m]) {
        v := v + [INV_13];
      }
    }
    assert forall m :: m in basis.members <==> m in members;
  }

  ghost predicate BasisViolates(s: ControlState, id: string, i: InvariantId) {
    (i == INV_07 && UnfoundedBasis(s, id)) || (i == INV_13 && OutdatedBasis(s, id))
  }

  method CheckBasis(s: ControlState, id: string) returns (v: seq<InvariantId>)
    ensures forall i :: i in v <==> BasisViolates(s, id, i)
  {
    var evidence, bases := EvidenceById(s.evidence), BasesById(s.bases);
    if id !in bases {
      return [INV_07];
    }
    var basis := bases[id];
    v := [];
    if !basis.approved {
      v := v + [INV_07];
    }
    if basis.members == {} {
      v := v + [INV_07];
    }
    var w := CheckMembers(basis, evidence);
    v := v + w;
  }

  ghost predicate SomeBasisViolates(s: ControlState, ids: seq<string>, i: InvariantId) {
    exists id :: id in ids && BasisViolates(s, id, i)
  }

  lemma SomeBasisNext(s: ControlState, ids: seq<string>, k: nat, i: InvariantId)
    requires k < |ids|
    ensures SomeBasisViolates(s, ids[..k + 1], i) <==> SomeBasisViolates(s, ids[..k], i) || BasisViolates(s, ids[k], i)
  {
    assert ids[..k + 1] == ids[..k] + [ids[k]];
    assert ids[k] in ids[..k + 1];
    if SomeBasisViolates(s, ids[..k], i) {
      var id :| id in ids[..k] && BasisViolates(s, id, i);
      assert id in ids[..k + 1];
    }
  }

  /** The loop over the current bases. */
  method CheckCurrentBases(s: ControlState) returns (v: seq<InvariantId>)
    ensures forall i :: i in v <==> SomeBasisViolates(s, SortedSet(CurrentIds(s)), i)
  {
    var ids := SortedSet(CurrentIds(s));
    v := [];
    for k := 0 to |ids|
      invariant forall i :: i in v <==> SomeBasisViolates(s, ids[..k], i)
    {
      var w := CheckBasis(s, ids[k]);
      forall i { SomeBasisNext(s, ids, k, i); }
      v := v + w;
    }
    assert ids[..|ids|] == ids;
  }

  /** The loop over the current references of one kind. */
  method CheckClaims(s: ControlState, current: set<string>, kind: BasisKind, claim: string, invariantId: InvariantId)
    returns (v: seq<InvariantId>)
    ensures forall i :: i in v <==> i == invariantId && exists id :: id in current && Misclaims(s, id, kind, claim)
  {
    var bases := BasesById(s.bases);
    var ids := SortedSet(current);
    v := [];
    for k := 0 to |ids|
      invariant forall i :: i in v ==> i == invariantId
      invariant invariantId in v <==> exists j :: 0 <= j < k && Misclaims(s, ids[j], kind, claim)
    {
      var id := ids[k];
      if id !in bases {
        continue;
      }
      if bases[id].kind != kind {
        v := v + [invariantId];
      } else if bases[id].claim != claim {
        v := v + [invariantId];
      }
    }
    assert forall id :: id in current <==> id in ids;
  }

  /** The checks that look at no single basis. */
  method CheckWhole(s: ControlState) returns (v: seq<InvariantId>)
    ensures forall i :: i in v <==> WholeViolates(s, i)
  {
    var a := When(|EvidenceById(s.evidence)| != |s.evidence|, G_INV_06);
    var b := When(|BasesById(s.bases)| != |s.bases|, G_INV_11);
    var c := CheckClaimed(s);
    v := a + b + c;
    forall i
      ensures i in v <==> WholeViolates(s, i)
    {
      assert i in v <==> i in a || i in b || i in c;
    }
  }

  method CheckClaimed(s: ControlState) returns (v: seq<InvariantId>)
    ensures forall i :: i in v <==> ClaimedViolates(s, i)
  {
    var c := When(s.source != SOURCE_UNKNOWN && s.currentSource == {}, INV_05);
    var d := When(s.obligation == CURRENT && Substantive(s.assurance) && s.currentVerdict == {}, INV_07);
    var e := When(s.obligation != CURRENT && s.assurance != ASSURANCE_NA, INV_04);
    v := c + d + e;
    forall i
      ensures i in v <==> ClaimedViolates(s, i)
    {
      assert i in v <==> i in c || i in d || i in e;
    }
  }

  ghost predicate ClaimedViolates(s: ControlState, i: InvariantId) {
    || (i == INV_05 && s.source != SOURCE_UNKNOWN && s.currentSource == {})
    || (i == INV_07 && s.obligation == CURRENT && Substantive(s.assurance) && s.currentVerdict == {})
    || (i == INV_04 && s.obligation != CURRENT && s.assurance != ASSURANCE_NA)
  }

  ghost predicate WholeViolates(s: ControlState, i: InvariantId) {
    || (i == G_INV_06 && |EvidenceById(s.evidence)| != |s.evidence|)
    || (i == G_INV_11 && |BasesById(s.bases)| != |s.bases|)
    || ClaimedViolates(s, i)
  }

  /** The violations of a state are exactly the invariants it breaks. */
  method ValidateState(s: ControlState) returns (v: seq<InvariantId>)
    ensures forall i :: i in v <==> StateViolates(s, i)
  {
    var whole := CheckWhole(s);
    var a := CheckCurrentBases(s);
    var b := CheckClaims(s, s.currentSource, SOURCE, SourceValue(s.source), INV_05);
    var c := CheckClaims(s, s.currentVerdict, VERDICT, AssuranceValue(s.assurance), INV_07);
    v := whole + a + b + c;
    forall i
      ensures i in v <==> StateViolates(s, i)
    {
      assert i in v <==> i in whole || i in a || i in b || i in c;
      StateViolationParts(s, i);
      BasisParts(s, i);
    }
  }

  lemma StateViolationParts(s: ControlState, i: InvariantId)
    ensures StateViolates(s, i) <==>
      || WholeViolates(s, i)
      || (i == INV_07 && SomeUnfounded(s)) || (i == INV_13 && SomeOutdated(s))
      || (i == INV_05 && SomeMisclaim(s, s.currentSource, SOURCE, SourceValue(s.source)))
      || (i == INV_07 && SomeMisclaim(s, s.currentVerdict, VERDICT, AssuranceValue(s.assurance)))
  {
  }

  lemma BasisParts(s: ControlState, i: InvariantId)
    ensures SomeBasisViolates(s, SortedSet(CurrentIds(s)), i)
       <==> (i == INV_07 && SomeUnfounded(s)) || (i == INV_13 && SomeOutdated(s))
  {
    var ids := SortedSet(CurrentIds(s));
    forall id
      ensures id in ids && BasisViolates(s, id, i)
         <==> id in CurrentIds(s) && ((i == INV_07 && UnfoundedBasis(s, id)) || (i == INV_13 && OutdatedBasis(s, id)))
    {
    }
  }

  ghost predicate EvidenceViolates(old': map<string, Evidence>, new': map<string, Evidence>, id: string, i: InvariantId)
    requires id in old'
  {
    || (i == INV_19 && id !in new')
    || (i == INV_18 && id in new' && !Current(old'[id]) && Current(new'[id]))
    || (i == G_INV_06 && id in new' && Rewritten(old'[id], new'[id]))
  }

  /** The loop over the evidence known before. */
  method CompareEvidence(old': map<string, Evidence>, new': map<string, Evidence>) returns (v: seq<InvariantId>)
    ensures forall i :: i in v <==> exists id :: id in old' && EvidenceViolates(old', new', id, i)
  {
    v := [];
    var ids := SortedSet(old'.Keys);
    for k := 0 to |ids|
      invariant forall i :: i in v <==> exists j :: 0 <= j < k && EvidenceViolates(old', new', ids[j], i)
    {
      var w := CompareItem(old', new', ids[k]);
      v := v + w;
    }
    forall i
      ensures i in v <==> exists id :: id in old' && EvidenceViolates(old', new', id, i)
    {
      assert forall id :: id in old' <==> id in ids;
    }
  }

  method CompareItem(old': map<string, Evidence>, new': map<string, Evidence>, id: string) returns (v: seq<InvariantId>)
    requires id in old'
    ensures forall i :: i in v <==> EvidenceViolates(old', new', id, i)
  {
    if id !in new' {
      return [INV_19];
    }
    v := [];
    if !Current(old'[id]) && Current(new'[id]) {
      v := v + [INV_18];
    }
    if Rewritten(old'[id], new'[id]) {
      v := v + [G_INV_06];
    }
  }

  ghost predicate BasisChanged(old': map<string, Basis>, new': map<string, Basis>, id: string, i: InvariantId)
    requires id in old'
  {
    (i == INV_19 && id !in new') || (i == G_INV_11 && id in new' && old'[id] != new'[id])
  }

  /** The loop over the bases known before. */
  method CompareBases(old': map<string, Basis>, new': map<string, Basis>) returns (v: seq<InvariantId>)
    ensures forall i :: i in v <==> exists id :: id in old' && BasisChanged(old', new', id, i)
  {
    v := [];
    var ids := SortedSet(old'.Keys);
    for k := 0 to |ids|
      invariant forall i :: i in v <==> exists j :: 0 <= j < k && BasisChanged(old', new', ids[j], i)
    {
      var id := ids[k];
      var w := if id !in new' then [INV_19] else if old'[id] != new'[id] then [G_INV_11] else [];
      assert forall i :: i in w <==> BasisChanged(old', new', id, i);
      v := v + w;
    }
    forall i
      ensures i in v <==> exists id :: id in old' && BasisChanged(old', new', id, i)
    {
      assert forall id :: id in old' <==> id in ids;
    }
  }

  /** The violations of a transition are exactly the invariants it breaks. */
  method ValidateTransition(before: ControlState, after: ControlState) returns (v: seq<InvariantId>)
    ensures forall i :: i in v <==> TransitionViolates(before, after, i)
  {
    var state := ValidateState(after);
    var kept := |before.history| <= |after.history| && after.history[..|before.history|] == before.history;
    assert kept <==> before.history <= after.history;
    var a := CompareEvidence(EvidenceById(before.evidence), EvidenceById(after.evidence));
    var b := CompareBases(BasesById(before.bases), BasesById(after.bases));
    v := state + When(!kept, INV_19) + a + b;
    forall i
      ensures i in v <==> TransitionViolates(before, after, i)
    {
      TransitionParts(before, after, i);
    }
  }

  ghost predicate SomeEvidenceViolates(before: ControlState, after: ControlState, i: InvariantId) {
    var old', new' := EvidenceById(before.evidence), EvidenceById(after.evidence);
    exists id :: id in old' && EvidenceViolates(old', new', id, i)
  }

  ghost predicate SomeBasisChanged(before: ControlState, after: ControlState, i: InvariantId) {
    var old', new' := BasesById(before.bases), BasesById(after.bases);
    exists id :: id in old' && BasisChanged(old', new', id, i)
  }

  lemma TransitionParts(before: ControlState, after: ControlState, i: InvariantId)
    ensures TransitionViolates(before, after, i) <==>
      || StateViolates(after, i)
      || (i == INV_19 && !(before.history <= after.history))
      || SomeEvidenceViolates(before, after, i)
      || SomeBasisChanged(before, after, i)
  {
    match i
    case INV_19 =>
    case INV_18 =>
    case G_INV_06 =>
    case G_INV_11 =>
    case _ =>
  }

  // ----- The core events

  /** The invariants a post-state of a dependency change is reported for. */
  ghost predicate ChangeViolates(before: ControlState, dependency: string, after: ControlState, i: InvariantId) {
    var old', new', bases := EvidenceById(before.evidence), EvidenceById(after.evidence), BasesById(after.bases);
    var source, verdict := Surviving(before.currentSource, bases, new'), Surviving(before.currentVerdict, bases, new');
    match i
    case INV_11 => new'.Keys != old'.Keys || Spared(old', new', dependency)
    case INV_13 => bases.Keys != BasesById(before.bases).Keys || after.currentSource != source
    case INV_14 => Meddled(old', new', dependency)
    case INV_15 => after.source != DemotedSource(before.source, source)
                || after.assurance != DemotedAssurance(before.obligation, before.assurance, verdict)
    case INV_16 => after.currentVerdict != verdict
    case _ => false
  }

  /** Some hit evidence was not invalidated. */
  ghost predicate Spared(old': map<string, Evidence>, new': map<string, Evidence>, dependency: string) {
    exists id :: SparedAt(old', new', dependency, id)
  }

  predicate SparedAt(old': map<string, Evidence>, new': map<string, Evidence>, dependency: string, id: string) {
    id in old' && id in new' && Hit(old'[id], dependency) && new'[id].status != INVALIDATED
  }

  /** Some other evidence changed its status. */
  ghost predicate Meddled(old': map<string, Evidence>, new': map<string, Evidence>, dependency: string) {
    exists id :: MeddledAt(old', new', dependency, id)
  }

  predicate MeddledAt(old': map<string, Evidence>, new': map<string, Evidence>, dependency: string, id: string) {
    id in old' && id in new' && !Hit(old'[id], dependency) && new'[id].status != old'[id].status
  }

  /** The status loop after a dependency change. */
  method CheckStatuses(old': map<string, Evidence>, new': map<string, Evidence>, dependency: string)
    returns (v: seq<InvariantId>)
    ensures forall i :: i in v ==> i == INV_11 || i == INV_14
    ensures INV_11 in v <==> Spared(old', new', dependency)
    ensures INV_14 in v <==> Meddled(old', new', dependency)
  {
    v := [];
    var ids := SortedSet(old'.Keys);
    for k := 0 to |ids|
      invariant forall i :: i in v ==> i == INV_11 || i == INV_14
      invariant INV_11 in v <==> exists j :: 0 <= j < k && SparedAt(old', new', dependency, ids[j])
      invariant INV_14 in v <==> exists j :: 0 <= j < k && MeddledAt(old', new', dependency, ids[j])
    {
      var w := CheckStatus(old', new', dependency, ids[k]);
      v := v + w;
    }
    assert forall id :: id in old' <==> id in ids;
  }

  method CheckStatus(old': map<string, Evidence>, new': map<string, Evidence>, dependency: string, id: string)
    returns (v: seq<InvariantId>)
    requires id in old'
    ensures forall i :: i in v <==>
      (i == INV_11 && SparedAt(old', new', dependency, id)) || (i == INV_14 && MeddledAt(old', new', dependency, id))
  {
    if id !in new' {
      return [];
    }
    var affected := Hit(old'[id], dependency);
    var expected := if affected then INVALIDATED else old'[id].status;
    return if new'[id].status != expected then [if affected then INV_11 else INV_14] else [];
  }

  lemma StatusesExact(old': map<string, Evidence>, new': map<string, Evidence>, dependency: string)
    ensures !Spared(old', new', dependency) && !Meddled(old', new', dependency) <==>
      forall id :: id in old' && id in new' ==>
        new'[id].status == if Hit(old'[id], dependency) then INVALIDATED else old'[id].status
  {
    if !Spared(old', new', dependency) && !Meddled(old', new', dependency) {
      forall id | id in old' && id in new'
        ensures new'[id].status == if Hit(old'[id], dependency) then INVALIDATED else old'[id].status
      {
        assert !SparedAt(old', new', dependency, id) && !MeddledAt(old', new', dependency, id);
      }
    }
  }

  lemma ChangeOkExact(before: ControlState, dependency: string, after: ControlState)
    ensures DependencyChangeOk(before, dependency, after) <==> forall i :: !ChangeViolates(before, dependency, after, i)
  {
    StatusesExact(EvidenceById(before.evidence), EvidenceById(after.evidence), dependency);
    if forall i :: !ChangeViolates(before, dependency, after, i) {
      assert !ChangeViolates(before, dependency, after, INV_11) && !ChangeViolates(before, dependency, after, INV_13);
      assert !ChangeViolates(before, dependency, after, INV_14) && !ChangeViolates(before, dependency, after, INV_15);
      assert !ChangeViolates(before, dependency, after, INV_16);
    }
  }

  method ValidateDependencyChange(before: ControlState, dependency: string, after: ControlState)
    returns (v: seq<InvariantId>)
    ensures forall i :: i in v <==> ChangeViolates(before, dependency, after, i)
  {
    var old', new', bases := EvidenceById(before.evidence), EvidenceById(after.evidence), BasesById(after.bases);
    var c := CheckStatuses(old', new', dependency);
    var source := Surviving(before.currentSource, bases, new');
    var verdict := Surviving(before.currentVerdict, bases, new');
    var d := CheckDemotion(before, after, source, verdict);
    v := When(new'.Keys != old'.Keys, INV_11) + When(bases.Keys != BasesById(before.bases).Keys, INV_13) + c + d;
    assert forall i :: i in v <==>
      || (i == INV_11 && new'.Keys != old'.Keys) || (i == INV_13 && bases.Keys != BasesById(before.bases).Keys)
      || i in c || i in d;
  }

  /** The checks on the surviving references and on what they leave of the claims. */
  method CheckDemotion(before: ControlState, after: ControlState, source: set<string>, verdict: set<string>)
    returns (v: seq<InvariantId>)
    ensures forall i :: i in v <==>
      || (i == INV_13 && after.currentSource != source) || (i == INV_16 && after.currentVerdict != verdict)
      || (i == INV_15 && (after.source != DemotedSource(before.source, source)
                          || after.assurance != DemotedAssurance(before.obligation, before.assurance, verdict)))
  {
    v := [];
    if after.currentSource != source {
      v := v + [INV_13];
    }
    if after.currentVerdict != verdict {
      v := v + [INV_16];
    }
    var expectedSource := before.source;
    if before.source != SOURCE_UNKNOWN && source == {} {
      expectedSource := SOURCE_UNKNOWN;
    }
    if after.source != expectedSource {
      v := v + [INV_15];
    }
    var expectedAssurance := before.assurance;
    if before.obligation != CURRENT {
      expectedAssurance := ASSURANCE_NA;
    } else if Substantive(before.assurance) && verdict == {} {
      expectedAssurance := STALE;
    }
    if after.assurance != expectedAssurance {
      v := v + [INV_15];
    }
  }

  // ----- Reassessment

  ghost predicate Differs<T(!new)>(added: map<string, T>, new': map<string, T>) {
    exists id :: id in added && id in new' && new'[id] != added[id]
  }

  /** The invariants a post-state of a reassessment is reported for. */
  ghost predicate ReassessViolates(before: ControlState, e: Event, after: ControlState, i: InvariantId)
    requires e.Reassess?
  {
    var old', new', added := EvidenceById(before.evidence), EvidenceById(after.evidence), EvidenceById(e.newEvidence);
    var oldBases, newBases, addedBases := BasesById(before.bases), BasesById(after.bases), BasesById(e.newBases);
    var source, assurance := Resulting(e.source, before.source), Resulting(e.assurance, before.assurance);
    match i
    case INV_18 => new'.Keys - old'.Keys != added.Keys
    case G_INV_06 => Differs(added, new')
    case G_INV_11 => newBases.Keys - oldBases.Keys != addedBases.Keys || Differs(addedBases, newBases)
    case G_INV_10 =>
      || after.source != source || after.assurance != assurance
      || after.currentSource
        != Claiming(before.currentSource + addedBases.Keys, newBases, new', SOURCE, SourceValue(source))
      || after.currentVerdict
        != Claiming(before.currentVerdict + addedBases.Keys, newBases, new', VERDICT, AssuranceValue(assurance))
    case _ => false
  }

  /** The content loops of a reassessment. */
  method CheckAdded<T(==, !new)>(added: map<string, T>, new': map<string, T>, i: InvariantId)
    returns (v: seq<InvariantId>)
    ensures forall j :: j in v <==> j == i && Differs(added, new')
  {
    v := [];
    var ids := SortedSet(added.Keys);
    for k := 0 to |ids|
      invariant forall j :: j in v ==> j == i
      invariant i in v <==> exists j :: 0 <= j < k && ids[j] in new' && new'[ids[j]] != added[ids[j]]
    {
      if ids[k] in new' && new'[ids[k]] != added[ids[k]] {
        v := v + [i];
      }
    }
    assert forall id :: id in added <==> id in ids;
  }

  lemma ReassessOkExact(before: ControlState, e: Event, after: ControlState)
    requires e.Reassess?
    ensures ReassessOk(before, e, after) <==> forall i :: !ReassessViolates(before, e, after, i)
  {
    if forall i :: !ReassessViolates(before, e, after, i) {
      assert !ReassessViolates(before, e, after, INV_18) && !ReassessViolates(before, e, after, G_INV_06);
      assert !ReassessViolates(before, e, after, G_INV_11) && !ReassessViolates(before, e, after, G_INV_10);
    }
  }

  method ValidateReassess(before: ControlState, e: Event, after: ControlState) returns (v: seq<InvariantId>)
    requires e.Reassess?
    ensures forall i :: i in v <==> ReassessViolates(before, e, after, i)
  {
    var old', new', added := EvidenceById(before.evidence), EvidenceById(after.evidence), EvidenceById(e.newEvidence);
    var oldBases, newBases, addedBases := BasesById(before.bases), BasesById(after.bases), BasesById(e.newBases);
    var a := CheckAdded(added, new', G_INV_06);
    var b := CheckAdded(addedBases, newBases, G_INV_11);
    var c := CheckResult(before, e, after);
    v := When(new'.Keys - old'.Keys != added.Keys, INV_18) + a
       + When(newBases.Keys - oldBases.Keys != addedBases.Keys, G_INV_11) + b + c;
    assert forall i :: i in v <==>
      || (i == INV_18 && new'.Keys - old'.Keys != added.Keys) || i in a
      || (i == G_INV_11 && newBases.Keys - oldBases.Keys != addedBases.Keys) || i in b || i in c;
  }

  /** The checks on what a reassessment leaves current. */
  method CheckResult(before: ControlState, e: Event, after: ControlState) returns (v: seq<InvariantId>)
    requires e.Reassess?
    ensures forall i :: i in v <==> i == G_INV_10 && ReassessViolates(before, e, after, i)
  {
    var new', newBases, addedBases := EvidenceById(after.evidence), BasesById(after.bases), BasesById(e.newBases);
    var source, assurance := Resulting(e.source, before.source), Resulting(e.assurance, before.assurance);
    v := [];
    if after.source != source {
      v := v + [G_INV_10];
    }
    if after.assurance != assurance {
      v := v + [G_INV_10];
    }
    if after.currentSource
      != Claiming(before.currentSource + addedBases.Keys, newBases, new', SOURCE, SourceValue(source)) {
      v := v + [G_INV_10];
    }
    if after.currentVerdict
      != Claiming(before.currentVerdict + addedBases.Keys, newBases, new', VERDICT, AssuranceValue(assurance)) {
      v := v + [G_INV_10];
    }
  }

  // ----- Retirement

  /** The invariants a post-state of a retirement is reported for. */
  ghost predicate RetirementViolates(before: ControlState, e: Event, after: ControlState, i: InvariantId)
    requires e.RetireControl?
  {
    var old', new' := EvidenceById(before.evidence), EvidenceById(after.evidence);
    match i
    case G_INV_13 =>
      || new'.Keys - old'.Keys != {e.evidence.id}
      || BasesById(after.bases).Keys != BasesById(before.bases).Keys
      || after.currentSource != {} || after.currentVerdict != {}
    case G_INV_06 => e.evidence.id in new' && new'[e.evidence.id] != e.evidence
    case INV_04 => after.obligation != RETIRED || after.assurance != ASSURANCE_NA
    case INV_05 => after.source != SOURCE_UNKNOWN
    case _ => false
  }

  lemma RetirementOkExact(before: ControlState, e: Event, after: ControlState)
    requires e.RetireControl?
    ensures RetirementOk(before, e, after) <==> forall i :: !RetirementViolates(before, e, after, i)
  {
    if forall i :: !RetirementViolates(before, e, after, i) {
      assert !RetirementViolates(before, e, after, G_INV_13) && !RetirementViolates(before, e, after, G_INV_06);
      assert !RetirementViolates(before, e, after, INV_04) && !RetirementViolates(before, e, after, INV_05);
    }
  }

  method ValidateRetirement(before: ControlState, e: Event, after: ControlState) returns (v: seq<InvariantId>)
    requires e.RetireControl?
    ensures forall i :: i in v <==> RetirementViolates(before, e, after, i)
  {
    var old', new' := EvidenceById(before.evidence), EvidenceById(after.evidence);
    v := [];
    if new'.Keys - old'.Keys != {e.evidence.id} {
      v := v + [G_INV_13];
    }
    if e.evidence.id in new' && new'[e.evidence.id] != e.evidence {
      v := v + [G_INV_06];
    }
    if BasesById(after.bases).Keys != BasesById(before.bases).Keys {
      v := v + [G_INV_13];
    }
    if after.obligation != RETIRED {
      v := v + [INV_04];
    }
    if after.assurance != ASSURANCE_NA {
      v := v + [INV_04];
    }
    if after.source != SOURCE_UNKNOWN {
      v := v + [INV_05];
    }
    if after.currentSource != {} || after.currentVerdict != {} {
      v := v + [G_INV_13];
    }
  }

  // ----- Any event

  ghost predicate EventViolates(before: ControlState, e: Event, after: ControlState, i: InvariantId) {
    match e
    case DependencyChange(d, _) => ChangeViolates(before, d, after, i)
    case Reassess(_, _, _, _, _, _) => ReassessViolates(before, e, after, i)
    case RetireControl(_, _) => RetirementViolates(before, e, after, i)
    case Temporal(_) => false
  }

  lemma EventOkExact(before: ControlState, e: Event, after: ControlState)
    ensures EventOk(before, e, after) <==> forall i :: !EventViolates(before, e, after, i)
  {
    match e
    case DependencyChange(d, _) =>
      ChangeOkExact(before, d, after);
      assert forall i :: EventViolates(before, e, after, i) <==> ChangeViolates(before, d, after, i);
    case Reassess(_, _, _, _, _, _) =>
      ReassessOkExact(before, e, after);
      assert forall i :: EventViolates(before, e, after, i) <==> ReassessViolates(before, e, after, i);
    case RetireControl(_, _) =>
      RetirementOkExact(before, e, after);
      assert forall i :: EventViolates(before, e, after, i) <==> RetirementViolates(before, e, after, i);
    case Temporal(_) =>
  }

  /** The violations of a core event; any other event is a type error. */
  method ValidateEventTransition(before: ControlState, e: Event, after: ControlState)
    returns (r: Option<seq<InvariantId>>)
    ensures r.None? <==> e.Temporal?
    ensures r.Some? ==> forall i :: i in r.value <==> EventViolates(before, e, after, i)
  {
    var v: seq<InvariantId>;
    match e {
      case DependencyChange(d, _) => v := ValidateDependencyChange(before, d, after);
      case Reassess(_, _, _, _, _, _) => v := ValidateReassess(before, e, after);
      case RetireControl(_, _) => v := ValidateRetirement(before, e, after);
      case Temporal(_) => return None;
    }
    r := Some(v);
  }

  // ----- The oracle

  /** The post-state, a refusal, or the error raised when nothing can be proposed. */
  datatype Verdict = Admitted(after: ControlState) | Refused | Raised

  /** `CsdOracle.apply`: the pre-state is validated, a post-state is proposed, and
      the transition and its event are validated. What is proposed, and the verdicts
      of the temporal checks before and after, are given. */
  method Apply(before: ControlState, e: Event, proposed: Option<ControlState>, temporalBefore: bool,
      temporalAfter: bool) returns (r: Verdict)
    ensures r.Admitted? <==> temporalBefore && temporalAfter && proposed.Some? && Accepted(before, e, proposed.value)
    ensures r.Admitted? ==> r.after == proposed.value
    ensures r.Raised? <==> temporalBefore && StateOk(before) && proposed.None?
  {
    var initial := ValidateState(before);
    if initial != [] || !temporalBefore {
      assert initial != [] ==> StateViolates(before, initial[0]);
      return Refused;
    }
    if proposed.None? {
      return Raised;
    }
    var after := proposed.value;
    var event: seq<InvariantId> := [];
    EventOkExact(before, e, after);
    if !e.Temporal? {
      var checked := ValidateEventTransition(before, e, after);
      event := checked.value;
    }
    var transition := ValidateTransition(before, after);
    if transition + event != [] || !temporalAfter {
      assert transition != [] ==> TransitionViolates(before, after, transition[0]);
      assert event != [] ==> EventViolates(before, e, after, event[0]);
      return Refused;
    }
    return Admitted(after);
  }
}
