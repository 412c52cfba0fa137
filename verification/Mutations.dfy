/** The adversarial state mutations, and exactly which of them the verifier kills. */
module Mutations {
  import opened Options
  import opened Kernel
  import opened KernelRuns
  import opened Verifier

  datatype Mutation = Mutation(expected: set<InvariantId>, state: ControlState)

  // ----- The operators

  function RetainInvalidBasis(before: ControlState, validAfter: ControlState): Mutation {
    Mutation({INV_13}, validAfter.(currentSource := before.currentSource, currentVerdict := before.currentVerdict))
  }

  function PromoteAfterRevocation(validAfter: ControlState): Mutation {
    Mutation({INV_05, INV_07}, validAfter.(source := CONNECTED, assurance := PASS))
  }

  function Last<T>(items: seq<T>): seq<T> {
    if items == [] then [] else items[|items| - 1..]
  }

  function OverwriteHistory(validAfter: ControlState): Mutation {
    Mutation({INV_19}, validAfter.(history := Last(validAfter.history)))
  }

  predicate FirstInvalidated(evidence: seq<Evidence>, k: nat) {
    && k < |evidence| && evidence[k].status == INVALIDATED
    && forall j :: 0 <= j < k ==> evidence[j].status != INVALIDATED
  }

  function Reactivated(validAfter: ControlState, k: nat): Mutation
    requires k < |validAfter.evidence|
  {
    Mutation({INV_18},
      validAfter.(evidence := validAfter.evidence[k := validAfter.evidence[k].(status := CURRENT_EVIDENCE)]))
  }

  /** Reactivates the first invalidated item; without one there is no mutation. */
  method ReactivateEvidence(validAfter: ControlState) returns (r: Option<Mutation>)
    ensures r.None? <==> forall x :: x in validAfter.evidence ==> x.status != INVALIDATED
    ensures r.Some? ==> exists k :: FirstInvalidated(validAfter.evidence, k) && r.value == Reactivated(validAfter, k)
  {
    var items := validAfter.evidence;
    var i := 0;
    while i < |items| && items[i].status != INVALIDATED
      invariant i <= |items|
      invariant forall j :: 0 <= j < i ==> items[j].status != INVALIDATED
    {
      i := i + 1;
    }
    if i == |items| {
      return None;
    }
    assert FirstInvalidated(validAfter.evidence, i) && items[i] in items;
    items := items[i := items[i].(status := CURRENT_EVIDENCE)];
    r := Some(Mutation({INV_18}, validAfter.(evidence := items)));
  }

  // ----- The kill matrix

  /** Some expected invariant is violated on the way from the canonical state to the mutant. */
  ghost predicate Killed(canonical: ControlState, m: Mutation) {
    exists i :: i in m.expected && TransitionViolates(canonical, m.state, i)
  }

  method Evaluate(canonical: ControlState, m: Mutation) returns (killed: bool, observed: set<InvariantId>)
    ensures forall i :: i in observed <==> TransitionViolates(canonical, m.state, i)
    ensures killed <==> Killed(canonical, m)
  {
    var violations := ValidateTransition(canonical, m.state);
    observed := set i | i in violations;
    killed := m.expected * observed != {};
    if killed {
      var i :| i in m.expected * observed;
    } else {
      assert forall i :: i in m.expected ==> i !in m.expected * observed;
    }
  }

  // ----- Adequacy

  lemma KilledByOne(canonical: ControlState, m: Mutation, i: InvariantId)
    requires m.expected == {i}
    ensures Killed(canonical, m) <==> TransitionViolates(canonical, m.state, i)
  {
    assert i in m.expected;
  }

  /** Overwriting history is killed exactly when there is a past to lose. */
  lemma OverwriteKilledExact(s: ControlState)
    ensures Killed(s, OverwriteHistory(s)) <==> |s.history| >= 2
  {
    LastIsNotAll(s.history);
    KilledByOne(s, OverwriteHistory(s), INV_19);
    OnlyHistoryDiffers(s, OverwriteHistory(s).state);
  }

  lemma LastIsNotAll<T>(history: seq<T>)
    ensures history <= Last(history) <==> |history| < 2
  {
    assert |history| < 2 ==> Last(history) == history;
  }

  lemma OnlyHistoryDiffers(s: ControlState, t: ControlState)
    requires t == s.(history := t.history)
    ensures TransitionViolates(s, t, INV_19) <==> !(s.history <= t.history)
  {
    assert !StateViolates(t, INV_19);
  }

  /** Among distinct identities each item is the one found under its identity. */
  /** One item changed under its own identity changes the map at that identity only. */
  lemma {:induction false} UpdatedById(evidence: seq<Evidence>, k: nat, x: Evidence)
    requires k < |evidence| && x.id == evidence[k].id
    requires forall j :: k < j < |evidence| ==> evidence[j].id != x.id
    ensures EvidenceById(evidence[k := x]) == EvidenceById(evidence)[x.id := x]
  {
    var n := |evidence| - 1;
    if k < n {
      assert evidence[k := x][..n] == evidence[..n][k := x];
      UpdatedById(evidence[..n], k, x);
    } else {
      assert evidence[k := x][..n] == evidence[..n];
    }
  }

  /** Reactivation, wherever it is defined on a valid state, is always killed. */
  lemma ReactivationKilled(s: ControlState, k: nat)
    requires Sound(s) && FirstInvalidated(s.evidence, k)
    ensures Killed(s, Reactivated(s, k))
  {
    var m := Reactivated(s, k);
    var x := s.evidence[k];
    DistinctEvidence(s.evidence);
    UpdatedById(s.evidence, k, m.state.evidence[k]);
    assert x in s.evidence;
    assert !Current(EvidenceById(s.evidence)[x.id]) && Current(EvidenceById(m.state.evidence)[x.id]);
    assert TransitionViolates(s, m.state, INV_18);
  }

  ghost predicate DropsBasis(before: ControlState, after: ControlState) {
    exists id :: id in CurrentIds(before) && id !in CurrentIds(after)
  }

  /** A current basis is dropped by an accepted change exactly when it lost a member. */
  lemma DroppedIsOutdated(before: ControlState, e: Event, after: ControlState, id: string)
    requires e.DependencyChange? && Accepted(before, e, after) && id in CurrentIds(before)
    ensures id !in CurrentIds(after) <==> OutdatedBasis(after, id)
  {
    AcceptedFacts(before, e, after);
    CurrentIsSupported(before, id);
    var bases, evidence := BasesById(after.bases), EvidenceById(after.evidence);
    assert bases[id] == BasesById(before.bases)[id];
    assert forall m :: m in bases[id].members ==> m in evidence;
    if id in CurrentIds(after) {
      CurrentIsSupported(after, id);
    } else {
      assert !Supported(bases[id], evidence);
    }
  }

  /** Retaining the references an accepted dependency change started from is killed
      exactly when the change dropped one of them. */
  lemma RetainKilledExact(before: ControlState, e: Event, after: ControlState)
    requires e.DependencyChange? && Accepted(before, e, after)
    ensures Killed(after, RetainInvalidBasis(before, after)) <==> DropsBasis(before, after)
  {
    var m := RetainInvalidBasis(before, after);
    assert CurrentIds(m.state) == CurrentIds(before);
    forall id | id in CurrentIds(before)
      ensures OutdatedBasis(m.state, id) <==> id !in CurrentIds(after)
    {
      DroppedIsOutdated(before, e, after, id);
      assert OutdatedBasis(m.state, id) <==> OutdatedBasis(after, id);
    }
    KilledByOne(after, m, INV_13);
    assert TransitionViolates(after, m.state, INV_13) <==> StateViolates(m.state, INV_13);
  }

  /** The forged source claim is caught exactly when the source was not connected. */
  lemma PromotedSource(s: ControlState)
    requires Sound(s)
    ensures StateViolates(PromoteAfterRevocation(s).state, INV_05) <==> s.source != CONNECTED
  {
    ValuesInjective();
    var t := PromoteAfterRevocation(s).state;
    forall id | id in s.currentSource
      ensures Misclaims(t, id, SOURCE, SourceValue(CONNECTED)) <==> s.source != CONNECTED
    {
      assert ReferenceOk(s, id, SOURCE, SourceValue(s.source));
    }
  }

  /** The forged verdict is caught exactly when it differs from the real one and
      the obligation is current or some verdict basis is. */
  lemma PromotedVerdict(s: ControlState)
    requires Sound(s)
    ensures StateViolates(PromoteAfterRevocation(s).state, INV_07)
       <==> s.assurance != PASS && (s.obligation == CURRENT || s.currentVerdict != {})
  {
    ValuesInjective();
    var t := PromoteAfterRevocation(s).state;
    forall id | id in CurrentIds(s)
      ensures !UnfoundedBasis(t, id)
    {
      CurrentIsSupported(s, id);
    }
    forall id | id in s.currentVerdict
      ensures Misclaims(t, id, VERDICT, AssuranceValue(PASS)) <==> s.assurance != PASS
    {
      assert ReferenceOk(s, id, VERDICT, AssuranceValue(s.assurance));
    }
  }

  lemma PromoteKilledExact(s: ControlState)
    requires Sound(s)
    ensures Killed(s, PromoteAfterRevocation(s))
       <==> s.source != CONNECTED || (s.assurance != PASS && (s.obligation == CURRENT || s.currentVerdict != {}))
  {
    PromotedSource(s);
    PromotedVerdict(s);
    var m := PromoteAfterRevocation(s);
    assert forall i :: i in {INV_05, INV_07} ==> (TransitionViolates(s, m.state, i) <==> StateViolates(m.state, i));
    assert INV_05 in m.expected && INV_07 in m.expected;
  }

  /** After an accepted change that drops a current basis, the mutants that retain
      it or reactivate its evidence both exist and are killed. */
  lemma RevocationIsGuarded(before: ControlState, e: Event, after: ControlState)
    requires e.DependencyChange? && Accepted(before, e, after) && DropsBasis(before, after)
    ensures Killed(after, RetainInvalidBasis(before, after))
    ensures exists k :: FirstInvalidated(after.evidence, k) && Killed(after, Reactivated(after, k))
  {
    RetainKilledExact(before, e, after);
    AcceptedFacts(before, e, after);
    var id :| id in CurrentIds(before) && id !in CurrentIds(after);
    DroppedIsOutdated(before, e, after, id);
    CurrentIsSupported(before, id);
    var m :| && m in BasesById(after.bases)[id].members
             && m in EvidenceById(after.evidence) && !Current(EvidenceById(after.evidence)[m]);
    assert EvidenceById(after.evidence)[m].status == INVALIDATED;
    Found(after.evidence, m);
    var k := FindFirst(after.evidence, 0);
    ReactivationKilled(after, k);
  }

  lemma {:induction false} Found(evidence: seq<Evidence>, id: string)
    requires id in EvidenceById(evidence)
    ensures EvidenceById(evidence)[id] in evidence
  {
    var k := |evidence| - 1;
    if evidence[k].id != id {
      Found(evidence[..k], id);
    }
  }

  ghost function FindFirst(evidence: seq<Evidence>, from: nat): (k: nat)
    requires forall j :: 0 <= j < from <= |evidence| ==> evidence[j].status != INVALIDATED
    requires exists j :: from <= j < |evidence| && evidence[j].status == INVALIDATED
    ensures FirstInvalidated(evidence, k)
    decreases |evidence| - from
  {
    if evidence[from].status == INVALIDATED then from else FindFirst(evidence, from + 1)
  }
}
