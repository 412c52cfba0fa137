/** Runs in which the kernel itself proposes every post-state. */
module ProposedRuns {
  import opened Kernel
  import opened KernelRuns
  import opened Proposer
  import opened Reassessment
  import opened ReassessmentExact

  function Propose(s: ControlState, e: Event): ProposalResult
    requires !e.Temporal?
  {
    match e
    case DependencyChange(_, _) => Proposed(ApplyChange(s, e))
    case Reassess(_, _, _, _, _, _) => ApplyReassess(s, e)
    case RetireControl(_, _) => ApplyRetire(s, e)
  }

  /** The core checks turn down an event the kernel could propose only in an unsound
      state or when it is an unacceptable reassessment. */
  lemma OracleExact(s: ControlState, e: Event)
    requires !e.Temporal? && Propose(s, e).Proposed?
    ensures Accepted(s, e, Propose(s, e).after) <==> Sound(s) && (e.Reassess? ==> Acceptable(s, e))
  {
    StateOkExact(s);
    if Sound(s) {
      match e
      case DependencyChange(_, _) => ChangeAccepted(s, e);
      case Reassess(_, _, _, _, _, _) => ReassessAcceptedExact(s, e);
      case RetireControl(_, _) => RetireAccepted(s, e);
    }
  }

  ghost predicate ProposedRun(r: Run) {
    && CoreRun(r)
    && forall k :: 0 <= k < |r.events| ==> Propose(r.states[k], r.events[k]) == Proposed(r.states[k + 1])
  }

  lemma ObligationStep(s: ControlState, e: Event, t: ControlState)
    requires !e.Temporal? && Propose(s, e) == Proposed(t)
    ensures t.obligation == if e.RetireControl? then RETIRED else s.obligation
  {
  }

  lemma NoAssuranceWithoutObligation(s: ControlState, e: Event, t: ControlState)
    requires Accepted(s, e, t)
    ensures t.obligation != CURRENT ==> t.assurance == ASSURANCE_NA
  {
    assert !TransitionViolates(s, t, INV_04);
  }

  /** Along such runs a retired control stays retired, without an assurance, and
      an obligation changes only by retirement. */
  lemma {:induction false} RetirementIsFinal(r: Run, i: nat, j: nat)
    requires ProposedRun(r) && i <= j <= |r.events|
    ensures r.states[i].obligation == RETIRED && i < j ==>
      r.states[j].obligation == RETIRED && r.states[j].assurance == ASSURANCE_NA
    ensures r.states[j].obligation
        == if exists k :: i <= k < j && r.events[k].RetireControl? then RETIRED else r.states[i].obligation
    decreases j - i
  {
    if i < j {
      var k := j - 1;
      RetirementIsFinal(r, i, k);
      assert Accepted(r.states[k], r.events[k], r.states[k + 1]);
      ObligationStep(r.states[k], r.events[k], r.states[k + 1]);
      NoAssuranceWithoutObligation(r.states[k], r.events[k], r.states[k + 1]);
    }
  }
}
