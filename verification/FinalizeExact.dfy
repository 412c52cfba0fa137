/** What finalization guarantees about the log it rebuilds. */
module FinalizeExact {
  import opened Options
  import opened Text
  import opened Registry
  import opened Replay
  import opened Rebuilding
  import opened Finalize

  lemma DerivationKeeps(cx: Context)
    ensures Keeps(Derivation(cx))
  {
  }

  lemma {:induction false} DecisionsIgnoreReceipts(cx: Context, history: Log, b: EventBody, c: EventBody, p: Proposal,
      scopes: seq<string>)
    requires b.payload.Admit? && c.payload.Admit? && b.payload.admitter == c.payload.admitter
    requires b.clock == c.clock && b.entity == c.entity
    ensures DecisionsOver(cx, history, b, p, scopes) == DecisionsOver(cx, history, c, p, scopes)
  {
    if scopes != [] {
      DecisionsIgnoreReceipts(cx, history, b, c, p, scopes[..|scopes| - 1]);
    }
  }

  /** Receipts do not depend on the receipts already there. */
  lemma ReceiptsIgnoreReceipts(cx: Context, before: Log, b: EventBody, c: EventBody, proposed: Envelope)
    requires b.payload.Admit? && c.payload.Admit? && b.payload.admitter == c.payload.admitter
    requires b.clock == c.clock && b.entity == c.entity && b.sequence == c.sequence
    requires proposed.body.payload.Propose?
    ensures DependencyReceiptFor(cx, before, b, proposed) == DependencyReceiptFor(cx, before, c, proposed)
    ensures AuthorizationFor(cx, before, b, proposed) == AuthorizationFor(cx, before, c, proposed)
  {
    var proposal := proposed.body.payload.proposal;
    DecisionsIgnoreReceipts(cx, Earlier(before, b.entity, b.sequence), b, c, proposal, Sorted(proposal.scopeIds));
  }

  lemma SameQuestion(before: Log, b: EventBody, c: EventBody)
    requires b.entity == c.entity && b.sequence == c.sequence && b.payload.Admit? == c.payload.Admit?
    ensures ProposalFor(before, b) == ProposalFor(before, c)
  {
  }

  lemma GovernedShape(cx: Context, before: Log, b: EventBody, p: Envelope)
    requires ProposalFor(before, b) == Some(p)
    ensures var r := WithReceipts(cx, before, b);
            && p.body.payload.Propose? && b.payload.Admit? && r.payload.Admit?
            && r.payload.admitter == b.payload.admitter
            && r.clock == b.clock && r.entity == b.entity && r.sequence == b.sequence
            && r.sourceReceipt == OfDependencyReceipt(DependencyReceiptFor(cx, before, b, p))
            && r.payload.admissionReceipt == OfAuthorization(AuthorizationFor(cx, before, b, p))
  {
  }

  lemma ReceiptsSettle(cx: Context, before: Log, b: EventBody)
    ensures var r := WithReceipts(cx, before, b); WithReceipts(cx, before, r) == r
  {
    var r := WithReceipts(cx, before, b);
    var p := ProposalFor(before, b);
    if p.Some? {
      GovernedShape(cx, before, b, p.value);
      SameQuestion(before, b, r);
      GovernedShape(cx, before, r, p.value);
      ReceiptsIgnoreReceipts(cx, before, b, r, p.value);
    }
  }

  lemma DerivationSettles(cx: Context)
    ensures Settles(Derivation(cx))
  {
    forall before: Log, b: EventBody
      ensures Derivation(cx)(before, Derivation(cx)(before, b)) == Derivation(cx)(before, b)
    {
      ReceiptsSettle(cx, before, b);
    }
  }

  /** Finalizing a prefix gives the prefix of the finalized log. */
  lemma FinalizePrefixStable(cx: Context, log: Log, k: nat)
    requires k <= |log|
    ensures Finalized(cx, log[..k]) == Finalized(cx, log)[..k]
  {
    PrefixStable(Derivation(cx), log, k);
  }

  /** Finalization leaves a log alone exactly when every digest is right and every
      governed admission binds receipts derived from the events before it. */
  lemma FinalizeFixpoints(cx: Context, log: Log)
    ensures Finalized(cx, log) == log <==> Verified(Derivation(cx), log)
    ensures Verified(Derivation(cx), Finalized(cx, log))
  {
    DerivationSettles(cx);
    FixpointsAreVerified(Derivation(cx), log);
    OutputIsVerified(Derivation(cx), log);
  }

  /** Finalizing twice is finalizing once. */
  lemma FinalizeIdempotent(cx: Context, log: Log)
    ensures Finalized(cx, Finalized(cx, log)) == Finalized(cx, log)
  {
    FinalizeFixpoints(cx, log);
    FinalizeFixpoints(cx, Finalized(cx, log));
  }

  /** A well-chained log stays well chained, and a predecessor that does not name
      the claimed digest of the entity's event before is left as it was. */
  lemma FinalizeChain(cx: Context, log: Log)
    ensures WellChained(log) ==> WellChained(Finalized(cx, log))
    ensures forall i :: 0 <= i < |log| ==>
      var b, j := log[i].body, Latest(log[..i], (log[i].body.entity, log[i].body.sequence - 1));
      !(j.Some? && log[j.value].digest.Some? && b.previous == log[j.value].digest)
      ==> Finalized(cx, log)[i].body.previous == b.previous
  {
    DerivationKeeps(cx);
    if WellChained(log) {
      ChainKept(Derivation(cx), log);
    }
    forall i | 0 <= i < |log|
      ensures var b, j := log[i].body, Latest(log[..i], (log[i].body.entity, log[i].body.sequence - 1));
        !(j.Some? && log[j.value].digest.Some? && b.previous == log[j.value].digest)
        ==> Finalized(cx, log)[i].body.previous == b.previous
    {
      PredecessorExact(Derivation(cx), log, i);
    }
  }
}
