/** Finalizing a log: every admission's receipts are derived again from the
    events before it, and the per-entity digest chain is rebuilt. */
module Finalize {
  import opened Options
  import opened Sequences
  import opened Text
  import opened Paths
  import opened Registry
  import opened Replay
  import opened AdmissionWalk
  import opened SeparationOfDuty
  import opened Rebuilding

  // ----- Snapshot root

  /** Each entity's most recent event. */
  function Heads(log: Log): map<Id, Head> {
    map id | id in Entities(log) :: HeadOf(History(log, id))
  }

  function HeadOf(h: Log): Head
    requires h != []
  {
    var e := h[|h| - 1];
    Head(e.body.entity, e.body.sequence, e.digest)
  }

  function HeadList(heads: map<Id, Head>): (r: seq<Head>)
    ensures |r| == |heads.Keys|
  {
    var keys := SortedSet(heads.Keys);
    seq(|keys|, i requires 0 <= i < |keys| => heads[keys[i]])
  }

  function SnapshotRoot(log: Log): Digest {
    OfSnapshot(HeadList(Heads(log)))
  }

  method ComputeSnapshotRoot(log: Log) returns (root: Digest)
    ensures root == SnapshotRoot(log)
  {
    var heads: map<Id, Head> := map[];
    for i := 0 to |log|
      invariant heads == Heads(log[..i])
    {
      var e := log[i];
      HeadsStep(log[..i], e);
      assert log[..i + 1] == log[..i] + [e];
      heads := heads[e.body.entity := Head(e.body.entity, e.body.sequence, e.digest)];
    }
    assert log[..|log|] == log;
    root := OfSnapshot(HeadList(heads));
  }

  lemma HeadsStep(log: Log, e: Envelope)
    ensures Heads(log + [e]) == Heads(log)[e.body.entity := Head(e.body.entity, e.body.sequence, e.digest)]
  {
    var a, b, id := Heads(log + [e]), Heads(log), e.body.entity;
    EntitiesLast(log + [e]);
    assert (log + [e])[..|log|] == log;
    assert a.Keys == b.Keys + {id};
    forall x | x in b && x != id
      ensures a[x] == b[x]
    {
      OtherHistory(log, e, x);
    }
    OwnHead(log, e);
    UpdatedHeads(a, b, id);
  }

  lemma OwnHead(log: Log, e: Envelope)
    requires e.body.entity in Heads(log + [e])
    ensures Heads(log + [e])[e.body.entity] == Head(e.body.entity, e.body.sequence, e.digest)
  {
    HistoryStep(log, e);
  }

  lemma UpdatedHeads(a: map<Id, Head>, b: map<Id, Head>, id: Id)
    requires a.Keys == b.Keys + {id} && forall x :: x in b && x != id ==> a[x] == b[x]
    ensures a == b[id := a[id]]
  {
  }

  // ----- Receipts

  /** The first event of an entity with a given sequence number. */
  function FindEvent(log: Log, id: Id, sequence: int): Option<Envelope> {
    if log == [] then None
    else if log[0].body.entity == id && log[0].body.sequence == sequence then Some(log[0])
    else FindEvent(log[1..], id, sequence)
  }

  /** The entity's events numbered below `sequence`. */
  function Earlier(log: Log, id: Id, sequence: int): Log {
    if log == [] then []
    else
      var last := log[|log| - 1];
      Earlier(log[..|log| - 1], id, sequence)
      + if last.body.entity == id && last.body.sequence < sequence then [last] else []
  }

  /** The fixed surroundings of a finalization. */
  datatype Context = Context(evidenceRoot: Digest, policy: Policy)

  /** What a governed admission is derived from: the rebuilt events before it,
      the admission and the proposal it admits. */
  function DependencyReceiptFor(cx: Context, before: Log, admission: EventBody, proposed: Envelope): DependencyReceipt
    requires proposed.body.payload.Propose?
  {
    var p := proposed.body.payload.proposal;
    DependencyReceipt(
      admission.entity, p.dependencies, p.evidence, SnapshotRoot(before), cx.evidenceRoot, proposed.digest,
      Traversal(AdmissionProjections(before), admission.entity, p.dependencies),
      Eligibility(Sorted(p.evidence), admission.clock), admission.clock)
  }

  function Eligibility(evidence: seq<string>, clock: int): seq<EvidenceEligibility> {
    seq(|evidence|, i requires 0 <= i < |evidence| => EvidenceEligibility(evidence[i], clock))
  }

  function DutyQuestion(admission: EventBody, p: Proposal, scope: string): DutyRequest
    requires admission.payload.Admit?
  {
    DutyRequest("ADMIT", admission.payload.admitter, scope, p.materiality, admission.clock, admission.entity)
  }

  function DutyDecisions(cx: Context, before: Log, admission: EventBody, p: Proposal): seq<SodDecision>
    requires admission.payload.Admit?
  {
    DecisionsOver(cx, Earlier(before, admission.entity, admission.sequence), admission, p, Sorted(p.scopeIds))
  }

  function DecisionsOver(cx: Context, history: Log, admission: EventBody, p: Proposal,
      scopes: seq<string>): (d: seq<SodDecision>)
    requires admission.payload.Admit?
    ensures |d| == |scopes|
  {
    if scopes == [] then []
    else
      var k := |scopes| - 1;
      DecisionsOver(cx, history, admission, p, scopes[..k])
      + [DecisionOf(cx.policy, history, DutyQuestion(admission, p, scopes[k]))]
  }

  function AuthorizationFor(cx: Context, before: Log, admission: EventBody, proposed: Envelope): Authorization
    requires admission.payload.Admit? && proposed.body.payload.Propose?
  {
    var p := proposed.body.payload.proposal;
    Authorization(
      admission.payload.admitter, admission.entity, p.materiality, SnapshotRoot(before), cx.evidenceRoot,
      proposed.digest,
      DependencyReceiptFor(cx, before, admission, proposed), admission.clock, Sorted(p.scopeIds),
      DutyDecisions(cx, before, admission, p))
  }

  /** The proposal a governed admission answers, when its predecessor is one. */
  function ProposalFor(before: Log, b: EventBody): Option<Envelope> {
    if !b.payload.Admit? then None
    else
      var p := FindEvent(before, b.entity, b.sequence - 1);
      if p.Some? && p.value.body.payload.Propose? then p else None
  }

  /** An event with its receipts derived from the events before it. */
  function WithReceipts(cx: Context, before: Log, b: EventBody): EventBody {
    var p := ProposalFor(before, b);
    if p.None? then b
    else b.(sourceReceipt := OfDependencyReceipt(DependencyReceiptFor(cx, before, b, p.value)),
            payload := b.payload.(admissionReceipt := OfAuthorization(AuthorizationFor(cx, before, b, p.value))))
  }

  // ----- What the event schema demands

  predicate Alphanumeric(c: char) {
    'a' <= c <= 'z' || 'A' <= c <= 'Z' || '0' <= c <= '9'
  }

  /** A final line feed escapes the patterns of the schema. */
  function Unended(t: string): string {
    if t != [] && t[|t| - 1] == '\n' then t[..|t| - 1] else t
  }

  predicate TokenText(t: string) {
    var m := Unended(t);
    && m != [] && Alphanumeric(m[0])
    && forall i :: 0 <= i < |m| ==> Alphanumeric(m[i]) || m[i] in {'.', '_', ':', '/', '-'}
  }

  predicate DigestText(t: string) {
    var m := Unended(t);
    && |m| == 71 && m[..7] == "sha256:"
    && forall i :: 7 <= i < 71 ==> '0' <= m[i] <= '9' || 'a' <= m[i] <= 'f'
  }

  /** A digest computed here is always well formed; a quoted one may not be. */
  predicate DigestShaped(d: Digest) {
    d.Literal? ==> DigestText(d.text)
  }

  /** `RegistryEvent.build` accepts the event. */
  predicate Buildable(b: EventBody) {
    && TokenText(b.entity) && b.sequence >= 1 && b.clock >= 1
    && DigestShaped(b.sourceReceipt)
    && (b.previous.Some? ==> DigestShaped(b.previous.value))
  }

  ghost predicate AllBuildable(log: Log) {
    forall e :: e in log ==> Buildable(e.body)
  }

  // ----- Finalization

  /** The derivation of receipts, as the rebuilding of a log uses it. */
  function Derivation(cx: Context): Derive {
    (before: Log, b: EventBody) => WithReceipts(cx, before, b)
  }

  function Finalized(cx: Context, log: Log): (r: Log)
    ensures |r| == |log|
  {
    RebuildAll(Derivation(cx), log).log
  }

  /** The finalization loop; it is abandoned at the first event the schema rejects. */
  method FinalizeAdmissionReceipts(cx: Context, log: Log) returns (r: Option<Log>)
    ensures r == if AllBuildable(Finalized(cx, log)) then Some(Finalized(cx, log)) else None
  {
    var digests: map<Key, (Option<Digest>, Digest)> := map[];
    var rebuilt: Log := [];
    for i := 0 to |log|
      invariant AllBuildable(rebuilt)
      invariant Rebuilt(rebuilt, digests) == RebuildAll(Derivation(cx), log[..i])
    {
      var event := Relink(log[i].body, digests);
      event := BindReceipts(cx, rebuilt, event);
      RebuiltNext(cx, log, i);
      if !Buildable(event) {
        Rejected(cx, log, i);
        return None;
      }
      digests := digests[KeyOf(log[i]) := (log[i].digest, OfEvent(event))];
      rebuilt := rebuilt + [Envelope(event, Some(OfEvent(event)))];
    }
    assert log[..|log|] == log;
    r := Some(rebuilt);
  }

  /** The predecessor branch of the loop. */
  method Relink(b: EventBody, digests: map<Key, (Option<Digest>, Digest)>) returns (event: EventBody)
    ensures event == b.(previous := Repointed(b, digests))
  {
    event := b;
    var k := (b.entity, b.sequence - 1);
    if k in digests {
      var prior := digests[k];
      if prior.0.Some? && b.previous == prior.0 && Some(prior.1) != prior.0 {
        event := b.(previous := Some(prior.1));
      }
    }
  }

  lemma RebuiltNext(cx: Context, log: Log, i: nat)
    requires i < |log|
    ensures var r := RebuildAll(Derivation(cx), log[..i]);
            var b := WithReceipts(cx, r.log, log[i].body.(previous := Repointed(log[i].body, r.digests)));
            RebuildAll(Derivation(cx), log[..i + 1])
              == Rebuilt(r.log + [Envelope(b, Some(OfEvent(b)))],
                         r.digests[KeyOf(log[i]) := (log[i].digest, OfEvent(b))])
  {
    assert log[..i + 1][..i] == log[..i];
  }

  lemma Rejected(cx: Context, log: Log, i: nat)
    requires i < |log| && exists e :: e in Finalized(cx, log[..i + 1]) && !Buildable(e.body)
    ensures !AllBuildable(Finalized(cx, log))
  {
    PrefixStable(Derivation(cx), log, i + 1);
  }

  /** The admission branch of the loop: only an admission that answers a proposal is governed. */
  method BindReceipts(cx: Context, rebuilt: Log, b: EventBody) returns (r: EventBody)
    ensures r == WithReceipts(cx, rebuilt, b)
  {
    if b.payload.Admit? {
      var proposed := FindEvent(rebuilt, b.entity, b.sequence - 1);
      if proposed.Some? && proposed.value.body.payload.Propose? {
        r := Receipts(cx, rebuilt, b, proposed.value);
        return;
      }
    }
    Ungoverned(cx, rebuilt, b);
    r := b;
  }

  lemma Ungoverned(cx: Context, before: Log, b: EventBody)
    requires ProposalFor(before, b).None?
    ensures WithReceipts(cx, before, b) == b
  {
  }

  /** The receipts of one governed admission, step by step. */
  method Receipts(cx: Context, before: Log, b: EventBody, proposed: Envelope) returns (r: EventBody)
    requires ProposalFor(before, b) == Some(proposed)
    ensures r == WithReceipts(cx, before, b)
  {
    var p := proposed.body.payload.proposal;
    var projections := ProjectForAdmission(before);
    var traversed := AdmissionTraversal(b.entity, p.dependencies, projections);
    var root := ComputeSnapshotRoot(before);
    var receipt := DependencyReceipt(b.entity, p.dependencies, p.evidence, root, cx.evidenceRoot, proposed.digest,
                                     traversed, Eligibility(Sorted(p.evidence), b.clock), b.clock);
    assert receipt == DependencyReceiptFor(cx, before, b, proposed);
    var decisions := DecideScopes(cx, before, b, p);
    var authorization := Authorization(b.payload.admitter, b.entity, p.materiality, root, cx.evidenceRoot,
                                       proposed.digest, receipt, b.clock, Sorted(p.scopeIds), decisions);
    assert authorization == AuthorizationFor(cx, before, b, proposed);
    r := b.(sourceReceipt := OfDependencyReceipt(receipt),
      payload := b.payload.(admissionReceipt := OfAuthorization(authorization)));
  }

  /** One separation-of-duty decision for each scope of the proposal. */
  method DecideScopes(cx: Context, before: Log, b: EventBody, p: Proposal) returns (decisions: seq<SodDecision>)
    requires b.payload.Admit?
    ensures decisions == DutyDecisions(cx, before, b, p)
  {
    var scopes := Sorted(p.scopeIds);
    var history := Earlier(before, b.entity, b.sequence);
    decisions := [];
    for i := 0 to |scopes|
      invariant decisions == DecisionsOver(cx, history, b, p, scopes[..i])
    {
      TakeNext(scopes, i);
      var d := DecideDuty(cx.policy, history, DutyQuestion(b, p, scopes[i]));
      decisions := decisions + [d];
    }
    assert scopes[..|scopes|] == scopes;
  }
}
