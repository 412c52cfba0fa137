/** The assumption registry: events, the digests that chain them, the receipts
    an admission binds, and the authority policy those receipts quote.
    A digest is a free constructor over the value it was computed from. */
module Registry {
  import opened Options
  import opened Paths

  datatype Standing = PROPOSED | ADMITTED | CONFIRMED | REJECTED | EXPIRED | SUPERSEDED

  datatype ResolutionOutcome = RETURN_TO_ADMITTED | CONFIRM | REJECT | SUPERSEDE

  datatype Proposal = Proposal(
    propositionId: string,
    scopeIds: seq<string>,
    materiality: string,
    proposer: string,
    proposedAt: int,
    validFrom: int,
    expiresAt: Option<int>,
    dependencies: seq<Id>,
    evidence: seq<string>,
    limitations: seq<string>,
    reuseClass: string)

  datatype Payload =
    | Propose(proposal: Proposal)
    | Admit(admitter: string, admissionReceipt: Digest)
    | Confirm(confirmer: string)
    | Challenge(challengeId: string, challenger: string)
    | ResolveChallenges(resolved: seq<string>, outcome: ResolutionOutcome, resolver: string)
    | Reject(rejector: string)
    | Expire(expirer: string)
    | Supersede(superseder: string)

  datatype EventBody = EventBody(
    entity: Id,
    sequence: int,
    previous: Option<Digest>,
    clock: int,
    sourceReceipt: Digest,
    payload: Payload)

  /** An event as stored: its body and the digest it claims, if any. */
  datatype Envelope = Envelope(body: EventBody, digest: Option<Digest>)

  datatype Digest =
    | Literal(text: string)
    | OfEvent(event: EventBody)
    | OfSnapshot(heads: seq<Head>)
    | OfDependencyReceipt(receipt: DependencyReceipt)
    | OfSelection(selection: GrantSelection)
    | OfAuthorization(authorization: Authorization)
    | OfUseRequest(request: UseRequest)
    | OfUseReceipt(useReceipt: UseReceipt)

  /** An event under its own digest. */
  function Signed(b: EventBody): Envelope {
    Envelope(b, Some(OfEvent(b)))
  }

  function Zeros(n: nat): (s: string)
    ensures |s| == n && forall i :: 0 <= i < n ==> s[i] == '0'
  {
    if n == 0 then "" else "0" + Zeros(n - 1)
  }

  /** A text of the form every quoted digest has. */
  function PlainDigest(): string {
    "sha256:" + Zeros(64)
  }

  /** One entity's entry in a registry snapshot. */
  datatype Head = Head(entity: Id, sequence: int, digest: Option<Digest>)

  // ----- Admission receipts

  datatype TraversedDependency = TraversedDependency(
    id: Id,
    sequence: int,
    digest: Option<Digest>,
    dependencies: seq<Id>)

  datatype EvidenceEligibility = EvidenceEligibility(evidenceId: string, evaluatedAt: int)

  datatype DependencyReceipt = DependencyReceipt(
    id: Id,
    dependencies: seq<Id>,
    evidence: seq<string>,
    registryRoot: Digest,
    evidenceRoot: Digest,
    predecessor: Option<Digest>,
    traversed: seq<TraversedDependency>,
    eligibility: seq<EvidenceEligibility>,
    clock: int)

  datatype Authorization = Authorization(
    admitter: string,
    id: Id,
    materiality: string,
    registryRoot: Digest,
    evidenceRoot: Digest,
    predecessor: Option<Digest>,
    receipt: DependencyReceipt,
    clock: int,
    scopeIds: seq<string>,
    decisions: seq<SodDecision>)

  // ----- Authority policy

  datatype Role =
    | ADMITTER | CHALLENGER | CONFIRMER | EXPIRY_AUTHORITY
    | PROPOSER | REJECTOR | RESOLVER | SUPERSEDER

  datatype Grant = Grant(
    id: string, digest: Digest, action: string, authority: string,
    scopes: seq<string>, materialities: seq<string>,
    effectiveFrom: int, effectiveUntil: Option<int>)

  datatype DutyRule = DutyRule(
    id: string, digest: Digest, action: string,
    scopes: seq<string>, materialities: seq<string>, conflicting: set<Role>)

  datatype DutyException = DutyException(
    id: string, digest: Digest, ruleId: string, action: string, authority: string,
    scopes: seq<string>, materialities: seq<string>, assumptionIds: seq<Id>,
    effectiveFrom: int, effectiveUntil: int, conflicting: set<Role>)

  /** Identity of a ledger entry, as quoted by the decisions made under it. */
  datatype EntryHeader = EntryHeader(
    ledgerRoot: Digest, commitReceipt: Digest, entryDigest: Digest,
    policyId: string, policyDigest: Digest, signingPayload: Digest, effectiveFrom: int)

  datatype Policy = Policy(
    header: EntryHeader, grants: seq<Grant>, rules: seq<DutyRule>, exceptions: seq<DutyException>)

  /** What a separation-of-duty decision is asked about. */
  datatype DutyRequest = DutyRequest(
    action: string, authority: string, scope: string, materiality: string, clock: int, id: Id)

  datatype SelectionType = SELECTED | NO_APPLICABLE_GRANT | AMBIGUOUS_GRANTS

  datatype GrantSelection = GrantSelection(
    header: EntryHeader, request: DutyRequest, kind: SelectionType, grant: Option<Grant>)

  datatype Waiver = Waiver(exceptionId: string, exceptionDigest: Digest)

  datatype RuleEvaluation = RuleEvaluation(
    ruleId: string, ruleDigest: Digest, conflicting: seq<Role>, waivers: seq<Waiver>,
    waived: seq<Role>, remaining: seq<Role>)

  datatype Decision = ALLOW | DENY

  datatype SodDecision = SodDecision(
    request: DutyRequest,
    header: EntryHeader,
    decision: Decision,
    priorRoles: seq<Role>,
    evaluations: seq<RuleEvaluation>,
    conflicting: seq<Role>,
    waived: seq<Role>,
    remaining: seq<Role>,
    ruleDigests: seq<Digest>,
    waiverDigests: seq<Digest>,
    selection: SelectionType,
    selectedGrant: Option<Grant>,
    selectionDigest: Digest)

  // ----- Use-time evidence

  datatype UseRequest = UseRequest(
    limitations: seq<string>, clock: int, decisionId: string, evidenceId: string,
    propositionId: Option<string>, reuseClass: Option<string>, scopeIds: seq<string>)

  datatype UseReceipt = UseReceipt(
    advisories: seq<string>, allowed: Option<bool>, authorityPolicy: Option<Digest>,
    challengePolicy: Option<Digest>, code: Option<string>, dependencyDigests: seq<string>,
    evidenceEvent: Option<Digest>, evidenceId: string, requestDigest: Option<Digest>)
}
