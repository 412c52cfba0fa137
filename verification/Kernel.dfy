/** The control-state kernel: states, events, and what its verifier demands of a
    state, of any transition, and of the transition of each core event. */
module Kernel {
  import opened Options

  datatype EvidenceStatus = CURRENT_EVIDENCE | INVALIDATED | EXPIRED
  datatype Obligation = CURRENT | PLANNED | RETIRED
  datatype SourceState = CONNECTED | WIRED_INERT | SOURCE_UNKNOWN
  datatype Assurance = PASS | PARTIAL | FAIL | UNVERIFIED | STALE | ASSURANCE_NA
  datatype BasisKind = SOURCE | DEPLOYMENT | VERDICT
  datatype RequestStatus = PENDING | CLOSED

  function SourceValue(s: SourceState): string {
    match s
    case CONNECTED => "connected"
    case WIRED_INERT => "wiredInert"
    case SOURCE_UNKNOWN => "sourceUnknown"
  }

  function AssuranceValue(a: Assurance): string {
    match a
    case PASS => "pass"
    case PARTIAL => "partial"
    case FAIL => "fail"
    case UNVERIFIED => "unverified"
    case STALE => "stale"
    case ASSURANCE_NA => "assuranceNA"
  }

  lemma ValuesInjective()
    ensures forall s, t :: SourceValue(s) == SourceValue(t) ==> s == t
    ensures forall a, b :: AssuranceValue(a) == AssuranceValue(b) ==> a == b
  {
    forall s, t | SourceValue(s) == SourceValue(t)
      ensures s == t
    {
      assert SourceValue(s)[0] == SourceValue(t)[0];
    }
    forall a, b | AssuranceValue(a) == AssuranceValue(b)
      ensures a == b
    {
      assert |AssuranceValue(a)| == |AssuranceValue(b)|;
      assert AssuranceValue(a)[0] == AssuranceValue(b)[0];
    }
  }

  predicate Substantive(a: Assurance) { a in {PASS, PARTIAL, FAIL} }

  datatype Evidence = Evidence(
    id: string, dimension: string, status: EvidenceStatus, dependencies: set<string>, outcome: Option<string>,
    issuedAt: int, expiresAt: Option<int>, profileId: Option<string>, profileVersion: Option<int>)

  datatype Basis = Basis(id: string, kind: BasisKind, claim: string, members: set<string>, approved: bool)

  datatype Request = Request(
    id: string, reason: string, requestedAt: int, dueAt: int, status: RequestStatus, closedAt: Option<int>)

  datatype Heartbeat = Heartbeat(interval: int, lastRecordedAt: int, dueAt: int)

  datatype AuditEvent = AuditEvent(kind: string, details: map<string, string>)

  datatype ControlState = ControlState(
    id: string,
    obligation: Obligation,
    source: SourceState,
    assurance: Assurance,
    evidence: seq<Evidence>,
    bases: seq<Basis>,
    currentSource: set<string>,
    currentVerdict: set<string>,
    history: seq<AuditEvent>,
    time: int,
    profileId: Option<string>,
    profileVersion: Option<int>,
    requests: seq<Request>,
    heartbeat: Option<Heartbeat>)

  datatype Event =
    | DependencyChange(dependency: string, direction: Option<string>)
    | Reassess(newEvidence: seq<Evidence>, newBases: seq<Basis>, source: Option<SourceState>,
               assurance: Option<Assurance>, authority: string, closeRequests: seq<string>)
    | RetireControl(evidence: Evidence, authority: string)
    | Temporal(name: string)

  // ----- By identity; a later item of the same identity wins

  function EvidenceById(evidence: seq<Evidence>): map<string, Evidence> {
    if evidence == [] then map[]
    else EvidenceById(evidence[..|evidence| - 1])[evidence[|evidence| - 1].id := evidence[|evidence| - 1]]
  }

  function BasesById(bases: seq<Basis>): map<string, Basis> {
    if bases == [] then map[]
    else BasesById(bases[..|bases| - 1])[bases[|bases| - 1].id := bases[|bases| - 1]]
  }

  /** With distinct identities every item is the one found under its identity. */
  lemma {:induction false} DistinctEvidence(evidence: seq<Evidence>)
    requires |EvidenceById(evidence)| == |evidence|
    ensures forall x :: x in evidence ==> x.id in EvidenceById(evidence) && EvidenceById(evidence)[x.id] == x
    ensures forall i, j :: 0 <= i < j < |evidence| ==> evidence[i].id != evidence[j].id
  {
    if evidence != [] {
      var k := |evidence| - 1;
      var last, earlier := evidence[k], EvidenceById(evidence[..k]);
      assert evidence == evidence[..k] + [last];
      EvidenceBound(evidence[..k]);
      assert EvidenceById(evidence).Keys == earlier.Keys + {last.id};
      assert last.id in earlier.Keys ==> earlier.Keys + {last.id} == earlier.Keys;
      assert |EvidenceById(evidence).Keys| == |evidence|;
      DistinctEvidence(evidence[..k]);
      forall i | 0 <= i < k
        ensures evidence[i].id != last.id
      {
        assert evidence[i] in evidence[..k];
      }
    }
  }

  lemma {:induction false} EvidenceBound(evidence: seq<Evidence>)
    ensures |EvidenceById(evidence).Keys| == |EvidenceById(evidence)| <= |evidence|
  {
    if evidence != [] {
      var k := |evidence| - 1;
      EvidenceBound(evidence[..k]);
      assert EvidenceById(evidence).Keys == EvidenceById(evidence[..k]).Keys + {evidence[k].id};
    }
  }

  // ----- What the verifier demands

  predicate Current(e: Evidence) { e.status == CURRENT_EVIDENCE }

  predicate Supported(b: Basis, evidence: map<string, Evidence>) {
    b.members != {} && b.approved && forall m :: m in b.members ==> m in evidence && Current(evidence[m])
  }

  datatype InvariantId =
    | INV_04 | INV_05 | INV_07 | INV_11 | INV_13 | INV_14 | INV_15 | INV_16 | INV_18 | INV_19
    | G_INV_06 | G_INV_10 | G_INV_11 | G_INV_13

  function CurrentIds(s: ControlState): set<string> {
    s.currentSource + s.currentVerdict
  }

  /** A current basis is missing, unapproved, empty or rests on unknown evidence. */
  ghost predicate UnfoundedBasis(s: ControlState, id: string) {
    var bases, evidence := BasesById(s.bases), EvidenceById(s.evidence);
    id !in bases || !bases[id].approved || bases[id].members == {}
    || exists m :: m in bases[id].members && m !in evidence
  }

  /** A current basis rests on evidence that is no longer current. */
  ghost predicate OutdatedBasis(s: ControlState, id: string) {
    var bases, evidence := BasesById(s.bases), EvidenceById(s.evidence);
    id in bases && exists m :: m in bases[id].members && m in evidence && !Current(evidence[m])
  }

  ghost predicate Misclaims(s: ControlState, id: string, kind: BasisKind, claim: string) {
    var bases := BasesById(s.bases);
    id in bases && (bases[id].kind != kind || bases[id].claim != claim)
  }

  ghost predicate SomeUnfounded(s: ControlState) {
    exists id :: id in CurrentIds(s) && UnfoundedBasis(s, id)
  }

  ghost predicate SomeOutdated(s: ControlState) {
    exists id :: id in CurrentIds(s) && OutdatedBasis(s, id)
  }

  ghost predicate SomeMisclaim(s: ControlState, ids: set<string>, kind: BasisKind, claim: string) {
    exists id :: id in ids && Misclaims(s, id, kind, claim)
  }

  /** The state violates an invariant. */
  ghost predicate StateViolates(s: ControlState, i: InvariantId) {
    match i
    case G_INV_06 => |EvidenceById(s.evidence)| != |s.evidence|
    case G_INV_11 => |BasesById(s.bases)| != |s.bases|
    case INV_07 =>
      || SomeUnfounded(s)
      || SomeMisclaim(s, s.currentVerdict, VERDICT, AssuranceValue(s.assurance))
      || (s.obligation == CURRENT && Substantive(s.assurance) && s.currentVerdict == {})
    case INV_13 => SomeOutdated(s)
    case INV_05 =>
      || SomeMisclaim(s, s.currentSource, SOURCE, SourceValue(s.source))
      || (s.source != SOURCE_UNKNOWN && s.currentSource == {})
    case INV_04 => s.obligation != CURRENT && s.assurance != ASSURANCE_NA
    case _ => false
  }

  ghost predicate StateOk(s: ControlState) {
    forall i :: !StateViolates(s, i)
  }

  /** The transition, whatever its event, violates an invariant. */
  ghost predicate TransitionViolates(before: ControlState, after: ControlState, i: InvariantId) {
    var old', new' := EvidenceById(before.evidence), EvidenceById(after.evidence);
    var oldBases, newBases := BasesById(before.bases), BasesById(after.bases);
    || StateViolates(after, i)
    || match i
       case INV_19 =>
         || !(before.history <= after.history)
         || (exists id :: id in old' && id !in new')
         || (exists id :: id in oldBases && id !in newBases)
       case INV_18 => exists id :: id in old' && id in new' && !Current(old'[id]) && Current(new'[id])
       case G_INV_06 => exists id :: id in old' && id in new' && Rewritten(old'[id], new'[id])
       case G_INV_11 => exists id :: id in oldBases && id in newBases && oldBases[id] != newBases[id]
       case _ => false
  }

  predicate Rewritten(e: Evidence, f: Evidence) {
    e.id != f.id || e.dimension != f.dimension || e.dependencies != f.dependencies || e.outcome != f.outcome
  }

  ghost predicate TransitionOk(before: ControlState, after: ControlState) {
    forall i :: !TransitionViolates(before, after, i)
  }

  // ----- The core events

  predicate Hit(e: Evidence, dependency: string) {
    Current(e) && dependency in e.dependencies
  }

  /** The current ids whose basis is still supported. */
  function Surviving(ids: set<string>, bases: map<string, Basis>, evidence: map<string, Evidence>): set<string> {
    set id | id in ids && id in bases && Supported(bases[id], evidence)
  }

  /** The current and new ids whose basis is of a kind, makes a claim and is supported. */
  function Claiming(ids: set<string>, bases: map<string, Basis>, evidence: map<string, Evidence>, kind: BasisKind,
      claim: string): set<string>
  {
    set id | && id in ids && id in bases
             && bases[id].kind == kind && bases[id].claim == claim && Supported(bases[id], evidence)
  }

  function DemotedSource(source: SourceState, survivors: set<string>): SourceState {
    if source != SOURCE_UNKNOWN && survivors == {} then SOURCE_UNKNOWN else source
  }

  function DemotedAssurance(obligation: Obligation, assurance: Assurance, survivors: set<string>): Assurance {
    if obligation != CURRENT then ASSURANCE_NA
    else if Substantive(assurance) && survivors == {} then STALE
    else assurance
  }

  ghost predicate DependencyChangeOk(before: ControlState, dependency: string, after: ControlState) {
    var old', new', bases := EvidenceById(before.evidence), EvidenceById(after.evidence), BasesById(after.bases);
    var source, verdict := Surviving(before.currentSource, bases, new'), Surviving(before.currentVerdict, bases, new');
    && new'.Keys == old'.Keys
    && bases.Keys == BasesById(before.bases).Keys
    && (forall id :: id in old' && id in new' ==>
          new'[id].status == if Hit(old'[id], dependency) then INVALIDATED else old'[id].status)
    && after.currentSource == source && after.currentVerdict == verdict
    && after.source == DemotedSource(before.source, source)
    && after.assurance == DemotedAssurance(before.obligation, before.assurance, verdict)
  }

  function Resulting<T>(change: Option<T>, old': T): T {
    if change.Some? then change.value else old'
  }

  ghost predicate ReassessOk(before: ControlState, e: Event, after: ControlState)
    requires e.Reassess?
  {
    var old', new', added := EvidenceById(before.evidence), EvidenceById(after.evidence), EvidenceById(e.newEvidence);
    var oldBases, newBases, addedBases := BasesById(before.bases), BasesById(after.bases), BasesById(e.newBases);
    var source, assurance := Resulting(e.source, before.source), Resulting(e.assurance, before.assurance);
    && new'.Keys - old'.Keys == added.Keys
    && (forall id :: id in added && id in new' ==> new'[id] == added[id])
    && newBases.Keys - oldBases.Keys == addedBases.Keys
    && (forall id :: id in addedBases && id in newBases ==> newBases[id] == addedBases[id])
    && after.source == source && after.assurance == assurance
    && after.currentSource
      == Claiming(before.currentSource + addedBases.Keys, newBases, new', SOURCE, SourceValue(source))
    && after.currentVerdict
      == Claiming(before.currentVerdict + addedBases.Keys, newBases, new', VERDICT, AssuranceValue(assurance))
  }

  ghost predicate RetirementOk(before: ControlState, e: Event, after: ControlState)
    requires e.RetireControl?
  {
    var old', new' := EvidenceById(before.evidence), EvidenceById(after.evidence);
    && new'.Keys - old'.Keys == {e.evidence.id}
    && (e.evidence.id in new' ==> new'[e.evidence.id] == e.evidence)
    && BasesById(after.bases).Keys == BasesById(before.bases).Keys
    && after.obligation == RETIRED && after.assurance == ASSURANCE_NA && after.source == SOURCE_UNKNOWN
    && after.currentSource == {} && after.currentVerdict == {}
  }

  ghost predicate EventOk(before: ControlState, e: Event, after: ControlState) {
    match e
    case DependencyChange(d, _) => DependencyChangeOk(before, d, after)
    case Reassess(_, _, _, _, _, _) => ReassessOk(before, e, after)
    case RetireControl(_, _) => RetirementOk(before, e, after)
    case Temporal(_) => true
  }

  /** The core checks the oracle applies around one event. */
  ghost predicate Accepted(before: ControlState, e: Event, after: ControlState) {
    StateOk(before) && TransitionOk(before, after) && EventOk(before, e, after)
  }
}
