/** Grant selection and the separation-of-duty decision for an admission. */
module SeparationOfDuty {
  import opened Options
  import opened Text
  import opened Registry
  import opened Replay

  predicate ScopeCovers(scope: string, scopes: seq<string>) {
    scopes == ["scope:*"] || scope in scopes
  }

  predicate GrantApplies(g: Grant, q: DutyRequest) {
    && g.action == q.action && g.authority == q.authority
    && ScopeCovers(q.scope, g.scopes) && q.materiality in g.materialities
    && g.effectiveFrom <= q.clock && (g.effectiveUntil.Some? ==> q.clock < g.effectiveUntil.value)
  }

  predicate RuleApplies(r: DutyRule, q: DutyRequest) {
    r.action == q.action && ScopeCovers(q.scope, r.scopes) && q.materiality in r.materialities
  }

  predicate ExceptionApplies(x: DutyException, ruleId: string, q: DutyRequest) {
    && x.ruleId == ruleId && x.action == q.action && x.authority == q.authority
    && ScopeCovers(q.scope, x.scopes) && q.materiality in x.materialities
    && (x.assumptionIds == [] || q.id in x.assumptionIds)
    && x.effectiveFrom <= q.clock < x.effectiveUntil
  }

  const ROLES: seq<Role> :=
    [ADMITTER, CHALLENGER, CONFIRMER, EXPIRY_AUTHORITY, PROPOSER, REJECTOR, RESOLVER, SUPERSEDER]

  /** The members of a role set in the governed order. */
  function InOrder(s: set<Role>): seq<Role> {
    Keep(ROLES, s)
  }

  function Keep(roles: seq<Role>, s: set<Role>): (r: seq<Role>)
    ensures forall x :: x in r <==> x in roles && x in s
  {
    if roles == [] then [] else (if roles[0] in s then [roles[0]] else []) + Keep(roles[1..], s)
  }

  /** Who performed an operation, and in which role. */
  function Actor(p: Payload): (string, Role) {
    match p
    case Propose(proposal) => (proposal.proposer, PROPOSER)
    case Admit(a, _) => (a, ADMITTER)
    case Confirm(a) => (a, CONFIRMER)
    case Challenge(_, a) => (a, CHALLENGER)
    case ResolveChallenges(_, _, a) => (a, RESOLVER)
    case Reject(a) => (a, REJECTOR)
    case Expire(a) => (a, EXPIRY_AUTHORITY)
    case Supersede(a) => (a, SUPERSEDER)
  }

  /** The history before the first event numbered 2 or more. */
  function BeforeCandidate(h: Log): Log {
    if h == [] || h[0].body.sequence >= 2 then [] else [h[0]] + BeforeCandidate(h[1..])
  }

  /** The roles an authority has already played. */
  function PriorRoles(h: Log, authority: string): set<Role> {
    set e | e in BeforeCandidate(h) && Actor(e.body.payload).0 == authority :: Actor(e.body.payload).1
  }

  // ----- Grant selection

  function Matching(grants: seq<Grant>, q: DutyRequest): seq<Grant> {
    if grants == [] then []
    else
      var last := grants[|grants| - 1];
      Matching(grants[..|grants| - 1], q) + if GrantApplies(last, q) then [last] else []
  }

  function Selection(grants: seq<Grant>, q: DutyRequest): (SelectionType, Option<Grant>) {
    var m := Matching(grants, q);
    if m == [] then (NO_APPLICABLE_GRANT, None)
    else if |m| == 1 then (SELECTED, Some(m[0]))
    else (AMBIGUOUS_GRANTS, None)
  }

  method SelectGrant(grants: seq<Grant>, q: DutyRequest) returns (kind: SelectionType, grant: Option<Grant>)
    ensures (kind, grant) == Selection(grants, q)
  {
    var matches := [];
    for i := 0 to |grants|
      invariant matches == Matching(grants[..i], q)
    {
      assert grants[..i + 1][..i] == grants[..i];
      if GrantApplies(grants[i], q) {
        matches := matches + [grants[i]];
      }
    }
    assert grants[..|grants|] == grants;
    if matches == [] {
      return NO_APPLICABLE_GRANT, None;
    }
    if |matches| == 1 {
      return SELECTED, Some(matches[0]);
    }
    return AMBIGUOUS_GRANTS, None;
  }

  // ----- One rule

  /** What an exception waives of a rule's conflicts. */
  function WaivedBy(x: DutyException, ruleId: string, conflicts: set<Role>, q: DutyRequest): set<Role> {
    if ExceptionApplies(x, ruleId, q) then x.conflicting * conflicts else {}
  }

  function Waived(exceptions: seq<DutyException>, ruleId: string, conflicts: set<Role>, q: DutyRequest): (w: set<Role>)
    ensures w <= conflicts
  {
    if exceptions == [] then {}
    else Waived(exceptions[..|exceptions| - 1], ruleId, conflicts, q)
         + WaivedBy(exceptions[|exceptions| - 1], ruleId, conflicts, q)
  }

  function Waivers(exceptions: seq<DutyException>, ruleId: string, conflicts: set<Role>, q: DutyRequest): seq<Waiver> {
    if exceptions == [] then []
    else
      var last := exceptions[|exceptions| - 1];
      Waivers(exceptions[..|exceptions| - 1], ruleId, conflicts, q)
      + if WaivedBy(last, ruleId, conflicts, q) != {} then [Waiver(last.id, last.digest)] else []
  }

  function WaiverId(w: Waiver): string { w.exceptionId }

  function Conflicts(r: DutyRule, prior: set<Role>): set<Role> {
    prior * r.conflicting
  }

  function Remaining(r: DutyRule, exceptions: seq<DutyException>, prior: set<Role>, q: DutyRequest): set<Role> {
    Conflicts(r, prior) - Waived(exceptions, r.id, Conflicts(r, prior), q)
  }

  function SortedWaivers(r: DutyRule, exceptions: seq<DutyException>, prior: set<Role>, q: DutyRequest): seq<Waiver> {
    SortBy(Waivers(exceptions, r.id, Conflicts(r, prior), q), WaiverId)
  }

  function EvaluationOf(r: DutyRule, exceptions: seq<DutyException>, prior: set<Role>, q: DutyRequest): RuleEvaluation {
    var conflicts := Conflicts(r, prior);
    RuleEvaluation(r.id, r.digest, InOrder(conflicts), SortedWaivers(r, exceptions, prior, q),
                   InOrder(Waived(exceptions, r.id, conflicts, q)), InOrder(Remaining(r, exceptions, prior, q)))
  }

  function Digests(w: seq<Waiver>): seq<Digest> {
    seq(|w|, i requires 0 <= i < |w| => w[i].exceptionDigest)
  }

  // ----- All rules

  /** What the applicable rules add up to. */
  datatype Tally = Tally(evaluations: seq<RuleEvaluation>, conflicting: set<Role>, waived: set<Role>,
                         remaining: set<Role>,
                         ruleDigests: seq<Digest>, waiverDigests: seq<Digest>)

  const NOTHING := Tally([], {}, {}, {}, [], [])

  function AddRule(t: Tally, r: DutyRule, exceptions: seq<DutyException>, prior: set<Role>, q: DutyRequest): Tally {
    if !RuleApplies(r, q) then t
    else
      Tally(t.evaluations + [EvaluationOf(r, exceptions, prior, q)],
            t.conflicting + Conflicts(r, prior),
            t.waived + Waived(exceptions, r.id, Conflicts(r, prior), q),
            t.remaining + Remaining(r, exceptions, prior, q),
            t.ruleDigests + [r.digest],
            t.waiverDigests + Digests(SortedWaivers(r, exceptions, prior, q)))
  }

  function TallyOf(rules: seq<DutyRule>, exceptions: seq<DutyException>, prior: set<Role>, q: DutyRequest): Tally {
    if rules == [] then NOTHING
    else AddRule(TallyOf(rules[..|rules| - 1], exceptions, prior, q), rules[|rules| - 1], exceptions, prior, q)
  }

  function DecisionOf(policy: Policy, history: Log, q: DutyRequest): SodDecision {
    var (kind, grant) := Selection(policy.grants, q);
    var prior := PriorRoles(history, q.authority);
    var t := TallyOf(policy.rules, policy.exceptions, prior, q);
    SodDecision(q, policy.header,
      if kind == SELECTED && t.remaining == {} then ALLOW else DENY,
      InOrder(prior), t.evaluations, InOrder(t.conflicting), InOrder(t.waived), InOrder(t.remaining),
      t.ruleDigests, t.waiverDigests, kind, grant, OfSelection(GrantSelection(policy.header, q, kind, grant)))
  }

  /** The exception loop for one applicable rule. */
  method EvaluateRule(r: DutyRule, exceptions: seq<DutyException>, prior: set<Role>, q: DutyRequest)
    returns (waived: set<Role>, waivers: seq<Waiver>)
    ensures waived == Waived(exceptions, r.id, Conflicts(r, prior), q)
    ensures waivers == SortedWaivers(r, exceptions, prior, q)
  {
    var conflicts := prior * r.conflicting;
    waived, waivers := {}, [];
    for i := 0 to |exceptions|
      invariant waived == Waived(exceptions[..i], r.id, conflicts, q)
      invariant waivers == Waivers(exceptions[..i], r.id, conflicts, q)
    {
      var x := exceptions[i];
      assert exceptions[..i + 1][..i] == exceptions[..i];
      if !ExceptionApplies(x, r.id, q) {
        continue;
      }
      var byThis := x.conflicting * conflicts;
      if byThis != {} {
        waived := waived + byThis;
        waivers := waivers + [Waiver(x.id, x.digest)];
      }
    }
    assert exceptions[..|exceptions|] == exceptions;
    waivers := SortBy(waivers, WaiverId);
  }

  method PriorRolesOf(history: Log, authority: string) returns (prior: set<Role>)
    ensures prior == PriorRoles(history, authority)
  {
    prior := {};
    for i := 0 to |history|
      invariant prior + PriorRoles(history[i..], authority) == PriorRoles(history, authority)
    {
      assert history[i..][0] == history[i] && history[i..][1..] == history[i + 1..];
      if history[i].body.sequence >= 2 {
        return;
      }
      assert BeforeCandidate(history[i..]) == [history[i]] + BeforeCandidate(history[i + 1..]);
      var (actor, role) := Actor(history[i].body.payload);
      if actor == authority {
        prior := prior + {role};
      }
    }
  }

  method DecideDuty(policy: Policy, history: Log, q: DutyRequest) returns (d: SodDecision)
    ensures d == DecisionOf(policy, history, q)
  {
    var kind, grant := SelectGrant(policy.grants, q);
    var prior := PriorRolesOf(history, q.authority);
    var t := NOTHING;
    for i := 0 to |policy.rules|
      invariant t == TallyOf(policy.rules[..i], policy.exceptions, prior, q)
    {
      var r := policy.rules[i];
      assert policy.rules[..i + 1][..i] == policy.rules[..i];
      if !RuleApplies(r, q) {
        continue;
      }
      var conflicts := prior * r.conflicting;
      var waived, waivers := EvaluateRule(r, policy.exceptions, prior, q);
      var remaining := conflicts - waived;
      t := Tally(
        t.evaluations
        + [RuleEvaluation(r.id, r.digest, InOrder(conflicts), waivers, InOrder(waived), InOrder(remaining))],
        t.conflicting + conflicts, t.waived + waived, t.remaining + remaining,
        t.ruleDigests + [r.digest], t.waiverDigests + Digests(waivers));
    }
    assert policy.rules[..|policy.rules|] == policy.rules;
    d := SodDecision(q, policy.header,
      if kind == SELECTED && t.remaining == {} then ALLOW else DENY,
      InOrder(prior), t.evaluations, InOrder(t.conflicting), InOrder(t.waived), InOrder(t.remaining),
      t.ruleDigests, t.waiverDigests, kind, grant, OfSelection(GrantSelection(policy.header, q, kind, grant)));
  }

  // ----- What the decision means

  /** Exactly one position in the grant list applies. */
  ghost predicate OneGrantApplies(grants: seq<Grant>, q: DutyRequest) {
    exists i :: OnlyAt(grants, q, i)
  }

  ghost predicate OnlyAt(grants: seq<Grant>, q: DutyRequest, i: int) {
    0 <= i < |grants| && forall j :: 0 <= j < |grants| ==> (GrantApplies(grants[j], q) <==> j == i)
  }

  ghost predicate Covered(role: Role, ruleId: string, exceptions: seq<DutyException>, q: DutyRequest) {
    exists x :: x in exceptions && ExceptionApplies(x, ruleId, q) && role in x.conflicting
  }

  /** Every conflict of every applicable rule is waived by an applicable exception. */
  ghost predicate ConflictsCovered(policy: Policy, prior: set<Role>, q: DutyRequest) {
    forall r, role :: r in policy.rules && RuleApplies(r, q) && role in Conflicts(r, prior) ==>
      Covered(role, r.id, policy.exceptions, q)
  }

  lemma {:induction false} NoneMatching(grants: seq<Grant>, q: DutyRequest)
    ensures Matching(grants, q) == [] <==> forall i :: 0 <= i < |grants| ==> !GrantApplies(grants[i], q)
  {
    if grants != [] {
      var k := |grants| - 1;
      NoneMatching(grants[..k], q);
      assert forall i :: 0 <= i < k ==> grants[..k][i] == grants[i];
    }
  }

  lemma {:induction false} OneMatching(grants: seq<Grant>, q: DutyRequest)
    ensures |Matching(grants, q)| == 1 <==> OneGrantApplies(grants, q)
  {
    if grants != [] {
      var init := grants[..|grants| - 1];
      OneMatching(init, q);
      NoneMatching(init, q);
      if GrantApplies(grants[|grants| - 1], q) {
        OneWithLast(grants, q);
      } else {
        OneBeforeLast(grants, q);
      }
    }
  }

  lemma OneWithLast(grants: seq<Grant>, q: DutyRequest)
    requires grants != [] && GrantApplies(grants[|grants| - 1], q)
    ensures var init := grants[..|grants| - 1];
            OneGrantApplies(grants, q) <==> forall i :: 0 <= i < |init| ==> !GrantApplies(init[i], q)
  {
    var k := |grants| - 1;
    var init := grants[..k];
    if OneGrantApplies(grants, q) {
      var i :| OnlyAt(grants, q, i);
      assert i == k;
      assert forall j :: 0 <= j < k ==> init[j] == grants[j];
    }
    if forall i :: 0 <= i < |init| ==> !GrantApplies(init[i], q) {
      assert forall j :: 0 <= j < k ==> grants[j] == init[j];
      assert OnlyAt(grants, q, k);
    }
  }

  lemma OneBeforeLast(grants: seq<Grant>, q: DutyRequest)
    requires grants != [] && !GrantApplies(grants[|grants| - 1], q)
    ensures OneGrantApplies(grants, q) <==> OneGrantApplies(grants[..|grants| - 1], q)
  {
    var k := |grants| - 1;
    var init := grants[..k];
    assert forall j :: 0 <= j < k ==> init[j] == grants[j];
    if OneGrantApplies(grants, q) {
      var i :| OnlyAt(grants, q, i);
      assert OnlyAt(init, q, i);
    }
    if OneGrantApplies(init, q) {
      var i :| OnlyAt(init, q, i);
      assert OnlyAt(grants, q, i);
    }
  }

  lemma {:induction false} WaivedExact(exceptions: seq<DutyException>, ruleId: string, conflicts: set<Role>,
      q: DutyRequest)
    ensures forall role :: role in Waived(exceptions, ruleId, conflicts, q)
                      <==> role in conflicts && Covered(role, ruleId, exceptions, q)
  {
    if exceptions != [] {
      var k := |exceptions| - 1;
      WaivedExact(exceptions[..k], ruleId, conflicts, q);
      assert exceptions == exceptions[..k] + [exceptions[k]];
      forall role | role in conflicts
        ensures Covered(role, ruleId, exceptions, q) <==>
          Covered(role, ruleId, exceptions[..k], q) || role in WaivedBy(exceptions[k], ruleId, conflicts, q)
      {
        if Covered(role, ruleId, exceptions[..k], q) {
          var x :| x in exceptions[..k] && ExceptionApplies(x, ruleId, q) && role in x.conflicting;
          assert x in exceptions;
        }
        if role in WaivedBy(exceptions[k], ruleId, conflicts, q) {
          assert exceptions[k] in exceptions;
        }
      }
    }
  }

  /** A rule's conflicts split into those waived and those remaining. */
  lemma ConflictsSplit(r: DutyRule, exceptions: seq<DutyException>, prior: set<Role>, q: DutyRequest)
    ensures var waived := Waived(exceptions, r.id, Conflicts(r, prior), q);
            var remaining := Remaining(r, exceptions, prior, q);
            && waived + remaining == Conflicts(r, prior) && waived !! remaining
            && (forall role ::
              role in remaining <==> role in Conflicts(r, prior) && !Covered(role, r.id, exceptions, q))
  {
    WaivedExact(exceptions, r.id, Conflicts(r, prior), q);
  }

  ghost predicate ConflictsIn(role: Role, r: DutyRule, prior: set<Role>, q: DutyRequest) {
    RuleApplies(r, q) && role in Conflicts(r, prior)
  }

  ghost predicate WaivedIn(role: Role, r: DutyRule, exceptions: seq<DutyException>, prior: set<Role>, q: DutyRequest) {
    RuleApplies(r, q) && role in Waived(exceptions, r.id, Conflicts(r, prior), q)
  }

  ghost predicate RemainsIn(role: Role, r: DutyRule, exceptions: seq<DutyException>, prior: set<Role>, q: DutyRequest) {
    RuleApplies(r, q) && role in Remaining(r, exceptions, prior, q)
  }

  lemma LastOrBefore(rules: seq<DutyRule>, p: DutyRule -> bool)
    requires rules != []
    ensures (exists r :: r in rules && p(r)) <==>
      (exists r :: r in rules[..|rules| - 1] && p(r)) || p(rules[|rules| - 1])
  {
    var k := |rules| - 1;
    assert rules == rules[..k] + [rules[k]];
    assert forall r :: r in rules <==> r in rules[..k] || r == rules[k];
  }

  lemma {:induction false} ConflictingExact(
      rules: seq<DutyRule>, exceptions: seq<DutyException>, prior: set<Role>, q: DutyRequest, role: Role)
    ensures role in TallyOf(rules, exceptions, prior, q).conflicting
       <==> exists r :: r in rules && ConflictsIn(role, r, prior, q)
  {
    if rules != [] {
      var k := |rules| - 1;
      ConflictingExact(rules[..k], exceptions, prior, q, role);
      LastOrBefore(rules, r => ConflictsIn(role, r, prior, q));
    }
  }

  lemma {:induction false} WaivedRolesExact(
      rules: seq<DutyRule>, exceptions: seq<DutyException>, prior: set<Role>, q: DutyRequest, role: Role)
    ensures role in TallyOf(rules, exceptions, prior, q).waived
       <==> exists r :: r in rules && WaivedIn(role, r, exceptions, prior, q)
  {
    if rules != [] {
      var k := |rules| - 1;
      WaivedRolesExact(rules[..k], exceptions, prior, q, role);
      LastOrBefore(rules, r => WaivedIn(role, r, exceptions, prior, q));
    }
  }

  lemma {:induction false} RemainingExact(
      rules: seq<DutyRule>, exceptions: seq<DutyException>, prior: set<Role>, q: DutyRequest, role: Role)
    ensures role in TallyOf(rules, exceptions, prior, q).remaining
       <==> exists r :: r in rules && RemainsIn(role, r, exceptions, prior, q)
  {
    if rules != [] {
      var k := |rules| - 1;
      RemainingExact(rules[..k], exceptions, prior, q, role);
      LastOrBefore(rules, r => RemainsIn(role, r, exceptions, prior, q));
    }
  }

  /** A role is in a union exactly when it is so under some applicable rule. */
  lemma TallyExact(rules: seq<DutyRule>, exceptions: seq<DutyException>, prior: set<Role>, q: DutyRequest, role: Role)
    ensures var t := TallyOf(rules, exceptions, prior, q);
            && (role in t.conflicting <==> exists r :: r in rules && ConflictsIn(role, r, prior, q))
            && (role in t.waived <==> exists r :: r in rules && WaivedIn(role, r, exceptions, prior, q))
            && (role in t.remaining <==> exists r :: r in rules && RemainsIn(role, r, exceptions, prior, q))
  {
    ConflictingExact(rules, exceptions, prior, q, role);
    WaivedRolesExact(rules, exceptions, prior, q, role);
    RemainingExact(rules, exceptions, prior, q, role);
  }

  /** The decision is ALLOW exactly when one grant applies and every conflicting
      prior role, under every applicable rule, is waived by an applicable exception. */
  lemma DecisionExact(policy: Policy, history: Log, q: DutyRequest)
    ensures DecisionOf(policy, history, q).decision == ALLOW
       <==> OneGrantApplies(policy.grants, q) && ConflictsCovered(policy, PriorRoles(history, q.authority), q)
  {
    var prior := PriorRoles(history, q.authority);
    OneMatching(policy.grants, q);
    forall role { TallyExact(policy.rules, policy.exceptions, prior, q, role); }
    var remaining := TallyOf(policy.rules, policy.exceptions, prior, q).remaining;
    forall r | r in policy.rules
      ensures forall role :: role in Remaining(r, policy.exceptions, prior, q)
                        <==> role in Conflicts(r, prior) && !Covered(role, r.id, policy.exceptions, q)
    {
      ConflictsSplit(r, policy.exceptions, prior, q);
    }
    if remaining != {} {
      var role :| role in remaining;
      var r :| r in policy.rules && RemainsIn(role, r, policy.exceptions, prior, q);
      assert !ConflictsCovered(policy, prior, q);
    } else {
      forall r, role | r in policy.rules && RuleApplies(r, q) && role in Conflicts(r, prior)
        ensures Covered(role, r.id, policy.exceptions, q)
      {
        assert role !in remaining;
        assert !RemainsIn(role, r, policy.exceptions, prior, q);
      }
    }
  }

  /** The order of grants, rules and exceptions is immaterial to the decision and
      to the roles reported as conflicting, waived and remaining. */
  lemma DecisionIgnoresOrder(a: Policy, b: Policy, history: Log, q: DutyRequest)
    requires multiset(a.grants) == multiset(b.grants)
    requires multiset(a.rules) == multiset(b.rules) && multiset(a.exceptions) == multiset(b.exceptions)
    ensures var d, e := DecisionOf(a, history, q), DecisionOf(b, history, q);
            && d.decision == e.decision
            && d.conflicting == e.conflicting && d.waived == e.waived && d.remaining == e.remaining
  {
    DecisionExact(a, history, q);
    DecisionExact(b, history, q);
    SameGrantCount(a.grants, b.grants, q);
    assert forall r :: r in a.rules <==> r in multiset(a.rules);
    assert forall r :: r in b.rules <==> r in multiset(b.rules);
    assert forall x :: x in a.exceptions <==> x in multiset(a.exceptions);
    assert forall x :: x in b.exceptions <==> x in multiset(b.exceptions);
    SameCover(a, b, q);
    SameCover(b, a, q);
    SameUnions(a, b, PriorRoles(history, q.authority), q);
  }

  lemma SameUnions(a: Policy, b: Policy, prior: set<Role>, q: DutyRequest)
    requires forall r :: r in a.rules <==> r in b.rules
    requires forall x :: x in a.exceptions <==> x in b.exceptions
    ensures var s, t := TallyOf(a.rules, a.exceptions, prior, q), TallyOf(b.rules, b.exceptions, prior, q);
            s.conflicting == t.conflicting && s.waived == t.waived && s.remaining == t.remaining
  {
    var s, t := TallyOf(a.rules, a.exceptions, prior, q), TallyOf(b.rules, b.exceptions, prior, q);
    forall role
      ensures role in s.conflicting <==> role in t.conflicting
      ensures role in s.waived <==> role in t.waived
      ensures role in s.remaining <==> role in t.remaining
    {
      TallyExact(a.rules, a.exceptions, prior, q, role);
      TallyExact(b.rules, b.exceptions, prior, q, role);
      forall r | r in a.rules
        ensures WaivedIn(role, r, a.exceptions, prior, q) <==> WaivedIn(role, r, b.exceptions, prior, q)
        ensures RemainsIn(role, r, a.exceptions, prior, q) <==> RemainsIn(role, r, b.exceptions, prior, q)
      {
        SameWaived(a.exceptions, b.exceptions, r.id, Conflicts(r, prior), q);
      }
    }
  }

  lemma SameWaived(a: seq<DutyException>, b: seq<DutyException>, ruleId: string, conflicts: set<Role>, q: DutyRequest)
    requires forall x :: x in a <==> x in b
    ensures Waived(a, ruleId, conflicts, q) == Waived(b, ruleId, conflicts, q)
  {
    WaivedExact(a, ruleId, conflicts, q);
    WaivedExact(b, ruleId, conflicts, q);
    assert forall role :: Covered(role, ruleId, a, q) <==> Covered(role, ruleId, b, q);
  }

  lemma SameGrantCount(a: seq<Grant>, b: seq<Grant>, q: DutyRequest)
    requires multiset(a) == multiset(b)
    ensures OneGrantApplies(a, q) <==> OneGrantApplies(b, q)
  {
    MatchingMultiset(a, q);
    MatchingMultiset(b, q);
    OneMatching(a, q);
    OneMatching(b, q);
    assert multiset(Matching(a, q)) == multiset(Matching(b, q));
    assert |Matching(a, q)| == |multiset(Matching(a, q))| && |Matching(b, q)| == |multiset(Matching(b, q))|;
  }

  lemma SameCover(a: Policy, b: Policy, q: DutyRequest)
    requires forall r :: r in b.rules ==> r in a.rules
    requires forall x :: x in a.exceptions ==> x in b.exceptions
    ensures forall prior :: ConflictsCovered(a, prior, q) ==> ConflictsCovered(b, prior, q)
  {
    forall prior | ConflictsCovered(a, prior, q)
      ensures ConflictsCovered(b, prior, q)
    {
      forall r, role | r in b.rules && RuleApplies(r, q) && role in Conflicts(r, prior)
        ensures Covered(role, r.id, b.exceptions, q)
      {
        assert Covered(role, r.id, a.exceptions, q);
      }
    }
  }

  lemma {:induction false} MatchingMultiset(grants: seq<Grant>, q: DutyRequest)
    ensures forall g :: multiset(Matching(grants, q))[g] == if GrantApplies(g, q) then multiset(grants)[g] else 0
  {
    if grants != [] {
      var k := |grants| - 1;
      MatchingMultiset(grants[..k], q);
      assert grants == grants[..k] + [grants[k]];
    }
  }

  /** More exceptions and fewer rules never turn ALLOW into DENY; read backwards,
      more rules and fewer exceptions never turn DENY into ALLOW. */
  lemma DecisionMonotone(a: Policy, b: Policy, history: Log, q: DutyRequest)
    requires a.grants == b.grants
    requires forall r :: r in b.rules ==> r in a.rules
    requires forall x :: x in a.exceptions ==> x in b.exceptions
    ensures DecisionOf(a, history, q).decision == ALLOW ==> DecisionOf(b, history, q).decision == ALLOW
  {
    DecisionExact(a, history, q);
    DecisionExact(b, history, q);
    SameCover(a, b, q);
  }

  /** A role waived under one rule can remain in conflict under another: here the
      proposer's own, in the decision on its proposal. */
  lemma WaivedAndRemainingOverlap() returns (policy: Policy, history: Log, q: DutyRequest)
    ensures q.clock > 0 && q.action == "ADMIT"
    ensures var d := DecisionOf(policy, history, q); PROPOSER in d.waived && PROPOSER in d.remaining
  {
    var none := Literal(PlainDigest());
    var p := Proposal("control.connected", ["s"], "m", "authority:a", 1, 1, None, [], [], [], "D2");
    history := [Signed(EventBody("x", 1, None, 1, none, Propose(p)))];
    q := DutyRequest("ADMIT", "authority:a", "s", "m", 2, "x");
    var r1 := DutyRule("r1", none, "ADMIT", ["s"], ["m"], {PROPOSER});
    var x := DutyException("x1", none, "r1", "ADMIT", "authority:a", ["s"], ["m"], [], 1, 3, {PROPOSER});
    policy := Policy(EntryHeader(none, none, none, "p", none, none, 1), [], [r1, r1.(id := "r2")], [x]);
    ProposerIsPrior(history[0]);
    OneRuleWaived(policy.rules, x, {PROPOSER}, q);
  }

  lemma ProposerIsPrior(e: Envelope)
    requires e.body.sequence == 1 && e.body.payload.Propose?
    ensures PriorRoles([e], e.body.payload.proposal.proposer) == {PROPOSER}
  {
    assert [e][1..] == [];
    assert BeforeCandidate([e]) == [e];
    assert e in BeforeCandidate([e]);
  }

  /** Of two rules alike but for their names the exception waives one only. */
  lemma OneRuleWaived(rules: seq<DutyRule>, x: DutyException, prior: set<Role>, q: DutyRequest)
    requires |rules| == 2 && rules[1].id != rules[0].id && RuleApplies(rules[0], q) && RuleApplies(rules[1], q)
    requires ExceptionApplies(x, rules[0].id, q)
    requires PROPOSER in prior && PROPOSER in rules[0].conflicting && PROPOSER in rules[1].conflicting
    requires PROPOSER in x.conflicting
    ensures var t := TallyOf(rules, [x], prior, q); PROPOSER in t.waived && PROPOSER in t.remaining
  {
    WaivedExact([x], rules[0].id, Conflicts(rules[0], prior), q);
    WaivedExact([x], rules[1].id, Conflicts(rules[1], prior), q);
    assert x in [x] && Covered(PROPOSER, rules[0].id, [x], q);
    assert !Covered(PROPOSER, rules[1].id, [x], q);
    TallyExact(rules, [x], prior, q, PROPOSER);
    assert rules[0] in rules && WaivedIn(PROPOSER, rules[0], [x], prior, q);
    assert rules[1] in rules && RemainsIn(PROPOSER, rules[1], [x], prior, q);
  }
}
