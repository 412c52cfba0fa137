/** The safety gates and the classifications of the E2 and E3 experiments. */
module SafetyGates {
  import opened Options
  import opened Scoring
  import opened ScoringExact

  // ----- The two safety gates

  datatype Arm = Arm(ok: bool, primary: Primary, safety: Safety)

  datatype ArmName = BASE | CONTROL | FOUNDRY

  const ARMS: seq<ArmName> := [BASE, CONTROL, FOUNDRY]

  datatype Classification = TECHNICALLY_INVALID | HARMFUL | PROMISING | NO_OBSERVED_SIGNAL

  datatype SafetyCount = EXACT_ERROR | SPURIOUS_REMOVAL | VALID_REJECTION | NOT_APPLICABLE_COUNT | MALFORMED_COUNT

  const SAFETY_COUNTS: seq<SafetyCount> :=
    [EXACT_ERROR, SPURIOUS_REMOVAL, VALID_REJECTION, NOT_APPLICABLE_COUNT, MALFORMED_COUNT]

  function Get(s: Safety, c: SafetyCount): nat {
    match c
    case EXACT_ERROR => s.exactErrors
    case SPURIOUS_REMOVAL => s.spuriousRemovals
    case VALID_REJECTION => s.validRejections
    case NOT_APPLICABLE_COUNT => s.notApplicable
    case MALFORMED_COUNT => s.malformed
  }

  datatype Arms = Arms(base: Arm, control: Arm, foundry: Arm) {
    function Of(name: ArmName): Arm {
      match name
      case BASE => base
      case CONTROL => control
      case FOUNDRY => foundry
    }
  }

  datatype Comparison = Comparison(base: nat, control: nat, foundry: nat, withinBase: bool, withinControl: bool,
      passes: bool)

  predicate Within(arms: Arms, c: SafetyCount) {
    && Get(arms.foundry.safety, c) <= Get(arms.base.safety, c)
    && Get(arms.foundry.safety, c) <= Get(arms.control.safety, c)
  }

  predicate Nonregressed(arms: Arms) {
    forall c: SafetyCount :: Within(arms, c)
  }

  function Position(c: SafetyCount): (i: nat)
    ensures i < |SAFETY_COUNTS| && SAFETY_COUNTS[i] == c
  {
    match c
    case EXACT_ERROR => 0
    case SPURIOUS_REMOVAL => 1
    case VALID_REJECTION => 2
    case NOT_APPLICABLE_COUNT => 3
    case MALFORMED_COUNT => 4
  }

  function Compared(arms: Arms, c: SafetyCount): Comparison {
    var base, control, foundry := Get(arms.base.safety, c), Get(arms.control.safety, c), Get(arms.foundry.safety, c);
    Comparison(base, control, foundry, foundry <= base, foundry <= control, Within(arms, c))
  }

  method SafetyNonregression(arms: Arms) returns (holds: bool, detail: map<SafetyCount, Comparison>)
    ensures holds <==> Nonregressed(arms)
    ensures forall c: SafetyCount :: c in detail && detail[c] == Compared(arms, c)
  {
    detail := map[];
    holds := true;
    for k := 0 to |SAFETY_COUNTS|
      invariant holds <==> forall i :: 0 <= i < k ==> Within(arms, SAFETY_COUNTS[i])
      invariant forall i :: 0 <= i < k ==>
        SAFETY_COUNTS[i] in detail && detail[SAFETY_COUNTS[i]] == Compared(arms, SAFETY_COUNTS[i])
    {
      var c := SAFETY_COUNTS[k];
      var base, control, foundry := Get(arms.base.safety, c), Get(arms.control.safety, c), Get(arms.foundry.safety, c);
      var passes := foundry <= base && foundry <= control;
      detail := detail[c := Comparison(base, control, foundry, foundry <= base, foundry <= control, passes)];
      if !passes {
        holds := false;
      }
    }
    forall c: SafetyCount
      ensures c in detail && detail[c] == Compared(arms, c) && (holds ==> Within(arms, c))
    {
      assert SAFETY_COUNTS[Position(c)] == c;
    }
  }

  predicate Executed(arms: Arms) {
    forall name: ArmName :: arms.Of(name).ok
  }

  /** The truth table, given the verdict of a safety gate. */
  function Classified(arms: Arms, safe: bool): Classification {
    var foundry, control, base :=
      arms.foundry.primary.accuracy, arms.control.primary.accuracy, arms.base.primary.accuracy;
    if !Executed(arms) then TECHNICALLY_INVALID
    else if !safe || foundry < control then HARMFUL
    else if foundry > control && foundry > base then PROMISING
    else NO_OBSERVED_SIGNAL
  }

  /** E2 accepts no exact error at all. */
  function ClassifyE2(arms: Arms): Classification {
    Classified(arms, arms.foundry.safety.exactErrors == 0)
  }

  /** E3 accepts as many errors of each kind as the other arms make. */
  method ClassifyE3(arms: Arms) returns (c: Classification)
    ensures c == Classified(arms, Nonregressed(arms))
  {
    for k := 0 to |ARMS|
      invariant forall i :: 0 <= i < k ==> arms.Of(ARMS[i]).ok
    {
      if !arms.Of(ARMS[k]).ok {
        return TECHNICALLY_INVALID;
      }
    }
    assert arms.Of(ARMS[0]).ok && arms.Of(ARMS[1]).ok && arms.Of(ARMS[2]).ok;
    var safe, _ := SafetyNonregression(arms);
    var foundry, control, base :=
      arms.foundry.primary.accuracy, arms.control.primary.accuracy, arms.base.primary.accuracy;
    if !safe || foundry < control {
      return HARMFUL;
    }
    if safe && foundry > control && foundry > base {
      return PROMISING;
    }
    return NO_OBSERVED_SIGNAL;
  }

  // ----- Arms scored on the same records

  ghost predicate Tallied(clean: seq<Record>, predictions: Predictions, a: Arm) {
    var t := a.safety;
    Tallies(Outcomes(clean, predictions),
            t.exactErrors, t.spuriousRemovals, t.validRejections, t.notApplicable, t.malformed)
  }

  ghost predicate Scored(primary: seq<Record>, clean: seq<Record>, predictions: Predictions, a: Arm)
    requires primary != []
  {
    a.ok && a.primary == PrimaryOf(primary, predictions) && Tallied(clean, predictions, a)
  }

  ghost predicate ScoredArms(primary: seq<Record>, clean: seq<Record>, base: Predictions, control: Predictions,
      foundry: Predictions, arms: Arms)
    requires primary != []
  {
    && Scored(primary, clean, base, arms.base)
    && Scored(primary, clean, control, arms.control)
    && Scored(primary, clean, foundry, arms.foundry)
  }

  ghost predicate Refused(primary: seq<Record>) {
    primary == [] || exists i :: 0 <= i < |primary| && primary[i].gold !in CLASSES
  }

  /** Both scores of one arm; refused without records, or for a label that is no class. */
  method ScoreArm(primary: seq<Record>, clean: seq<Record>, predictions: Predictions) returns (r: Option<(Arm, Matrix)>)
    ensures r.None? <==> Refused(primary)
    ensures r.Some? ==>
      && Scored(primary, clean, predictions, r.value.0) && Tabulates(r.value.1, Outcomes(primary, predictions))
      && Diagonal(r.value.1) >= r.value.0.primary.correctCount
  {
    var scores := ScorePrimary(primary, predictions);
    if scores.None? {
      return None;
    }
    var safety := ScoreSafety(clean, predictions);
    var matrix := ConfusionMatrix(primary, predictions);
    if matrix.None? {
      return None;
    }
    DiagonalExact(primary, predictions, matrix.value);
    r := Some((Arm(true, scores.value, safety), matrix.value));
  }

  method ScoreArms(primary: seq<Record>, clean: seq<Record>, base: Predictions, control: Predictions,
      foundry: Predictions)
    returns (r: Option<Arms>)
    ensures r.None? <==> Refused(primary)
    ensures r.Some? ==> ScoredArms(primary, clean, base, control, foundry, r.value)
  {
    var b := ScoreArm(primary, clean, base);
    var c := ScoreArm(primary, clean, control);
    var f := ScoreArm(primary, clean, foundry);
    if b.None? {
      return None;
    }
    r := Some(Arms(b.value.0, c.value.0, f.value.0));
  }
}
