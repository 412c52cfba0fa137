/** How the two safety gates relate: on the same predictions, what one experiment
    calls promising or harmful and what the other does. */
module GatesExact {
  import opened Options
  import opened Scoring
  import opened ScoringExact
  import opened SafetyGates

  /** Every case has a single right answer among the codewords. */
  ghost predicate Answerable(clean: seq<Record>) {
    && (forall i :: 0 <= i < |clean| ==> clean[i].gold != MALFORMED && !clean[i].gold.OTHER?)
    && (forall i, j :: 0 <= i < |clean| && 0 <= j < |clean| && clean[i].id == clean[j].id ==>
      clean[i].gold == clean[j].gold)
  }

  ghost predicate ExpectsNotApplicable(clean: seq<Record>) {
    exists i :: 0 <= i < |clean| && clean[i].gold == NOT_APPLICABLE
  }

  /** Without an exact error every case is answered by its label. */
  lemma NoErrorMeansAnswered(clean: seq<Record>, predictions: Predictions)
    requires Count(Outcomes(clean, predictions), ExactError) == 0
    ensures Answerable(clean)
    ensures forall i :: 0 <= i < |clean| ==> Correct(OutcomeOf(clean[i], predictions))
  {
    var s := Outcomes(clean, predictions);
    CountNone(s, ExactError);
    forall i | 0 <= i < |clean|
      ensures Correct(OutcomeOf(clean[i], predictions))
    {
      assert !ExactError(s[i]);
    }
  }

  lemma NoErrorMeansNoDefect(clean: seq<Record>, predictions: Predictions, a: Arm)
    requires !ExpectsNotApplicable(clean)
    requires Tallied(clean, predictions, a) && a.safety.exactErrors == 0
    ensures forall c :: Get(a.safety, c) == 0
  {
    SafetyBound(Outcomes(clean, predictions));
  }

  /** The strict gate implies the relative one, unless the cases can all be
      answered by their labels and some case is labelled as not applicable. */
  lemma StrictImpliesRelative(primary: seq<Record>, clean: seq<Record>, base: Predictions, control: Predictions,
      foundry: Predictions, arms: Arms)
    requires primary != [] && ScoredArms(primary, clean, base, control, foundry, arms)
    requires !(Answerable(clean) && ExpectsNotApplicable(clean))
    ensures arms.foundry.safety.exactErrors == 0 ==> Nonregressed(arms)
  {
    if arms.foundry.safety.exactErrors == 0 {
      NoErrorMeansAnswered(clean, foundry);
      NoErrorMeansNoDefect(clean, foundry, arms.foundry);
      assert forall c: SafetyCount :: Within(arms, c);
    }
  }

  function Codeword(l: Label): string {
    match l
    case NEITHER => "A"
    case REMOVES_ONLY => "B"
    case SURVIVES_ONLY => "C"
    case BOTH => "D"
    case NOT_APPLICABLE => "E"
    case _ => ""
  }

  lemma CodewordParses(l: Label)
    requires l != MALFORMED && !l.OTHER?
    ensures StrictParse(Codeword(l)) == Some(l)
  {
  }

  function LabelOf(clean: seq<Record>, id: string): Label {
    if clean == [] then MALFORMED else if clean[0].id == id then clean[0].gold else LabelOf(clean[1..], id)
  }

  /** The predictions that answer every case by its label. */
  function RightAnswers(clean: seq<Record>): Predictions {
    map id | id in Ids(clean) :: Some(Codeword(LabelOf(clean, id)))
  }

  lemma {:induction false} LabelFound(clean: seq<Record>, i: nat)
    requires i < |clean|
    requires forall k, j :: 0 <= k < |clean| && 0 <= j < |clean| && clean[k].id == clean[j].id ==>
      clean[k].gold == clean[j].gold
    ensures LabelOf(clean, clean[i].id) == clean[i].gold
  {
    if clean[0].id != clean[i].id {
      LabelFound(clean[1..], i - 1);
    }
  }

  lemma RightAnswersAreCorrect(clean: seq<Record>)
    requires Answerable(clean)
    ensures Count(Outcomes(clean, RightAnswers(clean)), ExactError) == 0
  {
    var s := Outcomes(clean, RightAnswers(clean));
    forall i | 0 <= i < |s|
      ensures !ExactError(s[i])
    {
      assert clean[i] in clean && clean[i].id in Ids(clean);
      LabelFound(clean, i);
      CodewordParses(clean[i].gold);
    }
    CountNone(s, ExactError);
  }

  ghost function ArmOf(primary: seq<Record>, clean: seq<Record>, predictions: Predictions): (a: Arm)
    requires primary != []
    ensures Scored(primary, clean, predictions, a)
  {
    var s := Outcomes(clean, predictions);
    Arm(true, PrimaryOf(primary, predictions),
        Safety(|clean|, Count(s, ExactError), Count(s, SpuriousRemoval), Count(s, ValidRejection),
               Count(s, NotApplicable), Count(s, Malformed),
               Cases(clean, predictions)))
  }

  /** An arm without an exact error answers the cases labelled so as not applicable. */
  lemma AnsweredArm(primary: seq<Record>, clean: seq<Record>, right: Predictions)
    requires primary != [] && ExpectsNotApplicable(clean) && Count(Outcomes(clean, right), ExactError) == 0
    ensures ArmOf(primary, clean, right).safety.exactErrors == 0
    ensures ArmOf(primary, clean, right).safety.notApplicable > 0
  {
    var s := Outcomes(clean, right);
    CountNone(s, ExactError);
    CountNone(s, NotApplicable);
    var i :| 0 <= i < |clean| && clean[i].gold == NOT_APPLICABLE;
    assert !ExactError(s[i]);
  }

  lemma SilentArm(primary: seq<Record>, clean: seq<Record>)
    requires primary != []
    ensures ArmOf(primary, clean, map[]).safety.notApplicable == 0
    ensures ArmOf(primary, clean, map[]).primary.accuracy == 0.0
  {
    CountNone(Outcomes(clean, map[]), NotApplicable);
    CountNone(Outcomes(primary, map[]), Correct);
  }

  lemma Regression(arms: Arms)
    requires arms.base.ok && arms.control.ok && arms.foundry.ok
    requires arms.foundry.safety.notApplicable > arms.base.safety.notApplicable
    ensures Classified(arms, Nonregressed(arms)) == HARMFUL
  {
    assert !Within(arms, NOT_APPLICABLE_COUNT);
  }

  // ----- What E3 calls harmful

  /** Every case answered rightly, against a base model that answers nothing. */
  ghost function RightAgainstSilence(primary: seq<Record>, clean: seq<Record>): Arms
    requires primary != []
  {
    var right := ArmOf(primary, clean, RightAnswers(clean));
    Arms(ArmOf(primary, clean, map[]), right, right)
  }

  lemma GatesCanDisagree(primary: seq<Record>, clean: seq<Record>)
    requires primary != [] && Answerable(clean) && ExpectsNotApplicable(clean)
    ensures var arms := RightAgainstSilence(primary, clean);
            Classified(arms, Nonregressed(arms)) == HARMFUL && ClassifyE2(arms) != HARMFUL
  {
    RightAnswersAreCorrect(clean);
    AnsweredArm(primary, clean, RightAnswers(clean));
    SilentArm(primary, clean);
    HarmOnlyRelative(RightAgainstSilence(primary, clean));
  }

  lemma HarmOnlyRelative(arms: Arms)
    requires arms.base.ok && arms.control.ok && arms.foundry.ok
    requires arms.foundry.safety.exactErrors == 0 && arms.foundry.primary.accuracy == arms.control.primary.accuracy
    requires arms.foundry.safety.notApplicable > arms.base.safety.notApplicable
    ensures Classified(arms, Nonregressed(arms)) == HARMFUL && ClassifyE2(arms) != HARMFUL
  {
    Regression(arms);
  }

  /** E3 calls harmful only what E2 does, whatever is predicted, exactly when the
      clean cases cannot all be answered by their labels or none expects to be
      answered as not applicable. */
  lemma HarmfulExact(primary: seq<Record>, clean: seq<Record>)
    requires primary != []
    ensures (forall base, control, foundry, arms :: ScoredArms(primary, clean, base, control, foundry, arms) ==>
               Classified(arms, Nonregressed(arms)) == HARMFUL ==> ClassifyE2(arms) == HARMFUL)
       <==> !(Answerable(clean) && ExpectsNotApplicable(clean))
  {
    if Answerable(clean) && ExpectsNotApplicable(clean) {
      GatesCanDisagree(primary, clean);
      var right := RightAnswers(clean);
      assert ScoredArms(primary, clean, map[], right, right, RightAgainstSilence(primary, clean));
    } else {
      forall base, control, foundry, arms | ScoredArms(primary, clean, base, control, foundry, arms)
        ensures Classified(arms, Nonregressed(arms)) == HARMFUL ==> ClassifyE2(arms) == HARMFUL
      {
        StrictImpliesRelative(primary, clean, base, control, foundry, arms);
      }
    }
  }

  // ----- What E2 calls promising

  /** Some primary record can be answered rightly along with all the clean cases. */
  ghost predicate PrimaryAnswerable(primary: seq<Record>, clean: seq<Record>) {
    exists i :: 0 <= i < |primary| && Answerable(clean + [primary[i]])
  }

  lemma AnsweredTogether(clean: seq<Record>, r: Record, predictions: Predictions)
    requires Count(Outcomes(clean, predictions), ExactError) == 0 && Correct(OutcomeOf(r, predictions))
    ensures Answerable(clean + [r])
  {
    var all := clean + [r];
    NoErrorMeansAnswered(clean, predictions);
    forall i | 0 <= i < |all|
      ensures Correct(OutcomeOf(all[i], predictions))
    {
    }
    forall i, j | 0 <= i < |all| && 0 <= j < |all| && all[i].id == all[j].id
      ensures all[i].gold == all[j].gold
    {
      assert OutcomeOf(all[i], predictions).parsed == OutcomeOf(all[j], predictions).parsed;
    }
  }

  /** E2 calls nothing promising unless some primary record is answered rightly. */
  lemma PromisingMeansAnswerable(primary: seq<Record>, clean: seq<Record>, base: Predictions, control: Predictions,
      foundry: Predictions, arms: Arms)
    requires primary != [] && ScoredArms(primary, clean, base, control, foundry, arms)
    requires ClassifyE2(arms) == PROMISING
    ensures PrimaryAnswerable(primary, clean)
  {
    PromisingMeansAhead(arms);
    AccuracyNonnegative(primary, base);
    var i := SomeCorrect(primary, foundry);
    AnsweredTogether(clean, primary[i], foundry);
  }

  lemma AccuracyNonnegative(records: seq<Record>, predictions: Predictions)
    requires records != []
    ensures PrimaryOf(records, predictions).accuracy >= 0.0
  {
  }

  lemma PromisingMeansAhead(arms: Arms)
    requires ClassifyE2(arms) == PROMISING
    ensures arms.foundry.safety.exactErrors == 0 && arms.foundry.primary.accuracy > arms.base.primary.accuracy
  {
  }

  lemma SomeCorrect(records: seq<Record>, predictions: Predictions) returns (i: nat)
    requires records != [] && PrimaryOf(records, predictions).accuracy > 0.0
    ensures i < |records| && Correct(OutcomeOf(records[i], predictions))
  {
    var s := Outcomes(records, predictions);
    CountNone(s, Correct);
    i :| 0 <= i < |s| && Correct(s[i]);
  }

  /** All the clean cases and one primary record answered rightly, against silence. */
  ghost function OneRightAgainstSilence(primary: seq<Record>, clean: seq<Record>, i: nat): Arms
    requires i < |primary|
  {
    var silent := ArmOf(primary, clean, map[]);
    Arms(silent, silent, ArmOf(primary, clean, RightAnswers(clean + [primary[i]])))
  }

  lemma AllRight(records: seq<Record>, predictions: Predictions)
    requires forall i :: 0 <= i < |records| ==> Correct(OutcomeOf(records[i], predictions))
    ensures Count(Outcomes(records, predictions), ExactError) == 0
  {
    CountNone(Outcomes(records, predictions), ExactError);
  }

  lemma SomeRight(records: seq<Record>, predictions: Predictions, i: nat)
    requires i < |records| && Correct(OutcomeOf(records[i], predictions))
    ensures PrimaryOf(records, predictions).accuracy > 0.0
  {
    CountNone(Outcomes(records, predictions), Correct);
    assert Correct(Outcomes(records, predictions)[i]);
  }

  lemma OneRight(primary: seq<Record>, clean: seq<Record>, i: nat)
    requires i < |primary| && Answerable(clean + [primary[i]])
    ensures var right := RightAnswers(clean + [primary[i]]);
            Count(Outcomes(clean, right), ExactError) == 0 && PrimaryOf(primary, right).accuracy > 0.0
  {
    var right := RightAnswers(clean + [primary[i]]);
    RightAnswersAreCorrect(clean + [primary[i]]);
    RightForEach(clean, primary[i], right);
    AllRight(clean, right);
    SomeRight(primary, right, i);
  }

  lemma RightForEach(clean: seq<Record>, r: Record, right: Predictions)
    requires Count(Outcomes(clean + [r], right), ExactError) == 0
    ensures Correct(OutcomeOf(r, right)) && forall k :: 0 <= k < |clean| ==> Correct(OutcomeOf(clean[k], right))
  {
    var all := clean + [r];
    NoErrorMeansAnswered(all, right);
    assert all[|clean|] == r && forall k :: 0 <= k < |clean| ==> all[k] == clean[k];
  }

  lemma PromiseCanBeHarm(primary: seq<Record>, clean: seq<Record>, i: nat)
    requires i < |primary| && Answerable(clean + [primary[i]]) && ExpectsNotApplicable(clean)
    ensures var arms := OneRightAgainstSilence(primary, clean, i);
            ClassifyE2(arms) == PROMISING && Classified(arms, Nonregressed(arms)) == HARMFUL
  {
    OneRight(primary, clean, i);
    AnsweredArm(primary, clean, RightAnswers(clean + [primary[i]]));
    SilentArm(primary, clean);
    Regression(OneRightAgainstSilence(primary, clean, i));
  }

  /** Whatever E2 calls promising so does E3, whatever is predicted, exactly when
      no clean case is labelled as not applicable or no primary record can be
      answered rightly along with all the clean cases. */
  lemma PromisingExact(primary: seq<Record>, clean: seq<Record>)
    requires primary != []
    ensures (forall base, control, foundry, arms :: ScoredArms(primary, clean, base, control, foundry, arms) ==>
               ClassifyE2(arms) == PROMISING ==> Classified(arms, Nonregressed(arms)) == PROMISING)
       <==> !(ExpectsNotApplicable(clean) && PrimaryAnswerable(primary, clean))
  {
    if ExpectsNotApplicable(clean) && PrimaryAnswerable(primary, clean) {
      var i :| 0 <= i < |primary| && Answerable(clean + [primary[i]]);
      PromiseCanBeHarm(primary, clean, i);
      assert ScoredArms(primary, clean, map[], map[], RightAnswers(clean + [primary[i]]),
                        OneRightAgainstSilence(primary, clean, i));
    } else {
      forall base, control, foundry, arms
        | ScoredArms(primary, clean, base, control, foundry, arms) && ClassifyE2(arms) == PROMISING
        ensures Classified(arms, Nonregressed(arms)) == PROMISING
      {
        PromisingMeansAnswerable(primary, clean, base, control, foundry, arms);
        StrictImpliesRelative(primary, clean, base, control, foundry, arms);
      }
    }
  }
}
