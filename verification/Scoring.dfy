/** Scoring of the E2 and E3 experiments: both share the scores and the confusion
    matrix, and differ in the safety gate of their classification. */
module Scoring {
  import opened Options


  /** Class names found in the records; `OTHER` is any other text. */
  datatype Label = NEITHER | REMOVES_ONLY | SURVIVES_ONLY | BOTH | NOT_APPLICABLE | MALFORMED | OTHER(text: string)

  datatype Record = Record(id: string, gold: Label)

  /** Decoded suffixes by record; a prediction may lack the suffix. */
  type Predictions = map<string, Option<string>>

  /** What a record expects and what was read for it. */
  datatype Outcome = Outcome(gold: Label, parsed: Option<Label>)

  const CLASSES: seq<Label> := [NEITHER, REMOVES_ONLY, SURVIVES_ONLY, BOTH, NOT_APPLICABLE, MALFORMED]
  const REMOVAL: set<Label> := {REMOVES_ONLY, BOTH}
  const SURVIVAL: set<Label> := {SURVIVES_ONLY, BOTH}
  const BASIS: set<Label> := {NEITHER, REMOVES_ONLY, SURVIVES_ONLY, BOTH}

  function StrictParse(suffix: string): Option<Label> {
    if suffix == "A" then Some(NEITHER)
    else if suffix == "B" then Some(REMOVES_ONLY)
    else if suffix == "C" then Some(SURVIVES_ONLY)
    else if suffix == "D" then Some(BOTH)
    else if suffix == "E" then Some(NOT_APPLICABLE)
    else None
  }

  function Decoded(r: Record, predictions: Predictions): string {
    if r.id in predictions && predictions[r.id].Some? then predictions[r.id].value else ""
  }

  function OutcomeOf(r: Record, predictions: Predictions): Outcome {
    Outcome(r.gold, StrictParse(Decoded(r, predictions)))
  }

  function Outcomes(records: seq<Record>, predictions: Predictions): (s: seq<Outcome>)
    ensures |s| == |records| && forall i :: 0 <= i < |s| ==> s[i] == OutcomeOf(records[i], predictions)
  {
    seq(|records|, i requires 0 <= i < |records| => OutcomeOf(records[i], predictions))
  }

  // ----- What is counted

  predicate Correct(o: Outcome) { o.parsed == Some(o.gold) }
  predicate ExactError(o: Outcome) { !Correct(o) }
  predicate Malformed(o: Outcome) { o.parsed.None? }
  predicate NotApplicable(o: Outcome) { o.parsed == Some(NOT_APPLICABLE) }
  predicate BothBasis(o: Outcome) { o.parsed.Some? && o.parsed.value in BASIS && o.gold in BASIS }
  predicate SpuriousRemoval(o: Outcome) { BothBasis(o) && o.gold !in REMOVAL && o.parsed.value in REMOVAL }
  predicate ValidRejection(o: Outcome) { BothBasis(o) && o.gold in SURVIVAL && o.parsed.value !in SURVIVAL }

  /** The number of positions at which a property holds. */
  ghost function Count<T(!new)>(s: seq<T>, p: T -> bool): nat {
    |set i | 0 <= i < |s| && p(s[i])|
  }

  lemma CountNext<T(!new)>(s: seq<T>, x: T, p: T -> bool)
    ensures Count(s + [x], p) == Count(s, p) + if p(x) then 1 else 0
  {
    var earlier := set i | 0 <= i < |s| && p(s[i]);
    var all := set i | 0 <= i < |s + [x]| && p((s + [x])[i]);
    assert forall i :: 0 <= i < |s| ==> (s + [x])[i] == s[i];
    assert (s + [x])[|s|] == x;
    assert all == if p(x) then earlier + {|s|} else earlier;
  }

  lemma CountNone<T(!new)>(s: seq<T>, p: T -> bool)
    ensures Count(s, p) == 0 <==> forall i :: 0 <= i < |s| ==> !p(s[i])
  {
    var places := set i | 0 <= i < |s| && p(s[i]);
    if i :| 0 <= i < |s| && p(s[i]) {
      assert i in places;
    }
  }

  // ----- Primary accuracy

  datatype FamilyResult = FamilyResult(record: Record, decoded: string, parsed: Option<Label>, correct: bool)

  datatype Primary = Primary(familyCount: nat, correctCount: nat, accuracy: real, perFamily: seq<FamilyResult>)

  function FamilyOf(r: Record, predictions: Predictions): FamilyResult {
    FamilyResult(r, Decoded(r, predictions), OutcomeOf(r, predictions).parsed, Correct(OutcomeOf(r, predictions)))
  }

  function Families(records: seq<Record>, predictions: Predictions): seq<FamilyResult> {
    seq(|records|, i requires 0 <= i < |records| => FamilyOf(records[i], predictions))
  }

  ghost function PrimaryOf(records: seq<Record>, predictions: Predictions): Primary
    requires records != []
  {
    var correct := Count(Outcomes(records, predictions), Correct);
    Primary(|records|, correct, correct as real / |records| as real, Families(records, predictions))
  }

  /** Without records the accuracy is a division by zero. */
  method ScorePrimary(records: seq<Record>, predictions: Predictions) returns (r: Option<Primary>)
    ensures r == if records == [] then None else Some(PrimaryOf(records, predictions))
  {
    var results: seq<FamilyResult> := [];
    var correct: nat := 0;
    for k := 0 to |records|
      invariant correct == Count(Outcomes(records[..k], predictions), Correct)
      invariant results == Families(records[..k], predictions)
    {
      var decoded := Decoded(records[k], predictions);
      var parsed := StrictParse(decoded);
      var isCorrect := parsed == Some(records[k].gold);
      OutcomesNext(records, k, predictions);
      CountNext(Outcomes(records[..k], predictions), OutcomeOf(records[k], predictions), Correct);
      if isCorrect {
        correct := correct + 1;
      }
      FamiliesNext(records, k, predictions);
      results := results + [FamilyResult(records[k], decoded, parsed, isCorrect)];
    }
    assert records[..|records|] == records;
    var total := |records|;
    if total == 0 {
      return None;
    }
    r := Some(Primary(total, correct, correct as real / total as real, results));
  }

  lemma FamiliesNext(records: seq<Record>, k: nat, predictions: Predictions)
    requires k < |records|
    ensures Families(records[..k + 1], predictions)
        == Families(records[..k], predictions) + [FamilyOf(records[k], predictions)]
  {
  }

  lemma OutcomesNext(records: seq<Record>, k: nat, predictions: Predictions)
    requires k < |records|
    ensures Outcomes(records[..k + 1], predictions)
        == Outcomes(records[..k], predictions) + [OutcomeOf(records[k], predictions)]
  {
  }

  // ----- Safety counts

  datatype CaseResult = CaseResult(record: Record, decoded: string, parsed: Option<Label>, exactError: bool)

  datatype Safety = Safety(
    caseCount: nat, exactErrors: nat, spuriousRemovals: nat, validRejections: nat, notApplicable: nat, malformed: nat,
    perCase: seq<CaseResult>)

  /** The five counts, as the number of cases with each defect. */
  ghost predicate Tallies(outcomes: seq<Outcome>, exactErrors: nat, spurious: nat, rejections: nat, notApplicable: nat,
      malformed: nat)
  {
    && exactErrors == Count(outcomes, ExactError)
    && spurious == Count(outcomes, SpuriousRemoval)
    && rejections == Count(outcomes, ValidRejection)
    && notApplicable == Count(outcomes, NotApplicable)
    && malformed == Count(outcomes, Malformed)
  }

  lemma TalliesNext(s: seq<Outcome>, o: Outcome, e: nat, r: nat, v: nat, n: nat, m: nat)
    requires Tallies(s, e, r, v, n, m)
    ensures Tallies(s + [o],
      e + (if ExactError(o) then 1 else 0),
      r + (if SpuriousRemoval(o) then 1 else 0), v + (if ValidRejection(o) then 1 else 0),
      n + (if NotApplicable(o) then 1 else 0), m + (if Malformed(o) then 1 else 0))
  {
    CountNext(s, o, ExactError);
    CountNext(s, o, SpuriousRemoval);
    CountNext(s, o, ValidRejection);
    CountNext(s, o, NotApplicable);
    CountNext(s, o, Malformed);
  }

  function CaseOf(r: Record, predictions: Predictions): CaseResult {
    CaseResult(r, Decoded(r, predictions), OutcomeOf(r, predictions).parsed, ExactError(OutcomeOf(r, predictions)))
  }

  function Cases(records: seq<Record>, predictions: Predictions): seq<CaseResult> {
    seq(|records|, i requires 0 <= i < |records| => CaseOf(records[i], predictions))
  }

  lemma CasesNext(records: seq<Record>, k: nat, predictions: Predictions)
    requires k < |records|
    ensures Cases(records[..k + 1], predictions) == Cases(records[..k], predictions) + [CaseOf(records[k], predictions)]
  {
  }

  method ScoreSafety(records: seq<Record>, predictions: Predictions) returns (s: Safety)
    ensures s.caseCount == |records|
    ensures Tallies(Outcomes(records, predictions),
                    s.exactErrors, s.spuriousRemovals, s.validRejections, s.notApplicable, s.malformed)
    ensures s.perCase == Cases(records, predictions)
  {
    var exactErrors: nat, spurious: nat, rejections: nat, notApplicable: nat, malformed: nat := 0, 0, 0, 0, 0;
    var cases: seq<CaseResult> := [];
    TalliesNone();
    assert Outcomes(records[..0], predictions) == [];
    for k := 0 to |records|
      invariant Tallies(Outcomes(records[..k], predictions),
                        exactErrors, spurious, rejections, notApplicable, malformed)
      invariant cases == Cases(records[..k], predictions)
    {
      var gold := records[k].gold;
      var decoded := Decoded(records[k], predictions);
      var parsed := StrictParse(decoded);
      OutcomesNext(records, k, predictions);
      TalliesNext(Outcomes(records[..k], predictions), OutcomeOf(records[k], predictions), exactErrors, spurious,
        rejections, notApplicable, malformed);
      var exactError := parsed != Some(gold);
      if exactError {
        exactErrors := exactErrors + 1;
      }
      if parsed.None? {
        malformed := malformed + 1;
      } else if parsed.value == NOT_APPLICABLE {
        notApplicable := notApplicable + 1;
      } else if parsed.value in BASIS && gold in BASIS {
        if gold !in REMOVAL && parsed.value in REMOVAL {
          spurious := spurious + 1;
        }
        if gold in SURVIVAL && parsed.value !in SURVIVAL {
          rejections := rejections + 1;
        }
      }
      CasesNext(records, k, predictions);
      cases := cases + [CaseResult(records[k], decoded, parsed, exactError)];
    }
    assert records[..|records|] == records;
    s := Safety(|records|, exactErrors, spurious, rejections, notApplicable, malformed, cases);
  }

  lemma TalliesNone()
    ensures Tallies([], 0, 0, 0, 0, 0)
  {
    CountNone([], ExactError);
    CountNone([], SpuriousRemoval);
    CountNone([], ValidRejection);
    CountNone([], NotApplicable);
    CountNone([], Malformed);
  }

  // ----- Confusion matrix

  function Column(o: Outcome): Label {
    if o.parsed.Some? then o.parsed.value else MALFORMED
  }

  type Matrix = map<Label, map<Label, nat>>

  ghost function At(g: Label, p: Label): Outcome -> bool {
    (o: Outcome) => o.gold == g && Column(o) == p
  }

  predicate Complete(m: Matrix) {
    forall g, p :: g in CLASSES && p in CLASSES ==> g in m && p in m[g]
  }

  /** Every class has a row with a cell for every class, which counts its outcomes. */
  ghost predicate Tabulates(m: Matrix, outcomes: seq<Outcome>) {
    Complete(m) && forall g, p :: g in CLASSES && p in CLASSES ==> m[g][p] == Count(outcomes, At(g, p))
  }

  function Zeros(): Matrix {
    map g | g in CLASSES :: map p | p in CLASSES :: 0
  }

  lemma ZerosTabulate(records: seq<Record>, predictions: Predictions)
    ensures Tabulates(Zeros(), Outcomes(records[..0], predictions))
  {
    assert Outcomes(records[..0], predictions) == [];
    forall g, p
      ensures Count<Outcome>([], At(g, p)) == 0
    {
      CountNone([], At(g, p));
    }
  }

  lemma TabulatesNext(m: Matrix, s: seq<Outcome>, o: Outcome)
    requires Tabulates(m, s) && o.gold in CLASSES && Column(o) in CLASSES
    ensures Tabulates(m[o.gold := m[o.gold][Column(o) := m[o.gold][Column(o)] + 1]], s + [o])
  {
    forall g, p | g in CLASSES && p in CLASSES
      ensures Count(s + [o], At(g, p)) == m[g][p] + if o.gold == g && Column(o) == p then 1 else 0
    {
      CountNext(s, o, At(g, p));
    }
  }

  lemma ParsedIsClass(o: Outcome, r: Record, predictions: Predictions)
    requires o == OutcomeOf(r, predictions)
    ensures Column(o) in CLASSES
  {
    assert CLASSES[0] == NEITHER && CLASSES[1] == REMOVES_ONLY && CLASSES[2] == SURVIVES_ONLY;
    assert CLASSES[3] == BOTH && CLASSES[4] == NOT_APPLICABLE && CLASSES[5] == MALFORMED;
  }

  /** One record more: its cell is incremented. */
  method Tabulate(m: Matrix, records: seq<Record>, k: nat, predictions: Predictions) returns (n: Matrix)
    requires k < |records| && records[k].gold in CLASSES && Tabulates(m, Outcomes(records[..k], predictions))
    ensures Tabulates(n, Outcomes(records[..k + 1], predictions))
  {
    var gold := records[k].gold;
    var parsed := StrictParse(Decoded(records[k], predictions));
    var pred := if parsed.Some? then parsed.value else MALFORMED;
    ghost var o := OutcomeOf(records[k], predictions);
    OutcomesNext(records, k, predictions);
    ParsedIsClass(o, records[k], predictions);
    TabulatesNext(m, Outcomes(records[..k], predictions), o);
    n := m[gold := m[gold][pred := m[gold][pred] + 1]];
  }

  /** A gold label that is no class has no row. */
  method ConfusionMatrix(records: seq<Record>, predictions: Predictions) returns (r: Option<Matrix>)
    ensures r.None? <==> exists i :: 0 <= i < |records| && records[i].gold !in CLASSES
    ensures r.Some? ==> Tabulates(r.value, Outcomes(records, predictions))
  {
    var matrix := Zeros();
    ZerosTabulate(records, predictions);
    for k := 0 to |records|
      invariant forall i :: 0 <= i < k ==> records[i].gold in CLASSES
      invariant Tabulates(matrix, Outcomes(records[..k], predictions))
    {
      if records[k].gold !in CLASSES {
        return None;
      }
      matrix := Tabulate(matrix, records, k, predictions);
    }
    assert records[..|records|] == records;
    r := Some(matrix);
  }
}
