/** What the scores of the E2 and E3 experiments mean, and how the two safety gates relate. */
module ScoringExact {
  import opened Options
  import opened Scoring

  // ----- Counting

  lemma {:induction false} CountAll<T(!new)>(s: seq<T>, p: T -> bool)
    ensures Count(s, p) <= |s|
    ensures Count(s, p) == |s| <==> forall i :: 0 <= i < |s| ==> p(s[i])
  {
    if s == [] {
      CountNone(s, p);
    } else {
      var last, rest := s[|s| - 1], s[..|s| - 1];
      assert s == rest + [last];
      CountAll(rest, p);
      CountNext(rest, last, p);
    }
  }

  // ----- The confusion matrix

  /** A record whose label is the name of the malformed column and whose answer is malformed. */
  predicate LabelledMalformed(o: Outcome) { o.gold == MALFORMED && o.parsed.None? }

  ghost predicate GoldsKnown(s: seq<Outcome>) {
    forall i :: 0 <= i < |s| ==> !s[i].gold.OTHER? && s[i].parsed != Some(MALFORMED)
  }

  ghost function OnDiagonal(s: seq<Outcome>): nat {
    Count(s, At(NEITHER, NEITHER)) + Count(s, At(REMOVES_ONLY, REMOVES_ONLY))
    + Count(s, At(SURVIVES_ONLY, SURVIVES_ONLY))
    + Count(s, At(BOTH, BOTH)) + Count(s, At(NOT_APPLICABLE, NOT_APPLICABLE)) + Count(s, At(MALFORMED, MALFORMED))
  }

  lemma OnDiagonalNext(s: seq<Outcome>, o: Outcome)
    requires !o.gold.OTHER?
    ensures OnDiagonal(s + [o]) == OnDiagonal(s) + if o.gold == Column(o) then 1 else 0
  {
    forall c
      ensures Count(s + [o], At(c, c)) == Count(s, At(c, c)) + if o.gold == c && Column(o) == c then 1 else 0
    {
      CountNext(s, o, At(c, c));
    }
  }

  lemma {:induction false} DiagonalCounts(s: seq<Outcome>)
    requires GoldsKnown(s)
    ensures OnDiagonal(s) == Count(s, Correct) + Count(s, LabelledMalformed)
  {
    if s == [] {
      CountNone(s, Correct);
      CountNone(s, LabelledMalformed);
      forall c
        ensures Count(s, At(c, c)) == 0
      {
        CountNone(s, At(c, c));
      }
    } else {
      var last, rest := s[|s| - 1], s[..|s| - 1];
      assert s == rest + [last];
      DiagonalCounts(rest);
      OnDiagonalNext(rest, last);
      CountNext(rest, last, Correct);
      CountNext(rest, last, LabelledMalformed);
    }
  }

  lemma ClassesListed()
    ensures forall c :: c in CLASSES <==> !c.OTHER?
  {
    assert CLASSES[0] == NEITHER && CLASSES[1] == REMOVES_ONLY && CLASSES[2] == SURVIVES_ONLY;
    assert CLASSES[3] == BOTH && CLASSES[4] == NOT_APPLICABLE && CLASSES[5] == MALFORMED;
  }

  function Diagonal(m: Matrix): nat
    requires Complete(m)
  {
    ClassesListed();
    assert NEITHER in CLASSES && REMOVES_ONLY in CLASSES && SURVIVES_ONLY in CLASSES;
    assert BOTH in CLASSES && NOT_APPLICABLE in CLASSES && MALFORMED in CLASSES;
    m[NEITHER][NEITHER] + m[REMOVES_ONLY][REMOVES_ONLY] + m[SURVIVES_ONLY][SURVIVES_ONLY] + m[BOTH][BOTH]
    + m[NOT_APPLICABLE][NOT_APPLICABLE] + m[MALFORMED][MALFORMED]
  }

  /** The diagonal of the matrix counts the correct answers, and with them the
      malformed answers to records that are labelled malformed. It equals the
      correct count exactly when there are none of the latter. */
  lemma DiagonalExact(records: seq<Record>, predictions: Predictions, m: Matrix)
    requires forall i :: 0 <= i < |records| ==> records[i].gold in CLASSES
    requires Tabulates(m, Outcomes(records, predictions))
    ensures var s := Outcomes(records, predictions);
            && Diagonal(m) == Count(s, Correct) + Count(s, LabelledMalformed)
            && (Diagonal(m) == Count(s, Correct) <==> forall i :: 0 <= i < |s| ==> !LabelledMalformed(s[i]))
  {
    ClassesListed();
    var s := Outcomes(records, predictions);
    DiagonalCounts(s);
    CountNone(s, LabelledMalformed);
  }

  /** A record labelled malformed and left unanswered is on the diagonal, and is not correct. */
  lemma DiagonalCanExceed() returns (records: seq<Record>, predictions: Predictions)
    ensures forall i :: 0 <= i < |records| ==> records[i].gold in CLASSES
    ensures forall m :: Tabulates(m, Outcomes(records, predictions)) ==>
      Diagonal(m) > Count(Outcomes(records, predictions), Correct)
  {
    records, predictions := [Record("r", MALFORMED)], map[];
    ClassesListed();
    var s := Outcomes(records, predictions);
    assert LabelledMalformed(s[0]);
    CountNone(s, LabelledMalformed);
    forall m | Tabulates(m, s)
      ensures Diagonal(m) > Count(s, Correct)
    {
      DiagonalExact(records, predictions, m);
    }
  }

  // ----- The bound on the safety counts

  ghost predicate Bounded(s: seq<Outcome>) {
    && Count(s, Malformed) + Count(s, NotApplicable) + Count(s, SpuriousRemoval) <= Count(s, ExactError)
    && Count(s, Malformed) + Count(s, NotApplicable) + Count(s, ValidRejection) <= Count(s, ExactError)
  }

  lemma {:induction false} SafetyBound(s: seq<Outcome>)
    requires forall i :: 0 <= i < |s| ==> s[i].gold != NOT_APPLICABLE
    ensures Bounded(s)
  {
    if s == [] {
      TalliesNone();
    } else {
      var last, rest := s[|s| - 1], s[..|s| - 1];
      assert s == rest + [last];
      SafetyBound(rest);
      CountNext(rest, last, Malformed);
      CountNext(rest, last, NotApplicable);
      CountNext(rest, last, SpuriousRemoval);
      CountNext(rest, last, ValidRejection);
      CountNext(rest, last, ExactError);
    }
  }

  /** The bound holds for whatever is predicted exactly when no case is labelled
      as not applicable. */
  lemma SafetyBoundExact(records: seq<Record>)
    ensures (forall predictions :: Bounded(Outcomes(records, predictions)))
       <==> forall i :: 0 <= i < |records| ==> records[i].gold != NOT_APPLICABLE
  {
    if forall i :: 0 <= i < |records| ==> records[i].gold != NOT_APPLICABLE {
      forall predictions
        ensures Bounded(Outcomes(records, predictions))
      {
        SafetyBound(Outcomes(records, predictions));
      }
    } else {
      var predictions: Predictions := map id | id in Ids(records) :: Some("E");
      var s := Outcomes(records, predictions);
      forall i | 0 <= i < |records|
        ensures NotApplicable(s[i]) && (ExactError(s[i]) <==> records[i].gold != NOT_APPLICABLE)
      {
        assert records[i].id in Ids(records);
      }
      CountAll(s, NotApplicable);
      CountAll(s, ExactError);
      assert !Bounded(s);
    }
  }

  function Ids(records: seq<Record>): set<string> {
    set r | r in records :: r.id
  }
}
