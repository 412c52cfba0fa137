/** The public trace that accompanies a proposed transition. */
module Traces {
  import opened Text
  import opened Kernel

  datatype Trace = Trace(
    kind: string,
    invalidated: seq<string>,
    preserved: seq<string>,
    removed: seq<string>,
    surviving: seq<string>,
    previousSource: string,
    resultingSource: string,
    previousAssurance: string,
    resultingAssurance: string,
    forbidden: seq<string>,
    rules: seq<string>,
    next: string)

  const CHANGE_RULES: seq<string> := ["INV-11", "INV-12", "INV-13", "INV-14", "INV-15", "INV-16", "SYM-01"]
  const REASSESS_RULES: seq<string> :=
    ["INV-18", "INV-19", "G-INV-06", "G-INV-09", "G-INV-10", "G-INV-11", "R-INV-03"]
  const RETIRE_RULES: seq<string> := ["INV-04", "INV-19", "G-INV-11", "G-INV-12", "G-INV-13"]

  function EvidenceIds(evidence: seq<Evidence>): (r: seq<string>)
    ensures forall id :: id in r <==> exists x :: x in evidence && x.id == id
  {
    if evidence == [] then []
    else
      assert evidence == evidence[..|evidence| - 1] + [evidence[|evidence| - 1]];
      EvidenceIds(evidence[..|evidence| - 1]) + [evidence[|evidence| - 1].id]
  }

  function CurrentEvidence(evidence: seq<Evidence>): (r: seq<Evidence>)
    ensures forall x :: x in r <==> x in evidence && Current(x)
  {
    if evidence == [] then []
    else
      var last := evidence[|evidence| - 1];
      assert evidence == evidence[..|evidence| - 1] + [last];
      CurrentEvidence(evidence[..|evidence| - 1]) + if Current(last) then [last] else []
  }

  function ChangeTrace(before: ControlState, after: ControlState, invalidated: set<string>): Trace {
    Trace("DependencyChange", SortedSet(invalidated), Sorted(EvidenceIds(CurrentEvidence(after.evidence))),
          SortedSet(before.currentSource + before.currentVerdict - after.currentSource - after.currentVerdict),
          SortedSet(CurrentIds(after)),
          SourceValue(before.source), SourceValue(after.source),
          AssuranceValue(before.assurance), AssuranceValue(after.assurance),
          ["replacement substantive state or verdict"], CHANGE_RULES,
          if after.source == SOURCE_UNKNOWN || after.assurance == STALE
          then "governed reassessment with new evidence and new approved basis"
          else "none required for surviving current claims")
  }

  function ReassessTrace(before: ControlState, after: ControlState): Trace {
    Trace("Reassess", [], SortedSet(EvidenceById(before.evidence).Keys), [], SortedSet(CurrentIds(after)),
          SourceValue(before.source), SourceValue(after.source),
          AssuranceValue(before.assurance), AssuranceValue(after.assurance),
          [], REASSESS_RULES, "publish the new current view while retaining superseded history")
  }

  function RetireTrace(before: ControlState, after: ControlState): Trace {
    Trace("RetireControl", [], Sorted(EvidenceIds(before.evidence)), SortedSet(CurrentIds(before)), [],
          SourceValue(before.source), SourceValue(after.source),
          AssuranceValue(before.assurance), AssuranceValue(after.assurance),
          [], RETIRE_RULES, "none unless the obligation is reintroduced through governance")
  }
}
