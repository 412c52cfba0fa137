# CSD Foundry: governance algorithms, verified

This project models the parts of CSD Foundry that decide things, and proves
what those decisions mean.

- **Assumption registry** (`Replay`, `UseWalk*`, `Walkers`, `AdmissionWalk`,
  `UsePermanence`, `UseDecision`, `Admissibility`, `SeparationOfDuty`,
  `Rebuilding`, `Finalize*`, `Chains`, `Interleaving*`, `AdmissionOrder`): event
  histories are replayed into projections; a depth-first walk with a stack, gates,
  cycle detection and an early stop decides which assumptions may be used; a second
  walk with another bookkeeping serves admissions; duties are separated; and the
  digest-chained log is rebuilt with every admission receipt derived anew.
- **Structural differences** (`Pointers`, `Differences*`, `Resolving`): two JSON
  trees are compared and every place where they part ways is named by a JSON
  Pointer (RFC 6901, sections 3 and 4).
- **Canonical form** (`Json`, `Canonical*`): schema-directed normalization of
  JSON values and the text of the normal form (RFC 8259).
- **Control-state kernel** (`Kernel`, `Verifier`, `KernelRuns`, `Revocation`,
  `Proposer`, `Reassessment*`, `Traces*`, `ProposedRuns`, `Mutations`): the
  fail-closed oracle, what holds along every run it accepts, which proposed
  transitions it accepts, what their traces tell, and which adversarial mutants
  its verifier kills.
- **Experiment scoring** (`Scoring*`, `SafetyGates`, `GatesExact`): the E2 and E3
  scores and how their two safety gates relate.

`Text`, `Paths`, `Sequences`, `Permutations` and `Options` hold what these share:
the string order and sorting, paths and cycles in graphs, sequences without
repeats, permutations, optional values.

Code that works step by step is a method with its loops, on a class where it
owns state (`Walker`, `AdmissionWalker`, `WorkCounters`, `DifferenceLog`), proved
against a recursive specification; the theorems are about the specification. The
normalizer, the gate and the three one-expression mutants are functions here, as
they are expressions there.

A SHA-256 digest is a value of a datatype with one constructor for each domain
and the payload as its argument, so equal digests mean equal payloads. JSON is a
tagged tree in which `true` and `1` differ. The oracle takes the proposed state
as a parameter: what is proved of accepted runs holds whatever proposes them.
The kernel's own proposals are modelled besides, and related to the checks.

## Where a claim is conditional

Six statements one would expect are false of the code as it stands; each is
proved with the exact condition under which it holds.

- The reported code says "allowed" for an inadmissible decision when a pinned
  receipt withholds permission and itself carries the allowed code
  (`ReportAgreesExactly`, with `MisleadingMisreports`).
- Interleaving the same raw histories differently can change the rebuilt registry
  root: it is the same if and only if every governed admission has the same
  number of events of each entity before it (`InterleavingRootExact`, with
  `AdmissionOrderMatters`).
- A reassessment the kernel proposes can be rejected by the verifier
  (`ReassessAcceptedExact`, with `UnacceptableIsProposed`).
- The trace of a reassessment names no reference as removed, also when it drops
  some (`TraceExact`, with `DroppedUnnamed`).
- The diagonal of the confusion matrix exceeds the correct count when a record
  labelled `MALFORMED` is answered by a malformed text (`DiagonalExact`,
  with `DiagonalCanExceed`).
- The bound on the safety counts fails when a clean case is labelled
  `NOT_APPLICABLE` (`SafetyBoundExact`). So does the relation of the two gates,
  for `HARMFUL` if the cases can all be answered by their labels (`HarmfulExact`,
  with `GatesCanDisagree`), and for `PROMISING` if some primary record can be
  answered along with them (`PromisingExact`, with `PromiseCanBeHarm`).

## Model

| member | source | states |
|---|---|---|
| `UseWalkExact.WalkExact` | scripts/_build_assumption_v1_fixtures.py:1359-1443 | the use-time walk from a root terminates, and succeeds if and only if everything reachable from the root is present, passes its gate and lies on no cycle |
| `UseWalkExact.SuccessReportsClosure` | scripts/_build_assumption_v1_fixtures.py:1381-1443 | a successful walk lists exactly the nodes reachable from the root, without repeats and without the root, each with its own record, and has counted every edge leaving the root or a listed node |
| `UseWalkExact.FailureNamesDefect` | scripts/_build_assumption_v1_fixtures.py:1381-1428 | a failing walk names a real defect: a cycle witness that is a cycle reachable from the root, or a last record that is absent or stopped at its gate with that very code |
| `UseWalkExact.VisitAdvances` | scripts/_build_assumption_v1_fixtures.py:1381-1428 | what every single visit keeps: stack below it untouched, finished nodes closed and acyclic, records and edge counts of exactly the newly finished nodes, or a real defect |
| `Walkers.Walker.Dfs` | scripts/_build_assumption_v1_fixtures.py:1381-1428 | the recursive visit over the mutable stack, its index, the finished set and the failure flag computes the walk specification and restores the stack unless it fails |
| `Walkers.Walker.Explore` | scripts/_build_assumption_v1_fixtures.py:1395-1428 | the same for the part of the visit behind its first three tests, at a node neither on the stack nor finished |
| `Walkers.Walker.DfsAll` | scripts/_build_assumption_v1_fixtures.py:1420-1436 | the loops over a child list with their early stop compute the specification over all children |
| `Walkers.RunWalk` | scripts/_build_assumption_v1_fixtures.py:1359-1443 | the walk as run from one root equals the specification in records, edges, code and witness |
| `Paths.CanonicalWitnessIsCycle` | scripts/_build_assumption_v1_fixtures.py:1385-1391 | the witness of a simple cycle is a closed walk of the graph with a distinct interior that starts at its smallest node |
| `Paths.WitnessRotationInvariant` | scripts/_build_assumption_v1_fixtures.py:1832-1835 | a simple cycle is reported the same way wherever it is entered |
| `Paths.TopologicalAcyclic` | scripts/_build_assumption_v1_fixtures.py:1425-1428 | a node finished after all its dependencies lies on no cycle |
| `Replay.ProjectLog` | scripts/_build_assumption_v1_fixtures.py:1681-1746 | grouping by entity and replaying each group computes the projection of every entity that has an event, and of no other |
| `Replay.GroupByEntity` | scripts/_build_assumption_v1_fixtures.py:1685-1687 | the grouping loop gives each entity its own events in log order |
| `Replay.ReplayHistory` | scripts/_build_assumption_v1_fixtures.py:1689-1745 | the replay loop computes standing, open challenges, proposal, last digest, last sequence and length of one history |
| `Replay.ExtensionKeepsProposal` | scripts/_build_assumption_v1_fixtures.py:1699-1736 | extending a log without proposing an entity again leaves what it was proposed as, its dependencies included |
| `UsePermanence.StructureIsPermanent` | scripts/_build_assumption_v1_fixtures.py:1359-1443 | once a walk has succeeded, any registry that keeps the nodes it walked, their dependencies and their having been proposed, whatever else it changes, has the same closure under the root and can fail only with a gate code |
| `UsePermanence.ExtensionFailsOnlyAtGates` | scripts/_build_assumption_v1_fixtures.py:1681-1763 | the same over logs: after any extension that proposes none of the walked entities again, never a missing node and never a cycle |
| `UsePermanence.UsableExact` | scripts/_build_assumption_v1_fixtures.py:1359-1443 | a root is usable at a clock if and only if everything it is or reaches is present, active, unchallenged and proposed, no cycle is reachable, and the clock lies in the window of every such node |
| `UsePermanence.UsableExactlyInWindow` | scripts/_build_assumption_v1_fixtures.py:1749-1763 | with the history fixed, the usable clocks are exactly those from the latest start of the closure up to, excluding, the earliest expiry, and none if the closure is not sustained or that window is empty |
| `AdmissionWalk.AdmissionExact` | scripts/_build_assumption_v1_fixtures.py:555-593 | the admission traversal lists, once each, exactly the present nodes reachable without passing through the candidate or an absent node |
| `AdmissionWalk.WalksAgree` | scripts/_build_assumption_v1_fixtures.py:555-593 | whenever the use-time walk succeeds, the admission traversal over the same dependencies gives the same nodes in the same order |
| `UsePermanence.AdmissionSeesUseClosure` | scripts/_build_assumption_v1_fixtures.py:525-593 | on any log, both replays and both walks together: a successful use-time walk lists what an admission of the same candidate lists, in order |
| `AdmissionWalk.AdmissionWalker.Dfs` | scripts/_build_assumption_v1_fixtures.py:569-589 | the visit that never pops its index computes the discovery specification |
| `AdmissionWalk.AdmissionWalker.DfsAll` | scripts/_build_assumption_v1_fixtures.py:587-592 | the loops over a child list computes the discovery specification |
| `AdmissionWalk.AdmissionTraversal` | scripts/_build_assumption_v1_fixtures.py:555-593 | the whole traversal returns the records of the discovered nodes in discovery order |
| `AdmissionWalk.ProjectForAdmission` | scripts/_build_assumption_v1_fixtures.py:525-552 | the replay loop gives every entity its last sequence and digest and the dependencies of its last proposal |
| `UseDecision.AllowExact` | scripts/_build_assumption_v1_fixtures.py:1491-1639 | a required assumption is allowed if and only if its gate passes, its closure is sound and every evidence check over the closure passes; it then carries the allowed code |
| `UseDecision.EvaluateRoot` | scripts/_build_assumption_v1_fixtures.py:1491-1639 | the evaluation of one required assumption equals the specification; there is none when a gate compares the clock with the window of an assumption never proposed |
| `UseDecision.ProposedNeverRaises` | scripts/_build_assumption_v1_fixtures.py:1749-1763 | nothing raises where every active, unchallenged assumption was proposed |
| `UseDecision.EvidencePhase` | scripts/_build_assumption_v1_fixtures.py:1546-1612 | the two nested loops over owners and evidence stop at the first failing check and keep the evaluations before it |
| `UseDecision.OwnerPhase` | scripts/_build_assumption_v1_fixtures.py:1553-1612 | the inner loop over one owner, with its five ways to stop |
| `Admissibility.Decide` | scripts/_build_assumption_v1_fixtures.py:1446-1678 | the whole decision on a log: evaluations in the required order, counters in closed form, the reported code and first digest, and admissibility; none exactly when some evaluation raises |
| `Admissibility.EvaluateRequired` | scripts/_build_assumption_v1_fixtures.py:1491-1639 | the loop over required assumptions, sharing one set of counters, visits exactly the union of the closures looked at |
| `Admissibility.WorkCounters.CountNode` | scripts/_build_assumption_v1_fixtures.py:1474-1486 | a node is counted once, with its history and open challenges, however often it is met |
| `Admissibility.WorkCounters.CountEvaluation` | scripts/_build_assumption_v1_fixtures.py:1524-1534 | an evaluation counts the root and every traversed node |
| `Admissibility.TouchedExact` | scripts/_build_assumption_v1_fixtures.py:1474-1534 | the counted nodes are the union over the required assumptions of the nodes each evaluation looked at |
| `Admissibility.AdmissibleExact` | scripts/_build_assumption_v1_fixtures.py:1640-1640 | the decision is admissible if and only if every required assumption is |
| `Admissibility.DecisionIgnoresOrder` | scripts/_build_assumption_v1_fixtures.py:1474-1640 | permuting the required list changes neither a counter nor admissibility |
| `Admissibility.ReportedExact` | scripts/_build_assumption_v1_fixtures.py:1489-1640 | the reported code is that of the first evaluation denied under another code than the allowed one, and the reported digest that of the last known assumption denied up to there |
| `Admissibility.ReportTellsAdmissible` | scripts/_build_assumption_v1_fixtures.py:1489-1640 | for one decision, exactly when the reported code tells whether it is admissible |
| `Admissibility.ReportAgreesExactly` | scripts/_build_assumption_v1_fixtures.py:1489-1640 | the reported code tells admissibility for every log and required list on which a decision is reached if and only if the binding pins no well-formed receipt that withholds permission under the allowed code |
| `Admissibility.MisleadingMisreports` | scripts/_build_assumption_v1_fixtures.py:1609-1624 | any such receipt produces, on the log of one assumption proposed with that evidence and admitted, a decision reported as allowed that is not admissible |
| `Admissibility.MisleadingReceiptExists` | scripts/_build_assumption_v1_fixtures.py:1609-1612 | a concrete binding that pins such a receipt |
| `SeparationOfDuty.SelectGrant` | scripts/_build_assumption_v1_fixtures.py:706-739 | the grant loop finds none, the one, or an ambiguity |
| `SeparationOfDuty.EvaluateRule` | scripts/_build_assumption_v1_fixtures.py:820-869 | the loop over exceptions computes what one rule waives and leaves |
| `SeparationOfDuty.PriorRolesOf` | scripts/_build_assumption_v1_fixtures.py:782-800 | the loop over the history, up to the first later event, collects the roles the authority held |
| `SeparationOfDuty.DecideDuty` | scripts/_build_assumption_v1_fixtures.py:742-899 | the whole decision record, with its unions, digests and per-rule evaluations |
| `SeparationOfDuty.DecisionExact` | scripts/_build_assumption_v1_fixtures.py:742-899 | ALLOW if and only if exactly one grant applies and every conflicting prior role under every applicable rule is covered by an applicable exception |
| `SeparationOfDuty.ConflictsSplit` | scripts/_build_assumption_v1_fixtures.py:820-850 | each rule splits its conflicts disjointly into waived and remaining, and a conflict remains exactly when no applicable exception covers it |
| `SeparationOfDuty.TallyExact` | scripts/_build_assumption_v1_fixtures.py:820-868 | a role is in the union of conflicting, waived or remaining roles if and only if it is so under some applicable rule |
| `SeparationOfDuty.DecisionIgnoresOrder` | scripts/_build_assumption_v1_fixtures.py:706-899 | permuting grants, rules or exceptions changes neither the decision nor the roles it reports as conflicting, waived and remaining |
| `SeparationOfDuty.DecisionMonotone` | scripts/_build_assumption_v1_fixtures.py:742-899 | more exceptions and fewer rules never turn ALLOW into DENY, and conversely |
| `SeparationOfDuty.WaivedAndRemainingOverlap` | scripts/_build_assumption_v1_fixtures.py:866-868 | across rules the waived and the remaining roles of one decision can overlap: a concrete policy and the proposal whose admission is decided |
| `Finalize.ComputeSnapshotRoot` | scripts/_build_assumption_v1_fixtures.py:59-75 | the snapshot root is the digest of the sorted heads, one per entity |
| `Finalize.FinalizeAdmissionReceipts` | scripts/_build_assumption_v1_fixtures.py:985-1114 | the loop with its digest map and rebuilt list computes the rebuilt log, and is abandoned exactly when some rebuilt event is rejected by the event schema |
| `Finalize.BindReceipts` | scripts/_build_assumption_v1_fixtures.py:1034-1106 | an admission is given receipts exactly when its predecessor is a rebuilt proposal, otherwise it is left alone |
| `Finalize.Receipts` | scripts/_build_assumption_v1_fixtures.py:1044-1106 | both receipts of a governed admission, derived from the rebuilt events before it |
| `Finalize.DecideScopes` | scripts/_build_assumption_v1_fixtures.py:1070-1089 | one separation-of-duty decision for each scope in sorted order |
| `FinalizeExact.FinalizePrefixStable` | scripts/_build_assumption_v1_fixtures.py:985-1114 | finalizing a prefix gives the prefix of the finalized log |
| `FinalizeExact.FinalizeIdempotent` | scripts/_build_assumption_v1_fixtures.py:985-1114 | finalizing twice is finalizing once |
| `FinalizeExact.FinalizeFixpoints` | scripts/_build_assumption_v1_fixtures.py:985-1114 | finalization leaves a log alone if and only if every digest is right and every governed admission binds the receipts derived from the events before it; its result always is such a log |
| `FinalizeExact.FinalizeChain` | scripts/_build_assumption_v1_fixtures.py:1026-1033 | a well-chained log stays well chained, and a predecessor that does not name the claimed digest of the entity's event before is left as it was |
| `Rebuilding.PredecessorExact` | scripts/_build_assumption_v1_fixtures.py:1019-1033 | exactly when a predecessor is re-pointed, and to what |
| `Rebuilding.ContentsKept` | scripts/_build_assumption_v1_fixtures.py:1013-1114 | nothing but the predecessor and the receipts of admissions can change |
| `Interleaving.RootExact` | scripts/_build_assumption_v1_fixtures.py:59-75 | equal snapshot roots mean equal heads, and conversely |
| `Interleaving.ReceiptsIgnoreInterleaving` | scripts/_build_assumption_v1_fixtures.py:1043-1106 | an admission binds the same receipts however the rebuilt events before it are interleaved across entities |
| `Interleaving.ReceiptsRevealHeads` | scripts/_build_assumption_v1_fixtures.py:1052-1068 | admissions that bind equal receipts saw equal heads |
| `InterleavingExact.InterleavingRootExact` | scripts/_build_assumption_v1_fixtures.py:985-1114 | two interleavings of the same well-chained, consecutively numbered histories are rebuilt to the same registry root if and only if every governed admission has the same number of events of each entity before it in both |
| `InterleavingExact.EqualCutsSuffice` | scripts/_build_assumption_v1_fixtures.py:985-1114 | on any logs, chained or not, equal numbers before the governed admissions give equal rebuilt histories |
| `InterleavingExact.ProposalsInterleaveFreely` | scripts/_build_assumption_v1_fixtures.py:985-1114 | in particular, histories without admissions are rebuilt to the same registry root however they are interleaved |
| `InterleavingExact.EqualCutsNeeded` | scripts/_build_assumption_v1_fixtures.py:1052-1106 | equal roots reveal the rebuilt histories, through them the receipts, and through those the numbers of events before each governed admission |
| `InterleavingExact.RebuiltSealed` | scripts/_build_assumption_v1_fixtures.py:1019-1114 | a chained and numbered log is rebuilt to one in which every event carries its own digest and the digest of the event of its entity before |
| `InterleavingExact.RebuildsExactly` | scripts/_build_assumption_v1_fixtures.py:1107-1114 | a log is rebuilt, and not abandoned, if and only if every raw event meets the event schema, apart from receipts about to be derived and predecessors about to be re-pointed |
| `AdmissionOrder.AdmissionOrderMatters` | scripts/_build_assumption_v1_fixtures.py:985-1114 | two logs that both rebuild, are chained and numbered and tell the same histories, with different rebuilt roots: two admissions in either order |
| `Differences.DifferenceLog.CollectDifferences` | scripts/_build_alternative_model_v1_fixtures.py:134-159 | the mutually recursive object comparison appends to the shared lists exactly the differences of the specification |
| `Differences.DifferenceLog.CollectListDifferences` | scripts/_build_alternative_model_v1_fixtures.py:162-186 | the same for lists |
| `Differences.DifferenceLog.CollectValue` | scripts/_build_alternative_model_v1_fixtures.py:150-156 | the comparison of two values present at one place |
| `DifferencesExact.CompareExact` | scripts/_build_alternative_model_v1_fixtures.py:134-186 | a place is reported if and only if the two trees part ways there: both parents are containers of one kind, and one side is absent or the values are unequal and not containers of one kind |
| `DifferencesExact.EmptyExact` | scripts/_build_alternative_model_v1_fixtures.py:134-196 | nothing is reported if and only if the trees are strictly equal |
| `DifferencesExact.AgreeElsewhere` | scripts/_build_alternative_model_v1_fixtures.py:134-186 | a place that is not at or below a reported one agrees on both sides |
| `DifferencesExact.ReportsIncomparable` | scripts/_build_alternative_model_v1_fixtures.py:134-186 | no reported place lies below another |
| `DifferencesExact.CompareSymmetric` | scripts/_build_alternative_model_v1_fixtures.py:134-186 | swapping the trees reports the same differences |
| `DifferencesExact.SwapKeepsFindings` | scripts/_build_alternative_model_v1_fixtures.py:111-186 | swapping the trees appends the same pointers and the same families |
| `DifferencesExact.DifferencesDetermine` | scripts/_build_alternative_model_v1_fixtures.py:134-186 | a tree together with the reported places and the values there determines the other tree |
| `DifferencesExact.PointersDistinct` | scripts/_build_alternative_model_v1_fixtures.py:130-186 | distinct reported places have distinct pointers |
| `DifferencesExact.NoPathDropped` | scripts/_build_alternative_model_v1_fixtures.py:189-196 | collecting the pointers of one comparison into a set drops none |
| `DifferencesExact.ComputeDifferenceSet` | scripts/_build_alternative_model_v1_fixtures.py:189-196 | the sorted sets of families and pointers, one pointer for each difference, empty exactly for equal trees |
| `Pointers.EscapeRoundTrip` | scripts/_build_alternative_model_v1_fixtures.py:130-131 | unescaping in the order of section 4 of RFC 6901 undoes escaping, for every key |
| `Pointers.EscapedHasNoSlash` | scripts/_build_alternative_model_v1_fixtures.py:130-131 | an escaped key never contains the separator |
| `Resolving.ResolveReported` | scripts/_build_alternative_model_v1_fixtures.py:134-186 | a reported pointer, evaluated on either side as section 4 of RFC 6901 prescribes, gives what that side holds at the reported place, and nothing where it holds nothing |
| `Resolving.ResolvePresent` | scripts/_build_alternative_model_v1_fixtures.py:130-186 | every value in a tree is found again through its pointer |
| `Canonical.BuildOrderedKeys` | scripts/validate_contract_freeze_v0_5.py:45-51 | the key list as built: the schema version first, the others sorted |
| `CanonicalExact.CanonicalBytesExact` | scripts/validate_contract_freeze_v0_5.py:54-97 | two values that normalize have the same canonical text if and only if they are equal up to key order and up to permutation of SET and MULTISET arrays at any depth |
| `CanonicalExact.SameNormalExact` | scripts/validate_contract_freeze_v0_5.py:54-85 | the same for the normal forms |
| `CanonicalStable.NormalizeIdempotent` | scripts/validate_contract_freeze_v0_5.py:54-97 | a normal form normalizes to itself |
| `CanonicalExact.DuplicateExact` | scripts/validate_contract_freeze_v0_5.py:65-81 | a SET is refused for a duplicate if and only if two members at different positions are equivalent |
| `CanonicalDomain.NormalizesExact` | scripts/validate_contract_freeze_v0_5.py:54-85 | a value normalizes if and only if, at any depth, it holds no float or foreign value, no collection of an unknown kind and no SET with two equivalent members |
| `Json.EncodeInjective` | scripts/validate_contract_freeze_v0_5.py:88-97 | the compact JSON text (RFC 8259) of plain values is injective |
| `Verifier.CheckCurrentBases` | src/csd_foundry/kernel/invariants.py:52-74 | the loop over current bases finds exactly the unfounded and the outdated ones |
| `Verifier.CheckClaims` | src/csd_foundry/kernel/invariants.py:76-102 | the claim loops find exactly the bases of the wrong kind or claim |
| `Verifier.ValidateState` | src/csd_foundry/kernel/invariants.py:42-115 | the reported invariants are exactly those the state breaks |
| `Verifier.ValidateTransition` | src/csd_foundry/kernel/invariants.py:118-150 | the reported invariants are exactly those the transition breaks |
| `Verifier.ValidateDependencyChange` | src/csd_foundry/kernel/invariants.py:153-218 | the reported invariants are exactly those the post-state of the change breaks |
| `Verifier.EventOkExact` | src/csd_foundry/kernel/invariants.py:323-335 | no invariant is reported for an event if and only if the post-state is the one the event demands |
| `Verifier.ValidateReassess` | src/csd_foundry/kernel/invariants.py:221-288 | the reported invariants are exactly those the additions, the resulting claims and the resulting references break |
| `Verifier.ValidateRetirement` | src/csd_foundry/kernel/invariants.py:291-320 | the reported invariants are exactly those a post-state breaks that does not add the one evidence item and withdraw the rest |
| `Verifier.ValidateEventTransition` | src/csd_foundry/kernel/invariants.py:323-335 | the reported invariants of the core event at hand; a type error for any other event |
| `Verifier.Apply` | src/csd_foundry/kernel/oracle.py:40-56 | a proposed post-state is admitted if and only if the pre-state, the transition and its event pass every core check and the temporal checks pass; an unproposable event raises exactly on a valid pre-state; all else is refused |
| `KernelRuns.StateOkExact` | src/csd_foundry/kernel/invariants.py:42-115 | a state passes validation if and only if identities are distinct, every current reference is supported and claims what the state claims, and every claim has a reference |
| `KernelRuns.TransitionOkExact` | src/csd_foundry/kernel/invariants.py:118-150 | a transition passes if and only if the post-state is valid and the past is preserved |
| `KernelRuns.PastIsKept` | src/csd_foundry/kernel/oracle.py:40-56 | along every accepted run, whatever proposes the states: history only grows, evidence is never deleted or rewritten nor current again once it is not, and bases never change |
| `KernelRuns.LostSupportIsFinal` | src/csd_foundry/kernel/oracle.py:40-56 | a basis that has lost a member is never current again |
| `KernelRuns.DepartureIsFinal` | src/csd_foundry/kernel/invariants.py:183-288 | along runs of the core events a basis that leaves the current references of a kind never re-enters them |
| `KernelRuns.SourceNeedsFreshSupport` | src/csd_foundry/kernel/invariants.py:221-288 | moving the source to another substantive state takes a reassessment contributing an approved, never-used source basis that claims exactly that state and is supported by current evidence |
| `KernelRuns.VerdictNeedsFreshSupport` | src/csd_foundry/kernel/invariants.py:221-288 | the same for another substantive verdict, which also needs a current obligation |
| `Revocation.ChangesClosedForm` | src/csd_foundry/kernel/invariants.py:153-218 | after any accepted sequence of dependency changes the state is a closed form of the first state and the set of changed ids |
| `Revocation.ChangesConfluent` | src/csd_foundry/kernel/invariants.py:153-218 | two accepted sequences with the same set of ids end in the same view, whatever their order and repetitions |
| `Revocation.ChangeIsFunctional` | src/csd_foundry/kernel/invariants.py:153-218 | any two post-states accepted for one dependency change agree on all the checks pin |
| `Revocation.ChangeLeavesOpen` | src/csd_foundry/kernel/invariants.py:42-218 | the checks pin neither clock, profile, requests, heartbeat, the timing and profile of evidence nor what is appended to the history and, without an assurance, not the obligation |
| `Proposer.ProposeChange` | src/csd_foundry/kernel/transitions.py:56-143 | the loop that rebuilds the evidence, with what follows it, computes the proposed post-state and its trace |
| `Proposer.ChangeAccepted` | src/csd_foundry/kernel/transitions.py:56-143 | the proposed dependency change passes every core check from every valid state |
| `Proposer.RetirementSatisfiable` | src/csd_foundry/kernel/invariants.py:291-320 | a retirement has an accepted post-state if and only if its evidence id is new |
| `Proposer.RetireAccepted` | src/csd_foundry/kernel/transitions.py:248-286 | whatever retirement is proposed passes the core checks |
| `ReassessmentExact.ReassessAcceptedExact` | src/csd_foundry/kernel/transitions.py:146-245 | a proposed reassessment passes the core checks if and only if its new identities are distinct, its new references fit what will be claimed and every substantive claim is supported |
| `ReassessmentExact.UnacceptableIsProposed` | src/csd_foundry/kernel/transitions.py:146-245 | a concrete proposed reassessment that the core checks turn down |
| `ReassessmentExact.ReferencesExact` | src/csd_foundry/kernel/invariants.py:242-288 | the proposed references of one kind are the ones the verifier expects if and only if they fit |
| `Reassessment.ProposeReassess` | src/csd_foundry/kernel/transitions.py:146-245 | the proposal as executed, with its refusals in order and its loops over the new bases, equals the specification, and so does its trace |
| `TracesExact.TraceExact` | src/csd_foundry/kernel/transitions.py:113-286 | the trace of any core transition proposed from a valid state names exactly what survives and exactly the evidence that stops being current; it names exactly the references that leave if and only if no reassessment changes a claim that has references |
| `TracesExact.ChangeSplitsEvidence` | src/csd_foundry/kernel/transitions.py:113-120 | the trace of a dependency change splits the evidence current before it into the invalidated and the preserved |
| `TracesExact.DroppedUnnamed` | src/csd_foundry/kernel/transitions.py:226-245 | a concrete accepted reassessment that drops the only reference of a control while its trace names none as removed |
| `ProposedRuns.OracleExact` | src/csd_foundry/kernel/oracle.py:40-56 | the core checks turn down a core event the kernel can propose only in an unsound state or for an unacceptable reassessment |
| `ProposedRuns.RetirementIsFinal` | src/csd_foundry/kernel/transitions.py:56-286 | along runs whose post-states the kernel proposes, a retired control stays retired without an assurance, and the obligation changes only by retirement |
| `Mutations.ReactivateEvidence` | src/csd_foundry/synthesis/mutations.py:51-64 | the loop reactivates the first invalidated item, and is undefined exactly when there is none |
| `Mutations.Evaluate` | src/csd_foundry/synthesis/kill_matrix.py:20-36 | a mutant is killed if and only if some expected invariant is violated from the canonical state |
| `Mutations.OverwriteKilledExact` | src/csd_foundry/synthesis/mutations.py:67-69 | overwriting history is killed if and only if it has at least two entries |
| `Mutations.RetainKilledExact` | src/csd_foundry/synthesis/mutations.py:26-34 | retaining the references after an accepted dependency change is killed if and only if the change dropped a current basis |
| `Mutations.ReactivationKilled` | src/csd_foundry/synthesis/mutations.py:51-64 | reactivation, wherever defined on a valid state, is killed |
| `Mutations.PromoteKilledExact` | src/csd_foundry/synthesis/mutations.py:37-48 | promotion is killed if and only if the source is not connected, or the assurance is no pass while the obligation is current or a verdict basis is |
| `Mutations.RevocationIsGuarded` | src/csd_foundry/synthesis/mutations.py:26-64 | after a change that drops a current basis, the mutants that retain it or reactivate its evidence exist and are killed |
| `Scoring.ScorePrimary` | experiments/e3/run_e3_experiment.py:523-556 | the loop counts the correct answers and the accuracy is their share; without records there is none |
| `Scoring.ScoreSafety` | experiments/e3/run_e3_experiment.py:559-613 | the loop computes five counts, each the number of cases with that defect |
| `Scoring.ConfusionMatrix` | experiments/e3/run_e3_experiment.py:616-628 | every cell counts the records with that label and that answer; a label that is no class is refused |
| `ScoringExact.DiagonalExact` | experiments/e2/run_e2_experiment.py:540-552 | the diagonal equals the correct count if and only if no record labelled MALFORMED has a malformed answer |
| `ScoringExact.DiagonalCanExceed` | experiments/e3/run_e3_experiment.py:616-628 | a concrete record for which the diagonal exceeds the correct count |
| `ScoringExact.SafetyBoundExact` | experiments/e3/run_e3_experiment.py:559-613 | malformed plus not applicable plus the larger of the other two counts never exceeds the exact errors, whatever is predicted, if and only if no case is labelled NOT_APPLICABLE |
| `SafetyGates.SafetyNonregression` | experiments/e3/run_e3_experiment.py:631-653 | the gate holds if and only if none of the five counts exceeds that of either other arm, and the detail says why |
| `SafetyGates.ClassifyE3` | experiments/e3/run_e3_experiment.py:656-684 | the classification follows the truth table under the relative gate |
| `SafetyGates.ScoreArms` | experiments/e2/run_e2_experiment.py:577-604 | the three arms are scored on the same records, or the release fails |
| `GatesExact.HarmfulExact` | experiments/e3/run_e3_experiment.py:656-684 | on the same predictions E3 HARMFUL implies E2 HARMFUL, whatever is predicted, if and only if the clean cases cannot all be answered by their labels or none is labelled NOT_APPLICABLE |
| `GatesExact.PromisingExact` | experiments/e2/run_e2_experiment.py:555-574 | on the same predictions E2 PROMISING implies E3 PROMISING, whatever is predicted, if and only if no clean case is labelled NOT_APPLICABLE or no primary record can be answered rightly along with all the clean cases |
| `GatesExact.StrictImpliesRelative` | experiments/e3/run_e3_experiment.py:631-653 | an arm without an exact error passes the relative gate, outside those cases |
| `GatesExact.GatesCanDisagree` | experiments/e3/run_e3_experiment.py:631-653 | predictions E3 calls harmful and E2 does not: every case answered rightly, against a base model that answers nothing |
| `GatesExact.PromiseCanBeHarm` | experiments/e2/run_e2_experiment.py:555-574 | predictions E2 calls promising and E3 harmful: the cases and one primary record answered rightly, against models that answer nothing |

## Left out

- SHA-256 itself: collisions do not exist in the model.
- UTF-8: texts are sequences of characters; the order of their bytes is the order of their code points. Surrogates in JSON texts are not modelled.
- `str.lower` on the classified paths: lower case is taken of ASCII letters only, which is exact for the words searched for.
- Floats: the normalizer refuses them, and the accuracy of an arm is an exact quotient rather than its rounded float. A `Tree` holds no NaN, which the detector would report as different from itself, and no infinity.
- Python's recursion limit, which both walks and both JSON recursions can exceed.
- Values that are no JSON, schemas that are no objects, and dictionaries with keys that are no strings.
- The constant fields of an event envelope (schema version, registry type, phase, payload schema version): they are always as the event schema demands; of the payload the schema demands only that it is an object.
- The records of a walk that raises: the source has no result then, and neither has `EvaluateRoot`.
- Pinned receipts: a `null` code and an absent one are not told apart.
- The policy ledger: its first entry is a parameter; the challenge materiality of a decision is always absent for admissions, as in the source.
- Evidence eligibility decisions: their constant fields are collapsed into the evidence id and the clock.
- The order and the messages of violations and the sorted tuple of observed invariants: violations are invariant ids, observed ones a set.
- Temporal events, their proposals and their checks: one opaque verdict beside the core checks.
- Verifier.Apply: takes what is proposed and the verdicts of the temporal checks as parameters; which events cannot be proposed is modelled in `Proposer` and `Reassessment`.
- ProposedRuns.OracleExact: speaks of the core checks; the temporal checks around the same event are outside the statement, because temporal transitions are not modelled.
- ProposedRuns.RetirementIsFinal: covers runs of the three core events only, because temporal transitions are not modelled.
- Reassessment: the order of several reasons to refuse one reassessment is that of the source, but their texts are codes.
- Terminal absorption in the replays: the loops do not guard it, and neither does the model.
- Vector builders, manifests, the seed generator, compilers, preflights, training workers, platform locks and the command line.
