/** When the interleaving of a raw log reaches the log rebuilt from it. */
module InterleavingExact {
  import opened Options
  import opened Paths
  import opened Registry
  import opened Replay
  import opened Rebuilding
  import opened Chains
  import opened Finalize
  import opened FinalizeExact
  import opened Interleaving

  /** Both positions hold the event of one number in the history of one entity. */
  ghost predicate Matched(a: Log, i: nat, b: Log, j: nat) {
    && i < |a| && j < |b| && a[i].body.entity == b[j].body.entity
    && |History(a[..i], a[i].body.entity)| == |History(b[..j], a[i].body.entity)|
  }

  /** The admission at a position answers a proposal, so its receipts are derived. */
  predicate Governed(log: Log, i: nat)
    requires i < |log|
  {
    ProposalFor(log[..i], log[i].body).Some?
  }

  ghost predicate SameCounts(a: Log, b: Log) {
    forall id :: |History(a, id)| == |History(b, id)|
  }

  /** Every governed admission has the same number of events of each entity
      before it in both logs. */
  ghost predicate SameCuts(a: Log, b: Log) {
    forall i: nat, j: nat :: Matched(a, i, b, j) && Governed(a, i) ==> SameCounts(a[..i], b[..j])
  }

  // ----- One rebuilt event, as a function of the rebuilt history and the registry before it

  lemma RebuiltShape(cx: Context, log: Log, id: Id)
    ensures |History(Finalized(cx, log), id)| == |History(log, id)|
  {
    DerivationKeeps(cx);
    forall i | 0 <= i < |log|
      ensures log[i].body.entity == Finalized(cx, log)[i].body.entity
    {
      ContentsKept(Derivation(cx), log, i);
    }
    SameShape(log, Finalized(cx, log), id);
  }

  /** The predecessor an event is given, from its entity's own events before it. */
  function OwnPrevious(b: EventBody, own: Log, rebuilt: Log): Option<Digest>
    requires |own| == |rebuilt|
  {
    if own == [] then b.previous
    else
      var k := |own| - 1;
      if own[k].body.sequence != b.sequence - 1 then OwnPrevious(b, own[..k], rebuilt[..k])
      else if own[k].digest.Some? && b.previous == own[k].digest then rebuilt[k].digest
      else b.previous
  }

  lemma RepointedNext(digests: map<Key, (Option<Digest>, Digest)>, e: Envelope, x: EventBody, b: EventBody, own: Log,
      rebuilt: Log)
    requires |own| == |rebuilt| && Repointed(b, digests) == OwnPrevious(b, own, rebuilt)
    ensures Repointed(b, digests[KeyOf(e) := (e.digest, OfEvent(x))]) ==
      if e.body.entity == b.entity then OwnPrevious(b, own + [e], rebuilt + [Envelope(x, Some(OfEvent(x)))])
      else OwnPrevious(b, own, rebuilt)
  {
    assert (own + [e])[..|own|] == own && (rebuilt + [Envelope(x, Some(OfEvent(x)))])[..|own|] == rebuilt;
  }

  lemma {:induction false} RepointedOwn(cx: Context, log: Log, b: EventBody)
    ensures |History(Finalized(cx, log), b.entity)| == |History(log, b.entity)|
    ensures Repointed(b, RebuildAll(Derivation(cx), log).digests)
         == OwnPrevious(b, History(log, b.entity), History(Finalized(cx, log), b.entity))
  {
    RebuiltShape(cx, log, b.entity);
    if log != [] {
      var init, e := log[..|log| - 1], log[|log| - 1];
      assert log == init + [e];
      RepointedOwn(cx, init, b);
      var r := RebuildAll(Derivation(cx), init);
      var x := WithReceipts(cx, r.log, e.body.(previous := Repointed(e.body, r.digests)));
      RepointedNext(r.digests, e, x, b, History(init, b.entity), History(r.log, b.entity));
      HistoryNext(init, e, b.entity);
      HistoryNext(r.log, Envelope(x, Some(OfEvent(x))), b.entity);
      assert x.entity == e.body.entity;
    }
  }

  /** The event before its receipts are bound. */
  function Relinked(cx: Context, log: Log, i: nat): EventBody
    requires i < |log|
  {
    log[i].body.(previous := Repointed(log[i].body, RebuildAll(Derivation(cx), log[..i]).digests))
  }

  lemma RebuiltAt(cx: Context, log: Log, i: nat)
    requires i < |log|
    ensures var b := WithReceipts(cx, Finalized(cx, log[..i]), Relinked(cx, log, i));
            Finalized(cx, log)[i] == Envelope(b, Some(OfEvent(b)))
    ensures Finalized(cx, log[..i]) == Finalized(cx, log)[..i]
  {
    EventAt(Derivation(cx), log, i);
    PrefixStable(Derivation(cx), log, i);
  }

  /** Whether an admission is governed is read off the raw log. */
  lemma {:induction false} FindsAlike(a: Log, b: Log, id: Id, sequence: int)
    requires |a| == |b|
    requires forall i :: 0 <= i < |a| ==>
      KeyOf(a[i]) == KeyOf(b[i]) && a[i].body.payload.Propose? == b[i].body.payload.Propose?
    ensures var x, y := FindEvent(a, id, sequence), FindEvent(b, id, sequence);
            x.Some? == y.Some? && (x.Some? ==> x.value.body.payload.Propose? == y.value.body.payload.Propose?)
  {
    if a != [] {
      assert KeyOf(a[0]) == KeyOf(b[0]);
      FindsAlike(a[1..], b[1..], id, sequence);
    }
  }

  lemma GovernedRebuilt(cx: Context, log: Log, i: nat)
    requires i < |log|
    ensures Governed(log, i) <==> ProposalFor(Finalized(cx, log[..i]), Relinked(cx, log, i)).Some?
  {
    DerivationKeeps(cx);
    var before := log[..i];
    forall k | 0 <= k < i
      ensures KeyOf(before[k]) == KeyOf(Finalized(cx, before)[k])
      ensures before[k].body.payload.Propose? == Finalized(cx, before)[k].body.payload.Propose?
    {
      ContentsKept(Derivation(cx), before, k);
    }
    FindsAlike(before, Finalized(cx, before), log[i].body.entity, log[i].body.sequence - 1);
  }

  // ----- Equal cuts give equal rebuilt events

  /** `x` has equal rebuilt events at matching positions before `i` and `j`. */
  lemma {:induction false} SameRebuiltHistory(cx: Context, a: Log, b: Log, i: nat, j: nat, x: Id)
    requires SameHistories(a, b) && SameCuts(a, b) && i <= |a| && j <= |b|
    requires |History(a[..i], x)| == |History(b[..j], x)|
    ensures History(Finalized(cx, a[..i]), x) == History(Finalized(cx, b[..j]), x)
    decreases i, 0
  {
    var h, r := History(Finalized(cx, a[..i]), x), History(Finalized(cx, b[..j]), x);
    RebuiltShape(cx, a[..i], x);
    RebuiltShape(cx, b[..j], x);
    forall k | 0 <= k < |h|
      ensures h[k] == r[k]
    {
      var m, n := RebuiltPosition(cx, a, i, x, k), RebuiltPosition(cx, b, j, x, k);
      SameRebuilt(cx, a, b, m, n);
    }
  }

  /** Where the event stands that an entity's rebuilt history holds at `k`. */
  ghost function RebuiltPosition(cx: Context, log: Log, i: nat, x: Id, k: nat): (m: nat)
    requires i <= |log| && k < |History(Finalized(cx, log[..i]), x)|
    ensures m < i && log[m].body.entity == x && |History(log[..m], x)| == k
    ensures History(Finalized(cx, log[..i]), x)[k] == Finalized(cx, log)[m]
  {
    RebuiltShape(cx, log[..i], x);
    var m := PositionOf(log[..i], x, k);
    assert log[..i][..m] == log[..m];
    RebuiltHistoryAt(cx, log, i, m, x);
    m
  }

  lemma RebuiltHistoryAt(cx: Context, log: Log, i: nat, m: nat, x: Id)
    requires m < i <= |log| && log[m].body.entity == x
    ensures var k := |History(log[..m], x)|;
            k < |History(Finalized(cx, log[..i]), x)| && History(Finalized(cx, log[..i]), x)[k] == Finalized(cx, log)[m]
  {
    var out := Finalized(cx, log[..i]);
    FinalizePrefixStable(cx, log, i);
    FinalizePrefixStable(cx, log, m);
    assert out[..m] == Finalized(cx, log)[..m];
    RebuiltShape(cx, log[..m], x);
    DerivationKeeps(cx);
    ContentsKept(Derivation(cx), log, m);
    HistoryAt(out, m, x);
  }

  lemma {:induction false} SameRebuilt(cx: Context, a: Log, b: Log, i: nat, j: nat)
    requires SameHistories(a, b) && SameCuts(a, b) && Matched(a, i, b, j)
    ensures Finalized(cx, a)[i] == Finalized(cx, b)[j]
    decreases i, 1
  {
    var id := a[i].body.entity;
    HistoryAt(a, i, id);
    HistoryAt(b, j, id);
    assert History(a, id) == History(b, id);
    assert a[i] == b[j] && History(a[..i], id) == History(b[..j], id);
    RebuiltAt(cx, a, i);
    RebuiltAt(cx, b, j);
    SameRebuiltHistory(cx, a, b, i, j, id);
    RepointedOwn(cx, a[..i], a[i].body);
    RepointedOwn(cx, b[..j], a[i].body);
    assert Relinked(cx, a, i) == Relinked(cx, b, j);
    GovernedRebuilt(cx, a, i);
    GovernedRebuilt(cx, b, j);
    SameGovernance(a, b, i, j);
    if Governed(a, i) {
      forall x
        ensures History(Finalized(cx, a[..i]), x) == History(Finalized(cx, b[..j]), x)
      {
        assert SameCounts(a[..i], b[..j]);
        SameRebuiltHistory(cx, a, b, i, j, x);
      }
      ReceiptsIgnoreInterleaving(cx, Finalized(cx, a[..i]), Finalized(cx, b[..j]), Relinked(cx, a, i));
    }
  }

  lemma SameGovernance(a: Log, b: Log, i: nat, j: nat)
    requires i < |a| && j < |b| && a[i] == b[j]
    requires History(a[..i], a[i].body.entity) == History(b[..j], a[i].body.entity)
    ensures Governed(a, i) <==> Governed(b, j)
  {
    FindInHistory(a[..i], a[i].body.entity, a[i].body.sequence - 1);
    FindInHistory(b[..j], a[i].body.entity, a[i].body.sequence - 1);
  }

  /** Whatever the logs, chained or not: equal cuts give equal rebuilt histories,
      and so equal roots. */
  lemma EqualCutsSuffice(cx: Context, a: Log, b: Log)
    requires SameHistories(a, b) && SameCuts(a, b)
    ensures SameHistories(Finalized(cx, a), Finalized(cx, b))
    ensures SnapshotRoot(Finalized(cx, a)) == SnapshotRoot(Finalized(cx, b))
  {
    assert a[..|a|] == a && b[..|b|] == b;
    forall id
      ensures History(Finalized(cx, a), id) == History(Finalized(cx, b), id)
    {
      assert History(a, id) == History(b, id);
      SameRebuiltHistory(cx, a, b, |a|, |b|, id);
    }
    SameRoot(Finalized(cx, a), Finalized(cx, b));
  }

  ghost predicate NoAdmissions(log: Log) {
    forall e :: e in log ==> !e.body.payload.Admit?
  }

  /** In particular interleaving never reaches the root of a log without admissions. */
  lemma ProposalsInterleaveFreely(cx: Context, a: Log, b: Log)
    requires SameHistories(a, b) && NoAdmissions(a) && NoAdmissions(b)
    ensures SnapshotRoot(Finalized(cx, a)) == SnapshotRoot(Finalized(cx, b))
  {
    assert forall i: nat :: i < |a| ==> a[i] in a;
    EqualCutsSuffice(cx, a, b);
  }

  // ----- Equal roots need equal cuts

  /** In a chained and numbered log an event names its entity's own event before. */
  lemma NamesOwnBefore(log: Log, i: nat)
    requires WellChained(log) && Numbered(log) && i < |log|
    ensures var own := History(log[..i], log[i].body.entity);
            && log[i].body.previous == (if own == [] then None else own[|own| - 1].digest)
            && (own != [] ==> own[|own| - 1].digest.Some? && own[|own| - 1].body.sequence == log[i].body.sequence - 1)
  {
    assert LinkedAt(log, i) && NumberedAt(log, i);
    NumberedPrefix(log, i);
    LatestOwn(log[..i], log[i].body.entity);
  }

  lemma LatestOwn(before: Log, id: Id)
    requires Numbered(before) && forall i :: 0 <= i < |before| ==> before[i].digest.Some?
    ensures var own, j := History(before, id), Latest(before, (id, |History(before, id)|));
            && (own == [] <==> j.None?)
            && (own != [] ==>
              && before[j.value] == own[|own| - 1]
              && own[|own| - 1].body.sequence == |own| && own[|own| - 1].digest.Some?)
  {
    var own, k := History(before, id), (id, |History(before, id)|);
    forall m: nat | m < |before|
      ensures before[m].body.sequence >= 1
    {
      assert NumberedAt(before, m);
    }
    var j := Latest(before, k);
    if own != [] {
      var p := LastNumber(before, id);
      assert KeyOf(before[p]) == k;
      NumberPins(before, j.value, id);
    }
  }

  lemma RebuiltPrevious(cx: Context, log: Log, i: nat)
    requires WellChained(log) && Numbered(log) && i < |log|
    ensures var own := History(Finalized(cx, log[..i]), log[i].body.entity);
            Finalized(cx, log)[i].body.previous == if own == [] then None else own[|own| - 1].digest
  {
    RebuiltAt(cx, log, i);
    RepointedOwn(cx, log[..i], log[i].body);
    NamesOwnBefore(log, i);
  }

  lemma RebuiltNumber(cx: Context, log: Log, i: nat)
    requires Numbered(log) && i < |log|
    ensures var e := Finalized(cx, log)[i];
            && e.body.entity == log[i].body.entity
            && e.body.sequence == |History(Finalized(cx, log[..i]), log[i].body.entity)| + 1
    ensures Finalized(cx, log)[i].digest == Some(OfEvent(Finalized(cx, log)[i].body))
  {
    assert NumberedAt(log, i);
    RebuiltAt(cx, log, i);
    RebuiltShape(cx, log[..i], log[i].body.entity);
  }

  /** A chained and numbered log is rebuilt to a sealed one. */
  lemma RebuiltSealed(cx: Context, log: Log)
    requires WellChained(log) && Numbered(log)
    ensures Sealed(Finalized(cx, log))
  {
    var out := Finalized(cx, log);
    forall i: nat | i < |out|
      ensures SealedAt(out, i)
    {
      FinalizePrefixStable(cx, log, i);
      RebuiltNumber(cx, log, i);
      RebuiltPrevious(cx, log, i);
    }
  }

  lemma RebuiltNumbered(cx: Context, log: Log)
    requires Numbered(log)
    ensures Numbered(Finalized(cx, log))
  {
    var out := Finalized(cx, log);
    forall i: nat | i < |out|
      ensures NumberedAt(out, i)
    {
      FinalizePrefixStable(cx, log, i);
      RebuiltNumber(cx, log, i);
    }
  }

  lemma RootsRevealHeads(a: Log, b: Log, id: Id)
    requires SnapshotRoot(a) == SnapshotRoot(b)
    ensures History(a, id) != [] <==> History(b, id) != []
    ensures History(a, id) != [] ==> HeadOf(History(a, id)) == HeadOf(History(b, id))
  {
    RootExact(a, b);
    assert History(a, id) != [] <==> id in Heads(a);
    assert History(b, id) != [] <==> id in Heads(b);
  }

  /** Equal roots of sealed logs mean equal histories. */
  lemma RootsRevealHistories(a: Log, b: Log, id: Id)
    requires Sealed(a) && Sealed(b) && SnapshotRoot(a) == SnapshotRoot(b)
    ensures History(a, id) == History(b, id)
  {
    HistoryLinked(a, id);
    HistoryLinked(b, id);
    RootsRevealHeads(a, b, id);
    LastPins(History(a, id), History(b, id));
  }

  lemma RootsRevealNumbers(a: Log, b: Log, id: Id)
    requires Numbered(a) && Numbered(b) && SnapshotRoot(a) == SnapshotRoot(b)
    ensures |History(a, id)| == |History(b, id)|
  {
    RootExact(a, b);
    HeadNumber(a, id);
    HeadNumber(b, id);
  }

  /** Equal roots before two positions mean equal numbers of events there. */
  lemma RootsRevealCounts(cx: Context, a: Log, b: Log, i: nat, j: nat)
    requires Numbered(a) && Numbered(b) && i <= |a| && j <= |b|
    requires SnapshotRoot(Finalized(cx, a[..i])) == SnapshotRoot(Finalized(cx, b[..j]))
    ensures SameCounts(a[..i], b[..j])
  {
    NumberedPrefix(a, i);
    NumberedPrefix(b, j);
    RebuiltNumbered(cx, a[..i]);
    RebuiltNumbered(cx, b[..j]);
    forall id
      ensures |History(a[..i], id)| == |History(b[..j], id)|
    {
      RebuiltShape(cx, a[..i], id);
      RebuiltShape(cx, b[..j], id);
      RootsRevealNumbers(Finalized(cx, a[..i]), Finalized(cx, b[..j]), id);
    }
  }

  lemma HeadNumber(log: Log, id: Id)
    requires Numbered(log)
    ensures var heads := Heads(log); |History(log, id)| == if id in heads then heads[id].sequence else 0
  {
    if History(log, id) != [] {
      var p := LastNumber(log, id);
    }
  }

  lemma GovernedRoot(cx: Context, log: Log, i: nat)
    requires i < |log| && Governed(log, i)
    ensures var receipt := Finalized(cx, log)[i].body.sourceReceipt;
            receipt.OfDependencyReceipt? && receipt.receipt.registryRoot == SnapshotRoot(Finalized(cx, log[..i]))
  {
    RebuiltAt(cx, log, i);
    GovernedRebuilt(cx, log, i);
    var b := Relinked(cx, log, i);
    GovernedShape(cx, Finalized(cx, log[..i]), b, ProposalFor(Finalized(cx, log[..i]), b).value);
  }

  lemma EqualCutsNeeded(cx: Context, a: Log, b: Log)
    requires SameHistories(a, b) && WellChained(a) && Numbered(a) && WellChained(b) && Numbered(b)
    requires SnapshotRoot(Finalized(cx, a)) == SnapshotRoot(Finalized(cx, b))
    ensures SameCuts(a, b)
  {
    RebuiltSealed(cx, a);
    RebuiltSealed(cx, b);
    forall i: nat, j: nat | Matched(a, i, b, j) && Governed(a, i)
      ensures SameCounts(a[..i], b[..j])
    {
      var id := a[i].body.entity;
      HistoryAt(a, i, id);
      HistoryAt(b, j, id);
      assert History(a, id) == History(b, id);
      SameGovernance(a, b, i, j);
      RootsRevealHistories(Finalized(cx, a), Finalized(cx, b), id);
      RebuiltHistoryWhole(cx, a, i);
      RebuiltHistoryWhole(cx, b, j);
      GovernedRoot(cx, a, i);
      GovernedRoot(cx, b, j);
      RootsRevealCounts(cx, a, b, i, j);
    }
  }

  lemma RebuiltHistoryWhole(cx: Context, log: Log, i: nat)
    requires i < |log|
    ensures var id := log[i].body.entity; var k := |History(log[..i], id)|;
            k < |History(Finalized(cx, log), id)| && History(Finalized(cx, log), id)[k] == Finalized(cx, log)[i]
  {
    assert log[..|log|] == log;
    RebuiltHistoryAt(cx, log, |log|, i, log[i].body.entity);
  }

  /** Two interleavings of the same chained and numbered histories are rebuilt to
      the same registry root exactly when every governed admission has the same
      number of events of each entity before it in both. */
  lemma InterleavingRootExact(cx: Context, a: Log, b: Log)
    requires SameHistories(a, b) && WellChained(a) && Numbered(a) && WellChained(b) && Numbered(b)
    ensures SnapshotRoot(Finalized(cx, a)) == SnapshotRoot(Finalized(cx, b)) <==> SameCuts(a, b)
  {
    if SameCuts(a, b) {
      EqualCutsSuffice(cx, a, b);
    }
    if SnapshotRoot(Finalized(cx, a)) == SnapshotRoot(Finalized(cx, b)) {
      EqualCutsNeeded(cx, a, b);
    }
  }

  // ----- Which raw logs can be rebuilt

  /** What the schema demands of a raw event: a receipt that is about to be
      derived and a predecessor about to be re-pointed may have any form. */
  ghost predicate RawBuildable(log: Log, i: nat)
    requires i < |log|
  {
    var b := log[i].body;
    var j := Latest(log[..i], (b.entity, b.sequence - 1));
    && TokenText(b.entity) && b.sequence >= 1 && b.clock >= 1
    && (Governed(log, i) || DigestShaped(b.sourceReceipt))
    && (b.previous.Some? ==> DigestShaped(b.previous.value) || (j.Some? && b.previous == log[j.value].digest))
  }

  lemma BuildableAt(cx: Context, log: Log, i: nat)
    requires i < |log|
    ensures Buildable(Finalized(cx, log)[i].body) <==> RawBuildable(log, i)
  {
    DerivationKeeps(cx);
    RebuiltAt(cx, log, i);
    GovernedRebuilt(cx, log, i);
    PredecessorExact(Derivation(cx), log, i);
    ReceiptShaped(cx, Finalized(cx, log[..i]), Relinked(cx, log, i));
    var j := Latest(log[..i], (log[i].body.entity, log[i].body.sequence - 1));
    if j.Some? {
      RebuiltAt(cx, log, j.value);
    }
  }

  lemma ReceiptShaped(cx: Context, before: Log, b: EventBody)
    ensures DigestShaped(WithReceipts(cx, before, b).sourceReceipt)
      <==> ProposalFor(before, b).Some? || DigestShaped(b.sourceReceipt)
    ensures var r := WithReceipts(cx, before, b); r.entity == b.entity && r.sequence == b.sequence && r.clock == b.clock
  {
  }

  /** The log is rebuilt, and not abandoned, exactly when every raw event is so formed. */
  lemma RebuildsExactly(cx: Context, log: Log)
    ensures AllBuildable(Finalized(cx, log)) <==> forall i: nat :: i < |log| ==> RawBuildable(log, i)
  {
    var out := Finalized(cx, log);
    forall i: nat | i < |log|
      ensures out[i] in out && (Buildable(out[i].body) <==> RawBuildable(log, i))
    {
      BuildableAt(cx, log, i);
    }
  }
}
