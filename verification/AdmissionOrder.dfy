/** Admissions notice each other's order: two logs the finalization accepts. */
module AdmissionOrder {
  import opened Options
  import opened Paths
  import opened Registry
  import opened Replay
  import opened Chains
  import opened Rebuilding
  import opened Finalize
  import opened Interleaving
  import opened InterleavingExact

  lemma PlainDigestShaped()
    ensures DigestText(PlainDigest())
  {
    assert Unended(PlainDigest()) == PlainDigest();
    assert PlainDigest()[..7] == "sha256:";
  }

  function Proposes(id: Id): Envelope {
    var p := Proposal("control.connected", ["control"], "MATERIAL", "authority:proposer", 1, 1, None, [], [], [], "D2");
    Signed(EventBody(id, 1, None, 1, Literal(PlainDigest()), Propose(p)))
  }

  function Admits(id: Id): Envelope {
    Signed(EventBody(id, 2, Proposes(id).digest, 2, Literal(PlainDigest()),
      Admit("authority:admitter", Literal(PlainDigest()))))
  }

  function AdmittedInOrder(first: Id, second: Id): Log {
    [Proposes("x"), Proposes("y"), Admits(first), Admits(second)]
  }

  function Own(e: Envelope, id: Id): Log {
    if e.body.entity == id then [e] else []
  }

  lemma HistoryOfTwo(e: Envelope, f: Envelope, id: Id)
    ensures History([e], id) == Own(e, id) && History([e, f], id) == Own(e, id) + Own(f, id)
  {
    HistoryNext([], e, id);
    HistoryNext([e], f, id);
    assert [] + [e] == [e] && [e] + [f] == [e, f];
  }

  lemma HistoryOfThree(e: Envelope, f: Envelope, g: Envelope, id: Id)
    ensures History([e, f, g], id) == Own(e, id) + Own(f, id) + Own(g, id)
  {
    HistoryOfTwo(e, f, id);
    HistoryNext([e, f], g, id);
    assert [e, f] + [g] == [e, f, g];
  }

  lemma HistoryOfFour(e: Envelope, f: Envelope, g: Envelope, h: Envelope, id: Id)
    ensures History([e, f, g, h], id) == Own(e, id) + Own(f, id) + Own(g, id) + Own(h, id)
  {
    HistoryOfThree(e, f, g, id);
    HistoryNext([e, f, g], h, id);
    assert [e, f, g] + [h] == [e, f, g, h];
  }

  predicate BothOrders(first: Id, second: Id) {
    (first == "x" && second == "y") || (first == "y" && second == "x")
  }

  lemma Prefixes(first: Id, second: Id)
    ensures var log := AdmittedInOrder(first, second);
            && log[..0] == [] && log[..1] == [Proposes("x")] && log[..2] == [Proposes("x"), Proposes("y")]
            && log[..3] == [Proposes("x"), Proposes("y"), Admits(first)]
  {
  }

  lemma HistoryBefore(first: Id, second: Id, i: nat)
    requires BothOrders(first, second) && i < 4
    ensures var log := AdmittedInOrder(first, second);
            History(log[..i], log[i].body.entity) == if i < 2 then [] else [Proposes(log[i].body.entity)]
  {
    Prefixes(first, second);
    var id := AdmittedInOrder(first, second)[i].body.entity;
    HistoryOfTwo(Proposes("x"), Proposes("y"), id);
    HistoryOfThree(Proposes("x"), Proposes("y"), Admits(first), id);
  }

  lemma OrderNumbered(first: Id, second: Id)
    requires BothOrders(first, second)
    ensures Numbered(AdmittedInOrder(first, second))
  {
    var log := AdmittedInOrder(first, second);
    forall i: nat | i < |log|
      ensures NumberedAt(log, i)
    {
      HistoryBefore(first, second, i);
    }
  }

  lemma OrderChained(first: Id, second: Id)
    requires BothOrders(first, second)
    ensures WellChained(AdmittedInOrder(first, second))
  {
    var log := AdmittedInOrder(first, second);
    forall i | 0 <= i < |log|
      ensures log[i].digest.Some? && LinkedAt(log, i)
    {
      OrderLinked(first, second, i);
    }
  }

  lemma OrderLinked(first: Id, second: Id, i: nat)
    requires BothOrders(first, second) && i < 4
    ensures LinkedAt(AdmittedInOrder(first, second), i)
  {
    var log := AdmittedInOrder(first, second);
    OrderNumbered(first, second);
    HistoryBefore(first, second, i);
    NumberedPrefix(log, i);
    LatestOwn(log[..i], log[i].body.entity);
  }

  lemma OrderGoverned(first: Id, second: Id, i: nat)
    requires BothOrders(first, second) && 2 <= i < 4
    ensures Governed(AdmittedInOrder(first, second), i)
  {
    var log := AdmittedInOrder(first, second);
    var id := log[i].body.entity;
    HistoryBefore(first, second, i);
    FindInHistory(log[..i], id, 1);
  }

  lemma OrderRebuilds(cx: Context, first: Id, second: Id)
    requires BothOrders(first, second)
    ensures AllBuildable(Finalized(cx, AdmittedInOrder(first, second)))
  {
    var log := AdmittedInOrder(first, second);
    forall i: nat | i < |log|
      ensures RawBuildable(log, i)
    {
      OrderBuildable(first, second, i);
    }
    RebuildsExactly(cx, log);
  }

  lemma OrderBuildable(first: Id, second: Id, i: nat)
    requires BothOrders(first, second) && i < 4
    ensures RawBuildable(AdmittedInOrder(first, second), i)
  {
    OrderLinked(first, second, i);
    PlainDigestShaped();
    if i >= 2 { OrderGoverned(first, second, i); }
    NamesAreTokens();
  }

  lemma NamesAreTokens()
    ensures TokenText("x") && TokenText("y")
  {
  }

  /** Both orders are accepted, tell the same histories, are chained and
      numbered, and are rebuilt to different registry roots. */
  lemma AdmissionOrderMatters(cx: Context)
    ensures var a, b := AdmittedInOrder("x", "y"), AdmittedInOrder("y", "x");
            && SameHistories(a, b) && WellChained(a) && WellChained(b) && Numbered(a) && Numbered(b)
            && AllBuildable(Finalized(cx, a)) && AllBuildable(Finalized(cx, b))
            && SnapshotRoot(Finalized(cx, a)) != SnapshotRoot(Finalized(cx, b))
  {
    var a, b := AdmittedInOrder("x", "y"), AdmittedInOrder("y", "x");
    OrderRebuilds(cx, "x", "y");
    OrderRebuilds(cx, "y", "x");
    OrderChained("x", "y");
    OrderChained("y", "x");
    OrderNumbered("x", "y");
    OrderNumbered("y", "x");
    OrdersTellTheSame();
    OrdersCutApart();
    InterleavingRootExact(cx, a, b);
  }

  lemma OrdersTellTheSame()
    ensures SameHistories(AdmittedInOrder("x", "y"), AdmittedInOrder("y", "x"))
  {
    forall id
      ensures History(AdmittedInOrder("x", "y"), id) == History(AdmittedInOrder("y", "x"), id)
    {
      HistoryOfFour(Proposes("x"), Proposes("y"), Admits("x"), Admits("y"), id);
      HistoryOfFour(Proposes("x"), Proposes("y"), Admits("y"), Admits("x"), id);
    }
  }

  /** The admission of "x" has one event of "y" before it in one log and two in the other. */
  lemma OrdersCutApart()
    ensures !SameCuts(AdmittedInOrder("x", "y"), AdmittedInOrder("y", "x"))
  {
    HistoryBefore("x", "y", 2);
    HistoryBefore("y", "x", 3);
    OrderGoverned("x", "y", 2);
    OrdersCount();
    CutApart(AdmittedInOrder("x", "y"), 2, AdmittedInOrder("y", "x"), 3, "y");
  }

  lemma CutApart(a: Log, i: nat, b: Log, j: nat, id: Id)
    requires Matched(a, i, b, j) && Governed(a, i) && |History(a[..i], id)| != |History(b[..j], id)|
    ensures !SameCuts(a, b)
  {
    assert !SameCounts(a[..i], b[..j]);
  }

  lemma OrdersCount()
    ensures |History(AdmittedInOrder("x", "y")[..2], "y")| == 1
    ensures |History(AdmittedInOrder("y", "x")[..3], "y")| == 2
  {
    Prefixes("x", "y");
    Prefixes("y", "x");
    HistoryOfTwo(Proposes("x"), Proposes("y"), "y");
    HistoryOfThree(Proposes("x"), Proposes("y"), Admits("y"), "y");
  }
}
