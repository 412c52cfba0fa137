/** What the receipts of an admission depend on: each entity's own history, and
    not the order in which the entities' events were interleaved. */
module Interleaving {
  import opened Options
  import opened Text
  import opened Paths
  import opened Registry
  import opened Replay
  import opened AdmissionWalk
  import opened Finalize

  /** Two logs tell every entity the same history. */
  ghost predicate SameHistories(a: Log, b: Log) {
    forall id :: History(a, id) == History(b, id)
  }

  lemma SameEntities(a: Log, b: Log)
    requires SameHistories(a, b)
    ensures Entities(a) == Entities(b)
  {
    forall id
      ensures id in Entities(a) <==> id in Entities(b)
    {
      assert History(a, id) == History(b, id);
    }
  }

  lemma HeadNamesEntity(log: Log, id: Id)
    requires id in Heads(log)
    ensures Heads(log)[id].entity == id
  {
    var h := History(log, id);
    HistoryMembers(log, id);
    assert h[|h| - 1] in h;
  }

  /** Equal snapshot roots mean equal heads, and conversely. */
  lemma RootExact(a: Log, b: Log)
    ensures SnapshotRoot(a) == SnapshotRoot(b) <==> Heads(a) == Heads(b)
  {
    if HeadList(Heads(a)) == HeadList(Heads(b)) {
      SameHeads(a, b);
    }
  }

  lemma SameHeads(a: Log, b: Log)
    requires HeadList(Heads(a)) == HeadList(Heads(b))
    ensures Heads(a) == Heads(b)
  {
    HeadsIncluded(a, b);
    HeadsIncluded(b, a);
    SameMaps(Heads(a), Heads(b));
  }

  lemma SameMaps<T>(m: map<Id, T>, n: map<Id, T>)
    requires forall k :: k in m ==> k in n && m[k] == n[k]
    requires forall k :: k in n ==> k in m
    ensures m == n
  {
  }

  lemma HeadsIncluded(a: Log, b: Log)
    requires HeadList(Heads(a)) == HeadList(Heads(b))
    ensures forall id :: id in Heads(a) ==> id in Heads(b) && Heads(a)[id] == Heads(b)[id]
  {
    var p, q := SortedSet(Heads(a).Keys), SortedSet(Heads(b).Keys);
    forall id | id in Heads(a)
      ensures id in Heads(b) && Heads(a)[id] == Heads(b)[id]
    {
      var i :| 0 <= i < |p| && p[i] == id;
      assert HeadList(Heads(a))[i] == Heads(a)[id] && HeadList(Heads(b))[i] == Heads(b)[q[i]];
      HeadNamesEntity(a, id);
      HeadNamesEntity(b, q[i]);
    }
  }

  lemma {:induction false} FindConcat(a: Log, b: Log, id: Id, sequence: int)
    ensures FindEvent(a + b, id, sequence)
         == if FindEvent(a, id, sequence).Some? then FindEvent(a, id, sequence) else FindEvent(b, id, sequence)
  {
    if a == [] {
      assert a + b == b;
    } else {
      assert (a + b)[1..] == a[1..] + b;
      FindConcat(a[1..], b, id, sequence);
    }
  }

  lemma {:induction false} FindInHistory(log: Log, id: Id, sequence: int)
    ensures FindEvent(log, id, sequence) == FindEvent(History(log, id), id, sequence)
  {
    if log != [] {
      var init, e := log[..|log| - 1], log[|log| - 1];
      assert log == init + [e];
      FindInHistory(init, id, sequence);
      FindConcat(init, [e], id, sequence);
      if e.body.entity == id {
        FindConcat(History(init, id), [e], id, sequence);
      } else {
        assert History(log, id) == History(init, id);
        assert FindEvent([e], id, sequence) == None by { assert [e][1..] == []; }
      }
    }
  }

  lemma {:induction false} EarlierInHistory(log: Log, id: Id, sequence: int)
    ensures Earlier(log, id, sequence) == Earlier(History(log, id), id, sequence)
  {
    if log != [] {
      EarlierInHistory(log[..|log| - 1], id, sequence);
      var h := History(log, id);
      if log[|log| - 1].body.entity == id {
        assert h[..|h| - 1] == History(log[..|log| - 1], id);
      } else {
        assert h == History(log[..|log| - 1], id);
      }
    }
  }

  lemma SameRoot(a: Log, b: Log)
    requires SameHistories(a, b)
    ensures SnapshotRoot(a) == SnapshotRoot(b)
  {
    SameEntities(a, b);
    assert Heads(a) == Heads(b);
  }

  lemma SameAdmissionProjections(a: Log, b: Log)
    requires SameHistories(a, b)
    ensures AdmissionProjections(a) == AdmissionProjections(b)
  {
    SameEntities(a, b);
  }

  lemma SameProposal(a: Log, b: Log, e: EventBody)
    requires SameHistories(a, b)
    ensures ProposalFor(a, e) == ProposalFor(b, e)
  {
    FindInHistory(a, e.entity, e.sequence - 1);
    FindInHistory(b, e.entity, e.sequence - 1);
  }

  lemma SameAuthorization(cx: Context, a: Log, b: Log, e: EventBody, p: Envelope)
    requires SameHistories(a, b) && e.payload.Admit? && p.body.payload.Propose?
    ensures DependencyReceiptFor(cx, a, e, p) == DependencyReceiptFor(cx, b, e, p)
    ensures AuthorizationFor(cx, a, e, p) == AuthorizationFor(cx, b, e, p)
  {
    SameRoot(a, b);
    SameAdmissionProjections(a, b);
    EarlierInHistory(a, e.entity, e.sequence);
    EarlierInHistory(b, e.entity, e.sequence);
  }

  /** However the rebuilt events before an admission are interleaved, it binds the
      same receipts, the registry root included. */
  lemma ReceiptsIgnoreInterleaving(cx: Context, a: Log, b: Log, e: EventBody)
    requires SameHistories(a, b)
    ensures WithReceipts(cx, a, e) == WithReceipts(cx, b, e)
  {
    SameProposal(a, b, e);
    var p := ProposalFor(a, e);
    if p.Some? {
      SameAuthorization(cx, a, b, e, p.value);
    }
  }

  /** Governed admissions that bind equal receipts saw equal heads. */
  lemma ReceiptsRevealHeads(cx: Context, a: Log, b: Log, e: EventBody)
    requires ProposalFor(a, e).Some? && ProposalFor(b, e).Some?
    requires WithReceipts(cx, a, e).sourceReceipt == WithReceipts(cx, b, e).sourceReceipt
    ensures Heads(a) == Heads(b)
  {
    RootExact(a, b);
  }
}
