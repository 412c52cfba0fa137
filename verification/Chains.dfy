/** Positions of events in a log and in their entity's history, and histories
    chained by their digests. */
module Chains {
  import opened Options
  import opened Paths
  import opened Registry
  import opened Replay

  lemma HistoryNext(log: Log, e: Envelope, id: Id)
    ensures History(log + [e], id) == if e.body.entity == id then History(log, id) + [e] else History(log, id)
  {
    assert (log + [e])[..|log|] == log;
    assert History(log, id) + [] == History(log, id);
  }

  /** The events of an entity before a position are the first of its history,
      and the event there, if its own, is the next. */
  lemma HistoryAt(log: Log, i: nat, id: Id)
    requires i <= |log|
    ensures |History(log[..i], id)| <= |History(log, id)|
    ensures History(log, id)[..|History(log[..i], id)|] == History(log[..i], id)
    ensures i < |log| && log[i].body.entity == id ==>
      |History(log[..i], id)| < |History(log, id)| && History(log, id)[|History(log[..i], id)|] == log[i]
  {
    assert log == log[..i] + log[i..];
    HistoryConcat(log[..i], log[i..], id);
    if i < |log| {
      assert log[i..] == [log[i]] + log[i + 1..];
      HistoryConcat([log[i]], log[i + 1..], id);
      assert [log[i]][..0] == [];
    }
  }

  /** Where the event of an entity with a given number in its history stands. */
  function PositionOf(log: Log, id: Id, k: nat): (i: nat)
    requires k < |History(log, id)|
    ensures i < |log| && log[i].body.entity == id && |History(log[..i], id)| == k
  {
    var n := |log| - 1;
    if k < |History(log[..n], id)| then
      var i := PositionOf(log[..n], id, k);
      assert log[..n][..i] == log[..i];
      i
    else n
  }

  lemma {:induction false} SameShape(a: Log, b: Log, id: Id)
    requires |a| == |b| && forall i :: 0 <= i < |a| ==> a[i].body.entity == b[i].body.entity
    ensures |History(a, id)| == |History(b, id)|
  {
    if a != [] {
      SameShape(a[..|a| - 1], b[..|b| - 1], id);
    }
  }

  // ----- Numbered logs

  /** Every entity's events are numbered from one in log order. */
  ghost predicate Numbered(log: Log) {
    forall i: nat :: i < |log| ==> NumberedAt(log, i)
  }

  ghost predicate NumberedAt(log: Log, i: nat)
    requires i < |log|
  {
    log[i].body.sequence == |History(log[..i], log[i].body.entity)| + 1
  }

  lemma NumberedPrefix(log: Log, i: nat)
    requires Numbered(log) && i <= |log|
    ensures Numbered(log[..i])
  {
    forall k: nat | k < i
      ensures NumberedAt(log[..i], k)
    {
      assert NumberedAt(log, k) && log[..i][..k] == log[..k];
    }
  }

  /** The last event of an entity is numbered by how many it has. */
  lemma LastNumber(log: Log, id: Id) returns (p: nat)
    requires Numbered(log) && History(log, id) != []
    ensures p < |log| && log[p].body.entity == id
    ensures var own := History(log, id); log[p] == own[|own| - 1] && log[p].body.sequence == |own|
  {
    p := PositionOf(log, id, |History(log, id)| - 1);
    HistoryAt(log, p, id);
    assert NumberedAt(log, p);
  }

  /** Only the last event of an entity is numbered so. */
  lemma NumberPins(log: Log, j: nat, id: Id)
    requires Numbered(log) && j < |log| && log[j].body.entity == id && log[j].body.sequence >= |History(log, id)|
    ensures var own := History(log, id); own != [] && own[|own| - 1] == log[j]
  {
    var n := |History(log[..j], id)|;
    assert log[j].body.sequence == n + 1 by { assert NumberedAt(log, j); }
    HistoryAt(log, j, id);
    assert n == |History(log, id)| - 1;
  }

  // ----- Sealed logs

  /** The event carries its own digest, its number, and the digest of its entity's event before. */
  ghost predicate SealedAt(log: Log, i: nat)
    requires i < |log|
  {
    var own := History(log[..i], log[i].body.entity);
    && log[i].digest == Some(OfEvent(log[i].body))
    && log[i].body.sequence == |own| + 1
    && log[i].body.previous == if own == [] then None else own[|own| - 1].digest
  }

  ghost predicate Sealed(log: Log) {
    forall i: nat :: i < |log| ==> SealedAt(log, i)
  }

  ghost predicate Linked(h: Log) {
    forall k: nat :: k < |h| ==> LinkAt(h, k)
  }

  ghost predicate LinkAt(h: Log, k: nat)
    requires k < |h|
  {
    && h[k].digest == Some(OfEvent(h[k].body)) && h[k].body.sequence == k + 1
    && h[k].body.previous == if k == 0 then None else h[k - 1].digest
  }

  lemma HistoryLinked(log: Log, id: Id)
    requires Sealed(log)
    ensures Linked(History(log, id))
  {
    var h := History(log, id);
    forall k: nat | k < |h|
      ensures LinkAt(h, k)
    {
      var i := PositionOf(log, id, k);
      HistoryAt(log, i, id);
      assert SealedAt(log, i);
      if k > 0 {
        assert h[..k][k - 1] == h[k - 1];
      }
    }
  }

  lemma {:induction false} LinkPins(h: Log, r: Log, k: nat)
    requires Linked(h) && Linked(r) && k < |h| && k < |r| && h[k].digest == r[k].digest
    ensures h[..k + 1] == r[..k + 1]
  {
    assert LinkAt(h, k) && LinkAt(r, k);
    if k > 0 {
      assert LinkAt(h, k - 1) && LinkAt(r, k - 1);
      LinkPins(h, r, k - 1);
    }
    assert h[..k + 1] == h[..k] + [h[k]] && r[..k + 1] == r[..k] + [r[k]];
  }

  /** The digest of its last event determines a linked history. */
  lemma LastPins(h: Log, r: Log)
    requires Linked(h) && Linked(r) && (h == [] <==> r == [])
    requires h != [] ==> h[|h| - 1].digest == r[|r| - 1].digest
    ensures h == r
  {
    if h != [] {
      assert LinkAt(h, |h| - 1) && LinkAt(r, |r| - 1);
      LinkPins(h, r, |h| - 1);
      assert h[..|h|] == h && r[..|r|] == r;
    }
  }
}
