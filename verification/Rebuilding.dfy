/** Rebuilding a log event by event: whatever is derived for an event from the
    rebuilt events before it, the per-entity digest chain is kept consistent. */
module Rebuilding {
  import opened Options
  import opened Paths
  import opened Registry
  import opened Replay

  /** What is derived for an event from the rebuilt events before it. */
  type Derive = (Log, EventBody) -> EventBody

  type Key = (Id, int)

  function KeyOf(e: Envelope): Key {
    (e.body.entity, e.body.sequence)
  }

  /** The rebuilt log, and each event's claimed and rebuilt digests. */
  datatype Rebuilt = Rebuilt(log: Log, digests: map<Key, (Option<Digest>, Digest)>)

  /** The predecessor, re-pointed if it named the claimed digest of the event before. */
  function Repointed(b: EventBody, digests: map<Key, (Option<Digest>, Digest)>): Option<Digest> {
    var k := (b.entity, b.sequence - 1);
    if k in digests && digests[k].0.Some? && b.previous == digests[k].0 && Some(digests[k].1) != digests[k].0
    then Some(digests[k].1) else b.previous
  }

  function Rebuild(derive: Derive, r: Rebuilt, e: Envelope): Rebuilt {
    var b := derive(r.log, e.body.(previous := Repointed(e.body, r.digests)));
    Rebuilt(r.log + [Envelope(b, Some(OfEvent(b)))], r.digests[KeyOf(e) := (e.digest, OfEvent(b))])
  }

  function RebuildAll(derive: Derive, log: Log): (r: Rebuilt)
    ensures |r.log| == |log|
  {
    if log == [] then Rebuilt([], map[]) else Rebuild(derive, RebuildAll(derive, log[..|log| - 1]), log[|log| - 1])
  }

  function Output(derive: Derive, log: Log): (r: Log)
    ensures |r| == |log|
  {
    RebuildAll(derive, log).log
  }

  lemma {:induction false} PrefixRebuilt(derive: Derive, log: Log, k: nat)
    requires k <= |log|
    ensures RebuildAll(derive, log[..k]).log == RebuildAll(derive, log).log[..k]
  {
    if k < |log| {
      var init := log[..|log| - 1];
      PrefixRebuilt(derive, init, k);
      assert init[..k] == log[..k];
    } else {
      assert log[..k] == log;
    }
  }

  /** Rebuilding a prefix gives the prefix of the rebuilt log. */
  lemma PrefixStable(derive: Derive, log: Log, k: nat)
    requires k <= |log|
    ensures Output(derive, log[..k]) == Output(derive, log)[..k]
  {
    PrefixRebuilt(derive, log, k);
  }

  lemma EventAt(derive: Derive, log: Log, i: nat)
    requires i < |log|
    ensures var r := RebuildAll(derive, log[..i]);
            var b := derive(Output(derive, log)[..i], log[i].body.(previous := Repointed(log[i].body, r.digests)));
            Output(derive, log)[i] == Envelope(b, Some(OfEvent(b)))
  {
    PrefixStable(derive, log, i);
    PrefixStable(derive, log, i + 1);
    assert log[..i + 1][..i] == log[..i];
    assert Output(derive, log)[..i + 1][i] == Output(derive, log)[i];
  }

  /** Two bodies are of one event, up to the receipts of an admission. */
  ghost predicate Kept(b: EventBody, r: EventBody) {
    && r.entity == b.entity && r.sequence == b.sequence && r.previous == b.previous && r.clock == b.clock
    && if b.payload.Admit? then r.payload.Admit? && r.payload.admitter == b.payload.admitter
       else r.payload == b.payload && r.sourceReceipt == b.sourceReceipt
  }

  /** The derivation touches nothing but the receipts of admissions. */
  ghost predicate Keeps(derive: Derive) {
    forall before: Log, b: EventBody :: Kept(b, derive(before, b))
  }

  /** The derivation ignores the receipts already there. */
  ghost predicate Settles(derive: Derive) {
    forall before: Log, b: EventBody :: derive(before, derive(before, b)) == derive(before, b)
  }

  /** Only the predecessor and an admission's receipts can change. */
  lemma ContentsKept(derive: Derive, log: Log, i: nat)
    requires Keeps(derive) && i < |log|
    ensures var b, r := log[i].body, Output(derive, log)[i].body;
            KeyOf(Output(derive, log)[i]) == KeyOf(log[i]) && Kept(b, r.(previous := b.previous))
  {
    EventAt(derive, log, i);
    var r := RebuildAll(derive, log[..i]);
    var b := log[i].body.(previous := Repointed(log[i].body, r.digests));
    assert Kept(b, derive(Output(derive, log)[..i], b));
  }

  // ----- The predecessor

  /** Position of the most recent event with a given key. */
  function Latest(log: Log, k: Key): (j: Option<nat>)
    ensures j.Some? ==> j.value < |log| && KeyOf(log[j.value]) == k
    ensures forall i :: 0 <= i < |log| && KeyOf(log[i]) == k ==> j.Some? && i <= j.value
  {
    if log == [] then None
    else if KeyOf(log[|log| - 1]) == k then Some(|log| - 1)
    else
      var init := log[..|log| - 1];
      assert forall i :: 0 <= i < |init| ==> init[i] == log[i];
      Latest(init, k)
  }

  lemma {:induction false} DigestsAre(derive: Derive, log: Log, k: Key)
    ensures var r, j := RebuildAll(derive, log), Latest(log, k);
            && (k in r.digests <==> j.Some?)
            && (j.Some? ==> r.digests[k].0 == log[j.value].digest && Some(r.digests[k].1) == r.log[j.value].digest)
  {
    if log != [] {
      DigestsAre(derive, log[..|log| - 1], k);
    }
  }

  /** A predecessor is re-pointed exactly when it names the claimed digest of the
      entity's event before; any other predecessor is left as it was. */
  lemma PredecessorExact(derive: Derive, log: Log, i: nat)
    requires Keeps(derive)
    requires i < |log|
    ensures var b, out := log[i].body, Output(derive, log);
            var j := Latest(log[..i], (b.entity, b.sequence - 1));
            out[i].body.previous ==
              if j.Some? && log[j.value].digest.Some? && b.previous == log[j.value].digest
              then out[j.value].digest else b.previous
  {
    var b, out := log[i].body, Output(derive, log);
    EventAt(derive, log, i);
    RepointedExact(derive, log[..i], b);
    PrefixStable(derive, log, i);
    var c := b.(previous := Repointed(b, RebuildAll(derive, log[..i]).digests));
    assert Kept(c, derive(out[..i], c));
  }

  lemma RepointedExact(derive: Derive, before: Log, b: EventBody)
    ensures var j := Latest(before, (b.entity, b.sequence - 1));
            Repointed(b, RebuildAll(derive, before).digests) ==
              if j.Some? && before[j.value].digest.Some? && b.previous == before[j.value].digest
              then Output(derive, before)[j.value].digest else b.previous
  {
    DigestsAre(derive, before, (b.entity, b.sequence - 1));
  }

  /** Every event names the digest of its entity's event before, if there is one. */
  ghost predicate WellChained(log: Log) {
    forall i :: 0 <= i < |log| ==> log[i].digest.Some? && LinkedAt(log, i)
  }

  ghost predicate LinkedAt(log: Log, i: nat)
    requires i < |log|
  {
    var j := Latest(log[..i], (log[i].body.entity, log[i].body.sequence - 1));
    log[i].body.previous == if j.Some? then log[j.value].digest else None
  }

  lemma {:induction false} LatestKept(derive: Derive, log: Log, n: nat, k: Key)
    requires Keeps(derive)
    requires n <= |log|
    ensures Latest(Output(derive, log)[..n], k) == Latest(log[..n], k)
  {
    if n > 0 {
      LatestKept(derive, log, n - 1, k);
      ContentsKept(derive, log, n - 1);
      assert log[..n][..n - 1] == log[..n - 1];
      assert Output(derive, log)[..n][..n - 1] == Output(derive, log)[..n - 1];
    }
  }

  /** A well-chained log stays well chained. */
  lemma ChainKept(derive: Derive, log: Log)
    requires Keeps(derive)
    requires WellChained(log)
    ensures WellChained(Output(derive, log))
  {
    var out := Output(derive, log);
    forall i | 0 <= i < |out|
      ensures out[i].digest.Some? && LinkedAt(out, i)
    {
      var k := (log[i].body.entity, log[i].body.sequence - 1);
      EventAt(derive, log, i);
      ContentsKept(derive, log, i);
      LatestKept(derive, log, i, k);
      PredecessorExact(derive, log, i);
      assert LinkedAt(log, i);
    }
  }

  // ----- Rebuilt logs are exactly the verified ones

  /** Every digest is the digest of its event, and every body is what is derived
      for it from the events before it. */
  ghost predicate Verified(derive: Derive, log: Log) {
    forall i :: 0 <= i < |log| ==> VerifiedAt(derive, log, i)
  }

  ghost predicate VerifiedAt(derive: Derive, log: Log, i: nat)
    requires i < |log|
  {
    log[i].digest == Some(OfEvent(log[i].body)) && log[i].body == derive(log[..i], log[i].body)
  }

  /** Rebuilding produces a verified log from any log. */
  lemma OutputIsVerified(derive: Derive, log: Log)
    requires Settles(derive)
    ensures Verified(derive, Output(derive, log))
  {
    var out := Output(derive, log);
    forall i | 0 <= i < |out|
      ensures VerifiedAt(derive, out, i)
    {
      EventAt(derive, log, i);
      var r := RebuildAll(derive, log[..i]);
      var b := log[i].body.(previous := Repointed(log[i].body, r.digests));
      assert derive(out[..i], derive(out[..i], b)) == derive(out[..i], b);
    }
  }

  lemma {:induction false} VerifiedUnchanged(derive: Derive, log: Log)
    requires Verified(derive, log)
    ensures Output(derive, log) == log
  {
    if log != [] {
      var k := |log| - 1;
      var init, e := log[..k], log[k];
      forall i | 0 <= i < k
        ensures VerifiedAt(derive, init, i)
      {
        assert VerifiedAt(derive, log, i);
        assert init[..i] == log[..i];
      }
      VerifiedUnchanged(derive, init);
      var key := (e.body.entity, e.body.sequence - 1);
      DigestsAre(derive, init, key);
      var j := Latest(init, key);
      if j.Some? {
        assert VerifiedAt(derive, init, j.value);
      }
      var r := RebuildAll(derive, init);
      assert Repointed(e.body, r.digests) == e.body.previous;
      assert e.body.(previous := e.body.previous) == e.body;
      assert VerifiedAt(derive, log, k);
    }
  }

  /** Rebuilding leaves a log alone exactly when the log already verifies. */
  lemma FixpointsAreVerified(derive: Derive, log: Log)
    requires Settles(derive)
    ensures Output(derive, log) == log <==> Verified(derive, log)
  {
    OutputIsVerified(derive, log);
    if Verified(derive, log) {
      VerifiedUnchanged(derive, log);
    }
  }
}
