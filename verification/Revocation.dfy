/** Dependency changes: their closed form, and the confluence that follows. */
module Revocation {
  import opened Kernel
  import opened KernelRuns

  /** Evidence that some changed dependency invalidates. */
  predicate HitBy(e: Evidence, changed: set<string>) {
    Current(e) && e.dependencies * changed != {}
  }

  ghost predicate BasisHit(s: ControlState, id: string, changed: set<string>) {
    var evidence := EvidenceById(s.evidence);
    && id in BasesById(s.bases)
    && exists m :: m in BasesById(s.bases)[id].members && m in evidence && HitBy(evidence[m], changed)
  }

  ghost function Unhit(s: ControlState, ids: set<string>, changed: set<string>): set<string> {
    set id | id in ids && !BasisHit(s, id, changed)
  }

  ghost predicate EvidenceRevoked(old': map<string, Evidence>, changed: set<string>, new': map<string, Evidence>) {
    && new'.Keys == old'.Keys
    && forall id :: id in old' ==>
         && !Rewritten(old'[id], new'[id])
         && new'[id].status == if HitBy(old'[id], changed) then INVALIDATED else old'[id].status
  }

  /** The state after dependency changes with these ids, up to the fields no check
      pins: a function of the first state and of the set of ids alone. */
  ghost predicate Revoked(first: ControlState, changed: set<string>, s: ControlState) {
    && EvidenceRevoked(EvidenceById(first.evidence), changed, EvidenceById(s.evidence))
    && BasesById(s.bases) == BasesById(first.bases)
    && s.currentSource == Unhit(first, first.currentSource, changed)
    && s.currentVerdict == Unhit(first, first.currentVerdict, changed)
    && s.source == DemotedSource(first.source, s.currentSource)
    && s.assurance == DemotedAssurance(first.obligation, first.assurance, s.currentVerdict)
  }

  lemma NothingRevoked(s: ControlState)
    requires Sound(s)
    ensures Revoked(s, {}, s)
  {
    assert Unhit(s, s.currentSource, {}) == s.currentSource;
    assert Unhit(s, s.currentVerdict, {}) == s.currentVerdict;
  }

  lemma EvidenceNext(old': map<string, Evidence>, changed: set<string>, mid: map<string, Evidence>, d: string,
      new': map<string, Evidence>)
    requires EvidenceRevoked(old', changed, mid) && EvidenceKept(mid, new') && new'.Keys == mid.Keys
    requires forall id :: id in mid && id in new' ==>
      new'[id].status == if Hit(mid[id], d) then INVALIDATED else mid[id].status
    ensures EvidenceRevoked(old', changed + {d}, new')
  {
    forall id | id in old'
      ensures !Rewritten(old'[id], new'[id])
      ensures new'[id].status == if HitBy(old'[id], changed + {d}) then INVALIDATED else old'[id].status
    {
      var deps := old'[id].dependencies;
      assert deps * (changed + {d}) == deps * changed + deps * {d};
      assert d in deps <==> deps * {d} != {} by {
        if d in deps { assert d in deps * {d}; }
      }
      assert mid[id].dependencies == deps;
    }
  }

  /** After the change, a current reference survives exactly if no member is hit. */
  lemma SurvivorsNext(first: ControlState, changed: set<string>, s: ControlState, d: string, after: ControlState,
      ids: set<string>)
    requires Sound(first) && Sound(s) && Revoked(first, changed, s)
    requires EvidenceRevoked(EvidenceById(first.evidence), changed + {d}, EvidenceById(after.evidence))
    requires BasesById(after.bases) == BasesById(first.bases)
    requires ids <= CurrentIds(first)
    ensures Surviving(Unhit(first, ids, changed), BasesById(after.bases), EvidenceById(after.evidence))
         == Unhit(first, ids, changed + {d})
  {
    var bases, old', new' := BasesById(first.bases), EvidenceById(first.evidence), EvidenceById(after.evidence);
    forall id | id in ids
      ensures id in bases && Supported(bases[id], old')
      ensures Supported(bases[id], new') <==> !BasisHit(first, id, changed + {d})
      ensures BasisHit(first, id, changed) ==> BasisHit(first, id, changed + {d})
    {
      CurrentIsSupported(first, id);
      HitGrows(first, id, changed, d);
      if BasisHit(first, id, changed + {d}) {
        var m :| m in bases[id].members && m in old' && HitBy(old'[m], changed + {d});
        assert !Current(new'[m]);
      }
    }
  }

  lemma HitGrows(s: ControlState, id: string, changed: set<string>, d: string)
    ensures BasisHit(s, id, changed) ==> BasisHit(s, id, changed + {d})
  {
    if BasisHit(s, id, changed) {
      var evidence := EvidenceById(s.evidence);
      var m :| m in BasesById(s.bases)[id].members && m in evidence && HitBy(evidence[m], changed);
      var x :| x in evidence[m].dependencies * changed;
      assert x in evidence[m].dependencies * (changed + {d});
    }
  }

  lemma KeptSameKeys(a: map<string, Basis>, b: map<string, Basis>)
    requires BasesKept(a, b) && a.Keys == b.Keys
    ensures b == a
  {
  }

  /** Demoting in two steps is demoting once by what survives both. */
  lemma DemotionComposes(first: ControlState, s: ControlState, a: set<string>, b: set<string>, v: set<string>,
      w: set<string>)
    requires Sound(s) && a >= b && v >= w
    requires s.source == DemotedSource(first.source, a)
    requires s.assurance == DemotedAssurance(first.obligation, first.assurance, v)
    ensures DemotedSource(s.source, b) == DemotedSource(first.source, b)
    ensures DemotedAssurance(s.obligation, s.assurance, w) == DemotedAssurance(first.obligation, first.assurance, w)
  {
  }

  lemma ReferencesNext(first: ControlState, changed: set<string>, s: ControlState, d: string, after: ControlState)
    requires Sound(first) && Sound(s) && Revoked(first, changed, s) && DependencyChangeOk(s, d, after)
    requires Preserves(s, after)
    ensures EvidenceRevoked(EvidenceById(first.evidence), changed + {d}, EvidenceById(after.evidence))
    ensures BasesById(after.bases) == BasesById(first.bases)
    ensures after.currentSource == Unhit(first, first.currentSource, changed + {d})
    ensures after.currentVerdict == Unhit(first, first.currentVerdict, changed + {d})
  {
    EvidenceNext(EvidenceById(first.evidence), changed, EvidenceById(s.evidence), d, EvidenceById(after.evidence));
    KeptSameKeys(BasesById(s.bases), BasesById(after.bases));
    SurvivorsNext(first, changed, s, d, after, first.currentSource);
    SurvivorsNext(first, changed, s, d, after, first.currentVerdict);
  }

  lemma ChangeNext(first: ControlState, changed: set<string>, s: ControlState, e: Event, after: ControlState)
    requires e.DependencyChange? && Accepted(s, e, after)
    requires Sound(first) && Revoked(first, changed, s)
    ensures Revoked(first, changed + {e.dependency}, after)
  {
    AcceptedFacts(s, e, after);
    ReferencesNext(first, changed, s, e.dependency, after);
    UnhitShrinks(first, first.currentSource, changed, e.dependency);
    UnhitShrinks(first, first.currentVerdict, changed, e.dependency);
    DemotionComposes(first, s, s.currentSource, after.currentSource, s.currentVerdict, after.currentVerdict);
  }

  lemma UnhitShrinks(s: ControlState, ids: set<string>, changed: set<string>, d: string)
    ensures Unhit(s, ids, changed + {d}) <= Unhit(s, ids, changed)
  {
    forall id | id in ids { HitGrows(s, id, changed, d); }
  }

  function ChangedIds(events: seq<Event>): set<string> {
    set e | e in events && e.DependencyChange? :: e.dependency
  }

  ghost predicate ChangesOnly(r: Run) {
    AcceptedRun(r) && forall k :: 0 <= k < |r.events| ==> r.events[k].DependencyChange?
  }

  lemma {:induction false} ChangesReach(r: Run, n: nat)
    requires ChangesOnly(r) && n <= |r.events| && Sound(r.states[0])
    ensures Revoked(r.states[0], ChangedIds(r.events[..n]), r.states[n])
  {
    if n == 0 {
      NothingRevoked(r.states[0]);
      assert ChangedIds(r.events[..0]) == {};
    } else {
      ChangesReach(r, n - 1);
      var e := r.events[n - 1];
      assert Accepted(r.states[n - 1], e, r.states[n - 1 + 1]);
      ChangeNext(r.states[0], ChangedIds(r.events[..n - 1]), r.states[n - 1], e, r.states[n]);
      ChangedNext(r.events, n - 1);
    }
  }

  lemma ChangedNext(events: seq<Event>, n: nat)
    requires n < |events| && events[n].DependencyChange?
    ensures ChangedIds(events[..n + 1]) == ChangedIds(events[..n]) + {events[n].dependency}
  {
    assert events[..n + 1] == events[..n] + [events[n]];
  }

  /** After any accepted sequence of dependency changes the state is the closed
      form of the first state and the set of changed ids. */
  lemma ChangesClosedForm(r: Run)
    requires ChangesOnly(r) && r.events != []
    ensures Revoked(r.states[0], ChangedIds(r.events), r.states[|r.events|])
  {
    var n := |r.events|;
    assert r.events[..n] == r.events;
    StartsSound(r);
    ChangesReach(r, n);
  }

  lemma StartsSound(r: Run)
    requires AcceptedRun(r) && r.events != []
    ensures Sound(r.states[0])
  {
    AcceptedFacts(r.states[0], r.events[0], r.states[0 + 1]);
  }

  /** What the checks pin of a state: two states with the same view agree on the
      evidence's identity, status, dimension, dependencies and outcome, on the
      bases, the current references, the source state and the assurance. */
  ghost predicate SameView(s: ControlState, t: ControlState) {
    && EvidenceById(s.evidence).Keys == EvidenceById(t.evidence).Keys
    && (forall id :: id in EvidenceById(s.evidence) ==>
          && !Rewritten(EvidenceById(s.evidence)[id], EvidenceById(t.evidence)[id])
          && EvidenceById(s.evidence)[id].status == EvidenceById(t.evidence)[id].status)
    && BasesById(s.bases) == BasesById(t.bases)
    && s.currentSource == t.currentSource && s.currentVerdict == t.currentVerdict
    && s.source == t.source && s.assurance == t.assurance
  }

  lemma RevokedIsFunctional(first: ControlState, changed: set<string>, s: ControlState, t: ControlState)
    requires Revoked(first, changed, s) && Revoked(first, changed, t)
    ensures SameView(s, t)
  {
  }

  /** Order and repetition of dependency changes do not matter: two accepted
      sequences from one state with the same set of ids end in the same view. */
  lemma ChangesConfluent(r: Run, q: Run)
    requires ChangesOnly(r) && ChangesOnly(q)
    requires r.states[0] == q.states[0] && ChangedIds(r.events) == ChangedIds(q.events)
    ensures SameView(r.states[|r.events|], q.states[|q.events|])
  {
    forall x: Run | ChangesOnly(x)
      ensures x.events != [] ==> ChangedIds(x.events) != {}
    {
      if x.events != [] {
        assert x.events[0] in x.events && x.events[0].dependency in ChangedIds(x.events);
      }
    }
    if r.events == [] {
      assert ChangedIds(r.events) == {};
    } else {
      ChangesClosedForm(r);
      ChangesClosedForm(q);
      RevokedIsFunctional(r.states[0], ChangedIds(r.events), r.states[|r.events|], q.states[|q.events|]);
    }
  }

  /** Any two post-states accepted for one dependency change have the same view. */
  lemma ChangeIsFunctional(before: ControlState, e: Event, s: ControlState, t: ControlState)
    requires e.DependencyChange? && Accepted(before, e, s) && Accepted(before, e, t)
    ensures SameView(s, t)
  {
    AcceptedFacts(before, e, s);
    NothingRevoked(before);
    ChangeNext(before, {}, before, e, s);
    ChangeNext(before, {}, before, e, t);
    RevokedIsFunctional(before, {} + {e.dependency}, s, t);
  }

  /** Evidence that differs at most in its timing and its profile. */
  predicate Retimed(e: Evidence, f: Evidence) {
    f == e.(issuedAt := f.issuedAt, expiresAt := f.expiresAt,
            profileId := f.profileId, profileVersion := f.profileVersion)
  }

  predicate AllRetimed(a: seq<Evidence>, b: seq<Evidence>) {
    |a| == |b| && forall i :: 0 <= i < |a| ==> Retimed(a[i], b[i])
  }

  lemma {:induction false} RetimedById(a: seq<Evidence>, b: seq<Evidence>)
    requires AllRetimed(a, b)
    ensures EvidenceById(b).Keys == EvidenceById(a).Keys
    ensures forall id :: id in EvidenceById(a) ==> Retimed(EvidenceById(a)[id], EvidenceById(b)[id])
  {
    if a != [] {
      RetimedById(a[..|a| - 1], b[..|b| - 1]);
    }
  }

  lemma RetimedSupport(a: seq<Evidence>, b: seq<Evidence>)
    requires AllRetimed(a, b)
    ensures forall x: Basis :: Supported(x, EvidenceById(a)) <==> Supported(x, EvidenceById(b))
  {
    RetimedById(a, b);
  }

  /** Another post-state that differs from `s` only in what the checks do not look at:
      the clock, the profile, requests and heartbeat, timing and profile of the
      evidence, whatever was appended to the history and, without an assurance,
      the obligation. */
  predicate Unpinned(before: ControlState, s: ControlState, t: ControlState) {
    && t == s.(time := t.time, profileId := t.profileId, profileVersion := t.profileVersion, requests := t.requests,
               heartbeat := t.heartbeat, evidence := t.evidence, history := t.history, obligation := t.obligation)
    && AllRetimed(s.evidence, t.evidence)
    && before.history <= t.history
    && (t.obligation == s.obligation || s.assurance == ASSURANCE_NA)
  }

  /** The checks leave all of that open. */
  lemma ChangeLeavesOpen(before: ControlState, e: Event, s: ControlState, t: ControlState)
    requires e.DependencyChange? && Accepted(before, e, s) && Unpinned(before, s, t)
    ensures Accepted(before, e, t)
  {
    AcceptedFacts(before, e, s);
    StateOkExact(before);
    SameReferences(s, t);
    TransitionOkExact(before, t);
    UnpinnedPreserves(before, s, t);
    UnpinnedChange(before, e.dependency, s, t);
  }

  lemma UnpinnedPreserves(before: ControlState, s: ControlState, t: ControlState)
    requires Preserves(before, s) && Unpinned(before, s, t)
    ensures Preserves(before, t)
  {
    RetimedById(s.evidence, t.evidence);
  }

  lemma UnpinnedChange(before: ControlState, dependency: string, s: ControlState, t: ControlState)
    requires DependencyChangeOk(before, dependency, s) && Unpinned(before, s, t)
    ensures DependencyChangeOk(before, dependency, t)
  {
    RetimedById(s.evidence, t.evidence);
    SameSurvivors(s, t, before.currentSource);
    SameSurvivors(s, t, before.currentVerdict);
  }

  lemma SameSurvivors(s: ControlState, t: ControlState, ids: set<string>)
    requires AllRetimed(s.evidence, t.evidence) && t.bases == s.bases
    ensures Surviving(ids, BasesById(t.bases), EvidenceById(t.evidence))
        == Surviving(ids, BasesById(s.bases), EvidenceById(s.evidence))
  {
    RetimedSupport(s.evidence, t.evidence);
  }

  lemma SameReferences(s: ControlState, t: ControlState)
    requires Sound(s) && AllRetimed(s.evidence, t.evidence) && t.bases == s.bases
    requires t.currentSource == s.currentSource && t.currentVerdict == s.currentVerdict && t.source == s.source
    requires t.assurance == s.assurance
    requires t.obligation == s.obligation || s.assurance == ASSURANCE_NA
    ensures Sound(t)
  {
    RetimedById(s.evidence, t.evidence);
    RetimedSupport(s.evidence, t.evidence);
    assert |EvidenceById(t.evidence).Keys| == |EvidenceById(s.evidence).Keys|;
    forall id, kind, claim | ReferenceOk(s, id, kind, claim)
      ensures ReferenceOk(t, id, kind, claim)
    {
    }
  }
}
