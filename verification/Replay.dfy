/** Replaying the registry log into per-assumption projections. */
module Replay {
  import opened Options
  import opened Text
  import opened Paths
  import opened Registry

  /** An assumption's state after its whole history. */
  datatype Projection = Projection(
    proposal: Option<Proposal>,
    standing: Standing,
    activeChallenges: seq<string>,
    currentDigest: Option<Digest>,
    currentSequence: int,
    eventCount: nat)
  {
    function Dependencies(): seq<Id> {
      if proposal.Some? then proposal.value.dependencies else []
    }

    function Evidence(): seq<string> {
      if proposal.Some? then proposal.value.evidence else []
    }

    predicate Active() { standing in {ADMITTED, CONFIRMED} }

    predicate Terminal() { standing in {REJECTED, EXPIRED, SUPERSEDED} }
  }

  type Projections = map<Id, Projection>

  type Log = seq<Envelope>

  function DependencyGraph(g: Projections): (d: Graph)
    ensures d.Keys == g.Keys
  {
    map id | id in g :: g[id].Dependencies()
  }

  function Entities(log: Log): set<Id> {
    set e | e in log :: e.body.entity
  }

  /** The events of one entity, in log order. */
  function History(log: Log, id: Id): (h: Log)
    ensures h != [] <==> id in Entities(log)
  {
    if log == [] then []
    else
      EntitiesLast(log);
      var last := log[|log| - 1];
      History(log[..|log| - 1], id) + if last.body.entity == id then [last] else []
  }

  lemma EntitiesLast(log: Log)
    requires log != []
    ensures Entities(log) == Entities(log[..|log| - 1]) + {log[|log| - 1].body.entity}
  {
    assert log == log[..|log| - 1] + [log[|log| - 1]];
  }

  lemma {:induction false} HistoryMembers(log: Log, id: Id)
    ensures forall e :: e in History(log, id) <==> e in log && e.body.entity == id
  {
    if log != [] {
      HistoryMembers(log[..|log| - 1], id);
      assert log == log[..|log| - 1] + [log[|log| - 1]];
    }
  }

  /** Lifecycle state folded over one history. */
  datatype Lifecycle = Lifecycle(proposal: Option<Proposal>, standing: Standing, active: set<string>)

  const UNBORN := Lifecycle(None, PROPOSED, {})

  function Step(s: Lifecycle, p: Payload): Lifecycle {
    match p
    case Propose(proposal) => s.(standing := PROPOSED, proposal := Some(proposal))
    case Admit(_, _) => s.(standing := ADMITTED)
    case Confirm(_) => s.(standing := CONFIRMED)
    case Challenge(id, _) => s.(active := s.active + {id})
    case ResolveChallenges(resolved, outcome, _) =>
      var left := s.active - (set c | c in resolved);
      (match outcome
       case RETURN_TO_ADMITTED => s.(standing := ADMITTED, active := left)
       case CONFIRM => s.(standing := CONFIRMED, active := left)
       case REJECT => s.(standing := REJECTED, active := {})
       case SUPERSEDE => s.(standing := SUPERSEDED, active := {}))
    case Reject(_) => s.(standing := REJECTED, active := {})
    case Expire(_) => s.(standing := EXPIRED, active := {})
    case Supersede(_) => s.(standing := SUPERSEDED, active := {})
  }

  function Run(h: Log): Lifecycle {
    if h == [] then UNBORN else Step(Run(h[..|h| - 1]), h[|h| - 1].body.payload)
  }

  function Projected(h: Log): Projection
    requires h != []
  {
    var s, last := Run(h), h[|h| - 1];
    Projection(s.proposal, s.standing, SortedSet(s.active), last.digest, last.body.sequence, |h|)
  }

  /** Every entity's projection after the whole log. */
  function Project(log: Log): Projections {
    map id | id in Entities(log) :: Projected(History(log, id))
  }

  // ----- The replay loops

  /** Groups the log by entity, then replays each group. */
  method ProjectLog(log: Log) returns (g: Projections)
    ensures g == Project(log)
  {
    var byEntity := GroupByEntity(log);
    g := map[];
    var left := byEntity.Keys;
    while left != {}
      invariant left <= byEntity.Keys && g.Keys == byEntity.Keys - left
      invariant forall id :: id in g ==> g[id] == Projected(byEntity[id])
      decreases left
    {
      var id :| id in left;
      var record := ReplayHistory(byEntity[id]);
      g := g[id := record];
      left := left - {id};
    }
  }

  method GroupByEntity(log: Log) returns (byEntity: map<Id, Log>)
    ensures byEntity.Keys == Entities(log)
    ensures forall id :: id in byEntity ==> byEntity[id] == History(log, id)
  {
    byEntity := map[];
    for i := 0 to |log|
      invariant byEntity.Keys == Entities(log[..i])
      invariant forall id :: id in byEntity ==> byEntity[id] == History(log[..i], id)
    {
      var e := log[i];
      var id := e.body.entity;
      assert log[..i + 1][..i] == log[..i];
      EntitiesLast(log[..i + 1]);
      byEntity := byEntity[id := (if id in byEntity then byEntity[id] else []) + [e]];
    }
    assert log[..|log|] == log;
  }

  method ReplayHistory(h: Log) returns (r: Projection)
    requires h != []
    ensures r == Projected(h)
  {
    var standing, active: set<string> := PROPOSED, {};
    var proposal: Option<Proposal> := None;
    for i := 0 to |h|
      invariant Lifecycle(proposal, standing, active) == Run(h[..i])
    {
      assert h[..i + 1][..i] == h[..i];
      match h[i].body.payload {
        case Propose(p) => standing, proposal := PROPOSED, Some(p);
        case Admit(_, _) => standing := ADMITTED;
        case Confirm(_) => standing := CONFIRMED;
        case Challenge(id, _) => active := active + {id};
        case ResolveChallenges(resolved, outcome, _) =>
          active := active - (set c | c in resolved);
          match outcome {
            case RETURN_TO_ADMITTED => standing := ADMITTED;
            case CONFIRM => standing := CONFIRMED;
            case REJECT => standing, active := REJECTED, {};
            case SUPERSEDE => standing, active := SUPERSEDED, {};
          }
        case Reject(_) => standing, active := REJECTED, {};
        case Expire(_) => standing, active := EXPIRED, {};
        case Supersede(_) => standing, active := SUPERSEDED, {};
      }
    }
    assert h[..|h|] == h;
    var last := h[|h| - 1];
    r := Projection(proposal, standing, SortedSet(active), last.digest, last.body.sequence, |h|);
  }

  // ----- Extending a log

  lemma {:induction false} HistoryConcat(a: Log, b: Log, id: Id)
    ensures History(a + b, id) == History(a, id) + History(b, id)
  {
    if b == [] {
      assert a + b == a;
    } else {
      assert (a + b)[..|a + b| - 1] == a + b[..|b| - 1];
      HistoryConcat(a, b[..|b| - 1], id);
    }
  }

  /** No event of `ext` proposes the entity `id`. */
  ghost predicate NotProposed(ext: Log, id: Id) {
    forall e :: e in ext && e.body.entity == id ==> !e.body.payload.Propose?
  }

  lemma {:induction false} RunKeepsProposal(a: Log, b: Log)
    requires forall e :: e in b ==> !e.body.payload.Propose?
    ensures Run(a + b).proposal == Run(a).proposal
  {
    if b == [] {
      assert a + b == a;
    } else {
      assert (a + b)[..|a + b| - 1] == a + b[..|b| - 1];
      assert b[|b| - 1] in b;
      RunKeepsProposal(a, b[..|b| - 1]);
    }
  }

  /** What an entity was proposed as, its dependencies included, is settled until
      it is proposed again. */
  lemma ExtensionKeepsProposal(log: Log, ext: Log, id: Id)
    requires id in Entities(log) && NotProposed(ext, id)
    ensures id in Project(log + ext)
    ensures Project(log + ext)[id].proposal == Project(log)[id].proposal
  {
    var e :| e in log && e.body.entity == id;
    assert e in log + ext;
    HistoryConcat(log, ext, id);
    HistoryMembers(ext, id);
    RunKeepsProposal(History(log, id), History(ext, id));
  }
}
