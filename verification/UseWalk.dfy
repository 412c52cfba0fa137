/** The use-time dependency walk: a depth-first search with a stack, a finished
    set, a gate on every node, cycle detection and an early stop. */
module UseWalk {
  import opened Options
  import opened Paths
  import opened Replay

  type Code = string

  const TERMINAL: Code := "ASSUMPTION_USE_TERMINAL"
  const NOT_ADMITTED: Code := "ASSUMPTION_USE_NOT_ADMITTED"
  const CHALLENGED: Code := "ASSUMPTION_USE_CHALLENGED"
  const NOT_YET_VALID: Code := "ASSUMPTION_USE_NOT_YET_VALID"
  const EXPIRED_CODE: Code := "ASSUMPTION_USE_EXPIRED"
  const DEPENDENCY_CYCLE: Code := "ASSUMPTION_USE_DEPENDENCY_CYCLE"
  const DEPENDENCY_MISSING: Code := "ASSUMPTION_USE_DEPENDENCY_MISSING"
  const NODE_PRESENT: Code := "ASSUMPTION_USE_NODE_PRESENT"

  const GATE_CODES: set<Code> := {TERMINAL, NOT_ADMITTED, CHALLENGED, NOT_YET_VALID, EXPIRED_CODE}

  /** No code of the source: comparing the clock with the window of an assumption
      that was never proposed raises an error there. */
  const RAISES: Code := "TypeError"

  /** The first reason, if any, why an assumption may not be used at `clock`. */
  function Gate(p: Projection, clock: int): (code: Option<Code>)
    ensures code.Some? ==> code.value in GATE_CODES + {RAISES}
  {
    if p.Terminal() then Some(TERMINAL)
    else if !p.Active() then Some(NOT_ADMITTED)
    else if p.activeChallenges != [] then Some(CHALLENGED)
    else if p.proposal.None? then Some(RAISES)
    else if clock < p.proposal.value.validFrom then Some(NOT_YET_VALID)
    else if p.proposal.value.expiresAt.Some? && clock >= p.proposal.value.expiresAt.value then Some(EXPIRED_CODE)
    else None
  }

  /** A traversal record: the node, what was found there and its projection. */
  datatype TraversedState = TraversedState(id: Id, code: Code, projection: Option<Projection>, eventCount: nat)

  function Absent(id: Id, code: Code): TraversedState {
    TraversedState(id, code, None, 0)
  }

  function Found(g: Projections, id: Id, code: Code): TraversedState
    requires id in g
  {
    TraversedState(id, code, Some(g[id]), g[id].eventCount)
  }

  datatype WalkOutcome = Ok | Failed(code: Code, cycle: seq<Id>)

  /** What a walk has produced so far: its records, the finished nodes in the
      order they were finished, the edges examined and the outcome. */
  datatype Walk = Walk(records: seq<TraversedState>, done: seq<Id>, edges: nat, outcome: WalkOutcome)

  const START := Walk([], [], 0, Ok)

  function Elements(s: seq<Id>): set<Id> {
    set x | x in s
  }

  /** Position of a node on the stack. */
  function IndexOf(s: seq<Id>, x: Id): (i: nat)
    requires x in s
    ensures i < |s| && s[i] == x
  {
    if s[0] == x then 0 else 1 + IndexOf(s[1..], x)
  }

  /** One visit, as a function of the stack above it and the walk so far. */
  function Visit(g: Projections, clock: int, stack: seq<Id>, w: Walk, node: Id): (r: Walk)
    ensures Elements(w.done) <= Elements(r.done)
    decreases g.Keys - Elements(stack) - Elements(w.done), 0
  {
    if w.outcome.Failed? then w
    else if node in stack then
      w.(outcome := Failed(DEPENDENCY_CYCLE, CanonicalWitness(stack[IndexOf(stack, node)..] + [node])))
    else if node in w.done then w
    else if node !in g then
      w.(records := w.records + [Absent(node, DEPENDENCY_MISSING)], outcome := Failed(DEPENDENCY_MISSING, []))
    else match Gate(g[node], clock)
      case Some(code) =>
        w.(records := w.records + [Found(g, node, code)], outcome := Failed(code, []))
      case None =>
        var w1 := w.(records := w.records + [Found(g, node, NODE_PRESENT)]);
        assert node in g.Keys - Elements(stack) - Elements(w.done);
        var w2 := VisitAll(g, clock, stack + [node], w1, g[node].Dependencies());
        if w2.outcome.Failed? then w2 else w2.(done := w2.done + [node])
  }

  function VisitAll(g: Projections, clock: int, stack: seq<Id>, w: Walk, children: seq<Id>): (r: Walk)
    ensures Elements(w.done) <= Elements(r.done)
    decreases g.Keys - Elements(stack) - Elements(w.done), 1 + |children|
  {
    if children == [] || w.outcome.Failed? then w
    else VisitAll(g, clock, stack, Visit(g, clock, stack, w.(edges := w.edges + 1), children[0]), children[1..])
  }

  /** The walk from a root. */
  function WalkFrom(g: Projections, clock: int, root: Id): Walk
    requires root in g
  {
    VisitAll(g, clock, [root], START, g[root].Dependencies())
  }
}
