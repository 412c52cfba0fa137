/** The use-time walk as it is executed: one object holding the stack, its
    index, the finished set, the records and the failure flag. */
module Walkers {
  import opened Sequences
  import opened Paths
  import opened Replay
  import opened UseWalk

  class Walker {
    const g: Projections
    const clock: int

    var records: seq<TraversedState>
    var cycle: seq<Id>
    var failed: bool
    var code: Code
    var edges: nat
    var stack: seq<Id>
    var stackIndex: map<Id, nat>
    var visited: set<Id>

    /** The finished nodes in finishing order. */
    ghost var done: seq<Id>

    ghost predicate Valid()
      reads this
    {
      && (forall x :: x in stackIndex <==> x in stack)
      && (forall i :: 0 <= i < |stack| ==> stackIndex[stack[i]] == i)
      && visited == Elements(done)
      && (!failed ==> cycle == [])
    }

    ghost function State(): Walk
      reads this
    {
      Walk(records, done, edges, if failed then Failed(code, cycle) else Ok)
    }

    constructor (g: Projections, clock: int, root: Id)
      ensures Valid() && this.g == g && this.clock == clock
      ensures stack == [root] && State() == START
    {
      this.g, this.clock := g, clock;
      records, cycle, failed, code, edges := [], [], false, "", 0;
      stack, stackIndex, visited := [root], map[root := 0], {};
      done := [];
    }

    /** One visit computes `Visit`, and restores the stack unless it fails. */
    method Dfs(node: Id)
      requires Valid()
      modifies this
      ensures Valid()
      ensures State() == Visit(g, clock, old(stack), old(State()), node)
      ensures !failed ==> stack == old(stack)
      decreases g.Keys - Elements(stack) - visited, 1
    {
      if failed {
        return;
      }
      if node in stackIndex {
        var i := stackIndex[node];
        StackPosition(node);
        cycle := CanonicalWitness(stack[i..] + [node]);
        failed := true;
        code := DEPENDENCY_CYCLE;
        return;
      }
      if node in visited {
        return;
      }
      Explore(node);
    }

    /** The rest of a visit, at a node met for the first time. */
    method Explore(node: Id)
      requires Valid() && !failed && node !in stack && node !in visited
      modifies this
      ensures Valid()
      ensures State() == Visit(g, clock, old(stack), old(State()), node)
      ensures !failed ==> stack == old(stack)
      decreases g.Keys - Elements(stack) - visited, 0
    {
      if node !in g {
        records := records + [Absent(node, DEPENDENCY_MISSING)];
        failed := true;
        code := DEPENDENCY_MISSING;
        return;
      }
      var gate := Gate(g[node], clock);
      if gate.Some? {
        records := records + [Found(g, node, gate.value)];
        failed := true;
        code := gate.value;
        return;
      }
      records := records + [Found(g, node, NODE_PRESENT)];
      Push(node);
      assert node in g.Keys - Elements(old(stack)) - old(visited) && node in Elements(stack);
      DfsAll(g[node].Dependencies());
      if !failed {
        Pop(old(stack), node);
      }
    }

    method Push(node: Id)
      requires Valid() && node !in stack
      modifies this`stack, this`stackIndex
      ensures Valid() && stack == old(stack) + [node]
    {
      stackIndex := stackIndex[node := |stack|];
      stack := stack + [node];
    }

    method Pop(ghost below: seq<Id>, node: Id)
      requires Valid() && stack == below + [node]
      modifies this`stack, this`stackIndex, this`visited, this`done
      ensures Valid() && stack == below && done == old(done) + [node]
    {
      StackDistinct();
      stack := stack[..|stack| - 1];
      stackIndex := stackIndex - {node};
      visited := visited + {node};
      done := done + [node];
    }

    lemma StackDistinct()
      requires Valid()
      ensures NoRepeats(stack)
    {
    }

    /** The loop over a child list, with its early stop. */
    method DfsAll(children: seq<Id>)
      requires Valid()
      modifies this
      ensures Valid()
      ensures State() == VisitAll(g, clock, old(stack), old(State()), children)
      ensures !failed ==> stack == old(stack)
      decreases g.Keys - Elements(stack) - visited, 2
    {
      for i := 0 to |children|
        invariant Valid()
        invariant old(visited) <= visited
        invariant !failed ==> stack == old(stack)
        invariant VisitAll(g, clock, old(stack), old(State()), children)
               == VisitAll(g, clock, old(stack), State(), children[i..])
      {
        if failed {
          break;
        }
        edges := edges + 1;
        Dfs(children[i]);
        assert children[i..][1..] == children[i + 1..];
      }
    }

    lemma StackPosition(node: Id)
      requires Valid() && node in stack
      ensures IndexOf(stack, node) == stackIndex[node]
    {
    }
  }

  /** The walk from a root, as run for one required assumption. */
  method RunWalk(g: Projections, clock: int, root: Id) returns (w: Walk)
    requires root in g
    ensures w.records == WalkFrom(g, clock, root).records
    ensures w.edges == WalkFrom(g, clock, root).edges
    ensures w.outcome == WalkFrom(g, clock, root).outcome
  {
    var walker := new Walker(g, clock, root);
    walker.DfsAll(g[root].Dependencies());
    w := Walk(walker.records, [], walker.edges, if walker.failed then Failed(walker.code, walker.cycle) else Ok);
  }
}
