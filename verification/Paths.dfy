/** Directed dependency graphs: paths, reachability, cycles and the canonical
    form in which a cycle is reported. */
module Paths {
  import opened Sequences
  import opened Text

  type Id = string

  /** Each present node with its dependency list. */
  type Graph = map<Id, seq<Id>>

  ghost predicate Edge(d: Graph, a: Id, b: Id) {
    a in d && b in d[a]
  }

  ghost predicate Walkable(d: Graph, p: seq<Id>) {
    forall i :: 0 <= i < |p| - 1 ==> Edge(d, p[i], p[i + 1])
  }

  ghost predicate Path(d: Graph, p: seq<Id>, a: Id, b: Id) {
    |p| >= 2 && p[0] == a && p[|p| - 1] == b && Walkable(d, p)
  }

  /** `b` can be reached from `a` along at least one edge. */
  ghost predicate Reaches(d: Graph, a: Id, b: Id) {
    exists p :: Path(d, p, a, b)
  }

  ghost predicate ReachesOrIs(d: Graph, a: Id, b: Id) {
    a == b || Reaches(d, a, b)
  }

  ghost predicate CycleReachable(d: Graph, root: Id) {
    exists n :: ReachesOrIs(d, root, n) && Reaches(d, n, n)
  }

  lemma EdgeReaches(d: Graph, a: Id, b: Id)
    requires Edge(d, a, b)
    ensures Reaches(d, a, b)
  {
    assert Path(d, [a, b], a, b);
  }

  lemma ReachesExtend(d: Graph, a: Id, b: Id, c: Id)
    requires ReachesOrIs(d, a, b) && Edge(d, b, c)
    ensures Reaches(d, a, c)
  {
    if a == b {
      EdgeReaches(d, a, c);
    } else {
      var p :| Path(d, p, a, b);
      assert Path(d, p + [c], a, c);
    }
  }

  /** A stretch of a walk longer than one node shows that its ends are connected. */
  lemma StretchReaches(d: Graph, p: seq<Id>, i: nat, j: nat)
    requires Walkable(d, p) && i < j < |p|
    ensures Reaches(d, p[i], p[j])
  {
    var q := p[i..j + 1];
    forall k | 0 <= k < |q| - 1
      ensures Edge(d, q[k], q[k + 1])
    {
      assert Edge(d, p[i + k], p[i + k + 1]);
    }
    assert Path(d, q, p[i], p[j]);
  }

  /** A set closed under the edges holds everything its members reach. */
  lemma ClosedReaches(d: Graph, s: set<Id>, a: Id, b: Id)
    requires forall x, y :: x in s && Edge(d, x, y) ==> y in s
    requires forall y :: Edge(d, a, y) ==> y in s
    requires Reaches(d, a, b)
    ensures b in s
  {
    var p :| Path(d, p, a, b);
    ClosedAlong(d, s, p, |p| - 1);
  }

  lemma {:induction false} ClosedAlong(d: Graph, s: set<Id>, p: seq<Id>, k: nat)
    requires forall x, y :: x in s && Edge(d, x, y) ==> y in s
    requires Walkable(d, p) && 1 <= k < |p|
    requires forall y :: Edge(d, p[0], y) ==> y in s
    ensures p[k] in s
  {
    assert Edge(d, p[k - 1], p[k - 1 + 1]);
    if k > 1 {
      ClosedAlong(d, s, p, k - 1);
    }
  }

  /** A list in which every node comes after all of its successors. */
  ghost predicate Topological(d: Graph, order: seq<Id>) {
    NoRepeats(order) &&
    forall i, y :: 0 <= i < |order| && Edge(d, order[i], y) ==> y in order[..i]
  }

  lemma {:induction false} TopologicalDescends(d: Graph, order: seq<Id>, p: seq<Id>, i: nat)
    requires Topological(d, order) && i < |order|
    requires Walkable(d, p) && |p| >= 2 && p[0] == order[i]
    ensures p[|p| - 1] in order[..i]
    decreases |p|
  {
    assert Edge(d, p[0], p[0 + 1]);
    var j :| 0 <= j < i && order[j] == p[1];
    if |p| > 2 {
      var q := p[1..];
      forall k | 0 <= k < |q| - 1
        ensures Edge(d, q[k], q[k + 1])
      {
        assert Edge(d, p[k + 1], p[k + 1 + 1]);
      }
      TopologicalDescends(d, order, q, j);
    }
  }

  /** No node of a topological list lies on a cycle. */
  lemma TopologicalAcyclic(d: Graph, order: seq<Id>, n: Id)
    requires Topological(d, order) && n in order
    ensures !Reaches(d, n, n)
  {
    if Reaches(d, n, n) {
      var i :| 0 <= i < |order| && order[i] == n;
      var p :| Path(d, p, n, n);
      TopologicalDescends(d, order, p, i);
    }
  }

  // ----- Cycle witnesses

  /** The node list of a cycle, closed by repeating its first node. */
  function Close(c: seq<Id>): seq<Id>
    requires c != []
  {
    c + [c[0]]
  }

  function Rotate(c: seq<Id>, k: nat): (r: seq<Id>)
    requires k <= |c|
    ensures |r| == |c|
  {
    c[k..] + c[..k]
  }

  /** First position of the smallest element. */
  function SmallestIndex(c: seq<Id>): (s: nat)
    requires c != []
    ensures s < |c|
    ensures forall i :: 0 <= i < |c| ==> AtMost(c[s], c[i])
    ensures forall i :: 0 <= i < s ==> c[i] != c[s]
  {
    if |c| == 1 then 0 else
      var t := SmallestIndex(c[1..]) + 1;
      BeforeTotal(c[0], c[t]);
      if AtMost(c[0], c[t]) then
        assert forall i :: 0 < i < |c| ==> AtMost(c[0], c[i]) by {
          forall i | 0 < i < |c|
            ensures AtMost(c[0], c[i])
          {
            assert c[1..][i - 1] == c[i];
            if Before(c[0], c[t]) && Before(c[t], c[i]) { BeforeTransitive(c[0], c[t], c[i]); }
          }
        }
        0
      else
        assert forall i :: 0 < i < |c| ==> c[i] == c[1..][i - 1];
        assert Before(c[t], c[0]);
        BeforeIrreflexive(c[t]);
        t
  }

  /** The reported form of a closed walk: rotated to start at its smallest node. */
  function CanonicalWitness(raw: seq<Id>): (w: seq<Id>)
    requires |raw| >= 2
    ensures |w| == |raw|
  {
    var n := |raw| - 1;
    var s := SmallestIndex(raw[..n]);
    raw[s..n] + raw[..s] + [raw[s]]
  }

  /** A genuine cycle in reported form: closed, along edges, through distinct
      nodes, starting at the smallest. */
  ghost predicate CycleWitness(d: Graph, w: seq<Id>) {
    && |w| >= 2
    && Walkable(d, w)
    && w[0] == w[|w| - 1]
    && NoRepeats(w[..|w| - 1])
    && (forall i :: 0 <= i < |w| ==> AtMost(w[0], w[i]))
  }

  lemma CanonicalWitnessIsCycle(d: Graph, c: seq<Id>)
    requires c != [] && NoRepeats(c) && Walkable(d, Close(c))
    ensures CycleWitness(d, CanonicalWitness(Close(c)))
    ensures CanonicalWitness(Close(c))[0] in c
  {
    var raw, n := Close(c), |c|;
    assert raw[..n] == c;
    var s := SmallestIndex(c);
    var w := CanonicalWitness(raw);
    assert raw[s..n] == c[s..] && raw[..s] == c[..s];
    forall i | 0 <= i < |w| - 1
      ensures Edge(d, w[i], w[i + 1])
    {
      if i < n - s {
        assert Edge(d, raw[s + i], raw[s + i + 1]);
      } else {
        assert Edge(d, raw[i - (n - s)], raw[i - (n - s) + 1]);
      }
    }
    assert w[..n] == Rotate(c, s);
    forall i, j | 0 <= i < j < n
      ensures w[..n][i] != w[..n][j]
    {
      var a := if i < n - s then s + i else i - (n - s);
      var b := if j < n - s then s + j else j - (n - s);
      assert w[i] == c[a] && w[j] == c[b] && a != b;
    }
    forall i | 0 <= i < |w|
      ensures AtMost(w[0], w[i])
    {
      var a := if i < n - s then s + i else if i < n then i - (n - s) else s;
      assert w[i] == c[a];
    }
  }

  lemma RotateTwice(c: seq<Id>, k: nat, t: nat)
    requires k < |c| && t < |c|
    ensures Rotate(Rotate(c, k), t) == Rotate(c, if t < |c| - k then k + t else t - (|c| - k))
    ensures Rotate(c, k)[t] == c[if t < |c| - k then k + t else t - (|c| - k)]
  {
  }

  lemma CanonicalWitnessOfClose(c: seq<Id>)
    requires c != []
    ensures CanonicalWitness(Close(c)) == Rotate(c, SmallestIndex(c)) + [c[SmallestIndex(c)]]
  {
    assert Close(c)[..|c|] == c;
    var s := SmallestIndex(c);
    assert Close(c)[s..|c|] == c[s..] && Close(c)[..s] == c[..s];
  }

  lemma LeastPosition(c: seq<Id>, a: nat)
    requires NoRepeats(c) && a < |c| && AtMost(c[a], c[SmallestIndex(c)])
    ensures SmallestIndex(c) == a
  {
    var s := SmallestIndex(c);
    assert AtMost(c[s], c[a]);
    if c[s] != c[a] { BeforeAsymmetric(c[s], c[a]); }
  }

  lemma SmallestAfterRotate(c: seq<Id>, k: nat)
    requires c != [] && NoRepeats(c) && k < |c|
    ensures var t := SmallestIndex(Rotate(c, k));
            SmallestIndex(c) == if t < |c| - k then k + t else t - (|c| - k)
  {
    var n, r := |c|, Rotate(c, k);
    var s, t := SmallestIndex(c), SmallestIndex(r);
    var a := if t < n - k then k + t else t - (n - k);
    RotateTwice(c, k, t);
    var b := if s >= k then s - k else s + (n - k);
    RotateTwice(c, k, b);
    assert r[t] == c[a] && r[b] == c[s];
    LeastPosition(c, a);
  }

  /** Wherever a simple cycle is entered, it is reported the same way. */
  lemma WitnessRotationInvariant(c: seq<Id>, k: nat)
    requires c != [] && NoRepeats(c) && k < |c|
    ensures CanonicalWitness(Close(Rotate(c, k))) == CanonicalWitness(Close(c))
  {
    var r := Rotate(c, k);
    CanonicalWitnessOfClose(c);
    CanonicalWitnessOfClose(r);
    SmallestAfterRotate(c, k);
    RotateTwice(c, k, SmallestIndex(r));
  }
}
