/** Permutations of positions, and the multisets they preserve. */
module Permutations {

  /** `p` lists each of the positions 0..n once. */
  ghost predicate Permutation(p: seq<nat>, n: nat) {
    |p| == n && (forall i :: 0 <= i < n ==> p[i] < n) && forall i, j :: 0 <= i < j < n ==> p[i] != p[j]
  }

  /** `xs` is `ys` read in the order `p`. */
  ghost predicate Reads<T>(xs: seq<T>, ys: seq<T>, p: seq<nat>) {
    |xs| == |ys| && Permutation(p, |xs|) && forall i :: 0 <= i < |xs| ==> xs[i] == ys[p[i]]
  }

  function Drop<T>(s: seq<T>, j: nat): (r: seq<T>)
    requires j < |s|
    ensures |r| == |s| - 1
    ensures forall i :: 0 <= i < |r| ==> r[i] == s[if i < j then i else i + 1]
  {
    s[..j] + s[j + 1..]
  }

  lemma DropMultiset<T>(s: seq<T>, j: nat)
    requires j < |s|
    ensures multiset(Drop(s, j)) == multiset(s) - multiset{s[j]}
    ensures s[j] in multiset(s)
  {
    assert s == s[..j] + [s[j]] + s[j + 1..];
  }

  lemma DropEarlier<T>(s: seq<T>, j: nat)
    requires j < |s|
    ensures j == |s| - 1 ==> Drop(s, j) == s[..j]
    ensures j < |s| - 1 ==>
      Drop(s, j) != [] && Drop(s, j)[..|s| - 2] == Drop(s[..|s| - 1], j) && Drop(s, j)[|s| - 2] == s[|s| - 1]
  {
  }

  lemma SplitLast<T>(s: seq<T>)
    requires s != []
    ensures multiset(s[..|s| - 1]) == multiset(s) - multiset{s[|s| - 1]}
    ensures s[|s| - 1] in multiset(s)
  {
    assert s == s[..|s| - 1] + [s[|s| - 1]];
  }

  /** Positions of `Drop(s, j)` as positions of `s`. */
  function Raise(p: seq<nat>, j: nat): (r: seq<nat>)
    ensures |r| == |p| && forall i :: 0 <= i < |p| ==> r[i] == if p[i] < j then p[i] else p[i] + 1
  {
    seq(|p|, i requires 0 <= i < |p| => if p[i] < j then p[i] else p[i] + 1)
  }

  /** Positions of `s` other than `j` as positions of `Drop(s, j)`. */
  function Sink(p: seq<nat>, j: nat): (r: seq<nat>)
    requires forall i :: 0 <= i < |p| ==> p[i] != j
    ensures |r| == |p| && forall i :: 0 <= i < |p| ==> r[i] == if p[i] < j then p[i] else p[i] - 1
  {
    seq(|p|, i requires 0 <= i < |p| => if p[i] < j then p[i] else p[i] - 1)
  }

  lemma {:induction false} SameMultisetReads<T>(xs: seq<T>, ys: seq<T>) returns (p: seq<nat>)
    requires multiset(xs) == multiset(ys)
    ensures Reads(xs, ys, p)
  {
    assert |xs| == |multiset(xs)| == |multiset(ys)| == |ys|;
    if xs == [] {
      p := [];
    } else {
      var k := |xs| - 1;
      SplitLast(xs);
      var j :| 0 <= j < |ys| && ys[j] == xs[k];
      DropMultiset(ys, j);
      var q := SameMultisetReads(xs[..k], Drop(ys, j));
      p := Raise(q, j) + [j];
      ExtendReads(xs, ys, q, j);
    }
  }

  lemma ExtendReads<T>(xs: seq<T>, ys: seq<T>, q: seq<nat>, j: nat)
    requires xs != [] && |xs| == |ys| && j < |ys| && ys[j] == xs[|xs| - 1]
    requires Reads(xs[..|xs| - 1], Drop(ys, j), q)
    ensures Reads(xs, ys, Raise(q, j) + [j])
  {
    var k, p := |xs| - 1, Raise(q, j) + [j];
    forall i | 0 <= i < |xs|
      ensures p[i] < |xs| && xs[i] == ys[p[i]]
    {
      if i < k {
        assert xs[..k][i] == xs[i] && xs[i] == Drop(ys, j)[q[i]];
      }
    }
  }

  lemma {:induction false} ReadsSameMultiset<T>(xs: seq<T>, ys: seq<T>, p: seq<nat>)
    requires Reads(xs, ys, p)
    ensures multiset(xs) == multiset(ys)
  {
    if xs != [] {
      var k := |xs| - 1;
      var j := p[k];
      SplitLast(xs);
      DropMultiset(ys, j);
      assert forall i :: 0 <= i < k ==> p[..k][i] == p[i] && p[i] != j;
      var q := Sink(p[..k], j);
      SinkReads(xs, ys, p);
      ReadsSameMultiset(xs[..k], Drop(ys, j), q);
      assert multiset(xs) == multiset(xs[..k]) + multiset{xs[k]};
      assert multiset(ys) == multiset(Drop(ys, j)) + multiset{ys[j]};
    }
  }

  lemma SinkReads<T>(xs: seq<T>, ys: seq<T>, p: seq<nat>)
    requires xs != [] && Reads(xs, ys, p)
    requires var k := |xs| - 1; forall i :: 0 <= i < k ==> p[..k][i] != p[k]
    ensures var k := |xs| - 1; Reads(xs[..k], Drop(ys, p[k]), Sink(p[..k], p[k]))
  {
    var k := |xs| - 1;
    var j, q := p[k], Sink(p[..k], p[k]);
    forall i | 0 <= i < k
      ensures q[i] < k && xs[..k][i] == Drop(ys, j)[q[i]]
    {
      assert p[..k][i] == p[i] && xs[i] == ys[p[i]];
    }
    forall a, b | 0 <= a < b < k
      ensures q[a] != q[b]
    {
      assert p[..k][a] == p[a] && p[..k][b] == p[b];
    }
  }
}
