/** Taking sequences one element at a time, and sequences without repeats. */
module Sequences {

  ghost predicate NoRepeats<T>(s: seq<T>) {
    forall i, j :: 0 <= i < j < |s| ==> s[i] != s[j]
  }

  /** A sequence without repeats has as many members as positions. */
  lemma {:induction false} NoRepeatsSet<T>(s: seq<T>)
    requires NoRepeats(s)
    ensures |set x | x in s| == |s| && multiset(s) == multiset(set x | x in s)
  {
    if s != [] {
      var k := |s| - 1;
      NoRepeatsSet(s[..k]);
      assert s == s[..k] + [s[k]];
      assert (set x | x in s) == (set x | x in s[..k]) + {s[k]};
    }
  }

  /** One element more than the first `i`. */
  lemma TakeNext<T>(s: seq<T>, i: nat)
    requires i < |s|
    ensures var t := s[..i + 1]; t != [] && t[..|t| - 1] == s[..i] && t[|t| - 1] == s[i]
    ensures s[..i + 1][..i] == s[..i] && s[..i + 1][i] == s[i]
    ensures forall x :: x in s[..i + 1] <==> x in s[..i] || x == s[i]
  {
  }
}
