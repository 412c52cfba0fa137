/** What the structural-difference detector reports, exactly. */
module DifferencesExact {
  import opened Options
  import opened Sequences
  import opened Text
  import opened Pointers
  import opened Differences

  function Child(t: Tree, s: Step): (r: Option<Tree>)
    ensures r.Some? ==> r.value < t
  {
    match s
    case Key(k) => if t.Object? && k in t.fields then Some(t.fields[k]) else None
    case Index(i) => if t.List? && i < |t.items| then Some(t.items[i]) else None
  }

  /** The value at a place. */
  function Find(t: Tree, p: Place): Option<Tree>
    decreases |p|
  {
    if p == [] then Some(t)
    else if Child(t, p[0]).None? then None
    else Find(Child(t, p[0]).value, p[1..])
  }

  ghost predicate ContainersAt(a: Tree, b: Tree, p: Place) {
    Find(a, p).Some? && Find(b, p).Some? && SameContainer(Find(a, p).value, Find(b, p).value)
  }

  /** A place where the trees first part ways: above it both sides hold the same
      kind of container; at it one side is absent, or both are present with
      unequal values that cannot be compared further. */
  ghost predicate PartsAt(a: Tree, b: Tree, p: Place) {
    && (forall i :: 0 <= i < |p| ==> ContainersAt(a, b, p[..i]))
    && (Find(a, p).Some? || Find(b, p).Some?)
    && (Find(a, p).Some? && Find(b, p).Some? ==>
      Find(a, p) != Find(b, p) && !SameContainer(Find(a, p).value, Find(b, p).value))
  }

  /** The same, step by step. */
  ghost predicate PartsFrom(a: Tree, b: Tree, p: Place)
    decreases |p|
  {
    if p == [] then a != b && !SameContainer(a, b)
    else
      var x, y := Child(a, p[0]), Child(b, p[0]);
      SameContainer(a, b) &&
      if x.Some? && y.Some? then PartsFrom(x.value, y.value, p[1..])
      else (x.Some? || y.Some?) && p[1..] == []
  }

  lemma {:induction false} PartsStepwise(a: Tree, b: Tree, p: Place)
    ensures PartsFrom(a, b, p) <==> PartsAt(a, b, p)
    decreases |p|
  {
    if p != [] {
      var x, y, rest := Child(a, p[0]), Child(b, p[0]), p[1..];
      assert p[..0] == [];
      if x.Some? && y.Some? {
        PartsStepwise(x.value, y.value, rest);
        forall i | 0 < i < |p|
          ensures Find(a, p[..i]) == Find(x.value, rest[..i - 1]) && Find(b, p[..i]) == Find(y.value, rest[..i - 1])
        {
          assert p[..i][1..] == rest[..i - 1];
        }
        if PartsAt(a, b, p) {
          assert ContainersAt(a, b, p[..0]);
          forall i | 0 <= i < |rest|
            ensures ContainersAt(x.value, y.value, rest[..i])
          {
            assert ContainersAt(a, b, p[..i + 1]);
          }
        }
        if SameContainer(a, b) && PartsAt(x.value, y.value, rest) {
          forall i | 0 <= i < |p|
            ensures ContainersAt(a, b, p[..i])
          {
            if i > 0 { assert ContainersAt(x.value, y.value, rest[..i - 1]); }
          }
        }
      } else {
        var one := p[..1];
        assert one[0] == p[0] && !ContainersAt(a, b, one);
        if PartsAt(a, b, p) {
          assert ContainersAt(a, b, p[..0]);
          assert |p| > 1 ==> ContainersAt(a, b, one);
        }
        if SameContainer(a, b) && rest == [] {
          assert |p| == 1 && Find(a, p) == x && Find(b, p) == y;
          forall i | 0 <= i < |p|
            ensures ContainersAt(a, b, p[..i])
          {
            assert p[..i] == [];
          }
        }
      }
    }
  }

  lemma AtMembers(step: Step, ds: seq<Difference>, d: Difference)
    ensures d in At(step, ds) <==> d.place != [] && d.place[0] == step && Difference(d.place[1..], d.both) in ds
  {
    if d in At(step, ds) {
      var i :| 0 <= i < |ds| && At(step, ds)[i] == d;
      assert d.place[1..] == ds[i].place;
      assert Difference(d.place[1..], d.both) == ds[i];
    }
    if d.place != [] && d.place[0] == step && Difference(d.place[1..], d.both) in ds {
      var i :| 0 <= i < |ds| && ds[i] == Difference(d.place[1..], d.both);
      assert At(step, ds)[i].place == d.place;
      assert At(step, ds)[i] == d;
    }
  }

  /** The differences an element of a container accounts for. */
  ghost predicate Accounted(a: Tree, b: Tree, d: Difference, step: Step) {
    match step
    case Key(k) => a.Object? && b.Object? && d in At(step, Below(a.fields, b.fields, k))
    case Index(i) => a.List? && b.List? && d in At(step, BelowItem(a.items, b.items, i))
  }

  lemma {:induction false} KeysMembers(a: Tree, b: Tree, keys: seq<string>, d: Difference)
    requires a.Object? && b.Object?
    ensures d in CompareKeys(a, b, keys)
      <==> d.place != [] && d.place[0].Key? && d.place[0].key in keys && Accounted(a, b, d, d.place[0])
    decreases |keys|
  {
    if keys != [] {
      KeysMembers(a, b, keys[1..], d);
      AtMembers(Key(keys[0]), Below(a.fields, b.fields, keys[0]), d);
      assert keys == [keys[0]] + keys[1..];
    }
  }

  lemma {:induction false} ItemsMembers(a: Tree, b: Tree, i: nat, d: Difference)
    requires a.List? && b.List? && i <= Max(|a.items|, |b.items|)
    ensures d in CompareItems(a, b, i)
       <==> d.place != [] && d.place[0].Index? && i <= d.place[0].index < Max(|a.items|, |b.items|)
              && Accounted(a, b, d, d.place[0])
    decreases Max(|a.items|, |b.items|) - i
  {
    if i < Max(|a.items|, |b.items|) {
      ItemsMembers(a, b, i + 1, d);
      AtMembers(Index(i), BelowItem(a.items, b.items, i), d);
    }
  }

  ghost predicate Reported(a: Tree, b: Tree, d: Difference) {
    PartsFrom(a, b, d.place) && (d.both <==> Find(a, d.place).Some? && Find(b, d.place).Some?)
  }

  lemma {:induction false} CompareReports(a: Tree, b: Tree, d: Difference)
    ensures d in Compare(a, b) <==> Reported(a, b, d)
    decreases a
  {
    if SameContainer(a, b) {
      var top := d.place;
      if a.Object? {
        KeysMembers(a, b, SortedSet(a.fields.Keys + b.fields.Keys), d);
      } else {
        ItemsMembers(a, b, 0, d);
      }
      if top != [] && (top[0].Key? <==> a.Object?) {
        ElementReports(a, b, d);
      }
    }
  }

  lemma {:induction false} ElementReports(a: Tree, b: Tree, d: Difference)
    requires SameContainer(a, b) && d.place != []
    requires (d.place[0].Key? <==> a.Object?)
    ensures var x, y := Child(a, d.place[0]), Child(b, d.place[0]);
            x.Some? || y.Some? ==> (Accounted(a, b, d, d.place[0]) <==> Reported(a, b, d))
    decreases a, 0
  {
    var step, rest := d.place[0], Difference(d.place[1..], d.both);
    var x, y := Child(a, step), Child(b, step);
    AtMembers(step,
      if step.Key? then Below(a.fields, b.fields, step.key) else BelowItem(a.items, b.items, step.index), d);
    if x.Some? && y.Some? {
      CompareReports(x.value, y.value, rest);
    }
  }

  /** A difference is reported exactly at the places where the trees part ways,
      marked by whether both sides are present there. */
  lemma CompareExact(a: Tree, b: Tree, d: Difference)
    ensures d in Compare(a, b)
      <==> PartsAt(a, b, d.place) && (d.both <==> Find(a, d.place).Some? && Find(b, d.place).Some?)
  {
    CompareReports(a, b, d);
    PartsStepwise(a, b, d.place);
  }

  // ----- Emptiness, symmetry, order

  lemma {:induction false} UnequalParts(a: Tree, b: Tree) returns (p: Place)
    requires a != b
    ensures PartsFrom(a, b, p)
    decreases a
  {
    if !SameContainer(a, b) {
      p := [];
    } else {
      var step := UnequalStep(a, b);
      var x, y := Child(a, step), Child(b, step);
      p := [step];
      if x.Some? && y.Some? {
        var rest := UnequalParts(x.value, y.value);
        p := [step] + rest;
        assert p[1..] == rest;
      }
    }
  }

  lemma UnequalStep(a: Tree, b: Tree) returns (step: Step)
    requires a != b && SameContainer(a, b)
    ensures Child(a, step) != Child(b, step)
  {
    if a.Object? {
      if a.fields.Keys != b.fields.Keys {
        var k :| k in a.fields.Keys + b.fields.Keys && !(k in a.fields && k in b.fields);
        step := Key(k);
      } else {
        var k :| k in a.fields && a.fields[k] != b.fields[k];
        step := Key(k);
      }
    } else {
      if |a.items| != |b.items| {
        step := Index(if |a.items| < |b.items| then |a.items| else |b.items|);
      } else {
        var i :| 0 <= i < |a.items| && a.items[i] != b.items[i];
        step := Index(i);
      }
    }
  }

  lemma {:induction false} PartsUnequal(a: Tree, b: Tree, p: Place)
    requires PartsFrom(a, b, p)
    ensures a != b
    decreases |p|
  {
    if p != [] {
      var x, y := Child(a, p[0]), Child(b, p[0]);
      if x.Some? && y.Some? {
        PartsUnequal(x.value, y.value, p[1..]);
      }
    }
  }

  /** Nothing is reported exactly when the trees are equal. */
  lemma EmptyExact(a: Tree, b: Tree)
    ensures Compare(a, b) == [] <==> a == b
  {
    if a != b {
      var p := UnequalParts(a, b);
      CompareReports(a, b, Difference(p, Find(a, p).Some? && Find(b, p).Some?));
    } else if Compare(a, b) != [] {
      var d := Compare(a, b)[0];
      CompareReports(a, b, d);
      PartsUnequal(a, b, d.place);
    }
  }

  lemma {:induction false} CompareSymmetric(a: Tree, b: Tree)
    ensures Compare(a, b) == Compare(b, a)
    decreases a, 1, 0
  {
    if a.Object? && b.Object? {
      assert a.fields.Keys + b.fields.Keys == b.fields.Keys + a.fields.Keys;
      KeysSymmetric(a, b, SortedSet(a.fields.Keys + b.fields.Keys));
    } else if a.List? && b.List? {
      ItemsSymmetric(a, b, 0);
    }
  }

  lemma {:induction false} KeysSymmetric(a: Tree, b: Tree, keys: seq<string>)
    requires a.Object? && b.Object?
    ensures CompareKeys(a, b, keys) == CompareKeys(b, a, keys)
    decreases a, 0, |keys|
  {
    if keys != [] {
      var k := keys[0];
      if k in a.fields && k in b.fields {
        CompareSymmetric(a.fields[k], b.fields[k]);
      }
      KeysSymmetric(a, b, keys[1..]);
    }
  }

  lemma {:induction false} ItemsSymmetric(a: Tree, b: Tree, i: nat)
    requires a.List? && b.List? && i <= Max(|a.items|, |b.items|)
    ensures CompareItems(a, b, i) == CompareItems(b, a, i)
    decreases a, 0, Max(|a.items|, |b.items|) - i
  {
    if i < Max(|a.items|, |b.items|) {
      if i < |a.items| && i < |b.items| {
        CompareSymmetric(a.items[i], b.items[i]);
      }
      ItemsSymmetric(a, b, i + 1);
    }
  }

  /** Swapping the trees reports the same paths and families. */
  lemma SwapKeepsFindings(a: Tree, b: Tree, prefix: string)
    ensures Extend(Findings([], []), prefix, Compare(a, b)) == Extend(Findings([], []), prefix, Compare(b, a))
  {
    CompareSymmetric(a, b);
  }

  /** No reported place lies below another. */
  lemma ReportsIncomparable(a: Tree, b: Tree, d: Difference, e: Difference)
    requires d in Compare(a, b) && e in Compare(a, b)
    ensures !(d.place < e.place)
  {
    CompareExact(a, b, d);
    CompareExact(a, b, e);
    if d.place < e.place {
      ContainersAbove(a, b, d.place, e.place);
    }
  }

  lemma ContainersAbove(a: Tree, b: Tree, p: Place, q: Place)
    requires PartsAt(a, b, q) && p < q
    ensures ContainersAt(a, b, p)
  {
    assert q[..|p|] == p;
  }

  // ----- Agreement elsewhere

  /** Both sides absent, or both present as the same kind of container or as equal values. */
  ghost predicate AgreeAt(a: Tree, b: Tree, p: Place) {
    (Find(a, p).None? && Find(b, p).None?)
    || (Find(a, p).Some? && Find(b, p).Some?
        && (Find(a, p) == Find(b, p) || SameContainer(Find(a, p).value, Find(b, p).value)))
  }

  lemma PrefixBelow(q: Place, p: Place)
    requires p != []
    ensures q <= p[1..] ==> [p[0]] + q <= p
  {
  }

  lemma ReportedInside(a: Tree, b: Tree, step: Step, d: Difference)
    requires SameContainer(a, b) && Child(a, step).Some? && Child(b, step).Some?
    requires d in Compare(Child(a, step).value, Child(b, step).value)
    ensures Difference([step] + d.place, d.both) in Compare(a, b)
  {
    var e := Difference([step] + d.place, d.both);
    assert e.place[1..] == d.place;
    CompareReports(Child(a, step).value, Child(b, step).value, d);
    CompareReports(a, b, e);
  }

  /** A place that is not at or below a reported one agrees on both sides. */
  lemma {:induction false} AgreeElsewhere(a: Tree, b: Tree, p: Place)
    requires forall d :: d in Compare(a, b) ==> !(d.place <= p)
    ensures AgreeAt(a, b, p)
    decreases |p|
  {
    CompareReports(a, b, Difference([], true));
    assert a == b || SameContainer(a, b);
    if p != [] {
      var x, y := Child(a, p[0]), Child(b, p[0]);
      if a == b {
      } else if x.Some? && y.Some? {
        forall d | d in Compare(x.value, y.value)
          ensures !(d.place <= p[1..])
        {
          ReportedInside(a, b, p[0], d);
          PrefixBelow(d.place, p);
        }
        AgreeElsewhere(x.value, y.value, p[1..]);
      } else {
        var e := Difference([p[0]], false);
        assert e.place[1..] == [];
        CompareReports(a, b, e);
        assert e.place <= p;
      }
    }
  }

  // ----- Nothing is lost

  /** Two shadows differ from a tree in the same places, with the same values there. */
  ghost predicate SameDifferences(a: Tree, s: Tree, t: Tree) {
    forall d ::
      (Reported(a, s, d) <==> Reported(a, t, d)) && (Reported(a, s, d) ==> Find(s, d.place) == Find(t, d.place))
  }

  lemma ReportedBelow(a: Tree, b: Tree, step: Step, d: Difference)
    requires SameContainer(a, b) && Child(a, step).Some? && Child(b, step).Some?
    ensures var e := Difference([step] + d.place, d.both);
            && (Reported(a, b, e) <==> Reported(Child(a, step).value, Child(b, step).value, d))
            && Find(b, e.place) == Find(Child(b, step).value, d.place)
  {
    assert ([step] + d.place)[1..] == d.place;
  }

  lemma ReportedOneSide(a: Tree, b: Tree, step: Step)
    requires SameContainer(a, b)
    ensures Reported(a, b, Difference([step], false)) <==> Child(a, step).Some? != Child(b, step).Some?
    ensures Find(b, [step]) == Child(b, step)
  {
    assert [step][1..] == [];
    if Child(a, step).Some? && Child(b, step).Some? {
      ReportedBelow(a, b, step, Difference([], false));
      assert [step] + [] == [step];
    }
  }

  lemma {:induction false} SameChild(a: Tree, s: Tree, t: Tree, step: Step)
    requires SameDifferences(a, s, t) && SameContainer(a, s) && SameContainer(a, t)
    ensures Child(s, step) == Child(t, step)
    decreases a, 0
  {
    ReportedOneSide(a, s, step);
    ReportedOneSide(a, t, step);
    assert Reported(a, s, Difference([step], false)) <==> Reported(a, t, Difference([step], false));
    var x, y, z := Child(a, step), Child(s, step), Child(t, step);
    if x.Some? && y.Some? && z.Some? {
      forall d
        ensures Reported(x.value, y.value, d) <==> Reported(x.value, z.value, d)
        ensures Reported(x.value, y.value, d) ==> Find(y.value, d.place) == Find(z.value, d.place)
      {
        ReportedBelow(a, s, step, d);
        ReportedBelow(a, t, step, d);
        var e := Difference([step] + d.place, d.both);
        assert Reported(a, s, e) <==> Reported(a, t, e);
      }
      Determined(x.value, y.value, z.value);
    }
  }

  lemma {:induction false} Determined(a: Tree, s: Tree, t: Tree)
    requires SameDifferences(a, s, t)
    ensures s == t
    decreases a, 1
  {
    var top := Difference([], true);
    assert Reported(a, s, top) <==> Reported(a, t, top);
    assert Find(s, []) == Some(s) && Find(t, []) == Some(t);
    if Reported(a, s, top) {
    } else if a == s || a == t {
      var u := if a == s then t else s;
      if u != a {
        var p := UnequalParts(a, u);
        var d := Difference(p, Find(a, p).Some? && Find(u, p).Some?);
        assert Reported(a, u, d);
        assert Reported(a, a, d);
        PartsUnequal(a, a, p);
      }
    } else {
      forall step
        ensures Child(s, step) == Child(t, step)
      {
        SameChild(a, s, t, step);
      }
      if s != t {
        var step := UnequalStep(s, t);
      }
    }
  }

  /** The reported places and the values found there determine the other tree:
      two trees that differ from a third in the same places, with the same
      values in those places, are equal. */
  lemma DifferencesDetermine(a: Tree, s: Tree, t: Tree)
    requires forall d :: d in Compare(a, s) <==> d in Compare(a, t)
    requires forall d :: d in Compare(a, s) ==> Find(s, d.place) == Find(t, d.place)
    ensures s == t
  {
    forall d
      ensures Reported(a, s, d) <==> Reported(a, t, d)
      ensures Reported(a, s, d) ==> Find(s, d.place) == Find(t, d.place)
    {
      CompareReports(a, s, d);
      CompareReports(a, t, d);
    }
    Determined(a, s, t);
  }

  // ----- Paths are not confused

  lemma {:induction false} PartsRenderDistinct(a: Tree, b: Tree, p: Place, q: Place)
    requires PartsFrom(a, b, p) && PartsFrom(a, b, q)
    requires Render(p) == Render(q)
    ensures p == q
    decreases |p|
  {
    if p != [] && q != [] {
      RenderSplit(p, q);
      TokenInjective(p[0], q[0]);
      var x, y := Child(a, p[0]), Child(b, p[0]);
      if x.Some? && y.Some? {
        PartsRenderDistinct(x.value, y.value, p[1..], q[1..]);
      }
      assert p == [p[0]] + p[1..] && q == [q[0]] + q[1..];
    }
  }

  /** Distinct reported places have distinct pointers. */
  lemma PointersDistinct(a: Tree, b: Tree, d: Difference, e: Difference)
    requires d in Compare(a, b) && e in Compare(a, b) && Render(d.place) == Render(e.place)
    ensures d == e
  {
    CompareReports(a, b, d);
    CompareReports(a, b, e);
    PartsRenderDistinct(a, b, d.place, e.place);
  }

  ghost predicate PlacesDistinct(ds: seq<Difference>) {
    forall i, j :: 0 <= i < j < |ds| ==> ds[i].place != ds[j].place
  }

  lemma {:induction false} ComparePlacesDistinct(a: Tree, b: Tree)
    ensures PlacesDistinct(Compare(a, b))
    decreases a, 1, 0
  {
    if a.Object? && b.Object? {
      KeysDistinct(a, b, SortedSet(a.fields.Keys + b.fields.Keys));
    } else if a.List? && b.List? {
      ItemsDistinct(a, b, 0);
    }
  }

  lemma DistinctAfter(step: Step, ds: seq<Difference>, rest: seq<Difference>)
    requires PlacesDistinct(ds) && PlacesDistinct(rest)
    requires forall d :: d in rest ==> d.place != [] && d.place[0] != step
    ensures PlacesDistinct(At(step, ds) + rest)
  {
    var all := At(step, ds) + rest;
    forall i, j | 0 <= i < j < |all|
      ensures all[i].place != all[j].place
    {
      if j < |ds| {
        assert all[i].place[1..] == ds[i].place && all[j].place[1..] == ds[j].place;
      } else if i < |ds| {
        assert all[j] in rest && all[i].place[0] == step;
      } else {
        assert all[i] == rest[i - |ds|] && all[j] == rest[j - |ds|];
      }
    }
  }

  lemma {:induction false} KeysDistinct(a: Tree, b: Tree, keys: seq<string>)
    requires a.Object? && b.Object? && forall i, j :: 0 <= i < j < |keys| ==> Before(keys[i], keys[j])
    ensures PlacesDistinct(CompareKeys(a, b, keys))
    decreases a, 0, |keys|
  {
    if keys != [] {
      var k := keys[0];
      if k in a.fields && k in b.fields {
        ComparePlacesDistinct(a.fields[k], b.fields[k]);
      }
      KeysDistinct(a, b, keys[1..]);
      forall d | d in CompareKeys(a, b, keys[1..])
        ensures d.place != [] && d.place[0] != Key(k)
      {
        KeysMembers(a, b, keys[1..], d);
        BeforeIrreflexive(k);
      }
      DistinctAfter(Key(k), Below(a.fields, b.fields, k), CompareKeys(a, b, keys[1..]));
    }
  }

  lemma {:induction false} ItemsDistinct(a: Tree, b: Tree, i: nat)
    requires a.List? && b.List? && i <= Max(|a.items|, |b.items|)
    ensures PlacesDistinct(CompareItems(a, b, i))
    decreases a, 0, Max(|a.items|, |b.items|) - i
  {
    if i < Max(|a.items|, |b.items|) {
      if i < |a.items| && i < |b.items| {
        ComparePlacesDistinct(a.items[i], b.items[i]);
      }
      ItemsDistinct(a, b, i + 1);
      forall d | d in CompareItems(a, b, i + 1)
        ensures d.place != [] && d.place[0] != Index(i)
      {
        ItemsMembers(a, b, i + 1, d);
      }
      DistinctAfter(Index(i), BelowItem(a.items, b.items, i), CompareItems(a, b, i + 1));
    }
  }

  // ----- The difference set

  function PathsOf(ds: seq<Difference>): (r: seq<string>)
    ensures |r| == |ds|
  {
    seq(|ds|, i requires 0 <= i < |ds| => Render(ds[i].place))
  }

  function FamiliesOf(ds: seq<Difference>): (r: seq<Family>)
    ensures |r| == |ds|
  {
    seq(|ds|, i requires 0 <= i < |ds| => Classify(Render(ds[i].place), ds[i].both))
  }

  lemma {:induction false} ExtendAppends(f: Findings, ds: seq<Difference>)
    ensures Extend(f, "", ds) == Findings(f.paths + PathsOf(ds), f.families + FamiliesOf(ds))
    decreases |ds|
  {
    if ds != [] {
      assert "" + Render(ds[0].place) == Render(ds[0].place);
      var next := AddFinding(f, Render(ds[0].place), ds[0].both);
      ExtendAppends(next, ds[1..]);
      FirstFinding(ds);
      Regroup(f.paths, next.paths, PathsOf(ds), PathsOf(ds[1..]));
      Regroup(f.families, next.families, FamiliesOf(ds), FamiliesOf(ds[1..]));
    }
  }

  lemma Regroup<T>(f: seq<T>, next: seq<T>, all: seq<T>, rest: seq<T>)
    requires all != [] && next == f + [all[0]] && all == [all[0]] + rest
    ensures next + rest == f + all
  {
  }

  lemma FirstFinding(ds: seq<Difference>)
    requires ds != []
    ensures PathsOf(ds) == [Render(ds[0].place)] + PathsOf(ds[1..])
    ensures FamiliesOf(ds) == [Classify(Render(ds[0].place), ds[0].both)] + FamiliesOf(ds[1..])
  {
  }

  /** The pointers reported are pairwise distinct, so collecting them into a set drops none. */
  lemma NoPathDropped(a: Tree, b: Tree)
    ensures NoRepeats(PathsOf(Compare(a, b)))
    ensures |set x | x in PathsOf(Compare(a, b))| == |Compare(a, b)|
  {
    var ds := Compare(a, b);
    ComparePlacesDistinct(a, b);
    forall i, j | 0 <= i < j < |ds|
      ensures PathsOf(ds)[i] != PathsOf(ds)[j]
    {
      if Render(ds[i].place) == Render(ds[j].place) {
        PointersDistinct(a, b, ds[i], ds[j]);
      }
    }
    NoRepeatsSet(PathsOf(ds));
  }

  function FamilyName(f: Family): string {
    match f
    case SCOPE => "SCOPE"
    case TEMPORAL => "TEMPORAL"
    case AUTHORITY => "AUTHORITY"
    case EVIDENCE_ADMISSION => "EVIDENCE_ADMISSION"
    case RELABELED => "RELABELED"
    case ADDED_REMOVED => "ADDED_REMOVED"
  }

  /** The sorted sets of families and paths. */
  method ComputeDifferenceSet(primary: Tree, shadow: Tree) returns (families: seq<string>, paths: seq<string>)
    requires primary.Object? && shadow.Object?
    ensures paths == SortedSet(set p | p in PathsOf(Compare(primary, shadow)))
    ensures families == SortedSet(set f | f in FamiliesOf(Compare(primary, shadow)) :: FamilyName(f))
    ensures |paths| == |Compare(primary, shadow)|
    ensures paths == [] <==> primary == shadow
  {
    var log := new DifferenceLog();
    log.CollectDifferences(primary, shadow, "");
    ExtendAppends(Findings([], []), Compare(primary, shadow));
    NoPathDropped(primary, shadow);
    EmptyExact(primary, shadow);
    assert log.paths == PathsOf(Compare(primary, shadow)) && log.families == FamiliesOf(Compare(primary, shadow));
    paths := SortedSet(set p | p in log.paths);
    families := SortedSet(set f | f in log.families :: FamilyName(f));
  }
}
