/** The structural-difference detector: a mutually recursive comparison of two
    JSON trees that reports the places where they differ. */
module Differences {
  import opened Text
  import opened Pointers

  /** A JSON value as tagged by its runtime type, so that 1, 1.0 and true differ. */
  datatype Tree =
    | Null
    | Bool(b: bool)
    | Int(n: int)
    | Float(r: real)
    | Str(s: string)
    | List(items: seq<Tree>)
    | Object(fields: map<string, Tree>)

  /** A reported place, and whether it is present on both sides. */
  datatype Difference = Difference(place: Place, both: bool)

  predicate SameContainer(a: Tree, b: Tree) {
    (a.Object? && b.Object?) || (a.List? && b.List?)
  }

  function At(step: Step, ds: seq<Difference>): (r: seq<Difference>)
    ensures |r| == |ds|
  {
    seq(|ds|, i requires 0 <= i < |ds| => ds[i].(place := [step] + ds[i].place))
  }

  function Max(a: nat, b: nat): nat { if a > b then a else b }

  /** The differences of two values, by place within them. */
  function Compare(a: Tree, b: Tree): seq<Difference>
    decreases a, 2
  {
    if a.Object? && b.Object? then CompareKeys(a, b, SortedSet(a.fields.Keys + b.fields.Keys))
    else if a.List? && b.List? then CompareItems(a, b, 0)
    else if a != b then [Difference([], true)] else []
  }

  /** The differences at one key, given both field maps. */
  function Below(p: map<string, Tree>, s: map<string, Tree>, k: string): seq<Difference>
    decreases Object(p), 0
  {
    if k in p && k in s then Compare(p[k], s[k]) else [Difference([], false)]
  }

  /** The differences at one index, given both item lists. */
  function BelowItem(p: seq<Tree>, s: seq<Tree>, i: nat): seq<Difference>
    decreases List(p), 0
  {
    if i < |p| && i < |s| then Compare(p[i], s[i]) else [Difference([], false)]
  }

  function CompareKeys(a: Tree, b: Tree, keys: seq<string>): seq<Difference>
    requires a.Object? && b.Object?
    decreases a, 1, |keys|
  {
    if keys == [] then []
    else At(Key(keys[0]), Below(a.fields, b.fields, keys[0])) + CompareKeys(a, b, keys[1..])
  }

  function CompareItems(a: Tree, b: Tree, i: nat): seq<Difference>
    requires a.List? && b.List? && i <= Max(|a.items|, |b.items|)
    decreases a, 1, Max(|a.items|, |b.items|) - i
  {
    if i == Max(|a.items|, |b.items|) then []
    else At(Index(i), BelowItem(a.items, b.items, i)) + CompareItems(a, b, i + 1)
  }

  // ----- The detector as executed

  datatype Family = SCOPE | TEMPORAL | AUTHORITY | EVIDENCE_ADMISSION | RELABELED | ADDED_REMOVED

  function Lower(c: char): char {
    if 'A' <= c <= 'Z' then (c as int + 32) as char else c
  }

  /** Whether the text occurs in the path, ASCII letters taken in lower case. */
  predicate Mentions(path: string, text: string)
    decreases |path|
  {
    (|text| <= |path| && forall i :: 0 <= i < |text| ==> Lower(path[i]) == text[i])
    || (path != [] && Mentions(path[1..], text))
  }

  function Classify(path: string, both: bool): Family {
    if Mentions(path, "scope") then SCOPE
    else if Mentions(path, "temporal") || Mentions(path, "time") || Mentions(path, "sequence")
         || Mentions(path, "valid_from") || Mentions(path, "expires") then TEMPORAL
    else if Mentions(path, "authority") then AUTHORITY
    else if Mentions(path, "evidence") || Mentions(path, "admission") then EVIDENCE_ADMISSION
    else if both then RELABELED else ADDED_REMOVED
  }

  /** The two lists a comparison appends to. */
  datatype Findings = Findings(paths: seq<string>, families: seq<Family>)

  function AddFinding(f: Findings, path: string, both: bool): Findings {
    Findings(f.paths + [path], f.families + [Classify(path, both)])
  }

  /** The lists after the differences of the value at `prefix` have been reported. */
  function Extend(f: Findings, prefix: string, ds: seq<Difference>): Findings
    decreases |ds|
  {
    if ds == [] then f else Extend(AddFinding(f, prefix + Render(ds[0].place), ds[0].both), prefix, ds[1..])
  }

  lemma {:induction false} ExtendTwice(f: Findings, prefix: string, x: seq<Difference>, y: seq<Difference>)
    ensures Extend(Extend(f, prefix, x), prefix, y) == Extend(f, prefix, x + y)
    decreases |x|
  {
    if x == [] {
      assert x + y == y;
    } else {
      assert (x + y)[1..] == x[1..] + y;
      ExtendTwice(AddFinding(f, prefix + Render(x[0].place), x[0].both), prefix, x[1..], y);
    }
  }

  lemma {:induction false} ExtendDeeper(f: Findings, prefix: string, step: Step, ds: seq<Difference>)
    ensures Extend(f, prefix + "/" + Token(step), ds) == Extend(f, prefix, At(step, ds))
    decreases |ds|
  {
    if ds != [] {
      var path := prefix + "/" + Token(step);
      assert ([step] + ds[0].place)[1..] == ds[0].place;
      assert path + Render(ds[0].place) == prefix + Render([step] + ds[0].place);
      assert At(step, ds)[1..] == At(step, ds[1..]);
      ExtendDeeper(AddFinding(f, path + Render(ds[0].place), ds[0].both), prefix, step, ds[1..]);
    }
  }

  /** Reporting below a step, then the rest, is reporting both at the prefix. */
  lemma ExtendBelow(f: Findings, prefix: string, step: Step, ds: seq<Difference>, rest: seq<Difference>)
    ensures Extend(Extend(f, prefix + "/" + Token(step), ds), prefix, rest) == Extend(f, prefix, At(step, ds) + rest)
  {
    ExtendDeeper(f, prefix, step, ds);
    ExtendTwice(f, prefix, At(step, ds), rest);
  }

  lemma ExtendOne(f: Findings, path: string, both: bool)
    ensures AddFinding(f, path, both) == Extend(f, path, [Difference([], both)])
  {
    assert path + Render([]) == path;
    assert [Difference([], both)][1..] == [];
  }

  /** The lists the caller owns and the recursion appends to. */
  class DifferenceLog {
    var paths: seq<string>
    var families: seq<Family>

    ghost function State(): Findings
      reads this
    {
      Findings(paths, families)
    }

    constructor ()
      ensures State() == Findings([], [])
    {
      paths, families := [], [];
    }

    method Report(path: string, both: bool)
      modifies this
      ensures State() == Extend(old(State()), path, [Difference([], both)])
    {
      ExtendOne(State(), path, both);
      paths := paths + [path];
      families := families + [Classify(path, both)];
    }

    method CollectDifferences(primary: Tree, shadow: Tree, prefix: string)
      requires primary.Object? && shadow.Object?
      modifies this
      ensures State() == Extend(old(State()), prefix, Compare(primary, shadow))
      decreases primary, 0
    {
      var keys := SortedSet(primary.fields.Keys + shadow.fields.Keys);
      for i := 0 to |keys|
        invariant Extend(old(State()), prefix, Compare(primary, shadow))
               == Extend(State(), prefix, CompareKeys(primary, shadow, keys[i..]))
      {
        var key := keys[i];
        assert keys[i..][0] == key && keys[i..][1..] == keys[i + 1..];
        var path := prefix + "/" + Escape(key);
        ExtendBelow(State(), prefix, Key(key), Below(primary.fields, shadow.fields, key),
          CompareKeys(primary, shadow, keys[i + 1..]));
        if key in primary.fields && key in shadow.fields {
          CollectValue(primary.fields[key], shadow.fields[key], path);
        } else {
          Report(path, false);
        }
      }
    }

    method CollectListDifferences(primary: Tree, shadow: Tree, prefix: string)
      requires primary.List? && shadow.List?
      modifies this
      ensures State() == Extend(old(State()), prefix, Compare(primary, shadow))
      decreases primary, 0
    {
      var n := Max(|primary.items|, |shadow.items|);
      for i := 0 to n
        invariant Extend(old(State()), prefix, Compare(primary, shadow))
               == Extend(State(), prefix, CompareItems(primary, shadow, i))
      {
        var path := prefix + "/" + Decimal(i);
        ExtendBelow(State(), prefix, Index(i), BelowItem(primary.items, shadow.items, i),
          CompareItems(primary, shadow, i + 1));
        if i < |primary.items| && i < |shadow.items| {
          CollectValue(primary.items[i], shadow.items[i], path);
        } else {
          Report(path, false);
        }
      }
    }

    /** The comparison of two values present at one place, shared by both loops. */
    method CollectValue(primary: Tree, shadow: Tree, path: string)
      modifies this
      ensures State() == Extend(old(State()), path, Compare(primary, shadow))
      decreases primary, 1
    {
      if primary.Object? && shadow.Object? {
        CollectDifferences(primary, shadow, path);
      } else if primary.List? && shadow.List? {
        CollectListDifferences(primary, shadow, path);
      } else if primary != shadow {
        Report(path, true);
      }
    }
  }
}
