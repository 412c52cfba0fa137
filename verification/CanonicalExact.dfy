/** The canonical form is a complete invariant: two values that normalize have the
    same canonical text exactly when they are the same up to field order and the
    order of set and multiset members. */
module CanonicalExact {
  import opened Sequences
  import opened Text
  import opened Json
  import opened Permutations
  import opened Canonical

  ghost predicate Fits(a: Value, b: Value, p: seq<nat>)
    requires a.Array? && b.Array?
  {
    |a.items| == |b.items| && Permutation(p, |a.items|)
  }

  /** The same value, up to the reorderings the schema allows. */
  ghost predicate Equivalent(a: Value, b: Value, s: Schema)
    decreases a
  {
    match a
    case Null => b.Null?
    case Bool(x) => b == Bool(x)
    case Int(n) => b == Int(n)
    case Str(t) => b == Str(t)
    case Object(fields) =>
      b.Object? && |fields| == |b.fields|
      && forall i :: 0 <= i < |fields| ==>
           fields[i].key in KeysOf(b.fields)
           && Equivalent(fields[i].value, b.fields[Position(b.fields, fields[i].key)].value,
                         PropertySchema(s, fields[i].key))
    case Array(items) =>
      b.Array? &&
      if IsUnordered(s.kind) then
        exists p :: Fits(a, b, p) && forall i :: 0 <= i < |items| ==> Equivalent(items[i], b.items[p[i]], ItemSchema(s))
      else
        |items| == |b.items| && forall i :: 0 <= i < |items| ==> Equivalent(items[i], b.items[i], ItemSchema(s))
    case _ => false
  }

  // ----- What normalizes, and to what

  lemma {:induction false} FieldsAt(v: Value, keys: seq<string>, s: Schema, i: nat)
    requires v.Object? && (forall k :: k in keys ==> k in KeysOf(v.fields)) && i < |keys|
    requires NormalizeFields(v, keys, s).Ok?
    ensures var n := Normalize(v.fields[Position(v.fields, keys[i])].value, PropertySchema(s, keys[i]));
            n.Ok? && NormalizeFields(v, keys, s).value[i] == Field(keys[i], n.value)
    decreases |keys|
  {
    if i > 0 {
      FieldsAt(v, keys[1..], s, i - 1);
    }
  }

  lemma {:induction false} ItemsAt(v: Value, n: nat, s: Schema, i: nat)
    requires v.Array? && n <= |v.items| && i < n
    requires NormalizeItems(v, n, s).Ok?
    ensures Normalize(v.items[i], s).Ok? && NormalizeItems(v, n, s).value[i] == Normalize(v.items[i], s).value
  {
    if i < n - 1 {
      ItemsAt(v, n - 1, s, i);
    }
  }

  lemma CollectMembers(items: seq<Value>, kind: string)
    requires Collect(items, kind).Ok?
    ensures var c := Collect(items, kind).value; c.Array? && multiset(c.items) == multiset(items)
    ensures forall x :: x in Collect(items, kind).value.items <==> x in items
  {
    SortBySorts(items, Encode);
    var c := Collect(items, kind).value;
    assert forall x :: x in c.items <==> x in multiset(c.items);
    assert forall x :: x in items <==> x in multiset(items);
  }

  /** Normal forms have a JSON text. */
  lemma {:induction false} NormalIsPlain(v: Value, s: Schema)
    requires Normalize(v, s).Ok?
    ensures Plain(Normalize(v, s).value)
    decreases v
  {
    match v
    case Object(fields) =>
      var keys := OrderedKeys(KeysOf(fields));
      var r := NormalizeFields(v, keys, s).value;
      forall i | 0 <= i < |r|
        ensures Plain(r[i].value)
      {
        FieldsAt(v, keys, s, i);
        NormalIsPlain(fields[Position(fields, keys[i])].value, PropertySchema(s, keys[i]));
      }
    case Array(items) =>
      ItemsPlain(v, s);
      var c := Normalize(v, s).value;
      var r := NormalizeItems(v, |items|, ItemSchema(s)).value;
      CollectMembers(r, s.kind);
      forall i | 0 <= i < |c.items|
        ensures Plain(c.items[i])
      {
        assert c.items[i] in c.items;
        var j :| 0 <= j < |r| && r[j] == c.items[i];
      }
    case _ =>
  }

  lemma {:induction false} ItemsPlain(v: Value, s: Schema)
    requires v.Array? && NormalizeItems(v, |v.items|, ItemSchema(s)).Ok?
    ensures var r := NormalizeItems(v, |v.items|, ItemSchema(s)).value; forall i :: 0 <= i < |r| ==> Plain(r[i])
    decreases v, 0
  {
    var r := NormalizeItems(v, |v.items|, ItemSchema(s)).value;
    forall i | 0 <= i < |r|
      ensures Plain(r[i])
    {
      ItemsAt(v, |v.items|, ItemSchema(s), i);
      NormalIsPlain(v.items[i], ItemSchema(s));
    }
  }

  ghost predicate AllPlain(s: seq<Value>) {
    forall i :: 0 <= i < |s| ==> Plain(s[i])
  }

  lemma PlainInjective(s: seq<Value>)
    requires AllPlain(s)
    ensures InjectiveOn(multiset(s), Encode)
  {
    forall x, y | x in multiset(s) && y in multiset(s) && Encode(x) == Encode(y)
      ensures x == y
    {
      assert x in s && y in s;
      EncodeInjective(x, y);
    }
  }

  /** Sorting plain values by their text depends on nothing but the multiset. */
  lemma SortByTextExact(xs: seq<Value>, ys: seq<Value>)
    requires AllPlain(xs)
    ensures SortBy(xs, Encode) == SortBy(ys, Encode) <==> multiset(xs) == multiset(ys)
  {
    SortBySorts(xs, Encode);
    SortBySorts(ys, Encode);
    if multiset(xs) == multiset(ys) {
      PlainInjective(xs);
      OrderedUnique(SortBy(xs, Encode), SortBy(ys, Encode), Encode);
    }
  }

  // ----- Equal normal forms are equivalence

  ghost predicate Normal(a: Value, b: Value, s: Schema) {
    WellFormed(a) && WellFormed(b) && Normalize(a, s).Ok? && Normalize(b, s).Ok?
  }

  lemma {:induction false} SameNormalExact(a: Value, b: Value, s: Schema)
    requires Normal(a, b, s)
    ensures Normalize(a, s) == Normalize(b, s) <==> Equivalent(a, b, s)
    decreases a, 1
  {
    match a
    case Object(fields) =>
      if b.Object? {
        ObjectsExact(a, b, s);
      }
    case Array(items) =>
      if b.Array? {
        ArraysExact(a, b, s);
      }
    case _ =>
  }

  lemma DistinctMultiset(a: seq<string>, b: seq<string>)
    requires NoRepeats(a) && NoRepeats(b) && |a| == |b| && forall k :: k in a ==> k in b
    ensures multiset(a) == multiset(b)
  {
    NoRepeatsSet(a);
    NoRepeatsSet(b);
    var x, y := set k | k in a, set k | k in b;
    assert x <= y;
    SubsetSameSize(x, y);
    assert multiset(a) == multiset(x) && multiset(b) == multiset(y);
  }

  lemma SubsetSameSize(x: set<string>, y: set<string>)
    requires x <= y && |x| == |y|
    ensures x == y
  {
    assert y == x + (y - x);
    assert |y| == |x| + |y - x|;
  }

  lemma SameKeysSameOrder(a: seq<string>, b: seq<string>)
    requires multiset(a) == multiset(b)
    ensures OrderedKeys(a) == OrderedKeys(b)
  {
    KeysSorted(a);
    KeysSorted(b);
    OrderedByRank(OrderedKeys(a), OrderedKeys(b));
  }

  lemma {:induction false} ObjectsExact(a: Value, b: Value, s: Schema)
    requires a.Object? && b.Object? && Normal(a, b, s)
    ensures Normalize(a, s) == Normalize(b, s) <==> Equivalent(a, b, s)
    decreases a, 0
  {
    var ka, kb := KeysOf(a.fields), KeysOf(b.fields);
    var oa, ob := OrderedKeys(ka), OrderedKeys(kb);
    var ra, rb := NormalizeFields(a, oa, s).value, NormalizeFields(b, ob, s).value;
    assert Normalize(a, s) == Ok(Object(ra)) && Normalize(b, s) == Ok(Object(rb));
    if ra == rb {
      NormalKeys(a, oa, s);
      NormalKeys(b, ob, s);
      assert oa == ob;
    } else if Equivalent(a, b, s) {
      assert forall k :: k in ka ==> k in kb;
      DistinctMultiset(ka, kb);
      SameKeysSameOrder(ka, kb);
    }
    if oa == ob {
      forall k | 0 <= k < |oa|
        ensures ra[k] == rb[k] <==> FieldsEquivalent(a, b, s, oa[k])
      {
        FieldsAt(a, oa, s, k);
        FieldsAt(b, ob, s, k);
        SameNormalExact(a.fields[Position(a.fields, oa[k])].value, b.fields[Position(b.fields, oa[k])].value,
          PropertySchema(s, oa[k]));
      }
      EquivalentByKey(a, b, s, oa);
      assert ra == rb <==> forall k :: 0 <= k < |oa| ==> ra[k] == rb[k];
    }
  }

  ghost predicate FieldsEquivalent(a: Value, b: Value, s: Schema, key: string)
    requires a.Object? && b.Object? && key in KeysOf(a.fields) && key in KeysOf(b.fields)
  {
    Equivalent(a.fields[Position(a.fields, key)].value, b.fields[Position(b.fields, key)].value, PropertySchema(s, key))
  }

  lemma NormalKeys(v: Value, keys: seq<string>, s: Schema)
    requires v.Object? && (forall k :: k in keys ==> k in KeysOf(v.fields)) && NormalizeFields(v, keys, s).Ok?
    ensures KeysOf(NormalizeFields(v, keys, s).value) == keys
  {
    forall i | 0 <= i < |keys|
      ensures NormalizeFields(v, keys, s).value[i].key == keys[i]
    {
      FieldsAt(v, keys, s, i);
    }
  }

  lemma EquivalentByKey(a: Value, b: Value, s: Schema, keys: seq<string>)
    requires a.Object? && b.Object? && WellFormed(a) && |a.fields| == |b.fields|
    requires forall k :: k in keys <==> k in KeysOf(a.fields)
    requires forall k :: k in keys <==> k in KeysOf(b.fields)
    ensures Equivalent(a, b, s) <==> forall i :: 0 <= i < |keys| ==> FieldsEquivalent(a, b, s, keys[i])
  {
    forall i | 0 <= i < |a.fields|
      ensures a.fields[i].key in keys && Position(a.fields, a.fields[i].key) == i
    {
      assert KeysOf(a.fields)[i] == a.fields[i].key;
      var j := Position(a.fields, a.fields[i].key);
      assert KeysOf(a.fields)[j] == a.fields[i].key;
    }
    if Equivalent(a, b, s) {
      forall i | 0 <= i < |keys|
        ensures FieldsEquivalent(a, b, s, keys[i])
      {
        assert keys[i] in keys;
        var j := Position(a.fields, keys[i]);
        assert a.fields[j].key == keys[i];
      }
    }
    if forall i :: 0 <= i < |keys| ==> FieldsEquivalent(a, b, s, keys[i]) {
      forall i | 0 <= i < |a.fields|
        ensures a.fields[i].key in KeysOf(b.fields)
        ensures Equivalent(a.fields[i].value, b.fields[Position(b.fields, a.fields[i].key)].value,
                           PropertySchema(s, a.fields[i].key))
      {
        var k :| 0 <= k < |keys| && keys[k] == a.fields[i].key;
        assert FieldsEquivalent(a, b, s, keys[k]);
      }
    }
  }

  lemma {:induction false} ArraysExact(a: Value, b: Value, s: Schema)
    requires a.Array? && b.Array? && Normal(a, b, s)
    ensures Normalize(a, s) == Normalize(b, s) <==> Equivalent(a, b, s)
    decreases a, 0
  {
    var t := ItemSchema(s);
    var xs, ys := NormalizeItems(a, |a.items|, t).value, NormalizeItems(b, |b.items|, t).value;
    forall i, j | 0 <= i < |xs| && 0 <= j < |ys|
      ensures xs[i] == ys[j] <==> Equivalent(a.items[i], b.items[j], t)
    {
      ItemsAt(a, |a.items|, t, i);
      ItemsAt(b, |b.items|, t, j);
      SameNormalExact(a.items[i], b.items[j], t);
    }
    if IsUnordered(s.kind) {
      ItemsPlain(a, s);
      SortByTextExact(xs, ys);
      UnorderedExact(a, b, s, xs, ys);
    } else {
      assert Normalize(a, s) == Ok(Array(xs)) && Normalize(b, s) == Ok(Array(ys));
      assert xs == ys <==> |xs| == |ys| && forall i :: 0 <= i < |xs| ==> xs[i] == ys[i];
      assert forall i :: 0 <= i < |xs| && i < |ys| ==> (xs[i] == ys[i] <==> Equivalent(a.items[i], b.items[i], t));
    }
  }

  lemma UnorderedExact(a: Value, b: Value, s: Schema, xs: seq<Value>, ys: seq<Value>)
    requires a.Array? && b.Array? && IsUnordered(s.kind) && |xs| == |a.items| && |ys| == |b.items|
    requires forall i, j :: 0 <= i < |xs| && 0 <= j < |ys| ==>
      (xs[i] == ys[j] <==> Equivalent(a.items[i], b.items[j], ItemSchema(s)))
    ensures multiset(xs) == multiset(ys) <==> Equivalent(a, b, s)
  {
    if multiset(xs) == multiset(ys) {
      var p := SameMultisetReads(xs, ys);
      assert Fits(a, b, p);
      assert forall i :: 0 <= i < |xs| ==> xs[i] == ys[p[i]];
    }
    if Equivalent(a, b, s) {
      var p :| Fits(a, b, p) && forall i :: 0 <= i < |a.items| ==> Equivalent(a.items[i], b.items[p[i]], ItemSchema(s));
      assert Reads(xs, ys, p);
      ReadsSameMultiset(xs, ys, p);
    }
  }

  /** Two values that normalize have the same canonical text exactly when they
      are equivalent under the schema. */
  lemma CanonicalBytesExact(a: Value, b: Value, s: Schema)
    requires Normal(a, b, s)
    ensures CanonicalBytes(a, s) == CanonicalBytes(b, s) <==> Equivalent(a, b, s)
  {
    SameNormalExact(a, b, s);
    NormalIsPlain(a, s);
    NormalIsPlain(b, s);
    var x, y := Normalize(a, s).value, Normalize(b, s).value;
    if CanonicalBytes(a, s) == CanonicalBytes(b, s) {
      assert (Encode(x) + "\n")[..|Encode(x)|] == Encode(x) && (Encode(y) + "\n")[..|Encode(y)|] == Encode(y);
      EncodeInjective(x, y);
    }
  }

  // ----- Duplicates

  lemma AdjacentExact(items: seq<Value>)
    requires Ordered(items, Encode) && AllPlain(items)
    ensures AdjacentEqual(items) <==> exists i, j :: 0 <= i < j < |items| && items[i] == items[j]
  {
    if AdjacentEqual(items) {
      var i :| 0 <= i < |items| - 1 && Encode(items[i]) == Encode(items[i + 1]);
      EncodeInjective(items[i], items[i + 1]);
    }
    if exists i, j :: 0 <= i < j < |items| && items[i] == items[j] {
      var i, j :| 0 <= i < j < |items| && items[i] == items[j];
      EqualAreAdjacent(items, i, j);
    }
  }

  lemma EqualAreAdjacent(items: seq<Value>, i: nat, j: nat)
    requires Ordered(items, Encode) && i < j < |items| && items[i] == items[j]
    ensures Encode(items[i]) == Encode(items[i + 1])
  {
    if i + 1 < j {
      OrderedPairs(items, Encode, i + 1, j);
      if Encode(items[i]) != Encode(items[i + 1]) {
        BeforeAsymmetric(Encode(items[i]), Encode(items[i + 1]));
      }
    }
  }

  lemma RepeatCounted(items: seq<Value>, i: nat, j: nat)
    requires i < j < |items| && items[i] == items[j]
    ensures multiset(items)[items[i]] >= 2
  {
    assert items == items[..j] + items[j..];
    assert items[..j][i] in multiset(items[..j]) && items[j..][0] in multiset(items[j..]);
  }

  lemma CountedRepeats(items: seq<Value>, x: Value)
    requires multiset(items)[x] >= 2
    ensures exists i, j :: 0 <= i < j < |items| && items[i] == items[j]
  {
    assert x in multiset(items);
    var i :| 0 <= i < |items| && items[i] == x;
    DropMultiset(items, i);
    assert x in multiset(Drop(items, i));
    var j :| 0 <= j < |Drop(items, i)| && Drop(items, i)[j] == x;
    var k := if j < i then j else j + 1;
    assert items[k] == x && k != i;
    if i < k { assert items[i] == items[k]; } else { assert items[k] == items[i]; }
  }

  lemma RepeatsExact(items: seq<Value>)
    ensures (exists i, j :: 0 <= i < j < |items| && items[i] == items[j]) <==> exists x :: multiset(items)[x] >= 2
  {
    forall i, j | 0 <= i < j < |items| && items[i] == items[j]
      ensures multiset(items)[items[i]] >= 2
    {
      RepeatCounted(items, i, j);
    }
    forall x | multiset(items)[x] >= 2
      ensures exists i, j :: 0 <= i < j < |items| && items[i] == items[j]
    {
      CountedRepeats(items, x);
    }
  }

  /** A set whose members all normalize is refused, as having a duplicate,
      exactly when two members at different positions are equivalent. */
  lemma DuplicateExact(v: Value, s: Schema)
    requires v.Array? && WellFormed(v) && s.kind == "SET"
    requires forall i :: 0 <= i < |v.items| ==> Normalize(v.items[i], ItemSchema(s)).Ok?
    ensures Normalize(v, s) == Err(DUPLICATE_SET_MEMBER)
       <==> exists i, j :: 0 <= i < j < |v.items| && Equivalent(v.items[i], v.items[j], ItemSchema(s))
  {
    ItemsNormalize(v, |v.items|, ItemSchema(s));
    var xs := NormalizeItems(v, |v.items|, ItemSchema(s)).value;
    assert Normalize(v, s) == Collect(xs, "SET");
    ItemsPlain(v, s);
    CollectRefuses(xs);
    RepeatsExact(xs);
    RepeatsAreEquivalent(v, s);
  }

  lemma RepeatsAreEquivalent(v: Value, s: Schema)
    requires v.Array? && WellFormed(v) && NormalizeItems(v, |v.items|, ItemSchema(s)).Ok?
    ensures var xs := NormalizeItems(v, |v.items|, ItemSchema(s)).value;
            (exists i, j :: 0 <= i < j < |xs| && xs[i] == xs[j])
            <==> exists i, j :: 0 <= i < j < |v.items| && Equivalent(v.items[i], v.items[j], ItemSchema(s))
  {
    var t := ItemSchema(s);
    var xs := NormalizeItems(v, |v.items|, t).value;
    forall i, j | 0 <= i < j < |v.items|
      ensures xs[i] == xs[j] <==> Equivalent(v.items[i], v.items[j], t)
    {
      ItemsAt(v, |v.items|, t, i);
      ItemsAt(v, |v.items|, t, j);
      SameNormalExact(v.items[i], v.items[j], t);
    }
  }

  lemma CollectRefuses(xs: seq<Value>)
    requires AllPlain(xs)
    ensures Collect(xs, "SET").Err? ==> Collect(xs, "SET").error == DUPLICATE_SET_MEMBER
    ensures Collect(xs, "SET").Err? <==> exists x :: multiset(xs)[x] >= 2
  {
    SortBySorts(xs, Encode);
    var sorted := SortBy(xs, Encode);
    forall i | 0 <= i < |sorted|
      ensures Plain(sorted[i])
    {
      assert sorted[i] in multiset(sorted);
      assert sorted[i] in multiset(xs);
    }
    AdjacentExact(sorted);
    RepeatsExact(sorted);
  }

  lemma {:induction false} ItemsNormalize(v: Value, n: nat, s: Schema)
    requires v.Array? && n <= |v.items| && forall i :: 0 <= i < n ==> Normalize(v.items[i], s).Ok?
    ensures NormalizeItems(v, n, s).Ok?
  {
    if n > 0 {
      ItemsNormalize(v, n - 1, s);
    }
  }
}
