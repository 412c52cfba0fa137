/** Normalizing a normal form changes nothing. */
module CanonicalStable {
  import opened Sequences
  import opened Text
  import opened Json
  import opened Canonical
  import opened CanonicalExact

  lemma SortBySorted(xs: seq<Value>)
    requires AllPlain(xs)
    ensures SortBy(SortBy(xs, Encode), Encode) == SortBy(xs, Encode)
  {
    SortBySorts(xs, Encode);
    SortByTextExact(xs, SortBy(xs, Encode));
  }

  lemma {:induction false} NormalizeSettles(v: Value, s: Schema)
    requires WellFormed(v) && Normalize(v, s).Ok?
    ensures WellFormed(Normalize(v, s).value)
    ensures Normalize(Normalize(v, s).value, s) == Normalize(v, s)
    decreases v, 1
  {
    match v
    case Object(_) => ObjectSettles(v, s);
    case Array(_) => ArraySettles(v, s);
    case _ =>
  }

  lemma {:induction false} ObjectSettles(v: Value, s: Schema)
    requires v.Object? && WellFormed(v) && Normalize(v, s).Ok?
    ensures WellFormed(Normalize(v, s).value)
    ensures Normalize(Normalize(v, s).value, s) == Normalize(v, s)
    decreases v, 0
  {
    var ks := KeysOf(v.fields);
    var keys := OrderedKeys(ks);
    var r := NormalizeFields(v, keys, s).value;
    var n := Object(r);
    NormalKeys(v, keys, s);
    KeysSorted(ks);
    KeysSorted(keys);
    OrderedByRank(OrderedKeys(keys), keys);
    DistinctPermuted(ks, keys);
    forall i | 0 <= i < |keys|
      ensures r[i].key == keys[i] && WellFormed(r[i].value)
      ensures Normalize(r[i].value, PropertySchema(s, keys[i])) == Ok(r[i].value)
    {
      FieldsAt(v, keys, s, i);
      NormalizeSettles(v.fields[Position(v.fields, keys[i])].value, PropertySchema(s, keys[i]));
    }
    FieldsSettle(n, 0, s);
    assert keys[0..] == keys && r[0..] == r;
  }

  lemma {:induction false} FieldsSettle(n: Value, i: nat, s: Schema)
    requires n.Object? && i <= |n.fields| && NoRepeats(KeysOf(n.fields))
    requires forall k :: 0 <= k < |n.fields| ==>
      Normalize(n.fields[k].value, PropertySchema(s, n.fields[k].key)) == Ok(n.fields[k].value)
    ensures forall k :: k in KeysOf(n.fields)[i..] ==> k in KeysOf(n.fields)
    ensures NormalizeFields(n, KeysOf(n.fields)[i..], s) == Ok(n.fields[i..])
    decreases |n.fields| - i
  {
    var keys := KeysOf(n.fields);
    if i < |n.fields| {
      FieldsSettle(n, i + 1, s);
      assert keys[i..][0] == keys[i] && keys[i..][1..] == keys[i + 1..];
      assert keys[i] in keys;
      var j := Position(n.fields, keys[i]);
      assert keys[j] == keys[i];
      assert n.fields[i..] == [n.fields[i]] + n.fields[i + 1..];
    }
  }

  lemma DistinctPermuted(a: seq<string>, b: seq<string>)
    requires NoRepeats(a) && multiset(a) == multiset(b)
    ensures NoRepeats(b)
  {
    NoRepeatsSet(a);
    forall i, j | 0 <= i < j < |b|
      ensures b[i] != b[j]
    {
      assert b == b[..j] + b[j..];
      assert b[..j][i] in multiset(b[..j]) && b[j..][0] in multiset(b[j..]);
      assert multiset(b)[b[i]] <= 1;
    }
  }

  lemma {:induction false} ArraySettles(v: Value, s: Schema)
    requires v.Array? && WellFormed(v) && Normalize(v, s).Ok?
    ensures WellFormed(Normalize(v, s).value)
    ensures Normalize(Normalize(v, s).value, s) == Normalize(v, s)
    decreases v, 0
  {
    var t := ItemSchema(s);
    var xs := NormalizeItems(v, |v.items|, t).value;
    var n := Normalize(v, s).value;
    ItemsPlain(v, s);
    CollectMembers(xs, s.kind);
    forall i | 0 <= i < |n.items|
      ensures WellFormed(n.items[i]) && Normalize(n.items[i], t) == Ok(n.items[i])
    {
      assert n.items[i] in n.items;
      var j :| 0 <= j < |xs| && xs[j] == n.items[i];
      ItemsAt(v, |v.items|, t, j);
      NormalizeSettles(v.items[j], t);
    }
    ItemsSettle(n, |n.items|, t);
    assert n.items[..|n.items|] == n.items;
    if IsUnordered(s.kind) {
      SortBySorted(xs);
    }
  }

  lemma {:induction false} ItemsSettle(n: Value, k: nat, s: Schema)
    requires n.Array? && k <= |n.items| && forall i :: 0 <= i < |n.items| ==> Normalize(n.items[i], s) == Ok(n.items[i])
    ensures NormalizeItems(n, k, s) == Ok(n.items[..k])
  {
    if k > 0 {
      ItemsSettle(n, k - 1, s);
      assert n.items[..k] == n.items[..k - 1] + [n.items[k - 1]];
    }
  }

  /** Canonical text is stable: a normal form normalizes to itself. */
  lemma NormalizeIdempotent(v: Value, s: Schema)
    requires WellFormed(v) && Normalize(v, s).Ok?
    ensures Normalize(Normalize(v, s).value, s) == Normalize(v, s)
    ensures CanonicalBytes(Normalize(v, s).value, s) == CanonicalBytes(v, s)
  {
    NormalizeSettles(v, s);
  }
}
