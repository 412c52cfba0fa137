/** Which values the canonical form accepts. */
module CanonicalDomain {
  import opened Json
  import opened Canonical
  import opened CanonicalExact

  /** At any depth: no float or foreign value, no collection of an unknown kind,
      and no set with two members that are equivalent under its item schema. */
  ghost predicate Acceptable(v: Value, s: Schema)
    decreases v
  {
    match v
    case Null => true
    case Bool(_) => true
    case Int(_) => true
    case Str(_) => true
    case Float => false
    case Other(_) => false
    case Object(fields) =>
      forall i :: 0 <= i < |fields| ==> Acceptable(fields[i].value, PropertySchema(s, fields[i].key))
    case Array(items) =>
      && (IsUnordered(s.kind) || s.kind == SEQUENCE)
      && (forall i :: 0 <= i < |items| ==> Acceptable(items[i], ItemSchema(s)))
      && (s.kind == "SET" ==> forall i, j :: 0 <= i < j < |items| ==> !Equivalent(items[i], items[j], ItemSchema(s)))
  }

  lemma {:induction false} ItemsOk(v: Value, n: nat, s: Schema)
    requires v.Array? && n <= |v.items|
    ensures NormalizeItems(v, n, s).Ok? <==> forall i :: 0 <= i < n ==> Normalize(v.items[i], s).Ok?
  {
    if n > 0 {
      ItemsOk(v, n - 1, s);
    }
  }

  /** The value of a field as the normalizer finds it. */
  function FieldAt(v: Value, key: string): Value
    requires v.Object? && key in KeysOf(v.fields)
  {
    v.fields[Position(v.fields, key)].value
  }

  lemma {:induction false} FieldsOk(v: Value, keys: seq<string>, s: Schema)
    requires v.Object? && forall k :: k in keys ==> k in KeysOf(v.fields)
    ensures NormalizeFields(v, keys, s).Ok?
      <==> forall k :: k in keys ==> Normalize(FieldAt(v, k), PropertySchema(s, k)).Ok?
    decreases |keys|
  {
    if keys != [] {
      assert keys == [keys[0]] + keys[1..];
      FieldsOk(v, keys[1..], s);
    }
  }

  lemma ObjectOk(v: Value, s: Schema)
    requires v.Object? && WellFormed(v)
    ensures Normalize(v, s).Ok? <==>
      forall i :: 0 <= i < |v.fields| ==> Normalize(v.fields[i].value, PropertySchema(s, v.fields[i].key)).Ok?
  {
    var keys := KeysOf(v.fields);
    FieldsOk(v, OrderedKeys(keys), s);
    forall i | 0 <= i < |v.fields|
      ensures keys[i] in keys && FieldAt(v, keys[i]) == v.fields[i].value
    {
      assert keys[Position(v.fields, keys[i])] == keys[i];
    }
    forall k | k in keys
      ensures exists i :: 0 <= i < |keys| && keys[i] == k
    {
    }
  }

  lemma ArrayOk(v: Value, s: Schema)
    requires v.Array? && WellFormed(v)
    ensures Normalize(v, s).Ok? <==>
      && (IsUnordered(s.kind) || s.kind == SEQUENCE)
      && (forall i :: 0 <= i < |v.items| ==> Normalize(v.items[i], ItemSchema(s)).Ok?)
      && (s.kind == "SET" ==>
        forall i, j :: 0 <= i < j < |v.items| ==> !Equivalent(v.items[i], v.items[j], ItemSchema(s)))
  {
    ItemsOk(v, |v.items|, ItemSchema(s));
    if s.kind == "SET" && forall i :: 0 <= i < |v.items| ==> Normalize(v.items[i], ItemSchema(s)).Ok? {
      DuplicateExact(v, s);
      CollectError(NormalizeItems(v, |v.items|, ItemSchema(s)).value);
    }
  }

  lemma CollectError(items: seq<Value>)
    ensures Collect(items, "SET").Ok? || Collect(items, "SET") == Err(DUPLICATE_SET_MEMBER)
  {
  }

  /** A value normalizes exactly when it is acceptable. */
  lemma {:induction false} NormalizesExact(v: Value, s: Schema)
    requires WellFormed(v)
    ensures Normalize(v, s).Ok? <==> Acceptable(v, s)
    decreases v
  {
    match v
    case Object(fields) =>
      ObjectOk(v, s);
      forall i | 0 <= i < |fields|
        ensures Normalize(fields[i].value, PropertySchema(s, fields[i].key)).Ok?
          <==> Acceptable(fields[i].value, PropertySchema(s, fields[i].key))
      {
        NormalizesExact(fields[i].value, PropertySchema(s, fields[i].key));
      }
    case Array(items) =>
      ArrayOk(v, s);
      forall i | 0 <= i < |items|
        ensures Normalize(items[i], ItemSchema(s)).Ok? <==> Acceptable(items[i], ItemSchema(s))
      {
        NormalizesExact(items[i], ItemSchema(s));
      }
    case _ =>
  }
}
