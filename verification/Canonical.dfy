/** The schema-directed canonical form: keys in a fixed order, sets and multisets
    sorted by their text, duplicates in sets refused. */
module Canonical {
  import opened Sequences
  import opened Text
  import opened Json
  import opened Permutations

  /** What the normalizer reads of a JSON schema. An absent collection kind means
      an ordered sequence, an absent item or property schema the empty one. */
  datatype Schema = Schema(properties: map<string, Schema>, items: Items, kind: string)

  datatype Items = Unspecified | Each(schema: Schema)

  const SEQUENCE := "ORDERED_SEQUENCE"
  const EMPTY := Schema(map[], Unspecified, SEQUENCE)

  datatype Error =
    | FLOAT_PROHIBITED
    | DUPLICATE_SET_MEMBER
    | UNKNOWN_COLLECTION_KIND(kind: string)
    | UNSUPPORTED_TYPE(name: string)

  datatype Result<+T> = Ok(value: T) | Err(error: Error)

  function PropertySchema(s: Schema, key: string): Schema {
    if key in s.properties then s.properties[key] else EMPTY
  }

  function ItemSchema(s: Schema): Schema {
    if s.items.Each? then s.items.schema else EMPTY
  }

  // ----- Objects

  function KeysOf(fields: seq<Field>): (r: seq<string>)
    ensures |r| == |fields| && forall i :: 0 <= i < |fields| ==> r[i] == fields[i].key
  {
    seq(|fields|, i requires 0 <= i < |fields| => fields[i].key)
  }

  /** No object repeats a key, throughout. */
  ghost predicate WellFormed(v: Value) {
    match v
    case Array(items) => forall i :: 0 <= i < |items| ==> WellFormed(items[i])
    case Object(fields) => NoRepeats(KeysOf(fields)) && forall i :: 0 <= i < |fields| ==> WellFormed(fields[i].value)
    case _ => true
  }

  /** `value[key]`, with the position at which it is found. */
  function Position(fields: seq<Field>, key: string): (i: nat)
    requires key in KeysOf(fields)
    ensures i < |fields| && fields[i].key == key
  {
    KeysFirst(fields);
    if fields[0].key == key then 0 else 1 + Position(fields[1..], key)
  }

  lemma KeysFirst(fields: seq<Field>)
    requires KeysOf(fields) != []
    ensures fields != []
    ensures forall k :: k in KeysOf(fields) <==> k == fields[0].key || k in KeysOf(fields[1..])
  {
    assert KeysOf(fields) == [fields[0].key] + KeysOf(fields[1..]);
  }

  /** The key order of the canonical form: the schema version first, then by code point. */
  function Rank(key: string): string {
    if key == "schema_version" then "0" else "1" + key
  }

  lemma RankInjective(a: string, b: string)
    requires Rank(a) == Rank(b)
    ensures a == b
  {
    assert a != "schema_version" ==> Rank(a)[0] == '1' && Rank(a)[1..] == a;
    assert b != "schema_version" ==> Rank(b)[0] == '1' && Rank(b)[1..] == b;
  }

  function OrderedKeys(keys: seq<string>): (r: seq<string>)
    ensures |r| == |keys| && forall k :: k in r <==> k in keys
  {
    KeysSorted(keys);
    SortBy(keys, Rank)
  }

  lemma KeysSorted(keys: seq<string>)
    ensures Ordered(SortBy(keys, Rank), Rank) && multiset(SortBy(keys, Rank)) == multiset(keys)
    ensures forall k :: k in SortBy(keys, Rank) <==> k in keys
  {
    SortBySorts(keys, Rank);
    assert forall k :: k in keys <==> k in multiset(keys);
    assert forall k :: k in SortBy(keys, Rank) <==> k in multiset(SortBy(keys, Rank));
  }

  // ----- Normalization

  function Normalize(v: Value, s: Schema): Result<Value>
    decreases v, 1
  {
    match v
    case Null => Ok(v)
    case Bool(_) => Ok(v)
    case Int(_) => Ok(v)
    case Str(_) => Ok(v)
    case Float => Err(FLOAT_PROHIBITED)
    case Object(fields) =>
      var r := NormalizeFields(v, OrderedKeys(KeysOf(fields)), s);
      if r.Err? then Err(r.error) else Ok(Object(r.value))
    case Array(items) =>
      var r := NormalizeItems(v, |items|, ItemSchema(s));
      if r.Err? then Err(r.error) else Collect(r.value, s.kind)
    case Other(name) => Err(UNSUPPORTED_TYPE(name))
  }

  function NormalizeFields(v: Value, keys: seq<string>, s: Schema): (r: Result<seq<Field>>)
    requires v.Object? && forall k :: k in keys ==> k in KeysOf(v.fields)
    ensures r.Ok? ==> |r.value| == |keys|
    decreases v, 0, |keys|
  {
    if keys == [] then Ok([])
    else
      var i := Position(v.fields, keys[0]);
      var first := Normalize(v.fields[i].value, PropertySchema(s, keys[0]));
      if first.Err? then Err(first.error)
      else
        var rest := NormalizeFields(v, keys[1..], s);
        if rest.Err? then Err(rest.error) else Ok([Field(keys[0], first.value)] + rest.value)
  }

  /** The first `n` items, normalized. */
  function NormalizeItems(v: Value, n: nat, s: Schema): (r: Result<seq<Value>>)
    requires v.Array? && n <= |v.items|
    ensures r.Ok? ==> |r.value| == n
    decreases v, 0, n
  {
    if n == 0 then Ok([])
    else
      var before := NormalizeItems(v, n - 1, s);
      if before.Err? then before
      else
        var last := Normalize(v.items[n - 1], s);
        if last.Err? then Err(last.error) else Ok(before.value + [last.value])
  }

  predicate IsUnordered(kind: string) { kind == "SET" || kind == "MULTISET" }

  predicate AdjacentEqual(items: seq<Value>) {
    exists i :: 0 <= i < |items| - 1 && Encode(items[i]) == Encode(items[i + 1])
  }

  /** What a collection of normalized items becomes under its kind. */
  function Collect(items: seq<Value>, kind: string): Result<Value> {
    if IsUnordered(kind) then
      var sorted := SortBy(items, Encode);
      if kind == "SET" && AdjacentEqual(sorted) then Err(DUPLICATE_SET_MEMBER) else Ok(Array(sorted))
    else if kind != SEQUENCE then Err(UNKNOWN_COLLECTION_KIND(kind))
    else Ok(Array(items))
  }

  function CanonicalBytes(v: Value, s: Schema): Result<string> {
    var n := Normalize(v, s);
    if n.Err? then Err(n.error) else Ok(Encode(n.value) + "\n")
  }

  method Remove(keys: seq<string>, key: string) returns (r: seq<string>)
    requires key in keys && NoRepeats(keys)
    ensures key !in r && multiset(r) == multiset(keys) - multiset{key} && key in multiset(keys)
  {
    var i := 0;
    while keys[i] != key
      invariant i < |keys| && key in keys[i..]
      decreases |keys| - i
    {
      i := i + 1;
    }
    DropMultiset(keys, i);
    r := Drop(keys, i);
  }

  /** The key list as it is built: the schema version is moved to the front. */
  method BuildOrderedKeys(fields: seq<Field>) returns (r: seq<string>)
    requires NoRepeats(KeysOf(fields))
    ensures r == OrderedKeys(KeysOf(fields))
  {
    var keys, first := KeysOf(fields), [];
    KeysSorted(keys);
    if "schema_version" in keys {
      first := ["schema_version"];
      keys := Remove(keys, "schema_version");
    }
    r := first + Sorted(keys);
    SchemaVersionFirst(first, keys);
    assert multiset(r) == multiset(first) + multiset(Sorted(keys));
    SortedSorts(keys);
    OrderedByRank(r, SortBy(KeysOf(fields), Rank));
  }

  lemma RankOrders(a: string, b: string)
    requires b != "schema_version" && (a == "schema_version" || AtMost(a, b))
    ensures AtMost(Rank(a), Rank(b))
  {
    assert Rank(b)[0] == '1' && ("1" + b)[1..] == b;
    if a != "schema_version" {
      assert ("1" + a)[1..] == a;
    }
  }

  lemma SchemaVersionFirst(first: seq<string>, keys: seq<string>)
    requires first == [] || first == ["schema_version"]
    requires "schema_version" !in keys
    ensures Ordered(first + Sorted(keys), Rank)
  {
    SortedSorts(keys);
    var r := first + Sorted(keys);
    assert forall k :: k in Sorted(keys) ==> k in multiset(Sorted(keys));
    assert forall k :: k in multiset(keys) ==> k in keys;
    forall i | 0 <= i < |r| - 1
      ensures AtMost(Rank(r[i]), Rank(r[i + 1]))
    {
      if i < |first| {
        assert r[i + 1] == Sorted(keys)[0] && Sorted(keys)[0] in Sorted(keys);
      } else {
        var a, b := Sorted(keys)[i - |first|], Sorted(keys)[i - |first| + 1];
        assert r[i] == a && r[i + 1] == b && a in Sorted(keys) && b in Sorted(keys);
        assert AtMost(Identity(a), Identity(b));
      }
      RankOrders(r[i], r[i + 1]);
    }
  }

  lemma OrderedByRank(r: seq<string>, t: seq<string>)
    requires Ordered(r, Rank) && Ordered(t, Rank) && multiset(r) == multiset(t)
    ensures r == t
  {
    forall a, b | a in multiset(r) && b in multiset(r) && Rank(a) == Rank(b)
      ensures a == b
    {
      RankInjective(a, b);
    }
    OrderedUnique(r, t, Rank);
  }
}
