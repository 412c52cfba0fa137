/** JSON values and their compact text (RFC 8259), with a proof that the text
    determines the value. */
module Json {
  import opened Text

  /** A decoded value. Objects keep the order in which their fields were inserted;
      `Float` and `Other` stand for values the canonical form refuses. */
  datatype Value =
    | Null
    | Bool(b: bool)
    | Int(n: int)
    | Str(s: string)
    | Array(items: seq<Value>)
    | Object(fields: seq<Field>)
    | Float
    | Other(typeName: string)

  datatype Field = Field(key: string, value: Value)

  /** Only values with a JSON text of this fragment, throughout. */
  predicate Plain(v: Value) {
    match v
    case Null => true
    case Bool(_) => true
    case Int(_) => true
    case Str(_) => true
    case Array(items) => forall i :: 0 <= i < |items| ==> Plain(items[i])
    case Object(fields) => forall i :: 0 <= i < |fields| ==> Plain(fields[i].value)
    case Float => false
    case Other(_) => false
  }

  // ----- Text, written in front of what follows it

  function Hex(d: nat): (c: char)
    requires d < 16
    ensures d < 10 ==> c == ('0' as int + d) as char
    ensures d >= 10 ==> c == ('a' as int + d - 10) as char
  {
    if d < 10 then ('0' as int + d) as char else ('a' as int + d - 10) as char
  }

  function EscapeChar(c: char): (s: string)
    ensures s != []
  {
    if c == '"' then ['\\', '"']
    else if c == '\\' then ['\\', '\\']
    else if c == '\n' then ['\\', 'n']
    else if c == '\r' then ['\\', 'r']
    else if c == '\t' then ['\\', 't']
    else if c as int == 8 then ['\\', 'b']
    else if c as int == 12 then ['\\', 'f']
    else if c as int < 32 then ['\\', 'u', '0', '0', Hex(c as int / 16), Hex(c as int % 16)]
    else [c]
  }

  /** The characters of a string, its closing quote, and what follows. */
  function EmitChars(s: string, rest: string): string {
    if s == [] then ['"'] + rest else EscapeChar(s[0]) + EmitChars(s[1..], rest)
  }

  function IntText(n: int): string {
    if n < 0 then ['-'] + Decimal(-n) else Decimal(n)
  }

  function Emit(v: Value, rest: string): string
    decreases v, 1
  {
    match v
    case Null => "null" + rest
    case Bool(b) => (if b then "true" else "false") + rest
    case Int(n) => IntText(n) + rest
    case Str(s) => ['"'] + EmitChars(s, rest)
    case Array(items) =>
      ['['] + (if items == [] then [']'] + rest else Emit(items[0], EmitItems(v, 1, rest)))
    case Object(fields) =>
      ['{'] + (if fields == [] then ['}'] + rest else EmitField(v, 0, rest))
    case Float => rest
    case Other(_) => rest
  }

  /** The items from position `i` on, each after its comma. */
  function EmitItems(v: Value, i: nat, rest: string): string
    requires v.Array? && i <= |v.items|
    decreases v, 0, |v.items| - i
  {
    if i == |v.items| then [']'] + rest else [','] + Emit(v.items[i], EmitItems(v, i + 1, rest))
  }

  function EmitField(v: Value, i: nat, rest: string): string
    requires v.Object? && i < |v.fields|
    decreases v, 0, |v.fields| - i, 0
  {
    ['"'] + EmitChars(v.fields[i].key, [':'] + Emit(v.fields[i].value, EmitFields(v, i + 1, rest)))
  }

  function EmitFields(v: Value, i: nat, rest: string): string
    requires v.Object? && i <= |v.fields|
    decreases v, 0, |v.fields| - i, 1
  {
    if i == |v.fields| then ['}'] + rest else [','] + EmitField(v, i, rest)
  }

  /** `json.dumps` with compact separators. */
  function Encode(v: Value): string {
    Emit(v, "")
  }

  // ----- The text determines the value

  /** What may follow a value. */
  predicate Stops(s: string) {
    s == "" || s[0] in {',', ']', '}'}
  }

  lemma EscapesApart(c: char, d: char, x: string, y: string)
    requires EscapeChar(c) + x == EscapeChar(d) + y
    ensures c == d && x == y
  {
    var p, q := EscapeChar(c), EscapeChar(d);
    assert (p + x)[0] == p[0] && (q + y)[0] == q[0];
    if p[0] == '\\' {
      assert (p + x)[1] == p[1] && (q + y)[1] == q[1];
      if p[1] == 'u' {
        assert (p + x)[4] == p[4] && (q + y)[4] == q[4];
        assert (p + x)[5] == p[5] && (q + y)[5] == q[5];
        HexInjective(c as int / 16, d as int / 16);
        HexInjective(c as int % 16, d as int % 16);
        assert c as int == d as int;
      }
    }
    assert c == d;
    assert (p + x)[|p|..] == x && (q + y)[|q|..] == y;
  }

  lemma HexInjective(a: nat, b: nat)
    requires a < 16 && b < 16 && Hex(a) == Hex(b)
    ensures a == b
  {
  }

  lemma QuoteIsNoEscape(c: char, x: string, y: string)
    ensures EscapeChar(c) + x != ['"'] + y
  {
    assert (EscapeChar(c) + x)[0] == EscapeChar(c)[0];
    assert (['"'] + y)[0] == '"';
  }

  lemma {:induction false} CharsApart(s: string, t: string, x: string, y: string)
    requires EmitChars(s, x) == EmitChars(t, y)
    ensures s == t && x == y
    decreases |s|
  {
    if s == [] && t == [] {
      assert (['"'] + x)[1..] == x && (['"'] + y)[1..] == y;
    } else if s == [] {
      QuoteIsNoEscape(t[0], EmitChars(t[1..], y), x);
    } else if t == [] {
      QuoteIsNoEscape(s[0], EmitChars(s[1..], x), y);
    } else {
      EscapesApart(s[0], t[0], EmitChars(s[1..], x), EmitChars(t[1..], y));
      CharsApart(s[1..], t[1..], x, y);
      assert s == [s[0]] + s[1..] && t == [t[0]] + t[1..];
    }
  }

  function DigitRun(s: string): nat {
    if s == [] || !IsDigit(s[0]) then 0 else 1 + DigitRun(s[1..])
  }

  lemma {:induction false} DigitsEnd(a: string, x: string)
    requires (forall i :: 0 <= i < |a| ==> IsDigit(a[i])) && Stops(x)
    ensures DigitRun(a + x) == |a|
  {
    if a == [] {
      assert a + x == x;
    } else {
      assert (a + x)[1..] == a[1..] + x;
      DigitsEnd(a[1..], x);
    }
  }

  lemma DecimalsApart(m: nat, n: nat, x: string, y: string)
    requires Decimal(m) + x == Decimal(n) + y && Stops(x) && Stops(y)
    ensures m == n && x == y
  {
    var a, b := Decimal(m), Decimal(n);
    DigitsEnd(a, x);
    DigitsEnd(b, y);
    assert (a + x)[..|a|] == a && (b + y)[..|b|] == b;
    assert (a + x)[|a|..] == x && (b + y)[|b|..] == y;
    DecimalInjective(m, n);
  }

  lemma SignFirst(n: int, x: string)
    ensures var s := IntText(n) + x;
            && s != [] && (s[0] == '-' <==> n < 0)
            && (n < 0 ==> s[1..] == Decimal(-n) + x)
            && (n >= 0 ==> s == Decimal(n) + x)
  {
    if n < 0 {
      assert IntText(n) + x == ['-'] + (Decimal(-n) + x);
    } else {
      assert (Decimal(n) + x)[0] == Decimal(n)[0];
    }
  }

  function Magnitude(n: int): nat {
    if n < 0 then -n else n
  }

  lemma SameSign(m: int, n: int, x: string, y: string)
    requires IntText(m) + x == IntText(n) + y
    ensures m < 0 <==> n < 0
    ensures Decimal(Magnitude(m)) + x == Decimal(Magnitude(n)) + y
  {
    SignFirst(m, x);
    SignFirst(n, y);
  }

  lemma IntsApart(m: int, n: int, x: string, y: string)
    requires IntText(m) + x == IntText(n) + y && Stops(x) && Stops(y)
    ensures m == n && x == y
  {
    SameSign(m, n, x, y);
    DecimalsApart(Magnitude(m), Magnitude(n), x, y);
  }

  /** The kind of a value, as its first character shows it. */
  function Kind(c: char): nat {
    if c == 'n' then 0 else if c == 't' then 1 else if c == 'f' then 2 else if c == '-' || IsDigit(c) then 3
    else if c == '"' then 4 else if c == '[' then 5 else if c == '{' then 6 else 7
  }

  function KindOf(v: Value): nat
    requires Plain(v)
  {
    match v
    case Null => 0
    case Bool(b) => if b then 1 else 2
    case Int(_) => 3
    case Str(_) => 4
    case Array(_) => 5
    case Object(_) => 6
  }

  lemma FirstChar(v: Value, rest: string)
    requires Plain(v)
    ensures Emit(v, rest) != [] && Kind(Emit(v, rest)[0]) == KindOf(v)
  {
  }

  lemma DropFirst(c: char, a: string)
    ensures ([c] + a)[1..] == a
  {
  }

  lemma {:induction false} EmitApart(a: Value, b: Value, x: string, y: string)
    requires Plain(a) && Plain(b) && Stops(x) && Stops(y)
    requires Emit(a, x) == Emit(b, y)
    ensures a == b && x == y
    decreases a, 1
  {
    FirstChar(a, x);
    FirstChar(b, y);
    match a
    case Null =>
      assert ("null" + x)[4..] == x && ("null" + y)[4..] == y;
    case Bool(v) =>
      var t := if v then "true" else "false";
      assert (t + x)[|t|..] == x && (t + y)[|t|..] == y;
    case Int(n) => IntsApart(n, b.n, x, y);
    case Str(s) =>
      DropFirst('"', EmitChars(s, x));
      DropFirst('"', EmitChars(b.s, y));
      CharsApart(s, b.s, x, y);
    case Array(items) => ArraysApart(a, b, x, y);
    case Object(fields) => ObjectsApart(a, b, x, y);
  }

  lemma {:induction false} ArraysApart(a: Value, b: Value, x: string, y: string)
    requires a.Array? && b.Array? && Plain(a) && Plain(b) && Stops(x) && Stops(y)
    requires Emit(a, x) == Emit(b, y)
    ensures a == b && x == y
    decreases a, 0, |a.items| + 1
  {
    DropFirst('[', if a.items == [] then [']'] + x else Emit(a.items[0], EmitItems(a, 1, x)));
    DropFirst('[', if b.items == [] then [']'] + y else Emit(b.items[0], EmitItems(b, 1, y)));
    if a.items != [] { FirstChar(a.items[0], EmitItems(a, 1, x)); }
    if b.items != [] { FirstChar(b.items[0], EmitItems(b, 1, y)); }
    assert Kind(']') == 7;
    if a.items == [] {
      DropFirst(']', x);
      DropFirst(']', y);
    } else {
      EmitApart(a.items[0], b.items[0], EmitItems(a, 1, x), EmitItems(b, 1, y));
      ItemsApart(a, b, 1, x, y);
      assert forall k :: 0 <= k < |a.items| ==> a.items[k] == b.items[k];
    }
  }

  lemma {:induction false} ItemsApart(a: Value, b: Value, i: nat, x: string, y: string)
    requires a.Array? && b.Array? && Plain(a) && Plain(b) && Stops(x) && Stops(y)
    requires i <= |a.items| && i <= |b.items|
    requires EmitItems(a, i, x) == EmitItems(b, i, y)
    ensures |a.items| == |b.items| && (forall k :: i <= k < |a.items| ==> a.items[k] == b.items[k]) && x == y
    decreases a, 0, |a.items| - i
  {
    assert EmitItems(a, i, x)[0] == if i == |a.items| then ']' else ',';
    assert EmitItems(b, i, y)[0] == if i == |b.items| then ']' else ',';
    if i == |a.items| {
      DropFirst(']', x);
      DropFirst(']', y);
    } else {
      DropFirst(',', Emit(a.items[i], EmitItems(a, i + 1, x)));
      DropFirst(',', Emit(b.items[i], EmitItems(b, i + 1, y)));
      EmitApart(a.items[i], b.items[i], EmitItems(a, i + 1, x), EmitItems(b, i + 1, y));
      ItemsApart(a, b, i + 1, x, y);
    }
  }

  lemma {:induction false} ObjectsApart(a: Value, b: Value, x: string, y: string)
    requires a.Object? && b.Object? && Plain(a) && Plain(b) && Stops(x) && Stops(y)
    requires Emit(a, x) == Emit(b, y)
    ensures a == b && x == y
    decreases a, 0, |a.fields| + 1, 1
  {
    DropFirst('{', if a.fields == [] then ['}'] + x else EmitField(a, 0, x));
    DropFirst('{', if b.fields == [] then ['}'] + y else EmitField(b, 0, y));
    assert a.fields != [] ==> EmitField(a, 0, x)[0] == '"';
    assert b.fields != [] ==> EmitField(b, 0, y)[0] == '"';
    if a.fields == [] {
      DropFirst('}', x);
      DropFirst('}', y);
    } else {
      FieldApart(a, b, 0, x, y);
      assert forall k :: 0 <= k < |a.fields| ==> a.fields[k] == b.fields[k];
    }
  }

  lemma {:induction false} FieldApart(a: Value, b: Value, i: nat, x: string, y: string)
    requires a.Object? && b.Object? && Plain(a) && Plain(b) && Stops(x) && Stops(y)
    requires i < |a.fields| && i < |b.fields|
    requires EmitField(a, i, x) == EmitField(b, i, y)
    ensures |a.fields| == |b.fields| && (forall k :: i <= k < |a.fields| ==> a.fields[k] == b.fields[k]) && x == y
    decreases a, 0, |a.fields| - i, 0
  {
    var f, g := a.fields[i], b.fields[i];
    var p, q := Emit(f.value, EmitFields(a, i + 1, x)), Emit(g.value, EmitFields(b, i + 1, y));
    DropFirst('"', EmitChars(f.key, [':'] + p));
    DropFirst('"', EmitChars(g.key, [':'] + q));
    CharsApart(f.key, g.key, [':'] + p, [':'] + q);
    DropFirst(':', p);
    DropFirst(':', q);
    EmitApart(f.value, g.value, EmitFields(a, i + 1, x), EmitFields(b, i + 1, y));
    FieldsApart(a, b, i + 1, x, y);
  }

  lemma {:induction false} FieldsApart(a: Value, b: Value, i: nat, x: string, y: string)
    requires a.Object? && b.Object? && Plain(a) && Plain(b) && Stops(x) && Stops(y)
    requires i <= |a.fields| && i <= |b.fields|
    requires EmitFields(a, i, x) == EmitFields(b, i, y)
    ensures |a.fields| == |b.fields| && (forall k :: i <= k < |a.fields| ==> a.fields[k] == b.fields[k]) && x == y
    decreases a, 0, |a.fields| - i, 1
  {
    assert EmitFields(a, i, x)[0] == if i == |a.fields| then '}' else ',';
    assert EmitFields(b, i, y)[0] == if i == |b.fields| then '}' else ',';
    if i == |a.fields| {
      DropFirst('}', x);
      DropFirst('}', y);
    } else {
      DropFirst(',', EmitField(a, i, x));
      DropFirst(',', EmitField(b, i, y));
      FieldApart(a, b, i, x, y);
    }
  }

  /** Values with the same text are the same value. */
  lemma EncodeInjective(a: Value, b: Value)
    requires Plain(a) && Plain(b) && Encode(a) == Encode(b)
    ensures a == b
  {
    EmitApart(a, b, "", "");
  }
}
