/** Code-point order on strings, sorting by it, and decimal numerals.
    Python compares strings by code point, and UTF-8 preserves that order, so
    one order serves both the string sorts and the byte sorts of the sources. */
module Text {

  /** Strict lexicographic order by code point. */
  predicate Before(a: string, b: string) {
    b != [] && (a == [] || a[0] < b[0] || (a[0] == b[0] && Before(a[1..], b[1..])))
  }

  predicate AtMost(a: string, b: string) {
    a == b || Before(a, b)
  }

  lemma {:induction false} BeforeTotal(a: string, b: string)
    ensures a == b || Before(a, b) || Before(b, a)
  {
    if a != [] && b != [] && a[0] == b[0] {
      BeforeTotal(a[1..], b[1..]);
      assert a == [a[0]] + a[1..] && b == [b[0]] + b[1..];
    }
  }

  lemma {:induction false} BeforeIrreflexive(a: string)
    ensures !Before(a, a)
  {
    if a != [] {
      BeforeIrreflexive(a[1..]);
    }
  }

  lemma {:induction false} BeforeTransitive(a: string, b: string, c: string)
    requires Before(a, b) && Before(b, c)
    ensures Before(a, c)
  {
    if a != [] && a[0] == b[0] == c[0] {
      BeforeTransitive(a[1..], b[1..], c[1..]);
    }
  }

  lemma BeforeAsymmetric(a: string, b: string)
    requires Before(a, b)
    ensures !Before(b, a)
  {
    if Before(b, a) {
      BeforeTransitive(a, b, a);
      BeforeIrreflexive(a);
    }
  }

  /** Adjacent elements are in order of their keys. */
  ghost predicate Ordered<T>(s: seq<T>, key: T -> string) {
    forall i :: 0 <= i < |s| - 1 ==> AtMost(key(s[i]), key(s[i + 1]))
  }

  lemma {:induction false} OrderedPairs<T>(s: seq<T>, key: T -> string, i: nat, j: nat)
    requires Ordered(s, key) && i < j < |s|
    ensures AtMost(key(s[i]), key(s[j]))
    decreases j - i
  {
    if i + 1 < j {
      OrderedPairs(s, key, i + 1, j);
      if key(s[i]) != key(s[i + 1]) && key(s[i + 1]) != key(s[j]) {
        BeforeTransitive(key(s[i]), key(s[i + 1]), key(s[j]));
      }
    }
  }

  function Insert<T>(x: T, s: seq<T>, key: T -> string): (r: seq<T>)
    ensures |r| == |s| + 1 && r[0] in [x] + s
    ensures s != [] ==> r[0] == x || r[0] == s[0]
  {
    if s == [] || AtMost(key(x), key(s[0])) then [x] + s
    else [s[0]] + Insert(x, s[1..], key)
  }

  /** The stable sort of `s` by `key`. */
  function SortBy<T>(s: seq<T>, key: T -> string): (r: seq<T>)
    ensures |r| == |s|
  {
    if s == [] then [] else Insert(s[0], SortBy(s[1..], key), key)
  }

  lemma {:induction false} InsertSorts<T>(x: T, s: seq<T>, key: T -> string)
    requires Ordered(s, key)
    ensures Ordered(Insert(x, s, key), key)
    ensures multiset(Insert(x, s, key)) == multiset{x} + multiset(s)
  {
    if s == [] || AtMost(key(x), key(s[0])) {
    } else {
      BeforeTotal(key(x), key(s[0]));
      assert Ordered(s[1..], key) by {
        forall i | 0 <= i < |s[1..]| - 1
          ensures AtMost(key(s[1..][i]), key(s[1..][i + 1]))
        {
          assert AtMost(key(s[i + 1]), key(s[i + 2]));
        }
      }
      InsertSorts(x, s[1..], key);
      var t := Insert(x, s[1..], key);
      assert s == [s[0]] + s[1..];
      assert AtMost(key(s[0]), key(t[0])) by {
        if |s| > 1 { assert AtMost(key(s[0]), key(s[0 + 1])); }
      }
    }
  }

  lemma {:induction false} SortBySorts<T>(s: seq<T>, key: T -> string)
    ensures Ordered(SortBy(s, key), key)
    ensures multiset(SortBy(s, key)) == multiset(s)
  {
    if s != [] {
      SortBySorts(s[1..], key);
      InsertSorts(s[0], SortBy(s[1..], key), key);
      assert s == [s[0]] + s[1..];
    }
  }

  ghost predicate InjectiveOn<T(!new)>(s: multiset<T>, key: T -> string) {
    forall x, y :: x in s && y in s && key(x) == key(y) ==> x == y
  }

  lemma LeastFirst<T>(s: seq<T>, key: T -> string, x: T)
    requires Ordered(s, key) && x in s
    ensures AtMost(key(s[0]), key(x))
  {
    var j :| 0 <= j < |s| && s[j] == x;
    if j > 0 {
      OrderedPairs(s, key, 0, j);
    }
  }

  lemma SameFirst<T(!new)>(s: seq<T>, t: seq<T>, key: T -> string)
    requires Ordered(s, key) && Ordered(t, key) && s != []
    requires multiset(s) == multiset(t)
    requires InjectiveOn(multiset(s), key)
    ensures t != [] && s[0] == t[0]
  {
    assert |multiset(s)| == |s| && |multiset(t)| == |t|;
    assert s[0] in multiset(s) && t[0] in multiset(t);
    LeastFirst(s, key, t[0]);
    LeastFirst(t, key, s[0]);
    if key(s[0]) != key(t[0]) {
      BeforeAsymmetric(key(s[0]), key(t[0]));
    }
  }

  lemma TailMultiset<T>(s: seq<T>)
    requires s != []
    ensures s == [s[0]] + s[1..]
    ensures multiset(s[1..]) == multiset(s) - multiset{s[0]}
  {
    assert s == [s[0]] + s[1..];
  }

  /** A collection has only one ordered arrangement. */
  lemma {:induction false} OrderedUnique<T(!new)>(s: seq<T>, t: seq<T>, key: T -> string)
    requires Ordered(s, key) && Ordered(t, key)
    requires multiset(s) == multiset(t)
    requires InjectiveOn(multiset(s), key)
    ensures s == t
  {
    if s == [] {
      assert |multiset(t)| == 0;
    } else {
      SameFirst(s, t, key);
      TailMultiset(s);
      TailMultiset(t);
      OrderedTail(s, key);
      OrderedTail(t, key);
      OrderedUnique(s[1..], t[1..], key);
    }
  }

  lemma OrderedTail<T>(s: seq<T>, key: T -> string)
    requires Ordered(s, key) && s != []
    ensures Ordered(s[1..], key)
  {
    forall i | 0 <= i < |s[1..]| - 1
      ensures AtMost(key(s[1..][i]), key(s[1..][i + 1]))
    {
      assert AtMost(key(s[i + 1]), key(s[i + 2]));
    }
  }

  /** `sorted(xs)` on strings. */
  function Sorted(s: seq<string>): (r: seq<string>)
    ensures |r| == |s|
  {
    SortBy(s, Identity)
  }

  function Identity(s: string): string { s }

  lemma SortedSorts(s: seq<string>)
    ensures Ordered(Sorted(s), Identity) && multiset(Sorted(s)) == multiset(s)
  {
    SortBySorts(s, Identity);
  }

  /** `sorted(keys)` for a set of strings. */
  function SortedSet(keys: set<string>): (r: seq<string>)
    ensures forall k :: k in r <==> k in keys
    ensures |r| == |keys|
    ensures forall i, j :: 0 <= i < j < |r| ==> Before(r[i], r[j])
  {
    if keys == {} then [] else
      var m := Least(keys);
      var rest := SortedSet(keys - {m});
      assert keys == {m} + (keys - {m});
      [m] + rest
  }

  function Least(keys: set<string>): (m: string)
    requires keys != {}
    ensures m in keys && forall k :: k in keys - {m} ==> Before(m, k)
  {
    LeastExists(keys);
    LeastUnique(keys);
    var m :| m in keys && forall k :: k in keys ==> AtMost(m, k);
    m
  }

  lemma {:induction false} LeastExists(keys: set<string>)
    requires keys != {}
    ensures exists m :: m in keys && forall k :: k in keys ==> AtMost(m, k)
  {
    var x :| x in keys;
    if keys == {x} {
      assert forall k :: k in keys ==> AtMost(x, k);
    } else {
      assert keys == {x} + (keys - {x});
      LeastExists(keys - {x});
      var m :| m in keys - {x} && forall k :: k in keys - {x} ==> AtMost(m, k);
      LeastWith(keys - {x}, m, x);
    }
  }

  lemma LeastWith(keys: set<string>, m: string, x: string)
    requires m in keys && forall k :: k in keys ==> AtMost(m, k)
    ensures exists n :: n in {x} + keys && forall k :: k in {x} + keys ==> AtMost(n, k)
  {
    BeforeTotal(x, m);
    if Before(x, m) {
      forall k | k in keys
        ensures AtMost(x, k)
      {
        if k != m { BeforeTransitive(x, m, k); }
      }
      assert forall k :: k in {x} + keys ==> AtMost(x, k);
    } else {
      assert forall k :: k in {x} + keys ==> AtMost(m, k);
    }
  }

  lemma LeastUnique(keys: set<string>)
    ensures forall m, n |
      && m in keys && n in keys
      && (forall k :: k in keys ==> AtMost(m, k)) && (forall k :: k in keys ==> AtMost(n, k)) :: m == n
  {
    forall m, n
      | && m in keys && n in keys
        && (forall k :: k in keys ==> AtMost(m, k)) && (forall k :: k in keys ==> AtMost(n, k))
      ensures m == n
    {
      if m != n {
        assert AtMost(m, n) && AtMost(n, m);
        BeforeAsymmetric(m, n);
      }
    }
  }

  // ----- Decimal numerals

  const DIGITS: string := "0123456789"

  predicate IsDigit(c: char) { '0' <= c <= '9' }

  function Digit(d: nat): (c: char)
    requires d < 10
    ensures IsDigit(c)
  {
    DIGITS[d]
  }

  /** `str(n)` for a natural number. */
  function Decimal(n: nat): (s: string)
    ensures s != [] && forall i :: 0 <= i < |s| ==> IsDigit(s[i])
  {
    if n < 10 then [Digit(n)] else Decimal(n / 10) + [Digit(n % 10)]
  }

  lemma {:induction false} DecimalInjective(m: nat, n: nat)
    requires Decimal(m) == Decimal(n)
    ensures m == n
    decreases m
  {
    var s, t := Decimal(m), Decimal(n);
    assert s[|s| - 1] == t[|t| - 1];
    assert m < 10 <==> |s| == 1;
    assert n < 10 <==> |t| == 1;
    if m >= 10 {
      assert Decimal(m / 10) == s[..|s| - 1] == t[..|t| - 1] == Decimal(n / 10);
      DecimalInjective(m / 10, n / 10);
    }
  }
}
