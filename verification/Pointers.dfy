/** Reference tokens of JSON Pointer (RFC 6901): escaping, and its undoing in the
    order section 4 prescribes. */
module Pointers {
  import opened Text

  datatype Step = Key(key: string) | Index(index: nat)

  type Place = seq<Step>

  /** `s.replace(c, sub)` for a single character. */
  function ReplaceChar(s: string, c: char, sub: string): string {
    if s == [] then [] else (if s[0] == c then sub else [s[0]]) + ReplaceChar(s[1..], c, sub)
  }

  /** `s.replace(cd, sub)` for a pair of different characters: left to right, without overlap. */
  function ReplacePair(s: string, c: char, d: char, sub: string): string {
    if s == [] then []
    else if |s| >= 2 && s[0] == c && s[1] == d then sub + ReplacePair(s[2..], c, d, sub)
    else [s[0]] + ReplacePair(s[1..], c, d, sub)
  }

  function Escape(key: string): string {
    ReplaceChar(ReplaceChar(key, '~', "~0"), '/', "~1")
  }

  /** First every "~1" becomes "/", then every "~0" becomes "~". */
  function Unescape(token: string): string {
    ReplacePair(ReplacePair(token, '~', '1', "/"), '~', '0', "~")
  }

  lemma EscapeCons(key: string)
    requires key != []
    ensures Escape(key) == (if key[0] == '~' then "~0" else if key[0] == '/' then "~1" else [key[0]]) + Escape(key[1..])
  {
    var r := ReplaceChar(key[1..], '~', "~0");
    if key[0] == '~' {
      assert ReplaceChar(key, '~', "~0") == "~0" + r;
      assert ("~0" + r)[1..] == ['0'] + r && (['0'] + r)[1..] == r;
      assert ReplaceChar(['0'] + r, '/', "~1") == ['0'] + ReplaceChar(r, '/', "~1");
    } else {
      assert ReplaceChar(key, '~', "~0") == [key[0]] + r;
      assert ([key[0]] + r)[1..] == r;
    }
  }

  lemma {:induction false} UndoSlashes(key: string)
    ensures ReplacePair(Escape(key), '~', '1', "/") == ReplaceChar(key, '~', "~0")
  {
    if key != [] {
      EscapeCons(key);
      UndoSlashes(key[1..]);
      var e := Escape(key[1..]);
      if key[0] == '~' {
        assert Escape(key)[1..] == ['0'] + e && (['0'] + e)[1..] == e;
        assert ReplacePair(['0'] + e, '~', '1', "/") == ['0'] + ReplacePair(e, '~', '1', "/");
      } else if key[0] == '/' {
        assert Escape(key)[2..] == e;
      } else {
        assert Escape(key)[1..] == e;
      }
    }
  }

  lemma {:induction false} UndoTildes(key: string)
    ensures ReplacePair(ReplaceChar(key, '~', "~0"), '~', '0', "~") == key
  {
    if key != [] {
      var r := ReplaceChar(key[1..], '~', "~0");
      UndoTildes(key[1..]);
      if key[0] == '~' {
        assert ReplaceChar(key, '~', "~0")[2..] == r;
      } else {
        assert ReplaceChar(key, '~', "~0")[1..] == r;
      }
    }
  }

  /** Unescaping undoes escaping, for every key. */
  lemma EscapeRoundTrip(key: string)
    ensures Unescape(Escape(key)) == key
  {
    UndoSlashes(key);
    UndoTildes(key);
  }

  lemma EscapeInjective(a: string, b: string)
    requires Escape(a) == Escape(b)
    ensures a == b
  {
    EscapeRoundTrip(a);
    EscapeRoundTrip(b);
  }

  /** An escaped key holds no separator. */
  lemma {:induction false} EscapedHasNoSlash(key: string)
    ensures '/' !in Escape(key)
  {
    if key != [] {
      EscapeCons(key);
      EscapedHasNoSlash(key[1..]);
    }
  }

  function Token(step: Step): string {
    match step
    case Key(k) => Escape(k)
    case Index(i) => Decimal(i)
  }

  /** The pointer of a place. */
  function Render(p: Place): string {
    if p == [] then "" else "/" + Token(p[0]) + Render(p[1..])
  }

  lemma TokenHasNoSlash(step: Step)
    ensures '/' !in Token(step)
  {
    match step
    case Key(k) => EscapedHasNoSlash(k);
    case Index(i) =>
  }

  /** Length of the text before the first separator. */
  function TokenLength(s: string): (n: nat)
    ensures n <= |s|
  {
    if s == [] || s[0] == '/' then 0 else 1 + TokenLength(s[1..])
  }

  lemma {:induction false} TokenEnds(a: string, x: string)
    requires '/' !in a && (x == "" || x[0] == '/')
    ensures TokenLength(a + x) == |a|
  {
    if a == [] {
      assert a + x == x;
    } else {
      assert (a + x)[1..] == a[1..] + x;
      TokenEnds(a[1..], x);
    }
  }

  /** A pointer's first token ends where the next separator begins. */
  lemma TokensSplit(a: string, x: string, b: string, y: string)
    requires '/' !in a && '/' !in b
    requires (x == "" || x[0] == '/') && (y == "" || y[0] == '/')
    requires a + x == b + y
    ensures a == b && x == y
  {
    TokenEnds(a, x);
    TokenEnds(b, y);
    assert (a + x)[..|a|] == a && (b + y)[..|b|] == b;
    assert (a + x)[|a|..] == x && (b + y)[|b|..] == y;
  }

  lemma DropSlash(a: string, x: string)
    ensures ("/" + a + x)[1..] == a + x
  {
  }

  /** Equal pointers have equal first tokens and equal remainders. */
  lemma RenderSplit(p: Place, q: Place)
    requires p != [] && q != [] && Render(p) == Render(q)
    ensures Token(p[0]) == Token(q[0]) && Render(p[1..]) == Render(q[1..])
  {
    DropSlash(Token(p[0]), Render(p[1..]));
    DropSlash(Token(q[0]), Render(q[1..]));
    TokenHasNoSlash(p[0]);
    TokenHasNoSlash(q[0]);
    TokensSplit(Token(p[0]), Render(p[1..]), Token(q[0]), Render(q[1..]));
  }

  lemma TokenInjective(s: Step, t: Step)
    requires s.Key? == t.Key? && Token(s) == Token(t)
    ensures s == t
  {
    if s.Key? {
      EscapeInjective(s.key, t.key);
    } else {
      DecimalInjective(s.index, t.index);
    }
  }
}
