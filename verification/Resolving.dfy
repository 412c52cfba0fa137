/** Evaluating a JSON Pointer as section 4 of RFC 6901 prescribes: split at the
    separators, undo the escaping, follow the token into an object or a list. */
module Resolving {
  import opened Options
  import opened Text
  import opened Pointers
  import opened Differences
  import opened DifferencesExact

  /** The item whose index is written like the token, without leading zeros. */
  function ItemNamed(items: seq<Tree>, token: string, i: nat): (r: Option<Tree>)
    ensures r.Some? ==> r.value in items
    decreases |items| - i
  {
    if i >= |items| then None
    else if Decimal(i) == token then Some(items[i])
    else ItemNamed(items, token, i + 1)
  }

  function Follow(t: Tree, token: string): Option<Tree> {
    match t
    case Object(fields) =>
      var k := Unescape(token);
      if k in fields then Some(fields[k]) else None
    case List(items) => ItemNamed(items, token, 0)
    case _ => None
  }

  function Resolve(t: Tree, pointer: string): Option<Tree>
    decreases |pointer|
  {
    if pointer == "" then Some(t)
    else if pointer[0] != '/' then None
    else
      var n := 1 + TokenLength(pointer[1..]);
      var child := Follow(t, pointer[1..n]);
      if child.None? then None else Resolve(child.value, pointer[n..])
  }

  lemma {:induction false} ItemFound(items: seq<Tree>, i: nat, k: nat)
    requires i <= k
    ensures ItemNamed(items, Decimal(k), i) == if k < |items| then Some(items[k]) else None
    decreases |items| - i
  {
    if i < |items| {
      if Decimal(i) == Decimal(k) {
        DecimalInjective(i, k);
      } else {
        ItemFound(items, i + 1, k);
      }
    }
  }

  /** Keys are followed into objects and indices into lists, as far as the place leads. */
  ghost predicate Suits(t: Tree, p: Place)
    decreases |p|
  {
    p == [] || (
      && (if p[0].Key? then t.Object? else t.List?)
      && (Child(t, p[0]).Some? ==> Suits(Child(t, p[0]).value, p[1..])))
  }

  lemma FollowRendered(t: Tree, s: Step)
    requires if s.Key? then t.Object? else t.List?
    ensures Follow(t, Token(s)) == Child(t, s)
  {
    match s
    case Key(k) => EscapeRoundTrip(k);
    case Index(i) => ItemFound(t.items, 0, i);
  }

  lemma RenderParts(p: Place)
    requires p != []
    ensures var s := Render(p); var n := 1 + TokenLength(s[1..]);
            s[0] == '/' && s[1..n] == Token(p[0]) && s[n..] == Render(p[1..])
  {
    var a, x := Token(p[0]), Render(p[1..]);
    DropSlash(a, x);
    TokenHasNoSlash(p[0]);
    TokenEnds(a, x);
    var s := Render(p);
    assert s == "/" + (a + x);
    assert s[1..1 + |a|] == a && s[1 + |a|..] == x;
  }

  /** The pointer of a suitable place leads to the value at that place, or nowhere
      if there is none. */
  lemma {:induction false} ResolveSuitable(t: Tree, p: Place)
    requires Suits(t, p)
    ensures Resolve(t, Render(p)) == Find(t, p)
    decreases |p|
  {
    if p != [] {
      RenderParts(p);
      FollowRendered(t, p[0]);
      if Child(t, p[0]).Some? {
        ResolveSuitable(Child(t, p[0]).value, p[1..]);
      }
    }
  }

  lemma {:induction false} PartingSuits(a: Tree, b: Tree, p: Place)
    requires PartsFrom(a, b, p)
    ensures Suits(a, p) && Suits(b, p)
    decreases |p|
  {
    if p != [] {
      var x, y := Child(a, p[0]), Child(b, p[0]);
      if x.Some? && y.Some? {
        PartingSuits(x.value, y.value, p[1..]);
      }
    }
  }

  lemma {:induction false} PresentSuits(t: Tree, p: Place)
    requires Find(t, p).Some?
    ensures Suits(t, p)
    decreases |p|
  {
    if p != [] {
      PresentSuits(Child(t, p[0]).value, p[1..]);
    }
  }

  /** A value in a tree is found again through its pointer. */
  lemma ResolvePresent(t: Tree, p: Place)
    requires Find(t, p).Some?
    ensures Resolve(t, Render(p)) == Find(t, p)
  {
    PresentSuits(t, p);
    ResolveSuitable(t, p);
  }

  /** A reported pointer, evaluated on either side, gives what that side holds at
      the reported place, and nothing where the side has nothing. */
  lemma ResolveReported(a: Tree, b: Tree, d: Difference)
    requires d in Compare(a, b)
    ensures Resolve(a, Render(d.place)) == Find(a, d.place)
    ensures Resolve(b, Render(d.place)) == Find(b, d.place)
  {
    CompareExact(a, b, d);
    PartsStepwise(a, b, d.place);
    PartingSuits(a, b, d.place);
    ResolveSuitable(a, d.place);
    ResolveSuitable(b, d.place);
  }
}
