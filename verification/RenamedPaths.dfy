/** What the parser makes of a name: the path that the text of a path's name reads as. */
module RenamedPaths {
  import opened SymbolLexer
  import opened SymbolGrammar
  import opened PrintedSymbols
  import opened PrunedNames

  // ---------------------------------------------------------------- sizes

  function SizeOfHead(h: Head): nat
    decreases h, 0
  {
    match h
    case Conversion(to) => 1 + Size(to)
    case MemberConversion(to, of) => 1 + Size(to) + Size(of)
    case Enclosed(_, inner) => 1 + SizeOfPaths(inner)
    case _ => 1
  }

  function SizeOfComponent(c: Component): nat
    decreases c, 2
  {
    match c.base
    case Bare(h) => SizeOfHead(h)
    case Declarator(_, inner) => Size(inner)
    case TypedDeclarator(_, _, inner) => Size(inner)
    case Unnamed(_, _) => 0
  }

  function Size(x: Path): nat
    decreases x, 3
  {
    1 + SizeOfComponent(x.c) + if x.Scope? then Size(x.next) else 0
  }

  function SizeOfPaths(xs: seq<Path>): nat
    decreases xs, 4
  {
    if xs == [] then 0 else Size(xs[0]) + SizeOfPaths(xs[1..])
  }

  lemma {:induction false} LastSize(xs: seq<Path>)
    requires xs != []
    ensures Size(xs[|xs| - 1]) <= SizeOfPaths(xs)
  {
    if |xs| > 1 {
      LastSize(xs[1..]);
    }
  }

  function SizeOnward(on: Onward): nat {
    if on.OnScope? then Size(on.next) else 0
  }

  lemma {:induction false} CoreSize(x: Path, on: Onward)
    ensures Size(Core(x, on)) <= Size(x) + SizeOnward(on)
    decreases x, 1
  {
    match x
    case Last(c) => CoreOfSize(c, on);
    case Stuck(_, _) =>
    case Member(c) => CoreOfSize(c, OnMember);
    case Scope(c, star, next) =>
      CoreSize(next, on);
      if IsPointerFree(next) {
        CoreOfSize(c, OnScope(star, Core(next, on)));
      }
  }

  lemma {:induction false} CoreOfSize(c: Component, on: Onward)
    ensures Size(CoreOf(c, on)) <= 1 + SizeOfComponent(c) + SizeOnward(on)
    decreases c, 0
  {
    match c.base
    case Bare(h) =>
      if IsDeclaring(h) {
        CoreSize(TypeOf(h), on);
      }
    case Declarator(_, inner) => CoreSize(inner, on);
    case TypedDeclarator(_, _, inner) => CoreSize(inner, on);
    case Unnamed(_, _) =>
  }

  // ---------------------------------------------------------------- references

  /** References with one more `&` in front: two of them in a row are one token. */
  function WithAnd(ts: seq<Token>): seq<Token> {
    if ts == [] || ts[0] == Punct("*") then [Punct("&")] + ts
    else if ts[0] == Punct("&") then [Punct("&&")] + ts[1..]
    else [ts[0]] + WithAnd(ts[1..])
  }

  /** References that are written without whitespace, as they are read. */
  function Regrouped(ts: seq<Token>): seq<Token> {
    if ts == [] then []
    else if ts[0] == Punct("&") then WithAnd(Regrouped(ts[1..]))
    else [ts[0]] + Regrouped(ts[1..])
  }

  /** No `&` in front of another one. */
  predicate AreApart(ts: seq<Token>) {
    ts == [] || (IsPointerRef(ts[0]) && (|ts| > 1 && ts[0] == Punct("&") ==> ts[1] == Punct("*")) && AreApart(ts[1..]))
  }

  lemma {:induction false} OneMoreIsApart(ts: seq<Token>)
    requires AreApart(ts)
    ensures AreApart(WithAnd(ts)) && WithAnd(ts) != []
    decreases |ts|
  {
    if ts != [] && ts[0] == Punct("&&") {
      OneMoreIsApart(ts[1..]);
    }
    assert WithAnd(ts)[1..] == if ts == [] || ts[0] == Punct("*") then ts
                               else if ts[0] == Punct("&") then ts[1..] else WithAnd(ts[1..]);
  }

  lemma {:induction false} RegroupedAreApart(ts: seq<Token>)
    requires AreReferences(ts)
    ensures AreApart(Regrouped(ts)) && (Regrouped(ts) == [] <==> ts == [])
    decreases |ts|
  {
    if ts != [] {
      RegroupedAreApart(ts[1..]);
      OneMoreIsApart(Regrouped(ts[1..]));
      assert IsPointerRef(ts[0]);
      assert ([ts[0]] + Regrouped(ts[1..]))[1..] == Regrouped(ts[1..]);
    }
  }

  lemma {:induction false} ApartAreReferences(ts: seq<Token>)
    requires AreApart(ts)
    ensures AreReferences(ts)
    decreases |ts|
  {
    if ts != [] {
      ApartAreReferences(ts[1..]);
    }
  }

  lemma TokensText(t: Token, ts: seq<Token>, n: Name, after: bool)
    requires t.kind == Punctuation
    ensures TextOf(WithTokens([t] + ts, n), after) == t.str + TextOf(WithTokens(ts, n), false)
  {
    assert ([t] + ts)[1..] == ts;
    assert "" + (t.str + TextOf(WithTokens(ts, n), false)) == t.str + TextOf(WithTokens(ts, n), false);
  }

  lemma {:induction false} OneMoreText(ts: seq<Token>, n: Name, after: bool)
    requires AreApart(ts)
    ensures TextOf(WithTokens(WithAnd(ts), n), after) == "&" + TextOf(WithTokens(ts, n), false)
    decreases |ts|
  {
    hide TextOf, WithTokens;
    if ts == [] || ts[0] == Punct("*") {
      TokensText(Punct("&"), ts, n, after);
    } else {
      var more := ts[1..];
      assert ts == [ts[0]] + more;
      var r := TextOf(WithTokens(more, n), false);
      TokensText(ts[0], more, n, false);
      if ts[0] == Punct("&") {
        TokensText(Punct("&&"), more, n, after);
        assert "&&" + r == "&" + ("&" + r);
      } else {
        OneMoreText(more, n, false);
        TokensText(ts[0], WithAnd(more), n, after);
        assert ts[0] == Punct("&&");
        assert "&&" + ("&" + r) == "&" + ("&&" + r);
      }
    }
  }

  lemma {:induction false} RegroupedText(ts: seq<Token>, n: Name, after: bool)
    requires AreReferences(ts)
    ensures TextOf(WithTokens(Regrouped(ts), n), after) == TextOf(WithTokens(ts, n), after)
    decreases |ts|
  {
    hide TextOf, WithTokens;
    if ts != [] {
      var t, more := ts[0], ts[1..];
      assert ts == [t] + more && IsPointerRef(t);
      RegroupedAreApart(more);
      RegroupedText(more, n, false);
      TokensText(t, more, n, after);
      if t == Punct("&") {
        OneMoreText(Regrouped(more), n, after);
      } else {
        TokensText(t, Regrouped(more), n, after);
      }
    }
  }

  // ---------------------------------------------------------------- names as paths

  /** A conversion whose type starts with `<`: the parser takes that for the operator. */
  predicate IsAngleFirst(h: Head, p: Printed) {
    && (h.Conversion? || h.MemberConversion?)
    && ShowHead(h, p).more.Then? && ShowHead(h, p).more.token == Punct("<")
  }

  /** `operator<` and `::` make `<:`. */
  predicate Merges(h: Head, q: Printed) {
    h.OperatorSymbol? && q.Then? && q.token == Punct("::") && PunctuationLength(h.op + "::") != |h.op|
  }

  function Operating(op: string): Component {
    Component(Bare(OperatorSymbol(op)), [], [])
  }

  /** A lambda of GCC is printed as one that MSVC does not know. */
  function BracedName(isUnnamed: bool, number: string): Head {
    var tail := [Punct("#"), Token(Literal, number), Punct(">")];
    if isUnnamed then Unreadable("unnamed", [Ident("type")] + tail) else Unreadable("lambda", tail)
  }

  function QuotedName(word: string): Head {
    if "lambda_" <= word then AngledLambda(word) else Unreadable(word, [Punct(">")])
  }

  function RenamedHead(h: Head, p: Printed): Head
    decreases SizeOfHead(h)
  {
    match h
    case Tag(_) => Tag(ANONYMOUS_GNU)
    case Conversion(to) => Conversion(Renamed(to, p))
    case MemberConversion(to, of) =>
      var of' := Renamed(of, p);
      MemberConversion(Renamed(to, ShowPath(of', p)), of')
    case BracedLambda(isUnnamed, _, number) => BracedName(isUnnamed, number)
    case QuotedLambda(word) => QuotedName(word)
    case Enclosed(text, inner) =>
      if inner == [] || AnyFails(inner) then h
      else
        var x := inner[|inner| - 1];
        CoreSize(x, Stop);
        LastSize(inner);
        Enclosed(QualifiedName(inner), [Renamed(Core(x, Stop), End)])
    case _ => h
  }

  /** The name of x with p after it. */
  function Renamed(x: Path, p: Printed): Path
    decreases Size(x), 1
  {
    if !x.c.base.Bare? then x
    else
      var q := RenamedBehind(x, p);
      var refs := Regrouped(x.c.refs);
      var rest := ShowTokens(refs, q);
      assert SizeOfComponent(x.c) == SizeOfHead(x.c.base.head);
      var h := RenamedHead(x.c.base.head, rest);
      if IsAngleFirst(h, rest) then Stuck(Operating("<"), ShowHead(h, rest).more.more)
      else if !x.Last? && Merges(h, q) then Stuck(Operating(h.op + ":"), Then(Punct(":"), q.more))
      else
        var c := Component(Bare(h), refs, []);
        match x
        case Last(_) => Last(c)
        case Scope(_, star, next) => Scope(c, star, Renamed(next, p))
        case Member(_) => Member(c)
        case Stuck(_, _) => x
  }

  function RenamedBehind(x: Path, p: Printed): Printed
    decreases Size(x), 0
  {
    match x
    case Last(_) => p
    case Scope(_, star, next) => ShowScope(star, ShowPath(Renamed(next, p), p))
    case Member(_) => ShowScope(true, p)
    case Stuck(_, rest) => rest
  }
}
