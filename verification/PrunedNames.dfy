/** The name that a declaration is pruned to, as a declaration of its own: function pointer declarators are
    gone, since each of them starts the name afresh. */
module PrunedNames {
  import opened Wrappers
  import opened SymbolLexer
  import opened SymbolGrammar
  import opened PrintedSymbols

  // ---------------------------------------------------------------- the text of a name

  predicate IsUnbroken(n: Name) {
    match n
    case Nothing => true
    case Word(_, more) => IsUnbroken(more)
    case Restart(_) => false
  }

  function Separator(t: Token, after: bool): string {
    if t.kind == Identifier && after then " " else ""
  }

  function TextOf(n: Name, after: bool): string {
    match n
    case Nothing => ""
    case Restart(more) => TextOf(more, false)
    case Word(t, more) => Separator(t, after) + (t.str + TextOf(more, t.kind == Identifier))
  }

  lemma {:induction false} SpellIsText(n: Name, text: string, after: bool)
    requires IsUnbroken(n)
    ensures Spell(n, text, after) == text + TextOf(n, after)
  {
    match n
    case Nothing =>
    case Word(t, more) =>
      SpellIsText(more, text + Separator(t, after) + t.str, t.kind == Identifier);
      assert text + Separator(t, after) + t.str + TextOf(more, t.kind == Identifier)
          == text + (Separator(t, after) + (t.str + TextOf(more, t.kind == Identifier)));
  }

  /** n ends the name n0. */
  predicate EndsIn(n0: Name, n: Name) {
    n0 == n || match n0 case Nothing => false case Word(_, more) => EndsIn(more, n) case Restart(more) => EndsIn(more, n)
  }

  lemma {:induction false} EndsInTransitive(n0: Name, n1: Name, n2: Name)
    requires EndsIn(n0, n1) && EndsIn(n1, n2)
    ensures EndsIn(n0, n2)
  {
    if n0 != n1 {
      EndsInTransitive(n0.more, n1, n2);
    }
  }

  lemma {:induction false} TokensEnd(ts: seq<Token>, n: Name)
    ensures EndsIn(WithTokens(ts, n), n)
    decreases |ts|
  {
    if ts != [] {
      TokensEnd(ts[1..], n);
    }
  }

  lemma ThreeEnd(t1: Token, t2: Token, t3: Token, n: Name)
    ensures EndsIn(Word(t1, Word(t2, Word(t3, n))), n)
  {
    assert EndsIn(Word(t3, n), n);
    assert EndsIn(Word(t2, Word(t3, n)), n);
  }

  lemma {:induction false} HeadEnds(h: Head, n: Name)
    ensures EndsIn(NameOfHead(h, n), n)
    decreases h, 0
  {
    match h
    case Tag(_) =>
    case Named(_) =>
    case Destructor(_) =>
    case CoAwait =>
    case OperatorSymbol(_) =>
    case Unreadable(_, _) =>
    case NewDeleteOperator(word, brackets) => ThreeEnd(Ident(word), Punct("["), Punct("]"), n);
    case DeducedConversion(word) =>
      ThreeEnd(Punct("("), Ident(word), Punct(")"), n);
      assert EndsIn(Word(Ident("decltype"), Word(Punct("("), Word(Ident(word), Word(Punct(")"), n)))), n);
    case LiteralOperator(suffix) => ThreeEnd(Ident("operator"), QUOTES, Ident(suffix), n);
    case BracketOperator(b) => ThreeEnd(Ident("operator"), Punct(Left(b)), Punct(Right(b)), n);
    case BracedLambda(isUnnamed, _, number) =>
      var tail := Word(Punct("#"), Word(Token(Literal, number), Word(Punct(">"), n)));
      ThreeEnd(Punct("#"), Token(Literal, number), Punct(">"), n);
      assert EndsIn(Word(Ident("lambda"), tail), n) && EndsIn(Word(Ident("type"), tail), n);
      assert EndsIn(Word(Ident("unnamed"), Word(Ident("type"), tail)), n);
    case QuotedLambda(word) => ThreeEnd(Punct("<"), Punct(word), Punct(">"), n);
    case AngledLambda(word) => ThreeEnd(Punct("<"), Ident(word), Punct(">"), n);
    case Enclosed(text, inner) =>
      ThreeEnd(Punct("`"), Punct(if AnyFails(inner) then text else QualifiedName(inner)), Punct("'"), n);
    case Ordinal(number) => ThreeEnd(Punct("`"), Punct(number), Punct("'"), n);
    case Conversion(to) => PathEnds(to, n);
    case MemberConversion(to, of) =>
      PathEnds(of, n);
      PathEnds(to, NameOfPath(of, n));
      EndsInTransitive(NameOfPath(to, NameOfPath(of, n)), NameOfPath(of, n), n);
  }

  lemma {:induction false} ComponentEnds(c: Component, n: Name)
    ensures EndsIn(NameOfComponent(c, n), n)
    decreases c, 2
  {
    var k := WithTokens(c.refs, n);
    TokensEnd(c.refs, n);
    match c.base {
      case Bare(h) => HeadEnds(h, k);
      case Declarator(_, inner) =>
        PathEnds(inner, k);
        assert EndsIn(Restart(NameOfPath(inner, k)), k);
      case TypedDeclarator(_, _, inner) =>
        PathEnds(inner, k);
        assert EndsIn(Restart(NameOfPath(inner, k)), k);
      case Unnamed(_, _) =>
    }
    assert NameOfComponent(c, n) == NameOfBase(c.base, k);
    EndsInTransitive(NameOfComponent(c, n), k, n);
  }

  lemma {:induction false} PathEnds(x: Path, n: Name)
    ensures EndsIn(NameOfPath(x, n), n)
    decreases x, 3
  {
    match x
    case Last(c) => ComponentEnds(c, n);
    case Stuck(c, _) => ComponentEnds(c, n);
    case Member(c) =>
      ComponentEnds(c, WithScope(true, n));
      assert EndsIn(Word(Punct("*"), n), n) && EndsIn(WithScope(true, n), n);
      EndsInTransitive(NameOfPath(x, n), WithScope(true, n), n);
    case Scope(c, star, next) =>
      var k := NameOfPath(next, n);
      PathEnds(next, n);
      ComponentEnds(c, WithScope(star, k));
      assert star ==> EndsIn(Word(Punct("*"), k), k);
      assert EndsIn(WithScope(star, k), k);
      EndsInTransitive(NameOfPath(x, n), WithScope(star, k), k);
      EndsInTransitive(NameOfPath(x, n), k, n);
  }

  /** What a name is spelled as, from some point on. */
  lemma {:induction false} SpellFrom(n0: Name, n: Name, text: string, after: bool) returns (text': string, after': bool)
    requires EndsIn(n0, n)
    ensures Spell(n0, text, after) == Spell(n, text', after')
  {
    if n0 == n {
      text', after' := text, after;
    } else if n0.Restart? {
      text', after' := SpellFrom(n0.more, n, "", false);
    } else {
      var isIdentifier := n0.token.kind == Identifier;
      var separator := if isIdentifier && after then " " else "";
      text', after' := SpellFrom(n0.more, n, text + separator + n0.token.str, isIdentifier);
    }
  }

  // ---------------------------------------------------------------- without declarators

  /** What goes on after a declarator. */
  datatype Onward = Stop | OnScope(star: bool, next: Path) | OnMember

  function Attach(c: Component, on: Onward): Path {
    match on
    case Stop => Last(c)
    case OnScope(star, next) => Scope(c, star, next)
    case OnMember => Member(c)
  }

  function NameOnward(on: Onward, k: Name): Name {
    match on
    case Stop => k
    case OnScope(star, next) => WithScope(star, NameOfPath(next, k))
    case OnMember => WithScope(true, k)
  }

  /** The path from the innermost declarator on. */
  function Core(x: Path, on: Onward): Path
    decreases x, 1
  {
    match x
    case Last(c) => CoreOf(c, on)
    case Scope(c, star, next) =>
      if IsPointerFree(next) then CoreOf(c, OnScope(star, Core(next, on))) else Core(next, on)
    case Member(c) => CoreOf(c, OnMember)
    case Stuck(c, _) => x
  }

  function CoreOf(c: Component, on: Onward): Path
    decreases c, 0
  {
    match c.base
    case Bare(h) => if IsDeclaring(h) then Core(TypeOf(h), on) else Attach(c, on)
    case Declarator(_, inner) => Core(inner, on)
    case TypedDeclarator(_, _, inner) => Core(inner, on)
    case Unnamed(_, _) => Attach(c, on)
  }

  /** The type that a conversion ends with. */
  function TypeOf(h: Head): (x: Path)
    requires h.Conversion? || h.MemberConversion?
    ensures x < h
  {
    if h.Conversion? then h.to else h.of
  }

  // ---------------------------------------------------------------- what validity says of the name alone

  /** The first token a path is printed with. */
  function FirstOf(x: Path): Option<Token> {
    Front(ShowPath(x, End))
  }

  /** A conversion whose type goes on with whatever follows it, or a declarator behind which nothing goes on. */
  predicate IsOpenEnded(c: Component) {
    match c.base
    case Bare(h) => (h.Conversion? || h.MemberConversion?) && !EndsInMember(TypeOf(h))
    case _ => EndsInType(c.base)
  }

  ghost predicate SoundHead(h: Head)
    decreases h, 0
  {
    match h
    case Tag(spelling) => spelling == ANONYMOUS_GNU || spelling == ANONYMOUS_MSVC
    case Named(id) => IsName(id) && id != "operator"
    case Destructor(id) => IsName(id)
    case NewDeleteOperator(word, _) => word == "new" || word == "delete"
    case DeducedConversion(word) => word == "auto" || word == "nullptr"
    case CoAwait => true
    case LiteralOperator(suffix) => IsName(suffix)
    case OperatorSymbol(op) => IsOperator(op) && op != "(" && op != "["
    case BracketOperator(b) => b != Curly
    case Conversion(to) => SoundPath(to) && IsPointerFree(to) && StartsType(FirstOf(to))
    case MemberConversion(to, of) =>
      && SoundPath(to) && IsPointerFree(to) && StartsType(FirstOf(to)) && !EndsInMember(to) && !EndsInConversion(to)
      && SoundPath(of) && IsPointerFree(of)
      && FirstOf(of).Some? && FirstOf(of).value.kind == Identifier && StandsAlone(FirstOf(of).value)
    case BracedLambda(_, _, number) => IsNumber(number)
    case QuotedLambda(word) => IsName(word) && ("lambda" <= word || "unnamed" <= word)
    case AngledLambda(word) => IsName(word) && "lambda_" <= word
    case Enclosed(text, inner) =>
      ReadsAs(SkipSpace(text), ShowPaths(inner)) && ValidPaths(inner) && Lex(Enquoted(text).str) == Ok(Some(Enquoted(text)))
    case Ordinal(number) => IsNumber(number)
    case Unreadable(_, _) => false
  }

  ghost predicate SoundBase(b: Base)
    decreases b, 1
  {
    match b
    case Bare(h) =>
      if IsDeclaring(h) then
        && SoundPath(TypeOf(h)) && !IsPointerFree(TypeOf(h)) && !EndsInMember(TypeOf(h))
        && (h.MemberConversion? ==> SoundPath(h.to))
      else SoundHead(h)
    case Declarator(_, inner) => SoundPath(inner)
    case TypedDeclarator(_, _, inner) => SoundPath(inner)
    case Unnamed(_, _) => false
  }

  ghost predicate SoundComponent(c: Component)
    decreases c, 2
  {
    SoundBase(c.base) && AreReferences(c.refs) && (c.refs != [] ==> c.base.Bare? && !c.base.head.OperatorSymbol?)
  }

  ghost predicate SoundPath(x: Path)
    decreases x, 3
  {
    match x
    case Last(c) => SoundComponent(c) && (IsOpenEnded(c) ==> c.refs == [])
    case Scope(c, _, next) => SoundComponent(c) && !IsOpenEnded(c) && SoundPath(next)
    case Member(c) => SoundComponent(c) && !IsOpenEnded(c)
    case Stuck(_, _) => false
  }

  lemma {:induction false} FrontIsFirst(x: Path, p: Printed)
    ensures ShowPath(x, p).Then? && FirstOf(x) == Some(ShowPath(x, p).token)
  {
    FrontOfBase(x.c.base, ShowRest(x.c, Behind(x, p)), ShowRest(x.c, Behind(x, End)));
    assert ShowPath(x, p) == ShowBase(x.c.base, ShowRest(x.c, Behind(x, p)));
    assert ShowPath(x, End) == ShowBase(x.c.base, ShowRest(x.c, Behind(x, End)));
  }

  lemma FrontOfBase(b: Base, p: Printed, q: Printed)
    ensures ShowBase(b, p).Then? && ShowBase(b, q).Then? && ShowBase(b, p).token == ShowBase(b, q).token
  {
    hide ShowHead;
    match b
    case Bare(h) => FrontOfHead(h, p, q);
    case Declarator(junk, inner) =>
      assert ShowBase(b, p) == ShowDeclarator(junk, inner, p) && ShowBase(b, q) == ShowDeclarator(junk, inner, q);
    case TypedDeclarator(h, junk, inner) =>
      FrontOfHead(h, ShowDeclarator(junk, inner, p), ShowDeclarator(junk, inner, q));
    case Unnamed(of, junk) =>
      if of.Some? {
        FrontOfHead(of.value, ShowGroup(Round, junk, p), ShowGroup(Round, junk, q));
      }
  }

  lemma FrontOfHead(h: Head, p: Printed, q: Printed)
    ensures ShowHead(h, p).Then? && ShowHead(h, q).Then? && ShowHead(h, p).token == ShowHead(h, q).token
  {
  }

  lemma {:induction false} ValidIsSoundHead(h: Head, p: Printed)
    requires ValidHead(h, p) && !HeadFails(h)
    ensures SoundBase(Bare(h))
    decreases h, 0
  {
    match h
    case Conversion(to) =>
      ValidIsSound(to, p);
      FrontIsFirst(to, p);
    case MemberConversion(to, of) =>
      var q := ShowPath(of, p);
      ValidIsSound(to, q);
      ValidIsSound(of, p);
      FrontIsFirst(to, q);
      FrontIsFirst(of, p);
      BeforeIdentifier(to, q);
    case _ =>
  }

  /** What an identifier follows. */
  lemma {:induction false} BeforeIdentifier(x: Path, p: Printed)
    requires ValidPath(x, p) && !Fails(x) && p.Then? && p.token.kind == Identifier
    ensures !EndsInMember(x) && StandsAlone(p.token)
    decreases x
  {
    if x.Scope? {
      BeforeIdentifier(x.next, p);
    }
  }

  /** What follows a conversion that goes on ends its type. */
  lemma {:induction false} AfterOpenEnd(x: Path, p: Printed)
    requires ValidPath(x, p) && !Fails(x) && !EndsInMember(x)
    ensures EndsPath(p)
  {
    if x.Scope? {
      AfterOpenEnd(x.next, p);
    }
  }

  /** Nothing is printed behind a conversion that goes on. */
  lemma OpenEndedIsLast(c: Component, q: Printed)
    requires ValidComponent(c, q) && !BaseFails(c.base) && IsOpenEnded(c)
    ensures c.refs == [] && EndsPath(q)
  {
    hide ValidPath, ShowPath, StartsConversion, IsPointerFree, EndsInConversion;
    var p := ShowRest(c, q);
    if c.base.Bare? {
      assert ValidBase(c.base, p);
      assert ValidHead(c.base.head, p) && !HeadFails(c.base.head);
      AfterOpenEnd(TypeOf(c.base.head), p);
      RestStarts(c, q);
    }
  }

  lemma RestStarts(c: Component, q: Printed)
    requires AreReferences(c.refs) && forall m | m in c.modifiers :: ValidModifier(m)
    ensures EndsPath(ShowRest(c, q)) ==> c.refs == [] && c.modifiers == [] && EndsPath(q)
  {
    if c.refs != [] {
      assert ShowRest(c, q).token == c.refs[0] && IsPointerRef(c.refs[0]);
    } else if c.modifiers != [] {
      assert ValidModifier(c.modifiers[0]);
    }
  }

  lemma {:induction false} ValidIsSoundComponent(c: Component, q: Printed)
    requires ValidComponent(c, q) && !BaseFails(c.base)
    ensures SoundComponent(c)
    decreases c, 2
  {
    hide ValidHead, HeadFails;
    var p := ShowRest(c, q);
    assert ValidBase(c.base, p);
    match c.base
    case Bare(h) => ValidIsSoundHead(h, p);
    case Declarator(junk, inner) =>
      assert ValidDeclarator(junk, inner, p);
      ValidIsSound(inner, Then(Punct(")"), p));
    case TypedDeclarator(_, junk, inner) =>
      assert ValidDeclarator(junk, inner, p);
      ValidIsSound(inner, Then(Punct(")"), p));
  }

  lemma {:induction false} ValidIsSound(x: Path, p: Printed)
    requires ValidPath(x, p) && !Fails(x)
    ensures SoundPath(x)
    decreases x, 3
  {
    hide ValidComponent, SoundComponent, BaseFails, ShowPath;
    var c, q := x.c, Behind(x, p);
    ValidIsSoundComponent(c, q);
    if IsOpenEnded(c) {
      OpenEndedIsLast(c, q);
    }
    if x.Scope? {
      ValidIsSound(x.next, p);
    }
  }

  // ---------------------------------------------------------------- the core is sound and has the name

  lemma {:induction false} CoreIsSound(x: Path, on: Onward)
    requires SoundPath(x) && (on.Stop? || DeclaresName(x))
    requires on.OnScope? ==> SoundPath(on.next) && IsPointerFree(on.next)
    ensures SoundPath(Core(x, on)) && IsPointerFree(Core(x, on))
    decreases x, 1
  {
    hide SoundComponent;
    match x
    case Last(c) => CoreOfIsSound(c, on);
    case Member(c) => CoreOfIsSound(c, OnMember);
    case Scope(c, star, next) =>
      CoreIsSound(next, on);
      if IsPointerFree(next) {
        CoreOfIsSound(c, OnScope(star, Core(next, on)));
      }
  }

  lemma {:induction false} CoreOfIsSound(c: Component, on: Onward)
    requires SoundComponent(c) && (IsOpenEnded(c) ==> c.refs == [] && on.Stop?)
    requires on.OnScope? ==> SoundPath(on.next) && IsPointerFree(on.next)
    ensures SoundPath(CoreOf(c, on)) && IsPointerFree(CoreOf(c, on))
    decreases c, 0
  {
    match c.base
    case Bare(h) =>
      if IsDeclaring(h) {
        CoreIsSound(TypeOf(h), on);
      }
    case Declarator(_, inner) => CoreIsSound(inner, on);
    case TypedDeclarator(_, _, inner) => CoreIsSound(inner, on);
  }

  /** The core of a path is spelled alike; if there is a declarator, whatever came before it is forgotten. */
  lemma {:induction false} CoreName(x: Path, on: Onward, k: Name, text: string, after: bool)
    requires SoundPath(x) && (on.Stop? || DeclaresName(x))
    ensures if IsPointerFree(x) then NameOfPath(x, NameOnward(on, k)) == NameOfPath(Core(x, on), k)
            else Spell(NameOfPath(x, NameOnward(on, k)), text, after) == Spell(NameOfPath(Core(x, on), k), "", false)
    decreases x, 1
  {
    hide SoundComponent, NameOfComponent;
    match x
    case Last(c) => CoreOfName(c, on, k, text, after);
    case Member(c) => CoreOfName(c, OnMember, k, text, after);
    case Scope(c, star, next) =>
      var rest := NameOfPath(next, NameOnward(on, k));
      if IsPointerFree(next) {
        CoreName(next, on, k, text, after);
        CoreOfName(c, OnScope(star, Core(next, on)), k, text, after);
      } else {
        ComponentEnds(c, WithScope(star, rest));
        var text1, after1 := SpellFrom(NameOfPath(x, NameOnward(on, k)), WithScope(star, rest), text, after);
        assert star ==> EndsIn(Word(Punct("*"), rest), rest);
        var text2, after2 := SpellFrom(WithScope(star, rest), rest, text1, after1);
        CoreName(next, on, k, text2, after2);
      }
  }

  lemma {:induction false} CoreOfName(c: Component, on: Onward, k: Name, text: string, after: bool)
    requires SoundComponent(c) && (IsOpenEnded(c) ==> c.refs == [] && on.Stop?)
    ensures if c.base.Bare? && !IsDeclaring(c.base.head) then NameOfComponent(c, NameOnward(on, k)) == NameOfPath(CoreOf(c, on), k)
            else Spell(NameOfComponent(c, NameOnward(on, k)), text, after) == Spell(NameOfPath(CoreOf(c, on), k), "", false)
    decreases c, 0
  {
    match c.base
    case Bare(h) =>
      if IsDeclaring(h) {
        CoreOfConversion(h, k, text, after);
      }
    case Declarator(_, inner) => CoreName(inner, on, k, "", false);
    case TypedDeclarator(_, _, inner) => CoreName(inner, on, k, "", false);
  }

  /** Whatever stands in front of a type in which something is declared is forgotten. */
  lemma {:induction false} CoreOfConversion(h: Head, k: Name, text: string, after: bool)
    requires IsDeclaring(h) && SoundBase(Bare(h))
    ensures Spell(NameOfHead(h, k), text, after) == Spell(NameOfPath(Core(TypeOf(h), Stop), k), "", false)
    decreases h
  {
    hide SoundPath;
    var x := TypeOf(h);
    var n := NameOfPath(x, k);
    if h.MemberConversion? {
      PathEnds(h.to, n);
    }
    assert EndsIn(NameOfHead(h, k), n);
    var text1, after1 := SpellFrom(NameOfHead(h, k), n, text, after);
    CoreName(x, Stop, k, text1, after1);
  }
}
