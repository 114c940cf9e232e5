/** Conversions to types with declarators: nothing can be parsed if a declarator has no name, and if it has one
    the name in front of the type is lost. */
module ConversionNames {
  import opened Wrappers
  import opened SymbolLexer
  import opened SymbolGrammar
  import opened PrintedSymbols
  import opened PrunedNames
  import opened NameReading
  import opened PruningExamples
  import opened Declarators
  import NameQuotes
  import PruningProof

  // ---------------------------------------------------------------- what is lost

  /** A restart forgets what came before it, and everything else keeps it. */
  lemma {:induction false} NothingLonger(n: Name, text: string, after: bool)
    ensures |Spell(n, text, after)| <= |text| + |TextOf(n, after)|
    ensures text != "" && !IsUnbroken(n) ==> |Spell(n, text, after)| < |text| + |TextOf(n, after)|
  {
    match n
    case Nothing =>
    case Restart(more) => NothingLonger(more, "", false);
    case Word(t, more) => NothingLonger(more, text + Separator(t, after) + t.str, t.kind == Identifier);
  }

  /** The text in front of a name is kept, with every word of the name behind it, exactly if the name is
      never started afresh. */
  lemma KeptExactly(n: Name, text: string, after: bool)
    requires text != ""
    ensures Spell(n, text, after) == text + TextOf(n, after) <==> IsUnbroken(n)
  {
    hide Spell, TextOf;
    if IsUnbroken(n) {
      SpellIsText(n, text, after);
    } else {
      NothingLonger(n, text, after);
    }
  }

  lemma {:induction false} BrokenForgets(n: Name, text: string, after: bool, text': string, after': bool)
    requires !IsUnbroken(n)
    ensures Spell(n, text, after) == Spell(n, text', after')
  {
    if n.Word? {
      var t := n.token;
      var isIdentifier := t.kind == Identifier;
      BrokenForgets(n.more, text + (if isIdentifier && after then " " else "") + t.str, isIdentifier,
                    text' + (if isIdentifier && after' then " " else "") + t.str, isIdentifier);
    }
  }

  lemma {:induction false} BrokenEnd(n0: Name, n: Name)
    requires EndsIn(n0, n) && !IsUnbroken(n)
    ensures !IsUnbroken(n0)
  {
    if n0 != n && n0.Word? {
      BrokenEnd(n0.more, n);
    }
  }

  /** The name of a path starts afresh exactly if there is a declarator in it. */
  lemma {:induction false} BrokenByDeclarators(x: Path, n: Name)
    requires !Fails(x) && IsUnbroken(n)
    ensures IsUnbroken(NameOfPath(x, n)) <==> IsPointerFree(x)
  {
    if IsPointerFree(x) {
      UnbrokenPath(x, n);
    } else {
      BrokenPath(x, n);
    }
  }

  lemma {:induction false} BrokenPath(x: Path, n: Name)
    requires !Fails(x) && !IsPointerFree(x)
    ensures !IsUnbroken(NameOfPath(x, n))
    decreases x
  {
    hide NameOfHead, NameOfBase, IsDeclaring, HeadFails;
    var c, k := x.c, NameBehind(x, n);
    var k' := WithTokens(c.refs, k);
    assert NameOfPath(x, n) == NameOfComponent(c, k) == NameOfBase(c.base, k');
    if !c.base.Bare? {
      DeclaratorBreaks(c.base, k');
    } else if IsDeclaring(c.base.head) {
      BrokenConversion(c.base.head, k');
      BareBase(c.base.head, k');
    } else {
      var rest := NameOfPath(x.next, n);
      BrokenPath(x.next, n);
      assert x.star ==> EndsIn(Word(Punct("*"), rest), rest);
      assert EndsIn(k, rest);
      ComponentEnds(c, k);
      EndsInTransitive(NameOfPath(x, n), k, rest);
      BrokenEnd(NameOfPath(x, n), rest);
    }
  }

  lemma DeclaratorBreaks(b: Base, k: Name)
    requires !b.Bare? && !BaseFails(b)
    ensures !IsUnbroken(NameOfBase(b, k))
  {
    hide NameOfPath;
  }

  lemma BareBase(h: Head, k: Name)
    ensures NameOfBase(Bare(h), k) == NameOfHead(h, k) && BaseFails(Bare(h)) == HeadFails(h)
  {
    hide NameOfHead, HeadFails;
  }

  lemma {:induction false} BrokenConversion(h: Head, k: Name)
    requires IsDeclaring(h) && !HeadFails(h)
    ensures !IsUnbroken(NameOfHead(h, k))
    decreases h
  {
    hide NameOfPath, Fails, IsPointerFree;
    match h
    case Conversion(to) => BrokenPath(to, k);
    case MemberConversion(to, of) =>
      var n := NameOfPath(of, k);
      if IsPointerFree(of) {
        BrokenPath(to, n);
      } else {
        BrokenPath(of, k);
        PathEnds(to, n);
        BrokenEnd(NameOfPath(to, n), n);
      }
  }

  /** A pruned name holds every word of the declared path, those in front of a type that is converted to
      included, exactly if no declarator is in the path. */
  lemma NameIsWhole(text: string, xs: seq<Path>)
    requires ValidPaths(xs) && !AnyFails(xs) && ReadsAs(SkipSpace(text), ShowPaths(xs)) && xs[|xs| - 1].c.base.Bare?
    ensures Prune(text) == TextOf(NameOfPath(xs[|xs| - 1], Nothing), false) <==> IsPointerFree(xs[|xs| - 1])
  {
    hide Prune, ReadsAs, SkipSpace, ShowPaths, ValidPaths, ValidPath, Fails, NameOfPath, Spell, TextOf, IsPointerFree;
    NotEmpty(xs);
    var x := xs[|xs| - 1];
    var n := NameOfPath(x, Nothing);
    PruningProof.PruneDeclaration(text, xs);
    assert Prune(text) == Spell(n, "", false);
    assert x in xs;
    NameQuotes.LastIsValid(xs);
    FirstIsWord(x);
    BrokenByDeclarators(x, Nothing);
    SpellFirst(n.token, n.more);
    KeptExactly(n.more, n.token.str, n.token.kind == Identifier);
    FirstText(n.token, n.more);
  }

  lemma FirstText(t: Token, n: Name)
    ensures TextOf(Word(t, n), false) == t.str + TextOf(n, t.kind == Identifier)
    ensures IsUnbroken(Word(t, n)) == IsUnbroken(n)
  {
    assert "" + (t.str + TextOf(n, t.kind == Identifier)) == t.str + TextOf(n, t.kind == Identifier);
  }

  /** A valid path that starts with no declarator has a name that starts with a word. */
  lemma FirstIsWord(x: Path)
    requires ValidPath(x, End) && !Fails(x) && x.c.base.Bare?
    ensures var n := NameOfPath(x, Nothing); n.Word? && n.token.str != ""
  {
    ValidIsSound(x, End);
    NameOfFirst(x, Nothing);
    var h, k := x.c.base.head, WithTokens(x.c.refs, NameBehind(x, Nothing));
    assert SoundBase(Bare(h)) by {
      assert SoundComponent(x.c);
    }
    hide ValidPath, Fails, NameOfPath, SoundPath, IsName;
    if !IsDeclaring(h) {
      HeadStartsName(h, k);
      FirstCharacter(NameOfHead(h, k));
    }
  }

  // ---------------------------------------------------------------- conversions of a class

  /** `s::operator to` */
  function MemberOperator(s: string, to: Path): Path {
    Scope(Component(Bare(Named(s)), [], []), false, Last(Component(Bare(Conversion(to)), [], [])))
  }

  ghost predicate ValidType(to: Path) {
    ValidPath(to, End) && StartsConversion(ShowPath(to, End)) && (EndsInMember(to) ==> IsPointerFree(to))
  }

  lemma OperatorParts(to: Path, k: Name)
    ensures var c := Component(Bare(Conversion(to)), [], []);
            && ShowComponent(c, End) == Then(Ident("operator"), ShowPath(to, End))
            && NameOfComponent(c, k) == Word(Ident("operator"), NameOfPath(to, k)) && BaseFails(c.base) == Fails(to)
  {
    hide ShowPath, NameOfPath, Fails;
    var c := Component(Bare(Conversion(to)), [], []);
    assert ShowRest(c, End) == End;
    assert ShowBase(c.base, End) == ShowHead(Conversion(to), End);
    assert WithTokens([], k) == k;
    BareBase(Conversion(to), k);
  }

  lemma MemberOperatorParts(s: string, to: Path)
    requires IsName(s) && s != "operator" && ValidType(to)
    ensures var x := MemberOperator(s, to);
            && ValidPaths([x]) && AnyFails([x]) == Fails(to)
            && ShowPaths([x]) == Then(Ident(s), Then(Punct("::"), Then(Ident("operator"), ShowPath(to, End))))
            && QualifiedName([x]) == Spell(NameOfPath(to, Nothing), s + "::operator", true)
  {
    hide ValidHead, IsName, Fails, NameOfPath;
    var x, c := MemberOperator(s, to), Component(Bare(Conversion(to)), [], []);
    OperatorParts(to, Nothing);
    OperatorIsValid(to);
    hide ShowComponent, NameOfComponent, ValidComponent;
    assert ShowPath(x.next, End) == ShowComponent(c, End);
    assert ValidPath(x.next, End);
    var q := ShowScope(false, ShowPath(x.next, End));
    NamedParts(s, [], q, WithScope(false, NameOfPath(x.next, Nothing)));
    NothingBehind(q);
    NamedComponent(s, [], q);
    assert ValidPath(x, End);
    NoPaths();
    assert [x][1..] == [] && [x] == [x] + [];
    OnePath(x, []);
    MemberOperatorFails(s, to);
    MemberOperatorSpelling(s, to);
  }

  lemma MemberOperatorFails(s: string, to: Path)
    ensures Fails(MemberOperator(s, to)) == Fails(to)
  {
    var x := MemberOperator(s, to);
    OperatorParts(to, Nothing);
    NamedParts(s, [], End, Nothing);
    assert Fails(x.next) == BaseFails(x.next.c.base);
  }

  lemma OperatorIsValid(to: Path)
    requires ValidType(to)
    ensures ValidComponent(Component(Bare(Conversion(to)), [], []), End)
  {
    hide ValidPath, ShowPath, StartsConversion, IsPointerFree;
    var c := Component(Bare(Conversion(to)), [], []);
    assert ShowRest(c, End) == End;
    assert ValidHead(Conversion(to), End);
    assert ValidBase(c.base, End);
  }

  lemma MemberOperatorSpelling(s: string, to: Path)
    ensures QualifiedName([MemberOperator(s, to)]) == Spell(NameOfPath(to, Nothing), s + "::operator", true)
  {
    var x := MemberOperator(s, to);
    var n1 := NameOfPath(to, Nothing);
    var n2 := Word(Ident("operator"), n1);
    OperatorParts(to, Nothing);
    NamedParts(s, [], End, WithScope(false, n2));
    hide NameOfComponent;
    assert NameOfPath(x.next, Nothing) == n2;
    assert NameOfPath(x, Nothing) == Word(Ident(s), Word(Punct("::"), n2));
    hide NameOfPath;
    SpellFirst(Ident(s), Word(Punct("::"), n2));
    SpellPunctuation("::", n2, s, true);
    SpellAfter("operator", n1, s + "::");
    assert s + "::" + "operator" == s + "::operator";
  }

  /** A conversion operator is pruned to the class, `operator` and the type exactly if no declarator is in the type.
      With a declarator only what that declares is left; with one that declares nothing, the whole text. */
  lemma ConversionOperator(text: string, s: string, to: Path)
    requires IsName(s) && s != "operator" && ValidType(to)
    requires ReadsAs(SkipSpace(text), Then(Ident(s), Then(Punct("::"), Then(Ident("operator"), ShowPath(to, End)))))
    ensures Fails(to) ==> Prune(text) == text
    ensures var whole := s + "::operator" + TextOf(NameOfPath(to, Nothing), true);
            !Fails(to) ==>
              && Prune(text) == (if IsPointerFree(to) then whole else QualifiedName([to]))
              && (Prune(text) == whole <==> IsPointerFree(to))
  {
    hide Prune, ReadsAs, SkipSpace, ShowPaths, ShowPath, ValidPaths, ValidType, Fails, NameOfPath, Spell, TextOf, IsPointerFree,
         IsName, AnyFails;
    var n, front := NameOfPath(to, Nothing), s + "::operator";
    MemberOperatorParts(s, to);
    PruningProof.PruneDeclaration(text, [MemberOperator(s, to)]);
    if !Fails(to) {
      BrokenByDeclarators(to, Nothing);
      KeptExactly(n, front, true);
      if IsPointerFree(to) {
        SpellIsText(n, front, true);
      } else {
        BrokenForgets(n, front, true, "", false);
        assert QualifiedName([to]) == Spell(n, "", false);
      }
    }
  }

  // ---------------------------------------------------------------- a pointer to a function

  /** `int (*)(double)()` */
  function PointerType(): Path {
    Last(Component(Unnamed(Some(Named("int")), [Punct("*")]), [], [Group(Round, [Ident("double")]), Group(Round, [])]))
  }

  function PointerTypeShown(): Printed {
    Then(Ident("int"), Then(Punct("("), Then(Punct("*"), Then(Punct(")"), Then(Punct("("), Then(Ident("double"),
      Then(Punct(")"), Then(Punct("("), Then(Punct(")"), End)))))))))
  }

  lemma PointerTypeParts()
    ensures ShowPath(PointerType(), End) == PointerTypeShown() && ValidType(PointerType()) && Fails(PointerType())
  {
    var x := PointerType();
    var c := x.c;
    var g1, g2 := Group(Round, [Ident("double")]), Group(Round, []);
    Idents();
    hide IsName;
    OneShown(g2, End);
    assert [g1, g2][1..] == [g2];
    assert ShowModifiers([g1, g2], End) == ShowModifier(g1, ShowModifiers([g2], End));
    OneTokenShown(Ident("double"), Then(Punct(")"), ShowModifiers([g2], End)));
    OneTokenShown(Punct("*"), Then(Punct(")"), ShowModifiers([g1, g2], End)));
    assert ShowRest(c, End) == ShowModifiers([g1, g2], End);
    assert ShowPath(x, End) == ShowComponent(c, End);
    assert ShowPath(x, End) == ShowHead(Named("int"), ShowGroup(Round, [Punct("*")], ShowRest(c, End)));
    GroupIsModifier([]);
    assert [Ident("double")][1..] == [];
    GroupIsModifier([Ident("double")]);
    OnePointer();
    assert ValidBase(c.base, ShowRest(c, End));
    assert ValidComponent(c, End);
  }

  lemma OnePointer()
    ensures ValidPointer([Punct("*")])
  {
  }

  lemma PointerTypeReads()
    ensures ReadsAs("int (*)(double)()", PointerTypeShown()) && SkipSpace("int (*)(double)()") == "int (*)(double)()"
  {
    hide Lex, LexIn, SkipSpace, ReadsAs, IsName;
    Idents();
    ArgumentsRead();
    var s0 := "(double)()";
    var p0 := PointerTypeShown().more.more.more.more;
    CloserInFront(s0, p0);
    var s1, p1 := ")" + s0, Then(Punct(")"), p0);
    StarInFront("", s1, p1);
    ParenthesisInFront("*" + ("" + s1), Then(Punct("*"), p1));
    var s2 := "(" + ("*" + ("" + s1));
    WordInFront("int", " ", s2, Then(Punct("("), Then(Punct("*"), p1)));
    assert "int" + (" " + s2) == "int (*)(double)()";
  }

  lemma ArgumentsRead()
    ensures ReadsAs("(double)()", PointerTypeShown().more.more.more.more) && SkipSpace("(double)()") == "(double)()"
  {
    hide Lex, LexIn, SkipSpace, ReadsAs, IsName;
    Idents();
    NothingLeft();
    CloserInFront("", End);
    var p := Then(Punct("("), Then(Punct(")"), End));
    ParenthesisInFront(")" + "", p.more);
    var s := "(" + (")" + "");
    CloserInFront(s, p);
    WordInFront("double", "", ")" + s, Then(Punct(")"), p));
    ParenthesisInFront("double" + ("" + (")" + s)), Then(Ident("double"), Then(Punct(")"), p)));
    assert "(" + ("double" + ("" + (")" + s))) == "(double)()";
  }

  /** The conversion operator to a pointer to a function cannot be parsed. */
  lemma ConversionToFunctionPointer()
    ensures Prune("S::operator int (*)(double)()") == "S::operator int (*)(double)()"
  {
    hide *;
    PointerTypeParts();
    Idents();
    NotTheKeyword();
    OperatorToPointerReads();
    assert SkipSpace("S::operator int (*)(double)()") == "S::operator int (*)(double)()";
    ConversionOperator("S::operator int (*)(double)()", "S", PointerType());
  }

  lemma NotTheKeyword()
    ensures "S" != "operator"
  {
  }

  lemma OperatorToPointerReads()
    ensures var s := "S::operator int (*)(double)()";
            && ReadsAs(s, Then(Ident("S"), Then(Punct("::"), Then(Ident("operator"), PointerTypeShown()))))
            && SkipSpace(s) == s
  {
    hide Lex, LexIn, SkipSpace, ReadsAs, IsName, PointerTypeShown;
    Idents();
    PointerTypeReads();
    var s := "int (*)(double)()";
    WordInFront("operator", " ", s, PointerTypeShown());
    var s1 := "operator" + (" " + s);
    ScopeInFront(s1, Then(Ident("operator"), PointerTypeShown()));
    WordInFront("S", "", "::" + s1, Then(Punct("::"), Then(Ident("operator"), PointerTypeShown())));
    OperatorText(s);
  }

  lemma OperatorText(s: string)
    requires s == "int (*)(double)()"
    ensures "S" + ("" + ("::" + ("operator" + (" " + s)))) == "S::operator int (*)(double)()"
  {
  }
}
