/** Pruning a printed declaration leaves the name of its last part. */
module PruningProof {
  import opened Wrappers
  import opened SymbolLexer
  import opened SymbolGrammar
  import opened PrintedSymbols
  import opened PrintedGroups
  import opened PrintedTerms

  // ---------------------------------------------------------------- where the parser is stuck

  ghost predicate HopelessAt(s: string) {
    Lex(s).Ok? && Lex(s).value.Some? && IsHopeless(Lex(s).value.value)
  }

  ghost predicate WordAt(s: string) {
    && Lex(s).Ok? && Lex(s).value.Some? && IsPlainWord(Lex(s).value.value)
    && HopelessAt(AfterToken(s, Lex(s).value.value))
  }

  ghost predicate StuckAt(s: string) {
    HopelessAt(s) || WordAt(s)
  }

  ghost predicate Failed(r: Step) {
    r.Ok? ==> StuckAt(r.value.1.rest)
  }

  lemma HopelessIsStuck(p: Printed, s: string)
    requires HopelessAhead(p) && ReadsAs(s, p)
    ensures StuckAt(s)
  {
    hide Lex, AfterToken;
  }

  lemma NothingAfterStuck(st: State)
    requires StuckAt(st.rest)
    ensures !LooksLikeFunctionPointer(st.rest) && AfterTerm(st) == Ok((false, st))
  {
    hide Lex, AfterToken;
    NoGroup(st, Lex(st.rest).value.value);
    assert IgnoredIdentifier(st) == Ok((false, st));
  }

  lemma HopelessSymbol(st: State)
    requires HopelessAt(st.rest)
    ensures Symbol(st) == Ok((false, st))
  {
    hide Lex, AfterToken, AfterTerm;
    assert StuckAt(st.rest);
    NothingAfterStuck(st);
    hide LooksLikeFunctionPointer;
    assert Operator(st) == Ok((false, st));
    assert IdentifierTerm(st) == Ok((false, st));
    assert LambdaOrUnnamed(st) == Ok((false, st));
    assert Term(st) == Ok((false, st));
  }

  lemma StuckSymbol(st: State)
    requires StuckAt(st.rest)
    ensures Symbol(st).Ok? && HopelessAt(Symbol(st).value.1.rest)
  {
    hide Lex, AfterToken, AfterTerm, LooksLikeFunctionPointer;
    if HopelessAt(st.rest) {
      HopelessSymbol(st);
    } else {
      var t := Lex(st.rest).value.value;
      assert Operator(st) == Ok((false, st));
      var st1 := Emit(Take(st, t), t);
      assert Term(st) == Ok((true, st1));
      NothingAfterStuck(st1);
    }
  }

  lemma StuckFullSymbol(st: State)
    requires StuckAt(st.rest)
    ensures FullSymbol(st).Err?
  {
    hide Lex, AfterToken, Symbol;
    var st0 := st.(out := st.out.(reset := true));
    StuckSymbol(st0);
    var st1 := Symbol(st0).value.1;
    HopelessSymbol(st1.(out := st1.out.(reset := true)));
    if HopelessAt(st.rest) {
      HopelessSymbol(st0);
    }
  }

  // ---------------------------------------------------------------- conversions

  lemma NoNamedOperator(q: Printed, st: State)
    requires StartsConversion(q) && ReadsAs(st.rest, q)
    ensures OperatorName(st) == Ok((false, st))
  {
    hide Lex, AfterToken;
    assert NewDelete(st) == Ok((false, st));
    assert SpecialDecltype(st) == Ok((false, st));
    assert CoAwaitOrLiteralOperator(st) == Ok((false, st));
  }

  /** The rest of a conversion operator: a type, and perhaps the type that a member pointer points into. */
  function ConversionTail(st: State): (r: Step)
    ensures r.Ok? ==> r.value.0
  {
    var (_, st1) :- Symbol(st);
    var next :- Lex(st1.rest);
    if next.Some? && next.value.kind == Identifier then
      var (_, st2) :- Symbol(st1);
      Ok((true, st2))
    else Ok((true, st1))
  }

  lemma TermOfConversion(q: Printed, st: State)
    requires StartsConversion(q) && ReadsAs(st.rest, Then(Ident("operator"), q))
    ensures Term(st) == ConversionTail(AfterOperator(st))
  {
    hide Lex, AfterToken, Symbol, OperatorName;
    var st1 := AfterOperator(st);
    assert AcceptAndEmit(st, Ident("operator")) == Ok((true, st1));
    assert ReadsAs(st1.rest, q);
    NoNamedOperator(q, st1);
    assert AnonymousTag(st) == Ok((false, st));
  }

  lemma FailedConversion(st: State)
    requires Failed(Symbol(st))
    ensures Failed(ConversionTail(st))
  {
    hide Lex, AfterToken, Symbol;
    if Symbol(st).Ok? {
      StuckSymbol(Symbol(st).value.1);
    }
  }

  lemma FailedMember(q: Printed, st: State)
    requires Symbol(st).Ok? && ReadsAs(Symbol(st).value.1.rest, q) && q.Then? && q.token.kind == Identifier
    requires Failed(Symbol(Symbol(st).value.1))
    ensures Failed(ConversionTail(st))
  {
    hide Lex, AfterToken, Symbol, StuckAt;
  }

  lemma OneType(p: Printed, st: State, n: Name, k: Name)
    requires Recognized(Symbol(st), p, st.out, n, k) && (p.End? || (p.Then? && p.token.kind != Identifier))
    ensures Recognized(ConversionTail(st), p, st.out, n, k)
  {
    hide Lex, AfterToken, Symbol, Finish, IsWritten;
  }

  lemma TwoTypes(q: Printed, p: Printed, st: State, n: Name, n': Name, k: Name)
    requires Recognized(Symbol(st), q, st.out, n, n') && q.Then? && q.token.kind == Identifier
    requires var st1 := Symbol(st).value.1; Recognized(Symbol(st1), p, st1.out, n', k)
    ensures Recognized(ConversionTail(st), p, st.out, n, k)
  {
    hide Lex, AfterToken, Symbol, Finish, IsWritten;
  }

  lemma {:induction false} ConversionIsRead(h: Head, p: Printed, st: State, k: Name)
    requires IsConversion(h) && ValidHead(h, p) && ReadsAs(st.rest, ShowHead(h, p))
    ensures if HeadFails(h) then Failed(Term(st)) else Recognized(Term(st), p, st.out, NameOfHead(h, k), k)
    decreases h, 0, 0
  {
    hide Lex, AfterToken, Symbol, Term, Recognized, Failed, ValidPath, ShowPath, Fails, IsPointerFree, NameOfPath,
         ConversionTail, AppendOutput, Finish, StartsConversion;
    var st1 := AfterOperator(st);
    match h
    case Conversion(to) =>
      var q, n := ShowPath(to, p), NameOfPath(to, k);
      TermOfConversion(q, st);
      PathIsRead(to, p, st1, k);
      if Fails(to) {
        FailedConversion(st1);
      } else {
        OneType(p, st1, n, k);
        OperatorAppended(Term(st), p, st.out, n, k);
      }
    case MemberConversion(to, of) =>
      var q := ShowPath(of, p);
      var n' := NameOfPath(of, k);
      var n := NameOfPath(to, n');
      TermOfConversion(ShowPath(to, q), st);
      PathIsRead(to, q, st1, n');
      if Fails(to) {
        FailedConversion(st1);
      } else {
        ReadOn(Symbol(st1), q, st1.out, n, n');
        PathIsRead(of, p, Symbol(st1).value.1, k);
        if Fails(of) {
          FailedMember(q, st1);
        } else {
          TwoTypes(q, p, st1, n, n', k);
          OperatorAppended(Term(st), p, st.out, n, k);
        }
      }
  }

  lemma ReadOn(r: Step, p: Printed, out: Output, n: Name, k: Name)
    requires Recognized(r, p, out, n, k)
    ensures r.Ok? && r.value.0 && ReadsAs(r.value.1.rest, p) && IsWritten(r.value.1.out)
    ensures Finish(r.value.1.out, k) == Finish(out, n)
  {
  }

  lemma OperatorAppended(r: Step, p: Printed, out: Output, n: Name, k: Name)
    requires Recognized(r, p, AppendOutput(out, Ident("operator")), n, k)
    ensures Recognized(r, p, out, Word(Ident("operator"), n), k)
  {
    hide AppendOutput, Finish, IsWritten;
    Appending(out, Ident("operator"), n);
  }

  // ---------------------------------------------------------------- terms

  /** A bare number is not a symbol, so it is returned as it is. */
  lemma PruneNumber(number: string)
    requires IsNumber(number)
    ensures Prune(number) == number
  {
    hide LooksLikeFunctionPointer;
    var st := State(number, Output("", false, true));
    assert number[0] != '(' && number[0] != '`';
    var t := Token(Literal, number[..NumberEnd(number, 0)]);
    assert Lex(number) == Ok(Some(t)) by {
      assert ANONYMOUS_GNU[0] == '(' && ANONYMOUS_MSVC[0] == '`';
    }
    hide Lex;
    assert SkipSpace(number) == number;
    assert t.str[0] == number[0] && !IsQuotedLambda(t) && !IsEnclosedSymbol(t);
    OnlyLambda(st, t);
    assert LambdaOrUnnamed(st) == Ok((false, st));
    assert Symbol(st) == Ok((false, st)) by {
      assert !LooksLikeFunctionPointer(number) by { NumberIsNoPointer(number, t); }
    }
    assert Start(number).out.(reset := true) == st.out;
    assert FullSymbol(Start(number)).Err?;
  }

  lemma NumberIsNoPointer(s: string, t: Token)
    requires Lex(s) == Ok(Some(t)) && t.kind == Literal
    ensures !LooksLikeFunctionPointer(s)
  {
    hide Lex;
  }

  lemma {:induction false} HeadIsRead(h: Head, p: Printed, st: State, k: Name)
    requires ValidHead(h, p) && ReadsAs(st.rest, ShowHead(h, p))
    ensures if HeadFails(h) then Failed(Term(st)) else Recognized(Term(st), p, st.out, NameOfHead(h, k), k)
    decreases h, 0, 1
  {
    hide Lex, AfterToken, Term, Recognized, StuckAt, ShowHead, NameOfHead, Prune, AnyFails, QualifiedName, ValidPaths,
         ShowPaths;
    if IsConversion(h) {
      ConversionIsRead(h, p, st, k);
    } else {
      if h.Enclosed? {
        PruneDeclaration(h.text, h.inner);
      } else if h.Ordinal? {
        PruneNumber(h.number);
      }
      TermOfHead(h, p, st, k);
    }
  }

  // ---------------------------------------------------------------- function pointers

  lemma {:induction false} DeclaratorIsRead(junk: seq<Token>, inner: Path, p: Printed, st: State, k: Name)
    requires ValidDeclarator(junk, inner, p) && ReadsAs(st.rest, ShowDeclarator(junk, inner, p))
    ensures if Fails(inner) then FunctionPointer(st).Err?
            else Recognized(FunctionPointer(st), p, st.out, Restart(NameOfPath(inner, k)), k)
    ensures LooksLikeFunctionPointer(st.rest)
    decreases inner, 5, 0
  {
    hide Lex, AfterToken, Symbol, PointerJunk, Recognized, Failed, ValidPath, ShowPath, Fails, NameOfPath,
         LooksLikeFunctionPointer, IsPointerJunk, Finish;
    var q := Then(Punct(")"), p);
    var name := ShowPath(inner, q);
    PointerInJunk(junk, name);
    Lookahead(st.rest, ShowDeclarator(junk, inner, p));
    var st1 := Take(st, Punct("("));
    assert ReadsAs(st1.rest, ShowTokens(junk, name));
    JunkIsPassed(junk, name, st1);
    var st2 := PointerJunk(st1).value.1;
    var st3 := st2.(out := st2.out.(reset := true));
    PathIsRead(inner, q, st3, k);
    if Fails(inner) {
      FailedDeclarator(st, st3);
    } else {
      OneDeclarator(p, st, st3, NameOfPath(inner, k), k);
    }
  }

  /** A declarator up to the name in it. */
  ghost predicate DeclaratorUpTo(st: State, st3: State) {
    && Lex(st.rest) == Ok(Some(Punct("("))) && 1 <= |st.rest|
    && var r := PointerJunk(Take(st, Punct("(")));
       r.Ok? && r.value.0 && st3 == r.value.1.(out := st.out.(reset := true))
  }

  lemma FailedDeclarator(st: State, st3: State)
    requires DeclaratorUpTo(st, st3) && Failed(Symbol(st3))
    ensures FunctionPointer(st).Err?
  {
    hide Lex, AfterToken, Symbol, PointerJunk;
  }

  lemma OneDeclarator(p: Printed, st: State, st3: State, n: Name, k: Name)
    requires DeclaratorUpTo(st, st3) && Recognized(Symbol(st3), Then(Punct(")"), p), st3.out, n, k)
    ensures Recognized(FunctionPointer(st), p, st.out, Restart(n), k)
  {
    hide Lex, AfterToken, Symbol, PointerJunk, IsWritten;
  }

  lemma {:induction false} BaseIsRead(b: Base, p: Printed, st: State, k: Name)
    requires ValidBase(b, p) && ReadsAs(st.rest, ShowBase(b, p))
    ensures if BaseFails(b) then Failed(TermOrFunctionPointer(st))
            else Recognized(TermOrFunctionPointer(st), p, st.out, NameOfBase(b, k), k)
    decreases b, 1, 0
  {
    hide Lex, AfterToken, Term, FunctionPointer, Recognized, StuckAt, ShowHead, ValidHead, HeadFails, Fails,
         NameOfHead, NameOfPath,
         LooksLikeFunctionPointer, PointerShown, ValidDeclarator, ShowDeclarator, Finish;
    match b
    case Bare(h) =>
      HeadIsRead(h, p, st, k);
      if HeadFails(h) {
        NoPointerAfterFailure(st);
      } else {
        ReadOn(Term(st), p, st.out, NameOfHead(h, k), k);
        Lookahead(Term(st).value.1.rest, p);
      }
    case Declarator(junk, inner) =>
      DeclaratorIsRead(junk, inner, p, st, k);
      StartOfDeclarator(junk, inner, p);
      NoTermAtParenthesis(ShowDeclarator(junk, inner, p), st);
      if !Fails(inner) {
        ReadOn(FunctionPointer(st), p, st.out, Restart(NameOfPath(inner, k)), k);
      }
    case TypedDeclarator(h, junk, inner) =>
      var q := ShowDeclarator(junk, inner, p);
      HeadIsRead(h, q, st, Nothing);
      if HeadFails(h) {
        NoPointerAfterFailure(st);
      } else {
        ReadOn(Term(st), q, st.out, NameOfHead(h, Nothing), Nothing);
        var st1 := Term(st).value.1;
        DeclaratorIsRead(junk, inner, p, st1, k);
        if !Fails(inner) {
          RestartAnywhere(FunctionPointer(st1), p, st1.out, st.out, NameOfPath(inner, k), k);
          ReadOn(FunctionPointer(st1), p, st.out, Restart(NameOfPath(inner, k)), k);
          assert TermOrFunctionPointer(st) == FunctionPointer(st1);
        }
      }
    case Unnamed(of, junk) =>
      if of.None? {
        NoTermAtParenthesis(ShowGroup(Round, junk, p), st);
        UnnamedFails(junk, p, st);
      } else {
        HeadIsRead(of.value, ShowGroup(Round, junk, p), st, Nothing);
        if HeadFails(of.value) {
          NoPointerAfterFailure(st);
        } else {
          ReadOn(Term(st), ShowGroup(Round, junk, p), st.out, NameOfHead(of.value, Nothing), Nothing);
          UnnamedFails(junk, p, Term(st).value.1);
        }
      }
  }

  /** Behind the pointers of a declarator the parser needs a name. */
  lemma UnnamedFails(junk: seq<Token>, p: Printed, st: State)
    requires ValidPointer(junk) && ReadsAs(st.rest, ShowGroup(Round, junk, p))
    ensures LooksLikeFunctionPointer(st.rest) && FunctionPointer(st).Err?
  {
    hide Lex, AfterToken, Symbol, PointerJunk, LooksLikeFunctionPointer, IsPointerJunk;
    var q := Then(Punct(")"), p);
    PointerInJunk(junk, q);
    Lookahead(st.rest, ShowGroup(Round, junk, p));
    var st1 := Take(st, Punct("("));
    assert ReadsAs(st1.rest, ShowTokens(junk, q));
    assert !IsPointerJunk(Punct(")")) by { ParenthesisIsNoPointer(); }
    JunkIsPassed(junk, q, st1);
    var st2 := PointerJunk(st1).value.1;
    NoTermHere(q, st2.(out := st2.out.(reset := true)));
  }

  lemma ParenthesisIsNoPointer()
    ensures !IsPointerJunk(Punct(")"))
  {
  }

  lemma NoPointerAfterFailure(st: State)
    requires Failed(Term(st))
    ensures Failed(TermOrFunctionPointer(st))
  {
    hide Lex, Term, FunctionPointer, StuckAt, LooksLikeFunctionPointer;
    if Term(st).Ok? {
      NothingAfterStuck(Term(st).value.1);
    }
  }

  lemma StartOfDeclarator(junk: seq<Token>, inner: Path, p: Printed)
    ensures var q := ShowDeclarator(junk, inner, p); q.Then? && q.token == Punct("(")
  {
  }

  lemma NoTermAtParenthesis(q: Printed, st: State)
    requires ReadsAs(st.rest, q) && q.Then? && q.token == Punct("(")
    ensures Term(st) == Ok((false, st))
  {
    hide Lex, AfterToken;
    assert Operator(st) == Ok((false, st));
    assert IdentifierTerm(st) == Ok((false, st));
    assert LambdaOrUnnamed(st) == Ok((false, st));
  }

  lemma RestartAnywhere(r: Step, p: Printed, out: Output, out': Output, n: Name, k: Name)
    requires Recognized(r, p, out, Restart(n), k)
    ensures Recognized(r, p, out', Restart(n), k)
  {
    hide IsWritten;
  }

  // ---------------------------------------------------------------- paths

  /** What is printed behind a base is dropped, references aside. */
  lemma RestIsPassed(c: Component, q: Printed, st: State, k: Name) returns (st1: State)
    requires AreReferences(c.refs) && (forall m | m in c.modifiers :: ValidModifier(m))
    requires (c.modifiers != [] ==> !c.modifiers[0].Lone?) && EndsModifiers(q)
    requires ReadsAs(st.rest, ShowRest(c, q)) && IsWritten(st.out)
    ensures ReadsAs(st1.rest, q) && IsWritten(st1.out) && Finish(st1.out, k) == Finish(st.out, WithTokens(c.refs, k))
    ensures PointerRefs(st, true).Ok? && ModifiersEnd(PointerRefs(st, true).value.1) == Ok(st1)
  {
    hide Lex, AfterToken, Finish, IsWritten, ModifiersEnd, PointerRefs, WithTokens;
    var p := ShowModifiers(c.modifiers, q);
    assert NoReference(p) && !p.Close? by { NoReferenceFirst(c.modifiers, q); }
    ReferencesAreKept(c.refs, p, st, k);
    var st0 := PointerRefs(st, true).value.1;
    ModifiersArePassed(c.modifiers, q, st0);
    st1 := ModifiersEnd(st0).value;
  }

  lemma NoReferenceFirst(ms: seq<Modifier>, q: Printed)
    requires (forall m | m in ms :: ValidModifier(m)) && (ms != [] ==> !ms[0].Lone?) && EndsModifiers(q)
    ensures NoReference(ShowModifiers(ms, q)) && !ShowModifiers(ms, q).Close?
  {
    if ms != [] {
      assert ValidModifier(ms[0]);
    }
  }

  /** Every path starts with a token, and never with a star. */
  lemma FrontOfPath(x: Path, p: Printed)
    ensures ShowPath(x, p).Then? && ShowPath(x, p).token != Punct("*")
  {
    hide ShowRest, ShowHead;
    var q := ShowRest(x.c, Behind(x, p));
    assert ShowPath(x, p) == ShowBase(x.c.base, q);
    match x.c.base
    case Bare(h) => FrontOfHead(h, q);
    case Declarator(junk, inner) => assert ShowPath(x, p) == ShowDeclarator(junk, inner, q);
    case TypedDeclarator(h, junk, inner) => FrontOfHead(h, ShowDeclarator(junk, inner, q));
    case Unnamed(of, junk) =>
      if of.Some? {
        FrontOfHead(of.value, ShowGroup(Round, junk, q));
      }
  }

  lemma FrontOfHead(h: Head, p: Printed)
    ensures ShowHead(h, p).Then? && ShowHead(h, p).token != Punct("*")
  {
  }

  /** After the base of a component: the rest of it, and `::` if that is printed. */
  lemma AfterBase(c: Component, q: Printed, st: State, k: Name)
    requires ValidComponent(c, q) && EndsPath(q)
    requires ReadsAs(st.rest, ShowRest(c, q)) && IsWritten(st.out)
    ensures var r := AfterTerm(st);
            && r.Ok? && !r.value.0 && ReadsAs(r.value.1.rest, q)
            && Finish(r.value.1.out, k) == Finish(st.out, WithTokens(c.refs, k)) && IsWritten(r.value.1.out)
  {
    hide Lex, AfterToken, Finish, IsWritten, TrailingModifiers, PointerRefs, ShowRest, ValidBase, ValidModifier,
         WithTokens;
    var st1 := RestIsPassed(c, q, st, k);
  }

  lemma AfterBaseScope(c: Component, star: bool, q: Printed, st: State, k: Name)
    requires ValidComponent(c, ShowScope(star, q)) && (star || (q.Then? && q.token != Punct("*")))
    requires ReadsAs(st.rest, ShowRest(c, ShowScope(star, q))) && IsWritten(st.out)
    ensures var r := AfterTerm(st);
            && r.Ok? && r.value.0 && ReadsAs(r.value.1.rest, q)
            && Finish(r.value.1.out, k) == Finish(st.out, WithTokens(c.refs, WithScope(star, k))) && IsWritten(r.value.1.out)
  {
    hide Lex, AfterToken, Finish, IsWritten, TrailingModifiers, PointerRefs, ShowRest, ValidBase, ValidModifier,
         WithTokens, AppendOutput;
    var st1 := RestIsPassed(c, ShowScope(star, q), st, WithScope(star, k));
    var more := if star then Word(Punct("*"), k) else k;
    Appending(st1.out, Punct("::"), more);
    var st2 := Emit(Take(st1, Punct("::")), Punct("::"));
    assert AcceptAndEmit(st1, Punct("::")) == Ok((true, st2));
    if star {
      Appending(st2.out, Punct("*"), k);
    }
  }

  lemma NoTermHere(p: Printed, st: State)
    requires NoTermAhead(p) && ReadsAs(st.rest, p)
    ensures Symbol(st) == Ok((false, st))
  {
    hide Lex, AfterToken, AfterTerm, LooksLikeFunctionPointer, PointerShown, EndsWith;
    if p.Then? {
      Lookahead(st.rest, p);
      assert Operator(st) == Ok((false, st));
      assert IdentifierTerm(st) == Ok((false, st));
      assert LiteralTerm(st) == Ok((false, st));
      assert LambdaOrUnnamed(st) == Ok((false, st));
      assert Term(st) == Ok((false, st));
    }
  }

  /** Reading a path leaves what follows it, with its name appended to the output. */
  lemma {:induction false} PathIsRead(x: Path, p: Printed, st: State, k: Name)
    requires ValidPath(x, p) && ReadsAs(st.rest, ShowPath(x, p))
    ensures if Fails(x) then Failed(Symbol(st)) else Recognized(Symbol(st), p, st.out, NameOfPath(x, k), k)
    decreases x, 3, 0
  {
    hide Lex, AfterToken, AfterTerm, TermOrFunctionPointer, StuckAt, ShowRest, ValidBase, ShowBase, BaseFails,
         NameOfBase,
         WithTokens, ValidModifier, Finish, IsWritten, NoTermAhead, HopelessAhead, EndsPath, WithScope, ShowScope;
    var c, q, k' := x.c, Behind(x, p), NameBehind(x, k);
    assert ValidComponent(c, q) && ShowPath(x, p) == ShowComponent(c, q);
    BaseIsRead(c.base, ShowRest(c, q), st, WithTokens(c.refs, k'));
    FrontOfPath(x, p);
    if BaseFails(c.base) {
      FailedPath(st);
    } else {
      var n := NameOfBase(c.base, WithTokens(c.refs, k'));
      ReadOn(TermOrFunctionPointer(st), ShowRest(c, q), st.out, n, WithTokens(c.refs, k'));
      var st1 := TermOrFunctionPointer(st).value.1;
      match x {
        case Last(_) => AfterBase(c, p, st1, k);
        case Stuck(_, rest) => StuckPath(c, rest, st, st1);
        case Member(_) =>
          AfterBaseScope(c, true, p, st1, k);
          NoTermHere(p, AfterTerm(st1).value.1);
        case Scope(_, star, next) =>
          FrontOfPath(next, p);
          AfterBaseScope(c, star, ShowPath(next, p), st1, NameOfPath(next, k));
          PathIsRead(next, p, AfterTerm(st1).value.1, k);
      }
    }
  }

  lemma FailedPath(st: State)
    requires Lex(st.rest).Ok? && Lex(st.rest).value.Some? && Failed(TermOrFunctionPointer(st))
    ensures Failed(Symbol(st))
  {
    hide Lex, TermOrFunctionPointer, StuckAt, AfterTerm;
    if TermOrFunctionPointer(st).Ok? {
      NothingAfterStuck(TermOrFunctionPointer(st).value.1);
    }
  }

  lemma StuckPath(c: Component, rest: Printed, st: State, st1: State)
    requires ValidComponent(c, rest) && HopelessAhead(rest)
    requires ReadsAs(st1.rest, ShowRest(c, rest)) && IsWritten(st1.out)
    requires Lex(st.rest).Ok? && Lex(st.rest).value.Some? && TermOrFunctionPointer(st) == Ok((true, st1))
    ensures Failed(Symbol(st))
  {
    hide Lex, AfterToken, TermOrFunctionPointer, StuckAt, AfterTerm, ShowRest, ValidBase, ValidModifier;
    AfterBase(c, rest, st1, Nothing);
    HopelessIsStuck(rest, AfterTerm(st1).value.1.rest);
  }

  // ---------------------------------------------------------------- declarations

  lemma {:induction false} PathsAreRead(xs: seq<Path>, st: State)
    requires ValidPaths(xs) && ReadsAs(st.rest, ShowPaths(xs))
    ensures var r := FullSymbol(st);
            if AnyFails(xs) then r.Err? else r.Ok? && r.value.out.name == QualifiedName(xs) && r.value.out.name != ""
    decreases xs, 4, 0
  {
    hide Lex, AfterToken, Symbol, Recognized, Failed, Fails, ValidPath, ShowPath, NameOfPath, Finish;
    var x, p := xs[0], ShowPaths(xs[1..]);
    var st0 := st.(out := st.out.(reset := true));
    PathIsRead(x, p, st0, Nothing);
    FrontOfPath(x, p);
    if Fails(x) {
      assert x in xs;
      FailedDeclaration(st);
    } else {
      ReadOn(Symbol(st0), p, st0.out, NameOfPath(x, Nothing), Nothing);
      var st1 := Symbol(st0).value.1;
      assert FullSymbol(st) == FullSymbol(st1);
      if |xs| > 1 {
        PathsAreRead(xs[1..], st1);
        assert xs == [x] + xs[1..];
      } else {
        LastIsName(st0.out, st1.out, NameOfPath(x, Nothing));
      }
    }
  }

  lemma LastIsName(out: Output, out1: Output, n: Name)
    requires out.reset && IsWritten(out1) && Finish(out1, Nothing) == Finish(out, n)
    ensures out1.name == Spell(n, "", false)
  {
  }

  lemma FailedDeclaration(st: State)
    requires Lex(st.rest).Ok? && Lex(st.rest).value.Some? && Failed(Symbol(st.(out := st.out.(reset := true))))
    ensures FullSymbol(st).Err?
  {
    hide Lex, Symbol, StuckAt;
    var r := Symbol(st.(out := st.out.(reset := true)));
    if r.Ok? {
      StuckFullSymbol(r.value.1);
    }
  }

  /** What pruning is for: of every text that reads as a declaration, whatever whitespace is in it, the name
      of the last part is left. It is left alone if it cannot be parsed. */
  lemma {:induction false} PruneDeclaration(text: string, xs: seq<Path>)
    requires ValidPaths(xs) && ReadsAs(SkipSpace(text), ShowPaths(xs))
    ensures Prune(text) == if AnyFails(xs) then text else QualifiedName(xs)
    decreases xs, 5, 0
  {
    hide Lex, AfterToken, FullSymbol, ShowPaths, ValidPaths, AnyFails, QualifiedName;
    PathsAreRead(xs, Start(text));
  }
}
