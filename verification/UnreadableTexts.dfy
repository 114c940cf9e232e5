/** A text that cannot be cut into tokens is left alone by pruning: however the parser gets through it, it comes
    to the place where no token can be read. */
module UnreadableTexts {
  import opened Wrappers
  import opened SymbolLexer
  import opened SymbolGrammar
  import PrintedTexts

  /** Some tokens, and then a place where no token can be read. */
  ghost predicate IsUnreadable(s: string)
    decreases |s|
  {
    Lex(s).Err? || (Lex(s).value.Some? && IsUnreadable(AfterToken(s, Lex(s).value.value)))
  }

  // ---------------------------------------------------------------- half of a token

  lemma LexesAs(op: string, r: string)
    requires op != "" && op[0] == '>' && PunctuationLength(op + r) == |op|
    ensures IsUnreadable(op + r) <==> IsUnreadable(SkipSpace(r))
  {
    var s := op + r;
    assert s[0] == '>' && s[..|op|] == op && s[|op|..] == r;
    PrintedTexts.FirstOfTags(s);
    PrintedTexts.TokenByFirst(s);
    hide Lex;
  }

  lemma OneBracket(r: string)
    requires r == "" || (r[0] != '=' && r[0] != '>')
    ensures IsUnreadable(">" + r) <==> IsUnreadable(SkipSpace(r))
  {
    var s := ">" + r;
    assert s[0] == '>' && (r != "" ==> s[1] == r[0]);
    LexesAs(">", r);
  }

  lemma TwoBrackets(r: string)
    requires r == "" || r[0] != '='
    ensures IsUnreadable(">>" + r) <==> IsUnreadable(SkipSpace(r))
  {
    var s := ">>" + r;
    assert s[0] == '>' && s[1] == '>' && (r != "" ==> s[2] == r[0]);
    LexesAs(">>", r);
  }

  lemma BracketsAndEquals(r: string)
    ensures IsUnreadable(">=" + r) <==> IsUnreadable(">>=" + r)
  {
    var s, s' := ">=" + r, ">>=" + r;
    assert s[0] == '>' && s[1] == '=';
    assert s'[0] == '>' && s'[1] == '>' && s'[2] == '=';
    LexesAs(">=", r);
    LexesAs(">>=", r);
  }

  lemma BracketFirst(r: string)
    requires r != "" && r[0] == '>'
    ensures SkipSpace(r) == r && r == ">" + r[1..]
  {
  }

  /** Reading on behind the first half of `>>` leads to the same place. */
  lemma {:induction false} HalfIsUnreadable(r: string)
    requires IsUnreadable(SkipSpace(r)) && (r == "" || r[0] != '=')
    ensures IsUnreadable(">" + r)
    decreases |r|
  {
    hide IsUnreadable, SkipSpace;
    if r == "" || r[0] != '>' {
      OneBracket(r);
    } else {
      var r1 := r[1..];
      BracketFirst(r);
      assert ">" + r == ">>" + r1;
      if r1 != "" && r1[0] == '=' {
        assert r1 == "=" + r1[1..] && r == ">=" + r1[1..] && ">" + r == ">>=" + r1[1..];
        BracketsAndEquals(r1[1..]);
      } else {
        TwoBrackets(r1);
        BehindBracket(r1);
      }
    }
  }

  lemma {:induction false} BehindBracket(r1: string)
    requires IsUnreadable(">" + r1) && (r1 == "" || r1[0] != '=')
    ensures IsUnreadable(SkipSpace(r1))
    decreases |r1|, 0
  {
    hide IsUnreadable, SkipSpace;
    if r1 == "" || r1[0] != '>' {
      OneBracket(r1);
    } else {
      var r2 := r1[1..];
      BracketFirst(r1);
      assert ">" + r1 == ">>" + r2;
      if r2 != "" && r2[0] == '=' {
        assert r2 == "=" + r2[1..] && r1 == ">=" + r2[1..] && ">" + r1 == ">>=" + r2[1..];
        BracketsAndEquals(r2[1..]);
      } else {
        TwoBrackets(r2);
        HalfIsUnreadable(r2);
      }
    }
  }

  // ---------------------------------------------------------------- steps

  /** The parser is still in front of the place. */
  ghost predicate Stays(r: Step, st: State) {
    r.Ok? && IsUnreadable(st.rest) ==> IsUnreadable(r.value.1.rest)
  }

  ghost predicate StaysAt(r: Result<State, ParseError>, st: State) {
    r.Ok? && IsUnreadable(st.rest) ==> IsUnreadable(r.value.rest)
  }

  lemma TokenStays(st: State)
    ensures Lex(st.rest).Ok? && IsUnreadable(st.rest) ==>
              Lex(st.rest).value.Some? && IsUnreadable(Take(st, Lex(st.rest).value.value).rest)
  {
    hide Lex, AfterToken;
  }

  lemma AcceptStays(st: State, t: Token)
    ensures Stays(AcceptToken(st, t), st) && Stays(AcceptAndEmit(st, t), st) && StaysAt(Expect(st, t), st)
  {
    hide Lex, AfterToken, IsUnreadable;
    TokenStays(st);
  }

  lemma TypeStays(st: State, kind: TokenType)
    ensures var r := AcceptType(st, kind); r.Ok? && IsUnreadable(st.rest) ==> IsUnreadable(r.value.1.rest)
    ensures var r := ExpectType(st, kind); r.Ok? && IsUnreadable(st.rest) ==> IsUnreadable(r.value.1.rest)
  {
    hide Lex, AfterToken, IsUnreadable;
    TokenStays(st);
  }

  lemma {:induction false} PointerRefsStay(st: State, append: bool)
    ensures Stays(PointerRefs(st, append), st)
    decreases |st.rest|
  {
    hide Lex, AfterToken, IsUnreadable;
    TokenStays(st);
    var next := Lex(st.rest);
    if next.Ok? && next.value.Some? {
      var st1 := if append then Emit(st, next.value.value) else st;
      PointerRefsStay(Take(st1, next.value.value), append);
    }
  }

  lemma IgnoredStays(st: State)
    ensures Stays(IgnoredIdentifier(st), st)
  {
    hide Lex, AfterToken, IsUnreadable;
    TokenStays(st);
  }

  // ---------------------------------------------------------------- groups

  lemma OperatorPunctuationStays(st: State, append: bool)
    ensures Stays(OperatorPunctuation(st, append), st)
  {
    hide AcceptType, ExpectType, IsUnreadable;
    TypeStays(st, Punctuation);
    var r := AcceptType(st, Punctuation);
    if r.Ok? && r.value.0.Some? {
      var st1 := r.value.1;
      TypeStays(if append then Emit(st1, r.value.0.value) else st1, Punctuation);
    }
  }

  lemma OperatorInListStays(st: State)
    ensures Stays(OperatorInList(st), st)
  {
    hide AcceptToken, OperatorPunctuation, IsUnreadable;
    AcceptStays(st, Ident("operator"));
    var r := AcceptToken(st, Ident("operator"));
    if r.Ok? {
      OperatorPunctuationStays(r.value.1, false);
    }
  }

  lemma InListStays(st: State, inList: bool)
    ensures var r := LexIn(st.rest, inList);
            r.Ok? && IsUnreadable(st.rest) ==> r.value.Some? && IsUnreadable(Take(st, r.value.value).rest)
  {
    TokenStays(st);
    if inList && Lex(st.rest) == Ok(Some(Punct(">>"))) && IsUnreadable(st.rest) {
      var r := st.rest[2..];
      assert st.rest == ">>" + r && st.rest[1..] == ">" + r;
      LongestBrackets(r);
      hide Lex, IsUnreadable;
      HalfIsUnreadable(r);
      BracketFirst(">" + r);
    }
  }

  lemma LongestBrackets(r: string)
    requires Lex(">>" + r) == Ok(Some(Punct(">>")))
    ensures r == "" || r[0] != '='
  {
    var s := ">>" + r;
    assert s[0] == '>' && s[1] == '>' && (r != "" ==> s[2] == r[0]);
    PrintedTexts.FirstOfTags(s);
    PrintedTexts.TokenByFirst(s);
  }

  lemma {:induction false} BalancedStays(st: State, opening: string, depth: nat)
    requires IsOpening(opening)
    ensures StaysAt(Balanced(st, opening, depth), st)
    decreases |st.rest|, 1
  {
    hide OperatorInList, BalancedStep, IsUnreadable;
    if depth > 0 {
      if opening == "<" {
        OperatorInListStays(st);
        var r := OperatorInList(st);
        if r.Ok? {
          if r.value.0 {
            BalancedStays(r.value.1, opening, depth);
          } else {
            BalancedStepStays(r.value.1, opening, depth);
          }
        }
      } else {
        BalancedStepStays(st, opening, depth);
      }
    }
  }

  lemma {:induction false} BalancedStepStays(st: State, opening: string, depth: nat)
    requires IsOpening(opening) && depth > 0
    ensures StaysAt(BalancedStep(st, opening, depth), st)
    decreases |st.rest|, 0
  {
    hide LexIn, AfterToken, Balanced, IsUnreadable;
    InListStays(st, opening == "<");
    var next := LexIn(st.rest, opening == "<");
    if next.Ok? && next.value.Some? {
      var t := next.value.value;
      var st1 := Take(st, t);
      match RoleOf(t, opening)
      case Opener => BalancedStays(st1, opening, depth + 1);
      case Closer => BalancedStays(st1, opening, depth - 1);
      case Other => BalancedStays(st1, opening, depth);
      case NestedGroup =>
        BalancedStays(st1, t.str, 1);
        var r := Balanced(st1, t.str, 1);
        if r.Ok? {
          BalancedStays(r.value, opening, depth);
        }
    }
  }

  lemma GroupStays(st: State)
    ensures Stays(BalancedGroup(st), st)
  {
    hide Lex, AfterToken, Balanced, IsUnreadable;
    TokenStays(st);
    var next := Lex(st.rest);
    if next.Ok? && next.value.Some? && next.value.value.kind == Punctuation && IsOpening(next.value.value.str) {
      BalancedStays(Take(st, next.value.value), next.value.value.str, 1);
    }
  }

  lemma {:induction false} PunctuationRunStays(st: State)
    ensures Stays(PunctuationRun(st), st)
    decreases |st.rest|
  {
    hide Lex, AfterToken, BalancedGroup, IsUnreadable;
    TokenStays(st);
    GroupStays(st);
    var next, r := Lex(st.rest), BalancedGroup(st);
    if next.Ok? && next.value.Some? && next.value.value.kind == Punctuation && r.Ok? {
      PunctuationRunStays(if r.value.0 then r.value.1 else Take(st, next.value.value));
    }
  }

  lemma {:induction false} ModifiersStay(st: State)
    ensures Stays(TrailingModifiers(st), st)
    decreases |st.rest|
  {
    hide Lex, BalancedGroup, IgnoredIdentifier, PointerRefs, IsUnreadable;
    GroupStays(st);
    IgnoredStays(st);
    PointerRefsStay(st, false);
    var r1, r2, r3 := BalancedGroup(st), IgnoredIdentifier(st), PointerRefs(st, false);
    if r1.Ok? && r1.value.0 {
      ModifiersStay(r1.value.1);
    } else if r2.Ok? && r2.value.0 {
      ModifiersStay(r2.value.1);
    } else if r3.Ok? && r3.value.0 {
      ModifiersStay(r3.value.1);
    }
  }

  // ---------------------------------------------------------------- terms

  lemma TagStays(st: State)
    ensures Stays(AnonymousTag(st), st)
  {
    hide AcceptType, IsUnreadable;
    TypeStays(st, AnonymousNamespace);
  }

  lemma NewDeleteStays(st: State)
    ensures Stays(NewDelete(st), st)
  {
    hide Lex, AfterToken, AcceptAndEmit, Expect, IsUnreadable;
    TokenStays(st);
    var next := Lex(st.rest);
    if next == Ok(Some(Ident("new"))) || next == Ok(Some(Ident("delete"))) {
      var st1 := Emit(Take(st, next.value.value), next.value.value);
      AcceptStays(st1, Punct("["));
      var r := AcceptAndEmit(st1, Punct("["));
      if r.Ok? {
        AcceptStays(r.value.1, Punct("]"));
      }
    }
  }

  lemma SpecialDecltypeStays(st: State)
    ensures Stays(SpecialDecltype(st), st)
  {
    hide AcceptAndEmit, Expect, ExpectType, IsUnreadable;
    AcceptStays(st, Ident("decltype"));
    var r1 := AcceptAndEmit(st, Ident("decltype"));
    if r1.Ok? && r1.value.0 {
      AcceptStays(r1.value.1, Punct("("));
      var r2 := Expect(r1.value.1, Punct("("));
      if r2.Ok? {
        var st2 := Emit(r2.value, Punct("("));
        TypeStays(st2, Identifier);
        var r3 := ExpectType(st2, Identifier);
        if r3.Ok? {
          AcceptStays(Emit(r3.value.1, r3.value.0), Punct(")"));
        }
      }
    }
  }

  lemma LiteralOperatorStays(st: State)
    ensures Stays(CoAwaitOrLiteralOperator(st), st)
  {
    hide AcceptToken, AcceptAndEmit, ExpectType, IsUnreadable;
    var quotes := Token(Literal, "\"\"");
    AcceptStays(st, Ident("co_await"));
    AcceptStays(st, quotes);
    var r := AcceptToken(st, quotes);
    if r.Ok? {
      TypeStays(r.value.1, Identifier);
    }
  }

  lemma OperatorNameStays(st: State)
    ensures Stays(OperatorName(st), st)
  {
    hide NewDelete, SpecialDecltype, CoAwaitOrLiteralOperator, OperatorPunctuation, IsUnreadable;
    NewDeleteStays(st);
    SpecialDecltypeStays(st);
    LiteralOperatorStays(st);
    OperatorPunctuationStays(st, true);
  }

  lemma {:induction false} OperatorStays(st: State)
    ensures Stays(Operator(st), st)
    decreases |st.rest|, 1
  {
    hide Lex, AcceptAndEmit, OperatorName, Symbol, IsUnreadable;
    AcceptStays(st, Ident("operator"));
    var r := AcceptAndEmit(st, Ident("operator"));
    if r.Ok? && r.value.0 {
      var st1 := r.value.1;
      OperatorNameStays(st1);
      SymbolStays(st1);
      if Symbol(st1).Ok? {
        SymbolStays(Symbol(st1).value.1);
      }
    }
  }

  lemma IdentifierStays(st: State)
    ensures Stays(IdentifierTerm(st), st)
  {
    hide AcceptAndEmit, AcceptType, IsUnreadable;
    AcceptStays(st, Punct("~"));
    var r := AcceptAndEmit(st, Punct("~"));
    if r.Ok? {
      TypeStays(r.value.1, Identifier);
    }
  }

  lemma BracedTailStays(st: State, word1: Token, word2: Option<Token>)
    ensures StaysAt(BracedTail(st, word1, word2), st)
  {
    hide PunctuationRun, Expect, ExpectType, IsUnreadable;
    PunctuationRunStays(st);
    var r1 := PunctuationRun(st);
    if r1.Ok? {
      AcceptStays(r1.value.1, Punct("#"));
      var r2 := Expect(r1.value.1, Punct("#"));
      if r2.Ok? {
        TypeStays(r2.value, Literal);
        var r3 := ExpectType(r2.value, Literal);
        if r3.Ok? {
          AcceptStays(r3.value.1, Punct("}"));
        }
      }
    }
  }

  lemma BracedStays(st: State)
    ensures StaysAt(BracedLambda(st), st)
  {
    hide AcceptToken, Expect, BracedTail, IsUnreadable;
    AcceptStays(st, Ident("lambda"));
    AcceptStays(st, Ident("unnamed"));
    var r1, r2 := AcceptToken(st, Ident("lambda")), Expect(st, Ident("unnamed"));
    if r1.Ok? && r1.value.0 {
      BracedTailStays(r1.value.1, Ident("lambda"), None);
    } else if r2.Ok? {
      AcceptStays(r2.value, Ident("type"));
      var r3 := Expect(r2.value, Ident("type"));
      if r3.Ok? {
        BracedTailStays(r3.value, Ident("unnamed"), Some(Ident("type")));
      }
    }
  }

  lemma AngledStays(st: State)
    ensures StaysAt(AngledLambda(st), st)
  {
    hide ExpectType, Expect, IsUnreadable;
    TypeStays(st, Identifier);
    var r := ExpectType(st, Identifier);
    if r.Ok? {
      AcceptStays(r.value.1, Punct(">"));
    }
  }

  lemma LiteralStays(st: State)
    ensures Stays(LiteralTerm(st), st)
  {
    hide Lex, AfterToken, IsQuotedLambda, IsEnclosedSymbol, EmitQuoted, Prune, IsUnreadable;
    TokenStays(st);
    var next := Lex(st.rest);
    if next.Ok? && next.value.Some? && (IsQuotedLambda(next.value.value) || IsEnclosedSymbol(next.value.value)) {
      assert LiteralTerm(st).value.1.rest == Take(st, next.value.value).rest;
    }
  }

  lemma LambdaStays(st: State)
    ensures Stays(LambdaOrUnnamed(st), st)
  {
    hide AcceptToken, BracedLambda, LiteralTerm, AngledLambda, IsUnreadable;
    AcceptStays(st, Punct("{"));
    AcceptStays(st, Punct("<"));
    LiteralStays(st);
    var r1, r2 := AcceptToken(st, Punct("{")), AcceptToken(st, Punct("<"));
    if r1.Ok? {
      BracedStays(r1.value.1);
    }
    if r2.Ok? {
      AngledStays(r2.value.1);
    }
  }

  lemma {:induction false} TermStays(st: State)
    ensures Stays(Term(st), st)
    decreases |st.rest|, 3
  {
    hide AnonymousTag, Operator, IdentifierTerm, LambdaOrUnnamed, IsUnreadable;
    TagStays(st);
    OperatorStays(st);
    IdentifierStays(st);
    LambdaStays(st);
  }

  // ---------------------------------------------------------------- symbols

  lemma {:induction false} PointerJunkStays(st: State)
    ensures Stays(PointerJunk(st), st)
    decreases |st.rest|
  {
    hide Lex, AfterToken, IsUnreadable;
    TokenStays(st);
    var next := Lex(st.rest);
    if next.Ok? && next.value.Some? {
      PointerJunkStays(Take(st, next.value.value));
    }
  }

  lemma {:induction false} FunctionPointerStays(st: State)
    ensures Stays(FunctionPointer(st), st)
    decreases |st.rest|, 1
  {
    hide AcceptToken, Expect, PointerJunk, Symbol, IsUnreadable;
    AcceptStays(st, Punct("("));
    var r1 := AcceptToken(st, Punct("("));
    if r1.Ok? && r1.value.0 {
      PointerJunkStays(r1.value.1);
      var r2 := PointerJunk(r1.value.1);
      if r2.Ok? {
        var st2 := r2.value.1.(out := r2.value.1.out.(reset := true));
        SymbolStays(st2);
        if Symbol(st2).Ok? {
          AcceptStays(Symbol(st2).value.1, Punct(")"));
        }
      }
    }
  }

  lemma {:induction false} PartStays(st: State)
    ensures Stays(TermOrFunctionPointer(st), st)
    decreases |st.rest|, 4
  {
    hide Term, LooksLikeFunctionPointer, FunctionPointer, IsUnreadable;
    TermStays(st);
    if Term(st).Ok? {
      FunctionPointerStays(Term(st).value.1);
    }
  }

  lemma AfterTermStays(st: State)
    ensures Stays(AfterTerm(st), st)
  {
    hide PointerRefs, TrailingModifiers, AcceptAndEmit, IsUnreadable;
    PointerRefsStay(st, true);
    var r1 := PointerRefs(st, true);
    if r1.Ok? {
      ModifiersStay(r1.value.1);
      var r2 := TrailingModifiers(r1.value.1);
      if r2.Ok? {
        AcceptStays(r2.value.1, Punct("::"));
        var r3 := AcceptAndEmit(r2.value.1, Punct("::"));
        if r3.Ok? {
          AcceptStays(r3.value.1, Punct("*"));
        }
      }
    }
  }

  lemma {:induction false} SymbolStays(st: State)
    ensures Stays(Symbol(st), st)
    decreases |st.rest|, 5
  {
    hide Lex, TermOrFunctionPointer, AfterTerm, IsUnreadable;
    PartStays(st);
    var r1 := TermOrFunctionPointer(st);
    if r1.Ok? && r1.value.0 {
      AfterTermStays(r1.value.1);
      var r2 := AfterTerm(r1.value.1);
      if r2.Ok? {
        SymbolStays(r2.value.1);
      }
    }
  }

  lemma {:induction false} NeverParsed(st: State)
    requires IsUnreadable(st.rest)
    ensures FullSymbol(st).Err?
    decreases |st.rest|, 6
  {
    hide Lex, Symbol, IsUnreadable;
    TokenStays(st);
    var st0 := st.(out := st.out.(reset := true));
    SymbolStays(st0);
    if Symbol(st0).Ok? && Symbol(st0).value.0 {
      NeverParsed(Symbol(st0).value.1);
    }
  }

  /** A text with a place behind its tokens where no token can be read, such as a string that does not end, is
      left as it is. */
  lemma UnreadableIsLeft(text: string)
    requires IsUnreadable(SkipSpace(text))
    ensures Prune(text) == text
  {
    hide IsUnreadable, FullSymbol;
    NeverParsed(Start(text));
  }
}
