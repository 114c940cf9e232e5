/** The parser of src/prune_symbol.cpp as the class it is: methods that move the tokenizer and
    edit the output buffer. Each is proved to do what the function of `SymbolGrammar` says. */
module Parser {
  import opened Wrappers
  import opened SymbolLexer
  import opened SymbolGrammar
  import opened Tokenizer

  /** A call fails when the grammar does, and otherwise answers and moves as the grammar says. */
  ghost predicate Refines(spec: Step, r: Result<bool, ParseError>, after: State) {
    if spec.Err? then r.Err? else r == Ok(spec.value.0) && after == spec.value.1
  }

  ghost predicate RefinesState(spec: Result<State, ParseError>, failed: bool, after: State) {
    if spec.Err? then failed else !failed && after == spec.value
  }

  class SymbolParser {
    const tokenizer: SymbolTokenizer
    var nameOutput: string
    var lastWasIdentifier: bool
    var resetOutputFlag: bool

    constructor (tokenizer: SymbolTokenizer)
      ensures this.tokenizer == tokenizer
      ensures nameOutput == "" && !lastWasIdentifier && !resetOutputFlag
    {
      this.tokenizer := tokenizer;
      nameOutput := "";
      lastWasIdentifier := false;
      resetOutputFlag := false;
    }

    ghost predicate Valid()
      reads this, tokenizer
    {
      tokenizer.Valid()
    }

    ghost function Now(): State
      reads this, tokenizer
    {
      State(tokenizer.Rest(), Output(nameOutput, lastWasIdentifier, resetOutputFlag))
    }

    // The tokenizer's operations, as steps on the parser's state.

    method Peek() returns (r: Result<Option<Token>, ParseError>)
      requires Valid()
      modifies tokenizer
      ensures Valid() && Now() == old(Now()) && r == Lex(Now().rest)
      ensures r.Ok? ==> tokenizer.source == Now().rest
    {
      r := tokenizer.Peek(false);
    }

    method AdvanceIn(inTemplateArgumentList: bool) returns (r: Result<Option<Token>, ParseError>)
      requires Valid()
      modifies tokenizer
      ensures Valid() && r == LexIn(old(Now()).rest, inTemplateArgumentList)
      ensures Now() == if r.Ok? && r.value.Some? then Take(old(Now()), r.value.value) else old(Now())
    {
      r := tokenizer.Advance(inTemplateArgumentList);
    }

    /** Used after a peek, so there is a token. */
    method Advance()
      requires Valid() && Lex(Now().rest).Ok? && Lex(Now().rest).value.Some?
      modifies tokenizer
      ensures Valid() && Now() == Take(old(Now()), Lex(old(Now()).rest).value.value)
    {
      var _ := tokenizer.Advance(false);
    }

    method Accept(token: Token) returns (r: Result<Option<Token>, ParseError>)
      requires Valid()
      modifies tokenizer
      ensures Valid()
      ensures var spec := AcceptToken(old(Now()), token);
              if spec.Err? then r.Err? && Now() == old(Now())
              else r == Ok(if spec.value.0 then Some(token) else None) && Now() == spec.value.1
    {
      r := tokenizer.AcceptToken(token, false);
    }

    method AcceptKind(kind: TokenType) returns (r: Result<Option<Token>, ParseError>)
      requires Valid()
      modifies tokenizer
      ensures Valid()
      ensures var spec := AcceptType(old(Now()), kind);
              if spec.Err? then r.Err? && Now() == old(Now())
              else r == Ok(spec.value.0) && Now() == spec.value.1
    {
      r := tokenizer.AcceptType(kind, false);
    }

    method Append(token: Token)
      requires Valid()
      modifies this
      ensures Valid() && Now() == Emit(old(Now()), token)
    {
      var isIdentifier := token.kind == Identifier;
      if resetOutputFlag {
        nameOutput := "";
        resetOutputFlag := false;
        lastWasIdentifier := false;
      } else if isIdentifier && lastWasIdentifier {
        nameOutput := nameOutput + " ";
      }
      nameOutput := nameOutput + token.str;
      lastWasIdentifier := isIdentifier;
    }

    method AppendQuoted(open: string, text: string, close: string)
      requires Valid()
      modifies this
      ensures Valid() && Now() == EmitQuoted(old(Now()), open, text, close)
    {
      Append(Punct(open));
      Append(Punct(text));
      Append(Punct(close));
    }

    method AcceptPointerRef(append: bool) returns (r: Result<bool, ParseError>)
      requires Valid()
      modifies this, tokenizer
      ensures Valid() && Refines(PointerRefs(old(Now()), append), r, Now())
    {
      var matched := false;
      while true
        invariant Valid()
        invariant var spec, here := PointerRefs(old(Now()), append), PointerRefs(Now(), append);
                  if here.Err? then spec.Err? else spec == Ok((matched || here.value.0, here.value.1))
        decreases |Now().rest|
      {
        var token :- Peek();
        if token.None? || !IsPointerRef(token.value) {
          break;
        }
        matched := true;
        if append {
          Append(token.value);
        }
        Advance();
      }
      return Ok(matched);
    }

    /** One arbitrary token of a balanced group: the new depth, or nothing at the end of the source. */
    method ConsumeBalancedToken(opening: string, depth: nat) returns (r: Result<Option<nat>, ParseError>)
      requires Valid() && IsOpening(opening) && depth > 0
      modifies this, tokenizer
      ensures Valid()
      ensures r.Err? ==> BalancedStep(old(Now()), opening, depth).Err?
      ensures r == Ok(None) ==> BalancedStep(old(Now()), opening, depth) == Ok(Now())
      ensures r.Ok? && r.value.Some? ==>
                && |Now().rest| < |old(Now()).rest|
                && BalancedStep(old(Now()), opening, depth) == Balanced(Now(), opening, r.value.value)
      decreases |Now().rest|, 3
    {
      hide OperatorInList, Lex;
      var next :- AdvanceIn(opening == "<");
      if next.None? {
        return Ok(None);
      }
      match RoleOf(next.value, opening) {
        case Opener => return Ok(Some(depth + 1));
        case Closer => return Ok(Some(depth - 1));
        case NestedGroup =>
          r := ConsumeNestedGroup(next.value.str, depth);
        case Other => return Ok(Some(depth));
      }
    }

    method ConsumeNestedGroup(inner: string, depth: nat) returns (r: Result<Option<nat>, ParseError>)
      requires Valid() && IsOpening(inner)
      modifies this, tokenizer
      ensures Valid() && RefinesState(Balanced(old(Now()), inner, 1), r.Err?, Now())
      ensures r.Ok? ==> r == Ok(Some(depth))
      decreases |Now().rest|, 5
    {
      var _ :- ConsumeBalanced(inner);
      return Ok(Some(depth));
    }

    method ConsumeBalanced(opening: string) returns (r: Result<bool, ParseError>)
      requires Valid() && IsOpening(opening)
      modifies this, tokenizer
      ensures Valid() && RefinesState(Balanced(old(Now()), opening, 1), r.Err?, Now()) && (r.Ok? ==> r.value)
      decreases |Now().rest|, 4
    {
      var depth := 1;
      while depth > 0
        invariant Valid() && depth >= 0
        invariant |Now().rest| <= |old(Now()).rest|
        invariant Balanced(old(Now()), opening, 1) == Balanced(Now(), opening, depth)
        decreases |Now().rest|
      {
        // the > of foo<&S::operator>(S const&)> belongs to the operator
        if opening == "<" {
          var isOperator :- AcceptOperator(true);
          if isOperator {
            continue;
          }
        }
        var deeper :- ConsumeBalancedToken(opening, depth);
        if deeper.None? {
          break;
        }
        depth := deeper.value;
      }
      return Ok(true);
    }

    method AcceptBalancedPunctuation() returns (r: Result<bool, ParseError>)
      requires Valid()
      modifies this, tokenizer
      ensures Valid() && Refines(BalancedGroup(old(Now())), r, Now())
      decreases |Now().rest|, 5
    {
      var token :- Peek();
      if token.Some? && token.value.kind == Punctuation && IsOpening(token.value.str) {
        Advance();
        var _ :- ConsumeBalanced(token.value.str);
        return Ok(true);
      }
      return Ok(false);
    }

    method AcceptIgnoredIdentifier() returns (r: Result<bool, ParseError>)
      requires Valid()
      modifies this, tokenizer
      ensures Valid() && Refines(IgnoredIdentifier(old(Now())), r, Now())
    {
      var token :- Peek();
      if token.Some? && token.value.kind == Identifier && IsIgnoredIdentifier(token.value.str) {
        Advance();
        return Ok(true);
      }
      return Ok(false);
    }

    method AcceptAnonymousNamespace() returns (r: Result<bool, ParseError>)
      requires Valid()
      modifies this, tokenizer
      ensures Valid() && Refines(AnonymousTag(old(Now())), r, Now())
    {
      var token :- AcceptKind(AnonymousNamespace);
      if token.Some? {
        Append(Ident(ANONYMOUS_GNU));
        return Ok(true);
      }
      return Ok(false);
    }

    method AcceptNewDelete() returns (r: Result<bool, ParseError>)
      requires Valid()
      modifies this, tokenizer
      ensures Valid() && Refines(NewDelete(old(Now())), r, Now())
    {
      var token :- Peek();
      if token.Some? && token.value.kind == Identifier && (token.value.str == "new" || token.value.str == "delete") {
        Advance();
        Append(token.value);
        var op :- Accept(Punct("["));
        if op.Some? {
          Append(op.value);
          var op2 :- Accept(Punct("]"));
          if op2.None? {
            return Err(ParseError);
          }
          Append(op2.value);
        }
        return Ok(true);
      }
      return Ok(false);
    }

    method AcceptSpecialDecltype() returns (r: Result<bool, ParseError>)
      requires Valid()
      modifies this, tokenizer
      ensures Valid() && Refines(SpecialDecltype(old(Now())), r, Now())
    {
      var token :- Accept(Ident("decltype"));
      if token.None? {
        return Ok(false);
      }
      Append(token.value);
      var op :- Accept(Punct("("));
      if op.None? {
        return Err(ParseError);
      }
      Append(op.value);
      var ident :- AcceptKind(Identifier);
      if ident.None? {
        return Err(ParseError);
      }
      if ident.value.str != "auto" && ident.value.str != "nullptr" {
        return Err(ParseError);
      }
      Append(ident.value);
      var op2 :- Accept(Punct(")"));
      if op2.None? {
        return Err(ParseError);
      }
      Append(op2.value);
      return Ok(true);
    }

    /** The two remaining ways to name an operator that are tried outside template lists. */
    method AcceptCoAwaitOrLiteralOperator() returns (r: Result<bool, ParseError>)
      requires Valid()
      modifies this, tokenizer
      ensures Valid() && Refines(CoAwaitOrLiteralOperator(old(Now())), r, Now())
    {
      var coawait :- Accept(Ident("co_await"));
      if coawait.Some? {
        Append(coawait.value);
        return Ok(true);
      }
      var literal :- Accept(Token(Literal, "\"\""));
      if literal.Some? {
        var name :- AcceptKind(Identifier);
        if name.None? {
          return Err(ParseError);
        }
        Append(literal.value);
        Append(name.value);
        return Ok(true);
      }
      return Ok(false);
    }

    method AcceptOperatorPunctuation(isInTemplateList: bool) returns (r: Result<bool, ParseError>)
      requires Valid()
      modifies this, tokenizer
      ensures Valid()
      ensures Refines(OperatorPunctuation(old(Now()), !isInTemplateList), r, Now())
    {
      var op :- AcceptKind(Punctuation);
      if op.None? {
        return Ok(false);
      }
      if !isInTemplateList {
        Append(op.value);
      }
      if op.value.str == "(" || op.value.str == "[" {
        var op2 :- AcceptKind(Punctuation);
        if op2.None? || op2.value.str != Closing(op.value.str) {
          return Err(ParseError);
        }
        if !isInTemplateList {
          Append(op2.value);
        }
      }
      return Ok(true);
    }

    method AcceptOperator(isInTemplateList: bool) returns (r: Result<bool, ParseError>)
      requires Valid()
      modifies this, tokenizer
      ensures Valid()
      ensures Refines(if isInTemplateList then OperatorInList(old(Now())) else Operator(old(Now())), r, Now())
      decreases |Now().rest|, 2
    {
      var token :- Accept(Ident("operator"));
      if token.None? {
        return Ok(false);
      }
      if !isInTemplateList {
        Append(token.value);
        var newDelete :- AcceptNewDelete();
        if newDelete {
          return Ok(true);
        }
        var special :- AcceptSpecialDecltype();
        if special {
          return Ok(true);
        }
        var other :- AcceptCoAwaitOrLiteralOperator();
        if other {
          return Ok(true);
        }
      }
      var op :- AcceptOperatorPunctuation(isInTemplateList);
      if op {
        return Ok(true);
      }
      if !isInTemplateList {
        // nothing else names an operator, so this is a conversion to a type
        var _ :- ParseSymbol();
        var maybeIdent :- Peek();
        if maybeIdent.Some? && maybeIdent.value.kind == Identifier {
          var _ :- ParseSymbol();
        }
        return Ok(true);
      }
      return Ok(false);
    }

    method AcceptIdentifierToken() returns (r: Result<bool, ParseError>)
      requires Valid()
      modifies this, tokenizer
      ensures Valid() && Refines(IdentifierTerm(old(Now())), r, Now())
    {
      var expected := false;
      var complement :- Accept(Punct("~"));
      if complement.Some? {
        Append(complement.value);
        expected := true;
      }
      var token :- AcceptKind(Identifier);
      if token.Some? {
        Append(token.value);
        return Ok(true);
      } else if expected {
        return Err(ParseError);
      }
      return Ok(false);
    }

    method ConsumePunctuation() returns (r: Result<bool, ParseError>)
      requires Valid()
      modifies this, tokenizer
      ensures Valid() && Refines(PunctuationRun(old(Now())), r, Now())
      decreases |Now().rest|, 6
    {
      var didConsume := false;
      while true
        invariant Valid()
        invariant |Now().rest| <= |old(Now()).rest|
        invariant var spec, here := PunctuationRun(old(Now())), PunctuationRun(Now());
                  if here.Err? then spec.Err? else spec == Ok((didConsume || here.value.0, here.value.1))
        decreases |Now().rest|
      {
        var token :- Peek();
        if token.None? || !(token.value.kind == Punctuation && token.value.str != "::" && token.value.str != "#") {
          break;
        }
        var group :- AcceptBalancedPunctuation();
        if group {
          didConsume := true;
          continue;
        }
        // a lone token is dropped
        Advance();
        didConsume := true;
      }
      return Ok(didConsume);
    }

    method AcceptBracedLambda() returns (r: Result<bool, ParseError>)
      requires Valid()
      modifies this, tokenizer
      ensures Valid() && RefinesState(BracedLambda(old(Now())), r.Err?, Now()) && (r.Ok? ==> r.value)
      decreases |Now().rest|, 7
    {
      var token2 := None;
      var token1 :- Accept(Ident("lambda"));
      if token1.None? {
        token1 :- Accept(Ident("unnamed"));
        if token1.None? {
          return Err(ParseError);
        }
        token2 :- Accept(Ident("type"));
        if token2.None? {
          return Err(ParseError);
        }
      }
      var _ :- ConsumePunctuation();
      var hash :- Accept(Punct("#"));
      if hash.None? {
        return Err(ParseError);
      }
      var discriminator :- AcceptKind(Literal);
      if discriminator.None? {
        return Err(ParseError);
      }
      var closingBrace :- Accept(Punct("}"));
      if closingBrace.None? {
        return Err(ParseError);
      }
      Append(Punct("<"));
      Append(token1.value);
      if token2.Some? {
        Append(token2.value);
      }
      Append(hash.value);
      Append(discriminator.value);
      Append(Punct(">"));
      return Ok(true);
    }

    /** What MSVC prints in quotes is the enclosing function, pruned on its own. */
    method AcceptEnclosedSymbol(str: string)
      requires Valid() && Lex(Now().rest) == Ok(Some(Token(Literal, str)))
      requires IsEnclosedSymbol(Token(Literal, str)) && |str| >= 2
      modifies this, tokenizer
      ensures Valid()
      ensures Now() == EmitQuoted(Take(old(Now()), Token(Literal, str)), "`", Prune(Inner(str)), "'")
      decreases |Now().rest|, 5
    {
      Advance();
      var name := PruneSymbol(Inner(str));
      AppendQuoted("`", name, "'");
    }

    method AcceptLiteralTerm() returns (r: Result<bool, ParseError>)
      requires Valid()
      modifies this, tokenizer
      ensures Valid() && Refines(LiteralTerm(old(Now())), r, Now())
      decreases |Now().rest|, 6
    {
      hide Lex, StartsWith, EndsWith, Inner;
      var token :- Peek();
      if token.None? {
        return Ok(false);
      }
      var str := token.value.str;
      if IsQuotedLambda(token.value) {
        QuotedLambdaEnds(token.value);
        Advance();
        AppendQuoted("<", Inner(str), ">");
        return Ok(true);
      }
      if IsEnclosedSymbol(token.value) {
        QuoteEnds(str);
        AcceptEnclosedSymbol(str);
        return Ok(true);
      }
      return Ok(false);
    }

    method AcceptAngledLambda() returns (r: Result<bool, ParseError>)
      requires Valid()
      modifies this, tokenizer
      ensures Valid() && RefinesState(AngledLambda(old(Now())), r.Err?, Now()) && (r.Ok? ==> r.value)
    {
      var lambda :- AcceptKind(Identifier);
      if lambda.None? || !StartsWith(lambda.value.str, "lambda_") {
        return Err(ParseError);
      }
      var closingBracket :- Accept(Punct(">"));
      if closingBracket.None? {
        return Err(ParseError);
      }
      Append(Punct("<"));
      Append(lambda.value);
      Append(closingBracket.value);
      return Ok(true);
    }

    method AcceptLambdaOrUnnamed() returns (r: Result<bool, ParseError>)
      requires Valid()
      modifies this, tokenizer
      ensures Valid() && Refines(LambdaOrUnnamed(old(Now())), r, Now())
      decreases |Now().rest|, 7
    {
      var openingBrace :- Accept(Punct("{"));
      if openingBrace.Some? {
        var _ :- AcceptBracedLambda();
        return Ok(true);
      }
      var literal :- AcceptLiteralTerm();
      if literal {
        return Ok(true);
      }
      var openingBracket :- Accept(Punct("<"));
      if openingBracket.Some? {
        var _ :- AcceptAngledLambda();
        return Ok(true);
      }
      return Ok(false);
    }

    /** Reads on a copy, so the tokenizer itself stays where it is. */
    method LookaheadIsFunctionPointer() returns (r: bool)
      requires Valid()
      ensures r == LooksLikeFunctionPointer(Now().rest)
    {
      var copy := new SymbolTokenizer.Copy(tokenizer);
      var res := copy.AcceptToken(Punct("("), false);
      if res.Err? || res.value.None? {
        return false;
      }
      while true
        invariant copy.Valid() && fresh(copy)
        invariant LooksLikeFunctionPointer(Now().rest) == PointerAhead(copy.Rest())
        decreases |copy.Rest()|
      {
        var next := copy.Advance(false);
        if next.Err? {
          return false;
        }
        if next.value.Some? && IsPointerRef(next.value.value) {
          return true;
        } else if next.value.Some? && next.value.value.kind == Identifier
                  && IsMicrosoftCallingConvention(next.value.value.str) {
          // a calling convention may stand before the pointer
        } else {
          return false;
        }
      }
    }

    method ConsumePointerJunk() returns (r: Result<bool, ParseError>)
      requires Valid()
      modifies this, tokenizer
      ensures Valid() && Refines(PointerJunk(old(Now())), r, Now())
    {
      var sawPointer := false;
      while true
        invariant Valid()
        invariant var spec, here := PointerJunk(old(Now())), PointerJunk(Now());
                  if here.Err? then spec.Err? else spec == Ok((sawPointer || here.value.0, here.value.1))
        decreases |Now().rest|
      {
        var next :- Peek();
        if next.Some? && IsPointerRef(next.value) {
          Advance();
          sawPointer := true;
        } else if next.Some? && next.value.kind == Identifier
                  && (IsMicrosoftCallingConvention(next.value.str) || IsIgnoredIdentifier(next.value.str)) {
          Advance();
        } else {
          break;
        }
      }
      return Ok(sawPointer);
    }

    method ParseFunctionPointer() returns (r: Result<bool, ParseError>)
      requires Valid()
      modifies this, tokenizer
      ensures Valid() && Refines(FunctionPointer(old(Now())), r, Now())
      decreases |Now().rest|, 7
    {
      var openingParenthesis :- Accept(Punct("("));
      if openingParenthesis.None? {
        return Ok(false);
      }
      var sawPointer :- ConsumePointerJunk();
      if !sawPointer {
        return Err(ParseError);
      }
      resetOutputFlag := true;
      var didParse :- ParseSymbol();
      if !didParse {
        return Err(ParseError);
      }
      var closingParenthesis :- Accept(Punct(")"));
      if closingParenthesis.None? {
        return Err(ParseError);
      }
      return Ok(true);
    }

    method ParseSymbolTerm() returns (r: Result<bool, ParseError>)
      requires Valid()
      modifies this, tokenizer
      ensures Valid() && Refines(Term(old(Now())), r, Now())
      decreases |Now().rest|, 8
    {
      var tag :- AcceptAnonymousNamespace();
      if tag {
        return Ok(true);
      }
      var isOperator :- AcceptOperator(false);
      if isOperator {
        return Ok(true);
      }
      var identifier :- AcceptIdentifierToken();
      if identifier {
        return Ok(true);
      }
      var lambda :- AcceptLambdaOrUnnamed();
      return Ok(lambda);
    }

    method ConsumePunctuationAndTrailingModifiers() returns (r: Result<bool, ParseError>)
      requires Valid()
      modifies this, tokenizer
      ensures Valid() && Refines(TrailingModifiers(old(Now())), r, Now())
      decreases |Now().rest|, 6
    {
      var didConsume := false;
      while true
        invariant Valid()
        invariant |Now().rest| <= |old(Now()).rest|
        invariant var spec, here := TrailingModifiers(old(Now())), TrailingModifiers(Now());
                  if here.Err? then spec.Err? else spec == Ok((didConsume || here.value.0, here.value.1))
        decreases |Now().rest|
      {
        var token :- Peek();
        if token.None? {
          break;
        }
        var group :- AcceptBalancedPunctuation();
        if group {
          didConsume := true;
          continue;
        }
        var ignored :- AcceptIgnoredIdentifier();
        if ignored {
          didConsume := true;
          continue;
        }
        var refs :- AcceptPointerRef(false);
        if refs {
          didConsume := true;
          continue;
        }
        break;
      }
      return Ok(didConsume);
    }

    method ParseTermOrFunctionPointer() returns (r: Result<bool, ParseError>)
      requires Valid()
      modifies this, tokenizer
      ensures Valid() && Refines(TermOrFunctionPointer(old(Now())), r, Now())
      decreases |Now().rest|, 9
    {
      var didMatchTerm :- ParseSymbolTerm();
      var pointerAhead := LookaheadIsFunctionPointer();
      if pointerAhead {
        var pointer :- ParseFunctionPointer();
        didMatchTerm := didMatchTerm || pointer;
      }
      return Ok(didMatchTerm);
    }

    method ConsumeAfterTerm() returns (r: Result<bool, ParseError>)
      requires Valid()
      modifies this, tokenizer
      ensures Valid() && Refines(AfterTerm(old(Now())), r, Now())
      decreases |Now().rest|, 9
    {
      var _ :- AcceptPointerRef(true);
      var _ :- ConsumePunctuationAndTrailingModifiers();
      var scopeResolution :- Accept(Punct("::"));
      if scopeResolution.None? {
        return Ok(false);
      }
      Append(scopeResolution.value);
      // a member pointer is printed with its star behind the scope
      var star :- Accept(Punct("*"));
      if star.Some? {
        Append(star.value);
      }
      return Ok(true);
    }

    method ParseSymbol() returns (r: Result<bool, ParseError>)
      requires Valid()
      modifies this, tokenizer
      ensures Valid() && Refines(Symbol(old(Now())), r, Now())
      decreases |Now().rest|, 10
    {
      var madeProgress := false;
      while true
        invariant Valid()
        invariant |Now().rest| <= |old(Now()).rest|
        invariant var spec, here := Symbol(old(Now())), Symbol(Now());
                  if here.Err? then spec.Err? else spec == Ok((madeProgress || here.value.0, here.value.1))
        decreases |Now().rest|
      {
        var token :- Peek();
        if token.None? {
          break;
        }
        var didMatchTerm :- ParseTermOrFunctionPointer();
        if !didMatchTerm {
          break;
        }
        madeProgress := true;
        var scopeResolution :- ConsumeAfterTerm();
        if !scopeResolution {
          break;
        }
      }
      return Ok(madeProgress);
    }

    /** On success the whole source has been cut into tokens and whitespace. */
    method Parse() returns (r: Result<(), ParseError>)
      requires Valid()
      modifies this, tokenizer
      ensures Valid() && RefinesState(FullSymbol(old(Now())), r.Err?, Now())
      ensures r.Ok? ==> WellFormed(tokenizer.trail) && Text(tokenizer.trail) == tokenizer.original
      decreases |Now().rest|, 11
    {
      while true
        invariant Valid()
        invariant |Now().rest| <= |old(Now()).rest|
        invariant FullSymbol(old(Now())) == FullSymbol(Now())
        decreases |Now().rest|
      {
        var token :- Peek();
        if token.None? {
          assert tokenizer.source == "";
          assert Text(tokenizer.trail) + "" == Text(tokenizer.trail);
          break;
        }
        resetOutputFlag := true;
        var madeProgress :- ParseSymbol();
        if !madeProgress {
          return Err(ParseError);
        }
      }
      return Ok(());
    }
  }

  method PruneSymbol(symbol: string) returns (name: string)
    ensures name == Prune(symbol)
    decreases |symbol|, 12
  {
    var tokenizer := new SymbolTokenizer(symbol);
    var parser := new SymbolParser(tokenizer);
    var res := parser.Parse();
    if res.Err? {
      return symbol;
    }
    name := parser.nameOutput;
    if name == "" {
      return symbol;
    }
  }
}
