/** The recursive-descent parser of src/prune_symbol.cpp as functions on what is left to read and
    the output so far. A parse error anywhere fails the whole parse, so failures carry no state. */
module SymbolGrammar {
  import opened Wrappers
  import opened SymbolLexer

  /** The output buffer and the two flags that steer how the next token is appended. */
  datatype Output = Output(name: string, lastWasIdentifier: bool, reset: bool)

  /** `rest` never starts with whitespace. */
  datatype State = State(rest: string, out: Output)

  type Step = Result<(bool, State), ParseError>

  ghost predicate Shrinks(r: Step, st: State) {
    r.Ok? ==>
      && |r.value.1.rest| <= |st.rest|
      && (r.value.0 ==> |r.value.1.rest| < |st.rest|)
  }

  // ---------------------------------------------------------------- words

  predicate IsOpening(s: string) {
    s == "(" || s == "[" || s == "{" || s == "<"
  }

  function Closing(opening: string): string
    requires IsOpening(opening)
  {
    if opening == "(" then ")" else if opening == "[" then "]" else if opening == "{" then "}" else ">"
  }

  predicate IsIgnoredIdentifier(s: string) {
    s == "const" || s == "volatile" || s == "decltype" || s == "noexcept"
  }

  predicate IsMicrosoftCallingConvention(s: string) {
    || s == "__cdecl" || s == "__clrcall" || s == "__stdcall"
    || s == "__fastcall" || s == "__thiscall" || s == "__vectorcall"
  }

  predicate IsPointerRef(t: Token) {
    t.kind == Punctuation && (t.str == "*" || t.str == "&" || t.str == "&&")
  }

  predicate StartsWith(s: string, prefix: string) {
    prefix <= s
  }

  predicate EndsWith(s: string, suffix: string) {
    |s| >= |suffix| && s[|s| - |suffix|..] == suffix
  }

  function Punct(s: string): Token {
    Token(Punctuation, s)
  }

  function Ident(s: string): Token {
    Token(Identifier, s)
  }

  // ---------------------------------------------------------------- elementary steps

  /** Two identifiers in a row are separated by a space. */
  function AppendOutput(out: Output, t: Token): Output {
    var isIdentifier := t.kind == Identifier;
    if out.reset then Output(t.str, isIdentifier, false)
    else if isIdentifier && out.lastWasIdentifier then Output(out.name + " " + t.str, isIdentifier, false)
    else Output(out.name + t.str, isIdentifier, false)
  }

  function Emit(st: State, t: Token): State {
    st.(out := AppendOutput(st.out, t))
  }

  function Take(st: State, t: Token): (r: State)
    requires |t.str| <= |st.rest|
    ensures |t.str| > 0 ==> |r.rest| < |st.rest|
  {
    st.(rest := AfterToken(st.rest, t))
  }

  function AcceptToken(st: State, t: Token): (r: Step)
    ensures Shrinks(r, st)
    ensures r.Ok? && !r.value.0 ==> r.value.1 == st
  {
    var next :- Lex(st.rest);
    if next == Some(t) then Ok((true, Take(st, t))) else Ok((false, st))
  }

  /** Accept a token and copy it to the output. */
  function AcceptAndEmit(st: State, t: Token): (r: Step)
    ensures Shrinks(r, st)
    ensures r.Ok? && !r.value.0 ==> r.value.1 == st
  {
    var (accepted, st1) :- AcceptToken(st, t);
    Ok((accepted, if accepted then Emit(st1, t) else st1))
  }

  /** Accept a token that has to be there. */
  function Expect(st: State, t: Token): (r: Result<State, ParseError>)
    ensures r.Ok? ==> |r.value.rest| < |st.rest|
  {
    var (accepted, st1) :- AcceptToken(st, t);
    if accepted then Ok(st1) else Err(ParseError)
  }

  function AcceptType(st: State, kind: TokenType): (r: Result<(Option<Token>, State), ParseError>)
    ensures r.Ok? ==> |r.value.1.rest| <= |st.rest|
    ensures r.Ok? && r.value.0.Some? ==> |r.value.1.rest| < |st.rest| && r.value.0.value.kind == kind
    ensures r.Ok? && r.value.0.None? ==> r.value.1 == st
  {
    var next :- Lex(st.rest);
    if next.Some? && next.value.kind == kind then Ok((next, Take(st, next.value))) else Ok((None, st))
  }

  function ExpectType(st: State, kind: TokenType): (r: Result<(Token, State), ParseError>)
    ensures r.Ok? ==> |r.value.1.rest| < |st.rest| && r.value.0.kind == kind
  {
    var (t, st1) :- AcceptType(st, kind);
    if t.Some? then Ok((t.value, st1)) else Err(ParseError)
  }

  /** { "*" | "&" | "&&" } */
  function PointerRefs(st: State, append: bool): (r: Step)
    ensures Shrinks(r, st)
    ensures r.Ok? && !r.value.0 ==> r.value.1 == st
    decreases |st.rest|
  {
    var next :- Lex(st.rest);
    if next.None? || !IsPointerRef(next.value) then Ok((false, st))
    else
      var st1 := if append then Emit(st, next.value) else st;
      var (_, st2) :- PointerRefs(Take(st1, next.value), append);
      Ok((true, st2))
  }

  // ---------------------------------------------------------------- balanced punctuation

  /** An operator spelled with punctuation, `()` and `[]` included. */
  function OperatorPunctuation(st: State, append: bool): (r: Step)
    ensures Shrinks(r, st)
    ensures r.Ok? && !r.value.0 ==> r.value.1 == st
    ensures r.Ok? && !append ==> r.value.1.out == st.out
  {
    var (op, st1) :- AcceptType(st, Punctuation);
    if op.None? then Ok((false, st))
    else
      var st2 := if append then Emit(st1, op.value) else st1;
      if op.value.str == "(" || op.value.str == "[" then
        var (op2, st3) :- ExpectType(st2, Punctuation);
        if op2.str != Closing(op.value.str) then Err(ParseError)
        else Ok((true, if append then Emit(st3, op2) else st3))
      else Ok((true, st2))
  }

  /** `operator` and the punctuation after it, inside a template argument list. Without punctuation
      `operator` alone has been consumed. */
  function OperatorInList(st: State): (r: Step)
    ensures Shrinks(r, st)
    ensures r.Ok? ==> r.value.1.out == st.out
  {
    var (isOperator, st1) :- AcceptToken(st, Ident("operator"));
    if isOperator then OperatorPunctuation(st1, false) else Ok((false, st))
  }

  /** What a token means to the group that `opening` opened. */
  datatype Role = Opener | Closer | NestedGroup | Other

  function RoleOf(t: Token, opening: string): Role
    requires IsOpening(opening)
  {
    if t.kind != Punctuation then Other
    else if t.str == opening then Opener
    else if t.str == Closing(opening) then Closer
    else if opening == "<" && IsOpening(t.str) then NestedGroup
    else Other
  }

  /** Consume up to the closer that matches, `depth` of them being open. */
  function Balanced(st: State, opening: string, depth: nat): (r: Result<State, ParseError>)
    requires IsOpening(opening)
    ensures r.Ok? ==> |r.value.rest| <= |st.rest| && r.value.out == st.out
    decreases |st.rest|, 1
  {
    if depth == 0 then Ok(st)
    else if opening == "<" then
      var (isOperator, st1) :- OperatorInList(st);
      if isOperator then Balanced(st1, opening, depth) else BalancedStep(st1, opening, depth)
    else BalancedStep(st, opening, depth)
  }

  function BalancedStep(st: State, opening: string, depth: nat): (r: Result<State, ParseError>)
    requires IsOpening(opening) && depth > 0
    ensures r.Ok? ==> |r.value.rest| <= |st.rest| && r.value.out == st.out
    decreases |st.rest|, 0
  {
    var next :- LexIn(st.rest, opening == "<");
    if next.None? then Ok(st)
    else
      var t := next.value;
      var st1 := Take(st, t);
      match RoleOf(t, opening)
      case Opener => Balanced(st1, opening, depth + 1)
      case Closer => Balanced(st1, opening, depth - 1)
      case NestedGroup =>
        var st2 :- Balanced(st1, t.str, 1);
        Balanced(st2, opening, depth)
      case Other => Balanced(st1, opening, depth)
  }

  function BalancedGroup(st: State): (r: Step)
    ensures Shrinks(r, st)
    ensures r.Ok? && !r.value.0 ==> r.value.1 == st
    ensures r.Ok? ==> r.value.1.out == st.out
  {
    var next :- Lex(st.rest);
    if next.Some? && next.value.kind == Punctuation && IsOpening(next.value.str) then
      var st1 :- Balanced(Take(st, next.value), next.value.str, 1);
      Ok((true, st1))
    else Ok((false, st))
  }

  function IgnoredIdentifier(st: State): (r: Step)
    ensures Shrinks(r, st)
    ensures r.Ok? && !r.value.0 ==> r.value.1 == st
    ensures r.Ok? ==> r.value.1.out == st.out
  {
    var next :- Lex(st.rest);
    if next.Some? && next.value.kind == Identifier && IsIgnoredIdentifier(next.value.str) then
      Ok((true, Take(st, next.value)))
    else Ok((false, st))
  }

  /** { PUNCTUATION }, balanced where it opens, up to `::` or `#`. */
  function PunctuationRun(st: State): (r: Step)
    ensures Shrinks(r, st)
    decreases |st.rest|
  {
    var next :- Lex(st.rest);
    if next.None? || next.value.kind != Punctuation || next.value.str == "::" || next.value.str == "#" then
      Ok((false, st))
    else
      var (group, st1) :- BalancedGroup(st);
      var (_, st2) :- PunctuationRun(if group then st1 else Take(st1, next.value));
      Ok((true, st2))
  }

  /** { balanced punctuation | ignored identifier | pointer-refs } */
  function TrailingModifiers(st: State): (r: Step)
    ensures Shrinks(r, st)
    ensures r.Ok? && !r.value.0 ==> r.value.1 == st
    decreases |st.rest|
  {
    var next :- Lex(st.rest);
    if next.None? then Ok((false, st))
    else
      var (group, st1) :- BalancedGroup(st);
      if group then
        var (_, st2) :- TrailingModifiers(st1);
        Ok((true, st2))
      else
        var (ignored, st2) :- IgnoredIdentifier(st);
        if ignored then
          var (_, st3) :- TrailingModifiers(st2);
          Ok((true, st3))
        else
          var (refs, st3) :- PointerRefs(st, false);
          if refs then
            var (_, st4) :- TrailingModifiers(st3);
            Ok((true, st4))
          else Ok((false, st))
  }

  // ---------------------------------------------------------------- terms

  function AnonymousTag(st: State): (r: Step)
    ensures Shrinks(r, st)
    ensures r.Ok? && !r.value.0 ==> r.value.1 == st
  {
    var (tag, st1) :- AcceptType(st, AnonymousNamespace);
    Ok((tag.Some?, if tag.Some? then Emit(st1, Ident(ANONYMOUS_GNU)) else st))
  }

  function NewDelete(st: State): (r: Step)
    ensures Shrinks(r, st)
    ensures r.Ok? && !r.value.0 ==> r.value.1 == st
  {
    var next :- Lex(st.rest);
    if next != Some(Ident("new")) && next != Some(Ident("delete")) then Ok((false, st))
    else
      var (bracket, st1) :- AcceptAndEmit(Emit(Take(st, next.value), next.value), Punct("["));
      if !bracket then Ok((true, st1))
      else
        var st2 :- Expect(st1, Punct("]"));
        Ok((true, Emit(st2, Punct("]"))))
  }

  function SpecialDecltype(st: State): (r: Step)
    ensures Shrinks(r, st)
    ensures r.Ok? && !r.value.0 ==> r.value.1 == st
  {
    var (isDecltype, st1) :- AcceptAndEmit(st, Ident("decltype"));
    if !isDecltype then Ok((false, st))
    else
      var st2 :- Expect(st1, Punct("("));
      var (word, st3) :- ExpectType(Emit(st2, Punct("(")), Identifier);
      if word.str != "auto" && word.str != "nullptr" then Err(ParseError)
      else
        var st4 :- Expect(Emit(st3, word), Punct(")"));
        Ok((true, Emit(st4, Punct(")"))))
  }

  /** `co_await`, or the literal operator `"" name`. */
  function CoAwaitOrLiteralOperator(st: State): (r: Step)
    ensures Shrinks(r, st)
    ensures r.Ok? && !r.value.0 ==> r.value.1 == st
  {
    var (coAwait, st1) :- AcceptAndEmit(st, Ident("co_await"));
    if coAwait then Ok((true, st1))
    else
      var quotes := Token(Literal, "\"\"");
      var (isLiteral, st2) :- AcceptToken(st, quotes);
      if !isLiteral then Ok((false, st))
      else
        var (name, st3) :- ExpectType(st2, Identifier);
        Ok((true, Emit(Emit(st3, quotes), name)))
  }

  /** What follows `operator`, other than a conversion type: nothing is consumed when none matches. */
  function OperatorName(st: State): (r: Step)
    ensures Shrinks(r, st)
    ensures r.Ok? && !r.value.0 ==> r.value.1 == st
  {
    var (newDelete, st1) :- NewDelete(st);
    if newDelete then Ok((true, st1))
    else
      var (special, st2) :- SpecialDecltype(st);
      if special then Ok((true, st2))
      else
        var (other, st3) :- CoAwaitOrLiteralOperator(st);
        if other then Ok((true, st3)) else OperatorPunctuation(st, true)
  }

  function Operator(st: State): (r: Step)
    ensures Shrinks(r, st)
    ensures r.Ok? && !r.value.0 ==> r.value.1 == st
    decreases |st.rest|, 1
  {
    var (isOperator, st1) :- AcceptAndEmit(st, Ident("operator"));
    if !isOperator then Ok((false, st))
    else
      var (named, st2) :- OperatorName(st1);
      if named then Ok((true, st2))
      else
        // a conversion operator: a type, and perhaps the type a member pointer points to
        var (_, st3) :- Symbol(st1);
        var next :- Lex(st3.rest);
        if next.Some? && next.value.kind == Identifier then
          var (_, st4) :- Symbol(st3);
          Ok((true, st4))
        else Ok((true, st3))
  }

  /** [ "~" ] IDENTIFIER */
  function IdentifierTerm(st: State): (r: Step)
    ensures Shrinks(r, st)
    ensures r.Ok? && !r.value.0 ==> r.value.1 == st
  {
    var (complement, st1) :- AcceptAndEmit(st, Punct("~"));
    var (name, st2) :- AcceptType(st1, Identifier);
    if name.Some? then Ok((true, Emit(st2, name.value)))
    else if complement then Err(ParseError)
    else Ok((false, st))
  }

  /** After "{": "lambda" or "unnamed type", junk, "#" LITERAL "}". */
  function BracedLambda(st: State): (r: Result<State, ParseError>)
    ensures r.Ok? ==> |r.value.rest| < |st.rest|
  {
    var (isLambda, st1) :- AcceptToken(st, Ident("lambda"));
    if isLambda then BracedTail(st1, Ident("lambda"), None)
    else
      var st2 :- Expect(st, Ident("unnamed"));
      var st3 :- Expect(st2, Ident("type"));
      BracedTail(st3, Ident("unnamed"), Some(Ident("type")))
  }

  function BracedTail(st: State, word1: Token, word2: Option<Token>): (r: Result<State, ParseError>)
    ensures r.Ok? ==> |r.value.rest| < |st.rest|
  {
    var (_, st1) :- PunctuationRun(st);
    var st2 :- Expect(st1, Punct("#"));
    var (discriminator, st3) :- ExpectType(st2, Literal);
    var st4 :- Expect(st3, Punct("}"));
    var st5 := Emit(Emit(st4, Punct("<")), word1);
    var st6 := if word2.Some? then Emit(st5, word2.value) else st5;
    Ok(Emit(Emit(Emit(st6, Punct("#")), discriminator), Punct(">")))
  }

  /** "<" "lambda_..." ">", after the "<". */
  function AngledLambda(st: State): (r: Result<State, ParseError>)
    ensures r.Ok? ==> |r.value.rest| < |st.rest|
  {
    var (name, st1) :- ExpectType(st, Identifier);
    if !StartsWith(name.str, "lambda_") then Err(ParseError)
    else
      var st2 :- Expect(st1, Punct(">"));
      Ok(Emit(Emit(Emit(st2, Punct("<")), name), Punct(">")))
  }

  /** 'lambda...' or 'unnamed...' */
  predicate IsQuotedLambda(t: Token) {
    && t.kind == Literal
    && (StartsWith(t.str, "'lambda") || StartsWith(t.str, "'unnamed"))
    && EndsWith(t.str, "'")
  }

  /** `symbol' */
  predicate IsEnclosedSymbol(t: Token) {
    && t.kind == Literal
    && StartsWith(t.str, "`")
    && EndsWith(t.str, "'")
  }

  function Inner(s: string): string
    requires |s| >= 2
  {
    s[1..|s| - 1]
  }

  /** 'lambda...' is rewritten to <lambda...>; `symbol' holds another symbol, which is pruned in turn. */
  function LiteralTerm(st: State): (r: Step)
    ensures Shrinks(r, st)
    ensures r.Ok? && !r.value.0 ==> r.value.1 == st
    decreases |st.rest|, 1
  {
    var next :- Lex(st.rest);
    if next.None? then Ok((false, st))
    else
      var t := next.value;
      if IsQuotedLambda(t) then
        QuotedLambdaEnds(t);
        Ok((true, EmitQuoted(Take(st, t), "<", Inner(t.str), ">")))
      else if IsEnclosedSymbol(t) then
        QuoteEnds(t.str);
        Ok((true, EmitQuoted(Take(st, t), "`", Prune(Inner(t.str)), "'")))
      else Ok((false, st))
  }

  function EmitQuoted(st: State, open: string, text: string, close: string): (r: State)
    ensures r.rest == st.rest
  {
    Emit(Emit(Emit(st, Punct(open)), Punct(text)), Punct(close))
  }

  /** A lambda or an unnamed type, as LLVM, GCC or MSVC spells it. */
  function LambdaOrUnnamed(st: State): (r: Step)
    ensures Shrinks(r, st)
    ensures r.Ok? && !r.value.0 ==> r.value.1 == st
    decreases |st.rest|, 2
  {
    var (brace, st1) :- AcceptToken(st, Punct("{"));
    if brace then
      var st2 :- BracedLambda(st1);
      Ok((true, st2))
    else
      var (literal, st3) :- LiteralTerm(st);
      if literal then Ok((true, st3))
      else
        var (angle, st4) :- AcceptToken(st, Punct("<"));
        if angle then
          var st5 :- AngledLambda(st4);
          Ok((true, st5))
        else Ok((false, st))
  }

  lemma QuoteEnds(s: string)
    requires StartsWith(s, "`") && EndsWith(s, "'")
    ensures |s| >= 2
  {
    assert s[0] == '`';
    assert s[|s| - 1..][0] == '\'';
  }

  lemma QuotedLambdaEnds(t: Token)
    requires IsQuotedLambda(t)
    ensures |t.str| >= 2
  {
  }

  /** Lookahead for "(*", "(__cdecl*" and the like. */
  predicate LooksLikeFunctionPointer(rest: string) {
    var next := Lex(rest);
    next == Ok(Some(Punct("("))) && PointerAhead(AfterToken(rest, Punct("(")))
  }

  predicate PointerAhead(rest: string)
    decreases |rest|
  {
    var next := Lex(rest);
    && next.Ok? && next.value.Some?
    && var t := next.value.value;
       || IsPointerRef(t)
       || (t.kind == Identifier && IsMicrosoftCallingConvention(t.str) && PointerAhead(AfterToken(rest, t)))
  }

  /** Pointers, calling conventions and ignored identifiers; the flag says whether a pointer was among them. */
  function PointerJunk(st: State): (r: Step)
    ensures Shrinks(r, st)
    ensures r.Ok? ==> r.value.1.out == st.out
    decreases |st.rest|
  {
    var next :- Lex(st.rest);
    if next.Some? && IsPointerRef(next.value) then
      var (_, st1) :- PointerJunk(Take(st, next.value));
      Ok((true, st1))
    else if && next.Some? && next.value.kind == Identifier
            && (IsMicrosoftCallingConvention(next.value.str) || IsIgnoredIdentifier(next.value.str)) then
      PointerJunk(Take(st, next.value))
    else Ok((false, st))
  }

  function FunctionPointer(st: State): (r: Step)
    ensures Shrinks(r, st)
    ensures r.Ok? && !r.value.0 ==> r.value.1 == st
    decreases |st.rest|, 1
  {
    var (paren, st1) :- AcceptToken(st, Punct("("));
    if !paren then Ok((false, st))
    else
      var (sawPointer, st2) :- PointerJunk(st1);
      if !sawPointer then Err(ParseError)
      else
        var (parsed, st3) :- Symbol(st2.(out := st2.out.(reset := true)));
        if !parsed then Err(ParseError)
        else
          var st4 :- Expect(st3, Punct(")"));
          Ok((true, st4))
  }

  function Term(st: State): (r: Step)
    ensures Shrinks(r, st)
    ensures r.Ok? && !r.value.0 ==> r.value.1 == st
    decreases |st.rest|, 3
  {
    var (tag, st1) :- AnonymousTag(st);
    if tag then Ok((true, st1))
    else
      var (isOperator, st2) :- Operator(st);
      if isOperator then Ok((true, st2))
      else
        var (identifier, st3) :- IdentifierTerm(st);
        if identifier then Ok((true, st3)) else LambdaOrUnnamed(st)
  }

  /** A term, a function pointer declarator or both. */
  function TermOrFunctionPointer(st: State): (r: Step)
    ensures Shrinks(r, st)
    ensures r.Ok? && !r.value.0 ==> r.value.1 == st
    decreases |st.rest|, 4
  {
    var (term, st1) :- Term(st);
    if LooksLikeFunctionPointer(st1.rest) then
      var (pointer, st2) :- FunctionPointer(st1);
      Ok((term || pointer, st2))
    else Ok((term, st1))
  }

  /** What follows a term: pointers, junk, and `::` with perhaps a `*`. The flag says whether `::` came. */
  function AfterTerm(st: State): (r: Step)
    ensures Shrinks(r, st)
  {
    var (_, st1) :- PointerRefs(st, true);
    var (_, st2) :- TrailingModifiers(st1);
    var (scope, st3) :- AcceptAndEmit(st2, Punct("::"));
    if scope then
      var (_, st4) :- AcceptAndEmit(st3, Punct("*"));
      Ok((true, st4))
    else Ok((false, st3))
  }

  function Symbol(st: State): (r: Step)
    ensures Shrinks(r, st)
    decreases |st.rest|, 5
  {
    var next :- Lex(st.rest);
    if next.None? then Ok((false, st))
    else
      var (matched, st1) :- TermOrFunctionPointer(st);
      if !matched then Ok((false, st1))
      else
        var (scope, st2) :- AfterTerm(st1);
        if scope then
          var (_, st3) :- Symbol(st2);
          Ok((true, st3))
        else Ok((true, st2))
  }

  /** { symbol }: each symbol starts the output afresh. */
  function FullSymbol(st: State): (r: Result<State, ParseError>)
    ensures r.Ok? ==> r.value.rest == ""
    decreases |st.rest|, 6
  {
    var next :- Lex(st.rest);
    if next.None? then Ok(st)
    else
      var (madeProgress, st1) :- Symbol(st.(out := st.out.(reset := true)));
      if madeProgress then FullSymbol(st1) else Err(ParseError)
  }

  function Start(symbol: string): State {
    State(SkipSpace(symbol), Output("", false, false))
  }

  function Prune(symbol: string): string
    decreases |symbol|, 7
  {
    var r := FullSymbol(Start(symbol));
    if r.Err? || r.value.out.name == "" then symbol else r.value.out.name
  }
}
