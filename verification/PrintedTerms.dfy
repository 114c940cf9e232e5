/** The terms of a path, conversions aside, are recognized as what they were printed for. */
module PrintedTerms {
  import opened Wrappers
  import opened SymbolLexer
  import opened SymbolGrammar
  import opened PrintedSymbols
  import opened PrintedGroups

  /** Something was recognized: what is left reads as p, and the output goes on to n whenever it now goes on to k. */
  ghost predicate Recognized(r: Step, p: Printed, out: Output, n: Name, k: Name) {
    && r.Ok? && r.value.0 && ReadsAs(r.value.1.rest, p)
    && Finish(r.value.1.out, k) == Finish(out, n) && IsWritten(r.value.1.out)
  }

  // ---------------------------------------------------------------- tags and identifiers

  lemma TermOfTag(spelling: string, p: Printed, st: State, k: Name)
    requires ReadsAs(st.rest, Then(Token(AnonymousNamespace, spelling), p))
    ensures Recognized(Term(st), p, st.out, Word(Ident(ANONYMOUS_GNU), k), k)
  {
    hide Lex, AfterToken, Finish, IsWritten, AppendOutput;
    Appending(st.out, Ident(ANONYMOUS_GNU), k);
  }

  lemma TermOfName(id: string, p: Printed, st: State, k: Name)
    requires id != "operator" && id != "" && ReadsAs(st.rest, Then(Ident(id), p))
    ensures Recognized(Term(st), p, st.out, Word(Ident(id), k), k)
  {
    hide Lex, AfterToken, Finish, IsWritten, AppendOutput;
    assert Operator(st) == Ok((false, st));
    Appending(st.out, Ident(id), k);
  }

  lemma TermOfDestructor(id: string, p: Printed, st: State, k: Name)
    requires id != "" && ReadsAs(st.rest, Then(Punct("~"), Then(Ident(id), p)))
    ensures Recognized(Term(st), p, st.out, Word(Punct("~"), Word(Ident(id), k)), k)
  {
    hide Lex, AfterToken, Finish, IsWritten, AppendOutput;
    assert Operator(st) == Ok((false, st));
    Appending(st.out, Punct("~"), Word(Ident(id), k));
    Appending(AppendOutput(st.out, Punct("~")), Ident(id), k);
  }

  // ---------------------------------------------------------------- operators

  function AfterOperator(st: State): State
    requires Lex(st.rest) == Ok(Some(Ident("operator"))) && |"operator"| <= |st.rest|
  {
    Emit(Take(st, Ident("operator")), Ident("operator"))
  }

  lemma TermOfOperator(p: Printed, n: Name, q: Printed, st: State, k: Name)
    requires ReadsAs(st.rest, Then(Ident("operator"), q))
    requires Recognized(OperatorName(AfterOperator(st)), p, AfterOperator(st).out, n, k)
    ensures Recognized(Term(st), p, st.out, Word(Ident("operator"), n), k)
  {
    hide Lex, AfterToken, Finish, IsWritten, AppendOutput, OperatorName;
    assert AcceptAndEmit(st, Ident("operator")) == Ok((true, AfterOperator(st)));
    assert Operator(st) == OperatorName(AfterOperator(st));
    Appending(st.out, Ident("operator"), n);
  }

  lemma NameOfNewDelete(word: string, brackets: bool, p: Printed, st: State, k: Name)
    requires ValidHead(NewDeleteOperator(word, brackets), p)
    requires ReadsAs(st.rest, Then(Ident(word), if brackets then ShowGroup(Square, [], p) else p))
    ensures Recognized(OperatorName(st), p, st.out,
                       Word(Ident(word), if brackets then Word(Punct("["), Word(Punct("]"), k)) else k), k)
  {
    hide Lex, AfterToken, Finish, IsWritten, AppendOutput;
    var st1 := Emit(Take(st, Ident(word)), Ident(word));
    if brackets {
      Appending(st.out, Ident(word), Word(Punct("["), Word(Punct("]"), k)));
      Appending(st1.out, Punct("["), Word(Punct("]"), k));
      Appending(AppendOutput(st1.out, Punct("[")), Punct("]"), k);
      assert ShowGroup(Square, [], p) == Then(Punct("["), Then(Punct("]"), p));
      var s1 := Take(st, Ident(word));
      assert ReadsAs(s1.rest, Then(Punct("["), Then(Punct("]"), p)));
      assert ReadsAs(Take(s1, Punct("[")).rest, Then(Punct("]"), p));
    } else {
      Appending(st.out, Ident(word), k);
    }
  }

  lemma NameOfDeduced(word: string, p: Printed, st: State, k: Name)
    requires ValidHead(DeducedConversion(word), p)
    requires ReadsAs(st.rest, Then(Ident("decltype"), ShowGroup(Round, [Ident(word)], p)))
    ensures Recognized(OperatorName(st), p, st.out,
                       Word(Ident("decltype"), Word(Punct("("), Word(Ident(word), Word(Punct(")"), k)))), k)
  {
    hide Lex, AfterToken, Finish, IsWritten, AppendOutput;
    OneTokenGroup(Round, Ident(word), p);
    var s1 := Take(st, Ident("decltype"));
    assert ReadsAs(s1.rest, Then(Punct("("), Then(Ident(word), Then(Punct(")"), p))));
    var s2 := Take(s1, Punct("("));
    assert ReadsAs(s2.rest, Then(Ident(word), Then(Punct(")"), p)));
    assert ReadsAs(Take(s2, Ident(word)).rest, Then(Punct(")"), p));
    assert NewDelete(st) == Ok((false, st));
    var o1 := AppendOutput(st.out, Ident("decltype"));
    var o2 := AppendOutput(o1, Punct("("));
    var o3 := AppendOutput(o2, Ident(word));
    Appending(st.out, Ident("decltype"), Word(Punct("("), Word(Ident(word), Word(Punct(")"), k))));
    Appending(o1, Punct("("), Word(Ident(word), Word(Punct(")"), k)));
    Appending(o2, Ident(word), Word(Punct(")"), k));
    Appending(o3, Punct(")"), k);
  }

  lemma OneTokenGroup(b: Bracket, t: Token, p: Printed)
    ensures ShowGroup(b, [t], p) == Then(Punct(Left(b)), Then(t, Then(Punct(Right(b)), p)))
  {
    var q := Then(Punct(Right(b)), p);
    assert ShowTokens([t], q) == Then(t, ShowTokens([t][1..], q));
  }

  lemma NameOfCoAwait(p: Printed, st: State, k: Name)
    requires ReadsAs(st.rest, Then(Ident("co_await"), p))
    ensures Recognized(OperatorName(st), p, st.out, Word(Ident("co_await"), k), k)
  {
    hide Lex, AfterToken, Finish, IsWritten, AppendOutput;
    assert NewDelete(st) == Ok((false, st));
    assert SpecialDecltype(st) == Ok((false, st));
    Appending(st.out, Ident("co_await"), k);
  }

  lemma NameOfLiteral(suffix: string, p: Printed, st: State, k: Name)
    requires suffix != "" && ReadsAs(st.rest, Then(QUOTES, Then(Ident(suffix), p)))
    ensures Recognized(OperatorName(st), p, st.out, Word(QUOTES, Word(Ident(suffix), k)), k)
  {
    hide Lex, AfterToken, Finish, IsWritten, AppendOutput;
    assert NewDelete(st) == Ok((false, st));
    assert SpecialDecltype(st) == Ok((false, st));
    Appending(st.out, QUOTES, Word(Ident(suffix), k));
    Appending(AppendOutput(st.out, QUOTES), Ident(suffix), k);
  }

  /** Before punctuation the other ways to name an operator are tried in vain. */
  lemma OnlyPunctuation(st: State, t: Token)
    requires Lex(st.rest) == Ok(Some(t)) && t.kind == Punctuation
    ensures OperatorName(st) == OperatorPunctuation(st, true)
  {
    hide Lex, OperatorPunctuation;
    assert NewDelete(st) == Ok((false, st));
    assert SpecialDecltype(st) == Ok((false, st));
    assert CoAwaitOrLiteralOperator(st) == Ok((false, st));
  }

  lemma NameOfSymbol(op: string, p: Printed, st: State, k: Name)
    requires op != "" && op != "(" && op != "[" && ReadsAs(st.rest, Then(Punct(op), p))
    ensures Recognized(OperatorName(st), p, st.out, Word(Punct(op), k), k)
  {
    hide Lex, AfterToken, Finish, IsWritten, AppendOutput, OperatorName;
    OnlyPunctuation(st, Punct(op));
    Appending(st.out, Punct(op), k);
  }

  lemma NameOfBrackets(b: Bracket, p: Printed, st: State, k: Name)
    requires b != Curly && ReadsAs(st.rest, ShowGroup(b, [], p))
    ensures Recognized(OperatorName(st), p, st.out, Word(Punct(Left(b)), Word(Punct(Right(b)), k)), k)
  {
    hide Lex, AfterToken, Finish, IsWritten, AppendOutput, OperatorName;
    assert ShowGroup(b, [], p) == Then(Punct(Left(b)), Then(Punct(Right(b)), p));
    OnlyPunctuation(st, Punct(Left(b)));
    Appending(st.out, Punct(Left(b)), Word(Punct(Right(b)), k));
    Appending(AppendOutput(st.out, Punct(Left(b))), Punct(Right(b)), k);
  }

  // ---------------------------------------------------------------- lambdas

  /** The first three kinds of term do not begin with an opening bracket or a literal. */
  lemma OnlyLambda(st: State, t: Token)
    requires Lex(st.rest) == Ok(Some(t)) && (t == Punct("{") || t == Punct("<") || t.kind == Literal)
    ensures Term(st) == LambdaOrUnnamed(st)
  {
    hide Lex;
    assert AnonymousTag(st) == Ok((false, st));
    assert Operator(st) == Ok((false, st));
    assert IdentifierTerm(st) == Ok((false, st));
  }

  lemma {:induction false} RunIsPassed(junk: seq<Modifier>, p: Printed, st: State)
    requires (forall m | m in junk :: ValidJunk(m)) && p.Then? && p.token == Punct("#")
    requires ReadsAs(st.rest, ShowModifiers(junk, p))
    ensures var r := PunctuationRun(st);
            r.Ok? && ReadsAs(r.value.1.rest, p) && r.value.1.out == st.out
    decreases |junk|
  {
    hide Lex, AfterToken, BalancedGroup, ValidGroup;
    if junk != [] {
      var m, more := junk[0], ShowModifiers(junk[1..], p);
      assert ValidJunk(m);
      var st1;
      if m.Lone? {
        NoGroup(st, m.token);
        st1 := Take(st, m.token);
      } else {
        ModifierGroup(m, more, st);
        st1 := BalancedGroup(st).value.1;
      }
      RunIsPassed(junk[1..], p, st1);
    }
  }

  function BracedShown(junk: seq<Modifier>, number: string, p: Printed): Printed {
    ShowModifiers(junk, Then(Punct("#"), Then(Token(Literal, number), Then(Punct("}"), p))))
  }

  lemma BracedTailIsRead(junk: seq<Modifier>, number: string, p: Printed, st: State, word1: Token, word2: Option<Token>)
    requires (forall m | m in junk :: ValidJunk(m)) && ReadsAs(st.rest, BracedShown(junk, number, p))
    ensures var o := AppendOutput(AppendOutput(st.out, Punct("<")), word1);
            var o := if word2.Some? then AppendOutput(o, word2.value) else o;
            var r := BracedTail(st, word1, word2);
            && r.Ok? && ReadsAs(r.value.rest, p)
            && r.value.out == AppendOutput(AppendOutput(AppendOutput(o, Punct("#")), Token(Literal, number)), Punct(">"))
  {
    hide Lex, AfterToken, AppendOutput, PunctuationRun, ValidJunk, ShowModifiers;
    RunIsPassed(junk, Then(Punct("#"), Then(Token(Literal, number), Then(Punct("}"), p))), st);
    var st1 := PunctuationRun(st).value.1;
    var st2 := Take(st1, Punct("#"));
    assert ReadsAs(st2.rest, Then(Token(Literal, number), Then(Punct("}"), p)));
    assert ReadsAs(Take(st2, Token(Literal, number)).rest, Then(Punct("}"), p));
  }

  lemma TermOfBraced(isUnnamed: bool, junk: seq<Modifier>, number: string, p: Printed, st: State, k: Name)
    requires forall m | m in junk :: ValidJunk(m)
    requires ReadsAs(st.rest, ShowHead(BracedLambda(isUnnamed, junk, number), p))
    ensures Recognized(Term(st), p, st.out, NameOfHead(BracedLambda(isUnnamed, junk, number), k), k)
  {
    hide Lex, AfterToken, AppendOutput, BracedTail, ValidJunk, Finish, IsWritten;
    OnlyLambda(st, Punct("{"));
    var st1 := Take(st, Punct("{"));
    var shown := BracedShown(junk, number, p);
    var tail := Word(Punct("#"), Word(Token(Literal, number), Word(Punct(">"), k)));
    var o := AppendOutput(st.out, Punct("<"));
    if isUnnamed {
      assert ReadsAs(st1.rest, Then(Ident("unnamed"), Then(Ident("type"), shown)));
      assert ReadsAs(Take(st1, Ident("unnamed")).rest, Then(Ident("type"), shown));
      var st2 := Take(Take(st1, Ident("unnamed")), Ident("type"));
      BracedTailIsRead(junk, number, p, st2, Ident("unnamed"), Some(Ident("type")));
      Appending(st.out, Punct("<"), Word(Ident("unnamed"), Word(Ident("type"), tail)));
      Appending(o, Ident("unnamed"), Word(Ident("type"), tail));
      var o1 := AppendOutput(o, Ident("unnamed"));
      Appending(o1, Ident("type"), tail);
      NumberAppended(AppendOutput(o1, Ident("type")), number, k);
    } else {
      assert ReadsAs(st1.rest, Then(Ident("lambda"), shown));
      BracedTailIsRead(junk, number, p, Take(st1, Ident("lambda")), Ident("lambda"), None);
      Appending(st.out, Punct("<"), Word(Ident("lambda"), tail));
      Appending(o, Ident("lambda"), tail);
      NumberAppended(AppendOutput(o, Ident("lambda")), number, k);
    }
  }

  lemma NumberAppended(out: Output, number: string, k: Name)
    ensures var o := AppendOutput(AppendOutput(AppendOutput(out, Punct("#")), Token(Literal, number)), Punct(">"));
            && Finish(o, k) == Finish(out, Word(Punct("#"), Word(Token(Literal, number), Word(Punct(">"), k))))
            && IsWritten(o)
  {
    hide AppendOutput, Finish, IsWritten;
    var o1 := AppendOutput(out, Punct("#"));
    var o2 := AppendOutput(o1, Token(Literal, number));
    Appending(out, Punct("#"), Word(Token(Literal, number), Word(Punct(">"), k)));
    Appending(o1, Token(Literal, number), Word(Punct(">"), k));
    Appending(o2, Punct(">"), k);
  }

  lemma QuotedAppended(out: Output, open: string, text: string, close: string, k: Name)
    requires close != ""
    ensures var o := AppendOutput(AppendOutput(AppendOutput(out, Punct(open)), Punct(text)), Punct(close));
            && Finish(o, k) == Finish(out, Word(Punct(open), Word(Punct(text), Word(Punct(close), k))))
            && IsWritten(o)
  {
    hide AppendOutput, Finish, IsWritten;
    var o1 := AppendOutput(out, Punct(open));
    Appending(out, Punct(open), Word(Punct(text), Word(Punct(close), k)));
    Appending(o1, Punct(text), Word(Punct(close), k));
    Appending(AppendOutput(o1, Punct(text)), Punct(close), k);
  }

  lemma QuotedWord(word: string)
    requires "lambda" <= word || "unnamed" <= word
    ensures var t := Token(Literal, "'" + word + "'");
            IsQuotedLambda(t) && Inner(t.str) == word
  {
    var s := "'" + word + "'";
    assert s[|s| - 1..] == "'" && s[1..|s| - 1] == word;
    if "lambda" <= word {
      assert word == "lambda" + word[6..] && "'" + "lambda" == "'lambda";
      assert s == "'lambda" + (word[6..] + "'");
    } else {
      assert word == "unnamed" + word[7..] && "'" + "unnamed" == "'unnamed";
      assert s == "'unnamed" + (word[7..] + "'");
    }
  }

  lemma TermOfQuoted(word: string, p: Printed, st: State, k: Name)
    requires "lambda" <= word || "unnamed" <= word
    requires ReadsAs(st.rest, Then(Token(Literal, "'" + word + "'"), p))
    ensures Recognized(Term(st), p, st.out, Word(Punct("<"), Word(Punct(word), Word(Punct(">"), k))), k)
  {
    hide Lex, AfterToken, AppendOutput, Finish, IsWritten, Inner, IsQuotedLambda;
    var t := Token(Literal, "'" + word + "'");
    OnlyLambda(st, t);
    QuotedWord(word);
    QuotedAppended(st.out, "<", word, ">", k);
  }

  lemma EnquotedText(text: string)
    ensures var t := Enquoted(text);
            !IsQuotedLambda(t) && IsEnclosedSymbol(t) && |t.str| >= 2 && Inner(t.str) == text
  {
    var s := Enquoted(text).str;
    assert s[0] == '`' && s[|s| - 1..] == "'" && s[1..|s| - 1] == text;
  }

  lemma TermOfEnclosed(text: string, p: Printed, st: State, k: Name)
    requires ReadsAs(st.rest, Then(Enquoted(text), p))
    ensures Recognized(Term(st), p, st.out, InQuotes(Prune(text), k), k)
  {
    hide Lex, AfterToken, AppendOutput, Finish, IsWritten, Inner, IsQuotedLambda, IsEnclosedSymbol;
    assert Enquoted(text).kind == Literal;
    hide Enquoted;
    EnquotedText(text);
    OnlyLambda(st, Enquoted(text));
    QuotedAppended(st.out, "`", Prune(text), "'", k);
  }

  lemma TermOfAngled(word: string, p: Printed, st: State, k: Name)
    requires "lambda_" <= word && ReadsAs(st.rest, Then(Punct("<"), Then(Ident(word), Then(Punct(">"), p))))
    ensures Recognized(Term(st), p, st.out, Word(Punct("<"), Word(Ident(word), Word(Punct(">"), k))), k)
  {
    hide Lex, AfterToken, AppendOutput, Finish, IsWritten;
    OnlyLambda(st, Punct("<"));
    var st1 := Take(st, Punct("<"));
    assert ReadsAs(st1.rest, Then(Ident(word), Then(Punct(">"), p)));
    assert ReadsAs(Take(st1, Ident(word)).rest, Then(Punct(">"), p));
    assert AcceptToken(st, Punct("{")) == Ok((false, st));
    assert LiteralTerm(st) == Ok((false, st));
    var o1 := AppendOutput(st.out, Punct("<"));
    Appending(st.out, Punct("<"), Word(Ident(word), Word(Punct(">"), k)));
    Appending(o1, Ident(word), Word(Punct(">"), k));
    Appending(AppendOutput(o1, Ident(word)), Punct(">"), k);
  }

  lemma UnreadableFails(word: string, q: Printed, st: State)
    requires !("lambda_" <= word) && ReadsAs(st.rest, Then(Punct("<"), Then(Ident(word), q)))
    ensures Term(st).Err?
  {
    hide Lex, AfterToken, AppendOutput;
    OnlyLambda(st, Punct("<"));
  }

  // ---------------------------------------------------------------- heads

  predicate IsConversion(h: Head) {
    h.Conversion? || h.MemberConversion?
  }

  lemma TermOfNamedOperator(h: Head, p: Printed, st: State, k: Name)
    requires ValidHead(h, p) && ReadsAs(st.rest, ShowHead(h, p))
    requires IsNamedOperator(h)
    ensures Recognized(Term(st), p, st.out, NameOfHead(h, k), k)
  {
    hide Lex, AfterToken, Recognized, OperatorName, Term;
    var st1 := AfterOperator(st);
    match h
    case NewDeleteOperator(word, brackets) =>
      var q := Then(Ident(word), if brackets then ShowGroup(Square, [], p) else p);
      NameOfNewDelete(word, brackets, p, st1, k);
      TermOfOperator(p, Word(Ident(word), if brackets then Word(Punct("["), Word(Punct("]"), k)) else k), q, st, k);
    case DeducedConversion(word) =>
      NameOfDeduced(word, p, st1, k);
      TermOfOperator(p, Word(Ident("decltype"), Word(Punct("("), Word(Ident(word), Word(Punct(")"), k)))),
                     Then(Ident("decltype"), ShowGroup(Round, [Ident(word)], p)), st, k);
    case CoAwait =>
      NameOfCoAwait(p, st1, k);
      TermOfOperator(p, Word(Ident("co_await"), k), Then(Ident("co_await"), p), st, k);
    case LiteralOperator(suffix) =>
      NameOfLiteral(suffix, p, st1, k);
      TermOfOperator(p, Word(QUOTES, Word(Ident(suffix), k)), Then(QUOTES, Then(Ident(suffix), p)), st, k);
    case OperatorSymbol(op) =>
      NameOfSymbol(op, p, st1, k);
      TermOfOperator(p, Word(Punct(op), k), Then(Punct(op), p), st, k);
    case BracketOperator(b) =>
      NameOfBrackets(b, p, st1, k);
      TermOfOperator(p, Word(Punct(Left(b)), Word(Punct(Right(b)), k)), ShowGroup(b, [], p), st, k);
  }

  /** The name of the declaration in an enclosing function. */
  function EnclosedName(text: string, inner: seq<Path>): string {
    if AnyFails(inner) then text else QualifiedName(inner)
  }

  lemma TermOfHead(h: Head, p: Printed, st: State, k: Name)
    requires ValidHead(h, p) && !IsConversion(h) && ReadsAs(st.rest, ShowHead(h, p))
    requires h.Enclosed? ==> Prune(h.text) == EnclosedName(h.text, h.inner)
    requires h.Ordinal? ==> Prune(h.number) == h.number
    ensures if HeadFails(h) then Term(st).Err? else Recognized(Term(st), p, st.out, NameOfHead(h, k), k)
  {
    hide Lex, AfterToken, Recognized, Term, Prune, IsName;
    match h
    case Tag(spelling) => TermOfTag(spelling, p, st, k);
    case Named(id) =>
      NotEmpty(id);
      TermOfName(id, p, st, k);
    case Destructor(id) =>
      NotEmpty(id);
      TermOfDestructor(id, p, st, k);
    case BracedLambda(isUnnamed, junk, number) => TermOfBraced(isUnnamed, junk, number, p, st, k);
    case QuotedLambda(word) => TermOfQuoted(word, p, st, k);
    case AngledLambda(word) => TermOfAngled(word, p, st, k);
    case Enclosed(text, inner) => TermOfEnclosed(text, p, st, k);
    case Ordinal(number) => TermOfEnclosed(number, p, st, k);
    case Unreadable(word, tail) => UnreadableFails(word, ShowTokens(tail, p), st);
    case _ => TermOfNamedOperator(h, p, st, k);
  }

  lemma NotEmpty(id: string)
    requires IsName(id)
    ensures id != ""
  {
  }
}
