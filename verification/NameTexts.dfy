/** How the words of a name read when the name is a text of its own. */
module NameTexts {
  import opened Wrappers
  import opened SymbolLexer
  import opened SymbolGrammar
  import opened PrintedSymbols
  import opened PrintedTexts
  import opened PrunedNames
  import PrintedTerms

  // ---------------------------------------------------------------- words in front of a name

  /** The text of n is read as p, with a space before it or without. */
  ghost predicate Reads(n: Name, p: Printed) {
    ReadsAs(SkipSpace(TextOf(n, false)), p) && ReadsAs(SkipSpace(TextOf(n, true)), p)
  }

  /** A word t of a name that is read as the token t'. */
  lemma OneWord(t: Token, t': Token, n: Name, p: Printed)
    requires t'.str == t.str && IsToken(t') && !IsSpace(t.str[0]) && EndsBefore(t', TextOf(n, t.kind == Identifier))
    requires Reads(n, p)
    ensures Reads(Word(t, n), Then(t', p))
  {
    hide Lex, IsToken, EndsBefore, TextOf;
    var r := TextOf(n, t.kind == Identifier);
    var s := t.str + r;
    TokenNotEmpty(t');
    LexIsExact(t', r);
    assert s[|t.str|..] == r;
    SkipNone(s);
    assert ReadsAs(s, Then(t', p));
    WordText(t, n);
    SkipGap(" ", s);
    assert "" + s == s;
  }

  lemma WordText(t: Token, n: Name)
    ensures var s := t.str + TextOf(n, t.kind == Identifier);
            && TextOf(Word(t, n), false) == "" + s
            && (TextOf(Word(t, n), true) == "" + s || TextOf(Word(t, n), true) == " " + s)
  {
  }

  /** What may come after a head. */
  predicate Follows(n: Name) {
    n.Nothing? || (n.Word? && (IsNameWord(n.token) || IsPointerRef(n.token) || n.token == Punct("::")))
  }

  /** What an identifier does not go on in: a space is put between it and another one. */
  predicate BreaksWord(n: Name) {
    n.Word? && (n.token.kind == Identifier || (n.token.str != "" && !IsIdentifierContinue(n.token.str[0])))
  }

  predicate IsNameWord(t: Token) {
    t.kind == Identifier && IsName(t.str)
  }

  /** What may come after an operator or a type. */
  predicate FollowsType(n: Name) {
    n.Nothing? || (n.Word? && IsNameWord(n.token))
  }

  /** A character that makes no operator longer. */
  predicate IsInert(c: char) {
    && c != '=' && c != ':' && c != '&' && c != '|' && c != '<' && c != '>'
    && c != '+' && c != '-' && c != '%' && c != '*' && c != '.'
  }

  lemma OperatorEnds(op: string, r: string)
    requires IsOperator(op) && (r == "" || IsInert(r[0]))
    ensures PunctuationLength(op + r) == |op|
  {
    var s := op + r;
    assert s[0] == op[0];
    assert |op| >= 2 ==> s[1] == op[1];
    assert |op| >= 3 ==> s[2] == op[2];
    assert r != "" ==> s[|op|] == r[0];
  }

  /** No operator goes on behind these, whatever follows but `=` and, for a reference, another one. */
  predicate IsClosed(op: string, r: string) {
    || op == "::" || op == "&&" || op == "]" || op == ")" || op == "[" || op == "#" || op == "~"
    || ((op == "*" || op == "&") && (r == "" || (r[0] != '=' && (r[0] != '&' || op == "*"))))
    || (op == ">" && (r == "" || (r[0] != '=' && r[0] != '>')))
    || (op == "<" && r != "" && IsIdentifierStart(r[0]))
    || (op == "(" && r != "" && (r[0] == ')' || (|r| > 1 && IsIdentifierStart(r[0]) && r[1] != 'n')))
  }

  lemma ClosedEnds(op: string, r: string)
    requires IsClosed(op, r)
    ensures IsToken(Punct(op)) && EndsBefore(Punct(op), r) && !IsSpace(op[0])
  {
    var s := op + r;
    assert s[0] == op[0];
    assert |op| == 2 ==> s[1] == op[1];
    assert r != "" ==> s[|op|] == r[0];
    FirstOfTags(s);
    if op == "(" {
      assert s[1] == r[0] && ANONYMOUS_GNU[1] == 'a' && ANONYMOUS_GNU[2] == 'n';
      assert |r| > 1 ==> s[2] == r[1];
    }
  }

  lemma StartOfFollower(n: Name, after: bool)
    requires Follows(n)
    ensures var r := TextOf(n, after);
            r != "" ==> r[0] == '*' || r[0] == '&' || r[0] == ':' || (if after then r[0] == ' ' else IsIdentifierStart(r[0]))
  {
  }

  /** An identifier in front of something that does not go on with it. */
  lemma NameWord(id: string, t': Token, n: Name, p: Printed)
    requires IsName(id) && t' == Ident(id) && Reads(n, p)
    requires Follows(n) || BreaksWord(n)
    ensures Reads(Word(Ident(id), n), Then(t', p))
  {
    hide Reads, ReadsAs;
    BehindWord(n);
    assert id != "" && !IsSpace(id[0]);
    hide IsName;
    OneWord(Ident(id), t', n, p);
  }

  lemma BehindWord(n: Name)
    requires Follows(n) || BreaksWord(n)
    ensures var r := TextOf(n, true); r == "" || !IsIdentifierContinue(r[0])
  {
  }

  lemma ClosedWord(op: string, n: Name, p: Printed)
    requires IsClosed(op, TextOf(n, false)) && Reads(n, p)
    ensures Reads(Word(Punct(op), n), Then(Punct(op), p))
  {
    hide Reads, IsToken, EndsBefore;
    ClosedEnds(op, TextOf(n, false));
    OneWord(Punct(op), Punct(op), n, p);
  }

  // ---------------------------------------------------------------- heads

  lemma TagReads(n: Name, p: Printed)
    requires Reads(n, p)
    ensures Reads(Word(Ident(ANONYMOUS_GNU), n), Then(Token(AnonymousNamespace, ANONYMOUS_GNU), p))
  {
    hide Reads;
    OneWord(Ident(ANONYMOUS_GNU), Token(AnonymousNamespace, ANONYMOUS_GNU), n, p);
  }

  lemma DestructorReads(id: string, n: Name, p: Printed)
    requires IsName(id) && Follows(n) && Reads(n, p)
    ensures Reads(NameOfHead(Destructor(id), n), ShowHead(Destructor(id), p))
  {
    hide Reads, IsName, Follows;
    NameWord(id, Ident(id), n, p);
    ClosedWord("~", Word(Ident(id), n), Then(Ident(id), p));
  }

  lemma Keywords()
    ensures IsName("new") && IsName("delete") && IsName("decltype") && IsName("auto") && IsName("nullptr")
    ensures IsName("lambda") && IsName("unnamed") && IsName("type")
    ensures IsName("operator") && IsName("co_await")
  {
  }

  /** The keyword in front of an operator. */
  lemma OperatorReads(n: Name, p: Printed)
    requires BreaksWord(n)
    requires Reads(n, p)
    ensures Reads(Word(Ident("operator"), n), Then(Ident("operator"), p))
  {
    hide Reads, IsIdentifierContinue, IsName;
    Keywords();
    NameWord("operator", Ident("operator"), n, p);
  }

  lemma NewDeleteReads(word: string, brackets: bool, n: Name, p: Printed)
    requires (word == "new" || word == "delete") && Follows(n) && Reads(n, p)
    ensures Reads(NameOfHead(NewDeleteOperator(word, brackets), n), ShowHead(NewDeleteOperator(word, brackets), p))
  {
    hide Reads, Follows;
    Keywords();
    hide IsName;
    if brackets {
      ClosedWord("]", n, p);
      var n1, p1 := Word(Punct("]"), n), Then(Punct("]"), p);
      ClosedWord("[", n1, p1);
      NameWord(word, Ident(word), Word(Punct("["), n1), Then(Punct("["), p1));
      OperatorReads(Word(Ident(word), Word(Punct("["), n1)), Then(Ident(word), Then(Punct("["), p1)));
      assert ShowGroup(Square, [], p) == Then(Punct("["), p1);
    } else {
      NameWord(word, Ident(word), n, p);
      OperatorReads(Word(Ident(word), n), Then(Ident(word), p));
    }
  }

  lemma DeducedReads(word: string, n: Name, p: Printed)
    requires (word == "auto" || word == "nullptr") && Follows(n) && Reads(n, p)
    ensures Reads(NameOfHead(DeducedConversion(word), n), ShowHead(DeducedConversion(word), p))
  {
    hide Reads, Follows;
    Keywords();
    assert IsIdentifierStart(word[0]) && word[1] == 'u';
    hide IsName;
    ClosedWord(")", n, p);
    var n1, p1 := Word(Punct(")"), n), Then(Punct(")"), p);
    NameWord(word, Ident(word), n1, p1);
    var n2, p2 := Word(Ident(word), n1), Then(Ident(word), p1);
    WordText(Ident(word), n1);
    ClosedWord("(", n2, p2);
    var n3, p3 := Word(Punct("("), n2), Then(Punct("("), p2);
    NameWord("decltype", Ident("decltype"), n3, p3);
    OperatorReads(Word(Ident("decltype"), n3), Then(Ident("decltype"), p3));
    PrintedTerms.OneTokenGroup(Round, Ident(word), p);
  }

  lemma CoAwaitReads(n: Name, p: Printed)
    requires Follows(n) && Reads(n, p)
    ensures Reads(NameOfHead(CoAwait, n), ShowHead(CoAwait, p))
  {
    hide Reads, Follows;
    Keywords();
    hide IsName;
    NameWord("co_await", Ident("co_await"), n, p);
    OperatorReads(Word(Ident("co_await"), n), Then(Ident("co_await"), p));
  }

  lemma LiteralOperatorReads(suffix: string, n: Name, p: Printed)
    requires IsName(suffix) && Follows(n) && Reads(n, p)
    ensures Reads(NameOfHead(LiteralOperator(suffix), n), ShowHead(LiteralOperator(suffix), p))
  {
    hide Reads, Follows, IsName;
    NameWord(suffix, Ident(suffix), n, p);
    assert IsToken(QUOTES) by { assert QuotedEnd(QUOTES.str, 1, '"') == Some(2); }
    OneWord(QUOTES, QUOTES, Word(Ident(suffix), n), Then(Ident(suffix), p));
    OperatorReads(Word(QUOTES, Word(Ident(suffix), n)), Then(QUOTES, Then(Ident(suffix), p)));
  }

  lemma OperatorSymbolReads(op: string, n: Name, p: Printed)
    requires IsOperator(op) && op != "(" && op != "[" && Reads(n, p) && PunctuationLength(op + TextOf(n, false)) == |op|
    ensures Reads(NameOfHead(OperatorSymbol(op), n), ShowHead(OperatorSymbol(op), p))
  {
    hide Reads;
    assert |op| == 1 ==> op == [op[0]];
    assert op[0] == (op + TextOf(n, false))[0];
    FirstOfTags(op + TextOf(n, false));
    OneWord(Punct(op), Punct(op), n, p);
    OperatorReads(Word(Punct(op), n), Then(Punct(op), p));
  }

  lemma BracketOperatorReads(b: Bracket, n: Name, p: Printed)
    requires b != Curly && Reads(n, p)
    ensures Reads(NameOfHead(BracketOperator(b), n), ShowHead(BracketOperator(b), p))
  {
    hide Reads;
    ClosedWord(Right(b), n, p);
    var n1, p1 := Word(Punct(Right(b)), n), Then(Punct(Right(b)), p);
    WordText(Punct(Right(b)), n);
    ClosedWord(Left(b), n1, p1);
    OperatorReads(Word(Punct(Left(b)), n1), Then(Punct(Left(b)), p1));
    assert ShowGroup(b, [], p) == Then(Punct(Left(b)), p1);
  }

  lemma BehindAngle(t: Token, n: Name)
    requires n.Word? && (if n.token.kind == Identifier then t.kind == Identifier
                         else n.token.str != "" && !IsIdentifierContinue(n.token.str[0]))
    ensures var r := TextOf(n, t.kind == Identifier); r == "" || !IsIdentifierContinue(r[0])
  {
  }

  /** A word in angle brackets, whether it is read as a lambda or not. */
  lemma AngledReads(t: Token, word: string, n: Name, p: Printed)
    requires t.str == word && t.kind != Literal && IsName(word) && Reads(n, p)
    requires n.Word? && (if n.token.kind == Identifier then t.kind == Identifier
                         else n.token.str != "" && !IsIdentifierContinue(n.token.str[0]))
    ensures Reads(Word(Punct("<"), Word(t, n)), Then(Punct("<"), Then(Ident(word), p)))
  {
    hide Reads;
    assert IsIdentifierStart(word[0]) && !IsSpace(word[0]);
    BehindAngle(t, n);
    hide IsName, IsIdentifierContinue;
    OneWord(t, Ident(word), n, p);
    WordText(t, n);
    ClosedWord("<", Word(t, n), Then(Ident(word), p));
  }
}
