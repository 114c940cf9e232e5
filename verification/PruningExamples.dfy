/** What operators and members of templates are pruned to, and where the longest-operator rule of the tokenizer
    keeps a declaration from being parsed. */
module PruningExamples {
  import opened Wrappers
  import opened SymbolLexer
  import opened SymbolGrammar
  import opened PrintedSymbols
  import opened PrintedTexts
  import NameTexts
  import PrintedTerms
  import PruningProof

  // ---------------------------------------------------------------- names

  /** A head with these modifiers behind it. */
  function Only(h: Head, ms: seq<Modifier>): Path {
    Last(Component(Bare(h), [], ms))
  }

  lemma NameOfOnly(h: Head, ms: seq<Modifier>)
    ensures QualifiedName([Only(h, ms)]) == Spell(NameOfHead(h, Nothing), "", false)
  {
    NameOfLast(Bare(h), ms);
  }

  lemma SpellFirst(t: Token, k: Name)
    ensures Spell(Word(t, k), "", false) == Spell(k, t.str, t.kind == Identifier)
  {
    assert "" + "" + t.str == t.str;
  }

  lemma SpellPunctuation(s: string, k: Name, text: string, after: bool)
    ensures Spell(Word(Punct(s), k), text, after) == Spell(k, text + s, false)
  {
    assert text + "" + s == text + s;
  }

  lemma SpellWord(s: string, k: Name, text: string)
    ensures Spell(Word(Ident(s), k), text, true) == Spell(k, text + (" " + s), true)
  {
    assert text + " " + s == text + (" " + s);
  }

  lemma NewDeleteName(word: string, brackets: bool, ms: seq<Modifier>)
    ensures QualifiedName([Only(NewDeleteOperator(word, brackets), ms)])
         == "operator " + word + (if brackets then "[]" else "")
  {
    NameOfOnly(NewDeleteOperator(word, brackets), ms);
    var k := if brackets then Word(Punct("["), Word(Punct("]"), Nothing)) else Nothing;
    SpellFirst(Ident("operator"), Word(Ident(word), k));
    SpellWord(word, k, "operator");
    assert "operator" + (" " + word) == "operator " + word;
    if brackets {
      SpellPunctuation("[", Word(Punct("]"), Nothing), "operator " + word, true);
      SpellPunctuation("]", Nothing, "operator " + word + "[", false);
      assert "operator " + word + "[" + "]" == "operator " + word + "[]";
    } else {
      assert "operator " + word + "" == "operator " + word;
    }
  }

  lemma DeducedName(word: string, ms: seq<Modifier>)
    ensures QualifiedName([Only(DeducedConversion(word), ms)]) == "operator decltype(" + word + ")"
  {
    NameOfOnly(DeducedConversion(word), ms);
    var k3 := Word(Punct(")"), Nothing);
    var k2 := Word(Ident(word), k3);
    var k1 := Word(Punct("("), k2);
    SpellFirst(Ident("operator"), Word(Ident("decltype"), k1));
    SpellWord("decltype", k1, "operator");
    assert "operator" + (" " + "decltype") == "operator decltype";
    SpellPunctuation("(", k2, "operator decltype", true);
    assert "operator decltype" + "(" == "operator decltype(";
    SpellAfter(word, k3, "operator decltype(");
    SpellPunctuation(")", Nothing, "operator decltype(" + word, true);
  }

  lemma SpellAfter(s: string, k: Name, text: string)
    ensures Spell(Word(Ident(s), k), text, false) == Spell(k, text + s, true)
  {
    assert text + "" + s == text + s;
  }

  lemma CoAwaitName(ms: seq<Modifier>)
    ensures QualifiedName([Only(CoAwait, ms)]) == "operator co_await"
  {
    NameOfOnly(CoAwait, ms);
    SpellFirst(Ident("operator"), Word(Ident("co_await"), Nothing));
    SpellWord("co_await", Nothing, "operator");
    assert "operator" + (" " + "co_await") == "operator co_await";
  }

  lemma LiteralOperatorName(suffix: string, ms: seq<Modifier>)
    ensures QualifiedName([Only(LiteralOperator(suffix), ms)]) == "operator\"\"" + suffix
  {
    NameOfOnly(LiteralOperator(suffix), ms);
    SpellFirst(Ident("operator"), Word(QUOTES, Word(Ident(suffix), Nothing)));
    assert "operator" + "" + "\"\"" == "operator\"\"";
    SpellAfter(suffix, Nothing, "operator\"\"");
  }

  lemma OperatorSymbolName(op: string, ms: seq<Modifier>)
    ensures QualifiedName([Only(OperatorSymbol(op), ms)]) == "operator" + op
  {
    NameOfOnly(OperatorSymbol(op), ms);
    SpellFirst(Ident("operator"), Word(Punct(op), Nothing));
    SpellPunctuation(op, Nothing, "operator", true);
  }

  lemma ConversionName(to: Path, ms: seq<Modifier>)
    ensures QualifiedName([Only(Conversion(to), ms)]) == Spell(NameOfPath(to, Nothing), "operator", true)
  {
    NameOfOnly(Conversion(to), ms);
    SpellFirst(Ident("operator"), NameOfPath(to, Nothing));
  }

  /** The names of the operators, whatever groups and qualifiers are printed behind them. */
  lemma OperatorNames(word: string, brackets: bool, suffix: string, op: string, to: Path, ms: seq<Modifier>)
    ensures QualifiedName([Only(NewDeleteOperator(word, brackets), ms)])
         == "operator " + word + (if brackets then "[]" else "")
    ensures QualifiedName([Only(DeducedConversion(word), ms)]) == "operator decltype(" + word + ")"
    ensures QualifiedName([Only(CoAwait, ms)]) == "operator co_await"
    ensures QualifiedName([Only(LiteralOperator(suffix), ms)]) == "operator\"\"" + suffix
    ensures QualifiedName([Only(OperatorSymbol(op), ms)]) == "operator" + op
    ensures QualifiedName([Only(Conversion(to), ms)]) == Spell(NameOfPath(to, Nothing), "operator", true)
  {
    hide *;
    NewDeleteName(word, brackets, ms);
    DeducedName(word, ms);
    CoAwaitName(ms);
    LiteralOperatorName(suffix, ms);
    OperatorSymbolName(op, ms);
    ConversionName(to, ms);
  }

  lemma NameOfLast(b: Base, ms: seq<Modifier>)
    ensures QualifiedName([Last(Component(b, [], ms))]) == Spell(NameOfBase(b, Nothing), "", false)
  {
    hide NameOfBase;
    var c := Component(b, [], ms);
    assert NameOfComponent(c, Nothing) == NameOfBase(b, Nothing);
    assert NameOfPath(Last(c), Nothing) == NameOfComponent(c, Nothing);
  }

  // ---------------------------------------------------------------- the longest operator

  lemma LexOperatorWord(s: string)
    requires s != "" && IsPunctuation1(s[0])
    ensures var whole := "operator" + s;
            Lex(whole) == Ok(Some(Ident("operator"))) && whole[8..] == s && SkipSpace(whole) == whole && SkipSpace(s) == s
  {
    hide Lex, LexIn, IsName, MsvcEnd, QuotedEnd, PunctuationLength, IsPunctuation1, SkipSpace;
    NoWordCharacter(s[0]);
    Words();
    LexIsExact(Ident("operator"), s);
    assert ("operator" + s)[0] == 'o' && !IsSpace('o');
    SkipNone("operator" + s);
    SkipNone(s);
  }

  lemma NoWordCharacter(c: char)
    requires IsPunctuation1(c)
    ensures !IsIdentifierContinue(c) && !IsSpace(c) && c != '`'
  {
  }

  lemma Words()
    ensures IsName("operator") && IsName("void") && IsName("foo") && IsName("S") && IsName("int")
  {
  }

  /** An operator is named by the longest operator that the text starts with. */
  lemma TermOfLongest(s: string, out: Output)
    requires s != "" && IsPunctuation1(s[0]) && s[0] != '(' && s[0] != '['
    ensures var op := s[..PunctuationLength(s)];
            var end := State(SkipSpace(s[|op|..]), AppendOutput(AppendOutput(out, Ident("operator")), Punct(op)));
            Term(State("operator" + s, out)) == Ok((true, end))
  {
    hide Lex, LexIn, AppendOutput, PunctuationLength, IsPunctuation1, SkipSpace;
    var op := s[..PunctuationLength(s)];
    LexOperatorWord(s);
    NoWordCharacter(s[0]);
    FirstOfTags(s);
    TokenByFirst(s);
    hide IsIdentifierContinue, IsSpace, LiteralUpTo, IsStray, IsQuote;
    var st := State("operator" + s, out);
    var st1 := PrintedTerms.AfterOperator(st);
    assert st1 == State(s, AppendOutput(out, Ident("operator")));
    PrintedTerms.OnlyPunctuation(st1, Punct(op));
    hide OperatorName;
    assert op[0] == s[0];
    assert OperatorName(st1) == Ok((true, Emit(Take(st1, Punct(op)), Punct(op))));
    assert AnonymousTag(st) == Ok((false, st));
    assert Operator(st) == OperatorName(st1);
  }

  /** An operator name is recognized exactly if what is printed after it makes no longer operator of it. */
  lemma OperatorIsRecognized(op: string, r: string, out: Output)
    requires IsOperator(op) && op != "(" && op != "["
    ensures var end := State(SkipSpace(r), AppendOutput(AppendOutput(out, Ident("operator")), Punct(op)));
            Term(State("operator" + op + r, out)) == Ok((true, end)) <==> PunctuationLength(op + r) == |op|
  {
    var s := op + r;
    assert "operator" + op + r == "operator" + s;
    FirstOfOperator(op);
    assert s[0] == op[0];
    TermOfLongest(s, out);
    var n := PunctuationLength(s);
    hide Term, PunctuationLength, IsPunctuation1, SkipSpace;
    var o := AppendOutput(out, Ident("operator"));
    if n == |op| {
      assert s[..n] == op && s[n..] == r;
    } else {
      assert |AppendOutput(o, Punct(s[..n])).name| != |AppendOutput(o, Punct(op)).name|;
    }
  }

  lemma FirstOfOperator(op: string)
    requires IsOperator(op) && op != "(" && op != "["
    ensures IsPunctuation1(op[0]) && op[0] != '(' && op[0] != '['
  {
    assert |op| == 1 ==> op == [op[0]];
  }

  /** `<` opens a list exactly if it is not the start of a longer operator, such as `<<` or `<:`. */
  lemma ListIsOpened(r: string, out: Output)
    ensures var st := State("<" + r, out);
            BalancedGroup(st) == Ok((false, st)) <==> PunctuationLength("<" + r) != 1
  {
    var s := "<" + r;
    assert s[0] == '<';
    FirstOfTags(s);
    TokenByFirst(s);
    hide Lex;
    var n := PunctuationLength(s);
    if n == 1 {
      assert s[..1] == "<";
    }
  }

  // ---------------------------------------------------------------- two symbols that are left alone

  /** One more token in front of a text. */
  lemma InFront(t: Token, gap: string, s: string, p: Printed, whole: string)
    requires IsToken(t) && !IsSpace(t.str[0]) && EndsBefore(t, gap + s) && IsGap(gap)
    requires ReadsAs(s, p) && SkipSpace(s) == s && whole == t.str + (gap + s)
    ensures ReadsAs(whole, Then(t, p)) && SkipSpace(whole) == whole
  {
    TokenNotEmpty(t);
    LexIsExact(t, gap + s);
    SkipGap(gap, s);
    assert whole[|t.str|..] == gap + s;
    hide Lex, IsToken, EndsBefore;
    SkipNone(whole);
  }

  lemma NameInFront(id: string, gap: string, s: string, p: Printed, whole: string)
    requires IsName(id) && (gap + s != "" ==> !IsIdentifierContinue((gap + s)[0])) && IsGap(gap)
    requires ReadsAs(s, p) && SkipSpace(s) == s && whole == id + (gap + s)
    ensures ReadsAs(whole, Then(Ident(id), p)) && SkipSpace(whole) == whole
  {
    assert id != "" && !IsSpace(id[0]);
    hide Lex, SkipSpace, IsName, ReadsAs;
    InFront(Ident(id), gap, s, p, whole);
  }

  lemma PunctuationInFront(op: string, gap: string, s: string, p: Printed, whole: string)
    requires IsOperator(op) && whole == op + (gap + s) && PunctuationLength(whole) == |op| && IsGap(gap)
    requires (op != "(" || |whole| < |ANONYMOUS_GNU|) && ReadsAs(s, p) && SkipSpace(s) == s
    ensures ReadsAs(whole, Then(Punct(op), p)) && SkipSpace(whole) == whole
  {
    assert op != "" && !IsSpace(op[0]);
    FirstOfTags(whole);
    assert op[0] == whole[0] && (|op| == 1 ==> op == [op[0]]);
    hide Lex, SkipSpace, ReadsAs;
    InFront(Punct(op), gap, s, p, whole);
  }

  lemma ClosedInFront(op: string, gap: string, s: string, p: Printed)
    requires NameTexts.IsClosed(op, gap + s) && IsGap(gap) && ReadsAs(s, p) && SkipSpace(s) == s
    ensures ReadsAs(op + (gap + s), Then(Punct(op), p)) && SkipSpace(op + (gap + s)) == op + (gap + s)
  {
    hide Lex, SkipSpace, ReadsAs, IsToken, EndsBefore, NameTexts.IsClosed;
    NameTexts.ClosedEnds(op, gap + s);
    InFront(Punct(op), gap, s, p, op + (gap + s));
  }

  lemma StarInFront(gap: string, s: string, p: Printed)
    requires IsGap(gap) && ReadsAs(s, p) && SkipSpace(s) == s && (s != "" ==> s[0] != '=')
    ensures ReadsAs("*" + (gap + s), Then(Punct("*"), p)) && SkipSpace("*" + (gap + s)) == "*" + (gap + s)
  {
    assert gap != "" ==> IsSpace((gap + s)[0]);
    hide ReadsAs, SkipSpace;
    ClosedInFront("*", gap, s, p);
  }

  lemma CloserInFront(s: string, p: Printed)
    requires ReadsAs(s, p) && SkipSpace(s) == s
    ensures ReadsAs(")" + s, Then(Punct(")"), p)) && SkipSpace(")" + s) == ")" + s
  {
    hide ReadsAs, SkipSpace;
    ClosedInFront(")", "", s, p);
    assert ")" + ("" + s) == ")" + s;
  }

  lemma ScopeInFront(s: string, p: Printed)
    requires ReadsAs(s, p) && SkipSpace(s) == s
    ensures ReadsAs("::" + s, Then(Punct("::"), p)) && SkipSpace("::" + s) == "::" + s
  {
    hide ReadsAs, SkipSpace;
    ClosedInFront("::", "", s, p);
    assert "::" + ("" + s) == "::" + s;
  }

  lemma ParenthesisInFront(s: string, p: Printed)
    requires ReadsAs(s, p) && SkipSpace(s) == s && (s != "" ==> s[0] != 'a')
    ensures ReadsAs("(" + s, Then(Punct("("), p)) && SkipSpace("(" + s) == "(" + s
  {
    hide Lex, LexIn, SkipSpace, ReadsAs;
    var whole := "(" + s;
    assert s != "" ==> whole[1] == s[0];
    assert ANONYMOUS_GNU[1] == 'a';
    FirstOfTags(whole);
    assert "" + s == s;
    assert EndsBefore(Punct("("), s);
    InFront(Punct("("), "", s, p, whole);
  }

  lemma WordInFront(id: string, gap: string, s: string, p: Printed)
    requires IsName(id) && IsGap(gap) && ReadsAs(s, p) && SkipSpace(s) == s
    requires gap == "" && s != "" ==> !IsIdentifierContinue(s[0])
    ensures ReadsAs(id + (gap + s), Then(Ident(id), p)) && SkipSpace(id + (gap + s)) == id + (gap + s)
  {
    assert gap != "" ==> IsSpace((gap + s)[0]);
    hide Lex, LexIn, SkipSpace, ReadsAs, IsName;
    NameInFront(id, gap, s, p, id + (gap + s));
  }

  lemma OnlyIsShown(h: Head, p: Printed)
    requires ValidHead(h, p) && EndsPath(p)
    ensures ShowPath(Only(h, []), p) == ShowHead(h, p) && ValidPath(Only(h, []), p)
  {
    hide ValidHead, ShowHead;
    var c := Component(Bare(h), [], []);
    assert ShowRest(c, p) == p;
    assert ShowComponent(c, p) == ShowHead(h, p);
    assert ValidBase(c.base, p);
    assert ValidComponent(c, p);
  }

  function StuckName(id: string, rest: Printed): Path {
    Stuck(Component(Bare(Named(id)), [], []), rest)
  }

  lemma StuckIsShown(id: string, rest: Printed)
    requires IsName(id) && id != "operator" && HopelessAhead(rest)
    ensures ShowPath(StuckName(id, rest), End) == Then(Ident(id), rest) && ValidPath(StuckName(id, rest), End)
  {
    var c := Component(Bare(Named(id)), [], []);
    assert ShowRest(c, rest) == rest;
    assert ShowComponent(c, rest) == ShowHead(Named(id), rest);
    assert ValidHead(Named(id), rest);
    assert ValidBase(c.base, rest);
    assert ValidComponent(c, rest);
  }

  lemma OnePath(x: Path, xs: seq<Path>)
    requires ValidPath(x, ShowPaths(xs)) && (xs == [] || ValidPaths(xs))
    ensures ValidPaths([x] + xs) && ShowPaths([x] + xs) == ShowPath(x, ShowPaths(xs))
    ensures AnyFails([x] + xs) == (Fails(x) || AnyFails(xs))
  {
    hide ValidPath, ShowPath, Fails;
    var all := [x] + xs;
    assert all[1..] == xs && all[0] == x;
    if AnyFails(xs) {
      var y :| y in xs && Fails(y);
      assert y in all;
    }
    assert x in all;
  }

  /** Before a template argument list `operator<` reads as `<<`, and the rest cannot be parsed. */
  lemma LessThanBeforeList()
    ensures Prune("void operator<<S>(S, S)") == "void operator<<S>(S, S)"
  {
    hide *;
    LessThanReads();
    LessThanRestReads();
    LessThanShown(LessThanRest());
    PruningProof.PruneDeclaration("void operator<<S>(S, S)", LessThan(LessThanRest()));
  }

  function LessThan(rest: Printed): seq<Path> {
    [Only(Named("void"), [])] + ([Only(OperatorSymbol("<<"), [])] + ([StuckName("S", rest)] + []))
  }

  lemma LessThanShown(rest: Printed)
    requires HopelessAhead(rest)
    ensures ShowPaths(LessThan(rest))
         == Then(Ident("void"), Then(Ident("operator"), Then(Punct("<<"), Then(Ident("S"), rest))))
    ensures ValidPaths(LessThan(rest)) && AnyFails(LessThan(rest))
  {
    hide ShowPaths, ValidPaths, AnyFails, ShowPath, ValidPath;
    var p1 := Then(Ident("S"), rest);
    var p2 := Then(Ident("operator"), Then(Punct("<<"), p1));
    assert ShowPaths([]) == End by { NoPaths(); }
    StuckIsShown("S", rest);
    OnePath(StuckName("S", rest), []);
    var xs := [StuckName("S", rest)] + [];
    OnlyIsShown(OperatorSymbol("<<"), p1);
    OnePath(Only(OperatorSymbol("<<"), []), xs);
    OnlyIsShown(Named("void"), p2);
    OnePath(Only(Named("void"), []), [Only(OperatorSymbol("<<"), [])] + xs);
  }

  lemma NoPaths()
    ensures ShowPaths([]) == End
  {
  }

  function LessThanRest(): Printed {
    Then(Punct(">"), Then(Punct("("), Then(Ident("S"), Then(Punct(","), Then(Ident("S"), Then(Punct(")"), End))))))
  }

  lemma LessThanRestReads()
    ensures HopelessAhead(LessThanRest())
    ensures ReadsAs(">(S, S)", LessThanRest()) && SkipSpace(">(S, S)") == ">(S, S)"
  {
    hide Lex, LexIn, SkipSpace, ReadsAs;
    var p5 := Then(Ident("S"), Then(Punct(")"), End));
    var p3 := Then(Ident("S"), Then(Punct(","), p5));
    NothingLeft();
    PunctuationInFront(")", "", "", End, ")");
    NameInFront("S", "", ")", Then(Punct(")"), End), "S)");
    PunctuationInFront(",", " ", "S)", p5, ", S)");
    NameInFront("S", "", ", S)", Then(Punct(","), p5), "S, S)");
    PunctuationInFront("(", "", "S, S)", p3, "(S, S)");
    PunctuationInFront(">", "", "(S, S)", Then(Punct("("), p3), ">(S, S)");
  }

  lemma LessThanOperatorReads()
    ensures ReadsAs("operator<<S>(S, S)", Then(Ident("operator"), Then(Punct("<<"), Then(Ident("S"), LessThanRest()))))
    ensures SkipSpace("operator<<S>(S, S)") == "operator<<S>(S, S)"
  {
    hide Lex, LexIn, SkipSpace, ReadsAs, LessThanRest, IsName;
    Words();
    LessThanRestReads();
    var p1 := Then(Ident("S"), LessThanRest());
    NameInFront("S", "", ">(S, S)", LessThanRest(), "S>(S, S)");
    PunctuationInFront("<<", "", "S>(S, S)", p1, "<<S>(S, S)");
    NameInFront("operator", "", "<<S>(S, S)", Then(Punct("<<"), p1), "operator<<S>(S, S)");
  }

  lemma LessThanReads()
    ensures ReadsAs("void operator<<S>(S, S)",
                    Then(Ident("void"), Then(Ident("operator"), Then(Punct("<<"), Then(Ident("S"), LessThanRest())))))
    ensures SkipSpace("void operator<<S>(S, S)") == "void operator<<S>(S, S)"
  {
    hide Lex, LexIn, SkipSpace, ReadsAs, LessThanRest, IsName;
    Words();
    LessThanOperatorReads();
    var p2 := Then(Ident("operator"), Then(Punct("<<"), Then(Ident("S"), LessThanRest())));
    NameInFront("void", " ", "operator<<S>(S, S)", p2, "void operator<<S>(S, S)");
  }

  /** `<:` is an operator too, so a list whose first argument starts with `::` is no list. */
  lemma ScopeFirstInList()
    ensures Prune("foo<::S>()") == "foo<::S>()"
  {
    hide *;
    ScopeFirstReads();
    ScopeFirstShown();
    PruningProof.PruneDeclaration("foo<::S>()", [StuckName("foo", ScopeFirst())] + []);
  }

  function ScopeFirst(): Printed {
    Then(Punct("<:"), Then(Punct(":"), Then(Ident("S"), Then(Punct(">"), Then(Punct("("), Then(Punct(")"), End))))))
  }

  lemma ScopeFirstShown()
    ensures var xs := [StuckName("foo", ScopeFirst())] + [];
            ValidPaths(xs) && AnyFails(xs) && ShowPaths(xs) == Then(Ident("foo"), ScopeFirst())
  {
    NoPaths();
    Words();
    assert HopelessAhead(ScopeFirst());
    hide ShowPaths, ValidPaths, AnyFails, ShowPath, ValidPath;
    StuckIsShown("foo", ScopeFirst());
    OnePath(StuckName("foo", ScopeFirst()), []);
  }

  lemma ScopeFirstReads()
    ensures ReadsAs("foo<::S>()", Then(Ident("foo"), ScopeFirst())) && SkipSpace("foo<::S>()") == "foo<::S>()"
  {
    hide Lex, LexIn, SkipSpace, ReadsAs, IsName;
    Words();
    var p2 := Then(Punct("("), Then(Punct(")"), End));
    var p1 := Then(Ident("S"), Then(Punct(">"), p2));
    NothingLeft();
    PunctuationInFront(")", "", "", End, ")");
    PunctuationInFront("(", "", ")", Then(Punct(")"), End), "()");
    PunctuationInFront(">", "", "()", p2, ">()");
    NameInFront("S", "", ">()", Then(Punct(">"), p2), "S>()");
    PunctuationInFront(":", "", "S>()", p1, ":S>()");
    PunctuationInFront("<:", "", ":S>()", Then(Punct(":"), p1), "<::S>()");
    NameInFront("foo", "", "<::S>()", ScopeFirst(), "foo<::S>()");
  }

  lemma NothingLeft()
    ensures ReadsAs("", End) && SkipSpace("") == ""
  {
  }

  /** Inside a list, too, `operator<` in front of a list reads as `<<`: the outer list ends with the inner one. */
  lemma LessThanInList()
    ensures Prune("foo<&S::operator<<int>(S)>()") == "foo<&S::operator<<int>(S)>()"
  {
    hide *;
    InListReads();
    InListShown();
    PruningProof.PruneDeclaration("foo<&S::operator<<int>(S)>()", [InList()] + []);
  }

  function ItemsInList(): seq<Item> {
    [Single(Punct("&")), Single(Ident("S")), Single(Punct("::")), OperatorThen(Punct("<<")), Single(Ident("int"))]
  }

  /** `>()` */
  function BehindList(): Printed {
    Then(Punct(">"), Then(Punct("("), Then(Punct(")"), End)))
  }

  function InList(): Path {
    Stuck(Component(Bare(Named("foo")), [], [Arguments(ItemsInList()), Group(Round, [Ident("S")])]), BehindList())
  }

  /** `>(S)>()`, the first bracket of which closes the list. */
  function ListTail(): Printed {
    Close(Then(Punct("("), Then(Ident("S"), Then(Punct(")"), BehindList()))))
  }

  function InListTokens(): Printed {
    Then(Ident("foo"), Then(Punct("<"), Then(Punct("&"), Then(Ident("S"), Then(Punct("::"), Then(Ident("operator"),
      Then(Punct("<<"), Then(Ident("int"), ListTail()))))))))
  }

  lemma ItemsShown(p: Printed)
    ensures ShowItems(ItemsInList(), p)
         == Then(Punct("&"), Then(Ident("S"), Then(Punct("::"),
              Then(Ident("operator"), Then(Punct("<<"), Then(Ident("int"), p))))))
  {
    var items := ItemsInList();
    assert items[1..][1..] == items[2..] && items[2..][1..] == items[3..];
    assert items[3..][1..] == items[4..] && items[4..][1..] == [];
    assert ShowItems(items[4..], p) == Then(Ident("int"), p);
    assert ShowItems(items[3..], p) == ShowItem(items[3], ShowItems(items[4..], p));
    assert ShowItems(items[2..], p) == Then(Punct("::"), ShowItems(items[3..], p));
    assert ShowItems(items[1..], p) == Then(Ident("S"), ShowItems(items[2..], p));
  }

  lemma ItemsFit()
    ensures ListFits(ItemsInList(), 0)
  {
    var items := ItemsInList();
    assert items[1..][1..] == items[2..] && items[2..][1..] == items[3..];
    assert items[3..][1..] == items[4..] && items[4..][1..] == [];
    assert ListFits(items[4..], 0);
    assert ListFits(items[3..], 0);
    assert ListFits(items[2..], 0);
    assert ListFits(items[1..], 0);
  }

  lemma InListShown()
    ensures var xs := [InList()] + [];
            ValidPaths(xs) && AnyFails(xs) && ShowPaths(xs) == InListTokens()
  {
    hide ValidPaths, AnyFails, ShowPaths, ShowPath, ValidPath, Fails;
    var x := InList();
    NoPaths();
    InListIsPrinted();
    InListIsValid();
    OnePath(x, []);
    assert Fails(x) by { StuckFails(x); }
  }

  lemma StuckFails(x: Path)
    requires x.Stuck?
    ensures Fails(x)
  {
  }

  lemma InListIsPrinted()
    ensures ShowPath(InList(), End) == InListTokens() && ShowComponent(InList().c, BehindList()) == InListTokens()
  {
    hide ItemsInList, ShowModifier, ShowComponent, ShowGroup;
    var x := InList();
    var ms, q := x.c.modifiers, BehindList();
    var g := Group(Round, [Ident("S")]);
    NamedParts("foo", ms, q, Nothing);
    TwoShown(Arguments(ItemsInList()), g, q);
    OneGroupToken(Ident("S"), q);
    ModifiersShown(ItemsInList(), [Ident("S")], q);
    ItemsShown(ListTail());
    assert ListTail() == Close(ShowGroup(Round, [Ident("S")], q));
    assert ShowPath(x, End) == ShowComponent(x.c, q);
  }

  lemma ModifiersShown(items: seq<Item>, inner: seq<Token>, q: Printed)
    ensures ShowModifier(Group(Round, inner), q) == ShowGroup(Round, inner, q)
    ensures ShowModifier(Arguments(items), q) == Then(Punct("<"), ShowItems(items, Close(q)))
    ensures ShowModifier(Arguments(items), ShowGroup(Round, inner, q))
         == Then(Punct("<"), ShowItems(items, Close(ShowGroup(Round, inner, q))))
  {
    hide ShowGroup, ShowItems;
  }

  lemma InListIsValid()
    ensures ValidPath(InList(), End)
  {
    hide ItemsInList, ListFits, IsName, Fits;
    var x := InList();
    var ms, q := x.c.modifiers, BehindList();
    Words();
    ItemsFit();
    OneFits(Ident("S"));
    TwoShown(ms[0], ms[1], q);
    assert HopelessAhead(q);
    hide HopelessAhead, BehindList, ShowModifiers;
    assert ValidModifier(ms[0]) && ValidModifier(ms[1]);
    assert !PointerShown(ShowModifier(ms[0], ShowModifier(ms[1], q)));
    NamedComponent("foo", ms, q);
  }

  lemma OneFits(t: Token)
    requires t.kind == Identifier
    ensures Fits([t], Round, 0)
  {
    assert [t][1..] == [];
  }

  lemma TwoShown(m: Modifier, m': Modifier, q: Printed)
    ensures ShowModifiers([m, m'], q) == ShowModifier(m, ShowModifier(m', q))
  {
    hide ShowModifier;
    assert [m, m'][1..] == [m'];
    OneShown(m', q);
  }

  lemma OneGroupToken(t: Token, q: Printed)
    ensures ShowGroup(Round, [t], q) == Then(Punct("("), Then(t, Then(Punct(")"), q)))
  {
    assert [t][1..] == [];
    assert ShowTokens([t], Then(Punct(")"), q)) == Then(t, ShowTokens([], Then(Punct(")"), q)));
  }

  lemma BracketInFront(s: string, p: Printed)
    requires ReadsAs(s, p) && SkipSpace(s) == s && (s != "" ==> s[0] != '=' && s[0] != '>')
    ensures ReadsAs(">" + s, Then(Punct(">"), p)) && ReadsAs(">" + s, Close(p)) && SkipSpace(">" + s) == ">" + s
  {
    CloserIsExact(s);
    hide ReadsAs, SkipSpace, LexIn;
    assert "" + s == s;
    ClosedInFront(">", "", s, p);
    CloserReads(s, p);
  }

  lemma CloserReads(s: string, p: Printed)
    requires ReadsAs(s, p) && SkipSpace(s) == s && LexIn(">" + s, true) == Ok(Some(Punct(">")))
    ensures ReadsAs(">" + s, Close(p))
  {
    hide Lex, LexIn, SkipSpace;
    assert (">" + s)[1..] == s;
  }

  lemma ListTailReads()
    ensures ReadsAs(">(S)>()", ListTail()) && SkipSpace(">(S)>()") == ">(S)>()"
  {
    hide Lex, LexIn, SkipSpace, ReadsAs, IsName;
    Words();
    NothingLeft();
    CloserInFront("", End);
    ParenthesisInFront(")" + "", Then(Punct(")"), End));
    var s1, p1 := "(" + (")" + ""), BehindList().more;
    BracketInFront(s1, p1);
    CloserInFront(">" + s1, BehindList());
    var s2, p2 := ")" + (">" + s1), Then(Punct(")"), BehindList());
    WordInFront("S", "", s2, p2);
    ParenthesisInFront("S" + ("" + s2), Then(Ident("S"), p2));
    var s3 := "(" + ("S" + ("" + s2));
    BracketInFront(s3, Then(Punct("("), Then(Ident("S"), p2)));
    assert ">" + s3 == ">(S)>()";
  }

  lemma InListReads()
    ensures ReadsAs("foo<&S::operator<<int>(S)>()", InListTokens())
    ensures SkipSpace("foo<&S::operator<<int>(S)>()") == "foo<&S::operator<<int>(S)>()"
  {
    hide Lex, LexIn, SkipSpace, ReadsAs, IsName, ListTail;
    Words();
    var s0 := ">(S)>()";
    ListTailReads();
    WordInFront("int", "", s0, ListTail());
    var p1 := Then(Ident("int"), ListTail());
    ShiftInFront("int" + ("" + s0), p1);
    var s2, p2 := "<<" + ("int" + ("" + s0)), Then(Punct("<<"), p1);
    WordInFront("operator", "", s2, p2);
    var s3, p3 := "operator" + ("" + s2), Then(Ident("operator"), p2);
    ScopeInFront(s3, p3);
    WordInFront("S", "", "::" + s3, Then(Punct("::"), p3));
    var s4, p4 := "S" + ("" + ("::" + s3)), Then(Ident("S"), Then(Punct("::"), p3));
    ReferenceInFront(s4, p4);
    ListInFront("&" + s4, Then(Punct("&"), p4));
    WordInFront("foo", "", "<" + ("&" + s4), Then(Punct("<"), Then(Punct("&"), p4)));
    InListText(s0);
  }

  lemma InListText(s: string)
    requires s == ">(S)>()"
    ensures "foo" + ("" + ("<" + ("&" + ("S" + ("" + ("::" + ("operator" + ("" + ("<<" + ("int" + ("" + s)))))))))))
         == "foo<&S::operator<<int>(S)>()"
  {
  }

  lemma ShiftInFront(s: string, p: Printed)
    requires ReadsAs(s, p) && SkipSpace(s) == s && (s != "" ==> s[0] != '=')
    ensures ReadsAs("<<" + s, Then(Punct("<<"), p)) && SkipSpace("<<" + s) == "<<" + s
  {
    var whole := "<<" + s;
    assert "" + s == s && whole[0] == '<' && whole[1] == '<' && (s != "" ==> whole[2] == s[0]);
    hide Lex, LexIn, SkipSpace, ReadsAs;
    PunctuationInFront("<<", "", s, p, whole);
  }

  lemma ReferenceInFront(s: string, p: Printed)
    requires ReadsAs(s, p) && SkipSpace(s) == s && (s != "" ==> s[0] != '=' && s[0] != '&')
    ensures ReadsAs("&" + s, Then(Punct("&"), p)) && SkipSpace("&" + s) == "&" + s
  {
    hide ReadsAs, SkipSpace;
    assert "" + s == s;
    ClosedInFront("&", "", s, p);
  }

  lemma ListInFront(s: string, p: Printed)
    requires ReadsAs(s, p) && SkipSpace(s) == s && s != "" && s[0] == '&'
    ensures ReadsAs("<" + s, Then(Punct("<"), p)) && SkipSpace("<" + s) == "<" + s
  {
    var whole := "<" + s;
    assert "" + s == s && whole[0] == '<' && whole[1] == s[0];
    assert PunctuationLength(whole) == 1 && PunctuationLength("<") == 1;
    hide Lex, LexIn, SkipSpace, ReadsAs, PunctuationLength;
    PunctuationInFront("<", "", s, p, whole);
  }

  // ---------------------------------------------------------------- members of templates

  /** A name with modifiers behind it is valid unless they read as a function pointer. */
  lemma NamedComponent(id: string, ms: seq<Modifier>, q: Printed)
    requires IsName(id) && id != "operator" && (forall m | m in ms :: ValidModifier(m)) && (ms != [] ==> !ms[0].Lone?)
    requires !PointerShown(ShowModifiers(ms, q))
    ensures ValidComponent(Component(Bare(Named(id)), [], ms), q)
  {
    hide IsName, ValidModifier;
    var c := Component(Bare(Named(id)), [], ms);
    var p := ShowModifiers(ms, q);
    assert ShowRest(c, q) == p;
    assert ValidHead(Named(id), p);
    assert ValidBase(c.base, p);
  }

  lemma NamedParts(id: string, ms: seq<Modifier>, q: Printed, k: Name)
    ensures var c := Component(Bare(Named(id)), [], ms);
            && ShowComponent(c, q) == Then(Ident(id), ShowModifiers(ms, q))
            && NameOfComponent(c, k) == Word(Ident(id), k) && !BaseFails(c.base)
  {
    var c := Component(Bare(Named(id)), [], ms);
    assert ShowRest(c, q) == ShowModifiers(ms, q);
    assert ShowBase(c.base, ShowRest(c, q)) == ShowHead(Named(id), ShowRest(c, q));
    assert WithTokens([], k) == k;
    assert NameOfBase(c.base, k) == NameOfHead(Named(id), k);
    assert !HeadFails(Named(id));
  }

  lemma OneShown(m: Modifier, q: Printed)
    ensures ShowModifiers([m], q) == ShowModifier(m, q)
  {
    assert [m][1..] == [];
    hide ShowModifier;
  }

  function TemplateMember(a: string, b: string, c: string, items: seq<Item>, inner: seq<Token>): Path {
    Scope(Component(Bare(Named(a)), [], []), false,
          Scope(Component(Bare(Named(b)), [], [Arguments(items)]), false,
                Last(Component(Bare(Named(c)), [], [Group(Round, inner)]))))
  }

  /** `a::b<...>::c(...)` is pruned to `a::b::c`, whatever nests in the list and in the parentheses. */
  lemma TemplateMemberName(text: string, a: string, b: string, c: string, items: seq<Item>, inner: seq<Token>)
    requires IsName(a) && a != "operator" && IsName(b) && b != "operator" && IsName(c) && c != "operator"
    requires ListFits(items, 0) && Fits(inner, Round, 0) && !PointerIn(ShowTokens(inner, Then(Punct(")"), End)))
    requires ReadsAs(SkipSpace(text), ShowPaths([TemplateMember(a, b, c, items, inner)]))
    ensures Prune(text) == a + "::" + b + "::" + c
  {
    hide *;
    TemplateMemberIsValid(a, b, c, items, inner);
    PruningProof.PruneDeclaration(text, [TemplateMember(a, b, c, items, inner)]);
    TemplateMemberSpelling(a, b, c, items, inner);
  }

  lemma TemplateMemberIsValid(a: string, b: string, c: string, items: seq<Item>, inner: seq<Token>)
    requires IsName(a) && a != "operator" && IsName(b) && b != "operator" && IsName(c) && c != "operator"
    requires ListFits(items, 0) && Fits(inner, Round, 0) && !PointerIn(ShowTokens(inner, Then(Punct(")"), End)))
    ensures var xs := [TemplateMember(a, b, c, items, inner)]; ValidPaths(xs) && !AnyFails(xs)
  {
    hide IsName, ListFits, Fits, ValidComponent;
    var x := TemplateMember(a, b, c, items, inner);
    var last := x.next.next;
    var q := ShowScope(false, ShowPath(last, End));
    NamedParts(a, [], q, Nothing);
    NamedParts(b, [Arguments(items)], q, Nothing);
    NamedParts(c, [Group(Round, inner)], q, Nothing);
    OneShown(Group(Round, inner), End);
    OneShown(Arguments(items), q);
    NamedComponent(c, [Group(Round, inner)], End);
    assert ValidPath(last, End);
    NamedComponent(b, [Arguments(items)], q);
    assert ValidPath(x.next, End);
    NamedComponent(a, [], ShowScope(false, ShowPath(x.next, End)));
    assert ValidPath(x, End);
    NoPaths();
    assert [x][1..] == [];
    assert !Fails(last) && !Fails(x.next) && !Fails(x);
  }

  lemma TemplateMemberSpelling(a: string, b: string, c: string, items: seq<Item>, inner: seq<Token>)
    ensures QualifiedName([TemplateMember(a, b, c, items, inner)]) == a + "::" + b + "::" + c
  {
    var x := TemplateMember(a, b, c, items, inner);
    var n1 := Word(Ident(c), Nothing);
    var n2 := Word(Ident(b), Word(Punct("::"), n1));
    var n3 := Word(Punct("::"), n2);
    NamedParts(c, [Group(Round, inner)], End, Nothing);
    NamedParts(b, [Arguments(items)], End, WithScope(false, n1));
    NamedParts(a, [], End, WithScope(false, n2));
    hide NameOfComponent;
    assert NameOfPath(x.next.next, Nothing) == n1;
    assert NameOfPath(x.next, Nothing) == n2;
    assert NameOfPath(x, Nothing) == Word(Ident(a), n3);
    hide NameOfPath;
    SpellFirst(Ident(a), n3);
    SpellPunctuation("::", n2, a, true);
    SpellAfter(b, Word(Punct("::"), n1), a + "::");
    SpellPunctuation("::", n1, a + "::" + b, true);
    SpellAfter(c, Nothing, a + "::" + b + "::");
  }
}
