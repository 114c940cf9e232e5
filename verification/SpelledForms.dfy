/** Forms of symbols spelled out character by character, and the names that they are pruned to. */
module SpelledForms {
  import opened Wrappers
  import opened SymbolLexer
  import opened SymbolGrammar
  import opened PrintedSymbols
  import opened PrintedTexts
  import opened PruningExamples
  import opened Declarators
  import PruningProof

  // ---------------------------------------------------------------- characters

  predicate IsLetter(c: char) {
    'a' <= c <= 'z' || 'A' <= c <= 'Z' || c == '_' || c == '$'
  }

  predicate IsLetterOrDigit(c: char) {
    IsLetter(c) || '0' <= c <= '9'
  }

  predicate IsNumberCharacter(c: char) {
    IsLetterOrDigit(c) || c == '\'' || c == '-' || c == '+' || c == '.'
  }

  predicate IsWord(s: string) {
    s != "" && IsLetter(s[0]) && forall i :: 0 <= i < |s| ==> IsLetterOrDigit(s[i])
  }

  predicate IsDecimal(s: string) {
    s != "" && forall i :: 0 <= i < |s| ==> '0' <= s[i] <= '9'
  }

  lemma WordIsName(s: string)
    ensures IsWord(s) <==> IsName(s)
  {
  }

  /** A word ends where no letter, digit, underscore or dollar sign follows. */
  lemma WordIsRead(w: string, r: string)
    requires IsWord(w)
    ensures Lex(w + r) == Ok(Some(Token(Identifier, w))) <==> r == "" || !IsLetterOrDigit(r[0])
  {
    hide Lex;
    LexIsExact(Ident(w), r);
  }

  /** A number ends where no letter, digit, quote, sign or dot follows. */
  lemma NumberIsRead(n: string, r: string)
    requires n != "" && '0' <= n[0] <= '9' && forall i :: 0 <= i < |n| ==> IsNumberCharacter(n[i])
    ensures Lex(n + r) == Ok(Some(Token(Literal, n))) <==> r == "" || !IsNumberCharacter(r[0])
  {
    hide Lex;
    LexIsExact(Token(Literal, n), r);
  }

  /** Spaces, tabs, line feeds, vertical tabs, form feeds and carriage returns are skipped, and nothing else. */
  lemma SpaceIsSkipped(c: char, r: string)
    ensures SkipSpace([c] + r) == if c as int == 32 || 9 <= c as int <= 13 then SkipSpace(r) else [c] + r
  {
    assert ([c] + r)[1..] == r;
  }

  /** A text of nothing but those is left as it is. */
  lemma {:induction false} SpacesAreLeft(s: string)
    requires forall i :: 0 <= i < |s| ==> s[i] as int == 32 || 9 <= s[i] as int <= 13
    ensures Prune(s) == s && SkipSpace(s) == ""
  {
    if s != "" {
      SpacesAreLeft(s[1..]);
    }
    assert Lex("") == Ok(None);
    hide Lex, Symbol;
    assert FullSymbol(Start(s)) == Ok(Start(s));
  }

  /** The operators and punctuators of two and of three characters. */
  lemma LongOperatorIsRead(op: string)
    requires |op| == 2 || |op| == 3
    ensures Lex(op) == Ok(Some(Token(Punctuation, op))) <==>
              || op in ["<:", ":>", "<%", "%>", "::", ".*", "->", "+=", "-=", "*=", "/=", "%=", "^=", "&=", "|="]
              || op in ["==", "!=", "<=", ">=", "&&", "||", "<<", ">>", "++", "--"]
              || op in ["...", "->*", "<=>", "<<=", ">>="]
  {
    FirstOfTags(op);
    assert !(ANONYMOUS_GNU <= op) && !(ANONYMOUS_MSVC <= op);
    assert |op| == 2 ==> op == [op[0], op[1]];
    assert |op| == 3 ==> op == [op[0], op[1], op[2]];
    assert op[..|op|] == op;
  }

  // ---------------------------------------------------------------- quoted strings

  /** Characters other than the quote, and backslashes with the two characters after them. */
  predicate IsQuotable(s: string, quote: char) {
    || s == ""
    || (s[0] == '\\' && |s| >= 3 && IsQuotable(s[3..], quote))
    || (s[0] != '\\' && s[0] != quote && IsQuotable(s[1..], quote))
  }

  lemma {:induction false} QuotableEnds(s: string, quote: char, before: string, r: string)
    requires IsQuotable(s, quote) && quote != '\\'
    ensures QuotedEnd(before + s + [quote] + r, |before|, quote) == Some(|before| + |s| + 1)
    ensures QuotedEnd(before + s, |before|, quote) == None
    decreases |s|
  {
    var whole, open := before + s + [quote] + r, before + s;
    if s == "" {
      assert whole[|before|] == quote;
    } else {
      var n := if s[0] == '\\' then 3 else 1;
      var before', s' := before + s[..n], s[n..];
      assert whole[|before|] == s[0] && open[|before|] == s[0];
      assert s == s[..n] + s';
      assert before' + s' + [quote] + r == whole && before' + s' == open;
      QuotableEnds(s', quote, before', r);
    }
  }

  /** A quoted string ends at the first quote that no backslash skips, and is an error without one. */
  lemma QuotedIsRead(s: string, quote: char, r: string)
    requires (quote == '\'' || quote == '"') && IsQuotable(s, quote)
    ensures Lex([quote] + s + [quote] + r) == Ok(Some(Token(Literal, [quote] + s + [quote])))
    ensures Lex([quote] + s) == Err(ParseError)
  {
    var whole, open := [quote] + s + [quote] + r, [quote] + s;
    QuotableEnds(s, quote, [quote], r);
    FirstOfTags(whole);
    FirstOfTags(open);
    TokenByFirst(whole);
    TokenByFirst(open);
    assert whole[..|s| + 2] == [quote] + s + [quote];
  }

  // ---------------------------------------------------------------- behind a name

  /** `a::b` with something behind it that is dropped. */
  function Pair(a: string, b: string, ms: seq<Modifier>): Path {
    Scope(Component(Bare(Named(a)), [], []), false, Last(Component(Bare(Named(b)), [], ms)))
  }

  lemma PairShown(a: string, b: string, ms: seq<Modifier>, p: Printed)
    ensures ShowPath(Pair(a, b, ms), p) == Then(Ident(a), Then(Punct("::"), Then(Ident(b), ShowModifiers(ms, p))))
  {
    var last := Last(Component(Bare(Named(b)), [], ms));
    NamedParts(b, ms, p, Nothing);
    NamedParts(a, [], ShowScope(false, ShowPath(last, p)), Nothing);
    assert ShowPath(last, p) == ShowComponent(last.c, p);
  }

  lemma PairSpelled(a: string, b: string, ms: seq<Modifier>)
    ensures QualifiedName([Pair(a, b, ms)]) == a + "::" + b
  {
    var n := Word(Ident(b), Nothing);
    NamedParts(b, ms, End, Nothing);
    NamedParts(a, [], End, WithScope(false, n));
    hide NameOfComponent;
    assert NameOfPath(Pair(a, b, ms).next, Nothing) == n;
    assert NameOfPath(Pair(a, b, ms), Nothing) == Word(Ident(a), Word(Punct("::"), n));
    hide NameOfPath;
    SpellFirst(Ident(a), Word(Punct("::"), n));
    SpellPunctuation("::", n, a, true);
    SpellAfter(b, Nothing, a + "::");
  }

  lemma PairIsValid(a: string, b: string, ms: seq<Modifier>, p: Printed)
    requires IsWord(a) && a != "operator" && IsWord(b) && b != "operator" && EndsPath(p)
    requires (forall m | m in ms :: ValidModifier(m)) && (ms != [] ==> !ms[0].Lone?) && !PointerShown(ShowModifiers(ms, p))
    ensures ValidPath(Pair(a, b, ms), p) && !Fails(Pair(a, b, ms))
  {
    WordIsName(a);
    WordIsName(b);
    hide IsWord, IsName, ValidModifier, ValidComponent, PointerShown, ShowModifiers;
    var x := Pair(a, b, ms);
    NamedParts(b, ms, p, Nothing);
    NamedParts(a, [], p, Nothing);
    NamedComponent(b, ms, p);
    var q := ShowScope(false, ShowPath(x.next, p));
    assert ShowModifiers([], q) == q by { NothingBehind(q); }
    assert !PointerShown(q) by { ScopeIsNoPointer(ShowPath(x.next, p)); }
    NamedComponent(a, [], q);
    assert ValidPath(x.next, p);
    assert !Fails(x.next);
  }

  lemma NothingBehind(p: Printed)
    ensures ShowModifiers([], p) == p
  {
  }

  lemma ScopeIsNoPointer(p: Printed)
    ensures !PointerShown(ShowScope(false, p))
  {
  }

  /** The last symbol of a declaration of one or of two of them. */
  lemma PrunedToLast(text: string, x: Path, y: Path)
    requires ValidPath(x, ShowPath(y, End)) && !Fails(x) && ValidPath(y, End) && !Fails(y)
    requires ReadsAs(SkipSpace(text), ShowPath(x, ShowPath(y, End)))
    ensures Prune(text) == QualifiedName([y])
  {
    hide ValidPath, Fails, ReadsAs, SkipSpace, Prune, ShowPath, QualifiedName;
    NoPaths();
    assert ValidPaths([y] + []) && ShowPaths([y] + []) == ShowPath(y, End) && !AnyFails([y] + []) by {
      OnlyPath(y);
    }
    OnePath(x, [y] + []);
    PruningProof.PruneDeclaration(text, [x] + ([y] + []));
    assert [x] + ([y] + []) == [x] + [y];
    NameOfAppended([x], y);
  }

  lemma OnlyPath(x: Path)
    requires ValidPath(x, End) && !Fails(x)
    ensures ValidPaths([x] + []) && ShowPaths([x] + []) == ShowPath(x, End) && !AnyFails([x] + [])
  {
    NoPaths();
    hide ValidPath, ShowPath, Fails, ValidPaths, AnyFails;
    assert !AnyFails([]) by { NothingFails(); }
    OnePath(x, []);
  }

  lemma NothingFails()
    ensures !AnyFails([])
  {
  }

  lemma PrunedToOnly(text: string, x: Path)
    requires ValidPath(x, End) && !Fails(x) && ReadsAs(SkipSpace(text), ShowPath(x, End))
    ensures Prune(text) == QualifiedName([x])
  {
    hide *;
    OnlyPath(x);
    PruningProof.PruneDeclaration(text, [x] + []);
    assert [x] + [] == [x];
  }

  /** Behind `a::b(...)` exactly the words const, volatile, decltype and noexcept are dropped. Any other word is
      a symbol of its own, and that is what is left. */
  lemma WordBehindName(text: string, a: string, b: string, inner: seq<Token>, word: string)
    requires IsWord(a) && a != "operator" && IsWord(b) && b != "operator" && IsWord(word) && word != "operator"
    requires Fits(inner, Round, 0) && !PointerIn(ShowTokens(inner, Then(Punct(")"), Then(Ident(word), End))))
    requires ReadsAs(SkipSpace(text), Then(Ident(a), Then(Punct("::"), Then(Ident(b),
               Then(Punct("("), ShowTokens(inner, Then(Punct(")"), Then(Ident(word), End))))))))
    ensures Prune(text) == if word in ["const", "volatile", "decltype", "noexcept"] then a + "::" + b else word
  {
    var group, p := Group(Round, inner), Then(Ident(word), End);
    GroupBehind(inner, word);
    hide ReadsAs, SkipSpace, Prune, IsWord, Fits, PointerShown, ShowModifiers;
    if word in ["const", "volatile", "decltype", "noexcept"] {
      assert ValidModifier(Qualifier(word));
      hide *;
      AllDropped(text, a, b, [group, Qualifier(word)]);
    } else {
      assert EndsPath(p);
      hide *;
      SymbolBehind(text, a, b, [group], word);
    }
  }

  lemma AllDropped(text: string, a: string, b: string, ms: seq<Modifier>)
    requires IsWord(a) && a != "operator" && IsWord(b) && b != "operator"
    requires (forall m | m in ms :: ValidModifier(m)) && (ms != [] ==> !ms[0].Lone?) && !PointerShown(ShowModifiers(ms, End))
    requires ReadsAs(SkipSpace(text), Then(Ident(a), Then(Punct("::"), Then(Ident(b), ShowModifiers(ms, End)))))
    ensures Prune(text) == a + "::" + b
  {
    assert EndsPath(End);
    hide *;
    PairShown(a, b, ms, End);
    PairIsValid(a, b, ms, End);
    PrunedToOnly(text, Pair(a, b, ms));
    PairSpelled(a, b, ms);
  }

  lemma SymbolBehind(text: string, a: string, b: string, ms: seq<Modifier>, word: string)
    requires IsWord(a) && a != "operator" && IsWord(b) && b != "operator" && IsWord(word) && word != "operator"
    requires var p := Then(Ident(word), End); EndsPath(p) && !PointerShown(ShowModifiers(ms, p))
    requires (forall m | m in ms :: ValidModifier(m)) && (ms != [] ==> !ms[0].Lone?)
    requires ReadsAs(SkipSpace(text), Then(Ident(a), Then(Punct("::"), Then(Ident(b), ShowModifiers(ms, Then(Ident(word), End))))))
    ensures Prune(text) == word
  {
    hide ReadsAs, SkipSpace, Prune, IsWord, PointerShown, ShowModifiers, ShowPath, ValidPath, Fails, QualifiedName, Pair;
    var p, y := Then(Ident(word), End), Only(Named(word), []);
    WordIsName(word);
    OnlyIsShown(Named(word), End);
    NamedNeverFails(word);
    PairShown(a, b, ms, p);
    PairIsValid(a, b, ms, p);
    PrunedToLast(text, Pair(a, b, ms), y);
    CallName(word, []);
  }

  lemma NamedNeverFails(id: string)
    ensures !Fails(Only(Named(id), [])) && ShowHead(Named(id), End) == Then(Ident(id), End)
  {
    NamedParts(id, [], End, Nothing);
  }

  lemma GroupBehind(inner: seq<Token>, word: string)
    requires Fits(inner, Round, 0) && !PointerIn(ShowTokens(inner, Then(Punct(")"), Then(Ident(word), End))))
    ensures var group, p := Group(Round, inner), Then(Ident(word), End);
            && ValidModifier(group) && ShowModifiers([group], p) == ShowGroup(Round, inner, p)
            && ShowModifiers([group, Qualifier(word)], End) == ShowGroup(Round, inner, p)
            && !PointerShown(ShowGroup(Round, inner, p))
  {
    var p := Then(Ident(word), End);
    OneShown(Group(Round, inner), p);
    TwoShown(Group(Round, inner), Qualifier(word), End);
    GroupShown(inner, p);
  }

  /** Behind `a::b(...)` exactly the pointers `*`, `&` and `&&` are dropped. With any other operator that opens
      nothing there, the text cannot be parsed and is left as it is. */
  lemma OperatorBehindName(text: string, a: string, b: string, inner: seq<Token>, op: string)
    requires IsWord(a) && a != "operator" && IsWord(b) && b != "operator"
    requires op !in ["(", "[", "{", "<", "::", "~", ")"]
    requires Fits(inner, Round, 0) && !PointerIn(ShowTokens(inner, Then(Punct(")"), Then(Punct(op), End))))
    requires ReadsAs(SkipSpace(text), Then(Ident(a), Then(Punct("::"), Then(Ident(b),
               Then(Punct("("), ShowTokens(inner, Then(Punct(")"), Then(Punct(op), End))))))))
    ensures Prune(text) == if op in ["*", "&", "&&"] then a + "::" + b else text
  {
    var group, p := Group(Round, inner), Then(Punct(op), End);
    GroupAndOperator(inner, op);
    hide ReadsAs, SkipSpace, Prune, IsWord, Fits, PointerShown, ShowModifiers;
    if op in ["*", "&", "&&"] {
      assert ValidModifier(Lone(Punct(op)));
      hide *;
      AllDropped(text, a, b, [group, Lone(Punct(op))]);
    } else {
      assert HopelessAhead(p);
      hide *;
      StuckPairIsValid(a, b, [group], p);
      StuckIsLeft(text, StuckPair(a, b, [group], p));
    }
  }

  lemma GroupAndOperator(inner: seq<Token>, op: string)
    requires Fits(inner, Round, 0) && !PointerIn(ShowTokens(inner, Then(Punct(")"), Then(Punct(op), End))))
    ensures var group, p := Group(Round, inner), Then(Punct(op), End);
            && ValidModifier(group) && ShowModifiers([group], p) == ShowGroup(Round, inner, p)
            && ShowModifiers([group, Lone(Punct(op))], End) == ShowGroup(Round, inner, p)
            && !PointerShown(ShowGroup(Round, inner, p))
  {
    var p := Then(Punct(op), End);
    OneShown(Group(Round, inner), p);
    TwoShown(Group(Round, inner), Lone(Punct(op)), End);
    GroupShown(inner, p);
  }

  function StuckPair(a: string, b: string, ms: seq<Modifier>, rest: Printed): Path {
    Scope(Component(Bare(Named(a)), [], []), false, Stuck(Component(Bare(Named(b)), [], ms), rest))
  }

  lemma StuckPairIsValid(a: string, b: string, ms: seq<Modifier>, rest: Printed)
    requires IsWord(a) && a != "operator" && IsWord(b) && b != "operator" && HopelessAhead(rest)
    requires (forall m | m in ms :: ValidModifier(m)) && (ms != [] ==> !ms[0].Lone?) && !PointerShown(ShowModifiers(ms, rest))
    ensures var x := StuckPair(a, b, ms, rest);
            && ValidPath(x, End) && Fails(x)
            && ShowPath(x, End) == Then(Ident(a), Then(Punct("::"), Then(Ident(b), ShowModifiers(ms, rest))))
  {
    WordIsName(a);
    WordIsName(b);
    hide IsWord, IsName, ValidModifier, ValidComponent, PointerShown, ShowModifiers;
    var x := StuckPair(a, b, ms, rest);
    NamedParts(b, ms, rest, Nothing);
    NamedComponent(b, ms, rest);
    assert ShowPath(x.next, End) == ShowComponent(x.next.c, rest);
    var q := ShowScope(false, ShowPath(x.next, End));
    NamedParts(a, [], q, Nothing);
    assert ShowModifiers([], q) == q by { NothingBehind(q); }
    assert !PointerShown(q) by { ScopeIsNoPointer(ShowPath(x.next, End)); }
    NamedComponent(a, [], q);
    assert ValidPath(x.next, End);
    assert Fails(x.next);
  }

  lemma StuckIsLeft(text: string, x: Path)
    requires ValidPath(x, End) && Fails(x) && ReadsAs(SkipSpace(text), ShowPath(x, End))
    ensures Prune(text) == text
  {
    hide ValidPath, Fails, ReadsAs, SkipSpace, Prune, ShowPath;
    NoPaths();
    assert [x][1..] == [];
    assert x in [x];
    PruningProof.PruneDeclaration(text, [x]);
  }

  // ---------------------------------------------------------------- declarators

  /** The words and pointers of a declarator in front of the name in it. */
  lemma DeclaratorIsPruned(text: string, t: string, front: seq<Token>, f: string, inner: seq<Token>, arguments: seq<Token>)
    requires IsWord(t) && t != "operator" && IsWord(f) && f !in RESERVED
    requires IsPointerOrNot(front) && Fits(inner, Round, 0) && Fits(arguments, Round, 0)
    requires !PointerIn(ShowTokens(inner, Then(Punct(")"), Then(Punct(")"), ShowGroup(Round, arguments, End)))))
    requires ReadsAs(SkipSpace(text), Then(Ident(t), ShowGroup(Round, front + CallTokens(f, inner), ShowGroup(Round, arguments, End))))
    ensures Prune(text) == if ValidPointer(front) then f else t
  {
    var outer := [Group(Round, arguments)];
    var d := Function(t, [], [], front, f, inner, outer);
    var ts := front + CallTokens(f, inner);
    WordIsName(t);
    WordIsName(f);
    OneShown(outer[0], End);
    GroupShown(arguments, End);
    GroupIsModifier(arguments);
    hide ReadsAs, SkipSpace, Prune, IsWord, IsName, Fits, IsPointerOrNot, ValidPointer, ShowTokens, ShowGroup, PointerIn, ShowModifiers;
    assert ValidFunction(t, [], [], front, f, inner, outer);
    TypePrinted(t, [], ShowGroup(Round, ts, d.Behind()));
    NothingBehindTokens(ShowGroup(Round, ts, d.Behind()));
    assert d.IsGroupedIn(text, ts);
    FunctionName(text, t, [], [], front, f, inner, outer);
    NothingSpelled(t);
  }

  const RESERVED := ["operator", "const", "volatile", "decltype", "noexcept",
                     "__cdecl", "__clrcall", "__stdcall", "__fastcall", "__thiscall", "__vectorcall"]

  /** In `t (word * f(...))(...)` exactly the six Microsoft calling conventions are read over: the function's name
      is left. With any other word the name of the type is. */
  lemma ConventionInDeclarator(text: string, t: string, word: string, p: string, f: string, inner: seq<Token>,
                               arguments: seq<Token>)
    requires IsWord(t) && t != "operator" && IsWord(word) && p in ["*", "&", "&&"] && IsWord(f) && f !in RESERVED
    requires Fits(inner, Round, 0) && Fits(arguments, Round, 0)
    requires !PointerIn(ShowTokens(inner, Then(Punct(")"), Then(Punct(")"), ShowGroup(Round, arguments, End)))))
    requires ReadsAs(SkipSpace(text), Then(Ident(t), Then(Punct("("), Then(Ident(word), Then(Punct(p),
               Then(Ident(f), ShowGroup(Round, inner, Then(Punct(")"), ShowGroup(Round, arguments, End)))))))))
    ensures Prune(text) ==
              if word in ["__cdecl", "__clrcall", "__stdcall", "__fastcall", "__thiscall", "__vectorcall"] then f else t
  {
    var front := [Ident(word), Punct(p)];
    ConventionFront(word, p);
    ShownInFront(front, f, inner, ShowGroup(Round, arguments, End));
    hide *;
    DeclaratorIsPruned(text, t, front, f, inner, arguments);
  }

  /** In `t (p f(...))(...)` exactly `*`, `&` and `&&` are pointers. */
  lemma PointerInDeclarator(text: string, t: string, p: string, f: string, inner: seq<Token>, arguments: seq<Token>)
    requires IsWord(t) && t != "operator" && p != "(" && p != ")" && IsWord(f) && f !in RESERVED
    requires Fits(inner, Round, 0) && Fits(arguments, Round, 0)
    requires !PointerIn(ShowTokens(inner, Then(Punct(")"), Then(Punct(")"), ShowGroup(Round, arguments, End)))))
    requires ReadsAs(SkipSpace(text), Then(Ident(t), Then(Punct("("), Then(Punct(p),
               Then(Ident(f), ShowGroup(Round, inner, Then(Punct(")"), ShowGroup(Round, arguments, End))))))))
    ensures Prune(text) == if p in ["*", "&", "&&"] then f else t
  {
    var front := [Punct(p)];
    PointerFront(p);
    ShownInFront(front, f, inner, ShowGroup(Round, arguments, End));
    hide *;
    DeclaratorIsPruned(text, t, front, f, inner, arguments);
  }

  lemma ConventionFront(word: string, p: string)
    requires p in ["*", "&", "&&"]
    ensures var front := [Ident(word), Punct(p)];
            && IsPointerOrNot(front)
            && (ValidPointer(front) <==>
                  word in ["__cdecl", "__clrcall", "__stdcall", "__fastcall", "__thiscall", "__vectorcall"])
  {
    var front := [Ident(word), Punct(p)];
    assert front[1..] == [Punct(p)] && [Punct(p)][1..] == [];
    assert ValidPointer(front[1..]);
    assert Fits(front[1..], Round, 0);
  }

  lemma PointerFront(p: string)
    requires p != "(" && p != ")"
    ensures IsPointerOrNot([Punct(p)]) && (ValidPointer([Punct(p)]) <==> p in ["*", "&", "&&"])
  {
    assert [Punct(p)][1..] == [];
  }

  lemma ShownInFront(front: seq<Token>, f: string, inner: seq<Token>, p: Printed)
    requires |front| == 1 || |front| == 2
    ensures var call := Then(Ident(f), ShowGroup(Round, inner, Then(Punct(")"), p)));
            ShowGroup(Round, front + CallTokens(f, inner), p)
              == Then(Punct("("), Then(front[0], if |front| == 1 then call else Then(front[1], call)))
  {
    var q := Then(Punct(")"), p);
    TokensAppended(front, CallTokens(f, inner), q);
    CallShown(f, inner, q);
    hide CallTokens;
    if |front| == 1 {
      assert front == [front[0]];
      OneTokenShown(front[0], ShowTokens(CallTokens(f, inner), q));
    } else {
      assert front[1..] == [front[1]];
      OneTokenShown(front[1], ShowTokens(CallTokens(f, inner), q));
    }
  }
}
