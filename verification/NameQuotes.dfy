/** A name in quotes is one token: its backquotes and quotes balance. */
module NameQuotes {
  import opened Wrappers
  import opened SymbolLexer
  import opened SymbolGrammar
  import opened PrintedSymbols
  import opened PrintedTexts
  import opened PrunedNames

  // ---------------------------------------------------------------- balanced text

  /** Depth after scanning s; 0 as soon as every backquote is closed. */
  function Walk(s: string, depth: nat): nat {
    if s == "" then depth
    else
      var d := depth + Nesting(s[0]);
      if d <= 0 then 0 else Walk(s[1..], d)
  }

  /** Scanning s from inside a string leaves it at the same depth. */
  ghost predicate Neutral(s: string) {
    forall depth: nat | depth > 0 :: Walk(s, depth) == depth
  }

  lemma {:induction false} WalkThrough(a: string, b: string, depth: nat)
    requires depth > 0 && Walk(a, depth) > 0
    ensures Walk(a + b, depth) == Walk(b, Walk(a, depth))
  {
    if a == "" {
      assert a + b == b;
    } else {
      assert (a + b)[1..] == a[1..] + b;
      WalkThrough(a[1..], b, depth + Nesting(a[0]));
    }
  }

  lemma NeutralConcat(a: string, b: string)
    requires Neutral(a) && Neutral(b)
    ensures Neutral(a + b)
  {
    forall depth: nat | depth > 0
      ensures Walk(a + b, depth) == depth
    {
      WalkThrough(a, b, depth);
    }
  }

  predicate QuoteFree(s: string) {
    forall i :: 0 <= i < |s| ==> s[i] != '`' && s[i] != '\''
  }

  lemma {:induction false} NeutralQuoteFree(s: string)
    requires QuoteFree(s)
    ensures Neutral(s)
  {
    if s != "" {
      NeutralQuoteFree(s[1..]);
    }
  }

  lemma NeutralEnclosed(s: string)
    requires Neutral(s)
    ensures Neutral("`" + s + "'")
  {
    var t := "`" + s + "'";
    assert t[0] == '`' && t[1..] == s + "'";
    forall depth: nat | depth > 0
      ensures Walk(t, depth) == depth
    {
      WalkThrough(s, "'", depth + 1);
    }
  }

  /** The scan of an MSVC string passes over anything that walks back to where it was. */
  lemma {:induction false} MsvcScansThrough(s: string, i: nat, inner: string, depth: nat)
    requires depth > 0 && Walk(inner, depth) > 0
    requires i + |inner| < |s| && s[i..i + |inner|] == inner
    ensures MsvcEnd(s, i, depth) == MsvcEnd(s, i + |inner|, Walk(inner, depth))
    decreases |inner|
  {
    if inner != "" {
      assert s[i] == inner[0];
      assert s[i + 1..i + |inner|] == inner[1..];
      MsvcScansThrough(s, i + 1, inner[1..], depth + Nesting(inner[0]));
    }
  }

  lemma {:induction false} ScanWalks(s: string, i: nat, depth: nat, e: nat)
    requires i < |s| && s[|s| - 1] == '\'' && depth > 0 && MsvcEnd(s, i, depth) == Some(|s|)
    ensures Walk(s[i..|s| - 1], depth + e) == 1 + e
    decreases |s| - i
  {
    if i < |s| - 1 {
      ScanWalks(s, i + 1, depth + Nesting(s[i]), e);
      assert s[i..|s| - 1][1..] == s[i + 1..|s| - 1];
    }
  }

  /** Text in quotes is a whole string exactly if it is neutral, the tag aside. */
  lemma EnquotedIsLiteral(text: string)
    ensures IsMsvcLiteral(Enquoted(text).str) <==> Neutral(text) && text != "anonymous namespace"
  {
    var s := Enquoted(text).str;
    assert s[0] == '`' && s[1..1 + |text|] == text && s[1 + |text|] == '\'';
    if Neutral(text) {
      MsvcScansThrough(s, 1, text, 1);
      assert MsvcEnd(s, 0, 0) == MsvcEnd(s, 1, 1) == MsvcEnd(s, 1 + |text|, 1) == Some(|s|);
    }
    if MsvcEnd(s, 0, 0) == Some(|s|) {
      LiteralIsNeutral(text);
    }
    TagText(text);
  }

  lemma LiteralIsNeutral(text: string)
    requires var s := Enquoted(text).str; MsvcEnd(s, 0, 0) == Some(|s|)
    ensures Neutral(text)
  {
    var s := Enquoted(text).str;
    assert s[0] == '`' && s[1..1 + |text|] == text && s[1 + |text|] == '\'';
    forall depth: nat | depth > 0
      ensures Walk(text, depth) == depth
    {
      ScanWalks(s, 1, 1, depth - 1);
    }
  }

  lemma TagText(text: string)
    ensures Enquoted(text).str == ANONYMOUS_MSVC <==> text == "anonymous namespace"
  {
    var s := Enquoted(text).str;
    assert s[1..|s| - 1] == text;
    assert ANONYMOUS_MSVC[1..20] == "anonymous namespace";
    assert ANONYMOUS_MSVC == "`" + "anonymous namespace" + "'";
  }

  // ---------------------------------------------------------------- names are balanced

  /** Every word is neutral, but for text between quotes. */
  ghost predicate IsNeutral(n: Name) {
    match n
    case Nothing => true
    case Restart(more) => IsNeutral(more)
    case Word(t, more) =>
      if t == Punct("`") then
        more.Word? && more.more.Word? && more.more.token == Punct("'") && more.token.kind == Punctuation
        && Neutral(more.token.str) && IsNeutral(more.more.more)
      else Neutral(t.str) && IsNeutral(more)
  }

  lemma {:induction false} NeutralSpelling(n: Name, text: string, after: bool)
    requires IsNeutral(n) && Neutral(text)
    ensures Neutral(Spell(n, text, after))
    decreases n
  {
    hide Neutral;
    NeutralBlanks();
    match n
    case Nothing =>
    case Restart(more) => NeutralSpelling(more, "", false);
    case Word(t, more) =>
      if t == Punct("`") {
        var inner := more.token.str;
        NeutralEnclosed(inner);
        NeutralConcat(text, "`" + inner + "'");
        SpellQuoted(inner, more.more.more, text, after);
        NeutralSpelling(more.more.more, text + ("`" + inner + "'"), false);
      } else {
        var isIdentifier := t.kind == Identifier;
        var separator := if isIdentifier && after then " " else "";
        NeutralConcat(text, separator);
        NeutralConcat(text + separator, t.str);
        NeutralSpelling(more, text + separator + t.str, isIdentifier);
      }
  }

  lemma SpellQuoted(inner: string, k: Name, text: string, after: bool)
    ensures Spell(InQuotes(inner, k), text, after) == Spell(k, text + ("`" + inner + "'"), false)
  {
    var k1 := Word(Punct("'"), k);
    var k2 := Word(Punct(inner), k1);
    assert Spell(InQuotes(inner, k), text, after) == Spell(k2, text + "" + "`", false);
    assert Spell(k2, text + "" + "`", false) == Spell(k1, text + "" + "`" + "" + inner, false);
    assert Spell(k1, text + "" + "`" + "" + inner, false) == Spell(k, text + "" + "`" + "" + inner + "" + "'", false);
    assert text + "" + "`" + "" + inner + "" + "'" == text + ("`" + inner + "'");
  }

  lemma NeutralBlanks()
    ensures Neutral("") && Neutral(" ")
  {
    NeutralQuoteFree("");
    NeutralQuoteFree(" ");
  }

  lemma PlainWord(t: Token, k: Name)
    requires QuoteFree(t.str) && IsNeutral(k)
    ensures IsNeutral(Word(t, k))
  {
    NeutralQuoteFree(t.str);
    if t.str != "" {
      assert t.str[0] != '`';
    }
  }

  lemma NoQuotes(s: string)
    requires IsName(s) || IsNumber(s) || IsOperator(s)
    ensures QuoteFree(s)
  {
  }

  lemma FixedWords()
    ensures QuoteFree("operator") && QuoteFree("decltype") && QuoteFree("co_await") && QuoteFree("lambda")
    ensures QuoteFree("unnamed") && QuoteFree("type") && QuoteFree(ANONYMOUS_GNU) && QuoteFree("\"\"")
    ensures QuoteFree("<") && QuoteFree(">") && QuoteFree("#") && QuoteFree("~") && QuoteFree("[") && QuoteFree("]")
    ensures QuoteFree("(") && QuoteFree(")") && QuoteFree("{") && QuoteFree("}") && QuoteFree("::") && QuoteFree("*")
    ensures QuoteFree("&") && QuoteFree("&&") && QuoteFree("new") && QuoteFree("delete") && QuoteFree("auto")
    ensures QuoteFree("nullptr")
  {
  }

  lemma NeutralLambda(isUnnamed: bool, number: string, k: Name)
    requires IsNumber(number) && IsNeutral(k)
    ensures IsNeutral(NameOfHead(BracedLambda(isUnnamed, [], number), k))
  {
    hide IsNeutral, QuoteFree, IsNumber;
    FixedWords();
    NoQuotes(number);
    PlainWord(Punct(">"), k);
    var k1 := Word(Punct(">"), k);
    PlainWord(Token(Literal, number), k1);
    var k2 := Word(Token(Literal, number), k1);
    PlainWord(Punct("#"), k2);
    var k3 := Word(Punct("#"), k2);
    PlainWord(Ident("lambda"), k3);
    PlainWord(Punct("<"), Word(Ident("lambda"), k3));
    PlainWord(Ident("type"), k3);
    var k4 := Word(Ident("type"), k3);
    PlainWord(Ident("unnamed"), k4);
    PlainWord(Punct("<"), Word(Ident("unnamed"), k4));
  }

  lemma NeutralAngled(t: Token, k: Name)
    requires IsName(t.str) && IsNeutral(k)
    ensures IsNeutral(Word(Punct("<"), Word(t, Word(Punct(">"), k))))
  {
    hide IsNeutral, QuoteFree, IsName;
    FixedWords();
    NoQuotes(t.str);
    PlainWord(Punct(">"), k);
    PlainWord(t, Word(Punct(">"), k));
    PlainWord(Punct("<"), Word(t, Word(Punct(">"), k)));
  }

  lemma NeutralNamedOperator(h: Head, k: Name)
    requires IsNamedOperator(h)
    requires SoundHead(h) && IsNeutral(k)
    ensures IsNeutral(NameOfHead(h, k))
  {
    hide IsNeutral, QuoteFree, IsName, IsOperator;
    FixedWords();
    match h
    case NewDeleteOperator(word, brackets) =>
      PlainWord(Punct("]"), k);
      var k1 := Word(Punct("]"), k);
      PlainWord(Punct("["), k1);
      var k2 := if brackets then Word(Punct("["), k1) else k;
      PlainWord(Ident(word), k2);
      PlainWord(Ident("operator"), Word(Ident(word), k2));
    case DeducedConversion(word) =>
      PlainWord(Punct(")"), k);
      var k1 := Word(Punct(")"), k);
      PlainWord(Ident(word), k1);
      var k2 := Word(Ident(word), k1);
      PlainWord(Punct("("), k2);
      PlainWord(Ident("decltype"), Word(Punct("("), k2));
      PlainWord(Ident("operator"), Word(Ident("decltype"), Word(Punct("("), k2)));
    case CoAwait =>
      PlainWord(Ident("co_await"), k);
      PlainWord(Ident("operator"), Word(Ident("co_await"), k));
    case LiteralOperator(suffix) =>
      NoQuotes(suffix);
      PlainWord(Ident(suffix), k);
      PlainWord(QUOTES, Word(Ident(suffix), k));
      PlainWord(Ident("operator"), Word(QUOTES, Word(Ident(suffix), k)));
    case OperatorSymbol(op) =>
      NoQuotes(op);
      PlainWord(Punct(op), k);
      PlainWord(Ident("operator"), Word(Punct(op), k));
    case BracketOperator(b) =>
      PlainWord(Punct(Right(b)), k);
      PlainWord(Punct(Left(b)), Word(Punct(Right(b)), k));
      PlainWord(Ident("operator"), Word(Punct(Left(b)), Word(Punct(Right(b)), k)));
  }

  lemma NeutralQuoted(text: string, k: Name)
    requires Neutral(text) && IsNeutral(k)
    ensures IsNeutral(InQuotes(text, k))
  {
    hide Neutral;
  }

  lemma {:induction false} NeutralHead(h: Head, k: Name)
    requires SoundHead(h) && IsNeutral(k)
    ensures IsNeutral(NameOfHead(h, k))
    decreases h, 0
  {
    hide IsNeutral, QuoteFree, IsName, IsNumber, Neutral, SoundPath, NameOfPath, Lex;
    FixedWords();
    match h
    case Tag(_) => PlainWord(Ident(ANONYMOUS_GNU), k);
    case Named(id) =>
      NoQuotes(id);
      PlainWord(Ident(id), k);
    case Destructor(id) =>
      NoQuotes(id);
      PlainWord(Ident(id), k);
      PlainWord(Punct("~"), Word(Ident(id), k));
    case BracedLambda(isUnnamed, _, number) => NeutralLambda(isUnnamed, number, k);
    case QuotedLambda(word) => NeutralAngled(Punct(word), k);
    case AngledLambda(word) => NeutralAngled(Ident(word), k);
    case Ordinal(number) =>
      NoQuotes(number);
      NeutralQuoteFree(number);
      NeutralQuoted(number, k);
    case Enclosed(text, inner) =>
      EnclosedIsNeutral(text, inner);
      NeutralQuoted(if AnyFails(inner) then text else QualifiedName(inner), k);
    case Conversion(to) =>
      NeutralPath(to, k);
      PlainWord(Ident("operator"), NameOfPath(to, k));
    case MemberConversion(to, of) =>
      NeutralPath(of, k);
      NeutralPath(to, NameOfPath(of, k));
      PlainWord(Ident("operator"), NameOfPath(to, NameOfPath(of, k)));
    case _ => NeutralNamedOperator(h, k);
  }

  lemma {:induction false} EnclosedIsNeutral(text: string, inner: seq<Path>)
    requires ValidPaths(inner) && Lex(Enquoted(text).str) == Ok(Some(Enquoted(text)))
    ensures Neutral(if AnyFails(inner) then text else QualifiedName(inner))
    decreases inner, 5
  {
    hide Lex, Neutral, IsNeutral;
    if AnyFails(inner) {
      EnquotedIsToken(text);
      EnquotedIsLiteral(text);
    } else {
      NeutralDeclaration(inner);
    }
  }

  lemma EnquotedIsToken(text: string)
    requires Lex(Enquoted(text).str) == Ok(Some(Enquoted(text)))
    ensures IsMsvcLiteral(Enquoted(text).str)
  {
    var t := Enquoted(text);
    assert t.str[0] == '`' && t.str + "" == t.str;
    LexIsExact(t, "");
    TokenAtBackquote(t);
  }

  lemma {:induction false} NeutralDeclaration(xs: seq<Path>)
    requires ValidPaths(xs) && !AnyFails(xs)
    ensures Neutral(QualifiedName(xs))
    decreases xs, 4
  {
    hide Neutral, IsNeutral, ValidPath, Fails, NameOfPath;
    var x := xs[|xs| - 1];
    LastIsValid(xs);
    assert x in xs;
    ValidIsSound(x, End);
    assert IsNeutral(Nothing) && Neutral("") by { NeutralNothing(); }
    NeutralPath(x, Nothing);
    NeutralSpelling(NameOfPath(x, Nothing), "", false);
  }

  lemma NeutralNothing()
    ensures IsNeutral(Nothing) && Neutral("")
  {
    NeutralBlanks();
  }

  lemma {:induction false} LastIsValid(xs: seq<Path>)
    requires ValidPaths(xs)
    ensures ValidPath(xs[|xs| - 1], End)
  {
    hide ValidPath;
    if |xs| > 1 {
      LastIsValid(xs[1..]);
    }
  }

  lemma {:induction false} NeutralReferences(ts: seq<Token>, k: Name)
    requires (forall t | t in ts :: IsPointerRef(t)) && IsNeutral(k)
    ensures IsNeutral(WithTokens(ts, k))
  {
    hide IsNeutral, QuoteFree;
    FixedWords();
    if ts != [] {
      NeutralReferences(ts[1..], k);
      assert IsPointerRef(ts[0]);
      PlainWord(ts[0], WithTokens(ts[1..], k));
    }
  }

  lemma {:induction false} NeutralComponent(c: Component, k: Name)
    requires SoundComponent(c) && IsNeutral(k)
    ensures IsNeutral(NameOfComponent(c, k))
    decreases c, 2
  {
    hide SoundHead, NameOfHead;
    var n := WithTokens(c.refs, k);
    NeutralReferences(c.refs, k);
    match c.base
    case Bare(h) =>
      if IsDeclaring(h) {
        NeutralConversion(h, n);
      } else {
        NeutralHead(h, n);
      }
    case Declarator(_, inner) => NeutralPath(inner, n);
    case TypedDeclarator(_, _, inner) => NeutralPath(inner, n);
  }

  lemma {:induction false} NeutralConversion(h: Head, k: Name)
    requires IsDeclaring(h) && SoundBase(Bare(h)) && IsNeutral(k)
    ensures IsNeutral(NameOfHead(h, k))
    decreases h, 0
  {
    hide IsNeutral, QuoteFree, SoundPath, IsPointerFree, NameOfPath;
    FixedWords();
    NeutralPath(TypeOf(h), k);
    if h.MemberConversion? {
      NeutralPath(h.to, NameOfPath(h.of, k));
      PlainWord(Ident("operator"), NameOfPath(h.to, NameOfPath(h.of, k)));
    } else {
      PlainWord(Ident("operator"), NameOfPath(h.to, k));
    }
  }

  lemma NeutralScope(star: bool, k: Name)
    requires IsNeutral(k)
    ensures IsNeutral(WithScope(star, k))
  {
    hide IsNeutral, QuoteFree;
    FixedWords();
    PlainWord(Punct("*"), k);
    PlainWord(Punct("::"), if star then Word(Punct("*"), k) else k);
  }

  lemma {:induction false} NeutralPath(x: Path, k: Name)
    requires SoundPath(x) && IsNeutral(k)
    ensures IsNeutral(NameOfPath(x, k))
    decreases x, 3
  {
    hide SoundComponent, NameOfComponent, IsNeutral;
    match x
    case Last(c) => NeutralComponent(c, k);
    case Member(c) =>
      NeutralScope(true, k);
      NeutralComponent(c, WithScope(true, k));
    case Scope(c, star, next) =>
      NeutralPath(next, k);
      NeutralScope(star, NameOfPath(next, k));
      NeutralComponent(c, WithScope(star, NameOfPath(next, k)));
  }
}
