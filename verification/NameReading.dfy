/** The text of a name reads as its renamed path. */
module NameReading {
  import opened SymbolLexer
  import opened SymbolGrammar
  import opened PrintedSymbols
  import opened PrintedTexts
  import opened PrunedNames
  import opened NameTexts
  import opened NameQuotes
  import opened RenamedPaths

  // ---------------------------------------------------------------- names read as renamed paths

  lemma QuotedReads(text: string, n: Name, p: Printed)
    requires IsMsvcLiteral(Enquoted(text).str) && Reads(n, p)
    ensures Reads(InQuotes(text, n), Then(Enquoted(text), p))
  {
    hide IsMsvcLiteral;
    var t := Enquoted(text);
    assert t.str[0] == '`';
    TokenAtBackquote(t);
    OneWord(Punct(t.str), t, n, p);
    QuotedText(text, n);
  }

  lemma QuotedText(text: string, n: Name)
    ensures TextOf(InQuotes(text, n), false) == TextOf(Word(Punct(Enquoted(text).str), n), false)
    ensures TextOf(InQuotes(text, n), true) == TextOf(Word(Punct(Enquoted(text).str), n), true)
  {
    var r := TextOf(n, false);
    assert TextOf(Word(Punct("'"), n), false) == "" + ("'" + r);
    assert TextOf(Word(Punct(text), Word(Punct("'"), n)), false) == "" + (text + ("" + ("'" + r)));
    assert "`" + ("" + (text + ("" + ("'" + r)))) == "`" + text + "'" + r;
  }

  lemma NumberReads(number: string, n: Name, p: Printed)
    requires IsNumber(number) && Reads(n, p)
    ensures Reads(Word(Punct("#"), Word(Token(Literal, number), Word(Punct(">"), n))),
                  Then(Punct("#"), Then(Token(Literal, number), Then(Punct(">"), p))))
    requires var r := TextOf(n, false); r == "" || (r[0] != '=' && r[0] != '>')
  {
    hide Reads;
    ClosedWord(">", n, p);
    var n1, p1 := Word(Punct(">"), n), Then(Punct(">"), p);
    WordText(Punct(">"), n);
    assert IsToken(Token(Literal, number)) && !IsSpace(number[0]);
    hide IsNumber;
    OneWord(Token(Literal, number), Token(Literal, number), n1, p1);
    ClosedWord("#", Word(Token(Literal, number), n1), Then(Token(Literal, number), p1));
  }

  function BracedTokens(isUnnamed: bool, number: string, p: Printed): Printed {
    var tail := Then(Punct("#"), Then(Token(Literal, number), Then(Punct(">"), p)));
    Then(Punct("<"), if isUnnamed then Then(Ident("unnamed"), Then(Ident("type"), tail)) else Then(Ident("lambda"), tail))
  }

  function BracedWords(isUnnamed: bool, number: string, n: Name): Name {
    var tail := Word(Punct("#"), Word(Token(Literal, number), Word(Punct(">"), n)));
    Word(Punct("<"), if isUnnamed then Word(Ident("unnamed"), Word(Ident("type"), tail)) else Word(Ident("lambda"), tail))
  }

  lemma BracedReads(isUnnamed: bool, number: string, n: Name, p: Printed)
    requires IsNumber(number) && Follows(n) && Reads(n, p)
    ensures Reads(BracedWords(isUnnamed, number, n), BracedTokens(isUnnamed, number, p))
  {
    hide Reads, IsNumber, IsName, TextOf;
    StartOfFollower(n, false);
    NumberReads(number, n, p);
    Keywords();
    var n1 := Word(Punct("#"), Word(Token(Literal, number), Word(Punct(">"), n)));
    var p1 := Then(Punct("#"), Then(Token(Literal, number), Then(Punct(">"), p)));
    if isUnnamed {
      NameWord("type", Ident("type"), n1, p1);
      AngledReads(Ident("unnamed"), "unnamed", Word(Ident("type"), n1), Then(Ident("type"), p1));
    } else {
      AngledReads(Ident("lambda"), "lambda", n1, p1);
    }
  }

  lemma BracedShows(isUnnamed: bool, number: string, p: Printed)
    ensures ShowHead(BracedName(isUnnamed, number), p) == BracedTokens(isUnnamed, number, p)
  {
    var tail := [Punct("#"), Token(Literal, number), Punct(">")];
    ThreeShown(tail, p);
    assert ([Ident("type")] + tail)[1..] == tail;
    assert ShowTokens([Ident("type")] + tail, p) == Then(Ident("type"), ShowTokens(tail, p));
  }

  lemma ThreeShown(ts: seq<Token>, p: Printed)
    requires |ts| == 3
    ensures ShowTokens(ts, p) == Then(ts[0], Then(ts[1], Then(ts[2], p)))
  {
    assert ts[1..][1..] == ts[2..] && ts[2..][1..] == [];
    assert ShowTokens(ts[2..], p) == Then(ts[2], p);
    assert ShowTokens(ts[1..], p) == Then(ts[1], ShowTokens(ts[2..], p));
  }

  lemma AngledWordReads(t: Token, word: string, n: Name, p: Printed)
    requires t.str == word && t.kind != Literal && IsName(word) && Follows(n) && Reads(n, p)
    ensures Reads(Word(Punct("<"), Word(t, Word(Punct(">"), n))), Then(Punct("<"), Then(Ident(word), Then(Punct(">"), p))))
  {
    hide Reads, IsName, TextOf;
    StartOfFollower(n, false);
    hide Follows;
    ClosedWord(">", n, p);
    AngledReads(t, word, Word(Punct(">"), n), Then(Punct(">"), p));
  }

  lemma QuotedShows(word: string, p: Printed)
    ensures ShowHead(QuotedName(word), p) == Then(Punct("<"), Then(Ident(word), Then(Punct(">"), p)))
  {
    assert [Punct(">")][1..] == [];
    assert ShowTokens([Punct(">")], p) == Then(Punct(">"), p);
  }

  /** Heads that hold no path. */
  lemma PlainHeadReads(h: Head, n: Name, p: Printed)
    requires SoundHead(h) && !h.Conversion? && !h.MemberConversion? && !h.Enclosed? && Follows(n) && Reads(n, p)
    requires h.OperatorSymbol? ==> PunctuationLength(h.op + TextOf(n, false)) == |h.op|
    ensures Reads(NameOfHead(h, n), ShowHead(RenamedHead(h, p), p))
  {
    hide Reads, Follows, IsName, IsNumber, IsOperator, TextOf;
    match h
    case Tag(_) => TagReads(n, p);
    case Named(id) => NameWord(id, Ident(id), n, p);
    case Destructor(id) => DestructorReads(id, n, p);
    case NewDeleteOperator(word, brackets) => NewDeleteReads(word, brackets, n, p);
    case DeducedConversion(word) => DeducedReads(word, n, p);
    case CoAwait => CoAwaitReads(n, p);
    case LiteralOperator(suffix) => LiteralOperatorReads(suffix, n, p);
    case OperatorSymbol(op) => OperatorSymbolReads(op, n, p);
    case BracketOperator(b) => BracketOperatorReads(b, n, p);
    case BracedLambda(isUnnamed, _, number) =>
      BracedReads(isUnnamed, number, n, p);
      BracedShows(isUnnamed, number, p);
    case Ordinal(number) =>
      NumberIsLiteral(number);
      QuotedReads(number, n, p);
    case QuotedLambda(word) =>
      AngledWordReads(Punct(word), word, n, p);
      QuotedShows(word, p);
    case AngledLambda(word) => AngledWordReads(Ident(word), word, n, p);
  }

  lemma NumberIsLiteral(number: string)
    requires IsNumber(number)
    ensures IsMsvcLiteral(Enquoted(number).str)
  {
    NoQuotes(number);
    NeutralQuoteFree(number);
    EnquotedIsLiteral(number);
    assert number[0] != "anonymous namespace"[0];
  }

  // ---------------------------------------------------------------- names of paths

  lemma {:induction false} UnbrokenTokens(ts: seq<Token>, n: Name)
    requires IsUnbroken(n)
    ensures IsUnbroken(WithTokens(ts, n))
  {
    if ts != [] {
      UnbrokenTokens(ts[1..], n);
    }
  }

  lemma FirstIsSound(x: Path)
    requires SoundPath(x) && IsPointerFree(x)
    ensures x.c.base.Bare? && SoundHead(x.c.base.head) && AreReferences(x.c.refs)
    ensures x.c.refs != [] ==> !x.c.base.head.OperatorSymbol?
    ensures IsOpenEnded(x.c) ==> x.Last? && x.c.refs == []
    ensures !x.Stuck? && (x.Scope? ==> SoundPath(x.next) && IsPointerFree(x.next))
  {
    hide SoundHead;
    assert SoundComponent(x.c);
    assert SoundBase(x.c.base);
  }

  lemma {:induction false} UnbrokenPath(x: Path, n: Name)
    requires IsPointerFree(x) && IsUnbroken(n)
    ensures IsUnbroken(NameOfPath(x, n))
    decreases x, 3
  {
    hide NameOfHead;
    var k := NameBehind(x, n);
    if x.Scope? {
      UnbrokenPath(x.next, n);
    }
    assert IsUnbroken(k);
    UnbrokenTokens(x.c.refs, k);
    UnbrokenHead(x.c.base.head, WithTokens(x.c.refs, k));
    NameOfFirst(x, n);
  }

  lemma ThreeUnbroken(t1: Token, t2: Token, t3: Token, n: Name)
    requires IsUnbroken(n)
    ensures IsUnbroken(Word(t1, Word(t2, Word(t3, n))))
  {
    assert IsUnbroken(Word(t2, Word(t3, n)));
  }

  lemma {:induction false} UnbrokenHead(h: Head, n: Name)
    requires !IsDeclaring(h) && IsUnbroken(n)
    ensures IsUnbroken(NameOfHead(h, n))
    decreases h, 0
  {
    match h
    case Tag(_) =>
    case Named(_) =>
    case Destructor(_) =>
    case CoAwait =>
    case OperatorSymbol(_) =>
    case Unreadable(_, _) =>
    case NewDeleteOperator(word, brackets) => ThreeUnbroken(Ident(word), Punct("["), Punct("]"), n);
    case DeducedConversion(word) =>
      ThreeUnbroken(Punct("("), Ident(word), Punct(")"), n);
      assert IsUnbroken(Word(Ident("decltype"), Word(Punct("("), Word(Ident(word), Word(Punct(")"), n)))));
    case LiteralOperator(suffix) => ThreeUnbroken(Ident("operator"), QUOTES, Ident(suffix), n);
    case BracketOperator(b) => ThreeUnbroken(Ident("operator"), Punct(Left(b)), Punct(Right(b)), n);
    case BracedLambda(isUnnamed, _, number) =>
      var tail := Word(Punct("#"), Word(Token(Literal, number), Word(Punct(">"), n)));
      ThreeUnbroken(Punct("#"), Token(Literal, number), Punct(">"), n);
      ThreeUnbroken(Punct("<"), Ident("unnamed"), Ident("type"), tail);
      assert IsUnbroken(Word(Ident("lambda"), tail));
    case QuotedLambda(word) => ThreeUnbroken(Punct("<"), Punct(word), Punct(">"), n);
    case AngledLambda(word) => ThreeUnbroken(Punct("<"), Ident(word), Punct(">"), n);
    case Enclosed(text, inner) =>
      ThreeUnbroken(Punct("`"), Punct(if AnyFails(inner) then text else QualifiedName(inner)), Punct("'"), n);
    case Ordinal(number) => ThreeUnbroken(Punct("`"), Punct(number), Punct("'"), n);
    case Conversion(to) => UnbrokenPath(to, n);
    case MemberConversion(to, of) =>
      UnbrokenPath(of, n);
      UnbrokenPath(to, NameOfPath(of, n));
  }

  lemma NameOfFirst(x: Path, n: Name)
    requires x.c.base.Bare?
    ensures NameOfPath(x, n) == NameOfHead(x.c.base.head, WithTokens(x.c.refs, NameBehind(x, n)))
  {
    hide NameOfHead;
    var k := NameBehind(x, n);
    assert NameOfComponent(x.c, k) == NameOfHead(x.c.base.head, WithTokens(x.c.refs, k));
  }

  /** What may start a name. */
  predicate StartsName(n: Name) {
    && n.Word?
    && (|| IsNameWord(n.token) || n.token == Ident(ANONYMOUS_GNU)
        || n.token == Punct("~") || n.token == Punct("<") || n.token == Punct("`"))
  }

  lemma HeadStartsName(h: Head, n: Name)
    requires SoundHead(h)
    ensures StartsName(NameOfHead(h, n))
    ensures h.Named? || NameOfHead(h, n).token.str[0] != 'a'
  {
    Keywords();
  }

  lemma PathStartsName(x: Path, n: Name)
    requires SoundPath(x) && IsPointerFree(x)
    ensures StartsName(NameOfPath(x, n))
  {
    FirstIsSound(x);
    NameOfFirst(x, n);
    HeadStartsName(x.c.base.head, WithTokens(x.c.refs, NameBehind(x, n)));
  }

  /** The first character of a name goes on with nothing. */
  lemma StartOfName(n: Name)
    requires StartsName(n)
    ensures var r := TextOf(n, false); r != "" && r[0] != '=' && r[0] != ':' && r[0] != '>' && r[0] != '&'
    ensures BreaksWord(n)
  {
  }

  predicate FollowsName(n: Name) {
    FollowsType(n) || (n.Word? && n.token == Punct("::"))
  }

  lemma {:induction false} ReferencesRead(ts: seq<Token>, n: Name, p: Printed)
    requires AreReferences(ts) && FollowsName(n) && Reads(n, p)
    ensures Reads(WithTokens(ts, n), ShowTokens(Regrouped(ts), p)) && Follows(WithTokens(ts, n))
  {
    hide Reads, TextOf, Regrouped, FollowsName;
    RegroupedAreApart(ts);
    ReferencesApartRead(Regrouped(ts), n, p);
    RegroupedText(ts, n, false);
    RegroupedText(ts, n, true);
    SameReads(WithTokens(Regrouped(ts), n), WithTokens(ts, n), ShowTokens(Regrouped(ts), p));
    ReferencesFollow(ts, n);
  }

  lemma ReferencesFollow(ts: seq<Token>, n: Name)
    requires AreReferences(ts) && FollowsName(n)
    ensures Follows(WithTokens(ts, n))
  {
    if ts != [] {
      assert IsPointerRef(ts[0]);
    }
  }

  lemma {:induction false} ReferencesApartRead(ts: seq<Token>, n: Name, p: Printed)
    requires AreApart(ts) && FollowsName(n) && Reads(n, p)
    ensures Reads(WithTokens(ts, n), ShowTokens(ts, p))
    decreases |ts|
  {
    hide Reads, IsName;
    if ts != [] {
      var k := WithTokens(ts[1..], n);
      ReferencesApartRead(ts[1..], n, p);
      ApartAreReferences(ts);
      ReferencesFollow(ts[1..], n);
      StartOfFollower(k, false);
      BehindReference(ts, n);
      ClosedWord(ts[0].str, k, ShowTokens(ts[1..], p));
    }
  }

  lemma BehindReference(ts: seq<Token>, n: Name)
    requires AreApart(ts) && ts != [] && FollowsName(n)
    ensures IsClosed(ts[0].str, TextOf(WithTokens(ts[1..], n), false))
  {
    if |ts| == 1 {
      assert ts[1..] == [];
      NoReferenceFirst(n);
    } else {
      assert AreApart(ts[1..]);
    }
  }

  lemma NoReferenceFirst(n: Name)
    requires FollowsName(n)
    ensures var r := TextOf(n, false); r != "" ==> r[0] != '&' && r[0] != '='
  {
  }

  // ---------------------------------------------------------------- operators in front of a scope

  lemma OperatorBeforeScope(op: string, r: string)
    requires IsOperator(op) && "::" <= r
    ensures if PunctuationLength(op + "::") == |op| then PunctuationLength(op + r) == |op|
            else IsOperator(op + ":") && PunctuationLength(op + r) == |op| + 1
  {
    var s, s', s'' := op + r, op + "::", op + ":";
    assert s[0] == s'[0] == s''[0] == op[0];
    assert |op| >= 2 ==> s[1] == s'[1] == s''[1] == op[1];
    assert |op| >= 3 ==> s[2] == s'[2] == s''[2] == op[2];
    assert s[|op|] == s'[|op|] == s''[|op|] == ':';
    assert s[|op| + 1] == s'[|op| + 1] == ':';
  }

  lemma MergedReads(op: string, n: Name, p: Printed)
    requires IsOperator(op) && op != "(" && op != "[" && PunctuationLength(op + "::") != |op| && Reads(n, p)
    requires var r := TextOf(n, false); r == "" || (r[0] != ':' && r[0] != '>')
    ensures Reads(NameOfHead(OperatorSymbol(op), Word(Punct("::"), n)),
                  Then(Ident("operator"), Then(Punct(op + ":"), Then(Punct(":"), p))))
  {
    hide Reads, IsOperator, TextOf, PunctuationLength;
    var r := TextOf(n, false);
    ColonReads(n, p);
    var n1, p1 := Word(Punct(":"), n), Then(Punct(":"), p);
    MergedText(op, n);
    OperatorBeforeScope(op, "::" + r);
    assert (op + ":") + (":" + r) == op + ("::" + r);
    MergedFirst(op);
    OperatorSymbolReads(op + ":", n1, p1);
    var n2, n2' := Word(Punct(op + ":"), n1), Word(Punct(op), Word(Punct("::"), n));
    KeywordText(n2, n2');
    SameReads(Word(Ident("operator"), n2), Word(Ident("operator"), n2'), Then(Ident("operator"), Then(Punct(op + ":"), p1)));
  }

  lemma KeywordText(n: Name, n': Name)
    requires TextOf(n, true) == TextOf(n', true)
    ensures TextOf(Word(Ident("operator"), n), false) == TextOf(Word(Ident("operator"), n'), false)
    ensures TextOf(Word(Ident("operator"), n), true) == TextOf(Word(Ident("operator"), n'), true)
  {
  }

  lemma SameReads(n: Name, n': Name, p: Printed)
    requires Reads(n, p) && TextOf(n, false) == TextOf(n', false) && TextOf(n, true) == TextOf(n', true)
    ensures Reads(n', p)
  {
    hide TextOf;
  }

  lemma MergedFirst(op: string)
    requires IsOperator(op) && op != "(" && op != "["
    ensures op + ":" != "(" && op + ":" != "["
  {
    assert |op + ":"| >= 2;
  }

  lemma ColonReads(n: Name, p: Printed)
    requires Reads(n, p) && (var r := TextOf(n, false); r == "" || (r[0] != ':' && r[0] != '>'))
    ensures Reads(Word(Punct(":"), n), Then(Punct(":"), p))
  {
    hide Reads;
    var r := TextOf(n, false);
    var s := ":" + r;
    assert s[0] == ':' && (r != "" ==> s[1] == r[0]);
    FirstOfTags(s);
    OneWord(Punct(":"), Punct(":"), n, p);
  }

  lemma MergedText(op: string, n: Name)
    ensures var n1, r := Word(Punct(":"), n), TextOf(n, false);
            && TextOf(n1, false) == ":" + r
            && TextOf(Word(Punct(op + ":"), n1), true) == TextOf(Word(Punct(op), Word(Punct("::"), n)), true)
  {
    var r := TextOf(n, false);
    assert ":" + r == "" + (":" + r) && "::" + r == "" + ("::" + r);
    assert op + ":" + (":" + r) == op + ("::" + r);
  }

  // ---------------------------------------------------------------- the qualified name

  /** The path that a qualified name is the name of. */
  function CoreOfLast(xs: seq<Path>): Path
    requires xs != []
  {
    Core(xs[|xs| - 1], Stop)
  }

  lemma NameOfCore(xs: seq<Path>)
    requires ValidPaths(xs) && !AnyFails(xs)
    ensures var x := CoreOfLast(xs);
            SoundPath(x) && IsPointerFree(x) && QualifiedName(xs) == TextOf(NameOfPath(x, Nothing), false)
  {
    hide ValidPath, Fails, Core, NameOfPath, SoundPath, IsPointerFree;
    var x := xs[|xs| - 1];
    LastIsValid(xs);
    assert x in xs;
    ValidIsSound(x, End);
    CoreIsSound(x, Stop);
    CoreName(x, Stop, Nothing, "", false);
    UnbrokenPath(CoreOfLast(xs), Nothing);
    SpellIsText(NameOfPath(CoreOfLast(xs), Nothing), "", false);
    assert "" + TextOf(NameOfPath(CoreOfLast(xs), Nothing), false) == TextOf(NameOfPath(CoreOfLast(xs), Nothing), false);
  }

  lemma NamedIsNoTag(id: string, n: Name)
    requires IsName(id) && (n.Nothing? || (n.Word? && (IsPointerRef(n.token) || n.token == Punct("::"))))
    ensures TextOf(Word(Ident(id), n), false) != "anonymous namespace"
  {
    var tag, r := "anonymous namespace", TextOf(n, true);
    var s := id + r;
    assert TextOf(Word(Ident(id), n), false) == "" + s == s;
    if |s| == |tag| {
      if r == "" {
        assert s[9] == id[9] && tag[9] == ' ';
      } else {
        assert s[|id|] == r[0];
        TagCharacter(|id|);
      }
    }
  }

  lemma TagCharacter(i: nat)
    requires i < 19
    ensures var c := "anonymous namespace"[i]; c != '*' && c != '&' && c != ':'
  {
  }

  lemma PathIsNoTag(x: Path)
    requires SoundPath(x) && IsPointerFree(x)
    ensures TextOf(NameOfPath(x, Nothing), false) != "anonymous namespace"
  {
    FirstIsSound(x);
    var h, n := x.c.base.head, WithTokens(x.c.refs, NameBehind(x, Nothing));
    NameOfFirst(x, Nothing);
    hide SoundPath, SoundHead, NameOfPath, IsName;
    if h.Named? {
      assert IsName(h.id) by { NamedIsName(h); }
      NamedIsNoTag(h.id, n);
    } else {
      HeadStartsName(h, n);
      FirstCharacter(NameOfHead(h, n));
      assert "anonymous namespace"[0] == 'a';
    }
  }

  lemma NamedIsName(h: Head)
    requires SoundHead(h) && h.Named?
    ensures IsName(h.id)
  {
  }

  lemma FirstCharacter(n: Name)
    requires StartsName(n)
    ensures n.token.str != "" && TextOf(n, false) != "" && TextOf(n, false)[0] == n.token.str[0]
  {
  }

  lemma NameIsLiteral(xs: seq<Path>)
    requires ValidPaths(xs) && !AnyFails(xs)
    ensures IsMsvcLiteral(Enquoted(QualifiedName(xs)).str)
  {
    hide *;
    NotEmpty(xs);
    NeutralDeclaration(xs);
    NameOfCore(xs);
    PathIsNoTag(CoreOfLast(xs));
    EnquotedIsLiteral(QualifiedName(xs));
  }

  // ---------------------------------------------------------------- reading a name

  lemma EnclosedReads(text: string, inner: seq<Path>, n: Name, p: Printed)
    requires SoundHead(Enclosed(text, inner)) && Reads(n, p)
    ensures Reads(NameOfHead(Enclosed(text, inner), n), ShowHead(RenamedHead(Enclosed(text, inner), p), p))
  {
    hide Reads, ValidPaths, AnyFails, QualifiedName, IsMsvcLiteral, Renamed, Core, Lex;
    if AnyFails(inner) {
      EnquotedIsToken(text);
      QuotedReads(text, n, p);
    } else {
      assert inner != [] by { NotEmpty(inner); }
      NameIsLiteral(inner);
      QuotedReads(QualifiedName(inner), n, p);
    }
  }

  lemma NotEmpty(xs: seq<Path>)
    requires ValidPaths(xs)
    ensures xs != []
  {
  }

  lemma {:induction false} HeadReads(h: Head, n: Name, p: Printed)
    requires SoundHead(h) && Follows(n) && Reads(n, p)
    requires h.Conversion? && !EndsInMember(h.to) ==> FollowsType(n)
    requires h.MemberConversion? && !EndsInMember(h.of) ==> FollowsType(n)
    requires h.OperatorSymbol? ==> PunctuationLength(h.op + TextOf(n, false)) == |h.op|
    ensures Reads(NameOfHead(h, n), ShowHead(RenamedHead(h, p), p))
    decreases SizeOfHead(h)
  {
    hide Reads, SoundPath, Renamed, ShowPath, NameOfPath, FirstOf, Follows, FollowsType;
    match h
    case Conversion(to) =>
      PathReads(to, n, p);
      PathStartsName(to, n);
      StartOfName(NameOfPath(to, n));
      OperatorReads(NameOfPath(to, n), ShowPath(Renamed(to, p), p));
    case MemberConversion(to, of) =>
      PathReads(of, n, p);
      var n1, p1 := NameOfPath(of, n), ShowPath(Renamed(of, p), p);
      IdentifierFollows(of, n);
      PathReads(to, n1, p1);
      PathStartsName(to, n1);
      StartOfName(NameOfPath(to, n1));
      OperatorReads(NameOfPath(to, n1), ShowPath(Renamed(to, p1), p1));
    case Enclosed(text, inner) => EnclosedReads(text, inner, n, p);
    case _ => PlainHeadReads(h, n, p);
  }

  /** A path that starts with an identifier has a name that does. */
  lemma IdentifierFollows(x: Path, n: Name)
    requires SoundPath(x) && IsPointerFree(x) && FirstOf(x).Some? && FirstOf(x).value.kind == Identifier
    ensures FollowsType(NameOfPath(x, n))
  {
    FirstIsSound(x);
    NameOfFirst(x, n);
    var h := x.c.base.head;
    FirstIsFirst(x);
    hide SoundPath, NameOfPath;
    HeadStartsName(h, WithTokens(x.c.refs, NameBehind(x, n)));
    IdentifierHead(h, WithTokens(x.c.refs, NameBehind(x, n)), ShowRest(x.c, Behind(x, End)));
  }

  lemma FirstIsFirst(x: Path)
    requires x.c.base.Bare?
    ensures ShowPath(x, End) == ShowHead(x.c.base.head, ShowRest(x.c, Behind(x, End)))
  {
    hide ShowHead, ShowRest;
    assert ShowPath(x, End) == ShowComponent(x.c, Behind(x, End));
    assert ShowPath(x, End) == ShowBase(x.c.base, ShowRest(x.c, Behind(x, End)));
  }

  lemma IdentifierHead(h: Head, n: Name, p: Printed)
    requires SoundHead(h) && ShowHead(h, p).Then? && ShowHead(h, p).token.kind == Identifier
    ensures NameOfHead(h, n).Word? && IsNameWord(NameOfHead(h, n).token)
  {
    Keywords();
  }

  lemma {:induction false} PathReads(x: Path, n: Name, p: Printed)
    requires SoundPath(x) && IsPointerFree(x) && Reads(n, p)
    requires if EndsInMember(x) then Follows(n) else FollowsType(n)
    ensures Reads(NameOfPath(x, n), ShowPath(Renamed(x, p), p))
    decreases Size(x)
  {
    FirstIsSound(x);
    NameOfFirst(x, n);
    hide Reads, SoundPath, SoundHead, NameOfPath, IsPointerFree, FollowsType, Follows;
    var c, h0, q := x.c, x.c.base.head, RenamedBehind(x, p);
    var k := NameBehind(x, n);
    assert SizeOfComponent(c) == SizeOfHead(h0);
    BehindReads(x, n, p);
    ReferencesRead(c.refs, k, q);
    var r, rest := WithTokens(c.refs, k), ShowTokens(Regrouped(c.refs), q);
    var h := RenamedHead(h0, rest);
    if !x.Last? && Merges(h, q) {
      MergedReads(h0.op, k.more, q.more);
      MergedShows(x, p);
    } else {
      BehindOperator(h0, k, q, x.Last?);
      HeadReads(h0, r, rest);
      RenamedShows(x, p);
    }
  }

  /** What comes after the first component: a name that may follow, or `::` and a name. */
  lemma {:induction false} BehindReads(x: Path, n: Name, p: Printed)
    requires SoundPath(x) && IsPointerFree(x) && Reads(n, p)
    requires if EndsInMember(x) then Follows(n) else FollowsType(n)
    ensures var k, q := NameBehind(x, n), RenamedBehind(x, p);
            && Reads(k, q)
            && if x.Last? then FollowsType(k)
               else
                 && k.Word? && k.token == Punct("::") && q.Then? && q.token == Punct("::") && Reads(k.more, q.more)
                 && var r := TextOf(k.more, false); r == "" || (r[0] != ':' && r[0] != '>' && r[0] != '=')
    decreases Size(x), 0
  {
    hide Reads, SoundHead, NameOfPath, ShowPath, TextOf;
    match x
    case Last(_) =>
    case Member(_) =>
      StartOfFollower(n, false);
      StarReads(n, p);
    case Scope(_, star, next) =>
      PathReads(next, n, p);
      PathStartsName(next, n);
      var n1, p1 := NameOfPath(next, n), ShowPath(Renamed(next, p), p);
      StartOfName(n1);
      if star {
        StarReads(n1, p1);
      } else {
        ClosedWord("::", n1, p1);
      }
  }

  lemma StarReads(n: Name, p: Printed)
    requires Reads(n, p) && (var r := TextOf(n, false); r == "" || r[0] != '=')
    ensures Reads(WithScope(true, n), ShowScope(true, p)) && Reads(Word(Punct("*"), n), Then(Punct("*"), p))
    ensures TextOf(Word(Punct("*"), n), false) == "*" + TextOf(n, false)
  {
    hide Reads;
    ClosedWord("*", n, p);
    assert "" + ("*" + TextOf(n, false)) == "*" + TextOf(n, false);
    ClosedWord("::", Word(Punct("*"), n), Then(Punct("*"), p));
  }

  lemma BehindOperator(h: Head, k: Name, q: Printed, isLast: bool)
    requires SoundHead(h) && (isLast || !Merges(h, q))
    requires if isLast then FollowsType(k) else k.Word? && k.token == Punct("::") && q.Then? && q.token == Punct("::")
    ensures h.OperatorSymbol? ==> PunctuationLength(h.op + TextOf(k, false)) == |h.op|
  {
    if h.OperatorSymbol? {
      var r := TextOf(k, false);
      if isLast {
        OperatorEnds(h.op, r);
      } else {
        assert r == "" + ("::" + TextOf(k.more, false)) == "::" + TextOf(k.more, false);
        OperatorBeforeScope(h.op, r);
      }
    }
  }

  lemma BareShows(h: Head, refs: seq<Token>, q: Printed)
    ensures ShowComponent(Component(Bare(h), refs, []), q) == ShowHead(h, ShowTokens(refs, q))
  {
    var c := Component(Bare(h), refs, []);
    assert ShowModifiers([], q) == q;
    assert ShowRest(c, q) == ShowTokens(refs, q);
  }

  lemma MergedShows(x: Path, p: Printed)
    requires x.c.base.Bare? && !x.Last? && x.c.base.head.OperatorSymbol? && Merges(x.c.base.head, RenamedBehind(x, p))
    ensures ShowPath(Renamed(x, p), p)
         == Then(Ident("operator"), Then(Punct(x.c.base.head.op + ":"), Then(Punct(":"), RenamedBehind(x, p).more)))
  {
    var op, rest := x.c.base.head.op, Then(Punct(":"), RenamedBehind(x, p).more);
    hide RenamedBehind;
    assert Renamed(x, p) == Stuck(Operating(op + ":"), rest);
    BareShows(OperatorSymbol(op + ":"), [], rest);
    assert ShowTokens([], rest) == rest;
  }

  lemma RenamedShows(x: Path, p: Printed)
    requires x.c.base.Bare? && !x.Stuck?
    requires var q := RenamedBehind(x, p);
             x.Last? || !Merges(RenamedHead(x.c.base.head, ShowTokens(Regrouped(x.c.refs), q)), q)
    ensures var rest := ShowTokens(Regrouped(x.c.refs), RenamedBehind(x, p));
            ShowPath(Renamed(x, p), p) == ShowHead(RenamedHead(x.c.base.head, rest), rest)
  {
    var q := RenamedBehind(x, p);
    var rest := ShowTokens(Regrouped(x.c.refs), q);
    var h := RenamedHead(x.c.base.head, rest);
    if IsAngleFirst(h, rest) {
      var more := ShowHead(h, rest).more.more;
      assert Renamed(x, p) == Stuck(Operating("<"), more);
      BareShows(OperatorSymbol("<"), [], more);
      assert ShowTokens([], more) == more;
      AngleShows(h, rest);
    } else {
      BareShows(h, Regrouped(x.c.refs), q);
    }
  }

  lemma AngleShows(h: Head, p: Printed)
    requires IsAngleFirst(h, p)
    ensures ShowHead(h, p) == Then(Ident("operator"), Then(Punct("<"), ShowHead(h, p).more.more))
  {
    hide ShowPath;
  }
}
