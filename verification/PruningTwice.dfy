/** A pruned name is left alone by pruning. */
module PruningTwice {
  import opened SymbolLexer
  import opened SymbolGrammar
  import opened PrintedSymbols
  import opened PrunedNames
  import opened RenamedPaths
  import opened NameReading
  import opened NameValidity
  import PruningProof

  // ---------------------------------------------------------------- renamed paths have the same name

  predicate SameText(n: Name, n': Name) {
    TextOf(n, false) == TextOf(n', false) && TextOf(n, true) == TextOf(n', true)
  }

  lemma SameWord(t: Token, n: Name, n': Name)
    requires SameText(n, n')
    ensures SameText(Word(t, n), Word(t, n'))
  {
  }

  lemma SameTwo(t1: Token, t2: Token, n: Name, n': Name)
    requires SameText(n, n')
    ensures SameText(Word(t1, Word(t2, n)), Word(t1, Word(t2, n')))
  {
    SameWord(t2, n, n');
    hide SameText;
    SameWord(t1, Word(t2, n), Word(t2, n'));
  }

  lemma SameThree(t1: Token, t2: Token, t3: Token, n: Name, n': Name)
    requires SameText(n, n')
    ensures SameText(Word(t1, Word(t2, Word(t3, n))), Word(t1, Word(t2, Word(t3, n'))))
  {
    hide SameText;
    SameTwo(t2, t3, n, n');
    SameWord(t1, Word(t2, Word(t3, n)), Word(t2, Word(t3, n')));
  }

  lemma {:induction false} SameTokens(ts: seq<Token>, n: Name, n': Name)
    requires SameText(n, n')
    ensures SameText(WithTokens(ts, n), WithTokens(ts, n'))
  {
    hide SameText;
    if ts != [] {
      SameTokens(ts[1..], n, n');
      SameWord(ts[0], WithTokens(ts[1..], n), WithTokens(ts[1..], n'));
    }
  }

  lemma RegroupedTokens(ts: seq<Token>, n: Name, n': Name)
    requires AreReferences(ts) && SameText(n, n')
    ensures SameText(WithTokens(Regrouped(ts), n), WithTokens(ts, n'))
  {
    hide TextOf, Regrouped, WithTokens;
    SameTokens(ts, n, n');
    RegroupedText(ts, n, false);
    RegroupedText(ts, n, true);
  }

  lemma OwnNameText(h: Head, n: Name, n': Name)
    requires IsOwnName(h) && SameText(n, n')
    ensures SameText(NameOfHead(h, n), NameOfHead(h, n'))
  {
    hide SameText;
    match h
    case Named(id) => SameWord(Ident(id), n, n');
    case Destructor(id) => SameTwo(Punct("~"), Ident(id), n, n');
    case NewDeleteOperator(word, brackets) =>
      SameTwo(Punct("["), Punct("]"), n, n');
      SameTwo(Ident("operator"), Ident(word), n, n');
      SameTwo(Ident("operator"), Ident(word), Word(Punct("["), Word(Punct("]"), n)), Word(Punct("["), Word(Punct("]"), n')));
    case DeducedConversion(word) =>
      SameThree(Punct("("), Ident(word), Punct(")"), n, n');
      SameTwo(Ident("operator"), Ident("decltype"), Word(Punct("("), Word(Ident(word), Word(Punct(")"), n))),
              Word(Punct("("), Word(Ident(word), Word(Punct(")"), n'))));
    case CoAwait => SameTwo(Ident("operator"), Ident("co_await"), n, n');
    case LiteralOperator(suffix) => SameThree(Ident("operator"), QUOTES, Ident(suffix), n, n');
    case OperatorSymbol(op) => SameTwo(Ident("operator"), Punct(op), n, n');
    case BracketOperator(b) => SameThree(Ident("operator"), Punct(Left(b)), Punct(Right(b)), n, n');
    case AngledLambda(word) => SameThree(Punct("<"), Ident(word), Punct(">"), n, n');
    case Ordinal(number) => SameThree(Punct("`"), Punct(number), Punct("'"), n, n');
    case Unreadable(_, _) =>
  }

  lemma AngledText(word: string, n: Name, n': Name)
    requires SameText(n, n')
    ensures SameText(Word(Punct("<"), Word(Ident(word), Word(Punct(">"), n))),
                     Word(Punct("<"), Word(Punct(word), Word(Punct(">"), n'))))
  {
    SameWord(Punct(">"), n, n');
    var n1, n1' := Word(Punct(">"), n), Word(Punct(">"), n');
    assert TextOf(n1, true) == TextOf(n1, false);
    assert TextOf(Word(Ident(word), n1), false) == TextOf(Word(Punct(word), n1'), false);
  }

  lemma {:induction false} HeadText(h: Head, p: Printed, n: Name, n': Name)
    requires SoundHead(h) && !HeadFails(RenamedHead(h, p)) && SameText(n, n')
    ensures SameText(NameOfHead(RenamedHead(h, p), n), NameOfHead(h, n'))
    decreases SizeOfHead(h), 1
  {
    hide SameText, SoundPath, Renamed, NameOfPath, Fails, FirstOf, EndsInMember, EndsInConversion, Lex, ReadsAs,
         ValidPaths, AnyFails, QualifiedName;
    if IsOwnName(h) {
      OwnName(h, p);
      OwnNameText(h, n, n');
    } else {
      match h
      case Tag(_) => SameWord(Ident(ANONYMOUS_GNU), n, n');
      case QuotedLambda(word) => AngledText(word, n, n');
      case Enclosed(text, inner) =>
        var name := if AnyFails(inner) then text else QualifiedName(inner);
        if !AnyFails(inner) {
          EnclosedText(inner);
        }
        SameThree(Punct("`"), Punct(name), Punct("'"), n, n');
      case Conversion(to) =>
        PathText(to, p, n, n');
        SameWord(Ident("operator"), NameOfPath(Renamed(to, p), n), NameOfPath(to, n'));
      case MemberConversion(to, of) =>
        var p1 := ShowPath(Renamed(of, p), p);
        var n1, n1' := NameOfPath(Renamed(of, p), n), NameOfPath(of, n');
        PathText(of, p, n, n');
        PathText(to, p1, n1, n1');
        SameWord(Ident("operator"), NameOfPath(Renamed(to, p1), n1), NameOfPath(to, n1'));
      case BracedLambda(_, _, _) =>
    }
  }

  /** The renamed declaration in an enclosing function has the name of the declaration. */
  lemma {:induction false} EnclosedText(inner: seq<Path>)
    requires ValidPaths(inner) && !AnyFails(inner)
    ensures var xs := [Renamed(CoreOfLast(inner), End)];
            inner != [] && (if AnyFails(xs) then QualifiedName(inner) else QualifiedName(xs)) == QualifiedName(inner)
    decreases SizeOfPaths(inner), 5
  {
    hide ValidPaths, AnyFails, QualifiedName, Renamed, Core, Size, Fails;
    NotEmpty(inner);
    var x := CoreOfLast(inner);
    CoreSize(inner[|inner| - 1], Stop);
    LastSize(inner);
    NameOfCore(inner);
    var xs := [Renamed(x, End)];
    if !AnyFails(xs) {
      OneFails(Renamed(x, End));
      SettledName(x);
    }
  }

  lemma OneFails(x: Path)
    ensures AnyFails([x]) == Fails(x)
  {
    hide Fails;
    assert x in [x];
  }

  lemma {:induction false} SettledName(x: Path)
    requires SoundPath(x) && IsPointerFree(x) && !Fails(Renamed(x, End))
    ensures QualifiedName([Renamed(x, End)]) == TextOf(NameOfPath(x, Nothing), false)
    decreases Size(x), 4
  {
    hide SoundPath, IsPointerFree, Fails, Renamed, NameOfPath;
    var x' := Renamed(x, End);
    assert SameText(Nothing, Nothing) && MayFollow(End, x) && IsUnbroken(Nothing);
    PathIsValid(x, End);
    ValidIsSound(x', End);
    UnbrokenPath(x', Nothing);
    PathText(x, End, Nothing, Nothing);
    SpellIsText(NameOfPath(x', Nothing), "", false);
    assert "" + TextOf(NameOfPath(x', Nothing), false) == TextOf(NameOfPath(x', Nothing), false);
  }

  lemma {:induction false} PathText(x: Path, p: Printed, n: Name, n': Name)
    requires SoundPath(x) && IsPointerFree(x) && !Fails(Renamed(x, p)) && SameText(n, n')
    ensures SameText(NameOfPath(Renamed(x, p), n), NameOfPath(x, n'))
    decreases Size(x), 1
  {
    FirstIsSound(x);
    assert SizeOfComponent(x.c) == SizeOfHead(x.c.base.head);
    RenamedParts(x, p);
    hide SoundPath, SoundHead, IsPointerFree, SameText, Renamed, NameOfPath, NameOfHead, RenamedHead, ShowHead, Fails;
    var rest := ShowTokens(Regrouped(x.c.refs), RenamedBehind(x, p));
    var x' := Renamed(x, p);
    BehindText(x, p, n, n');
    var k, k' := NameBehind(x', n), NameBehind(x, n');
    RegroupedTokens(x.c.refs, k, k');
    HeadText(x.c.base.head, rest, WithTokens(Regrouped(x.c.refs), k), WithTokens(x.c.refs, k'));
    NameOfFirst(x', n);
    NameOfFirst(x, n');
  }

  /** A renamed path that does not fail has the form of the path. */
  lemma RenamedParts(x: Path, p: Printed)
    requires x.c.base.Bare? && !x.Stuck? && !Fails(Renamed(x, p))
    ensures var h := RenamedHead(x.c.base.head, ShowTokens(Regrouped(x.c.refs), RenamedBehind(x, p)));
            && Renamed(x, p).c == Component(Bare(h), Regrouped(x.c.refs), []) && !HeadFails(h)
            && (x.Last? ==> Renamed(x, p).Last?) && (x.Member? ==> Renamed(x, p).Member?)
            && (x.Scope? ==>
                  Renamed(x, p) == Scope(Renamed(x, p).c, x.star, Renamed(x.next, p)) && !Fails(Renamed(x.next, p)))
  {
    hide RenamedHead, ShowHead, RenamedBehind;
  }

  lemma {:induction false} BehindText(x: Path, p: Printed, n: Name, n': Name)
    requires SoundPath(x) && IsPointerFree(x) && !Fails(Renamed(x, p)) && SameText(n, n')
    ensures SameText(NameBehind(Renamed(x, p), n), NameBehind(x, n'))
    decreases Size(x), 0
  {
    FirstIsSound(x);
    RenamedParts(x, p);
    hide SoundPath, SoundHead, IsPointerFree, SameText, Renamed, NameOfPath, Fails;
    match x
    case Last(_) =>
    case Member(_) => SameTwo(Punct("::"), Punct("*"), n, n');
    case Scope(_, star, next) =>
      PathText(next, p, n, n');
      var n1, n1' := NameOfPath(Renamed(next, p), n), NameOfPath(next, n');
      SameTwo(Punct("::"), Punct("*"), n1, n1');
      SameWord(Punct("::"), n1, n1');
  }

  // ---------------------------------------------------------------- pruning twice

  /** Pruning what pruning left changes nothing: the name is read as a declaration of that name, or it cannot
      be parsed. */
  lemma PruningAgain(text: string, xs: seq<Path>)
    requires ValidPaths(xs) && ReadsAs(SkipSpace(text), ShowPaths(xs))
    ensures Prune(Prune(text)) == Prune(text)
  {
    hide *;
    PruningProof.PruneDeclaration(text, xs);
    if !AnyFails(xs) {
      NotEmpty(xs);
      NameOfCore(xs);
      var x := CoreOfLast(xs);
      PathIsSettled(x);
      PruningProof.PruneDeclaration(QualifiedName(xs), [Renamed(x, End)]);
      OneFails(Renamed(x, End));
      if !Fails(Renamed(x, End)) {
        SettledName(x);
      }
    }
  }
}
