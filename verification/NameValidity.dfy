/** Renamed paths are valid, so what is proved of pruning declarations holds of pruning names. */
module NameValidity {
  import opened Wrappers
  import opened SymbolLexer
  import opened SymbolGrammar
  import opened PrintedSymbols
  import opened PrintedTexts
  import opened PrunedNames
  import opened NameTexts
  import opened RenamedPaths
  import opened NameReading

  // ---------------------------------------------------------------- renamed paths are valid

  /** What may be printed after a name inside a name. */
  predicate MayFollow(p: Printed, x: Path) {
    || p.End?
    || (&& p.Then?
        && if EndsInMember(x) then IsPointerRef(p.token) || p.token == Punct("::")
           else IsNameWord(p.token) && StandsAlone(p.token) && !EndsInConversion(x))
  }

  /** What may be printed after a head inside a name. */
  predicate MayFollowHead(p: Printed) {
    p.End? || (p.Then? && (IsPointerRef(p.token) || p.token == Punct("::") || (IsNameWord(p.token) && StandsAlone(p.token))))
  }

  /** Heads that are their own names. */
  predicate IsOwnName(h: Head) {
    !h.Tag? && !h.Conversion? && !h.MemberConversion? && !h.BracedLambda? && !h.QuotedLambda? && !h.Enclosed?
  }

  lemma OwnName(h: Head, p: Printed)
    requires IsOwnName(h)
    ensures RenamedHead(h, p) == h
  {
  }

  lemma OwnNameIsValid(h: Head, p: Printed)
    requires SoundHead(h) && IsOwnName(h) && MayFollowHead(p)
    ensures ValidHead(h, p)
  {
    hide IsNumber, IsOperator, IsName, StandsAlone;
  }

  lemma PlainHeadIsValid(h: Head, p: Printed)
    requires SoundHead(h) && !h.Conversion? && !h.MemberConversion? && !h.Enclosed? && MayFollowHead(p)
    ensures ValidHead(RenamedHead(h, p), p)
  {
    hide SoundHead, ValidHead, MayFollowHead;
    if IsOwnName(h) {
      OwnName(h, p);
      OwnNameIsValid(h, p);
    } else {
      match h
      case Tag(_) => TagIsValid(p);
      case BracedLambda(isUnnamed, _, number) => BracedNameIsValid(isUnnamed, number, p);
      case QuotedLambda(word) => QuotedNameIsValid(word, p);
    }
  }

  lemma TagIsValid(p: Printed)
    ensures ValidHead(Tag(ANONYMOUS_GNU), p)
  {
  }

  lemma BracedNameIsValid(isUnnamed: bool, number: string, p: Printed)
    ensures ValidHead(BracedName(isUnnamed, number), p)
  {
    Keywords();
    hide IsName;
  }

  lemma QuotedNameIsValid(word: string, p: Printed)
    requires SoundHead(QuotedLambda(word))
    ensures ValidHead(QuotedName(word), p)
  {
    hide IsName;
  }

  lemma {:induction false} EnclosedIsValid(text: string, inner: seq<Path>, p: Printed)
    requires SoundHead(Enclosed(text, inner))
    ensures ValidHead(RenamedHead(Enclosed(text, inner), p), p)
    decreases SizeOfPaths(inner), 5
  {
    hide Lex, ReadsAs, ValidPaths, AnyFails, QualifiedName, IsMsvcLiteral, Renamed, Core, Size;
    NotEmpty(inner);
    if !AnyFails(inner) {
      var x := CoreOfLast(inner);
      CoreSize(inner[|inner| - 1], Stop);
      LastSize(inner);
      NameIsLiteral(inner);
      EnquotedLexes(QualifiedName(inner));
      NameOfCore(inner);
      PathIsSettled(x);
    }
  }

  lemma EnquotedLexes(text: string)
    requires IsMsvcLiteral(Enquoted(text).str)
    ensures Lex(Enquoted(text).str) == Ok(Some(Enquoted(text)))
  {
    var t := Enquoted(text);
    assert t.str[0] == '`' && t.str + "" == t.str;
    LexIsExact(t, "");
    TokenAtBackquote(t);
  }

  /** The text of a name reads as its renamed path, which is valid. */
  lemma {:induction false} PathIsSettled(x: Path)
    requires SoundPath(x) && IsPointerFree(x)
    ensures var x', s := Renamed(x, End), TextOf(NameOfPath(x, Nothing), false);
            ReadsAs(SkipSpace(s), ShowPaths([x'])) && ValidPaths([x'])
    decreases Size(x), 4
  {
    hide Renamed, ValidPath, ShowPath, NameOfPath, SoundPath, IsPointerFree;
    assert Reads(Nothing, End);
    PathReads(x, Nothing, End);
    PathIsValid(x, End);
    assert [Renamed(x, End)][1..] == [];
    assert ShowPaths([Renamed(x, End)]) == ShowPath(Renamed(x, End), End);
  }

  lemma {:induction false} HeadIsValid(h: Head, p: Printed)
    requires SoundHead(h) && MayFollowHead(p)
    requires h.Conversion? ==> MayFollow(p, h.to) && (p.Then? ==> p.token.kind != Identifier)
    requires h.MemberConversion? ==> MayFollow(p, h.of)
    requires !IsAngleFirst(RenamedHead(h, p), p)
    ensures ValidHead(RenamedHead(h, p), p)
    decreases SizeOfHead(h), 3
  {
    hide SoundPath, ValidPath, FirstOf, IsNameWord, StandsAlone, EndsInMember, EndsInConversion;
    match h
    case Enclosed(text, inner) => EnclosedIsValid(text, inner, p);
    case Conversion(to) =>
      PathIsValid(to, p);
      ConversionStarts(to, p);
    case MemberConversion(to, of) =>
      PathIsValid(of, p);
      var p1 := ShowPath(Renamed(of, p), p);
      IdentifierFirst(of, p);
      PathIsValid(to, p1);
      RenamedEnd(to, p1);
      ConversionStarts(to, p1);
    case _ => PlainHeadIsValid(h, p);
  }

  /** The first token of a renamed path, told by that of the path. */
  lemma RenamedStarts(x: Path, p: Printed)
    requires SoundPath(x) && IsPointerFree(x)
    ensures ShowPath(Renamed(x, p), p).Then? && FirstOf(x).Some?
    ensures FirstOf(x).value.kind == Identifier ==> ShowPath(Renamed(x, p), p).token == FirstOf(x).value
    ensures StartsType(FirstOf(x)) ==>
              || StartsConversion(ShowPath(Renamed(x, p), p))
              || (x.c.base.head.QuotedLambda? && ShowPath(Renamed(x, p), p).token == Punct("<"))
  {
    FirstIsSound(x);
    FirstIsFirst(x);
    hide SoundPath, SoundHead, IsPointerFree, Renamed, RenamedBehind, RenamedHead;
    var h, q := x.c.base.head, RenamedBehind(x, p);
    var rest := ShowTokens(Regrouped(x.c.refs), q);
    if !x.Last? && Merges(RenamedHead(h, rest), q) {
      MergingHead(h, rest);
      MergedShows(x, p);
    } else {
      RenamedShows(x, p);
      HeadStarts(h, rest, ShowRest(x.c, Behind(x, End)));
    }
  }

  lemma MergingHead(h: Head, p: Printed)
    requires SoundHead(h) && RenamedHead(h, p).OperatorSymbol?
    ensures h.OperatorSymbol? && RenamedHead(h, p) == h
  {
  }

  lemma HeadStarts(h: Head, p: Printed, p': Printed)
    requires SoundHead(h)
    ensures var t, t' := ShowHead(RenamedHead(h, p), p), ShowHead(h, p');
            && t.Then? && t'.Then?
            && (t'.token.kind == Identifier ==> t.token == t'.token)
            && (StartsType(Some(t'.token)) ==> StartsConversion(t) || (h.QuotedLambda? && t.token == Punct("<")))
  {
    hide SoundHead, ShowPath, Renamed, QualifiedName, AnyFails, Enquoted;
    if IsOwnName(h) {
      OwnName(h, p);
      hide RenamedHead;
      FrontOfHead(h, p, p');
      hide ShowHead;
    } else {
      hide IsOwnName;
      if h.Enclosed? {
        EnclosedStarts(h, p, p');
      } else {
        OtherStarts(h, p, p');
      }
    }
  }

  lemma EnclosedStarts(h: Head, p: Printed, p': Printed)
    requires h.Enclosed?
    ensures var t, t' := ShowHead(RenamedHead(h, p), p), ShowHead(h, p');
            && t.Then? && t'.Then? && t'.token.kind != Identifier
            && (StartsType(Some(t'.token)) ==> StartsConversion(t))
  {
    hide QualifiedName, AnyFails, Enquoted;
    EnquotedIsNoOperator(h.text);
    EnquotedIsNoOperator(QualifiedName(h.inner));
  }

  lemma OtherStarts(h: Head, p: Printed, p': Printed)
    requires h.Tag? || h.Conversion? || h.MemberConversion? || h.BracedLambda? || h.QuotedLambda?
    ensures var t, t' := ShowHead(RenamedHead(h, p), p), ShowHead(h, p');
            && t.Then? && t'.Then?
            && (t'.token.kind == Identifier ==> t.token == t'.token)
            && (StartsType(Some(t'.token)) ==> StartsConversion(t) || (h.QuotedLambda? && t.token == Punct("<")))
  {
    hide ShowPath, Renamed, ShowModifiers;
  }

  lemma EnquotedIsNoOperator(text: string)
    ensures Enquoted(text) != QUOTES && Enquoted(text).kind == Literal
  {
    assert Enquoted(text).str[0] == '`';
  }

  lemma QuotedFirst(x: Path, p: Printed)
    requires SoundPath(x) && IsPointerFree(x) && x.c.base.head.QuotedLambda?
    ensures var shown := ShowPath(Renamed(x, p), p); shown.Then? && HopelessAhead(shown.more)
  {
    FirstIsSound(x);
    var rest := ShowTokens(Regrouped(x.c.refs), RenamedBehind(x, p));
    hide SoundPath, IsPointerFree, RenamedBehind, Renamed, HopelessAhead;
    RenamedShows(x, p);
    QuotedHeadShows(x.c.base.head, rest);
  }

  lemma QuotedHeadShows(h: Head, p: Printed)
    requires SoundHead(h) && h.QuotedLambda?
    ensures var shown := ShowHead(RenamedHead(h, p), p); shown.Then? && HopelessAhead(shown.more)
  {
    PlainLambdaWord(h.word);
    QuotedShows(h.word, p);
    assert RenamedHead(h, p) == QuotedName(h.word);
    hide SoundHead, IsIgnoredIdentifier, ShowHead, RenamedHead, QuotedName;
  }

  lemma PlainLambdaWord(word: string)
    requires "lambda" <= word || "unnamed" <= word
    ensures word != "operator" && !IsIgnoredIdentifier(word)
  {
    assert word[0] == 'l' || word[0] == 'u';
  }

  lemma IdentifierFirst(x: Path, p: Printed)
    requires SoundPath(x) && IsPointerFree(x) && FirstOf(x).Some? && FirstOf(x).value.kind == Identifier
    ensures var shown := ShowPath(Renamed(x, p), p);
            shown.Then? && shown.token == FirstOf(x).value && IsNameWord(shown.token)
  {
    RenamedStarts(x, p);
    FirstIsSound(x);
    FirstIsFirst(x);
    hide SoundPath, Renamed;
    IdentifierHead(x.c.base.head, Nothing, ShowRest(x.c, Behind(x, End)));
    IdentifierToken(x.c.base.head, ShowRest(x.c, Behind(x, End)));
  }

  lemma IdentifierToken(h: Head, p: Printed)
    requires SoundHead(h) && ShowHead(h, p).Then? && ShowHead(h, p).token.kind == Identifier
    ensures IsNameWord(ShowHead(h, p).token)
  {
    Keywords();
  }

  lemma {:induction false} RenamedEnd(x: Path, p: Printed)
    requires SoundPath(x) && IsPointerFree(x)
    ensures EndsInConversion(Renamed(x, p)) ==> EndsInConversion(x)
    decreases x
  {
    FirstIsSound(x);
    hide SoundPath, SoundHead, ShowPath, RenamedBehind, RenamedHead, IsPointerFree;
    SameKind(x.c.base.head, ShowTokens(Regrouped(x.c.refs), RenamedBehind(x, p)));
    if x.Scope? {
      RenamedEnd(x.next, p);
    }
  }

  /** Renaming brings no declarator in. */
  lemma {:induction false} RenamedIsPlain(x: Path, p: Printed)
    requires SoundPath(x) && IsPointerFree(x)
    ensures IsPointerFree(Renamed(x, p))
    decreases Size(x)
  {
    FirstIsSound(x);
    assert SizeOfComponent(x.c) == SizeOfHead(x.c.base.head);
    hide SoundPath, SoundHead, ShowPath, RenamedBehind, RenamedHead;
    PlainHead(x.c.base.head, ShowTokens(Regrouped(x.c.refs), RenamedBehind(x, p)));
    if x.Scope? {
      RenamedIsPlain(x.next, p);
    }
  }

  lemma {:induction false} PlainHead(h: Head, p: Printed)
    requires SoundHead(h)
    ensures !IsDeclaring(RenamedHead(h, p))
    decreases SizeOfHead(h)
  {
    hide SoundPath, Renamed, ShowPath, IsPointerFree;
    match h
    case Conversion(to) => RenamedIsPlain(to, p);
    case MemberConversion(to, of) =>
      RenamedIsPlain(of, p);
      RenamedIsPlain(to, ShowPath(Renamed(of, p), p));
    case _ =>
  }

  lemma SameKind(h: Head, p: Printed)
    ensures RenamedHead(h, p).Conversion? == h.Conversion? && RenamedHead(h, p).MemberConversion? == h.MemberConversion?
  {
  }

  lemma MayEnd(x: Path, p: Printed)
    requires MayFollow(p, x)
    ensures x.Last? ==> EndsPath(p)
    ensures x.Member? ==> NoTermAhead(p)
  {
  }

  lemma AnglePathIsValid(x: Path, p: Printed)
    requires SoundPath(x) && IsPointerFree(x)
    requires var rest := ShowTokens(Regrouped(x.c.refs), RenamedBehind(x, p));
             IsAngleFirst(RenamedHead(x.c.base.head, rest), rest)
    ensures ValidPath(Renamed(x, p), p)
  {
    FirstIsSound(x);
    var rest := ShowTokens(Regrouped(x.c.refs), RenamedBehind(x, p));
    var h := RenamedHead(x.c.base.head, rest);
    assert Renamed(x, p) == Stuck(Operating("<"), ShowHead(h, rest).more.more);
    AngleIsStuck(x.c.base.head, rest);
    hide *;
    LessThanIsOperator();
    StuckIsValid("<", ShowHead(h, rest).more.more, p);
  }

  lemma LessThanIsOperator()
    ensures IsOperator("<")
  {
  }

  lemma MergedPathIsValid(x: Path, p: Printed)
    requires SoundPath(x) && IsPointerFree(x)
    requires var q := RenamedBehind(x, p);
             var rest := ShowTokens(Regrouped(x.c.refs), q);
             var h := RenamedHead(x.c.base.head, rest);
             !IsAngleFirst(h, rest) && !x.Last? && Merges(h, q)
    ensures ValidPath(Renamed(x, p), p)
  {
    FirstIsSound(x);
    hide SoundPath, SoundHead, IsPointerFree, RenamedHead, RenamedBehind, ShowHead, ShowTokens, IsAngleFirst, ValidPath,
         Regrouped;
    var q := RenamedBehind(x, p);
    var h, rest := x.c.base.head, ShowTokens(Regrouped(x.c.refs), q);
    MergingHead(h, rest);
    assert Renamed(x, p) == Stuck(Operating(h.op + ":"), Then(Punct(":"), q.more));
    hide Renamed, RenamedHead, RenamedBehind;
    MergedIsOperator(h.op);
    StuckIsValid(h.op + ":", Then(Punct(":"), q.more), p);
  }

  lemma RebuiltIsValid(x: Path, p: Printed)
    requires x.c.base.Bare? && !x.Stuck? && MayFollow(p, x)
    requires var q := RenamedBehind(x, p);
             var rest := ShowTokens(Regrouped(x.c.refs), q);
             var h := RenamedHead(x.c.base.head, rest);
             && !IsAngleFirst(h, rest) && (x.Last? || !Merges(h, q))
             && ValidComponent(Component(Bare(h), Regrouped(x.c.refs), []), q)
    requires x.Scope? ==> ValidPath(Renamed(x.next, p), p)
    ensures ValidPath(Renamed(x, p), p)
  {
    MayEnd(x, p);
    hide ValidComponent, RenamedHead, ShowHead, MayFollow;
  }

  lemma {:induction false} PathIsValid(x: Path, p: Printed)
    requires SoundPath(x) && IsPointerFree(x) && MayFollow(p, x)
    ensures ValidPath(Renamed(x, p), p) && IsPointerFree(Renamed(x, p))
    decreases Size(x), 1
  {
    FirstIsSound(x);
    RenamedIsPlain(x, p);
    assert SizeOfComponent(x.c) == SizeOfHead(x.c.base.head);
    if x.Scope? {
      NextMayFollow(x, p);
    }
    hide SoundPath, SoundHead, IsPointerFree, ValidPath, ValidHead, ValidComponent, ShowHead, RenamedHead, MayFollow,
         MayFollowHead,
         PointerShown, AreReferences, IsAngleFirst, Merges, Renamed, RenamedBehind;
    var q := RenamedBehind(x, p);
    var rest := ShowTokens(Regrouped(x.c.refs), q);
    var h := RenamedHead(x.c.base.head, rest);
    if IsAngleFirst(h, rest) {
      AnglePathIsValid(x, p);
    } else if !x.Last? && Merges(h, q) {
      MergedPathIsValid(x, p);
    } else {
      RestMayFollow(x, p);
      HeadIsValid(x.c.base.head, rest);
      if h.OperatorSymbol? {
        SameOperator(x.c.base.head, rest);
      }
      RegroupedAreApart(x.c.refs);
      ApartAreReferences(Regrouped(x.c.refs));
      BareIsValid(h, Regrouped(x.c.refs), q);
      if x.Scope? {
        PathIsValid(x.next, p);
      }
      RebuiltIsValid(x, p);
    }
  }

  lemma NextMayFollow(x: Path, p: Printed)
    requires MayFollow(p, x) && x.Scope?
    ensures MayFollow(p, x.next)
  {
  }

  lemma SameOperator(h: Head, p: Printed)
    requires RenamedHead(h, p).OperatorSymbol?
    ensures h.OperatorSymbol?
  {
  }

  lemma ConversionStarts(to: Path, p: Printed)
    requires SoundPath(to) && IsPointerFree(to) && StartsType(FirstOf(to))
    requires var shown := ShowPath(Renamed(to, p), p); shown.Then? ==> shown.token != Punct("<")
    ensures StartsConversion(ShowPath(Renamed(to, p), p))
  {
    hide SoundPath, Renamed, ShowPath, StartsConversion, StartsType, FirstOf;
    RenamedStarts(to, p);
  }

  lemma AngleIsStuck(h: Head, p: Printed)
    requires SoundHead(h) && IsAngleFirst(RenamedHead(h, p), p)
    ensures HopelessAhead(ShowHead(RenamedHead(h, p), p).more.more)
  {
    hide SoundPath, Renamed, ShowPath, StartsType, FirstOf, HopelessAhead;
    match h
    case Conversion(to) => AngleType(to, p);
    case MemberConversion(to, of) => AngleType(to, ShowPath(Renamed(of, p), p));
    case _ =>
  }

  lemma AngleType(to: Path, p: Printed)
    requires SoundPath(to) && IsPointerFree(to) && StartsType(FirstOf(to))
    requires var shown := ShowPath(Renamed(to, p), p); shown.Then? && shown.token == Punct("<")
    ensures HopelessAhead(ShowPath(Renamed(to, p), p).more)
  {
    hide SoundPath, Renamed, ShowPath, FirstOf, HopelessAhead;
    RenamedStarts(to, p);
    FirstIsSound(to);
    QuotedFirst(to, p);
  }

  lemma StuckIsValid(op: string, rest: Printed, p: Printed)
    requires IsOperator(op) && op != "(" && op != "[" && HopelessAhead(rest)
    ensures ValidPath(Stuck(Operating(op), rest), p)
  {
    var c := Operating(op);
    assert ShowTokens([], rest) == rest && ShowModifiers([], rest) == rest;
    assert ShowRest(c, rest) == rest;
    assert ValidHead(c.base.head, rest) && !PointerShown(rest);
    assert ValidBase(c.base, rest);
    assert ValidComponent(c, rest);
  }

  lemma MergedIsOperator(op: string)
    requires IsOperator(op) && op != "(" && op != "[" && PunctuationLength(op + "::") != |op|
    ensures IsOperator(op + ":") && op + ":" != "(" && op + ":" != "["
  {
    OperatorBeforeScope(op, "::");
    MergedFirst(op);
  }

  lemma BareIsValid(h: Head, refs: seq<Token>, q: Printed)
    requires ValidHead(h, ShowTokens(refs, q)) && !PointerShown(ShowTokens(refs, q))
    requires AreReferences(refs) && (refs != [] ==> !h.OperatorSymbol?)
    ensures ValidComponent(Component(Bare(h), refs, []), q)
  {
    hide ValidHead;
    var c := Component(Bare(h), refs, []);
    assert ShowModifiers([], q) == q;
    assert ShowRest(c, q) == ShowTokens(refs, q);
    assert ValidBase(c.base, ShowTokens(refs, q));
  }

  /** What the first head of a renamed path is followed by. */
  lemma RestMayFollow(x: Path, p: Printed)
    requires SoundPath(x) && IsPointerFree(x) && MayFollow(p, x)
    ensures var h, rest := x.c.base.head, ShowTokens(Regrouped(x.c.refs), RenamedBehind(x, p));
            && MayFollowHead(rest) && !PointerShown(rest)
            && (h.Conversion? ==> MayFollow(rest, h.to) && (rest.Then? ==> rest.token.kind != Identifier))
            && (h.MemberConversion? ==> MayFollow(rest, h.of))
  {
    FirstIsSound(x);
    hide SoundPath, SoundHead, Renamed, ShowPath, IsName;
    var refs, q := Regrouped(x.c.refs), RenamedBehind(x, p);
    RegroupedAreApart(x.c.refs);
    hide Regrouped;
    if refs != [] {
      assert ShowTokens(refs, q).token == refs[0] && IsPointerRef(refs[0]);
    } else {
      assert ShowTokens(refs, q) == q;
    }
  }
}
