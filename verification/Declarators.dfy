/** What is left of function pointers and of conversions to them: when the declared name is, when the name of
    a type is, and when nothing can be parsed. */
module Declarators {
  import opened SymbolLexer
  import opened SymbolGrammar
  import opened PrintedSymbols
  import opened PrunedNames
  import opened PruningExamples
  import PrintedGroups
  import PruningProof

  // ---------------------------------------------------------------- declarators behind types

  /** The scopes of x with c at their end. */
  function WithLast(x: Path, c: Component): Path {
    if x.Scope? then Scope(x.c, x.star, WithLast(x.next, c)) else Last(c)
  }

  /** What is printed in front of the last part of a declaration. */
  function ShowBefore(xs: seq<Path>, more: Printed): Printed {
    if xs == [] then more else ShowPath(xs[0], ShowBefore(xs[1..], more))
  }

  /** A function or variable with its declarator behind a type: what stands in front of the type, such as
      specifiers; the scopes and the head of the type and what is printed behind that head; what stands in the
      parentheses in front of the name; the name; and what is printed behind the parentheses. */
  datatype Declaration = Declaration(before: seq<Path>, scopes: Path, head: Head, refs: seq<Token>, modifiers: seq<Modifier>,
                                     front: seq<Token>, name: Path, outer: seq<Modifier>) {
    function Type(): Path {
      WithLast(scopes, Component(Bare(head), refs, modifiers))
    }

    /** With the declarator printed as q. */
    function Show(q: Printed): Printed {
      ShowBefore(before, ShowPath(Type(), q))
    }

    function Behind(): Printed {
      ShowModifiers(outer, End)
    }

    /** The text is the declaration, its declarator read as one. */
    ghost predicate IsDeclaredIn(text: string) {
      ReadsAs(SkipSpace(text), Show(ShowDeclarator(front, name, Behind())))
    }

    /** The text is the declaration, its declarator read as a group of the tokens ts. */
    ghost predicate IsGroupedIn(text: string, ts: seq<Token>) {
      ReadsAs(SkipSpace(text), Show(ShowGroup(Round, ts, Behind())))
    }

    /** The pointer stands right behind the name of the type. ts are the tokens in the parentheses. */
    predicate IsDirect(ts: seq<Token>) {
      refs == [] && modifiers == [] && PointerShown(ShowGroup(Round, ts, Behind()))
    }

    /** The last part as it is parsed: the parser takes a declarator that is not direct for a group. */
    function Parsed(ts: seq<Token>): Path {
      if IsDirect(ts) then WithLast(scopes, Component(TypedDeclarator(head, front, name), [], outer))
      else WithLast(scopes, Component(Bare(head), refs, modifiers + [Group(Round, ts)] + outer))
    }
  }

  lemma {:induction false} ShowAppended(xs: seq<Path>, x: Path)
    ensures ShowPaths(xs + [x]) == ShowBefore(xs, ShowPath(x, End))
    decreases |xs|
  {
    hide ShowPath;
    if xs == [] {
      assert xs + [x] == [x] && [x][1..] == [];
      assert ShowPaths([]) == End;
    } else {
      assert (xs + [x])[1..] == xs[1..] + [x];
      ShowAppended(xs[1..], x);
    }
  }

  lemma {:induction false} ShowWithLast(x: Path, c: Component, p: Printed, c': Component, p': Printed)
    requires ShowComponent(c, p) == ShowComponent(c', p')
    ensures ShowPath(WithLast(x, c), p) == ShowPath(WithLast(x, c'), p')
  {
    hide ShowComponent;
    if x.Scope? {
      ShowWithLast(x.next, c, p, c', p');
    }
  }

  lemma {:induction false} ModifiersAppended(ms: seq<Modifier>, ms': seq<Modifier>, p: Printed)
    ensures ShowModifiers(ms + ms', p) == ShowModifiers(ms, ShowModifiers(ms', p))
    decreases |ms|
  {
    hide ShowModifier;
    if ms == [] {
      assert ms + ms' == ms';
    } else {
      assert (ms + ms')[1..] == ms[1..] + ms';
      ModifiersAppended(ms[1..], ms', p);
    }
  }

  lemma OneMoreGroup(ms: seq<Modifier>, ts: seq<Token>, outer: seq<Modifier>, p: Printed)
    ensures ShowModifiers(ms + [Group(Round, ts)] + outer, p)
         == ShowModifiers(ms, ShowGroup(Round, ts, ShowModifiers(outer, p)))
  {
    hide ShowModifier;
    var m, q := Group(Round, ts), ShowModifiers(outer, p);
    ModifiersAppended(ms + [m], outer, p);
    ModifiersAppended(ms, [m], q);
    OneShown(m, q);
    assert ShowModifier(m, q) == ShowGroup(Round, ts, q) by { GroupShown(ts, q); }
  }

  lemma GroupShown(ts: seq<Token>, p: Printed)
    ensures ShowModifier(Group(Round, ts), p) == ShowGroup(Round, ts, p)
  {
  }

  lemma ShownBare(h: Head, refs: seq<Token>, ms: seq<Modifier>, p: Printed)
    ensures ShowComponent(Component(Bare(h), refs, ms), p) == ShowHead(h, ShowTokens(refs, ShowModifiers(ms, p)))
  {
    var c := Component(Bare(h), refs, ms);
    assert ShowRest(c, p) == ShowTokens(refs, ShowModifiers(ms, p));
    assert ShowBase(c.base, ShowRest(c, p)) == ShowHead(h, ShowRest(c, p));
  }

  lemma ShownTyped(h: Head, junk: seq<Token>, inner: Path, ms: seq<Modifier>, p: Printed)
    ensures ShowComponent(Component(TypedDeclarator(h, junk, inner), [], ms), p)
         == ShowHead(h, ShowDeclarator(junk, inner, ShowModifiers(ms, p)))
  {
    hide ShowDeclarator;
    var c := Component(TypedDeclarator(h, junk, inner), [], ms);
    assert ShowRest(c, p) == ShowModifiers(ms, p);
    assert ShowBase(c.base, ShowRest(c, p)) == ShowHead(h, ShowDeclarator(junk, inner, ShowRest(c, p)));
  }

  /** However it is parsed, the declaration is printed the same way. */
  lemma ParsedIsPrinted(d: Declaration, ts: seq<Token>)
    ensures var q := if d.IsDirect(ts) then ShowDeclarator(d.front, d.name, d.Behind()) else ShowGroup(Round, ts, d.Behind());
            ShowPaths(d.before + [d.Parsed(ts)]) == d.Show(q)
  {
    hide ShowModifiers, ShowTokens, ShowGroup, ShowDeclarator, PointerShown, ShowHead, ShowComponent;
    var q := if d.IsDirect(ts) then ShowDeclarator(d.front, d.name, d.Behind()) else ShowGroup(Round, ts, d.Behind());
    var c := Component(Bare(d.head), d.refs, d.modifiers);
    ShownBare(d.head, d.refs, d.modifiers, q);
    if d.IsDirect(ts) {
      NothingBehind(q);
      ShownTyped(d.head, d.front, d.name, d.outer, End);
      ShowWithLast(d.scopes, c, q, Component(TypedDeclarator(d.head, d.front, d.name), [], d.outer), End);
    } else {
      var ms := d.modifiers + [Group(Round, ts)] + d.outer;
      OneMoreGroup(d.modifiers, ts, d.outer, End);
      ShownBare(d.head, d.refs, ms, End);
      ShowWithLast(d.scopes, c, q, Component(Bare(d.head), d.refs, ms), End);
    }
    ShowAppended(d.before, d.Parsed(ts));
  }

  lemma NothingBehind(p: Printed)
    ensures ShowTokens([], ShowModifiers([], p)) == p
  {
  }

  lemma {:induction false} BareName(x: Path, h: Head, refs: seq<Token>, ms: seq<Modifier>, ms': seq<Modifier>, k: Name)
    ensures NameOfPath(WithLast(x, Component(Bare(h), refs, ms)), k) == NameOfPath(WithLast(x, Component(Bare(h), refs, ms')), k)
  {
    hide NameOfHead;
    if x.Scope? {
      BareName(x.next, h, refs, ms, ms', k);
    } else {
      assert NameOfComponent(Component(Bare(h), refs, ms), k) == NameOfBase(Bare(h), WithTokens(refs, k));
      assert NameOfComponent(Component(Bare(h), refs, ms'), k) == NameOfBase(Bare(h), WithTokens(refs, k));
    }
  }

  lemma {:induction false} LastEnds(x: Path, c: Component, k: Name)
    ensures EndsIn(NameOfPath(WithLast(x, c), k), NameOfComponent(c, k))
  {
    hide NameOfComponent;
    if x.Scope? {
      var n := NameOfPath(WithLast(x.next, c), k);
      LastEnds(x.next, c, k);
      ComponentEnds(x.c, WithScope(x.star, n));
      assert x.star ==> EndsIn(Word(Punct("*"), n), n);
      assert EndsIn(WithScope(x.star, n), n);
      EndsInTransitive(NameOfPath(WithLast(x, c), k), WithScope(x.star, n), n);
      EndsInTransitive(NameOfPath(WithLast(x, c), k), n, NameOfComponent(c, k));
    }
  }

  /** A declarator starts the name afresh, whatever scopes and type stand in front of it. */
  lemma DeclaratorName(x: Path, h: Head, junk: seq<Token>, inner: Path, ms: seq<Modifier>)
    ensures QualifiedName([WithLast(x, Component(TypedDeclarator(h, junk, inner), [], ms))]) == QualifiedName([inner])
  {
    var c := Component(TypedDeclarator(h, junk, inner), [], ms);
    LastEnds(x, c, Nothing);
    var text, after := SpellFrom(NameOfPath(WithLast(x, c), Nothing), NameOfComponent(c, Nothing), "", false);
    assert NameOfComponent(c, Nothing) == NameOfBase(c.base, Nothing) == Restart(NameOfPath(inner, Nothing));
  }

  lemma NameOfAppended(xs: seq<Path>, x: Path)
    ensures QualifiedName(xs + [x]) == QualifiedName([x])
  {
    hide NameOfPath, Spell;
  }

  /** The name of a function or variable with a declarator is left exactly if the pointer stands right behind
      the name of the type; otherwise the name of the type is left. The text is read as the declarator, or as
      a group in which there are the tokens ts. */
  lemma DeclaratorBehindType(text: string, d: Declaration, ts: seq<Token>)
    requires d.IsDeclaredIn(text) && d.IsGroupedIn(text, ts)
    requires ValidPaths(d.before + [d.Parsed(ts)]) && !AnyFails(d.before + [d.Parsed(ts)])
    ensures Prune(text) == QualifiedName([if d.IsDirect(ts) then d.name else d.Type()])
    ensures QualifiedName([d.name]) != QualifiedName([d.Type()]) ==>
              (Prune(text) == QualifiedName([d.name]) <==> d.IsDirect(ts))
  {
    hide Prune, ReadsAs, ValidPaths, AnyFails, ShowDeclarator, ShowGroup, QualifiedName, SkipSpace;
    ParsedIsPrinted(d, ts);
    PruningProof.PruneDeclaration(text, d.before + [d.Parsed(ts)]);
    NameOfAppended(d.before, d.Parsed(ts));
    if d.IsDirect(ts) {
      DeclaratorName(d.scopes, d.head, d.front, d.name, d.outer);
    } else {
      TypeName(d.scopes, d.head, d.refs, d.modifiers + [Group(Round, ts)] + d.outer, d.modifiers);
    }
  }

  lemma TypeName(x: Path, h: Head, refs: seq<Token>, ms: seq<Modifier>, ms': seq<Modifier>)
    ensures QualifiedName([WithLast(x, Component(Bare(h), refs, ms))])
         == QualifiedName([WithLast(x, Component(Bare(h), refs, ms'))])
  {
    BareName(x, h, refs, ms, ms', Nothing);
    hide NameOfPath, WithLast;
  }

  // ---------------------------------------------------------------- functions that return functions

  lemma {:induction false} TokensAppended(ts: seq<Token>, ts': seq<Token>, p: Printed)
    ensures ShowTokens(ts + ts', p) == ShowTokens(ts, ShowTokens(ts', p))
    decreases |ts|
  {
    if ts == [] {
      assert ts + ts' == ts';
    } else {
      assert (ts + ts')[1..] == ts[1..] + ts';
      TokensAppended(ts[1..], ts', p);
    }
  }

  lemma {:induction false} FitsAppended(ts: seq<Token>, ts': seq<Token>, b: Bracket, depth: nat)
    requires Fits(ts, b, depth) && Fits(ts', b, 0)
    ensures Fits(ts + ts', b, depth)
    decreases |ts|
  {
    if ts == [] {
      assert ts + ts' == ts';
    } else {
      assert (ts + ts')[1..] == ts[1..] + ts';
      FitsAppended(ts[1..], ts', b, if ts[0] == Punct(Left(b)) then depth + 1
                                    else if ts[0] == Punct(Right(b)) then depth - 1 else depth);
    }
  }

  lemma {:induction false} FitsClosed(ts: seq<Token>, b: Bracket, depth: nat)
    requires Fits(ts, b, depth)
    ensures Fits(ts + [Punct(Right(b))], b, depth + 1)
    decreases |ts|
  {
    var all := ts + [Punct(Right(b))];
    if ts == [] {
      assert all[1..] == [];
    } else {
      assert all[1..] == ts[1..] + [Punct(Right(b))];
      FitsClosed(ts[1..], b, if ts[0] == Punct(Left(b)) then depth + 1
                             else if ts[0] == Punct(Right(b)) then depth - 1 else depth);
    }
  }

  /** `f(...)` as tokens. */
  function CallTokens(f: string, inner: seq<Token>): seq<Token> {
    [Ident(f), Punct("(")] + (inner + [Punct(")")])
  }

  lemma CallFits(f: string, inner: seq<Token>)
    requires Fits(inner, Round, 0)
    ensures Fits(CallTokens(f, inner), Round, 0)
  {
    var closed := inner + [Punct(")")];
    FitsClosed(inner, Round, 0);
    hide Fits;
    assert CallTokens(f, inner)[1..] == [Punct("(")] + closed && CallTokens(f, inner)[1..][1..] == closed;
    TwoMore(Ident(f), closed);
    assert [Ident(f), Punct("(")] + closed == CallTokens(f, inner);
  }

  lemma TwoMore(t: Token, ts: seq<Token>)
    requires t.kind == Identifier && Fits(ts, Round, 1)
    ensures Fits([t, Punct("(")] + ts, Round, 0)
  {
    var all := [t, Punct("(")] + ts;
    assert all[1..] == [Punct("(")] + ts && all[1..][1..] == ts;
    assert Fits(all[1..], Round, 0);
  }

  lemma CallShown(f: string, inner: seq<Token>, p: Printed)
    ensures ShowTokens(CallTokens(f, inner), p) == Then(Ident(f), ShowGroup(Round, inner, p))
  {
    var closed := inner + [Punct(")")];
    TokensAppended(inner, [Punct(")")], p);
    assert [Punct(")")][1..] == [];
    assert ShowTokens([Punct(")")], p) == Then(Punct(")"), ShowTokens([], p));
    assert CallTokens(f, inner)[1..] == [Punct("(")] + closed && CallTokens(f, inner)[1..][1..] == closed;
    assert ShowTokens([Punct("(")] + closed, p) == Then(Punct("("), ShowTokens(closed, p)) by {
      assert ([Punct("(")] + closed)[1..] == closed;
    }
  }

  /** `t refs ms (front f(inner)) outer`: a function whose type is that of a pointer. */
  function Function(t: string, refs: seq<Token>, ms: seq<Modifier>, front: seq<Token>, f: string, inner: seq<Token>,
                    outer: seq<Modifier>): Declaration
  {
    Declaration([], Only(Named(t), []), Named(t), refs, ms, front, Only(Named(f), [Group(Round, inner)]), outer)
  }

  /** What stands in front of the function's name is a pointer, or starts with something else, such as the `S` of
      `S::*`. */
  predicate IsPointerOrNot(front: seq<Token>) {
    && front != []
    && (ValidPointer(front) || (!IsPointerRef(front[0]) && !IsConvention(front[0]) && Fits(front, Round, 0)))
  }

  ghost predicate ValidFunction(t: string, refs: seq<Token>, ms: seq<Modifier>, front: seq<Token>, f: string,
                                inner: seq<Token>, outer: seq<Modifier>)
  {
    && IsName(t) && t != "operator" && IsName(f) && f != "operator" && !IsPointerJunk(Ident(f))
    && AreReferences(refs) && IsPointerOrNot(front) && Fits(inner, Round, 0)
    && (forall m | m in ms :: ValidModifier(m)) && (ms != [] ==> !ms[0].Lone?)
    && (forall m | m in outer :: ValidModifier(m)) && (outer != [] ==> !outer[0].Lone?)
    && !PointerIn(ShowTokens(inner, Then(Punct(")"), Then(Punct(")"), ShowModifiers(outer, End)))))
    && (refs == [] && ms != [] ==>
          !PointerShown(ShowModifiers(ms, ShowGroup(Round, front + CallTokens(f, inner), ShowModifiers(outer, End)))))
  }

  /** The name of the function is left exactly if the type is a name and nothing else and the parentheses open
      with a pointer. Otherwise the name of the type is left, with the pointers printed right behind it. */
  lemma FunctionName(text: string, t: string, refs: seq<Token>, ms: seq<Modifier>, front: seq<Token>, f: string,
                     inner: seq<Token>, outer: seq<Modifier>)
    requires ValidFunction(t, refs, ms, front, f, inner, outer)
    requires Function(t, refs, ms, front, f, inner, outer).IsGroupedIn(text, front + CallTokens(f, inner))
    ensures var isDirect, name := refs == [] && ms == [] && ValidPointer(front), Spell(WithTokens(refs, Nothing), t, true);
            && Prune(text) == (if isDirect then f else name)
            && (f != name ==> (Prune(text) == f <==> isDirect))
  {
    hide ReadsAs, SkipSpace, Prune, ShowPaths, ValidPaths, AnyFails, QualifiedName, Spell, ValidFunction, Fits;
    var d := Function(t, refs, ms, front, f, inner, outer);
    var ts := front + CallTokens(f, inner);
    FunctionShown(front, f, inner, d.Behind());
    FunctionIsDirect(t, refs, ms, front, f, inner, outer);
    FunctionIsValid(t, refs, ms, front, f, inner, outer);
    assert d.before + [d.Parsed(ts)] == [d.Parsed(ts)];
    DeclaratorBehindType(text, d, ts);
    CallName(f, [Group(Round, inner)]);
    TypeSpelling(t, refs, ms);
  }

  lemma CallName(f: string, ms: seq<Modifier>)
    ensures QualifiedName([Only(Named(f), ms)]) == f
  {
    NameOfOnly(Named(f), ms);
    SpellFirst(Ident(f), Nothing);
  }

  lemma FunctionShown(front: seq<Token>, f: string, inner: seq<Token>, p: Printed)
    ensures ShowDeclarator(front, Only(Named(f), [Group(Round, inner)]), p)
         == ShowGroup(Round, front + CallTokens(f, inner), p)
  {
    var q := Then(Punct(")"), p);
    CallShown(f, inner, q);
    TokensAppended(front, CallTokens(f, inner), q);
    hide ShowTokens;
    NamedParts(f, [Group(Round, inner)], q, Nothing);
    OneShown(Group(Round, inner), q);
    GroupShown(inner, q);
  }

  lemma TypeSpelling(t: string, refs: seq<Token>, ms: seq<Modifier>)
    ensures QualifiedName([WithLast(Only(Named(t), []), Component(Bare(Named(t)), refs, ms))])
         == Spell(WithTokens(refs, Nothing), t, true)
  {
    var k := WithTokens(refs, Nothing);
    var c := Component(Bare(Named(t)), refs, ms);
    assert WithLast(Only(Named(t), []), c) == Last(c);
    assert NameOfPath(Last(c), Nothing) == NameOfComponent(c, Nothing) == NameOfBase(c.base, k) == Word(Ident(t), k);
    hide NameOfPath, WithTokens;
    SpellFirst(Ident(t), k);
  }

  lemma FunctionIsDirect(t: string, refs: seq<Token>, ms: seq<Modifier>, front: seq<Token>, f: string,
                         inner: seq<Token>, outer: seq<Modifier>)
    requires ValidFunction(t, refs, ms, front, f, inner, outer)
    ensures var d := Function(t, refs, ms, front, f, inner, outer);
            d.IsDirect(front + CallTokens(f, inner)) <==> refs == [] && ms == [] && ValidPointer(front)
  {
    var p := ShowModifiers(outer, End);
    TokensAppended(front, CallTokens(f, inner), Then(Punct(")"), p));
    if ValidPointer(front) {
      PrintedGroups.PointerInJunk(front, ShowTokens(CallTokens(f, inner), Then(Punct(")"), p)));
    }
  }

  lemma FunctionIsValid(t: string, refs: seq<Token>, ms: seq<Modifier>, front: seq<Token>, f: string,
                        inner: seq<Token>, outer: seq<Modifier>)
    requires ValidFunction(t, refs, ms, front, f, inner, outer)
    ensures var xs := [Function(t, refs, ms, front, f, inner, outer).Parsed(front + CallTokens(f, inner))];
            ValidPaths(xs) && !AnyFails(xs)
  {
    hide ValidPath, Fails, IsName, Fits, PointerShown, ShowModifiers, ValidPointer;
    var d := Function(t, refs, ms, front, f, inner, outer);
    var ts := front + CallTokens(f, inner);
    FunctionIsDirect(t, refs, ms, front, f, inner, outer);
    if d.IsDirect(ts) {
      DirectIsValid(t, front, f, inner, outer);
    } else {
      GroupedIsValid(t, refs, ms, front, f, inner, outer);
    }
    var x := d.Parsed(ts);
    NoPaths();
    assert [x][1..] == [];
    assert x in [x];
  }

  lemma DirectIsValid(t: string, front: seq<Token>, f: string, inner: seq<Token>, outer: seq<Modifier>)
    requires ValidFunction(t, [], [], front, f, inner, outer) && ValidPointer(front)
    ensures var x := Last(Component(TypedDeclarator(Named(t), front, Only(Named(f), [Group(Round, inner)])), [], outer));
            ValidPath(x, End) && !Fails(x)
  {
    hide IsName, Fits, PointerIn, PointerShown, ValidPointer, ShowGroup;
    var name, p := Only(Named(f), [Group(Round, inner)]), ShowModifiers(outer, End);
    var q := Then(Punct(")"), p);
    var c := Component(TypedDeclarator(Named(t), front, name), [], outer);
    assert ValidModifier(Group(Round, inner)) by { GroupIsModifier(inner); }
    hide ValidModifier, IsPointerJunk;
    CallIsValid(f, inner, q);
    assert ValidDeclarator(front, name, p);
    assert ValidHead(Named(t), ShowDeclarator(front, name, p));
    assert ShowRest(c, End) == p;
    assert ValidBase(c.base, p);
    assert ValidComponent(c, End);
    assert !Fails(name) && !BaseFails(c.base);
  }

  lemma CallIsValid(f: string, inner: seq<Token>, q: Printed)
    requires IsName(f) && f != "operator" && ValidModifier(Group(Round, inner)) && EndsPath(q)
    requires !PointerIn(ShowTokens(inner, Then(Punct(")"), q)))
    ensures var name := Only(Named(f), [Group(Round, inner)]);
            && ValidPath(name, q) && !Fails(name) && DeclaresName(name)
            && ShowPath(name, q).Then? && ShowPath(name, q).token == Ident(f)
  {
    hide IsName, PointerIn, ValidModifier;
    var name := Only(Named(f), [Group(Round, inner)]);
    OneShown(Group(Round, inner), q);
    GroupShown(inner, q);
    NamedParts(f, [Group(Round, inner)], q, Nothing);
    assert !PointerShown(ShowModifiers([Group(Round, inner)], q));
    NamedComponent(f, [Group(Round, inner)], q);
    assert ShowPath(name, q) == ShowComponent(name.c, q);
    assert !BaseFails(name.c.base);
  }

  lemma GroupIsModifier(inner: seq<Token>)
    requires Fits(inner, Round, 0)
    ensures ValidModifier(Group(Round, inner))
  {
  }

  lemma {:induction false} PointersFit(junk: seq<Token>)
    requires forall t | t in junk :: IsPointerJunk(t)
    ensures Fits(junk, Round, 0)
    decreases |junk|
  {
    if junk != [] {
      assert IsPointerJunk(junk[0]);
      PointersFit(junk[1..]);
    }
  }

  lemma GroupedIsValid(t: string, refs: seq<Token>, ms: seq<Modifier>, front: seq<Token>, f: string,
                       inner: seq<Token>, outer: seq<Modifier>)
    requires ValidFunction(t, refs, ms, front, f, inner, outer) && !(refs == [] && ms == [] && ValidPointer(front))
    ensures var x := Last(Component(Bare(Named(t)), refs, ms + [Group(Round, front + CallTokens(f, inner))] + outer));
            ValidPath(x, End) && !Fails(x)
  {
    var ts, p := front + CallTokens(f, inner), ShowModifiers(outer, End);
    var m := Group(Round, ts);
    var all := ms + [m] + outer;
    assert ValidModifier(m) by {
      if ValidPointer(front) {
        PointersFit(front);
      }
      CallFits(f, inner);
      FitsAppended(front, CallTokens(f, inner), Round, 0);
      GroupIsModifier(ts);
    }
    OneMoreGroup(ms, ts, outer, End);
    var shown := ShowModifiers(ms, ShowGroup(Round, ts, p));
    assert !PointerShown(ShowTokens(refs, shown)) by {
      if refs != [] {
        assert IsPointerRef(refs[0]);
      } else if ms == [] {
        FunctionIsDirect(t, refs, ms, front, f, inner, outer);
      }
    }
    assert forall m' | m' in all :: ValidModifier(m');
    assert all[0] == if ms != [] then ms[0] else m;
    hide ValidModifier, PointerShown, IsName, ValidFunction;
    assert IsName(t) && t != "operator" && AreReferences(refs) by { ValidType(t, refs, ms, front, f, inner, outer); }
    var c := Component(Bare(Named(t)), refs, all);
    assert ShowRest(c, End) == ShowTokens(refs, shown);
    assert ValidHead(Named(t), ShowRest(c, End));
    assert ValidBase(c.base, ShowRest(c, End));
    assert ValidComponent(c, End);
    assert !HeadFails(Named(t)) && !BaseFails(c.base);
  }

  lemma ValidType(t: string, refs: seq<Token>, ms: seq<Modifier>, front: seq<Token>, f: string,
                  inner: seq<Token>, outer: seq<Modifier>)
    requires ValidFunction(t, refs, ms, front, f, inner, outer)
    ensures IsName(t) && t != "operator" && AreReferences(refs)
  {
  }

  // ---------------------------------------------------------------- two functions

  lemma Idents()
    ensures IsName("int") && IsName("f") && IsName("S") && IsName("void") && IsName("double") && IsName("operator")
    ensures !IsPointerJunk(Ident("f")) && !IsConvention(Ident("S"))
  {
  }

  /** `f())(int)` and what it is read as, from some token on. */
  function ArgumentsShown(): Printed {
    Then(Punct("("), Then(Ident("int"), Then(Punct(")"), End)))
  }

  function CallOfF(): Printed {
    Then(Ident("f"), Then(Punct("("), Then(Punct(")"), Then(Punct(")"), ArgumentsShown()))))
  }

  lemma CallOfFReads()
    ensures ReadsAs("f())(int)", CallOfF()) && SkipSpace("f())(int)") == "f())(int)"
  {
    hide Lex, LexIn, SkipSpace, ReadsAs, IsName, IsPointerJunk;
    Idents();
    NothingLeft();
    CloserInFront("", End);
    WordInFront("int", "", ")" + "", Then(Punct(")"), End));
    ParenthesisInFront("int" + ("" + (")" + "")), Then(Ident("int"), Then(Punct(")"), End)));
    var s, p := "(int)", ArgumentsShown();
    assert "(" + ("int" + ("" + (")" + ""))) == s;
    CloserInFront(s, p);
    CloserInFront(")" + s, Then(Punct(")"), p));
    ParenthesisInFront(")" + (")" + s), Then(Punct(")"), Then(Punct(")"), p)));
    WordInFront("f", "", "(" + (")" + (")" + s)), Then(Punct("("), Then(Punct(")"), Then(Punct(")"), p))));
    assert "f" + ("" + ("(" + (")" + (")" + s)))) == "f())(int)";
  }

  lemma FunctionPrinted(t: string, refs: seq<Token>, front: seq<Token>)
    ensures var d := Function(t, refs, [], front, "f", [], [Group(Round, [Ident("int")])]);
            var shown := d.Show(ShowGroup(Round, front + CallTokens("f", []), d.Behind()));
            shown == Then(Ident(t), ShowTokens(refs, Then(Punct("("), ShowTokens(front, CallOfF()))))
  {
    var outer := [Group(Round, [Ident("int")])];
    var d := Function(t, refs, [], front, "f", [], outer);
    OneShown(Group(Round, [Ident("int")]), End);
    GroupShown([Ident("int")], End);
    var arguments := ShowModifiers(outer, End);
    assert arguments == ArgumentsShown() by {
      assert [Ident("int")][1..] == [];
      assert ShowTokens([Ident("int")], Then(Punct(")"), End)) == Then(Ident("int"), ShowTokens([], Then(Punct(")"), End)));
    }
    hide ShowModifiers, ArgumentsShown;
    TokensAppended(front, CallTokens("f", []), Then(Punct(")"), arguments));
    CallShown("f", [], Then(Punct(")"), arguments));
    var q := ShowGroup(Round, front + CallTokens("f", []), arguments);
    hide ShowTokens;
    TypePrinted(t, refs, q);
  }

  lemma TypePrinted(t: string, refs: seq<Token>, q: Printed)
    ensures ShowPath(WithLast(Only(Named(t), []), Component(Bare(Named(t)), refs, [])), q) == Then(Ident(t), ShowTokens(refs, q))
  {
    hide ShowTokens;
    var c := Component(Bare(Named(t)), refs, []);
    ShownBare(Named(t), refs, [], q);
    assert ShowModifiers([], q) == q;
    assert WithLast(Only(Named(t), []), c) == Last(c);
    assert ShowPath(Last(c), q) == ShowComponent(c, q);
  }

  lemma ReadAsGroup(text: string, d: Declaration, ts: seq<Token>)
    requires ReadsAs(text, d.Show(ShowGroup(Round, ts, d.Behind()))) && SkipSpace(text) == text
    ensures d.IsGroupedIn(text, ts)
  {
  }

  lemma OneTokenShown(t: Token, p: Printed)
    ensures ShowTokens([t], p) == Then(t, p)
  {
    assert [t][1..] == [];
  }

  /** Behind `int*` a declarator is no declarator to the parser. */
  lemma FunctionBehindPointer()
    ensures Prune("int* (*f())(int)") == "int*"
  {
    hide *;
    var star, outer := [Punct("*")], [Group(Round, [Ident("int")])];
    ReturnsPointerReads();
    FunctionPrinted("int", star, star);
    OneTokenShown(Punct("*"), CallOfF());
    OneTokenShown(Punct("*"), Then(Punct("("), Then(Punct("*"), CallOfF())));
    ExampleIsValid("int", star, star);
    ReadAsGroup("int* (*f())(int)", Function("int", star, [], star, "f", [], outer), star + CallTokens("f", []));
    FunctionName("int* (*f())(int)", "int", star, [], star, "f", [], outer);
    StarSpelling("int");
  }

  lemma ReturnsPointerReads()
    ensures ReadsAs("int* (*f())(int)", Then(Ident("int"), Then(Punct("*"), Then(Punct("("), Then(Punct("*"), CallOfF())))))
    ensures SkipSpace("int* (*f())(int)") == "int* (*f())(int)"
  {
    hide Lex, LexIn, SkipSpace, ReadsAs, IsName, CallOfF;
    Idents();
    CallOfFReads();
    var s1 := "*" + ("" + "f())(int)");
    var p1 := Then(Punct("*"), CallOfF());
    StarInFront("", "f())(int)", CallOfF());
    ParenthesisInFront(s1, p1);
    var s2, p2 := "(" + s1, Then(Punct("("), p1);
    StarInFront(" ", s2, p2);
    var s3 := "*" + (" " + s2);
    WordInFront("int", "", s3, Then(Punct("*"), p2));
    assert "int" + ("" + s3) == "int* (*f())(int)";
  }

  lemma StarSpelling(t: string)
    ensures Spell(WithTokens([Punct("*")], Nothing), t, true) == t + "*"
  {
    assert [Punct("*")][1..] == [];
    assert WithTokens([Punct("*")], Nothing) == Word(Punct("*"), Nothing);
    SpellPunctuation("*", Nothing, t, true);
  }

  /** Neither is one that starts with the class of a pointer to member. */
  lemma FunctionToMember()
    ensures Prune("void (S::*f())(int)") == "void"
  {
    hide *;
    var front, outer := [Ident("S"), Punct("::"), Punct("*")], [Group(Round, [Ident("int")])];
    ReturnsMemberReads();
    FunctionPrinted("void", [], front);
    ThreeTokensShown(front, CallOfF());
    NothingBehindTokens(Then(Punct("("), ShowTokens(front, CallOfF())));
    ExampleIsValid("void", [], front);
    ReadAsGroup("void (S::*f())(int)", Function("void", [], [], front, "f", [], outer), front + CallTokens("f", []));
    FunctionName("void (S::*f())(int)", "void", [], [], front, "f", [], outer);
    NoPointerFirst(front);
    NothingSpelled("void");
  }

  lemma ReturnsMemberReads()
    ensures ReadsAs("void (S::*f())(int)",
                    Then(Ident("void"), Then(Punct("("), Then(Ident("S"), Then(Punct("::"), Then(Punct("*"), CallOfF()))))))
    ensures SkipSpace("void (S::*f())(int)") == "void (S::*f())(int)"
  {
    hide Lex, LexIn, SkipSpace, ReadsAs, IsName, CallOfF;
    Idents();
    var s, p := "S::*f())(int)", Then(Ident("S"), Then(Punct("::"), Then(Punct("*"), CallOfF())));
    ClassReads();
    ParenthesisInFront(s, p);
    WordInFront("void", " ", "(" + s, Then(Punct("("), p));
    assert "void" + (" " + ("(" + s)) == "void (S::*f())(int)";
  }

  lemma ClassReads()
    ensures ReadsAs("S::*f())(int)", Then(Ident("S"), Then(Punct("::"), Then(Punct("*"), CallOfF()))))
    ensures SkipSpace("S::*f())(int)") == "S::*f())(int)"
  {
    hide Lex, LexIn, SkipSpace, ReadsAs, IsName, CallOfF;
    Idents();
    CallOfFReads();
    var s := "*" + ("" + "f())(int)");
    StarInFront("", "f())(int)", CallOfF());
    ScopeInFront(s, Then(Punct("*"), CallOfF()));
    WordInFront("S", "", "::" + s, Then(Punct("::"), Then(Punct("*"), CallOfF())));
    assert "S" + ("" + ("::" + s)) == "S::*f())(int)";
  }

  lemma NoPointerFirst(front: seq<Token>)
    requires front != [] && front[0] == Ident("S")
    ensures !ValidPointer(front)
  {
    Idents();
  }

  lemma NothingSpelled(t: string)
    ensures Spell(WithTokens([], Nothing), t, true) == t
  {
  }

  lemma NothingBehindTokens(p: Printed)
    ensures ShowTokens([], p) == p
  {
  }

  lemma ThreeTokensShown(ts: seq<Token>, p: Printed)
    requires |ts| == 3
    ensures ShowTokens(ts, p) == Then(ts[0], Then(ts[1], Then(ts[2], p)))
  {
    assert ts[1..][1..] == ts[2..] && ts[2..][1..] == [];
    OneTokenShown(ts[2], p);
    assert ts[2..] == [ts[2]];
  }

  lemma ExampleIsValid(t: string, refs: seq<Token>, front: seq<Token>)
    requires t == "int" || t == "void"
    requires (refs == [] || refs == [Punct("*")]) && (front == [Punct("*")] || front == [Ident("S"), Punct("::"), Punct("*")])
    ensures ValidFunction(t, refs, [], front, "f", [], [Group(Round, [Ident("int")])])
  {
    hide IsName;
    Idents();
    var m := Group(Round, [Ident("int")]);
    assert ValidModifier(m) by {
      assert [Ident("int")][1..] == [];
      GroupIsModifier([Ident("int")]);
    }
    assert IsPointerOrNot(front) by { ExampleFront(front); }
  }

  lemma ExampleFront(front: seq<Token>)
    requires front == [Punct("*")] || front == [Ident("S"), Punct("::"), Punct("*")]
    ensures IsPointerOrNot(front)
  {
    if |front| == 3 {
      assert front[1..][1..] == front[2..] && front[2..][1..] == [];
      assert Fits(front[2..], Round, 0);
      assert Fits(front[1..], Round, 0);
    }
  }
}
