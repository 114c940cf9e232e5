/** Groups, template argument lists and modifiers behind a name are passed over whole: nested lists, `>>`
    for two closers, operators in lists and anything in other brackets. */
module PrintedGroups {
  import opened Wrappers
  import opened SymbolLexer
  import opened SymbolGrammar
  import opened PrintedSymbols
  import BalancedGroups

  /** The output is the same and what is left reads as p. */
  ghost predicate Leaves(r: Result<State, ParseError>, p: Printed, out: Output) {
    r.Ok? && ReadsAs(r.value.rest, p) && r.value.out == out
  }

  // ---------------------------------------------------------------- groups

  lemma OneToken(st: State, b: Bracket, depth: nat, t: Token)
    requires Lex(st.rest) == Ok(Some(t)) && |t.str| <= |st.rest|
    ensures Balanced(st, Left(b), depth + 1)
         == Balanced(Take(st, t), Left(b),
                     if t == Punct(Left(b)) then depth + 2 else if t == Punct(Right(b)) then depth else depth + 1)
  {
    hide Lex, AfterToken;
  }

  lemma {:induction false} GroupIsPassed(ts: seq<Token>, b: Bracket, depth: nat, p: Printed, st: State)
    requires Fits(ts, b, depth) && ReadsAs(st.rest, ShowTokens(ts, Then(Punct(Right(b)), p)))
    ensures Leaves(Balanced(st, Left(b), depth + 1), p, st.out)
    decreases |ts|
  {
    hide Lex, AfterToken, Balanced;
    if ts == [] {
      OneToken(st, b, 0, Punct(Right(b)));
      NothingOpen(Take(st, Punct(Right(b))), Left(b));
    } else {
      var t := ts[0];
      OneToken(st, b, depth, t);
      var depth' := if t == Punct(Left(b)) then depth + 1 else if t == Punct(Right(b)) then depth - 1 else depth;
      GroupIsPassed(ts[1..], b, depth', p, Take(st, t));
    }
  }

  lemma NothingOpen(st: State, opening: string)
    requires IsOpening(opening)
    ensures Balanced(st, opening, 0) == Ok(st)
  {
  }

  // ---------------------------------------------------------------- template argument lists

  /** What is left after one item. */
  ghost predicate ItemReads(st: State, weight: int, p: Printed) {
    var r := BalancedGroups.ItemAt(st);
    && r.Ok? && r.value.Some? && r.value.value.weight == weight
    && ReadsAs(r.value.value.after.rest, p) && r.value.value.after.out == st.out
  }

  function WeightOf(i: Item): int {
    if i.Opened? then -1 else if i.Closed? then 1 else 0
  }

  lemma ItemIsRead(i: Item, p: Printed, st: State)
    requires ValidItem(i) && ReadsAs(st.rest, ShowItem(i, p))
    ensures ItemReads(st, WeightOf(i), p)
  {
    hide Lex, AfterToken, Balanced, ItemReads;
    match i
    case Single(t) => TokenItem(t, p, st);
    case Opened => TokenItem(Punct("<"), p, st);
    case Closed => CloserItem(p, st);
    case Nested(b, inner) => NestedItem(b, inner, p, st);
    case OperatorThen(t) => OperatorItem(t, p, st);
    case OperatorBrackets(b) => OperatorBracketsItem(b, p, st);
  }

  lemma TokenItem(t: Token, p: Printed, st: State)
    requires ReadsAs(st.rest, Then(t, p))
    requires t == Punct("<") || ValidItem(Single(t))
    ensures ItemReads(st, if t == Punct("<") then -1 else 0, p)
  {
    hide Lex, AfterToken, Balanced, OperatorPunctuation;
    assert OperatorInList(st) == Ok((false, st));
  }

  lemma CloserItem(p: Printed, st: State)
    requires ReadsAs(st.rest, Close(p))
    ensures ItemReads(st, 1, p)
  {
    hide Lex, AfterToken, Balanced, OperatorPunctuation;
    assert OperatorInList(st) == Ok((false, st));
  }

  lemma NestedItem(b: Bracket, inner: seq<Token>, p: Printed, st: State)
    requires Fits(inner, b, 0) && ReadsAs(st.rest, ShowGroup(b, inner, p))
    ensures ItemReads(st, 0, p)
  {
    hide Lex, AfterToken, Balanced, OperatorPunctuation;
    assert OperatorInList(st) == Ok((false, st));
    GroupIsPassed(inner, b, 0, p, Take(st, Punct(Left(b))));
  }

  lemma OperatorItem(t: Token, p: Printed, st: State)
    requires ValidItem(OperatorThen(t)) && ReadsAs(st.rest, Then(Ident("operator"), Then(t, p)))
    ensures ItemReads(st, 0, p)
  {
    hide Lex, AfterToken, Balanced;
    var st1 := Take(st, Ident("operator"));
    if t.kind == Punctuation {
      assert OperatorInList(st) == Ok((true, Take(st1, t)));
    } else {
      assert OperatorInList(st) == Ok((false, st1));
    }
  }

  lemma OperatorBracketsItem(b: Bracket, p: Printed, st: State)
    requires b != Curly && ReadsAs(st.rest, Then(Ident("operator"), ShowGroup(b, [], p)))
    ensures ItemReads(st, 0, p)
  {
    hide Lex, AfterToken, Balanced;
    var st1 := Take(st, Ident("operator"));
    var st2 := Take(st1, Punct(Left(b)));
    assert ReadsAs(st2.rest, Then(Punct(Right(b)), p));
    assert OperatorInList(st) == Ok((true, Take(st2, Punct(Right(b)))));
  }

  /** After its `<` a list is passed over up to its own closer. */
  lemma {:induction false} ListIsPassed(items: seq<Item>, depth: nat, p: Printed, st: State)
    requires ListFits(items, depth) && ReadsAs(st.rest, ShowItems(items, Close(p)))
    ensures Leaves(Balanced(st, "<", depth + 1), p, st.out)
    decreases |items|
  {
    hide Lex, AfterToken, Balanced, BalancedGroups.ItemAt, ValidItem, ShowItem, ReadsAs;
    BalancedGroups.OneItem(st, depth + 1);
    hide BalancedGroups.PieceAt;
    if items == [] {
      ClosingItem(p, st);
      OneItemLess(st, depth);
      NothingOpen(BalancedGroups.ItemAt(st).value.value.after, "<");
    } else {
      var i := items[0];
      assert ShowItems(items, Close(p)) == ShowItem(i, ShowItems(items[1..], Close(p)));
      AnyItem(i, ShowItems(items[1..], Close(p)), st);
      OneItemLess(st, depth);
      ListIsPassed(items[1..], depth - WeightOf(i), p, BalancedGroups.ItemAt(st).value.value.after);
    }
  }

  lemma ClosingItem(p: Printed, st: State)
    requires ReadsAs(st.rest, ShowItems([], Close(p)))
    ensures ItemReads(st, 1, p)
  {
    CloserItem(p, st);
  }

  lemma AnyItem(i: Item, p: Printed, st: State)
    requires ValidItem(i) || i.Opened? || i.Closed?
    requires ReadsAs(st.rest, ShowItem(i, p))
    ensures ItemReads(st, WeightOf(i), p)
  {
    hide ItemReads, ReadsAs, ShowItem;
    ItemIsRead(i, p, st);
  }

  lemma OneItemLess(st: State, depth: nat)
    requires BalancedGroups.ItemAt(st).Ok? && BalancedGroups.ItemAt(st).value.Some?
    ensures var piece := BalancedGroups.ItemAt(st).value.value;
            Balanced(st, "<", depth + 1) == Balanced(piece.after, "<", depth + 1 - piece.weight)
  {
    hide Balanced, BalancedGroups.ItemAt;
    BalancedGroups.OneItem(st, depth + 1);
  }

  // ---------------------------------------------------------------- modifiers

  lemma ModifierGroup(m: Modifier, p: Printed, st: State)
    requires ValidGroup(m) && ReadsAs(st.rest, ShowModifier(m, p))
    ensures var r := BalancedGroup(st);
            r.Ok? && r.value.0 && ReadsAs(r.value.1.rest, p) && r.value.1.out == st.out
  {
    hide Lex, AfterToken, Balanced;
    match m
    case Group(b, inner) => GroupIsPassed(inner, b, 0, p, Take(st, Punct(Left(b))));
    case Arguments(items) => ListIsPassed(items, 0, p, Take(st, Punct("<")));
  }

  function ModifiersEnd(st: State): Result<State, ParseError> {
    var (_, st1) :- TrailingModifiers(st);
    Ok(st1)
  }

  lemma OneModifier(m: Modifier, p: Printed, st: State) returns (st1: State)
    requires ValidModifier(m) && ReadsAs(st.rest, ShowModifier(m, p))
    ensures ReadsAs(st1.rest, p) && st1.out == st.out && ModifiersEnd(st) == ModifiersEnd(st1)
  {
    hide Lex, AfterToken, Balanced, BalancedGroup;
    match m
    case Qualifier(id) =>
      st1 := Take(st, Ident(id));
      NoGroup(st, Ident(id));
    case Lone(t) =>
      st1 := Take(st, t);
      NoGroup(st, t);
      OneReference(st, t);
    case _ =>
      ModifierGroup(m, p, st);
      st1 := BalancedGroup(st).value.1;
  }

  lemma NoGroup(st: State, t: Token)
    requires Lex(st.rest) == Ok(Some(t)) && !(t.kind == Punctuation && IsOpening(t.str))
    ensures BalancedGroup(st) == Ok((false, st))
  {
    hide Lex;
  }

  /** Dropping references one by one is dropping them together. */
  lemma OneReference(st: State, t: Token)
    requires Lex(st.rest) == Ok(Some(t)) && IsPointerRef(t) && |t.str| <= |st.rest|
    ensures ModifiersEnd(st) == ModifiersEnd(Take(st, t))
  {
    hide Lex, AfterToken, Balanced;
    var st1 := Take(st, t);
    NoGroup(st, t);
    assert IgnoredIdentifier(st) == Ok((false, st));
    var next := Lex(st1.rest);
    if next.Ok? && next.value.Some? && IsPointerRef(next.value.value) {
      NoGroup(st1, next.value.value);
      assert IgnoredIdentifier(st1) == Ok((false, st1));
    } else {
      assert next.Ok? ==> PointerRefs(st1, false) == Ok((false, st1));
    }
  }

  lemma {:induction false} ModifiersArePassed(ms: seq<Modifier>, p: Printed, st: State)
    requires (forall m | m in ms :: ValidModifier(m)) && EndsModifiers(p)
    requires ReadsAs(st.rest, ShowModifiers(ms, p))
    ensures Leaves(ModifiersEnd(st), p, st.out)
    decreases |ms|
  {
    hide Lex, AfterToken, ModifiersEnd, ValidModifier, ShowModifier;
    if ms == [] {
      NoModifiers(p, st);
    } else {
      assert ValidModifier(ms[0]);
      var st1 := OneModifier(ms[0], ShowModifiers(ms[1..], p), st);
      ModifiersArePassed(ms[1..], p, st1);
    }
  }

  /** `::` and whatever ends a path. */
  predicate EndsModifiers(p: Printed) {
    EndsPath(p) || (p.Then? && p.token == Punct("::"))
  }

  lemma NoModifiers(p: Printed, st: State)
    requires EndsModifiers(p) && ReadsAs(st.rest, p)
    ensures ModifiersEnd(st) == Ok(st) && TrailingModifiers(st) == Ok((false, st))
    ensures PointerRefs(st, true) == Ok((false, st))
  {
    hide Lex, AfterToken;
    if p.Then? {
      NoGroup(st, p.token);
      assert IgnoredIdentifier(st) == Ok((false, st));
      assert PointerRefs(st, false) == Ok((false, st));
    }
  }

  // ---------------------------------------------------------------- pointers

  /** The output with the rest of a name appended. */
  function Finish(out: Output, n: Name): string {
    Spell(n, if out.reset then "" else out.name, !out.reset && out.lastWasIdentifier)
  }

  /** Something has been appended since the last reset. */
  predicate IsWritten(out: Output) {
    !out.reset && out.name != ""
  }

  lemma Appending(out: Output, t: Token, k: Name)
    ensures Finish(AppendOutput(out, t), k) == Finish(out, Word(t, k))
    ensures t.str != "" || IsWritten(out) ==> IsWritten(AppendOutput(out, t))
  {
    if out.reset {
      assert "" + "" + t.str == t.str;
    } else {
      assert out.name + "" + t.str == out.name + t.str;
    }
  }

  predicate NoReference(p: Printed) {
    p.Then? ==> !IsPointerRef(p.token)
  }

  /** References right after a name are kept. */
  lemma {:induction false} ReferencesAreKept(ts: seq<Token>, p: Printed, st: State, k: Name)
    requires (forall t | t in ts :: IsPointerRef(t)) && NoReference(p) && IsWritten(st.out)
    requires ReadsAs(st.rest, ShowTokens(ts, p)) && !p.Close?
    ensures var r := PointerRefs(st, true);
            && r.Ok? && ReadsAs(r.value.1.rest, p)
            && Finish(r.value.1.out, k) == Finish(st.out, WithTokens(ts, k)) && IsWritten(r.value.1.out)
    decreases |ts|
  {
    hide Lex, AfterToken, Finish, IsWritten, AppendOutput;
    if ts != [] {
      var t := ts[0];
      Appending(st.out, t, WithTokens(ts[1..], k));
      ReferencesAreKept(ts[1..], p, Take(Emit(st, t), t), k);
    }
  }

  lemma {:induction false} LookaheadIntoPointer(s: string, p: Printed)
    requires ReadsAs(s, p)
    ensures PointerAhead(s) == PointerIn(p)
    decreases p
  {
    hide Lex, AfterToken;
    if p.Then? {
      LookaheadIntoPointer(AfterToken(s, p.token), p.more);
    }
  }

  lemma Lookahead(s: string, p: Printed)
    requires ReadsAs(s, p)
    ensures LooksLikeFunctionPointer(s) == PointerShown(p)
  {
    hide Lex, AfterToken;
    if p.Then? && p.token == Punct("(") {
      LookaheadIntoPointer(AfterToken(s, p.token), p.more);
    }
  }

  /** Pointers, calling conventions and qualifiers in front of the name of a declarator are dropped. */
  lemma {:induction false} JunkIsPassed(junk: seq<Token>, p: Printed, st: State)
    requires (forall t | t in junk :: IsPointerJunk(t)) && p.Then? && !IsPointerJunk(p.token)
    requires ReadsAs(st.rest, ShowTokens(junk, p))
    ensures var r := PointerJunk(st);
            && r.Ok? && (ValidPointer(junk) ==> r.value.0)
            && ReadsAs(r.value.1.rest, p) && r.value.1.out == st.out
    decreases |junk|
  {
    hide Lex, AfterToken;
    if junk == [] {
      assert PointerJunk(st) == Ok((false, st));
    } else {
      JunkIsPassed(junk[1..], p, Take(st, junk[0]));
      assert IsPointerJunk(junk[0]);
    }
  }

  lemma {:induction false} PointerInJunk(junk: seq<Token>, p: Printed)
    requires ValidPointer(junk)
    ensures PointerIn(ShowTokens(junk, p))
  {
    if !IsPointerRef(junk[0]) {
      PointerInJunk(junk[1..], p);
    }
  }
}
