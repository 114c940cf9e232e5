/** Token lists written out with whitespace between them, and when a text is read as those tokens. */
module PrintedTexts {
  import opened Wrappers
  import opened SymbolLexer
  import opened SymbolGrammar
  import opened PrintedSymbols
  import PruningProof

  // ---------------------------------------------------------------- single tokens

  predicate IsNumberLiteral(s: string) {
    s != "" && IsDigit(s[0]) && forall i :: 0 <= i < |s| ==> IsNumberContinue(s[i])
  }

  /** A whole MSVC string: it is the shortest start of itself in which every backquote is closed. */
  predicate IsMsvcLiteral(s: string) {
    s != "" && s[0] == '`' && MsvcEnd(s, 0, 0) == Some(|s|) && s != ANONYMOUS_MSVC
  }

  predicate IsQuotedLiteral(s: string) {
    s != "" && IsQuote(s[0]) && QuotedEnd(s, 1, s[0]) == Some(|s|)
  }

  /** A character that is in no other token. */
  predicate IsStray(s: string) {
    && |s| == 1 && !IsPunctuation1(s[0]) && !IsIdentifierStart(s[0]) && !IsDigit(s[0])
    && s[0] != '`' && !IsQuote(s[0])
  }

  predicate IsToken(t: Token) {
    match t.kind
    case Identifier => IsName(t.str)
    case Literal => IsNumberLiteral(t.str) || IsMsvcLiteral(t.str) || IsQuotedLiteral(t.str)
    case AnonymousNamespace => t.str == ANONYMOUS_GNU || t.str == ANONYMOUS_MSVC
    case Punctuation => IsOperator(t.str) || IsStray(t.str)
  }

  /** A token ends in front of r: it does not go on there. */
  predicate EndsBefore(t: Token, r: string) {
    match t.kind
    case Identifier => r == "" || !IsIdentifierContinue(r[0])
    case Literal => t.str != "" && IsDigit(t.str[0]) && r != "" ==> !IsNumberContinue(r[0])
    case AnonymousNamespace => true
    case Punctuation => IsOperator(t.str) ==> PunctuationLength(t.str + r) == |t.str| && !(ANONYMOUS_GNU <= t.str + r)
  }

  lemma {:induction false} IdentifierRun(n: string, r: string, i: nat)
    requires i <= |n| && forall k :: i <= k < |n| ==> IsIdentifierContinue(n[k])
    ensures IdentifierEnd(n + r, i) == |n| <==> r == "" || !IsIdentifierContinue(r[0])
    decreases |n| - i
  {
    if i < |n| {
      assert (n + r)[i] == n[i];
      IdentifierRun(n, r, i + 1);
    } else if r != "" {
      assert (n + r)[i] == r[0];
    }
  }

  lemma {:induction false} NumberRun(n: string, r: string, i: nat)
    requires i <= |n| && forall k :: i <= k < |n| ==> IsNumberContinue(n[k])
    ensures NumberEnd(n + r, i) == |n| <==> r == "" || !IsNumberContinue(r[0])
    decreases |n| - i
  {
    if i < |n| {
      assert (n + r)[i] == n[i];
      NumberRun(n, r, i + 1);
    } else if r != "" {
      assert (n + r)[i] == r[0];
    }
  }

  lemma {:induction false} MsvcRun(n: string, r: string, i: nat, depth: int)
    requires i < |n|
    ensures MsvcEnd(n + r, i, depth) == Some(|n|) <==> MsvcEnd(n, i, depth) == Some(|n|)
    ensures MsvcEnd(n, i, depth).Some? ==> MsvcEnd(n + r, i, depth) == MsvcEnd(n, i, depth)
    decreases |n| - i
  {
    assert (n + r)[i] == n[i];
    if i + 1 < |n| {
      MsvcRun(n, r, i + 1, depth + Nesting(n[i]));
    }
  }

  lemma {:induction false} QuotedRun(n: string, r: string, i: nat, quote: char)
    requires i <= |n|
    ensures QuotedEnd(n + r, i, quote) == Some(|n|) <==> QuotedEnd(n, i, quote) == Some(|n|)
    decreases |n| - i
  {
    if i < |n| {
      assert (n + r)[i] == n[i];
      if n[i] == quote {
      } else if n[i] == '\\' {
        if i + 3 <= |n| {
          QuotedRun(n, r, i + 3, quote);
        }
      } else {
        QuotedRun(n, r, i + 1, quote);
      }
    }
  }

  lemma FirstOfTags(s: string)
    requires s != ""
    ensures ANONYMOUS_GNU <= s ==> s[0] == '('
    ensures ANONYMOUS_MSVC <= s ==> s[0] == '`'
  {
    assert ANONYMOUS_GNU[0] == '(' && ANONYMOUS_MSVC[0] == '`';
  }

  lemma {:induction false} ClosesAtQuote(s: string, i: nat, e: nat)
    requires i <= e < |s| && s[e] == '\'' && forall k :: i <= k < e ==> s[k] != '`' && s[k] != '\''
    ensures MsvcEnd(s, i, 1) == Some(e + 1)
    decreases e - i
  {
    if i < e {
      ClosesAtQuote(s, i + 1, e);
    }
  }

  lemma TagIsWholeString(r: string)
    ensures MsvcEnd(ANONYMOUS_MSVC + r, 0, 0) == Some(|ANONYMOUS_MSVC|)
  {
    var s := ANONYMOUS_MSVC + r;
    assert s[0] == '`' && s[20] == '\'';
    assert forall k :: 1 <= k < 20 ==> s[k] == ANONYMOUS_MSVC[k];
    ClosesAtQuote(s, 1, 20);
  }

  /** The token at the front of a text that does not start with a tag, told by its first character. */
  lemma TokenByFirst(s: string)
    requires s != "" && !(ANONYMOUS_GNU <= s) && !(ANONYMOUS_MSVC <= s)
    ensures IsDigit(s[0]) ==> Lex(s) == Ok(Some(Token(Literal, s[..NumberEnd(s, 0)])))
    ensures s[0] == '`' ==> Lex(s) == LiteralUpTo(s, MsvcEnd(s, 0, 0))
    ensures IsQuote(s[0]) ==> Lex(s) == LiteralUpTo(s, QuotedEnd(s, 1, s[0]))
    ensures IsPunctuation1(s[0]) ==> PunctuationLength(s) > 0 && Lex(s) == Ok(Some(Punct(s[..PunctuationLength(s)])))
    ensures IsIdentifierStart(s[0]) ==> Lex(s) == Ok(Some(Ident(s[..IdentifierEnd(s, 0)])))
    ensures IsStray(s[..1]) ==> Lex(s) == Ok(Some(Punct(s[..1])))
  {
  }

  lemma Prefix(a: string, r: string, e: nat)
    requires e <= |a + r|
    ensures (a + r)[..e] == a <==> e == |a|
  {
    assert (a + r)[..|a|] == a;
  }

  lemma IdentifierIsExact(t: Token, r: string)
    requires t.str != "" && IsIdentifierStart(t.str[0])
    ensures Lex(t.str + r) == Ok(Some(t)) <==> IsToken(t) && EndsBefore(t, r)
  {
    var s := t.str + r;
    assert s[0] == t.str[0];
    FirstOfTags(s);
    TokenByFirst(s);
    FirstOfTags(t.str);
    hide Lex;
    var e := IdentifierEnd(s, 0);
    Prefix(t.str, r, e);
    if IsName(t.str) {
      IdentifierRun(t.str, r, 0);
    } else {
      var k :| 0 <= k < |t.str| && !IsIdentifierContinue(t.str[k]);
      assert s[k] == t.str[k];
    }
  }

  lemma NumberIsExact(t: Token, r: string)
    requires t.str != "" && IsDigit(t.str[0])
    ensures Lex(t.str + r) == Ok(Some(t)) <==> IsToken(t) && EndsBefore(t, r)
  {
    var s := t.str + r;
    assert s[0] == t.str[0];
    FirstOfTags(s);
    TokenByFirst(s);
    FirstOfTags(t.str);
    hide Lex;
    var e := NumberEnd(s, 0);
    Prefix(t.str, r, e);
    if IsNumberLiteral(t.str) {
      NumberRun(t.str, r, 0);
    } else {
      var k :| 0 <= k < |t.str| && !IsNumberContinue(t.str[k]);
      assert s[k] == t.str[k];
    }
  }

  lemma QuotedIsExact(t: Token, r: string)
    requires t.str != "" && IsQuote(t.str[0])
    ensures Lex(t.str + r) == Ok(Some(t)) <==> IsToken(t) && EndsBefore(t, r)
  {
    var s := t.str + r;
    assert s[0] == t.str[0];
    FirstOfTags(s);
    TokenByFirst(s);
    FirstOfTags(t.str);
    hide Lex;
    QuotedRun(t.str, r, 1, s[0]);
    var e := QuotedEnd(s, 1, s[0]);
    if e.Some? {
      Prefix(t.str, r, e.value);
    }
  }

  lemma TagIsNoLiteral(n: string, r: string)
    requires ANONYMOUS_MSVC <= n + r
    ensures !IsMsvcLiteral(n)
  {
    var s := n + r;
    assert s == ANONYMOUS_MSVC + s[21..];
    TagIsWholeString(s[21..]);
    if n != "" && n[0] == '`' {
      MsvcRun(n, r, 0, 0);
      if |n| == 21 {
        assert n == s[..21];
      }
    }
  }

  lemma TokenAtBackquote(t: Token)
    requires t.str != "" && t.str[0] == '`'
    ensures IsToken(t) <==> (t.kind == Literal && IsMsvcLiteral(t.str)) || t == Token(AnonymousNamespace, ANONYMOUS_MSVC)
  {
    hide IsMsvcLiteral;
    FirstOfTags(t.str);
  }

  lemma BackquotedIsExact(t: Token, r: string)
    requires t.str != "" && t.str[0] == '`'
    ensures Lex(t.str + r) == Ok(Some(t)) <==> IsToken(t) && EndsBefore(t, r)
  {
    var s := t.str + r;
    assert s[0] == t.str[0];
    FirstOfTags(s);
    TokenAtBackquote(t);
    if ANONYMOUS_MSVC <= s {
      assert Lex(s) == Ok(Some(Token(AnonymousNamespace, ANONYMOUS_MSVC)));
      hide *;
      TagIsNoLiteral(t.str, r);
      BackquotedEnds(t, r);
    } else {
      TokenByFirst(s);
      hide Lex, IsToken;
      MsvcRun(t.str, r, 0, 0);
      var e := MsvcEnd(s, 0, 0);
      if e.Some? {
        Prefix(t.str, r, e.value);
      }
    }
  }

  lemma BackquotedEnds(t: Token, r: string)
    requires t.str != "" && t.str[0] == '`'
    ensures IsToken(t) ==> EndsBefore(t, r)
  {
    TokenAtBackquote(t);
  }

  lemma PunctuationIsExact(t: Token, r: string)
    requires t.str != "" && (IsPunctuation1(t.str[0]) || IsStray(t.str[..1])) && t.kind != AnonymousNamespace
    ensures Lex(t.str + r) == Ok(Some(t)) <==> IsToken(t) && EndsBefore(t, r)
  {
    var s := t.str + r;
    assert s[0] == t.str[0];
    FirstOfTags(s);
    if !(ANONYMOUS_GNU <= s) {
      TokenByFirst(s);
      hide Lex;
      assert s[..1] == t.str[..1];
      if IsPunctuation1(s[0]) {
        Prefix(t.str, r, PunctuationLength(s));
        if PunctuationLength(s) == |t.str| {
          LongestOfPrefix(t.str, r);
        }
      } else {
        Prefix(t.str, r, 1);
      }
    }
  }

  /** A text that is the longest operator at its front is one itself. */
  lemma LongestOfPrefix(op: string, r: string)
    requires op != "" && PunctuationLength(op + r) == |op|
    ensures PunctuationLength(op) == |op|
  {
    var s := op + r;
    assert s[0] == op[0];
    assert |op| >= 2 ==> s[1] == op[1];
    assert |op| >= 3 ==> s[2] == op[2];
  }

  /** What the tokenizer takes for a token: exactly a token that does not go on in what follows. */
  lemma LexIsExact(t: Token, r: string)
    requires t.str != "" && !IsSpace(t.str[0])
    ensures Lex(t.str + r) == Ok(Some(t)) <==> IsToken(t) && EndsBefore(t, r)
  {
    var c := t.str[0];
    if t.kind == AnonymousNamespace {
      TagIsExact(t, r);
    } else if IsIdentifierStart(c) {
      IdentifierIsExact(t, r);
    } else if IsDigit(c) {
      NumberIsExact(t, r);
    } else if IsQuote(c) {
      QuotedIsExact(t, r);
    } else if c == '`' {
      BackquotedIsExact(t, r);
    } else {
      PunctuationIsExact(t, r);
    }
  }

  lemma TagIsExact(t: Token, r: string)
    requires t.str != "" && t.kind == AnonymousNamespace
    ensures Lex(t.str + r) == Ok(Some(t)) <==> IsToken(t)
  {
    var s := t.str + r;
    FirstOfTags(s);
    Prefix(t.str, r, if ANONYMOUS_GNU <= s || ANONYMOUS_MSVC <= s then 21 else 0);
  }

  // ---------------------------------------------------------------- closers

  /** What may follow a `>` for the list to end there. */
  predicate EndsCloser(r: string) {
    r == "" || (r[0] != '=' && !(r[0] == '>' && |r| > 1 && r[1] == '='))
  }

  /** In a template argument list `>` is one token, however many follow it, but not before `=`. */
  lemma CloserIsExact(r: string)
    ensures LexIn(">" + r, true) == Ok(Some(Punct(">"))) <==> EndsCloser(r)
  {
    var s := ">" + r;
    assert s[0] == '>' && s[..1] == ">";
    assert r != "" ==> s[1] == r[0];
    assert |r| > 1 ==> s[2] == r[1];
    FirstOfTags(s);
    TokenByFirst(s);
    hide Lex;
    var n := PunctuationLength(s);
    if n == 2 && s[1] == '>' {
      assert s[..2] == ">>";
    }
  }

  // ---------------------------------------------------------------- texts

  /** The tokens with these gaps after them; where the gaps run out there are none. */
  function Text(p: Printed, gaps: seq<string>): string
    decreases p, 0
  {
    match p
    case End => ""
    case Then(t, more) => t.str + TextAfter(more, gaps)
    case Close(more) => ">" + TextAfter(more, gaps)
  }

  function TextAfter(p: Printed, gaps: seq<string>): string
    decreases p, 1
  {
    if gaps == [] then Text(p, []) else gaps[0] + Text(p, gaps[1..])
  }

  predicate IsGap(gap: string) {
    forall c | c in gap :: IsSpace(c)
  }

  /** No token runs into the next one. */
  predicate IsLaidOut(p: Printed, gaps: seq<string>)
    decreases p, 0
  {
    match p
    case End => true
    case Then(t, more) =>
      IsToken(t) && !IsSpace(t.str[0]) && EndsBefore(t, TextAfter(more, gaps)) && IsLaidOutAfter(more, gaps)
    case Close(more) => EndsCloser(TextAfter(more, gaps)) && IsLaidOutAfter(more, gaps)
  }

  predicate IsLaidOutAfter(p: Printed, gaps: seq<string>)
    decreases p, 1
  {
    if gaps == [] then IsLaidOut(p, []) else IsGap(gaps[0]) && IsLaidOut(p, gaps[1..])
  }

  lemma {:induction false} SkipGap(gap: string, s: string)
    requires IsGap(gap) && SkipSpace(s) == s
    ensures SkipSpace(gap + s) == s
  {
    if gap == "" {
      assert gap + s == s;
    } else {
      assert (gap + s)[1..] == gap[1..] + s;
      SkipGap(gap[1..], s);
    }
  }

  lemma SkipNone(s: string)
    requires s == "" || !IsSpace(s[0])
    ensures SkipSpace(s) == s
  {
  }

  lemma TokenNotEmpty(t: Token)
    requires IsToken(t)
    ensures t.str != ""
  {
  }

  lemma {:induction false} TextReads(p: Printed, gaps: seq<string>)
    requires IsLaidOut(p, gaps)
    ensures ReadsAs(Text(p, gaps), p) && SkipSpace(Text(p, gaps)) == Text(p, gaps)
    decreases p, 0
  {
    hide Lex, LexIn, IsToken, EndsBefore, EndsCloser, SkipSpace;
    var s := Text(p, gaps);
    match p
    case End => SkipNone(s);
    case Then(t, more) =>
      TokenNotEmpty(t);
      LexIsExact(t, TextAfter(more, gaps));
      TextReadsAfter(more, gaps);
      assert s[|t.str|..] == TextAfter(more, gaps);
      SkipNone(s);
    case Close(more) =>
      CloserIsExact(TextAfter(more, gaps));
      TextReadsAfter(more, gaps);
      assert s[1..] == TextAfter(more, gaps);
      SkipNone(s);
  }

  lemma {:induction false} TextReadsAfter(p: Printed, gaps: seq<string>)
    requires IsLaidOutAfter(p, gaps)
    ensures ReadsAs(SkipSpace(TextAfter(p, gaps)), p)
    decreases p, 1
  {
    if gaps == [] {
      TextReads(p, []);
    } else {
      TextReads(p, gaps[1..]);
      SkipGap(gaps[0], Text(p, gaps[1..]));
    }
  }

  /** The whitespace at the front of a text. */
  function GapOf(s: string): (gap: string)
    ensures IsGap(gap) && s == gap + SkipSpace(s)
  {
    if s != "" && IsSpace(s[0]) then [s[0]] + GapOf(s[1..]) else ""
  }

  /** Reading as tokens is being those tokens with gaps between them. */
  lemma {:induction false} ReadsAreTexts(s: string, p: Printed) returns (gaps: seq<string>)
    requires ReadsAs(s, p) && SkipSpace(s) == s
    ensures Text(p, gaps) == s && IsLaidOut(p, gaps)
    decreases p
  {
    hide Lex, LexIn, IsToken, EndsBefore, EndsCloser, SkipSpace;
    if p.End? {
      gaps := [];
    } else {
      var t := if p.Then? then p.token else Punct(">");
      var r := s[|t.str|..];
      var more := ReadsAreTexts(SkipSpace(r), p.more) by { SkipTwice(r); }
      gaps := [GapOf(r)] + more;
      assert TextAfter(p.more, gaps) == r;
      assert s == t.str + r;
      if p.Then? {
        NoSpaceFirst(s, t);
        LexIsExact(t, r);
      } else {
        CloserIsExact(r);
      }
    }
  }

  lemma {:induction false} SkipTwice(s: string)
    ensures SkipSpace(SkipSpace(s)) == SkipSpace(s)
  {
    if s != "" && IsSpace(s[0]) {
      SkipTwice(s[1..]);
    }
  }

  lemma NoSpaceFirst(s: string, t: Token)
    requires SkipSpace(s) == s && s != "" && t.str != "" && t.str <= s
    ensures !IsSpace(t.str[0])
  {
  }

  // ---------------------------------------------------------------- pruning texts

  /** However a declaration is spaced, pruning leaves the name of its last part. */
  lemma PruneText(xs: seq<Path>, gaps: seq<string>)
    requires ValidPaths(xs) && IsLaidOut(ShowPaths(xs), gaps)
    ensures Prune(Text(ShowPaths(xs), gaps)) == if AnyFails(xs) then Text(ShowPaths(xs), gaps) else QualifiedName(xs)
  {
    hide *;
    TextReads(ShowPaths(xs), gaps);
    PruningProof.PruneDeclaration(Text(ShowPaths(xs), gaps), xs);
  }
}
