/** The stateful tokenizer of src/prune_symbol.cpp: a cursor into the symbol and a one-token cache. */
module Tokenizer {
  import opened Wrappers
  import opened SymbolLexer

  // ---------------------------------------------------------------- the punctuation table

  // The operators and punctuators, longest first.
  const THREE_CHARACTERS := ["...", "->*", "<=>", "<<=", ">>="]
  const TWO_CHARACTERS := [
    "<:", ":>", "<%", "%>", "::", ".*", "->", "+=", "-=", "*=", "/=", "%=", "^=", "&=", "|=",
    "==", "!=", "<=", ">=", "&&", "||", "<<", ">>", "++", "--"]
  const ONE_CHARACTER := [
    "{", "}", "[", "]", "(", ")", ";", ":", "?", ".", "~", "!", "+", "-", "*", "/", "%", "^", "&", "|",
    "=", "<", ">", ",", "#"]
  const PUNCTUATORS: seq<string> := THREE_CHARACTERS + TWO_CHARACTERS + ONE_CHARACTER

  lemma TableLengths()
    ensures forall i :: 0 <= i < |THREE_CHARACTERS| ==> |THREE_CHARACTERS[i]| == 3
    ensures forall i :: 0 <= i < |TWO_CHARACTERS| ==> |TWO_CHARACTERS[i]| == 2
    ensures forall i :: 0 <= i < |ONE_CHARACTER| ==> |ONE_CHARACTER[i]| == 1
  {
  }

  lemma TableThree(s: string)
    requires |s| == 3
    ensures s in THREE_CHARACTERS <==> IsPunctuation3(s[0], s[1], s[2])
  {
    assert s == [s[0], s[1], s[2]];
  }

  lemma TableTwo(s: string)
    requires |s| == 2
    ensures s in TWO_CHARACTERS <==> IsPunctuation2(s[0], s[1])
  {
    assert s == [s[0], s[1]];
  }

  lemma TableOne(s: string)
    requires |s| == 1
    ensures s in ONE_CHARACTER <==> IsPunctuation1(s[0])
  {
    assert s == [s[0]];
  }

  /** `PunctuationLength` is the length of the longest table entry at the front of s. */
  lemma LongestMatch(s: string)
    ensures var n := PunctuationLength(s);
            && (n > 0 ==> s[..n] in PUNCTUATORS)
            && forall t | t in PUNCTUATORS && t <= s :: 0 < |t| <= n
  {
    TableLengths();
    if |s| >= 3 {
      TableThree(s[..3]);
    }
    if |s| >= 2 {
      TableTwo(s[..2]);
    }
    if |s| >= 1 {
      TableOne(s[..1]);
    }
    forall t | t in PUNCTUATORS && t <= s
      ensures 0 < |t| <= PunctuationLength(s)
    {
      assert t == s[..|t|];
      assert t in THREE_CHARACTERS || t in TWO_CHARACTERS || t in ONE_CHARACTER;
    }
  }

  /** The table is sorted by decreasing length, so the first entry that matches is the longest one. */
  lemma FirstMatchIsLongest(s: string, i: nat)
    requires i < |PUNCTUATORS| && PUNCTUATORS[i] <= s
    requires forall j :: 0 <= j < i ==> !(PUNCTUATORS[j] <= s)
    ensures |PUNCTUATORS[i]| == PunctuationLength(s)
  {
    LongestMatch(s);
    TableLengths();
    var t := s[..PunctuationLength(s)];
    assert PUNCTUATORS[i] in PUNCTUATORS;
    var k :| 0 <= k < |PUNCTUATORS| && PUNCTUATORS[k] == t;
    assert i <= k;
    assert |PUNCTUATORS[k]| <= |PUNCTUATORS[i]|;
  }

  /** The first entry of a table that the source starts with, or the table's length. */
  method FindPrefix(table: seq<string>, source: string) returns (i: nat)
    ensures i <= |table|
    ensures i < |table| ==> table[i] <= source
    ensures forall j :: 0 <= j < i ==> !(table[j] <= source)
  {
    i := 0;
    while i < |table| && !(table[i] <= source)
      invariant i <= |table|
      invariant forall j :: 0 <= j < i ==> !(table[j] <= source)
    {
      i := i + 1;
    }
  }

  /** The length of the table entry that the scan stops at; 0 when it runs off the table. */
  method PunctuationAtFront(source: string) returns (n: nat)
    ensures n == PunctuationLength(source)
  {
    var i := FindPrefix(PUNCTUATORS, source);
    if i < |PUNCTUATORS| {
      FirstMatchIsLongest(source, i);
      return |PUNCTUATORS[i]|;
    }
    LongestMatch(source);
    return 0;
  }

  // ---------------------------------------------------------------- what was consumed

  /** A piece of the source that the cursor has moved past. */
  datatype Piece = Gap(text: string) | Taken(text: string)

  ghost function Text(trail: seq<Piece>): string {
    if trail == [] then "" else Text(trail[..|trail| - 1]) + trail[|trail| - 1].text
  }

  ghost function TakenTexts(trail: seq<Piece>): seq<string> {
    if trail == [] then []
    else
      var last := trail[|trail| - 1];
      TakenTexts(trail[..|trail| - 1]) + (if last.Taken? then [last.text] else [])
  }

  ghost predicate WellFormed(trail: seq<Piece>) {
    forall p | p in trail ::
      && p.text != ""
      && (p.Gap? ==> forall c | c in p.text :: IsSpace(c))
  }

  lemma Extend(trail: seq<Piece>, p: Piece, rest: string, original: string)
    requires WellFormed(trail) && p.text != ""
    requires p.Gap? ==> forall c | c in p.text :: IsSpace(c)
    requires Text(trail) + (p.text + rest) == original
    ensures WellFormed(trail + [p]) && Text(trail + [p]) + rest == original
    ensures TakenTexts(trail + [p]) == TakenTexts(trail) + (if p.Taken? then [p.text] else [])
  {
    assert (trail + [p])[..|trail|] == trail;
    assert (Text(trail) + p.text) + rest == Text(trail) + (p.text + rest);
  }

  lemma DropOne(skipped: string, s: string)
    requires s != ""
    ensures (skipped + [s[0]]) + s[1..] == skipped + s
  {
  }

  // ---------------------------------------------------------------- the tokenizer

  class SymbolTokenizer {
    var source: string
    var nextToken: Option<Token>
    // The symbol being tokenized and how it has been cut up so far.
    ghost const original: string
    ghost var trail: seq<Piece>

    ghost predicate Valid()
      reads this
    {
      && (nextToken.Some? ==> SkipSpace(source) == source && Lex(source) == Ok(nextToken))
      && WellFormed(trail)
      && Text(trail) + source == original
    }

    /** The remaining source, without the whitespace that the next peek would skip. */
    ghost function Rest(): string
      reads this
    {
      SkipSpace(source)
    }

    constructor (symbol: string)
      ensures Valid() && Rest() == SkipSpace(symbol)
      ensures original == symbol && trail == []
    {
      source := symbol;
      nextToken := None;
      original := symbol;
      trail := [];
      new;
      assert Text([]) + symbol == symbol;
    }

    /** A copy, as the lookahead takes one. */
    constructor Copy(other: SymbolTokenizer)
      requires other.Valid()
      ensures Valid() && Rest() == other.Rest()
    {
      source := other.source;
      nextToken := other.nextToken;
      original := other.original;
      trail := other.trail;
    }

    method PeekAnonymousNamespace() returns (r: Option<Token>)
      ensures r == if ANONYMOUS_GNU <= source then Some(Token(AnonymousNamespace, ANONYMOUS_GNU))
                   else if ANONYMOUS_MSVC <= source then Some(Token(AnonymousNamespace, ANONYMOUS_MSVC))
                   else None
    {
      var spellings := [ANONYMOUS_GNU, ANONYMOUS_MSVC];
      var i := FindPrefix(spellings, source);
      if i == |spellings| {
        assert !(spellings[0] <= source) && !(spellings[1] <= source);
        return None;
      }
      assert i == 1 ==> !(spellings[0] <= source);
      return Some(Token(AnonymousNamespace, spellings[i]));
    }

    method PeekNumber() returns (r: Option<Token>)
      ensures r == if source != "" && IsDigit(source[0]) then Some(Token(Literal, source[..NumberEnd(source, 0)])) else None
    {
      var cursor := 0;
      if cursor != |source| && IsDigit(source[cursor]) {
        while cursor != |source| && IsNumberContinue(source[cursor])
          invariant 0 <= cursor <= |source|
          invariant NumberEnd(source, 0) == NumberEnd(source, cursor)
          decreases |source| - cursor
        {
          cursor := cursor + 1;
        }
      }
      if cursor == 0 {
        return None;
      }
      return Some(Token(Literal, source[..cursor]));
    }

    method PeekMsvcString() returns (r: Result<Option<Token>, ParseError>)
      ensures r == if source != "" && source[0] == '`' then LiteralUpTo(source, MsvcEnd(source, 0, 0)) else Ok(None)
    {
      var cursor := 0;
      if cursor != |source| && source[cursor] == '`' {
        var depth := Nesting(source[cursor]);
        cursor := cursor + 1;
        while cursor != |source| && depth != 0
          invariant 0 < cursor <= |source|
          invariant MsvcEnd(source, 0, 0) == if depth == 0 then Some(cursor)
                                             else if cursor == |source| then None
                                             else MsvcEnd(source, cursor, depth)
          decreases |source| - cursor
        {
          if source[cursor] == '`' {
            depth := depth + 1;
          } else if source[cursor] == '\'' {
            depth := depth - 1;
          }
          cursor := cursor + 1;
        }
        if depth != 0 {
          return Err(ParseError);
        }
      }
      if cursor == 0 {
        return Ok(None);
      }
      return Ok(Some(Token(Literal, source[..cursor])));
    }

    method ParseQuotedString() returns (r: Result<Option<Token>, ParseError>)
      ensures r == if source != "" && IsQuote(source[0]) then LiteralUpTo(source, QuotedEnd(source, 1, source[0])) else Ok(None)
    {
      var cursor := 0;
      if cursor != |source| && IsQuote(source[cursor]) {
        var closingQuote := source[cursor];
        cursor := cursor + 1;
        while cursor != |source| && source[cursor] != closingQuote
          invariant 0 < cursor <= |source|
          invariant QuotedEnd(source, 1, closingQuote) == QuotedEnd(source, cursor, closingQuote)
          decreases |source| - cursor
        {
          if source[cursor] == '\\' {
            if cursor + 1 == |source| {
              return Err(ParseError);
            }
            cursor := cursor + 2;
          }
          // The source steps past its end here after an escape of the last character; the model stops at the end.
          if cursor < |source| {
            cursor := cursor + 1;
          }
        }
        if cursor == |source| || source[cursor] != closingQuote {
          return Err(ParseError);
        }
        cursor := cursor + 1;
      }
      if cursor == 0 {
        return Ok(None);
      }
      return Ok(Some(Token(Literal, source[..cursor])));
    }

    method PeekLiteral() returns (r: Result<Option<Token>, ParseError>)
      ensures r == if source == "" then Ok(None)
                   else if IsDigit(source[0]) then Ok(Some(Token(Literal, source[..NumberEnd(source, 0)])))
                   else if source[0] == '`' then LiteralUpTo(source, MsvcEnd(source, 0, 0))
                   else if IsQuote(source[0]) then LiteralUpTo(source, QuotedEnd(source, 1, source[0]))
                   else Ok(None)
    {
      var number := PeekNumber();
      if number.Some? {
        return Ok(number);
      }
      var msvcString :- PeekMsvcString();
      if msvcString.Some? {
        return Ok(msvcString);
      }
      var quotedString :- ParseQuotedString();
      return Ok(quotedString);
    }

    method PeekPunctuation() returns (r: Option<Token>)
      ensures r == if PunctuationLength(source) > 0 then Some(Token(Punctuation, source[..PunctuationLength(source)])) else None
    {
      var n := PunctuationAtFront(source);
      if n == 0 {
        return None;
      }
      return Some(Token(Punctuation, source[..n]));
    }

    method PeekIdentifier() returns (r: Option<Token>)
      ensures r == if source != "" && IsIdentifierStart(source[0]) then Some(Token(Identifier, source[..IdentifierEnd(source, 0)])) else None
    {
      var cursor := 0;
      if cursor != |source| && IsIdentifierStart(source[cursor]) {
        while cursor != |source| && IsIdentifierContinue(source[cursor])
          invariant 0 <= cursor <= |source|
          invariant IdentifierEnd(source, 0) == IdentifierEnd(source, cursor)
          decreases |source| - cursor
        {
          cursor := cursor + 1;
        }
      }
      if cursor == 0 {
        return None;
      }
      return Some(Token(Identifier, source[..cursor]));
    }

    /** Drops leading whitespace and fills the cache. It never changes what is left to read. */
    method MaybeLoadNextToken() returns (r: Result<(), ParseError>)
      requires Valid()
      modifies this
      ensures Valid() && Rest() == old(Rest()) && TakenTexts(trail) == old(TakenTexts(trail))
      ensures r.Err? ==> Lex(Rest()) == Err(r.error)
      ensures r.Ok? ==> source == Rest() && Lex(Rest()) == Ok(nextToken)
    {
      if nextToken.Some? {
        return Ok(());
      }
      SkipWhitespace();
      if source == "" {
        return Ok(());
      }
      var anon := PeekAnonymousNamespace();
      if anon.Some? {
        nextToken := anon;
        return Ok(());
      }
      var literal :- PeekLiteral();
      if literal.Some? {
        nextToken := literal;
        return Ok(());
      }
      var punctuation := PeekPunctuation();
      if punctuation.Some? {
        nextToken := punctuation;
        return Ok(());
      }
      var identifier := PeekIdentifier();
      if identifier.Some? {
        nextToken := identifier;
        return Ok(());
      }
      nextToken := Some(Token(Punctuation, source[..1]));
      return Ok(());
    }

    method SkipWhitespace()
      requires Valid() && nextToken.None?
      modifies this
      ensures Valid() && nextToken.None?
      ensures source == old(Rest()) && Rest() == source
      ensures TakenTexts(trail) == old(TakenTexts(trail))
    {
      ghost var skipped := DropWhitespace();
      if skipped != "" {
        Extend(trail, Gap(skipped), source, original);
        trail := trail + [Gap(skipped)];
      }
    }

    method DropWhitespace() returns (ghost skipped: string)
      modifies this`source
      ensures source == SkipSpace(old(source)) && SkipSpace(source) == source
      ensures skipped + source == old(source)
      ensures forall c | c in skipped :: IsSpace(c)
    {
      skipped := "";
      while source != "" && IsSpace(source[0])
        invariant skipped + source == old(source) && SkipSpace(source) == SkipSpace(old(source))
        invariant forall c | c in skipped :: IsSpace(c)
        decreases |source|
      {
        DropOne(skipped, source);
        skipped := skipped + [source[0]];
        source := source[1..];
      }
    }

    method Peek(inTemplateArgumentList: bool) returns (r: Result<Option<Token>, ParseError>)
      requires Valid()
      modifies this
      ensures Valid() && Rest() == old(Rest()) && TakenTexts(trail) == old(TakenTexts(trail))
      ensures r == LexIn(Rest(), inTemplateArgumentList)
      ensures r.Ok? ==> source == Rest()
    {
      var _ :- MaybeLoadNextToken();
      // in a template argument list >> is seen as two closers
      if nextToken.Some? && inTemplateArgumentList && nextToken.value == Token(Punctuation, ">>") {
        assert ">>"[..1] == ">";
        return Ok(Some(nextToken.value.(str := nextToken.value.str[..1])));
      }
      return Ok(nextToken);
    }

    method Advance(inTemplateArgumentList: bool) returns (r: Result<Option<Token>, ParseError>)
      requires Valid()
      modifies this
      ensures Valid()
      ensures r == LexIn(old(Rest()), inTemplateArgumentList)
      ensures r.Ok? && r.value.Some? ==>
                && Rest() == AfterToken(old(Rest()), r.value.value)
                && TakenTexts(trail) == old(TakenTexts(trail)) + [r.value.value.str]
      ensures !(r.Ok? && r.value.Some?) ==> Rest() == old(Rest()) && TakenTexts(trail) == old(TakenTexts(trail))
    {
      var next :- Peek(inTemplateArgumentList);
      if next.None? {
        return Ok(None);
      }
      var taken := next.value.str;
      assert taken + source[|taken|..] == source;
      Extend(trail, Taken(taken), source[|taken|..], original);
      source := source[|taken|..];
      trail := trail + [Taken(taken)];
      nextToken := None;
      return Ok(next);
    }

    method AcceptType(kind: TokenType, inTemplateArgumentList: bool) returns (r: Result<Option<Token>, ParseError>)
      requires Valid()
      modifies this
      ensures Valid()
      ensures AcceptSpec(old(Rest()), (t: Token) => t.kind == kind, inTemplateArgumentList, r, Rest())
      ensures TakenBy(old(TakenTexts(trail)), old(Rest()), r, TakenTexts(trail))
    {
      var next :- Peek(inTemplateArgumentList);
      if next.Some? && next.value.kind == kind {
        var _ := Advance(false);
        return Ok(next);
      }
      return Ok(None);
    }

    method AcceptToken(token: Token, inTemplateArgumentList: bool) returns (r: Result<Option<Token>, ParseError>)
      requires Valid()
      modifies this
      ensures Valid()
      ensures AcceptSpec(old(Rest()), (t: Token) => t == token, inTemplateArgumentList, r, Rest())
      ensures TakenBy(old(TakenTexts(trail)), old(Rest()), r, TakenTexts(trail))
    {
      var next :- Peek(inTemplateArgumentList);
      if next.Some? && next.value == token {
        var _ := Advance(false);
        return Ok(next);
      }
      return Ok(None);
    }
  }

  /** The token an accept consumes: the whole one, even when a split `>` was asked for. */
  ghost predicate AcceptSpec(
    rest: string, wanted: Token -> bool, inTemplateArgumentList: bool, r: Result<Option<Token>, ParseError>, rest': string)
  {
    var next := LexIn(rest, inTemplateArgumentList);
    if next.Err? then r == next && rest' == rest
    else if next.value.Some? && wanted(next.value.value) then
      && r == next && Lex(rest).Ok? && Lex(rest).value.Some?
      && rest' == AfterToken(rest, Lex(rest).value.value)
    else r == Ok(None) && rest' == rest
  }

  ghost predicate TakenBy(before: seq<string>, rest: string, r: Result<Option<Token>, ParseError>, after: seq<string>) {
    if r.Ok? && r.value.Some? then
      Lex(rest).Ok? && Lex(rest).value.Some? && after == before + [Lex(rest).value.value.str]
    else after == before
  }
}
