/** What one token of a demangled symbol is: the pure specification of the scanners of
    src/prune_symbol.cpp. `SymbolTokenizer` implements it with loops over a cursor. */
module SymbolLexer {
  import opened Wrappers

  datatype TokenType = Identifier | Punctuation | Literal | AnonymousNamespace

  datatype Token = Token(kind: TokenType, str: string)

  datatype ParseError = ParseError

  const ANONYMOUS_GNU := "(anonymous namespace)"
  const ANONYMOUS_MSVC := "`anonymous namespace'"

  // ---------------------------------------------------------------- characters

  predicate IsAlpha(c: char) {
    'a' <= c <= 'z' || 'A' <= c <= 'Z'
  }

  predicate IsDigit(c: char) {
    '0' <= c <= '9'
  }

  predicate IsSpace(c: char) {
    c == ' ' || '\t' <= c <= '\r'
  }

  predicate IsIdentifierStart(c: char) {
    IsAlpha(c) || c == '$' || c == '_'
  }

  predicate IsIdentifierContinue(c: char) {
    IsDigit(c) || IsIdentifierStart(c)
  }

  predicate IsNumberContinue(c: char) {
    IsDigit(c) || IsIdentifierContinue(c) || c == '\'' || c == '-' || c == '+' || c == '.'
  }

  predicate IsQuote(c: char) {
    c == '\'' || c == '"'
  }

  // ---------------------------------------------------------------- punctuation

  predicate IsPunctuation1(a: char) {
    || a == '{' || a == '}' || a == '[' || a == ']' || a == '(' || a == ')' || a == '<' || a == '>'
    || a == '+' || a == '-' || a == '*' || a == '/' || a == '%' || a == '^' || a == '&' || a == '|'
    || a == ';' || a == ':' || a == '?' || a == '.' || a == '~' || a == '!' || a == '=' || a == ',' || a == '#'
  }

  predicate IsPunctuation2(a: char, b: char) {
    || (b == '=' && (a == '+' || a == '-' || a == '*' || a == '/' || a == '%' || a == '^' || a == '&' || a == '|'
                     || a == '=' || a == '!' || a == '<' || a == '>'))
    || (a == b && (a == ':' || a == '&' || a == '|' || a == '<' || a == '>' || a == '+' || a == '-'))
    || (a == '<' && (b == ':' || b == '%'))
    || (b == '>' && (a == ':' || a == '%' || a == '-'))
    || (a == '.' && b == '*')
  }

  predicate IsPunctuation3(a: char, b: char, c: char) {
    || (a == '.' && b == '.' && c == '.')
    || (a == '-' && b == '>' && c == '*')
    || (a == '<' && b == '=' && c == '>')
    || (a == '<' && b == '<' && c == '=')
    || (a == '>' && b == '>' && c == '=')
  }

  /** Length of the longest operator or punctuator at the front of s; 0 if there is none. */
  function PunctuationLength(s: string): (n: nat)
    ensures n <= |s|
  {
    if |s| >= 3 && IsPunctuation3(s[0], s[1], s[2]) then 3
    else if |s| >= 2 && IsPunctuation2(s[0], s[1]) then 2
    else if |s| >= 1 && IsPunctuation1(s[0]) then 1
    else 0
  }

  // ---------------------------------------------------------------- scanners

  function SkipSpace(s: string): (r: string)
    ensures |r| <= |s|
    ensures r != "" ==> !IsSpace(r[0])
  {
    if s != "" && IsSpace(s[0]) then SkipSpace(s[1..]) else s
  }

  /** One past the last identifier character at or after i. */
  function IdentifierEnd(s: string, i: nat): (e: nat)
    requires i <= |s|
    ensures i <= e <= |s|
    ensures forall k :: i <= k < e ==> IsIdentifierContinue(s[k])
    ensures e < |s| ==> !IsIdentifierContinue(s[e])
    decreases |s| - i
  {
    if i < |s| && IsIdentifierContinue(s[i]) then IdentifierEnd(s, i + 1) else i
  }

  function NumberEnd(s: string, i: nat): (e: nat)
    requires i <= |s|
    ensures i <= e <= |s|
    ensures forall k :: i <= k < e ==> IsNumberContinue(s[k])
    ensures e < |s| ==> !IsNumberContinue(s[e])
    decreases |s| - i
  {
    if i < |s| && IsNumberContinue(s[i]) then NumberEnd(s, i + 1) else i
  }

  function Nesting(c: char): int {
    if c == '`' then 1 else if c == '\'' then -1 else 0
  }

  /** Where a nested MSVC string ends when its scan has reached i at the given depth. */
  function MsvcEnd(s: string, i: nat, depth: int): (e: Option<nat>)
    requires i < |s|
    ensures e.Some? ==> i < e.value <= |s|
    decreases |s| - i
  {
    var d := depth + Nesting(s[i]);
    if d == 0 then Some(i + 1)
    else if i + 1 == |s| then None
    else MsvcEnd(s, i + 1, d)
  }

  /** Where a quoted string ends. A backslash skips itself and the two characters after it,
      as far as there are any. */
  function QuotedEnd(s: string, i: nat, quote: char): (e: Option<nat>)
    requires i <= |s|
    ensures e.Some? ==> i < e.value <= |s|
    decreases |s| - i
  {
    if i == |s| then None
    else if s[i] == quote then Some(i + 1)
    else if s[i] == '\\' then
      if i + 1 == |s| then None else QuotedEnd(s, if i + 3 <= |s| then i + 3 else |s|, quote)
    else QuotedEnd(s, i + 1, quote)
  }

  function LiteralUpTo(s: string, e: Option<nat>): (r: Result<Option<Token>, ParseError>)
    requires e.Some? ==> e.value <= |s|
  {
    if e.Some? then Ok(Some(Token(Literal, s[..e.value]))) else Err(ParseError)
  }

  /** The token at the front of s, which starts with no whitespace. */
  function Lex(s: string): (r: Result<Option<Token>, ParseError>)
    ensures r == Ok(None) <==> s == ""
    ensures r.Ok? && r.value.Some? ==> 0 < |r.value.value.str| <= |s| && s[..|r.value.value.str|] == r.value.value.str
  {
    if s == "" then Ok(None)
    else if ANONYMOUS_GNU <= s then Ok(Some(Token(AnonymousNamespace, ANONYMOUS_GNU)))
    else if ANONYMOUS_MSVC <= s then Ok(Some(Token(AnonymousNamespace, ANONYMOUS_MSVC)))
    else if IsDigit(s[0]) then Ok(Some(Token(Literal, s[..NumberEnd(s, 0)])))
    else if s[0] == '`' then LiteralUpTo(s, MsvcEnd(s, 0, 0))
    else if IsQuote(s[0]) then LiteralUpTo(s, QuotedEnd(s, 1, s[0]))
    else if PunctuationLength(s) > 0 then Ok(Some(Token(Punctuation, s[..PunctuationLength(s)])))
    else if IsIdentifierStart(s[0]) then Ok(Some(Token(Identifier, s[..IdentifierEnd(s, 0)])))
    else Ok(Some(Token(Punctuation, s[..1])))
  }

  /** The token seen by the parser: in a template argument list `>>` is seen as `>`. */
  function LexIn(s: string, inTemplateArgumentList: bool): (r: Result<Option<Token>, ParseError>)
    ensures r == Ok(None) <==> s == ""
    ensures r.Ok? && r.value.Some? ==> 0 < |r.value.value.str| <= |s| && s[..|r.value.value.str|] == r.value.value.str
  {
    var r := Lex(s);
    if inTemplateArgumentList && r == Ok(Some(Token(Punctuation, ">>"))) then Ok(Some(Token(Punctuation, ">"))) else r
  }

  /** What remains once the token at the front of a rest has been consumed. */
  function AfterToken(rest: string, token: Token): (r: string)
    requires |token.str| <= |rest|
    ensures |token.str| > 0 ==> |r| < |rest|
  {
    SkipSpace(rest[|token.str|..])
  }

  // ---------------------------------------------------------------- what the scanners find

  /** Sum of the nesting steps of s: backquotes minus quotes. */
  function Balance(s: string): int {
    if s == "" then 0 else Balance(s[..|s| - 1]) + Nesting(s[|s| - 1])
  }

  /** A nested MSVC string is the shortest prefix in which quotes have closed every backquote;
      without such a prefix it is a parse error. */
  lemma {:induction false} MsvcStringIsShortestBalancedPrefix(s: string)
    requires s != "" && s[0] == '`'
    ensures var e := MsvcEnd(s, 0, 0);
            if e.Some? then
              && Balance(s[..e.value]) == 0
              && forall k :: 0 < k < e.value ==> Balance(s[..k]) > 0
            else
              forall k :: 0 < k <= |s| ==> Balance(s[..k]) > 0
  {
    assert s[..1] == [s[0]] && s[..1][..0] == "";
    if |s| > 1 {
      assert MsvcEnd(s, 0, 0) == MsvcEnd(s, 1, 1);
      MsvcScan(s, 1);
    }
  }

  lemma {:induction false} MsvcScan(s: string, i: nat)
    requires 0 < i < |s|
    requires forall k :: 0 < k <= i ==> Balance(s[..k]) > 0
    ensures var e := MsvcEnd(s, i, Balance(s[..i]));
            if e.Some? then
              && Balance(s[..e.value]) == 0
              && forall k :: 0 < k < e.value ==> Balance(s[..k]) > 0
            else
              forall k :: 0 < k <= |s| ==> Balance(s[..k]) > 0
    decreases |s| - i
  {
    assert s[..i + 1][..i] == s[..i];
    if Balance(s[..i + 1]) != 0 && i + 1 < |s| {
      MsvcScan(s, i + 1);
    }
  }
}
