/** Demangled symbols as the tokens they are printed with: the grammar that the comment at
    src/prune_symbol.cpp:396-465 describes, what each form is printed as, and the name it stands for. */
module PrintedSymbols {
  import opened Wrappers
  import opened SymbolLexer
  import opened SymbolGrammar

  // ---------------------------------------------------------------- printed tokens

  /** A text cut into tokens. What closes a template argument list may be the first half of `>>`. */
  datatype Printed = End | Then(token: Token, more: Printed) | Close(more: Printed)

  /** s is these tokens with any whitespace between them. */
  ghost predicate ReadsAs(s: string, p: Printed)
    decreases p
  {
    match p
    case End => s == ""
    case Then(t, more) => Lex(s) == Ok(Some(t)) && ReadsAs(AfterToken(s, t), more)
    case Close(more) => LexIn(s, true) == Ok(Some(Punct(">"))) && ReadsAs(AfterToken(s, Punct(">")), more)
  }

  function Front(p: Printed): Option<Token> {
    match p
    case End => None
    case Then(t, _) => Some(t)
    case Close(_) => Some(Punct(">"))
  }

  // ---------------------------------------------------------------- symbols

  datatype Bracket = Round | Square | Curly

  function Left(b: Bracket): (s: string)
    ensures IsOpening(s) && s != "<"
  {
    match b
    case Round => "("
    case Square => "["
    case Curly => "{"
  }

  function Right(b: Bracket): (s: string)
    ensures s == Closing(Left(b))
  {
    match b
    case Round => ")"
    case Square => "]"
    case Curly => "}"
  }

  /** What a template argument list is made of: any token, a group of another kind, and `operator` with
      what it names. Lists in lists are told by their brackets. */
  datatype Item =
    | Single(token: Token)
    | Opened
    | Closed
    | Nested(bracket: Bracket, inner: seq<Token>)
    | OperatorThen(token: Token)
    | OperatorBrackets(bracket: Bracket)

  /** What is printed after a name and dropped: groups, qualifiers, references. */
  datatype Modifier =
    | Group(bracket: Bracket, inner: seq<Token>)
    | Arguments(items: seq<Item>)
    | Qualifier(id: string)
    | Lone(token: Token)

  datatype Head =
    | Tag(spelling: string)
    | Named(id: string)
    | Destructor(id: string)
    | NewDeleteOperator(word: string, brackets: bool)
    | DeducedConversion(word: string)
    | CoAwait
    | LiteralOperator(suffix: string)
    | OperatorSymbol(op: string)
    | BracketOperator(bracket: Bracket)
    | Conversion(to: Path)
    | MemberConversion(to: Path, of: Path)
    | BracedLambda(isUnnamed: bool, junk: seq<Modifier>, number: string)
    | QuotedLambda(word: string)
    | AngledLambda(word: string)
    | Enclosed(text: string, inner: seq<Path>)
    | Ordinal(number: string)
    // "<" and a word that is no lambda, which cannot be read
    | Unreadable(word: string, tail: seq<Token>)

  /** A name, or a function pointer declarator such as `(*f(int))` or `(*)`, with a type in front of it or none. */
  datatype Base =
    | Bare(head: Head)
    | Declarator(junk: seq<Token>, inner: Path)
    | TypedDeclarator(head: Head, junk: seq<Token>, inner: Path)
    | Unnamed(of: Option<Head>, junk: seq<Token>)

  datatype Component = Component(base: Base, refs: seq<Token>, modifiers: seq<Modifier>)

  /** Components joined by `::`. A pointer to member ends with `::*`. A path is stuck if the parser takes
      what follows it for no part of it and for no other symbol. */
  datatype Path =
    | Last(c: Component)
    | Scope(c: Component, star: bool, next: Path)
    | Member(c: Component)
    | Stuck(c: Component, rest: Printed)

  /** Operators other than conversions to a type that is printed. */
  predicate IsNamedOperator(h: Head) {
    || h.NewDeleteOperator? || h.DeducedConversion? || h.CoAwait? || h.LiteralOperator? || h.OperatorSymbol?
    || h.BracketOperator?
  }

  // ---------------------------------------------------------------- printing

  function ShowTokens(ts: seq<Token>, more: Printed): Printed {
    if ts == [] then more else Then(ts[0], ShowTokens(ts[1..], more))
  }

  function ShowGroup(b: Bracket, inner: seq<Token>, more: Printed): Printed {
    Then(Punct(Left(b)), ShowTokens(inner, Then(Punct(Right(b)), more)))
  }

  function ShowItem(i: Item, more: Printed): Printed {
    match i
    case Single(t) => Then(t, more)
    case Opened => Then(Punct("<"), more)
    case Closed => Close(more)
    case Nested(b, inner) => ShowGroup(b, inner, more)
    case OperatorThen(t) => Then(Ident("operator"), Then(t, more))
    case OperatorBrackets(b) => Then(Ident("operator"), ShowGroup(b, [], more))
  }

  function ShowItems(items: seq<Item>, more: Printed): Printed {
    if items == [] then more else ShowItem(items[0], ShowItems(items[1..], more))
  }

  function ShowModifier(m: Modifier, more: Printed): Printed {
    match m
    case Group(b, inner) => ShowGroup(b, inner, more)
    case Arguments(items) => Then(Punct("<"), ShowItems(items, Close(more)))
    case Qualifier(id) => Then(Ident(id), more)
    case Lone(t) => Then(t, more)
  }

  function ShowModifiers(ms: seq<Modifier>, more: Printed): Printed {
    if ms == [] then more else ShowModifier(ms[0], ShowModifiers(ms[1..], more))
  }

  const QUOTES := Token(Literal, "\"\"")

  function Enquoted(text: string): Token {
    Token(Literal, "`" + text + "'")
  }

  function ShowHead(h: Head, more: Printed): Printed
    decreases h, 0
  {
    match h
    case Tag(spelling) => Then(Token(AnonymousNamespace, spelling), more)
    case Named(id) => Then(Ident(id), more)
    case Destructor(id) => Then(Punct("~"), Then(Ident(id), more))
    case NewDeleteOperator(word, brackets) =>
      Then(Ident("operator"), Then(Ident(word), if brackets then ShowGroup(Square, [], more) else more))
    case DeducedConversion(word) => Then(Ident("operator"), Then(Ident("decltype"), ShowGroup(Round, [Ident(word)], more)))
    case CoAwait => Then(Ident("operator"), Then(Ident("co_await"), more))
    case LiteralOperator(suffix) => Then(Ident("operator"), Then(QUOTES, Then(Ident(suffix), more)))
    case OperatorSymbol(op) => Then(Ident("operator"), Then(Punct(op), more))
    case BracketOperator(b) => Then(Ident("operator"), ShowGroup(b, [], more))
    case Conversion(to) => Then(Ident("operator"), ShowPath(to, more))
    case MemberConversion(to, of) => Then(Ident("operator"), ShowPath(to, ShowPath(of, more)))
    case BracedLambda(isUnnamed, junk, number) =>
      var tail := ShowModifiers(junk, Then(Punct("#"), Then(Token(Literal, number), Then(Punct("}"), more))));
      Then(Punct("{"), if isUnnamed then Then(Ident("unnamed"), Then(Ident("type"), tail)) else Then(Ident("lambda"), tail))
    case QuotedLambda(word) => Then(Token(Literal, "'" + word + "'"), more)
    case AngledLambda(word) => Then(Punct("<"), Then(Ident(word), Then(Punct(">"), more)))
    case Enclosed(text, _) => Then(Enquoted(text), more)
    case Ordinal(number) => Then(Enquoted(number), more)
    case Unreadable(word, tail) => Then(Punct("<"), Then(Ident(word), ShowTokens(tail, more)))
  }

  function ShowBase(b: Base, more: Printed): Printed
    decreases b, 1
  {
    match b
    case Bare(h) => ShowHead(h, more)
    case Declarator(junk, inner) => ShowDeclarator(junk, inner, more)
    case TypedDeclarator(h, junk, inner) => ShowHead(h, ShowDeclarator(junk, inner, more))
    case Unnamed(of, junk) =>
      var shown := ShowGroup(Round, junk, more);
      if of.Some? then ShowHead(of.value, shown) else shown
  }

  function ShowDeclarator(junk: seq<Token>, inner: Path, more: Printed): Printed
    decreases inner, 5
  {
    Then(Punct("("), ShowTokens(junk, ShowPath(inner, Then(Punct(")"), more))))
  }

  /** What is printed behind the base of a component. */
  function ShowRest(c: Component, more: Printed): Printed {
    ShowTokens(c.refs, ShowModifiers(c.modifiers, more))
  }

  function ShowComponent(c: Component, more: Printed): Printed
    decreases c, 2
  {
    ShowBase(c.base, ShowRest(c, more))
  }

  function ShowPath(x: Path, more: Printed): Printed
    decreases x, 3
  {
    match x
    case Last(c) => ShowComponent(c, more)
    case Scope(c, star, next) => ShowComponent(c, ShowScope(star, ShowPath(next, more)))
    case Member(c) => ShowComponent(c, ShowScope(true, more))
    case Stuck(c, rest) => ShowComponent(c, rest)
  }

  function ShowScope(star: bool, more: Printed): Printed {
    Then(Punct("::"), if star then Then(Punct("*"), more) else more)
  }

  /** What is printed after the first component. */
  function Behind(x: Path, p: Printed): Printed {
    match x
    case Last(_) => p
    case Scope(_, star, next) => ShowScope(star, ShowPath(next, p))
    case Member(_) => ShowScope(true, p)
    case Stuck(_, rest) => rest
  }

  /** A declaration: what stands in front of the name, such as specifiers and the return type, and the name. */
  function ShowPaths(xs: seq<Path>): Printed
    decreases xs, 4
  {
    if xs == [] then End else ShowPath(xs[0], ShowPaths(xs[1..]))
  }

  // ---------------------------------------------------------------- names

  /** The tokens of a name. A function pointer declarator starts the name afresh. */
  datatype Name = Nothing | Word(token: Token, more: Name) | Restart(more: Name)

  /** The name after a text: two identifiers in a row are kept apart by a space. */
  function Spell(n: Name, text: string, afterIdentifier: bool): string {
    match n
    case Nothing => text
    case Restart(more) => Spell(more, "", false)
    case Word(t, more) =>
      var isIdentifier := t.kind == Identifier;
      Spell(more, text + (if isIdentifier && afterIdentifier then " " else "") + t.str, isIdentifier)
  }

  function WithTokens(ts: seq<Token>, k: Name): Name {
    if ts == [] then k else Word(ts[0], WithTokens(ts[1..], k))
  }

  function NameOfHead(h: Head, k: Name): Name
    decreases h, 0
  {
    match h
    case Tag(_) => Word(Ident(ANONYMOUS_GNU), k)
    case Named(id) => Word(Ident(id), k)
    case Destructor(id) => Word(Punct("~"), Word(Ident(id), k))
    case NewDeleteOperator(word, brackets) =>
      Word(Ident("operator"), Word(Ident(word), if brackets then Word(Punct("["), Word(Punct("]"), k)) else k))
    case DeducedConversion(word) =>
      Word(Ident("operator"), Word(Ident("decltype"), Word(Punct("("), Word(Ident(word), Word(Punct(")"), k)))))
    case CoAwait => Word(Ident("operator"), Word(Ident("co_await"), k))
    case LiteralOperator(suffix) => Word(Ident("operator"), Word(QUOTES, Word(Ident(suffix), k)))
    case OperatorSymbol(op) => Word(Ident("operator"), Word(Punct(op), k))
    case BracketOperator(b) => Word(Ident("operator"), Word(Punct(Left(b)), Word(Punct(Right(b)), k)))
    case Conversion(to) => Word(Ident("operator"), NameOfPath(to, k))
    case MemberConversion(to, of) => Word(Ident("operator"), NameOfPath(to, NameOfPath(of, k)))
    case BracedLambda(isUnnamed, _, number) =>
      var tail := Word(Punct("#"), Word(Token(Literal, number), Word(Punct(">"), k)));
      Word(Punct("<"), if isUnnamed then Word(Ident("unnamed"), Word(Ident("type"), tail)) else Word(Ident("lambda"), tail))
    case QuotedLambda(word) => Word(Punct("<"), Word(Punct(word), Word(Punct(">"), k)))
    case AngledLambda(word) => Word(Punct("<"), Word(Ident(word), Word(Punct(">"), k)))
    case Enclosed(text, inner) => InQuotes(if AnyFails(inner) then text else QualifiedName(inner), k)
    case Ordinal(number) => InQuotes(number, k)
    case Unreadable(_, _) => k
  }

  function InQuotes(text: string, k: Name): Name {
    Word(Punct("`"), Word(Punct(text), Word(Punct("'"), k)))
  }

  function NameOfBase(b: Base, k: Name): Name
    decreases b, 1
  {
    match b
    case Bare(h) => NameOfHead(h, k)
    case Declarator(_, inner) => Restart(NameOfPath(inner, k))
    case TypedDeclarator(_, _, inner) => Restart(NameOfPath(inner, k))
    case Unnamed(_, _) => k
  }

  function NameOfComponent(c: Component, k: Name): Name
    decreases c, 2
  {
    NameOfBase(c.base, WithTokens(c.refs, k))
  }

  function NameOfPath(x: Path, k: Name): Name
    decreases x, 3
  {
    match x
    case Last(c) => NameOfComponent(c, k)
    case Scope(c, star, next) => NameOfComponent(c, WithScope(star, NameOfPath(next, k)))
    case Member(c) => NameOfComponent(c, WithScope(true, k))
    case Stuck(c, _) => NameOfComponent(c, k)
  }

  function WithScope(star: bool, k: Name): Name {
    Word(Punct("::"), if star then Word(Punct("*"), k) else k)
  }

  /** What comes after the first component in the name. */
  function NameBehind(x: Path, k: Name): Name {
    match x
    case Last(_) => k
    case Scope(_, star, next) => WithScope(star, NameOfPath(next, k))
    case Member(_) => WithScope(true, k)
    case Stuck(_, _) => k
  }

  /** The name of the last part of a declaration. It is the name that is declared, but for a declarator behind
      a type that does not end with its own name: that is a group behind the type here, as it is to the parser
      (see `Declarators.DeclaratorBehindType`), so this is the name of the type. */
  function QualifiedName(xs: seq<Path>): string
    decreases xs, 4
  {
    if xs == [] then "" else Spell(NameOfPath(xs[|xs| - 1], Nothing), "", false)
  }

  // ---------------------------------------------------------------- what cannot be parsed

  predicate HeadFails(h: Head)
    decreases h, 0
  {
    match h
    case Conversion(to) => Fails(to)
    case MemberConversion(to, of) => Fails(to) || Fails(of)
    case Unreadable(_, _) => true
    case _ => false
  }

  predicate BaseFails(b: Base)
    decreases b, 1
  {
    match b
    case Bare(h) => HeadFails(h)
    case Declarator(_, inner) => Fails(inner)
    case TypedDeclarator(h, _, inner) => HeadFails(h) || Fails(inner)
    case Unnamed(_, _) => true
  }

  predicate Fails(x: Path)
    decreases x, 3
  {
    match x
    case Last(c) => BaseFails(c.base)
    case Scope(c, _, next) => BaseFails(c.base) || Fails(next)
    case Member(c) => BaseFails(c.base)
    case Stuck(c, _) => true
  }

  predicate AnyFails(xs: seq<Path>)
    decreases xs, 4
  {
    exists x | x in xs :: Fails(x)
  }

  // ---------------------------------------------------------------- validity

  /** The tokens between two brackets of a kind: those brackets nest, and anything else goes. */
  predicate Fits(ts: seq<Token>, b: Bracket, depth: nat) {
    if ts == [] then depth == 0
    else if ts[0] == Punct(Left(b)) then Fits(ts[1..], b, depth + 1)
    else if ts[0] == Punct(Right(b)) then depth > 0 && Fits(ts[1..], b, depth - 1)
    else Fits(ts[1..], b, depth)
  }

  predicate ValidItem(i: Item) {
    match i
    case Single(t) =>
      t != Ident("operator") && (t.kind == Punctuation ==> !IsOpening(t.str) && t.str != ">" && t.str != ">>")
    case Nested(b, inner) => Fits(inner, b, 0)
    case OperatorThen(t) => t != Punct("(") && t != Punct("[")
    case OperatorBrackets(b) => b != Curly
    case _ => true
  }

  predicate ListFits(items: seq<Item>, depth: nat) {
    if items == [] then depth == 0
    else if items[0].Opened? then ListFits(items[1..], depth + 1)
    else if items[0].Closed? then depth > 0 && ListFits(items[1..], depth - 1)
    else ValidItem(items[0]) && ListFits(items[1..], depth)
  }

  predicate ValidGroup(m: Modifier) {
    match m
    case Group(b, inner) => Fits(inner, b, 0)
    case Arguments(items) => ListFits(items, 0)
    case _ => false
  }

  predicate ValidModifier(m: Modifier) {
    match m
    case Qualifier(id) => IsIgnoredIdentifier(id)
    case Lone(t) => IsPointerRef(t)
    case _ => ValidGroup(m)
  }

  /** Between the word and the `#` of a lambda in braces. */
  predicate ValidJunk(m: Modifier) {
    match m
    case Qualifier(id) => false
    case Lone(t) => t.kind == Punctuation && !IsOpening(t.str) && t.str != "::" && t.str != "#"
    case _ => ValidGroup(m)
  }

  predicate IsConvention(t: Token) {
    t.kind == Identifier && IsMicrosoftCallingConvention(t.str)
  }

  predicate IsIgnored(t: Token) {
    t.kind == Identifier && IsIgnoredIdentifier(t.str)
  }

  predicate IsPointerJunk(t: Token) {
    IsPointerRef(t) || IsConvention(t) || IsIgnored(t)
  }

  /** Calling conventions and then a pointer, and perhaps more. */
  predicate ValidPointer(junk: seq<Token>) {
    && junk != []
    && (IsPointerRef(junk[0]) || (IsConvention(junk[0]) && ValidPointer(junk[1..])))
    && forall t | t in junk :: IsPointerJunk(t)
  }

  /** The same in what is printed after an opening parenthesis. */
  predicate PointerIn(p: Printed) {
    p.Then? && (IsPointerRef(p.token) || (IsConvention(p.token) && PointerIn(p.more)))
  }

  predicate PointerShown(p: Printed) {
    p.Then? && p.token == Punct("(") && PointerIn(p.more)
  }

  /** A token that belongs to nothing in front of it. */
  predicate StandsAlone(t: Token) {
    && !(t.kind == Punctuation && IsOpening(t.str))
    && !IsIgnored(t) && !IsPointerRef(t) && t != Punct("::")
  }

  predicate EndsPath(p: Printed) {
    p.End? || (p.Then? && StandsAlone(p.token))
  }

  /** A token that starts no name. */
  predicate StartsNoTerm(t: Token) {
    match t.kind
    case Punctuation => t.str != "~" && t.str != "{" && t.str != "<"
    case Literal => !IsQuotedLambda(t) && !IsEnclosedSymbol(t)
    case _ => false
  }

  predicate NoTermAhead(p: Printed) {
    p.End? || (p.Then? && StartsNoTerm(p.token) && !PointerShown(p))
  }

  /** A token that belongs to nothing in front of it, closes nothing and starts no name. */
  predicate IsHopeless(t: Token) {
    t.kind == Punctuation && StandsAlone(t) && t.str != "~" && t.str != ")"
  }

  /** An identifier that is a name and nothing else. */
  predicate IsPlainWord(t: Token) {
    t.kind == Identifier && t.str != "operator" && !IsIgnored(t)
  }

  /** The parser cannot get past this. */
  predicate HopelessAhead(p: Printed) {
    p.Then? && (IsHopeless(p.token) || (IsPlainWord(p.token) && p.more.Then? && IsHopeless(p.more.token)))
  }

  /** A conversion is told from the other operators by the first token of its type. */
  predicate StartsType(t: Option<Token>) {
    && t.Some? && t.value.kind != Punctuation && t.value != QUOTES
    && t.value != Ident("new") && t.value != Ident("delete")
    && t.value != Ident("decltype") && t.value != Ident("co_await")
  }

  predicate StartsConversion(p: Printed) {
    p.Then? && StartsType(Front(p))
  }

  predicate IsName(n: string) {
    && n != "" && IsIdentifierStart(n[0])
    && forall i :: 0 <= i < |n| ==> IsIdentifierContinue(n[i])
  }

  predicate IsNumber(n: string) {
    n != "" && forall i :: 0 <= i < |n| ==> IsDigit(n[i])
  }

  /** An operator of the table. */
  predicate IsOperator(op: string) {
    op != "" && PunctuationLength(op) == |op|
  }

  /** h with p printed after it. */
  ghost predicate ValidHead(h: Head, p: Printed)
    decreases h, 0
  {
    match h
    case Tag(spelling) => spelling == ANONYMOUS_GNU || spelling == ANONYMOUS_MSVC
    case Named(id) => IsName(id) && id != "operator"
    case Destructor(id) => IsName(id)
    case NewDeleteOperator(word, brackets) =>
      (word == "new" || word == "delete") && (!brackets ==> Front(p) != Some(Punct("[")) && !p.Close?)
    case DeducedConversion(word) => word == "auto" || word == "nullptr"
    case CoAwait => true
    case LiteralOperator(suffix) => IsName(suffix)
    case OperatorSymbol(op) => IsOperator(op) && op != "(" && op != "["
    case BracketOperator(b) => b != Curly
    case Conversion(to) =>
      && StartsConversion(ShowPath(to, p)) && ValidPath(to, p) && (EndsInMember(to) ==> IsPointerFree(to))
      && !p.Close? && (p.Then? ==> p.token.kind != Identifier)
    case MemberConversion(to, of) =>
      && StartsConversion(ShowPath(to, ShowPath(of, p))) && ValidPath(to, ShowPath(of, p))
      && IsPointerFree(to) && !EndsInConversion(to)
      && ShowPath(of, p).Then? && ShowPath(of, p).token.kind == Identifier && ValidPath(of, p)
      && (EndsInMember(of) ==> IsPointerFree(of))
    case BracedLambda(_, junk, number) => (forall m | m in junk :: ValidJunk(m)) && IsNumber(number)
    case QuotedLambda(word) => IsName(word) && ("lambda" <= word || "unnamed" <= word)
    case AngledLambda(word) => IsName(word) && "lambda_" <= word
    case Enclosed(text, inner) =>
      ReadsAs(SkipSpace(text), ShowPaths(inner)) && ValidPaths(inner) && Lex(Enquoted(text).str) == Ok(Some(Enquoted(text)))
    case Ordinal(number) => IsNumber(number)
    case Unreadable(word, tail) => IsName(word) && !("lambda_" <= word)
  }

  ghost predicate ValidBase(b: Base, p: Printed)
    decreases b, 1
  {
    match b
    case Bare(h) => ValidHead(h, p) && !PointerShown(p)
    case Declarator(junk, inner) => ValidDeclarator(junk, inner, p)
    case TypedDeclarator(h, junk, inner) => ValidHead(h, ShowDeclarator(junk, inner, p)) && ValidDeclarator(junk, inner, p)
    case Unnamed(of, junk) => ValidPointer(junk) && (of.Some? ==> ValidHead(of.value, ShowGroup(Round, junk, p)))
  }

  ghost predicate ValidDeclarator(junk: seq<Token>, inner: Path, p: Printed)
    decreases inner, 5
  {
    var name := ShowPath(inner, Then(Punct(")"), p));
    && ValidPointer(junk) && name.Then? && !IsPointerJunk(name.token)
    && ValidPath(inner, Then(Punct(")"), p))
  }

  predicate AreReferences(ts: seq<Token>) {
    forall t | t in ts :: IsPointerRef(t)
  }

  /** References are printed after names and types only. */
  ghost predicate ValidComponent(c: Component, p: Printed)
    decreases c, 2
  {
    && ValidBase(c.base, ShowRest(c, p))
    && AreReferences(c.refs)
    && (c.refs != [] ==> c.base.Bare? && !c.base.head.OperatorSymbol?)
    && (EndsInType(c.base) ==> EndsPath(p))
    && (forall m | m in c.modifiers :: ValidModifier(m))
    && (c.modifiers != [] ==> !c.modifiers[0].Lone?)
  }

  ghost predicate ValidPath(x: Path, p: Printed)
    decreases x, 3
  {
    match x
    case Last(c) => ValidComponent(c, p) && EndsPath(p)
    case Scope(c, star, next) => ValidComponent(c, ShowScope(star, ShowPath(next, p))) && ValidPath(next, p)
    case Member(c) => ValidComponent(c, ShowScope(true, p)) && NoTermAhead(p)
    case Stuck(c, rest) => ValidComponent(c, rest) && HopelessAhead(rest)
  }

  ghost predicate ValidPaths(xs: seq<Path>)
    decreases xs, 4
  {
    && xs != []
    && ValidPath(xs[0], ShowPaths(xs[1..]))
    && (|xs| > 1 ==> ValidPaths(xs[1..]))
  }

  predicate EndsInMember(x: Path) {
    x.Member? || (x.Scope? && EndsInMember(x.next))
  }

  predicate EndsInConversion(x: Path)
    decreases x, 0
  {
    match x
    case Scope(_, _, next) => EndsInConversion(next)
    case Last(c) => if c.base.Bare? then c.base.head.Conversion? || c.base.head.MemberConversion? else EndsInType(c.base)
    case _ => false
  }

  /** A declarator of a conversion or of a pointer to member: nothing that is declared goes on behind it. */
  predicate EndsInType(b: Base)
    decreases b, 2
  {
    match b
    case Declarator(_, inner) => !DeclaresName(inner)
    case TypedDeclarator(_, _, inner) => !DeclaresName(inner)
    case _ => false
  }

  /** What is declared is a function or a variable, and no conversion. */
  predicate DeclaresName(x: Path)
    decreases x, 1
  {
    !EndsInMember(x) && !EndsInConversion(x)
  }

  /** A conversion to a type in which something else is declared. */
  predicate IsDeclaring(h: Head) {
    match h
    case Conversion(to) => !IsPointerFree(to)
    case MemberConversion(to, of) => !IsPointerFree(to) || !IsPointerFree(of)
    case _ => false
  }

  /** No component is a function pointer declarator, and no type that is converted to has one. */
  predicate IsPointerFree(x: Path) {
    x.c.base.Bare? && !IsDeclaring(x.c.base.head) && (x.Scope? ==> IsPointerFree(x.next))
  }
}
