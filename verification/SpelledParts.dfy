/** Whole symbols spelled out: parts joined by `::`, each with a group and a qualifier behind it or without, are
    pruned to the names of the parts. */
module SpelledParts {
  import opened Wrappers
  import opened SymbolLexer
  import opened SymbolGrammar
  import opened PrintedSymbols
  import opened PrintedTexts
  import opened PruningExamples
  import opened SpelledForms
  import Declarators
  import NameTexts
  import PruningProof

  // ---------------------------------------------------------------- what is written and what is left

  /** The parts of a symbol as demanglers write them. */
  datatype Spelling =
    | Plain(word: string)
    | Anonymous(microsoft: bool)
    | Quoted(word: string)
    | Braced(number: string)
    | BracedType(number: string)
    | Angled(word: string)
    | Counted(number: string)
    | Enclosing(word: string)
    | OperatorOf(op: string)

  predicate IsSpelling(s: Spelling) {
    match s
    case Plain(word) => IsWord(word) && word != "operator"
    case Anonymous(_) => true
    case Quoted(word) => IsWord(word) && ("lambda" <= word || "unnamed" <= word)
    case Braced(number) => IsDecimal(number)
    case BracedType(number) => IsDecimal(number)
    case Angled(word) => IsWord(word) && "lambda_" <= word
    case Counted(number) => IsDecimal(number)
    case Enclosing(word) => IsWord(word) && word != "operator"
    case OperatorOf(op) => IsOperatorName(op)
  }

  /** The operators that can be overloaded, and a few that cannot. */
  predicate IsOperatorName(op: string) {
    op in ["()", "[]"] || IsShortOperator(op) || IsLongOperator(op) || op in ["->*", "<=>", "<<=", ">>="]
  }

  predicate IsShortOperator(op: string) {
    op in ["+", "-", "*", "/", "%", "^", "&", "|", "~", "!", "=", "<", ">", ",", "?", ":", "."]
  }

  predicate IsLongOperator(op: string) {
    op in ["->", "+=", "-=", "*=", "/=", "%=", "^=", "&=", "|=", "==", "!=", "<=", ">=", "&&", "||", "<<", ">>", "++", "--"]
  }

  function TextOf(s: Spelling): string {
    match s
    case Plain(word) => word
    case Anonymous(microsoft) => if microsoft then "`anonymous namespace'" else "(anonymous namespace)"
    case Quoted(word) => "'" + word + "'"
    case Braced(number) => "{lambda()#" + number + "}"
    case BracedType(number) => "{unnamed type#" + number + "}"
    case Angled(word) => "<" + word + ">"
    case Counted(number) => "`" + number + "'"
    case Enclosing(word) => "`" + word + "()'"
    case OperatorOf(op) => "operator" + op
  }

  function NameOf(s: Spelling): string {
    match s
    case Plain(word) => word
    case Anonymous(_) => "(anonymous namespace)"
    case Quoted(word) => "<" + word + ">"
    case Braced(number) => "<lambda#" + number + ">"
    case BracedType(number) => "<unnamed type#" + number + ">"
    case Angled(word) => "<" + word + ">"
    case Counted(number) => "`" + number + "'"
    case Enclosing(word) => "`" + word + "'"
    case OperatorOf(op) => "operator" + op
  }

  /** A part with the brackets and the qualifier behind it. */
  datatype Part = Part(spelling: Spelling, brackets: string, qualifier: string)

  predicate IsPart(p: Part) {
    && IsSpelling(p.spelling)
    && p.brackets in ["", "()", "[]", "{}"]
    && (p.spelling.OperatorOf? ==> p.brackets == "()")
    && (p.qualifier == "" || (p.brackets != "" && p.qualifier in ["const", "volatile", "decltype", "noexcept", "*", "&", "&&"]))
  }

  function BehindText(p: Part): string {
    p.brackets + if p.qualifier == "" then "" else " " + p.qualifier
  }

  function TextOfAll(parts: seq<Part>): string {
    if parts == [] then ""
    else TextOf(parts[0].spelling) + (BehindText(parts[0]) + (if |parts| == 1 then "" else "::" + TextOfAll(parts[1..])))
  }

  function NameOfAll(parts: seq<Part>): string {
    if parts == [] then "" else NameOf(parts[0].spelling) + (if |parts| == 1 then "" else "::" + NameOfAll(parts[1..]))
  }

  // ---------------------------------------------------------------- as the grammar has it

  function HeadOf(s: Spelling): Head {
    match s
    case Plain(word) => Named(word)
    case Anonymous(microsoft) => Tag(if microsoft then ANONYMOUS_MSVC else ANONYMOUS_GNU)
    case Quoted(word) => QuotedLambda(word)
    case Braced(number) => BracedLambda(false, [Group(Round, [])], number)
    case BracedType(number) => BracedLambda(true, [], number)
    case Angled(word) => AngledLambda(word)
    case Counted(number) => Ordinal(number)
    case Enclosing(word) => Enclosed(word + "()", [Only(Named(word), [Group(Round, [])])] + [])
    case OperatorOf(op) => if op == "()" then BracketOperator(Round) else if op == "[]" then BracketOperator(Square) else OperatorSymbol(op)
  }

  function GroupsOf(brackets: string): seq<Modifier> {
    if brackets == "" then []
    else [Group(if brackets == "()" then Round else if brackets == "[]" then Square else Curly, [])]
  }

  function QualifiersOf(qualifier: string): seq<Modifier> {
    if qualifier == "" then []
    else [if qualifier in ["*", "&", "&&"] then Lone(Punct(qualifier)) else Qualifier(qualifier)]
  }

  function ComponentOf(p: Part): Component {
    Component(Bare(HeadOf(p.spelling)), [], GroupsOf(p.brackets) + QualifiersOf(p.qualifier))
  }

  function Chain(parts: seq<Part>): Path
    requires parts != []
  {
    if |parts| == 1 then Last(ComponentOf(parts[0])) else Scope(ComponentOf(parts[0]), false, Chain(parts[1..]))
  }

  ghost predicate Reads(s: string, p: Printed) {
    ReadsAs(s, p) && SkipSpace(s) == s
  }

  /** What can stand behind a part: another one or nothing. */
  predicate IsRest(s: string) {
    s == "" || s[0] == ':'
  }

  // ---------------------------------------------------------------- reading what is behind a part

  lemma ClosingInFront(c: string, gap: string, s: string, p: Printed)
    requires c in [")", "]", "}"] && gap in ["", " "] && Reads(s, p)
    ensures Reads(c + (gap + s), Then(Punct(c), p))
  {
    var whole := c + (gap + s);
    assert whole[0] == c[0];
    assert PunctuationLength(whole) == 1 && IsOperator(c);
    FirstOfTags(whole);
    assert IsGap(gap);
    hide ReadsAs, SkipSpace, PunctuationLength;
    InFront(Punct(c), gap, s, p, whole);
  }

  lemma OpeningInFront(o: string, s: string, p: Printed)
    requires o in ["(", "[", "{"] && s != "" && s[0] in [')', ']', '}'] && Reads(s, p)
    ensures Reads(o + s, Then(Punct(o), p))
  {
    var whole := o + s;
    assert whole[0] == o[0] && whole[1] == s[0];
    assert PunctuationLength(whole) == 1 && IsOperator(o);
    FirstOfTags(whole);
    assert ANONYMOUS_GNU[1] == 'a';
    assert "" + s == s;
    hide ReadsAs, SkipSpace, PunctuationLength;
    InFront(Punct(o), "", s, p, whole);
  }

  lemma QualifierInFront(q: string, s: string, p: Printed)
    requires q in ["const", "volatile", "decltype", "noexcept", "*", "&", "&&"] && IsRest(s) && Reads(s, p)
    ensures Reads(q + s, ShowModifiers(QualifiersOf(q), p))
  {
    hide Reads;
    OneShown(QualifiersOf(q)[0], p);
    if q in ["*", "&", "&&"] {
      PointerInFront(q, s, p);
    } else {
      PlainInFront(q, s, p);
    }
  }

  lemma PointerInFront(q: string, s: string, p: Printed)
    requires q in ["*", "&", "&&"] && IsRest(s) && Reads(s, p)
    ensures Reads(q + s, Then(Punct(q), p))
  {
    assert "" + s == s;
    assert NameTexts.IsClosed(q, "" + s);
    hide ReadsAs, SkipSpace, NameTexts.IsClosed;
    ClosedInFront(q, "", s, p);
  }

  lemma PlainInFront(w: string, s: string, p: Printed)
    requires IsWord(w) && (s == "" || !IsLetterOrDigit(s[0])) && Reads(s, p)
    ensures Reads(w + s, Then(Ident(w), p))
  {
    assert "" + s == s;
    WordIsName(w);
    hide ReadsAs, SkipSpace, IsName;
    WordInFront(w, "", s, p);
  }

  lemma BracketsInFront(brackets: string, gap: string, s: string, p: Printed)
    requires brackets in ["()", "[]", "{}"] && gap in ["", " "] && Reads(s, p)
    ensures Reads(brackets + (gap + s), ShowModifiers(GroupsOf(brackets), p))
  {
    var o, c := [brackets[0]], [brackets[1]];
    hide Reads;
    ClosingInFront(c, gap, s, p);
    var q := Then(Punct(c), p);
    OpeningInFront(o, c + (gap + s), q);
    assert o + (c + (gap + s)) == brackets + (gap + s);
    OneShown(GroupsOf(brackets)[0], p);
    assert ShowTokens([], q) == q;
  }

  lemma BehindInFront(part: Part, s: string, p: Printed)
    requires IsPart(part) && IsRest(s) && Reads(s, p)
    ensures Reads(BehindText(part) + s, ShowModifiers(ComponentOf(part).modifiers, p))
  {
    var q, b := part.qualifier, part.brackets;
    hide Reads, IsSpelling;
    if b == "" {
      assert BehindText(part) + s == s && ComponentOf(part).modifiers == [];
    } else if q == "" {
      assert "" + s == s && b + "" == b;
      assert GroupsOf(b) + [] == GroupsOf(b);
      BracketsInFront(b, "", s, p);
    } else {
      QualifierInFront(q, s, p);
      BracketsInFront(b, " ", q + s, ShowModifiers(QualifiersOf(q), p));
      assert (b + (" " + q)) + s == b + (" " + (q + s));
      TwoGroups(GroupsOf(b), QualifiersOf(q), p);
    }
  }

  lemma TwoGroups(ms: seq<Modifier>, ms': seq<Modifier>, p: Printed)
    requires |ms| == 1
    ensures ShowModifiers(ms + ms', p) == ShowModifiers(ms, ShowModifiers(ms', p))
  {
    assert (ms + ms')[1..] == ms' && ms[1..] == [];
  }

  // ---------------------------------------------------------------- reading the parts

  /** What can stand behind the spelling of a part. */
  predicate IsTail(s: string) {
    s == "" || s[0] in [':', '(', '[', '{']
  }

  lemma {:induction false} WordIsQuotable(w: string, i: nat)
    requires i <= |w| && forall k :: i <= k < |w| ==> IsLetterOrDigit(w[k])
    ensures IsQuotable(w[i..], '\'')
    decreases |w| - i
  {
    if i < |w| {
      WordIsQuotable(w, i + 1);
      assert w[i..][1..] == w[i + 1..] && w[i..][0] == w[i];
    }
  }

  /** A token in front, told by the scanner. */
  lemma TokenInFront(t: Token, s: string, p: Printed)
    requires t.str != "" && !IsSpace(t.str[0]) && Lex(t.str + s) == Ok(Some(t)) && Reads(s, p)
    ensures Reads(t.str + s, Then(t, p))
  {
    hide Lex, LexIn;
    assert (t.str + s)[|t.str|..] == s;
    SkipNone(t.str + s);
  }

  lemma QuotedInFront(w: string, s: string, p: Printed)
    requires IsWord(w) && Reads(s, p)
    ensures Reads("'" + w + "'" + s, Then(Token(Literal, "'" + w + "'"), p))
  {
    WordIsQuotable(w, 0);
    assert w[0..] == w;
    hide Reads, IsQuotable, IsWord;
    QuotedIsRead(w, '\'', s);
    assert ['\''] == "'";
    TokenInFront(Token(Literal, "'" + w + "'"), s, p);
  }

  lemma TagInFront(microsoft: bool, s: string, p: Printed)
    requires Reads(s, p)
    ensures var t := TextOf(Anonymous(microsoft)); Reads(t + s, Then(Token(AnonymousNamespace, t), p))
  {
    hide Reads;
    var t := Token(AnonymousNamespace, TextOf(Anonymous(microsoft)));
    assert IsToken(t) && EndsBefore(t, s) && !IsSpace(t.str[0]);
    LexIsExact(t, s);
    TokenInFront(t, s, p);
  }

  /** A string in Microsoft's quotes that has no quotes inside. */
  lemma EnquotedInFront(text: string, s: string, p: Printed)
    requires text != "" && IsLetterOrDigit(text[0]) && (|text| > 9 ==> text[9] != ' ') && Reads(s, p)
    requires forall i :: 0 <= i < |text| ==> text[i] != '`' && text[i] != '\''
    ensures Reads("`" + text + "'" + s, Then(Enquoted(text), p))
    ensures Lex(Enquoted(text).str) == Ok(Some(Enquoted(text)))
  {
    hide Reads, Lex;
    var t := Enquoted(text);
    EnquotedIsRead(text, s);
    EnquotedIsRead(text, "");
    assert t.str + "" == t.str;
    TokenInFront(t, s, p);
  }

  lemma EnquotedIsRead(text: string, s: string)
    requires text != "" && (|text| > 9 ==> text[9] != ' ')
    requires forall i :: 0 <= i < |text| ==> text[i] != '`' && text[i] != '\''
    ensures var t := Enquoted(text); Lex(t.str + s) == Ok(Some(t))
  {
    var t := Enquoted(text).str;
    assert forall i :: 1 <= i < |t| - 1 ==> t[i] == text[i - 1];
    ClosesAtQuote(t, 1, |t| - 1);
    assert MsvcEnd(t, 0, 0) == MsvcEnd(t, 1, 1);
    assert t != ANONYMOUS_MSVC by {
      assert |t| == 21 ==> t[10] == text[9];
      assert ANONYMOUS_MSVC[10] == ' ';
    }
    assert IsMsvcLiteral(t);
    hide Lex, IsMsvcLiteral;
    LexIsExact(Enquoted(text), s);
  }

  lemma NumberInFront(n: string, s: string, p: Printed)
    requires IsDecimal(n) && s != "" && s[0] == '}' && Reads(s, p)
    ensures Reads(n + s, Then(Token(Literal, n), p))
  {
    hide Reads;
    NumberIsRead(n, s);
    TokenInFront(Token(Literal, n), s, p);
  }

  lemma HashInFront(n: string, s: string, p: Printed)
    requires IsDecimal(n) && Reads(s, p)
    ensures Reads("#" + (n + ("}" + s)), Then(Punct("#"), Then(Token(Literal, n), Then(Punct("}"), p))))
  {
    hide Reads;
    assert "" + s == s;
    ClosingInFront("}", "", s, p);
    NumberInFront(n, "}" + s, Then(Punct("}"), p));
    PlainPunctuationInFront("#", n + ("}" + s), Then(Token(Literal, n), Then(Punct("}"), p)));
  }

  lemma PlainPunctuationInFront(op: string, s: string, p: Printed)
    requires (op == "#" || op == "{") && Reads(s, p)
    ensures Reads(op + s, Then(Punct(op), p))
  {
    var whole := op + s;
    NothingLonger(op, s);
    FirstOfTags(whole);
    assert "" + s == s;
    hide ReadsAs, SkipSpace, PunctuationLength;
    InFront(Punct(op), "", s, p, whole);
  }

  lemma NothingLonger(op: string, s: string)
    requires op == "#" || op == "{"
    ensures PunctuationLength(op + s) == 1 && IsOperator(op) && (op + s)[0] == op[0]
  {
  }

  lemma BracedInFront(n: string, s: string, p: Printed)
    requires IsDecimal(n) && Reads(s, p)
    ensures Reads("{lambda()#" + n + "}" + s, ShowHead(BracedLambda(false, [Group(Round, [])], n), p))
  {
    hide Reads;
    var s1, p1 := "#" + (n + ("}" + s)), Then(Punct("#"), Then(Token(Literal, n), Then(Punct("}"), p)));
    HashInFront(n, s, p);
    assert "" + s1 == s1;
    BracketsInFront("()", "", s1, p1);
    var q := ShowModifiers([Group(Round, [])], p1);
    PlainInFront("lambda", "()" + s1, q);
    PlainPunctuationInFront("{", "lambda" + ("()" + s1), Then(Ident("lambda"), q));
    LambdaText(n, s);
  }

  lemma LambdaText(n: string, s: string)
    ensures "{" + ("lambda" + ("()" + ("#" + (n + ("}" + s))))) == "{lambda()#" + n + "}" + s
  {
  }

  lemma BracedTypeInFront(n: string, s: string, p: Printed)
    requires IsDecimal(n) && Reads(s, p)
    ensures Reads("{unnamed type#" + n + "}" + s, ShowHead(BracedLambda(true, [], n), p))
  {
    hide Reads;
    var s1, p1 := "#" + (n + ("}" + s)), Then(Punct("#"), Then(Token(Literal, n), Then(Punct("}"), p)));
    HashInFront(n, s, p);
    assert ShowModifiers([], p1) == p1;
    PlainInFront("type", s1, p1);
    SpacedInFront("unnamed", "type" + s1, Then(Ident("type"), p1));
    var s2 := "unnamed" + (" " + ("type" + s1));
    PlainPunctuationInFront("{", s2, Then(Ident("unnamed"), Then(Ident("type"), p1)));
    UnnamedText(n, s);
  }

  lemma UnnamedText(n: string, s: string)
    ensures "{" + ("unnamed" + (" " + ("type" + ("#" + (n + ("}" + s)))))) == "{unnamed type#" + n + "}" + s
  {
  }

  lemma SpacedInFront(w: string, s: string, p: Printed)
    requires IsWord(w) && Reads(s, p)
    ensures Reads(w + (" " + s), Then(Ident(w), p))
  {
    WordIsName(w);
    hide ReadsAs, SkipSpace, IsName;
    WordInFront(w, " ", s, p);
  }

  lemma AngledInFront(w: string, s: string, p: Printed)
    requires IsWord(w) && IsTail(s) && Reads(s, p)
    ensures Reads("<" + w + ">" + s, ShowHead(AngledLambda(w), p))
  {
    hide Reads;
    EndInFront(s, p);
    PlainInFront(w, ">" + s, Then(Punct(">"), p));
    var rest := w + (">" + s);
    assert rest[0] == w[0];
    StartInFront(rest, Then(Ident(w), Then(Punct(">"), p)));
    assert "<" + rest == "<" + w + ">" + s;
  }

  lemma EndInFront(s: string, p: Printed)
    requires IsTail(s) && Reads(s, p)
    ensures Reads(">" + s, Then(Punct(">"), p))
  {
    hide ReadsAs, SkipSpace;
    BracketInFront(s, p);
  }

  lemma StartInFront(s: string, p: Printed)
    requires s != "" && IsLetter(s[0]) && Reads(s, p)
    ensures Reads("<" + s, Then(Punct("<"), p))
  {
    hide ReadsAs, SkipSpace;
    assert "" + s == s;
    ClosedInFront("<", "", s, p);
  }

  /** What is printed behind `operator`. */
  function ShowSymbol(op: string, p: Printed): Printed {
    if op == "()" then ShowGroup(Round, [], p) else if op == "[]" then ShowGroup(Square, [], p) else Then(Punct(op), p)
  }

  lemma OperatorInFront(op: string, s: string, p: Printed)
    requires IsOperatorName(op) && "()" <= s && Reads(s, p)
    ensures Reads("operator" + op + s, ShowHead(HeadOf(OperatorOf(op)), p))
  {
    hide Reads, IsOperatorName;
    OperatorNameInFront(op, s, p);
    assert ShowHead(HeadOf(OperatorOf(op)), p) == Then(Ident("operator"), ShowSymbol(op, p));
    hide ShowHead, HeadOf, ShowSymbol;
    PlainInFront("operator", op + s, ShowSymbol(op, p));
    assert "operator" + (op + s) == "operator" + op + s;
  }

  lemma OperatorNameInFront(op: string, s: string, p: Printed)
    requires IsOperatorName(op) && "()" <= s && Reads(s, p)
    ensures Reads(op + s, ShowSymbol(op, p)) && op + s != "" && !IsLetterOrDigit((op + s)[0])
  {
    hide Reads;
    if op in ["()", "[]"] {
      assert "" + s == s;
      BracketsInFront(op, "", s, p);
      OneShown(GroupsOf(op)[0], p);
    } else {
      SymbolInFront(op, s, p);
    }
  }

  lemma SymbolInFront(op: string, s: string, p: Printed)
    requires IsOperatorName(op) && op !in ["()", "[]"] && "()" <= s && Reads(s, p)
    ensures Reads(op + s, Then(Punct(op), p)) && !IsLetterOrDigit((op + s)[0])
  {
    OperatorNameIsOperator(op);
    NameTexts.OperatorEnds(op, s);
    assert "" + s == s && (op + s)[0] == op[0];
    hide ReadsAs, SkipSpace, PunctuationLength, IsOperatorName;
    PunctuationInFront(op, "", s, p, op + s);
  }

  lemma OperatorNameIsOperator(op: string)
    requires IsOperatorName(op) && op !in ["()", "[]"]
    ensures IsOperator(op) && op != "(" && op != "[" && !IsLetterOrDigit(op[0])
  {
    hide PunctuationLength;
    if IsShortOperator(op) {
      ShortIsOperator(op);
    } else if IsLongOperator(op) {
      LongIsOperator(op);
    } else {
      LongestIsOperator(op);
    }
  }

  lemma ShortIsOperator(op: string)
    requires IsShortOperator(op)
    ensures IsOperator(op) && op != "(" && op != "[" && !IsLetterOrDigit(op[0])
  {
    assert |op| == 1;
  }

  lemma LongIsOperator(op: string)
    requires IsLongOperator(op)
    ensures IsOperator(op) && !IsLetterOrDigit(op[0]) && |op| == 2
  {
  }

  lemma LongestIsOperator(op: string)
    requires op in ["->*", "<=>", "<<=", ">>="]
    ensures IsOperator(op) && !IsLetterOrDigit(op[0]) && |op| == 3
  {
  }

  // ---------------------------------------------------------------- reading whole symbols

  lemma SpellingInFront(sp: Spelling, s: string, p: Printed)
    requires IsSpelling(sp) && IsTail(s) && (sp.OperatorOf? ==> "()" <= s) && Reads(s, p)
    ensures Reads(TextOf(sp) + s, ShowHead(HeadOf(sp), p))
  {
    hide Reads, IsOperatorName, IsWord, IsDecimal;
    match sp
    case Plain(word) =>
      assert s == "" || !IsLetterOrDigit(s[0]);
      PlainInFront(word, s, p);
    case Anonymous(microsoft) => TagInFront(microsoft, s, p);
    case Quoted(word) => QuotedInFront(word, s, p);
    case Braced(number) => BracedInFront(number, s, p);
    case BracedType(number) => BracedTypeInFront(number, s, p);
    case Angled(word) => AngledInFront(word, s, p);
    case Counted(number) => CountedInFront(number, s, p);
    case Enclosing(word) => EnclosingInFront(word, s, p);
    case OperatorOf(op) => OperatorInFront(op, s, p);
  }

  lemma CountedInFront(number: string, s: string, p: Printed)
    requires IsDecimal(number) && Reads(s, p)
    ensures Reads("`" + number + "'" + s, Then(Enquoted(number), p))
  {
    hide Reads, Enquoted;
    EnquotedInFront(number, s, p);
  }

  lemma EnclosingInFront(word: string, s: string, p: Printed)
    requires IsWord(word) && Reads(s, p)
    ensures Reads("`" + word + "()'" + s, Then(Enquoted(word + "()"), p))
    ensures Lex(Enquoted(word + "()").str) == Ok(Some(Enquoted(word + "()")))
  {
    hide Reads, Enquoted, Lex;
    EnquotedInFront(word + "()", s, p);
    assert "`" + (word + "()") + "'" == "`" + word + "()'";
  }

  lemma EnclosedIsRead(word: string)
    requires IsWord(word) && word != "operator"
    ensures var inner := [Only(Named(word), [Group(Round, [])])] + [];
            && Reads(word + "()", ShowPaths(inner)) && ValidPaths(inner) && !AnyFails(inner) && QualifiedName(inner) == word
            && Lex(Enquoted(word + "()").str) == Ok(Some(Enquoted(word + "()")))
  {
    var x := Only(Named(word), [Group(Round, [])]);
    assert [x] + [] == [x];
    NothingLeft();
    WordIsName(word);
    EnclosingInFront(word, "", End);
    BracketsInFront("()", "", "", End);
    CallIsShown(word);
    hide Reads, Lex, IsWord, IsName, ShowPaths, ValidPaths, AnyFails, QualifiedName, ValidPath, Fails;
    assert "()" + ("" + "") == "()";
    PlainInFront(word, "()", ShowModifiers([Group(Round, [])], End));
    OnlyPath(x);
    Declarators.CallName(word, [Group(Round, [])]);
  }

  lemma CallIsShown(word: string)
    requires IsName(word) && word != "operator"
    ensures var x := Only(Named(word), [Group(Round, [])]);
            && ShowPath(x, End) == Then(Ident(word), ShowModifiers([Group(Round, [])], End))
            && ValidPath(x, End) && !Fails(x)
  {
    var x := Only(Named(word), [Group(Round, [])]);
    hide IsName;
    EmptyGroup(End);
    NamedParts(word, [Group(Round, [])], End, Nothing);
    NamedComponent(word, [Group(Round, [])], End);
    assert ShowPath(x, End) == ShowComponent(x.c, End);
  }

  lemma EmptyGroup(p: Printed)
    ensures ValidModifier(Group(Round, [])) && !PointerShown(ShowModifiers([Group(Round, [])], p))
  {
    OneShown(Group(Round, []), p);
    assert ShowTokens([], Then(Punct(")"), p)) == Then(Punct(")"), p);
  }

  lemma HeadIsValid(sp: Spelling, p: Printed)
    requires IsSpelling(sp)
    ensures ValidHead(HeadOf(sp), p) && !HeadFails(HeadOf(sp))
  {
    hide IsOperatorName;
    match sp
    case Plain(word) => WordIsName(word);
    case Anonymous(_) =>
    case Quoted(word) => WordIsName(word);
    case Braced(number) => EmptyGroup(End);
    case BracedType(number) =>
    case Angled(word) => WordIsName(word);
    case Counted(number) =>
    case Enclosing(word) => EnclosedHeadIsValid(word, p);
    case OperatorOf(op) => OperatorHeadIsValid(op, p);
  }

  lemma EnclosedHeadIsValid(word: string, p: Printed)
    requires IsWord(word) && word != "operator"
    ensures ValidHead(HeadOf(Enclosing(word)), p)
  {
    hide Lex, ShowPaths, ValidPaths, ReadsAs;
    EnclosedIsRead(word);
  }

  lemma OperatorHeadIsValid(op: string, p: Printed)
    requires IsOperatorName(op)
    ensures ValidHead(HeadOf(OperatorOf(op)), p)
  {
    hide IsOperator;
    if op !in ["()", "[]"] {
      OperatorNameIsOperator(op);
    }
  }

  lemma ModifiersAreValid(p: Part, q: Printed)
    requires IsPart(p) && !PointerShown(q)
    ensures var ms := ComponentOf(p).modifiers;
            && (forall m | m in ms :: ValidModifier(m)) && (ms != [] ==> !ms[0].Lone?) && !PointerShown(ShowModifiers(ms, q))
  {
    hide IsSpelling, HeadOf;
    var ms := GroupsOf(p.brackets) + QualifiersOf(p.qualifier);
    assert ComponentOf(p).modifiers == ms;
    if p.brackets == "" {
      assert ms == [];
    } else {
      assert ValidModifier(ms[0]) && ms[0].Group? && ms[0].inner == [];
      if |ms| == 2 {
        assert ms == [ms[0], ms[1]];
        assert ValidModifier(ms[1]);
        TwoShown(ms[0], ms[1], q);
        assert !PointerShown(ShowModifier(ms[0], ShowModifier(ms[1], q)));
      } else {
        assert ms == [ms[0]];
        OneShown(ms[0], q);
        assert !PointerShown(ShowModifier(ms[0], q));
      }
    }
  }

  lemma PartInFront(part: Part, s: string, q: Printed)
    requires IsPart(part) && IsRest(s) && Reads(s, q) && !PointerShown(q)
    ensures var c := ComponentOf(part);
            && Reads(TextOf(part.spelling) + (BehindText(part) + s), ShowComponent(c, q))
            && ValidComponent(c, q) && !BaseFails(c.base)
  {
    var c := ComponentOf(part);
    var p := ShowModifiers(c.modifiers, q);
    BehindInFront(part, s, q);
    assert IsTail(BehindText(part) + s) && (part.spelling.OperatorOf? ==> "()" <= BehindText(part) + s) by {
      BehindIsTail(part, s);
    }
    hide Reads, IsSpelling, PointerShown, ValidModifier, HeadOf, ShowModifiers;
    SpellingInFront(part.spelling, BehindText(part) + s, p);
    HeadIsValid(part.spelling, p);
    ModifiersAreValid(part, q);
    hide ValidHead, HeadFails, ShowHead;
    assert ShowRest(c, q) == p;
    assert ShowComponent(c, q) == ShowHead(HeadOf(part.spelling), p);
    assert ValidBase(c.base, p);
    assert ValidComponent(c, q);
  }

  lemma BehindIsTail(part: Part, s: string)
    requires IsPart(part) && IsRest(s)
    ensures IsTail(BehindText(part) + s) && (part.spelling.OperatorOf? ==> "()" <= BehindText(part) + s)
  {
    hide IsSpelling;
    if part.brackets != "" {
      assert (BehindText(part) + s)[0] == part.brackets[0] && (BehindText(part) + s)[1] == part.brackets[1];
    } else {
      assert BehindText(part) + s == s;
    }
  }

  lemma {:induction false} ChainIsRead(parts: seq<Part>)
    requires parts != [] && forall p | p in parts :: IsPart(p)
    ensures var x := Chain(parts); Reads(TextOfAll(parts), ShowPath(x, End)) && ValidPath(x, End) && !Fails(x)
  {
    hide Reads, IsPart, ShowComponent, ValidComponent, ComponentOf, BaseFails, TextOf, BehindText;
    if |parts| == 1 {
      assert Reads("", End) by { NothingIsRead(); }
      PartInFront(parts[0], "", End);
    } else {
      var s, q := TextOfAll(parts[1..]), ShowPath(Chain(parts[1..]), End);
      ChainIsRead(parts[1..]);
      ScopeIsRead(s, q);
      ScopeIsNoPointer(q);
      PartInFront(parts[0], "::" + s, ShowScope(false, q));
    }
  }

  lemma NothingIsRead()
    ensures Reads("", End)
  {
  }

  lemma ScopeIsRead(s: string, q: Printed)
    requires Reads(s, q)
    ensures Reads("::" + s, ShowScope(false, q))
  {
    hide ReadsAs, SkipSpace;
    ScopeInFront(s, q);
  }

  // ---------------------------------------------------------------- the name

  /** What follows a part in the name. */
  predicate ContinuesName(k: Name) {
    k.Nothing? || (k.Word? && k.token.kind == Punctuation)
  }

  lemma FlagDoesNotMatter(k: Name, text: string)
    requires ContinuesName(k)
    ensures Spell(k, text, true) == Spell(k, text, false)
  {
  }

  lemma InBrackets(o: string, t: Token, c: string, k: Name, text: string)
    ensures Spell(Word(Punct(o), Word(t, Word(Punct(c), k))), text, false) == Spell(k, text + (o + t.str + c), false)
  {
    SpellPunctuation(o, Word(t, Word(Punct(c), k)), text, false);
    assert text + o + "" + t.str == text + o + t.str;
    assert Spell(Word(t, Word(Punct(c), k)), text + o, false) == Spell(Word(Punct(c), k), text + o + t.str, t.kind == Identifier);
    SpellPunctuation(c, k, text + o + t.str, t.kind == Identifier);
    assert text + o + t.str + c == text + (o + t.str + c);
  }

  lemma SpellingIsSpelled(sp: Spelling, k: Name, text: string)
    requires IsSpelling(sp) && ContinuesName(k)
    ensures Spell(NameOfHead(HeadOf(sp), k), text, false) == Spell(k, text + NameOf(sp), false)
  {
    FlagDoesNotMatter(k, text + NameOf(sp));
    hide Spell, IsWord, IsDecimal, IsOperatorName, NameOfHead;
    match sp
    case Plain(word) => PlainIsSpelled(word, k, text);
    case Anonymous(microsoft) => TagIsSpelled(microsoft, k, text);
    case Quoted(word) => BracketedIsSpelled(word, k, text);
    case Braced(number) => LambdaIsSpelled(number, k, text);
    case BracedType(number) => UnnamedIsSpelled(number, k, text);
    case Angled(word) => BracketedIsSpelled(word, k, text);
    case Counted(number) => InQuotesIsSpelled(number, k, text);
    case Enclosing(word) =>
      EnclosedIsNamed(word, k);
      InQuotesIsSpelled(word, k, text);
    case OperatorOf(op) => OperatorIsSpelled(op, k, text);
  }

  lemma PlainIsSpelled(word: string, k: Name, text: string)
    ensures Spell(NameOfHead(Named(word), k), text, false) == Spell(k, text + word, true)
  {
    hide Spell;
    SpellAfter(word, k, text);
  }

  lemma TagIsSpelled(microsoft: bool, k: Name, text: string)
    ensures Spell(NameOfHead(HeadOf(Anonymous(microsoft)), k), text, false) == Spell(k, text + "(anonymous namespace)", true)
  {
    hide Spell;
    SpellAfter("(anonymous namespace)", k, text);
  }

  lemma BracketedIsSpelled(word: string, k: Name, text: string)
    ensures Spell(NameOfHead(QuotedLambda(word), k), text, false) == Spell(k, text + ("<" + word + ">"), false)
    ensures Spell(NameOfHead(AngledLambda(word), k), text, false) == Spell(k, text + ("<" + word + ">"), false)
  {
    hide Spell;
    InBrackets("<", Punct(word), ">", k, text);
    InBrackets("<", Ident(word), ">", k, text);
  }

  lemma InQuotesIsSpelled(name: string, k: Name, text: string)
    ensures Spell(NameOfHead(Ordinal(name), k), text, false) == Spell(k, text + ("`" + name + "'"), false)
  {
    hide Spell;
    InBrackets("`", Punct(name), "'", k, text);
  }

  lemma EnclosedIsNamed(word: string, k: Name)
    requires IsWord(word) && word != "operator"
    ensures NameOfHead(HeadOf(Enclosing(word)), k) == NameOfHead(Ordinal(word), k)
  {
    var inner := [Only(Named(word), [Group(Round, [])])] + [];
    assert HeadOf(Enclosing(word)) == Enclosed(word + "()", inner);
    hide *;
    EnclosedIsRead(word);
    EnclosedName(word + "()", inner, k);
  }

  lemma EnclosedName(text: string, inner: seq<Path>, k: Name)
    requires !AnyFails(inner)
    ensures NameOfHead(Enclosed(text, inner), k) == NameOfHead(Ordinal(QualifiedName(inner)), k)
  {
    hide QualifiedName, AnyFails;
  }

  lemma NumberIsSpelled(number: string, k: Name, text: string)
    ensures Spell(Word(Punct("#"), Word(Token(Literal, number), Word(Punct(">"), k))), text, true)
         == Spell(k, text + ("#" + number + ">"), false)
  {
    SpellPunctuation("#", Word(Token(Literal, number), Word(Punct(">"), k)), text, true);
    assert text + "#" + "" + number == text + "#" + number;
    assert Spell(Word(Token(Literal, number), Word(Punct(">"), k)), text + "#", false)
        == Spell(Word(Punct(">"), k), text + "#" + number, false);
    SpellPunctuation(">", k, text + "#" + number, false);
    assert text + "#" + number + ">" == text + ("#" + number + ">");
  }

  lemma LambdaIsSpelled(number: string, k: Name, text: string)
    ensures Spell(NameOfHead(BracedLambda(false, [Group(Round, [])], number), k), text, false)
         == Spell(k, text + ("<lambda#" + number + ">"), false)
  {
    hide Spell;
    var tail := Word(Punct("#"), Word(Token(Literal, number), Word(Punct(">"), k)));
    SpellPunctuation("<", Word(Ident("lambda"), tail), text, false);
    SpellAfter("lambda", tail, text + "<");
    NumberIsSpelled(number, k, text + "<" + "lambda");
    assert text + "<" + "lambda" + ("#" + number + ">") == text + ("<lambda#" + number + ">");
  }

  lemma UnnamedIsSpelled(number: string, k: Name, text: string)
    ensures Spell(NameOfHead(BracedLambda(true, [], number), k), text, false)
         == Spell(k, text + ("<unnamed type#" + number + ">"), false)
  {
    hide Spell;
    var tail := Word(Punct("#"), Word(Token(Literal, number), Word(Punct(">"), k)));
    SpellPunctuation("<", Word(Ident("unnamed"), Word(Ident("type"), tail)), text, false);
    SpellAfter("unnamed", Word(Ident("type"), tail), text + "<");
    SpellWord("type", tail, text + "<" + "unnamed");
    NumberIsSpelled(number, k, text + "<" + "unnamed" + (" " + "type"));
    assert text + "<" + "unnamed" + (" " + "type") + ("#" + number + ">") == text + ("<unnamed type#" + number + ">");
  }

  lemma OperatorIsSpelled(op: string, k: Name, text: string)
    ensures Spell(NameOfHead(HeadOf(OperatorOf(op)), k), text, false) == Spell(k, text + ("operator" + op), false)
  {
    hide Spell;
    var o, c := if op == "()" then "(" else "[", if op == "()" then ")" else "]";
    if op in ["()", "[]"] {
      SpellAfter("operator", Word(Punct(o), Word(Punct(c), k)), text);
      SpellPunctuation(o, Word(Punct(c), k), text + "operator", true);
      SpellPunctuation(c, k, text + "operator" + o, false);
      assert text + "operator" + o + c == text + ("operator" + op);
    } else {
      SpellAfter("operator", Word(Punct(op), k), text);
      SpellPunctuation(op, k, text + "operator", true);
      assert text + "operator" + op == text + ("operator" + op);
    }
  }

  lemma PartName(part: Part, k: Name)
    ensures NameOfComponent(ComponentOf(part), k) == NameOfHead(HeadOf(part.spelling), k)
  {
    hide HeadOf, NameOfHead;
    var c := ComponentOf(part);
    assert WithTokens([], k) == k;
    assert NameOfBase(c.base, k) == NameOfHead(HeadOf(part.spelling), k);
  }

  lemma {:induction false} ChainIsSpelled(parts: seq<Part>, text: string)
    requires parts != [] && forall p | p in parts :: IsPart(p)
    ensures Spell(NameOfPath(Chain(parts), Nothing), text, false) == text + NameOfAll(parts)
  {
    var part := parts[0];
    assert IsSpelling(part.spelling) by { assert IsPart(part); }
    hide Spell, ComponentOf, HeadOf, NameOfComponent, NameOfHead, IsPart, IsSpelling, NameOf, NameOfAll;
    NameOfFirst(parts);
    if |parts| == 1 {
      PartName(part, Nothing);
      SpellingIsSpelled(part.spelling, Nothing, text);
      NothingMore(text + NameOf(part.spelling));
    } else {
      var n := NameOfPath(Chain(parts[1..]), Nothing);
      var k := Word(Punct("::"), n);
      PartName(part, k);
      SpellingIsSpelled(part.spelling, k, text);
      var t := text + NameOf(part.spelling);
      SpellPunctuation("::", n, t, false);
      ChainIsSpelled(parts[1..], t + "::");
      Regrouped(text, NameOf(part.spelling), "::", NameOfAll(parts[1..]));
    }
  }

  lemma NameOfFirst(parts: seq<Part>)
    requires parts != []
    ensures NameOfAll(parts)
         == if |parts| == 1 then NameOf(parts[0].spelling) else NameOf(parts[0].spelling) + ("::" + NameOfAll(parts[1..]))
  {
    hide NameOf;
    assert NameOf(parts[0].spelling) + "" == NameOf(parts[0].spelling);
  }

  lemma Regrouped(a: string, b: string, c: string, d: string)
    ensures a + b + c + d == a + (b + (c + d))
  {
  }

  lemma NothingMore(text: string)
    ensures Spell(Nothing, text, false) == text
  {
  }

  /** A symbol of such parts is pruned to the names of the parts: anonymous namespaces in GNU's spelling, lambdas and
      unnamed types in angle brackets, and what stands in quotes pruned in turn. */
  lemma PartsArePruned(parts: seq<Part>)
    requires parts != [] && forall p | p in parts :: IsPart(p)
    ensures Prune(TextOfAll(parts)) == NameOfAll(parts)
  {
    var x, text := Chain(parts), TextOfAll(parts);
    ChainIsRead(parts);
    ChainIsSpelled(parts, "");
    hide *;
    assert ReadsAs(SkipSpace(text), ShowPath(x, End)) by { WholeIsRead(text, ShowPath(x, End)); }
    PrunedToOnly(text, x);
    assert QualifiedName([x]) == Spell(NameOfPath(x, Nothing), "", false) by { NameOfOne(x); }
    assert "" + NameOfAll(parts) == NameOfAll(parts);
  }

  lemma WholeIsRead(s: string, p: Printed)
    requires Reads(s, p)
    ensures ReadsAs(SkipSpace(s), p)
  {
  }

  lemma NameOfOne(x: Path)
    ensures QualifiedName([x]) == Spell(NameOfPath(x, Nothing), "", false)
  {
    hide NameOfPath, Spell;
  }

  /** A word in single quotes is a lambda or an unnamed type exactly if it starts like one; other quoted words are
      left alone. */
  lemma QuotedWord(w: string)
    requires IsWord(w)
    ensures Prune("'" + w + "'") == if "lambda" <= w || "unnamed" <= w then "<" + w + ">" else "'" + w + "'"
  {
    hide Prune;
    if "lambda" <= w || "unnamed" <= w {
      var parts := [Part(Quoted(w), "", "")];
      assert parts[0].spelling == Quoted(w) && BehindText(parts[0]) + "" == "";
      PartsArePruned(parts);
      hide *;
      OneQuoted(w);
    } else {
      QuotedWordIsLeft(w);
    }
  }

  lemma OneQuoted(w: string)
    ensures TextOfAll([Part(Quoted(w), "", "")]) == "'" + w + "'" && NameOfAll([Part(Quoted(w), "", "")]) == "<" + w + ">"
  {
    assert BehindText(Part(Quoted(w), "", "")) == "";
  }

  lemma QuotedWordIsLeft(w: string)
    requires IsWord(w) && !("lambda" <= w) && !("unnamed" <= w)
    ensures Prune("'" + w + "'") == "'" + w + "'"
  {
    var text, t := "'" + w + "'", Token(Literal, "'" + w + "'");
    NotQuotedLambda(w);
    NothingIsRead();
    QuotedInFront(w, "", End);
    assert text + "" == text;
    var st := Start(text).(out := Output("", false, true));
    var p := Then(t, End);
    assert NoTermAhead(p);
    hide Lex, IsWord, Symbol, NoTermAhead, IsQuotedLambda;
    PruningProof.NoTermHere(p, st);
    assert Symbol(st) == Ok((false, st));
    assert FullSymbol(Start(text)) == Err(ParseError);
  }

  lemma NotQuotedLambda(w: string)
    requires IsWord(w) && !("lambda" <= w) && !("unnamed" <= w)
    ensures !IsQuotedLambda(Token(Literal, "'" + w + "'"))
  {
    WithinQuotes(w, "lambda");
    WithinQuotes(w, "unnamed");
    assert "'" + "lambda" == "'lambda" && "'" + "unnamed" == "'unnamed";
  }

  lemma WithinQuotes(w: string, word: string)
    requires word != "" && word[|word| - 1] != '\''
    ensures "'" + word <= "'" + w + "'" ==> word <= w
  {
    if "'" + word <= "'" + w + "'" {
      assert ("'" + word)[1..] == word && ("'" + w + "'")[1..] == w + "'";
    }
  }
}
