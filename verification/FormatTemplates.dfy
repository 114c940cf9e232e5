/** Format strings that are printed from templates are read back as those templates. */
module FormatTemplates {
  import opened Wrappers
  import opened Microfmt

  /** A character to be written, or a formatter. */
  datatype Piece = Literal(c: char) | Hole(align: Option<Alignment>, width: Width, tail: Tail)

  datatype Width = NoWidth | Fixed(digits: string) | FromArgument

  datatype Tail = NoTail | BareColon | BaseOnly(base: char) | FillOnly(fill: char) | FillAndBase(fill: char, base: char)

  /** A width from an argument follows an alignment, since two opening braces together stand for one. */
  predicate ValidPiece(p: Piece) {
    p.Hole? ==>
      && (p.width.Fixed? ==> p.width.digits != "" && AllDigits(p.width.digits))
      && (p.width.FromArgument? ==> p.align.Some?)
      && (match p.tail
          case BaseOnly(base) => IsBase(base)
          case FillOnly(fill) => !IsBase(fill) && fill != '}'
          case FillAndBase(fill, base) => fill != '}' && base != '}'
          case _ => true)
  }

  predicate AllDigits(s: string) {
    forall i :: 0 <= i < |s| ==> IsDigit(s[i])
  }

  // ---------------------------------------------------------------- printing a template

  function ShowAlign(a: Option<Alignment>): string {
    match a
    case None => ""
    case Some(AlignLeft) => "<"
    case Some(AlignRight) => ">"
  }

  function ShowWidth(w: Width): string {
    match w
    case NoWidth => ""
    case Fixed(digits) => digits
    case FromArgument => "{}"
  }

  function ShowTail(t: Tail): string {
    match t
    case NoTail => ""
    case BareColon => ":"
    case BaseOnly(base) => [':', base]
    case FillOnly(fill) => [':', fill]
    case FillAndBase(fill, base) => [':', fill, base]
  }

  function Show(p: Piece): string {
    match p
    case Literal(c) => if IsBrace(c) then [c, c] else [c]
    case Hole(align, width, tail) => "{" + (ShowAlign(align) + (ShowWidth(width) + (ShowTail(tail) + "}")))
  }

  function ShowAll(t: seq<Piece>): string {
    if t == [] then "" else Show(t[0]) + ShowAll(t[1..])
  }

  // ---------------------------------------------------------------- what a template means

  /** The width in force at a hole, and the arguments that are left for it. */
  function Measure(w: Width, args: seq<Value>): (nat, seq<Value>) {
    match w
    case NoWidth => (0, args)
    case Fixed(digits) => (Decimal(digits), args)
    case FromArgument => if args == [] then (0, []) else (WidthOf(args[0]), args[1..])
  }

  function OptionsOf(p: Piece, width: nat): Options
    requires p.Hole?
  {
    Options(
      if p.align == Some(AlignRight) then AlignRight else AlignLeft,
      if p.tail.FillOnly? || p.tail.FillAndBase? then p.tail.fill else ' ',
      width,
      if p.tail.BaseOnly? || p.tail.FillAndBase? then p.tail.base else 'd')
  }

  /** Each hole takes its arguments from the front of those not yet used; with none left it writes nothing. */
  function Render(t: seq<Piece>, args: seq<Value>): string {
    if t == [] then ""
    else match t[0]
      case Literal(c) => [c] + Render(t[1..], args)
      case Hole(_, w, _) =>
        var (width, left) := Measure(w, args);
        if left == [] then Render(t[1..], [])
        else Written(left[0], OptionsOf(t[0], width)) + Render(t[1..], left[1..])
  }

  // ---------------------------------------------------------------- arguments

  /** Used arguments are never looked at again: what is left of the format goes on as if the unused
      arguments were all there are. */
  lemma {:induction false} ArgumentsAreConsumed(rest: string, args: seq<Value>, k: nat)
    requires k <= |args|
    ensures Formatted(rest, args, k) == Formatted(rest, args[k..], 0)
    decreases |rest|
  {
    hide Formatter, Written;
    if rest == "" {
    } else if IsBrace(rest[0]) && |rest| > 1 && rest[1] == rest[0] {
      ArgumentsAreConsumed(rest[2..], args, k);
    } else if rest[0] == '{' && |rest| > 1 {
      FormatterShifted(rest[1..], args, k);
      var s, s' := Formatter(rest[1..], args, k), Formatter(rest[1..], args[k..], 0);
      if s.Go? {
        ArgumentsAreConsumed(s.rest[1..], args, Next(args, s.argI));
        ArgumentsAreConsumed(s.rest[1..], args[k..], Next(args[k..], s'.argI));
        assert args[k..][Next(args[k..], s'.argI)..] == args[Next(args, s.argI)..];
      } else {
        ArgumentsAreConsumed(rest[1..], args, s.argI);
        ArgumentsAreConsumed(rest[1..], args[k..], s'.argI);
        assert args[k..][s'.argI..] == args[s.argI..];
      }
    } else {
      ArgumentsAreConsumed(rest[1..], args, k);
    }
  }

  lemma FormatterShifted(rest: string, args: seq<Value>, k: nat)
    requires k <= |args|
    ensures var s, s' := Formatter(rest, args, k), Formatter(rest, args[k..], 0);
            s.argI <= |args| && s == s'.(argI := k + s'.argI)
  {
    hide ParseAlign, ParseWidth, ParseTail, ParseClose;
    AlignShifted(rest, k);
    WidthShifted(ParseAlign(rest, 0), args, k);
    var w' := ParseWidth(ParseAlign(rest, 0), args[k..]);
    CloseShifted(w', k + w'.argI);
    CloseShifted(ParseTail(w'), k + w'.argI);
  }

  lemma AlignShifted(rest: string, k: nat)
    ensures ParseAlign(rest, k) == ParseAlign(rest, 0).(argI := k)
  {
  }

  lemma WidthShifted(s: Step, args: seq<Value>, k: nat)
    requires s.Go? && s.argI == 0 && k <= |args|
    ensures var w, w' := ParseWidth(s.(argI := k), args), ParseWidth(s, args[k..]);
            w.argI <= |args| && w == w'.(argI := k + w'.argI)
  {
    hide WidthOf, Decimal, DigitRun;
  }

  lemma CloseShifted(s: Step, k: nat)
    ensures ParseTail(s.(argI := k)) == ParseTail(s).(argI := k)
    ensures ParseClose(s.(argI := k)) == ParseClose(s).(argI := k)
  {
  }

  /** A formatter that turns out malformed has used an argument exactly if a width from an argument
      was read before that. */
  lemma FailureMayUseArgument(rest: string, args: seq<Value>, k: nat)
    requires k < |args| && Formatter(rest, args, k).Stop?
    ensures Formatter(rest, args, k).argI == k + 1 <==> "{}" <= ParseAlign(rest, k).rest
  {
    hide WidthOf, Decimal, DigitRun;
    var s := ParseAlign(rest, k);
    if s.rest != "" {
      DigitRunIsZero(s.rest);
    }
  }

  lemma DigitRunIsZero(s: string)
    requires s != ""
    ensures DigitRun(s) == 0 <==> !IsDigit(s[0])
  {
  }

  /** Then the width is lost to the formatters after it. */
  lemma FailedFormatterLosesWidth()
    ensures Formatted("{>{}x{}", [IntValue(3), StringValue("a")], 0) == "{>ax"
  {
    hide Formatted, Formatter, Written;
    var args := [IntValue(3), StringValue("a")];
    AfterFormatter("{>{}x{}", args, 0, "");
    assert "{>{}x{}"[1..] == ">{}x{}";
    WidthThenNoClose(args);
    AfterCharacter(">{}x{}", args, 1, "{");
    assert ">{}x{}"[1..] == "{}x{}";
    AfterFormatter("{}x{}", args, 1, "{>");
    assert "{}x{}"[1..] == "}x{}";
    PlainFormatter("}x{}", args, 1);
    assert "}x{}"[1..] == "x{}" && Written(args[1], DEFAULTS) == "a" by {
      PlainString("a");
    }
    AfterCharacter("x{}", args, 2, "{>a");
    assert "x{}"[1..] == "{}";
    AfterFormatter("{}", args, 2, "{>ax");
    assert "{}"[1..] == "}";
    PlainFormatter("}", args, 2);
    assert "}"[1..] == "";
    EndOfFormat(args, 2);
    assert "" + Formatted("{>{}x{}", args, 0) == Formatted("{>{}x{}", args, 0) && "" + ['{'] == "{";
    assert "{" + ['>'] == "{>" && "{>" + "a" == "{>a" && "{>a" + ['x'] == "{>ax" && "{>ax" + "" == "{>ax";
  }

  lemma WidthThenNoClose(args: seq<Value>)
    requires args != []
    ensures Formatter(">{}x{}", args, 0) == Stop(1)
  {
    assert ">{}x{}"[1..] == "{}x{}" && "{}x{}"[2..] == "x{}";
  }

  lemma PlainFormatter(rest: string, args: seq<Value>, k: nat)
    requires rest != "" && rest[0] == '}'
    ensures Formatter(rest, args, k) == Go(rest, DEFAULTS, k)
  {
  }

  lemma PlainString(s: string)
    ensures Written(StringValue(s), DEFAULTS) == s
  {
    assert Written(StringValue(s), DEFAULTS)[..|s|] == s;
  }

  // ---------------------------------------------------------------- reading back what was printed

  lemma AlignShown(a: Option<Alignment>, c: string, k: nat)
    requires c != "" && c[0] != '<' && c[0] != '>'
    ensures ParseAlign(ShowAlign(a) + c, k)
         == Go(c, DEFAULTS.(align := if a == Some(AlignRight) then AlignRight else AlignLeft), k)
  {
    if a == None {
      assert ShowAlign(a) + c == c;
    } else {
      assert (ShowAlign(a) + c)[1..] == c;
    }
  }

  lemma WidthShown(w: Width, c: string, o: Options, args: seq<Value>)
    requires w.Fixed? ==> w.digits != "" && AllDigits(w.digits)
    requires c != "" && !IsDigit(c[0]) && c[0] != '{' && o.width == 0
    ensures var (width, left) := Measure(w, args);
            && |left| <= |args| && left == args[|args| - |left|..]
            && ParseWidth(Go(ShowWidth(w) + c, o, 0), args) == Go(c, o.(width := width), |args| - |left|)
  {
    hide WidthOf, Decimal, DigitRun;
    var rest := ShowWidth(w) + c;
    match w
    case NoWidth =>
      assert rest == c;
    case Fixed(digits) =>
      DigitRunIs(rest, |digits|);
      assert rest[..|digits|] == digits && rest[|digits|..] == c;
    case FromArgument =>
      assert rest[2..] == c;
      DigitRunIs(rest, 0);
  }

  lemma TailShown(t: Tail, rest: string, o: Options, k: nat)
    requires ValidPiece(Hole(None, NoWidth, t)) && o.fill == ' ' && o.base == 'd'
    ensures ParseTail(Go(ShowTail(t) + ("}" + rest), o, k))
         == Go("}" + rest, OptionsOf(Hole(None, NoWidth, t), o.width).(align := o.align), k)
  {
    var s := ShowTail(t) + ("}" + rest);
    match t
    case NoTail =>
      assert s == "}" + rest;
    case BareColon =>
      assert s[1..] == "}" + rest;
    case BaseOnly(base) =>
      assert s[1..][1..] == "}" + rest && s[1..][0] == base && s[1..][1] == '}';
    case FillOnly(fill) =>
      assert s[1..][1..] == "}" + rest && s[1..][0] == fill && s[1..][1] == '}';
    case FillAndBase(fill, base) =>
      assert s[1..][2..] == "}" + rest && s[1..][0] == fill && s[1..][1] == base;
  }

  /** A hole is read back whatever follows it. */
  lemma HoleShown(p: Piece, rest: string, args: seq<Value>)
    requires p.Hole? && ValidPiece(p)
    ensures var (width, left) := Measure(p.width, args);
            && |left| <= |args| && left == args[|args| - |left|..]
            && |Show(p)| > 1 && Show(p)[0] == '{' && Show(p)[1] != '{'
            && Formatter((Show(p) + rest)[1..], args, 0) == Go("}" + rest, OptionsOf(p, width), |args| - |left|)
  {
    hide Measure, ParseAlign, ParseWidth, ParseTail, WidthOf, Decimal;
    var a, w, t := ShowAlign(p.align), ShowWidth(p.width), ShowTail(p.tail);
    var c2 := t + ("}" + rest);
    var c1 := w + c2;
    assert (Show(p) + rest)[1..] == a + c1;
    AlignShown(p.align, c1, 0);
    var o := DEFAULTS.(align := if p.align == Some(AlignRight) then AlignRight else AlignLeft);
    WidthShown(p.width, c2, o, args);
    var (width, left) := Measure(p.width, args);
    TailShown(p.tail, rest, o.(width := width), |args| - |left|);
  }

  function Rest<T>(s: seq<T>): seq<T> {
    if s == [] then [] else s[1..]
  }

  function WrittenAt(p: Piece, args: seq<Value>): string
    requires p.Hole?
  {
    var (width, left) := Measure(p.width, args);
    if left == [] then "" else Written(left[0], OptionsOf(p, width))
  }

  lemma HoleRendered(p: Piece, rest: string, args: seq<Value>)
    requires p.Hole? && ValidPiece(p)
    ensures Formatted(Show(p) + rest, args, 0)
         == WrittenAt(p, args) + Formatted(rest, Rest(Measure(p.width, args).1), 0)
  {
    hide Formatter, Formatted, Written, Measure, OptionsOf, Show, ValidPiece;
    HoleShown(p, rest, args);
    var shown := Show(p) + rest;
    AfterFormatter(shown, args, 0, "");
    var left := Measure(p.width, args).1;
    ArgumentsAreConsumed(rest, args, Next(args, |args| - |left|));
    assert ("}" + rest)[1..] == rest;
    assert args[Next(args, |args| - |left|)..] == Rest(left);
    assert "" + Formatted(shown, args, 0) == Formatted(shown, args, 0);
    assert "" + WrittenAt(p, args) == WrittenAt(p, args);
  }

  lemma LiteralShown(c: char, rest: string, args: seq<Value>)
    ensures Formatted(Show(Literal(c)) + rest, args, 0) == [c] + Formatted(rest, args, 0)
  {
    var s := Show(Literal(c)) + rest;
    if IsBrace(c) {
      assert s[2..] == rest;
    } else {
      assert s[1..] == rest;
    }
  }

  /** Formatting a printed template renders the template. */
  lemma {:induction false} FormatShown(t: seq<Piece>, args: seq<Value>)
    requires forall i :: 0 <= i < |t| ==> ValidPiece(t[i])
    ensures Formatted(ShowAll(t), args, 0) == Render(t, args)
  {
    hide Formatted, Show, ValidPiece, Written, OptionsOf, Measure;
    if t == [] {
      EndOfFormat(args, 0);
    } else if t[0].Literal? {
      FormatShown(t[1..], args);
      LiteralShown(t[0].c, ShowAll(t[1..]), args);
    } else {
      var left := Measure(t[0].width, args).1;
      FormatShown(t[1..], Rest(left));
      HoleRendered(t[0], ShowAll(t[1..]), args);
    }
  }

  /** Every brace doubled. */
  function Escaped(s: string): string {
    if s == "" then "" else Show(Literal(s[0])) + Escaped(s[1..])
  }

  /** Formatting undoes escaping, whatever the arguments. */
  lemma {:induction false} FormattingUndoesEscaping(s: string, args: seq<Value>)
    ensures Formatted(Escaped(s), args, 0) == s
  {
    hide Formatted, Show;
    if s == "" {
      EndOfFormat(args, 0);
    } else {
      FormattingUndoesEscaping(s[1..], args);
      LiteralShown(s[0], Escaped(s[1..]), args);
    }
  }
}
