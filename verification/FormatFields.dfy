/** What the formatters of src/utils/microfmt.hpp write, told from the characters of the format alone. */
module FormatFields {
  import opened Wrappers
  import opened NumberText
  import opened Microfmt
  import opened FormatTemplates

  // ---------------------------------------------------------------- numbers

  /** Digits that read as a number and start with no needless zero. */
  ghost predicate IsNumeral(text: string, v: nat, base: nat, digits: string) {
    && text != "" && (forall i :: 0 <= i < |text| ==> text[i] in digits)
    && ReadBack(text, base, digits) == v
    && (|text| > 1 ==> text[0] != '0')
  }

  ghost predicate IsNumber(text: string, v: int, base: nat, digits: string) {
    if v < 0 then text != "" && text[0] == '-' && IsNumeral(text[1..], -v, base, digits)
    else IsNumeral(text, v, base, digits)
  }

  /** The number in the base that a letter stands for; letters that are no base stand for 10. */
  ghost predicate IsInBase(text: string, v: int, letter: char) {
    && (letter == 'h' ==> IsNumber(text, v, 16, "0123456789abcdef"))
    && (letter == 'H' ==> IsNumber(text, v, 16, "0123456789ABCDEF"))
    && (letter == 'o' ==> IsNumber(text, v, 8, "01234567"))
    && (letter == 'b' ==> IsNumber(text, v, 2, "01"))
    && (letter !in "hHob" ==> IsNumber(text, v, 10, "0123456789"))
  }

  lemma ReadingExamples(digits: string)
    requires digits == "0123456789abcdef"
    ensures ReadBack(['4', '0'], 16, digits) == 64 && ReadBack(['c', '0'], 16, digits) == 192
    ensures ReadBack(['2', '7'], 10, digits) == 27
  {
    hide ReadBack, DigitValue;
    assert Distinct(digits);
    hide Distinct;
    DigitValueOf(digits, 0);
    DigitValueOf(digits, 2);
    DigitValueOf(digits, 4);
    DigitValueOf(digits, 7);
    DigitValueOf(digits, 12);
    TwoRead('4', '0', 16, digits);
    TwoRead('c', '0', 16, digits);
    TwoRead('2', '7', 10, digits);
  }

  lemma TwoRead(c: char, d: char, base: nat, digits: string)
    ensures ReadBack([c, d], base, digits) == DigitValue(c, digits) * base + DigitValue(d, digits)
  {
    hide DigitValue;
    assert [c, d][..1] == [c] && [c][..0] == "";
    assert ReadBack("", base, digits) == 0;
    assert ReadBack([c], base, digits) == 0 * base + DigitValue(c, digits);
  }

  /** Only the first base digits are used. */
  lemma {:induction false} DigitsNeeded(v: nat, base: nat, digits: string)
    requires 2 <= base <= |digits|
    ensures Numeral(v, base, digits) == Numeral(v, base, digits[..base])
    ensures forall i :: 0 <= i < |Numeral(v, base, digits)| ==> Numeral(v, base, digits)[i] in digits[..base]
  {
    hide Quotient, Remainder;
    assert digits[Remainder(v, base)] == digits[..base][Remainder(v, base)];
    if v >= base {
      DigitsNeeded(Quotient(v, base), base, digits);
    }
  }

  lemma NumeralIsNumeral(v: nat, base: nat, digits: string)
    requires 2 <= base <= |digits| && Distinct(digits) && digits[0] == '0'
    ensures IsNumeral(Numeral(v, base, digits), v, base, digits[..base])
  {
    hide ReadBack, Quotient, Remainder, DigitValue;
    DigitsNeeded(v, base, digits);
    NumeralReadsBack(v, base, digits[..base]);
    if v == 0 {
      assert Numeral(v, base, digits) == "0";
    }
  }

  lemma SignedIsNumber(v: int, base: nat, digits: string)
    requires 2 <= base <= |digits| && Distinct(digits) && digits[0] == '0'
    ensures IsNumber(Signed(v, base, digits), v, base, digits[..base])
  {
    hide Numeral, IsNumeral;
    if v < 0 {
      NumeralIsNumeral(-v, base, digits);
      assert Signed(v, base, digits)[1..] == Numeral(-v, base, digits);
    } else {
      NumeralIsNumeral(v, base, digits);
    }
  }

  lemma TextIsInBase(v: Value, letter: char)
    requires v.IntValue? || v.UintValue?
    ensures IsInBase(Text(v, letter), if v.IntValue? then v.i else v.u, letter)
  {
    hide IsNumber, Signed;
    assert LOWER[..16] == "0123456789abcdef" && UPPER[..16] == "0123456789ABCDEF";
    assert LOWER[..10] == "0123456789" && LOWER[..8] == "01234567" && LOWER[..2] == "01";
    SignedIsNumber(if v.IntValue? then v.i else v.u, BaseOf(letter), DigitsOf(letter));
  }

  // ---------------------------------------------------------------- fields

  /** A text at its side of a field. */
  ghost predicate IsField(field: string, text: string, align: string, width: nat, fill: char) {
    && |field| == (if |text| < width then width else |text|)
    && (if align == ">" then
          field[|field| - |text|..] == text && forall i :: 0 <= i < |field| - |text| ==> field[i] == fill
        else
          field[..|text|] == text && forall i :: |text| <= i < |field| ==> field[i] == fill)
  }

  /** Digits for a width, if there are any. */
  ghost predicate IsWidth(digits: string, width: nat) {
    && (forall i :: 0 <= i < |digits| ==> digits[i] in "0123456789")
    && ReadBack(digits, 10, "0123456789") == width
  }

  /** What stands behind the width, and the fill and the base it asks for. */
  ghost predicate IsTail(tail: string, fill: char, letter: char) {
    || (tail == "" && fill == ' ' && letter == 'd')
    || (tail == ":" && fill == ' ' && letter == 'd')
    || (tail == [':', letter] && letter in "dhHob" && fill == ' ')
    || (tail == [':', fill] && fill !in "dhHob}" && letter == 'd')
    || (tail == [':', fill, letter] && fill != '}' && letter != '}')
  }

  /** The formatter as a piece of a template. */
  lemma FormatterIsPiece(align: string, digits: string, width: nat, tail: string, fill: char, letter: char) returns (p: Piece)
    requires align == "" || align == "<" || align == ">"
    requires IsWidth(digits, width) && IsTail(tail, fill, letter)
    ensures p.Hole? && ValidPiece(p) && !p.width.FromArgument? && Measure(p.width, []).0 == width
    ensures ShowAll([p]) == "{" + align + digits + tail + "}"
    ensures OptionsOf(p, width) == Options(if align == ">" then AlignRight else AlignLeft, fill, width, letter)
  {
    hide Decimal, ReadBack, IsDigit, IsTail, IsWidth;
    var a := if align == "" then None else if align == "<" then Some(AlignLeft) else Some(AlignRight);
    var w := if digits == "" then NoWidth else Fixed(digits);
    WidthIsDecimal(digits, width);
    NoDigits(digits, width);
    var t := TailIsPiece(tail, fill, letter);
    p := Hole(a, w, t);
    OneShown(p);
    assert ShowAlign(a) == align && ShowWidth(w) == digits;
    hide *;
    Regrouped(align, digits, tail);
  }

  lemma OneShown(p: Piece)
    ensures ShowAll([p]) == Show(p)
  {
    hide Show;
    assert ShowAll([p][1..]) == "";
  }

  lemma Regrouped(a: string, b: string, c: string)
    ensures "{" + (a + (b + (c + "}"))) == "{" + a + b + c + "}"
  {
  }

  lemma NoDigits(digits: string, width: nat)
    requires IsWidth(digits, width)
    ensures digits == "" ==> width == 0
  {
  }

  ghost predicate IsTailOf(t: Tail, tail: string, fill: char, letter: char) {
    && ShowTail(t) == tail && ValidPiece(Hole(None, NoWidth, t))
    && OptionsOf(Hole(None, NoWidth, t), 0) == Options(AlignLeft, fill, 0, letter)
  }

  lemma TailIsPiece(tail: string, fill: char, letter: char) returns (t: Tail)
    requires IsTail(tail, fill, letter)
    ensures IsTailOf(t, tail, fill, letter)
  {
    t :=
      if tail == "" then NoTail
      else if tail == ":" then BareColon
      else if |tail| == 3 then FillAndBase(fill, letter)
      else if tail[1] in "dhHob" then BaseOnly(letter)
      else FillOnly(fill);
  }

  lemma WidthIsDecimal(digits: string, width: nat)
    requires IsWidth(digits, width)
    ensures AllDigits(digits) && Decimal(digits) == width
  {
    hide ReadBack;
    assert LOWER[..10] == "0123456789";
    SameReading(digits, 10, LOWER);
  }

  lemma {:induction false} SameValue(c: char, n: nat, digits: string)
    requires n <= |digits| && c in digits[..n]
    ensures DigitValue(c, digits) == DigitValue(c, digits[..n])
  {
    if digits[0] != c {
      assert digits[..n][1..] == digits[1..][..n - 1];
      assert digits[..n] == [digits[0]] + digits[1..][..n - 1];
      SameValue(c, n - 1, digits[1..]);
    }
  }

  /** Digits that are not used do not matter to what is read. */
  lemma {:induction false} SameReading(s: string, n: nat, digits: string)
    requires n <= |digits| && forall i :: 0 <= i < |s| ==> s[i] in digits[..n]
    ensures ReadBack(s, 10, digits) == ReadBack(s, 10, digits[..n])
  {
    hide DigitValue;
    if s != "" {
      SameReading(s[..|s| - 1], n, digits);
      SameValue(s[|s| - 1], n, digits);
    }
  }

  /** A formatter writes the text of its argument into the field it describes. */
  lemma FieldIsWritten(align: string, digits: string, width: nat, tail: string, fill: char, letter: char, v: Value)
    requires align == "" || align == "<" || align == ">"
    requires IsWidth(digits, width) && IsTail(tail, fill, letter)
    ensures IsField(Formatted("{" + align + digits + tail + "}", [v], 0), Text(v, letter), align, width, fill)
  {
    var p := FormatterIsPiece(align, digits, width, tail, fill, letter);
    hide ValidPiece, Text, IsWidth, IsTail, Formatted, ShowAll, OptionsOf;
    FormatShown([p], [v]);
    var args := [v];
    assert [p][1..] == [] && args[1..] == [];
    assert Render([p], args) == Written(v, OptionsOf(p, width)) + "" == Written(v, OptionsOf(p, width));
  }

  /** Numbers are written in the base of the letter, strings and characters as they are. */
  lemma ArgumentIsWritten(align: string, digits: string, width: nat, tail: string, fill: char, letter: char, v: Value)
    returns (text: string)
    requires align == "" || align == "<" || align == ">"
    requires IsWidth(digits, width) && IsTail(tail, fill, letter)
    ensures IsField(Formatted("{" + align + digits + tail + "}", [v], 0), text, align, width, fill)
    ensures match v
            case StringValue(s) => text == s
            case CharValue(c) => text == [c]
            case IntValue(i) => IsInBase(text, i, letter)
            case UintValue(u) => IsInBase(text, u, letter)
  {
    hide IsWidth, IsTail, IsField, IsInBase, Formatted;
    FieldIsWritten(align, digits, width, tail, fill, letter, v);
    text := Text(v, letter);
    if v.IntValue? || v.UintValue? {
      TextIsInBase(v, letter);
    }
  }

  // ---------------------------------------------------------------- addresses

  lemma {:induction false} ZerosInFront(n: nat, zeros: string, text: string, digits: string)
    requires |zeros| == n && (forall i :: 0 <= i < n ==> zeros[i] == '0') && digits != "" && digits[0] == '0'
    ensures ReadBack(zeros + text, 16, digits) == ReadBack(text, 16, digits)
    decreases |text|, n
  {
    if text != "" {
      assert (zeros + text)[..|zeros + text| - 1] == zeros + text[..|text| - 1];
      ZerosInFront(n, zeros, text[..|text| - 1], digits);
    } else if n > 0 {
      assert zeros + text == zeros;
      ZerosInFront(n - 1, zeros[..n - 1], "", digits);
      assert zeros[..n - 1] + "" == zeros[..n - 1];
    } else {
      assert zeros + text == text;
    }
  }

  /** A word has at most 16 hexadecimal digits. */
  lemma SixteenDigits(u: Word)
    ensures |Numeral(u, 16, LOWER)| <= 16
  {
    if u > 0 {
      hide Numeral;
      DigitCount(u, 4, LOWER);
    }
  }

  lemma ZeroPadded(field: string, u: Word)
    requires IsField(field, Numeral(u, 16, LOWER), ">", 16, '0')
    ensures |field| == 16 && (forall i :: 0 <= i < 16 ==> field[i] in LOWER) && ReadBack(field, 16, LOWER) == u
  {
    hide ReadBack, Numeral;
    SixteenDigits(u);
    DigitsNeeded(u, 16, LOWER);
    assert LOWER[..16] == LOWER;
    DigitsAreDistinct();
    NumeralReadsBack(u, 16, LOWER);
    hide Distinct;
    var text := Numeral(u, 16, LOWER);
    var n := 16 - |text|;
    ZerosInFront(n, field[..n], text, LOWER);
    assert field == field[..n] + text;
    assert LOWER[0] == '0';
  }

  /** A string hole in front. */
  lemma StringFirst(s: string, t: seq<Piece>, args: seq<Value>)
    ensures ShowAll([Hole(None, NoWidth, NoTail)] + t) == "{}" + ShowAll(t)
    ensures Render([Hole(None, NoWidth, NoTail)] + t, [StringValue(s)] + args) == s + Render(t, args)
  {
    hide Written;
    var p := Hole(None, NoWidth, NoTail);
    assert ([p] + t)[1..] == t;
    var all := [StringValue(s)] + args;
    assert all[1..] == args && all[0] == StringValue(s);
    PlainString(s);
    assert OptionsOf(p, 0) == DEFAULTS;
    hide OptionsOf;
    assert Show(p) == "{}";
    hide Show;
  }

  lemma LiteralFirst(c: char, t: seq<Piece>, args: seq<Value>)
    requires c != '{' && c != '}'
    ensures ShowAll([Literal(c)] + t) == [c] + ShowAll(t)
    ensures Render([Literal(c)] + t, args) == [c] + Render(t, args)
  {
    assert ([Literal(c)] + t)[1..] == t;
  }

  /** A hole for 16 digits in front. */
  lemma AddressFirst(u: Word, t: seq<Piece>, args: seq<Value>) returns (number: string)
    ensures var p := Hole(Some(AlignRight), FromArgument, FillAndBase('0', 'h'));
            && ShowAll([p] + t) == "{>{}:0h}" + ShowAll(t)
            && Render([p] + t, [UintValue(16), UintValue(u)] + args) == number + Render(t, args)
    ensures IsField(number, Numeral(u, 16, LOWER), ">", 16, '0')
  {
    hide Numeral;
    var p := Hole(Some(AlignRight), FromArgument, FillAndBase('0', 'h'));
    assert ([p] + t)[1..] == t;
    var all := [UintValue(16), UintValue(u)] + args;
    assert all[1..][1..] == args && all[1..][0] == UintValue(u);
    assert Measure(FromArgument, all) == (16, all[1..]);
    number := Written(UintValue(u), OptionsOf(p, 16));
    assert Text(UintValue(u), 'h') == Numeral(u, 16, LOWER);
    assert Show(p) == "{>{}:0h}";
  }

  /** An address is written in 16 hexadecimal digits behind 0x, whatever surrounds it. */
  lemma AddressFormat(blue: string, reset: string, u: Word) returns (number: string)
    ensures Formatted("{}0x{>{}:0h}{}", [StringValue(blue), UintValue(16), UintValue(u), StringValue(reset)], 0)
         == blue + "0x" + number + reset
    ensures |number| == 16 && (forall i :: 0 <= i < 16 ==> number[i] in "0123456789abcdef")
    ensures ReadBack(number, 16, "0123456789abcdef") == u
  {
    hide *;
    var t, args;
    t, args, number := AddressTemplate(blue, reset, u);
    FormatShown(t, args);
    ZeroPadded(number, u);
    LowerIs();
  }

  lemma LowerIs()
    ensures LOWER == "0123456789abcdef"
  {
  }

  lemma AddressTemplate(blue: string, reset: string, u: Word) returns (t: seq<Piece>, args: seq<Value>, number: string)
    ensures (forall i :: 0 <= i < |t| ==> ValidPiece(t[i])) && ShowAll(t) == "{}0x{>{}:0h}{}"
    ensures args == [StringValue(blue), UintValue(16), UintValue(u), StringValue(reset)]
    ensures Render(t, args) == blue + "0x" + number + reset
    ensures IsField(number, Numeral(u, 16, LOWER), ">", 16, '0')
  {
    hide *;
    var plain, address := Hole(None, NoWidth, NoTail), Hole(Some(AlignRight), FromArgument, FillAndBase('0', 'h'));
    assert ValidPiece(plain) && ValidPiece(address) && ValidPiece(Literal('0')) && ValidPiece(Literal('x')) by {
      PiecesAreValid();
    }
    NothingShown();
    StringFirst(reset, [], []);
    var t4 := [plain] + [];
    var a4 := [StringValue(reset)] + [];
    number := AddressFirst(u, t4, a4);
    var a3 := [UintValue(16), UintValue(u)] + a4;
    LiteralFirst('x', [address] + t4, a3);
    LiteralFirst('0', [Literal('x')] + ([address] + t4), a3);
    StringFirst(blue, [Literal('0')] + ([Literal('x')] + ([address] + t4)), a3);
    t := [plain] + ([Literal('0')] + ([Literal('x')] + ([address] + t4)));
    args := [StringValue(blue)] + a3;
    Joined(blue, number, reset);
  }

  lemma PiecesAreValid()
    ensures ValidPiece(Hole(None, NoWidth, NoTail)) && ValidPiece(Hole(Some(AlignRight), FromArgument, FillAndBase('0', 'h')))
    ensures ValidPiece(Literal('0')) && ValidPiece(Literal('x'))
  {
  }

  lemma NothingShown()
    ensures ShowAll([]) == "" && Render([], []) == ""
  {
  }

  lemma Joined(a: string, b: string, c: string)
    ensures a + (['0'] + (['x'] + (b + (c + "")))) == a + "0x" + b + c
    ensures "{}" + (['0'] + (['x'] + ("{>{}:0h}" + ("{}" + "")))) == "{}0x{>{}:0h}{}"
  {
    assert ['0'] + (['x'] + (b + (c + ""))) == "0x" + b + c;
  }

  // ---------------------------------------------------------------- what is no formatter

  /** Text without braces is written as it is. */
  lemma {:induction false} PlainText(s: string, rest: string, args: seq<Value>, argI: nat)
    requires '{' !in s && '}' !in s
    ensures Formatted(s + rest, args, argI) == s + Formatted(rest, args, argI)
  {
    hide Formatter, Written;
    if s == "" {
      assert s + rest == rest;
    } else {
      PlainText(s[1..], rest, args, argI);
      assert (s + rest)[1..] == s[1..] + rest;
    }
  }

  /** A doubled brace stands for one, and a single closing brace for itself. */
  lemma Braces(rest: string, args: seq<Value>, argI: nat)
    ensures Formatted("{{" + rest, args, argI) == "{" + Formatted(rest, args, argI)
    ensures Formatted("}}" + rest, args, argI) == "}" + Formatted(rest, args, argI)
    ensures rest == "" || rest[0] != '}' ==> Formatted("}" + rest, args, argI) == "}" + Formatted(rest, args, argI)
    ensures Formatted("{", args, argI) == "{"
  {
    hide Formatter;
    assert ("{{" + rest)[2..] == rest && ("}}" + rest)[2..] == rest && ("}" + rest)[1..] == rest;
    assert "{"[1..] == "";
  }

  /** A character with no meaning in a formatter leaves the format as it is. */
  lemma NoFormatter(c: char, args: seq<Value>, argI: nat)
    requires c !in "0123456789<>:{}"
    ensures Formatted(['{', c, '}'], args, argI) == ['{', c, '}']
  {
    var f := ['{', c, '}'];
    assert f[1..] == [c, '}'] && [c, '}'][1..] == "}" && "}"[1..] == "";
    assert Formatter([c, '}'], args, argI) == Stop(argI) by {
      NoDigit(c);
      assert ParseAlign([c, '}'], argI) == Go([c, '}'], DEFAULTS, argI);
    }
    hide Formatter;
    assert Formatted("", args, argI) == "" && Formatted("}", args, argI) == "}";
    assert Formatted([c, '}'], args, argI) == [c] + "}";
  }

  lemma NoDigit(c: char)
    ensures IsDigit(c) ==> c in "0123456789"
  {
    if IsDigit(c) {
      var k := c as int - '0' as int;
      assert "0123456789"[k] == c;
    }
  }

  /** A formatter without an argument writes nothing. */
  lemma NoArgument(align: string, digits: string, width: nat, tail: string, fill: char, letter: char)
    requires align == "" || align == "<" || align == ">"
    requires IsWidth(digits, width) && IsTail(tail, fill, letter)
    ensures Formatted("{" + align + digits + tail + "}", [], 0) == ""
  {
    var p := FormatterIsPiece(align, digits, width, tail, fill, letter);
    hide ValidPiece, IsWidth, IsTail, Formatted, ShowAll, OptionsOf;
    FormatShown([p], []);
    assert [p][1..] == [];
  }
}
