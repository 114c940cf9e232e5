/** The format function of src/utils/microfmt.hpp. A formatter is {[align][width][:[fill][base]]}, where the
    width is a number or {}; doubled braces stand for one. */
module Microfmt {
  import opened NumberText

  type Int64 = v: int | -0x8000_0000_0000_0000 <= v < 0x8000_0000_0000_0000

  datatype Alignment = AlignLeft | AlignRight

  datatype Options = Options(align: Alignment, fill: char, width: nat, base: char)

  const DEFAULTS := Options(AlignLeft, ' ', 0, 'd')

  /** An argument; the three string kinds differ only in how the characters are held. */
  datatype Value = CharValue(c: char) | IntValue(i: Int64) | UintValue(u: Word) | StringValue(s: string)

  // ---------------------------------------------------------------- writing one value

  function BaseOf(letter: char): (r: nat)
    ensures 2 <= r <= 16
  {
    match letter
    case 'H' => 16
    case 'h' => 16
    case 'o' => 8
    case 'b' => 2
    case _ => 10
  }

  function DigitsOf(letter: char): (r: string)
    ensures |r| == 16 && r[0] == '0' && '-' !in r && Distinct(r)
  {
    DigitsAreDistinct();
    if letter == 'H' then UPPER else LOWER
  }

  function Text(v: Value, base: char): string {
    match v
    case CharValue(c) => [c]
    case IntValue(i) => Signed(i, BaseOf(base), DigitsOf(base))
    case UintValue(u) => Signed(u, BaseOf(base), DigitsOf(base))
    case StringValue(s) => s
  }

  /** The text is kept whole at its side of a field of at least the width, and the fill takes the rest. */
  function Padded(text: string, o: Options): (r: string)
    ensures |r| == if |text| < o.width then o.width else |text|
    ensures o.align.AlignLeft? ==> r[..|text|] == text && forall i :: |text| <= i < |r| ==> r[i] == o.fill
    ensures o.align.AlignRight? ==> r[|r| - |text|..] == text && forall i :: 0 <= i < |r| - |text| ==> r[i] == o.fill
  {
    var padding := seq(if |text| < o.width then o.width - |text| else 0, _ => o.fill);
    if o.align.AlignLeft? then text + padding else padding + text
  }

  function Written(v: Value, o: Options): string {
    Padded(Text(v, o.base), o)
  }

  /** std::to_string serves base 10 and every letter that is no base. */
  method UnsignedText(u: Word, base: char) returns (r: string)
    ensures r == Numeral(u, BaseOf(base), DigitsOf(base))
  {
    match base {
      case 'H' => r := ToString(4, u, UPPER);
      case 'h' => r := ToString(4, u, LOWER);
      case 'o' => r := ToString(3, u, LOWER);
      case 'b' => r := ToString(1, u, LOWER);
      case _ => r := Numeral(u, 10, LOWER);
    }
  }

  method Write(out: string, v: Value, o: Options) returns (r: string)
    ensures r == out + Written(v, o)
  {
    var text := "";
    match v {
      case CharValue(c) => text := [c];
      case IntValue(i) =>
        var val: int := i;
        if val < 0 {
          text := text + "-";
          val := val * -1;
        }
        var digits := UnsignedText(val, o.base);
        text := text + digits;
      case UintValue(u) => text := UnsignedText(u, o.base);
      case StringValue(s) => text := s;
    }
    assert text == Text(v, o.base);
    r := out + Padded(text, o);
  }

  /** The conversion of an integer argument to int, modulo 2^32 as compilers do it. */
  function UnwrapInt(v: Value): (r: int)
    ensures -0x8000_0000 <= r < 0x8000_0000
    ensures v.IntValue? && -0x8000_0000 <= v.i < 0x8000_0000 ==> r == v.i
    ensures v.UintValue? && v.u < 0x8000_0000 ==> r == v.u
    ensures v.IntValue? ==> (v.i - r) % 0x1_0000_0000 == 0
    ensures v.UintValue? ==> (v.u - r) % 0x1_0000_0000 == 0
    ensures v.CharValue? || v.StringValue? ==> r == 0
  {
    match v
    case IntValue(i) => (i + 0x8000_0000) % 0x1_0000_0000 - 0x8000_0000
    case UintValue(u) => (u + 0x8000_0000) % 0x1_0000_0000 - 0x8000_0000
    case _ => 0
  }

  /** A width argument: a negative int becomes a huge size. */
  function WidthOf(v: Value): (r: nat)
    ensures r == UnwrapInt(v) + if UnwrapInt(v) < 0 then 0x1_0000_0000_0000_0000 else 0
  {
    UnwrapInt(v) % UINT64
  }

  // ---------------------------------------------------------------- reading one formatter

  predicate IsDigit(c: char) {
    '0' <= c <= '9'
  }

  predicate IsBase(c: char) {
    c == 'd' || c == 'h' || c == 'H' || c == 'o' || c == 'b'
  }

  function DigitRun(s: string): (n: nat)
    ensures n <= |s| && (forall i :: 0 <= i < n ==> IsDigit(s[i])) && (n < |s| ==> !IsDigit(s[n]))
  {
    if s == "" || !IsDigit(s[0]) then 0 else 1 + DigitRun(s[1..])
  }

  function Decimal(s: string): nat {
    ReadBack(s, 10, LOWER)
  }

  /** Where reading a formatter has got to. A failure keeps the arguments it has used. */
  datatype Step = Stop(argI: nat) | Go(rest: string, options: Options, argI: nat)

  function ParseAlign(rest: string, argI: nat): (r: Step)
    ensures r.Go? && |r.rest| <= |rest| && r.argI == argI
  {
    if rest != "" && rest[0] == '<' then Go(rest[1..], DEFAULTS.(align := AlignLeft), argI)
    else if rest != "" && rest[0] == '>' then Go(rest[1..], DEFAULTS.(align := AlignRight), argI)
    else Go(rest, DEFAULTS, argI)
  }

  function ParseWidth(s: Step, args: seq<Value>): (r: Step)
    requires s.Go?
    ensures r.Go? ==> |r.rest| <= |s.rest|
    ensures s.argI <= r.argI <= s.argI + 1
  {
    var n := DigitRun(s.rest);
    if n > 0 then Go(s.rest[n..], s.options.(width := Decimal(s.rest[..n])), s.argI)
    else if s.rest != "" && s.rest[0] == '{' then
      if |s.rest| > 1 && s.rest[1] == '}' then
        if s.argI < |args| then Go(s.rest[2..], s.options.(width := WidthOf(args[s.argI])), s.argI + 1)
        else Go(s.rest[2..], s.options.(width := 0), s.argI)
      else Stop(s.argI)
    else s
  }

  function ParseTail(s: Step): (r: Step)
    ensures r.argI == s.argI && (r.Go? <==> s.Go?)
    ensures r.Go? ==> |r.rest| <= |s.rest|
  {
    if s.Go? && s.rest != "" && s.rest[0] == ':' then
      var r := s.rest[1..];
      if |r| > 1 && r[0] != '}' && r[1] != '}' then s.(rest := r[2..], options := s.options.(fill := r[0], base := r[1]))
      else if r != "" && r[0] != '}' then
        if IsBase(r[0]) then s.(rest := r[1..], options := s.options.(base := r[0]))
        else s.(rest := r[1..], options := s.options.(fill := r[0]))
      else s.(rest := r)
    else s
  }

  function ParseClose(s: Step): (r: Step)
    ensures r.argI == s.argI && (r.Go? ==> r == s && r.rest != "" && r.rest[0] == '}')
  {
    if s.Go? && (s.rest == "" || s.rest[0] != '}') then Stop(s.argI) else s
  }

  /** What follows the opening brace; on success the rest starts with the closing brace. */
  function Formatter(rest: string, args: seq<Value>, argI: nat): (r: Step)
    ensures r.Go? ==> 0 < |r.rest| <= |rest| && r.rest[0] == '}'
    ensures argI <= r.argI <= argI + 1
  {
    hide ParseAlign, ParseWidth, ParseTail, ParseClose;
    ParseClose(ParseTail(ParseWidth(ParseAlign(rest, argI), args)))
  }

  // ---------------------------------------------------------------- formatting

  predicate IsBrace(c: char) {
    c == '{' || c == '}'
  }

  function Next<T>(args: seq<T>, argI: nat): nat {
    if argI < |args| then argI + 1 else argI
  }

  function Formatted(rest: string, args: seq<Value>, argI: nat): string
    decreases |rest|
  {
    if rest == "" then ""
    else if IsBrace(rest[0]) && |rest| > 1 && rest[1] == rest[0] then [rest[0]] + Formatted(rest[2..], args, argI)
    else if rest[0] == '{' && |rest| > 1 then
      var s := Formatter(rest[1..], args, argI);
      if s.Go? then
        (if s.argI < |args| then Written(args[s.argI], s.options) else "")
        + Formatted(s.rest[1..], args, Next(args, s.argI))
      else [rest[0]] + Formatted(rest[1..], args, s.argI)
    else [rest[0]] + Formatted(rest[1..], args, argI)
  }

  // ---------------------------------------------------------------- the cursor

  /** The character at a distance, 0 past the end. */
  function Peek(fmt: string, it: nat, dist: nat): char {
    if it + dist < |fmt| then fmt[it + dist] else '\0'
  }

  lemma DigitValueOfDecimal(c: char)
    requires IsDigit(c)
    ensures DigitValue(c, LOWER) == c as int - '0' as int
  {
    DigitsAreDistinct();
    var i := c as int - '0' as int;
    assert LOWER[i] == c;
    DigitValueOf(LOWER, i);
  }

  lemma {:induction false} DigitRunIs(s: string, n: nat)
    requires n <= |s| && (forall i :: 0 <= i < n ==> IsDigit(s[i])) && (n < |s| ==> !IsDigit(s[n]))
    ensures DigitRun(s) == n
  {
    if n > 0 {
      DigitRunIs(s[1..], n - 1);
    }
  }

  lemma DecimalOneMore(s: string, c: char)
    requires IsDigit(c)
    ensures Decimal(s + [c]) == Decimal(s) * 10 + (c as int - '0' as int)
  {
    assert (s + [c])[..|s|] == s;
    DigitValueOfDecimal(c);
    hide DigitValue;
  }

  /** -1 if there is no number. */
  method ReadNumber(fmt: string, start: nat) returns (num: int, it: nat)
    requires start <= |fmt|
    ensures var n := DigitRun(fmt[start..]);
            && it == start + n
            && num == if n == 0 then -1 else Decimal(fmt[start..][..n])
  {
    assert Decimal(fmt[start..start]) == 0;
    hide Decimal, DigitRun;
    var scan := start;
    num := 0;
    while scan != |fmt| && IsDigit(fmt[scan])
      invariant start <= scan <= |fmt|
      invariant forall i :: start <= i < scan ==> IsDigit(fmt[i])
      invariant num == Decimal(fmt[start..scan])
      decreases |fmt| - scan
    {
      num := num * 10;
      num := num + (fmt[scan] as int - '0' as int);
      DecimalOneMore(fmt[start..scan], fmt[scan]);
      assert fmt[start..scan] + [fmt[scan]] == fmt[start..scan + 1];
      scan := scan + 1;
    }
    DigitRunIs(fmt[start..], scan - start);
    assert fmt[start..][..scan - start] == fmt[start..scan];
    if scan != start {
      it := scan;
    } else {
      it, num := start, -1;
    }
  }

  method ReadAlign(fmt: string, start: nat, argI: nat) returns (it: nat, options: Options)
    requires start < |fmt|
    ensures it <= |fmt| && ParseAlign(fmt[start..], argI) == Go(fmt[it..], options, argI)
  {
    it, options := start, DEFAULTS;
    if fmt[it] == '<' || fmt[it] == '>' {
      options := options.(align := if fmt[it] == '<' then AlignLeft else AlignRight);
      it := it + 1;
    }
  }

  method ReadWidth(fmt: string, start: nat, before: Options, args: seq<Value>, used: nat)
    returns (ok: bool, it: nat, options: Options, argI: nat)
    requires start <= |fmt|
    ensures it <= |fmt|
    ensures ParseWidth(Go(fmt[start..], before, used), args) == if ok then Go(fmt[it..], options, argI) else Stop(argI)
  {
    hide Decimal, DigitRun, WidthOf;
    options, argI := before, used;
    var width;
    width, it := ReadNumber(fmt, start);
    if width != -1 {
      options := options.(width := width);
    } else if it != |fmt| && fmt[it] == '{' {
      // the width may be the next argument, written {}
      if Peek(fmt, it, 1) != '}' {
        return false, it, options, argI;
      }
      it := it + 2;
      options := options.(width := if argI < |args| then WidthOf(args[argI]) else 0);
      argI := Next(args, argI);
    }
    return true, it, options, argI;
  }

  method ReadTail(fmt: string, start: nat, before: Options, argI: nat) returns (it: nat, options: Options)
    requires start <= |fmt|
    ensures it <= |fmt| && ParseTail(Go(fmt[start..], before, argI)) == Go(fmt[it..], options, argI)
  {
    it, options := start, before;
    if it != |fmt| && fmt[it] == ':' {
      it := it + 1;
      if |fmt| - it > 1 && fmt[it] != '}' && Peek(fmt, it, 1) != '}' {
        options := options.(fill := fmt[it], base := fmt[it + 1]);
        it := it + 2;
      } else if it != |fmt| && fmt[it] != '}' {
        if IsBase(fmt[it]) {
          options := options.(base := fmt[it]);
        } else {
          options := options.(fill := fmt[it]);
        }
        it := it + 1;
      }
    }
  }

  /** Reads and writes the formatter that opens at start; a failure leaves only the arguments used behind. */
  method HandleFormatter(fmt: string, start: nat, args: seq<Value>, used: nat, before: string)
    returns (ok: bool, it: nat, argI: nat, out: string)
    requires start + 1 < |fmt|
    ensures var s := Formatter(fmt[start + 1..], args, used);
            && ok == s.Go?
            && (ok ==> start < it < |fmt| && fmt[it..] == s.rest && argI == Next(args, s.argI)
                       && out == before + if s.argI < |args| then Written(args[s.argI], s.options) else "")
            && (!ok ==> argI == s.argI && out == before)
  {
    hide ParseAlign, ParseWidth, ParseTail, Written;
    it, argI, out := start + 1, used, before;
    var options;
    it, options := ReadAlign(fmt, it, argI);
    ok, it, options, argI := ReadWidth(fmt, it, options, args, argI);
    if !ok {
      return;
    }
    it, options := ReadTail(fmt, it, options, argI);
    if it == |fmt| || fmt[it] != '}' {
      return false, it, argI, out;
    }
    if argI < |args| {
      out := Write(out, args[argI], options);
      argI := argI + 1;
    }
  }

  lemma AfterEscape(rest: string, args: seq<Value>, argI: nat, out: string)
    requires |rest| > 1 && IsBrace(rest[0]) && rest[1] == rest[0]
    ensures out + Formatted(rest, args, argI) == (out + [rest[0]]) + Formatted(rest[2..], args, argI)
  {
    Regroup(out, [rest[0]], Formatted(rest[2..], args, argI));
  }

  lemma AfterFormatter(rest: string, args: seq<Value>, argI: nat, out: string)
    requires |rest| > 1 && rest[0] == '{' && rest[1] != '{'
    ensures var s := Formatter(rest[1..], args, argI);
            out + Formatted(rest, args, argI) ==
            if s.Go? then
              (out + (if s.argI < |args| then Written(args[s.argI], s.options) else ""))
              + Formatted(s.rest[1..], args, Next(args, s.argI))
            else (out + [rest[0]]) + Formatted(rest[1..], args, s.argI)
  {
    hide Formatter, Written;
    var s := Formatter(rest[1..], args, argI);
    if s.Go? {
      Regroup(out, if s.argI < |args| then Written(args[s.argI], s.options) else "",
              Formatted(s.rest[1..], args, Next(args, s.argI)));
    } else {
      Regroup(out, [rest[0]], Formatted(rest[1..], args, s.argI));
    }
  }

  lemma AfterCharacter(rest: string, args: seq<Value>, argI: nat, out: string)
    requires rest != "" && (IsBrace(rest[0]) && |rest| > 1 ==> rest[0] == '}' && rest[1] != '}')
    ensures out + Formatted(rest, args, argI) == (out + [rest[0]]) + Formatted(rest[1..], args, argI)
  {
    Regroup(out, [rest[0]], Formatted(rest[1..], args, argI));
  }

  method Format(fmt: string, args: seq<Value>) returns (out: string)
    ensures out == Formatted(fmt, args, 0)
  {
    hide Formatter, Written, Formatted;
    out := "";
    var argI, it := 0, 0;
    assert fmt[0..] == fmt;
    while it != |fmt|
      invariant it <= |fmt|
      invariant out + Formatted(fmt[it..], args, argI) == Formatted(fmt, args, 0)
      decreases |fmt| - it
    {
      ghost var rest := fmt[it..];
      if (fmt[it] == '{' || fmt[it] == '}') && Peek(fmt, it, 1) == fmt[it] {
        AfterEscape(rest, args, argI, out);
        it := it + 1;
      } else if fmt[it] == '{' && it + 1 != |fmt| {
        AfterFormatter(rest, args, argI, out);
        var ok, next, usedNow, written := HandleFormatter(fmt, it, args, argI, out);
        argI, out := usedNow, written;
        if ok {
          it := next + 1;
          continue;
        }
      } else {
        AfterCharacter(rest, args, argI, out);
      }
      out := out + [fmt[it]];
      it := it + 1;
    }
    EndOfFormat(args, argI);
  }

  lemma EndOfFormat(args: seq<Value>, argI: nat)
    ensures Formatted("", args, argI) == ""
  {
  }
}
