/** Numbers as text in src/utils/microfmt.hpp: the digit count comes from the leading zero bits, then the
    digits are written from the last to the first. */
module NumberText {

  const UINT64 := 0x1_0000_0000_0000_0000

  /** An unsigned 64-bit value. */
  type Word = v: int | 0 <= v < 0x1_0000_0000_0000_0000

  const LOWER := "0123456789abcdef"
  const UPPER := "0123456789ABCDEF"

  function Pow(base: nat, n: nat): nat {
    if n == 0 then 1 else base * Pow(base, n - 1)
  }

  // ---------------------------------------------------------------- leading zeros

  function Log2(v: nat): (r: nat)
    requires v > 0
    ensures Pow(2, r) <= v < Pow(2, r + 1)
  {
    if v < 2 then 0 else 1 + Log2(v / 2)
  }

  /** How many zero bits a word has above its highest one bit. */
  function Clz(v: Word): (r: nat)
    requires v > 0
    ensures r <= 63 && Pow(2, 63 - r) <= v < Pow(2, 64 - r)
  {
    Log2OfWord(v);
    63 - Log2(v)
  }

  lemma {:induction false} Log2Below(v: nat, n: nat)
    requires 0 < v < Pow(2, n)
    ensures Log2(v) < n
  {
    if n > 0 && v >= 2 {
      Log2Below(v / 2, n - 1);
    }
  }

  lemma Log2OfWord(v: Word)
    requires v > 0
    ensures Log2(v) <= 63
  {
    assert Pow(2, 4) == 16;
    assert Pow(2, 8) == 256 by {
      PowAdds(4, 4);
    }
    assert Pow(2, 16) == 0x1_0000 by {
      PowAdds(8, 8);
    }
    assert Pow(2, 32) == 0x1_0000_0000 by {
      PowAdds(16, 16);
    }
    assert Pow(2, 64) == UINT64 by {
      PowAdds(32, 32);
    }
    Log2Below(v, 64);
  }

  lemma {:induction false} PowAdds(m: nat, n: nat)
    ensures Pow(2, m + n) == Pow(2, m) * Pow(2, n)
  {
    if m > 0 {
      PowAdds(m - 1, n);
      assert 2 * (Pow(2, m - 1) * Pow(2, n)) == (2 * Pow(2, m - 1)) * Pow(2, n);
    }
  }

  // ---------------------------------------------------------------- numerals and their values

  function Quotient(v: nat, base: nat): (q: nat)
    requires base >= 2
    ensures v > 0 ==> q < v
    ensures v >= base <==> q > 0
  {
    DivisionShrinks(v, base);
    v / base
  }

  function Remainder(v: nat, base: nat): (r: nat)
    requires base >= 2
    ensures r < base && Quotient(v, base) * base + r == v
    ensures v < base ==> r == v
  {
    v % base
  }

  lemma DivisionShrinks(v: nat, base: nat)
    requires base >= 2
    ensures v > 0 ==> v / base < v
    ensures v >= base <==> v / base > 0
  {
    var q := v / base;
    ProductBounds(q, base);
    assert v == q * base + v % base;
  }

  lemma ProductBounds(q: nat, base: nat)
    requires base >= 2
    ensures q * base >= 2 * q
    ensures q > 0 ==> q * base >= base
  {
    assert q * base == q * (base - 2) + 2 * q;
    assert q > 0 ==> q * base == (q - 1) * base + base;
  }

  /** The digits of a value, most significant first, with no leading zero. */
  function Numeral(v: nat, base: nat, digits: string): (r: string)
    requires 2 <= base <= |digits|
    ensures r != ""
  {
    if v < base then [digits[v]]
    else Numeral(Quotient(v, base), base, digits) + [digits[Remainder(v, base)]]
  }

  function DigitValue(c: char, digits: string): (r: nat)
    ensures r <= |digits| && (r < |digits| ==> digits[r] == c)
  {
    if digits == "" || digits[0] == c then 0 else 1 + DigitValue(c, digits[1..])
  }

  /** What digits read as. */
  function ReadBack(s: string, base: nat, digits: string): nat {
    if s == "" then 0 else ReadBack(s[..|s| - 1], base, digits) * base + DigitValue(s[|s| - 1], digits)
  }

  ghost predicate Distinct(digits: string) {
    forall i, j :: 0 <= i < j < |digits| ==> digits[i] != digits[j]
  }

  lemma DigitsAreDistinct()
    ensures Distinct(LOWER) && Distinct(UPPER)
  {
  }

  lemma {:induction false} DigitValueOf(digits: string, i: nat)
    requires Distinct(digits) && i < |digits|
    ensures DigitValue(digits[i], digits) == i
  {
    if i > 0 {
      DigitValueOf(digits[1..], i - 1);
    }
  }

  lemma {:induction false} NumeralReadsBack(v: nat, base: nat, digits: string)
    requires 2 <= base <= |digits| && Distinct(digits)
    ensures ReadBack(Numeral(v, base, digits), base, digits) == v
    ensures v > 0 ==> Numeral(v, base, digits)[0] != digits[0]
  {
    hide Quotient, Remainder, DigitValue;
    DigitValueOf(digits, Remainder(v, base));
    if v < base {
      assert Numeral(v, base, digits)[..0] == "";
      assert ReadBack("", base, digits) == 0;
    } else {
      NumeralReadsBack(Quotient(v, base), base, digits);
      var front := Numeral(Quotient(v, base), base, digits);
      assert (front + [digits[Remainder(v, base)]])[..|front|] == front;
    }
  }

  // ---------------------------------------------------------------- the digit count

  predicate IsShift(shift: nat) {
    shift == 1 || shift == 3 || shift == 4
  }

  function Base(shift: nat): (r: nat)
    requires IsShift(shift)
    ensures r == Pow(2, shift)
  {
    assert Pow(2, 2) == 4;
    assert Pow(2, 3) == 8;
    if shift == 1 then 2 else if shift == 3 then 8 else 16
  }

  lemma Log2Shifted(v: nat, shift: nat)
    requires IsShift(shift) && v >= Base(shift)
    ensures v / Base(shift) > 0 && Log2(v / Base(shift)) == Log2(v) - shift
  {
    assert v / 2 / 2 == v / 4 && v / 4 / 2 == v / 8 && v / 8 / 2 == v / 16;
    if shift > 1 {
      assert Log2(v / 2) == 1 + Log2(v / 4);
      assert Log2(v / 4) == 1 + Log2(v / 8);
    }
    if shift > 3 {
      assert Log2(v / 8) == 1 + Log2(v / 16);
    }
  }

  lemma CountOneMore(log: nat, shift: nat)
    requires IsShift(shift) && log >= shift
    ensures log / shift == (log - shift) / shift + 1
  {
  }

  /** The count from the leading zeros is exact. */
  lemma {:induction false} DigitCount(v: Word, shift: nat, digits: string)
    requires IsShift(shift) && v > 0 && |digits| >= 16
    ensures |Numeral(v, Base(shift), digits)| == 1 + (63 - Clz(v)) / shift
  {
    if v < Base(shift) {
      assert Log2(v) < shift by {
        Log2Below(v, shift);
      }
    } else {
      Log2Shifted(v, shift);
      DigitCount(v / Base(shift), shift, digits);
      CountOneMore(Log2(v), shift);
    }
  }

  // ---------------------------------------------------------------- writing the digits

  /** The digits still to be written when the value is v. */
  ghost function Unwritten(v: nat, base: nat, digits: string): (r: string)
    requires 2 <= base <= |digits|
    ensures v == 0 <==> r == ""
    ensures v > 0 ==> r == Numeral(v, base, digits)
  {
    if v == 0 then "" else Numeral(v, base, digits)
  }

  /** What one turn of the loop writes. */
  lemma OneDigit(v: nat, base: nat, digits: string, written: string)
    requires v > 0 && 2 <= base <= |digits|
    ensures var q, digit := Quotient(v, base), [digits[Remainder(v, base)]];
            && Unwritten(v, base, digits) + written == Unwritten(q, base, digits) + (digit + written)
            && |Unwritten(v, base, digits)| == 1 + |Unwritten(q, base, digits)|
  {
    hide Quotient, Remainder;
    var q, digit := Quotient(v, base), [digits[Remainder(v, base)]];
    assert Numeral(v, base, digits) == Unwritten(q, base, digits) + digit;
    hide Numeral;
    Regroup(Unwritten(q, base, digits), digit, written);
  }

  lemma Regroup(a: string, b: string, c: string)
    ensures (a + b) + c == a + (b + c)
  {
  }

  /** to_string<shift, mask>: value & mask is the remainder and value >> shift the quotient by 2^shift. */
  method ToString(shift: nat, word: Word, digits: string) returns (r: string)
    requires IsShift(shift) && |digits| >= 16 && digits[0] == '0'
    ensures r == Numeral(word, Base(shift), digits)
  {
    if word == 0 {
      return "0";
    }
    var nDigits := 1 + (63 - Clz(word)) / shift;
    DigitCount(word, shift, digits);
    var number := new char[nDigits](_ => '\0');
    var i := nDigits - 1;
    var value: nat := word;
    ghost var base := Base(shift);
    hide Numeral, Unwritten, Base, Quotient, Remainder, Clz, Log2, Pow;
    while value > 0
      invariant 0 <= value < UINT64
      invariant i + 1 == |Unwritten(value, base, digits)| <= nDigits
      invariant Numeral(word, base, digits) == Unwritten(value, base, digits) + number[i + 1..]
    {
      ghost var written := number[i + 1..];
      OneDigit(value, base, digits, written);
      number[i] := digits[Remainder(value, Base(shift))];
      assert number[i..] == [digits[Remainder(value, Base(shift))]] + written;
      i := i - 1;
      value := Quotient(value, Base(shift));
    }
    r := number[..];
    assert number[0..] == r;
  }

  // ---------------------------------------------------------------- signed numbers

  /** What a number in a base is written as; std::to_string is base 10. */
  function Signed(v: int, base: nat, digits: string): string
    requires 2 <= base <= |digits|
  {
    if v < 0 then "-" + Numeral(-v, base, digits) else Numeral(v, base, digits)
  }

  function ReadSigned(s: string, base: nat, digits: string): int {
    if s != "" && s[0] == '-' then -(ReadBack(s[1..], base, digits) as int) else ReadBack(s, base, digits)
  }

  lemma {:induction false} NumeralStartsWithDigit(v: nat, base: nat, digits: string)
    requires 2 <= base <= |digits|
    ensures Numeral(v, base, digits)[0] in digits
  {
    hide Quotient, Remainder;
    if v >= base {
      NumeralStartsWithDigit(Quotient(v, base), base, digits);
    }
  }

  lemma SignedReadsBack(v: int, base: nat, digits: string)
    requires 2 <= base <= |digits| && Distinct(digits) && '-' !in digits
    ensures ReadSigned(Signed(v, base, digits), base, digits) == v
  {
    hide Numeral, ReadBack;
    if v < 0 {
      NumeralReadsBack(-v, base, digits);
      assert Signed(v, base, digits)[1..] == Numeral(-v, base, digits);
    } else {
      NumeralReadsBack(v, base, digits);
      NumeralStartsWithDigit(v, base, digits);
    }
  }
}
