/**
 Integer and string conversions as section 7.19.6.1 of ISO C99 words them, where the code departs from that,
 and exactly for which arguments the two agree.
 */
module Conformance {
  import opened Machine
  import opened Digits
  import opened Emit
  import opened Number
  import Printf

  // ---------------------------------------------------------------- integers, as the standard has them

  /** The precision is the least number of digits; `#` makes an octal number start with a zero. */
  function StandardDigits(m: nat, base: nat, precision: int, f: Flags): string
    requires base == 8 || base == 10 || base == 16
  {
    var t := if m == 0 && precision == 0 then "" else Numeral(m, base, f.small);
    var z := Repeat('0', precision - |t|) + t;
    if f.special && base == 8 && (z == "" || z[0] != '0') then "0" + z else z
  }

  /** A non-zero hexadecimal number gets a prefix with `#`. */
  function StandardPrefix(m: nat, base: nat, f: Flags): string {
    if !f.special || base != 16 || m == 0 then "" else if f.small then "0x" else "0X"
  }

  /** The field is filled with spaces, or behind sign and prefix with zeros; not with zeros if there is a precision. */
  function TextOf(sign: string, m: nat, base: nat, width: int, precision: int, f: Flags): string
    requires base == 8 || base == 10 || base == 16
  {
    var head := sign + StandardPrefix(m, base, f);
    var body := StandardDigits(m, base, precision, f);
    var pad := width - |head| - |body|;
    if f.left then head + body + Repeat(' ', pad)
    else if f.zeropad && precision < 0 then head + Repeat('0', pad) + body
    else Repeat(' ', pad) + head + body
  }

  /** The integer an argument stands for: from 2^63 up it is negative for a signed conversion. */
  function Meant(num: uint64, signed: bool): int {
    if signed && num >= 0x8000_0000_0000_0000 then num as int - 0x1_0000_0000_0000_0000 else num as int
  }

  /** A negative number has a minus sign; another one of a signed conversion a plus sign with `+`, or else a space with ` `. */
  function StandardSign(v: int, f: Flags): string {
    if v < 0 then "-" else if !f.sign then "" else if f.plus then "+" else if f.space then " " else ""
  }

  function StandardText(num: uint64, base: nat, width: int, precision: int, f: Flags): string
    requires base == 8 || base == 10 || base == 16
  {
    var v := Meant(num, f.sign);
    TextOf(StandardSign(v, f), if v < 0 then -v else v, base, width, precision, f)
  }

  // ---------------------------------------------------------------- one input for each departure

  lemma ZeroFlagBesidesPrecision()
    ensures var f := NO_FLAGS.(zeropad := true);
            NumberText(7, 10, 5, 3, f) == "00007" && StandardText(7, 10, 5, 3, f) == "  007"
  {
    assert Repeat('0', 2) == "00" && Repeat(' ', 2) == "  ";
  }

  lemma ZeroWithoutDigits()
    ensures NumberText(0, 10, -1, 0, NO_FLAGS) == "0" && StandardText(0, 10, -1, 0, NO_FLAGS) == ""
  {
  }

  lemma HexPrefixOfZero()
    ensures var f := NO_FLAGS.(special := true, small := true);
            NumberText(0, 16, -1, -1, f) == "0x0" && StandardText(0, 16, -1, -1, f) == "0"
  {
  }

  lemma OctalPrefixOfZero()
    ensures var f := NO_FLAGS.(special := true);
            NumberText(0, 8, -1, -1, f) == "00" && StandardText(0, 8, -1, -1, f) == "0"
  {
  }

  lemma OctalPrefixBesidesPrecision()
    ensures var f := NO_FLAGS.(special := true);
            NumberText(8, 8, -1, 3, f) == "0010" && StandardText(8, 8, -1, 3, f) == "010"
  {
    assert Numeral(1, 8, false) == "1" && Numeral(8, 8, false) == "10";
    assert Repeat('0', 1) == "0";
  }

  // ---------------------------------------------------------------- exactly when the two agree

  /** Zeros would fill the field. */
  predicate FillsWithZeros(f: Flags) {
    f.zeropad && !f.left
  }

  /**
   Arguments for which the code prints what the standard asks for: nothing to fill with zeros next to a
   precision; no zero with precision zero; no prefixed hexadecimal zero; and an octal prefix only where it adds
   the one missing zero, or where zeros fill two columns or more anyway.
   */
  predicate Conforming(num: uint64, base: nat, width: int, precision: int, f: Flags)
    requires base == 8 || base == 10 || base == 16
  {
    var v := Meant(num, f.sign);
    var m := if v < 0 then -v else v;
    var room := width - |StandardSign(v, f)|;
    var prefix := if !f.special || base == 10 then 0 else if base == 16 then 2 else 1;
    && (FillsWithZeros(f) && precision >= 0 ==> room <= prefix + Max(precision, |Numeral(m, base, f.small)|))
    && !(v == 0 && precision == 0)
    && !(f.special && base == 16 && v == 0)
    && (f.special && base == 8 ==>
          if v == 0 then precision < 0 && FillsWithZeros(f) && room >= 2 else precision <= |Numeral(m, 8, f.small)|)
  }

  /** The same of the sign and magnitude the code works with. */
  predicate Printable(num: uint64, base: nat, width: int, precision: int, f: Flags)
    requires base == 8 || base == 10 || base == 16
  {
    var m := Magnitude(num, f);
    && (FillsWithZeros(f) && precision >= 0 ==> Padding(num, base, width, precision, f) <= 0)
    && !(m == 0 && precision == 0)
    && !(f.special && base == 16 && m == 0)
    && (f.special && base == 8 ==>
          if m == 0 then precision < 0 && FillsWithZeros(f) && width - |SignText(num, f)| >= 2
          else precision <= |Numeral(m, 8, f.small)|)
  }

  function Count(s: string, c: char): nat {
    multiset(s)[c]
  }

  lemma CountAppend(a: string, b: string, c: char)
    ensures Count(a + b, c) == Count(a, c) + Count(b, c)
  {
    assert multiset(a + b) == multiset(a) + multiset(b);
  }

  lemma {:induction false} CountRepeat(d: char, n: int, c: char)
    ensures Count(Repeat(d, n), c) == if c == d then Max(n, 0) else 0
    decreases n
  {
    if n > 0 {
      RepeatMore(d, n - 1);
      CountRepeat(d, n - 1, c);
      CountAppend(Repeat(d, n - 1), [d], c);
    }
  }

  lemma CountParts(a: string, b: string, c: string, d: char)
    ensures Count(a + b + c, d) == Count(a, d) + Count(b, d) + Count(c, d)
  {
    CountAppend(a + b, c, d);
    CountAppend(a, b, d);
  }

  /** Zeros in the text the code prints. */
  lemma ZerosPrinted(num: uint64, base: nat, width: int, precision: int, f: Flags)
    requires base == 8 || base == 10 || base == 16
    ensures Count(NumberText(num, base, width, precision, f), '0')
         == (if FillsWithZeros(f) then Max(Padding(num, base, width, precision, f), 0) else 0)
            + (if f.special && base != 10 then 1 else 0)
            + Max(precision - |Numeral(Magnitude(num, f), base, f.small)|, 0) + Count(Numeral(Magnitude(num, f), base, f.small), '0')
  {
    hide Numeral, Count, Repeat;
    var t := Numeral(Magnitude(num, f), base, f.small);
    var pad := Padding(num, base, width, precision, f);
    var head, body := SignText(num, f) + PrefixText(base, f), NumeralText(num, base, precision, f);
    HeadZeros(num, f, PrefixText(base, f));
    CountAppend(Repeat('0', precision - |t|), t, '0');
    CountRepeat('0', precision - |t|, '0');
    CountRepeat('0', pad, '0');
    CountRepeat(' ', pad, '0');
    CountParts(head, body, Repeat(' ', pad), '0');
    CountParts(head, Repeat('0', pad), body, '0');
    CountParts(Repeat(' ', pad), head, body, '0');
  }

  lemma HeadZeros(num: uint64, f: Flags, prefix: string)
    requires prefix == "" || prefix == "0" || prefix == "0x" || prefix == "0X"
    ensures Count(SignText(num, f) + prefix, '0') == if prefix == "" then 0 else 1
  {
    CountAppend(SignText(num, f), prefix, '0');
  }

  /** Zeros in the text the standard asks for. */
  lemma ZerosStandard(num: uint64, base: nat, width: int, precision: int, f: Flags)
    requires base == 8 || base == 10 || base == 16
    ensures var (m, body) := (Magnitude(num, f), StandardDigits(Magnitude(num, f), base, precision, f));
            Count(TextOf(SignText(num, f), Magnitude(num, f), base, width, precision, f), '0')
            == (if FillsWithZeros(f) && precision < 0
                then Max(width - |SignText(num, f) + StandardPrefix(m, base, f)| - |body|, 0) else 0)
            + (if f.special && base == 16 && m != 0 then 1 else 0) + Count(body, '0')
  {
    hide Numeral, Count, Repeat, StandardDigits;
    var m := Magnitude(num, f);
    var head, body := SignText(num, f) + StandardPrefix(m, base, f), StandardDigits(m, base, precision, f);
    var pad := width - |head| - |body|;
    HeadZeros(num, f, StandardPrefix(m, base, f));
    CountRepeat('0', pad, '0');
    CountRepeat(' ', pad, '0');
    CountParts(head, body, Repeat(' ', pad), '0');
    CountParts(head, Repeat('0', pad), body, '0');
    CountParts(Repeat(' ', pad), head, body, '0');
  }

  lemma NumeralFacts(m: nat, base: nat, small: bool)
    requires 2 <= base <= 16
    ensures var t := Numeral(m, base, small);
            |t| > 0 && (if m == 0 then t == "0" && Count(t, '0') == 1 else t[0] != '0')
  {
    NumeralDigits(m, base, small);
  }

  /** The digits the standard asks for, case by case. */
  lemma StandardDigitsAre(m: nat, base: nat, precision: int, f: Flags)
    requires base == 8 || base == 10 || base == 16
    ensures var t, z, d := Numeral(m, base, f.small), StandardDigits(m, base, precision, f), f.special && base == 8;
            z == if m == 0 && precision == 0 then (if d then "0" else "")
                 else if m != 0 && d && precision <= |t| then "0" + t
                 else Repeat('0', precision - |t|) + t
  {
    hide Numeral, Count, Repeat;
    var t := Numeral(m, base, f.small);
    NumeralFacts(m, base, f.small);
    if m != 0 && precision <= |t| {
      assert Repeat('0', precision - |t|) + t == t;
    }
  }

  lemma ZerosBefore(t: string, n: int)
    ensures Count(Repeat('0', n) + t, '0') == Max(n, 0) + Count(t, '0') && Count("0" + t, '0') == 1 + Count(t, '0')
    ensures |Repeat('0', n) + t| == Max(n, 0) + |t|
  {
    CountAppend(Repeat('0', n), t, '0');
    CountRepeat('0', n, '0');
    CountAppend("0", t, '0');
  }

  /** Length and zeros of these digits. */
  lemma StandardDigitsZeros(m: nat, base: nat, precision: int, f: Flags)
    requires base == 8 || base == 10 || base == 16
    ensures var t, z, d := Numeral(m, base, f.small), StandardDigits(m, base, precision, f), f.special && base == 8;
            && (m == 0 && precision == 0 ==> |z| == Count(z, '0') == if d then 1 else 0)
            && (m == 0 && precision != 0 ==> |z| == Count(z, '0') == Max(precision, 1))
            && (m != 0 ==> Count(z, '0') == Max(precision - |t|, 0) + Count(t, '0') + if d && precision <= |t| then 1 else 0)
  {
    hide Numeral, StandardDigits, Repeat;
    var t := Numeral(m, base, f.small);
    assert Count("0", '0') == 1 && Count("", '0') == 0;
    hide Count;
    StandardDigitsAre(m, base, precision, f);
    NumeralFacts(m, base, f.small);
    ZerosBefore(t, precision - |t|);
  }

  /** Where the condition fails, the texts differ in their zeros, or in the letter of a prefix. */
  lemma DepartsElsewhere(num: uint64, base: nat, width: int, precision: int, f: Flags)
    requires base == 8 || base == 10 || base == 16
    requires !Printable(num, base, width, precision, f)
    ensures NumberText(num, base, width, precision, f) != TextOf(SignText(num, f), Magnitude(num, f), base, width, precision, f)
  {
    var m := Magnitude(num, f);
    if f.special && base == 16 && m == 0 {
      PrefixLetter(num, width, precision, f);
    } else {
      DepartsInZeros(num, base, width, precision, f);
    }
  }

  lemma DepartsInZeros(num: uint64, base: nat, width: int, precision: int, f: Flags)
    requires (base == 8 || base == 10 || base == 16) && !(f.special && base == 16 && Magnitude(num, f) == 0)
    requires !Printable(num, base, width, precision, f)
    ensures NumberText(num, base, width, precision, f) != TextOf(SignText(num, f), Magnitude(num, f), base, width, precision, f)
  {
    hide NumberText, TextOf, StandardDigits, Numeral, Count, Padding, SignText, StandardPrefix, PrefixText;
    hide NumeralText, Repeat, Magnitude;
    var m := Magnitude(num, f);
    ZerosPrinted(num, base, width, precision, f);
    ZerosStandard(num, base, width, precision, f);
    StandardDigitsZeros(m, base, precision, f);
    NumeralFacts(m, base, f.small);
    Columns(num, base, width, precision, f);
    var t, z := Numeral(m, base, f.small), StandardDigits(m, base, precision, f);
    CountsDiffer(m, base, f.special, FillsWithZeros(f), width, precision, |SignText(num, f)|, |t|, Count(t, '0'), |z|, Count(z, '0'),
                 Count(NumberText(num, base, width, precision, f), '0'), Count(TextOf(SignText(num, f), Magnitude(num, f), base, width, precision, f), '0'));
  }

  /** The arithmetic of it: `len` and `zeros` of the numeral, `len'` and `zeros'` of the standard's digits. */
  lemma CountsDiffer(m: nat, base: nat, special: bool, fills: bool, width: int, precision: int, sign: nat,
                     len: nat, zeros: nat, len': nat, zeros': nat, printed: nat, standard: nat)
    requires (base == 8 || base == 10 || base == 16) && len > 0 && (m == 0 ==> len == 1 && zeros == 1)
    requires var pad := width - sign - (if !special || base == 10 then 0 else if base == 16 then 2 else 1) - Max(precision, len);
             && printed == (if fills then Max(pad, 0) else 0) + (if special && base != 10 then 1 else 0)
                           + Max(precision - len, 0) + zeros
             && !( && (fills && precision >= 0 ==> pad <= 0) && !(m == 0 && precision == 0) && !(special && base == 16 && m == 0)
                   && (special && base == 8 ==> if m == 0 then precision < 0 && fills && width - sign >= 2 else precision <= len))
    requires m == 0 && precision == 0 ==> len' == zeros' == if special && base == 8 then 1 else 0
    requires m == 0 && precision != 0 ==> len' == zeros' == Max(precision, 1)
    requires m != 0 ==> zeros' == Max(precision - len, 0) + zeros + if special && base == 8 && precision <= len then 1 else 0
    requires standard == (if fills && precision < 0 then Max(width - sign - (if special && base == 16 && m != 0 then 2 else 0) - len', 0)
                          else 0) + (if special && base == 16 && m != 0 then 1 else 0) + zeros'
    requires !(special && base == 16 && m == 0)
    ensures printed != standard
  {
  }

  /** Lengths of the parts of both texts. */
  lemma Columns(num: uint64, base: nat, width: int, precision: int, f: Flags)
    requires base == 8 || base == 10 || base == 16
    ensures var m, s := Magnitude(num, f), |SignText(num, f)|;
            && Padding(num, base, width, precision, f)
               == width - s - (if !f.special || base == 10 then 0 else if base == 16 then 2 else 1)
                  - Max(precision, |Numeral(m, base, f.small)|)
            && |SignText(num, f) + StandardPrefix(m, base, f)| == s + (if f.special && base == 16 && m != 0 then 2 else 0)
  {
    hide Numeral, SignText;
  }

  lemma PrefixLetter(num: uint64, width: int, precision: int, f: Flags)
    requires f.special && Magnitude(num, f) == 0
    ensures NumberText(num, 16, width, precision, f) != TextOf(SignText(num, f), Magnitude(num, f), 16, width, precision, f)
  {
    var x := if f.small then 'x' else 'X';
    LetterPrinted(num, width, precision, f, x);
    LetterNotStandard(num, width, precision, f, x);
  }

  lemma LetterPrinted(num: uint64, width: int, precision: int, f: Flags, x: char)
    requires f.special && x == if f.small then 'x' else 'X'
    ensures Count(NumberText(num, 16, width, precision, f), x) > 0
  {
    hide Numeral, Count, Repeat, SignText, NumeralText, Padding;
    var head, body := SignText(num, f) + PrefixText(16, f), NumeralText(num, 16, precision, f);
    var pad := Padding(num, 16, width, precision, f);
    CountAppend(SignText(num, f), PrefixText(16, f), x);
    assert Count("0x", 'x') == 1 && Count("0X", 'X') == 1 by { CountPair(); }
    CountParts(head, body, Repeat(' ', pad), x);
    CountParts(head, Repeat('0', pad), body, x);
    CountParts(Repeat(' ', pad), head, body, x);
  }

  lemma CountPair()
    ensures Count("0x", 'x') == 1 && Count("0X", 'X') == 1
  {
  }

  lemma NoLetter(num: uint64, f: Flags, x: char)
    requires x == 'x' || x == 'X'
    ensures Count(SignText(num, f), x) == 0 && Count("0", x) == 0 && Count("", x) == 0
  {
  }

  lemma LetterNotStandard(num: uint64, width: int, precision: int, f: Flags, x: char)
    requires f.special && Magnitude(num, f) == 0 && x == if f.small then 'x' else 'X'
    ensures Count(TextOf(SignText(num, f), Magnitude(num, f), 16, width, precision, f), x) == 0
  {
    hide Numeral, Count, Repeat, SignText, StandardDigits, Magnitude;
    var head, body := SignText(num, f) + StandardPrefix(0, 16, f), StandardDigits(0, 16, precision, f);
    var pad := width - |head| - |body|;
    NoLetter(num, f, x);
    StandardDigitsAre(0, 16, precision, f);
    NumeralFacts(0, 16, f.small);
    CountAppend(SignText(num, f), StandardPrefix(0, 16, f), x);
    CountAppend(Repeat('0', precision - 1), "0", x);
    CountRepeat('0', precision - 1, x);
    CountRepeat('0', pad, x);
    CountRepeat(' ', pad, x);
    CountParts(head, body, Repeat(' ', pad), x);
    CountParts(head, Repeat('0', pad), body, x);
    CountParts(Repeat(' ', pad), head, body, x);
  }

  lemma AgreesUnder(num: uint64, base: nat, width: int, precision: int, f: Flags)
    requires base == 8 || base == 10 || base == 16
    requires Printable(num, base, width, precision, f)
    ensures NumberText(num, base, width, precision, f) == TextOf(SignText(num, f), Magnitude(num, f), base, width, precision, f)
  {
    var m := Magnitude(num, f);
    StandardDigitsAre(m, base, precision, f);
    NumeralFacts(m, base, f.small);
    if f.special && base == 8 {
      OctalAgrees(num, width, precision, f);
    } else {
      PaddingAgrees(num, base, width, precision, f);
    }
  }

  /** With the same prefix and digits, only what fills the field can differ. */
  lemma PaddingAgrees(num: uint64, base: nat, width: int, precision: int, f: Flags)
    requires (base == 8 || base == 10 || base == 16) && Printable(num, base, width, precision, f)
    requires StandardPrefix(Magnitude(num, f), base, f) == PrefixText(base, f)
    requires StandardDigits(Magnitude(num, f), base, precision, f) == NumeralText(num, base, precision, f)
    ensures NumberText(num, base, width, precision, f) == TextOf(SignText(num, f), Magnitude(num, f), base, width, precision, f)
  {
    hide Numeral, StandardDigits, NumeralText, SignText, PrefixText, StandardPrefix, Magnitude, Repeat;
    SameFill(SignText(num, f) + PrefixText(base, f), NumeralText(num, base, precision, f), Padding(num, base, width, precision, f),
             f.left, f.zeropad, f.zeropad && precision < 0);
  }

  /** Where nothing is filled it does not matter what with. */
  lemma SameFill(head: string, body: string, pad: int, left: bool, zeros: bool, zeros': bool)
    requires !left && zeros != zeros' ==> pad <= 0
    ensures (if left then head + body + Repeat(' ', pad) else if zeros then head + Repeat('0', pad) + body else Repeat(' ', pad) + head + body)
         == (if left then head + body + Repeat(' ', pad) else if zeros' then head + Repeat('0', pad) + body else Repeat(' ', pad) + head + body)
  {
    if pad <= 0 {
      assert Repeat('0', pad) == "" && Repeat(' ', pad) == "";
      assert "" + head == head && head + "" == head;
    }
  }

  lemma OctalAgrees(num: uint64, width: int, precision: int, f: Flags)
    requires f.special && Printable(num, 8, width, precision, f)
    ensures NumberText(num, 8, width, precision, f) == TextOf(SignText(num, f), Magnitude(num, f), 8, width, precision, f)
  {
    OctalDigits(num, width, precision, f);
    if Magnitude(num, f) == 0 {
      OctalAgreesZero(num, width, precision, f);
    } else {
      OctalAgreesPositive(num, width, precision, f);
    }
    hide TextOf, NumberText, NumeralText, Numeral, StandardDigits, Printable;
  }

  lemma OctalAgreesZero(num: uint64, width: int, precision: int, f: Flags)
    requires f.special && precision < 0 && !f.left && f.zeropad && width - |SignText(num, f)| >= 2 && Magnitude(num, f) == 0
    requires NumeralText(num, 8, precision, f) == "0" && StandardDigits(0, 8, precision, f) == "0"
    ensures NumberText(num, 8, width, precision, f) == TextOf(SignText(num, f), Magnitude(num, f), 8, width, precision, f)
  {
    hide Numeral, StandardDigits, SignText, Repeat, NumeralText, Magnitude;
    OctalZero(SignText(num, f), Padding(num, 8, width, precision, f));
  }

  lemma OctalAgreesPositive(num: uint64, width: int, precision: int, f: Flags)
    requires f.special && Printable(num, 8, width, precision, f) && Magnitude(num, f) != 0
    requires NumeralText(num, 8, precision, f) == Numeral(Magnitude(num, f), 8, f.small)
    requires StandardDigits(Magnitude(num, f), 8, precision, f) == "0" + Numeral(Magnitude(num, f), 8, f.small)
    ensures NumberText(num, 8, width, precision, f) == TextOf(SignText(num, f), Magnitude(num, f), 8, width, precision, f)
  {
    hide Numeral, StandardDigits, SignText, Repeat, NumeralText, Magnitude;
    OctalPadding(SignText(num, f), Numeral(Magnitude(num, f), 8, f.small), Padding(num, 8, width, precision, f));
  }

  lemma OctalDigits(num: uint64, width: int, precision: int, f: Flags)
    requires f.special && Printable(num, 8, width, precision, f)
    ensures var m := Magnitude(num, f); var t := Numeral(m, 8, f.small);
            && NumeralText(num, 8, precision, f) == t && (m == 0 ==> t == "0")
            && StandardDigits(m, 8, precision, f) == if m == 0 then "0" else "0" + t
  {
    var m := Magnitude(num, f);
    var t := Numeral(m, 8, f.small);
    StandardDigitsAre(m, 8, precision, f);
    NumeralFacts(m, 8, f.small);
    hide Numeral, StandardDigits, Count, SignText, Repeat;
    assert Repeat('0', precision - |t|) + t == t;
  }

  lemma OctalZero(s: string, pad: int)
    requires pad >= 0
    ensures (s + "0") + Repeat('0', pad) + "0" == (s + "") + Repeat('0', pad + 1) + "0"
  {
  }

  lemma OctalPadding(s: string, t: string, pad: int)
    ensures (s + "0") + t == (s + "") + ("0" + t)
    ensures Repeat(' ', pad) + (s + "0") + t == Repeat(' ', pad) + (s + "") + ("0" + t)
    ensures pad <= 0 ==> Repeat('0', pad) == Repeat(' ', pad) == ""
  {
  }

  /** The standard's sign and absolute value are those the code comes to. */
  lemma SignsAgree(num: uint64, f: Flags)
    ensures var v := Meant(num, f.sign);
            StandardSign(v, f) == SignText(num, f) && (if v < 0 then -v else v) == Magnitude(num, f)
  {
  }

  lemma ConditionsAgree(num: uint64, base: nat, width: int, precision: int, f: Flags)
    requires base == 8 || base == 10 || base == 16
    ensures Conforming(num, base, width, precision, f) <==> Printable(num, base, width, precision, f)
  {
    SignsAgree(num, f);
    Columns(num, base, width, precision, f);
    hide Numeral, SignText, StandardSign, Magnitude, Meant, Padding, NumeralText, PrefixText;
  }

  lemma StandardTextIs(num: uint64, base: nat, width: int, precision: int, f: Flags)
    requires base == 8 || base == 10 || base == 16
    ensures StandardText(num, base, width, precision, f) == TextOf(SignText(num, f), Magnitude(num, f), base, width, precision, f)
  {
    hide TextOf, SignText, StandardSign, Magnitude, Meant;
    SignsAgree(num, f);
  }

  /** `number` prints what the standard asks for if and only if its arguments are conforming. */
  lemma ConformsExactly(num: uint64, base: nat, width: int, precision: int, f: Flags)
    requires base == 8 || base == 10 || base == 16
    ensures NumberText(num, base, width, precision, f) == StandardText(num, base, width, precision, f)
       <==> Conforming(num, base, width, precision, f)
  {
    hide NumberText, StandardText, TextOf, Conforming, Printable, SignText, Magnitude;
    StandardTextIs(num, base, width, precision, f);
    ConditionsAgree(num, base, width, precision, f);
    if Conforming(num, base, width, precision, f) {
      AgreesUnder(num, base, width, precision, f);
    } else {
      DepartsElsewhere(num, base, width, precision, f);
    }
  }

  /** A signed decimal number without width and precision: a minus sign and the digits of -v, or the digits of v. */
  lemma SignedDecimal(num: uint64, f: Flags)
    requires f.sign
    ensures var v := if num >= 0x8000_0000_0000_0000 then num as int - 0x1_0000_0000_0000_0000 else num as int;
            NumberText(num, 10, -1, -1, f)
            == if v < 0 then "-" + Numeral(-v, 10, f.small)
               else if f.plus then "+" + Numeral(v, 10, f.small)
               else if f.space then " " + Numeral(v, 10, f.small)
               else Numeral(v, 10, f.small)
  {
    hide Numeral;
  }

  // ---------------------------------------------------------------- negative precisions

  /** The engine reads a negative precision as zero, the standard as none: for integers that makes no difference. */
  lemma NegativePrecisionOfNumber(num: uint64, base: nat, width: int, precision: int, f: Flags)
    requires (base == 8 || base == 10 || base == 16) && precision < 0
    ensures NumberText(num, base, width, 0, f) == NumberText(num, base, width, precision, f)
  {
  }

  predicate Blank(s: string) {
    forall c | c in s :: c == ' '
  }

  lemma StringParts(s: string, width: int, f: Flags)
    ensures Printf.StringText(s, width, 0, f) == Repeat(' ', width)
    ensures forall precision | precision < 0 ::
              Printf.StringText(s, width, precision, f)
              == if f.left then s + Repeat(' ', width - |s|) else Repeat(' ', width - |s|) + s
  {
    assert s[..|s|] == s && s[..0] == "";
    assert "" + Repeat(' ', width) == Repeat(' ', width) + "" == Repeat(' ', width);
  }

  /** For strings it does, unless all there is to show are spaces that fit into the field. */
  lemma NegativePrecisionOfString(s: string, width: int, precision: int, f: Flags)
    requires precision < 0
    ensures Printf.StringText(s, width, 0, f) == Printf.StringText(s, width, precision, f)
       <==> Blank(s) && |s| <= Max(width, 0)
  {
    var a, b := Printf.StringText(s, width, 0, f), Printf.StringText(s, width, precision, f);
    StringParts(s, width, f);
    hide Printf.StringText;
    var k := if f.left then 0 else Max(width - |s|, 0);
    if a == b {
      forall c | c in s
        ensures c == ' '
      {
        var i :| 0 <= i < |s| && s[i] == c;
        assert b[k + i] == s[i] && a[k + i] == ' ';
      }
    }
    if Blank(s) && |s| <= Max(width, 0) {
      assert forall i | 0 <= i < |s| :: s[i] in s;
      assert a == b;
    }
  }

  lemma NegativePrecisionHidesString()
    ensures Printf.StringText("a", -1, 0, NO_FLAGS) == "" && Printf.StringText("a", -1, -1, NO_FLAGS) == "a"
  {
  }
}
