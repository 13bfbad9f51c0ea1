/** Integer conversion: sign, prefix, precision and padding around a numeral. */
module Number {
  import opened Machine
  import opened Digits
  import opened Decimal
  import opened Emit

  /** The bits of `flags` the conversions look at. */
  datatype Flags = Flags(zeropad: bool, sign: bool, plus: bool, space: bool, left: bool, small: bool, special: bool)

  const NO_FLAGS := Flags(false, false, false, false, false, false, false)

  // ---------------------------------------------------------------- what is printed

  function IsNegative(num: uint64, f: Flags): bool {
    f.sign && num >= 0x8000_0000_0000_0000
  }

  function Magnitude(num: uint64, f: Flags): (m: nat)
    ensures m < 0x1_0000_0000_0000_0000
  {
    if IsNegative(num, f) then 0x1_0000_0000_0000_0000 - num as int else num as int
  }

  function SignText(num: uint64, f: Flags): string {
    if IsNegative(num, f) then "-"
    else if f.sign && f.plus then "+"
    else if f.sign && f.space then " "
    else ""
  }

  function PrefixText(base: nat, f: Flags): string {
    if !f.special || base == 10 then ""
    else if base == 16 then (if f.small then "0x" else "0X")
    else "0"
  }

  function NumeralText(num: uint64, base: nat, precision: int, f: Flags): string
    requires base == 8 || base == 10 || base == 16
  {
    var digits := Numeral(Magnitude(num, f), base, f.small);
    Repeat('0', precision - |digits|) + digits
  }

  /** Columns of the field that sign, prefix and zero-extended digits leave empty. */
  function Padding(num: uint64, base: nat, width: int, precision: int, f: Flags): int
    requires base == 8 || base == 10 || base == 16
  {
    width - |SignText(num, f)| - |PrefixText(base, f)| - |NumeralText(num, base, precision, f)|
  }

  function NumberText(num: uint64, base: nat, width: int, precision: int, f: Flags): string
    requires base == 8 || base == 10 || base == 16
  {
    var head := SignText(num, f) + PrefixText(base, f);
    var body := NumeralText(num, base, precision, f);
    var pad := Padding(num, base, width, precision, f);
    if f.left then head + body + Repeat(' ', pad)
    else if f.zeropad then head + Repeat('0', pad) + body
    else Repeat(' ', pad) + head + body
  }

  /** A conversion takes as many columns as its field or its content, whichever is larger. */
  lemma NumberWidth(num: uint64, base: nat, width: int, precision: int, f: Flags)
    requires base == 8 || base == 10 || base == 16
    ensures |NumberText(num, base, width, precision, f)|
         == Max(width, |SignText(num, f)| + |PrefixText(base, f)|
                       + Max(precision, |Numeral(Magnitude(num, f), base, f.small)|))
  {
  }

  // ---------------------------------------------------------------- the digits in `tmp`

  /** Sets the bit that tells small letters from capitals. */
  function OrCase(c: char): char
    requires c < 128 as char
  {
    if c as int / 32 % 2 == 1 then c else c + 32 as char
  }

  lemma OrCaseDigit(d: nat)
    requires d < 16
    ensures DigitChar(d, false) < 128 as char && OrCase(DigitChar(d, false)) == DigitChar(d, true)
  {
  }

  lemma {:induction false} DecimalHasNoCase(n: nat, small: bool)
    ensures RevNumeral(n, 10, small) == RevNumeral(n, 10, false)
  {
    if n >= 10 {
      DecimalHasNoCase(n / 10, small);
    }
  }

  /** Digits into `tmp`, last one first. */
  method DigitsInto(tmp: array<char>, num: uint64, base: nat, small: bool) returns (i: nat)
    requires tmp.Length == 66 && (base == 8 || base == 10 || base == 16)
    modifies tmp
    ensures i <= 22 && tmp[..i] == RevNumeral(num as int, base, small)
  {
    NumeralFits(num as int, base, small);
    RevNumeralReverses(num as int, base, small);
    if num == 0 {
      tmp[0] := '0';
      i := 1;
    } else if base != 10 {
      i := BinaryDigits(tmp, num, base, small);
    } else {
      DecimalHasNoCase(num as int, small);
      i := PutDec(tmp, 0, num);
      assert tmp[..i] == RevDecimal(num as int);
    }
  }

  /** The lowest octal or hexadecimal digit, taken from the low byte. */
  function LowDigit(n: nat, base: nat): (d: nat)
    requires base == 8 || base == 16
    ensures d < 16
  {
    if base == 16 then n % 256 % 16 else n % 256 % 8
  }

  /** `num >> shift` */
  function Shifted(n: nat, base: nat): (q: nat)
    requires base == 8 || base == 16
    ensures q < n || n == 0 == q
  {
    if base == 16 then n / 16 else n / 8
  }

  lemma HexStep(n: nat, small: bool)
    ensures var d := DigitChar(n % 256 % 16, small);
            RevNumeral(n, 16, small) == if n / 16 == 0 then [d] else [d] + RevNumeral(n / 16, 16, small)
  {
    assert n % 256 % 16 == n % 16;
  }

  lemma OctalStep(n: nat, small: bool)
    ensures var d := DigitChar(n % 256 % 8, small);
            RevNumeral(n, 8, small) == if n / 8 == 0 then [d] else [d] + RevNumeral(n / 8, 8, small)
  {
    assert n % 256 % 8 == n % 8;
  }

  lemma RevNumeralStep(n: nat, base: nat, small: bool)
    requires base == 8 || base == 16
    ensures var d := DigitChar(LowDigit(n, base), small);
            RevNumeral(n, base, small) == if Shifted(n, base) == 0 then [d] else [d] + RevNumeral(Shifted(n, base), base, small)
  {
    if base == 16 {
      HexStep(n, small);
    } else {
      OctalStep(n, small);
    }
  }

  /** Octal and hexadecimal digits, lowest first. */
  method BinaryDigits(tmp: array<char>, num: uint64, base: nat, small: bool) returns (i: nat)
    requires tmp.Length == 66 && (base == 8 || base == 16) && |RevNumeral(num as int, base, small)| <= 22
    modifies tmp
    ensures i <= 22 && tmp[..i] == RevNumeral(num as int, base, small)
  {
    hide RevNumeral, Shifted, LowDigit, DigitChar, OrCase;
    var n: nat := num as int;
    i := 0;
    while true
      invariant i <= 22 && RevNumeral(num as int, base, small) == tmp[..i] + RevNumeral(n, base, small)
      decreases n
    {
      RevNumeralStep(n, base, small);
      ghost var done := tmp[..i];
      var d := LowDigit(n, base);
      OrCaseDigit(d);
      tmp[i] := if small then OrCase(DigitChar(d, false)) else DigitChar(d, false);
      i := i + 1;
      assert tmp[..i] == done + [DigitChar(d, small)];
      n := Shifted(n, base);
      if n == 0 {
        return;
      }
    }
  }

  // ---------------------------------------------------------------- the code

  /** Zeros up to the precision, then the digits in `tmp`, last one first. */
  method EmitDigits(buf: array<char>, end: nat, pos: nat, tmp: array<char>, count: nat, prec: int, ghost digits: string)
    returns (next: nat)
    requires end <= buf.Length && buf != tmp && count <= prec && count <= tmp.Length && |digits| == count
    requires forall k | 0 <= k < count :: tmp[k] == digits[count - 1 - k]
    modifies buf
    ensures buf[..] == Put(old(buf[..]), end, pos, Repeat('0', prec - count) + digits)
    ensures next == pos + prec
  {
    hide Put, Repeat;
    ghost var s := buf[..];
    next := pos;
    var i: int, precision := count, prec - 1;
    ghost var done := "";
    PutNothing(s, end, pos);
    assert Repeat('0', 0) == "";
    while i <= precision
      invariant count - 1 <= precision < prec && |done| == prec - 1 - precision && done == Repeat('0', |done|)
      invariant buf[..] == Put(s, end, pos, done) && next == pos + |done|
    {
      RepeatMore('0', |done|);
      PutAppend(s, end, pos, done, ['0']);
      next := AddCh(buf, end, next, '0');
      done := done + ['0'];
      precision := precision - 1;
    }
    ghost var zeros := done;
    assert zeros + digits[..0] == zeros;
    i := i - 1;
    while i >= 0
      invariant -1 <= i < count && done == zeros + digits[..count - 1 - i]
      invariant buf[..] == Put(s, end, pos, done) && next == pos + |done|
    {
      PutAppend(s, end, pos, done, [tmp[i]]);
      assert digits[..count - 1 - i] + [tmp[i]] == digits[..count - i];
      next := AddCh(buf, end, next, tmp[i]);
      done := zeros + digits[..count - i];
      i := i - 1;
    }
    assert digits[..count] == digits;
  }

  /** Sign and "0x" / "0" prefix. */
  method EmitHead(buf: array<char>, end: nat, pos: nat, sign: char, base: nat, f: Flags) returns (next: nat)
    requires end <= buf.Length && (base == 8 || base == 10 || base == 16)
    modifies buf
    ensures buf[..] == Put(old(buf[..]), end, pos, (if sign == '\0' then "" else [sign]) + PrefixText(base, f))
    ensures next == pos + (if sign == '\0' then 0 else 1) + |PrefixText(base, f)|
  {
    hide Put;
    ghost var s := buf[..];
    next := pos;
    ghost var done := "";
    PutNothing(s, end, pos);
    if sign != '\0' {
      next := AddCh(buf, end, next, sign);
      done := [sign];
    }
    if f.special && base != 10 {
      PutAppend(s, end, pos, done, ['0']);
      next := AddCh(buf, end, next, '0');
      done := done + ['0'];
      if base == 16 {
        var x := if f.small then OrCase('X') else 'X';
        PutAppend(s, end, pos, done, [x]);
        next := AddCh(buf, end, next, x);
        done := done + [x];
      }
    }
    assert done == (if sign == '\0' then "" else [sign]) + PrefixText(base, f);
  }

  /** The sign character, the magnitude, and the field size left after sign and prefix. */
  method TakeSign(num: uint64, base: nat, width: int, f: Flags) returns (sign: char, n: uint64, size: int)
    ensures (if sign == '\0' then "" else [sign]) == SignText(num, f)
    ensures n as int == Magnitude(num, f) && size == width - |SignText(num, f)| - |PrefixText(base, f)|
  {
    size, sign, n := width, '\0', num;
    if f.sign {
      if num >= 0x8000_0000_0000_0000 {
        sign := '-';
        n := 0xFFFF_FFFF_FFFF_FFFF - num + 1;
        size := size - 1;
      } else if f.plus {
        sign := '+';
        size := size - 1;
      } else if f.space {
        sign := ' ';
        size := size - 1;
      }
    }
    if f.special && base != 10 {
      size := size - 1;
      if base == 16 {
        size := size - 1;
      }
    }
  }

  /** What the four padding loops contribute: at most one of them runs. */
  lemma Assembled(num: uint64, base: nat, width: int, prec: int, flags: Flags, lead: string, mid: string, trail: string)
    requires base == 8 || base == 10 || base == 16
    requires var pad := Padding(num, base, width, prec, flags);
             && lead == (if !flags.zeropad && !flags.left then Repeat(' ', pad) else "")
             && mid == (if !flags.left && flags.zeropad then Repeat('0', pad) else "")
             && trail == (if flags.left then Repeat(' ', pad) else "")
    ensures lead + (SignText(num, flags) + PrefixText(base, flags)) + mid + NumeralText(num, base, prec, flags) + trail
         == NumberText(num, base, width, prec, flags)
  {
    var head := SignText(num, flags) + PrefixText(base, flags);
    var body := NumeralText(num, base, prec, flags);
    assert "" + head == head && head + "" == head && (lead + head + mid + body) + "" == lead + head + mid + body;
  }

  /** The five parts of a conversion, in the order the code emits them. */
  method EmitParts(buf: array<char>, end: nat, pos: nat, sign: char, base: nat, pad: int, f: Flags,
                   tmp: array<char>, i: nat, precision: int, ghost digits: string)
    returns (next: nat, ghost lead: string, ghost mid: string, ghost trail: string)
    requires end <= buf.Length && (base == 8 || base == 10 || base == 16) && buf != tmp && (f.left ==> !f.zeropad)
    requires i <= precision && i <= tmp.Length && |digits| == i
    requires forall k | 0 <= k < i :: tmp[k] == digits[i - 1 - k]
    modifies buf
    ensures lead == (if !f.zeropad && !f.left then Repeat(' ', pad) else "")
    ensures mid == (if !f.left && f.zeropad then Repeat('0', pad) else "")
    ensures trail == (if f.left then Repeat(' ', pad) else "")
    ensures var head := (if sign == '\0' then "" else [sign]) + PrefixText(base, f);
            var text := lead + head + mid + (Repeat('0', precision - i) + digits) + trail;
            buf[..] == Put(old(buf[..]), end, pos, text) && next == pos + |text|
  {
    hide Put, Repeat, PrefixText;
    ghost var s := buf[..];
    ghost var head := (if sign == '\0' then "" else [sign]) + PrefixText(base, f);
    ghost var body := Repeat('0', precision - i) + digits;
    var size := pad;
    next, size := EmitLead(buf, end, pos, size, f);
    lead := if !f.zeropad && !f.left then Repeat(' ', pad) else "";
    mid := if !f.left && f.zeropad then Repeat('0', pad) else "";
    trail := if f.left then Repeat(' ', pad) else "";
    PutAppend(s, end, pos, lead, head);
    next := EmitHead(buf, end, next, sign, base, f);
    PutAppend(s, end, pos, lead + head, mid);
    next, size := EmitMid(buf, end, next, size, f);
    PutAppend(s, end, pos, lead + head + mid, body);
    next := EmitDigits(buf, end, next, tmp, i, precision, digits);
    PutAppend(s, end, pos, lead + head + mid + body, trail);
    if !f.left {
      RepeatNone(' ', size);
    }
    next, size := Fill(buf, end, next, ' ', size);
  }

  /** `number` */
  method EmitNumber(buf: array<char>, end: nat, pos: nat, num: uint64, base: nat, width: int, prec: int, flags: Flags)
    returns (next: nat)
    requires end <= buf.Length && (base == 8 || base == 10 || base == 16)
    modifies buf
    ensures buf[..] == Put(old(buf[..]), end, pos, NumberText(num, base, width, prec, flags))
    ensures next == pos + |NumberText(num, base, width, prec, flags)|
  {
    hide Put, Repeat, Numeral, RevNumeral, NumberText, SignText, PrefixText, NumeralText;
    var precision := prec;
    var f := if flags.left then flags.(zeropad := false) else flags;
    var sign, n, size := TakeSign(num, base, width, flags);
    var tmp := new char[66];
    var i := DigitsInto(tmp, n, base, f.small);
    RevNumeralReverses(n as int, base, f.small);
    ghost var digits := Numeral(n as int, base, f.small);
    forall k | 0 <= k < i
      ensures tmp[k] == digits[i - 1 - k]
    {
      assert tmp[k] == tmp[..i][k];
    }
    if i > precision {
      precision := i;
    }
    size := size - precision;
    NumeralPadded(num, base, prec, precision, flags, i);
    SamePrefix(base, flags);
    ghost var lead, mid, trail;
    next, lead, mid, trail := EmitParts(buf, end, pos, sign, base, size, f, tmp, i, precision, digits);
    Assembled(num, base, width, prec, flags, lead, mid, trail);
  }

  lemma SamePrefix(base: nat, f: Flags)
    ensures PrefixText(base, f.(zeropad := false)) == PrefixText(base, f)
  {
  }

  lemma NumeralPadded(num: uint64, base: nat, prec: int, precision: int, f: Flags, i: nat)
    requires base == 8 || base == 10 || base == 16
    requires i == |Numeral(Magnitude(num, f), base, f.small)| && precision == Max(i, prec)
    ensures NumeralText(num, base, prec, f) == Repeat('0', precision - i) + Numeral(Magnitude(num, f), base, f.small)
    ensures |NumeralText(num, base, prec, f)| == precision
  {
  }

  lemma RepeatNone(c: char, n: int)
    requires n <= 0
    ensures Repeat(c, n) == ""
  {
  }

  /** Leading spaces, unless zeros or trailing spaces will fill the field; then `size` is used up. */
  method EmitLead(buf: array<char>, end: nat, pos: nat, size: int, f: Flags) returns (next: nat, left: int)
    requires end <= buf.Length
    modifies buf
    ensures var lead := if !f.zeropad && !f.left then Repeat(' ', size) else "";
            buf[..] == Put(old(buf[..]), end, pos, lead) && next == pos + |lead|
    ensures if !f.zeropad && !f.left then left < 0 else left == size
  {
    next, left := pos, size;
    PutNothing(buf[..], end, pos);
    if !f.zeropad && !f.left {
      next, left := Fill(buf, end, next, ' ', left);
    }
  }

  /** Zeros, or spaces that the leading loop left over (none), between prefix and digits. */
  method EmitMid(buf: array<char>, end: nat, pos: nat, size: int, f: Flags) returns (next: nat, left: int)
    requires end <= buf.Length && (f.zeropad || f.left || size < 0)
    modifies buf
    ensures var mid := if !f.left && f.zeropad then Repeat('0', size) else "";
            buf[..] == Put(old(buf[..]), end, pos, mid) && next == pos + |mid|
    ensures if f.left then left == size else left < 0
  {
    next, left := pos, size;
    PutNothing(buf[..], end, pos);
    if !f.left {
      var c := if f.zeropad then '0' else ' ';
      if !f.zeropad {
        RepeatNone(c, size);
      }
      next, left := Fill(buf, end, next, c, left);
    }
  }
}
