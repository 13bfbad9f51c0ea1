/**
 What the printf engine prints for a directive, in terms of the characters of the directive and the arguments:
 which argument, read how, in which digits, between which signs and padding.
 */
module Conversions {
  import opened Machine
  import opened Digits
  import opened Emit
  import opened Number
  import opened Strtoul
  import opened Printf
  import opened Directives

  // ---------------------------------------------------------------- the arguments of a directive

  /** Width and precision as asked for, -1 when there is none; a precision below zero counts as zero. */
  ghost function AskedWidth(w: Written, args: Args, k: nat): int
    requires Grammatical(w)
  {
    match w.width
    case NoWidth => -1
    case Columns(t) => Value(t, 10)
    case WidthArgument => var n := IntArgument(args(k)); if n < 0 then -n else n
  }

  function AfterWidth(w: Written, k: nat): nat {
    if w.width.WidthArgument? then k + 1 else k
  }

  ghost function AskedPrecision(w: Written, args: Args, k: nat): int
    requires Grammatical(w)
  {
    match w.precision
    case NoPrecision => -1
    case Places(t) => Value(t, 10)
    case PrecisionArgument => var n := IntArgument(args(AfterWidth(w, k))); if n < 0 then 0 else n
  }

  /** The argument that is converted, behind those for width and precision. */
  function Converted(w: Written, k: nat): nat {
    AfterWidth(w, k) + if w.precision.PrecisionArgument? then 1 else 0
  }

  predicate Has(flags: string, c: char) {
    c in flags
  }

  /** A minus flag, or a negative width among the arguments, justifies left. */
  predicate JustifiesLeft(w: Written, args: Args, k: nat) {
    Has(w.flags, '-') || (w.width.WidthArgument? && IntArgument(args(k)) < 0)
  }

  /** The flags as set before, and those among `cs`. */
  function Marked(f: Flags, cs: string): Flags {
    Flags(f.zeropad || Has(cs, '0'), f.sign, f.plus || Has(cs, '+'), f.space || Has(cs, ' '), f.left || Has(cs, '-'), f.small,
          f.special || Has(cs, '#'))
  }

  lemma {:induction false} FlagsAre(cs: string, f: Flags)
    requires forall c | c in cs :: FlagChar(c)
    ensures FlagsOf(cs, f) == Marked(f, cs)
  {
    if cs != "" {
      FlagsAre(cs[1..], WithFlag(f, cs[0]));
      MarkedFirst(f, cs);
      hide Marked, WithFlag;
    }
  }

  lemma MarkedFirst(f: Flags, cs: string)
    requires cs != "" && FlagChar(cs[0])
    ensures Marked(WithFlag(f, cs[0]), cs[1..]) == Marked(f, cs)
  {
    HasFirst(cs, '0');
    HasFirst(cs, '+');
    HasFirst(cs, ' ');
    HasFirst(cs, '-');
    HasFirst(cs, '#');
    hide Has;
  }

  lemma HasFirst(cs: string, c: char)
    requires cs != ""
    ensures Has(cs, c) <==> c == cs[0] || Has(cs[1..], c)
  {
  }

  /** The flags the engine has parsed. */
  function ParsedFlags(w: Written, args: Args, k: nat): Flags {
    Flags(Has(w.flags, '0'), false, Has(w.flags, '+'), Has(w.flags, ' '), JustifiesLeft(w, args, k), false, Has(w.flags, '#'))
  }

  /** Flags, width and precision as asked for. */
  lemma ArgumentsAre(i: nat, w: Written, args: Args, k: nat)
    requires Grammatical(w)
    ensures WithPrecision(WithWidth(Directive(FlagsOf(w.flags, NO_FLAGS), -1, -1, '\0', i, k), w.width, args), w.precision, args)
         == Directive(ParsedFlags(w, args, k), AskedWidth(w, args, k), AskedPrecision(w, args, k), '\0', i, Converted(w, k))
  {
    hide Value, DigitsOf, Has, FlagsOf, IsConversion, QualifierOk, IntArgument;
    FlagsAre(w.flags, NO_FLAGS);
  }

  /** The directive as the engine has parsed it. */
  lemma ParsedAs(fmt: string, i: nat, w: Written, args: Args, k: nat)
    requires Grammatical(w) && Holds(fmt, i, Text(w))
    ensures i < |fmt| && fmt[i] == '%' && i + |Text(w)| <= |fmt| && At(fmt, i + |Text(w)| - 1) == w.conv
    ensures DirectiveAt(fmt, i, args, k)
         == Directive(ParsedFlags(w, args, k), AskedWidth(w, args, k), AskedPrecision(w, args, k), Remembered(w.qualifier),
                      i + |Text(w)| - 1, Converted(w, k))
  {
    assert Text(w)[0] == '%' && Text(w)[|Text(w)| - 1] == w.conv;
    assert forall c | c in w.flags :: FlagChar(c);
    assert i + |Text(w)| <= |fmt|;
    hide DirectiveAt, Text, FlagsOf, FlagChar, Holds, Remembered, WithWidth, WithPrecision, ParsedFlags, Grammatical;
    DirectiveReads(fmt, i, w, args, k);
    ArgumentsAre(i, w, args, k);
    HoldsAt(fmt, i, Text(w), 0);
    HoldsAt(fmt, i, Text(w), |Text(w)| - 1);
  }

  /** One directive of the format is printed as its conversion, in front of what the rest prints. */
  lemma Printed(fmt: string, i: nat, w: Written, args: Args, k: nat, mem: Strings) returns (d: Directive)
    requires Grammatical(w) && Holds(fmt, i, Text(w))
    ensures i < |fmt| && d.at + 1 == i + |Text(w)| <= |fmt| && At(fmt, d.at) == w.conv
    ensures d.width == AskedWidth(w, args, k) && d.precision == AskedPrecision(w, args, k) && d.qualifier == Remembered(w.qualifier)
    ensures d.flags == ParsedFlags(w, args, k)
    ensures d.arg == Converted(w, k)
    ensures var c := Convert(fmt, d, args, mem);
            Format(fmt, i, args, k, mem) == c.text + Format(fmt, c.resume, args, c.arg, mem)
  {
    hide DirectiveAt, Convert, Grammatical, Text, AskedWidth, AskedPrecision, Holds;
    ParsedAs(fmt, i, w, args, k);
    FormatStep(fmt, i, args, k, mem);
    d := DirectiveAt(fmt, i, args, k);
  }

  lemma ConvertsInteger(fmt: string, d: Directive, args: Args, mem: Strings)
    requires d.at < |fmt| && ForInteger(At(fmt, d.at))
    ensures Convert(fmt, d, args, mem) == Conversion(IntegerText(args(d.arg), At(fmt, d.at), d), d.at + 1, d.arg + 1)
  {
  }

  lemma ConvertsChar(fmt: string, d: Directive, args: Args, mem: Strings)
    requires d.at < |fmt| && At(fmt, d.at) == 'c'
    ensures Convert(fmt, d, args, mem)
         == Conversion(CharText((args(d.arg) as int % 256) as char, d.width, d.flags), d.at + 1, d.arg + 1)
  {
  }

  lemma ConvertsString(fmt: string, d: Directive, args: Args, mem: Strings)
    requires d.at < |fmt| && At(fmt, d.at) == 's'
    ensures var s := if args(d.arg) == 0 then "<NULL>" else mem(args(d.arg));
            Convert(fmt, d, args, mem) == Conversion(StringText(s, d.width, d.precision, d.flags), d.at + 1, d.arg + 1)
  {
  }

  lemma ConvertsPointer(fmt: string, d: Directive, args: Args, mem: Strings)
    requires d.at < |fmt| && At(fmt, d.at) == 'p'
    ensures Convert(fmt, d, args, mem)
         == Conversion(PointerText(args(d.arg), d.width, d.precision, d.flags), AlnumEnd(fmt, d.at + 1), d.arg + 1)
  {
  }

  lemma ConvertsOther(fmt: string, d: Directive, args: Args, mem: Strings)
    requires d.at < |fmt|
    ensures var (c, r) := (At(fmt, d.at), Convert(fmt, d, args, mem));
            && (c == 'n' ==> r == Conversion("", d.at + 1, d.arg + 1))
            && (!ForInteger(c) && c != 'c' && c != 's' && c != 'p' && c != 'n' && c != '\0' ==>
                  r == Conversion(if c == '%' then "%" else ['%', c], d.at + 1, d.arg))
  {
    assert "%" + [At(fmt, d.at)] == ['%', At(fmt, d.at)];
  }

  // ---------------------------------------------------------------- fields

  /** Head and body in a field of `width` columns: filled behind them, between them with zeros, or in front. */
  function Laid(head: string, body: string, width: int, left: bool, zeros: bool): string {
    var room := width - |head| - |body|;
    if left then head + body + Repeat(' ', room)
    else if zeros then head + Repeat('0', room) + body
    else Repeat(' ', room) + head + body
  }

  // ---------------------------------------------------------------- integers

  /** The low 32 bits of an argument, its low 16 bits with `h`, all 64 with the others. */
  function Unsigned(a: uint64, qualifier: string): nat {
    if qualifier == "" then a as int % 0x1_0000_0000 else if qualifier == "h" then a as int % 0x1_0000 else a as int
  }

  function Signed(a: uint64, qualifier: string): int {
    if qualifier == "" then Twos(Unsigned(a, qualifier), 0x1_0000_0000)
    else if qualifier == "h" then Twos(Unsigned(a, qualifier), 0x1_0000)
    else Twos(Unsigned(a, qualifier), 0x1_0000_0000_0000_0000)
  }

  /** Octal, decimal and hexadecimal digits, the last in small or in capital letters. */
  predicate IsDigitOf(c: char, base: nat, small: bool) {
    match base
    case 8 => '0' <= c <= '7'
    case 10 => '0' <= c <= '9'
    case _ => '0' <= c <= '9' || if small then 'a' <= c <= 'f' else 'A' <= c <= 'F'
  }

  ghost predicate Over(digits: string, base: nat, small: bool) {
    forall c | c in digits :: IsDigitOf(c, base, small)
  }

  /** At least as many digits as the precision says, and no leading zeros beyond that. */
  predicate AsLong(digits: string, precision: int) {
    digits != "" && precision <= |digits| && (digits[0] == '0' && |digits| > 1 ==> |digits| == precision)
  }

  /** Digits of the base, in the chosen case, that stand for `v`. */
  ghost predicate ReadAs(digits: string, base: nat, small: bool, v: int) {
    Over(digits, base, small) && DigitsOf(digits, base) && Value(digits, base) == v
  }

  lemma CharOver(c: char, base: nat, small: bool)
    requires base == 8 || base == 10 || base == 16
    requires 0 <= DigitValue(c) < base && c == DigitChar(DigitValue(c), small)
    ensures IsDigitOf(c, base, small)
  {
  }

  lemma CasedOver(t: string, base: nat, small: bool)
    requires base == 8 || base == 10 || base == 16
    requires DigitsOf(t, base) && Cased(t, small)
    ensures Over(t, base, small)
  {
    hide DigitValue, DigitChar, IsDigitOf;
    forall c | c in t
      ensures IsDigitOf(c, base, small)
    {
      CharOver(c, base, small);
    }
  }

  lemma ZerosCased(n: int, t: string, small: bool)
    requires Cased(t, small)
    ensures Cased(Repeat('0', n) + t, small)
  {
    assert DigitChar(DigitValue('0'), small) == '0';
    hide DigitChar, DigitValue;
    forall c | c in Repeat('0', n) + t && DigitValue(c) >= 0
      ensures c == DigitChar(DigitValue(c), small)
    {
      if c !in t {
        assert c == '0';
      }
    }
  }

  /** A numeral in front of which zeros are put, as many as the precision demands. */
  lemma ZerosInFront(m: nat, base: nat, small: bool, zeros: nat)
    requires base == 8 || base == 10 || base == 16
    ensures ReadAs(Repeat('0', zeros) + Numeral(m, base, small), base, small, m)
  {
    var n := Numeral(m, base, small);
    NumeralValue(m, base, small);
    NumeralDigits(m, base, small);
    ValueZeros(zeros, n, base);
    ZerosCased(zeros, n, small);
    CasedOver(Repeat('0', zeros) + n, base, small);
    hide Numeral, Value, DigitsOf, Over, Cased, Repeat;
  }

  lemma LongEnough(n: string, precision: int)
    requires n != "" && (n[0] == '0' ==> n == "0")
    ensures AsLong(Repeat('0', precision - |n|) + n, precision)
    ensures precision < |n| ==> Repeat('0', precision - |n|) == Repeat('0', 0)
  {
  }

  /** The digits printed: the number, in digits of the base and the chosen case. */
  lemma DigitsPrinted(num: uint64, base: nat, precision: int, f: Flags)
    requires base == 8 || base == 10 || base == 16
    ensures var t := NumeralText(num, base, precision, f);
            ReadAs(t, base, f.small, Magnitude(num, f)) && AsLong(t, precision)
  {
    var m := Magnitude(num, f);
    var n := Numeral(m, base, f.small);
    NumeralStart(m, base, f.small);
    LongEnough(n, precision);
    ZerosInFront(m, base, f.small, if precision < |n| then 0 else precision - |n|);
    hide Numeral, ReadAs, AsLong, Repeat, Magnitude;
  }

  predicate ForInteger(c: char) {
    c == 'd' || c == 'i' || c == 'u' || c == 'o' || c == 'x' || c == 'X'
  }

  predicate IsSigned(c: char) {
    c == 'd' || c == 'i'
  }

  /** The integer a directive prints. */
  function IntegerMeant(w: Written, args: Args, k: nat): int {
    var a := args(Converted(w, k));
    if IsSigned(w.conv) then Signed(a, w.qualifier) else Unsigned(a, w.qualifier)
  }

  function SignPrinted(v: int, signed: bool, plus: bool, space: bool): string {
    if v < 0 then "-" else if signed && plus then "+" else if signed && space then " " else ""
  }

  function PrefixPrinted(special: bool, c: char): string {
    if !special then "" else if c == 'o' then "0" else if c == 'x' then "0x" else if c == 'X' then "0X" else ""
  }

  /** What `%d`, `%i`, `%u`, `%o`, `%x` and `%X` print. */
  ghost predicate PrintedAs(text: string, digits: string, w: Written, args: Args, k: nat)
    requires Grammatical(w)
  {
    var v := IntegerMeant(w, args, k);
    var sign := SignPrinted(v, IsSigned(w.conv), Has(w.flags, '+'), Has(w.flags, ' '));
    && (w.conv == 'o' ==> ReadAs(digits, 8, false, v))
    && (w.conv == 'x' ==> ReadAs(digits, 16, true, v))
    && (w.conv == 'X' ==> ReadAs(digits, 16, false, v))
    && (w.conv == 'u' ==> ReadAs(digits, 10, false, v))
    && (IsSigned(w.conv) ==> ReadAs(digits, 10, false, if v < 0 then -v else v))
    && AsLong(digits, AskedPrecision(w, args, k))
    && text == Laid(sign + PrefixPrinted(Has(w.flags, '#'), w.conv), digits, AskedWidth(w, args, k), JustifiesLeft(w, args, k),
                    Has(w.flags, '0'))
  }

  /** Sign and magnitude of the integer the engine takes from an argument. */
  lemma IntegerIs(a: uint64, q: string, signed: bool, f: Flags)
    requires QualifierOk(q) && f.sign == signed
    ensures var (num, v) := (IntegerOf(a, Remembered(q), signed), if signed then Signed(a, q) else Unsigned(a, q));
            && Magnitude(num, f) == (if v < 0 then -v else v)
            && SignText(num, f) == SignPrinted(v, signed, f.plus, f.space)
  {
  }

  lemma NumberLaid(num: uint64, base: nat, width: int, precision: int, f: Flags)
    requires base == 8 || base == 10 || base == 16
    ensures NumberText(num, base, width, precision, f)
         == Laid(SignText(num, f) + PrefixText(base, f), NumeralText(num, base, precision, f), width, f.left, f.zeropad)
  {
    hide SignText, PrefixText, NumeralText, Repeat;
  }

  lemma BaseIs(c: char, d: Flags)
    requires ForInteger(c) && !d.small && !d.sign
    ensures Base(c) == if c == 'o' then 8 else if c == 'x' || c == 'X' then 16 else 10
    ensures IntegerFlags(c, d) == d.(small := c == 'x', sign := IsSigned(c))
    ensures PrefixText(Base(c), IntegerFlags(c, d)) == PrefixPrinted(d.special, c)
  {
  }

  lemma IntegerPrinted(w: Written, args: Args, k: nat, d: Directive)
    requires Grammatical(w) && ForInteger(w.conv) && d.flags == ParsedFlags(w, args, k)
    requires d.width == AskedWidth(w, args, k) && d.precision == AskedPrecision(w, args, k) && d.qualifier == Remembered(w.qualifier)
    ensures var (a, f) := (args(Converted(w, k)), IntegerFlags(w.conv, d.flags));
            PrintedAs(IntegerText(a, w.conv, d), NumeralText(IntegerOf(a, d.qualifier, f.sign), Base(w.conv), d.precision, f), w, args, k)
  {
    var (a, f) := (args(Converted(w, k)), IntegerFlags(w.conv, d.flags));
    assert QualifierOk(w.qualifier);
    hide ReadAs, AsLong, NumeralText, NumberText, Magnitude, SignText, PrefixText, IntegerOf, Grammatical;
    hide AskedWidth, AskedPrecision;
    hide Signed, Unsigned, Remembered, Laid, SignPrinted, PrefixPrinted, Base, IntegerFlags, Has, JustifiesLeft;
    hide Converted, QualifierOk;
    var num := IntegerOf(a, d.qualifier, f.sign);
    BaseIs(w.conv, d.flags);
    IntegerIs(a, w.qualifier, f.sign, f);
    DigitsPrinted(num, Base(w.conv), d.precision, f);
    NumberLaid(num, Base(w.conv), d.width, d.precision, f);
  }

  /** An integer directive, anywhere in a format, with the format going on behind it. */
  lemma IntegerPrints(fmt: string, i: nat, w: Written, args: Args, k: nat, mem: Strings) returns (text: string, digits: string)
    requires Grammatical(w) && ForInteger(w.conv) && Holds(fmt, i, Text(w))
    ensures PrintedAs(text, digits, w, args, k) && i + |Text(w)| <= |fmt|
    ensures Format(fmt, i, args, k, mem) == text + Format(fmt, i + |Text(w)|, args, Converted(w, k) + 1, mem)
  {
    hide Convert, Format, PrintedAs, Grammatical, Holds, Text, IntegerText, NumeralText, AskedWidth, AskedPrecision;
    hide ParsedFlags;
    hide Remembered, IntegerOf, IntegerFlags, Base, Converted;
    var d := Printed(fmt, i, w, args, k, mem);
    IntegerPrinted(w, args, k, d);
    ConvertsInteger(fmt, d, args, mem);
    text := IntegerText(args(d.arg), w.conv, d);
    var f := IntegerFlags(w.conv, d.flags);
    digits := NumeralText(IntegerOf(args(d.arg), d.qualifier, f.sign), Base(w.conv), d.precision, f);
  }

  // ---------------------------------------------------------------- the other conversions

  /** `%s`: the string, or "<NULL>", as much of it as the precision allows. */
  lemma StringPrints(fmt: string, i: nat, w: Written, args: Args, k: nat, mem: Strings)
    requires Grammatical(w) && w.conv == 's' && Holds(fmt, i, Text(w))
    ensures i + |Text(w)| <= |fmt|
    ensures var a := args(Converted(w, k));
            var s := if a == 0 then "<NULL>" else mem(a);
            var p := AskedPrecision(w, args, k);
            var shown := if p < 0 || |s| <= p then s else s[..p];
            Format(fmt, i, args, k, mem) == Laid("", shown, AskedWidth(w, args, k), JustifiesLeft(w, args, k), false)
                                            + Format(fmt, i + |Text(w)|, args, Converted(w, k) + 1, mem)
  {
    hide Convert, StringText, Laid, Has, Format, Grammatical, Holds, Text, Repeat, AskedPrecision, AskedWidth;
    var d := Printed(fmt, i, w, args, k, mem);
    ConvertsString(fmt, d, args, mem);
    var s := if args(d.arg) == 0 then "<NULL>" else mem(args(d.arg));
    StringLaid(s, d.width, d.precision, d.flags);
  }

  lemma StringLaid(s: string, width: int, p: int, f: Flags)
    ensures StringText(s, width, p, f) == Laid("", if p < 0 || |s| <= p then s else s[..p], width, f.left, false)
  {
    assert s[..|s|] == s;
    var shown := if p < 0 || |s| <= p then s else s[..p];
    assert "" + shown == shown && Repeat(' ', width - |shown|) + "" == Repeat(' ', width - |shown|);
  }

  /** `%c`: the low byte of the argument. */
  lemma CharPrints(fmt: string, i: nat, w: Written, args: Args, k: nat, mem: Strings)
    requires Grammatical(w) && w.conv == 'c' && Holds(fmt, i, Text(w))
    ensures i + |Text(w)| <= |fmt|
    ensures var c := (args(Converted(w, k)) as int % 256) as char;
            Format(fmt, i, args, k, mem) == Laid("", [c], AskedWidth(w, args, k), JustifiesLeft(w, args, k), false)
                                            + Format(fmt, i + |Text(w)|, args, Converted(w, k) + 1, mem)
  {
    hide Convert, CharText, Laid, Has, Format, Grammatical, Holds, Text, Repeat, AskedPrecision, AskedWidth;
    var d := Printed(fmt, i, w, args, k, mem);
    ConvertsChar(fmt, d, args, mem);
    CharLaid((args(d.arg) as int % 256) as char, d.width, d.flags);
  }

  lemma CharLaid(c: char, width: int, f: Flags)
    ensures CharText(c, width, f) == Laid("", [c], width, f.left, false)
  {
    assert "" + [c] == [c] && Repeat(' ', width - 1) + "" == Repeat(' ', width - 1);
  }

  /** Letters and digits, Latin-1 letters included. */
  predicate Alphanumeric(c: char) {
    || '0' <= c <= '9' || 'A' <= c <= 'Z' || 'a' <= c <= 'z'
    || 192 as char <= c <= 214 as char || 216 as char <= c <= 246 as char || 248 as char <= c <= 255 as char
  }

  lemma AlphanumericIs(c: char)
    ensures Alphanumeric(c) <==> IsAlnum(c)
  {
  }

  lemma {:induction false} SuffixEnds(fmt: string, i: nat, suffix: string)
    requires Holds(fmt, i, suffix) && (forall c | c in suffix :: Alphanumeric(c))
    requires i + |suffix| < |fmt| ==> !Alphanumeric(fmt[i + |suffix|])
    ensures AlnumEnd(fmt, i) == i + |suffix|
    decreases |suffix|
  {
    if suffix == "" {
      if i < |fmt| {
        AlphanumericIs(fmt[i]);
      }
    } else {
      HoldsAt(fmt, i, suffix, 0);
      assert suffix[0] in suffix && suffix == [suffix[0]] + suffix[1..];
      AlphanumericIs(suffix[0]);
      HoldsSplit(fmt, i, [suffix[0]], suffix[1..]);
      SuffixEnds(fmt, i + 1, suffix[1..]);
    }
  }

  /** `%p`: "(null)", or small hexadecimal digits, 16 of them when no width is given; letters and digits behind it are passed over. */
  lemma PointerPrints(fmt: string, i: nat, w: Written, suffix: string, args: Args, k: nat, mem: Strings)
      returns (text: string, digits: string)
    requires Grammatical(w) && w.conv == 'p' && Holds(fmt, i, Text(w)) && Holds(fmt, i + |Text(w)|, suffix)
    requires (forall c | c in suffix :: Alphanumeric(c))
    requires i + |Text(w)| + |suffix| < |fmt| ==> !Alphanumeric(fmt[i + |Text(w)| + |suffix|])
    ensures var (a, p, width) := (args(Converted(w, k)) as int, AskedPrecision(w, args, k), AskedWidth(w, args, k));
            if a == 0 then
              text == Laid("", if p < 0 || 6 <= p then "(null)" else "(null)"[..p], width, JustifiesLeft(w, args, k), false)
            else
              && ReadAs(digits, 16, true, a) && AsLong(digits, p)
              && text == Laid(if Has(w.flags, '#') then "0x" else "", digits, if width == -1 then 16 else width, JustifiesLeft(w, args, k),
                              width == -1 || Has(w.flags, '0'))
    ensures i + |Text(w)| + |suffix| <= |fmt|
    ensures Format(fmt, i, args, k, mem) == text + Format(fmt, i + |Text(w)| + |suffix|, args, Converted(w, k) + 1, mem)
  {
    hide Convert, Format, Grammatical, Holds, Text, AskedPrecision, AskedWidth, PointerText, NumeralText, AlnumEnd;
    hide Has, Laid;
    hide ReadAs, AsLong, Converted, Alphanumeric;
    var d := Printed(fmt, i, w, args, k, mem);
    SuffixEnds(fmt, i + |Text(w)|, suffix);
    var a := args(d.arg);
    if a == 0 {
      NullLaid(d.width, d.precision, d.flags);
    } else {
      AddressLaid(a, d.width, d.precision, d.flags);
    }
    ConvertsPointer(fmt, d, args, mem);
    text := PointerText(a, d.width, d.precision, d.flags);
    digits := NumeralText(a, 16, d.precision, d.flags.(small := true));
  }

  lemma NullLaid(width: int, p: int, f: Flags)
    ensures PointerText(0, width, p, f) == Laid("", if p < 0 || 6 <= p then "(null)" else "(null)"[..p], width, f.left, false)
  {
    StringLaid("(null)", width, p, f);
  }

  lemma AddressLaid(a: uint64, width: int, p: int, f: Flags)
    requires a != 0 && !f.sign
    ensures var digits := NumeralText(a, 16, p, f.(small := true));
            && ReadAs(digits, 16, true, a as int) && AsLong(digits, p)
            && PointerText(a, width, p, f)
               == Laid(if f.special then "0x" else "", digits, if width == -1 then 16 else width, f.left, width == -1 || f.zeropad)
  {
    var g := f.(small := true, zeropad := width == -1 || f.zeropad);
    assert NumeralText(a, 16, p, g) == NumeralText(a, 16, p, f.(small := true));
    hide NumberText, ReadAs, AsLong, Laid, StringText, NumeralText;
    DigitsPrinted(a, 16, p, f.(small := true));
    NumberLaid(a, 16, if width == -1 then 16 else width, p, g);
    assert "" + PrefixText(16, g) == PrefixText(16, g);
  }

  /** `%%` prints a percent sign and takes no argument; neither does an unknown character, printed behind a percent sign. */
  lemma OthersPrint(fmt: string, i: nat, w: Written, args: Args, k: nat, mem: Strings)
    requires Grammatical(w) && !ForInteger(w.conv) && w.conv != 'c' && w.conv != 's' && w.conv != 'p' && w.conv != 'n' && Holds(fmt, i, Text(w))
    ensures i + |Text(w)| <= |fmt|
    ensures Format(fmt, i, args, k, mem)
            == (if w.conv == '%' then "%" else ['%', w.conv]) + Format(fmt, i + |Text(w)|, args, Converted(w, k), mem)
  {
    assert w.conv != '\0';
    hide Convert, Format, Holds, Text, AskedPrecision, AskedWidth, Grammatical;
    var d := Printed(fmt, i, w, args, k, mem);
    ConvertsOther(fmt, d, args, mem);
  }

  /** `%n` prints nothing, and takes an argument. */
  lemma StorePrints(fmt: string, i: nat, w: Written, args: Args, k: nat, mem: Strings)
    requires Grammatical(w) && w.conv == 'n' && Holds(fmt, i, Text(w))
    ensures i + |Text(w)| <= |fmt|
    ensures Format(fmt, i, args, k, mem) == Format(fmt, i + |Text(w)|, args, Converted(w, k) + 1, mem)
  {
    hide Convert, Format, Holds, Text, AskedPrecision, AskedWidth, Grammatical;
    var d := Printed(fmt, i, w, args, k, mem);
    ConvertsOther(fmt, d, args, mem);
    var rest := Format(fmt, i + |Text(w)|, args, Converted(w, k) + 1, mem);
    assert "" + rest == rest;
  }

  /** Everything but directives is printed as it stands, up to the end of the format. */
  lemma PlainPrints(fmt: string, i: nat, args: Args, k: nat, mem: Strings)
    requires i <= |fmt|
    ensures i == |fmt| || fmt[i] == '\0' ==> Format(fmt, i, args, k, mem) == ""
    ensures i < |fmt| && fmt[i] != '\0' && fmt[i] != '%' ==>
              Format(fmt, i, args, k, mem) == [fmt[i]] + Format(fmt, i + 1, args, k, mem)
  {
  }

  /** A lone percent sign at the end is printed. */
  lemma PercentEnds(fmt: string, i: nat, args: Args, k: nat, mem: Strings)
    requires i < |fmt| && fmt[i] == '%' && (i + 1 == |fmt| || fmt[i + 1] == '\0')
    ensures Format(fmt, i, args, k, mem) == "%"
  {
    FormatStep(fmt, i, args, k, mem);
    FormatEnds(fmt, i + 1, args, k, mem);
  }

  /** A format that is one integer directive: this is all that is printed. */
  lemma OneInteger(w: Written, args: Args, mem: Strings) returns (text: string, digits: string)
    requires Grammatical(w) && ForInteger(w.conv)
    ensures Format(Text(w), 0, args, 0, mem) == text && PrintedAs(text, digits, w, args, 0)
  {
    assert Text(w)[0..|Text(w)|] == Text(w);
    text, digits := IntegerPrints(Text(w), 0, w, args, 0, mem);
    FormatEnds(Text(w), |Text(w)|, args, Converted(w, 0) + 1, mem);
    hide Text, Grammatical, PrintedAs, Format;
    assert text + "" == text;
  }
}
