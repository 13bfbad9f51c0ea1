/** The directive parser against the grammar: every directive that can be written down is read as written. */
module Directives {
  import opened Machine
  import opened Digits
  import opened Number
  import opened Strtoul
  import opened Printf

  function FlagsOf(cs: string, f: Flags): Flags {
    if cs == "" then f else FlagsOf(cs[1..], WithFlag(f, cs[0]))
  }

  /** A field width: none, digits, or taken from the arguments. */
  datatype Width = NoWidth | Columns(digits: string) | WidthArgument

  /** A precision: none, a dot and any digits, or taken from the arguments. */
  datatype Precision = NoPrecision | Places(digits: string) | PrecisionArgument

  /** A directive as it is written down: flags in any order and number, the rest in this order. */
  datatype Written = Written(flags: string, width: Width, precision: Precision, qualifier: string, conv: char)

  function WidthText(w: Width): string {
    match w
    case NoWidth => ""
    case Columns(t) => t
    case WidthArgument => "*"
  }

  function PrecisionText(p: Precision): string {
    match p
    case NoPrecision => ""
    case Places(t) => "." + t
    case PrecisionArgument => ".*"
  }

  function Text(w: Written): string {
    "%" + (w.flags + (WidthText(w.width) + (PrecisionText(w.precision) + (w.qualifier + [w.conv]))))
  }

  /** Any character that cannot be taken for a part of the directive in front of it, known to the engine or not. */
  predicate IsConversion(c: char) {
    && c != '\0' && !FlagChar(c) && !('0' <= c <= '9') && c != '.' && c != '*'
    && c != 'h' && c != 'l' && c != 'L' && c != 'Z' && c != 'z' && c != 't'
  }

  predicate FlagChar(c: char) {
    c == '-' || c == '+' || c == ' ' || c == '#' || c == '0'
  }

  predicate QualifierOk(text: string) {
    || text == "" || text == "h" || text == "l" || text == "ll" || text == "L"
    || text == "Z" || text == "z" || text == "t"
  }

  /** The two's complement value of a number below `range`, a power of two. */
  function Twos(v: nat, range: nat): int {
    if 2 * v >= range then v - range else v
  }

  /** The C int in an argument. */
  function IntArgument(a: uint64): int {
    Twos(a as int % 0x1_0000_0000, 0x1_0000_0000)
  }

  /** A leading zero of a width would be a flag. */
  ghost predicate Grammatical(w: Written) {
    && (forall c | c in w.flags :: FlagChar(c)) && QualifierOk(w.qualifier) && IsConversion(w.conv)
    && (w.width.Columns? ==> w.width.digits != "" && w.width.digits[0] != '0' && DigitsOf(w.width.digits, 10))
    && (w.precision.Places? ==> DigitsOf(w.precision.digits, 10))
  }

  /** The width a directive asks for, in the flags and the argument count as well: a negative one justifies left. */
  ghost function WithWidth(d: Directive, w: Width, args: Args): Directive
    requires w.Columns? ==> DigitsOf(w.digits, 10)
  {
    match w
    case NoWidth => d
    case Columns(t) => d.(width := Value(t, 10))
    case WidthArgument =>
      var n := IntArgument(args(d.arg));
      d.(width := Max(n, -n), flags := if n < 0 then d.flags.(left := true) else d.flags, arg := d.arg + 1)
  }

  /** The precision: a dot alone means zero, and so does a negative argument. */
  ghost function WithPrecision(d: Directive, p: Precision, args: Args): Directive
    requires p.Places? ==> DigitsOf(p.digits, 10)
  {
    match p
    case NoPrecision => d
    case Places(t) => d.(precision := Value(t, 10))
    case PrecisionArgument => d.(precision := Max(0, IntArgument(args(d.arg))), arg := d.arg + 1)
  }

  /** The character a length qualifier is remembered by. */
  function Remembered(text: string): char {
    if text == "" then '\0' else if text == "ll" then 'L' else text[0]
  }

  lemma {:induction false} FlagsRun(fmt: string, i: nat, cs: string, f: Flags)
    requires i + |cs| <= |fmt| && fmt[i..i + |cs|] == cs && (forall c | c in cs :: IsFlag(c))
    requires !IsFlag(At(fmt, i + |cs|))
    ensures FlagsAt(fmt, i, f) == (i + |cs|, FlagsOf(cs, f))
    decreases |cs|
  {
    if cs != "" {
      assert fmt[i] == cs[0] && cs[0] in cs;
      assert fmt[i + 1..i + |cs|] == cs[1..];
      FlagsRun(fmt, i + 1, cs[1..], WithFlag(f, cs[0]));
    }
  }

  lemma {:induction false} AtoiRun(fmt: string, i: nat, done: string, t: string)
    requires i + |t| <= |fmt| && fmt[i..i + |t|] == t && DigitsOf(t, 10) && DigitsOf(done, 10)
    requires !IsDigit(At(fmt, i + |t|))
    ensures DigitsOf(done + t, 10) && Atoi(fmt, i, Value(done, 10)) == (i + |t|, Value(done + t, 10))
    decreases |t|
  {
    if t == "" {
      assert done + t == done;
    } else {
      var c := t[0];
      assert fmt[i] == c && c in t;
      assert fmt[i + 1..i + |t|] == t[1..];
      ValueAppend(done, c, 10);
      AtoiRun(fmt, i + 1, done + [c], t[1..]);
      assert done + [c] + t[1..] == done + t;
    }
  }

  lemma AtoiReads(fmt: string, i: nat, t: string)
    requires t != "" && DigitsOf(t, 10) && i + |t| <= |fmt| && fmt[i..i + |t|] == t && !IsDigit(At(fmt, i + |t|))
    ensures IsDigit(At(fmt, i)) && Atoi(fmt, i, 0) == (i + |t|, Value(t, 10))
  {
    assert t[0] in t && fmt[i] == t[0];
    AtoiRun(fmt, i, "", t);
    assert "" + t == t;
  }

  /** `w` stands in `fmt` from `i` on. */
  ghost predicate Holds(fmt: string, i: nat, w: string) {
    i + |w| <= |fmt| && fmt[i..i + |w|] == w
  }

  lemma HoldsSplit(fmt: string, i: nat, a: string, b: string)
    requires Holds(fmt, i, a + b)
    ensures Holds(fmt, i, a) && Holds(fmt, i + |a|, b)
    ensures b != "" ==> At(fmt, i + |a|) == b[0]
  {
    assert fmt[i..i + |a|] == fmt[i..i + |a + b|][..|a|];
    assert fmt[i + |a|..i + |a + b|] == fmt[i..i + |a + b|][|a|..];
  }

  lemma HoldsAt(fmt: string, i: nat, w: string, j: nat)
    requires Holds(fmt, i, w) && j < |w|
    ensures At(fmt, i + j) == w[j]
  {
    assert fmt[i..i + |w|][j] == w[j];
  }

  lemma WidthReads(fmt: string, d: Directive, w: Width, rest: string, args: Args)
    requires Holds(fmt, d.at, WidthText(w) + rest) && (w.Columns? ==> w.digits != "" && DigitsOf(w.digits, 10))
    requires rest != "" && !IsDigit(rest[0]) && rest[0] != '*'
    ensures WidthAt(fmt, d, args) == WithWidth(d, w, args).(at := d.at + |WidthText(w)|)
  {
    hide Value, Atoi, DigitsOf, Holds, At;
    HoldsSplit(fmt, d.at, WidthText(w), rest);
    match w
    case NoWidth =>
    case Columns(t) => AtoiReadsHeld(fmt, d.at, t);
    case WidthArgument => HoldsAt(fmt, d.at, "*", 0);
  }

  lemma AtoiReadsHeld(fmt: string, i: nat, t: string)
    requires t != "" && DigitsOf(t, 10) && Holds(fmt, i, t) && !IsDigit(At(fmt, i + |t|))
    ensures IsDigit(At(fmt, i)) && i + |t| <= |fmt| && Atoi(fmt, i, 0) == (i + |t|, Value(t, 10))
  {
    AtoiReads(fmt, i, t);
  }

  lemma PlacesRead(fmt: string, d: Directive, t: string, next: char, args: Args)
    requires Holds(fmt, d.at, "." + t) && DigitsOf(t, 10) && At(fmt, d.at + 1 + |t|) == next && !IsDigit(next) && next != '*'
    ensures PrecisionAt(fmt, d, args) == d.(at := d.at + 1 + |t|, precision := Value(t, 10))
  {
    hide Value, Atoi, DigitsOf, Holds, At, PrecisionAt;
    HoldsSplit(fmt, d.at, ".", t);
    HoldsAt(fmt, d.at, ".", 0);
    var at := d.at + 1;
    if t != "" {
      AtoiReadsHeld(fmt, at, t);
      PlacesGiven(fmt, d, args);
    } else {
      NoPlaces(fmt, d, args);
    }
  }

  lemma PlacesGiven(fmt: string, d: Directive, args: Args)
    requires d.at < |fmt| && At(fmt, d.at) == '.' && IsDigit(At(fmt, d.at + 1))
    ensures var (i, n) := Atoi(fmt, d.at + 1, 0); PrecisionAt(fmt, d, args) == d.(at := i, precision := n)
  {
  }

  lemma NoPlaces(fmt: string, d: Directive, args: Args)
    requires d.at < |fmt| && At(fmt, d.at) == '.' && !IsDigit(At(fmt, d.at + 1)) && At(fmt, d.at + 1) != '*'
    ensures PrecisionAt(fmt, d, args) == d.(at := d.at + 1, precision := 0) && Value("", 10) == 0
  {
  }

  lemma PrecisionReads(fmt: string, d: Directive, p: Precision, rest: string, args: Args)
    requires Holds(fmt, d.at, PrecisionText(p) + rest) && (p.Places? ==> DigitsOf(p.digits, 10))
    requires rest != "" && !IsDigit(rest[0]) && rest[0] != '.' && rest[0] != '*'
    ensures PrecisionAt(fmt, d, args) == WithPrecision(d, p, args).(at := d.at + |PrecisionText(p)|)
  {
    hide Value, Atoi, DigitsOf, Holds, At;
    HoldsSplit(fmt, d.at, PrecisionText(p), rest);
    match p
    case NoPrecision =>
    case Places(t) => PlacesRead(fmt, d, t, rest[0], args);
    case PrecisionArgument =>
      HoldsAt(fmt, d.at, ".*", 0);
      HoldsAt(fmt, d.at, ".*", 1);
  }

  lemma QualifierReads(fmt: string, d: Directive, text: string, conv: char)
    requires Holds(fmt, d.at, text + [conv]) && QualifierOk(text) && IsConversion(conv) && d.qualifier == '\0'
    ensures QualifierAt(fmt, d) == d.(at := d.at + |text|, qualifier := Remembered(text))
  {
    HoldsSplit(fmt, d.at, text, [conv]);
    if text != "" {
      assert fmt[d.at..d.at + |text|][0] == text[0];
      if |text| == 2 {
        assert fmt[d.at..d.at + |text|][1] == text[1];
      }
    }
  }

  /** First characters: what follows a part never looks like its continuation. */
  lemma Separated(w: Written)
    requires Grammatical(w)
    ensures var r3 := w.qualifier + [w.conv];
            var r2 := PrecisionText(w.precision) + r3;
            var r1 := WidthText(w.width) + r2;
            && !IsDigit(r3[0]) && r3[0] != '.' && r3[0] != '*' && !IsDigit(r2[0]) && r2[0] != '*' && !IsFlag(r1[0])
  {
    var r3 := w.qualifier + [w.conv];
    var r2 := PrecisionText(w.precision) + r3;
    assert r3[0] == (if w.qualifier == "" then w.conv else w.qualifier[0]);
    assert r2[0] == (if w.precision.NoPrecision? then r3[0] else '.');
    if w.width.Columns? {
      assert w.width.digits[0] in w.width.digits;
      assert (WidthText(w.width) + r2)[0] == w.width.digits[0];
    }
  }

  lemma BehindFlags(fmt: string, d: Directive, w: Written, args: Args)
    requires Grammatical(w) && d.at <= |fmt| && d.qualifier == '\0'
    requires Holds(fmt, d.at, WidthText(w.width) + (PrecisionText(w.precision) + (w.qualifier + [w.conv])))
    ensures QualifierAt(fmt, PrecisionAt(fmt, WidthAt(fmt, d, args), args))
         == WithPrecision(WithWidth(d, w.width, args), w.precision, args).(
              qualifier := Remembered(w.qualifier),
              at := d.at + |WidthText(w.width)| + |PrecisionText(w.precision)| + |w.qualifier|)
  {
    hide Holds, WidthAt, PrecisionAt, QualifierAt, IsConversion, QualifierOk, DigitsOf, Value, WidthText, PrecisionText;
    var r3 := w.qualifier + [w.conv];
    var r2 := PrecisionText(w.precision) + r3;
    Separated(w);
    WidthReads(fmt, d, w.width, r2, args);
    HoldsSplit(fmt, d.at, WidthText(w.width), r2);
    var d1 := WithWidth(d, w.width, args).(at := d.at + |WidthText(w.width)|);
    PrecisionReads(fmt, d1, w.precision, r3, args);
    HoldsSplit(fmt, d1.at, PrecisionText(w.precision), r3);
    var d2 := WithPrecision(d1, w.precision, args).(at := d1.at + |PrecisionText(w.precision)|);
    QualifierReads(fmt, d2, w.qualifier, w.conv);
  }

  lemma FlagsThenRest(fmt: string, i: nat, cs: string, rest: string)
    requires Holds(fmt, i, "%" + (cs + rest)) && rest != "" && !IsFlag(rest[0])
    requires forall c | c in cs :: IsFlag(c)
    ensures i + 1 + |cs| + |rest| <= |fmt| && Holds(fmt, i + 1 + |cs|, rest)
    ensures FlagsAt(fmt, i + 1, NO_FLAGS) == (i + 1 + |cs|, FlagsOf(cs, NO_FLAGS))
  {
    HoldsSplit(fmt, i, "%", cs + rest);
    HoldsSplit(fmt, i + 1, cs, rest);
    FlagsRun(fmt, i + 1, cs, NO_FLAGS);
  }

  /** Every directive of the grammar, anywhere in a format, is read as it is written. */
  lemma DirectiveReads(fmt: string, i: nat, w: Written, args: Args, k: nat)
    requires Grammatical(w) && Holds(fmt, i, Text(w))
    ensures i < |fmt|
    ensures DirectiveAt(fmt, i, args, k)
         == WithPrecision(WithWidth(Directive(FlagsOf(w.flags, NO_FLAGS), -1, -1, '\0', i, k), w.width, args), w.precision, args).(
              qualifier := Remembered(w.qualifier), at := i + |Text(w)| - 1)
  {
    hide Holds, FlagsAt, WidthAt, PrecisionAt, QualifierAt, FlagsOf, IsConversion, QualifierOk, DigitsOf, Value;
    hide WidthText, PrecisionText;
    Separated(w);
    FlagsThenRest(fmt, i, w.flags, WidthText(w.width) + (PrecisionText(w.precision) + (w.qualifier + [w.conv])));
    BehindFlags(fmt, Directive(FlagsOf(w.flags, NO_FLAGS), -1, -1, '\0', i + 1 + |w.flags|, k), w, args);
  }
}
