/** The printf engine: format directives, their arguments, and output cut off at the end of the buffer. */
module Printf {
  import opened Machine
  import opened Emit
  import opened Number
  import opened Strtoul

  /** Variadic arguments as the 64-bit slots `va_arg` reads one after the other. */
  type Args = nat -> uint64

  /** The C strings in memory, by address. */
  type Strings = uint64 -> string

  /** A conversion specification; its conversion character is at `at`, the next argument is `arg`. */
  datatype Directive = Directive(flags: Flags, width: int, precision: int, qualifier: char, at: nat, arg: nat)

  // ---------------------------------------------------------------- parsing a directive

  function Signed32(w: uint64): int {
    var v := w as int % 0x1_0000_0000;
    if v >= 0x8000_0000 then v - 0x1_0000_0000 else v
  }

  function WithFlag(f: Flags, c: char): Flags {
    match c
    case '-' => f.(left := true)
    case '+' => f.(plus := true)
    case ' ' => f.(space := true)
    case '#' => f.(special := true)
    case _ => f.(zeropad := true)
  }

  predicate IsFlag(c: char) {
    c == '-' || c == '+' || c == ' ' || c == '#' || c == '0'
  }

  predicate IsDigit(c: char) {
    '0' <= c <= '9'
  }

  function FlagsAt(fmt: string, i: nat, f: Flags): (r: (nat, Flags))
    requires i <= |fmt|
    ensures i <= r.0 <= |fmt|
    decreases |fmt| - i
  {
    if IsFlag(At(fmt, i)) then FlagsAt(fmt, i + 1, WithFlag(f, fmt[i])) else (i, f)
  }

  function Atoi(fmt: string, i: nat, acc: nat): (r: (nat, nat))
    requires i <= |fmt|
    ensures i <= r.0 <= |fmt|
    decreases |fmt| - i
  {
    if IsDigit(At(fmt, i)) then Atoi(fmt, i + 1, acc * 10 + (fmt[i] as int - '0' as int)) else (i, acc)
  }

  /** Field width; a negative `*` argument means left justification. */
  function WidthAt(fmt: string, d: Directive, args: Args): (r: Directive)
    requires d.at <= |fmt|
    ensures d.at <= r.at <= |fmt|
  {
    if IsDigit(At(fmt, d.at)) then
      var (i, n) := Atoi(fmt, d.at, 0);
      d.(at := i, width := n)
    else if At(fmt, d.at) == '*' then
      var n := Signed32(args(d.arg));
      var e := d.(at := d.at + 1, arg := d.arg + 1);
      if n < 0 then e.(width := -n, flags := d.flags.(left := true)) else e.(width := n)
    else d
  }

  function PrecisionAt(fmt: string, d: Directive, args: Args): (r: Directive)
    requires d.at <= |fmt|
    ensures d.at <= r.at <= |fmt|
  {
    if At(fmt, d.at) != '.' then d
    else if IsDigit(At(fmt, d.at + 1)) then
      var (i, n) := Atoi(fmt, d.at + 1, 0);
      d.(at := i, precision := n)
    else if At(fmt, d.at + 1) == '*' then
      d.(at := d.at + 2, precision := Max(0, Signed32(args(d.arg))), arg := d.arg + 1)
    else d.(at := d.at + 1, precision := 0)
  }

  predicate IsQualifier(c: char) {
    c == 'h' || c == 'l' || c == 'L' || c == 'Z' || c == 'z' || c == 't'
  }

  function QualifierAt(fmt: string, d: Directive): (r: Directive)
    requires d.at <= |fmt|
    ensures d.at <= r.at <= |fmt|
  {
    var c := At(fmt, d.at);
    if !IsQualifier(c) then d
    else if c == 'l' && At(fmt, d.at + 1) == 'l' then d.(at := d.at + 2, qualifier := 'L')
    else d.(at := d.at + 1, qualifier := c)
  }

  /** The directive whose '%' is at `i`. */
  function DirectiveAt(fmt: string, i: nat, args: Args, k: nat): (d: Directive)
    requires i < |fmt|
    ensures i < d.at <= |fmt|
  {
    var (j, f) := FlagsAt(fmt, i + 1, NO_FLAGS);
    QualifierAt(fmt, PrecisionAt(fmt, WidthAt(fmt, Directive(f, -1, -1, '\0', j, k), args), args))
  }

  // ---------------------------------------------------------------- what a directive prints

  function CharText(c: char, width: int, f: Flags): string {
    if f.left then [c] + Repeat(' ', width - 1) else Repeat(' ', width - 1) + [c]
  }

  /** `strnlen` */
  function Shown(s: string, precision: int): (n: nat)
    ensures n <= |s|
  {
    if 0 <= precision < |s| then precision else |s|
  }

  function StringText(s: string, width: int, precision: int, f: Flags): string {
    var t := s[..Shown(s, precision)];
    if f.left then t + Repeat(' ', width - |t|) else Repeat(' ', width - |t|) + t
  }

  function PointerText(p: uint64, width: int, precision: int, f: Flags): string {
    if p == 0 then StringText("(null)", width, precision, f)
    else if width == -1 then NumberText(p, 16, 16, precision, f.(small := true, zeropad := true))
    else NumberText(p, 16, width, precision, f.(small := true))
  }

  /** `isalnum`, by the table of the kernel's `ctype.c`. */
  predicate IsAlnum(c: char) {
    || '0' <= c <= '9' || 'A' <= c <= 'Z' || 'a' <= c <= 'z'
    || (192 as char <= c <= 255 as char && c != 215 as char && c != 247 as char)
  }

  function AlnumEnd(fmt: string, i: nat): (j: nat)
    requires i <= |fmt|
    ensures i <= j <= |fmt|
    decreases |fmt| - i
  {
    if i < |fmt| && IsAlnum(fmt[i]) then AlnumEnd(fmt, i + 1) else i
  }

  function SignExtend(v: int, bits: int): uint64
    requires bits == 0x1_0000 || bits == 0x1_0000_0000
    requires 0 <= v < bits
  {
    if v >= bits / 2 then (v + 0x1_0000_0000_0000_0000 - bits) as uint64 else v as uint64
  }

  /** The integer a slot holds for the given length qualifier. */
  function IntegerOf(w: uint64, qualifier: char, signed: bool): uint64 {
    if qualifier == 'L' || qualifier == 'l' || qualifier == 'Z' || qualifier == 'z' || qualifier == 't' then w
    else if qualifier == 'h' then
      var v := w as int % 0x1_0000;
      if signed then SignExtend(v, 0x1_0000) else v as uint64
    else
      var v := w as int % 0x1_0000_0000;
      if signed then SignExtend(v, 0x1_0000_0000) else v as uint64
  }

  predicate IsInteger(c: char) {
    c == 'o' || c == 'x' || c == 'X' || c == 'd' || c == 'i' || c == 'u'
  }

  function Base(c: char): (b: nat)
    ensures b == 8 || b == 10 || b == 16
  {
    if c == 'o' then 8 else if c == 'x' || c == 'X' then 16 else 10
  }

  function IntegerFlags(c: char, f: Flags): Flags {
    if c == 'x' then f.(small := true) else if c == 'd' || c == 'i' then f.(sign := true) else f
  }

  function IntegerText(w: uint64, c: char, d: Directive): string {
    var f := IntegerFlags(c, d.flags);
    NumberText(IntegerOf(w, d.qualifier, f.sign), Base(c), d.width, d.precision, f)
  }

  /** What one directive prints, where the format goes on, and the next argument. */
  datatype Conversion = Conversion(text: string, resume: nat, arg: nat)

  function Convert(fmt: string, d: Directive, args: Args, mem: Strings): (r: Conversion)
    requires d.at <= |fmt|
    ensures d.at <= r.resume <= |fmt|
  {
    var c, w := At(fmt, d.at), args(d.arg);
    if c == '\0' then Conversion("%", d.at, d.arg)
    else if c == 'c' then Conversion(CharText((w as int % 256) as char, d.width, d.flags), d.at + 1, d.arg + 1)
    else if c == 's' then
      Conversion(StringText(if w == 0 then "<NULL>" else mem(w), d.width, d.precision, d.flags), d.at + 1, d.arg + 1)
    else if c == 'p' then
      Conversion(PointerText(w, d.width, d.precision, d.flags), AlnumEnd(fmt, d.at + 1), d.arg + 1)
    else if c == 'n' then Conversion("", d.at + 1, d.arg + 1)
    else if c == '%' then Conversion("%", d.at + 1, d.arg)
    else if IsInteger(c) then Conversion(IntegerText(w, c, d), d.at + 1, d.arg + 1)
    else Conversion("%" + [c], d.at + 1, d.arg)
  }

  /** The whole, untruncated output from position `i` of the format on. */
  function Format(fmt: string, i: nat, args: Args, k: nat, mem: Strings): string
    requires i <= |fmt|
    decreases |fmt| - i
  {
    if At(fmt, i) == '\0' then ""
    else if fmt[i] != '%' then [fmt[i]] + Format(fmt, i + 1, args, k, mem)
    else
      var c := Convert(fmt, DirectiveAt(fmt, i, args, k), args, mem);
      c.text + Format(fmt, c.resume, args, c.arg, mem)
  }

  // ---------------------------------------------------------------- the parsing loops

  /** `skip_atoi` */
  method SkipAtoi(fmt: string, i: nat) returns (j: nat, n: nat)
    requires i <= |fmt|
    ensures (j, n) == Atoi(fmt, i, 0)
  {
    j, n := i, 0;
    while IsDigit(At(fmt, j))
      invariant i <= j <= |fmt| && Atoi(fmt, j, n) == Atoi(fmt, i, 0)
      decreases |fmt| - j
    {
      n := n * 10 + (fmt[j] as int - '0' as int);
      j := j + 1;
    }
  }

  /** The flag characters behind a '%'. */
  method ParseFlags(fmt: string, i: nat) returns (j: nat, f: Flags)
    requires i < |fmt|
    ensures (j, f) == FlagsAt(fmt, i + 1, NO_FLAGS)
  {
    j, f := i + 1, NO_FLAGS;
    while IsFlag(At(fmt, j))
      invariant i < j <= |fmt| && FlagsAt(fmt, j, f) == FlagsAt(fmt, i + 1, NO_FLAGS)
      decreases |fmt| - j
    {
      f := WithFlag(f, fmt[j]);
      j := j + 1;
    }
  }

  method ParseWidth(fmt: string, d: Directive, args: Args) returns (r: Directive)
    requires d.at <= |fmt|
    ensures r == WidthAt(fmt, d, args)
  {
    r := d;
    if IsDigit(At(fmt, d.at)) {
      var j, n := SkipAtoi(fmt, d.at);
      r := d.(at := j, width := n);
    } else if At(fmt, d.at) == '*' {
      var n := Signed32(args(d.arg));
      r := d.(at := d.at + 1, arg := d.arg + 1, width := n);
      if n < 0 {
        r := r.(width := -n, flags := d.flags.(left := true));
      }
    }
  }

  method ParsePrecision(fmt: string, d: Directive, args: Args) returns (r: Directive)
    requires d.at <= |fmt|
    ensures r == PrecisionAt(fmt, d, args)
  {
    r := d;
    if At(fmt, d.at) == '.' {
      var j, precision, arg := d.at + 1, d.precision, d.arg;
      if IsDigit(At(fmt, j)) {
        j, precision := SkipAtoi(fmt, j);
      } else {
        precision := -1;
        if At(fmt, j) == '*' {
          j := j + 1;
          precision := Signed32(args(arg));
          arg := arg + 1;
        }
      }
      if precision < 0 {
        precision := 0;
      }
      r := d.(at := j, precision := precision, arg := arg);
    }
  }

  /** From the '%' to the conversion character. */
  method ParseDirective(fmt: string, i: nat, args: Args, k: nat) returns (d: Directive)
    requires i < |fmt|
    ensures d == DirectiveAt(fmt, i, args, k)
  {
    var j, f := ParseFlags(fmt, i);
    d := ParseWidth(fmt, Directive(f, -1, -1, '\0', j, k), args);
    d := ParsePrecision(fmt, d, args);
    d := QualifierAt(fmt, d);
  }

  // ---------------------------------------------------------------- the emitting loops

  /** The `%c` case: two loops on the same counter, of which only one finds anything left. */
  method EmitChar(buf: array<char>, end: nat, pos: nat, c: char, width: int, f: Flags) returns (next: nat)
    requires end <= buf.Length
    modifies buf
    ensures buf[..] == Put(old(buf[..]), end, pos, CharText(c, width, f)) && next == pos + |CharText(c, width, f)|
  {
    hide Put, Repeat;
    ghost var s := buf[..];
    var w := width - 1;
    next := pos;
    ghost var lead := "";
    PutNothing(s, end, pos);
    if !f.left {
      lead := Repeat(' ', w);
      next, w := Fill(buf, end, next, ' ', w);
    }
    PutAppend(s, end, pos, lead, [c]);
    next := AddCh(buf, end, next, c);
    PutAppend(s, end, pos, lead + [c], Repeat(' ', w));
    if !f.left {
      RepeatNone(' ', w);
      assert lead + [c] + Repeat(' ', w) == lead + [c];
    } else {
      assert lead + [c] == [c];
    }
    next, w := Fill(buf, end, next, ' ', w);
  }

  /** `string` */
  method EmitString(buf: array<char>, end: nat, pos: nat, text: string, width: int, precision: int, f: Flags)
    returns (next: nat)
    requires end <= buf.Length
    modifies buf
    ensures buf[..] == Put(old(buf[..]), end, pos, StringText(text, width, precision, f))
    ensures next == pos + |StringText(text, width, precision, f)|
  {
    hide Put, Repeat;
    ghost var s := buf[..];
    var len := Shown(text, precision);
    var left := width - len;
    next := pos;
    ghost var lead := "";
    PutNothing(s, end, pos);
    if !f.left {
      lead := Repeat(' ', left);
      next, left := Fill(buf, end, next, ' ', left);
    }
    var i := 0;
    assert lead + text[..0] == lead;
    while i < len
      invariant 0 <= i <= len && buf[..] == Put(s, end, pos, lead + text[..i]) && next == pos + |lead| + i
    {
      PutAppend(s, end, pos, lead + text[..i], [text[i]]);
      assert lead + text[..i] + [text[i]] == lead + text[..i + 1];
      next := AddCh(buf, end, next, text[i]);
      i := i + 1;
    }
    PutAppend(s, end, pos, lead + text[..len], Repeat(' ', left));
    if !f.left {
      RepeatNone(' ', left);
      assert lead + text[..len] + Repeat(' ', left) == lead + text[..len];
    } else {
      assert lead + text[..len] == text[..len];
    }
    next, left := Fill(buf, end, next, ' ', left);
  }

  /** `pointer` */
  method EmitPointer(buf: array<char>, end: nat, pos: nat, p: uint64, width: int, precision: int, f: Flags)
    returns (next: nat)
    requires end <= buf.Length
    modifies buf
    ensures buf[..] == Put(old(buf[..]), end, pos, PointerText(p, width, precision, f))
    ensures next == pos + |PointerText(p, width, precision, f)|
  {
    if p == 0 {
      next := EmitString(buf, end, pos, "(null)", width, precision, f);
      return;
    }
    var flags, w := f.(small := true), width;
    if w == -1 {
      w := 16;
      flags := flags.(zeropad := true);
    }
    next := EmitNumber(buf, end, pos, p, 16, w, precision, flags);
  }

  /** One conversion: the `switch` on the conversion character. */
  method EmitConversion(buf: array<char>, end: nat, pos: nat, fmt: string, d: Directive, args: Args, mem: Strings)
    returns (next: nat, resume: nat, arg: nat)
    requires end <= buf.Length && d.at <= |fmt|
    modifies buf
    ensures var c := Convert(fmt, d, args, mem);
            && buf[..] == Put(old(buf[..]), end, pos, c.text) && next == pos + |c.text|
            && resume == c.resume && arg == c.arg
  {
    hide Put, NumberText, StringText, CharText, PointerText;
    var c := At(fmt, d.at);
    next, resume, arg := pos, d.at + 1, d.arg + 1;
    if c == 'c' {
      next := EmitChar(buf, end, pos, (args(d.arg) as int % 256) as char, d.width, d.flags);
    } else if c == 's' {
      var s := if args(d.arg) == 0 then "<NULL>" else mem(args(d.arg));
      next := EmitString(buf, end, pos, s, d.width, d.precision, d.flags);
    } else if c == 'p' {
      next := EmitPointer(buf, end, pos, args(d.arg), d.width, d.precision, d.flags);
      while resume < |fmt| && IsAlnum(fmt[resume])
        invariant d.at + 1 <= resume <= |fmt| && AlnumEnd(fmt, resume) == AlnumEnd(fmt, d.at + 1)
      {
        resume := resume + 1;
      }
    } else if c == 'n' {
      PutNothing(buf[..], end, pos);
    } else if c == '%' {
      next := AddCh(buf, end, pos, '%');
      arg := d.arg;
    } else if IsInteger(c) {
      var f := IntegerFlags(c, d.flags);
      var num := IntegerOf(args(d.arg), d.qualifier, f.sign);
      next := EmitNumber(buf, end, pos, num, Base(c), d.width, d.precision, f);
    } else {
      PutAppend(buf[..], end, pos, "%", [c]);
      next := AddCh(buf, end, pos, '%');
      arg := d.arg;
      if c != '\0' {
        next := AddCh(buf, end, next, c);
      } else {
        resume := d.at;
      }
    }
  }

  // ---------------------------------------------------------------- vsnprintf

  /** `size` characters hold `text`, cut off and terminated; what lies behind is as in `before`. */
  ghost predicate Truncated(after: string, before: string, size: nat, text: string)
    requires |after| == |before| && size <= |before|
  {
    if size == 0 then after == before
    else
      var m := if |text| < size then |text| else size - 1;
      after[..m] == text[..m] && after[m] == '\0' && after[m + 1..] == before[m + 1..]
  }

  lemma FormatStep(fmt: string, i: nat, args: Args, k: nat, mem: Strings)
    requires i < |fmt| && fmt[i] != '\0'
    ensures fmt[i] != '%' ==> Format(fmt, i, args, k, mem) == [fmt[i]] + Format(fmt, i + 1, args, k, mem)
    ensures fmt[i] == '%' ==>
              var c := Convert(fmt, DirectiveAt(fmt, i, args, k), args, mem);
              i < c.resume && Format(fmt, i, args, k, mem) == c.text + Format(fmt, c.resume, args, c.arg, mem)
  {
  }

  /** The loop of `vsnprintf_internal` over the format. */
  method FormatInto(buf: array<char>, end: nat, fmt: string, args: Args, mem: Strings) returns (str: nat)
    requires end <= buf.Length
    modifies buf
    ensures buf[..] == Put(old(buf[..]), end, 0, Format(fmt, 0, args, 0, mem))
    ensures str == |Format(fmt, 0, args, 0, mem)|
  {
    hide Put, Convert, DirectiveAt, Format;
    ghost var s, text, done := buf[..], Format(fmt, 0, args, 0, mem), "";
    var i, k: nat := 0, 0;
    str := 0;
    PutNothing(s, end, 0);
    while At(fmt, i) != '\0'
      invariant i <= |fmt| && done + Format(fmt, i, args, k, mem) == text
      invariant buf[..] == Put(s, end, 0, done) && str == |done|
      decreases |fmt| - i
    {
      FormatStep(fmt, i, args, k, mem);
      ghost var piece;
      if fmt[i] != '%' {
        piece := [fmt[i]];
        PutAppend(s, end, 0, done, piece);
        str := AddCh(buf, end, str, fmt[i]);
        i := i + 1;
      } else {
        var d := ParseDirective(fmt, i, args, k);
        piece := Convert(fmt, d, args, mem).text;
        PutAppend(s, end, 0, done, piece);
        str, i, k := EmitConversion(buf, end, str, fmt, d, args, mem);
      }
      done := done + piece;
    }
    FormatEnds(fmt, i, args, k, mem);
    assert done == text;
  }

  lemma FormatEnds(fmt: string, i: nat, args: Args, k: nat, mem: Strings)
    requires i <= |fmt| && At(fmt, i) == '\0'
    ensures Format(fmt, i, args, k, mem) == ""
  {
  }

  /** `vsnprintf_internal` */
  method VsnprintfInternal(buf: array<char>, size: nat, fmt: string, args: Args, mem: Strings) returns (len: nat)
    requires size <= buf.Length
    modifies buf
    ensures len == |Format(fmt, 0, args, 0, mem)|
    ensures Truncated(buf[..], old(buf[..]), size, Format(fmt, 0, args, 0, mem))
  {
    hide Put, Format, Truncated;
    var str := FormatInto(buf, size, fmt, args, mem);
    Terminate(old(buf[..]), size, Format(fmt, 0, args, 0, mem));
    if size > 0 {
      str := AddCh(buf, size, str, '\0');
      if str > size {
        buf[size - 1] := '\0';
      }
      str := str - 1;
    }
    len := str;
  }

  lemma Terminate(s: string, size: nat, text: string)
    requires size <= |s|
    ensures size == 0 ==> Truncated(Put(s, size, 0, text), s, size, text)
    ensures var t := Put(Put(s, size, 0, text), size, |text|, ['\0']);
            size > 0 ==> Truncated(if |text| >= size then t[size - 1 := '\0'] else t, s, size, text)
  {
  }

  /** `vscnprintf`: the count of characters stored. */
  method Vscnprintf(buf: array<char>, size: nat, fmt: string, args: Args, mem: Strings) returns (stored: nat)
    requires size <= buf.Length
    modifies buf
    ensures Truncated(buf[..], old(buf[..]), size, Format(fmt, 0, args, 0, mem))
    ensures stored <= |Format(fmt, 0, args, 0, mem)| && (size == 0 ==> stored == 0)
    ensures size > 0 ==> stored < size && buf[..stored] == Format(fmt, 0, args, 0, mem)[..stored] && buf[stored] == '\0'
    ensures stored + 1 < size ==> stored == |Format(fmt, 0, args, 0, mem)|
  {
    hide Format;
    var i := VsnprintfInternal(buf, size, fmt, args, mem);
    if i < size {
      return i;
    }
    if size != 0 {
      return size - 1;
    }
    return 0;
  }
}
