/** Reading numbers back: `simple_strtoull`, and the round trip with the integer conversions. */
module Strtoul {
  import opened Machine
  import opened Digits
  import opened Emit
  import opened Number

  const WRAP: int := 0x1_0000_0000_0000_0000

  /** The character of a C string at `i`; NUL at its end. */
  function At(s: string, i: nat): char {
    if i < |s| then s[i] else '\0'
  }

  /** Where the digits start and the base they are read in, after an optional "0x" or "0". */
  function Prefix(s: string, base: nat): (r: (nat, nat)) {
    if At(s, 0) == '0' then
      if At(s, 1) == 'x' && DigitValue(At(s, 2)) >= 0 then (2, 16)
      else (1, if base == 0 then 8 else base)
    else (0, if base == 0 then 10 else base)
  }

  /** First position from `i` on that holds no digit of the base. */
  function RunEnd(s: string, i: nat, base: nat): (j: nat)
    requires i <= |s|
    ensures i <= j <= |s|
    decreases |s| - i
  {
    if i < |s| && 0 <= DigitValue(s[i]) < base then RunEnd(s, i + 1, base) else i
  }

  lemma {:induction false} RunDigits(s: string, i: nat, base: nat)
    requires i <= |s|
    ensures DigitsOf(s[i..RunEnd(s, i, base)], base)
    ensures RunEnd(s, i, base) < |s| ==> !(0 <= DigitValue(s[RunEnd(s, i, base)]) < base)
    decreases |s| - i
  {
    var j := RunEnd(s, i, base);
    if i < j {
      RunDigits(s, i + 1, base);
      assert s[i..j] == [s[i]] + s[i + 1..j];
    }
  }

  lemma {:induction false} RunAll(s: string, i: nat, base: nat)
    requires i <= |s| && DigitsOf(s[i..], base)
    ensures RunEnd(s, i, base) == |s|
    decreases |s| - i
  {
    if i < |s| {
      assert s[i] == s[i..][0] && s[i] in s[i..];
      assert s[i..] == [s[i]] + s[i + 1..];
      RunAll(s, i + 1, base);
    }
  }

  lemma ModShift(k: int, x: int)
    ensures (WRAP * k + x) % WRAP == x % WRAP
  {
  }

  lemma ScanStep(v: nat, base: nat, d: nat)
    ensures (v % WRAP * base + d) % WRAP == (base * v + d) % WRAP
  {
    var q, r := v / WRAP, v % WRAP;
    assert base * v == WRAP * (base * q) + base * r by {
      assert v == WRAP * q + r;
      MulDistributes(base, WRAP * q, r);
      assert base * (WRAP * q) == WRAP * (base * q);
    }
    assert r * base == base * r;
    ModShift(base * q, base * r + d);
  }

  lemma DigitStep(s: string, start: nat, cp: nat, b: nat)
    requires start <= cp < |s| && 0 <= DigitValue(s[cp]) < b && DigitsOf(s[start..cp], b)
    ensures DigitsOf(s[start..cp + 1], b) && RunEnd(s, cp, b) == RunEnd(s, cp + 1, b)
    ensures (Value(s[start..cp], b) % WRAP * b + DigitValue(s[cp])) % WRAP == Value(s[start..cp + 1], b) % WRAP
  {
    assert s[start..cp + 1] == s[start..cp] + [s[cp]];
    ValueAppend(s[start..cp], s[cp], b);
    ScanStep(Value(s[start..cp], b), b, DigitValue(s[cp]));
  }

  /** Skips "0x" or "0" and settles the base. */
  method SkipPrefix(s: string, base: nat) returns (cp: nat, b: nat)
    ensures (cp, b) == Prefix(s, base) && cp <= |s|
  {
    cp, b := 0, base;
    if At(s, 0) == '0' {
      cp := 1;
      if At(s, cp) == 'x' && DigitValue(At(s, cp + 1)) >= 0 {
        b := 16;
        cp := cp + 1;
      }
      if b == 0 {
        b := 8;
      }
    }
    if b == 0 {
      b := 10;
    }
  }

  /**
   `simple_strtoull`: the value of the longest run of digits behind the prefix, modulo the width of the
   result, and how far the string was consumed.
   */
  method SimpleStrtoull(s: string, base: nat) returns (result: uint64, tail: nat)
    ensures Parses(s, base, result as int, tail)
  {
    hide Prefix, RunEnd, Value, DigitValue;
    var start, b := SkipPrefix(s, base);
    var cp := start;
    result := 0;
    NothingRead(s, start, b);
    while 0 <= DigitValue(At(s, cp)) < b
      invariant start <= cp <= |s| && RunEnd(s, cp, b) == RunEnd(s, start, b)
      invariant DigitsOf(s[start..cp], b) && result as int == Value(s[start..cp], b) % WRAP
      decreases |s| - cp
    {
      NulIsNoDigit();
      DigitStep(s, start, cp, b);
      result := ((result as int * b + DigitValue(At(s, cp))) % WRAP) as uint64;
      cp := cp + 1;
    }
    RunStops(s, cp, b);
    tail := cp;
  }

  lemma NulIsNoDigit()
    ensures DigitValue('\0') == -1
  {
  }

  lemma NothingRead(s: string, start: nat, b: nat)
    requires start <= |s|
    ensures DigitsOf(s[start..start], b) && Value(s[start..start], b) == 0
  {
  }

  lemma RunStops(s: string, cp: nat, b: nat)
    requires cp <= |s| && !(0 <= DigitValue(At(s, cp)) < b)
    ensures RunEnd(s, cp, b) == cp
  {
  }

  /** What `simple_strtoull` makes of a string; the run it reads consists of digits and is maximal. */
  ghost predicate Parses(s: string, base: nat, num: nat, tail: nat) {
    var (start, b) := Prefix(s, base);
    start <= |s| && tail == RunEnd(s, start, b) && DigitsOf(s[start..tail], b) && num == Value(s[start..tail], b) % WRAP
  }

  // ---------------------------------------------------------------- round trips

  lemma {:induction false} ValueZeros(n: nat, t: string, base: nat)
    requires DigitsOf(t, base) && base > 0
    ensures DigitsOf(Repeat('0', n) + t, base) && Value(Repeat('0', n) + t, base) == Value(t, base)
    decreases |t|, n
  {
    var z := Repeat('0', n);
    if t != [] {
      var u, c := t[..|t| - 1], t[|t| - 1];
      assert t == u + [c] && z + t == (z + u) + [c];
      ValueZeros(n, u, base);
      ValueAppend(u, c, base);
      ValueAppend(z + u, c, base);
    } else if n > 0 {
      RepeatMore('0', n - 1);
      var y := Repeat('0', n - 1);
      ValueZeros(n - 1, t, base);
      assert y + t == y && z + t == y + ['0'];
      ValueAppend(y, '0', base);
      assert Value(y, base) == 0;
    } else {
      assert z + t == t;
    }
  }

  lemma ParsesTail(s: string, base: nat, z: nat, t: string)
    requires Prefix(s, base).0 <= |s| && Prefix(s, base).1 > 0
    requires s[Prefix(s, base).0..] == Repeat('0', z) + t && DigitsOf(t, Prefix(s, base).1)
    requires Value(t, Prefix(s, base).1) < WRAP
    ensures Parses(s, base, Value(t, Prefix(s, base).1), |s|)
  {
    var (start, b) := Prefix(s, base);
    ValueZeros(z, t, b);
    RunAll(s, start, b);
    assert s[start..|s|] == s[start..];
  }

  /** Zeros and a numeral, in a base that is given or that is decimal by default. */
  lemma ZerosNumeralParses(z: nat, n: nat, base: nat, arg: nat, small: bool)
    requires n < WRAP && 2 <= base <= 16 && (arg == base || (arg == 0 && base == 10 && z == 0))
    ensures Parses(Repeat('0', z) + Numeral(n, base, small), arg, n, z + |Numeral(n, base, small)|)
  {
    hide Value, Numeral, DigitsOf, Parses;
    var t := Numeral(n, base, small);
    var s := Repeat('0', z) + t;
    NumeralValue(n, base, small);
    NumeralDigits(n, base, small);
    NumeralStart(n, base, small);
    if z > 0 {
      assert At(s, 0) == '0' && At(s, 1) == (if z > 1 then '0' else t[0]);
      assert s[1..] == Repeat('0', z - 1) + t;
      ParsesTail(s, arg, z - 1, t);
    } else {
      assert s == t;
      if t[0] == '0' {
        assert s[1..] == Repeat('0', 0) + "";
        ZeroParses(arg);
      } else {
        assert s[0..] == Repeat('0', 0) + t;
        ParsesTail(s, arg, 0, t);
      }
    }
  }

  lemma NumeralStart(n: nat, base: nat, small: bool)
    requires 2 <= base <= 16
    ensures DigitValue(Numeral(n, base, small)[0]) >= 0 && Numeral(n, base, small)[0] != 'x'
    ensures Numeral(n, base, small)[0] == '0' ==> n == 0 && Numeral(n, base, small) == "0"
  {
    NumeralDigits(n, base, small);
    assert Numeral(n, base, small)[0] in Numeral(n, base, small);
  }

  lemma ZeroParses(arg: nat)
    ensures Parses("0", arg, 0, 1)
  {
    assert "0"[1..1] == "";
  }

  /** Decimal output, read without a base. */
  lemma DecimalRoundTrip(num: uint64, f: Flags)
    requires !f.sign
    ensures Parses(NumberText(num, 10, -1, -1, f), 0, num as int, |NumberText(num, 10, -1, -1, f)|)
  {
    hide Parses, Numeral;
    assert NumberText(num, 10, -1, -1, f) == Repeat('0', 0) + Numeral(num as int, 10, f.small);
    ZerosNumeralParses(0, num as int, 10, 0, f.small);
  }

  /** Output padded with zeros to any width and precision, read in the base it was written in. */
  lemma PaddedRoundTrip(num: uint64, base: nat, width: int, precision: int, f: Flags)
    requires base == 8 || base == 10 || base == 16
    requires !f.sign && !f.special && !f.left && f.zeropad
    ensures Parses(NumberText(num, base, width, precision, f), base, num as int, |NumberText(num, base, width, precision, f)|)
  {
    hide Parses, Numeral;
    var t := Numeral(num as int, base, f.small);
    var s := NumberText(num, base, width, precision, f);
    var z := |s| - |t|;
    assert s == Repeat('0', z) + t;
    ZerosNumeralParses(z, num as int, base, base, f.small);
  }

  /** Hexadecimal output with its prefix, read without a base, comes back if and only if the prefix is "0x". */
  lemma HexRoundTrip(num: uint64, f: Flags)
    requires !f.sign && f.special
    ensures var s := NumberText(num, 16, -1, -1, f);
            && (Parses(s, 0, num as int, |s|) <==> f.small)
            && (!f.small ==> Parses(s, 0, 0, 1))
  {
    if f.small {
      LowerHexRoundTrip(num, f, 0);
    } else {
      var s := NumberText(num, 16, -1, -1, f);
      assert s == "0X" + Numeral(num as int, 16, false);
      assert s[1] == 'X' && s[1..1] == "";
      assert RunEnd(s, 1, 8) == 1;
    }
  }

  /** Small hexadecimal output with its prefix comes back whatever base is given: the prefix overrules it. */
  lemma LowerHexRoundTrip(num: uint64, f: Flags, arg: nat)
    requires !f.sign && f.special && f.small
    ensures Parses(NumberText(num, 16, -1, -1, f), arg, num as int, |NumberText(num, 16, -1, -1, f)|)
  {
    hide Parses, Numeral, Value, DigitsOf;
    var t := Numeral(num as int, 16, true);
    assert NumberText(num, 16, -1, -1, f) == "0x" + t;
    NumeralValue(num as int, 16, true);
    NumeralStart(num as int, 16, true);
    assert ("0x" + t)[2..] == Repeat('0', 0) + t;
    ParsesTail("0x" + t, arg, 0, t);
  }

  /** Octal output with its leading zero, read without a base. */
  lemma OctalRoundTrip(num: uint64, f: Flags)
    requires !f.sign && f.special
    ensures Parses(NumberText(num, 8, -1, -1, f), 0, num as int, |NumberText(num, 8, -1, -1, f)|)
  {
    hide Parses, Numeral, Value, DigitsOf;
    var t := Numeral(num as int, 8, f.small);
    assert NumberText(num, 8, -1, -1, f) == "0" + t;
    NumeralValue(num as int, 8, f.small);
    NumeralStart(num as int, 8, f.small);
    assert ("0" + t)[1..] == Repeat('0', 0) + t;
    ParsesTail("0" + t, 0, 0, t);
  }
}
