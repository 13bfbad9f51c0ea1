/**
 Decimal conversion without division: digits of a five-digit group from its nibbles, with multiplication by
 a reciprocal in place of division by ten.
 */
module Decimal {
  import opened Machine
  import opened Digits
  import opened Div64
  import opened Emit

  /** Decimal digits of `n`, least significant first. */
  function RevDecimal(n: nat): string {
    RevNumeral(n, 10, false)
  }

  function Char(d: nat): char
    requires d < 10
  {
    '0' + d as char
  }

  /** The five digits of `n < 100000`, least significant first, zeros included. */
  function FiveDigits(n: nat): (s: string)
    requires n < 100000
    ensures |s| == 5
  {
    [Char(n % 10), Char(n / 10 % 10), Char(n / 100 % 10), Char(n / 1000 % 10), Char(n / 10000)]
  }

  // ---------------------------------------------------------------- the arithmetic

  /** Multiplying by 205 and dropping 11 bits divides by ten, on the range the nibble sums stay in. */
  lemma Reciprocal205(x: nat)
    requires x <= 339
    ensures x * 205 / 2048 == x / 10
  {
    var a, r := x / 10, x % 10;
    assert x * 205 == 2048 * a + (2 * a + 205 * r);
  }

  /** Multiplying by 13 and dropping 7 bits divides by ten up to 63. */
  lemma Reciprocal13(x: nat)
    requires x <= 63
    ensures x * 13 / 128 == x / 10
  {
    var a, r := x / 10, x % 10;
    assert x * 13 == 128 * a + (2 * a + 13 * r);
  }

  lemma TenTimes(n: nat, k: nat, t: nat)
    requires n == 10 * k + t
    ensures n / 10 == k + t / 10 && n % 10 == t % 10
  {
  }

  lemma QuotientsOfTen(n: nat)
    ensures n / 10 / 10 == n / 100 && n / 100 / 10 == n / 1000
    ensures n / 1000 / 10 == n / 10000 && n / 10000 / 10 == n / 100000
  {
  }

  /** What each nibble is worth in tens and ones: 4096 is 409 tens and 6, 256 is 25 tens and 6, 16 is 1 ten and 6. */
  lemma Nibbles(q: nat)
    requires q < 100000
    ensures var d3, d2, d1, d0 := q / 4096, q / 256 % 16, q / 16 % 16, q % 16;
            && d3 <= 24 && d2 <= 15 && d1 <= 15 && d0 <= 15
            && q == 10 * (400 * d3 + 20 * d2 + (9 * d3 + 5 * d2 + d1)) + (6 * (d3 + d2 + d1) + d0)
  {
  }

  /** The carries `t0 .. t3` of the nibble sums are the quotients of `q` by powers of ten, in disguise. */
  lemma NibbleSums(q: nat, d3: nat, d2: nat, d1: nat, t0: nat, t1: nat, t2: nat, t3: nat)
    requires q < 100000 && d3 == q / 4096 && d2 == q / 256 % 16 && d1 == q / 16 % 16
    requires t0 == 6 * (d3 + d2 + d1) + q % 16
    requires t1 == t0 / 10 + 9 * d3 + 5 * d2 + d1 && t2 == t1 / 10 + 2 * d2 && t3 == t2 / 10 + 4 * d3
    ensures t0 <= 339 && t1 <= 339 && t2 <= 63 && t3 <= 339 && t3 / 10 < 10
    ensures t0 % 10 == q % 10 && q / 10 == t1 + 20 * d2 + 400 * d3
    ensures t1 % 10 == q / 10 % 10 && q / 100 == t2 + 40 * d3
    ensures t2 % 10 == q / 100 % 10 && q / 1000 == t3
    ensures t3 % 10 == q / 1000 % 10 && q / 10000 == t3 / 10
  {
    Nibbles(q);
    QuotientsOfTen(q);
    TenTimes(q, 400 * d3 + 20 * d2 + (9 * d3 + 5 * d2 + d1), t0);
    TenTimes(q / 10, 40 * d3 + 2 * d2, t1);
    TenTimes(q / 100, 4 * d3, t2);
  }

  /** The upper three nibbles and the weighted sum of all four. */
  ghost predicate NibblesOf(q: nat, d3: nat, d2: nat, d1: nat, t0: nat) {
    q < 100000 && d3 == q / 4096 && d2 == q / 256 % 16 && d1 == q / 16 % 16 && t0 == 6 * (d3 + d2 + d1) + q % 16
  }

  function Tenth(x: nat): nat {
    x / 10
  }

  function LastChar(x: nat): char {
    Char(x % 10)
  }

  /** The same, as digits and as the branch conditions of the code. */
  lemma NibbleDigits(q: nat, d3: nat, d2: nat, d1: nat, t0: nat, t1: nat, t2: nat, t3: nat)
    requires NibblesOf(q, d3, d2, d1, t0)
    requires t1 == Tenth(t0) + 9 * d3 + 5 * d2 + d1 && t2 == Tenth(t1) + 2 * d2 && t3 == Tenth(t2) + 4 * d3
    ensures t0 <= 339 && t1 <= 339 && t2 <= 63 && t3 <= 339 && Tenth(t3) < 10
    ensures FiveDigits(q) == [LastChar(t0), LastChar(t1), LastChar(t2), LastChar(t3), '0' + Tenth(t3) as char]
    ensures (t1 != 0 <==> q >= 10) && (t2 != 0 || d3 != 0 <==> q >= 100)
    ensures (t3 != 0 <==> q >= 1000) && (Tenth(t3) != 0 <==> q >= 10000)
  {
    NibbleSums(q, d3, d2, d1, t0, t1, t2, t3);
  }

  /** `d1`, `d2`, `d3` and `d0` as both routines compute them. */
  method Nibbles4(q: nat) returns (d3: nat, d2: nat, d1: nat, d0: nat)
    requires q < 100000
    ensures NibblesOf(q, d3, d2, d1, d0)
  {
    d1 := q / 16 % 16;
    d2 := q / 256 % 16;
    d3 := q / 4096;
    d0 := 6 * (d3 + d2 + d1) + q % 16;
  }

  lemma RevDecimalShort(n: nat)
    requires n < 100000
    ensures n < 10 ==> RevDecimal(n) == FiveDigits(n)[..1]
    ensures 10 <= n < 100 ==> RevDecimal(n) == FiveDigits(n)[..2]
    ensures 100 <= n < 1000 ==> RevDecimal(n) == FiveDigits(n)[..3]
    ensures 1000 <= n < 10000 ==> RevDecimal(n) == FiveDigits(n)[..4]
    ensures 10000 <= n ==> RevDecimal(n) == FiveDigits(n)
  {
    var a, b, c, d := n / 10, n / 100, n / 1000, n / 10000;
    QuotientsOfTen(n);
    assert n >= 10 ==> RevNumeral(n, 10, false) == [DigitChar(n % 10, false)] + RevNumeral(a, 10, false);
    assert a >= 10 ==> RevNumeral(a, 10, false) == [DigitChar(a % 10, false)] + RevNumeral(b, 10, false);
    assert b >= 10 ==> RevNumeral(b, 10, false) == [DigitChar(b % 10, false)] + RevNumeral(c, 10, false);
    assert c >= 10 ==> RevNumeral(c, 10, false) == [DigitChar(c % 10, false)] + RevNumeral(d, 10, false);
  }

  /** A long number is its last five digits in front of the digits of the rest. */
  lemma RevDecimalLong(n: nat)
    requires n >= 100000
    ensures RevDecimal(n) == FiveDigits(n % 100000) + RevDecimal(n / 100000)
  {
    var a, b, c, d, e := n / 10, n / 100, n / 1000, n / 10000, n / 100000;
    QuotientsOfTen(n);
    LastDigits(n, e, n % 100000);
    var s := RevNumeral(e, 10, false);
    assert RevNumeral(d, 10, false) == [Char(d % 10)] + s;
    assert RevNumeral(c, 10, false) == [Char(c % 10), Char(d % 10)] + s;
    assert RevNumeral(b, 10, false) == [Char(b % 10), Char(c % 10), Char(d % 10)] + s;
    assert RevNumeral(a, 10, false) == [Char(a % 10), Char(b % 10), Char(c % 10), Char(d % 10)] + s;
    assert RevNumeral(n, 10, false) == [Char(n % 10)] + RevNumeral(a, 10, false);
  }

  lemma LastDigits(n: nat, e: nat, r: nat)
    requires n == 100000 * e + r && r < 100000
    ensures n / 10000 == 10 * e + r / 10000 && n / 1000 == 100 * e + r / 1000
    ensures n / 100 == 1000 * e + r / 100 && n / 10 == 10000 * e + r / 10
    ensures n % 10 == r % 10 && n / 10 % 10 == r / 10 % 10 && n / 100 % 10 == r / 100 % 10
    ensures n / 1000 % 10 == r / 1000 % 10 && n / 10000 % 10 == r / 10000
  {
    TenTimes(n, 10000 * e, r);
    TenTimes(n / 10, 1000 * e, r / 10);
    TenTimes(n / 100, 100 * e, r / 100);
    TenTimes(n / 1000, 10 * e, r / 1000);
    TenTimes(n / 10000, e, r / 10000);
    QuotientsOfTen(n);
    QuotientsOfTen(r);
  }

  // ---------------------------------------------------------------- the code

  /** Last digit and rest by the long reciprocal. */
  method SplitDigit(x: nat) returns (digit: char, q: nat)
    requires x <= 339
    ensures digit == LastChar(x) && q == Tenth(x)
  {
    Reciprocal205(x);
    q := x * 205 / 2048;
    digit := '0' + (x - 10 * q) as char;
  }

  /** Last digit and rest by the short reciprocal. */
  method SplitSmallDigit(x: nat) returns (digit: char, q: nat)
    requires x <= 63
    ensures digit == LastChar(x) && q == Tenth(x)
  {
    Reciprocal13(x);
    q := x * 13 / 128;
    digit := '0' + (x - 10 * q) as char;
  }

  /** Stores the next character, behind the part `f[..k]` of `f` already written at `at`. */
  method Append(buf: array<char>, at: nat, ghost before: string, ghost f: string, ghost k: nat, next: nat, c: char)
    returns (after: nat)
    requires |before| == buf.Length && at + k == next < buf.Length && k < |f| && c == f[k]
    requires buf[..] == Put(before, buf.Length, at, f[..k])
    modifies buf
    ensures after == next + 1 && buf[..] == Put(before, buf.Length, at, f[..k + 1])
  {
    PutAppend(before, buf.Length, at, f[..k], [c]);
    assert f[..k] + [c] == f[..k + 1];
    after := AddCh(buf, buf.Length, next, c);
  }

  /** `put_dec_trunc`: between one and five digits. */
  method PutDecTrunc(buf: array<char>, at: nat, num: nat) returns (next: nat)
    requires num < 100000 && at + |RevDecimal(num)| <= buf.Length
    modifies buf
    ensures buf[..] == Put(old(buf[..]), buf.Length, at, RevDecimal(num)) && next == at + |RevDecimal(num)|
  {
    hide RevDecimal, FiveDigits, Tenth, LastChar, NibblesOf, Put;
    RevDecimalShort(num);
    ghost var s, f := buf[..], FiveDigits(num);
    PutNothing(s, buf.Length, at);
    var digit: char;
    var q: nat;
    var d3, d2, d1, d0 := Nibbles4(num);
    ghost var t1 := Tenth(d0) + 9 * d3 + 5 * d2 + d1;
    ghost var t2 := Tenth(t1) + 2 * d2;
    NibbleDigits(num, d3, d2, d1, d0, t1, t2, Tenth(t2) + 4 * d3);
    digit, q := SplitDigit(d0);
    next := Append(buf, at, s, f, 0, at, digit);
    d1 := q + 9 * d3 + 5 * d2 + d1;
    if d1 != 0 {
      digit, q := SplitDigit(d1);
      next := Append(buf, at, s, f, 1, next, digit);
      d2 := q + 2 * d2;
      if d2 != 0 || d3 != 0 {
        digit, q := SplitSmallDigit(d2);
        next := Append(buf, at, s, f, 2, next, digit);
        d3 := q + 4 * d3;
        if d3 != 0 {
          digit, q := SplitDigit(d3);
          next := Append(buf, at, s, f, 3, next, digit);
          if q != 0 {
            digit := '0' + q as char;
            next := Append(buf, at, s, f, 4, next, digit);
            assert f[..5] == f;
          }
        }
      }
    }
  }

  /** `put_dec_full`: always five digits. */
  method PutDecFull(buf: array<char>, at: nat, num: nat) returns (next: nat)
    requires num < 100000 && at + 5 <= buf.Length
    modifies buf
    ensures buf[..] == Put(old(buf[..]), buf.Length, at, FiveDigits(num)) && next == at + 5
  {
    hide FiveDigits, Tenth, LastChar, NibblesOf, Put;
    ghost var s, f := buf[..], FiveDigits(num);
    PutNothing(s, buf.Length, at);
    var digit: char;
    var q: nat;
    var d3, d2, d1, d0 := Nibbles4(num);
    ghost var t1 := Tenth(d0) + 9 * d3 + 5 * d2 + d1;
    ghost var t2 := Tenth(t1) + 2 * d2;
    NibbleDigits(num, d3, d2, d1, d0, t1, t2, Tenth(t2) + 4 * d3);
    digit, q := SplitDigit(d0);
    next := Append(buf, at, s, f, 0, at, digit);
    d1 := q + 9 * d3 + 5 * d2 + d1;
    digit, q := SplitDigit(d1);
    next := Append(buf, at, s, f, 1, next, digit);
    d2 := q + 2 * d2;
    digit, q := SplitSmallDigit(d2);
    next := Append(buf, at, s, f, 2, next, digit);
    d3 := q + 4 * d3;
    digit, q := SplitDigit(d3);
    next := Append(buf, at, s, f, 3, next, digit);
    digit := '0' + q as char;
    next := Append(buf, at, s, f, 4, next, digit);
    assert f[..5] == f;
  }

  /** `put_dec`: the digits of any 64-bit number, reversed. */
  method PutDec(buf: array<char>, at: nat, num: uint64) returns (next: nat)
    requires at + |RevDecimal(num as int)| <= buf.Length
    modifies buf
    ensures buf[..] == Put(old(buf[..]), buf.Length, at, RevDecimal(num as int))
    ensures next == at + |RevDecimal(num as int)|
  {
    hide RevDecimal, FiveDigits, Put;
    var n := num;
    next := at;
    ghost var s, done := buf[..], "";
    PutNothing(s, buf.Length, at);
    while n >= 100000
      invariant next == at + |done| && RevDecimal(num as int) == done + RevDecimal(n as int)
      invariant buf[..] == Put(s, buf.Length, at, done)
    {
      RevDecimalLong(n as int);
      var rem: uint32;
      n, rem := DoDiv(n, 100000);
      PutAppend(s, buf.Length, at, done, FiveDigits(rem as int));
      next := PutDecFull(buf, next, rem as int);
      done := done + FiveDigits(rem as int);
    }
    PutAppend(s, buf.Length, at, done, RevDecimal(n as int));
    next := PutDecTrunc(buf, next, n as int);
  }

  /** `simple_itoa`: the numeral right-aligned in a 22-character buffer, with its terminator. */
  method SimpleItoa(local: array<char>, num: uint64) returns (p: nat)
    requires local.Length == 22
    modifies local
    ensures p < 21 && local[21] == '\0'
    ensures local[p..21] == Numeral(num as int, 10, false)
  {
    NumeralFits(num as int, 10, false);
    local[21] := '\0';
    var i := num;
    p := 21;
    ghost var rest := "";
    while true
      invariant local[21] == '\0' && p <= 21 && local[p..21] == rest
      invariant Numeral(num as int, 10, false) == Numeral(i as int, 10, false) + rest
      decreases i
    {
      var c := '0' + (i % 10) as char;
      p := p - 1;
      local[p] := c;
      assert local[p..21] == [c] + rest;
      if i < 10 {
        assert Numeral(i as int, 10, false) == [c];
        return;
      }
      assert Numeral(i as int, 10, false) == Numeral(i as int / 10, 10, false) + [c];
      rest := [c] + rest;
      i := i / 10;
    }
  }

  /** What `put_dec` leaves in its buffer is what `simple_itoa` returns, backwards. */
  lemma {:induction false} PutDecReversesItoa(n: nat)
    ensures |RevDecimal(n)| == |Numeral(n, 10, false)|
    ensures forall i | 0 <= i < |RevDecimal(n)| :: RevDecimal(n)[i] == Numeral(n, 10, false)[|RevDecimal(n)| - 1 - i]
  {
    RevNumeralReverses(n, 10, false);
  }
}
