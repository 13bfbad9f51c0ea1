/** Numerals: the canonical digits of a number in a base, and what makes them canonical. */
module Digits {
  import opened Machine

  /** Digit `d`; letters are lower case when `small`. */
  function DigitChar(d: nat, small: bool): char
    requires d < 16
  {
    if d < 10 then '0' + d as char else (if small then 'a' else 'A') + (d - 10) as char
  }

  function DigitValue(c: char): (v: int)
    ensures -1 <= v < 16
  {
    if '0' <= c <= '9' then c as int - '0' as int
    else if 'a' <= c <= 'f' then c as int - 'a' as int + 10
    else if 'A' <= c <= 'F' then c as int - 'A' as int + 10
    else -1
  }

  lemma DigitCharValue(d: nat, small: bool)
    requires d < 16
    ensures DigitValue(DigitChar(d, small)) == d
  {
  }

  /** The digits of the table `digits[]`, read back in either case; no other character is a digit. */
  lemma DigitTable(d: nat, c: char)
    requires d < 16
    ensures DigitChar(d, false) == "0123456789ABCDEF"[d] && DigitChar(d, true) == "0123456789abcdef"[d]
    ensures DigitValue(c) == d <==> c == "0123456789ABCDEF"[d] || c == "0123456789abcdef"[d]
  {
  }

  /** The digits of `n`, most significant first, without leading zeros. */
  function Numeral(n: nat, base: nat, small: bool): (s: string)
    requires 2 <= base <= 16
    ensures |s| > 0
  {
    if n < base then [DigitChar(n, small)]
    else Numeral(n / base, base, small) + [DigitChar(n % base, small)]
  }

  /** The same digits, least significant first. */
  function RevNumeral(n: nat, base: nat, small: bool): (s: string)
    requires 2 <= base <= 16
    ensures |s| > 0
  {
    if n < base then [DigitChar(n, small)]
    else [DigitChar(n % base, small)] + RevNumeral(n / base, base, small)
  }

  lemma {:induction false} RevNumeralReverses(n: nat, base: nat, small: bool)
    requires 2 <= base <= 16
    ensures |RevNumeral(n, base, small)| == |Numeral(n, base, small)|
    ensures forall i | 0 <= i < |Numeral(n, base, small)| ::
              RevNumeral(n, base, small)[i] == Numeral(n, base, small)[|Numeral(n, base, small)| - 1 - i]
  {
    if n >= base {
      RevNumeralReverses(n / base, base, small);
    }
  }

  /** The number a string of digits stands for. */
  function Value(s: string, base: nat): nat
    requires forall c | c in s :: DigitValue(c) >= 0
  {
    if s == [] then 0 else base * Value(s[..|s| - 1], base) + DigitValue(s[|s| - 1])
  }

  ghost predicate DigitsOf(s: string, base: nat) {
    forall c | c in s :: 0 <= DigitValue(c) < base
  }

  lemma {:induction false} NumeralDigits(n: nat, base: nat, small: bool)
    requires 2 <= base <= 16
    ensures DigitsOf(Numeral(n, base, small), base)
    ensures Cased(Numeral(n, base, small), small)
    ensures Numeral(n, base, small)[0] == '0' ==> n == 0
  {
    DivFacts(n, base);
    DigitCharValue(n % base, small);
    if n >= base {
      NumeralDigits(n / base, base, small);
    }
  }

  lemma ValueAppend(s: string, c: char, base: nat)
    requires (forall d | d in s :: DigitValue(d) >= 0) && DigitValue(c) >= 0
    ensures forall d | d in s + [c] :: DigitValue(d) >= 0
    ensures Value(s + [c], base) == base * Value(s, base) + DigitValue(c)
  {
    assert (s + [c])[..|s|] == s;
  }

  lemma SingleValue(c: char, base: nat)
    requires DigitValue(c) >= 0
    ensures Value([c], base) == DigitValue(c)
  {
    assert [c][..0] == "";
  }

  lemma NumeralSplit(n: nat, base: nat, small: bool) returns (q: nat, r: nat)
    requires 2 <= base <= n && base <= 16
    ensures n == base * q + r && r < base && 1 <= q < n
    ensures Numeral(n, base, small) == Numeral(q, base, small) + [DigitChar(r, small)]
  {
    DivFacts(n, base);
    q, r := n / base, n % base;
  }

  /** Reading a numeral back gives its number. */
  lemma {:induction false} NumeralValue(n: nat, base: nat, small: bool)
    requires 2 <= base <= 16
    ensures DigitsOf(Numeral(n, base, small), base)
    ensures Value(Numeral(n, base, small), base) == n
  {
    NumeralDigits(n, base, small);
    if n >= base {
      var q, r := NumeralSplit(n, base, small);
      hide Numeral;
      NumeralValue(q, base, small);
      DigitCharValue(r, small);
      ValueAppend(Numeral(q, base, small), DigitChar(r, small), base);
    } else {
      DigitCharValue(n, small);
      SingleValue(DigitChar(n, small), base);
    }
  }

  /** Letters all of one case. */
  ghost predicate Cased(s: string, small: bool) {
    forall c | c in s :: DigitValue(c) >= 0 ==> c == DigitChar(DigitValue(c), small)
  }

  lemma {:induction false} ValuePositive(s: string, base: nat)
    requires s != [] && DigitsOf(s, base) && s[0] != '0' && base >= 2
    ensures Value(s, base) >= 1
  {
    var t := s[..|s| - 1];
    if t == [] {
      assert s[0] in s;
      assert Value(t, base) == 0;
    } else {
      ValuePositive(t, base);
      MulFar(base, Value(t, base));
    }
  }

  lemma NumeralAppend(v: nat, d: nat, base: nat, small: bool)
    requires 2 <= base <= 16 && v >= 1 && d < base
    ensures Numeral(base * v + d, base, small) == Numeral(v, base, small) + [DigitChar(d, small)]
  {
    MulFar(base, v);
    DivUnique(base * v + d, base, v, d);
  }

  /** The only numeral of a number without leading zeros is the canonical one. */
  lemma {:induction false} NumeralUnique(s: string, base: nat, small: bool)
    requires 2 <= base <= 16 && s != [] && DigitsOf(s, base) && Cased(s, small)
    requires s[0] == '0' ==> |s| == 1
    ensures s == Numeral(Value(s, base), base, small)
  {
    hide Numeral, Value;
    var t, last := s[..|s| - 1], s[|s| - 1];
    assert last in s && s == t + [last];
    ValueAppend(t, last, base);
    if t == [] {
      OneDigit(last, base, small);
    } else {
      assert t[0] == s[0];
      NumeralUnique(t, base, small);
      ValuePositive(t, base);
      NumeralAppend(Value(t, base), DigitValue(last), base, small);
    }
  }

  lemma OneDigit(c: char, base: nat, small: bool)
    requires 2 <= base <= 16 && 0 <= DigitValue(c) < base
    ensures Value([], base) == 0
    ensures Numeral(DigitValue(c), base, small) == [DigitChar(DigitValue(c), small)]
  {
  }

  lemma {:induction false} NumeralLength(n: nat, base: nat, small: bool, k: nat)
    requires 2 <= base <= 16 && k > 0 && n < Power(base, k)
    ensures |Numeral(n, base, small)| <= k
    decreases k
  {
    if n >= base {
      assert Power(base, 1) == base * Power(base, 0);
      assert n / base < Power(base, k - 1) by {
        if n / base >= Power(base, k - 1) {
          MulMonotone(base, Power(base, k - 1), n / base);
        }
      }
      NumeralLength(n / base, base, small, k - 1);
    }
  }

  lemma MulMonotone(a: nat, b: nat, c: nat)
    requires b <= c
    ensures a * b <= a * c
  {
  }

  function Power(base: nat, k: nat): nat {
    if k == 0 then 1 else base * Power(base, k - 1)
  }

  /** A 64-bit number has at most 20 decimal and 22 octal digits: the 66 characters of `tmp` suffice. */
  lemma NumeralFits(n: nat, base: nat, small: bool)
    requires n < 0x1_0000_0000_0000_0000 && (base == 8 || base == 10 || base == 16)
    ensures |Numeral(n, base, small)| <= 22
    ensures base == 10 ==> |Numeral(n, base, small)| <= 20
  {
    if base == 10 {
      assert Power(10, 5) == 100000;
      assert Power(10, 10) == 100000 * Power(10, 5);
      assert Power(10, 15) == 100000 * Power(10, 10);
      assert Power(10, 20) == 100000 * Power(10, 15);
      NumeralLength(n, 10, small, 20);
    } else if base == 8 {
      assert Power(8, 6) == 0x4_0000;
      assert Power(8, 12) == 0x4_0000 * Power(8, 6);
      assert Power(8, 18) == 0x4_0000 * Power(8, 12);
      assert Power(8, 22) == 4096 * Power(8, 18);
      NumeralLength(n, 8, small, 22);
    } else {
      assert Power(16, 4) == 0x1_0000;
      assert Power(16, 8) == 0x1_0000 * Power(16, 4);
      assert Power(16, 12) == 0x1_0000 * Power(16, 8);
      assert Power(16, 16) == 0x1_0000 * Power(16, 12);
      NumeralLength(n, 16, small, 16);
    }
  }
}
