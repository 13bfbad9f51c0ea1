/** 64-by-32 bit division by shifting and subtracting. The machine types make every step overflow-checked. */
module Div64 {
  import opened Machine

  /** "Reduce the thing a bit first": one 32-bit division of the high word. */
  method ReduceHigh(n: uint64, base: uint32) returns (res: uint64, rem: uint64)
    requires base != 0
    ensures n as int == base as int * res as int + rem as int
  {
    rem := n;
    var high: uint32 := (rem / 0x1_0000_0000) as uint32;
    res := 0;
    if high >= base {
      ghost var h: int := high as int;
      high := high / base;
      assert base as int * high as int <= h;
      assert high as int * base as int == base as int * high as int;
      res := high as uint64 * 0x1_0000_0000;
      ghost var before := rem as int;
      rem := rem - (high * base) as uint64 * 0x1_0000_0000;
      assert rem as int == before - base as int * high as int * 0x1_0000_0000;
      assert base as int * res as int == base as int * high as int * 0x1_0000_0000;
    }
  }

  /** Doubles the divisor until it reaches the dividend or would no longer be positive as a signed word. */
  method ScaleUp(rem: uint64, base: uint32) returns (b: uint64, d: uint64, ghost k: nat)
    requires base != 0
    ensures d as int == Pow2(k) && b as int == base as int * d as int
    ensures rem as int < 2 * b as int
  {
    b, d, k := base as uint64, 1, 0;
    while b < 0x8000_0000_0000_0000 && b < rem
      invariant b as int == base as int * d as int && d as int == Pow2(k) && 0 < d <= b
      decreases 0x1_0000_0000_0000_0000 - b as int
    {
      MulDistributes(base as int, d as int, d as int);
      b := b + b;
      d := d + d;
      k := k + 1;
    }
  }

  /** `__div64_32` */
  method Div64By32(n: uint64, base: uint32) returns (quotient: uint64, remainder: uint32)
    requires base != 0
    ensures quotient as int == n as int / base as int
    ensures remainder as int == n as int % base as int
  {
    hide Pow2;
    var res, rem := ReduceHigh(n, base);
    var b, d, k := ScaleUp(rem, base);
    while d != 0
      invariant n as int == base as int * res as int + rem as int
      invariant d != 0 ==> d as int == Pow2(k) && b as int == base as int * d as int && rem as int < 2 * b as int
      invariant d == 0 ==> rem < base as uint64
      decreases d
    {
      Round(n as int, base as int, k, b as int, d as int, res as int, rem as int);
      if rem >= b {
        rem := rem - b;
        res := res + d;
      }
      if d > 1 {
        k := k - 1;
      }
      b := b / 2;
      d := d / 2;
    }
    DivUnique(n as int, base as int, res as int, rem as int);
    quotient := res;
    remainder := rem as uint32;
  }

  /** One round of the subtract loop keeps the division identity and halves the bound on the remainder. */
  lemma Round(n: nat, base: nat, k: nat, b: nat, d: nat, res: nat, rem: nat)
    requires base > 0 && n == base * res + rem && d == Pow2(k) && b == base * d && rem < 2 * b
    ensures rem >= b ==> n == base * (res + d) + (rem - b) && res + d <= n
    ensures d > 1 ==> k > 0 && d / 2 == Pow2(k - 1) && b / 2 == base * (d / 2)
                      && (if rem >= b then rem - b else rem) < 2 * (b / 2)
    ensures d <= 1 ==> d == 1 && (if rem >= b then rem - b else rem) < base
  {
    if rem >= b {
      MulDistributes(base, res, d);
      MulFar(res + d, base);
      assert base * (res + d) == (res + d) * base;
    }
    if k > 0 {
      assert base * Pow2(k) == 2 * (base * Pow2(k - 1));
    }
  }

  /** `do_div`: the fast path when the high word is zero, the general routine otherwise. */
  method DoDiv(n: uint64, base: uint32) returns (quotient: uint64, remainder: uint32)
    requires base != 0
    ensures quotient as int == n as int / base as int
    ensures remainder as int == n as int % base as int
  {
    if n / 0x1_0000_0000 == 0 {
      remainder := n as uint32 % base;
      quotient := (n as uint32 / base) as uint64;
    } else {
      quotient, remainder := Div64By32(n, base);
    }
  }
}
