/** Machine words, powers of two and the constants shared by the kernel modules. */
module Machine {

  newtype uint32 = x: int | 0 <= x < 0x1_0000_0000
  newtype uint64 = x: int | 0 <= x < 0x1_0000_0000_0000_0000

  datatype Option<+T> = None | Some(value: T)

  const PAGE_SIZE: nat := 4096
  const MAX_TASKS: nat := 50

  function Max(a: int, b: int): int {
    if a < b then b else a
  }

  /** `1 << k`. */
  function Pow2(k: nat): (r: nat)
    ensures r >= 1
  {
    if k == 0 then 1 else 2 * Pow2(k - 1)
  }

  lemma {:induction false} Pow2Monotone(a: nat, b: nat)
    requires a < b
    ensures 2 * Pow2(a) <= Pow2(b)
    decreases b
  {
    if a + 1 < b {
      Pow2Monotone(a, b - 1);
    }
  }

  lemma Pow2Le(a: nat, b: nat)
    requires a <= b
    ensures Pow2(a) <= Pow2(b)
  {
    if a < b {
      Pow2Monotone(a, b);
    }
  }

  lemma Pow2Values()
    ensures Pow2(16) == 0x1_0000 && Pow2(31) == 0x8000_0000
    ensures Pow2(32) == 0x1_0000_0000 && Pow2(64) == 0x1_0000_0000_0000_0000
  {
    assert Pow2(8) == 256;
    assert Pow2(16) == 256 * Pow2(8);
    assert Pow2(24) == 256 * Pow2(16);
    assert Pow2(31) == 128 * Pow2(24);
    assert Pow2(32) == 256 * Pow2(24);
    assert Pow2(40) == 256 * Pow2(32);
    assert Pow2(48) == 256 * Pow2(40);
    assert Pow2(56) == 256 * Pow2(48);
    assert Pow2(64) == 256 * Pow2(56);
  }

  /** Leading zeros of a 64-bit word, as the `clz` instruction counts them. */
  function Clz64(v: nat): (r: nat)
    requires v < 0x1_0000_0000_0000_0000
    ensures v == 0 <==> r == 64
    ensures v > 0 ==> r < 64 && Pow2(63 - r) <= v < Pow2(64 - r)
  {
    if v == 0 then 64
    else
      Pow2Values();
      Clz64(v / 2) - 1
  }

  lemma DivUnique(n: nat, base: nat, q: nat, r: nat)
    requires base > 0 && n == base * q + r && r < base
    ensures q == n / base && r == n % base
  {
    var d := n / base - q;
    assert base * d == r - n % base;
    MulFar(base, d);
  }

  lemma DivFacts(n: nat, d: nat)
    requires d >= 1
    ensures n == d * (n / d) + n % d && n % d < d
    ensures n >= d ==> n / d >= 1
    ensures n > 0 && d >= 2 ==> n / d < n
  {
    MulFar(d, n / d);
    if d >= 2 {
      MulFar(n / d, d - 1);
      MulDistributes(n / d, d - 1, 1);
    }
  }

  lemma {:induction false} MulFar(a: int, b: int)
    requires a >= 0
    ensures b >= 1 ==> a * b >= a
    ensures b <= -1 ==> a * b <= -a
    decreases if b < 0 then -b else b
  {
    if b > 1 {
      MulFar(a, b - 1);
      assert a * b == a * (b - 1) + a;
    } else if b < -1 {
      MulFar(a, b + 1);
      assert a * b == a * (b + 1) - a;
    }
  }

  lemma MulDistributes(a: int, b: int, c: int)
    ensures a * (b + c) == a * b + a * c && a * (b - c) == a * b - a * c
  {
  }

  /** `ALIGN_PGUP` followed by a shift: pages needed for that many bytes. */
  function PagesFor(bytes: nat): (n: nat)
    ensures n * PAGE_SIZE >= bytes
    ensures n > 0 ==> (n - 1) * PAGE_SIZE < bytes
  {
    (bytes + 4095) / 4096
  }
}
