/**
 The page allocator on values: one stack of chunk start pages for each order, and the operations of
 the kernel's allocator as functions from stacks to stacks. A chunk of order `o` starting at page `s`
 is the run of pages `[s, s + 2^o)`.
 */
module Zones {
  import opened Machine

  const MAX_ZONES: nat := 53

  type Stacks = z: seq<seq<nat>> | |z| == 53 witness seq(53, _ => [])

  function Empty(): Stacks {
    seq(53, _ => [])
  }

  // ---------------------------------------------------------------- operations

  function Push(z: Stacks, o: nat, s: nat): Stacks
    requires o < MAX_ZONES
  {
    z[o := [s] + z[o]]
  }

  function Pop(z: Stacks, o: nat): Stacks
    requires o < MAX_ZONES && z[o] != []
  {
    z[o := z[o][1..]]
  }

  function Log2(n: nat): (k: nat)
    requires 0 < n < 0x1_0000_0000
    ensures k < 32 && Pow2(k) <= n < 2 * Pow2(k)
  {
    var k := 63 - Clz64(n);
    assert k < 32 by {
      if k >= 32 {
        Pow2Values();
        if k > 32 { Pow2Monotone(32, k); }
      }
    }
    k
  }

  /** Hands back `cnt` pages from `off` on, as the chunks of the binary digits of `cnt`, highest first. */
  function Add(z: Stacks, off: nat, cnt: nat): Stacks
    requires cnt < 0x1_0000_0000
    decreases cnt
  {
    if cnt == 0 then z
    else
      var k := Log2(cnt);
      Add(Push(z, k, off), off + Pow2(k), cnt - Pow2(k))
  }

  /** Makes zone `o` non-empty by halving a chunk of a larger zone; `None` when there is none. */
  function Split(z: Stacks, o: nat): (r: Option<Stacks>)
    ensures r.Some? ==> o < MAX_ZONES && r.value[o] != []
    decreases MAX_ZONES - o
  {
    if o >= MAX_ZONES then None
    else if z[o] != [] then Some(z)
    else
      match Split(z, o + 1)
      case None => None
      case Some(z1) =>
        var s := z1[o + 1][0];
        Some(Push(Push(Pop(z1, o + 1), o, s), o, s + Pow2(o)))
  }

  /** The order of the chunk taken for a request of `n` pages. */
  function RequestOrder(n: nat): (o: nat)
    requires 0 < n < 0x8000_0000
    ensures o < 32 && n <= Pow2(o) < 2 * n
  {
    var k := Log2(n);
    Pow2Values();
    Remainder(n, Pow2(k));
    if n % Pow2(k) != 0 then k + 1 else k
  }

  lemma Remainder(n: nat, d: nat)
    requires 0 < d <= n < 2 * d
    ensures n % d == n - d
  {
    var q := n / d;
    assert n == d * q + n % d;
  }

  /** Takes `n` pages: the first `n` of a chunk of the request's order, handing the tail back. */
  function Take(z: Stacks, n: nat): Option<(nat, Stacks)>
    requires 0 < n < 0x8000_0000
  {
    var o := RequestOrder(n);
    match Split(z, o)
    case None => None
    case Some(z1) =>
      assert Pow2(o) < 0x1_0000_0000;
      Some((z1[o][0], Add(Pop(z1, o), z1[o][0] + n, Pow2(o) - n)))
  }

  // ---------------------------------------------------------------- measuring the free chunks

  /** A quantity of a run of pages, given its first page and its length. */
  type Weight = (nat, nat) -> nat

  ghost function StackSum(st: seq<nat>, o: nat, w: Weight): nat {
    if st == [] then 0 else w(st[0], Pow2(o)) + StackSum(st[1..], o, w)
  }

  ghost function SumFrom(z: Stacks, o: nat, w: Weight): nat
    requires o <= |z|
    decreases |z| - o
  {
    if o == |z| then 0 else StackSum(z[o], o, w) + SumFrom(z, o + 1, w)
  }

  /** The quantity over all free chunks. */
  ghost function Sum(z: Stacks, w: Weight): nat {
    SumFrom(z, 0, w)
  }

  lemma {:induction false} SumUpdate(z: Stacks, k: nat, o: nat, st: seq<nat>, w: Weight)
    requires k <= MAX_ZONES && o < MAX_ZONES
    ensures SumFrom(z[o := st], k, w) + (if k <= o then StackSum(z[o], o, w) else 0)
         == SumFrom(z, k, w) + (if k <= o then StackSum(st, o, w) else 0)
    decreases |z| - k
  {
    if k < |z| {
      SumUpdate(z, k + 1, o, st, w);
    }
  }

  lemma SumPush(z: Stacks, o: nat, s: nat, w: Weight)
    requires o < MAX_ZONES
    ensures Sum(Push(z, o, s), w) == Sum(z, w) + w(s, Pow2(o))
  {
    assert ([s] + z[o])[1..] == z[o];
    SumUpdate(z, 0, o, [s] + z[o], w);
  }

  lemma SumPop(z: Stacks, o: nat, w: Weight)
    requires o < MAX_ZONES && z[o] != []
    ensures Sum(z, w) == Sum(Pop(z, o), w) + w(z[o][0], Pow2(o))
  {
    SumUpdate(z, 0, o, z[o][1..], w);
  }

  /** Weights that do not care where a run is cut. */
  ghost predicate Additive(w: Weight) {
    && (forall s :: w(s, 0) == 0)
    && (forall s, a, b :: Cut(w, s, a, b))
  }

  ghost predicate Cut(w: Weight, s: nat, a: nat, b: nat) {
    w(s, a) + w(s + a, b) == w(s, a + b)
  }

  function Covers(p: nat): Weight {
    (s, n) => if s <= p < s + n then 1 else 0
  }

  function Length(): Weight {
    (s, n) => n
  }

  function Unit(): Weight {
    (s, n) => 1
  }

  lemma CoversAdditive(p: nat)
    ensures Additive(Covers(p))
  {
  }

  lemma LengthAdditive()
    ensures Additive(Length())
  {
  }

  ghost function Chunks(z: Stacks): nat {
    Sum(z, Unit())
  }

  ghost function FreePages(z: Stacks): nat {
    Sum(z, Length())
  }

  lemma {:induction false} EmptySum(k: nat, w: Weight)
    requires k <= MAX_ZONES
    ensures SumFrom(Empty(), k, w) == 0
    decreases MAX_ZONES - k
  {
    if k < MAX_ZONES {
      EmptySum(k + 1, w);
    }
  }

  lemma NoChunks()
    ensures Chunks(Empty()) == 0
  {
    EmptySum(0, Unit());
  }

  // ---------------------------------------------------------------- conservation

  lemma {:induction false} AddSum(z: Stacks, off: nat, cnt: nat, w: Weight)
    requires cnt < 0x1_0000_0000 && Additive(w)
    ensures Sum(Add(z, off, cnt), w) == Sum(z, w) + w(off, cnt)
    decreases cnt
  {
    if cnt != 0 {
      var k := Log2(cnt);
      AddSum(Push(z, k, off), off + Pow2(k), cnt - Pow2(k), w);
      SumPush(z, k, off, w);
      assert Cut(w, off, Pow2(k), cnt - Pow2(k));
    }
  }

  /** Splitting moves no page in or out of the free set. */
  lemma {:induction false} SplitSum(z: Stacks, o: nat, w: Weight)
    requires Additive(w) && Split(z, o).Some?
    ensures Sum(Split(z, o).value, w) == Sum(z, w)
    decreases MAX_ZONES - o
  {
    if z[o] == [] {
      SplitSum(z, o + 1, w);
      var z1 := Split(z, o + 1).value;
      var s := z1[o + 1][0];
      SumPop(z1, o + 1, w);
      SumPush(Pop(z1, o + 1), o, s, w);
      SumPush(Push(Pop(z1, o + 1), o, s), o, s + Pow2(o), w);
      assert Cut(w, s, Pow2(o), Pow2(o));
    }
  }

  /** A successful request takes exactly the `n` pages it returns. */
  lemma TakeSum(z: Stacks, n: nat, w: Weight)
    requires 0 < n < 0x8000_0000 && Additive(w) && Take(z, n).Some?
    ensures Sum(Take(z, n).value.1, w) + w(Take(z, n).value.0, n) == Sum(z, w)
  {
    var o := RequestOrder(n);
    SplitSum(z, o, w);
    var z1 := Split(z, o).value;
    var s := z1[o][0];
    SumPop(z1, o, w);
    AddSum(Pop(z1, o), s + n, Pow2(o) - n, w);
    assert Cut(w, s, n, Pow2(o) - n);
  }

  // ---------------------------------------------------------------- exactly what a split does

  /** `m` is the smallest order from `o` up that has a free chunk. */
  predicate Smallest(z: Stacks, o: nat, m: nat) {
    o <= m < MAX_ZONES && z[m] != [] && forall k | o <= k < m :: z[k] == []
  }

  /** Zone `k` after the top chunk of zone `m` has been halved down to order `o`. */
  function HalvedZone(z: Stacks, o: nat, m: nat, k: nat): seq<nat>
    requires o <= m < MAX_ZONES && z[m] != [] && k < MAX_ZONES
  {
    var s := z[m][0];
    if o == m || k < o || k > m then z[k]
    else if k == m then z[m][1..]
    else
      Pow2Le(k, m);
      Pow2Le(k + 1, m);
      if k > o then [s + (Pow2(m) - Pow2(k + 1))] else [s + (Pow2(m) - Pow2(o)), s + (Pow2(m) - Pow2(o + 1))]
  }

  /**
   A split halves the smallest sufficient chunk and no other: one chunk stays in each zone strictly
   between, two in zone `o`, everything else is as before.
   */
  lemma {:induction false} SplitExact(z: Stacks, o: nat, m: nat)
    requires Smallest(z, o, m)
    ensures Split(z, o).Some?
    ensures forall k | 0 <= k < MAX_ZONES :: Split(z, o).value[k] == HalvedZone(z, o, m, k)
    decreases m - o
  {
    if o < m {
      SplitExact(z, o + 1, m);
    }
  }

  lemma {:induction false} SplitFails(z: Stacks, o: nat)
    ensures Split(z, o) == None <==> forall k | o <= k < MAX_ZONES :: z[k] == []
    decreases MAX_ZONES - o
  {
    if o < MAX_ZONES && z[o] == [] {
      SplitFails(z, o + 1);
    }
  }

  lemma {:induction false} SmallestExists(z: Stacks, o: nat, k: nat) returns (m: nat)
    requires o <= k < MAX_ZONES && z[k] != []
    ensures Smallest(z, o, m) && m <= k
    decreases k - o
  {
    if z[o] != [] {
      m := o;
    } else {
      m := SmallestExists(z, o + 1, k);
    }
  }

  /** A request succeeds exactly when some zone of a sufficient order has a chunk. */
  lemma TakeSucceeds(z: Stacks, n: nat)
    requires 0 < n < 0x8000_0000
    ensures Take(z, n).Some? <==> exists k :: RequestOrder(n) <= k < MAX_ZONES && z[k] != []
  {
    SplitFails(z, RequestOrder(n));
  }

  /** The pages come from the end of the smallest sufficient chunk. */
  lemma TakeStart(z: Stacks, n: nat, m: nat)
    requires 0 < n < 0x8000_0000 && Smallest(z, RequestOrder(n), m)
    ensures Take(z, n).Some? && Take(z, n).value.0 == z[m][0] + Pow2(m) - Pow2(RequestOrder(n))
  {
    SplitExact(z, RequestOrder(n), m);
  }

  // ---------------------------------------------------------------- descriptors

  /** Number of one bits. */
  function PopCount(n: nat): (r: nat)
    ensures r <= n
  {
    if n == 0 then 0 else n % 2 + PopCount(n / 2)
  }

  lemma {:induction false} PopCountBelow(n: nat, k: nat)
    requires n < Pow2(k)
    ensures PopCount(n) <= k
  {
    if k > 0 && n > 0 {
      PopCountBelow(n / 2, k - 1);
    }
  }

  lemma {:induction false} PopCountTop(k: nat, r: nat)
    requires r < Pow2(k)
    ensures PopCount(Pow2(k) + r) == 1 + PopCount(r)
  {
    if k > 0 {
      assert (Pow2(k) + r) / 2 == Pow2(k - 1) + r / 2 && (Pow2(k) + r) % 2 == r % 2;
      PopCountTop(k - 1, r / 2);
    }
  }

  lemma PopCountLog(n: nat)
    requires 0 < n < 0x1_0000_0000
    ensures PopCount(n) == 1 + PopCount(n - Pow2(Log2(n)))
  {
    var k := Log2(n);
    PopCountTop(k, n - Pow2(k));
    assert Pow2(k) + (n - Pow2(k)) == n;
  }

  lemma AddNothing(z: Stacks, off: nat)
    ensures Add(z, off, 0) == z && PopCount(0) == 0
  {
  }

  /** One round of the loop of `add_memory_to_pool`. */
  lemma AddRound(z: Stacks, off: nat, cnt: nat)
    requires 0 < cnt < 0x1_0000_0000
    ensures var k := 63 - Clz64(cnt);
            && k < MAX_ZONES && Pow2(k) <= cnt
            && Add(z, off, cnt) == Add(Push(z, k, off), off + Pow2(k), cnt - Pow2(k))
            && PopCount(cnt) == 1 + PopCount(cnt - Pow2(k))
            && Chunks(Push(z, k, off)) == Chunks(z) + 1
  {
    PopCountLog(cnt);
    SumPush(z, Log2(cnt), off, Unit());
  }

  lemma {:induction false} AddChunks(z: Stacks, off: nat, cnt: nat)
    requires cnt < 0x1_0000_0000
    ensures Chunks(Add(z, off, cnt)) == Chunks(z) + PopCount(cnt)
    decreases cnt
  {
    hide Add, Chunks, PopCount, Push, Clz64;
    AddNothing(z, off);
    if cnt != 0 {
      var k := 63 - Clz64(cnt);
      AddRound(z, off, cnt);
      AddChunks(Push(z, k, off), off + Pow2(k), cnt - Pow2(k));
    }
  }

  /** How many chunks a split at `o` halves. */
  function Halvings(z: Stacks, o: nat): nat
    decreases MAX_ZONES - o
  {
    if o >= MAX_ZONES || z[o] != [] then 0 else 1 + Halvings(z, o + 1)
  }

  lemma {:induction false} HalvingsSmallest(z: Stacks, o: nat, m: nat)
    requires Smallest(z, o, m)
    ensures Halvings(z, o) == m - o
    decreases m - o
  {
    if o < m {
      HalvingsSmallest(z, o + 1, m);
    }
  }

  lemma {:induction false} SplitChunks(z: Stacks, o: nat)
    requires Split(z, o).Some?
    ensures Chunks(Split(z, o).value) == Chunks(z) + Halvings(z, o)
    decreases MAX_ZONES - o
  {
    if z[o] == [] {
      SplitChunks(z, o + 1);
      var z1 := Split(z, o + 1).value;
      var s := z1[o + 1][0];
      SumPop(z1, o + 1, Unit());
      SumPush(Pop(z1, o + 1), o, s, Unit());
      SumPush(Push(Pop(z1, o + 1), o, s), o, s + Pow2(o), Unit());
    }
  }

  /** Unused descriptors a split needs: the halved chunk's own one comes back after its halves are in. */
  function SplitNeed(z: Stacks, o: nat): nat {
    if Halvings(z, o) == 0 then 0 else Halvings(z, o) + 1
  }

  function TakeNeed(z: Stacks, n: nat): nat
    requires 0 < n < 0x8000_0000
  {
    var o := RequestOrder(n);
    Max(SplitNeed(z, o), Halvings(z, o) + PopCount(Pow2(o) - n))
  }

  lemma TakeChunks(z: Stacks, n: nat)
    requires 0 < n < 0x8000_0000 && Take(z, n).Some?
    ensures Chunks(Take(z, n).value.1) + 1
         == Chunks(z) + Halvings(z, RequestOrder(n)) + PopCount(Pow2(RequestOrder(n)) - n)
  {
    var o := RequestOrder(n);
    SplitChunks(z, o);
    var z1 := Split(z, o).value;
    SumPop(z1, o, Unit());
    AddChunks(Pop(z1, o), z1[o][0] + n, Pow2(o) - n);
  }

  lemma {:induction false} StackChunks(st: seq<nat>, o: nat)
    ensures StackSum(st, o, Unit()) == |st| && StackSum(st, o, Length()) == |st| * Pow2(o)
  {
    if st != [] {
      StackChunks(st[1..], o);
    }
  }

  lemma {:induction false} ZoneBound(n: nat, p: nat)
    requires p >= 1
    ensures n <= n * p
    ensures p >= 2 ==> 2 * n <= n * p
    ensures n > 0 ==> n + p - 1 <= n * p
  {
    if n > 0 {
      ZoneBound(n - 1, p);
      assert n * p == (n - 1) * p + p;
    }
  }

  /** Every chunk has a page, those above order 0 have two, and a chunk of order `m` has `2^m`. */
  lemma {:induction false} ChunksBound(z: Stacks, k: nat)
    requires k <= MAX_ZONES
    ensures SumFrom(z, k, Unit()) <= SumFrom(z, k, Length())
    ensures 2 * SumFrom(z, k, Unit()) <= SumFrom(z, k, Length()) + (if k == 0 then |z[0]| else 0)
    decreases |z| - k
  {
    if k < |z| {
      ChunksBound(z, k + 1);
      StackChunks(z[k], k);
      ZoneBound(|z[k]|, Pow2(k));
    }
  }

  lemma {:induction false} ChunkExcess(z: Stacks, k: nat, m: nat)
    requires k <= m < MAX_ZONES && z[m] != []
    ensures SumFrom(z, k, Unit()) + Pow2(m) - 1 <= SumFrom(z, k, Length())
    decreases m - k
  {
    StackChunks(z[k], k);
    ZoneBound(|z[k]|, Pow2(k));
    if k < m {
      ChunkExcess(z, k + 1, m);
    } else {
      ChunksBound(z, k + 1);
    }
  }

  lemma SplitNeedBound(z: Stacks, o: nat, m: nat)
    requires Smallest(z, o, m)
    ensures Chunks(z) + SplitNeed(z, o) <= Max(FreePages(z), 3)
    ensures FreePages(z) == 1 ==> Chunks(z) + SplitNeed(z, o) <= 1
  {
    HalvingsSmallest(z, o, m);
    ChunksBound(z, 0);
    ChunkExcess(z, 0, m);
    PowerBeats(m);
  }

  /** No request needs more than `max(free pages, 3)` descriptors in all, chunks in place included. */
  lemma TakeNeedBound(z: Stacks, n: nat)
    requires 0 < n < 0x8000_0000 && Take(z, n).Some?
    ensures Chunks(z) + TakeNeed(z, n) <= Max(FreePages(z), 3)
    ensures FreePages(z) == 1 ==> Chunks(z) + TakeNeed(z, n) <= 1
  {
    var o := RequestOrder(n);
    SplitFails(z, o);
    var k :| o <= k < MAX_ZONES && z[k] != [];
    var m := SmallestExists(z, o, k);
    SplitNeedBound(z, o, m);
    TakeChunks(z, n);
    LengthAdditive();
    TakeSum(z, n, Length());
    ChunksBound(Take(z, n).value.1, 0);
  }

  lemma {:induction false} PowerBeats(m: nat)
    ensures m >= 2 ==> Pow2(m) >= m + 2
    ensures m == 1 ==> Pow2(m) == 2
  {
    if m > 2 {
      PowerBeats(m - 1);
    }
  }
}
