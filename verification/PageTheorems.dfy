/** What every run of the page allocator guarantees, and exactly when one can run out of descriptors. */
module PageTheorems {
  import opened Machine
  import opened Zones
  import opened PageRuns

  // ---------------------------------------------------------------- every page has one holder

  /** A place a page can be: in the `i`-th chunk of zone `o`, or in the `j`-th live run. */
  datatype Holder = Chunk(o: nat, i: nat) | Live(j: nat)

  ghost predicate Holds(st: Pages, h: Holder, p: nat) {
    match h
    case Chunk(o, i) => o < MAX_ZONES && i < |st.zones[o]| && st.zones[o][i] <= p < st.zones[o][i] + Pow2(o)
    case Live(j) => j < |st.live| && st.live[j].start <= p < st.live[j].start + st.live[j].count
  }

  ghost predicate Held(st: Pages, p: nat) {
    exists h :: Holds(st, h, p)
  }

  lemma {:induction false} StackTwo(st: seq<nat>, o: nat, w: Weight, i: nat, j: nat)
    requires i <= j < |st|
    ensures StackSum(st, o, w) >= w(st[j], Pow2(o)) + (if i < j then w(st[i], Pow2(o)) else 0)
  {
    if i > 0 {
      StackTwo(st[1..], o, w, i - 1, j - 1);
    } else if j > 0 {
      StackTwo(st[1..], o, w, j - 1, j - 1);
    }
  }

  lemma {:induction false} SumTwo(z: Stacks, k: nat, w: Weight, o: nat, o': nat)
    requires k <= o <= o' < MAX_ZONES
    ensures SumFrom(z, k, w) >= StackSum(z[o'], o', w) + (if o < o' then StackSum(z[o], o, w) else 0)
    decreases o' - k
  {
    if k < o {
      SumTwo(z, k + 1, w, o, o');
    } else if o < o' {
      SumTwo(z, k + 1, w, o', o');
    }
  }

  lemma {:induction false} LiveTwo(s: seq<Run>, w: Weight, i: nat, j: nat)
    requires i <= j < |s|
    ensures LiveSum(s, w) >= w(s[j].start, s[j].count) + (if i < j then w(s[i].start, s[i].count) else 0)
  {
    if i > 0 {
      LiveTwo(s[1..], w, i - 1, j - 1);
    } else if j > 0 {
      LiveTwo(s[1..], w, j - 1, j - 1);
    }
  }

  lemma {:induction false} StackWitness(st: seq<nat>, o: nat, w: Weight) returns (i: nat)
    requires StackSum(st, o, w) > 0
    ensures i < |st| && w(st[i], Pow2(o)) > 0
  {
    if w(st[0], Pow2(o)) > 0 {
      i := 0;
    } else {
      i := StackWitness(st[1..], o, w);
      i := i + 1;
    }
  }

  lemma {:induction false} SumWitness(z: Stacks, k: nat, w: Weight) returns (o: nat, i: nat)
    requires k <= MAX_ZONES && SumFrom(z, k, w) > 0
    ensures k <= o < MAX_ZONES && i < |z[o]| && w(z[o][i], Pow2(o)) > 0
    decreases MAX_ZONES - k
  {
    if StackSum(z[k], k, w) > 0 {
      o := k;
      i := StackWitness(z[k], k, w);
    } else {
      o, i := SumWitness(z, k + 1, w);
    }
  }

  lemma {:induction false} LiveWitness(s: seq<Run>, w: Weight) returns (j: nat)
    requires LiveSum(s, w) > 0
    ensures j < |s| && w(s[j].start, s[j].count) > 0
  {
    if w(s[0].start, s[0].count) > 0 {
      j := 0;
    } else {
      j := LiveWitness(s[1..], w);
      j := j + 1;
    }
  }

  lemma HolderWeighs(st: Pages, h: Holder, p: nat)
    requires Holds(st, h, p)
    ensures h.Chunk? ==> Sum(st.zones, Covers(p)) >= 1
    ensures h.Live? ==> LiveSum(st.live, Covers(p)) >= 1
  {
    match h
    case Chunk(o, i) =>
      StackTwo(st.zones[o], o, Covers(p), i, i);
      SumTwo(st.zones, 0, Covers(p), o, o);
    case Live(j) =>
      LiveTwo(st.live, Covers(p), j, j);
  }

  lemma TwoChunksWeigh(st: Pages, a: Holder, b: Holder, p: nat)
    requires a.Chunk? && b.Chunk? && a != b && Holds(st, a, p) && Holds(st, b, p)
    ensures Sum(st.zones, Covers(p)) >= 2
  {
    if a.o == b.o {
      StackTwo(st.zones[a.o], a.o, Covers(p), if a.i < b.i then a.i else b.i, if a.i < b.i then b.i else a.i);
      SumTwo(st.zones, 0, Covers(p), a.o, a.o);
    } else {
      StackTwo(st.zones[a.o], a.o, Covers(p), a.i, a.i);
      StackTwo(st.zones[b.o], b.o, Covers(p), b.i, b.i);
      SumTwo(st.zones, 0, Covers(p), if a.o < b.o then a.o else b.o, if a.o < b.o then b.o else a.o);
    }
  }

  lemma OneHolder(st: Pages, a: Holder, b: Holder, p: nat)
    requires Inv(st) && Holds(st, a, p) && Holds(st, b, p)
    ensures a == b
  {
    assert Conserved(st, Covers(p));
    HolderWeighs(st, a, p);
    HolderWeighs(st, b, p);
    if a != b {
      if a.Chunk? && b.Chunk? {
        TwoChunksWeigh(st, a, b, p);
      } else if a.Live? && b.Live? {
        LiveTwo(st.live, Covers(p), if a.j < b.j then a.j else b.j, if a.j < b.j then b.j else a.j);
      }
    }
  }

  lemma SomeHolder(st: Pages, p: nat) returns (h: Holder)
    requires Inv(st) && p < st.managed
    ensures Holds(st, h, p)
  {
    assert Conserved(st, Covers(p));
    if Sum(st.zones, Covers(p)) > 0 {
      var o, i := SumWitness(st.zones, 0, Covers(p));
      h := Chunk(o, i);
    } else {
      var j := LiveWitness(st.live, Covers(p));
      h := Live(j);
    }
  }

  /** In every reachable state the free chunks and live runs partition the managed pages. */
  lemma PagesPartitioned(managed: nat, descriptors: nat, ops: seq<Op>)
    requires managed < 0x8000_0000 && Boot(managed, descriptors, ops).Done?
    ensures var st := Boot(managed, descriptors, ops).st;
            && (forall p: nat :: p < managed <==> Held(st, p))
            && (forall p: nat, a, b :: Holds(st, a, p) && Holds(st, b, p) ==> a == b)
  {
    RunInv(managed, descriptors, ops);
    var st := Boot(managed, descriptors, ops).st;
    forall p: nat
      ensures p < managed <==> Held(st, p)
    {
      if p < managed {
        var h := SomeHolder(st, p);
      }
      if h :| Holds(st, h, p) {
        assert Conserved(st, Covers(p));
        HolderWeighs(st, h, p);
      }
    }
    forall p: nat, a, b | Holds(st, a, p) && Holds(st, b, p)
      ensures a == b
    {
      OneHolder(st, a, b, p);
    }
  }

  /** No two live runs share a page. */
  lemma LiveDisjoint(st: Pages, i: nat, j: nat)
    requires Inv(st) && i < j < |st.live|
    ensures st.live[i].start + st.live[i].count <= st.live[j].start
         || st.live[j].start + st.live[j].count <= st.live[i].start
  {
    var a, b := st.live[i], st.live[j];
    var p := if a.start < b.start then b.start else a.start;
    if p < a.start + a.count && p < b.start + b.count {
      OneHolder(st, Live(i), Live(j), p);
    }
  }

  lemma LiveInRange(st: Pages, r: Run)
    requires Inv(st) && r in st.live
    ensures r.start + r.count <= st.managed
  {
    var j :| 0 <= j < |st.live| && st.live[j] == r;
    var p := r.start + r.count - 1;
    assert Conserved(st, Covers(p));
    HolderWeighs(st, Live(j), p);
  }

  /** Free chunks lie in the managed pages, so no start page or chunk size leaves the 32-bit range. */
  lemma ChunkInRange(st: Pages, o: nat, i: nat)
    requires Inv(st) && o < MAX_ZONES && i < |st.zones[o]|
    ensures st.zones[o][i] + Pow2(o) <= st.managed
  {
    var p := st.zones[o][i] + Pow2(o) - 1;
    assert Conserved(st, Covers(p));
    HolderWeighs(st, Chunk(o, i), p);
  }

  // ---------------------------------------------------------------- nothing is ever merged

  lemma {:induction false} PieceSize(off: nat, cnt: nat, top: nat)
    requires cnt < 0x1_0000_0000 && cnt < 2 * Pow2(top)
    ensures forall c | c in Pieces(off, cnt) :: c.count <= Pow2(top)
    decreases cnt
  {
    if cnt != 0 {
      var k := Log2(cnt);
      if k > top { Pow2Monotone(top, k); }
      Pow2Le(k, top);
      PieceSize(off + Pow2(k), cnt - Pow2(k), top);
    }
  }

  /** A request larger than the largest chunk created at boot fails in every reachable state. */
  lemma NoMerge(managed: nat, descriptors: nat, ops: seq<Op>, n: nat)
    requires 0 < managed < 0x8000_0000 && Boot(managed, descriptors, ops).Done?
    requires Pow2(Log2(managed)) < n < 0x8000_0000
    ensures AllocStep(Boot(managed, descriptors, ops).st, n) == NoMemory
  {
    RunInv(managed, descriptors, ops);
    var st := Boot(managed, descriptors, ops).st;
    if Take(st.zones, n).Some? {
      TakeInside(Pieces(0, managed), st.zones, n);
      PieceSize(0, managed, Log2(managed));
    }
  }

  /** Pages handed out lie inside one chunk created at boot, whatever was allocated and freed before. */
  lemma Confined(managed: nat, descriptors: nat, ops: seq<Op>, n: nat)
    requires managed < 0x8000_0000 && Boot(managed, descriptors, ops).Done? && 0 < n < 0x8000_0000
    requires AllocStep(Boot(managed, descriptors, ops).st, n).Done?
    ensures Inside(Pieces(0, managed), Take(Boot(managed, descriptors, ops).st.zones, n).value.0, n)
  {
    RunInv(managed, descriptors, ops);
    TakeInside(Pieces(0, managed), Boot(managed, descriptors, ops).st.zones, n);
  }

  // ---------------------------------------------------------------- when descriptors suffice

  /** The pool has a descriptor a page; two pages need a third one while their chunk is being halved. */
  predicate Ample(managed: nat, descriptors: nat) {
    managed <= descriptors && (managed == 2 ==> descriptors >= 3)
  }

  lemma StepNeverExhausts(st: Pages, op: Op)
    requires Inv(st) && Ample(st.managed, st.descriptors)
    ensures Step(st, op) != PoolExhausted
  {
    if Legal(st, op) {
      LengthAdditive();
      match op
      case Alloc(n) =>
        if Take(st.zones, n).Some? {
          TakeNeedBound(st.zones, n);
          TakeSum(st.zones, n, Length());
        }
      case Free(r) =>
        var z := Add(st.zones, r.start, r.count);
        AddChunks(st.zones, r.start, r.count);
        AddSum(st.zones, r.start, r.count, Length());
        LiveSumRemove(st.live, r, Length());
        ChunksBound(z, 0);
    }
  }

  lemma {:induction false} ExecNeverExhausts(st: Pages, ops: seq<Op>)
    requires Inv(st) && Ample(st.managed, st.descriptors)
    ensures Exec(st, ops) != PoolExhausted
    decreases |ops|
  {
    if ops != [] {
      StepNeverExhausts(st, ops[0]);
      if Step(st, ops[0]).Done? {
        StepInv(st, ops[0]);
        ExecNeverExhausts(Step(st, ops[0]).st, ops[1..]);
      }
    }
  }

  ghost predicate Singles(live: seq<Run>) {
    forall r | r in live :: r.count == 1
  }

  lemma ExecCons(st: Pages, op: Op, ops: seq<Op>)
    requires Step(st, op).Done?
    ensures Exec(st, [op] + ops) == Exec(Step(st, op).st, ops)
  {
    assert ([op] + ops)[1..] == ops;
  }

  lemma {:induction false} ExecAppend(st: Pages, a: seq<Op>, b: seq<Op>)
    requires Exec(st, a).Done?
    ensures Exec(st, a + b) == Exec(Exec(st, a).st, b)
    decreases |a|
  {
    if a == [] {
      assert a + b == b;
    } else {
      assert (a + b)[1..] == a[1..] + b;
      ExecAppend(Step(st, a[0]).st, a[1..], b);
    }
  }

  /** Allocates single pages until none is free. */
  lemma {:induction false} Drain(st: Pages) returns (ops: seq<Op>)
    requires Inv(st) && Singles(st.live)
    ensures var e := Exec(st, ops);
            e == PoolExhausted || (e.Done? && Inv(e.st) && Singles(e.st.live) && FreePages(e.st.zones) == 0
                                   && e.st.managed == st.managed && e.st.descriptors == st.descriptors)
    decreases FreePages(st.zones)
  {
    if FreePages(st.zones) == 0 {
      ops := [];
    } else {
      var o, i := SumWitness(st.zones, 0, Length());
      TakeSucceeds(st.zones, 1);
      LengthAdditive();
      TakeSum(st.zones, 1, Length());
      var op := Alloc(1);
      if Step(st, op) == PoolExhausted {
        ops := [op];
      } else {
        StepInv(st, op);
        var rest := Drain(Step(st, op).st);
        ExecCons(st, op, rest);
        ops := [op] + rest;
      }
    }
  }

  /** Frees single pages until the descriptors run out. */
  lemma {:induction false} Overflow(st: Pages) returns (ops: seq<Op>)
    requires Inv(st) && Singles(st.live) && Chunks(st.zones) + |st.live| > st.descriptors
    ensures Exec(st, ops) == PoolExhausted
    decreases |st.live|
  {
    var r := st.live[0];
    assert PopCount(1) == 1;
    if Available(st) == 0 {
      ops := [Free(r)];
    } else {
      StepInv(st, Free(r));
      AddChunks(st.zones, r.start, 1);
      RemoveOneMultiset(st.live, r);
      var rest := Overflow(Step(st, Free(r)).st);
      ExecCons(st, Free(r), rest);
      ops := [Free(r)] + rest;
    }
  }

  lemma {:induction false} SinglesLength(live: seq<Run>)
    requires Singles(live)
    ensures LiveSum(live, Length()) == |live|
  {
    if live != [] {
      SinglesLength(live[1..]);
    }
  }

  lemma ScarceExhausts(managed: nat, descriptors: nat) returns (ops: seq<Op>)
    requires descriptors < managed < 0x8000_0000
    ensures Boot(managed, descriptors, ops) == PoolExhausted
  {
    ops := [];
    if Start(managed, descriptors).Done? {
      StartInv(managed, descriptors);
      var st := Start(managed, descriptors).st;
      ops := Drain(st);
      if Exec(st, ops).Done? {
        var st1 := Exec(st, ops).st;
        SinglesLength(st1.live);
        ChunksBound(st1.zones, 0);
        var rest := Overflow(st1);
        ExecAppend(st, ops, rest);
        ops := ops + rest;
      }
    }
  }

  lemma TwoPagesExhaust() returns (ops: seq<Op>)
    ensures Boot(2, 2, ops) == PoolExhausted
  {
    assert PopCount(2) == 1;
    AddChunks(Empty(), 0, 2);
    EmptySum(0, Unit());
    assert Pow2(1) == 2;
    assert Log2(2) == 1;
    var z := Add(Empty(), 0, 2);
    assert z == Push(Empty(), 1, 0);
    assert RequestOrder(1) == 0;
    assert Smallest(z, 0, 1);
    HalvingsSmallest(z, 0, 1);
    TakeStart(z, 1, 1);
    ops := [Alloc(1)];
    assert Step(Start(2, 2).st, Alloc(1)) == PoolExhausted;
  }

  lemma AmpleNeverExhausts(managed: nat, descriptors: nat, ops: seq<Op>)
    requires managed < 0x8000_0000 && Ample(managed, descriptors)
    ensures Boot(managed, descriptors, ops) != PoolExhausted
  {
    if Start(managed, descriptors).Done? {
      StartInv(managed, descriptors);
      ExecNeverExhausts(Start(managed, descriptors).st, ops);
    }
  }

  /** The "Page pool exhausted" panic can be reached by some run exactly when the pool is not ample. */
  lemma ExhaustionExact(managed: nat, descriptors: nat)
    requires managed < 0x8000_0000
    ensures (exists ops :: Boot(managed, descriptors, ops) == PoolExhausted) <==> !Ample(managed, descriptors)
  {
    hide Boot;
    if Ample(managed, descriptors) {
      forall ops
        ensures Boot(managed, descriptors, ops) != PoolExhausted
      {
        AmpleNeverExhausts(managed, descriptors, ops);
      }
    } else if descriptors < managed {
      var ops := ScarceExhausts(managed, descriptors);
    } else {
      var ops := TwoPagesExhaust();
    }
  }

  // ---------------------------------------------------------------- page_init

  /** `page_pool_size`, for `ram` bytes from the heap start on. */
  function PoolSize(ram: nat): nat {
    var pages := PagesFor(ram);
    if pages > 65536 then 65536 else pages
  }

  /** Pages left once the pool itself, 16 bytes a descriptor, has been taken off the front. */
  function ManagedPages(ram: nat): nat
    requires 4096 <= ram < 0x7FFF_F000
  {
    assert PagesFor(16 * PoolSize(ram)) * 4096 <= ram;
    (ram - PagesFor(16 * PoolSize(ram)) * 4096) / 4096
  }

  /** Below the cap there is always one descriptor more than pages. */
  lemma PoolCoversPages(ram: nat)
    requires 4096 <= ram <= 65536 * 4096
    ensures ManagedPages(ram) + 1 <= PoolSize(ram)
  {
  }

  /** The pool always holds the chunks created at boot. */
  lemma StartSucceeds(ram: nat)
    requires 4096 <= ram < 0x7FFF_F000
    ensures ManagedPages(ram) < 0x8_0000 && PopCount(ManagedPages(ram)) <= PoolSize(ram)
    ensures Start(ManagedPages(ram), PoolSize(ram))
         == Done(Pages(ManagedPages(ram), PoolSize(ram), Add(Empty(), 0, ManagedPages(ram)), []))
    ensures Inv(Start(ManagedPages(ram), PoolSize(ram)).st)
  {
    Pow2Values();
    PopCountBelow(ManagedPages(ram), 31);
    if ram <= 65536 * 4096 {
      PoolCoversPages(ram);
    }
    StartInv(ManagedPages(ram), PoolSize(ram));
  }

  /** With less than a page of memory the count of pages left over would be negative. */
  lemma TooLittleMemory(ram: nat)
    requires 0 < ram < 4096
    ensures ram < PagesFor(16 * PoolSize(ram)) * 4096
  {
  }

  /** For a kernel booted with `ram` bytes, the panic is reachable exactly from 257 MiB and 4 KiB up. */
  lemma BootExhaustionExact(ram: nat)
    requires 4096 <= ram < 0x7FFF_F000
    ensures (exists ops :: Boot(ManagedPages(ram), PoolSize(ram), ops) == PoolExhausted) <==> ram >= 0x1010_1000
  {
    ExhaustionExact(ManagedPages(ram), PoolSize(ram));
    if ram <= 65536 * 4096 {
      PoolCoversPages(ram);
    }
  }
}
