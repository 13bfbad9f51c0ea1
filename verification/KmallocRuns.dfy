/**
 The kernel heap on values: a list of chunks, each a run of pages with a 32-byte header and the blocks
 handed out of it one behind the other; and whole runs mixing it with direct page allocation.
 */
module KmallocRuns {
  import opened Machine
  import opened PageRuns
  import opened PageTheorems

  const HEADER: nat := 32

  /** The pages of a chunk and the aligned sizes of its blocks in order of allocation. */
  datatype HeapChunk = HeapChunk(run: Run, sizes: seq<nat>)

  /** `base` is the address of page 0. */
  datatype Heap = Heap(pages: Pages, base: nat, chunks: seq<HeapChunk>)

  datatype HeapOutcome = Ready(heap: Heap, addr: nat) | Panic | Refused

  datatype HeapOp = Kmalloc(size: nat) | PageAlloc(n: nat) | PageFree(run: Run)

  function Total(sizes: seq<nat>): nat {
    if sizes == [] then 0 else Total(sizes[..|sizes| - 1]) + sizes[|sizes| - 1]
  }

  function Offset(c: HeapChunk): nat {
    HEADER + Total(c.sizes)
  }

  function Address(base: nat, c: HeapChunk): nat {
    base + c.run.start * PAGE_SIZE
  }

  /** `ALIGN_UP` */
  function Align16(size: nat): (a: nat)
    ensures a % 16 == 0 && size <= a < size + 16
  {
    (size + 15) / 16 * 16
  }

  /** Sizes whose rounding stays within 32 bits. */
  predicate SizeOk(size: nat) {
    size <= 0xFFFF_EFD0
  }

  // ---------------------------------------------------------------- transitions

  predicate Fits(c: HeapChunk, size: nat) {
    c.run.count * PAGE_SIZE - Offset(c) > size
  }

  /** The first chunk with room, or the number of chunks. */
  function FirstFit(cs: seq<HeapChunk>, size: nat): (i: nat)
    ensures i <= |cs| && (i < |cs| ==> Fits(cs[i], size))
    ensures forall j | 0 <= j < i :: !Fits(cs[j], size)
  {
    if cs == [] || Fits(cs[0], size) then 0 else 1 + FirstFit(cs[1..], size)
  }

  function ChunkPages(size: nat): (n: nat)
    requires SizeOk(size)
    ensures 0 < n <= 0x10_0000 && HEADER + Align16(size) <= n * PAGE_SIZE
  {
    PagesFor(Align16(size) + HEADER)
  }

  ghost function KmallocStep(h: Heap, size: nat): HeapOutcome
    requires SizeOk(size)
  {
    var a := Align16(size);
    var i := FirstFit(h.chunks, a);
    if i < |h.chunks| then
      var c := h.chunks[i];
      Ready(h.(chunks := h.chunks[i := c.(sizes := c.sizes + [a])]), Address(h.base, c) + Offset(c))
    else
      match AllocStep(h.pages, ChunkPages(size))
      case Done(st) =>
        var c := HeapChunk(st.live[|st.live| - 1], [a]);
        Ready(h.(pages := st, chunks := h.chunks + [c]), Address(h.base, c) + HEADER)
      case _ => Panic
  }

  ghost function PagesStep(h: Heap, op: Op): HeapOutcome {
    match Step(h.pages, op)
    case Done(st) => Ready(h.(pages := st), 0)
    case Illegal => Refused
    case _ => Panic
  }

  function ChunkRuns(cs: seq<HeapChunk>): (rs: seq<Run>)
    ensures |rs| == |cs| && forall i | 0 <= i < |cs| :: rs[i] == cs[i].run
  {
    seq(|cs|, i requires 0 <= i < |cs| => cs[i].run)
  }

  /** `live` without one occurrence of each of `rs`. */
  ghost function Without(live: seq<Run>, rs: seq<Run>): seq<Run>
    decreases |rs|
  {
    if rs == [] then live
    else if rs[0] in live then Without(RemoveOne(live, rs[0]), rs[1..])
    else Without(live, rs[1..])
  }

  /** Live runs that are not heap chunks. */
  ghost function Others(h: Heap): seq<Run> {
    Without(h.pages.live, ChunkRuns(h.chunks))
  }

  /** Users of the page allocator free only what they got from it; the heap frees nothing. */
  ghost function HeapStep(h: Heap, op: HeapOp): HeapOutcome {
    match op
    case Kmalloc(size) => if SizeOk(size) then KmallocStep(h, size) else Refused
    case PageAlloc(n) => PagesStep(h, Alloc(n))
    case PageFree(r) => if r in Others(h) then PagesStep(h, Free(r)) else Refused
  }

  ghost function HeapExec(h: Heap, ops: seq<HeapOp>): HeapOutcome
    decreases |ops|
  {
    if ops == [] then Ready(h, 0)
    else
      match HeapStep(h, ops[0])
      case Ready(h', _) => HeapExec(h', ops[1..])
      case stop => stop
  }

  /** `kmalloc_init`: the first chunk, four pages. */
  ghost function HeapStart(pages: Pages, base: nat): HeapOutcome {
    match AllocStep(pages, 4)
    case Done(st) => Ready(Heap(st, base, [HeapChunk(st.live[|st.live| - 1], [])]), 0)
    case _ => Panic
  }

  // ---------------------------------------------------------------- invariant

  ghost predicate Aligned(sizes: seq<nat>) {
    forall i | 0 <= i < |sizes| :: sizes[i] % 16 == 0
  }

  ghost predicate ChunkOk(c: HeapChunk) {
    Offset(c) <= c.run.count * PAGE_SIZE && Aligned(c.sizes)
  }

  ghost predicate HeapInv(h: Heap) {
    && Inv(h.pages) && h.base % PAGE_SIZE == 0
    && multiset(ChunkRuns(h.chunks)) <= multiset(h.pages.live)
    && forall c | c in h.chunks :: ChunkOk(c)
  }

  lemma {:induction false} WithoutMultiset(live: seq<Run>, rs: seq<Run>)
    requires multiset(rs) <= multiset(live)
    ensures multiset(Without(live, rs)) + multiset(rs) == multiset(live)
    decreases |rs|
  {
    if rs != [] {
      assert rs == [rs[0]] + rs[1..];
      assert rs[0] in multiset(live);
      RemoveOneMultiset(live, rs[0]);
      WithoutMultiset(RemoveOne(live, rs[0]), rs[1..]);
    }
  }

  lemma OthersMultiset(h: Heap)
    requires HeapInv(h)
    ensures multiset(ChunkRuns(h.chunks) + Others(h)) == multiset(h.pages.live)
  {
    WithoutMultiset(h.pages.live, ChunkRuns(h.chunks));
  }

  lemma ChunkGrows(c: HeapChunk, a: nat)
    requires ChunkOk(c) && a % 16 == 0 && Offset(c) + a <= c.run.count * PAGE_SIZE
    ensures ChunkOk(c.(sizes := c.sizes + [a])) && Offset(c.(sizes := c.sizes + [a])) == Offset(c) + a
  {
    OffsetGrows(c, a);
  }

  lemma OffsetOne(r: Run, a: nat)
    ensures Offset(HeapChunk(r, [a])) == HEADER + a
  {
    OffsetGrows(HeapChunk(r, []), a);
    assert [] + [a] == [a];
  }

  lemma FreshChunk(r: Run, a: nat)
    requires a % 16 == 0 && HEADER + a <= r.count * PAGE_SIZE
    ensures ChunkOk(HeapChunk(r, [a])) && Offset(HeapChunk(r, [a])) == HEADER + a
  {
    OffsetOne(r, a);
  }

  lemma KmallocInv(h: Heap, size: nat)
    requires HeapInv(h) && SizeOk(size) && KmallocStep(h, size).Ready?
    ensures HeapInv(KmallocStep(h, size).heap)
  {
    hide AllocStep, Inv, ChunkOk, Offset;
    var a := Align16(size);
    var i := FirstFit(h.chunks, a);
    var h' := KmallocStep(h, size).heap;
    if i < |h.chunks| {
      var c := h.chunks[i];
      assert c in h.chunks;
      ChunkGrows(c, a);
      assert ChunkRuns(h'.chunks) == ChunkRuns(h.chunks);
    } else {
      AllocLive(h.pages, ChunkPages(size));
      StepInv(h.pages, Alloc(ChunkPages(size)));
      var c := h'.chunks[|h.chunks|];
      FreshChunk(c.run, a);
      assert ChunkRuns(h'.chunks) == ChunkRuns(h.chunks) + [c.run];
    }
  }

  lemma KmallocFits(h: Heap, size: nat)
    requires SizeOk(size) && FirstFit(h.chunks, Align16(size)) < |h.chunks|
    ensures var i := FirstFit(h.chunks, Align16(size));
            var c := h.chunks[i];
            KmallocStep(h, size) == Ready(h.(chunks := h.chunks[i := c.(sizes := c.sizes + [Align16(size)])]),
                                          Address(h.base, c) + Offset(c))
  {
  }

  lemma KmallocOpens(h: Heap, size: nat)
    requires SizeOk(size) && FirstFit(h.chunks, Align16(size)) == |h.chunks|
    ensures AllocStep(h.pages, ChunkPages(size)).Done? ==>
              var st := AllocStep(h.pages, ChunkPages(size)).st;
              var c := HeapChunk(st.live[|st.live| - 1], [Align16(size)]);
              && st.live != []
              && KmallocStep(h, size) == Ready(h.(pages := st, chunks := h.chunks + [c]), Address(h.base, c) + HEADER)
              && c.run.count == ChunkPages(size) && ChunkOk(c) && Offset(c) == HEADER + Align16(size)
    ensures !AllocStep(h.pages, ChunkPages(size)).Done? ==> KmallocStep(h, size) == Panic
  {
    if AllocStep(h.pages, ChunkPages(size)).Done? {
      var st := AllocStep(h.pages, ChunkPages(size)).st;
      AllocLive(h.pages, ChunkPages(size));
      FreshChunk(st.live[|st.live| - 1], Align16(size));
    }
  }

  lemma HeapStepInv(h: Heap, op: HeapOp)
    requires HeapInv(h) && HeapStep(h, op).Ready?
    ensures HeapInv(HeapStep(h, op).heap)
  {
    match op
    case Kmalloc(size) => KmallocInv(h, size);
    case PageAlloc(n) =>
      StepInv(h.pages, Alloc(n));
      AllocLive(h.pages, n);
    case PageFree(r) =>
      StepInv(h.pages, Free(r));
      OthersMultiset(h);
      assert r in multiset(Others(h));
      RemoveOneMultiset(h.pages.live, r);
  }

  lemma {:induction false} HeapExecInv(h: Heap, ops: seq<HeapOp>)
    requires HeapInv(h) && HeapExec(h, ops).Ready?
    ensures HeapInv(HeapExec(h, ops).heap)
    decreases |ops|
  {
    if ops != [] {
      HeapStepInv(h, ops[0]);
      HeapExecInv(HeapStep(h, ops[0]).heap, ops[1..]);
    }
  }

  // ---------------------------------------------------------------- disjointness

  ghost predicate Apart(a: nat, n: nat, b: nat, m: nat) {
    a + n <= b || b + m <= a
  }

  /** Chunks and the live runs of other users never share a byte. */
  lemma RunsApart(h: Heap, i: nat, j: nat)
    requires HeapInv(h) && i < j < |ChunkRuns(h.chunks) + Others(h)|
    ensures var owned := ChunkRuns(h.chunks) + Others(h);
            Apart(owned[i].start * PAGE_SIZE, owned[i].count * PAGE_SIZE,
                  owned[j].start * PAGE_SIZE, owned[j].count * PAGE_SIZE)
  {
    var owned := ChunkRuns(h.chunks) + Others(h);
    OthersMultiset(h);
    InvPermuted(h.pages, owned);
    LiveDisjoint(h.pages.(live := owned), i, j);
  }

  /** The first byte of the `j`-th block of a chunk. */
  function BlockStart(base: nat, c: HeapChunk, j: nat): nat
    requires j <= |c.sizes|
  {
    Address(base, c) + HEADER + Total(c.sizes[..j])
  }

  lemma {:induction false} TotalMonotone(sizes: seq<nat>, j: nat, k: nat)
    requires j <= k <= |sizes|
    ensures Total(sizes[..j]) <= Total(sizes[..k])
    ensures j < k ==> Total(sizes[..j]) + sizes[j] <= Total(sizes[..k])
    decreases k
  {
    if j < k {
      assert sizes[..k][..k - 1] == sizes[..k - 1];
      TotalMonotone(sizes, j, k - 1);
    }
  }

  lemma {:induction false} TotalAligned(sizes: seq<nat>)
    requires Aligned(sizes)
    ensures Total(sizes) % 16 == 0
  {
    if sizes != [] {
      TotalAligned(sizes[..|sizes| - 1]);
    }
  }

  lemma BlockAligned(base: nat, c: HeapChunk, j: nat)
    requires base % PAGE_SIZE == 0 && Aligned(c.sizes) && j <= |c.sizes|
    ensures BlockStart(base, c, j) % 16 == 0
  {
    var k := base / PAGE_SIZE;
    TotalAligned(c.sizes[..j]);
    assert BlockStart(base, c, j) == 16 * (256 * (k + c.run.start) + 2 + Total(c.sizes[..j]) / 16);
  }

  /** A block lies behind its chunk's header, inside its chunk, and starts at a multiple of 16. */
  lemma BlockInChunk(h: Heap, i: nat, j: nat)
    requires HeapInv(h) && i < |h.chunks| && j < |h.chunks[i].sizes|
    ensures var c := h.chunks[i];
            && BlockStart(h.base, c, j) % 16 == 0
            && Address(h.base, c) + HEADER <= BlockStart(h.base, c, j)
            && BlockStart(h.base, c, j) + c.sizes[j] <= Address(h.base, c) + Offset(c)
            && HEADER <= Offset(c) <= c.run.count * PAGE_SIZE
  {
    hide Inv, Aligned;
    var c := h.chunks[i];
    assert c in h.chunks && ChunkOk(c);
    assert c.sizes[..|c.sizes|] == c.sizes;
    TotalMonotone(c.sizes, j, |c.sizes|);
    BlockAligned(h.base, c, j);
  }

  /** No two blocks share a byte. */
  lemma BlocksApart(h: Heap, i: nat, j: nat, i': nat, j': nat)
    requires HeapInv(h) && i < |h.chunks| && j < |h.chunks[i].sizes|
    requires i' < |h.chunks| && j' < |h.chunks[i'].sizes| && (i, j) != (i', j')
    ensures Apart(BlockStart(h.base, h.chunks[i], j), h.chunks[i].sizes[j],
                  BlockStart(h.base, h.chunks[i'], j'), h.chunks[i'].sizes[j'])
  {
    if i == i' {
      TotalMonotone(h.chunks[i].sizes, if j < j' then j else j', if j < j' then j' else j);
    } else {
      BlockInChunk(h, i, j);
      BlockInChunk(h, i', j');
      RunsApart(h, if i < i' then i else i', if i < i' then i' else i);
    }
  }

  /** No block shares a byte with the header of a chunk, its own included. */
  lemma BlockApartFromHeader(h: Heap, i: nat, j: nat, i': nat)
    requires HeapInv(h) && i < |h.chunks| && j < |h.chunks[i].sizes| && i' < |h.chunks|
    ensures Apart(BlockStart(h.base, h.chunks[i], j), h.chunks[i].sizes[j], Address(h.base, h.chunks[i']), HEADER)
  {
    BlockInChunk(h, i, j);
    if i != i' {
      assert h.chunks[i'] in h.chunks;
      RunsApart(h, if i < i' then i else i', if i < i' then i' else i);
    }
  }

  /** No block shares a byte with pages somebody else holds. */
  lemma BlockApartFromPages(h: Heap, i: nat, j: nat, k: nat)
    requires HeapInv(h) && i < |h.chunks| && j < |h.chunks[i].sizes| && k < |Others(h)|
    ensures Apart(BlockStart(h.base, h.chunks[i], j), h.chunks[i].sizes[j],
                  h.base + Others(h)[k].start * PAGE_SIZE, Others(h)[k].count * PAGE_SIZE)
  {
    BlockInChunk(h, i, j);
    RunsApart(h, i, |h.chunks| + k);
  }

  // ---------------------------------------------------------------- every run from boot

  /** Boot, `kmalloc_init`, then any mix of heap and page requests. */
  ghost function HeapBoot(managed: nat, descriptors: nat, base: nat, ops: seq<HeapOp>): HeapOutcome
    requires managed < 0x8000_0000
  {
    match Start(managed, descriptors)
    case Done(st) =>
      (match HeapStart(st, base)
       case Ready(h, _) => HeapExec(h, ops)
       case stop => stop)
    case _ => Panic
  }

  lemma StartHeapInv(st: Pages, base: nat)
    requires Inv(st) && base % PAGE_SIZE == 0
    ensures HeapStart(st, base).Ready? ==> HeapInv(HeapStart(st, base).heap)
  {
    if AllocStep(st, 4).Done? {
      StepInv(st, Alloc(4));
      AllocLive(st, 4);
      var h := HeapStart(st, base).heap;
      assert ChunkRuns(h.chunks) == [h.chunks[0].run];
      assert ChunkOk(h.chunks[0]);
    }
  }

  /** Every state any mix of requests reaches satisfies the invariant, so all of the above holds in it. */
  lemma HeapRunInv(managed: nat, descriptors: nat, base: nat, ops: seq<HeapOp>)
    requires managed < 0x8000_0000 && base % PAGE_SIZE == 0 && HeapBoot(managed, descriptors, base, ops).Ready?
    ensures HeapInv(HeapBoot(managed, descriptors, base, ops).heap)
  {
    StartInv(managed, descriptors);
    StartHeapInv(Start(managed, descriptors).st, base);
    HeapExecInv(HeapStart(Start(managed, descriptors).st, base).heap, ops);
  }

  /** A new block never lands on one handed out before: old blocks stay where they are. */
  lemma BlocksStay(h: Heap, size: nat, i: nat, j: nat)
    requires SizeOk(size) && KmallocStep(h, size).Ready? && i < |h.chunks| && j < |h.chunks[i].sizes|
    ensures var h' := KmallocStep(h, size).heap;
            && |h'.chunks| >= |h.chunks| && j < |h'.chunks[i].sizes| && h'.chunks[i].sizes[j] == h.chunks[i].sizes[j]
            && BlockStart(h'.base, h'.chunks[i], j) == BlockStart(h.base, h.chunks[i], j)
  {
    var h' := KmallocStep(h, size).heap;
    assert h'.chunks[i].sizes[..j] == h.chunks[i].sizes[..j];
  }

  /** The address returned is that of a new last block, of the aligned size asked for, in chunk `i`. */
  lemma KmallocReturnsBlock(h: Heap, size: nat) returns (i: nat)
    requires SizeOk(size) && KmallocStep(h, size).Ready?
    ensures var h' := KmallocStep(h, size).heap;
            && i < |h'.chunks|
            && var c := h'.chunks[i];
            && c.sizes == (if i < |h.chunks| then h.chunks[i].sizes else []) + [Align16(size)]
            && KmallocStep(h, size).addr == BlockStart(h'.base, c, |c.sizes| - 1)
  {
    hide AllocStep;
    var h' := KmallocStep(h, size).heap;
    i := FirstFit(h.chunks, Align16(size));
    var c := h'.chunks[i];
    if i < |h.chunks| {
      assert c.sizes[..|c.sizes| - 1] == h.chunks[i].sizes;
    } else {
      assert c.sizes[..0] == [];
    }
  }

  // ---------------------------------------------------------------- the addresses a run returns

  datatype Block = Block(addr: nat, size: nat)

  /** What the heap requests of a run return, in order, with the sizes asked for. */
  ghost function Returned(h: Heap, ops: seq<HeapOp>): seq<Block>
    decreases |ops|
  {
    if ops == [] then []
    else
      match HeapStep(h, ops[0])
      case Ready(h', addr) => (if ops[0].Kmalloc? then [Block(addr, ops[0].size)] else []) + Returned(h', ops[1..])
      case _ => []
  }

  ghost predicate HasBlock(h: Heap, i: nat, j: nat) {
    i < |h.chunks| && j < |h.chunks[i].sizes|
  }

  /** Block `j` of chunk `i` is `b`, rounded up. */
  ghost predicate IsBlock(h: Heap, i: nat, j: nat, b: Block) {
    HasBlock(h, i, j) && BlockStart(h.base, h.chunks[i], j) == b.addr && h.chunks[i].sizes[j] == Align16(b.size)
  }

  lemma StepKeepsBlock(h: Heap, op: HeapOp, i: nat, j: nat, b: Block)
    requires HeapStep(h, op).Ready? && IsBlock(h, i, j, b)
    ensures IsBlock(HeapStep(h, op).heap, i, j, b)
  {
    hide AllocStep, Step, BlockStart;
    if op.Kmalloc? {
      BlocksStay(h, op.size, i, j);
    }
  }

  lemma {:induction false} RunKeepsBlock(h: Heap, ops: seq<HeapOp>, i: nat, j: nat, b: Block)
    requires HeapExec(h, ops).Ready? && IsBlock(h, i, j, b)
    ensures IsBlock(HeapExec(h, ops).heap, i, j, b)
    decreases |ops|
  {
    if ops != [] {
      StepKeepsBlock(h, ops[0], i, j, b);
      RunKeepsBlock(HeapStep(h, ops[0]).heap, ops[1..], i, j, b);
    }
  }

  /** The block a request returns is in the heap after it, and was not before. */
  lemma RequestAddsBlock(h: Heap, size: nat) returns (i: nat, j: nat)
    requires HeapStep(h, HeapOp.Kmalloc(size)).Ready?
    ensures var out := HeapStep(h, HeapOp.Kmalloc(size));
            IsBlock(out.heap, i, j, Block(out.addr, size)) && !HasBlock(h, i, j)
  {
    i := KmallocReturnsBlock(h, size);
    j := |KmallocStep(h, size).heap.chunks[i].sizes| - 1;
  }

  lemma StepKeepsPlaces(h: Heap, op: HeapOp)
    requires HeapStep(h, op).Ready?
    ensures forall i, j | HasBlock(h, i, j) :: HasBlock(HeapStep(h, op).heap, i, j)
  {
    hide AllocStep, Step;
    if op.Kmalloc? {
      forall i, j | HasBlock(h, i, j)
        ensures HasBlock(HeapStep(h, op).heap, i, j)
      {
        BlocksStay(h, op.size, i, j);
      }
    }
  }

  /** Every block a run returned is in the heap at its end, in a place that was empty at its start. */
  lemma {:induction false} ReturnedPlaced(h: Heap, ops: seq<HeapOp>, n: nat) returns (i: nat, j: nat)
    requires HeapExec(h, ops).Ready? && n < |Returned(h, ops)|
    ensures IsBlock(HeapExec(h, ops).heap, i, j, Returned(h, ops)[n]) && !HasBlock(h, i, j)
    decreases |ops|
  {
    hide HeapStep, IsBlock, HasBlock;
    var out := HeapStep(h, ops[0]);
    if ops[0].Kmalloc? && n == 0 {
      i, j := RequestAddsBlock(h, ops[0].size);
      RunKeepsBlock(out.heap, ops[1..], i, j, Block(out.addr, ops[0].size));
    } else {
      i, j := ReturnedPlaced(out.heap, ops[1..], if ops[0].Kmalloc? then n - 1 else n);
      StepKeepsPlaces(h, ops[0]);
    }
  }

  /** Two different requests of a run never return overlapping memory, whatever happens in between. */
  lemma {:induction false} ReturnedApart(h: Heap, ops: seq<HeapOp>, m: nat, n: nat)
    requires HeapInv(h) && HeapExec(h, ops).Ready? && m < n < |Returned(h, ops)|
    ensures var r := Returned(h, ops); Apart(r[m].addr, r[m].size, r[n].addr, r[n].size)
    decreases |ops|
  {
    hide HeapStep, HeapInv, Apart;
    var out := HeapStep(h, ops[0]);
    HeapStepInv(h, ops[0]);
    if ops[0].Kmalloc? && m == 0 {
      var b := Block(out.addr, ops[0].size);
      var i, j := RequestAddsBlock(h, ops[0].size);
      RunKeepsBlock(out.heap, ops[1..], i, j, b);
      var i', j' := ReturnedPlaced(out.heap, ops[1..], n - 1);
      HeapExecInv(out.heap, ops[1..]);
      TwoBlocksApart(HeapExec(h, ops).heap, i, j, i', j', b, Returned(h, ops)[n]);
    } else {
      var d := if ops[0].Kmalloc? then 1 else 0;
      ReturnedApart(out.heap, ops[1..], m - d, n - d);
    }
  }

  lemma TwoBlocksApart(h: Heap, i: nat, j: nat, i': nat, j': nat, b: Block, b': Block)
    requires HeapInv(h) && IsBlock(h, i, j, b) && IsBlock(h, i', j', b') && (i, j) != (i', j')
    ensures Apart(b.addr, b.size, b'.addr, b'.size)
  {
    BlocksApart(h, i, j, i', j');
  }

  /** The same from boot on; and every address is a multiple of 16. */
  lemma KmallocsApart(managed: nat, descriptors: nat, base: nat, ops: seq<HeapOp>, m: nat, n: nat)
    requires managed < 0x8000_0000 && base % PAGE_SIZE == 0 && HeapBoot(managed, descriptors, base, ops).Ready?
    requires var r := Returned(HeapStart(Start(managed, descriptors).st, base).heap, ops); m < n < |r|
    ensures var r := Returned(HeapStart(Start(managed, descriptors).st, base).heap, ops);
            Apart(r[m].addr, r[m].size, r[n].addr, r[n].size) && r[m].addr % 16 == 0 && r[n].addr % 16 == 0
  {
    hide Inv, HeapInv, AllocStep;
    StartInv(managed, descriptors);
    var h := HeapStart(Start(managed, descriptors).st, base).heap;
    StartHeapInv(Start(managed, descriptors).st, base);
    ReturnedApart(h, ops, m, n);
    HeapExecInv(h, ops);
    var i, j := ReturnedPlaced(h, ops, m);
    BlockInChunk(HeapExec(h, ops).heap, i, j);
    i, j := ReturnedPlaced(h, ops, n);
    BlockInChunk(HeapExec(h, ops).heap, i, j);
  }

  // ---------------------------------------------------------------- accounting

  ghost function OffsetSum(cs: seq<HeapChunk>): nat {
    if cs == [] then 0 else OffsetSum(cs[..|cs| - 1]) + Offset(cs[|cs| - 1])
  }

  lemma {:induction false} OffsetSumUpdate(cs: seq<HeapChunk>, i: nat, c: HeapChunk)
    requires i < |cs|
    ensures OffsetSum(cs[i := c]) + Offset(cs[i]) == OffsetSum(cs) + Offset(c)
  {
    var n := |cs| - 1;
    if i == n {
      assert cs[i := c][..n] == cs[..n];
    } else {
      assert cs[i := c][..n] == cs[..n][i := c];
      OffsetSumUpdate(cs[..n], i, c);
    }
  }

  /** A request moves the offsets by its aligned size, and by a header when it opens a chunk. */
  lemma KmallocAccounts(h: Heap, size: nat)
    requires SizeOk(size) && KmallocStep(h, size).Ready?
    ensures var h' := KmallocStep(h, size).heap;
            OffsetSum(h'.chunks) == OffsetSum(h.chunks) + Align16(size) + HEADER * (|h'.chunks| - |h.chunks|)
  {
    hide AllocStep, Offset;
    var a := Align16(size);
    var i := FirstFit(h.chunks, a);
    var h' := KmallocStep(h, size).heap;
    if i < |h.chunks| {
      OffsetGrows(h.chunks[i], a);
      OffsetSumUpdate(h.chunks, i, h'.chunks[i]);
    } else {
      assert h'.chunks[..|h.chunks|] == h.chunks;
      OffsetOne(h'.chunks[i].run, a);
    }
  }

  lemma OffsetGrows(c: HeapChunk, a: nat)
    ensures Offset(c.(sizes := c.sizes + [a])) == Offset(c) + a
  {
    assert (c.sizes + [a])[..|c.sizes|] == c.sizes;
  }

  // ---------------------------------------------------------------- which chunk serves a request

  /** Behind the 32 bytes of header and the blocks given out, the chunk keeps more than `a` bytes. */
  predicate HasRoom(c: HeapChunk, a: nat) {
    32 + Total(c.sizes) + a < c.run.count * 4096
  }

  /** A request, rounded up to a multiple of 16, goes behind the blocks of the first chunk with room for it. */
  lemma ServedByChunk(h: Heap, size: nat, a: nat, i: nat)
    requires SizeOk(size) && a % 16 == 0 && size <= a < size + 16
    requires i < |h.chunks| && HasRoom(h.chunks[i], a) && forall j | 0 <= j < i :: !HasRoom(h.chunks[j], a)
    ensures var c := h.chunks[i];
            KmallocStep(h, size) == Ready(h.(chunks := h.chunks[i := HeapChunk(c.run, c.sizes + [a])]),
                                          h.base + c.run.start * 4096 + 32 + Total(c.sizes))
  {
    hide Align16, Total;
    OneRounding(size, a, Align16(size));
    forall j | 0 <= j < |h.chunks|
      ensures Fits(h.chunks[j], a) <==> HasRoom(h.chunks[j], a)
    {
    }
  }

  lemma PagesExact(size: nat, a: nat, n: nat)
    requires SizeOk(size) && a % 16 == 0 && size <= a < size + 16 && (n - 1) * 4096 < a + 32 <= n * 4096
    ensures a == Align16(size) && n == ChunkPages(size)
  {
    hide Align16, PagesFor;
    OneRounding(size, a, Align16(size));
    OnePageCount(a + 32, n, ChunkPages(size));
  }

  lemma OneRounding(size: nat, a: nat, b: nat)
    requires a % 16 == 0 && size <= a < size + 16 && b % 16 == 0 && size <= b < size + 16
    ensures a == b
  {
    var i, j := a / 16, b / 16;
    assert a == 16 * i && b == 16 * j;
  }

  lemma OnePageCount(bytes: nat, n: nat, m: nat)
    requires (n - 1) * 4096 < bytes <= n * 4096 && (m - 1) * 4096 < bytes <= m * 4096
    ensures n == m
  {
  }

  lemma NoneFits(cs: seq<HeapChunk>, a: nat)
    requires forall c | c in cs :: !HasRoom(c, a)
    ensures FirstFit(cs, a) == |cs|
  {
    hide Total, FirstFit;
    forall j | 0 <= j < |cs|
      ensures !Fits(cs[j], a)
    {
      assert !HasRoom(cs[j], a);
    }
  }

  /** When no chunk has room, a new one is opened, with as many pages as header and request fill: the block follows the header. */
  lemma ServedByNewChunk(h: Heap, size: nat, a: nat, n: nat)
    requires SizeOk(size) && a % 16 == 0 && size <= a < size + 16 && (n - 1) * 4096 < a + 32 <= n * 4096
    requires forall c | c in h.chunks :: !HasRoom(c, a)
    ensures match AllocStep(h.pages, n)
            case Done(st) =>
              && st.live != [] && st.live[..|st.live| - 1] == h.pages.live
              && var r := st.live[|st.live| - 1];
                 && r.count == n
                 && KmallocStep(h, size) == Ready(Heap(st, h.base, h.chunks + [HeapChunk(r, [a])]), h.base + r.start * 4096 + 32)
            case _ => KmallocStep(h, size) == Panic
  {
    PagesExact(size, a, n);
    NoneFits(h.chunks, a);
    hide KmallocStep, AllocStep, ChunkPages, Align16, HasRoom, SizeOk;
    KmallocOpens(h, size);
    if AllocStep(h.pages, n).Done? {
      AllocLive(h.pages, n);
    }
  }

  /** The heap starts with one chunk of four pages, nothing given out of it. */
  lemma HeapStarts(pages: Pages, base: nat)
    ensures match AllocStep(pages, 4)
            case Done(st) =>
              && st.live != [] && st.live[..|st.live| - 1] == pages.live && st.live[|st.live| - 1].count == 4
              && HeapStart(pages, base) == Ready(Heap(st, base, [HeapChunk(st.live[|st.live| - 1], [])]), 0)
            case _ => HeapStart(pages, base) == Panic
  {
    hide AllocStep;
    if AllocStep(pages, 4).Done? {
      AllocLive(pages, 4);
    }
  }
}
