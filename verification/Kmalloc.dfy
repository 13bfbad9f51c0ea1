/** `kmalloc`: first fit over a linked list of chunks, on top of the page allocator. */
module Kmalloc {
  import opened Machine
  import opened Descriptors
  import opened PageRuns
  import opened PageAllocator
  import opened KmallocRuns

  /** `struct memchunk`, at the start of the chunk's pages. */
  class MemChunk {
    var next: MemChunk?
    var data: nat
    var offset: nat
    var totalSize: nat

    constructor (data: nat, totalSize: nat, offset: nat)
      ensures this.data == data && this.totalSize == totalSize && this.offset == offset && next == null
    {
      this.data, this.totalSize, this.offset, next := data, totalSize, offset, null;
    }
  }

  lemma {:induction false} FirstFitIs(cs: seq<HeapChunk>, size: nat, i: nat)
    requires i <= |cs| && (i < |cs| ==> Fits(cs[i], size))
    requires forall j | 0 <= j < i :: !Fits(cs[j], size)
    ensures FirstFit(cs, size) == i
  {
    if i > 0 {
      FirstFitIs(cs[1..], size, i - 1);
    }
  }

  class KernelHeap {
    const pages: Allocator
    var mem: MemChunk?

    ghost var chain: seq<MemChunk>
    ghost var chunks: seq<HeapChunk>

    constructor (pages: Allocator)
      ensures this.pages == pages && mem == null && chain == [] && chunks == []
    {
      this.pages, mem, chain, chunks := pages, null, [], [];
    }

    ghost function View(): Heap
      reads this, pages
    {
      Heap(pages.State(), pages.poolStart, chunks)
    }

    ghost function Node(i: nat): MemChunk?
      reads this
    {
      if i < |chain| then chain[i] else null
    }

    /** Node `i` of the list describes chunk `i`. */
    ghost predicate Describes(n: MemChunk, c: HeapChunk)
      reads n
    {
      n.data == Address(pages.poolStart, c) && n.totalSize == c.run.count * PAGE_SIZE && n.offset == Offset(c)
    }

    ghost predicate Listed()
      reads this, chain
    {
      && |chain| == |chunks| && mem == Node(0)
      && (forall i | 0 <= i < |chain| :: Describes(chain[i], chunks[i]))
      && (forall i | 0 <= i < |chain| :: chain[i].next == Node(i + 1))
      && (forall i, j | 0 <= i < j < |chain| :: chain[i] != chain[j])
    }

    ghost predicate Valid()
      reads this, chain, pages, pages.pool, pages.zones
    {
      pages.Valid() && HeapInv(View()) && Listed() && chain != []
    }

    /** Links a node behind the last one, or as the head of an empty list; the node describes chunk `c`. */
    method AppendNode(last: MemChunk?, m: MemChunk, ghost c: HeapChunk)
      requires Listed() && m !in chain && m.next == null && Describes(m, c)
      requires if chain == [] then last == null else last == chain[|chain| - 1]
      modifies this, last
      ensures Listed() && chain == old(chain) + [m] && chunks == old(chunks) + [c]
    {
      if last == null {
        mem := m;
      } else {
        last.next := m;
      }
      chain, chunks := chain + [m], chunks + [c];
      forall i | 0 <= i < |chain|
        ensures Describes(chain[i], chunks[i]) && chain[i].next == Node(i + 1)
      {
        if i < |chain| - 1 {
          assert chain[i] == old(chain)[i] && old(Describes(chain[i], chunks[i])) && old(chain[i].next == Node(i + 1));
        }
      }
    }

    /** `kmalloc_init`; false is the panic of a failed page allocation. */
    method KmallocInit() returns (ok: bool)
      requires pages.Valid() && mem == null && chain == [] && chunks == []
      modifies this, pages, pages.pool, pages.zones
      ensures match HeapStart(old(pages.State()), pages.poolStart)
              case Ready(h, _) => ok && Valid() && View() == h
              case _ => !ok
    {
      hide Inv, Linked, AllocStep;
      assert pages.poolStart % PAGE_SIZE == 0;
      StartHeapInv(pages.State(), pages.poolStart);
      hide Allocator.Valid, HeapInv;
      var r := pages.PageAlloc(4);
      if !r.Allocated? {
        return false;
      }
      AllocLive(old(pages.State()), 4);
      var m := new MemChunk(r.paddr, 4 * PAGE_SIZE, 0);
      m.offset := m.offset + 32;
      AppendNode(null, m, HeapChunk(pages.live[|pages.live| - 1], []));
      ok := true;
    }

    /** The search loop of `kmalloc`: the first node with room, its index, and the last node passed. */
    method FindChunk(size: nat) returns (m: MemChunk?, last: MemChunk, ghost i: nat)
      requires Valid()
      ensures i == FirstFit(chunks, size) && m == Node(i) && last in chain && (m == null ==> last == chain[|chain| - 1])
    {
      hide HeapInv;
      m, last, i := mem, mem, 0;
      while m != null
        invariant i <= |chain| && m == Node(i) && last in chain && (i > 0 ==> last == chain[i - 1])
        invariant forall j | 0 <= j < i :: !Fits(chunks[j], size)
        decreases |chain| - i
      {
        assert Describes(chain[i], chunks[i]);
        if m.totalSize - m.offset > size {
          break;
        }
        last := m;
        m := m.next;
        i := i + 1;
      }
      FirstFitIs(chunks, size, i);
    }

    /** Moves the offset of one node past a new block. */
    method BumpNode(m: MemChunk, a: nat, ghost i: nat)
      requires Listed() && i < |chain| && m == chain[i]
      modifies this, m
      ensures Listed() && chain == old(chain) && chunks == old(chunks)[i := old(chunks)[i].(sizes := old(chunks)[i].sizes + [a])]
      ensures m.offset == old(m.offset) + a && m.data == old(m.data)
    {
      OffsetGrows(chunks[i], a);
      assert Describes(m, chunks[i]);
      m.offset := m.offset + a;
      chunks := chunks[i := chunks[i].(sizes := chunks[i].sizes + [a])];
      forall j | 0 <= j < |chain|
        ensures Describes(chain[j], chunks[j]) && chain[j].next == Node(j + 1)
      {
        assert old(Describes(chain[j], chunks[j])) && old(chain[j].next == Node(j + 1));
      }
    }

    /** `kmalloc` when a chunk has room. */
    method Bump(m: MemChunk, a: nat, ghost size: nat, ghost i: nat) returns (addr: nat)
      requires Valid() && SizeOk(size) && a == Align16(size)
      requires i == FirstFit(chunks, a) < |chunks| && m == chain[i]
      modifies this, m
      ensures Valid() && KmallocStep(old(View()), size) == HeapOutcome.Ready(View(), addr)
    {
      hide HeapInv, Allocator.Valid, KmallocStep, Offset;
      KmallocFits(View(), size);
      KmallocInv(View(), size);
      assert Describes(m, chunks[i]);
      BumpNode(m, a, i);
      addr := m.data + m.offset - a;
    }

    /** Pages for a chunk with a block of `a` bytes, and its header; null after a panic. */
    method NewChunk(a: nat, ghost size: nat) returns (m: MemChunk?)
      requires pages.Valid() && SizeOk(size) && a == Align16(size)
      modifies pages, pages.pool, pages.zones
      ensures match AllocStep(old(pages.State()), ChunkPages(size))
              case Done(st) =>
                && m != null && fresh(m) && m.next == null && pages.Valid() && pages.State() == st
                && st.live != [] && st.live[|st.live| - 1].count == ChunkPages(size)
                && Describes(m, HeapChunk(st.live[|st.live| - 1], [a]))
              case _ => m == null
    {
      hide Allocator.Valid, AllocStep, Offset, Align16;
      ghost var st := pages.State();
      var n := PagesFor(a + 32);
      assert n == ChunkPages(size);
      hide PagesFor, ChunkPages;
      var r := pages.PageAlloc(n);
      if !r.Allocated? {
        return null;
      }
      AllocLive(st, n);
      ghost var run := pages.live[|pages.live| - 1];
      OffsetOne(run, a);
      m := new MemChunk(r.paddr, n * PAGE_SIZE, 32);
      m.offset := m.offset + a;
    }

    /** `kmalloc` when no chunk has room: new pages, appended as a chunk behind `last`. */
    method OpenChunk(last: MemChunk, a: nat, ghost size: nat) returns (r: Option<nat>)
      requires Valid() && SizeOk(size) && a == Align16(size)
      requires FirstFit(chunks, a) == |chunks| && last == chain[|chain| - 1]
      modifies this, last, pages, pages.pool, pages.zones
      ensures match KmallocStep(old(View()), size)
              case Ready(h, addr) => r == Some(addr) && Valid() && View() == h
              case _ => r == None
    {
      hide HeapInv, Inv, AllocStep, Allocator.Valid, KmallocStep, Offset, FirstFit, ChunkOk, PagesFor, Address;
      hide ChunkPages, Align16, Listed;
      ghost var h := View();
      KmallocOpens(h, size);
      var m := NewChunk(a, size);
      if m == null {
        return None;
      }
      KmallocInv(h, size);
      AppendNode(last, m, HeapChunk(pages.live[|pages.live| - 1], [a]));
      r := Some(m.data + m.offset - a);
    }

    /** `kmalloc`; `None` is the panic inside the page allocator. */
    method Kmalloc(size: nat) returns (r: Option<nat>)
      requires Valid() && SizeOk(size)
      modifies this, chain, pages, pages.pool, pages.zones
      ensures match KmallocStep(old(View()), size)
              case Ready(h, addr) => r == Some(addr) && Valid() && View() == h
              case _ => r == None
    {
      hide HeapInv, Inv, KmallocStep;
      var a := Align16(size);
      var m, last, i := FindChunk(a);
      if m != null {
        var addr := Bump(m, a, size, i);
        r := Some(addr);
      } else {
        r := OpenChunk(last, a, size);
      }
    }
  }
}
