/**
 The page allocator as the kernel runs it, on a descriptor array and list heads updated in place. Every
 method is proved against the functions of `Zones` and `PageRuns`.
 */
module PageAllocator {
  import opened Machine
  import opened Zones
  import opened Descriptors
  import opened PageRuns
  import opened PageTheorems

  datatype SplitResult = Failed | Ready | Panicked

  datatype AllocResult = Allocated(paddr: nat) | NoContinuousMemory | PoolPanic

  class Allocator {
    const pool: array<Page>
    const zones: array<int>
    var free: int
    var poolNext: nat
    const poolStart: nat

    /** Where the heap starts and how many bytes of memory follow; the descriptors, 16 bytes each, come first. */
    ghost const heapStart: nat
    ghost const ram: nat

    ghost var ids: seq<seq<nat>>
    ghost var spare: seq<nat>
    ghost var held: set<nat>
    ghost var place: seq<Place>
    ghost var stacks: Stacks
    ghost var managed: nat
    ghost var live: seq<Run>

    ghost function View(): Lists
      reads this, pool, zones
    {
      Lists(pool[..], zones[..], free, poolNext, ids, spare, held, place, stacks)
    }

    ghost function State(): Pages
      reads this
    {
      Pages(managed, pool.Length, stacks, live)
    }

    ghost predicate Valid()
      reads this, pool, zones
    {
      && Linked(View()) && held == {} && Inv(State())
      && managed <= 0x8_0000 && InMemory()
    }

    /** The descriptors fit in front of the pages, the pages behind them in what is left, less than a page being lost at either place. */
    ghost predicate InMemory()
      reads `managed
    {
      && poolStart % PAGE_SIZE == 0
      && heapStart + 16 * pool.Length <= poolStart < heapStart + 16 * pool.Length + 4096
      && poolStart + managed * 4096 <= heapStart + ram < poolStart + (managed + 1) * 4096
      && 0 < pool.Length <= 65536 && (pool.Length - 1) * 4096 < ram && (ram <= pool.Length * 4096 || pool.Length == 65536)
    }

    /** Descriptors neither in a zone nor in transit. */
    ghost function Unused(): int
      reads this
    {
      pool.Length - Chunks(stacks) - |held|
    }

    /** The run that starts at an address `page_alloc` returned. */
    ghost function RunOf(paddr: nat, n: nat): Run
      requires paddr >= poolStart
    {
      Run((paddr - poolStart) / PAGE_SIZE, n)
    }

    ghost predicate IsPage(paddr: nat) {
      paddr >= poolStart && (paddr - poolStart) % PAGE_SIZE == 0
    }

    twostate predicate Untouched()
      reads this
    {
      held == old(held) && managed == old(managed) && live == old(live)
    }

    /** First half of `add_free_page_to_zone`: an unused descriptor, now in transit, or null. */
    method TakeDescriptor() returns (p: int)
      requires Linked(View())
      modifies this
      ensures p == NULL <==> old(Unused()) <= 0
      ensures p == NULL ==> held == old(held)
      ensures p != NULL ==> 0 <= p < pool.Length && p as nat !in old(held) && held == old(held) + {p as nat}
      ensures Linked(View()) && stacks == old(stacks) && managed == old(managed) && live == old(live)
    {
      hide Linked;
      ghost var v := View();
      ListFacts(v);
      if free != NULL {
        TakeSpareLinked(v);
        p := free;
        free := pool[p].next;
        spare, held, place := spare[1..], held + {p as nat}, place[p := InTransit];
        assert View() == TakeSpare(v);
      } else if poolNext < pool.Length {
        TakeFreshLinked(v);
        p := poolNext;
        poolNext := poolNext + 1;
        held, place := held + {p as nat}, place[p := InTransit];
        assert View() == TakeFresh(v);
      } else {
        p := NULL;
      }
    }

    /** `add_free_page_to_zone`; false is the "Page pool exhausted" panic. */
    method AddFreePageToZone(off: nat, order: nat) returns (ok: bool)
      requires Linked(View()) && order < MAX_ZONES
      modifies this, pool, zones
      ensures ok <==> old(Unused()) > 0
      ensures ok ==> Linked(View()) && stacks == Push(old(stacks), order, off) && Untouched()
      ensures ok ==> forall h | h in held :: pool[h].start == old(pool[h].start)
    {
      hide Linked;
      ListFacts(View());
      var p := TakeDescriptor();
      if p == NULL {
        return false;
      }
      ghost var v := View();
      ListFacts(v);
      InsertLinked(v, p, off, order);
      pool[p] := Page(off, zones[order]);
      zones[order] := p;
      ids, held, place := ids[order := [p as nat] + ids[order]], held - {p as nat}, place[p := Zone(order)];
      stacks := Push(stacks, order, off);
      assert View() == Insert(v, p, off, order);
      assert held == old(held);
      ok := true;
    }

    /** `get_free_page_from_zone`: the top descriptor of the zone, now in transit, or null. */
    method GetFreePageFromZone(order: nat) returns (r: int)
      requires Linked(View())
      modifies this, zones
      ensures Linked(View()) && managed == old(managed) && live == old(live)
      ensures r == NULL <==> order >= MAX_ZONES || old(stacks)[order] == []
      ensures r == NULL ==> held == old(held) && stacks == old(stacks)
      ensures r != NULL ==> stacks == Pop(old(stacks), order) && 0 <= r < pool.Length && r as nat !in old(held)
      ensures r != NULL ==> held == old(held) + {r as nat} && pool[r].start == old(stacks)[order][0]
    {
      hide Linked;
      if order >= MAX_ZONES {
        return NULL;
      }
      ghost var v := View();
      ListFacts(v);
      if zones[order] == NULL {
        return NULL;
      }
      ExtractLinked(v, order);
      r := zones[order];
      zones[order] := pool[r].next;
      ids, held, place, stacks := ids[order := ids[order][1..]], held + {r as nat}, place[r := InTransit], Pop(stacks, order);
      assert View() == Extract(v, order);
    }

    /** Gives a descriptor in transit back to the free list. */
    method PutBack(p: nat)
      requires Linked(View()) && p in held
      modifies this, pool
      ensures Linked(View()) && held == old(held) - {p} && stacks == old(stacks)
      ensures managed == old(managed) && live == old(live) && pool[p].start == old(pool[p].start)
    {
      hide Linked;
      ghost var v := View();
      ListFacts(v);
      RecycleLinked(v, p);
      pool[p] := pool[p].(next := free);
      free := p;
      spare, held, place := [p] + spare, held - {p}, place[p := Spare];
      assert View() == Recycle(v, p);
    }

    /** `add_memory_to_pool` */
    method AddMemoryToPool(off: nat, cnt: nat) returns (ok: bool)
      requires Linked(View()) && cnt < 0x1_0000_0000
      modifies this, pool, zones
      ensures ok <==> old(Unused()) >= PopCount(cnt)
      ensures ok ==> Linked(View()) && stacks == Add(old(stacks), off, cnt) && Untouched()
      ensures ok ==> forall h | h in held :: pool[h].start == old(pool[h].start)
    {
      hide Linked, Add, PopCount;
      ListFacts(View());
      var offset: nat, count: nat := off, cnt;
      while count != 0
        invariant count <= cnt && Linked(View()) && Untouched()
        invariant Add(stacks, offset, count) == Add(old(stacks), off, cnt)
        invariant Unused() - PopCount(count) == old(Unused()) - PopCount(cnt)
        invariant forall h | h in held :: h < pool.Length && pool[h].start == old(pool[h].start)
      {
        var order := 63 - Clz64(count);
        AddRound(stacks, offset, count);
        var more := AddFreePageToZone(offset, order);
        if !more {
          return false;
        }
        offset := offset + Pow2(order);
        count := count - Pow2(order);
      }
      AddNothing(stacks, offset);
      ListFacts(View());
      ok := true;
    }

    /** Body of `split_zone` once the larger zone has a chunk: halve it into zone `order`. */
    method HalveTop(order: nat) returns (ok: bool)
      requires Linked(View()) && held == {} && order + 1 < MAX_ZONES && stacks[order + 1] != []
      modifies this, pool, zones
      ensures ok <==> old(Unused()) >= 2
      ensures ok ==> Linked(View()) && Untouched()
      ensures ok ==> var s := old(stacks)[order + 1][0];
                     stacks == Push(Push(Pop(old(stacks), order + 1), order, s), order, s + Pow2(order))
    {
      hide Linked;
      ListFacts(View());
      SumPop(stacks, order + 1, Unit());
      var p := GetFreePageFromZone(order + 1);
      SumPush(stacks, order, pool[p].start, Unit());
      ok := AddFreePageToZone(pool[p].start, order);
      if ok {
        ok := AddFreePageToZone(pool[p].start + Pow2(order), order);
        if ok {
          PutBack(p);
        }
      }
    }

    /** `split_zone` */
    method SplitZone(order: nat) returns (r: SplitResult)
      requires Linked(View()) && held == {}
      modifies this, pool, zones
      ensures r == Failed <==> Split(old(stacks), order) == None
      ensures r == Panicked <==> Split(old(stacks), order).Some? && old(Unused()) < SplitNeed(old(stacks), order)
      ensures r != Panicked ==> Linked(View()) && Untouched()
      ensures r == Failed ==> stacks == old(stacks)
      ensures r == Ready ==> Split(old(stacks), order) == Some(stacks)
      decreases MAX_ZONES - order
    {
      hide Linked;
      if order >= MAX_ZONES {
        return Failed;
      }
      ListFacts(View());
      if zones[order] != NULL {
        return Ready;
      }
      r := SplitZone(order + 1);
      if r == Ready {
        SplitChunks(old(stacks), order + 1);
        var ok := HalveTop(order);
        r := if ok then Ready else Panicked;
      }
    }

    /** `get_memory_from_pool`, up to the scaling of the page number to an address. */
    method GetMemoryFromPool(count: nat) returns (r: AllocResult)
      requires Linked(View()) && held == {} && 0 < count < 0x8000_0000
      modifies this, pool, zones
      ensures r == NoContinuousMemory <==> Take(old(stacks), count) == None
      ensures r == PoolPanic <==> Take(old(stacks), count).Some? && old(Unused()) < TakeNeed(old(stacks), count)
      ensures r != PoolPanic ==> Linked(View()) && Untouched()
      ensures r == NoContinuousMemory ==> stacks == old(stacks)
      ensures r.Allocated? ==> Take(old(stacks), count) == Some((r.paddr, stacks))
    {
      hide Linked, Add, PopCount, Pow2, Clz64, Split, SplitNeed, Halvings;
      var order := 63 - Clz64(count);
      if count % Pow2(order) != 0 {
        order := order + 1;
      }
      assert order == RequestOrder(count);
      hide Log2, RequestOrder;
      ListFacts(View());
      ghost var z := stacks;
      var split := SplitZone(order);
      if split == Panicked {
        return PoolPanic;
      } else if split == Failed {
        return NoContinuousMemory;
      }
      SplitChunks(z, order);
      ListFacts(View());
      ghost var z1 := stacks;
      SumPop(z1, order, Unit());
      var p := GetFreePageFromZone(order);
      var ok := AddMemoryToPool(pool[p].start + count, Pow2(order) - count);
      if !ok {
        return PoolPanic;
      }
      PutBack(p);
      r := Allocated(pool[p].start);
    }

    /** Tables as `page_init` lays them out: an untouched pool at the front of the heap, no free chunk. */
    constructor (heapStart: nat, ram: nat)
      requires 4096 <= ram < 0x7FFF_F000 && heapStart % PAGE_SIZE == 0
      ensures fresh(pool) && fresh(zones) && pool.Length == PoolSize(ram) && this.heapStart == heapStart && this.ram == ram
      ensures 0 < pool.Length <= 65536 && (pool.Length - 1) * 4096 < ram && (ram <= pool.Length * 4096 || pool.Length == 65536)
      ensures poolStart % 4096 == 0 && heapStart + 16 * pool.Length <= poolStart < heapStart + 16 * pool.Length + 4096
      ensures poolStart + managed * 4096 <= heapStart + ram < poolStart + (managed + 1) * 4096
      ensures Linked(View()) && held == {} && stacks == Empty() && InMemory()
      ensures managed == ManagedPages(ram) && live == []
    {
      hide Linked, Chunks;
      var size := PagesFor(ram);
      if size > 65536 {
        size := 65536;
      }
      pool := new Page[size](i => Page(0, NULL));
      zones := new int[MAX_ZONES](i => NULL);
      free, poolNext := NULL, 0;
      poolStart := heapStart + PagesFor(16 * size) * PAGE_SIZE;
      this.heapStart, this.ram := heapStart, ram;
      ids, spare, held := seq(MAX_ZONES, k => []), [], {};
      place, stacks := seq(size, i => Place.Untouched), Empty();
      managed, live := ManagedPages(ram), [];
      new;
      NoChunks();
      EmptyLinked(View());
    }

    /** Last step of `page_init`: everything behind the pool becomes free chunks. */
    method PageInit(ram: nat)
      requires 4096 <= ram < 0x7FFF_F000 && pool.Length == PoolSize(ram) && this.ram == ram && InMemory()
      requires Linked(View()) && held == {} && stacks == Empty() && managed == ManagedPages(ram) && live == []
      modifies this, pool, zones
      ensures Valid() && Start(ManagedPages(ram), PoolSize(ram)) == Done(State())
    {
      hide Linked, Add, PopCount, Inv, Start;
      var metadata := PagesFor(16 * pool.Length) * PAGE_SIZE;
      StartSucceeds(ram);
      NoChunks();
      var ok := AddMemoryToPool(0, (ram - metadata) / 4096);
    }

    /** `page_alloc` */
    method PageAlloc(n: nat) returns (r: AllocResult)
      requires Valid() && 0 < n < 0x8000_0000
      modifies this, pool, zones
      ensures match AllocStep(old(State()), n)
              case Done(st) =>
                && Valid() && State() == st && r.Allocated?
                && r.paddr == poolStart + live[|live| - 1].start * PAGE_SIZE
              case NoMemory => Valid() && State() == old(State()) && r == NoContinuousMemory
              case PoolExhausted => r == PoolPanic
              case Illegal => false
      ensures r.Allocated? ==> IsPage(r.paddr) && live == old(live) + [RunOf(r.paddr, n)]
      ensures r.Allocated? ==> heapStart + 16 * pool.Length <= r.paddr && r.paddr + n * 4096 <= heapStart + ram
    {
      hide Linked, Inv, Take, TakeNeed, Chunks;
      r := GetMemoryFromPool(n);
      if r.Allocated? {
        live := live + [Run(r.paddr, n)];
        StepInv(old(State()), Alloc(n));
        LiveInRange(State(), Run(r.paddr, n));
        assert r.paddr * 4096 < 0x1_0000_0000;  // the shift is computed in 32 bits
        r := Allocated(poolStart + r.paddr * 4096);
      }
    }

    /** `page_free`, for a pair that `page_alloc` returned; false is the descriptor panic. */
    method PageFree(paddr: nat, n: nat) returns (ok: bool)
      requires Valid() && n < 0x8000_0000 && IsPage(paddr) && RunOf(paddr, n) in live
      modifies this, pool, zones
      ensures match FreeStep(old(State()), RunOf(paddr, n))
              case Done(st) => ok && Valid() && State() == st
              case _ => !ok
      ensures ok ==> multiset(live) == multiset(old(live)) - multiset{RunOf(paddr, n)}
    {
      hide Linked, Inv, Add, PopCount;
      ghost var r := RunOf(paddr, n);
      ok := AddMemoryToPool((paddr - poolStart) / 4096, n);
      if ok {
        live := RemoveOne(live, r);
        StepInv(old(State()), Op.Free(r));
        FreeLive(old(State()), r);
      }
    }

    /** The inner loop of `dump_zones`: the length of one list, by walking it. */
    method CountChunks(k: nat) returns (chunks: nat)
      requires Linked(View()) && k < MAX_ZONES
      ensures chunks == |stacks[k]|
    {
      hide Linked;
      ListFacts(View());
      ZoneChain(View(), k);
      var p := zones[k];
      chunks := 0;
      while p != NULL
        invariant chunks <= |ids[k]| && p == Head(ids[k][chunks..])
        decreases |ids[k]| - chunks
      {
        assert p == ids[k][chunks] && View().pool[p].next == Head(ids[k][chunks + 1..]);
        chunks := chunks + 1;
        p := pool[p].next;
      }
    }

    /** The grand total `dump_zones` prints. */
    method DumpZones() returns (total: nat)
      requires Linked(View())
      ensures total == FreePages(stacks)
    {
      hide Linked, Pow2;
      total := 0;
      var i := 0;
      while i < MAX_ZONES
        invariant i <= MAX_ZONES && total + SumFrom(stacks, i, Length()) == FreePages(stacks)
      {
        var chunks := CountChunks(i);
        StackChunks(stacks[i], i);
        total := total + Pow2(i) * chunks;
        i := i + 1;
      }
    }
  }
}
