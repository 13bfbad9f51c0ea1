/** A leak from boot: fifteen pages of memory, and a device with one image that is nothing but an ELF header. */
module Leaks {
  import opened Machine
  import opened Flash
  import opened Zones
  import opened Loads
  import opened KernelRuns
  import Elf
  import Files
  import Heaps = KmallocRuns
  import PageRuns
  import PageTheorems

  lemma LogIs(n: nat, k: nat)
    requires 0 < n < 0x1_0000_0000 && Pow2(k) <= n < 2 * Pow2(k)
    ensures Log2(n) == k
  {
    if Log2(n) < k {
      Pow2Monotone(Log2(n), k);
    } else if Log2(n) > k {
      Pow2Monotone(k, Log2(n));
    }
  }

  /** A request for as many pages as a free chunk has takes the chunk as it is. */
  lemma TakeWhole(z: Stacks, o: nat)
    requires o < MAX_ZONES && 0 < Pow2(o) < 0x8000_0000 && z[o] != []
    ensures Take(z, Pow2(o)) == Some((z[o][0], Pop(z, o)))
  {
    LogIs(Pow2(o), o);
    assert RequestOrder(Pow2(o)) == o;
  }

  lemma TakesWhole(st: Pages, o: nat)
    requires PageRuns.Inv(st) && PageTheorems.Ample(st.managed, st.descriptors)
    requires o < MAX_ZONES && 0 < Pow2(o) < 0x8000_0000 && st.zones[o] != []
    ensures var out := PageRuns.Step(st, PageRuns.Alloc(Pow2(o)));
            out.Done? && Same(st, out.st) && out.st.zones == Pop(st.zones, o)
  {
    hide PageRuns.Inv, PageTheorems.Ample;
    TakeWhole(st.zones, o);
    PageTheorems.StepNeverExhausts(st, PageRuns.Alloc(Pow2(o)));
    hide Take;
    PageRuns.StepInv(st, PageRuns.Alloc(Pow2(o)));
  }

  /** Fifteen pages are a chunk of each of the four lowest orders. */
  lemma FifteenPages()
    ensures var z := Add(Empty(), 0, 15); z[0] != [] && z[1] != [] && z[2] != []
  {
    assert Pow2(0) == 1 && Pow2(1) == 2 && Pow2(2) == 4 && Pow2(3) == 8;
    LogIs(15, 3);
    LogIs(7, 2);
    LogIs(3, 1);
    LogIs(1, 0);
    var z3 := Push(Empty(), 3, 0);
    var z2 := Push(z3, 2, 8);
    var z1 := Push(z2, 1, 12);
    assert Add(z1, 14, 1) == Add(Push(z1, 0, 14), 15, 0) == Push(z1, 0, 14);
    assert Add(z2, 12, 3) == Add(z1, 14, 1);
    assert Add(z3, 8, 7) == Add(z2, 12, 3);
    assert Add(Empty(), 0, 15) == Add(z3, 8, 7);
  }

  lemma BootsWithFifteen() returns (st: Pages)
    ensures PageRuns.Start(15, 16) == PageRuns.Done(st) && PageRuns.Inv(st) && PageTheorems.Ample(st.managed, st.descriptors)
    ensures st.zones == Add(Empty(), 0, 15)
  {
    PopCountBelow(15, 4) by { assert Pow2(4) == 16; }
    PageRuns.StartInv(15, 16);
    st := PageRuns.Start(15, 16).st;
  }

  /** The pages of the first heap chunk, a stack and the blob are there. */
  lemma RoomForALoad() returns (st: Pages, st': Pages)
    ensures PageRuns.Start(15, 16) == PageRuns.Done(st) && PageRuns.AllocStep(st, 4) == PageRuns.Done(st')
    ensures PageRuns.Inv(st') && PageTheorems.Ample(st'.managed, st'.descriptors)
    ensures PageRuns.Step(st', PageRuns.Alloc(2)).Done?
    ensures PageRuns.Step(PageRuns.Step(st', PageRuns.Alloc(2)).st, PageRuns.Alloc(1)).Done?
  {
    st := BootsWithFifteen();
    FifteenPages();
    hide Add, PageRuns.Inv;
    assert Pow2(0) == 1 && Pow2(1) == 2 && Pow2(2) == 4;
    TakesWhole(st, 2);
    st' := PageRuns.Step(st, PageRuns.Alloc(4)).st;
    TakesWhole(st', 1);
    TakesWhole(PageRuns.Step(st', PageRuns.Alloc(2)).st, 0);
  }

  lemma LoadGoesThrough(st: Pages)
    requires PageRuns.Inv(st) && PageTheorems.Ample(st.managed, st.descriptors)
    requires PageRuns.Step(st, PageRuns.Alloc(2)).Done?
    requires PageRuns.Step(PageRuns.Step(st, PageRuns.Alloc(2)).st, PageRuns.Alloc(1)).Done?
    ensures Elf.Trusted(BareHeader()) && LoadStep(st, BareHeader()).Done?
  {
    hide PageRuns.Inv, PageRuns.Step, PageTheorems.Ample, BareHeader, Elf.Trusted, Elf.Wanted, NewRun;
    BareHeaderWantsNothing();
    assert PagesFor(|BareHeader()|) == 1;
    AllocKeeps(st, 2);
    var st1 := PageRuns.Step(st, PageRuns.Alloc(2)).st;
    AllocKeeps(st1, 1);
    var st2 := PageRuns.Step(st1, PageRuns.Alloc(1)).st;
    assert NewRun(st1, 1) in multiset(st2.live) by { assert st2.live[|st1.live|] == NewRun(st1, 1); }
    FreeSucceeds(st2, NewRun(st1, 1));
  }

  /** The kernel with such a device has booted, and can do the load. */
  lemma StartsWith(base: nat, f: File) returns (k: Kernel)
    requires base % PAGE_SIZE == 0 && FileOk(f) && f.data == BareHeader()
    ensures Start(15, 16, base, Serialize([f])) == Running(k) && KernelInv(k) && RunsBy(k.claims, Leaked) == []
    ensures k.files == Files.Boot(Serialize([f])) && FirstFree(k.busy) == 0 < |k.busy|
    ensures Elf.Trusted(BareHeader()) && LoadStep(k.heap.pages, BareHeader()).Done?
  {
    hide PageRuns.AllocStep, PageRuns.Step, PageTheorems.Ample, BareHeader, LoadStep;
    var st, st' := RoomForALoad();
    LoadGoesThrough(st');
    StartInv(15, 16, base, Serialize([f]));
    k := Start(15, 16, base, Serialize([f])).k;
    NoLeakYet(15, 16, base, Serialize([f]));
  }

  lemma ExecOne(k: Kernel, op: Op)
    requires KernelInv(k) && Step(k, op).Running?
    ensures Exec(k, [op]) == Step(k, op)
  {
    hide KernelInv, Step;
    StepInv(k, op);
    var k' := Step(k, op).k;
    assert [op][1..] == [];
    assert Exec(k', []) == Running(k');
  }

  lemma LoadLeaks(k: Kernel, f: File)
    requires KernelInv(k) && FileOk(f) && f.data == BareHeader() && k.files == Files.Boot(Serialize([f])) && FirstFree(k.busy) < |k.busy|
    requires Elf.Trusted(BareHeader()) && LoadStep(k.heap.pages, BareHeader()).Done?
    ensures Step(k, Load(f.name)).Running?
    ensures |RunsBy(Step(k, Load(f.name)).k.claims, Leaked)| == |RunsBy(k.claims, Leaked)| + 1
  {
    hide KernelInv, BareHeader, Elf.Trusted, Elf.Wanted, LoadStep, LoadFiles, LoadRuns, RunsBy;
    LeakingDevice(f);
    assert Step(k, Load(f.name)).Running?;
    LeaksExactly(k, f.name);
  }

  /** Loading that image right after boot leaves a stack without an owner and a descriptor open. */
  lemma LeakReached(base: nat, f: File)
    requires base % PAGE_SIZE == 0 && FileOk(f) && f.data == BareHeader()
    ensures var out := Boot(15, 16, base, Serialize([f]), [Load(f.name)]);
            out.Running? && |RunsBy(out.k.claims, Leaked)| == 1 && OpenCount(out.k.files.fds) == 1
  {
    hide BareHeader, Elf.Trusted, LoadStep, Start, Step, Exec, OwnersOk, Heaps.HeapInv, Files.Inv, RunsBy, OpenCount;
    var k := StartsWith(base, f);
    LoadLeaks(k, f);
    ExecOne(k, Load(f.name));
    StepInv(k, Load(f.name));
  }

  lemma NoLeakYet(managed: nat, descriptors: nat, base: nat, flash: Bytes)
    requires managed < 0x8000_0000 && Start(managed, descriptors, base, flash).Running?
    ensures RunsBy(Start(managed, descriptors, base, flash).k.claims, Leaked) == []
  {
    ChunkClaims(Start(managed, descriptors, base, flash).k.heap.chunks, Leaked);
  }
}
