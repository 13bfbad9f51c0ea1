/**
 The kernel as one transition system: the heap, the idle task, memory mapping, loads and exits all draw on the
 same pages, and every live run of pages carries the name of its owner.
 */
module KernelRuns {
  import opened Machine
  import opened Flash
  import opened Loads
  import opened ImageReads
  import Elf
  import Files
  import PageRuns
  import PageTheorems
  import Heaps = KmallocRuns
  import Zones

  /** Who has a run of pages: `Leaked` is the stack of a load without a segment. */
  datatype Owner = OfHeap | OfIdle | OfMmap | Leaked | StackOf(slot: nat) | ImageOf(slot: nat)

  datatype Claim = Claim(run: Run, owner: Owner)

  /** `busy` are the slots of the task table with a task that has not been torn down. */
  datatype Kernel = Kernel(heap: Heaps.Heap, files: Files.Table, claims: seq<Claim>, busy: seq<bool>)

  /** `Stopped` is a panic, with the step of the page allocator that could not be done. */
  datatype KernelOutcome = Running(k: Kernel) | Stopped(why: PageRuns.Outcome) | Refused

  datatype Op = Request(size: nat) | Mmap(n: nat) | Idle | Load(name: Bytes) | Exit(slot: nat)

  // ---------------------------------------------------------------- claims

  function RunsBy(cs: seq<Claim>, o: Owner): seq<Run> {
    if cs == [] then [] else (if cs[0].owner == o then [cs[0].run] else []) + RunsBy(cs[1..], o)
  }

  function Claimed(cs: seq<Claim>): seq<Run> {
    if cs == [] then [] else [cs[0].run] + Claimed(cs[1..])
  }

  predicate InTable(o: Owner) {
    o.StackOf? || o.ImageOf?
  }

  /** Runs that belong to no task. */
  function Outside(cs: seq<Claim>): seq<Run> {
    if cs == [] then [] else (if InTable(cs[0].owner) then [] else [cs[0].run]) + Outside(cs[1..])
  }

  predicate OfSlot(o: Owner, slot: nat) {
    o == StackOf(slot) || o == ImageOf(slot)
  }

  /** The claims left when a task is torn down. */
  function Dropped(cs: seq<Claim>, slot: nat): seq<Claim> {
    if cs == [] then [] else (if OfSlot(cs[0].owner, slot) then [] else [cs[0]]) + Dropped(cs[1..], slot)
  }

  function TaskRuns(cs: seq<Claim>, slot: nat): seq<Run> {
    RunsBy(cs, StackOf(slot)) + RunsBy(cs, ImageOf(slot))
  }

  // ---------------------------------------------------------------- transitions

  function FirstFree(busy: seq<bool>): (i: nat)
    ensures i <= |busy| && (i < |busy| ==> !busy[i])
    ensures forall j | 0 <= j < i :: busy[j]
  {
    if busy == [] || !busy[0] then 0 else 1 + FirstFree(busy[1..])
  }

  function Opened(before: seq<Heaps.HeapChunk>, after: seq<Heaps.HeapChunk>): seq<Heaps.HeapChunk> {
    if |before| <= |after| then after[|before|..] else []
  }

  ghost function RequestStep(k: Kernel, size: nat): KernelOutcome {
    if !Heaps.SizeOk(size) then Refused
    else
      match Heaps.KmallocStep(k.heap, size)
      case Ready(h, _) =>
        Running(k.(heap := h, claims := k.claims + Chunks(Opened(k.heap.chunks, h.chunks))))
      case _ => Stopped(PageRuns.AllocStep(k.heap.pages, Heaps.ChunkPages(size)))
  }

  /** The claims of chunks the heap has opened. */
  function Chunks(news: seq<Heaps.HeapChunk>): (cs: seq<Claim>)
    ensures |cs| == |news|
  {
    seq(|news|, i requires 0 <= i < |news| => Claim(news[i].run, OfHeap))
  }

  ghost function GrantStep(k: Kernel, n: nat, o: Owner): KernelOutcome {
    match PageRuns.Step(k.heap.pages, PageRuns.Alloc(n))
    case Done(st) => Running(k.(heap := k.heap.(pages := st), claims := k.claims + [Claim(NewRun(k.heap.pages, n), o)]))
    case Illegal => Refused
    case why => Stopped(why)
  }

  /** The claims of a load that goes through. */
  ghost function LoadClaims(runs: seq<Run>, slot: nat): seq<Claim> {
    if |runs| == 2 then [Claim(runs[0], StackOf(slot)), Claim(runs[1], ImageOf(slot))]
    else if |runs| == 1 then [Claim(runs[0], Leaked)]
    else []
  }

  /** `task_load` of a file the loader can trust; without the file, or a free descriptor, nothing happens. */
  ghost function TaskLoadStep(k: Kernel, name: Bytes): KernelOutcome
    requires KernelInv(k)
  {
    if !GoodFile(k.files, name) then Refused
    else if Files.OpenStep(k.files, name).ret < 0 then Running(k)
    else
      OpenedFacts(k.files, name);
      var slot := FirstFree(k.busy);
      if slot == |k.busy| then Running(k.(files := Loader.ClosedAgain(k.files)))
      else
        var data := DataNamed(k.files, name);
        match LoadStep(k.heap.pages, data)
        case Done(st) =>
          var runs := LoadRuns(k.heap.pages, data);
          Running(k.(heap := k.heap.(pages := st), files := LoadFiles(k.files, name), claims := k.claims + LoadClaims(runs, slot),
                     busy := if |runs| == 2 then k.busy[slot := true] else k.busy))
        case why => Stopped(why)
  }

  ghost function TaskExitStep(k: Kernel, slot: nat): KernelOutcome
    requires KernelInv(k)
  {
    if slot >= |k.busy| || !k.busy[slot] then Refused
    else
      assert SlotOk(k, slot);
      match ExitStep(k.heap.pages, TaskRuns(k.claims, slot)[0], TaskRuns(k.claims, slot)[1])
      case Done(st) =>
        Running(k.(heap := k.heap.(pages := st), claims := Dropped(k.claims, slot), busy := k.busy[slot := false]))
      case why => Stopped(why)
  }

  ghost function Step(k: Kernel, op: Op): KernelOutcome
    requires KernelInv(k)
  {
    match op
    case Request(size) => RequestStep(k, size)
    case Mmap(n) => GrantStep(k, n, OfMmap)
    case Idle => if RunsBy(k.claims, OfIdle) == [] then GrantStep(k, 1, OfIdle) else Refused
    case Load(name) => TaskLoadStep(k, name)
    case Exit(slot) => TaskExitStep(k, slot)
  }

  // ---------------------------------------------------------------- invariant

  function OpenCount(fds: seq<Files.Desc>): nat {
    if fds == [] then 0 else (if fds[0].file != Files.NULL then 1 else 0) + OpenCount(fds[1..])
  }

  /** A task that has not been torn down has a stack of two pages and one image; an empty slot has nothing. */
  ghost predicate SlotOk(k: Kernel, slot: nat) {
    var (stack, image) := (RunsBy(k.claims, StackOf(slot)), RunsBy(k.claims, ImageOf(slot)));
    if slot < |k.busy| && k.busy[slot] then |stack| == |image| == 1 && stack[0].count == 2 && 0 < image[0].count < 0x8000_0000
    else stack == [] && image == []
  }

  ghost predicate OwnersOk(k: Kernel) {
    && |k.busy| == MAX_TASKS
    && multiset(Claimed(k.claims)) == multiset(k.heap.pages.live)
    && RunsBy(k.claims, OfHeap) == Heaps.ChunkRuns(k.heap.chunks)
    && (forall slot: nat :: SlotOk(k, slot))
    && |RunsBy(k.claims, OfIdle)| <= 1 && (forall r | r in RunsBy(k.claims, OfIdle) :: r.count == 1)
    && (forall r | r in RunsBy(k.claims, Leaked) :: r.count == 2)
  }

  ghost predicate KernelInv(k: Kernel) {
    && Heaps.HeapInv(k.heap) && Files.Inv(k.files) && FromFlash(k.files) && OwnersOk(k)
    && |RunsBy(k.claims, Leaked)| == OpenCount(k.files.fds)
  }

  // ---------------------------------------------------------------- lemmas about claims

  lemma ClaimsAppend(a: seq<Claim>, b: seq<Claim>, o: Owner)
    ensures RunsBy(a + b, o) == RunsBy(a, o) + RunsBy(b, o) && Claimed(a + b) == Claimed(a) + Claimed(b)
    ensures Outside(a + b) == Outside(a) + Outside(b)
  {
    RunsByAppend(a, b, o);
    ClaimedAppend(a, b);
    OutsideAppend(a, b);
  }

  lemma {:induction false} RunsByAppend(a: seq<Claim>, b: seq<Claim>, o: Owner)
    ensures RunsBy(a + b, o) == RunsBy(a, o) + RunsBy(b, o)
  {
    if a == [] {
      assert a + b == b;
    } else {
      assert (a + b)[1..] == a[1..] + b && (a + b)[0] == a[0];
      RunsByFirst(a + b, o);
      RunsByFirst(a, o);
      RunsByAppend(a[1..], b, o);
      hide RunsBy;
    }
  }

  lemma {:induction false} ClaimedAppend(a: seq<Claim>, b: seq<Claim>)
    ensures Claimed(a + b) == Claimed(a) + Claimed(b)
  {
    if a == [] {
      assert a + b == b;
    } else {
      assert (a + b)[1..] == a[1..] + b && (a + b)[0] == a[0];
      ClaimedAppend(a[1..], b);
    }
  }

  lemma {:induction false} OutsideAppend(a: seq<Claim>, b: seq<Claim>)
    ensures Outside(a + b) == Outside(a) + Outside(b)
  {
    if a == [] {
      assert a + b == b;
    } else {
      assert (a + b)[1..] == a[1..] + b && (a + b)[0] == a[0];
      OutsideAppend(a[1..], b);
    }
  }

  lemma OneClaim(c: Claim, o: Owner)
    ensures RunsBy([c], o) == (if c.owner == o then [c.run] else []) && Claimed([c]) == [c.run]
    ensures Outside([c]) == if InTable(c.owner) then [] else [c.run]
  {
  }

  lemma {:induction false} ChunkClaims(news: seq<Heaps.HeapChunk>, o: Owner)
    ensures Claimed(Chunks(news)) == Outside(Chunks(news)) == Heaps.ChunkRuns(news)
    ensures RunsBy(Chunks(news), o) == if o == OfHeap then Heaps.ChunkRuns(news) else []
    decreases |news|
  {
    if news != [] {
      ChunkClaims(news[1..], o);
      assert Chunks(news)[1..] == Chunks(news[1..]);
      assert Heaps.ChunkRuns(news) == [news[0].run] + Heaps.ChunkRuns(news[1..]);
    }
  }

  lemma {:induction false} DroppedKeeps(cs: seq<Claim>, slot: nat, o: Owner)
    ensures RunsBy(Dropped(cs, slot), o) == if OfSlot(o, slot) then [] else RunsBy(cs, o)
  {
    if cs != [] {
      DroppedKeeps(cs[1..], slot, o);
      RunsByFirst(cs, o);
      var rest := Dropped(cs[1..], slot);
      if OfSlot(cs[0].owner, slot) {
        assert Dropped(cs, slot) == rest;
      } else {
        assert Dropped(cs, slot) == [cs[0]] + rest && ([cs[0]] + rest)[1..] == rest;
        RunsByFirst([cs[0]] + rest, o);
      }
      hide RunsBy, Dropped;
    }
  }

  lemma {:induction false} DroppedOutside(cs: seq<Claim>, slot: nat)
    ensures Outside(Dropped(cs, slot)) == Outside(cs)
  {
    if cs != [] {
      DroppedOutside(cs[1..], slot);
      var rest := Dropped(cs[1..], slot);
      if OfSlot(cs[0].owner, slot) {
        assert Dropped(cs, slot) == rest;
      } else {
        assert Dropped(cs, slot) == [cs[0]] + rest && ([cs[0]] + rest)[1..] == rest;
      }
    }
  }

  lemma {:induction false} RunsByAmong(cs: seq<Claim>, o: Owner)
    ensures multiset(RunsBy(cs, o)) <= multiset(Claimed(cs))
  {
    if cs != [] {
      RunsByAmong(cs[1..], o);
      RunsByFirst(cs, o);
      ClaimedFirst(cs);
      hide RunsBy, Claimed;
    }
  }

  lemma {:induction false} DroppedRuns(cs: seq<Claim>, slot: nat)
    ensures multiset(Claimed(cs)) == multiset(Claimed(Dropped(cs, slot))) + multiset(TaskRuns(cs, slot))
  {
    if cs != [] {
      DroppedRuns(cs[1..], slot);
      ClaimedFirst(cs);
      hide Claimed, Dropped, TaskRuns;
      DroppedFirst(cs, slot);
    } else {
      assert TaskRuns(cs, slot) == [];
    }
  }

  lemma ClaimedFirst(cs: seq<Claim>)
    requires cs != []
    ensures multiset(Claimed(cs)) == multiset{cs[0].run} + multiset(Claimed(cs[1..]))
  {
  }

  lemma DroppedFirst(cs: seq<Claim>, slot: nat)
    requires cs != []
    ensures var (c, d) := (multiset{cs[0].run}, OfSlot(cs[0].owner, slot));
            && multiset(TaskRuns(cs, slot)) == multiset(TaskRuns(cs[1..], slot)) + (if d then c else multiset{})
            && multiset(Claimed(Dropped(cs, slot))) == multiset(Claimed(Dropped(cs[1..], slot))) + (if d then multiset{} else c)
  {
    hide Claimed, Dropped, RunsBy;
    var a, b, c := RunsBy(cs[1..], StackOf(slot)), RunsBy(cs[1..], ImageOf(slot)), cs[0].run;
    InsertedOnce(a, b, c);
    RunsByFirst(cs, StackOf(slot));
    RunsByFirst(cs, ImageOf(slot));
    ClaimedDropped(cs, slot);
  }

  lemma RunsByFirst(cs: seq<Claim>, o: Owner)
    requires cs != []
    ensures RunsBy(cs, o) == if cs[0].owner == o then [cs[0].run] + RunsBy(cs[1..], o) else RunsBy(cs[1..], o)
  {
  }

  lemma ClaimedDropped(cs: seq<Claim>, slot: nat)
    requires cs != []
    ensures var rest := multiset(Claimed(Dropped(cs[1..], slot)));
            multiset(Claimed(Dropped(cs, slot))) == if OfSlot(cs[0].owner, slot) then rest else multiset{cs[0].run} + rest
  {
    var rest := Dropped(cs[1..], slot);
    if OfSlot(cs[0].owner, slot) {
      assert Dropped(cs, slot) == rest;
    } else {
      assert Dropped(cs, slot) == [cs[0]] + rest && ([cs[0]] + rest)[1..] == rest;
      assert Claimed([cs[0]] + rest) == [cs[0].run] + Claimed(rest);
    }
  }

  lemma InsertedOnce(a: seq<Run>, b: seq<Run>, c: Run)
    ensures multiset(a + ([c] + b)) == multiset{c} + multiset(a + b)
    ensures multiset(([c] + a) + b) == multiset{c} + multiset(a + b)
    ensures [] + a == a && [] + b == b
  {
    assert multiset(a + ([c] + b)) == multiset(a) + (multiset([c]) + multiset(b));
    assert multiset(([c] + a) + b) == (multiset([c]) + multiset(a)) + multiset(b);
  }

  lemma {:induction false} OpenCountUpdate(fds: seq<Files.Desc>, i: nat, d: Files.Desc)
    requires i < |fds|
    ensures OpenCount(fds[i := d]) + (if fds[i].file != Files.NULL then 1 else 0)
         == OpenCount(fds) + (if d.file != Files.NULL then 1 else 0)
  {
    if i > 0 {
      assert fds[i := d][1..] == fds[1..][i - 1 := d];
      OpenCountUpdate(fds[1..], i - 1, d);
    } else {
      assert fds[i := d][1..] == fds[1..];
    }
  }

  // ---------------------------------------------------------------- every step keeps the invariant

  ghost predicate NoSlots(more: seq<Claim>) {
    forall c | c in more :: !InTable(c.owner)
  }

  lemma {:induction false} NoSlotRuns(more: seq<Claim>, slot: nat)
    requires NoSlots(more)
    ensures RunsBy(more, StackOf(slot)) == [] && RunsBy(more, ImageOf(slot)) == []
  {
    if more != [] {
      assert more[0] in more;
      NoSlotRuns(more[1..], slot);
    }
  }

  /** Such claims leave the tasks' runs alone. */
  lemma TaskRunsKept(cs: seq<Claim>, more: seq<Claim>)
    requires NoSlots(more)
    ensures forall slot: nat :: TaskRuns(cs + more, slot) == TaskRuns(cs, slot)
  {
    hide RunsBy;
    forall slot: nat
      ensures TaskRuns(cs + more, slot) == TaskRuns(cs, slot)
    {
      NoSlotRuns(more, slot);
      RunsByAppend(cs, more, StackOf(slot));
      RunsByAppend(cs, more, ImageOf(slot));
    }
  }

  /** New claims of owners outside the task table. */
  lemma OwnersExtend(k: Kernel, k': Kernel, more: seq<Claim>)
    requires OwnersOk(k) && k'.claims == k.claims + more && k'.busy == k.busy && NoSlots(more)
    requires multiset(k'.heap.pages.live) == multiset(k.heap.pages.live) + multiset(Claimed(more))
    requires Heaps.ChunkRuns(k'.heap.chunks) == Heaps.ChunkRuns(k.heap.chunks) + RunsBy(more, OfHeap)
    requires |RunsBy(k.claims, OfIdle) + RunsBy(more, OfIdle)| <= 1 && (forall r | r in RunsBy(more, OfIdle) :: r.count == 1)
    requires forall r | r in RunsBy(more, Leaked) :: r.count == 2
    ensures OwnersOk(k')
  {
    hide RunsBy, Claimed, NoSlots;
    ClaimsAppend(k.claims, more, OfHeap);
    ClaimsAppend(k.claims, more, OfIdle);
    ClaimsAppend(k.claims, more, Leaked);
    assert multiset(Claimed(k.claims) + Claimed(more)) == multiset(Claimed(k.claims)) + multiset(Claimed(more));
    forall slot: nat
      ensures SlotOk(k', slot)
    {
      ClaimsAppend(k.claims, more, StackOf(slot));
      ClaimsAppend(k.claims, more, ImageOf(slot));
      NoSlotRuns(more, slot);
      assert SlotOk(k, slot);
    }
  }

  /** What a heap request adds: nothing, or one run to the live ones and the chunks alike. */
  lemma RequestAdds(h: Heaps.Heap, size: nat)
    requires Heaps.SizeOk(size) && Heaps.KmallocStep(h, size).Ready?
    ensures var (h', c) := (Heaps.KmallocStep(h, size).heap, Heaps.ChunkRuns(Opened(h.chunks, Heaps.KmallocStep(h, size).heap.chunks)));
            && Heaps.ChunkRuns(h'.chunks) == Heaps.ChunkRuns(h.chunks) + c && h'.base == h.base
            && multiset(h'.pages.live) == multiset(h.pages.live) + multiset(c)
  {
    hide PageRuns.AllocStep, Heaps.Offset, Heaps.KmallocStep, Heaps.ChunkPages, Heaps.Align16, Heaps.FirstFit, Heaps.ChunkOk;
    hide Heaps.Address;
    var a := Heaps.Align16(size);
    if Heaps.FirstFit(h.chunks, a) < |h.chunks| {
      Heaps.KmallocFits(h, size);
    } else {
      Heaps.KmallocOpens(h, size);
      PageRuns.AllocLive(h.pages, Heaps.ChunkPages(size));
    }
  }

  lemma RequestInv(k: Kernel, size: nat)
    requires KernelInv(k) && RequestStep(k, size).Running?
    ensures KernelInv(RequestStep(k, size).k)
  {
    hide Heaps.HeapInv, Heaps.KmallocStep, Files.Inv, FromFlash, OwnersOk, RunsBy, Claimed, Outside, Chunks;
    hide NoSlots, OpenCount;
    Heaps.KmallocInv(k.heap, size);
    RequestAdds(k.heap, size);
    var k' := RequestStep(k, size).k;
    var news := Opened(k.heap.chunks, k'.heap.chunks);
    ChunkClaims(news, OfHeap);
    ChunkClaims(news, OfIdle);
    ChunkClaims(news, Leaked);
    ClaimsAppend(k.claims, Chunks(news), Leaked);
    IdleOnce(k);
    ChunksOutside(news);
    OwnersExtend(k, k', Chunks(news));
  }

  lemma ChunksOutside(news: seq<Heaps.HeapChunk>)
    ensures NoSlots(Chunks(news))
  {
  }

  lemma IdleOnce(k: Kernel)
    requires OwnersOk(k)
    ensures |RunsBy(k.claims, OfIdle)| <= 1
  {
  }

  lemma GrantInv(k: Kernel, n: nat, o: Owner)
    requires KernelInv(k) && GrantStep(k, n, o).Running?
    requires o == OfMmap || (o == OfIdle && n == 1 && RunsBy(k.claims, OfIdle) == [])
    ensures KernelInv(GrantStep(k, n, o).k)
  {
    hide Heaps.HeapInv, Files.Inv, FromFlash, OwnersOk, NewRun, RunsBy, Claimed, Outside, OpenCount, Heaps.ChunkRuns;
    var k', c := GrantStep(k, n, o).k, Claim(NewRun(k.heap.pages, n), o);
    HeapGrows(k.heap, n);
    hide PageRuns.Step;
    OneClaim(c, OfHeap);
    OneClaim(c, OfIdle);
    OneClaim(c, Leaked);
    ClaimsAppend(k.claims, [c], Leaked);
    IdleOnce(k);
    OwnersExtend(k, k', [c]);
  }

  lemma HeapGrows(h: Heaps.Heap, n: nat)
    requires Heaps.HeapInv(h) && PageRuns.Step(h.pages, PageRuns.Alloc(n)).Done?
    ensures var st := PageRuns.Step(h.pages, PageRuns.Alloc(n)).st;
            && Heaps.HeapInv(h.(pages := st)) && multiset(st.live) == multiset(h.pages.live) + multiset{NewRun(h.pages, n)}
            && NewRun(h.pages, n).count == n
  {
    AllocKeeps(h.pages, n);
  }

  /** The claims of a new task. */
  lemma OwnersStart(k: Kernel, k': Kernel, slot: nat, stack: Run, image: Run)
    requires OwnersOk(k) && slot < MAX_TASKS && !k.busy[slot] && k'.busy == k.busy[slot := true]
    requires k'.claims == k.claims + [Claim(stack, StackOf(slot)), Claim(image, ImageOf(slot))]
    requires multiset(k'.heap.pages.live) == multiset(k.heap.pages.live) + multiset([stack, image])
    requires k'.heap.chunks == k.heap.chunks && stack.count == 2 && 0 < image.count < 0x8000_0000
    ensures OwnersOk(k') && RunsBy(k'.claims, Leaked) == RunsBy(k.claims, Leaked)
  {
    var more := [Claim(stack, StackOf(slot)), Claim(image, ImageOf(slot))];
    hide RunsBy, Claimed;
    TwoClaims(stack, image, slot, OfHeap);
    TwoClaims(stack, image, slot, OfIdle);
    TwoClaims(stack, image, slot, Leaked);
    ClaimsAppend(k.claims, more, OfHeap);
    ClaimsAppend(k.claims, more, OfIdle);
    ClaimsAppend(k.claims, more, Leaked);
    assert multiset(Claimed(k.claims) + Claimed(more)) == multiset(Claimed(k.claims)) + multiset(Claimed(more));
    forall s: nat
      ensures SlotOk(k', s)
    {
      assert SlotOk(k, s);
      SlotStart(k, k', slot, stack, image, s);
    }
    hide SlotOk;
  }

  lemma SlotStart(k: Kernel, k': Kernel, slot: nat, stack: Run, image: Run, s: nat)
    requires SlotOk(k, s) && slot < |k.busy| && !k.busy[slot] && k'.busy == k.busy[slot := true]
    requires k'.claims == k.claims + [Claim(stack, StackOf(slot)), Claim(image, ImageOf(slot))]
    requires stack.count == 2 && 0 < image.count < 0x8000_0000
    ensures SlotOk(k', s)
  {
    hide RunsBy, Claimed;
    var more := [Claim(stack, StackOf(slot)), Claim(image, ImageOf(slot))];
    ClaimsAppend(k.claims, more, StackOf(s));
    ClaimsAppend(k.claims, more, ImageOf(s));
    TwoClaims(stack, image, slot, StackOf(s));
    TwoClaims(stack, image, slot, ImageOf(s));
  }

  lemma TwoClaims(stack: Run, image: Run, slot: nat, o: Owner)
    ensures var more := [Claim(stack, StackOf(slot)), Claim(image, ImageOf(slot))];
            && Claimed(more) == [stack, image] && Outside(more) == []
            && RunsBy(more, o) == if o == StackOf(slot) then [stack] else if o == ImageOf(slot) then [image] else []
  {
    var a, b := Claim(stack, StackOf(slot)), Claim(image, ImageOf(slot));
    assert [a, b] == [a] + [b];
    ClaimsAppend([a], [b], o);
    OneClaim(a, o);
    OneClaim(b, o);
    hide RunsBy, Claimed, Outside;
  }

  lemma OwnersDrop(k: Kernel, k': Kernel, slot: nat)
    requires OwnersOk(k) && slot < MAX_TASKS && k'.busy == k.busy[slot := false] && k'.claims == Dropped(k.claims, slot)
    requires multiset(k'.heap.pages.live) + multiset(TaskRuns(k.claims, slot)) == multiset(k.heap.pages.live)
    requires k'.heap.chunks == k.heap.chunks
    ensures OwnersOk(k')
  {
    hide RunsBy, Claimed, Dropped, TaskRuns;
    DroppedKeeps(k.claims, slot, OfHeap);
    DroppedKeeps(k.claims, slot, OfIdle);
    DroppedKeeps(k.claims, slot, Leaked);
    DroppedRuns(k.claims, slot);
    SameLeft(multiset(Claimed(k'.claims)), multiset(k'.heap.pages.live), multiset(TaskRuns(k.claims, slot)));
    forall s: nat
      ensures SlotOk(k', s)
    {
      DroppedKeeps(k.claims, slot, StackOf(s));
      DroppedKeeps(k.claims, slot, ImageOf(s));
      assert SlotOk(k, s);
    }
  }

  lemma SameLeft(a: multiset<Run>, b: multiset<Run>, c: multiset<Run>)
    requires a + c == b + c
    ensures a == b
  {
    assert (a + c) - c == a && (b + c) - c == b;
  }

  lemma HeapStays(h: Heaps.Heap, st: Pages)
    requires Heaps.HeapInv(h) && PageRuns.Inv(st) && multiset(Heaps.ChunkRuns(h.chunks)) <= multiset(st.live)
    ensures Heaps.HeapInv(h.(pages := st))
  {
  }

  lemma ExitInv(k: Kernel, slot: nat)
    requires KernelInv(k) && TaskExitStep(k, slot).Running?
    ensures KernelInv(TaskExitStep(k, slot).k)
  {
    hide Files.Inv, FromFlash, RunsBy, Claimed, Dropped, OpenCount, PageRuns.Inv, PageRuns.Step;
    var k' := TaskExitStep(k, slot).k;
    assert SlotOk(k, slot);
    var runs := TaskRuns(k.claims, slot);
    assert runs == [runs[0], runs[1]];
    ExitReturns(k.heap.pages, runs[0], runs[1]);
    TwoReturned(multiset(k.heap.pages.live), multiset(k'.heap.pages.live), runs);
    hide TaskRuns, ExitStep;
    OwnersDrop(k, k', slot);
    hide OwnersOk;
    ExitHeap(k, k', slot);
    DroppedKeeps(k.claims, slot, Leaked);
  }

  lemma TwoReturned(before: multiset<Run>, after: multiset<Run>, runs: seq<Run>)
    requires |runs| == 2 && runs[0] in before && runs[1] in before - multiset{runs[0]}
    requires after == before - multiset{runs[0]} - multiset{runs[1]}
    ensures after + multiset(runs) == before
  {
    assert runs == [runs[0], runs[1]];
    assert multiset(runs) == multiset{runs[0], runs[1]};
  }

  lemma ExitHeap(k: Kernel, k': Kernel, slot: nat)
    requires Heaps.HeapInv(k.heap) && OwnersOk(k) && OwnersOk(k') && PageRuns.Inv(k'.heap.pages)
    requires k'.heap == k.heap.(pages := k'.heap.pages)
    ensures Heaps.HeapInv(k'.heap)
  {
    RunsByAmong(k'.claims, OfHeap);
    HeapStays(k.heap, k'.heap.pages);
  }

  /** A load that finds no free slot only uses up a descriptor number. */
  lemma NoSlotInv(k: Kernel, name: Bytes)
    requires KernelInv(k) && Files.OpenStep(k.files, name).ret >= 0
    ensures k.files.next < Files.FDS_MAX && KernelInv(k.(files := Loader.ClosedAgain(k.files)))
  {
    var t := k.files;
    ClosedAgainIs(t, name);
    OpenedFacts(t, name);
    OpenCountUpdate(t.fds, t.next, Files.Desc(Files.NULL, 0, 0));
    hide Heaps.HeapInv, Files.Inv, FromFlash, OpenCount, RunsBy;
    OwnersSame(k, k.(files := Loader.ClosedAgain(t)));
    hide OwnersOk;
  }

  lemma OwnersSame(k: Kernel, k': Kernel)
    requires OwnersOk(k) && k'.heap == k.heap && k'.claims == k.claims && k'.busy == k.busy
    ensures OwnersOk(k')
  {
    hide RunsBy, Claimed;
    forall slot: nat
      ensures SlotOk(k', slot)
    {
      assert SlotOk(k, slot);
    }
  }

  lemma LoadInv(k: Kernel, name: Bytes)
    requires KernelInv(k) && TaskLoadStep(k, name).Running?
    ensures KernelInv(TaskLoadStep(k, name).k)
  {
    assert Files.Shape(k.files);
    hide Heaps.HeapInv, Files.Inv, FromFlash, OwnersOk, GoodFile, LoadStep, LoadRuns, LoadFiles, DataNamed;
    hide Loader.ClosedAgain, RunsBy, OpenCount;
    if Files.OpenStep(k.files, name).ret >= 0 {
      OpenedFacts(k.files, name);
      var slot := FirstFree(k.busy);
      if slot == |k.busy| {
        NoSlotInv(k, name);
      } else {
        LoadedInv(k, name, slot);
      }
    }
  }

  lemma LoadedInv(k: Kernel, name: Bytes, slot: nat)
    requires KernelInv(k) && GoodFile(k.files, name) && Files.OpenStep(k.files, name).ret >= 0
    requires slot < |k.busy| && !k.busy[slot] && Loader.Found(k.files, name) < |k.files.inodes|
    requires LoadOf(k.heap.pages, k.files, name).Done?
    ensures var data := DataNamed(k.files, name);
            var runs := LoadRuns(k.heap.pages, data);
            KernelInv(k.(heap := k.heap.(pages := LoadStep(k.heap.pages, data).st), files := LoadFiles(k.files, name),
                         claims := k.claims + LoadClaims(runs, slot), busy := if |runs| == 2 then k.busy[slot := true] else k.busy))
  {
    hide Files.Inv, FromFlash, GoodFile, LoadStep, LoadRuns, LoadFiles, DataNamed, RunsBy, Claimed, OpenCount;
    hide PageRuns.Inv, Elf.Wanted, Elf.Trusted, SlotOk;
    var st, t := k.heap.pages, k.files;
    var data := DataNamed(t, name);
    var runs := LoadRuns(st, data);
    LoadGains(st, data);
    DescriptorLeaksExactly(t, name);
    OpenCountUpdate(t.fds, t.next, LoadFiles(t, name).fds[t.next]);
    HeapStays(k.heap, LoadStep(st, data).st);
    var k' := k.(heap := k.heap.(pages := LoadStep(st, data).st), files := LoadFiles(t, name),
                 claims := k.claims + LoadClaims(runs, slot), busy := if |runs| == 2 then k.busy[slot := true] else k.busy);
    hide OwnersOk, Heaps.HeapInv, LoadClaims, Outside;
    OwnersLoad(k, k', slot, runs);
  }

  /** Stack and image go to the task in the slot, a stack alone is leaked. */
  lemma OwnersLoad(k: Kernel, k': Kernel, slot: nat, runs: seq<Run>)
    requires OwnersOk(k) && slot < |k.busy| && !k.busy[slot] && (|runs| == 1 || |runs| == 2) && runs[0].count == 2
    requires |runs| == 2 ==> 0 < runs[1].count < 0x8000_0000
    requires k'.claims == k.claims + LoadClaims(runs, slot) && k'.busy == if |runs| == 2 then k.busy[slot := true] else k.busy
    requires k'.heap.chunks == k.heap.chunks && multiset(k'.heap.pages.live) == multiset(k.heap.pages.live) + multiset(runs)
    ensures OwnersOk(k') && |RunsBy(k'.claims, Leaked)| == |RunsBy(k.claims, Leaked)| + if |runs| == 2 then 0 else 1
  {
    hide OwnersOk, RunsBy;
    SlotCount(k);
    if |runs| == 2 {
      assert runs == [runs[0], runs[1]];
      OwnersStart(k, k', slot, runs[0], runs[1]);
    } else {
      assert runs == [runs[0]];
      OwnersLeak(k, k', runs[0]);
    }
  }

  lemma OwnersLeak(k: Kernel, k': Kernel, stack: Run)
    requires OwnersOk(k) && stack.count == 2 && k'.claims == k.claims + [Claim(stack, Leaked)] && k'.busy == k.busy
    requires k'.heap.chunks == k.heap.chunks && multiset(k'.heap.pages.live) == multiset(k.heap.pages.live) + multiset([stack])
    ensures OwnersOk(k') && RunsBy(k'.claims, Leaked) == RunsBy(k.claims, Leaked) + [stack]
  {
    IdleOnce(k);
    assert RunsBy(k.claims, OfHeap) == Heaps.ChunkRuns(k.heap.chunks);
    hide OwnersOk, RunsBy, Claimed, Outside, Heaps.ChunkRuns;
    var c := Claim(stack, Leaked);
    OneClaim(c, OfHeap);
    OneClaim(c, OfIdle);
    OneClaim(c, Leaked);
    ClaimsAppend(k.claims, [c], Leaked);
    OwnersExtend(k, k', [c]);
  }

  lemma SlotCount(k: Kernel)
    requires OwnersOk(k)
    ensures |k.busy| == MAX_TASKS
  {
  }

  lemma StepInv(k: Kernel, op: Op)
    requires KernelInv(k) && Step(k, op).Running?
    ensures KernelInv(Step(k, op).k)
  {
    hide KernelInv, RequestStep, GrantStep, TaskLoadStep, TaskExitStep;
    match op
    case Request(size) => RequestInv(k, size);
    case Mmap(n) => GrantInv(k, n, OfMmap);
    case Idle => GrantInv(k, 1, OfIdle);
    case Load(name) => LoadInv(k, name);
    case Exit(slot) => ExitInv(k, slot);
  }

  // ---------------------------------------------------------------- whole runs

  ghost function Exec(k: Kernel, ops: seq<Op>): (r: KernelOutcome)
    requires KernelInv(k)
    ensures r.Running? ==> KernelInv(r.k)
    decreases |ops|
  {
    if ops == [] then Running(k)
    else
      match Step(k, ops[0])
      case Running(k') => StepInv(k, ops[0]); Exec(k', ops[1..])
      case stop => stop
  }

  /** The kernel behind `kmalloc_init` and the parsing of the flash: one heap chunk, no task. */
  ghost function Start(managed: nat, descriptors: nat, base: nat, flash: Bytes): KernelOutcome
    requires managed < 0x8000_0000
  {
    match PageRuns.Start(managed, descriptors)
    case Done(st) =>
      (match Heaps.HeapStart(st, base)
       case Ready(h, _) => Running(Kernel(h, Files.Boot(flash), Chunks(h.chunks), seq(MAX_TASKS, _ => false)))
       case _ => Stopped(PageRuns.AllocStep(st, 4)))
    case why => Stopped(why)
  }

  lemma {:induction false} NothingOpen(fds: seq<Files.Desc>)
    requires forall d | d in fds :: d.file == Files.NULL
    ensures OpenCount(fds) == 0
  {
    if fds != [] {
      NothingOpen(fds[1..]);
    }
  }

  lemma StartInv(managed: nat, descriptors: nat, base: nat, flash: Bytes)
    requires managed < 0x8000_0000 && base % PAGE_SIZE == 0 && Start(managed, descriptors, base, flash).Running?
    ensures KernelInv(Start(managed, descriptors, base, flash).k)
  {
    PageRuns.StartInv(managed, descriptors);
    var st := PageRuns.Start(managed, descriptors).st;
    Heaps.StartHeapInv(st, base);
    var k := Start(managed, descriptors, base, flash).k;
    InitialFromFlash(flash);
    assert k.files.fds == Files.Boot(flash).fds;
    NothingOpen(k.files.fds);
    PageRuns.AllocLive(st, 4);
    assert k.heap.pages.live == Heaps.ChunkRuns(k.heap.chunks);
    hide PageRuns.AllocStep, PageRuns.Inv, Heaps.HeapInv, Files.Inv, FromFlash;
    FirstClaims(k);
  }

  /** The heap is all there is. */
  lemma FirstClaims(k: Kernel)
    requires k.heap.pages.live == Heaps.ChunkRuns(k.heap.chunks) && k.claims == Chunks(k.heap.chunks)
    requires |k.busy| == MAX_TASKS && forall i | 0 <= i < MAX_TASKS :: !k.busy[i]
    ensures OwnersOk(k) && RunsBy(k.claims, Leaked) == []
  {
    hide RunsBy, Claimed, Outside;
    ChunkClaims(k.heap.chunks, OfHeap);
    ChunkClaims(k.heap.chunks, OfIdle);
    ChunkClaims(k.heap.chunks, Leaked);
    forall slot: nat
      ensures SlotOk(k, slot)
    {
      ChunkClaims(k.heap.chunks, StackOf(slot));
      ChunkClaims(k.heap.chunks, ImageOf(slot));
    }
  }

  ghost function Boot(managed: nat, descriptors: nat, base: nat, flash: Bytes, ops: seq<Op>): (r: KernelOutcome)
    requires managed < 0x8000_0000 && base % PAGE_SIZE == 0
    ensures r.Running? ==> KernelInv(r.k)
  {
    match Start(managed, descriptors, base, flash)
    case Running(k) => StartInv(managed, descriptors, base, flash); Exec(k, ops)
    case stop => stop
  }

  /** After every run from boot the live pages are exactly what the owners hold, and the heap's share is its chunks. */
  lemma EveryPageOwned(managed: nat, descriptors: nat, base: nat, flash: Bytes, ops: seq<Op>)
    requires managed < 0x8000_0000 && base % PAGE_SIZE == 0 && Boot(managed, descriptors, base, flash, ops).Running?
    ensures var k := Boot(managed, descriptors, base, flash, ops).k;
            && Heaps.HeapInv(k.heap) && RunsBy(k.claims, OfHeap) == Heaps.ChunkRuns(k.heap.chunks)
            && multiset(Claimed(k.claims)) == multiset(k.heap.pages.live)
  {
    hide Files.Inv, FromFlash, Heaps.HeapInv, Boot;
    var k := Boot(managed, descriptors, base, flash, ops).k;
    assert KernelInv(k);
  }

  /** A task that has not been torn down has one stack of two pages and one image; an empty slot holds nothing. */
  lemma EveryTaskHoldsTwo(managed: nat, descriptors: nat, base: nat, flash: Bytes, ops: seq<Op>, slot: nat)
    requires managed < 0x8000_0000 && base % PAGE_SIZE == 0 && Boot(managed, descriptors, base, flash, ops).Running?
    requires slot < MAX_TASKS
    ensures var k := Boot(managed, descriptors, base, flash, ops).k;
            && |k.busy| == MAX_TASKS
            && |RunsBy(k.claims, StackOf(slot))| == |RunsBy(k.claims, ImageOf(slot))| == (if k.busy[slot] then 1 else 0)
            && (forall r | r in RunsBy(k.claims, StackOf(slot)) :: r.count == 2)
  {
    hide Files.Inv, FromFlash, Heaps.HeapInv, Boot;
    var k := Boot(managed, descriptors, base, flash, ops).k;
    assert KernelInv(k) && SlotOk(k, slot);
  }

  /** Leaked stacks and open descriptors come in pairs. */
  lemma LeaksInPairs(managed: nat, descriptors: nat, base: nat, flash: Bytes, ops: seq<Op>)
    requires managed < 0x8000_0000 && base % PAGE_SIZE == 0 && Boot(managed, descriptors, base, flash, ops).Running?
    ensures var k := Boot(managed, descriptors, base, flash, ops).k;
            |RunsBy(k.claims, Leaked)| == OpenCount(k.files.fds) && forall r | r in RunsBy(k.claims, Leaked) :: r.count == 2
  {
    hide Files.Inv, FromFlash, Heaps.HeapInv, Boot;
    var k := Boot(managed, descriptors, base, flash, ops).k;
    assert KernelInv(k);
  }

  /** No two owners share a page. */
  lemma OwnersApart(managed: nat, descriptors: nat, base: nat, flash: Bytes, ops: seq<Op>, i: nat, j: nat)
    requires managed < 0x8000_0000 && base % PAGE_SIZE == 0 && Boot(managed, descriptors, base, flash, ops).Running?
    requires i < j < |Boot(managed, descriptors, base, flash, ops).k.claims|
    ensures var cs := Boot(managed, descriptors, base, flash, ops).k.claims;
            Heaps.Apart(cs[i].run.start, cs[i].run.count, cs[j].run.start, cs[j].run.count)
  {
    var k := Boot(managed, descriptors, base, flash, ops).k;
    hide Boot;
    ClaimsApart(k, i, j);
  }

  lemma ClaimsApart(k: Kernel, i: nat, j: nat)
    requires KernelInv(k) && i < j < |k.claims|
    ensures Heaps.Apart(k.claims[i].run.start, k.claims[i].run.count, k.claims[j].run.start, k.claims[j].run.count)
  {
    ClaimedAt(k.claims);
    PageRuns.InvPermuted(k.heap.pages, Claimed(k.claims));
    PageTheorems.LiveDisjoint(k.heap.pages.(live := Claimed(k.claims)), i, j);
  }

  lemma {:induction false} ClaimedAt(cs: seq<Claim>)
    ensures |Claimed(cs)| == |cs| && forall i | 0 <= i < |cs| :: Claimed(cs)[i] == cs[i].run
  {
    if cs != [] {
      ClaimedAt(cs[1..]);
    }
  }

  // ---------------------------------------------------------------- accounting

  /** The runs of the tasks in the first `n` slots. */
  function TableRuns(cs: seq<Claim>, n: nat): seq<Run> {
    if n == 0 then [] else TableRuns(cs, n - 1) + TaskRuns(cs, n - 1)
  }

  /** How often a run is listed. */
  function Times(rs: seq<Run>, r: Run): nat {
    multiset(rs)[r]
  }

  lemma TimesFirst(x: Run, rs: seq<Run>, r: Run)
    ensures Times([x] + rs, r) == (if x == r then 1 else 0) + Times(rs, r)
  {
    assert multiset([x] + rs) == multiset{x} + multiset(rs);
  }

  lemma TimesAppend(a: seq<Run>, b: seq<Run>, r: Run)
    ensures Times(a + b, r) == Times(a, r) + Times(b, r)
  {
    assert multiset(a + b) == multiset(a) + multiset(b);
  }

  lemma TaskRunsTimes(cs: seq<Claim>, slot: nat, r: Run)
    requires cs != []
    ensures Times(TaskRuns(cs, slot), r)
            == Times(TaskRuns(cs[1..], slot), r) + if OfSlot(cs[0].owner, slot) && cs[0].run == r then 1 else 0
  {
    hide RunsBy, Times;
    RunsByFirst(cs, StackOf(slot));
    RunsByFirst(cs, ImageOf(slot));
    TimesAppend(RunsBy(cs, StackOf(slot)), RunsBy(cs, ImageOf(slot)), r);
    TimesAppend(RunsBy(cs[1..], StackOf(slot)), RunsBy(cs[1..], ImageOf(slot)), r);
    TimesFirst(cs[0].run, RunsBy(cs[1..], StackOf(slot)), r);
    TimesFirst(cs[0].run, RunsBy(cs[1..], ImageOf(slot)), r);
  }

  predicate Below(o: Owner, n: nat) {
    match o
    case StackOf(slot) => slot < n
    case ImageOf(slot) => slot < n
    case _ => false
  }

  lemma BelowNext(o: Owner, n: nat)
    ensures Below(o, n + 1) <==> Below(o, n) || OfSlot(o, n)
    ensures !(Below(o, n) && OfSlot(o, n))
  {
  }

  lemma TableRunsLast(cs: seq<Claim>, n: nat, r: Run)
    ensures Times(TableRuns(cs, n + 1), r) == Times(TableRuns(cs, n), r) + Times(TaskRuns(cs, n), r)
  {
    hide TaskRuns;
    TimesAppend(TableRuns(cs, n), TaskRuns(cs, n), r);
  }

  lemma NoSlotsYet(cs: seq<Claim>, o: Owner)
    ensures TableRuns(cs, 0) == [] && !Below(o, 0)
  {
  }

  lemma {:induction false} TableRunsFirst(cs: seq<Claim>, n: nat, r: Run)
    requires cs != []
    ensures Times(TableRuns(cs, n), r) == Times(TableRuns(cs[1..], n), r) + if Below(cs[0].owner, n) && cs[0].run == r then 1 else 0
  {
    hide TaskRuns, Times, TableRuns, Below, OfSlot;
    if n == 0 {
      NoSlotsYet(cs, cs[0].owner);
      NoSlotsYet(cs[1..], cs[0].owner);
    } else {
      TableRunsFirst(cs, n - 1, r);
      TaskRunsTimes(cs, n - 1, r);
      TableRunsLast(cs, n - 1, r);
      TableRunsLast(cs[1..], n - 1, r);
      BelowNext(cs[0].owner, n - 1);
    }
  }

  lemma {:induction false} NothingClaimed(n: nat)
    ensures TableRuns([], n) == []
  {
    if n > 0 {
      NothingClaimed(n - 1);
    }
  }

  ghost predicate SlotsBelow(cs: seq<Claim>, n: nat) {
    forall c | c in cs :: InTable(c.owner) ==> Below(c.owner, n)
  }

  /** Every claim is counted with its owner, once. */
  lemma {:induction false} TimesByOwner(cs: seq<Claim>, n: nat, r: Run)
    requires SlotsBelow(cs, n)
    ensures Times(Claimed(cs), r) == Times(RunsBy(cs, OfHeap), r) + Times(RunsBy(cs, OfIdle), r) + Times(RunsBy(cs, OfMmap), r)
                                     + Times(RunsBy(cs, Leaked), r) + Times(TableRuns(cs, n), r)
  {
    if cs == [] {
      NothingClaimed(n);
    } else {
      assert cs[0] in cs;
      TimesByOwner(cs[1..], n, r);
      TableRunsFirst(cs, n, r);
      TimesFirst(cs[0].run, Claimed(cs[1..]), r);
      RunsByTimes(cs, OfHeap, r);
      RunsByTimes(cs, OfIdle, r);
      RunsByTimes(cs, OfMmap, r);
      RunsByTimes(cs, Leaked, r);
      hide RunsBy, TableRuns, Times;
    }
  }

  lemma RunsByTimes(cs: seq<Claim>, o: Owner, r: Run)
    requires cs != []
    ensures Times(RunsBy(cs, o), r) == Times(RunsBy(cs[1..], o), r) + if cs[0].owner == o && cs[0].run == r then 1 else 0
  {
    RunsByFirst(cs, o);
    TimesFirst(cs[0].run, RunsBy(cs[1..], o), r);
    hide RunsBy, Times;
  }

  lemma ByOwner(cs: seq<Claim>, n: nat)
    requires SlotsBelow(cs, n)
    ensures multiset(Claimed(cs)) == multiset(RunsBy(cs, OfHeap)) + multiset(RunsBy(cs, OfIdle)) + multiset(RunsBy(cs, OfMmap))
                                     + multiset(RunsBy(cs, Leaked)) + multiset(TableRuns(cs, n))
  {
    hide Claimed, RunsBy, TableRuns;
    forall r: Run
      ensures multiset(Claimed(cs))[r] == multiset(RunsBy(cs, OfHeap))[r] + multiset(RunsBy(cs, OfIdle))[r]
              + multiset(RunsBy(cs, OfMmap))[r] + multiset(RunsBy(cs, Leaked))[r] + multiset(TableRuns(cs, n))[r]
    {
      TimesByOwner(cs, n, r);
    }
  }

  lemma {:induction false} TimesOutside(cs: seq<Claim>, n: nat, r: Run)
    requires SlotsBelow(cs, n)
    ensures Times(Claimed(cs), r) == Times(Outside(cs), r) + Times(TableRuns(cs, n), r)
  {
    if cs == [] {
      NothingClaimed(n);
    } else {
      assert cs[0] in cs;
      TimesOutside(cs[1..], n, r);
      TableRunsFirst(cs, n, r);
      TimesFirst(cs[0].run, Claimed(cs[1..]), r);
      TimesFirst(cs[0].run, Outside(cs[1..]), r);
      hide TableRuns, Times;
    }
  }

  /** Every claim is either outside the table or with one of its slots. */
  lemma OutsideAndTable(cs: seq<Claim>, n: nat)
    requires SlotsBelow(cs, n)
    ensures multiset(Claimed(cs)) == multiset(Outside(cs)) + multiset(TableRuns(cs, n))
  {
    hide Claimed, Outside, TableRuns;
    forall r: Run
      ensures multiset(Claimed(cs))[r] == multiset(Outside(cs))[r] + multiset(TableRuns(cs, n))[r]
    {
      TimesOutside(cs, n, r);
    }
  }

  lemma {:induction false} ClaimListed(cs: seq<Claim>, c: Claim)
    requires c in cs
    ensures RunsBy(cs, c.owner) != []
  {
    if cs[0] != c {
      ClaimListed(cs[1..], c);
    }
  }

  lemma ClaimsBelow(k: Kernel)
    requires OwnersOk(k)
    ensures SlotsBelow(k.claims, MAX_TASKS)
  {
    hide RunsBy, Claimed;
    forall c | c in k.claims && InTable(c.owner)
      ensures Below(c.owner, MAX_TASKS)
    {
      ClaimListed(k.claims, c);
      assert SlotOk(k, c.owner.slot);
    }
  }

  /** Live pages: heap chunks, at most one page for idle, mapped memory, leaked stacks, and what the tasks hold. */
  lemma LivePagesByOwner(managed: nat, descriptors: nat, base: nat, flash: Bytes, ops: seq<Op>)
    requires managed < 0x8000_0000 && base % PAGE_SIZE == 0 && Boot(managed, descriptors, base, flash, ops).Running?
    ensures var k := Boot(managed, descriptors, base, flash, ops).k;
            && multiset(k.heap.pages.live)
               == multiset(Heaps.ChunkRuns(k.heap.chunks)) + multiset(RunsBy(k.claims, OfIdle)) + multiset(RunsBy(k.claims, OfMmap))
                  + multiset(RunsBy(k.claims, Leaked)) + multiset(TableRuns(k.claims, MAX_TASKS))
            && |RunsBy(k.claims, OfIdle)| <= 1 && (forall r | r in RunsBy(k.claims, OfIdle) :: r.count == 1)
  {
    var k := Boot(managed, descriptors, base, flash, ops).k;
    hide Boot, Files.Inv, FromFlash, Heaps.HeapInv, RunsBy, Claimed;
    assert OwnersOk(k);
    ClaimsBelow(k);
    ByOwner(k.claims, MAX_TASKS);
  }

  ghost function PagesIn(rs: seq<Run>): nat {
    PageRuns.LiveSum(rs, Zones.Length())
  }

  lemma {:induction false} TwoEach(rs: seq<Run>)
    requires forall r | r in rs :: r.count == 2
    ensures PagesIn(rs) == 2 * |rs|
  {
    if rs != [] {
      assert rs[0] in rs;
      TwoEach(rs[1..]);
    }
  }

  lemma PagesInFive(a: seq<Run>, b: seq<Run>, c: seq<Run>, d: seq<Run>, e: seq<Run>, all: seq<Run>)
    requires multiset(all) == multiset(a) + multiset(b) + multiset(c) + multiset(d) + multiset(e)
    ensures PagesIn(all) == PagesIn(a) + PagesIn(b) + PagesIn(c) + PagesIn(d) + PagesIn(e)
  {
    var w := Zones.Length();
    PageRuns.SumPermuted(all, a + b + c + d + e, w) by {
      assert multiset(a + b + c + d + e) == multiset(a) + multiset(b) + multiset(c) + multiset(d) + multiset(e);
    }
    PageRuns.LiveSumAppend(a + b + c + d, e, w);
    PageRuns.LiveSumAppend(a + b + c, d, w);
    PageRuns.LiveSumAppend(a + b, c, w);
    PageRuns.LiveSumAppend(a, b, w);
  }

  /** All managed pages are accounted for; the leaked ones are two for every descriptor that is open. */
  lemma ManagedPagesByOwner(k: Kernel)
    requires KernelInv(k)
    ensures k.heap.pages.managed
            == Zones.FreePages(k.heap.pages.zones) + PagesIn(Heaps.ChunkRuns(k.heap.chunks)) + PagesIn(RunsBy(k.claims, OfIdle))
               + PagesIn(RunsBy(k.claims, OfMmap)) + 2 * OpenCount(k.files.fds) + PagesIn(TableRuns(k.claims, MAX_TASKS))
  {
    hide Files.Inv, FromFlash, RunsBy, Claimed, TableRuns, OpenCount;
    assert PageRuns.Conserved(k.heap.pages, Zones.Length());
    hide Heaps.HeapInv;
    ClaimsBelow(k);
    ByOwner(k.claims, MAX_TASKS);
    PagesInFive(RunsBy(k.claims, OfHeap), RunsBy(k.claims, OfIdle), RunsBy(k.claims, OfMmap), RunsBy(k.claims, Leaked),
                TableRuns(k.claims, MAX_TASKS), k.heap.pages.live);
    TwoEach(RunsBy(k.claims, Leaked));
  }

  // ---------------------------------------------------------------- leaks and panics

  /** A load leaks if and only if it found its file, a descriptor and a slot, and the image has no segment. */
  lemma LeaksExactly(k: Kernel, name: Bytes)
    requires KernelInv(k) && Step(k, Load(name)).Running?
    ensures var (before, after) := (RunsBy(k.claims, Leaked), RunsBy(Step(k, Load(name)).k.claims, Leaked));
            && Files.Shape(k.files)
            && (|after| == |before| + 1
                <==> Files.OpenStep(k.files, name).ret >= 0 && FirstFree(k.busy) < |k.busy|
                     && Loader.Found(k.files, name) < |k.files.inodes| && GoodFile(k.files, name)
                     && WantedOf(k.files, name) == Some(None))
            && |before| <= |after| <= |before| + 1
  {
    hide Heaps.HeapInv, OwnersOk, FromFlash, LoadStep, LoadRuns, LoadFiles, Loader.ClosedAgain, RunsBy, OpenCount;
    hide Elf.Trusted, Elf.Wanted;
    if Files.OpenStep(k.files, name).ret >= 0 && FirstFree(k.busy) < |k.busy| {
      var data := DataNamed(k.files, name);
      var runs := LoadRuns(k.heap.pages, data);
      HeapPages(k.heap);
      LoadGains(k.heap.pages, data);
      ClaimsAppend(k.claims, LoadClaims(runs, FirstFree(k.busy)), Leaked);
      if |runs| == 2 {
        TwoClaims(runs[0], runs[1], FirstFree(k.busy), Leaked);
      } else {
        OneClaim(Claim(runs[0], Leaked), Leaked);
      }
    }
  }

  lemma HeapPages(h: Heaps.Heap)
    requires Heaps.HeapInv(h)
    ensures PageRuns.Inv(h.pages)
  {
  }

  ghost predicate Ample(k: Kernel) {
    PageTheorems.Ample(k.heap.pages.managed, k.heap.pages.descriptors)
  }

  /** With a descriptor for every page no request ends for want of one, and no exit ends at all. */
  lemma StepNeverExhausts(k: Kernel, op: Op)
    requires KernelInv(k) && Ample(k)
    ensures Step(k, op) != Stopped(PageRuns.PoolExhausted) && (op.Exit? ==> !Step(k, op).Stopped?)
    ensures Step(k, op).Running? ==> Ample(Step(k, op).k)
  {
    hide PageTheorems.Ample, Files.Inv, FromFlash, Heaps.HeapInv, OwnersOk, PageRuns.Inv;
    HeapPages(k.heap);
    match op
    case Request(size) => RequestNeverExhausts(k, size);
    case Mmap(n) => GrantNeverExhausts(k, n, OfMmap);
    case Idle => GrantNeverExhausts(k, 1, OfIdle);
    case Load(name) => LoadStays(k, name);
    case Exit(slot) => ExitStays(k, slot);
  }

  lemma RequestNeverExhausts(k: Kernel, size: nat)
    requires PageRuns.Inv(k.heap.pages) && Ample(k)
    ensures RequestStep(k, size) != Stopped(PageRuns.PoolExhausted) && (RequestStep(k, size).Running? ==> Ample(RequestStep(k, size).k))
  {
    hide PageTheorems.Ample, PageRuns.Inv;
    if Heaps.SizeOk(size) {
      PageTheorems.StepNeverExhausts(k.heap.pages, PageRuns.Alloc(Heaps.ChunkPages(size)));
    }
  }

  lemma GrantNeverExhausts(k: Kernel, n: nat, o: Owner)
    requires PageRuns.Inv(k.heap.pages) && Ample(k)
    ensures GrantStep(k, n, o) != Stopped(PageRuns.PoolExhausted) && (GrantStep(k, n, o).Running? ==> Ample(GrantStep(k, n, o).k))
  {
    hide PageTheorems.Ample, PageRuns.Inv;
    PageTheorems.StepNeverExhausts(k.heap.pages, PageRuns.Alloc(n));
  }

  lemma LoadStays(k: Kernel, name: Bytes)
    requires KernelInv(k) && PageRuns.Inv(k.heap.pages) && Ample(k)
    ensures TaskLoadStep(k, name) != Stopped(PageRuns.PoolExhausted)
    ensures TaskLoadStep(k, name).Running? ==> Ample(TaskLoadStep(k, name).k)
  {
    hide PageTheorems.Ample, PageRuns.Inv, FromFlash, Heaps.HeapInv, OwnersOk, LoadStep, LoadRuns, LoadFiles;
    hide Loader.ClosedAgain, Elf.Trusted, Elf.Wanted;
    if GoodFile(k.files, name) && Files.OpenStep(k.files, name).ret >= 0 && FirstFree(k.busy) < |k.busy| {
      OpenedFacts(k.files, name);
      var data := DataNamed(k.files, name);
      LoadNeverExhausts(k.heap.pages, data);
      if LoadStep(k.heap.pages, data).Done? {
        LoadGains(k.heap.pages, data);
      }
    }
  }

  lemma ExitStays(k: Kernel, slot: nat)
    requires KernelInv(k) && PageRuns.Inv(k.heap.pages) && Ample(k)
    ensures !TaskExitStep(k, slot).Stopped? && (TaskExitStep(k, slot).Running? ==> Ample(TaskExitStep(k, slot).k))
  {
    hide PageTheorems.Ample, PageRuns.Inv, FromFlash, Heaps.HeapInv, Files.Inv, RunsBy, Claimed, Dropped, OpenCount;
    hide ExitStep;
    if slot < |k.busy| && k.busy[slot] {
      assert SlotOk(k, slot);
      DroppedRuns(k.claims, slot);
      var runs := TaskRuns(k.claims, slot);
      assert runs == [runs[0], runs[1]];
      hide OwnersOk, TaskRuns;
      assert multiset(runs) == multiset{runs[0], runs[1]};
      assert multiset(runs) <= multiset(k.heap.pages.live) by { OwnersTotal(k); }
      ExitSucceeds(k.heap.pages, runs[0], runs[1]);
    }
  }

  lemma OwnersTotal(k: Kernel)
    requires OwnersOk(k)
    ensures multiset(Claimed(k.claims)) == multiset(k.heap.pages.live)
  {
  }

  lemma {:induction false} ExecNeverExhausts(k: Kernel, ops: seq<Op>)
    requires KernelInv(k) && Ample(k)
    ensures Exec(k, ops) != Stopped(PageRuns.PoolExhausted)
    decreases |ops|
  {
    if ops != [] {
      hide KernelInv, Step, Ample;
      StepNeverExhausts(k, ops[0]);
      if Step(k, ops[0]).Running? {
        StepInv(k, ops[0]);
        ExecNeverExhausts(Step(k, ops[0]).k, ops[1..]);
      }
    }
  }

  /** With a descriptor for every page no run of the whole kernel reaches the "Page pool exhausted" panic. */
  lemma BootNeverExhausts(managed: nat, descriptors: nat, base: nat, flash: Bytes, ops: seq<Op>)
    requires managed < 0x8000_0000 && base % PAGE_SIZE == 0 && PageTheorems.Ample(managed, descriptors)
    ensures Boot(managed, descriptors, base, flash, ops) != Stopped(PageRuns.PoolExhausted)
  {
    hide PageRuns.Inv, PageTheorems.Ample, KernelInv, Exec;
    StartNeverExhausts(managed, descriptors, base, flash);
    if Start(managed, descriptors, base, flash).Running? {
      StartInv(managed, descriptors, base, flash);
      ExecNeverExhausts(Start(managed, descriptors, base, flash).k, ops);
    }
  }

  lemma StartNeverExhausts(managed: nat, descriptors: nat, base: nat, flash: Bytes)
    requires managed < 0x8000_0000 && PageTheorems.Ample(managed, descriptors)
    ensures Start(managed, descriptors, base, flash) != Stopped(PageRuns.PoolExhausted)
    ensures Start(managed, descriptors, base, flash).Running? ==> Ample(Start(managed, descriptors, base, flash).k)
  {
    PageTheorems.AmpleNeverExhausts(managed, descriptors, []);
    if PageRuns.Start(managed, descriptors).Done? {
      PageRuns.StartInv(managed, descriptors);
      PageTheorems.StepNeverExhausts(PageRuns.Start(managed, descriptors).st, PageRuns.Alloc(4));
    }
  }

  // ---------------------------------------------------------------- steps, from what the parts of the kernel do

  lemma RequestIs(k: Kernel, size: nat)
    requires KernelInv(k) && Heaps.SizeOk(size)
    ensures match Heaps.KmallocStep(k.heap, size)
            case Ready(h, _) =>
              && Step(k, Request(size)) == Running(k.(heap := h, claims := k.claims + Chunks(Opened(k.heap.chunks, h.chunks))))
              && KernelInv(Step(k, Request(size)).k)
            case _ => Step(k, Request(size)).Stopped?
  {
    hide KernelInv, Heaps.KmallocStep;
    if Heaps.KmallocStep(k.heap, size).Ready? {
      StepInv(k, Request(size));
    }
  }

  lemma GrantIs(k: Kernel, n: nat)
    requires KernelInv(k) && 0 < n < 0x8000_0000
    ensures match PageRuns.Step(k.heap.pages, PageRuns.Alloc(n))
            case Done(st) =>
              && Step(k, Mmap(n)) == Running(k.(heap := k.heap.(pages := st), claims := k.claims + [Claim(NewRun(k.heap.pages, n), OfMmap)]))
              && KernelInv(Step(k, Mmap(n)).k)
            case _ => !Step(k, Mmap(n)).Running?
  {
    hide KernelInv, PageRuns.Step, NewRun;
    if PageRuns.Step(k.heap.pages, PageRuns.Alloc(n)).Done? {
      StepInv(k, Mmap(n));
    }
  }

  lemma IdleIs(k: Kernel)
    requires KernelInv(k) && RunsBy(k.claims, OfIdle) == []
    ensures match PageRuns.Step(k.heap.pages, PageRuns.Alloc(1))
            case Done(st) =>
              && Step(k, Idle) == Running(k.(heap := k.heap.(pages := st), claims := k.claims + [Claim(NewRun(k.heap.pages, 1), OfIdle)]))
              && KernelInv(Step(k, Idle).k)
            case _ => !Step(k, Idle).Running?
  {
    hide KernelInv, PageRuns.Step, NewRun;
    if PageRuns.Step(k.heap.pages, PageRuns.Alloc(1)).Done? {
      StepInv(k, Idle);
    }
  }

  lemma LoadIs(k: Kernel, name: Bytes)
    requires KernelInv(k) && GoodFile(k.files, name)
    ensures Files.Shape(k.files) && Step(k, Load(name)) != Refused
    ensures Step(k, Load(name)).Running? ==> KernelInv(Step(k, Load(name)).k)
    ensures Files.OpenStep(k.files, name).ret < 0 ==> Step(k, Load(name)) == Running(k)
    ensures Files.OpenStep(k.files, name).ret >= 0 && FirstFree(k.busy) == |k.busy| ==>
              && k.files.next < Files.FDS_MAX && Step(k, Load(name)) == Running(k.(files := Loader.ClosedAgain(k.files)))
    ensures Files.OpenStep(k.files, name).ret >= 0 && FirstFree(k.busy) < |k.busy| ==>
              && Loader.Found(k.files, name) < |k.files.inodes| && FromFlash(k.files) && Files.Inv(k.files)
              && match LoadOf(k.heap.pages, k.files, name)
                 case Done(st) => Step(k, Load(name)) == Running(AfterLoad(k, name, st))
                 case _ => !Step(k, Load(name)).Running?
  {
    hide Heaps.HeapInv, OwnersOk, FromFlash, GoodFile, LoadStep, LoadRuns, LoadFiles, Loader.ClosedAgain, RunsBy;
    hide OpenCount, Elf.Trusted, DataNamed;
    if Step(k, Load(name)).Running? {
      StepInv(k, Load(name));
    }
    if Files.OpenStep(k.files, name).ret >= 0 {
      OpenedFacts(k.files, name);
    }
  }

  /** The kernel after a load into the first free slot. */
  ghost function AfterLoad(k: Kernel, name: Bytes, st: Pages): Kernel
    requires Files.Inv(k.files) && FromFlash(k.files) && GoodFile(k.files, name) && Files.OpenStep(k.files, name).ret >= 0
    requires Loader.Found(k.files, name) < |k.files.inodes| && LoadOf(k.heap.pages, k.files, name) == PageRuns.Done(st)
    requires FirstFree(k.busy) < |k.busy|
  {
    var (runs, slot) := (LoadRuns(k.heap.pages, DataNamed(k.files, name)), FirstFree(k.busy));
    k.(heap := k.heap.(pages := st), files := LoadFiles(k.files, name), claims := k.claims + LoadClaims(runs, slot),
       busy := if |runs| == 2 then k.busy[slot := true] else k.busy)
  }

  lemma ExitIs(k: Kernel, slot: nat)
    requires KernelInv(k) && slot < |k.busy| && k.busy[slot]
    ensures var runs := TaskRuns(k.claims, slot);
            && |runs| == 2
            && match ExitStep(k.heap.pages, runs[0], runs[1])
               case Done(st) =>
                 && Step(k, Exit(slot)) == Running(k.(heap := k.heap.(pages := st), claims := Dropped(k.claims, slot), busy := k.busy[slot := false]))
                 && KernelInv(Step(k, Exit(slot)).k)
               case _ => !Step(k, Exit(slot)).Running?
  {
    hide Heaps.HeapInv, FromFlash, Files.Inv, RunsBy, OpenCount, ExitStep, Dropped;
    assert SlotOk(k, slot);
    if Step(k, Exit(slot)).Running? {
      StepInv(k, Exit(slot));
    }
  }
}
