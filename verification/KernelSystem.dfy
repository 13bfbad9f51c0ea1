/** Heap, task table, files and page allocator together, each operation proved to be a step of the whole kernel. */
module KernelSystem {
  import opened Machine
  import opened Flash
  import opened Loads
  import opened ImageReads
  import opened KernelRuns
  import opened Kmalloc
  import opened Tasks
  import opened Vfs
  import opened PageAllocator
  import Files
  import Loader
  import Heaps = KmallocRuns
  import PageRuns
  import Scheduler

  function BusyOf(ts: seq<Task>): (b: seq<bool>)
    ensures |b| == |ts| && forall i | 0 <= i < |ts| :: b[i] <==> ts[i].state != Invalid
  {
    seq(|ts|, i requires 0 <= i < |ts| => ts[i].state != Invalid)
  }

  lemma {:induction false} AllRunsLast(ts: seq<Task>, t: Task, base: nat)
    ensures AllRuns(ts + [t], base) == AllRuns(ts, base) + RunsOf(t, base)
  {
    hide RunsOf;
    if ts == [] {
      assert ts + [t] == [t] && [t][1..] == [];
    } else {
      assert (ts + [t])[1..] == ts[1..] + [t] && (ts + [t])[0] == ts[0];
      AllRunsLast(ts[1..], t, base);
    }
  }

  /** What the tasks record is what they claim. */
  lemma {:induction false} AllRunsClaimed(ts: seq<Task>, base: nat, cs: seq<Claim>, n: nat)
    requires n <= |ts| && forall slot: nat | slot < |ts| :: RunsOf(ts[slot], base) == TaskRuns(cs, slot)
    ensures AllRuns(ts[..n], base) == TableRuns(cs, n)
    decreases n
  {
    hide RunsOf, TaskRuns;
    if n > 0 {
      AllRunsClaimed(ts, base, cs, n - 1);
      AllRunsLast(ts[..n - 1], ts[n - 1], base);
      assert ts[..n - 1] + [ts[n - 1]] == ts[..n];
    }
  }

  class System {
    const heap: KernelHeap
    const table: TaskTable

    /** The owner of every live run of pages. */
    ghost var claims: seq<Claim>

    ghost function View(): Kernel
      requires table.vfs.Laid()
      reads this, heap, heap.pages, table.vfs, table.vfs.inodes, table.vfs.fds, table.tasks
    {
      Kernel(heap.View(), table.vfs.View(), claims, BusyOf(table.tasks[..]))
    }

    /** The table's own records agree with the claims: each task names its two runs, all else is outside the table. */
    ghost predicate Agreed()
      requires table.tasks.Length == MAX_TASKS
      reads this, table, table.tasks
    {
      && heap.pages == table.pages && table.others == Outside(claims)
      && forall slot: nat | slot < MAX_TASKS :: RunsOf(table.tasks[slot], table.pages.poolStart) == TaskRuns(claims, slot)
    }

    ghost predicate Valid()
      reads this, heap, heap.chain, heap.pages, heap.pages.pool, heap.pages.zones
      reads table, table.tasks, table.pages, table.pages.pool, table.pages.zones, table.vfs, table.vfs.inodes, table.vfs.fds
    {
      table.Valid() && heap.Valid() && Agreed() && KernelInv(View())
    }

    /** A table without tasks, next to a heap that has all the live pages. */
    constructor (heap: KernelHeap, table: TaskTable)
      requires heap.pages == table.pages && heap.Valid() && table.Valid()
      requires heap.pages.live == table.others == Heaps.ChunkRuns(heap.chunks)
      requires (forall i | 0 <= i < MAX_TASKS :: table.tasks[i].state == Invalid) && OpenCount(table.vfs.fds[..]) == 0
      ensures Valid() && this.heap == heap && this.table == table && claims == Chunks(heap.chunks)
    {
      hide TaskTable.Valid, KernelHeap.Valid, KernelInv, Agreed, Chunks;
      this.heap, this.table, claims := heap, table, Chunks(heap.chunks);
      new;
      Attached();
    }

    lemma Attached()
      requires heap.pages == table.pages && heap.Valid() && table.Valid() && claims == Chunks(heap.chunks)
      requires heap.pages.live == table.others == Heaps.ChunkRuns(heap.chunks)
      requires (forall i | 0 <= i < MAX_TASKS :: table.tasks[i].state == Invalid) && OpenCount(table.vfs.fds[..]) == 0
      ensures Valid()
    {
      hide Allocator.Valid, KernelHeap.Listed, FromFlash, Files.Inv, Heaps.HeapInv, OwnersOk, RunsBy, Chunks;
      hide AllRuns, Outside, Claimed, OpenCount;
      FirstClaims(View());
      forall slot: nat | slot < MAX_TASKS
        ensures RunsOf(table.tasks[slot], table.pages.poolStart) == TaskRuns(claims, slot)
      {
        ChunkClaims(heap.chunks, StackOf(slot));
        ChunkClaims(heap.chunks, ImageOf(slot));
      }
      ChunkClaims(heap.chunks, OfHeap);
    }

    /** Part of `Valid`: what the table needs besides the agreement follows from the invariant. */
    lemma Revalid()
      requires table.pages.Valid() && table.vfs.Valid() && table.vfs.Laid() && table.Slots() && heap.Listed() && heap.chain != []
      requires Agreed() && KernelInv(View())
      ensures Valid()
    {
      hide Allocator.Valid, KernelHeap.Listed, FileSystem.Valid, FromFlash, RunsBy, Claimed, Outside, Files.Inv;
      hide RunsOf, TaskRuns, AllRuns, TableRuns;
      hide Heaps.HeapInv, OwnersOk;
      table.FilesValid();
      ClaimsBelow(View());
      OutsideAndTable(claims, MAX_TASKS);
      AllRunsClaimed(table.tasks[..], table.pages.poolStart, claims, MAX_TASKS);
      assert table.tasks[..][..MAX_TASKS] == table.tasks[..];
      OwnersTotal(View());
    }

    // -------------------------------------------------------------- operations

    /** The operation was the step of the whole kernel, and ended in a panic exactly when that does. */
    ghost predicate Took(k: Kernel, op: Op, ok: bool)
      requires KernelInv(k)
      reads this, heap, heap.chain, heap.pages, heap.pages.pool, heap.pages.zones
      reads table, table.tasks, table.pages, table.pages.pool, table.pages.zones, table.vfs, table.vfs.inodes, table.vfs.fds
    {
      match Step(k, op)
      case Running(k') => ok && Valid() && View() == k'
      case _ => !ok
    }

    /** What an operation needs of the state before it. */
    lemma Parts()
      requires Valid()
      ensures table.Valid() && heap.Valid() && Agreed() && table.vfs.Laid() && KernelInv(View())
    {
    }

    lemma TableParts()
      requires table.Valid()
      ensures table.pages.Valid() && table.vfs.Valid() && table.vfs.Laid() && table.Slots() && FromFlash(table.vfs.View())
    {
    }

    lemma HeapParts()
      requires heap.Valid()
      ensures heap.pages.Valid() && heap.Listed() && heap.chain != []
    {
    }

    /** `kmalloc`, by anyone; `None` is a panic. */
    method Request(size: nat) returns (r: Option<nat>)
      requires Valid() && Heaps.SizeOk(size)
      modifies this`claims, heap, heap.chain, table`others, heap.pages, heap.pages.pool, heap.pages.zones
      ensures Took(old(View()), KernelRuns.Request(size), r.Some?)
    {
      hide Valid, TaskTable.Valid, KernelHeap.Valid, KernelInv, Step, Heaps.KmallocStep, Outside, Chunks, Opened;
      hide RunsOf, TaskRuns;
      hide TaskTable.Slots, FileSystem.Valid, FileSystem.Laid, KernelHeap.Listed, Allocator.Valid, FromFlash;
      Parts();
      TableParts();
      ghost var k := View();
      RequestIs(k, size);
      r := heap.Kmalloc(size);
      if r == None {
        return;
      }
      HeapParts();
      ghost var news := Opened(k.heap.chunks, heap.chunks);
      ChunkClaims(news, OfHeap);
      ChunksOutside(news);
      OutsideAppend(claims, Chunks(news));
      TaskRunsKept(claims, Chunks(news));
      claims, table.others := claims + Chunks(news), table.others + Heaps.ChunkRuns(news);
      Revalid();
    }

    /** `sys_mmap` of a positive length; `None` is a panic. */
    method Mmap(len: nat) returns (r: Option<nat>)
      requires Valid() && 0 < len <= 0xFFFF_F000
      modifies this`claims, table`others, table.pages, table.pages.pool, table.pages.zones
      ensures Took(old(View()), KernelRuns.Mmap(PagesFor(len)), r.Some?)
    {
      hide Valid, TaskTable.Valid, KernelHeap.Valid, KernelInv, Step, Outside, RunsOf, TaskRuns, PagesFor, NewRun;
      hide Heaps.HeapInv;
      hide TaskTable.Slots, FileSystem.Valid, FileSystem.Laid, KernelHeap.Listed, Allocator.Valid, FromFlash, PageRuns.Step;
      Parts();
      TableParts();
      HeapParts();
      ghost var k, n := View(), PagesFor(len);
      GrantIs(k, n);
      r := table.SysMmap(len);
      if r == None {
        return;
      }
      TableParts();
      Granted(k, n, table.pages.RunOf(r.value, n), OfMmap);
      claims := claims + [Claim(NewRun(k.heap.pages, n), OfMmap)];
      Revalid();
    }

    /** The page of the idle task; `None` is a panic. */
    method AddIdle() returns (r: Option<nat>)
      requires Valid() && RunsBy(claims, OfIdle) == []
      modifies this`claims, table`others, table.pages, table.pages.pool, table.pages.zones
      ensures Took(old(View()), Idle, r.Some?)
    {
      hide Valid, TaskTable.Valid, KernelHeap.Valid, KernelInv, Step, Outside, RunsOf, TaskRuns, RunsBy, NewRun;
      hide Heaps.HeapInv;
      hide TaskTable.Slots, FileSystem.Valid, FileSystem.Laid, KernelHeap.Listed, Allocator.Valid, FromFlash, PageRuns.Step;
      Parts();
      TableParts();
      HeapParts();
      ghost var k := View();
      IdleIs(k);
      r := table.AddIdle();
      if r == None {
        return;
      }
      TableParts();
      Granted(k, 1, table.pages.RunOf(r.value, 1), OfIdle);
      claims := claims + [Claim(NewRun(k.heap.pages, 1), OfIdle)];
      Revalid();
    }

    /** The run granted is the one the claim will name. */
    lemma Granted(k: Kernel, n: nat, run: Run, o: Owner)
      requires heap.pages == table.pages && !InTable(o) && PageRuns.Step(k.heap.pages, PageRuns.Alloc(n)) == PageRuns.Done(heap.pages.State())
      requires heap.pages.live == k.heap.pages.live + [run]
      ensures run == NewRun(k.heap.pages, n)
      ensures var more := [Claim(run, o)];
              Outside(k.claims + more) == Outside(k.claims) + [run] && forall slot: nat :: TaskRuns(k.claims + more, slot) == TaskRuns(k.claims, slot)
    {
      PageRuns.AllocLive(k.heap.pages, n);
      OneClaim(Claim(run, o), o);
      OutsideAppend(k.claims, [Claim(run, o)]);
      TaskRunsKept(k.claims, [Claim(run, o)]);
    }

    /** `task_exit`; false is a panic. */
    method Exit(slot: nat) returns (ok: bool)
      requires Valid() && slot < MAX_TASKS && table.tasks[slot].state != Invalid
      modifies this`claims, table.tasks, table.pages, table.pages.pool, table.pages.zones
      ensures Took(old(View()), KernelRuns.Exit(slot), ok)
    {
      hide Valid, TaskTable.Valid, KernelHeap.Valid, KernelInv, Step, Outside, RunsOf, TaskRuns, Dropped, ExitStep;
      hide Heaps.HeapInv;
      hide TaskTable.Slots, FileSystem.Valid, FileSystem.Laid, KernelHeap.Listed, Allocator.Valid, FromFlash;
      Parts();
      TableParts();
      HeapParts();
      ghost var k, ts := View(), table.tasks[..];
      ExitIs(k, slot);
      ok := table.TaskExit(slot);
      if ok {
        TableParts();
        claims := Dropped(claims, slot);
        Left(k, ts, slot);
        Revalid();
      }
    }

    /** The task is gone from the claims as it is gone from the table. */
    lemma Left(k: Kernel, ts: seq<Task>, slot: nat)
      requires |ts| == MAX_TASKS && slot < MAX_TASKS && table.tasks[..] == ts[slot := ts[slot].(state := Invalid)]
      requires k.busy == BusyOf(ts) && claims == Dropped(k.claims, slot) && heap.pages == table.pages && table.others == Outside(k.claims)
      requires forall s: nat | s < MAX_TASKS :: RunsOf(ts[s], table.pages.poolStart) == TaskRuns(k.claims, s)
      ensures table.tasks.Length == MAX_TASKS && Agreed() && BusyOf(table.tasks[..]) == k.busy[slot := false]
    {
      DroppedOutside(k.claims, slot);
      forall s: nat | s < MAX_TASKS
        ensures RunsOf(table.tasks[s], table.pages.poolStart) == TaskRuns(claims, s)
      {
        DroppedKeeps(k.claims, slot, StackOf(s));
        DroppedKeeps(k.claims, slot, ImageOf(s));
        assert table.tasks[s] == if s == slot then ts[slot].(state := Invalid) else ts[s];
      }
    }

    /** `sys_exit` of the current task: the exit, and a step of the scheduler. */
    method SysExit() returns (r: ExitResult)
      requires Valid() && 0 <= table.current < MAX_TASKS && table.tasks[table.current].state == Active
      modifies this`claims, table`current, table.tasks, table.pages, table.pages.pool, table.pages.zones
      ensures Took(old(View()), old(KernelRuns.Exit(table.current)), r != PagePanic)
      ensures r != PagePanic ==> table.SwitchedFrom(old(table.Schedule()), r)
    {
      hide Valid, TaskTable.Valid, KernelHeap.Valid, KernelInv, Step, Outside, RunsOf, TaskRuns, Dropped, ExitStep;
      hide Heaps.HeapInv, Scheduler.Step;
      hide TaskTable.Slots, FileSystem.Valid, FileSystem.Laid, KernelHeap.Listed, Allocator.Valid, FromFlash;
      Parts();
      TableParts();
      HeapParts();
      ghost var k, ts, slot := View(), table.tasks[..], table.current;
      ExitIs(k, slot);
      r := table.SysExit();
      if r != PagePanic {
        TableParts();
        claims := Dropped(claims, slot);
        Left(k, ts, slot);
        Revalid();
      }
    }

    /** The state is that after a load, as far as the parts are concerned that every load leaves alone. */
    ghost predicate Around(k: Kernel, ts: seq<Task>, name: Bytes)
      requires table.vfs.Laid()
      reads heap, heap.pages, table, table.tasks, table.vfs, table.vfs.inodes, table.vfs.fds
    {
      && |ts| == MAX_TASKS == table.tasks.Length && heap.pages == table.pages && KernelInv(k) && GoodFile(k.files, name)
      && k.busy == BusyOf(ts) && heap.View() == k.heap.(pages := heap.pages.State())
      && forall slot: nat | slot < MAX_TASKS :: RunsOf(ts[slot], table.pages.poolStart) == TaskRuns(k.claims, slot)
    }

    lemma NothingLoaded(k: Kernel, ts: seq<Task>, name: Bytes, r: LoadResult, cur: int)
      requires table.vfs.Laid() && Around(k, ts, name) && claims == k.claims
      requires heap.pages.State() == k.heap.pages && Files.Inv(k.files) && FromFlash(k.files)
      requires Files.Shape(k.files) && (r == NotFound <==> Files.OpenStep(k.files, name).ret < 0)
      requires r == NotFound || (r == NoSlot && forall i | 0 <= i < MAX_TASKS :: ts[i].state != Invalid)
      requires table.LoadDid(r, name, k.files, ts, k.heap.pages.live, Outside(k.claims), cur)
      ensures Agreed() && KernelInv(View()) && Step(k, KernelRuns.Load(name)) == Running(View())
    {
      hide KernelInv, GoodFile, FromFlash, Files.Inv, Files.OpenStep, Step, Outside, RunsOf, TaskRuns, Loader.ClosedAgain;
      LoadIs(k, name);
    }

    /** What a load with a free slot did to table and files. */
    ghost predicate Filled(k: Kernel, ts: seq<Task>, name: Bytes, slot: nat, active: bool)
      requires table.vfs.Laid() && table.tasks.Length == MAX_TASKS
      reads table.tasks, table.vfs, table.vfs.inodes, table.vfs.fds
    {
      && slot < |ts| == MAX_TASKS && ts[slot].state == Invalid && (forall i | 0 <= i < slot :: ts[i].state != Invalid)
      && table.tasks[..] == ts[slot := table.tasks[slot]] && table.tasks[slot].state == (if active then Active else Invalid)
      && Files.Inv(k.files) && FromFlash(k.files) && Files.OpenStep(k.files, name).ret >= 0 && GoodFile(k.files, name)
      && table.vfs.View() == LoadFiles(k.files, name)
    }

    lemma FilledBy(k: Kernel, ts: seq<Task>, name: Bytes, r: LoadResult, slot: nat, oth: seq<Run>, cur: int)
      requires table.vfs.Laid() && table.tasks.Length == MAX_TASKS == |ts|
      requires Files.Inv(k.files) && FromFlash(k.files) && GoodFile(k.files, name)
      requires (r == Loaded(slot) || r == NoSegment(slot)) && table.LoadDid(r, name, k.files, ts, k.heap.pages.live, oth, cur)
      ensures Filled(k, ts, name, slot, r.Loaded?)
      ensures r.Loaded? ==> table.others == oth && |RunsOf(table.tasks[slot], table.pages.poolStart)| == 2
      ensures r.NoSegment? ==> |table.others| == |oth| + 1
    {
      hide GoodFile, FromFlash, Files.Inv, Files.OpenStep, LoadFiles, WantedOf, Loader.ClosedAgain, RunsOf;
    }

    lemma LeakedNow(k: Kernel, ts: seq<Task>, name: Bytes, slot: nat)
      requires table.vfs.Laid() && Around(k, ts, name) && Filled(k, ts, name, slot, false)
      requires Loader.Found(k.files, name) < |k.files.inodes| && LoadOf(k.heap.pages, k.files, name) == PageRuns.Done(heap.pages.State())
      requires table.others == Outside(k.claims) + LoadRuns(k.heap.pages, DataNamed(k.files, name))
      requires |table.others| == |Outside(k.claims)| + 1
      requires claims == k.claims + LoadClaims(LoadRuns(k.heap.pages, DataNamed(k.files, name)), slot)
      ensures Agreed() && KernelInv(View()) && Step(k, KernelRuns.Load(name)) == Running(View())
    {
      hide KernelInv, GoodFile, FromFlash, Files.Inv, Files.OpenStep, Step, Outside, TaskRuns, LoadStep, LoadRuns;
      hide LoadFiles, DataNamed, WantedOf, RunsOf;
      LoadIs(k, name);
      var runs := LoadRuns(k.heap.pages, DataNamed(k.files, name));
      assert FirstFree(k.busy) == slot;
      var c := Claim(runs[0], Leaked);
      OneClaim(c, Leaked);
      OutsideAppend(k.claims, [c]);
      TaskRunsKept(k.claims, [c]);
      assert runs == [runs[0]];
      assert BusyOf(table.tasks[..]) == k.busy;
      StillEmpty(ts, slot);
    }

    lemma StillEmpty(ts: seq<Task>, slot: nat)
      requires table.tasks.Length == MAX_TASKS == |ts| && slot < MAX_TASKS && table.tasks[..] == ts[slot := table.tasks[slot]]
      requires ts[slot].state == table.tasks[slot].state == Invalid
      ensures forall s | 0 <= s < MAX_TASKS :: RunsOf(table.tasks[s], table.pages.poolStart) == RunsOf(ts[s], table.pages.poolStart)
    {
      forall s | 0 <= s < MAX_TASKS
        ensures RunsOf(table.tasks[s], table.pages.poolStart) == RunsOf(ts[s], table.pages.poolStart)
      {
        assert table.tasks[s] == table.tasks[..][s];
      }
    }

    lemma LoadedNow(k: Kernel, ts: seq<Task>, name: Bytes, slot: nat)
      requires table.vfs.Laid() && Around(k, ts, name) && Filled(k, ts, name, slot, true) && table.others == Outside(k.claims)
      requires Loader.Found(k.files, name) < |k.files.inodes| && LoadOf(k.heap.pages, k.files, name) == PageRuns.Done(heap.pages.State())
      requires RunsOf(table.tasks[slot], table.pages.poolStart) == LoadRuns(k.heap.pages, DataNamed(k.files, name))
      requires |RunsOf(table.tasks[slot], table.pages.poolStart)| == 2
      requires claims == k.claims + LoadClaims(LoadRuns(k.heap.pages, DataNamed(k.files, name)), slot)
      ensures Agreed() && KernelInv(View()) && Step(k, KernelRuns.Load(name)) == Running(View())
    {
      hide KernelInv, GoodFile, FromFlash, Files.Inv, Files.OpenStep, Step, Outside, LoadStep, LoadRuns, LoadFiles;
      hide DataNamed, WantedOf, RunsOf, RunsBy, TaskRuns, Loader.ClosedAgain;
      LoadIs(k, name);
      var runs := LoadRuns(k.heap.pages, DataNamed(k.files, name));
      assert FirstFree(k.busy) == slot;
      TwoClaims(runs[0], runs[1], slot, Leaked);
      OutsideAppend(k.claims, LoadClaims(runs, slot));
      assert BusyOf(table.tasks[..]) == k.busy[slot := true];
      forall s: nat | s < MAX_TASKS
        ensures RunsOf(table.tasks[s], table.pages.poolStart) == TaskRuns(claims, s)
      {
        assert table.tasks[s] == table.tasks[..][s];
        NewTaskRuns(k, runs, slot, s);
      }
    }

    lemma NewTaskRuns(k: Kernel, runs: seq<Run>, slot: nat, s: nat)
      requires KernelInv(k) && slot < |k.busy| && !k.busy[slot] && |runs| == 2
      ensures TaskRuns(k.claims + LoadClaims(runs, slot), s) == if s == slot then runs else TaskRuns(k.claims, s)
    {
      hide KernelInv, RunsBy;
      var more := LoadClaims(runs, slot);
      RunsByAppend(k.claims, more, StackOf(s));
      RunsByAppend(k.claims, more, ImageOf(s));
      TwoClaims(runs[0], runs[1], slot, StackOf(s));
      TwoClaims(runs[0], runs[1], slot, ImageOf(s));
      if s == slot {
        EmptySlot(k, slot);
        assert runs == [runs[0]] + [runs[1]];
      }
    }

    lemma EmptySlot(k: Kernel, slot: nat)
      requires KernelInv(k) && slot < |k.busy| && !k.busy[slot]
      ensures RunsBy(k.claims, StackOf(slot)) == [] && RunsBy(k.claims, ImageOf(slot)) == []
    {
      hide Files.Inv, FromFlash, Heaps.HeapInv, RunsBy, Claimed;
      assert SlotOk(k, slot);
    }

    /** What `TaskLoad` promises of a load into the first free slot. */
    ghost predicate LoadedInto(k: Kernel, ts: seq<Task>, name: Bytes, r: LoadResult, cur: int)
      requires table.vfs.Laid()
      reads heap, heap.pages, table, table.tasks, table.pages, table.vfs, table.vfs.inodes, table.vfs.fds
    {
      && Around(k, ts, name) && Files.Inv(k.files) && FromFlash(k.files)
      && table.LoadDid(r, name, k.files, ts, k.heap.pages.live, Outside(k.claims), cur)
      && Loader.Found(k.files, name) < |k.files.inodes| && LoadOf(k.heap.pages, k.files, name) == PageRuns.Done(heap.pages.State())
      && table.RunsLeft(r, k.heap.pages, DataNamed(k.files, name), Outside(k.claims))
    }

    lemma LoadedFrom(k: Kernel, ts: seq<Task>, name: Bytes, slot: nat, cur: int)
      requires table.vfs.Laid() && LoadedInto(k, ts, name, Loaded(slot), cur)
      requires claims == k.claims + LoadClaims(LoadRuns(k.heap.pages, DataNamed(k.files, name)), slot)
      ensures Agreed() && KernelInv(View()) && Step(k, KernelRuns.Load(name)) == Running(View())
    {
      hide KernelInv, Step, Outside, RunsOf, LoadStep, LoadRuns, LoadFiles, DataNamed, FromFlash, GoodFile;
      hide TaskTable.LoadDid;
      hide Files.OpenStep, Files.Inv, LoadClaims, FileSystem.Laid, Agreed, Filled;
      FilledBy(k, ts, name, Loaded(slot), slot, Outside(k.claims), cur);
      LoadedNow(k, ts, name, slot);
    }

    lemma LeakedFrom(k: Kernel, ts: seq<Task>, name: Bytes, slot: nat, cur: int)
      requires table.vfs.Laid() && LoadedInto(k, ts, name, NoSegment(slot), cur)
      requires claims == k.claims + LoadClaims(LoadRuns(k.heap.pages, DataNamed(k.files, name)), slot)
      ensures Agreed() && KernelInv(View()) && Step(k, KernelRuns.Load(name)) == Running(View())
    {
      hide KernelInv, Step, Outside, RunsOf, LoadStep, LoadRuns, LoadFiles, DataNamed, FromFlash, GoodFile;
      hide TaskTable.LoadDid;
      hide Files.OpenStep, Files.Inv, LoadClaims, FileSystem.Laid, Agreed, Filled;
      FilledBy(k, ts, name, NoSegment(slot), slot, Outside(k.claims), cur);
      LeakedNow(k, ts, name, slot);
    }

    /** Names the owners of the runs a load has left. */
    ghost method Register(k: Kernel, ts: seq<Task>, name: Bytes, r: LoadResult, cur: int)
      requires table.vfs.Laid() && claims == k.claims && LoadedInto(k, ts, name, r, cur) && (r.Loaded? || r.NoSegment?)
      modifies this`claims
      ensures Agreed() && KernelInv(View()) && Step(k, KernelRuns.Load(name)) == Running(View())
    {
      hide KernelInv, Step, LoadStep, LoadRuns, DataNamed, FromFlash, GoodFile, TaskTable.LoadDid, TaskTable.RunsLeft;
      hide Files.OpenStep, Files.Inv, LoadClaims, FileSystem.Laid, Agreed, Outside;
      var slot := r.slot;
      claims := claims + LoadClaims(LoadRuns(k.heap.pages, DataNamed(k.files, name)), slot);
      if r.Loaded? {
        LoadedFrom(k, ts, name, slot, cur);
      } else {
        LeakedFrom(k, ts, name, slot, cur);
      }
    }

    /** `task_load` of a file with trusted offsets. */
    method Load(name: Bytes) returns (r: LoadResult)
      requires Valid() && GoodFile(table.vfs.View(), name)
      modifies this`claims, table`current, table`others, table.tasks, table.pages, table.pages.pool, table.pages.zones
      modifies table.vfs`fdsNext, table.vfs.fds, table.vfs.inodes
      ensures Took(old(View()), KernelRuns.Load(name), r != LoadPanicked)
    {
      hide Valid, TaskTable.Valid, KernelHeap.Valid, KernelInv, Step, Outside, RunsOf, TaskRuns, LoadOf, LoadRuns;
      hide LoadFiles, DataNamed;
      hide TaskTable.Slots, FileSystem.Valid, FileSystem.Laid, KernelHeap.Listed, Allocator.Valid, FromFlash;
      hide GoodFile, TaskTable.LoadDid, AfterLoad;
      hide Files.OpenStep, Files.Inv, TaskTable.RunsLeft;
      Parts();
      TableParts();
      HeapParts();
      ghost var k, ts, cur := View(), table.tasks[..], table.current;
      LoadIs(k, name);
      r := table.TaskLoad(name);
      if r == LoadPanicked {
        return;
      }
      TableParts();
      if r.Loaded? || r.NoSegment? {
        Register(k, ts, name, r, cur);
      } else {
        NothingLoaded(k, ts, name, r, cur);
      }
      Revalid();
    }
  }
}
