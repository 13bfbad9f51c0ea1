/** Tasks: loading from flash into pages of their own, exit, and the scheduler on the task table. */
module Tasks {
  import opened Machine
  import opened Flash
  import opened Files
  import opened ImageReads
  import opened Vfs
  import opened Loader
  import opened Elf
  import opened Loads
  import PageRuns
  import PageTheorems
  import opened PageAllocator
  import Scheduler

  const NO_TASK: int := -1
  const STACK_SIZE: nat := 2 * PAGE_SIZE

  datatype State = Invalid | Active | Dead

  datatype Task = Task(tid: nat, state: State, vma: nat, vmaSize: nat, stack: nat, stackSize: nat)

  datatype ExitResult = Switched | NoTaskLeft | PagePanic

  datatype LoadResult = Loaded(slot: nat) | NotFound | NoSlot | NoSegment(slot: nat) | LoadPanicked

  /** The runs of pages recorded in a task that has not been torn down. */
  ghost function RunsOf(t: Task, base: nat): seq<PageRuns.Run> {
    if t.state == Invalid || t.stack < base || t.vma < base then []
    else
      [PageRuns.Run((t.stack - base) / PAGE_SIZE, t.stackSize / PAGE_SIZE),
       PageRuns.Run((t.vma - base) / PAGE_SIZE, t.vmaSize / PAGE_SIZE)]
  }

  ghost function AllRuns(ts: seq<Task>, base: nat): seq<PageRuns.Run> {
    if ts == [] then [] else RunsOf(ts[0], base) + AllRuns(ts[1..], base)
  }

  lemma {:induction false} AllRunsUpdate(ts: seq<Task>, i: nat, t: Task, base: nat)
    requires i < |ts|
    ensures multiset(AllRuns(ts[i := t], base)) + multiset(RunsOf(ts[i], base))
         == multiset(AllRuns(ts, base)) + multiset(RunsOf(t, base))
  {
    hide RunsOf;
    if i == 0 {
      assert ts[i := t][1..] == ts[1..];
    } else {
      assert ts[i := t][1..] == ts[1..][i - 1 := t];
      AllRunsUpdate(ts[1..], i - 1, t, base);
      MultisetShift(multiset(RunsOf(ts[0], base)), multiset(AllRuns(ts[1..][i - 1 := t], base)), multiset(RunsOf(ts[i], base)),
                    multiset(AllRuns(ts[1..], base)), multiset(RunsOf(t, base)));
      assert AllRuns(ts[i := t], base) == RunsOf(ts[0], base) + AllRuns(ts[1..][i - 1 := t], base);
      assert AllRuns(ts, base) == RunsOf(ts[0], base) + AllRuns(ts[1..], base);
    }
  }

  lemma MultisetShift<T>(p: multiset<T>, a: multiset<T>, b: multiset<T>, c: multiset<T>, d: multiset<T>)
    requires a + b == c + d
    ensures (p + a) + b == (p + c) + d
  {
    assert (p + a) + b == p + (a + b);
    assert (p + c) + d == p + (c + d);
  }

  lemma TwoOf<T>(a: T, b: T, m: multiset<T>)
    requires multiset([a, b]) <= m
    ensures a in m && b in m - multiset{a} && m - multiset([a, b]) == m - multiset{a} - multiset{b}
  {
    assert multiset([a, b]) == multiset{a} + multiset{b};
  }

  lemma Cancel<T>(a: multiset<T>, b: multiset<T>, c: multiset<T>)
    requires a + c == b + c
    ensures a == b
  {
    assert (a + c) - c == a && (b + c) - c == b;
  }

  lemma Reorder<T>(o: multiset<T>, a: multiset<T>, s: multiset<T>)
    ensures (o + a) + s == (o + s) + a
  {
  }

  lemma JoinTwo<T>(o: multiset<T>, a: multiset<T>, a': multiset<T>, s: T, i: T)
    requires a' + multiset([]) == a + multiset([s, i])
    ensures (o + a) + multiset{s} + multiset{i} == o + a'
  {
    assert multiset([s, i]) == multiset{s} + multiset{i};
    assert a' == a + (multiset{s} + multiset{i});
  }

  lemma DropHeld<T>(before: seq<T>, held: T, more: seq<T>)
    ensures multiset(before + [held] + more) - multiset{held} == multiset(before) + multiset(more)
    ensures held in before + [held] + more
  {
    assert multiset(before + [held] + more) == multiset(before) + multiset{held} + multiset(more);
    assert (before + [held] + more)[|before|] == held;
  }

  lemma {:induction false} AllRunsNone(ts: seq<Task>, base: nat)
    requires forall t | t in ts :: t.state == Invalid
    ensures AllRuns(ts, base) == []
  {
    if ts != [] {
      AllRunsNone(ts[1..], base);
    }
  }

  class TaskTable {
    const pages: Allocator
    const vfs: FileSystem
    const tasks: array<Task>
    var current: int

    /** Live runs no task in the table owns. The table does not know whose they are; the whole kernel does. */
    ghost var others: seq<PageRuns.Run>

    ghost predicate TaskOk(t: Task) {
      t.state != Invalid ==>
        && pages.IsPage(t.stack) && t.stackSize == STACK_SIZE
        && pages.IsPage(t.vma) && t.vmaSize % PAGE_SIZE == 0 && 0 < t.vmaSize < 0x8000_0000
    }

    ghost predicate Slots()
      reads `current, tasks
    {
      && tasks.Length == MAX_TASKS && (current == NO_TASK || 0 <= current < MAX_TASKS)
      && (forall i | 0 <= i < MAX_TASKS :: tasks[i].tid == i)
      && (forall i | 0 <= i < MAX_TASKS :: TaskOk(tasks[i]))
    }

    /** Every live page is owned exactly once: by a task, or outside the table. */
    ghost predicate Owned()
      reads `others, tasks, pages
    {
      multiset(pages.live) == multiset(others) + multiset(AllRuns(tasks[..], pages.poolStart))
    }

    ghost predicate Valid()
      reads this, tasks, pages, pages.pool, pages.zones, vfs, vfs.inodes, vfs.fds
    {
      pages.Valid() && vfs.Valid() && FromFlash(vfs.View()) && Slots() && Owned()
    }

    constructor (pages: Allocator, vfs: FileSystem)
      requires pages.Valid() && vfs.Valid() && FromFlash(vfs.View())
      ensures Valid() && this.pages == pages && this.vfs == vfs && others == pages.live && fresh(tasks) && tasks.Length == 50
      ensures current == NO_TASK && forall i | 0 <= i < MAX_TASKS :: tasks[i].state == Invalid
    {
      hide Allocator.Valid, FileSystem.Valid, FromFlash, AllRuns;
      this.pages, this.vfs := pages, vfs;
      tasks := new Task[MAX_TASKS](i => Task(if i < 0 then 0 else i, Invalid, 0, 0, 0, 0));
      current, others := NO_TASK, pages.live;
      new;
      AllRunsNone(tasks[..], pages.poolStart);
    }

    // -------------------------------------------------------------- scheduling

    ghost function Schedule(): Scheduler.Sched
      requires tasks.Length == MAX_TASKS && 0 <= current < MAX_TASKS
      reads this, tasks
    {
      Scheduler.Sched(seq(MAX_TASKS, i requires 0 <= i < MAX_TASKS reads this, tasks => tasks[i].state == Active), current)
    }

    /** `task_next`; false is the "No more tasks are active" panic. */
    method TaskNext() returns (ok: bool)
      requires Slots() && 0 <= current < MAX_TASKS
      modifies this`current
      ensures match Scheduler.Next(old(Schedule()))
              case None => !ok && current == old(current)
              case Some(n) => ok && current == n
    {
      hide TaskOk;
      ghost var s := Schedule();
      var first := tasks[current].tid + 1;
      var i := first;
      while i < first + MAX_TASKS
        invariant first <= i <= first + MAX_TASKS && current == old(current)
        invariant Scheduler.Scan(s, i - first + 1) == Scheduler.Next(s)
      {
        if tasks[i % MAX_TASKS].state == Active {
          current := i % MAX_TASKS;
          break;
        }
        i := i + 1;
      }
      ok := tasks[current].state == Active;
      if i == first + MAX_TASKS {
        Scheduler.NextNearest(s);
        assert !s.active[current];
      }
    }

    /** `find_free_task`: the first slot in state INVALID. */
    method FindFreeTask() returns (slot: int)
      requires tasks.Length == MAX_TASKS
      ensures slot == NO_TASK ==> forall i | 0 <= i < MAX_TASKS :: tasks[i].state != Invalid
      ensures slot != NO_TASK ==> 0 <= slot < MAX_TASKS && tasks[slot].state == Invalid
                                  && forall i | 0 <= i < slot :: tasks[i].state != Invalid
    {
      for i := 0 to MAX_TASKS
        invariant forall j | 0 <= j < i :: tasks[j].state != Invalid
      {
        if tasks[i].state == Invalid {
          return i;
        }
      }
      slot := NO_TASK;
    }

    // -------------------------------------------------------------- exit and mmap

    /** What `task_exit` gives back: the two runs of the task, and nothing else. */
    ghost predicate TornDown(before: seq<Task>, after: seq<Task>, slot: nat)
      requires slot < |before|
    {
      after == before[slot := before[slot].(state := Invalid)]
    }

    /** The steps of the page allocator in `task_exit`. */
    ghost function ExitPages(st: PageRuns.Pages, task: Task, base: nat): PageRuns.Outcome {
      var runs := RunsOf(task, base);
      if runs == [] then PageRuns.Illegal else ExitStep(st, runs[0], runs[1])
    }

    /** The page allocator panicked exactly when its steps cannot be done, and otherwise did them. */
    ghost predicate Ended(panicked: bool, out: PageRuns.Outcome)
      reads pages
    {
      match out
      case Done(st) => !panicked && pages.State() == st
      case _ => panicked
    }

    lemma MappedInRun(before: PageRuns.Pages, data: Bytes, m: Mapping)
      requires Trusted(data) && Wanted(data).Some? && Wanted(data).value.Some?
      requires Holds(pages, before.live, data, Wanted(data).value.value, m)
      requires ImageStep(before, data) == PageRuns.Done(pages.State())
      ensures InImageRun(m, before, data)
    {
      hide Trusted, Wanted, Contents;
      assert m.size / PAGE_SIZE == PagesFor(Wanted(data).value.value.memsz);
      hide PagesFor;
      PageRuns.AllocLive(before, PagesFor(Wanted(data).value.value.memsz));
    }

    /** `page_free` of the blob. */
    method ReleaseBlob(paddr: nat, n: nat) returns (ok: bool)
      requires pages.Valid() && pages.IsPage(paddr) && n < 0x8000_0000 && pages.RunOf(paddr, n) in pages.live
      modifies pages, pages.pool, pages.zones
      ensures ok ==> pages.Valid() && multiset(pages.live) == multiset(old(pages.live)) - multiset{pages.RunOf(paddr, n)}
      ensures Ended(!ok, PageRuns.Step(old(pages.State()), PageRuns.Free(pages.RunOf(paddr, n))))
    {
      hide Allocator.Valid, PageRuns.FreeStep;
      ok := pages.PageFree(paddr, n);
    }

    /** The two `page_free` calls of `task_exit`. */
    method FreeRuns(task: Task) returns (ok: bool)
      requires pages.Valid() && TaskOk(task) && task.state != Invalid
      requires multiset(RunsOf(task, pages.poolStart)) <= multiset(pages.live)
      modifies pages, pages.pool, pages.zones
      ensures ok ==> pages.Valid() && multiset(pages.live) == multiset(old(pages.live)) - multiset(RunsOf(task, pages.poolStart))
      ensures Ended(!ok, ExitPages(old(pages.State()), task, pages.poolStart))
    {
      hide Allocator.Valid, PageRuns.FreeStep;
      ghost var stack, image := pages.RunOf(task.stack, 2), pages.RunOf(task.vma, task.vmaSize / PAGE_SIZE);
      assert RunsOf(task, pages.poolStart) == [stack, image];
      TwoOf(stack, image, multiset(pages.live));
      hide RunsOf;
      ok := pages.PageFree(task.stack, task.stackSize / PAGE_SIZE);
      if ok {
        assert image in multiset(pages.live);
        ok := pages.PageFree(task.vma, task.vmaSize / PAGE_SIZE);
      }
    }

    /** Moving a task between states moves its two runs in or out of the table's share. */
    lemma RunsOfSlot(slot: nat, t: Task)
      requires tasks.Length == MAX_TASKS && slot < MAX_TASKS
      ensures tasks[slot].state == Invalid ==>
                multiset(AllRuns(tasks[..][slot := t], pages.poolStart))
                == multiset(AllRuns(tasks[..], pages.poolStart)) + multiset(RunsOf(t, pages.poolStart))
      ensures t.state == Invalid ==>
                multiset(AllRuns(tasks[..], pages.poolStart))
                == multiset(AllRuns(tasks[..][slot := t], pages.poolStart)) + multiset(RunsOf(tasks[slot], pages.poolStart))
    {
      AllRunsUpdate(tasks[..], slot, t, pages.poolStart);
      if tasks[slot].state == Invalid {
        assert multiset(RunsOf(tasks[slot], pages.poolStart)) == multiset{};
      }
      if t.state == Invalid {
        assert multiset(RunsOf(t, pages.poolStart)) == multiset{};
      }
    }

    lemma RunsAreLive(slot: nat)
      requires tasks.Length == MAX_TASKS && Owned() && slot < MAX_TASKS
      ensures multiset(RunsOf(tasks[slot], pages.poolStart)) <= multiset(pages.live)
    {
      hide AllRuns, RunsOf;
      var t := tasks[slot].(state := Invalid);
      RunsOfSlot(slot, t);
    }

    /** The slot becomes INVALID, once its runs are no longer live. */
    method ClearSlot(slot: nat, ghost ts: seq<Task>, ghost before: multiset<PageRuns.Run>)
      requires Slots() && slot < MAX_TASKS && tasks[slot].state != Invalid && tasks[..] == ts
      requires multiset(RunsOf(ts[slot], pages.poolStart)) <= before && before == multiset(others) + multiset(AllRuns(ts, pages.poolStart))
      requires multiset(pages.live) == before - multiset(RunsOf(ts[slot], pages.poolStart))
      modifies tasks
      ensures Slots() && Owned() && TornDown(old(tasks[..]), tasks[..], slot)
    {
      hide AllRuns, RunsOf;
      ghost var task := tasks[slot];
      assert TaskOk(task.(state := Invalid));
      hide TaskOk;
      assert multiset(pages.live) + multiset(RunsOf(task, pages.poolStart)) == before;
      RunsOfSlot(slot, task.(state := Invalid));
      Reorder(multiset(others), multiset(AllRuns(ts[slot := task.(state := Invalid)], pages.poolStart)), multiset(RunsOf(task, pages.poolStart)));
      Cancel(multiset(pages.live), multiset(others) + multiset(AllRuns(ts[slot := task.(state := Invalid)], pages.poolStart)),
             multiset(RunsOf(task, pages.poolStart)));
      tasks[slot] := tasks[slot].(state := Invalid);
      assert tasks[..] == ts[slot := task.(state := Invalid)];
    }

    /** `task_exit`; false is a panic of the page allocator. */
    method TaskExit(slot: nat) returns (ok: bool)
      requires Valid() && slot < MAX_TASKS && tasks[slot].state != Invalid
      modifies tasks, pages, pages.pool, pages.zones
      ensures multiset(old(RunsOf(tasks[slot], pages.poolStart))) <= multiset(old(pages.live))
      ensures ok ==> Valid() && TornDown(old(tasks[..]), tasks[..], slot)
      ensures ok ==> multiset(pages.live) == multiset(old(pages.live)) - multiset(old(RunsOf(tasks[slot], pages.poolStart)))
      ensures Ended(!ok, ExitPages(old(pages.State()), old(tasks[slot]), pages.poolStart))
    {
      hide Allocator.Valid, FileSystem.Valid, FromFlash, AllRuns, RunsOf, ExitPages;
      var task := tasks[slot];
      assert TaskOk(task);
      hide TaskOk;
      ghost var ts, before := tasks[..], multiset(pages.live);
      RunsAreLive(slot);
      assert before == multiset(others) + multiset(AllRuns(ts, pages.poolStart));
      hide Owned, TornDown;
      ok := FreeRuns(task);
      if ok {
        ClearSlot(slot, ts, before);
      }
    }

    /** With a descriptor for every page, no exit of a task can end in a panic of the page allocator. */
    lemma ExitAlwaysFits(slot: nat)
      requires Valid() && slot < MAX_TASKS && tasks[slot].state != Invalid
      requires PageTheorems.Ample(pages.State().managed, pages.State().descriptors)
      ensures ExitPages(pages.State(), tasks[slot], pages.poolStart).Done?
    {
      hide AllRuns, PageRuns.Inv, PageTheorems.Ample, ExitStep;
      var task := tasks[slot];
      assert TaskOk(task);
      RunsOfSlot(slot, task.(state := Invalid));
      var runs := RunsOf(task, pages.poolStart);
      assert multiset(runs) <= multiset(pages.live);
      assert runs == [runs[0], runs[1]];
      assert multiset(runs) == multiset{runs[0], runs[1]};
      ExitSucceeds(pages.State(), runs[0], runs[1]);
    }

    /** Marks a task DEAD; it still owns its pages. */
    method MarkDead(slot: nat)
      requires Valid() && slot < MAX_TASKS && tasks[slot].state == Active
      modifies tasks
      ensures Valid() && tasks[..] == old(tasks[..])[slot := old(tasks[slot]).(state := Dead)]
    {
      hide Allocator.Valid, FileSystem.Valid, FromFlash, AllRuns, RunsOf;
      AllRunsUpdate(tasks[..], slot, tasks[slot].(state := Dead), pages.poolStart);
      SameRuns(tasks[slot], pages.poolStart);
      ghost var ts := tasks[..];
      Cancel(multiset(AllRuns(ts[slot := ts[slot].(state := Dead)], pages.poolStart)),
             multiset(AllRuns(ts, pages.poolStart)), multiset(RunsOf(ts[slot], pages.poolStart)));
      tasks[slot] := tasks[slot].(state := Dead);
      assert tasks[..] == ts[slot := ts[slot].(state := Dead)];
    }

    /** The scheduler took its exit step. */
    ghost predicate SwitchedFrom(s: Scheduler.Sched, r: ExitResult)
      reads `current
    {
      && Scheduler.Shape(s)
      && match Scheduler.Step(s, Scheduler.Exit)
         case None => r == NoTaskLeft
         case Some(s') => r == Switched && current == s'.cur
    }

    /** `sys_exit` of the current task. */
    method SysExit() returns (r: ExitResult)
      requires Valid() && 0 <= current < MAX_TASKS && tasks[current].state == Active
      modifies this`current, tasks, pages, pages.pool, pages.zones
      ensures r != PagePanic ==> Valid() && TornDown(old(tasks[..]), tasks[..], old(current))
      ensures Ended(r == PagePanic, ExitPages(old(pages.State()), old(tasks[current]), pages.poolStart))
      ensures r != PagePanic ==> SwitchedFrom(old(Schedule()), r)
    {
      hide Allocator.Valid, FileSystem.Valid, FromFlash, AllRuns, RunsOf, Owned, TaskOk, ExitStep, Scheduler.Next;
      ghost var s, ts := Schedule(), tasks[..];
      var slot := current;
      SameRuns(tasks[slot], pages.poolStart);
      MarkDead(slot);
      var ok := TaskExit(slot);
      if !ok {
        return PagePanic;
      }
      assert tasks[..] == ts[slot := ts[slot].(state := Invalid)];
      assert Schedule() == s.(active := s.active[slot := false]);
      ok := TaskNext();
      r := if ok then Switched else NoTaskLeft;
    }

    lemma SameRuns(t: Task, base: nat)
      requires t.state == Active
      ensures RunsOf(t.(state := Dead), base) == RunsOf(t, base)
    {
    }

    /** `n` pages for an owner outside the table; `None` is a panic of the page allocator. */
    method Grant(n: nat) returns (r: Option<nat>)
      requires Valid() && 0 < n < 0x8000_0000
      modifies this`others, pages, pages.pool, pages.zones
      ensures r.Some? ==> Valid() && pages.IsPage(r.value) && others == old(others) + [pages.RunOf(r.value, n)]
      ensures r.Some? ==> pages.live == old(pages.live) + [pages.RunOf(r.value, n)]
      ensures Ended(r == None, PageRuns.Step(old(pages.State()), PageRuns.Alloc(n)))
    {
      hide Allocator.Valid, FileSystem.Valid, FromFlash, AllRuns, RunsOf, Slots, PageRuns.AllocStep;
      var p := pages.PageAlloc(n);
      if !p.Allocated? {
        return None;
      }
      others := others + [pages.RunOf(p.paddr, n)];
      r := Some(p.paddr);
    }

    /** `sys_mmap` of a positive length. */
    method SysMmap(len: nat) returns (r: Option<nat>)
      requires Valid() && 0 < len <= 0xFFFF_F000
      modifies this`others, pages, pages.pool, pages.zones
      ensures r.Some? ==> Valid() && pages.IsPage(r.value) && others == old(others) + [pages.RunOf(r.value, PagesFor(len))]
      ensures r.Some? ==> pages.live == old(pages.live) + [pages.RunOf(r.value, PagesFor(len))]
      ensures Ended(r == None, PageRuns.Step(old(pages.State()), PageRuns.Alloc(PagesFor(len))))
    {
      hide Valid, Ended;
      assert 0 < PagesFor(len) < 0x8000_0000;
      r := Grant(PagesFor(len));
    }

    /** `add_idle`: one page, owned outside the table (its record claims two, which nobody ever frees). */
    method AddIdle() returns (r: Option<nat>)
      requires Valid()
      modifies this`others, pages, pages.pool, pages.zones
      ensures r.Some? ==> Valid() && pages.IsPage(r.value) && others == old(others) + [pages.RunOf(r.value, 1)]
      ensures r.Some? ==> pages.live == old(pages.live) + [pages.RunOf(r.value, 1)]
      ensures Ended(r == None, PageRuns.Step(old(pages.State()), PageRuns.Alloc(1)))
    {
      hide Valid, Ended;
      r := Grant(1);
    }

    // -------------------------------------------------------------- loading

    /** `m` maps segment `s` of `data`, in a run of pages that is all that was added to `before`. */
    ghost predicate GotImage(data: Bytes, s: Segment, m: Mapping, before: seq<PageRuns.Run>)
      reads pages
    {
      && m.Mapped? && m.size == PagesFor(s.memsz) * PAGE_SIZE && 0 < m.size < 0x8000_0000 && pages.IsPage(m.vma)
      && s.offset + s.filesz <= |data| && s.filesz <= s.memsz && m.image == Contents(data, s)
      && multiset(pages.live) == multiset(before) + multiset{pages.RunOf(m.vma, m.size / PAGE_SIZE)}
    }

    /** The data goes through a temporary blob, which is given back whether or not a segment was found. */
    method MapImage(ghost t: Table, ghost name: Bytes, fd: int, size: nat) returns (m: Mapping)
      requires pages.Valid() && vfs.Valid() && Inv(t) && FromFlash(t) && GoodFile(t, name)
      requires OpenStep(t, name).ret >= 0 && fd == OpenStep(t, name).ret && FdOk(fd) && vfs.View() == HeaderRead(t, name)
      requires Found(t, name) < |t.inodes| && size == DataSize(t.flash, t.inodes[Found(t, name)].image.start)
      modifies vfs.fds, pages, pages.pool, pages.zones
      ensures !m.LoadPanic? ==>
                pages.Valid() && vfs.Valid() && FromFlash(vfs.View()) && vfs.View() == ReadStep(HeaderRead(t, name), fd, size).table
      ensures match WantedOf(t, name)
              case None => m.LoadPanic?
              case Some(None) => m.LoadPanic? || (m.Nowhere? && multiset(pages.live) == multiset(old(pages.live)))
              case Some(Some(s)) => m.LoadPanic? || GotImage(DataOf(t, Found(t, name)), s, m, old(pages.live))
      ensures Ended(m.LoadPanic?, MapStep(old(pages.State()), DataOf(t, Found(t, name))))
      ensures m.Mapped? ==> [pages.RunOf(m.vma, m.size / PAGE_SIZE)] == MapRuns(old(pages.State()), DataOf(t, Found(t, name)))
    {
      hide Allocator.Valid, FileSystem.Valid, FromFlash, Trusted, Wanted, Contents, GotImage, HeaderRead;
      hide PageRuns.AllocStep, ReleaseStep;
      FileFacts(t, Found(t, name));
      var n := PagesFor(size);
      assert 0 < n < 0x8000_0000 && n == PagesFor(|DataOf(t, Found(t, name))|);
      hide PagesFor, DataOf;
      ghost var before := pages.live;
      var p := pages.PageAlloc(n);
      if !p.Allocated? {
        return LoadPanic;
      }
      var blob := ReadImage(vfs, t, name, fd, size);
      m := LoadAndRelease(blob[..], p.paddr, n, before);
    }

    /** The image's pages were allocated behind the run `held`; `now` is what stays live without it. */
    lemma ImageBesideHeld(before: seq<PageRuns.Run>, held: PageRuns.Run, data: Bytes, s: Segment, m: Mapping)
      requires Holds(pages, before + [held], data, s, m)
      ensures held in pages.live && pages.IsPage(m.vma) && m.size == PagesFor(s.memsz) * PAGE_SIZE && 0 < m.size < 0x8000_0000
      ensures s.offset + s.filesz <= |data| && s.filesz <= s.memsz && m.image == Contents(data, s)
      ensures multiset(pages.live) - multiset{held} == multiset(before) + multiset{pages.RunOf(m.vma, m.size / PAGE_SIZE)}
    {
      hide Contents;
      assert m.size / PAGE_SIZE == PagesFor(s.memsz);
      DropHeld(before, held, [pages.RunOf(m.vma, m.size / PAGE_SIZE)]);
    }

    /** The mapping is in the run its allocation handed out. */
    ghost predicate InImageRun(m: Mapping, st: PageRuns.Pages, data: Bytes)
      requires Trusted(data)
    {
      && m.Mapped? && pages.IsPage(m.vma) && Segmented(data) && ImageStep(st, data).Done?
      && pages.RunOf(m.vma, m.size / PAGE_SIZE) == ImageRun(st, data, Wanted(data).value.value)
    }

    /** `load_elf` on the blob in `n` pages at `paddr`, then `page_free` of those. */
    method LoadAndRelease(data: Bytes, paddr: nat, n: nat, ghost before: seq<PageRuns.Run>) returns (m: Mapping)
      requires pages.Valid() && Trusted(data) && pages.IsPage(paddr) && n < 0x8000_0000
      requires pages.live == before + [pages.RunOf(paddr, n)]
      modifies pages, pages.pool, pages.zones
      ensures !m.LoadPanic? ==> pages.Valid()
      ensures match Wanted(data)
              case None => m.LoadPanic?
              case Some(None) => m.LoadPanic? || (m.Nowhere? && multiset(pages.live) == multiset(before))
              case Some(Some(s)) => m.LoadPanic? || GotImage(data, s, m, before)
      ensures Ended(m.LoadPanic?, ReleaseStep(old(pages.State()), data, pages.RunOf(paddr, n)))
      ensures m.Mapped? ==> InImageRun(m, old(pages.State()), data)
    {
      hide Allocator.Valid, Trusted, Wanted, Contents, Holds, Loadable, ImageStep, PageRuns.Step;
      ghost var held := pages.RunOf(paddr, n);
      m := LoadElf(pages, data);
      if m.LoadPanic? {
        return;
      }
      if m.Mapped? {
        ImageBesideHeld(before, held, data, Wanted(data).value.value, m);
        MappedInRun(old(pages.State()), data, m);
      } else {
        DropHeld(before, held, []);
        assert before + [held] + [] == before + [held];
      }
      hide PagesFor;
      var ok := ReleaseBlob(paddr, n);
      if !ok {
        m := LoadPanic;
      }
    }

    /** Ownership with the stack added outside the table: what a load without a segment leaves behind. */
    lemma StackLeaks(ts: seq<Task>, slot: nat, t: Task, before: multiset<PageRuns.Run>, stack: PageRuns.Run)
      requires slot < |ts| && ts[slot].state == Invalid && t.state == Invalid
      requires before == multiset(others) + multiset(AllRuns(ts, pages.poolStart))
      ensures before + multiset{stack} == multiset(others + [stack]) + multiset(AllRuns(ts[slot := t], pages.poolStart))
    {
      hide AllRuns, RunsOf;
      var a, a' := multiset(AllRuns(ts, pages.poolStart)), multiset(AllRuns(ts[slot := t], pages.poolStart));
      AllRunsUpdate(ts, slot, t, pages.poolStart);
      RunsOfTask(ts[slot]);
      RunsOfTask(t);
      Cancel(a', a, multiset{});
      Reorder(multiset(others), a, multiset{stack});
    }

    lemma RunsOfTask(t: Task)
      ensures t.state == Invalid ==> RunsOf(t, pages.poolStart) == []
      ensures t.state == Active && pages.IsPage(t.stack) && pages.IsPage(t.vma) && t.stackSize == STACK_SIZE ==>
                RunsOf(t, pages.poolStart) == [pages.RunOf(t.stack, 2), pages.RunOf(t.vma, t.vmaSize / PAGE_SIZE)]
    {
    }

    /** Ownership once the task is ACTIVE: stack and image are its own. */
    lemma TaskOwns(ts: seq<Task>, slot: nat, t: Task, before: multiset<PageRuns.Run>, stack: PageRuns.Run, image: PageRuns.Run)
      requires slot < |ts| && ts[slot].state == Invalid && t.state == Active
      requires pages.IsPage(t.stack) && pages.IsPage(t.vma) && t.stackSize == STACK_SIZE
      requires stack == pages.RunOf(t.stack, 2) && image == pages.RunOf(t.vma, t.vmaSize / PAGE_SIZE)
      requires before == multiset(others) + multiset(AllRuns(ts, pages.poolStart))
      ensures RunsOf(t, pages.poolStart) == [stack, image]
      ensures before + multiset{stack} + multiset{image} == multiset(others) + multiset(AllRuns(ts[slot := t], pages.poolStart))
    {
      hide AllRuns, RunsOf;
      var a, a' := multiset(AllRuns(ts, pages.poolStart)), multiset(AllRuns(ts[slot := t], pages.poolStart));
      AllRunsUpdate(ts, slot, t, pages.poolStart);
      RunsOfTask(ts[slot]);
      RunsOfTask(t);
      JoinTwo(multiset(others), a, a', stack, image);
    }

    /** `slot` of the table `ts` has got a stack, its only change, next to the runs live `before`. */
    ghost predicate Building(slot: nat, ts: seq<Task>, before: seq<PageRuns.Run>)
      reads `current, `others, tasks
    {
      && Slots() && slot < MAX_TASKS && |ts| == MAX_TASKS && ts[slot].state == Invalid && tasks[slot].state == Invalid
      && tasks[..] == ts[slot := tasks[slot]] && pages.IsPage(tasks[slot].stack) && tasks[slot].stackSize == STACK_SIZE
      && multiset(before) == multiset(others) + multiset(AllRuns(ts, pages.poolStart))
    }

    /** The stack of the task being built in `slot`, which stays INVALID for now. */
    method AllocStack(slot: nat) returns (ok: bool)
      requires pages.Valid() && Slots() && Owned() && slot < MAX_TASKS && tasks[slot].state == Invalid
      modifies tasks, pages, pages.pool, pages.zones
      ensures ok ==> pages.Valid() && Building(slot, old(tasks[..]), old(pages.live)) && pages.IsPage(tasks[slot].stack)
      ensures ok ==> pages.live == old(pages.live) + [pages.RunOf(tasks[slot].stack, 2)]
      ensures Ended(!ok, PageRuns.Step(old(pages.State()), PageRuns.Alloc(2)))
      ensures ok ==> pages.RunOf(tasks[slot].stack, 2) == NewRun(old(pages.State()), 2)
    {
      hide Allocator.Valid, AllRuns, PageRuns.AllocStep;
      ghost var task, ts := tasks[slot], tasks[..];
      var p := pages.PageAlloc(2);
      if !p.Allocated? {
        return false;
      }
      assert TaskOk(task.(vma := 0, vmaSize := 0, stack := p.paddr, stackSize := STACK_SIZE));
      hide TaskOk;
      tasks[slot] := tasks[slot].(vma := 0, vmaSize := 0, stack := p.paddr, stackSize := STACK_SIZE);
      assert tasks[..] == ts[slot := tasks[slot]];
      ok := true;
    }

    /** The header of the named file has been read through `fd`; its data is `size` bytes long. */
    ghost predicate Reading(t: Table, name: Bytes, fd: int, size: nat)
      requires vfs.Laid()
      reads vfs, vfs.inodes, vfs.fds
    {
      && Inv(t) && FromFlash(t) && GoodFile(t, name) && OpenStep(t, name).ret >= 0 && fd == OpenStep(t, name).ret
      && FdOk(fd) && vfs.View() == HeaderRead(t, name) && Found(t, name) < |t.inodes|
      && size == DataSize(t.flash, t.inodes[Found(t, name)].image.start)
    }

    /** A load without a segment: the slot stays INVALID, and its stack has no owner in the table any more. */
    ghost predicate Leaked(slot: nat, othersBefore: seq<PageRuns.Run>, before: seq<PageRuns.Run>)
      requires tasks.Length == MAX_TASKS
      reads `others, tasks, pages
    {
      && slot < MAX_TASKS && tasks[slot].state == Invalid && pages.IsPage(tasks[slot].stack)
      && others == othersBefore + [pages.RunOf(tasks[slot].stack, 2)]
      && multiset(pages.live) == multiset(before) + multiset{pages.RunOf(tasks[slot].stack, 2)}
    }

    /** A load that succeeded: two stack pages and the pages of the segment are added, all owned by the task. */
    ghost predicate Started(slot: nat, s: Segment, before: seq<PageRuns.Run>)
      requires tasks.Length == MAX_TASKS
      reads tasks, pages
    {
      && slot < MAX_TASKS && tasks[slot].state == Active
      && pages.IsPage(tasks[slot].stack) && pages.IsPage(tasks[slot].vma) && tasks[slot].vmaSize == PagesFor(s.memsz) * PAGE_SIZE
      && RunsOf(tasks[slot], pages.poolStart)
         == [pages.RunOf(tasks[slot].stack, 2), pages.RunOf(tasks[slot].vma, tasks[slot].vmaSize / PAGE_SIZE)]
      && multiset(pages.live) == multiset(before) + multiset{pages.RunOf(tasks[slot].stack, 2)}
                                 + multiset{pages.RunOf(tasks[slot].vma, tasks[slot].vmaSize / PAGE_SIZE)}
    }

    /** The task gets its image and becomes ACTIVE. */
    method Activate(slot: nat, vma: nat, size: nat, ghost s: Segment, ghost ts: seq<Task>, ghost before: seq<PageRuns.Run>)
      requires Building(slot, ts, before) && pages.IsPage(vma) && size == PagesFor(s.memsz) * PAGE_SIZE && 0 < size < 0x8000_0000
      requires multiset(pages.live) == multiset(before) + multiset{pages.RunOf(tasks[slot].stack, 2)}
                                       + multiset{pages.RunOf(vma, size / PAGE_SIZE)}
      modifies tasks
      ensures Slots() && Owned() && tasks[..] == ts[slot := tasks[slot]] && Started(slot, s, before)
      ensures tasks[slot] == old(tasks[slot]).(vma := vma, vmaSize := size, state := Active)
    {
      hide AllRuns, RunsOf;
      ghost var task := tasks[slot].(vma := vma, vmaSize := size, state := Active);
      TaskOwns(ts, slot, task, multiset(before), pages.RunOf(task.stack, 2), pages.RunOf(vma, size / PAGE_SIZE));
      assert size % PAGE_SIZE == 0;
      hide PagesFor;
      tasks[slot] := tasks[slot].(vma := vma, vmaSize := size, state := Active);
      assert tasks[..] == ts[slot := task];
    }

    /** "Failed to parse elf": nothing is undone. */
    ghost method LeakStack(slot: nat, ts: seq<Task>, before: seq<PageRuns.Run>)
      requires Building(slot, ts, before)
      requires multiset(pages.live) == multiset(before) + multiset{pages.RunOf(tasks[slot].stack, 2)}
      modifies this`others
      ensures Slots() && Owned() && tasks[..] == ts[slot := tasks[slot]] && Leaked(slot, old(others), before)
    {
      hide AllRuns, RunsOf;
      var stack := pages.RunOf(tasks[slot].stack, 2);
      StackLeaks(ts, slot, tasks[slot], multiset(before), stack);
      others := others + [stack];
    }

    /** The end of `load_elf` for the task: with an image it becomes ACTIVE, without one its stack is lost. */
    method Settle(m: Mapping, slot: nat, ghost s: Option<Segment>, ghost ts: seq<Task>, ghost before: seq<PageRuns.Run>) returns (r: LoadResult)
      requires Building(slot, ts, before) && !m.LoadPanic?
      requires if m.Nowhere? then multiset(pages.live) == multiset(before) + multiset{pages.RunOf(tasks[slot].stack, 2)}
               else && s.Some? && m.size == PagesFor(s.value.memsz) * PAGE_SIZE && 0 < m.size < 0x8000_0000 && pages.IsPage(m.vma)
                    && multiset(pages.live) == multiset(before) + multiset{pages.RunOf(tasks[slot].stack, 2)}
                                               + multiset{pages.RunOf(m.vma, m.size / PAGE_SIZE)}
      modifies this`others, tasks
      ensures Slots() && Owned() && tasks[..] == ts[slot := tasks[slot]] && tasks[slot].stack == old(tasks[slot].stack)
      ensures if m.Nowhere? then r == LoadResult.NoSegment(slot) && Leaked(slot, old(others), before)
              else && r == LoadResult.Loaded(slot) && Started(slot, s.value, before) && others == old(others)
                   && tasks[slot].vma == m.vma && tasks[slot].vmaSize == m.size
    {
      hide Slots, Owned, Building, PagesFor, Started, Leaked;
      if m.Nowhere? {
        LeakStack(slot, ts, before);
        return NoSegment(slot);
      }
      Activate(slot, m.vma, m.size, s.value, ts, before);
      r := Loaded(slot);
    }

    /** The rest of `task_load` once the slot has a stack: map the image and activate the task. */
    method FinishLoad(ghost t: Table, ghost name: Bytes, fd: int, size: nat, slot: nat, ghost ts: seq<Task>, ghost before: seq<PageRuns.Run>)
      returns (r: LoadResult)
      requires pages.Valid() && vfs.Valid() && Building(slot, ts, before) && Reading(t, name, fd, size)
      requires pages.live == before + [pages.RunOf(tasks[slot].stack, 2)]
      modifies this`others, tasks, pages, pages.pool, pages.zones, vfs.fds
      ensures r != LoadPanicked ==>
                && pages.Valid() && vfs.Valid() && FromFlash(vfs.View()) && Slots() && Owned()
                && vfs.View() == ReadStep(HeaderRead(t, name), fd, size).table && tasks[..] == ts[slot := tasks[slot]]
                && tasks[slot].stack == old(tasks[slot].stack)
      ensures match WantedOf(t, name)
              case None => r == LoadPanicked
              case Some(None) => r == LoadPanicked || (r == LoadResult.NoSegment(slot) && Leaked(slot, old(others), before))
              case Some(Some(s)) => r == LoadPanicked || (r == LoadResult.Loaded(slot) && Started(slot, s, before) && others == old(others))
      ensures Ended(r == LoadPanicked, MapStep(old(pages.State()), DataOf(t, Found(t, name))))
      ensures r.Loaded? ==> [pages.RunOf(tasks[slot].vma, tasks[slot].vmaSize / PAGE_SIZE)]
                            == MapRuns(old(pages.State()), DataOf(t, Found(t, name)))
    {
      hide Allocator.Valid, FileSystem.Valid, FromFlash, Trusted, Wanted, HeaderRead, DataOf, GoodFile, Slots;
      hide Owned, Started, Leaked, RunsOf, AllRuns, MapStep, MapRuns, OpenStep, ReadStep, TaskOk, Contents;
      FileFacts(t, Found(t, name));
      ghost var stack, wanted := pages.RunOf(tasks[slot].stack, 2), WantedOf(t, name);
      hide WantedOf;
      var m := MapImage(t, name, fd, size);
      hide Building;
      if m.LoadPanic? {
        return LoadPanicked;
      }
      assert multiset(before + [stack]) == multiset(before) + multiset{stack};
      hide PagesFor;
      r := Settle(m, slot, wanted.value, ts, before);
    }

    /** Nothing owned or scheduled changed. */
    ghost predicate Unchanged(ts: seq<Task>, before: seq<PageRuns.Run>, oth: seq<PageRuns.Run>, cur: int)
      reads this, tasks, pages
    {
      pages.live == before && tasks[..] == ts && others == oth && current == cur
    }

    /** What `task_load` did to a table that was `ts`, with `before` live, `oth` outside it, and files `t`. */
    ghost predicate LoadDid(r: LoadResult, name: Bytes, t: Table, ts: seq<Task>, before: seq<PageRuns.Run>,
                            oth: seq<PageRuns.Run>, cur: int)
      requires tasks.Length == MAX_TASKS == |ts| && vfs.Laid() && Inv(t) && FromFlash(t) && GoodFile(t, name)
      reads this, tasks, pages, vfs, vfs.inodes, vfs.fds
    {
      match r
      case LoadPanicked => true
      case NotFound => OpenStep(t, name).ret < 0 && vfs.View() == t && Unchanged(ts, before, oth, cur)
      case NoSlot =>
        && t.next < FDS_MAX && vfs.View() == ClosedAgain(t) && Unchanged(ts, before, oth, cur)
        && (forall i | 0 <= i < MAX_TASKS :: ts[i].state != Invalid)
      case NoSegment(slot) => DidLeak(slot, name, t, ts, before, oth) && current == cur
      case Loaded(slot) => DidStart(slot, name, t, ts, before) && others == oth && current == (if cur == NO_TASK then slot else cur)
    }

    /** The image had no segment: the stack stays allocated and the descriptor open. */
    ghost predicate DidLeak(slot: nat, name: Bytes, t: Table, ts: seq<Task>, before: seq<PageRuns.Run>, oth: seq<PageRuns.Run>)
      requires tasks.Length == MAX_TASKS == |ts| && vfs.Laid() && Inv(t) && FromFlash(t) && GoodFile(t, name)
      reads `others, tasks, pages, vfs, vfs.inodes, vfs.fds
    {
      && Found(t, name) < |t.inodes| && WantedOf(t, name) == Some(None) && t.next < FDS_MAX
      && FirstFree(ts, slot) && tasks[..] == ts[slot := tasks[slot]] && Leaked(slot, oth, before)
      && OpenStep(t, name).ret >= 0 && vfs.View() == LoadFiles(t, name)
    }

    /** The first free slot holds the new task, and the file is closed again. */
    ghost predicate DidStart(slot: nat, name: Bytes, t: Table, ts: seq<Task>, before: seq<PageRuns.Run>)
      requires tasks.Length == MAX_TASKS == |ts| && vfs.Laid() && Inv(t) && FromFlash(t) && GoodFile(t, name)
      reads tasks, pages, vfs, vfs.inodes, vfs.fds
    {
      && Found(t, name) < |t.inodes| && WantedOf(t, name).Some? && WantedOf(t, name).value.Some?
      && t.next < FDS_MAX && OpenStep(t, name).ret >= 0 && vfs.View() == LoadFiles(t, name) == ClosedAgain(t)
      && FirstFree(ts, slot) && tasks[..] == ts[slot := tasks[slot]]
      && Started(slot, WantedOf(t, name).value.value, before)
    }

    ghost predicate FirstFree(ts: seq<Task>, slot: nat) {
      slot < |ts| && ts[slot].state == Invalid && forall i | 0 <= i < slot :: ts[i].state != Invalid
    }

    /** The end of a load that succeeded: the file is closed, and a first task becomes the current one. */
    method CloseAndSchedule(ghost t: Table, ghost name: Bytes, fd: int, slot: nat, ghost d: Desc)
      requires vfs.Valid() && FromFlash(vfs.View()) && Slots() && slot < MAX_TASKS
      requires Inv(t) && OpenedFor(t, name, vfs.View(), d) && fd == OpenStep(t, name).ret
      modifies this`current, vfs.fds, vfs.inodes
      ensures vfs.Valid() && FromFlash(vfs.View()) && Slots() && t.next < FDS_MAX && vfs.View() == ClosedAgain(t)
      ensures current == (if old(current) == NO_TASK then slot else old(current))
    {
      hide FileSystem.Valid, FromFlash, TaskOk, Inv, OpenedFor, OpenStep;
      CloseImage(vfs, t, name, fd, d);
      if current == NO_TASK {
        current := slot;
      }
    }

    /** The files after a load without a segment. */
    lemma LeakEnds(slot: nat, name: Bytes, t: Table, fd: int, size: nat, ts: seq<Task>, before: seq<PageRuns.Run>, oth: seq<PageRuns.Run>)
      requires tasks.Length == MAX_TASKS == |ts| && vfs.Laid() && GoodFile(t, name) && Requested(t, name, fd, size)
      requires vfs.View() == ReadStep(HeaderRead(t, name), fd, size).table && WantedOf(t, name) == Some(None)
      requires FirstFree(ts, slot) && tasks[..] == ts[slot := tasks[slot]] && Leaked(slot, oth, before)
      ensures DidLeak(slot, name, t, ts, before, oth)
    {
      hide GoodFile, WantedOf, Leaked, FirstFree, HeaderRead, ReadStep, FromFlash;
      DataReadIs(t, name, fd, size);
    }

    /** The files after a load that succeeded. */
    lemma StartEnds(slot: nat, name: Bytes, t: Table, fd: int, size: nat, ts: seq<Task>, before: seq<PageRuns.Run>, s: Segment)
      requires tasks.Length == MAX_TASKS == |ts| && vfs.Laid() && GoodFile(t, name) && Requested(t, name, fd, size)
      requires t.next < FDS_MAX && vfs.View() == ClosedAgain(t) && WantedOf(t, name) == Some(Some(s))
      requires FirstFree(ts, slot) && tasks[..] == ts[slot := tasks[slot]] && Started(slot, s, before)
      ensures DidStart(slot, name, t, ts, before)
    {
      hide GoodFile, WantedOf, Started, FirstFree, HeaderRead, ReadStep, FromFlash, ClosedAgain;
      ClosedAgainIs(t, name);
    }

    /** Header and data of the named file have been asked for through `fd`. */
    ghost predicate Requested(t: Table, name: Bytes, fd: int, size: nat) {
      && Inv(t) && FromFlash(t) && OpenStep(t, name).ret >= 0 && fd == OpenStep(t, name).ret && FdOk(fd)
      && Found(t, name) < |t.inodes| && size == DataSize(t.flash, t.inodes[Found(t, name)].image.start)
    }

    lemma DataReadIs(t: Table, name: Bytes, fd: int, size: nat)
      requires Requested(t, name, fd, size)
      ensures ReadStep(HeaderRead(t, name), fd, size).table == DataRead(t, name)
    {
      hide HeaderRead, ReadStep, FromFlash;
      FileFacts(t, Found(t, name));
    }

    /** The runs a load that went through left behind: with the task that was loaded, or without an owner in the table. */
    ghost predicate RunsLeft(r: LoadResult, st: PageRuns.Pages, data: Bytes, oth: seq<PageRuns.Run>)
      requires tasks.Length == MAX_TASKS && Trusted(data)
      reads `others, tasks
    {
      match r
      case Loaded(slot) => slot < MAX_TASKS && LoadStep(st, data).Done? && RunsOf(tasks[slot], pages.poolStart) == LoadRuns(st, data)
      case NoSegment(slot) => LoadStep(st, data).Done? && others == oth + LoadRuns(st, data)
      case _ => true
    }

    lemma StackAndImage(r: LoadResult, slot: nat, st: PageRuns.Pages, data: Bytes, before: seq<PageRuns.Run>, oth: seq<PageRuns.Run>)
      requires tasks.Length == MAX_TASKS && slot < MAX_TASKS && Trusted(data)
      requires PageRuns.Step(st, PageRuns.Alloc(2)).Done? && MapStep(PageRuns.Step(st, PageRuns.Alloc(2)).st, data).Done?
      requires pages.IsPage(tasks[slot].stack) && pages.RunOf(tasks[slot].stack, 2) == NewRun(st, 2)
      requires (r == LoadResult.NoSegment(slot) && Wanted(data) == Some(None) && Leaked(slot, oth, before))
            || (r == LoadResult.Loaded(slot) && Segmented(data) && Started(slot, Wanted(data).value.value, before)
                && [pages.RunOf(tasks[slot].vma, tasks[slot].vmaSize / PAGE_SIZE)]
                   == MapRuns(PageRuns.Step(st, PageRuns.Alloc(2)).st, data))
      ensures RunsLeft(r, st, data, oth)
    {
      hide Trusted, Wanted, PageRuns.Step, MapStep, NewRun, RunsOf;
    }

    /** `task_load` once a free slot has been found. */
    method LoadInto(ghost t: Table, ghost name: Bytes, fd: int, size: nat, slot: nat) returns (r: LoadResult)
      requires pages.Valid() && vfs.Valid() && Slots() && Owned() && Reading(t, name, fd, size) && FirstFree(tasks[..], slot)
      modifies this`current, this`others, tasks, pages, pages.pool, pages.zones, vfs.fds, vfs.inodes
      ensures r != LoadPanicked ==> pages.Valid() && vfs.Valid() && FromFlash(vfs.View()) && Slots() && Owned()
      ensures r == LoadPanicked || (r == LoadResult.Loaded(slot) && others == old(others)
                                    && DidStart(slot, name, t, old(tasks[..]), old(pages.live))
                                    && current == (if old(current) == NO_TASK then slot else old(current)))
           || (r == LoadResult.NoSegment(slot) && current == old(current)
               && DidLeak(slot, name, t, old(tasks[..]), old(pages.live), old(others)))
      ensures Ended(r == LoadPanicked, LoadOf(old(pages.State()), t, name))
      ensures RunsLeft(r, old(pages.State()), DataNamed(t, name), old(others))
    {
      hide MapStep, PageRuns.Step, Allocator.Valid, FileSystem.Valid, FromFlash, Wanted, DataOf, GoodFile, Owned;
      hide Started, Leaked, HeaderRead, MapRuns, NewRun, LoadRuns, Trusted, LoadFiles;
      ghost var ts, before := tasks[..], pages.live;
      hide Building, TaskOk;
      var ok := AllocStack(slot);
      if !ok {
        return LoadPanicked;
      }
      ghost var d := DataReadShape(t, name, size);
      hide FirstFree, ReadStep, Inv, OpenStep, OpenedFor, DidLeak, DidStart, ClosedAgain, RunsOf, AllRuns;
      r := FinishLoad(t, name, fd, size, slot, ts, before);
      if r.Loaded? {
        CloseAndSchedule(t, name, fd, slot, d);
        FilesValid();
        StartEnds(slot, name, t, fd, size, ts, before, WantedOf(t, name).value.value);
        StackAndImage(r, slot, old(pages.State()), DataNamed(t, name), before, old(others));
      } else if r.NoSegment? {
        FilesValid();
        LeakEnds(slot, name, t, fd, size, ts, before, old(others));
        StackAndImage(r, slot, old(pages.State()), DataNamed(t, name), before, old(others));
      }
    }

    /** `task_load` once the header has been read. */
    method LoadOpened(ghost t: Table, ghost name: Bytes, fd: int, size: nat) returns (r: LoadResult)
      requires pages.Valid() && vfs.Valid() && FromFlash(vfs.View()) && Slots() && Owned() && Reading(t, name, fd, size)
      modifies this`current, this`others, tasks, pages, pages.pool, pages.zones, vfs.fds, vfs.inodes
      ensures r != LoadPanicked ==> pages.Valid() && vfs.Valid() && FromFlash(vfs.View()) && Slots() && Owned()
      ensures r != NotFound
      ensures r != LoadPanicked ==>
                LoadDid(r, name, t, old(tasks[..]), old(pages.live), old(others), old(current))
      ensures r != NoSlot ==> Ended(r == LoadPanicked, LoadOf(old(pages.State()), t, name))
      ensures RunsLeft(r, old(pages.State()), DataNamed(t, name), old(others))
      ensures r == NoSlot <==> forall i | 0 <= i < MAX_TASKS :: old(tasks[..])[i].state != Invalid
      ensures r == NoSlot ==> pages.State() == old(pages.State())
    {
      hide LoadOf, LoadStep, LoadRuns, LoadFiles, Ended, Allocator.Valid, FileSystem.Valid, FromFlash, Wanted;
      hide DataOf, GoodFile, Owned, TaskOk;
      ghost var ts, before := tasks[..], pages.live;
      ghost var d := HeaderReadShape(t, name);
      var slot := FindFreeTask();
      if slot == NO_TASK {
        CloseImage(vfs, t, name, fd, d);
        return NoSlot;
      }
      hide DidStart, DidLeak;
      r := LoadInto(t, name, fd, size, slot);
    }

    lemma FilesValid()
      requires vfs.Valid()
      ensures vfs.Laid() && Inv(vfs.View())
    {
    }

    /** A load that went through, in terms of the table before: the first INVALID slot, and a current task if there was none. */
    lemma LoadedInto(r: LoadResult, name: Bytes, t: Table, ts: seq<Task>, before: seq<PageRuns.Run>, oth: seq<PageRuns.Run>, cur: int)
      requires tasks.Length == MAX_TASKS == |ts| && vfs.Laid() && Inv(t) && FromFlash(t) && GoodFile(t, name)
      requires Slots() && LoadDid(r, name, t, ts, before, oth, cur)
      ensures r.Loaded? ==>
                && r.slot < 50 && ts[r.slot].state == Invalid && (forall i | 0 <= i < r.slot :: ts[i].state != Invalid)
                && tasks[..] == ts[r.slot := tasks[r.slot]] && tasks[r.slot].state == Active && tasks[r.slot].stackSize == 8192
                && WantedOf(t, name).Some? && WantedOf(t, name).value.Some?
                && tasks[r.slot].vmaSize % 4096 == 0
                && 0 <= tasks[r.slot].vmaSize - WantedOf(t, name).value.value.memsz < 4096
      ensures current == if r.Loaded? && cur == -1 then r.slot else if r == LoadPanicked then current else cur
      ensures !r.Loaded? && !r.NoSegment? && r != LoadPanicked ==> tasks[..] == ts
    {
      hide WantedOf, GoodFile, FromFlash, RunsOf, OpenStep, LoadFiles, ClosedAgain;
    }

    /** `task_load` */
    method TaskLoad(name: Bytes) returns (r: LoadResult)
      requires Valid() && GoodFile(vfs.View(), name)
      modifies this`current, this`others, tasks, pages, pages.pool, pages.zones, vfs`fdsNext, vfs.fds, vfs.inodes
      ensures r != LoadPanicked ==> Valid()
      ensures r != LoadPanicked ==>
                LoadDid(r, name, old(vfs.View()), old(tasks[..]), old(pages.live), old(others), old(current))
      ensures r == NotFound <==> OpenStep(old(vfs.View()), name).ret < 0
      ensures r == NoSlot <==> OpenStep(old(vfs.View()), name).ret >= 0 && forall i | 0 <= i < MAX_TASKS :: old(tasks[..])[i].state != Invalid
      ensures r == NotFound || r == NoSlot ==> pages.State() == old(pages.State())
      ensures r != NotFound && r != NoSlot ==>
                && Ended(r == LoadPanicked, LoadOf(old(pages.State()), old(vfs.View()), name))
                && RunsLeft(r, old(pages.State()), DataNamed(old(vfs.View()), name), old(others))
    {
      hide LoadOf, LoadStep, LoadRuns, LoadFiles, RunsLeft, Ended, Allocator.Valid, FileSystem.Valid, FromFlash;
      hide GoodFile, Owned, Slots, HeaderRead;
      FilesValid();
      ghost var t := vfs.View();
      var fd, size := OpenImage(vfs, name);
      if fd < 0 {
        return NotFound;
      }
      r := LoadOpened(t, name, fd, size);
    }

    /** Two different owners never share a page, whether tasks or not. */
    lemma OwnersDisjoint(i: nat, j: nat)
      requires Valid() && i < j < |others + AllRuns(tasks[..], pages.poolStart)|
      ensures var owned := others + AllRuns(tasks[..], pages.poolStart);
              owned[i].start + owned[i].count <= owned[j].start || owned[j].start + owned[j].count <= owned[i].start
    {
      var owned := others + AllRuns(tasks[..], pages.poolStart);
      assert multiset(owned) == multiset(others) + multiset(AllRuns(tasks[..], pages.poolStart));
      PageRuns.InvPermuted(pages.State(), owned);
      PageTheorems.LiveDisjoint(pages.State().(live := owned), i, j);
    }
  }
}
