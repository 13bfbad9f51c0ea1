/** What loading and exiting a task do to the page allocator and to the files, as steps of their transition systems. */
module Loads {
  import opened Machine
  import opened Flash
  import opened Files
  import opened ImageReads
  import opened Loader
  import opened Elf
  import PageRuns
  import PageTheorems

  type Pages = PageRuns.Pages
  type Run = PageRuns.Run

  // ---------------------------------------------------------------- pages

  /** The run an allocation that can be done hands out. */
  ghost function NewRun(st: Pages, n: nat): Run
    requires PageRuns.Step(st, PageRuns.Alloc(n)).Done?
  {
    PageRuns.AllocLive(st, n);
    var live := PageRuns.Step(st, PageRuns.Alloc(n)).st.live;
    live[|live| - 1]
  }

  /** `load_elf`, then `page_free` of the blob it read from. */
  ghost function ReleaseStep(st: Pages, data: Bytes, blob: Run): PageRuns.Outcome
    requires Trusted(data)
  {
    match ImageStep(st, data)
    case Done(st') => PageRuns.Step(st', PageRuns.Free(blob))
    case stop => stop
  }

  /** Pages for the blob, the segment, and the blob back. */
  ghost function MapStep(st: Pages, data: Bytes): PageRuns.Outcome
    requires Trusted(data)
  {
    var n := PagesFor(|data|);
    match PageRuns.Step(st, PageRuns.Alloc(n))
    case Done(st') => ReleaseStep(st', data, NewRun(st, n))
    case stop => stop
  }

  /** All of `task_load`: two pages of stack first. */
  ghost function LoadStep(st: Pages, data: Bytes): PageRuns.Outcome
    requires Trusted(data)
  {
    match PageRuns.Step(st, PageRuns.Alloc(2))
    case Done(st') => MapStep(st', data)
    case stop => stop
  }

  /** The pages of the segment. */
  ghost function ImageRun(st: Pages, data: Bytes, s: Segment): Run
    requires Trusted(data) && Wanted(data) == Some(Some(s)) && ImageStep(st, data).Done?
  {
    NewRun(st, PagesFor(s.memsz))
  }

  /** Those of them a mapping that goes through keeps: none without a segment. */
  ghost function MapRuns(st: Pages, data: Bytes): seq<Run>
    requires Trusted(data) && MapStep(st, data).Done?
  {
    var st' := PageRuns.Step(st, PageRuns.Alloc(PagesFor(|data|))).st;
    match Wanted(data)
    case Some(Some(s)) => [ImageRun(st', data, s)]
    case _ => []
  }

  /** The runs a load that goes through leaves behind: the stack, and the image if there is one. */
  ghost function LoadRuns(st: Pages, data: Bytes): seq<Run>
    requires Trusted(data) && LoadStep(st, data).Done?
  {
    [NewRun(st, 2)] + MapRuns(PageRuns.Step(st, PageRuns.Alloc(2)).st, data)
  }

  /** `task_exit` */
  ghost function ExitStep(st: Pages, stack: Run, image: Run): PageRuns.Outcome {
    match PageRuns.Step(st, PageRuns.Free(stack))
    case Done(st') => PageRuns.Step(st', PageRuns.Free(image))
    case stop => stop
  }

  // ---------------------------------------------------------------- what they leave behind

  ghost predicate Same(st: Pages, st': Pages) {
    PageRuns.Inv(st') && st'.managed == st.managed && st'.descriptors == st.descriptors
  }

  lemma AllocKeeps(st: Pages, n: nat)
    requires PageRuns.Inv(st) && PageRuns.Step(st, PageRuns.Alloc(n)).Done?
    ensures var st' := PageRuns.Step(st, PageRuns.Alloc(n)).st;
            Same(st, st') && st'.live == st.live + [NewRun(st, n)] && NewRun(st, n).count == n
  {
    PageRuns.StepInv(st, PageRuns.Alloc(n));
    PageRuns.AllocLive(st, n);
  }

  lemma FreeKeeps(st: Pages, r: Run)
    requires PageRuns.Inv(st) && PageRuns.Step(st, PageRuns.Free(r)).Done?
    ensures var st' := PageRuns.Step(st, PageRuns.Free(r)).st;
            Same(st, st') && multiset(st'.live) == multiset(st.live) - multiset{r}
  {
    PageRuns.StepInv(st, PageRuns.Free(r));
    PageRuns.FreeLive(st, r);
  }

  lemma DropBlob(before: seq<Run>, stack: Run, blob: Run, kept: seq<Run>)
    ensures multiset(before + [stack] + [blob] + kept) - multiset{blob} == multiset(before) + multiset([stack] + kept)
  {
    assert multiset(before + [stack] + [blob] + kept) == multiset(before) + multiset{stack} + multiset{blob} + multiset(kept);
    assert multiset([stack] + kept) == multiset{stack} + multiset(kept);
  }

  ghost predicate Segmented(data: Bytes)
    requires Trusted(data)
  {
    Wanted(data).Some? && Wanted(data).value.Some?
  }

  /** A load that goes through keeps every invariant of the pages and adds exactly its runs, not the blob. */
  lemma LoadGains(st: Pages, data: Bytes)
    requires PageRuns.Inv(st) && Trusted(data) && LoadStep(st, data).Done?
    ensures var (st', runs) := (LoadStep(st, data).st, LoadRuns(st, data));
            && Wanted(data).Some? && Same(st, st') && multiset(st'.live) == multiset(st.live) + multiset(runs)
            && |runs| == (if Segmented(data) then 2 else 1) && runs[0].count == 2
            && (Segmented(data) ==> 0 < runs[1].count < 0x8000_0000)
  {
    hide PageRuns.Inv, PageRuns.Step, Wanted, NewRun;
    AllocKeeps(st, 2);
    var st1 := PageRuns.Step(st, PageRuns.Alloc(2)).st;
    var n := PagesFor(|data|);
    AllocKeeps(st1, n);
    var st2 := PageRuns.Step(st1, PageRuns.Alloc(n)).st;
    var st3 := ImageStep(st2, data).st;
    ImageKeeps(st2, data);
    hide Trusted, PagesFor, ImageRun;
    DropBlob(st.live, NewRun(st, 2), NewRun(st1, n), MapRuns(st1, data));
    FreeKeeps(st3, NewRun(st1, n));
  }

  /**
   The page steps of a load, in order: two pages of stack, then just as many as the blob fills, then just as many as the
   segment fills if there is one, then the blob back.
   */
  lemma LoadSteps(st: Pages, data: Bytes, n: nat, m: nat)
    requires Trusted(data) && Wanted(data).Some? && (n - 1) * 4096 < |data| <= n * 4096
    requires Segmented(data) ==> (m - 1) * 4096 < Wanted(data).value.value.memsz <= m * 4096
    ensures match PageRuns.Step(st, PageRuns.Alloc(2))
            case Done(s1) => (
              match PageRuns.Step(s1, PageRuns.Alloc(n))
              case Done(s2) => (
                match if Segmented(data) then PageRuns.Step(s2, PageRuns.Alloc(m)) else PageRuns.Done(s2)
                case Done(s3) => s2.live != [] && LoadStep(st, data) == PageRuns.Step(s3, PageRuns.Free(s2.live[|s2.live| - 1]))
                case stop => LoadStep(st, data) == stop)
              case stop => LoadStep(st, data) == stop)
            case stop => LoadStep(st, data) == stop
  {
    assert n == PagesFor(|data|);
    assert Segmented(data) ==> m == PagesFor(Wanted(data).value.value.memsz);
    hide PagesFor, Trusted, Wanted;
    match PageRuns.Step(st, PageRuns.Alloc(2))
    case Done(s1) =>
      if PageRuns.Step(s1, PageRuns.Alloc(n)).Done? {
        PageRuns.AllocLive(s1, n);
        hide PageRuns.Step;
      }
    case _ =>
  }

  lemma ImageKeeps(st: Pages, data: Bytes)
    requires PageRuns.Inv(st) && Trusted(data) && ImageStep(st, data).Done?
    ensures var st' := ImageStep(st, data).st;
            && Same(st, st') && Wanted(data).Some?
            && (match Wanted(data).value
                case Some(s) => st'.live == st.live + [ImageRun(st, data, s)] && 0 < ImageRun(st, data, s).count < 0x8000_0000
                case None => st'.live == st.live + [])
  {
    hide PageRuns.Inv, PageRuns.Step, NewRun;
    match Wanted(data).value
    case Some(s) => AllocKeeps(st, PagesFor(s.memsz));
    case None => assert st.live + [] == st.live;
  }

  /** A load that goes through leaves one run without a task to own it if and only if the image has no segment. */
  lemma StackLeaksExactly(st: Pages, data: Bytes)
    requires PageRuns.Inv(st) && Trusted(data) && LoadStep(st, data).Done?
    ensures Wanted(data) == Some(None) <==> |LoadStep(st, data).st.live| == |st.live| + 1
    ensures Wanted(data) != Some(None) <==> |LoadStep(st, data).st.live| == |st.live| + 2
  {
    LoadGains(st, data);
    var st' := LoadStep(st, data).st;
    assert |multiset(st'.live)| == |multiset(st.live)| + |LoadRuns(st, data)|;
  }

  /** With a descriptor for every page only a lack of pages or a bad image can end a load. */
  lemma LoadNeverExhausts(st: Pages, data: Bytes)
    requires PageRuns.Inv(st) && Trusted(data) && PageTheorems.Ample(st.managed, st.descriptors)
    ensures LoadStep(st, data) != PageRuns.PoolExhausted
  {
    hide PageRuns.Inv, PageRuns.Step, Wanted, Trusted, PagesFor, PageTheorems.Ample, NewRun;
    PageTheorems.StepNeverExhausts(st, PageRuns.Alloc(2));
    if PageRuns.Step(st, PageRuns.Alloc(2)).Done? {
      AllocKeeps(st, 2);
      var st1 := PageRuns.Step(st, PageRuns.Alloc(2)).st;
      var blob := PageRuns.Alloc(PagesFor(|data|));
      PageTheorems.StepNeverExhausts(st1, blob);
      if PageRuns.Step(st1, blob).Done? {
        AllocKeeps(st1, PagesFor(|data|));
        var st2 := PageRuns.Step(st1, blob).st;
        ImageNeverExhausts(st2, data);
        if ImageStep(st2, data).Done? {
          PageTheorems.StepNeverExhausts(ImageStep(st2, data).st, PageRuns.Free(NewRun(st1, PagesFor(|data|))));
        }
      }
    }
  }

  lemma ImageNeverExhausts(st: Pages, data: Bytes)
    requires PageRuns.Inv(st) && Trusted(data) && PageTheorems.Ample(st.managed, st.descriptors)
    ensures ImageStep(st, data) != PageRuns.PoolExhausted
    ensures ImageStep(st, data).Done? ==> Same(st, ImageStep(st, data).st)
  {
    hide PageRuns.Inv, PageRuns.Step, Wanted, Trusted, PagesFor, PageTheorems.Ample;
    match Wanted(data)
    case Some(Some(s)) =>
      var op := PageRuns.Alloc(PagesFor(s.memsz));
      PageTheorems.StepNeverExhausts(st, op);
      if PageRuns.Step(st, op).Done? {
        AllocKeeps(st, PagesFor(s.memsz));
      }
    case _ =>
  }

  /** With a descriptor for every page a task can always be torn down. */
  lemma ExitSucceeds(st: Pages, stack: Run, image: Run)
    requires PageRuns.Inv(st) && PageTheorems.Ample(st.managed, st.descriptors)
    requires multiset{stack, image} <= multiset(st.live) && stack.count < 0x8000_0000 && image.count < 0x8000_0000
    ensures ExitStep(st, stack, image).Done? && Same(st, ExitStep(st, stack, image).st)
    ensures multiset(ExitStep(st, stack, image).st.live) == multiset(st.live) - multiset{stack, image}
  {
    hide PageRuns.Inv, PageTheorems.Ample;
    FreeSucceeds(st, stack);
    var st1 := PageRuns.Step(st, PageRuns.Free(stack)).st;
    assert image in multiset(st1.live);
    FreeSucceeds(st1, image);
  }

  lemma FreeSucceeds(st: Pages, r: Run)
    requires PageRuns.Inv(st) && PageTheorems.Ample(st.managed, st.descriptors) && r in multiset(st.live) && r.count < 0x8000_0000
    ensures var out := PageRuns.Step(st, PageRuns.Free(r));
            out.Done? && Same(st, out.st) && multiset(out.st.live) == multiset(st.live) - multiset{r}
  {
    hide PageRuns.Inv, PageTheorems.Ample;
    PageTheorems.StepNeverExhausts(st, PageRuns.Free(r));
    FreeKeeps(st, r);
  }

  /** An exit that goes through returns exactly the two runs. */
  lemma ExitReturns(st: Pages, stack: Run, image: Run)
    requires PageRuns.Inv(st) && ExitStep(st, stack, image).Done?
    ensures var st' := ExitStep(st, stack, image).st;
            Same(st, st') && multiset(st'.live) == multiset(st.live) - multiset{stack} - multiset{image}
    ensures stack in multiset(st.live) && image in multiset(st.live) - multiset{stack}
  {
    hide PageRuns.Inv;
    FreeKeeps(st, stack);
    var st1 := PageRuns.Step(st, PageRuns.Free(stack)).st;
    assert image in multiset(st1.live);
    FreeKeeps(st1, image);
  }

  /** Loading a task and exiting it again leaves live what was live before, and cannot fail on the way out. */
  lemma LoadThenExit(st: Pages, data: Bytes)
    requires PageRuns.Inv(st) && PageTheorems.Ample(st.managed, st.descriptors)
    requires Trusted(data) && LoadStep(st, data).Done? && Segmented(data)
    ensures |LoadRuns(st, data)| == 2
    ensures var out := ExitStep(LoadStep(st, data).st, LoadRuns(st, data)[0], LoadRuns(st, data)[1]);
            out.Done? && Same(st, out.st) && multiset(out.st.live) == multiset(st.live)
  {
    hide PageRuns.Inv, PageRuns.Step, Trusted, Wanted, Segmented, PageTheorems.Ample, LoadStep, LoadRuns, ExitStep;
    LoadGains(st, data);
    var runs := LoadRuns(st, data);
    assert runs == [runs[0], runs[1]];
    assert multiset(runs) == multiset{runs[0], runs[1]};
    ExitSucceeds(LoadStep(st, data).st, runs[0], runs[1]);
  }

  // ---------------------------------------------------------------- files

  /** The file the loader is pointed at, if there is one: some data, with offsets that can be trusted. */
  ghost predicate GoodFile(t: Table, name: Bytes) {
    var k := Found(t, name);
    k < |t.inodes| ==>
      && t.inodes[k].image.size > HEADER_SIZE && t.inodes[k].image.start + t.inodes[k].image.size <= |t.flash|
      && Trusted(DataOf(t, k))
  }

  /** The data of the named file. */
  ghost function DataNamed(t: Table, name: Bytes): (d: Bytes)
    requires Found(t, name) < |t.inodes| && GoodFile(t, name)
    ensures Trusted(d)
  {
    DataOf(t, Found(t, name))
  }

  /** The segment the named file asks for. */
  ghost function WantedOf(t: Table, name: Bytes): Option<Option<Segment>>
    requires Found(t, name) < |t.inodes| && GoodFile(t, name)
  {
    Wanted(DataNamed(t, name))
  }

  /** The steps of the page allocator in a load of the named file. */
  ghost function LoadOf(st: Pages, t: Table, name: Bytes): PageRuns.Outcome
    requires Found(t, name) < |t.inodes| && GoodFile(t, name)
  {
    LoadStep(st, DataNamed(t, name))
  }

  /** The table behind both reads of a load. */
  ghost function DataRead(t: Table, name: Bytes): (r: Table)
    requires Inv(t) && FromFlash(t) && OpenStep(t, name).ret >= 0
    ensures Inv(r) && FromFlash(r)
  {
    OpenedFacts(t, name);
    FileFacts(t, Found(t, name));
    HeaderReadFromFlash(t, name);
    var (t1, op) := (HeaderRead(t, name), Read(OpenStep(t, name).ret, |DataOf(t, Found(t, name))|));
    StepInv(t1, op);
    StepFromFlash(t1, op);
    Step(t1, op).table
  }

  /** The table a load leaves: the file is closed again, unless there was no segment in it. */
  ghost function LoadFiles(t: Table, name: Bytes): (r: Table)
    requires Inv(t) && FromFlash(t) && OpenStep(t, name).ret >= 0 && GoodFile(t, name)
    ensures Inv(r) && FromFlash(r)
  {
    OpenedFacts(t, name);
    if WantedOf(t, name) == Some(None) then DataRead(t, name)
    else
      ClosedAgainIs(t, name);
      ClosedAgain(t)
  }

  /** The descriptor of a load stays open if and only if the image has no segment; all others are as before. */
  lemma DescriptorLeaksExactly(t: Table, name: Bytes)
    requires Inv(t) && FromFlash(t) && OpenStep(t, name).ret >= 0 && GoodFile(t, name)
    ensures var (fd, t') := (OpenStep(t, name).ret, LoadFiles(t, name));
            && 0 <= fd == t.next < FDS_MAX && |t'.fds| == |t.fds| == FDS_MAX && !IsOpen(t, fd) && t'.next == t.next + 1
            && (IsOpen(t', fd) <==> WantedOf(t, name) == Some(None))
            && t'.fds == t.fds[fd := t'.fds[fd]]
            && t'.flash == t.flash && |t'.inodes| == |t.inodes|
            && (forall k | 0 <= k < |t.inodes| :: t'.inodes[k].image == t.inodes[k].image)
  {
    hide Trusted, Wanted, DataOf;
    OpenedFacts(t, name);
    ReadOnlyMoves(t, name);
    CountPositive(DataRead(t, name).fds, t.next, Found(t, name));
  }

  /** Both reads together change nothing of the freshly opened table but the offset of its descriptor. */
  lemma ReadOnlyMoves(t: Table, name: Bytes)
    requires Inv(t) && FromFlash(t) && OpenStep(t, name).ret >= 0
    ensures var (t1, r) := (OpenStep(t, name).table, DataRead(t, name));
            && t.next < FDS_MAX == |t1.fds| && |r.fds| == FDS_MAX
            && r == t1.(fds := t1.fds[t.next := r.fds[t.next]]) && r.fds[t.next].file == Found(t, name)
  {
    OpenedFacts(t, name);
    FileFacts(t, Found(t, name));
    var d := DataReadShape(t, name, |DataOf(t, Found(t, name))|);
  }

  /** Closing behind the reads gives the table before the load back, less one descriptor number. */
  lemma ClosedAgainIs(t: Table, name: Bytes)
    requires Inv(t) && FromFlash(t) && OpenStep(t, name).ret >= 0
    ensures t.next < FDS_MAX && FdOk(OpenStep(t, name).ret)
    ensures CloseStep(DataRead(t, name), OpenStep(t, name).ret).table == ClosedAgain(t)
    ensures Inv(ClosedAgain(t)) && FromFlash(ClosedAgain(t))
  {
    OpenedFacts(t, name);
    ReadOnlyMoves(t, name);
    CloseRestores(t, name, DataRead(t, name).fds[t.next]);
    CloseInv(DataRead(t, name), OpenStep(t, name).ret);
    StepFromFlash(DataRead(t, name), Close(OpenStep(t, name).ret));
  }

  // ---------------------------------------------------------------- an image that leaks

  /** An ELF header for this machine without any program header. */
  function BareHeader(): (b: Bytes)
    ensures |b| == EHDR_SIZE
  {
    [0x7f, 69, 76, 70, 2, 1] + seq(12, _ => 0) + [183, 0] + seq(34, _ => 0) + [56, 0] + seq(8, _ => 0)
  }

  lemma BareHeaderWantsNothing()
    ensures Trusted(BareHeader()) && Wanted(BareHeader()) == Some(None)
  {
    var b := BareHeader();
    assert b[18] == 183 && b[19] == 0 && b[54] == 56 && b[55] == 0 && b[56] == 0 && b[57] == 0;
    assert forall i | 20 <= i < 54 :: b[i] == 0;
    assert Le(b, 19, 1) == 0 && Le(b, 18, 2) == 183;
    assert Le(b, 55, 1) == 0 && Le(b, 54, 2) == 56;
    assert Le(b, 57, 1) == 0 && Le(b, 56, 2) == 0;
    LeZero(b, 32, 8);
  }

  lemma {:induction false} LeZero(b: Bytes, at: nat, n: nat)
    requires at + n <= |b| && (forall i | at <= i < at + n :: b[i] == 0)
    ensures Le(b, at, n) == 0
    decreases n
  {
    if n > 0 {
      LeZero(b, at + 1, n - 1);
    }
  }

  /** A device holding just this image under any name: its load is one that leaks. */
  lemma LeakingDevice(f: File)
    requires FileOk(f) && f.data == BareHeader()
    ensures var t := Boot(Serialize([f]));
            FromFlash(t) && OpenStep(t, f.name).ret == 0 && Found(t, f.name) == 0 < |t.inodes| && GoodFile(t, f.name)
            && WantedOf(t, f.name) == Some(None)
  {
    var flash := Serialize([f]);
    var t := Boot(flash);
    assert flash + [] == flash;
    ParseRoundTrip([f], []);
    InitialFromFlash(flash);
    assert Recorded([f], 0) == [Image(f.name, 0, HEADER_SIZE + |f.data|)];
    assert flash == Header(f) + f.data;
    assert DataOf(t, 0) == f.data;
    BareHeaderWantsNothing();
  }
}
