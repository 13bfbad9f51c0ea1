/** Loading the first PT_LOAD segment of an ELF image into freshly allocated pages. */
module Elf {
  import opened Machine
  import opened Flash
  import opened PageRuns
  import opened PageAllocator

  const EHDR_SIZE: nat := 64
  const PHDR_SIZE: nat := 56
  const PT_LOAD: nat := 1
  const EM_AARCH64: nat := 183

  datatype Segment = Segment(kind: nat, offset: nat, filesz: nat, memsz: nat)

  /** Little-endian field of `n` bytes. */
  function Le(b: Bytes, at: nat, n: nat): (v: nat)
    requires at + n <= |b|
    decreases n
  {
    if n == 0 then 0 else
      var low: int := b[at];
      low + 256 * Le(b, at + 1, n - 1)
  }

  /** The checks of `parse_elf`; failing one of them is a panic. */
  predicate HeaderOk(b: Bytes) {
    && |b| >= EHDR_SIZE
    && b[0] == 0x7f && b[1] == 'E' as int && b[2] == 'L' as int && b[3] == 'F' as int
    && b[4] == 2 && b[5] == 1 && Le(b, 18, 2) == EM_AARCH64
  }

  function Phoff(b: Bytes): nat
    requires |b| >= EHDR_SIZE
  {
    Le(b, 32, 8)
  }

  function Phnum(b: Bytes): nat
    requires |b| >= EHDR_SIZE
  {
    Le(b, 56, 2)
  }

  function Phentsize(b: Bytes): nat
    requires |b| >= EHDR_SIZE
  {
    Le(b, 54, 2)
  }

  function SegmentAt(b: Bytes, at: nat): Segment
    requires at + PHDR_SIZE <= |b|
  {
    Segment(Le(b, at, 4), Le(b, at + 8, 8), Le(b, at + 32, 8), Le(b, at + 40, 8))
  }

  /** The `num` program headers from `at` on. */
  function Segments(b: Bytes, at: nat, num: nat): (ss: seq<Segment>)
    requires at + num * PHDR_SIZE <= |b|
    ensures |ss| == num
    decreases num
  {
    if num == 0 then [] else [SegmentAt(b, at)] + Segments(b, at + PHDR_SIZE, num - 1)
  }

  /** The first loadable segment, if any. */
  function FirstLoad(ss: seq<Segment>): (r: Option<Segment>)
    ensures r == None <==> forall s | s in ss :: s.kind != PT_LOAD
    ensures r.Some? ==> r.value in ss && r.value.kind == PT_LOAD
  {
    if ss == [] then None
    else if ss[0].kind == PT_LOAD then Some(ss[0])
    else FirstLoad(ss[1..])
  }

  /** The one segment the loader looks into, if there is one, can be loaded. */
  predicate FirstLoadable(b: Bytes, ss: seq<Segment>) {
    FirstLoad(ss).Some? ==> Loadable(b, FirstLoad(ss).value)
  }

  /** Offsets the loader trusts: the header table and the contents of the first loadable segment lie in the image. */
  predicate Trusted(b: Bytes) {
    HeaderOk(b) && Phentsize(b) == PHDR_SIZE ==>
      && Phoff(b) + Phnum(b) * PHDR_SIZE <= |b|
      && FirstLoadable(b, Segments(b, Phoff(b), Phnum(b)))
  }

  /** The segment an image asks for: `None` is a panic, `Some(None)` an image without one. */
  function Wanted(b: Bytes): (r: Option<Option<Segment>>)
    requires Trusted(b)
  {
    if !HeaderOk(b) || Phentsize(b) != PHDR_SIZE then None
    else Some(FirstLoad(Segments(b, Phoff(b), Phnum(b))))
  }

  /** File contents, then zeros up to the end of the last page. */
  function Contents(b: Bytes, s: Segment): (c: Bytes)
    requires s.offset + s.filesz <= |b| && s.filesz <= s.memsz
    ensures |c| == PagesFor(s.memsz) * PAGE_SIZE
  {
    b[s.offset..s.offset + s.filesz] + seq(PagesFor(s.memsz) * PAGE_SIZE - s.filesz, _ => 0)
  }

  /** `load_elf`: pages for the segment, if the image has one. A header it rejects ends the run. */
  ghost function ImageStep(st: Pages, data: Bytes): Outcome
    requires Trusted(data)
  {
    match Wanted(data)
    case None => Illegal
    case Some(None) => Done(st)
    case Some(Some(s)) => Step(st, Alloc(PagesFor(s.memsz)))
  }

  datatype Mapping = Nowhere | Mapped(vma: nat, size: nat, image: Bytes) | LoadPanic

  /** `memcpy` of the file part and `memset` of the rest, into the pages of the segment. */
  method FillImage(b: Bytes, s: Segment, size: nat) returns (image: array<Byte>)
    requires s.offset + s.filesz <= |b| && s.filesz <= s.memsz && size == PagesFor(s.memsz) * PAGE_SIZE
    ensures fresh(image) && image[..] == Contents(b, s)
  {
    image := new Byte[size];
    var i := 0;
    while i < s.filesz
      invariant 0 <= i <= s.filesz && image[..i] == b[s.offset..s.offset + i]
    {
      image[i] := b[s.offset + i];
      i := i + 1;
    }
    while i < size
      invariant s.filesz <= i <= size && image[..s.filesz] == b[s.offset..s.offset + s.filesz]
      invariant forall k | s.filesz <= k < i :: image[k] == 0
    {
      image[i] := 0;
      i := i + 1;
    }
    assert image[..] == image[..s.filesz] + image[s.filesz..];
  }

  lemma SegmentsNext(b: Bytes, at: nat, num: nat)
    requires num > 0 && at + num * PHDR_SIZE <= |b|
    ensures at + PHDR_SIZE + (num - 1) * PHDR_SIZE <= |b| && at + PHDR_SIZE <= |b|
    ensures Segments(b, at, num) == [SegmentAt(b, at)] + Segments(b, at + PHDR_SIZE, num - 1)
  {
  }

  predicate Loadable(b: Bytes, s: Segment) {
    0 < s.memsz < 0x7FFF_F000 && s.filesz <= s.memsz && s.offset + s.filesz <= |b|
  }

  /** `m` maps the segment, in the one run of pages added to those live `before`. */
  ghost predicate Holds(pages: Allocator, before: seq<Run>, b: Bytes, s: Segment, m: Mapping)
    reads pages
  {
    && m.Mapped? && Loadable(b, s) && pages.IsPage(m.vma) && m.vma > 0
    && m.size == PagesFor(s.memsz) * PAGE_SIZE && m.image == Contents(b, s)
    && pages.live == before + [pages.RunOf(m.vma, PagesFor(s.memsz))]
  }

  /** Allocates and fills the pages of one segment. */
  method LoadSegment(pages: Allocator, b: Bytes, s: Segment) returns (m: Mapping)
    requires pages.Valid() && Loadable(b, s)
    modifies pages, pages.pool, pages.zones
    ensures match Step(old(pages.State()), Alloc(PagesFor(s.memsz)))
            case Done(st) => m.Mapped? && pages.Valid() && pages.State() == st && Holds(pages, old(pages.live), b, s, m)
            case _ => m.LoadPanic?
  {
    hide Allocator.Valid, Contents, AllocStep;
    assert pages.poolStart > 0 by { PoolPositive(pages); }
    var n := PagesFor(s.memsz);
    assert 0 < n < 0x8000_0000;
    hide PagesFor;
    var r := pages.PageAlloc(n);
    if !r.Allocated? {
      return LoadPanic;
    }
    var image := FillImage(b, s, n * PAGE_SIZE);
    m := Mapped(r.paddr, n * PAGE_SIZE, image[..]);
  }

  lemma PoolPositive(pages: Allocator)
    requires pages.Valid()
    ensures pages.poolStart > 0
  {
  }

  /** `parse_program_header`: the loop over the headers, allocating at the first PT_LOAD only. */
  method ParseProgramHeader(pages: Allocator, b: Bytes, at: nat, num: nat) returns (m: Mapping)
    requires pages.Valid() && at + num * PHDR_SIZE <= |b|
    requires FirstLoadable(b, Segments(b, at, num))
    modifies pages, pages.pool, pages.zones
    ensures match FirstLoad(Segments(b, at, num))
            case None => m.Nowhere? && pages.Valid() && pages.State() == old(pages.State())
            case Some(s) =>
              match Step(old(pages.State()), Alloc(PagesFor(s.memsz)))
              case Done(st) => m.Mapped? && pages.Valid() && pages.State() == st && Holds(pages, old(pages.live), b, s, m)
              case _ => m.LoadPanic?
  {
    hide Allocator.Valid, Holds, Segments, SegmentAt, Loadable, Step, PagesFor;
    m := Nowhere;
    var hdr: nat, left: nat := at, num;
    ghost var first := FirstLoad(Segments(b, at, num));
    while left > 0
      invariant left <= num && hdr + left * PHDR_SIZE <= |b| && !m.LoadPanic? && pages.Valid()
      invariant m.Nowhere? ==> FirstLoadable(b, Segments(b, hdr, left))
      invariant m.Nowhere? ==> first == FirstLoad(Segments(b, hdr, left)) && pages.State() == old(pages.State())
      invariant m.Mapped? ==> first.Some? && Holds(pages, old(pages.live), b, first.value, m)
      invariant m.Mapped? ==> Step(old(pages.State()), Alloc(PagesFor(first.value.memsz))) == Done(pages.State())
    {
      SegmentsNext(b, hdr, left);
      var s := SegmentAt(b, hdr);
      assert Segments(b, hdr, left)[0] == s && Segments(b, hdr, left)[1..] == Segments(b, hdr + PHDR_SIZE, left - 1);
      if s.kind == PT_LOAD && m.Nowhere? {
        m := LoadSegment(pages, b, s);
        if m.LoadPanic? {
          return;
        }
      }
      hdr := hdr + PHDR_SIZE;
      left := left - 1;
    }
    NoSegments(b, hdr);
  }

  lemma NoSegments(b: Bytes, at: nat)
    requires at <= |b|
    ensures FirstLoad(Segments(b, at, 0)) == None
  {
  }

  /** `load_elf`, without the final test of `vma_addr`. */
  method LoadElf(pages: Allocator, b: Bytes) returns (m: Mapping)
    requires pages.Valid() && Trusted(b)
    modifies pages, pages.pool, pages.zones
    ensures match Wanted(b)
            case None => m.LoadPanic?
            case Some(None) => m.Nowhere? && pages.live == old(pages.live)
            case Some(Some(s)) => m.LoadPanic? || (m.Mapped? && Holds(pages, old(pages.live), b, s, m))
    ensures match ImageStep(old(pages.State()), b)
            case Done(st) => !m.LoadPanic? && pages.Valid() && pages.State() == st
            case _ => m.LoadPanic?
  {
    hide Allocator.Valid, Holds, Step, PagesFor;
    if !HeaderOk(b) || Phentsize(b) != PHDR_SIZE {
      return LoadPanic;
    }
    m := ParseProgramHeader(pages, b, Phoff(b), Phnum(b));
  }
}
