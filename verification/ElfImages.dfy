/** ELF images byte by byte: how one is written, what the loader takes from it, and what it rejects. */
module ElfImages {
  import opened Machine
  import opened Flash
  import opened Elf

  /** The `n` bytes of a number, the least significant first. */
  function Enc(v: nat, n: nat): (b: Bytes)
    ensures |b| == n
    decreases n
  {
    if n == 0 then [] else [v % 256] + Enc(v / 256, n - 1)
  }

  function Limit(n: nat): nat {
    if n == 0 then 1 else 256 * Limit(n - 1)
  }

  lemma {:induction false} EncDecodes(v: nat, n: nat)
    requires v < Limit(n)
    ensures Le(Enc(v, n), 0, n) == v
    decreases n
  {
    if n > 0 {
      EncDecodes(v / 256, n - 1);
      LeShift(Enc(v, n), Enc(v / 256, n - 1), 1, n - 1);
    }
  }

  /** A field reads the same wherever it stands. */
  lemma {:induction false} LeWithin(b: Bytes, at: nat, part: Bytes, i: nat, n: nat)
    requires i + n <= |part| && at + |part| <= |b| && b[at..at + |part|] == part
    ensures Le(b, at + i, n) == Le(part, i, n)
    decreases n
  {
    if n > 0 {
      assert b[at..at + |part|][i] == part[i];
      LeWithin(b, at, part, i + 1, n - 1);
    }
  }

  lemma LeShift(b: Bytes, part: Bytes, at: nat, n: nat)
    requires n == |part| && at + n <= |b| && b[at..at + n] == part
    ensures Le(b, at, n) == Le(part, 0, n)
  {
    LeWithin(b, at, part, 0, n);
  }

  lemma Limits()
    ensures Limit(2) == 0x1_0000 && Limit(4) == 0x1_0000_0000 && Limit(8) == 0x1_0000_0000_0000_0000
  {
    assert Limit(3) == 0x100_0000 && Limit(4) == 256 * Limit(3);
    assert Limit(6) == 0x1_0000 * Limit(4) && Limit(8) == 0x1_0000 * Limit(6);
  }

  // ---------------------------------------------------------------- program headers

  /** The eight fields of a program header, in the order they are written. */
  datatype ProgramHeader = ProgramHeader(kind: nat, flags: nat, offset: nat, vaddr: nat, paddr: nat, filesz: nat, memsz: nat, align: nat)

  predicate HeaderFits(h: ProgramHeader) {
    && h.kind < 0x1_0000_0000 && h.flags < 0x1_0000_0000
    && h.offset < 0x1_0000_0000_0000_0000 && h.vaddr < 0x1_0000_0000_0000_0000 && h.paddr < 0x1_0000_0000_0000_0000
    && h.filesz < 0x1_0000_0000_0000_0000 && h.memsz < 0x1_0000_0000_0000_0000 && h.align < 0x1_0000_0000_0000_0000
  }

  function WriteHeader(h: ProgramHeader): (b: Bytes)
    ensures |b| == 56
  {
    Enc(h.kind, 4) + Enc(h.flags, 4) + Enc(h.offset, 8) + Enc(h.vaddr, 8) + Enc(h.paddr, 8)
    + Enc(h.filesz, 8) + Enc(h.memsz, 8) + Enc(h.align, 8)
  }

  /** Type at byte 0, offset at 8, size in the file at 32, size in memory at 40. */
  lemma HeaderPlaces(h: ProgramHeader)
    ensures var b := WriteHeader(h);
            b[0..4] == Enc(h.kind, 4) && b[8..16] == Enc(h.offset, 8) && b[32..40] == Enc(h.filesz, 8) && b[40..48] == Enc(h.memsz, 8)
  {
    hide Enc;
    var b := WriteHeader(h);
    assert b == Enc(h.kind, 4) + (Enc(h.flags, 4) + Enc(h.offset, 8) + Enc(h.vaddr, 8) + Enc(h.paddr, 8)
                                  + Enc(h.filesz, 8) + Enc(h.memsz, 8) + Enc(h.align, 8));
    InTheMiddle(Enc(h.kind, 4) + Enc(h.flags, 4), Enc(h.offset, 8),
                Enc(h.vaddr, 8) + Enc(h.paddr, 8) + Enc(h.filesz, 8) + Enc(h.memsz, 8) + Enc(h.align, 8), b);
    InTheMiddle(Enc(h.kind, 4) + Enc(h.flags, 4) + Enc(h.offset, 8) + Enc(h.vaddr, 8) + Enc(h.paddr, 8), Enc(h.filesz, 8),
                Enc(h.memsz, 8) + Enc(h.align, 8), b);
    InTheMiddle(Enc(h.kind, 4) + Enc(h.flags, 4) + Enc(h.offset, 8) + Enc(h.vaddr, 8) + Enc(h.paddr, 8) + Enc(h.filesz, 8),
                Enc(h.memsz, 8), Enc(h.align, 8), b);
  }

  lemma InTheMiddle(front: Bytes, part: Bytes, back: Bytes, b: Bytes)
    requires b == front + part + back
    ensures b[|front|..|front| + |part|] == part
  {
  }

  lemma FieldReads(b: Bytes, at: nat, i: nat, v: nat, n: nat, part: Bytes)
    requires v < Limit(n) && i + n <= |part| && at + |part| <= |b| && b[at..at + |part|] == part && part[i..i + n] == Enc(v, n)
    ensures Le(b, at + i, n) == v
  {
    EncDecodes(v, n);
    LeShift(part, Enc(v, n), i, n);
    LeWithin(b, at, part, i, n);
  }

  /** The loader sees the fields that were written. */
  lemma HeaderReads(b: Bytes, at: nat, h: ProgramHeader)
    requires HeaderFits(h) && at + 56 <= |b| && b[at..at + 56] == WriteHeader(h)
    ensures SegmentAt(b, at) == Segment(h.kind, h.offset, h.filesz, h.memsz)
  {
    Limits();
    HeaderPlaces(h);
    hide WriteHeader, Limit, Enc, Le;
    var part := WriteHeader(h);
    FieldReads(b, at, 0, h.kind, 4, part);
    FieldReads(b, at, 8, h.offset, 8, part);
    FieldReads(b, at, 32, h.filesz, 8, part);
    FieldReads(b, at, 40, h.memsz, 8, part);
  }

  function WriteHeaders(hs: seq<ProgramHeader>): (b: Bytes)
    ensures |b| == 56 * |hs|
  {
    if hs == [] then [] else WriteHeader(hs[0]) + WriteHeaders(hs[1..])
  }

  function Asked(h: ProgramHeader): Segment {
    Segment(h.kind, h.offset, h.filesz, h.memsz)
  }

  lemma {:induction false} HeadersRead(b: Bytes, at: nat, hs: seq<ProgramHeader>)
    requires (forall h | h in hs :: HeaderFits(h)) && at + 56 * |hs| <= |b| && b[at..at + 56 * |hs|] == WriteHeaders(hs)
    ensures |Segments(b, at, |hs|)| == |hs| && forall i | 0 <= i < |hs| :: Segments(b, at, |hs|)[i] == Asked(hs[i])
    decreases |hs|
  {
    hide WriteHeader, SegmentAt, HeaderFits;
    if hs != [] {
      FirstHeader(b, at, hs);
      HeaderReads(b, at, hs[0]);
      HeadersRead(b, at + 56, hs[1..]);
      SegmentsNext(b, at, |hs|);
      hide Segments, WriteHeaders;
    }
  }

  lemma FirstHeader(b: Bytes, at: nat, hs: seq<ProgramHeader>)
    requires hs != [] && at + 56 * |hs| <= |b| && b[at..at + 56 * |hs|] == WriteHeaders(hs)
    ensures b[at..at + 56] == WriteHeader(hs[0]) && b[at + 56..at + 56 + 56 * |hs[1..]|] == WriteHeaders(hs[1..])
  {
    hide WriteHeader;
    var all := b[at..at + 56 * |hs|];
    assert b[at..at + 56] == all[..56];
    assert b[at + 56..at + 56 + 56 * |hs[1..]|] == all[56..];
  }

  // ---------------------------------------------------------------- the file header

  /** The fields of a file header that are not fixed. */
  datatype FileHeader = FileHeader(ident: Bytes, kind: nat, version: nat, entry: nat, phoff: nat, shoff: nat, flags: nat,
                                   ehsize: nat, phnum: nat, shentsize: nat, shnum: nat, shstrndx: nat)

  /** Magic, 64 bit, least significant byte first; machine 183; program headers of 56 bytes. */
  function WriteFileHeader(f: FileHeader): (b: Bytes)
    requires |f.ident| == 10
    ensures |b| == 64
  {
    ([0x7f, 0x45, 0x4c, 0x46, 2, 1] + f.ident + Enc(f.kind, 2) + [183, 0] + (Enc(f.version, 4) + Enc(f.entry, 8)))
    + Enc(f.phoff, 8) + (Enc(f.shoff, 8) + Enc(f.flags, 4) + Enc(f.ehsize, 2)) + [56, 0]
    + Enc(f.phnum, 2) + (Enc(f.shentsize, 2) + Enc(f.shnum, 2) + Enc(f.shstrndx, 2))
  }

  lemma FileHeaderPlaces(f: FileHeader)
    requires |f.ident| == 10
    ensures var b := WriteFileHeader(f);
            && b[0..6] == [0x7f, 0x45, 0x4c, 0x46, 2, 1] && b[18..20] == [183, 0] && b[32..40] == Enc(f.phoff, 8)
            && b[54..56] == [56, 0] && b[56..58] == Enc(f.phnum, 2)
  {
    hide Enc;
    var b := WriteFileHeader(f);
    var front := [0x7f, 0x45, 0x4c, 0x46, 2, 1] + f.ident + Enc(f.kind, 2) + [183, 0] + (Enc(f.version, 4) + Enc(f.entry, 8));
    var middle, back := Enc(f.shoff, 8) + Enc(f.flags, 4) + Enc(f.ehsize, 2), Enc(f.shentsize, 2) + Enc(f.shnum, 2) + Enc(f.shstrndx, 2);
    Five(front, Enc(f.phoff, 8), middle, [56, 0], Enc(f.phnum, 2), back, b);
    assert front[0..6] == [0x7f, 0x45, 0x4c, 0x46, 2, 1];
    InTheMiddle([0x7f, 0x45, 0x4c, 0x46, 2, 1] + f.ident + Enc(f.kind, 2), [183, 0], Enc(f.version, 4) + Enc(f.entry, 8), front);
    assert b[0..6] == front[0..6] && b[18..20] == front[18..20];
  }

  lemma Five(front: Bytes, a: Bytes, middle: Bytes, c: Bytes, d: Bytes, back: Bytes, b: Bytes)
    requires |front| == 32 && |a| == 8 && |middle| == 14 && |c| == |d| == 2 && b == front + a + middle + c + d + back
    ensures b[..32] == front && b[32..40] == a && b[54..56] == c && b[56..58] == d
  {
  }

  /** The image is not for this loader: too short, or one of the bytes it looks at is another one. */
  predicate Rejected(b: Bytes) {
    || |b| < 64
    || b[0] != 0x7f || b[1] != 0x45 || b[2] != 0x4c || b[3] != 0x46
    || b[4] != 2 || b[5] != 1
    || b[18] != 183 || b[19] != 0
    || b[54] != 56 || b[55] != 0
  }

  lemma TwoBytes(b: Bytes, at: nat)
    requires at + 2 <= |b|
    ensures Le(b, at, 2) == b[at] as int + 256 * b[at + 1] as int
  {
    assert Le(b, at + 1, 1) == b[at + 1] as int + 256 * Le(b, at + 2, 0);
  }

  /** A load ends in a panic over the headers if and only if one of those bytes is wrong. */
  lemma RejectsExactly(b: Bytes)
    requires Trusted(b)
    ensures Wanted(b) == None <==> Rejected(b)
  {
    AcceptedBytes(b);
    hide HeaderOk, Phentsize, Rejected, Segments, FirstLoad;
  }

  /** The index of the first header of type 1, or their number. */
  function FirstLoadAt(hs: seq<ProgramHeader>): (i: nat)
    ensures i <= |hs| && (i < |hs| ==> hs[i].kind == 1)
    ensures forall j | 0 <= j < i :: hs[j].kind != 1
  {
    if hs == [] || hs[0].kind == 1 then 0 else 1 + FirstLoadAt(hs[1..])
  }

  lemma {:induction false} FirstLoadIs(ss: seq<Segment>, i: nat)
    requires i < |ss| && ss[i].kind == 1 && forall j | 0 <= j < i :: ss[j].kind != 1
    ensures FirstLoad(ss) == Some(ss[i])
    decreases i
  {
    if i > 0 {
      assert ss[0].kind != 1;
      FirstLoadIs(ss[1..], i - 1);
    }
  }

  /** An image written with these headers, wherever the table stands and whatever else is in it. */
  ghost predicate Written(b: Bytes, f: FileHeader, hs: seq<ProgramHeader>) {
    && |f.ident| == 10 && f.phoff < 0x1_0000_0000_0000_0000 && f.phnum == |hs| < 0x1_0000
    && (forall h | h in hs :: HeaderFits(h))
    && 64 <= |b| && b[0..64] == WriteFileHeader(f)
    && f.phoff + 56 * |hs| <= |b| && b[f.phoff..f.phoff + 56 * |hs|] == WriteHeaders(hs)
  }

  lemma FixedBytes(b: Bytes, f: FileHeader)
    requires |f.ident| == 10 && 64 <= |b| && b[0..64] == WriteFileHeader(f)
    ensures !Rejected(b)
  {
    FileHeaderPlaces(f);
    hide WriteFileHeader;
    var c := b[0..64];
    assert c[0] == c[0..6][0] && c[1] == c[0..6][1] && c[2] == c[0..6][2] && c[3] == c[0..6][3] && c[4] == c[0..6][4] && c[5] == c[0..6][5];
    assert c[18] == c[18..20][0] && c[19] == c[18..20][1] && c[54] == c[54..56][0] && c[55] == c[54..56][1];
  }

  lemma TablePlace(b: Bytes, f: FileHeader)
    requires |f.ident| == 10 && 64 <= |b| && b[0..64] == WriteFileHeader(f) && f.phoff < Limit(8) && f.phnum < Limit(2)
    ensures Phoff(b) == f.phoff && Phnum(b) == f.phnum
  {
    hide WriteFileHeader, Limit, Enc, Le;
    FileHeaderPlaces(f);
    var part := WriteFileHeader(f);
    assert Le(b, 0 + 32, 8) == f.phoff by { FieldReads(b, 0, 32, f.phoff, 8, part); }
    assert Le(b, 0 + 56, 2) == f.phnum by { FieldReads(b, 0, 56, f.phnum, 2, part); }
  }

  lemma AcceptedBytes(b: Bytes)
    ensures !Rejected(b) <==> HeaderOk(b) && Phentsize(b) == PHDR_SIZE
  {
    hide Le;
    if |b| >= 64 {
      TwoBytes(b, 18);
      TwoBytes(b, 54);
    }
  }

  lemma WantedIs(b: Bytes)
    requires HeaderOk(b) && Phentsize(b) == PHDR_SIZE && Phoff(b) + Phnum(b) * PHDR_SIZE <= |b|
    ensures var first := FirstLoad(Segments(b, Phoff(b), Phnum(b)));
            && (Trusted(b) <==> (first.Some? ==> Loadable(b, first.value)))
            && (Trusted(b) ==> Wanted(b) == Some(first))
  {
    hide HeaderOk, Phentsize, Phoff, Phnum, Segments, FirstLoad, Loadable;
  }

  /** Of a written image the loader wants the first header of type 1, with offset and sizes as written, and nothing if there is none. */
  lemma WantedWritten(b: Bytes, f: FileHeader, hs: seq<ProgramHeader>)
    requires Written(b, f, hs)
    ensures Trusted(b) <==>
              (FirstLoadAt(hs) < |hs| ==>
                 var h := hs[FirstLoadAt(hs)];
                 0 < h.memsz < 0x7FFF_F000 && h.filesz <= h.memsz && h.offset + h.filesz <= |b|)
    ensures Trusted(b) ==>
              Wanted(b) == Some(if FirstLoadAt(hs) == |hs| then None
                                else var h := hs[FirstLoadAt(hs)]; Some(Segment(1, h.offset, h.filesz, h.memsz)))
  {
    Limits();
    hide WriteFileHeader, WriteHeaders, HeaderFits, Limit, HeaderOk, Phentsize, Phoff, Phnum, Segments, Rejected;
    hide Trusted, Wanted, FirstLoad;
    FixedBytes(b, f);
    AcceptedBytes(b);
    TablePlace(b, f);
    HeadersRead(b, f.phoff, hs);
    WantedIs(b);
    var ss, i := Segments(b, f.phoff, |hs|), FirstLoadAt(hs);
    if i < |hs| {
      FirstLoadIs(ss, i);
    } else {
      NoneLoads(ss);
    }
  }

  lemma NoneLoads(ss: seq<Segment>)
    requires forall i | 0 <= i < |ss| :: ss[i].kind != 1
    ensures FirstLoad(ss) == None
  {
  }

  /** What is loaded: the bytes of the file from the segment's offset on, then zeros, in whole pages. */
  lemma LoadedBytes(b: Bytes, s: Segment)
    requires s.offset + s.filesz <= |b| && s.filesz <= s.memsz
    ensures var c := Contents(b, s);
            && s.memsz <= |c| < s.memsz + 4096 && |c| % 4096 == 0
            && (forall i | 0 <= i < s.filesz :: c[i] == b[s.offset + i])
            && (forall i | s.filesz <= i < |c| :: c[i] == 0)
  {
  }
}
