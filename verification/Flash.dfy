/** The flash image chain: what counts as an image, where the chain ends, and how one is written. */
module Flash {

  type Byte = x: int | 0 <= x < 256

  type Bytes = seq<Byte>

  const HEADER_SIZE: nat := 64
  const IH_MAGIC: nat := 0x27051956
  const IH_ARCH_ARM64: nat := 22
  const IH_COMP_NONE: nat := 0
  const NAME_LENGTH: nat := 32
  const MAX_FILES: nat := 64

  /** A recorded image: its name field and the blob, header included. */
  datatype Image = Image(name: Bytes, start: nat, size: nat)

  /** `ntohl` of the 32-bit field at `at`. */
  function Be32(b: Bytes, at: nat): (v: nat)
    requires at + 4 <= |b|
    ensures v < 0x1_0000_0000
  {
    var b0: int, b1: int, b2: int, b3: int := b[at], b[at + 1], b[at + 2], b[at + 3];
    ((b0 * 256 + b1) * 256 + b2) * 256 + b3
  }

  function DataSize(flash: Bytes, at: nat): nat
    requires at + HEADER_SIZE <= |flash|
  {
    Be32(flash, at + 12)
  }

  /** An ARM64, uncompressed image starts at `at` and fits on the device. */
  predicate WellFormed(flash: Bytes, at: nat) {
    && at + HEADER_SIZE <= |flash|
    && Be32(flash, at) == IH_MAGIC
    && flash[at + 29] == IH_ARCH_ARM64
    && flash[at + 31] == IH_COMP_NONE
    && at + HEADER_SIZE + DataSize(flash, at) <= |flash|
  }

  function ImageAt(flash: Bytes, at: nat): (i: Image)
    requires at + HEADER_SIZE <= |flash|
    ensures i.start == at && i.size >= HEADER_SIZE && |i.name| == NAME_LENGTH
  {
    Image(flash[at + 32..at + 64], at, HEADER_SIZE + DataSize(flash, at))
  }

  /** At most `room` images, one directly behind the other. */
  function Parse(flash: Bytes, at: nat, room: nat): (imgs: seq<Image>)
    ensures |imgs| <= room
    decreases room
  {
    if room == 0 || !WellFormed(flash, at) then []
    else [ImageAt(flash, at)] + Parse(flash, at + ImageAt(flash, at).size, room - 1)
  }

  // ---------------------------------------------------------------- the chain

  /** `imgs` are the images found by starting at `at` and stepping from each to the byte behind it. */
  ghost predicate IsChain(flash: Bytes, at: nat, imgs: seq<Image>)
    decreases |imgs|
  {
    imgs == [] || (WellFormed(flash, at) && imgs[0] == ImageAt(flash, at) && IsChain(flash, at + imgs[0].size, imgs[1..]))
  }

  function ChainEnd(at: nat, imgs: seq<Image>): nat
    decreases |imgs|
  {
    if imgs == [] then at else ChainEnd(at + imgs[0].size, imgs[1..])
  }

  /** Parsing finds a chain, and stops only at its room or where no image starts. */
  lemma {:induction false} ParseIsChain(flash: Bytes, at: nat, room: nat)
    ensures IsChain(flash, at, Parse(flash, at, room))
    ensures |Parse(flash, at, room)| == room || !WellFormed(flash, ChainEnd(at, Parse(flash, at, room)))
    decreases room
  {
    if room > 0 && WellFormed(flash, at) {
      ParseIsChain(flash, at + ImageAt(flash, at).size, room - 1);
    }
  }

  /** Every chain that fits is a prefix of the one parsing finds: it is the longest. */
  lemma {:induction false} ParseLongest(flash: Bytes, at: nat, room: nat, imgs: seq<Image>)
    requires IsChain(flash, at, imgs) && |imgs| <= room
    ensures imgs <= Parse(flash, at, room)
    decreases room
  {
    if imgs != [] {
      ParseLongest(flash, at + imgs[0].size, room - 1, imgs[1..]);
      assert imgs == [imgs[0]] + imgs[1..];
    }
  }

  /** The blobs are adjacent, start where the chain starts, and lie inside the device. */
  lemma {:induction false} ChainLayout(flash: Bytes, at: nat, imgs: seq<Image>)
    requires IsChain(flash, at, imgs) && at <= |flash|
    ensures forall i | 0 <= i < |imgs| :: imgs[i].start >= at && imgs[i].start + imgs[i].size <= |flash|
    ensures imgs != [] ==> imgs[0].start == at
    ensures forall i | 0 <= i < |imgs| - 1 :: imgs[i].start + imgs[i].size == imgs[i + 1].start
    ensures forall i | 0 <= i < |imgs| :: WellFormed(flash, imgs[i].start) && imgs[i] == ImageAt(flash, imgs[i].start)
    ensures at <= ChainEnd(at, imgs) <= |flash|
    decreases |imgs|
  {
    if imgs != [] {
      var rest := imgs[1..];
      ChainLayout(flash, at + imgs[0].size, rest);
      forall i | 0 <= i < |imgs|
        ensures imgs[i].start >= at && imgs[i].start + imgs[i].size <= |flash|
        ensures WellFormed(flash, imgs[i].start) && imgs[i] == ImageAt(flash, imgs[i].start)
        ensures i + 1 < |imgs| ==> imgs[i].start + imgs[i].size == imgs[i + 1].start
      {
        if i > 0 {
          assert imgs[i] == rest[i - 1];
        }
      }
    }
  }

  // ---------------------------------------------------------------- writing a chain

  /** The fields of an image the kernel does not look at are arbitrary. */
  datatype File = File(name: Bytes, stamps: Bytes, addresses: Bytes, os: Byte, kind: Byte, data: Bytes)

  predicate FileOk(f: File) {
    |f.name| == NAME_LENGTH && |f.stamps| == 8 && |f.addresses| == 12 && |f.data| < 0x1_0000_0000
  }

  function Enc32(v: nat): (b: Bytes)
    requires v < 0x1_0000_0000
    ensures |b| == 4
  {
    [v / 0x100_0000, v / 0x1_0000 % 256, v / 256 % 256, v % 256]
  }

  function Header(f: File): (h: Bytes)
    requires FileOk(f)
    ensures |h| == HEADER_SIZE
  {
    [0x27, 0x05, 0x19, 0x56] + f.stamps + Enc32(|f.data|) + f.addresses + [f.os, 22, f.kind, 0] + f.name
  }

  function Serialize(fs: seq<File>): Bytes
    requires forall f | f in fs :: FileOk(f)
  {
    if fs == [] then [] else Header(fs[0]) + fs[0].data + Serialize(fs[1..])
  }

  /** What the chain of `fs` should be recorded as when it starts at `at`. */
  function Recorded(fs: seq<File>, at: nat): (imgs: seq<Image>)
    ensures |imgs| == |fs|
  {
    if fs == [] then []
    else
      var size := HEADER_SIZE + |fs[0].data|;
      [Image(fs[0].name, at, size)] + Recorded(fs[1..], at + size)
  }

  lemma Enc32Decodes(v: nat)
    requires v < 0x1_0000_0000
    ensures Be32(Enc32(v), 0) == v
  {
    var a, b, c := v / 0x100_0000, v / 0x1_0000, v / 256;
    assert c / 256 == b && b / 256 == a;
    assert v == 256 * c + v % 256 && c == 256 * b + c % 256 && b == 256 * a + b % 256;
  }

  lemma Be32Within(a: Bytes, b: Bytes, at: nat, k: nat)
    requires k + 4 <= |b| && at + |b| <= |a| && a[at..at + |b|] == b
    ensures Be32(a, at + k) == Be32(b, k)
  {
    var c := a[at..at + |b|];
    assert c[k] == a[at + k] && c[k + 1] == a[at + k + 1] && c[k + 2] == a[at + k + 2] && c[k + 3] == a[at + k + 3];
  }

  lemma HeaderFields(f: File)
    requires FileOk(f)
    ensures Be32(Header(f), 0) == IH_MAGIC && Be32(Header(f), 12) == |f.data|
    ensures Header(f)[29] == 22 && Header(f)[31] == 0 && Header(f)[32..64] == f.name
  {
    var h := Header(f);
    Enc32Decodes(|f.data|);
    assert h[12..16] == Enc32(|f.data|);
    Be32Within(h, Enc32(|f.data|), 12, 0);
  }

  lemma HeaderParses(flash: Bytes, at: nat, f: File)
    requires FileOk(f) && at + HEADER_SIZE + |f.data| <= |flash| && flash[at..at + HEADER_SIZE] == Header(f)
    ensures WellFormed(flash, at) && ImageAt(flash, at) == Image(f.name, at, HEADER_SIZE + |f.data|)
  {
    var h := Header(f);
    HeaderFields(f);
    Be32Within(flash, h, at, 0);
    Be32Within(flash, h, at, 12);
    assert h[29] == flash[at..at + 64][29] == flash[at + 29] && h[31] == flash[at..at + 64][31] == flash[at + 31];
    assert flash[at + 32..at + 64] == h[32..64];
  }

  /** No image starts at the beginning of `tail`. */
  predicate NoImage(tail: Bytes) {
    |tail| < HEADER_SIZE || Be32(tail, 0) != IH_MAGIC
  }

  lemma NoImageStops(flash: Bytes, at: nat, tail: Bytes)
    requires at <= |flash| && flash[at..] == tail && NoImage(tail)
    ensures !WellFormed(flash, at)
  {
    if at + HEADER_SIZE <= |flash| {
      assert flash[at..at + |tail|] == tail;
      Be32Within(flash, tail, at, 0);
    }
  }

  lemma ImageStarts(flash: Bytes, at: nat, f: File, rest: Bytes)
    requires at <= |flash| && FileOk(f) && flash[at..] == Header(f) + (f.data + rest)
    ensures WellFormed(flash, at) && ImageAt(flash, at) == Image(f.name, at, HEADER_SIZE + |f.data|)
    ensures flash[at + HEADER_SIZE + |f.data|..] == rest
  {
    hide Header;
    assert flash[at..at + HEADER_SIZE] == flash[at..][..HEADER_SIZE] == Header(f);
    HeaderParses(flash, at, f);
    assert flash[at + HEADER_SIZE + |f.data|..] == flash[at..][HEADER_SIZE + |f.data|..];
  }

  lemma {:induction false} ParseSerialized(flash: Bytes, at: nat, room: nat, fs: seq<File>, tail: Bytes)
    requires at <= |flash| && |fs| <= room && (|fs| == room || NoImage(tail))
    requires (forall f | f in fs :: FileOk(f)) && flash[at..] == Serialize(fs) + tail
    ensures Parse(flash, at, room) == Recorded(fs, at)
    decreases |fs|
  {
    hide WellFormed, ImageAt, Header, NoImage;
    if fs == [] {
      assert flash[at..] == tail;
      if room > 0 {
        NoImageStops(flash, at, tail);
      }
    } else {
      var f, rest := fs[0], Serialize(fs[1..]) + tail;
      assert Serialize(fs) + tail == Header(f) + (f.data + rest);
      ImageStarts(flash, at, f, rest);
      ParseSerialized(flash, at + HEADER_SIZE + |f.data|, room - 1, fs[1..], tail);
    }
  }

  /** Images written back to back are recorded one for one, up to 64 of them. */
  lemma ParseRoundTrip(fs: seq<File>, tail: Bytes)
    requires |fs| <= 64 && (forall f | f in fs :: FileOk(f)) && (|fs| == 64 || NoImage(tail))
    ensures Parse(Serialize(fs) + tail, 0, MAX_FILES) == Recorded(fs, 0)
  {
    var flash := Serialize(fs) + tail;
    assert flash[0..] == flash;
    ParseSerialized(flash, 0, MAX_FILES, fs, tail);
  }

  // ---------------------------------------------------------------- what the parser refuses

  /** What follows byte `at` is no image the kernel takes: too short, not the magic, another machine, compressed, or cut off. */
  predicate Refused(flash: Bytes, at: nat)
    requires at <= |flash|
  {
    || |flash| - at < 64
    || flash[at] != 0x27 || flash[at + 1] != 0x05 || flash[at + 2] != 0x19 || flash[at + 3] != 0x56
    || flash[at + 29] != 22
    || flash[at + 31] != 0
    || Length(flash[at + 12], flash[at + 13], flash[at + 14], flash[at + 15]) > |flash| - at - 64
  }

  /** Four bytes, the most significant first. */
  function Length(a: Byte, b: Byte, c: Byte, d: Byte): int {
    a as int * 0x100_0000 + b as int * 0x1_0000 + c as int * 0x100 + d as int
  }

  /** Parsing stops where something is refused, and nowhere else before its room is used up. */
  lemma ParseRefuses(flash: Bytes, at: nat, room: nat)
    requires at <= |flash|
    ensures Parse(flash, at, room) == [] <==> room == 0 || Refused(flash, at)
  {
    if |flash| - at >= 64 {
      MagicBytes(flash, at);
    }
  }

  lemma MagicBytes(b: Bytes, at: nat)
    requires at + 64 <= |b|
    ensures Be32(b, at) == IH_MAGIC <==> b[at] == 0x27 && b[at + 1] == 0x05 && b[at + 2] == 0x19 && b[at + 3] == 0x56
    ensures DataSize(b, at) == Length(b[at + 12], b[at + 13], b[at + 14], b[at + 15])
  {
  }

  /** The four single reasons to refuse, with the bytes in question. */
  lemma RefusedAlone(flash: Bytes, at: nat, room: nat)
    requires at + 64 <= |flash|
    ensures flash[at..at + 4] != [0x27, 0x05, 0x19, 0x56] ==> Parse(flash, at, room) == []
    ensures flash[at + 29] != 22 ==> Parse(flash, at, room) == []
    ensures flash[at + 31] != 0 ==> Parse(flash, at, room) == []
    ensures Length(flash[at + 12], flash[at + 13], flash[at + 14], flash[at + 15]) > |flash| - at - 64 ==> Parse(flash, at, room) == []
  {
    MagicBytes(flash, at);
    if Be32(flash, at) == IH_MAGIC {
      assert flash[at..at + 4] == [0x27, 0x05, 0x19, 0x56];
    }
  }

  /** The file whose image starts at `at`. */
  function FileAt(flash: Bytes, at: nat): (f: File)
    requires at + 64 <= |flash| && at + 64 + DataSize(flash, at) <= |flash|
    ensures FileOk(f)
  {
    File(flash[at + 32..at + 64], flash[at + 4..at + 12], flash[at + 16..at + 28], flash[at + 28], flash[at + 30],
         flash[at + 64..at + 64 + DataSize(flash, at)])
  }

  lemma Be32Encodes(b: Bytes, at: nat)
    requires at + 4 <= |b|
    ensures Enc32(Be32(b, at)) == b[at..at + 4]
  {
    var b0: int, b1: int, b2: int, b3: int := b[at], b[at + 1], b[at + 2], b[at + 3];
    var v2 := b0 * 256 + b1;
    var v1 := v2 * 256 + b2;
    var v := v1 * 256 + b3;
    assert v / 256 == v1 && v % 256 == b3 && v1 / 256 == v2 && v1 % 256 == b2 && v2 / 256 == b0 && v2 % 256 == b1;
    assert v / 0x1_0000 == v1 / 256 && v / 0x100_0000 == v2 / 256;
  }

  lemma HeaderIs(c: Bytes, f: File)
    requires |c| == 64 && FileOk(f) && c[0..4] == [0x27, 0x05, 0x19, 0x56] && c[4..12] == f.stamps
    requires c[12..16] == Enc32(|f.data|) && c[16..28] == f.addresses && c[28..32] == [f.os, 22, f.kind, 0] && c[32..64] == f.name
    ensures c == Header(f)
  {
    hide Enc32;
    assert c == c[0..4] + c[4..12] + c[12..16] + c[16..28] + c[28..32] + c[32..64];
  }

  lemma Slice(b: Bytes, at: nat, i: nat, j: nat)
    requires at + 64 <= |b| && i <= j <= 64
    ensures b[at..at + 64][i..j] == b[at + i..at + j]
  {
    var c := b[at..at + 64];
    assert forall k | 0 <= k < 64 :: c[k] == b[at + k];
    assert forall k | 0 <= k < j - i :: c[i..j][k] == c[i + k] == b[at + i..at + j][k];
  }

  /** An image that is taken is byte for byte one that could have been written. */
  lemma ImageWritten(flash: Bytes, at: nat)
    requires WellFormed(flash, at)
    ensures var f := FileAt(flash, at);
            && flash[at..at + HEADER_SIZE] == Header(f) && flash[at + HEADER_SIZE..at + HEADER_SIZE + |f.data|] == f.data
            && ImageAt(flash, at) == Image(f.name, at, HEADER_SIZE + |f.data|)
  {
    var f := FileAt(flash, at);
    MagicBytes(flash, at);
    Be32Encodes(flash, at + 12);
    Slice(flash, at, 0, 4);
    Slice(flash, at, 4, 12);
    Slice(flash, at, 12, 16);
    Slice(flash, at, 16, 28);
    Slice(flash, at, 28, 32);
    Slice(flash, at, 32, 64);
    assert flash[at + 0..at + 4] == [0x27, 0x05, 0x19, 0x56];
    assert flash[at + 28..at + 32] == [f.os, 22, f.kind, 0];
    hide Enc32, Be32, Header;
    HeaderIs(flash[at..at + 64], f);
  }

  lemma WrittenNext(flash: Bytes, at: nat, f: File, rest: seq<File>)
    requires FileOk(f) && (forall g | g in rest :: FileOk(g)) && at + HEADER_SIZE + |f.data| <= |flash|
    requires flash[at..at + HEADER_SIZE] == Header(f) && flash[at + HEADER_SIZE..at + HEADER_SIZE + |f.data|] == f.data
    requires Serialize(rest) <= flash[at + HEADER_SIZE + |f.data|..]
    ensures Serialize([f] + rest) <= flash[at..] && |Serialize([f] + rest)| == HEADER_SIZE + |f.data| + |Serialize(rest)|
  {
    hide Header;
    var k := HEADER_SIZE + |f.data|;
    assert ([f] + rest)[1..] == rest;
    assert flash[at..] == flash[at..at + HEADER_SIZE] + flash[at + HEADER_SIZE..at + k] + flash[at + k..];
  }

  /** The files of the images parsing finds. */
  function FilesAt(flash: Bytes, at: nat, room: nat): (fs: seq<File>)
    ensures |fs| <= room && forall f | f in fs :: FileOk(f)
    decreases room
  {
    if room == 0 || !WellFormed(flash, at) then []
    else [FileAt(flash, at)] + FilesAt(flash, at + HEADER_SIZE + DataSize(flash, at), room - 1)
  }

  lemma FileFields(flash: Bytes, at: nat)
    requires WellFormed(flash, at)
    ensures at + HEADER_SIZE + DataSize(flash, at) <= |flash|
    ensures |FileAt(flash, at).data| == DataSize(flash, at) && FileAt(flash, at).name == flash[at + 32..at + 64]
  {
    hide Be32;
  }

  lemma FilesNext(flash: Bytes, at: nat, room: nat)
    requires room > 0 && WellFormed(flash, at)
    ensures at + HEADER_SIZE + DataSize(flash, at) <= |flash|
    ensures var (f, next) := (FileAt(flash, at), at + HEADER_SIZE + DataSize(flash, at));
            && |f.data| == DataSize(flash, at)
            && FilesAt(flash, at, room) == [f] + FilesAt(flash, next, room - 1)
            && Parse(flash, at, room) == [Image(f.name, at, HEADER_SIZE + |f.data|)] + Parse(flash, next, room - 1)
  {
    FileFields(flash, at);
    hide WellFormed, FileAt, DataSize;
  }

  lemma RecordedNext(f: File, fs: seq<File>, at: nat)
    ensures Recorded([f] + fs, at) == [Image(f.name, at, HEADER_SIZE + |f.data|)] + Recorded(fs, at + HEADER_SIZE + |f.data|)
  {
    assert ([f] + fs)[1..] == fs;
  }

  lemma {:induction false} FilesRecorded(flash: Bytes, at: nat, room: nat)
    ensures Recorded(FilesAt(flash, at, room), at) == Parse(flash, at, room)
    decreases room
  {
    hide WellFormed, FileAt, DataSize, FilesAt, Parse, Recorded, ImageAt;
    if room > 0 && WellFormed(flash, at) {
      FilesNext(flash, at, room);
      var next := at + HEADER_SIZE + DataSize(flash, at);
      FilesRecorded(flash, next, room - 1);
      RecordedNext(FileAt(flash, at), FilesAt(flash, next, room - 1), at);
    } else {
      FilesEnd(flash, at, room);
    }
  }

  lemma FilesEnd(flash: Bytes, at: nat, room: nat)
    requires room == 0 || !WellFormed(flash, at)
    ensures FilesAt(flash, at, room) == [] && Parse(flash, at, room) == [] && Recorded([], at) == []
  {
    hide WellFormed;
  }

  lemma {:induction false} FilesWritten(flash: Bytes, at: nat, room: nat)
    requires at <= |flash|
    ensures var fs := FilesAt(flash, at, room);
            && Serialize(fs) <= flash[at..]
            && (|fs| == room || Refused(flash, at + |Serialize(fs)|))
    decreases room
  {
    hide Header, Refused, FileOk, FileAt, ImageAt, Recorded, WellFormed, DataSize;
    if room == 0 {
    } else if !WellFormed(flash, at) {
      ParseRefuses(flash, at, room);
    } else {
      FilesNext(flash, at, room);
      hide FilesAt, Parse, Serialize;
      var next := at + HEADER_SIZE + DataSize(flash, at);
      FilesWritten(flash, next, room - 1);
      ImageWritten(flash, at);
      WrittenNext(flash, at, FileAt(flash, at), FilesAt(flash, next, room - 1));
    }
  }

  /** Whatever is on a device, what parsing finds is a list of files written there back to back, and what follows is refused. */
  lemma ParsedWritten(flash: Bytes, at: nat, room: nat) returns (fs: seq<File>)
    requires at <= |flash|
    ensures (forall f | f in fs :: FileOk(f)) && |fs| <= room
    ensures Serialize(fs) <= flash[at..] && Parse(flash, at, room) == Recorded(fs, at)
    ensures |fs| == room || Refused(flash, at + |Serialize(fs)|)
  {
    hide Refused, FileOk, Parse, Recorded, Serialize;
    fs := FilesAt(flash, at, room);
    FilesRecorded(flash, at, room);
    FilesWritten(flash, at, room);
  }
}
