/** The file side of `task_load`: the header, then the data, of an image in flash. */
module Loader {
  import opened Flash
  import opened Files
  import opened ImageReads
  import opened Vfs

  /** The index of the named file in the state before it was opened. */
  function Found(t: Table, name: Bytes): nat {
    Lookup(t.inodes, name)
  }

  /** The table once the file is open and its header has been read. */
  ghost function HeaderRead(t: Table, name: Bytes): (r: Table)
    requires Inv(t) && OpenStep(t, name).ret >= 0
    ensures Inv(r)
  {
    OpenedFacts(t, name);
    ReadInv(OpenStep(t, name).table, OpenStep(t, name).ret, HEADER_SIZE);
    ReadStep(OpenStep(t, name).table, OpenStep(t, name).ret, HEADER_SIZE).table
  }

  lemma HeaderReadFromFlash(t: Table, name: Bytes)
    requires Inv(t) && FromFlash(t) && OpenStep(t, name).ret >= 0
    ensures FromFlash(HeaderRead(t, name))
  {
    OpenedFacts(t, name);
    StepFromFlash(t, Open(name));
    StepFromFlash(OpenStep(t, name).table, Read(OpenStep(t, name).ret, HEADER_SIZE));
  }

  /** `vfs_open` and the read of the header; the "Failed to read task header" branch is dead. */
  method OpenImage(vfs: FileSystem, name: Bytes) returns (fd: int, size: nat)
    requires vfs.Valid() && FromFlash(vfs.View())
    modifies vfs`fdsNext, vfs.fds, vfs.inodes
    ensures vfs.Valid() && FromFlash(vfs.View()) && fd == OpenStep(old(vfs.View()), name).ret
    ensures fd < 0 ==> vfs.View() == old(vfs.View())
    ensures fd >= 0 ==>
              && vfs.View() == HeaderRead(old(vfs.View()), name) && FdOk(fd)
              && Found(old(vfs.View()), name) < |old(vfs.View()).inodes|
              && size == DataSize(vfs.flash, old(vfs.View()).inodes[Found(old(vfs.View()), name)].image.start)
  {
    hide FromFlash;
    ghost var t := vfs.View();
    size := 0;
    fd := vfs.Open(name);
    if fd >= 0 {
      HeaderReadExact(t, name);
      HeaderReadFromFlash(t, name);
      OpenedFacts(t, name);
      FileFacts(t, Found(t, name));
      var hdr := new Byte[HEADER_SIZE];
      var ret := vfs.Read(fd, hdr, HEADER_SIZE);
      if ret != HEADER_SIZE {
        assert false;
      }
      size := Be32(hdr[..], 12);
    }
  }

  /** The read of the data; the "Failed to read executable" branch is dead. */
  method ReadImage(vfs: FileSystem, ghost t: Table, ghost name: Bytes, fd: int, size: nat) returns (blob: array<Byte>)
    requires vfs.Valid() && Inv(t) && FromFlash(t) && OpenStep(t, name).ret >= 0 && fd == OpenStep(t, name).ret && FdOk(fd)
    requires vfs.View() == HeaderRead(t, name)
    requires Found(t, name) < |t.inodes| && size == DataSize(t.flash, t.inodes[Found(t, name)].image.start)
    modifies vfs.fds
    ensures vfs.Valid() && FromFlash(vfs.View()) && fresh(blob) && blob[..] == DataOf(t, Found(t, name))
    ensures vfs.View() == ReadStep(HeaderRead(t, name), fd, size).table
  {
    FileFacts(t, Found(t, name));
    OpenedFacts(t, name);
    DataReadExact(t, name);
    HeaderReadFromFlash(t, name);
    StepFromFlash(HeaderRead(t, name), Read(fd, size));
    blob := new Byte[size];
    var ret := vfs.Read(fd, blob, size);
    if ret != size {
      assert false;
    }
  }

  /** Only a descriptor number was used up. */
  function ClosedAgain(t: Table): Table
    requires Shape(t) && t.next < FDS_MAX
  {
    t.(next := t.next + 1, fds := t.fds[t.next := Desc(NULL, 0, 0)])
  }

  /** `now` differs from the freshly opened state in the offset of the new descriptor at most. */
  ghost predicate OpenedFor(t: Table, name: Bytes, now: Table, d: Desc)
    requires Inv(t)
  {
    && OpenStep(t, name).ret >= 0 && d.file == Found(t, name)
    && var t1 := OpenStep(t, name).table;
       t.next < FDS_MAX == |t1.fds| && now == t1.(fds := t1.fds[t.next := d])
  }

  lemma HeaderReadShape(t: Table, name: Bytes) returns (d: Desc)
    requires Inv(t) && OpenStep(t, name).ret >= 0
    ensures OpenedFor(t, name, HeaderRead(t, name), d)
  {
    OpenedFacts(t, name);
    d := HeaderRead(t, name).fds[t.next];
  }

  lemma DataReadShape(t: Table, name: Bytes, size: nat) returns (d: Desc)
    requires Inv(t) && OpenStep(t, name).ret >= 0 && FdOk(OpenStep(t, name).ret)
    ensures OpenedFor(t, name, ReadStep(HeaderRead(t, name), OpenStep(t, name).ret, size).table, d)
  {
    var d0 := HeaderReadShape(t, name);
    OpenedFacts(t, name);
    d := ReadStep(HeaderRead(t, name), OpenStep(t, name).ret, size).table.fds[t.next];
  }

  /** `vfs_close` after the reads. */
  method CloseImage(vfs: FileSystem, ghost t: Table, ghost name: Bytes, fd: int, ghost d: Desc)
    requires vfs.Valid() && FromFlash(vfs.View()) && Inv(t) && OpenedFor(t, name, vfs.View(), d) && fd == OpenStep(t, name).ret
    modifies vfs.fds, vfs.inodes
    ensures vfs.Valid() && FromFlash(vfs.View()) && t.next < FDS_MAX && vfs.View() == ClosedAgain(t)
  {
    CloseRestores(t, name, d);
    StepFromFlash(vfs.View(), Close(fd));
    var ret := vfs.Close(fd);
  }
}
