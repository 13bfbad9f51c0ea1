/** The pseudo file system on its tables: inodes parsed from flash, descriptors, reads. */
module Vfs {
  import opened Flash
  import opened Files

  class FileSystem {
    const flash: Bytes
    const inodes: array<Inode>
    const fds: array<Desc>
    var vfsNext: nat
    var fdsNext: nat

    ghost predicate Laid()
      reads this
    {
      inodes.Length == MAX_FILES && fds.Length == FDS_MAX && vfsNext <= MAX_FILES && |flash| < 0x1_0000_0000
    }

    ghost function View(): Table
      requires Laid()
      reads this, inodes, fds
    {
      Table(flash, inodes[..vfsNext], fds[..], fdsNext)
    }

    ghost predicate Valid()
      reads this, inodes, fds
    {
      Laid() && Inv(View())
    }

    /** Empty tables, as `kmalloc` and `memset` leave them. */
    constructor (flash: Bytes)
      requires |flash| < 0x1_0000_0000
      ensures this.flash == flash && Laid() && vfsNext == 0 && fdsNext == 0 && fresh(inodes) && fresh(fds)
      ensures forall i | 0 <= i < FDS_MAX :: fds[i] == Desc(NULL, 0, 0)
    {
      this.flash := flash;
      inodes := new Inode[MAX_FILES](i => Inode(Image([], 0, 0), 0));
      fds := new Desc[FDS_MAX](i => Desc(NULL, 0, 0));
      vfsNext, fdsNext := 0, 0;
    }

    /** `parse_flash` on the `size` bytes from `base` to the end of the device. */
    method ParseFlash(base: nat, size: nat)
      requires Laid() && base + size == |flash|
      modifies this`vfsNext, inodes
      ensures Laid() && old(vfsNext) <= vfsNext
      ensures inodes[..vfsNext] == old(inodes[..vfsNext]) + Inodes(Parse(flash, base, MAX_FILES - old(vfsNext)))
      decreases size
    {
      hide Parse, Inodes, Be32;
      if vfsNext == MAX_FILES || !WellFormed(flash, base) {
        InodesStop(flash, base, MAX_FILES - vfsNext);
      }
      if size < HEADER_SIZE {
        return;
      }
      if vfsNext == MAX_FILES {
        return;
      }
      var rest := size - HEADER_SIZE;
      if Be32(flash, base) == IH_MAGIC {
        if flash[base + 29] != IH_ARCH_ARM64 {
          return;
        }
        if flash[base + 31] != IH_COMP_NONE {
          return;
        }
        var data := Be32(flash, base + 12);
        if data > rest {
          return;
        }
        InodesMore(flash, base, MAX_FILES - vfsNext);
        Record(base, HEADER_SIZE + data);
        ParseFlash(base + HEADER_SIZE + data, rest - data);
      }
    }

    /** The image at `base` goes into the next inode. */
    method Record(base: nat, blob: nat)
      requires Laid() && vfsNext < MAX_FILES && base + HEADER_SIZE <= |flash|
      modifies this`vfsNext, inodes
      ensures Laid() && vfsNext == old(vfsNext) + 1
      ensures inodes[..vfsNext] == old(inodes[..vfsNext]) + [Inode(Image(flash[base + 32..base + 64], base, blob), 0)]
    {
      inodes[vfsNext] := Inode(Image(flash[base + 32..base + 64], base, blob), 0);
      vfsNext := vfsNext + 1;
    }

    /** The parsing step of `vfs_init`. */
    method Init()
      requires Laid() && vfsNext == 0 && fdsNext == 0
      requires forall i | 0 <= i < FDS_MAX :: fds[i] == Desc(NULL, 0, 0)
      modifies this`vfsNext, inodes
      ensures Valid() && View() == Boot(flash)
    {
      hide Inv, Parse, Inodes;
      ParseFlash(0, |flash|);
      InitialInv(flash);
      assert View() == Initial(flash);
    }

    /** Compares two names up to their terminator or 32 characters. */
    static method SameName(a: Bytes, b: Bytes) returns (same: bool)
      ensures same <==> Cut(a) == Cut(b)
    {
      var i := 0;
      while i < NAME_LENGTH
        invariant i <= NAME_LENGTH && i <= |a| && i <= |b| && a[..i] == b[..i] && 0 !in a[..i]
        invariant a[..i] <= Cut(a) && b[..i] <= Cut(b)
      {
        CutNext(a, i);
        CutNext(b, i);
        var x: int := if i < |a| then a[i] else 0;
        var y: int := if i < |b| then b[i] else 0;
        if x != y {
          return false;
        }
        if x == 0 {
          return true;
        }
        i := i + 1;
      }
      same := true;
    }

    static lemma CutNext(a: Bytes, i: nat)
      requires i < NAME_LENGTH && i <= |a| && 0 !in a[..i] && a[..i] <= Cut(a)
      ensures i < |a| && a[i] != 0 ==> i < |Cut(a)| && Cut(a)[i] == a[i] && a[..i + 1] <= Cut(a)
      ensures i == |a| || a[i] == 0 ==> Cut(a) == a[..i]
    {
      assert |Cut(a)| > i ==> Cut(a)[i] in Cut(a);
    }

    /** `create_fd` */
    method CreateFd(node: nat) returns (fd: int)
      requires Laid() && node < vfsNext && fdsNext <= FDS_MAX
      modifies this`fdsNext, fds, inodes
      ensures fd == if old(fdsNext) >= FDS_MAX then -1 else old(fdsNext)
      ensures fd == -1 ==> View() == old(View())
      ensures fd != -1 ==> View() == old(View()).(
                inodes := WithRefcount(old(View()).inodes, node, old(inodes[node].refcount) + 1),
                fds := old(View()).fds[fd := Desc(node, 0, fd)], next := old(fdsNext) + 1)
    {
      if fdsNext >= FDS_MAX {
        return -1;
      }
      fds[fdsNext] := Desc(node, 0, fdsNext);
      inodes[node] := inodes[node].(refcount := inodes[node].refcount + 1);
      fdsNext := fdsNext + 1;
      fd := fdsNext - 1;
    }

    /** The search loop of `vfs_open`. */
    method FindInode(name: Bytes) returns (i: nat)
      requires Laid()
      ensures i == Lookup(inodes[..vfsNext], name)
    {
      i := 0;
      while i < vfsNext
        invariant i <= vfsNext && Lookup(inodes[..vfsNext], name) == i + Lookup(inodes[..vfsNext][i..], name)
      {
        assert inodes[..vfsNext][i..][1..] == inodes[..vfsNext][i + 1..];
        var same := SameName(name, inodes[i].image.name);
        if same {
          return;
        }
        i := i + 1;
      }
    }

    /** `vfs_open` */
    method Open(name: Bytes) returns (fd: int)
      requires Valid()
      modifies this`fdsNext, fds, inodes
      ensures Valid() && View() == OpenStep(old(View()), name).table && fd == OpenStep(old(View()), name).ret
    {
      OpenInv(View(), name);
      hide Inv, Lookup;
      var i := FindInode(name);
      fd := -1;
      if i < vfsNext {
        fd := CreateFd(i);
      }
      assert View() == OpenStep(old(View()), name).table;
    }

    /** `get_descriptor`: a slot of the table or null. */
    method GetDescriptor(fd: int) returns (slot: int)
      requires Laid() && FdOk(fd)
      ensures slot == if IsOpen(View(), fd) then fd else NULL
    {
      // a negative number compares as a large unsigned one
      if fd < 0 || fd > FDS_MAX {
        return NULL;
      }
      if fds[fd].file == NULL {
        return NULL;
      }
      slot := fd;
    }

    /** `delete_fd`, which is all `vfs_close` does. */
    method Close(fd: int) returns (ret: int)
      requires Valid() && FdOk(fd)
      modifies fds, inodes
      ensures Valid() && View() == CloseStep(old(View()), fd).table && ret == CloseStep(old(View()), fd).ret
    {
      CloseInv(View(), fd);
      var slot := GetDescriptor(fd);
      if slot == NULL {
        return -1;
      }
      CountPositive(fds[..], slot, fds[slot].file);
      var node := fds[slot].file;
      inodes[node] := inodes[node].(refcount := inodes[node].refcount - 1);
      fds[slot] := Desc(NULL, 0, 0);
      ret := 0;
      assert View() == CloseStep(old(View()), fd).table;
    }

    /** `vfs_read` into the front of `buf`. */
    method Read(fd: int, buf: array<Byte>, size: nat) returns (ret: int)
      requires Valid() && FdOk(fd) && size <= buf.Length
      requires IsOpen(View(), fd) ==> fds[fd].offset + size < 0x1_0000_0000
      modifies fds, buf
      ensures var r := ReadStep(old(View()), fd, size);
              && Valid() && View() == r.table && ret == r.ret
              && |r.data| <= size && buf[..] == r.data + old(buf[..])[|r.data|..]
    {
      ReadInv(View(), fd, size);
      var slot := GetDescriptor(fd);
      if slot == NULL || fds[slot].file == NULL {
        return -1;
      }
      var d := fds[slot];
      var im := inodes[d.file].image;
      assert DescOk(View(), slot) && View().inodes[d.file] in View().inodes;
      var n := size;
      if d.offset + n > im.size {
        n := im.size - d.offset;
      }
      forall i | 0 <= i < n {
        buf[i] := flash[im.start + d.offset + i];
      }
      fds[slot] := d.(offset := d.offset + n);
      ret := n;
      assert View() == ReadStep(old(View()), fd, size).table;
    }
  }
}
