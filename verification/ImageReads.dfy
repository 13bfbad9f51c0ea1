/**
 What the task loader gets when it reads an image the flash parser accepted: the header is complete, the
 data is exactly as long as the header says, and closing the file undoes opening it.
 */
module ImageReads {
  import opened Flash
  import opened Files

  /** Every inode is an image the flash parser found. */
  ghost predicate FromFlash(t: Table) {
    forall n | n in t.inodes :: WellFormed(t.flash, n.image.start) && n.image == ImageAt(t.flash, n.image.start)
  }

  lemma InitialFromFlash(flash: Bytes)
    ensures FromFlash(Boot(flash))
  {
    var imgs := Parse(flash, 0, MAX_FILES);
    ParseIsChain(flash, 0, MAX_FILES);
    ChainLayout(flash, 0, imgs);
    forall n | n in Boot(flash).inodes
      ensures WellFormed(flash, n.image.start) && n.image == ImageAt(flash, n.image.start)
    {
      var i :| 0 <= i < |imgs| && Boot(flash).inodes[i] == n;
    }
  }

  lemma StepFromFlash(t: Table, op: Op)
    requires Inv(t) && Legal(op) && FromFlash(t)
    ensures FromFlash(Step(t, op).table)
  {
    var t' := Step(t, op).table;
    forall n | n in t'.inodes
      ensures WellFormed(t'.flash, n.image.start) && n.image == ImageAt(t'.flash, n.image.start)
    {
      var i :| 0 <= i < |t'.inodes| && t'.inodes[i] == n;
      assert t.inodes[i] in t.inodes && t'.inodes[i].image == t.inodes[i].image;
    }
  }

  /** The data behind the header of a file. */
  function DataOf(t: Table, k: nat): (d: Bytes)
    requires k < |t.inodes| && t.inodes[k].image.size >= HEADER_SIZE
    requires t.inodes[k].image.start + t.inodes[k].image.size <= |t.flash|
  {
    var im := t.inodes[k].image;
    t.flash[im.start + HEADER_SIZE..im.start + im.size]
  }

  lemma FileFacts(t: Table, k: nat)
    requires Inv(t) && FromFlash(t) && k < |t.inodes|
    ensures t.inodes[k].image.size >= HEADER_SIZE
    ensures t.inodes[k].image.start + t.inodes[k].image.size <= |t.flash|
    ensures WellFormed(t.flash, t.inodes[k].image.start)
    ensures |DataOf(t, k)| == DataSize(t.flash, t.inodes[k].image.start)
  {
    assert t.inodes[k] in t.inodes;
  }

  lemma OpenedFacts(t: Table, name: Bytes)
    requires Inv(t) && OpenStep(t, name).ret >= 0
    ensures var (t1, fd, k) := (OpenStep(t, name).table, OpenStep(t, name).ret, Lookup(t.inodes, name));
            && Inv(t1) && 0 <= fd < FDS_MAX && k < |t.inodes| && t1.fds[fd] == Desc(k, 0, fd)
            && t1.flash == t.flash && |t1.inodes| == |t.inodes| && t1.inodes[k].image == t.inodes[k].image
            && t.fds[fd].file == NULL && t1.fds == t.fds[fd := Desc(k, 0, fd)]
  {
    OpenInv(t, name);
    assert DescOk(t, t.next);
  }

  /** The first read of a header delivers all 64 bytes, and with them the size of the data. */
  lemma HeaderReadExact(t: Table, name: Bytes)
    requires Inv(t) && FromFlash(t) && OpenStep(t, name).ret >= 0
    ensures Inv(OpenStep(t, name).table) && FdOk(OpenStep(t, name).ret)
    ensures var k := Lookup(t.inodes, name);
            var r := ReadStep(OpenStep(t, name).table, OpenStep(t, name).ret, HEADER_SIZE);
            && k < |t.inodes| && t.inodes[k].image.size >= HEADER_SIZE
            && t.inodes[k].image.start + t.inodes[k].image.size <= |t.flash|
            && r.ret == HEADER_SIZE && |r.data| == HEADER_SIZE && Be32(r.data, 12) == |DataOf(t, k)|
  {
    OpenedFacts(t, name);
    var t1, fd, k := OpenStep(t, name).table, OpenStep(t, name).ret, Lookup(t.inodes, name);
    FileFacts(t, k);
    var im := t.inodes[k].image;
    var d := ReadStep(t1, fd, HEADER_SIZE).data;
    assert d == t.flash[im.start..im.start + HEADER_SIZE];
    Be32Within(t.flash, d, im.start, 12);
  }

  /** The second read delivers exactly the data. */
  lemma DataReadExact(t: Table, name: Bytes)
    requires Inv(t) && FromFlash(t) && OpenStep(t, name).ret >= 0
    ensures Inv(OpenStep(t, name).table) && FdOk(OpenStep(t, name).ret)
    ensures Inv(ReadStep(OpenStep(t, name).table, OpenStep(t, name).ret, HEADER_SIZE).table)
    ensures var k := Lookup(t.inodes, name);
            && k < |t.inodes| && t.inodes[k].image.size >= HEADER_SIZE
            && t.inodes[k].image.start + t.inodes[k].image.size <= |t.flash|
            && var t2 := ReadStep(OpenStep(t, name).table, OpenStep(t, name).ret, HEADER_SIZE).table;
               var r := ReadStep(t2, OpenStep(t, name).ret, |DataOf(t, k)|);
               r.ret == |DataOf(t, k)| && r.data == DataOf(t, k) && t2.fds[OpenStep(t, name).ret].offset == HEADER_SIZE
  {
    hide OpenStep, FromFlash, Opened, Lookup;
    OpenedFacts(t, name);
    HeaderReadExact(t, name);
    var fd, k := OpenStep(t, name).ret, Lookup(t.inodes, name);
    FileFacts(t, k);
    ReadInv(OpenStep(t, name).table, fd, HEADER_SIZE);
  }

  /** After opening, any reads of that descriptor, and closing, only the descriptor number is used up. */
  lemma CloseRestores(t: Table, name: Bytes, d: Desc)
    requires Inv(t) && OpenStep(t, name).ret >= 0 && d.file == Lookup(t.inodes, name)
    requires var t1 := OpenStep(t, name).table; Inv(t1.(fds := t1.fds[t.next := d]))
    ensures OpenStep(t, name).ret == t.next < FDS_MAX
    ensures var t1 := OpenStep(t, name).table;
            CloseStep(t1.(fds := t1.fds[t.next := d]), t.next).table
            == t.(next := t.next + 1, fds := t.fds[t.next := Desc(NULL, 0, 0)])
  {
    OpenedFacts(t, name);
    var t1 := OpenStep(t, name).table;
    var t2 := CloseStep(t1.(fds := t1.fds[t.next := d]), t.next).table;
    assert t2.inodes == t.inodes;
  }
}
