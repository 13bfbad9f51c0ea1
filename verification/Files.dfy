/** Open files on values: inodes with reference counts, descriptors with offsets, and runs of file operations. */
module Files {
  import opened Flash

  const FDS_MAX: nat := 100

  /** A null file pointer; any other is an index into the inodes. */
  const NULL: int := -1

  datatype Inode = Inode(image: Image, refcount: nat)

  datatype Desc = Desc(file: int, offset: nat, fd: nat)

  /** `next` is the first descriptor never handed out. */
  datatype Table = Table(flash: Bytes, inodes: seq<Inode>, fds: seq<Desc>, next: nat)

  /** The new state, the return value, and the bytes a read delivers. */
  datatype Reply = Reply(table: Table, ret: int, data: Bytes)

  datatype Op = Open(name: Bytes) | Read(fd: int, size: nat) | Close(fd: int)

  // ---------------------------------------------------------------- names

  /** The part of a name `strncmp` looks at: up to the first NUL or 32 characters. */
  function Cut(name: Bytes): (c: Bytes)
    ensures c <= name && |c| <= NAME_LENGTH && 0 !in c
    ensures |c| < |name| && |c| < NAME_LENGTH ==> name[|c|] == 0
  {
    CutAt(name, 0)
  }

  function CutAt(name: Bytes, i: nat): (c: Bytes)
    requires i <= |name| && i <= NAME_LENGTH && 0 !in name[..i]
    ensures c <= name && i <= |c| <= NAME_LENGTH && 0 !in c
    ensures |c| < |name| && |c| < NAME_LENGTH ==> name[|c|] == 0
    decreases NAME_LENGTH - i
  {
    if i == |name| || i == NAME_LENGTH || name[i] == 0 then name[..i]
    else
      assert name[..i + 1] == name[..i] + [name[i]];
      CutAt(name, i + 1)
  }

  /** The first inode of that name, or the number of inodes. */
  function Lookup(inodes: seq<Inode>, name: Bytes): (i: nat)
    ensures i <= |inodes| && (i < |inodes| ==> Cut(inodes[i].image.name) == Cut(name))
    ensures forall j | 0 <= j < i :: Cut(inodes[j].image.name) != Cut(name)
  {
    if inodes == [] || Cut(inodes[0].image.name) == Cut(name) then 0 else 1 + Lookup(inodes[1..], name)
  }

  // ---------------------------------------------------------------- operations

  ghost predicate Shape(t: Table) {
    && |t.fds| == FDS_MAX && t.next <= FDS_MAX
    && forall i | 0 <= i < FDS_MAX :: t.fds[i].file == NULL || 0 <= t.fds[i].file < |t.inodes|
  }

  /** `get_descriptor` accepts 100 and then reads behind the table; no caller may pass it. */
  predicate FdOk(fd: int) {
    fd != FDS_MAX
  }

  predicate IsOpen(t: Table, fd: int)
    requires |t.fds| == FDS_MAX && FdOk(fd)
  {
    0 <= fd <= FDS_MAX && t.fds[fd].file != NULL
  }

  function WithRefcount(inodes: seq<Inode>, k: nat, n: nat): seq<Inode>
    requires k < |inodes|
  {
    inodes[k := inodes[k].(refcount := n)]
  }

  function OpenStep(t: Table, name: Bytes): Reply
    requires Shape(t)
  {
    var k := Lookup(t.inodes, name);
    if k == |t.inodes| || t.next >= FDS_MAX then Reply(t, -1, [])
    else
      Reply(t.(inodes := WithRefcount(t.inodes, k, t.inodes[k].refcount + 1),
               fds := t.fds[t.next := Desc(k, 0, t.next)], next := t.next + 1), t.next, [])
  }

  ghost function CloseStep(t: Table, fd: int): Reply
    requires Inv(t) && FdOk(fd)
  {
    if !IsOpen(t, fd) then Reply(t, -1, [])
    else
      var k := t.fds[fd].file;
      CountPositive(t.fds, fd, k);
      Reply(t.(inodes := WithRefcount(t.inodes, k, t.inodes[k].refcount - 1), fds := t.fds[fd := Desc(NULL, 0, 0)]), 0, [])
  }

  /** How many bytes a read of `size` delivers. */
  function Count(t: Table, fd: int, size: nat): (n: int)
    requires Shape(t) && FdOk(fd) && IsOpen(t, fd)
  {
    var d := t.fds[fd];
    if d.offset + size > t.inodes[d.file].image.size then t.inodes[d.file].image.size - d.offset else size
  }

  ghost function ReadStep(t: Table, fd: int, size: nat): Reply
    requires Inv(t) && FdOk(fd)
  {
    if !IsOpen(t, fd) then Reply(t, -1, [])
    else
      var d := t.fds[fd];
      var n := Count(t, fd, size);
      var at := t.inodes[d.file].image.start + d.offset;
      assert DescOk(t, fd) && t.inodes[d.file] in t.inodes;
      Reply(t.(fds := t.fds[fd := d.(offset := d.offset + n)]), n, t.flash[at..at + n])
  }

  ghost predicate Legal(op: Op) {
    match op
    case Open(_) => true
    case Read(fd, _) => FdOk(fd)
    case Close(fd) => FdOk(fd)
  }

  ghost function Step(t: Table, op: Op): Reply
    requires Inv(t) && Legal(op)
  {
    match op
    case Open(name) => OpenStep(t, name)
    case Read(fd, size) => ReadStep(t, fd, size)
    case Close(fd) => CloseStep(t, fd)
  }

  // ---------------------------------------------------------------- invariant

  function Opened(fds: seq<Desc>, k: nat): nat {
    if fds == [] then 0 else (if fds[0].file == k then 1 else 0) + Opened(fds[1..], k)
  }

  ghost predicate DescOk(t: Table, i: nat)
    requires Shape(t) && i < FDS_MAX
  {
    && (i >= t.next ==> t.fds[i].file == NULL)
    && (t.fds[i].file != NULL ==> t.fds[i].fd == i && t.fds[i].offset <= t.inodes[t.fds[i].file].image.size)
  }

  /** Reference counts count the open descriptors, and no offset lies behind its blob. */
  ghost predicate Inv(t: Table) {
    && Shape(t)
    && (forall i: nat | i < FDS_MAX :: DescOk(t, i))
    && (forall n | n in t.inodes :: n.image.start + n.image.size <= |t.flash|)
    && CountsRight(t.inodes, t.fds)
  }

  lemma {:induction false} OpenedUpdate(fds: seq<Desc>, i: nat, d: Desc, k: nat)
    requires i < |fds|
    ensures Opened(fds[i := d], k) + (if fds[i].file == k then 1 else 0)
         == Opened(fds, k) + (if d.file == k then 1 else 0)
  {
    if i > 0 {
      assert fds[i := d][1..] == fds[1..][i - 1 := d];
      OpenedUpdate(fds[1..], i - 1, d, k);
    } else {
      assert fds[i := d][1..] == fds[1..];
    }
  }

  lemma {:induction false} CountPositive(fds: seq<Desc>, i: nat, k: nat)
    requires i < |fds| && fds[i].file == k
    ensures Opened(fds, k) >= 1
  {
    if i > 0 {
      CountPositive(fds[1..], i - 1, k);
    }
  }

  lemma {:induction false} NoneOpened(fds: seq<Desc>, k: nat)
    requires forall d | d in fds :: d.file == NULL
    ensures Opened(fds, k) == 0
  {
    if fds != [] {
      NoneOpened(fds[1..], k);
    }
  }

  ghost predicate CountsRight(inodes: seq<Inode>, fds: seq<Desc>) {
    forall k: nat | k < |inodes| :: inodes[k].refcount == Opened(fds, k)
  }

  /** Opening or closing one descriptor and moving one reference count by one keeps the counts right. */
  lemma CountsKept(t: Table, i: nat, d: Desc, k: nat, n: int)
    requires Inv(t) && i < FDS_MAX && k < |t.inodes| && t.inodes[k].refcount + n >= 0
    requires (n == 1 && t.fds[i].file == NULL && d.file == k) || (n == -1 && t.fds[i].file == k && d.file == NULL)
    ensures CountsRight(WithRefcount(t.inodes, k, t.inodes[k].refcount + n), t.fds[i := d])
  {
    var s := WithRefcount(t.inodes, k, t.inodes[k].refcount + n);
    forall j: nat | j < |s|
      ensures s[j].refcount == Opened(t.fds[i := d], j)
    {
      OpenedUpdate(t.fds, i, d, j);
    }
  }

  lemma OpenInv(t: Table, name: Bytes)
    requires Inv(t)
    ensures Inv(OpenStep(t, name).table)
  {
    var k := Lookup(t.inodes, name);
    if k < |t.inodes| && t.next < FDS_MAX {
      assert DescOk(t, t.next);
      CountsKept(t, t.next, Desc(k, 0, t.next), k, 1);
      var t' := OpenStep(t, name).table;
      forall i: nat | i < FDS_MAX
        ensures DescOk(t', i)
      {
        assert DescOk(t, i);
      }
      ImagesKept(t, k, t.inodes[k].refcount + 1);
    }
  }

  lemma ImagesKept(t: Table, k: nat, n: nat)
    requires Inv(t) && k < |t.inodes|
    ensures forall i | i in WithRefcount(t.inodes, k, n) :: i.image.start + i.image.size <= |t.flash|
  {
    var s := WithRefcount(t.inodes, k, n);
    forall i | i in s
      ensures i.image.start + i.image.size <= |t.flash|
    {
      var j :| 0 <= j < |s| && s[j] == i;
      assert t.inodes[j] in t.inodes;
    }
  }

  lemma CloseInv(t: Table, fd: int)
    requires Inv(t) && FdOk(fd)
    ensures Inv(CloseStep(t, fd).table)
  {
    if IsOpen(t, fd) {
      var k := t.fds[fd].file;
      CountPositive(t.fds, fd, k);
      CountsKept(t, fd, Desc(NULL, 0, 0), k, -1);
      ImagesKept(t, k, t.inodes[k].refcount - 1);
      var t' := CloseStep(t, fd).table;
      forall i: nat | i < FDS_MAX
        ensures DescOk(t', i)
      {
        assert DescOk(t, i);
      }
    }
  }

  lemma ReadInv(t: Table, fd: int, size: nat)
    requires Inv(t) && FdOk(fd)
    ensures Inv(ReadStep(t, fd, size).table)
  {
    if IsOpen(t, fd) {
      var t' := ReadStep(t, fd, size).table;
      var d := t'.fds[fd];
      assert DescOk(t, fd);
      forall k: nat | k < |t.inodes|
        ensures t'.inodes[k].refcount == Opened(t'.fds, k)
      {
        OpenedUpdate(t.fds, fd, d, k);
      }
      forall i: nat | i < FDS_MAX
        ensures DescOk(t', i)
      {
        assert DescOk(t, i);
      }
    }
  }

  lemma StepInv(t: Table, op: Op)
    requires Inv(t) && Legal(op)
    ensures Inv(Step(t, op).table)
  {
    match op
    case Open(name) => OpenInv(t, name);
    case Read(fd, size) => ReadInv(t, fd, size);
    case Close(fd) => CloseInv(t, fd);
  }

  // ---------------------------------------------------------------- what the operations return

  /** A read of an open descriptor delivers what was asked for or what is left, from its offset on, and moves the offset by it. */
  lemma ReadReturns(t: Table, fd: int, size: nat)
    requires Inv(t) && fd != 100
    ensures fd < 0 || fd > 100 || t.fds[fd].file == -1 ==> ReadStep(t, fd, size) == Reply(t, -1, [])
    ensures 0 <= fd < 100 && t.fds[fd].file != -1 ==>
              var (d, im) := (t.fds[fd], t.inodes[t.fds[fd].file].image);
              && d.offset <= im.size && im.start + im.size <= |t.flash|
              && var n := if size < im.size - d.offset then size else im.size - d.offset;
                 ReadStep(t, fd, size) == Reply(t.(fds := t.fds[fd := d.(offset := d.offset + n)]), n,
                                                t.flash[im.start + d.offset..][..n])
  {
    hide Opened;
    if 0 <= fd < 100 && t.fds[fd].file != -1 {
      assert DescOk(t, fd) && t.inodes[t.fds[fd].file] in t.inodes;
    }
  }

  /** Opening takes the first file of that name and a new number, of which there are 100; names are compared up to a NUL or 32 characters. */
  lemma OpenReturns(t: Table, name: Bytes, k: nat)
    requires Inv(t) && k <= |t.inodes| && forall j | 0 <= j < k :: Cut(t.inodes[j].image.name) != Cut(name)
    requires k < |t.inodes| ==> Cut(t.inodes[k].image.name) == Cut(name)
    ensures var c := Cut(name);
            c <= name && |c| <= 32 && 0 !in c && (|c| < |name| && |c| < 32 ==> name[|c|] == 0)
    ensures k == |t.inodes| || t.next == 100 ==> OpenStep(t, name) == Reply(t, -1, [])
    ensures k < |t.inodes| && t.next != 100 ==>
              var n := t.inodes[k];
              && t.next < 100
              && OpenStep(t, name) == Reply(Table(t.flash, t.inodes[k := n.(refcount := n.refcount + 1)],
                                                  t.fds[t.next := Desc(k, 0, t.next)], t.next + 1), t.next, [])
  {
    hide Cut, Opened;
  }

  lemma CloseReturns(t: Table, fd: int)
    requires Inv(t) && fd != 100
    ensures fd < 0 || fd > 100 || t.fds[fd].file == -1 ==> CloseStep(t, fd) == Reply(t, -1, [])
    ensures 0 <= fd < 100 && t.fds[fd].file != -1 ==>
              var k := t.fds[fd].file;
              var n := t.inodes[k];
              && n.refcount >= 1
              && CloseStep(t, fd) == Reply(Table(t.flash, t.inodes[k := n.(refcount := n.refcount - 1)],
                                                 t.fds[fd := Desc(-1, 0, 0)], t.next), 0, [])
  {
    if 0 <= fd < 100 && t.fds[fd].file != -1 {
      CountPositive(t.fds, fd, t.fds[fd].file);
    }
  }

  // ---------------------------------------------------------------- runs

  ghost predicate AllLegal(ops: seq<Op>) {
    forall op | op in ops :: Legal(op)
  }

  ghost function Exec(t: Table, ops: seq<Op>): (r: Table)
    requires Inv(t) && AllLegal(ops)
    ensures Inv(r)
    decreases |ops|
  {
    if ops == [] then t
    else
      StepInv(t, ops[0]);
      Exec(Step(t, ops[0]).table, ops[1..])
  }

  /** Unreferenced inodes for a list of images. */
  function Inodes(imgs: seq<Image>): (s: seq<Inode>)
    ensures |s| == |imgs| && forall i | 0 <= i < |imgs| :: s[i] == Inode(imgs[i], 0)
  {
    seq(|imgs|, i requires 0 <= i < |imgs| => Inode(imgs[i], 0))
  }

  lemma InodesStop(flash: Bytes, at: nat, room: nat)
    requires room == 0 || !WellFormed(flash, at)
    ensures Inodes(Parse(flash, at, room)) == []
  {
  }

  lemma InodesMore(flash: Bytes, at: nat, room: nat)
    requires room > 0 && WellFormed(flash, at)
    ensures var i := ImageAt(flash, at);
            Inodes(Parse(flash, at, room)) == [Inode(i, 0)] + Inodes(Parse(flash, at + i.size, room - 1))
  {
  }

  /** The state `vfs_init` leaves: the parsed images, nothing open. */
  function Initial(flash: Bytes): Table {
    Table(flash, Inodes(Parse(flash, 0, MAX_FILES)), seq(FDS_MAX, _ => Desc(NULL, 0, 0)), 0)
  }

  lemma InitialInv(flash: Bytes)
    ensures Inv(Initial(flash))
  {
    var imgs := Parse(flash, 0, MAX_FILES);
    var t := Initial(flash);
    ParseIsChain(flash, 0, MAX_FILES);
    ChainLayout(flash, 0, imgs);
    forall k: nat | k < |t.inodes|
      ensures t.inodes[k].refcount == Opened(t.fds, k)
    {
      NoneOpened(t.fds, k);
    }
  }

  /** All 100 descriptors are free, none has been handed out, and the files are at most 64 images, not referred to. */
  lemma NothingOpen(flash: Bytes)
    ensures var t := Initial(flash);
            && t.flash == flash && t.next == 0 && |t.fds| == 100 && (forall d | d in t.fds :: d.file == -1)
            && |t.inodes| <= 64 && forall n | n in t.inodes :: n.refcount == 0
  {
    ParseIsChain(flash, 0, MAX_FILES);
  }

  ghost function Boot(flash: Bytes): (t: Table)
    ensures Inv(t)
  {
    InitialInv(flash);
    Initial(flash)
  }

  /** In every reachable state the reference count of a file is the number of descriptors open on it. */
  lemma RefcountsExact(flash: Bytes, ops: seq<Op>, k: nat)
    requires AllLegal(ops) && k < |Exec(Boot(flash), ops).inodes|
    ensures var t := Exec(Boot(flash), ops);
            t.inodes[k].refcount == Opened(t.fds, k) && t.inodes[k].image in Parse(flash, 0, MAX_FILES)
  {
    ImagesFixed(Boot(flash), ops);
    var t := Exec(Boot(flash), ops);
    assert t.inodes[k].image == Parse(flash, 0, MAX_FILES)[k];
  }

  lemma {:induction false} ImagesFixed(t: Table, ops: seq<Op>)
    requires Inv(t) && AllLegal(ops)
    ensures |Exec(t, ops).inodes| == |t.inodes| && Exec(t, ops).flash == t.flash
    ensures forall k | 0 <= k < |t.inodes| :: Exec(t, ops).inodes[k].image == t.inodes[k].image
    decreases |ops|
  {
    if ops != [] {
      StepInv(t, ops[0]);
      ImagesFixed(Step(t, ops[0]).table, ops[1..]);
    }
  }

  /** A descriptor handed out once is never handed out again, and once closed it stays closed. */
  lemma {:induction false} NeverReused(t: Table, ops: seq<Op>, fd: nat)
    requires Inv(t) && AllLegal(ops) && fd < t.next
    ensures t.next <= Exec(t, ops).next
    ensures t.fds[fd].file == NULL ==> Exec(t, ops).fds[fd].file == NULL
    ensures forall i, name | 0 <= i <= |ops| && OpenStep(Exec(t, ops[..i]), name).ret >= 0 ::
              OpenStep(Exec(t, ops[..i]), name).ret != fd
    decreases |ops|
  {
    if ops != [] {
      StepInv(t, ops[0]);
      var t' := Step(t, ops[0]).table;
      NeverReused(t', ops[1..], fd);
      forall i, name | 0 <= i <= |ops| && OpenStep(Exec(t, ops[..i]), name).ret >= 0
        ensures OpenStep(Exec(t, ops[..i]), name).ret != fd
      {
        if i > 0 {
          assert ops[..i][1..] == ops[1..][..i - 1];
          assert Exec(t, ops[..i]) == Exec(t', ops[1..][..i - 1]);
        }
      }
    }
  }

  /** The bytes the reads of one descriptor deliver over a run. */
  ghost function Delivered(t: Table, ops: seq<Op>, fd: nat): Bytes
    requires Inv(t) && AllLegal(ops)
    decreases |ops|
  {
    if ops == [] then []
    else
      StepInv(t, ops[0]);
      FromFd(t, ops[0], fd) + Delivered(Step(t, ops[0]).table, ops[1..], fd)
  }

  /** `fd` is still open on the same file in `t'`, and `data` are the bytes its offset moved over. */
  ghost predicate Follows(t: Table, t': Table, fd: nat, data: Bytes) {
    && Inv(t) && Inv(t') && fd < t.next <= t'.next && t.fds[fd].file != NULL
    && t'.fds[fd].file == t.fds[fd].file && t'.flash == t.flash
    && |t.inodes| == |t'.inodes| && t'.inodes[t.fds[fd].file].image == t.inodes[t.fds[fd].file].image
    && var im := t.inodes[t.fds[fd].file].image;
       t.fds[fd].offset <= t'.fds[fd].offset <= im.size && im.start + im.size <= |t.flash|
       && data == t.flash[im.start + t.fds[fd].offset..im.start + t'.fds[fd].offset]
  }

  ghost predicate IsLive(t: Table, fd: nat) {
    Inv(t) && fd < t.next && t.fds[fd].file != NULL
  }

  lemma FollowsSelf(t: Table, fd: nat)
    requires IsLive(t, fd)
    ensures Follows(t, t, fd, [])
  {
    assert DescOk(t, fd) && t.inodes[t.fds[fd].file] in t.inodes;
  }

  lemma FollowsOn(t: Table, t1: Table, t2: Table, fd: nat, a: Bytes, b: Bytes)
    requires Follows(t, t1, fd, a) && Follows(t1, t2, fd, b)
    ensures Follows(t, t2, fd, a + b)
  {
  }

  /** What one operation delivers from `fd`. */
  ghost function FromFd(t: Table, op: Op, fd: nat): Bytes
    requires Inv(t) && Legal(op)
  {
    if op.Read? && op.fd == fd then Step(t, op).data else []
  }

  lemma OneStepReads(t: Table, op: Op, fd: nat)
    requires IsLive(t, fd) && Legal(op) && op != Close(fd)
    ensures Follows(t, Step(t, op).table, fd, FromFd(t, op, fd)) && IsLive(Step(t, op).table, fd)
  {
    assert DescOk(t, fd) && t.inodes[t.fds[fd].file] in t.inodes;
    StepInv(t, op);
  }

  /** Reads of one descriptor, however they interleave with other operations, deliver its blob in order. */
  lemma {:induction false} ReadsInOrder(t: Table, ops: seq<Op>, fd: nat)
    requires IsLive(t, fd) && AllLegal(ops) && Close(fd) !in ops
    ensures Follows(t, Exec(t, ops), fd, Delivered(t, ops, fd))
    decreases |ops|
  {
    hide Follows;
    FollowsSelf(t, fd);
    if ops != [] {
      assert ops[0] in ops && Legal(ops[0]) && AllLegal(ops[1..]);
      StepInv(t, ops[0]);
      OneStepReads(t, ops[0], fd);
      hide Inv, Step, Legal, AllLegal, FromFd;
      ReadsInOrder(Step(t, ops[0]).table, ops[1..], fd);
      FollowsOn(t, Step(t, ops[0]).table, Exec(t, ops), fd, FromFd(t, ops[0], fd),
                Delivered(Step(t, ops[0]).table, ops[1..], fd));
    }
  }

  /** From a fresh open on, the bytes delivered are a prefix of the image, as long as the offset has moved. */
  lemma ReadsArePrefix(t: Table, name: Bytes, ops: seq<Op>)
    requires Inv(t) && OpenStep(t, name).ret >= 0 && AllLegal(ops) && Close(OpenStep(t, name).ret) !in ops
    ensures Inv(OpenStep(t, name).table)
    ensures var fd := OpenStep(t, name).ret;
            var im := t.inodes[Lookup(t.inodes, name)].image;
            var t' := Exec(OpenStep(t, name).table, ops);
            && im.start + im.size <= |t.flash| && 0 <= t'.fds[fd].offset <= im.size
            && Delivered(OpenStep(t, name).table, ops, fd) == t.flash[im.start..im.start + im.size][..t'.fds[fd].offset]
  {
    OpenInv(t, name);
    var t1, fd := OpenStep(t, name).table, OpenStep(t, name).ret;
    ReadsInOrder(t1, ops, fd);
  }
}
