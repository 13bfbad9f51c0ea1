/**
 Whole runs of the page allocator: initialisation followed by any sequence of allocations and matching
 frees, each of which may end the run (the kernel panics when memory or page descriptors run out).
 */
module PageRuns {
  import opened Machine
  import opened Zones

  /** Pages `[start, start + count)`. */
  datatype Run = Run(start: nat, count: nat)

  /** `live` are the runs handed out and not yet freed; `descriptors` is the size of the page pool. */
  datatype Pages = Pages(managed: nat, descriptors: nat, zones: Stacks, live: seq<Run>)

  datatype Outcome = Done(st: Pages) | NoMemory | PoolExhausted | Illegal

  datatype Op = Alloc(n: nat) | Free(run: Run)

  ghost function Available(st: Pages): int {
    st.descriptors - Chunks(st.zones)
  }

  function RemoveOne(s: seq<Run>, r: Run): seq<Run>
    requires r in s
  {
    if s[0] == r then s[1..] else [s[0]] + RemoveOne(s[1..], r)
  }

  // ---------------------------------------------------------------- transitions

  ghost function Start(managed: nat, descriptors: nat): Outcome
    requires managed < 0x8000_0000
  {
    if PopCount(managed) > descriptors then PoolExhausted
    else Done(Pages(managed, descriptors, Add(Empty(), 0, managed), []))
  }

  ghost function AllocStep(st: Pages, n: nat): Outcome
    requires 0 < n < 0x8000_0000
  {
    match Take(st.zones, n)
    case None => NoMemory
    case Some((s, z)) =>
      if Available(st) < TakeNeed(st.zones, n) then PoolExhausted
      else Done(st.(zones := z, live := st.live + [Run(s, n)]))
  }

  ghost function FreeStep(st: Pages, r: Run): Outcome
    requires r in st.live && r.count < 0x8000_0000
  {
    if Available(st) < PopCount(r.count) then PoolExhausted
    else Done(st.(zones := Add(st.zones, r.start, r.count), live := RemoveOne(st.live, r)))
  }

  ghost predicate Legal(st: Pages, op: Op) {
    match op
    case Alloc(n) => 0 < n < 0x8000_0000
    case Free(r) => r in st.live && r.count < 0x8000_0000
  }

  ghost function Step(st: Pages, op: Op): Outcome {
    if !Legal(st, op) then Illegal
    else
      match op
      case Alloc(n) => AllocStep(st, n)
      case Free(r) => FreeStep(st, r)
  }

  ghost function Exec(st: Pages, ops: seq<Op>): Outcome
    decreases |ops|
  {
    if ops == [] then Done(st)
    else
      match Step(st, ops[0])
      case Done(st') => Exec(st', ops[1..])
      case stop => stop
  }

  /** Boot, then `ops`. */
  ghost function Boot(managed: nat, descriptors: nat, ops: seq<Op>): Outcome
    requires managed < 0x8000_0000
  {
    match Start(managed, descriptors)
    case Done(st) => Exec(st, ops)
    case stop => stop
  }

  // ---------------------------------------------------------------- invariant

  ghost function LiveSum(live: seq<Run>, w: Weight): nat {
    if live == [] then 0 else w(live[0].start, live[0].count) + LiveSum(live[1..], w)
  }

  /** Free chunks and live runs together weigh what the managed pages weigh. */
  ghost predicate Conserved(st: Pages, w: Weight) {
    Sum(st.zones, w) + LiveSum(st.live, w) == w(0, st.managed)
  }

  /** The chunks boot creates, as runs. */
  ghost function Pieces(off: nat, cnt: nat): seq<Run>
    requires cnt < 0x1_0000_0000
    decreases cnt
  {
    if cnt == 0 then []
    else
      var k := Log2(cnt);
      [Run(off, Pow2(k))] + Pieces(off + Pow2(k), cnt - Pow2(k))
  }

  ghost predicate Inside(ps: seq<Run>, s: nat, n: nat) {
    exists c | c in ps :: c.start <= s && s + n <= c.start + c.count
  }

  ghost predicate ChunksInside(ps: seq<Run>, z: Stacks) {
    forall o, i | 0 <= o < MAX_ZONES && 0 <= i < |z[o]| :: Inside(ps, z[o][i], Pow2(o))
  }

  ghost predicate RunsInside(ps: seq<Run>, live: seq<Run>) {
    forall r | r in live :: Inside(ps, r.start, r.count)
  }

  ghost predicate Inv(st: Pages) {
    && st.managed < 0x8000_0000
    && Chunks(st.zones) <= st.descriptors
    && (forall p: nat :: Conserved(st, Covers(p)))
    && Conserved(st, Length())
    && (forall r | r in st.live :: r.count > 0)
    && ChunksInside(Pieces(0, st.managed), st.zones)
    && RunsInside(Pieces(0, st.managed), st.live)
  }

  // ---------------------------------------------------------------- conservation step by step

  lemma {:induction false} LiveSumAppend(a: seq<Run>, b: seq<Run>, w: Weight)
    ensures LiveSum(a + b, w) == LiveSum(a, w) + LiveSum(b, w)
  {
    if a == [] {
      assert a + b == b;
    } else {
      assert (a + b)[1..] == a[1..] + b;
      LiveSumAppend(a[1..], b, w);
    }
  }

  lemma {:induction false} LiveSumRemove(s: seq<Run>, r: Run, w: Weight)
    requires r in s
    ensures LiveSum(RemoveOne(s, r), w) + w(r.start, r.count) == LiveSum(s, w)
  {
    if s[0] != r {
      LiveSumRemove(s[1..], r, w);
      LiveSumAppend([s[0]], RemoveOne(s[1..], r), w);
    }
  }

  lemma {:induction false} RemoveOneMultiset(s: seq<Run>, r: Run)
    requires r in s
    ensures multiset(RemoveOne(s, r)) == multiset(s) - multiset{r}
    ensures forall x | x in RemoveOne(s, r) :: x in s
  {
    assert s == [s[0]] + s[1..];
    if s[0] != r {
      RemoveOneMultiset(s[1..], r);
    }
  }

  lemma StepConserves(st: Pages, op: Op, w: Weight)
    requires Step(st, op).Done? && Additive(w) && Conserved(st, w)
    ensures Conserved(Step(st, op).st, w)
  {
    match op
    case Alloc(n) =>
      TakeSum(st.zones, n, w);
      var r := Run(Take(st.zones, n).value.0, n);
      LiveSumAppend(st.live, [r], w);
      assert [r][1..] == [];
    case Free(r) =>
      AddSum(st.zones, r.start, r.count, w);
      LiveSumRemove(st.live, r, w);
  }

  // ---------------------------------------------------------------- confinement step by step

  lemma InsidePart(ps: seq<Run>, s: nat, n: nat, s': nat, n': nat)
    requires Inside(ps, s, n) && s <= s' && s' + n' <= s + n
    ensures Inside(ps, s', n')
  {
    var c :| c in ps && c.start <= s && s + n <= c.start + c.count;
  }

  lemma PushInside(ps: seq<Run>, z: Stacks, o: nat, s: nat)
    requires o < MAX_ZONES && ChunksInside(ps, z) && Inside(ps, s, Pow2(o))
    ensures ChunksInside(ps, Push(z, o, s))
  {
    forall o', i | 0 <= o' < MAX_ZONES && 0 <= i < |Push(z, o, s)[o']|
      ensures Inside(ps, Push(z, o, s)[o'][i], Pow2(o'))
    {
      if o' == o && i > 0 {
        assert Push(z, o, s)[o'][i] == z[o][i - 1];
      }
    }
  }

  lemma PopInside(ps: seq<Run>, z: Stacks, o: nat)
    requires o < MAX_ZONES && z[o] != [] && ChunksInside(ps, z)
    ensures ChunksInside(ps, Pop(z, o)) && Inside(ps, z[o][0], Pow2(o))
  {
    forall o', i | 0 <= o' < MAX_ZONES && 0 <= i < |Pop(z, o)[o']|
      ensures Inside(ps, Pop(z, o)[o'][i], Pow2(o'))
    {
      if o' == o {
        assert Pop(z, o)[o'][i] == z[o][i + 1];
      }
    }
  }

  lemma {:induction false} AddInside(ps: seq<Run>, z: Stacks, off: nat, cnt: nat)
    requires cnt < 0x1_0000_0000 && ChunksInside(ps, z)
    requires forall c | c in Pieces(off, cnt) :: Inside(ps, c.start, c.count)
    ensures ChunksInside(ps, Add(z, off, cnt))
    decreases cnt
  {
    hide Inside, ChunksInside, Pow2, Push;
    if cnt != 0 {
      var k := Log2(cnt);
      assert Pieces(off, cnt)[0] == Run(off, Pow2(k));
      PushInside(ps, z, k, off);
      AddInside(ps, Push(z, k, off), off + Pow2(k), cnt - Pow2(k));
    }
  }

  lemma {:induction false} PiecesWithin(off: nat, cnt: nat)
    requires cnt < 0x1_0000_0000
    ensures forall c | c in Pieces(off, cnt) :: off <= c.start && c.start + c.count <= off + cnt
    decreases cnt
  {
    if cnt != 0 {
      var k := Log2(cnt);
      PiecesWithin(off + Pow2(k), cnt - Pow2(k));
    }
  }

  lemma AddRunInside(ps: seq<Run>, z: Stacks, off: nat, cnt: nat)
    requires cnt < 0x1_0000_0000 && ChunksInside(ps, z) && Inside(ps, off, cnt)
    ensures ChunksInside(ps, Add(z, off, cnt))
  {
    PiecesWithin(off, cnt);
    forall c | c in Pieces(off, cnt)
      ensures Inside(ps, c.start, c.count)
    {
      InsidePart(ps, off, cnt, c.start, c.count);
    }
    AddInside(ps, z, off, cnt);
  }

  lemma {:induction false} SplitInside(ps: seq<Run>, z: Stacks, o: nat)
    requires ChunksInside(ps, z) && Split(z, o).Some?
    ensures ChunksInside(ps, Split(z, o).value)
    decreases MAX_ZONES - o
  {
    if z[o] == [] {
      SplitInside(ps, z, o + 1);
      var z1 := Split(z, o + 1).value;
      var s := z1[o + 1][0];
      PopInside(ps, z1, o + 1);
      InsidePart(ps, s, Pow2(o + 1), s, Pow2(o));
      InsidePart(ps, s, Pow2(o + 1), s + Pow2(o), Pow2(o));
      PushInside(ps, Pop(z1, o + 1), o, s);
      PushInside(ps, Push(Pop(z1, o + 1), o, s), o, s + Pow2(o));
    }
  }

  lemma TakeInside(ps: seq<Run>, z: Stacks, n: nat)
    requires 0 < n < 0x8000_0000 && ChunksInside(ps, z) && Take(z, n).Some?
    ensures ChunksInside(ps, Take(z, n).value.1) && Inside(ps, Take(z, n).value.0, n)
  {
    var o := RequestOrder(n);
    SplitInside(ps, z, o);
    var z1 := Split(z, o).value;
    var s := z1[o][0];
    PopInside(ps, z1, o);
    InsidePart(ps, s, Pow2(o), s, n);
    InsidePart(ps, s, Pow2(o), s + n, Pow2(o) - n);
    AddRunInside(ps, Pop(z1, o), s + n, Pow2(o) - n);
  }

  // ---------------------------------------------------------------- the invariant over runs

  lemma StepDescriptors(st: Pages, op: Op)
    requires Step(st, op).Done? && Chunks(st.zones) <= st.descriptors
    ensures Chunks(Step(st, op).st.zones) <= st.descriptors
  {
    match op
    case Alloc(n) => TakeChunks(st.zones, n);
    case Free(r) => AddChunks(st.zones, r.start, r.count);
  }

  lemma StepInside(st: Pages, op: Op)
    requires Step(st, op).Done? && Inv(st)
    ensures ChunksInside(Pieces(0, st.managed), Step(st, op).st.zones)
    ensures RunsInside(Pieces(0, st.managed), Step(st, op).st.live)
    ensures forall r | r in Step(st, op).st.live :: r.count > 0
  {
    var ps := Pieces(0, st.managed);
    match op
    case Alloc(n) => TakeInside(ps, st.zones, n);
    case Free(r) =>
      AddRunInside(ps, st.zones, r.start, r.count);
      RemoveOneMultiset(st.live, r);
  }

  lemma StepInv(st: Pages, op: Op)
    requires Inv(st) && Step(st, op).Done?
    ensures Inv(Step(st, op).st) && Step(st, op).st.managed == st.managed
    ensures Step(st, op).st.descriptors == st.descriptors
  {
    forall p: nat
      ensures Conserved(Step(st, op).st, Covers(p))
    {
      CoversAdditive(p);
      StepConserves(st, op, Covers(p));
    }
    LengthAdditive();
    StepConserves(st, op, Length());
    StepDescriptors(st, op);
    StepInside(st, op);
  }

  lemma StartInv(managed: nat, descriptors: nat)
    requires managed < 0x8000_0000 && Start(managed, descriptors).Done?
    ensures Inv(Start(managed, descriptors).st)
  {
    hide Add, PopCount, SumFrom;
    var z := Add(Empty(), 0, managed);
    AddChunks(Empty(), 0, managed);
    EmptySum(0, Unit());
    forall p: nat
      ensures Sum(z, Covers(p)) == Covers(p)(0, managed)
    {
      CoversAdditive(p);
      AddSum(Empty(), 0, managed, Covers(p));
      EmptySum(0, Covers(p));
    }
    LengthAdditive();
    AddSum(Empty(), 0, managed, Length());
    EmptySum(0, Length());
    AddInside(Pieces(0, managed), Empty(), 0, managed);
  }

  lemma {:induction false} ExecInv(st: Pages, ops: seq<Op>)
    requires Inv(st) && Exec(st, ops).Done?
    ensures Inv(Exec(st, ops).st) && Exec(st, ops).st.managed == st.managed
    decreases |ops|
  {
    if ops != [] {
      StepInv(st, ops[0]);
      ExecInv(Step(st, ops[0]).st, ops[1..]);
    }
  }

  /** Every state a run reaches conserves the managed pages and respects the boot chunks. */
  lemma RunInv(managed: nat, descriptors: nat, ops: seq<Op>)
    requires managed < 0x8000_0000 && Boot(managed, descriptors, ops).Done?
    ensures Inv(Boot(managed, descriptors, ops).st)
    ensures Boot(managed, descriptors, ops).st.managed == managed
  {
    StartInv(managed, descriptors);
    ExecInv(Start(managed, descriptors).st, ops);
  }

  // ---------------------------------------------------------------- what a call does to the live runs

  lemma AllocLive(st: Pages, n: nat)
    requires 0 < n < 0x8000_0000 && AllocStep(st, n).Done?
    ensures var l := AllocStep(st, n).st.live; l == st.live + [l[|l| - 1]] && l[|l| - 1].count == n
  {
  }

  lemma FreeLive(st: Pages, r: Run)
    requires r in st.live && r.count < 0x8000_0000 && FreeStep(st, r).Done?
    ensures multiset(FreeStep(st, r).st.live) == multiset(st.live) - multiset{r}
  {
    RemoveOneMultiset(st.live, r);
  }

  lemma {:induction false} SumPermuted(a: seq<Run>, b: seq<Run>, w: Weight)
    requires multiset(a) == multiset(b)
    ensures LiveSum(a, w) == LiveSum(b, w)
    decreases |a|
  {
    if a == [] {
      assert |multiset(b)| == 0;
    } else {
      assert a == [a[0]] + a[1..];
      assert a[0] in multiset(b);
      LiveSumRemove(b, a[0], w);
      RemoveOneMultiset(b, a[0]);
      SumPermuted(a[1..], RemoveOne(b, a[0]), w);
    }
  }

  lemma InvPermuted(st: Pages, owned: seq<Run>)
    requires Inv(st) && multiset(owned) == multiset(st.live)
    ensures Inv(st.(live := owned))
  {
    forall p: nat
      ensures Conserved(st.(live := owned), Covers(p))
    {
      assert Conserved(st, Covers(p));
      SumPermuted(owned, st.live, Covers(p));
    }
    SumPermuted(owned, st.live, Length());
    forall r | r in owned
      ensures r in st.live
    {
      assert r in multiset(owned);
    }
  }
}
