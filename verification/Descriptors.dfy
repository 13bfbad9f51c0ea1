/**
 The linked lists of page descriptors as values: the descriptor pool, the list heads, and for every
 descriptor the one place it is in. Each lemma is one pointer rewiring of the allocator.
 */
module Descriptors {
  import opened Zones

  /** A null descriptor pointer; any other pointer is an index into the descriptor pool. */
  const NULL: int := -1

  datatype Page = Page(start: nat, next: int)

  /** Where a descriptor is. */
  datatype Place = Untouched | Spare | Zone(k: nat) | InTransit

  /** `ids[k]` and `spare` are the descriptors the lists visit; `held` are those in transit. */
  datatype Lists = Lists(pool: seq<Page>, zones: seq<int>, free: int, next: nat,
                         ids: seq<seq<nat>>, spare: seq<nat>, held: set<nat>, place: seq<Place>, stacks: Stacks)

  /** The pointer to the first element of a list. */
  function Head(s: seq<nat>): int {
    if s == [] then NULL else s[0]
  }

  /** Following `next` from `head` visits exactly `s`, in order and without repetition, and stops. */
  ghost predicate Chain(pool: seq<Page>, head: int, s: seq<nat>) {
    && head == Head(s)
    && (forall i | 0 <= i < |s| :: s[i] < |pool|)
    && (forall i | 0 <= i < |s| :: pool[s[i]].next == Head(s[i + 1..]))
    && (forall i, j | 0 <= i < j < |s| :: s[i] != s[j])
  }

  ghost predicate Starts(pool: seq<Page>, s: seq<nat>, starts: seq<nat>) {
    && |s| == |starts|
    && forall i | 0 <= i < |s| :: s[i] < |pool| && pool[s[i]].start == starts[i]
  }

  ghost predicate Shape(l: Lists) {
    |l.zones| == MAX_ZONES && |l.ids| == MAX_ZONES && |l.place| == |l.pool| && l.next <= |l.pool|
  }

  /** Every descriptor is in exactly one place, and `place` says which. */
  ghost predicate Placed(l: Lists)
    requires Shape(l)
  {
    && (forall x: nat | x < |l.pool| :: l.place[x] == Untouched <==> x >= l.next)
    && (forall x: nat | x < |l.pool| :: l.place[x] == Spare <==> x in l.spare)
    && (forall x: nat | x < |l.pool| :: l.place[x] == InTransit <==> x in l.held)
    && (forall x: nat, k: nat | x < |l.pool| && k < MAX_ZONES :: l.place[x] == Zone(k) <==> x in l.ids[k])
    && (forall x | x in l.held :: x < |l.pool|)
  }

  ghost predicate Threaded(l: Lists)
    requires Shape(l)
  {
    && Chain(l.pool, l.free, l.spare)
    && (forall k: nat | k < MAX_ZONES :: Chain(l.pool, l.zones[k], l.ids[k]) && Starts(l.pool, l.ids[k], l.stacks[k]))
  }

  ghost predicate Linked(l: Lists) {
    && Shape(l) && Placed(l) && Threaded(l)
    && l.next == |l.spare| + |l.held| + Chunks(l.stacks)
  }

  /** What the methods read off the lists. */
  lemma ListFacts(l: Lists)
    requires Linked(l)
    ensures |l.zones| == MAX_ZONES && |l.ids| == MAX_ZONES && |l.place| == |l.pool|
    ensures l.next == |l.spare| + |l.held| + Chunks(l.stacks) <= |l.pool|
    ensures l.free == NULL <==> l.spare == []
    ensures forall k: nat | k < MAX_ZONES :: l.zones[k] == NULL <==> l.stacks[k] == []
    ensures forall x | x in l.held :: x < |l.pool|
  {
    assert Chain(l.pool, l.free, l.spare);
    forall k: nat | k < MAX_ZONES
      ensures l.zones[k] == NULL <==> l.stacks[k] == []
    {
      assert Chain(l.pool, l.zones[k], l.ids[k]) && Starts(l.pool, l.ids[k], l.stacks[k]);
    }
  }

  lemma ZoneChain(l: Lists, k: nat)
    requires Linked(l) && k < MAX_ZONES
    ensures |l.zones| == |l.ids| == MAX_ZONES && Chain(l.pool, l.zones[k], l.ids[k]) && |l.ids[k]| == |l.stacks[k]|
  {
    assert Chain(l.pool, l.zones[k], l.ids[k]) && Starts(l.pool, l.ids[k], l.stacks[k]);
  }

  lemma EmptyLinked(l: Lists)
    requires |l.pool| == |l.place| && |l.zones| == MAX_ZONES && |l.ids| == MAX_ZONES
    requires forall x | 0 <= x < |l.place| :: l.place[x] == Untouched
    requires forall k | 0 <= k < MAX_ZONES :: l.zones[k] == NULL && l.ids[k] == []
    requires l.free == NULL && l.spare == [] && l.next == 0 && l.held == {} && l.stacks == Empty()
    requires Chunks(l.stacks) == 0
    ensures Linked(l)
  {
  }

  lemma ChainFrame(pool: seq<Page>, pool': seq<Page>, head: int, s: seq<nat>)
    requires Chain(pool, head, s) && |pool'| == |pool|
    requires forall x | x in s :: pool'[x] == pool[x]
    ensures Chain(pool', head, s)
    ensures forall starts :: Starts(pool, s, starts) ==> Starts(pool', s, starts)
  {
  }

  lemma ChainPush(pool: seq<Page>, head: int, s: seq<nat>, p: nat, v: Page)
    requires Chain(pool, head, s) && p < |pool| && p !in s && v.next == head
    ensures Chain(pool[p := v], p, [p] + s)
    ensures forall starts :: Starts(pool, s, starts) ==> Starts(pool[p := v], [p] + s, [v.start] + starts)
  {
    var t := [p] + s;
    forall i | 0 <= i < |t|
      ensures t[i] < |pool| && pool[p := v][t[i]].next == Head(t[i + 1..])
    {
      if i > 0 {
        assert t[i + 1..] == s[i..];
      } else {
        assert t[1..] == s;
      }
    }
  }

  lemma ChainPop(pool: seq<Page>, head: int, s: seq<nat>)
    requires Chain(pool, head, s) && s != []
    ensures Chain(pool, pool[s[0]].next, s[1..]) && s[0] !in s[1..]
    ensures forall x :: x in s <==> x == s[0] || x in s[1..]
    ensures forall starts :: Starts(pool, s, starts) ==> starts != [] && starts[0] == pool[s[0]].start && Starts(pool, s[1..], starts[1..])
  {
    var t := s[1..];
    forall i | 0 <= i < |t|
      ensures pool[t[i]].next == Head(t[i + 1..])
    {
      assert t[i + 1..] == s[i + 2..];
    }
  }

  /** The first spare descriptor leaves the free list. */
  function TakeSpare(l: Lists): Lists
    requires l.spare != [] && 0 <= l.free < |l.pool| == |l.place|
  {
    l.(free := l.pool[l.free].next, spare := l.spare[1..], held := l.held + {l.free as nat}, place := l.place[l.free := InTransit])
  }

  lemma TakeSpareLinked(l: Lists)
    requires Linked(l) && l.free != NULL
    ensures l.spare != [] && 0 <= l.free < |l.pool| && l.free as nat !in l.held && Linked(TakeSpare(l))
  {
    ChainPop(l.pool, l.free, l.spare);
  }

  /** The next untouched descriptor leaves the pool. */
  function TakeFresh(l: Lists): Lists
    requires l.next < |l.pool| == |l.place|
  {
    l.(next := l.next + 1, held := l.held + {l.next}, place := l.place[l.next := InTransit])
  }

  lemma TakeFreshLinked(l: Lists)
    requires Linked(l) && l.next < |l.pool|
    ensures l.next !in l.held && Linked(TakeFresh(l))
  {
  }

  /** A descriptor in transit becomes the head of a zone, for the chunk that starts at `off`. */
  function Insert(l: Lists, p: nat, off: nat, order: nat): Lists
    requires Shape(l) && p < |l.pool| && order < MAX_ZONES
  {
    l.(pool := l.pool[p := Page(off, l.zones[order])], zones := l.zones[order := p],
       ids := l.ids[order := [p] + l.ids[order]], held := l.held - {p}, place := l.place[p := Zone(order)],
       stacks := Push(l.stacks, order, off))
  }

  lemma InsertPlaced(l: Lists, p: nat, off: nat, order: nat)
    requires Linked(l) && p in l.held && order < MAX_ZONES
    ensures Placed(Insert(l, p, off, order))
  {
  }

  lemma InsertLinked(l: Lists, p: nat, off: nat, order: nat)
    requires Linked(l) && p in l.held && order < MAX_ZONES
    ensures Linked(Insert(l, p, off, order))
  {
    var l' := Insert(l, p, off, order);
    InsertPlaced(l, p, off, order);
    SumPush(l.stacks, order, off, Unit());
    assert l.place[p] == InTransit;
    assert p !in l.spare && forall k: nat | k < MAX_ZONES :: p !in l.ids[k];
    ChainFrame(l.pool, l'.pool, l.free, l.spare);
    forall k: nat | k < MAX_ZONES
      ensures Chain(l'.pool, l'.zones[k], l'.ids[k]) && Starts(l'.pool, l'.ids[k], l'.stacks[k])
    {
      if k == order {
        ChainPush(l.pool, l.zones[k], l.ids[k], p, Page(off, l.zones[k]));
      } else {
        ChainFrame(l.pool, l'.pool, l.zones[k], l.ids[k]);
      }
    }
  }

  /** The head of a zone goes into transit. */
  function Extract(l: Lists, order: nat): Lists
    requires Shape(l) && order < MAX_ZONES && 0 <= l.zones[order] < |l.pool| && l.ids[order] != [] && l.stacks[order] != []
  {
    var r := l.zones[order];
    l.(zones := l.zones[order := l.pool[r].next], ids := l.ids[order := l.ids[order][1..]],
       held := l.held + {r as nat}, place := l.place[r := InTransit], stacks := Pop(l.stacks, order))
  }

  lemma ExtractLinked(l: Lists, order: nat)
    requires Linked(l) && order < MAX_ZONES && l.zones[order] != NULL
    ensures l.ids[order] != [] && l.stacks[order] != [] && 0 <= l.zones[order] < |l.pool|
    ensures l.zones[order] as nat !in l.held && l.pool[l.zones[order]].start == l.stacks[order][0]
    ensures Linked(Extract(l, order))
  {
    assert Chain(l.pool, l.zones[order], l.ids[order]) && Starts(l.pool, l.ids[order], l.stacks[order]);
    ChainPop(l.pool, l.zones[order], l.ids[order]);
    SumPop(l.stacks, order, Unit());
    ExtractPlaced(l, order);
    ExtractThreaded(l, order);
    hide Placed, Threaded, Chain, Starts, Sum;
  }

  lemma ExtractThreaded(l: Lists, order: nat)
    requires Shape(l) && Threaded(l) && order < MAX_ZONES && l.ids[order] != [] && l.stacks[order] != []
    requires 0 <= l.zones[order] < |l.pool|
    requires Chain(l.pool, l.pool[l.zones[order]].next, l.ids[order][1..]) && Starts(l.pool, l.ids[order][1..], l.stacks[order][1..])
    ensures Threaded(Extract(l, order))
  {
    var l' := Extract(l, order);
    hide Chain, Starts;
    forall k: nat | k < MAX_ZONES
      ensures Chain(l'.pool, l'.zones[k], l'.ids[k]) && Starts(l'.pool, l'.ids[k], l'.stacks[k])
    {
      assert Chain(l.pool, l.zones[k], l.ids[k]) && Starts(l.pool, l.ids[k], l.stacks[k]);
    }
  }

  lemma ExtractPlaced(l: Lists, order: nat)
    requires Shape(l) && Placed(l) && order < MAX_ZONES && l.ids[order] != [] && l.stacks[order] != []
    requires l.zones[order] == l.ids[order][0] < |l.pool| && l.ids[order][0] !in l.ids[order][1..]
    ensures Placed(Extract(l, order)) && l.ids[order][0] !in l.held
  {
    var r, rest := l.ids[order][0], l.ids[order][1..];
    assert l.place[r] == Zone(order);
    assert forall x :: x in l.ids[order] <==> x == r || x in rest;
  }

  /** A descriptor in transit becomes the head of the free list. */
  function Recycle(l: Lists, p: nat): Lists
    requires p < |l.pool| == |l.place|
  {
    l.(pool := l.pool[p := l.pool[p].(next := l.free)], free := p, spare := [p] + l.spare,
       held := l.held - {p}, place := l.place[p := Spare])
  }

  lemma RecycleLinked(l: Lists, p: nat)
    requires Linked(l) && p in l.held
    ensures Linked(Recycle(l, p))
  {
    var l' := Recycle(l, p);
    assert l.place[p] == InTransit;
    assert p !in l.spare && forall k: nat | k < MAX_ZONES :: p !in l.ids[k];
    ChainPush(l.pool, l.free, l.spare, p, l.pool[p].(next := l.free));
    forall k: nat | k < MAX_ZONES
      ensures Chain(l'.pool, l'.zones[k], l'.ids[k]) && Starts(l'.pool, l'.ids[k], l'.stacks[k])
    {
      ChainFrame(l.pool, l'.pool, l.zones[k], l.ids[k]);
    }
  }
}
