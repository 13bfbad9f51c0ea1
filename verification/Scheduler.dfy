/** The cyclic scheduler on values, and its fairness over whole runs. */
module Scheduler {
  import opened Machine

  /** Which slots are ACTIVE, and the slot of the current task. */
  datatype Sched = Sched(active: seq<bool>, cur: nat)

  /** A timer tick is a yield; a task that exits is always the current one. */
  datatype Event = Yield | Exit | Load(slot: nat)

  predicate Shape(s: Sched) {
    |s.active| == MAX_TASKS && s.cur < MAX_TASKS
  }

  /** Steps from one slot forward to another, a full round to itself. */
  function Distance(a: nat, b: nat): (d: nat)
    requires a < MAX_TASKS && b < MAX_TASKS
    ensures 1 <= d <= MAX_TASKS && (a + d) % MAX_TASKS == b
  {
    if a < b then b - a else b + MAX_TASKS - a
  }

  /** The slot the loop of `task_next` stops at when it has gone `d - 1` steps in vain. */
  function Scan(s: Sched, d: nat): (r: Option<nat>)
    requires Shape(s) && 1 <= d <= MAX_TASKS + 1
    ensures r.Some? ==> r.value < MAX_TASKS && s.active[r.value]
    decreases MAX_TASKS + 1 - d
  {
    if d > MAX_TASKS then None
    else if s.active[(s.cur + d) % MAX_TASKS] then Some((s.cur + d) % MAX_TASKS)
    else Scan(s, d + 1)
  }

  /** `task_next`; `None` is the "No more tasks are active" panic. */
  function Next(s: Sched): (r: Option<nat>)
    requires Shape(s)
    ensures r.Some? ==> r.value < MAX_TASKS && s.active[r.value]
  {
    Scan(s, 1)
  }

  lemma {:induction false} ScanNearest(s: Sched, d: nat)
    requires Shape(s) && 1 <= d <= MAX_TASKS + 1
    ensures forall t | 0 <= t < MAX_TASKS && s.active[t] && Distance(s.cur, t) >= d ::
              Scan(s, d).Some? && Distance(s.cur, Scan(s, d).value) <= Distance(s.cur, t)
    ensures Scan(s, d).Some? ==> Distance(s.cur, Scan(s, d).value) >= d
    decreases MAX_TASKS + 1 - d
  {
    if d <= MAX_TASKS {
      AtDistance(s.cur, d);
      hide Distance;
      if !s.active[(s.cur + d) % MAX_TASKS] {
        ScanNearest(s, d + 1);
      }
    }
  }

  lemma AtDistance(a: nat, d: nat)
    requires a < MAX_TASKS && 1 <= d <= MAX_TASKS
    ensures forall t | 0 <= t < MAX_TASKS :: Distance(a, t) == d <==> t == (a + d) % MAX_TASKS
  {
  }

  /** The task selected is the nearest ACTIVE one going forward, the current one coming last. */
  lemma NextNearest(s: Sched)
    requires Shape(s)
    ensures Next(s) == None <==> forall t | 0 <= t < MAX_TASKS :: !s.active[t]
    ensures Next(s).Some? ==> forall t | 0 <= t < MAX_TASKS && s.active[t] ::
              Distance(s.cur, Next(s).value) <= Distance(s.cur, t)
  {
    ScanNearest(s, 1);
  }

  // ---------------------------------------------------------------- runs

  function Step(s: Sched, e: Event): (r: Option<Sched>)
    requires Shape(s)
    ensures r.Some? ==> Shape(r.value)
  {
    match e
    case Load(slot) => if slot < MAX_TASKS then Some(s.(active := s.active[slot := true])) else Some(s)
    case Yield => Switch(s)
    case Exit => Switch(s.(active := s.active[s.cur := false]))
  }

  function Switch(s: Sched): (r: Option<Sched>)
    requires Shape(s)
    ensures r.Some? ==> Shape(r.value)
  {
    match Next(s)
    case None => None
    case Some(n) => Some(s.(cur := n))
  }

  function Exec(s: Sched, es: seq<Event>): (r: Option<Sched>)
    requires Shape(s)
    ensures r.Some? ==> Shape(r.value)
    decreases |es|
  {
    if es == [] then Some(s)
    else
      match Step(s, es[0])
      case None => None
      case Some(s') => Exec(s', es[1..])
  }

  /** Calls of `task_next` in a run. */
  function Switches(es: seq<Event>): nat {
    if es == [] then 0 else (if es[0].Load? then 0 else 1) + Switches(es[1..])
  }

  /** Task `t` is ACTIVE and does not exit during the run. */
  predicate StaysActive(s: Sched, es: seq<Event>, t: nat)
    requires Shape(s) && t < MAX_TASKS
    decreases |es|
  {
    s.active[t] && (es == [] || (
      !(es[0] == Exit && s.cur == t)
      && (Step(s, es[0]).Some? ==> StaysActive(Step(s, es[0]).value, es[1..], t))))
  }

  /** Some switch of the run selects `t`. */
  ghost predicate Selected(s: Sched, es: seq<Event>, t: nat)
    requires Shape(s)
  {
    exists i | 0 < i <= |es| :: !es[i - 1].Load? && Exec(s, es[..i]).Some? && Exec(s, es[..i]).value.cur == t
  }

  /** Going on from a selected task to another one brings a third task nearer. */
  lemma DistanceDrops(a: nat, n: nat, t: nat)
    requires a < MAX_TASKS && n < MAX_TASKS && t < MAX_TASKS && n != t && Distance(a, n) <= Distance(a, t)
    ensures Distance(n, t) < Distance(a, t)
  {
  }

  lemma ExecCons(s: Sched, es: seq<Event>, i: nat)
    requires Shape(s) && 0 < i <= |es| && Step(s, es[0]).Some?
    ensures Exec(s, es[..i]) == Exec(Step(s, es[0]).value, es[1..][..i - 1])
  {
    assert es[..i][1..] == es[1..][..i - 1];
  }

  lemma SelectedLater(s: Sched, es: seq<Event>, t: nat)
    requires Shape(s) && es != [] && Step(s, es[0]).Some? && Selected(Step(s, es[0]).value, es[1..], t)
    ensures Selected(s, es, t)
  {
    var s' := Step(s, es[0]).value;
    var i :| 0 < i <= |es[1..]| && !es[1..][i - 1].Load? && Exec(s', es[1..][..i]).Some? && Exec(s', es[1..][..i]).value.cur == t;
    ExecCons(s, es, i + 1);
    assert es[i] == es[1..][i - 1];
  }

  lemma SwitchSelects(s: Sched, e: Event, t: nat)
    requires Shape(s) && t < MAX_TASKS && s.active[t] && !e.Load? && !(e == Exit && s.cur == t)
    ensures Step(s, e).Some?
    ensures var s' := Step(s, e).value;
            s'.active[t] && (s'.cur != t ==> Distance(s'.cur, t) < Distance(s.cur, t))
  {
    var s1 := if e == Exit then s.(active := s.active[s.cur := false]) else s;
    NextNearest(s1);
    assert s1.active[t];
    if Next(s1).value != t {
      DistanceDrops(s.cur, Next(s1).value, t);
    }
  }

  /**
   A task that stays ACTIVE is selected after as many switches as it is steps away, whatever yields,
   ticks, loads and exits of others come in between; until then the kernel does not panic.
   */
  lemma {:induction false} SelectedInTime(s: Sched, es: seq<Event>, t: nat)
    requires Shape(s) && t < MAX_TASKS && StaysActive(s, es, t) && Switches(es) >= Distance(s.cur, t)
    ensures Selected(s, es, t)
    decreases |es|
  {
    var e := es[0];
    if e.Load? {
      SelectedInTime(Step(s, e).value, es[1..], t);
      SelectedLater(s, es, t);
    } else {
      SwitchSelects(s, e, t);
      var s' := Step(s, e).value;
      if s'.cur == t {
        ExecCons(s, es, 1);
        assert es[1..][..0] == [];
        assert Exec(s, es[..1]).Some?;
      } else {
        SelectedInTime(s', es[1..], t);
        SelectedLater(s, es, t);
      }
    }
  }

  /** Fairness: fifty calls of `task_next` are always enough. */
  lemma Fairness(s: Sched, es: seq<Event>, t: nat)
    requires Shape(s) && t < MAX_TASKS && StaysActive(s, es, t) && Switches(es) >= MAX_TASKS
    ensures Selected(s, es, t)
  {
    SelectedInTime(s, es, t);
  }

  lemma {:induction false} NoPanic(s: Sched, es: seq<Event>, t: nat)
    requires Shape(s) && t < MAX_TASKS && StaysActive(s, es, t)
    ensures Exec(s, es).Some?
    decreases |es|
  {
    if es != [] {
      if !es[0].Load? {
        SwitchSelects(s, es[0], t);
      }
      NoPanic(Step(s, es[0]).value, es[1..], t);
    }
  }

  /** A slot that is not ACTIVE and is not loaded again is not selected. */
  lemma {:induction false} InactiveNotSelected(s: Sched, es: seq<Event>, t: nat)
    requires Shape(s) && t < MAX_TASKS && !s.active[t] && Load(t) !in es
    ensures !Selected(s, es, t)
    decreases |es|
  {
    if es != [] && Step(s, es[0]).Some? {
      InactiveNotSelected(Step(s, es[0]).value, es[1..], t);
      forall i | 0 < i <= |es| && !es[i - 1].Load? && Exec(s, es[..i]).Some?
        ensures Exec(s, es[..i]).value.cur != t
      {
        ExecCons(s, es, i);
        if i > 1 {
          assert es[1..][i - 2] == es[i - 1];
        } else {
          assert es[1..][..0] == [];
        }
      }
    }
  }
}
