/** The user-level scheduler (uthread.c). A saved context is modelled by the id of the thread it belongs to. */
module UThread {

  const UT_COUNT: nat := 8
  const NO_CONTEXT: int := -1

  /** An entry of utable: in use, its thread's id, and whose context it holds. */
  datatype Slot = Slot(used: bool, utid: int, ctx: int)

  /** The globals. `running` is the thread that executes, `exited` those that have called UT_exit. */
  datatype Table = Table(slots: seq<Slot>, index: nat, count: int, tid: int, running: int, exited: set<int>)

  /** increment_sched_index */
  function Next(i: nat): nat {
    if i == UT_COUNT - 1 then 0 else i + 1
  }

  /** The slot before sched_index: the running thread's. */
  function Prev(i: nat): nat {
    if i == 0 then UT_COUNT - 1 else i - 1
  }

  /** Steps from i to j round the table. */
  function Dist(i: nat, j: nat): int {
    if j >= i then j - i else j - i + UT_COUNT
  }

  predicate WellSized(slots: seq<Slot>) {
    |slots| == UT_COUNT
  }

  /** The slots in use below k. */
  function Count(slots: seq<Slot>, k: nat): nat
    requires k <= |slots|
  {
    if k == 0 then 0 else Count(slots, k - 1) + (if slots[k - 1].used then 1 else 0)
  }

  /** The scan of UT_Scheduler: the first slot in use from i on, looking at most n slots further. */
  function Scan(slots: seq<Slot>, i: nat, n: nat): (r: nat)
    requires WellSized(slots) && i < UT_COUNT
    ensures r < UT_COUNT
    decreases n
  {
    if n == 0 || slots[i].used then i else Scan(slots, Next(i), n - 1)
  }

  /** swtch: the current slot keeps the running thread's context, and the target's context runs. */
  function Switch(s: Table, cur: nat, t: nat): Table
    requires cur < |s.slots| && t < |s.slots|
  {
    var slots := s.slots[cur := s.slots[cur].(ctx := s.running)];
    s.(slots := slots, index := Next(t), running := slots[t].ctx)
  }

  /** UT_Scheduler, as a function of the globals. */
  function Scheduled(s: Table): Table
    requires WellSized(s.slots) && s.index < UT_COUNT
  {
    if s.count == 1 && s.index == 1 then s else Switch(s, Prev(s.index), Scan(s.slots, s.index, UT_COUNT - 1))
  }

  /** What UT_Create does to free slot k. */
  function Created(s: Table, k: nat): Table
    requires k < |s.slots|
  {
    s.(slots := s.slots[k := Slot(true, s.tid, s.tid)], tid := s.tid + 1, count := s.count + 1)
  }

  /** The slot that a thread gives up on exit, before the scheduler runs. */
  function Leaving(s: Table): Table
    requires WellSized(s.slots) && s.index < UT_COUNT
  {
    var cur := Prev(s.index);
    s.(slots := s.slots[cur := s.slots[cur].(used := false)], count := s.count - 1, exited := s.exited + {s.running})
  }

  /** UT_exit by a thread other than the root. */
  function Exited(s: Table): Table
    requires WellSized(s.slots) && s.index < UT_COUNT
  {
    Scheduled(Leaving(s))
  }

  /** Slot k agrees with the rest: its thread has not exited and, unless it is running, has a context of its own. */
  predicate SlotOk(s: Table, k: nat)
    requires k < |s.slots|
  {
    s.slots[k].used ==>
      && 0 <= s.slots[k].utid < s.tid && s.slots[k].utid !in s.exited
      && (k != Prev(s.index) ==> s.slots[k].ctx == s.slots[k].utid)
  }

  ghost predicate Inv(s: Table) {
    && WellSized(s.slots) && s.index < UT_COUNT
    && s.count == Count(s.slots, UT_COUNT)
    && s.slots[0].used
    && s.slots[Prev(s.index)].used && s.running == s.slots[Prev(s.index)].utid
    && (forall k: nat | k < UT_COUNT :: SlotOk(s, k))
    && (forall j: nat, k: nat | j < UT_COUNT && k < UT_COUNT && j != k && s.slots[j].used && s.slots[k].used :: s.slots[j].utid != s.slots[k].utid)
    && (forall x | x in s.exited :: x < s.tid)
  }

  // ----- Counting -----

  lemma {:induction false} CountUpdate(slots: seq<Slot>, k: nat, i: nat, v: Slot)
    requires k <= |slots| && i < |slots|
    ensures Count(slots[i := v], k) == Count(slots, k) + (if i < k then (if v.used then 1 else 0) - (if slots[i].used then 1 else 0) else 0)
  {
    if k > 0 {
      CountUpdate(slots, k - 1, i, v);
    }
  }

  lemma {:induction false} CountAtLeast(slots: seq<Slot>, k: nat, i: nat)
    requires i < k <= |slots| && slots[i].used
    ensures Count(slots, k) >= 1
  {
    if i < k - 1 {
      CountAtLeast(slots, k - 1, i);
    }
  }

  /** A second slot in use, if there are two. */
  lemma {:induction false} Another(slots: seq<Slot>, k: nat, i: nat) returns (j: nat)
    requires i < |slots| && k <= |slots| && Count(slots, k) >= (if i < k && slots[i].used then 2 else 1)
    ensures j < k && j != i && slots[j].used
  {
    if slots[k - 1].used && k - 1 != i {
      j := k - 1;
    } else {
      j := Another(slots, k - 1, i);
    }
  }

  lemma {:induction false} CountBelow(slots: seq<Slot>, k: nat, i: nat)
    requires k <= |slots| && i < |slots| && slots[i].used && Count(slots, |slots|) == 1
    ensures forall j: nat | j < |slots| && slots[j].used :: j == i
  {
    forall j: nat | j < |slots| && slots[j].used && j != i
      ensures false
    {
      TwoCount(slots, |slots|, i, j);
    }
  }

  lemma {:induction false} TwoCount(slots: seq<Slot>, k: nat, i: nat, j: nat)
    requires i < k <= |slots| && j < k && i != j && slots[i].used && slots[j].used
    ensures Count(slots, k) >= 2
  {
    if i == k - 1 {
      CountAtLeast(slots, k - 1, j);
    } else if j == k - 1 {
      CountAtLeast(slots, k - 1, i);
    } else {
      TwoCount(slots, k - 1, i, j);
    }
  }

  // ----- The scan -----

  /** The scan stops at the first slot in use round the table. */
  lemma {:induction false} ScanFirst(slots: seq<Slot>, i: nat, n: nat, j: nat)
    requires WellSized(slots) && i < UT_COUNT && j < UT_COUNT && slots[j].used && Dist(i, j) <= n < UT_COUNT
    ensures Scan(slots, i, n) < UT_COUNT && slots[Scan(slots, i, n)].used && Dist(i, Scan(slots, i, n)) <= Dist(i, j)
    decreases n
  {
    if !slots[i].used && n > 0 {
      ScanFirst(slots, Next(i), n - 1, j);
    }
  }

  /** Where a switch goes: a slot in use, never the current one, and no slot in use lies in between. */
  lemma {:induction false} Target(s: Table, j: nat) returns (t: nat)
    requires WellSized(s.slots) && s.index < UT_COUNT && j < UT_COUNT && s.slots[j].used && j != Prev(s.index)
    ensures t == Scan(s.slots, s.index, UT_COUNT - 1) && t < UT_COUNT && s.slots[t].used && t != Prev(s.index)
    ensures Dist(s.index, t) <= Dist(s.index, j)
  {
    t := Scan(s.slots, s.index, UT_COUNT - 1);
    ScanFirst(s.slots, s.index, UT_COUNT - 1, j);
  }

  // ----- What every call keeps -----

  lemma {:induction false} SwitchInv(s: Table, t: nat)
    requires WellSized(s.slots) && s.index < UT_COUNT && s.count == Count(s.slots, UT_COUNT) && s.slots[0].used
    requires forall k: nat | k < UT_COUNT :: SlotOk(s, k)
    requires forall j: nat, k: nat | j < UT_COUNT && k < UT_COUNT && j != k && s.slots[j].used && s.slots[k].used :: s.slots[j].utid != s.slots[k].utid
    requires forall x | x in s.exited :: x < s.tid
    requires t < UT_COUNT && s.slots[t].used && t != Prev(s.index)
    requires s.slots[Prev(s.index)].used ==> s.running == s.slots[Prev(s.index)].utid
    ensures Inv(Switch(s, Prev(s.index), t))
  {
    var cur := Prev(s.index);
    CountUpdate(s.slots, UT_COUNT, cur, s.slots[cur].(ctx := s.running));
    assert SlotOk(s, t);
    var s' := Switch(s, cur, t);
    assert Prev(s'.index) == t;
    forall k: nat | k < UT_COUNT
      ensures SlotOk(s', k)
    {
      assert SlotOk(s, k);
    }
  }

  /** UT_Scheduler keeps the globals consistent. */
  lemma {:induction false} ScheduledInv(s: Table)
    requires Inv(s)
    ensures Inv(Scheduled(s))
  {
    if !(s.count == 1 && s.index == 1) {
      var cur := Prev(s.index);
      if s.count == 1 {
        CountBelow(s.slots, UT_COUNT, 0);
      } else {
        CountAtLeast(s.slots, UT_COUNT, cur);
        var j := Another(s.slots, UT_COUNT, cur);
        var t := Target(s, j);
        SwitchInv(s, t);
      }
    }
  }

  /** UT_Create in a free slot does too. */
  lemma {:induction false} CreatedInv(s: Table, k: nat)
    requires Inv(s) && k < UT_COUNT && !s.slots[k].used && s.tid >= 0
    ensures Inv(Created(s, k))
  {
    CountUpdate(s.slots, UT_COUNT, k, Slot(true, s.tid, s.tid));
    var s' := Created(s, k);
    forall i: nat | i < UT_COUNT
      ensures SlotOk(s', i)
    {
      assert SlotOk(s, i);
    }
    forall i: nat, j: nat | i < UT_COUNT && j < UT_COUNT && i != j && s'.slots[i].used && s'.slots[j].used
      ensures s'.slots[i].utid != s'.slots[j].utid
    {
      assert SlotOk(s, i) && SlotOk(s, j);
    }
  }

  /** UT_exit by a thread other than the root keeps them too, and the exited thread does not run again. */
  lemma {:induction false} ExitedInv(s: Table)
    requires Inv(s) && s.index != 1
    ensures Inv(Exited(s)) && s.running in Exited(s).exited && Exited(s).running !in Exited(s).exited
  {
    var cur := Prev(s.index);
    var s1 := Leaving(s);
    CountUpdate(s.slots, UT_COUNT, cur, s.slots[cur].(used := false));
    forall k: nat | k < UT_COUNT
      ensures SlotOk(s1, k)
    {
      assert SlotOk(s, k);
    }
    assert SlotOk(s, cur);
    var t := Target(s1, 0);
    SwitchInv(s1, t);
    assert SlotOk(Exited(s), Prev(Exited(s).index));
  }

  // ----- The library -----

  class Library {
    const utable: array<Slot>
    var sched_index: nat
    var uthread_count: int
    var tid: int
    var running: int   // whose registers are loaded
    ghost var exited: set<int>

    ghost function State(): Table
      reads this, utable
    {
      Table(utable[..], sched_index, uthread_count, tid, running, exited)
    }

    ghost predicate Valid()
      reads this, utable
    {
      utable.Length == UT_COUNT && tid >= 0 && Inv(State())
    }

    /** UT_Init, once memory for the table was found: the caller becomes the root thread in slot 0. */
    constructor (first: nat)
      ensures Valid() && State().slots[0].utid == first && sched_index == 1 && uthread_count == 1 && exited == {}
      ensures forall k | 0 < k < UT_COUNT :: !utable[k].used
    {
      utable := new Slot[UT_COUNT](k => Slot(false, -1, NO_CONTEXT));
      tid, uthread_count, sched_index, running, exited := first + 1, 1, 1, first, {};
      new;
      utable[0] := Slot(true, first, NO_CONTEXT);
      CountRoot(utable[..], UT_COUNT);
    }

    /** UT_Create: the first free slot gets a new thread with a context built for it; -1 when the table is full. */
    method Create() returns (r: int)
      requires Valid()
      modifies this, utable
      ensures Valid()
      ensures r == -1 ==> State() == old(State()) && forall k | 0 <= k < UT_COUNT :: utable[k].used
      ensures r != -1 ==> r == old(tid) && exists k: nat | k < UT_COUNT ::
                && !old(State()).slots[k].used && (forall j: nat | j < k :: old(State()).slots[j].used)
                && State() == Created(old(State()), k)
    {
      var t := 0;
      while t < UT_COUNT
        invariant t <= UT_COUNT && State() == old(State()) && forall k | 0 <= k < t :: utable[k].used
      {
        if !utable[t].used {
          CreatedInv(State(), t);
          utable[t] := Slot(true, tid, tid);
          tid := tid + 1;
          uthread_count := uthread_count + 1;
          assert State() == Created(old(State()), t);
          return utable[t].utid;
        }
        t := t + 1;
      }
      r := -1;
    }

    method IncrementSchedIndex()
      requires sched_index < UT_COUNT
      modifies `sched_index
      ensures sched_index == Next(old(sched_index))
    {
      if sched_index == UT_COUNT - 1 {
        sched_index := 0;
      } else {
        sched_index := sched_index + 1;
      }
    }

    /** UT_Scheduler. The scan ends because some slot other than the current one is in use, unless the root is alone. */
    method Scheduler()
      requires utable.Length == UT_COUNT && sched_index < UT_COUNT
      requires (uthread_count == 1 && sched_index == 1) || exists j: nat :: j < UT_COUNT && utable[j].used && j != Prev(sched_index)
      modifies this, utable
      ensures State() == Scheduled(old(State()))
    {
      if uthread_count == 1 && sched_index == 1 {
        return;
      }
      ghost var j: nat :| j < UT_COUNT && utable[j].used && j != Prev(sched_index);
      var t := sched_index;
      var curr := if sched_index == 0 then UT_COUNT - 1 else sched_index - 1;
      ghost var n := UT_COUNT - 1;
      while !utable[t].used
        invariant t < UT_COUNT && sched_index == t && n < UT_COUNT && Dist(t, j) <= n
        invariant Scan(utable[..], t, n) == Scan(utable[..], old(sched_index), UT_COUNT - 1)
        invariant State() == old(State()).(index := sched_index)
        decreases Dist(t, j)
      {
        IncrementSchedIndex();
        t := sched_index;
        n := n - 1;
      }
      IncrementSchedIndex();
      Swtch(curr, t);
    }

    /** swtch, with a context standing for its thread. */
    method Swtch(curr: nat, t: nat)
      requires curr < utable.Length && t < utable.Length
      modifies utable, `running
      ensures utable[..] == old(utable[..])[curr := old(utable[..])[curr].(ctx := old(running))] && running == utable[t].ctx
    {
      utable[curr] := utable[curr].(ctx := running);
      running := utable[t].ctx;
    }

    /** UT_yield */
    method Yield()
      requires Valid()
      modifies this, utable
      ensures Valid() && State() == Scheduled(old(State()))
    {
      ScheduledInv(State());
      OtherUsed(State());
      Scheduler();
    }

    /** UT_exit by a thread other than the root. */
    method Exit()
      requires Valid() && sched_index != 1
      modifies this, utable
      ensures Valid() && State() == Exited(old(State()))
    {
      ExitedInv(State());
      var curr := if sched_index == 0 then UT_COUNT - 1 else sched_index - 1;
      utable[curr] := utable[curr].(used := false);
      exited := exited + {running};
      uthread_count := uthread_count - 1;
      assert State() == Leaving(old(State()));
      assert utable[0].used && 0 != Prev(sched_index);
      Scheduler();
    }

    /** The test that UT_shutdown makes before each yield: 0 the root is alone and may free the table, 1 it must wait,
        -1 the caller is not the root. */
    method ShutdownTest() returns (r: int)
      requires Valid()
      ensures r == -1 <==> running != State().slots[0].utid
      ensures r == 0 <==> (running == State().slots[0].utid && forall k: nat | 0 < k < UT_COUNT :: !utable[k].used)
    {
      RootRuns(State());
      if sched_index == 1 {
        r := if uthread_count != 1 then 1 else 0;
      } else {
        r := -1;
      }
    }
  }

  lemma {:induction false} CountRoot(slots: seq<Slot>, k: nat)
    requires 0 < k <= |slots| && slots[0].used && forall j | 0 < j < |slots| :: !slots[j].used
    ensures Count(slots, k) == 1
  {
    if k > 1 {
      CountRoot(slots, k - 1);
    }
  }

  lemma {:induction false} OtherUsed(s: Table)
    requires Inv(s)
    ensures (s.count == 1 && s.index == 1) || exists j: nat :: j < UT_COUNT && s.slots[j].used && j != Prev(s.index)
  {
    if s.count == 1 {
      CountBelow(s.slots, UT_COUNT, 0);
    } else {
      CountAtLeast(s.slots, UT_COUNT, 0);
      var j := Another(s.slots, UT_COUNT, Prev(s.index));
    }
  }

  lemma {:induction false} RootRuns(s: Table)
    requires Inv(s)
    ensures s.index == 1 <==> s.running == s.slots[0].utid
    ensures s.count == 1 <==> forall k: nat | 0 < k < UT_COUNT :: !s.slots[k].used
  {
    if s.count == 1 {
      CountBelow(s.slots, UT_COUNT, 0);
    }
    if forall k: nat | 0 < k < UT_COUNT :: !s.slots[k].used {
      CountRoot(s.slots, UT_COUNT);
    }
  }

  // ----- Runs -----

  /** What the running thread does: yield, create a thread in slot k if that is free, or exit (the root waits instead). */
  datatype Act = Yield | Create(k: nat) | Exit

  function Do(s: Table, a: Act): Table
    requires WellSized(s.slots) && s.index < UT_COUNT
  {
    match a
    case Yield => Scheduled(s)
    case Create(k) => if k < UT_COUNT && !s.slots[k].used then Created(s, k) else s
    case Exit => if s.index == 1 then Scheduled(s) else Exited(s)
  }

  lemma {:induction false} DoInv(s: Table, a: Act)
    requires Inv(s) && s.tid >= 0
    ensures Inv(Do(s, a)) && Do(s, a).tid >= 0 && s.exited <= Do(s, a).exited
  {
    match a
    case Yield => ScheduledInv(s);
    case Create(k) =>
      if k < UT_COUNT && !s.slots[k].used {
        CreatedInv(s, k);
      }
    case Exit =>
      if s.index == 1 {
        ScheduledInv(s);
      } else {
        ExitedInv(s);
      }
  }

  function Run(s: Table, acts: seq<Act>, k: nat): Table
    requires k <= |acts|
  {
    if k == 0 then s
    else
      var r := Run(s, acts, k - 1);
      if WellSized(r.slots) && r.index < UT_COUNT then Do(r, acts[k - 1]) else r
  }

  /** In every run the globals stay consistent, and no thread that has exited runs. */
  lemma {:induction false} RunInv(s: Table, acts: seq<Act>, k: nat)
    requires Inv(s) && s.tid >= 0 && k <= |acts|
    ensures Inv(Run(s, acts, k)) && Run(s, acts, k).tid >= 0
    ensures WellSized(Run(s, acts, k).slots) && Run(s, acts, k).index < UT_COUNT
    ensures Run(s, acts, k).running !in Run(s, acts, k).exited && s.exited <= Run(s, acts, k).exited
  {
    if k > 0 {
      RunInv(s, acts, k - 1);
      hide Do;
      DoInv(Run(s, acts, k - 1), acts[k - 1]);
    }
    var r := Run(s, acts, k);
    assert SlotOk(r, Prev(r.index));
  }

  /** The calls among the first k that switch. */
  function Switches(acts: seq<Act>, k: nat): nat
    requires k <= |acts|
  {
    if k == 0 then 0 else Switches(acts, k - 1) + (if acts[k - 1].Create? then 0 else 1)
  }

  /** A switch to another slot than x brings the running slot nearer to x, and x stays in use. */
  lemma {:induction false} Nearer(s: Table, a: Act, x: nat)
    requires Inv(s) && s.tid >= 0 && x < UT_COUNT && s.slots[x].used && x != Prev(s.index)
    ensures Do(s, a).index < UT_COUNT && |Do(s, a).slots| == UT_COUNT && Do(s, a).slots[x].used
    ensures a.Create? ==> Prev(Do(s, a).index) == Prev(s.index)
    ensures !a.Create? ==> Prev(Do(s, a).index) == x || Dist(Prev(Do(s, a).index), x) < Dist(Prev(s.index), x)
  {
    if !a.Create? {
      var cur := Prev(s.index);
      var s1 := if a.Exit? && s.index != 1 then Leaving(s) else s;
      var t := Target(s1, x);
      if s.count == 1 {
        CountBelow(s.slots, UT_COUNT, 0);
      }
    }
  }

  /** Bounded waiting: a thread in use is run within UT_COUNT - 1 switches. If it has not run in k calls, fewer than
      that many of them switched. */
  lemma {:induction false} WaitsLess(s: Table, acts: seq<Act>, k: nat, x: nat)
    requires Inv(s) && s.tid >= 0 && k <= |acts| && x < UT_COUNT && s.slots[x].used
    requires forall j: nat | j <= k :: Prev(Run(s, acts, j).index) != x
    ensures Switches(acts, k) < UT_COUNT - 1
    ensures |Run(s, acts, k).slots| == UT_COUNT && Run(s, acts, k).slots[x].used
    ensures Dist(Prev(Run(s, acts, k).index), x) + Switches(acts, k) <= UT_COUNT - 1
  {
    hide Inv, Do, Run, Prev, Dist;
    RunInv(s, acts, k);
    if k > 0 {
      RunInv(s, acts, k - 1);
      RunSteps(s, acts, k);
      WaitsLess(s, acts, k - 1, x);
      Nearer(Run(s, acts, k - 1), acts[k - 1], x);
    } else {
      RunSteps(s, acts, 0);
    }
    Apart(Run(s, acts, k).index, x);
  }

  lemma {:induction false} RunSteps(s: Table, acts: seq<Act>, k: nat)
    requires k <= |acts| && (k > 0 ==> WellSized(Run(s, acts, k - 1).slots) && Run(s, acts, k - 1).index < UT_COUNT)
    ensures Run(s, acts, 0) == s && (k > 0 ==> Run(s, acts, k) == Do(Run(s, acts, k - 1), acts[k - 1]))
  {
    hide Do;
  }

  lemma {:induction false} Apart(i: nat, x: nat)
    requires i < UT_COUNT && x < UT_COUNT && Prev(i) != x
    ensures 1 <= Dist(Prev(i), x) <= UT_COUNT - 1
  {
  }
}
