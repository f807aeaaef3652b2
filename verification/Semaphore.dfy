/** One semaphore of proc.c and the threads that use it, as a state machine: a step is what a thread does between two
    points at which another thread or CPU can get in. `lock` is s->lock and `ptlock` is ptable.lock, each with its
    holder; `ncli` is the depth of pushcli on the CPU that runs the thread. */
module Semaphore {
  import opened Common
  import opened RingQueue

  /** Where a thread is. In wait: before and after acquire(&s->lock), after the count went down (without and with
      ptable.lock), queued, s->lock given up, asleep, made runnable, back from sched, before the second acquire,
      before the release. In signal: before and after the acquire, after the count went up (without and with
      ptable.lock), after the pop, before the release. */
  datatype Pc =
    | Idle
    | WaitEnter | WaitTest | MustSleep | MustSleepP | Queued | Dropping | Asleep | Woken | Resumed | Reacquire | WaitExit
    | SigEnter | SigCount | Counted | CountedP | Popped | SigExit

  datatype State = State(
    init: int, count: int, queue: seq<nat>, lock: Option<nat>, ptlock: Option<nat>, pc: map<nat, Pc>, ncli: map<nat, int>,
    waits: nat, signals: nat, granted: nat, enqueued: seq<nat>, released: seq<nat>, lost: set<nat>)

  /** What an idle thread does next. */
  datatype Call = Wait | Signal

  function Start(init: int, threads: set<nat>): State {
    State(init, init, [], None, None, map t | t in threads :: Idle, map t | t in threads :: 0, 0, 0, 0, [], [], {})
  }

  /** Thread t goes to pc p on a CPU whose depth changes by d. */
  function Goto(s: State, t: nat, p: Pc, d: int): State
    requires t in s.ncli
  {
    s.(pc := s.pc[t := p], ncli := s.ncli[t := s.ncli[t] + d])
  }

  predicate Enabled(s: State, t: nat) {
    && t in s.pc && t in s.ncli
    && match s.pc[t]
       case WaitEnter | Reacquire | SigEnter => s.lock == None
       case MustSleep | Counted | Woken => s.ptlock == None
       case Asleep => false
       case _ => true
  }

  function Step(s: State, t: nat, c: Call): State
    requires Enabled(s, t)
  {
    match s.pc[t]
    case Idle => if c == Wait then Goto(s, t, WaitEnter, 1) else Goto(s, t, SigEnter, 1)
    // sem_wait
    case WaitEnter => Goto(s, t, WaitTest, 1).(lock := Some(t))
    case WaitTest =>
      if s.count <= 0 then Goto(s, t, MustSleep, 0).(count := s.count - 1, waits := s.waits + 1)
      else Goto(s, t, WaitExit, 0).(count := s.count - 1, waits := s.waits + 1, granted := s.granted + 1)
    case MustSleep => Goto(s, t, MustSleepP, 1).(ptlock := Some(t))
    case MustSleepP =>
      if |s.queue| == MAXQ then Goto(s, t, Queued, 0).(queue := Pushed(s.queue, t), lost := s.lost + {t})
      else Goto(s, t, Queued, 0).(queue := Pushed(s.queue, t), enqueued := s.enqueued + [t])
    case Queued => Goto(s, t, Dropping, -1).(lock := None)
    case Dropping => Goto(s, t, Asleep, -1).(ptlock := None)
    case Asleep => s
    case Woken => s.(pc := s.pc[t := Resumed], ncli := s.ncli[t := 1], ptlock := Some(t))
    case Resumed => Goto(s, t, Reacquire, 0).(ptlock := None)
    case Reacquire => Goto(s, t, WaitExit, 1).(lock := Some(t))
    case WaitExit => Goto(s, t, Idle, -2).(lock := None)
    // sem_signal
    case SigEnter => Goto(s, t, SigCount, 1).(lock := Some(t))
    case SigCount => Goto(s, t, Counted, 0).(count := s.count + 1, signals := s.signals + 1)
    case Counted => Goto(s, t, CountedP, 1).(ptlock := Some(t))
    case CountedP => Wake(Goto(s, t, Popped, 0))
    case Popped => Goto(s, t, SigExit, -1).(ptlock := None)
    case SigExit => Goto(s, t, Idle, -2).(lock := None)
  }

  /** sem_wakeup: the first thread in the queue becomes runnable. */
  function Wake(s: State): State {
    if s.queue == [] then s
    else s.(pc := s.pc[s.queue[0] := Woken], queue := s.queue[1..], granted := s.granted + 1, released := s.released + [s.queue[0]])
  }

  // ----- What every step keeps -----

  /** Depth of pushcli at each point. */
  function Depth(p: Pc): int {
    match p
    case Idle => 0
    case WaitEnter | SigEnter | Resumed | Reacquire => 1
    case WaitTest | MustSleep | Dropping | WaitExit | SigCount | Counted | SigExit => 2
    case MustSleepP | Queued | CountedP | Popped => 3
    case Asleep | Woken => 1
  }

  predicate HoldsLock(p: Pc) {
    match p
    case WaitTest | MustSleep | MustSleepP | Queued | WaitExit | SigCount | Counted | CountedP | Popped | SigExit => true
    case _ => false
  }

  predicate HoldsPtLock(p: Pc) {
    match p
    case MustSleepP | Queued | Dropping | Resumed | CountedP | Popped => true
    case _ => false
  }

  predicate InQueue(p: Pc) {
    p.Queued? || p.Dropping? || p.Asleep?
  }

  /** A thread's place agrees with the locks, the depth and the queue. */
  predicate ThreadOk(s: State, t: nat)
    requires t in s.pc
  {
    && t in s.ncli && s.ncli[t] == Depth(s.pc[t])
    && (HoldsLock(s.pc[t]) <==> s.lock == Some(t))
    && (HoldsPtLock(s.pc[t]) <==> s.ptlock == Some(t))
    && (InQueue(s.pc[t]) <==> t in s.queue || t in s.lost) && !(t in s.queue && t in s.lost)
  }

  predicate NoDup(q: seq<nat>) {
    q == [] || (q[0] !in q[1..] && NoDup(q[1..]))
  }

  function Deficit(count: int): nat {
    if count < 0 then -count else 0
  }

  /** What the holder of the lock has done to the count and not yet to the queue: 1 when it has yet to queue itself,
      -1 when it has yet to wake somebody. */
  function Pending(s: State): int {
    if s.lock == None || s.lock.value !in s.pc then 0
    else match s.pc[s.lock.value]
      case MustSleep | MustSleepP => 1
      case Counted | CountedP => -1
      case _ => 0
  }

  ghost predicate Threads(s: State) {
    && (forall t | t in s.pc :: ThreadOk(s, t))
    && (s.lock.Some? ==> s.lock.value in s.pc) && (s.ptlock.Some? ==> s.ptlock.value in s.pc)
    && (forall t | t in s.queue || t in s.lost :: t in s.pc) && s.pc.Keys == s.ncli.Keys
  }

  /** The books: waits and signals against the count, the queue against the count, the grants, and first in first
      out. Threads that push_back dropped, and an initial count below zero, leave the queue shorter than the count says. */
  predicate Books(s: State) {
    && s.count == s.init - s.waits + s.signals
    && |s.queue| <= Deficit(s.count + Pending(s)) <= |s.queue| + |s.lost| + Deficit(s.init) && (Pending(s) == 1 ==> s.count < 0)
    && s.granted + |s.queue| + |s.lost| + (if Pending(s) == 1 then 1 else 0) == s.waits
    && s.enqueued == s.released + s.queue
  }

  ghost predicate Inv(s: State) {
    Threads(s) && Books(s) && NoDup(s.queue) && |s.queue| <= MAXQ
  }

  lemma {:induction false} StartInv(init: int, threads: set<nat>)
    ensures Inv(Start(init, threads))
  {
  }

  lemma {:induction false} StepSelf(s: State, t: nat, c: Call)
    requires Enabled(s, t) && ThreadOk(s, t) && !s.pc[t].CountedP?
    ensures t in Step(s, t, c).pc && ThreadOk(Step(s, t, c), t)
  {
  }

  lemma {:induction false} StepOther(s: State, t: nat, c: Call, u: nat)
    requires Enabled(s, t) && u in s.pc && u != t && ThreadOk(s, t) && ThreadOk(s, u) && !s.pc[t].CountedP?
    ensures u in Step(s, t, c).pc && ThreadOk(Step(s, t, c), u)
  {
  }

  /** Whoever is woken is asleep by then: it held ptable.lock from before it was queued until it slept. */
  lemma {:induction false} WokenSleeps(s: State, t: nat)
    requires Enabled(s, t) && s.pc[t].CountedP? && s.queue != [] && s.queue[0] in s.pc
    requires ThreadOk(s, t) && ThreadOk(s, s.queue[0])
    ensures s.pc[s.queue[0]] == Asleep && s.queue[0] != t
  {
  }

  lemma {:induction false} WakeThread(s: State, t: nat, c: Call, u: nat)
    requires Enabled(s, t) && s.pc[t].CountedP? && u in s.pc && ThreadOk(s, t) && ThreadOk(s, u) && NoDup(s.queue)
    requires s.queue != [] ==> s.queue[0] in s.pc && ThreadOk(s, s.queue[0])
    ensures u in Step(s, t, c).pc && ThreadOk(Step(s, t, c), u)
  {
    if s.queue != [] {
      WokenSleeps(s, t);
      assert u in s.queue <==> u == s.queue[0] || u in s.queue[1..];
    }
  }

  lemma {:induction false} StepKeys(s: State, t: nat, c: Call)
    requires Enabled(s, t) && s.pc.Keys == s.ncli.Keys && (s.queue != [] ==> s.queue[0] in s.pc)
    ensures Step(s, t, c).pc.Keys == s.pc.Keys && Step(s, t, c).ncli.Keys == s.ncli.Keys
    ensures forall u | u in Step(s, t, c).queue :: u == t || u in s.queue
    ensures s.lost <= Step(s, t, c).lost <= s.lost + {t}
    ensures Step(s, t, c).lock == s.lock || Step(s, t, c).lock == None || Step(s, t, c).lock == Some(t)
    ensures Step(s, t, c).ptlock == s.ptlock || Step(s, t, c).ptlock == None || Step(s, t, c).ptlock == Some(t)
  {
  }

  lemma {:induction false} StepThreads(s: State, t: nat, c: Call)
    requires Threads(s) && NoDup(s.queue) && Enabled(s, t)
    ensures Threads(Step(s, t, c))
  {
    hide Step, ThreadOk;
    var s' := Step(s, t, c);
    StepKeys(s, t, c);
    forall u | u in s'.pc
      ensures ThreadOk(s', u)
    {
      if s.pc[t].CountedP? {
        WakeThread(s, t, c, u);
      } else if u == t {
        StepSelf(s, t, c);
      } else {
        StepOther(s, t, c, u);
      }
    }
  }

  // ----- The books -----

  lemma {:induction false} PushNoDup(q: seq<nat>, t: nat)
    requires NoDup(q) && t !in q
    ensures NoDup(q + [t])
  {
    if q != [] {
      assert (q + [t])[1..] == q[1..] + [t];
      PushNoDup(q[1..], t);
    }
  }

  lemma {:induction false} StepNoDup(s: State, t: nat, c: Call)
    requires NoDup(s.queue) && Enabled(s, t) && ThreadOk(s, t)
    ensures NoDup(Step(s, t, c).queue)
  {
    if s.pc[t].MustSleepP? {
      PushNoDup(s.queue, t);
    }
  }

  /** The steps that move the count or the queue. */
  predicate Moves(p: Pc) {
    p.WaitTest? || p.MustSleepP? || p.SigCount? || p.CountedP?
  }

  lemma {:induction false} QuietBooks(s: State, t: nat, c: Call)
    requires Books(s) && Enabled(s, t) && !Moves(s.pc[t]) && ThreadOk(s, t) && (s.lock.Some? ==> s.lock.value in s.pc && ThreadOk(s, s.lock.value))
    ensures Books(Step(s, t, c))
  {
  }

  lemma {:induction false} MoveBooks(s: State, t: nat, c: Call)
    requires Books(s) && Enabled(s, t) && Moves(s.pc[t]) && ThreadOk(s, t)
    requires s.queue != [] ==> s.queue[0] in s.pc && ThreadOk(s, s.queue[0])
    ensures Books(Step(s, t, c))
  {
    assert s.queue != [] ==> s.released + s.queue == (s.released + [s.queue[0]]) + s.queue[1..];
    assert s.released + (s.queue + [t]) == (s.released + s.queue) + [t];
  }

  lemma {:induction false} StepBooks(s: State, t: nat, c: Call)
    requires Threads(s) && Books(s) && Enabled(s, t)
    ensures Books(Step(s, t, c))
  {
    hide Books, ThreadOk, Step;
    if Moves(s.pc[t]) {
      MoveBooks(s, t, c);
    } else {
      QuietBooks(s, t, c);
    }
  }

  lemma {:induction false} StepInv(s: State, t: nat, c: Call)
    requires Inv(s) && Enabled(s, t)
    ensures Inv(Step(s, t, c)) && Step(s, t, c).init == s.init
  {
    hide Books, ThreadOk, Step;
    StepThreads(s, t, c);
    StepBooks(s, t, c);
    StepNoDup(s, t, c);
    StepSizes(s, t, c);
    hide Threads;
  }

  lemma {:induction false} StepSizes(s: State, t: nat, c: Call)
    requires Enabled(s, t) && |s.queue| <= MAXQ
    ensures Step(s, t, c).init == s.init && |Step(s, t, c).queue| <= MAXQ
  {
  }

  // ----- Runs -----

  datatype Choice = Choice(t: nat, c: Call)

  /** The state after the first k choices. A choice that is not enabled does nothing. */
  function Run(s: State, choices: seq<Choice>, k: nat): State
    requires k <= |choices|
  {
    if k == 0 then s
    else
      var r := Run(s, choices, k - 1);
      var x := choices[k - 1];
      if Enabled(r, x.t) then Step(r, x.t, x.c) else r
  }

  lemma {:induction false} RunInv(init: int, threads: set<nat>, choices: seq<Choice>, k: nat)
    requires k <= |choices|
    ensures Inv(Run(Start(init, threads), choices, k)) && Run(Start(init, threads), choices, k).init == init
    ensures Run(Start(init, threads), choices, k).pc.Keys == threads
  {
    hide Inv, Start, Step, Enabled;
    StartInv(init, threads);
    StartThreads(init, threads);
    if k > 0 {
      RunInv(init, threads, choices, k - 1);
      var r, x := Run(Start(init, threads), choices, k - 1), choices[k - 1];
      if Enabled(r, x.t) {
        StepInv(r, x.t, x.c);
        StepThreadsSame(r, x.t, x.c);
      }
    }
  }

  lemma {:induction false} StartThreads(init: int, threads: set<nat>)
    ensures Start(init, threads).pc.Keys == threads && Start(init, threads).init == init
  {
  }

  lemma {:induction false} StepThreadsSame(s: State, t: nat, c: Call)
    requires Inv(s) && Enabled(s, t)
    ensures Step(s, t, c).pc.Keys == s.pc.Keys
  {
    hide Step, ThreadOk;
    StepKeys(s, t, c);
  }

  function Max(a: int, b: int): int {
    if a < b then b else a
  }

  /** In every run, from any initial value and however many threads there are: the count is the initial value less waits
      plus signals; when the lock is free the queue holds no more threads than the count is below zero, and exactly as
      many if none was dropped and the initial value was not negative; no more waits have been granted than the initial
      value and the signals allow; and threads are released in the order in which they were queued. */
  lemma {:induction false} Accounting(init: int, threads: set<nat>, choices: seq<Choice>, k: nat)
    requires k <= |choices|
    ensures var s := Run(Start(init, threads), choices, k);
      && s.count == init - s.waits + s.signals
      && (s.lock == None ==> |s.queue| <= Deficit(s.count) <= |s.queue| + |s.lost| + Deficit(init))
      && s.granted <= Max(init, 0) + s.signals
      && s.enqueued == s.released + s.queue
  {
    hide Start, Run;
    RunInv(init, threads, choices, k);
    hide Threads;
  }

  function Sleepers(s: State): set<nat> {
    set t | t in s.pc && InQueue(s.pc[t])
  }

  /** The threads that wait to be woken are exactly those in the queue, each once, and those that were dropped. */
  lemma {:induction false} SleepersQueued(init: int, threads: set<nat>, choices: seq<Choice>, k: nat)
    requires k <= |choices|
    ensures var s := Run(Start(init, threads), choices, k);
      s.lost <= Sleepers(s) && |Sleepers(s)| == |s.queue| + |s.lost|
  {
    hide Start, Run, Books;
    RunInv(init, threads, choices, k);
    var s := Run(Start(init, threads), choices, k);
    forall t | t in s.pc
      ensures t in s.queue || t in s.lost <==> InQueue(s.pc[t])
      ensures !(t in s.queue && t in s.lost)
    {
      assert ThreadOk(s, t);
    }
    NoDupCard(s.queue, Sleepers(s) - s.lost);
    assert Sleepers(s) == (Sleepers(s) - s.lost) + s.lost;
  }

  /** A thread that was dropped sleeps for ever. */
  lemma {:induction false} LostForever(init: int, threads: set<nat>, choices: seq<Choice>, k: nat, n: nat, t: nat)
    requires k <= n <= |choices| && t in Run(Start(init, threads), choices, k).lost
    ensures t in Run(Start(init, threads), choices, n).lost
    ensures t in Run(Start(init, threads), choices, n).pc && InQueue(Run(Start(init, threads), choices, n).pc[t])
    decreases n - k
  {
    hide Start, Step, Books, Run;
    if k < n {
      LostForever(init, threads, choices, k, n - 1, t);
      LostOneMore(init, threads, choices, n - 1);
    }
    RunInv(init, threads, choices, n);
    assert ThreadOk(Run(Start(init, threads), choices, n), t);
  }

  lemma {:induction false} LostOneMore(init: int, threads: set<nat>, choices: seq<Choice>, k: nat)
    requires k < |choices|
    ensures Run(Start(init, threads), choices, k).lost <= Run(Start(init, threads), choices, k + 1).lost
  {
    hide Start, Step, Books;
    RunInv(init, threads, choices, k);
    var r, x := Run(Start(init, threads), choices, k), choices[k];
    if Enabled(r, x.t) {
      StepKeys(r, x.t, x.c);
    }
  }

  lemma {:induction false} NoDupCard(q: seq<nat>, x: set<nat>)
    requires NoDup(q) && forall t :: t in x <==> t in q
    ensures |x| == |q|
  {
    if q == [] {
      assert x == {};
    } else {
      assert forall t :: t in x - {q[0]} <==> t in q[1..];
      NoDupCard(q[1..], x - {q[0]});
    }
  }

  /** No wakeup is lost: in every run, when a signaller is about to take a thread off the queue, that thread is
      asleep; and sched is always entered with one level of pushcli. */
  lemma {:induction false} NoLostWakeup(init: int, threads: set<nat>, choices: seq<Choice>, k: nat, t: nat)
    requires k <= |choices|
    ensures var s := Run(Start(init, threads), choices, k);
      && (t in s.pc && s.pc[t] == CountedP && s.queue != [] ==> s.queue[0] in s.pc && s.pc[s.queue[0]] == Asleep)
      && (t in s.pc && s.pc[t] == Dropping ==> t in s.ncli && s.ncli[t] - 1 == 1)
  {
    hide Start, Run, Books;
    RunInv(init, threads, choices, k);
    var s := Run(Start(init, threads), choices, k);
    assert t in s.pc ==> ThreadOk(s, t);
    assert s.queue != [] ==> ThreadOk(s, s.queue[0]);
    hide Threads;
  }

  /** Each lock has at most one holder. */
  lemma {:induction false} LocksExclude(init: int, threads: set<nat>, choices: seq<Choice>, k: nat, t: nat, u: nat)
    requires k <= |choices|
    ensures var s := Run(Start(init, threads), choices, k);
      && (t in s.pc && u in s.pc && HoldsLock(s.pc[t]) && HoldsLock(s.pc[u]) ==> t == u)
      && (t in s.pc && u in s.pc && HoldsPtLock(s.pc[t]) && HoldsPtLock(s.pc[u]) ==> t == u)
  {
    hide Start, Run, Books;
    RunInv(init, threads, choices, k);
    var s := Run(Start(init, threads), choices, k);
    assert t in s.pc ==> ThreadOk(s, t);
    assert u in s.pc ==> ThreadOk(s, u);
    hide Threads;
  }

  // ----- The queue's limit -----

  /** A run in which a thread is dropped. */
  ghost predicate Drops(init: int, threads: set<nat>, choices: seq<Choice>) {
    Run(Start(init, threads), choices, |choices|).lost != {}
  }

  /** Some run drops a thread if and only if there are more than MAXQ of them. */
  lemma {:induction false} QueueOverflows(init: int, threads: set<nat>)
    ensures (exists choices :: Drops(init, threads, choices)) <==> |threads| > MAXQ
  {
    hide Run, Start;
    if |threads| > MAXQ {
      var choices := DroppingRun(init, threads);
      assert Drops(init, threads, choices);
    } else {
      forall choices ensures !Drops(init, threads, choices) {
        FewThreads(init, threads, choices, |choices|);
      }
    }
  }

  /** With at most MAXQ threads none is ever dropped. */
  lemma {:induction false} FewThreads(init: int, threads: set<nat>, choices: seq<Choice>, k: nat)
    requires k <= |choices| && |threads| <= MAXQ
    ensures Run(Start(init, threads), choices, k).lost == {}
  {
    hide Books, Step;
    if k > 0 {
      FewThreads(init, threads, choices, k - 1);
      RunInv(init, threads, choices, k - 1);
      var s, x := Run(Start(init, threads), choices, k - 1), choices[k - 1];
      if Enabled(s, x.t) {
        assert ThreadOk(s, x.t);
        if x.t !in s.queue {
          Fewer(s.queue, threads - {x.t});
        }
        RoomKeeps(s, x.t, x.c);
      }
    }
  }

  lemma {:induction false} RoomKeeps(s: State, t: nat, c: Call)
    requires Enabled(s, t) && ThreadOk(s, t) && (t !in s.queue ==> |s.queue| < MAXQ)
    ensures Step(s, t, c).lost == s.lost
  {
  }

  lemma {:induction false} Fewer(q: seq<nat>, x: set<nat>)
    requires NoDup(q) && forall t | t in q :: t in x
    ensures |q| <= |x|
  {
    if q != [] {
      Fewer(q[1..], x - {q[0]});
    }
  }

  // A run that drops a thread: one thread takes what the initial count grants, the others then go to sleep one by one.

  lemma {:induction false} Go(s0: State, choices: seq<Choice>, t: nat, c: Call)
    requires Enabled(Run(s0, choices, |choices|), t)
    ensures |choices + [Choice(t, c)]| == |choices| + 1
    ensures Run(s0, choices + [Choice(t, c)], |choices| + 1) == Step(Run(s0, choices, |choices|), t, c)
  {
    RunPrefix(s0, choices, choices + [Choice(t, c)], |choices|);
  }

  lemma {:induction false} RunPrefix(s0: State, choices: seq<Choice>, more: seq<Choice>, k: nat)
    requires k <= |choices| && choices <= more
    ensures Run(s0, more, k) == Run(s0, choices, k)
  {
    if k > 0 {
      RunPrefix(s0, choices, more, k - 1);
    }
  }

  predicate Calm(s: State, t: nat) {
    s.lock == None && s.ptlock == None && t in s.pc && t in s.ncli && s.pc[t] == Idle
  }

  /** Thread t waits and is let through. */
  lemma {:induction false} PassesThrough(s0: State, choices: seq<Choice>, t: nat) returns (choices': seq<Choice>)
    requires Calm(Run(s0, choices, |choices|), t) && Run(s0, choices, |choices|).count > 0
    ensures var s, s' := Run(s0, choices, |choices|), Run(s0, choices', |choices'|);
      s'.pc == s.pc && s'.lock == s'.ptlock == None && s'.count == s.count - 1 && s'.queue == s.queue && s'.ncli.Keys == s.ncli.Keys
  {
    hide Run;
    choices' := choices;
    ghost var s := Run(s0, choices, |choices|);
    for i := 0 to 4
      invariant var r := Run(s0, choices', |choices'|);
        && t in r.ncli && r.pc == s.pc[t := [Idle, WaitEnter, WaitTest, WaitExit, Idle][i]] && r.ptlock == None && r.queue == s.queue
        && r.lock == (if 2 <= i < 4 then Some(t) else None) && r.count == (if i < 3 then s.count else s.count - 1)
        && r.ncli.Keys == s.ncli.Keys
    {
      Go(s0, choices', t, Wait);
      choices' := choices' + [Choice(t, Wait)];
    }
  }

  /** Thread t waits and goes to sleep. */
  lemma {:induction false} GoesToSleep(s0: State, choices: seq<Choice>, t: nat) returns (choices': seq<Choice>)
    requires Calm(Run(s0, choices, |choices|), t) && Run(s0, choices, |choices|).count <= 0
    ensures var s, s' := Run(s0, choices, |choices|), Run(s0, choices', |choices'|);
      && s'.pc == s.pc[t := Asleep] && s'.lock == s'.ptlock == None && s'.count == s.count - 1 && s'.ncli.Keys == s.ncli.Keys
      && (if |s.queue| == MAXQ then t in s'.lost else s'.queue == s.queue + [t])
  {
    hide Run;
    choices' := choices;
    ghost var s := Run(s0, choices, |choices|);
    for i := 0 to 7
      invariant var r := Run(s0, choices', |choices'|);
        && t in r.ncli && r.pc == s.pc[t := [Idle, WaitEnter, WaitTest, MustSleep, MustSleepP, Queued, Dropping, Asleep][i]]
        && r.lock == (if 2 <= i < 6 then Some(t) else None) && r.ptlock == (if 4 <= i < 7 then Some(t) else None)
        && r.count == (if i < 3 then s.count else s.count - 1) && r.ncli.Keys == s.ncli.Keys
        && (if i < 5 then r.queue == s.queue else if |s.queue| == MAXQ then t in r.lost else r.queue == s.queue + [t])
    {
      Go(s0, choices', t, Wait);
      choices' := choices' + [Choice(t, Wait)];
    }
  }

  /** The threads `left` are idle, j others sleep, and the next that waits will sleep too. */
  predicate Lined(s: State, left: set<nat>, j: nat) {
    && s.lock == None && s.ptlock == None && s.count <= 0 && |s.queue| == j
    && (forall t | t in left :: t in s.pc && t in s.ncli && s.pc[t] == Idle)
  }

  lemma {:induction false} Drain(init: int, threads: set<nat>, t: nat, n: nat) returns (choices: seq<Choice>)
    requires t in threads && n <= Max(init, 0)
    ensures var s := Run(Start(init, threads), choices, |choices|);
      s.pc == Start(init, threads).pc && s.lock == s.ptlock == None && s.count == init - n && s.queue == [] && s.ncli.Keys == threads
  {
    if n == 0 {
      choices := [];
    } else {
      choices := Drain(init, threads, t, n - 1);
      hide Run;
      choices := PassesThrough(Start(init, threads), choices, t);
    }
  }

  lemma {:induction false} LineUp(init: int, threads: set<nat>, j: nat) returns (choices: seq<Choice>, left: set<nat>)
    requires j <= MAXQ < |threads|
    ensures Lined(Run(Start(init, threads), choices, |choices|), left, j) && |left| == |threads| - j
  {
    if j == 0 {
      var t :| t in threads;
      choices := Drain(init, threads, t, Max(init, 0));
      left := threads;
    } else {
      choices, left := LineUp(init, threads, j - 1);
      hide Run, Start;
      var t :| t in left;
      choices := GoesToSleep(Start(init, threads), choices, t);
      left := left - {t};
    }
  }

  lemma {:induction false} DroppingRun(init: int, threads: set<nat>) returns (choices: seq<Choice>)
    requires |threads| > MAXQ
    ensures Drops(init, threads, choices)
  {
    hide Run, Start;
    var left;
    choices, left := LineUp(init, threads, MAXQ);
    var t :| t in left;
    choices := GoesToSleep(Start(init, threads), choices, t);
  }

  /** The range check on the initial count lets every value through (sysproc.c:119). In every run without drops the free
      semaphore has as many threads in its queue as its count is below zero, if and only if that count is not negative. */
  ghost predicate QueueIsDeficit(init: int, threads: set<nat>, choices: seq<Choice>) {
    var s := Run(Start(init, threads), choices, |choices|);
    s.lock == None && s.lost == {} ==> |s.queue| == Deficit(s.count)
  }

  lemma {:induction false} InitialCount(init: int, threads: set<nat>)
    ensures (forall choices :: QueueIsDeficit(init, threads, choices)) <==> init >= 0
  {
    if init >= 0 {
      forall choices ensures QueueIsDeficit(init, threads, choices) {
        Accounting(init, threads, choices, |choices|);
      }
    } else {
      assert !QueueIsDeficit(init, threads, []);
    }
  }
}
