/** The calls of sem_wait and sem_signal in a run of Semaphore, counted from outside: when a thread leaves Idle and when it
    comes back. Every call moves the count once, and every wait that is let through or released returns. */
module SemaphoreCalls {
  import opened Common
  import opened RingQueue
  import opened Semaphore

  /** The part of a call that a thread is in: before the count has moved, between that and the grant, after it. */
  datatype Part = Outside | Entering | Waiting | Leaving | Signalling | Signalled

  function PartOf(p: Pc): Part {
    match p
    case Idle => Outside
    case WaitEnter | WaitTest => Entering
    case MustSleep | MustSleepP | Queued | Dropping | Asleep => Waiting
    case Woken | Resumed | Reacquire | WaitExit => Leaving
    case SigEnter | SigCount => Signalling
    case Counted | CountedP | Popped | SigExit => Signalled
  }

  predicate Waits(p: Part) {
    p.Entering? || p.Waiting? || p.Leaving?
  }

  function In(pc: map<nat, Pc>, part: Part): set<nat> {
    set t | t in pc && PartOf(pc[t]) == part
  }

  /** A call of the kind begins in the k-th choice. */
  predicate Begins(s0: State, choices: seq<Choice>, k: nat, c: Call)
    requires k < |choices|
  {
    var s, x := Run(s0, choices, k), choices[k];
    Enabled(s, x.t) && s.pc[x.t] == Idle && x.c == c
  }

  /** A call of the kind returns in the k-th choice. */
  predicate Returns(s0: State, choices: seq<Choice>, k: nat, c: Call)
    requires k < |choices|
  {
    var s, x, s' := Run(s0, choices, k), choices[k], Run(s0, choices, k + 1);
    && Enabled(s, x.t) && s.pc[x.t] != Idle && x.t in s'.pc && s'.pc[x.t] == Idle
    && (c == Wait <==> Waits(PartOf(s.pc[x.t])))
  }

  function Begun(s0: State, choices: seq<Choice>, k: nat, c: Call): nat
    requires k <= |choices|
  {
    if k == 0 then 0 else Begun(s0, choices, k - 1, c) + if Begins(s0, choices, k - 1, c) then 1 else 0
  }

  function Returned(s0: State, choices: seq<Choice>, k: nat, c: Call): nat
    requires k <= |choices|
  {
    if k == 0 then 0 else Returned(s0, choices, k - 1, c) + if Returns(s0, choices, k - 1, c) then 1 else 0
  }

  /** 1 if the thread is in the part. */
  function Is(pc: map<nat, Pc>, t: nat, part: Part): int
    requires t in pc
  {
    if PartOf(pc[t]) == part then 1 else 0
  }

  /** The others in the part. */
  function Others(pc: map<nat, Pc>, t: nat, part: Part): set<nat> {
    set u | u in pc && u != t && PartOf(pc[u]) == part
  }

  lemma {:induction false} Split(pc: map<nat, Pc>, t: nat, part: Part)
    requires t in pc
    ensures |In(pc, part)| == |Others(pc, t, part)| + Is(pc, t, part)
  {
    hide PartOf;
    if PartOf(pc[t]) == part {
      assert In(pc, part) == Others(pc, t, part) + {t};
    } else {
      assert In(pc, part) == Others(pc, t, part);
    }
  }

  lemma {:induction false} InMove(pc: map<nat, Pc>, t: nat, p: Pc, part: Part)
    requires t in pc
    ensures |In(pc[t := p], part)| == |In(pc, part)| - Is(pc, t, part) + if PartOf(p) == part then 1 else 0
  {
    hide PartOf, In;
    Split(pc, t, part);
    Split(pc[t := p], t, part);
    assert Others(pc[t := p], t, part) == Others(pc, t, part);
  }

  lemma {:induction false} StepPart(s: State, t: nat, c: Call, part: Part)
    requires Enabled(s, t) && !s.pc[t].CountedP?
    ensures t in Step(s, t, c).pc
    ensures |In(Step(s, t, c).pc, part)| == |In(s.pc, part)| - Is(s.pc, t, part) + Is(Step(s, t, c).pc, t, part)
  {
    hide In;
    var p := Step(s, t, c).pc[t];
    InMove(s.pc, t, p, part);
    assert Step(s, t, c).pc == s.pc[t := p];
  }

  lemma {:induction false} WakePart(s: State, t: nat, c: Call, part: Part)
    requires Enabled(s, t) && s.pc[t].CountedP? && (s.queue != [] ==> s.queue[0] in s.pc && s.queue[0] != t && s.pc[s.queue[0]] == Asleep)
    ensures |In(Step(s, t, c).pc, part)| == |In(s.pc, part)| + (if s.queue == [] then 0 else if part == Leaving then 1 else if part == Waiting then -1 else 0)
  {
    hide In;
    InMove(s.pc, t, Popped, part);
    if s.queue != [] {
      InMove(s.pc[t := Popped], s.queue[0], Woken, part);
    }
  }

  /** Calls of wait begun and returned against the books and the threads in each part. */
  predicate WaitTally(s: State, begun: nat, returned: nat) {
    begun == s.waits + |In(s.pc, Entering)| && s.granted == returned + |In(s.pc, Leaving)|
  }

  predicate SignalTally(s: State, begun: nat, returned: nat) {
    begun == s.signals + |In(s.pc, Signalling)| && s.signals == returned + |In(s.pc, Signalled)|
  }

  /** How many calls of the kind a step begins, and returns from. */
  function Begin1(s: State, t: nat, c: Call, kind: Call): nat
    requires Enabled(s, t)
  {
    if s.pc[t] == Idle && c == kind then 1 else 0
  }

  function Return1(s: State, t: nat, c: Call, kind: Call): nat
    requires Enabled(s, t)
  {
    var s' := Step(s, t, c);
    if s.pc[t] != Idle && t in s'.pc && s'.pc[t] == Idle && (kind == Wait <==> Waits(PartOf(s.pc[t]))) then 1 else 0
  }

  lemma {:induction false} WaitEffect(s: State, t: nat, c: Call)
    requires Enabled(s, t)
    ensures var s' := Step(s, t, c);
      if s.pc[t].CountedP? then
        && s'.waits == s.waits && s'.granted == s.granted + (if s.queue == [] then 0 else 1)
        && Begin1(s, t, c, Wait) == Return1(s, t, c, Wait) == 0
      else
        && t in s'.pc && s'.waits - s.waits == Is(s.pc, t, Entering) - Is(s'.pc, t, Entering) + Begin1(s, t, c, Wait)
        && s'.granted - s.granted == Is(s'.pc, t, Leaving) - Is(s.pc, t, Leaving) + Return1(s, t, c, Wait)
  {
  }

  lemma {:induction false} SignalEffect(s: State, t: nat, c: Call)
    requires Enabled(s, t)
    ensures var s' := Step(s, t, c);
      if s.pc[t].CountedP? then
        && s'.signals == s.signals && Begin1(s, t, c, Signal) == 0 && (s.queue == [] || s.queue[0] != t ==> Return1(s, t, c, Signal) == 0)
      else
        && t in s'.pc && s'.signals - s.signals == Is(s.pc, t, Signalling) - Is(s'.pc, t, Signalling) + Begin1(s, t, c, Signal)
        && s'.signals - s.signals == Is(s'.pc, t, Signalled) - Is(s.pc, t, Signalled) + Return1(s, t, c, Signal)
  {
  }

  lemma {:induction false} StepWaits(s: State, t: nat, c: Call, begun: nat, returned: nat)
    requires Enabled(s, t) && WaitTally(s, begun, returned)
    requires s.pc[t].CountedP? && s.queue != [] ==> s.queue[0] in s.pc && s.queue[0] != t && s.pc[s.queue[0]] == Asleep
    ensures WaitTally(Step(s, t, c), begun + Begin1(s, t, c, Wait), returned + Return1(s, t, c, Wait))
  {
    hide In, Step, PartOf, Begin1, Return1, Is;
    WaitEffect(s, t, c);
    if s.pc[t].CountedP? {
      WakePart(s, t, c, Entering);
      WakePart(s, t, c, Leaving);
    } else {
      StepPart(s, t, c, Entering);
      StepPart(s, t, c, Leaving);
    }
  }

  lemma {:induction false} StepSignals(s: State, t: nat, c: Call, begun: nat, returned: nat)
    requires Enabled(s, t) && SignalTally(s, begun, returned)
    requires s.pc[t].CountedP? && s.queue != [] ==> s.queue[0] in s.pc && s.queue[0] != t && s.pc[s.queue[0]] == Asleep
    ensures SignalTally(Step(s, t, c), begun + Begin1(s, t, c, Signal), returned + Return1(s, t, c, Signal))
  {
    hide In, Step, PartOf, Begin1, Return1, Is;
    SignalEffect(s, t, c);
    if s.pc[t].CountedP? {
      WakePart(s, t, c, Signalling);
      WakePart(s, t, c, Signalled);
    } else {
      StepPart(s, t, c, Signalling);
      StepPart(s, t, c, Signalled);
    }
  }

  lemma {:induction false} StartTally(init: int, threads: set<nat>)
    ensures WaitTally(Start(init, threads), 0, 0) && SignalTally(Start(init, threads), 0, 0)
  {
    forall part: Part | part != Outside
      ensures In(Start(init, threads).pc, part) == {}
    {
    }
  }

  /** In every run: each call of wait that has gone past its test, and no other, has lowered the count, once; each wait that
      was granted has returned or is on its way out; and each call of signal has raised the count once. */
  lemma {:induction false} CallsCount(init: int, threads: set<nat>, choices: seq<Choice>, k: nat)
    requires k <= |choices|
    ensures var s0 := Start(init, threads);
      && WaitTally(Run(s0, choices, k), Begun(s0, choices, k, Wait), Returned(s0, choices, k, Wait))
      && SignalTally(Run(s0, choices, k), Begun(s0, choices, k, Signal), Returned(s0, choices, k, Signal))
  {
    hide Step, Enabled, WaitTally, SignalTally, Inv;
    var s0 := Start(init, threads);
    if k == 0 {
      StartTally(init, threads);
    } else {
      CallsCount(init, threads, choices, k - 1);
      RunInv(init, threads, choices, k - 1);
      var s, x := Run(s0, choices, k - 1), choices[k - 1];
      if Enabled(s, x.t) {
        FirstSleeps(s, x.t);
        StepWaits(s, x.t, x.c, Begun(s0, choices, k - 1, Wait), Returned(s0, choices, k - 1, Wait));
        StepSignals(s, x.t, x.c, Begun(s0, choices, k - 1, Signal), Returned(s0, choices, k - 1, Signal));
      }
    }
  }

  lemma {:induction false} FirstSleeps(s: State, t: nat)
    requires Inv(s) && Enabled(s, t)
    ensures t in s.pc
    ensures s.pc[t].CountedP? && s.queue != [] ==> s.queue[0] in s.pc && s.queue[0] != t && s.pc[s.queue[0]] == Asleep
  {
    hide Books;
    assert ThreadOk(s, t);
    if s.pc[t].CountedP? && s.queue != [] {
      assert s.queue[0] in s.queue;
      assert ThreadOk(s, s.queue[0]);
      WokenSleeps(s, t);
    }
  }

  // ----- A released thread returns -----

  /** The way out of sem_wait from the wakeup on. */
  function WayOut(m: nat): Pc {
    if m == 0 then Woken else if m == 1 then Resumed else if m == 2 then Reacquire else if m == 3 then WaitExit else Idle
  }

  /** How many steps thread t takes in the choices from k to n. */
  function Own(s0: State, choices: seq<Choice>, k: nat, n: nat, t: nat): nat
    requires k <= n <= |choices|
    decreases n - k
  {
    if k == n then 0
    else Own(s0, choices, k, n - 1, t) + if choices[n - 1].t == t && Enabled(Run(s0, choices, n - 1), t) then 1 else 0
  }

  lemma {:induction false} OwnStep(s: State, t: nat, c: Call, m: nat)
    requires Enabled(s, t) && m < 4 && s.pc[t] == WayOut(m)
    ensures var s' := Step(s, t, c);
      t in s'.pc && s'.pc[t] == WayOut(m + 1) && s'.count == s.count && s'.queue == s.queue && s'.waits == s.waits && s'.signals == s.signals
  {
  }

  lemma {:induction false} OtherStep(s: State, u: nat, c: Call, t: nat, m: nat)
    requires Inv(s) && Enabled(s, u) && u != t && t in s.pc && m < 4 && s.pc[t] == WayOut(m)
    ensures t in Step(s, u, c).pc && Step(s, u, c).pc[t] == s.pc[t]
  {
    hide Books, Step;
    assert ThreadOk(s, t);
    assert s.queue != [] ==> s.queue[0] in s.queue;
    hide Inv, ThreadOk;
    NotFirst(s, u, c, t);
  }

  lemma {:induction false} NotFirst(s: State, u: nat, c: Call, t: nat)
    requires Enabled(s, u) && u != t && t in s.pc && (s.queue != [] ==> s.queue[0] != t)
    ensures t in Step(s, u, c).pc && Step(s, u, c).pc[t] == s.pc[t]
  {
  }

  /** Whatever the other threads do, a thread that a signal has released is back after four steps of its own, and never
      tests the count again. */
  lemma {:induction false} ReleasedReturns(init: int, threads: set<nat>, choices: seq<Choice>, k: nat, n: nat, t: nat)
    requires k <= n <= |choices| && t in Run(Start(init, threads), choices, k).pc && Run(Start(init, threads), choices, k).pc[t] == Woken
    requires k == n || Own(Start(init, threads), choices, k, n - 1, t) < 4
    ensures var s := Run(Start(init, threads), choices, n);
      t in s.pc && s.pc[t] == WayOut(Own(Start(init, threads), choices, k, n, t))
    decreases n - k
  {
    hide Step, Enabled, Inv, Start;
    if k < n {
      ReleasedReturns(init, threads, choices, k, n - 1, t);
      RunInv(init, threads, choices, n - 1);
      var s0 := Start(init, threads);
      var s, x, m := Run(s0, choices, n - 1), choices[n - 1], Own(s0, choices, k, n - 1, t);
      if Enabled(s, x.t) {
        if x.t == t {
          OwnStep(s, t, x.c, m);
        } else {
          OtherStep(s, x.t, x.c, t, m);
        }
      }
    }
  }

  // ----- Somebody can always go on -----

  /** In every run in which some thread is inside a call and not asleep, some thread inside a call can take a step. */
  lemma {:induction false} SomebodyMoves(init: int, threads: set<nat>, choices: seq<Choice>, k: nat, t: nat) returns (u: nat)
    requires k <= |choices| && t in Run(Start(init, threads), choices, k).pc
    requires Run(Start(init, threads), choices, k).pc[t] != Idle && Run(Start(init, threads), choices, k).pc[t] != Asleep
    ensures var s := Run(Start(init, threads), choices, k);
      Enabled(s, u) && s.pc[u] != Idle && s.pc[u] != Asleep
  {
    hide Run, Start, Books;
    RunInv(init, threads, choices, k);
    var s := Run(Start(init, threads), choices, k);
    u := if s.ptlock.Some? then s.ptlock.value else if s.lock.Some? then s.lock.value else t;
    assert ThreadOk(s, u);
    assert ThreadOk(s, t);
  }
}
