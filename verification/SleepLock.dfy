/** Sleep locks (sleeplock.c) over sleep, wakeup and kill (proc.c:728-808), as a state machine: a step is what a thread
    does between two points at which another thread or CPU can get in. `inner` is the spin lock in the sleep lock and
    `ptlock` is ptable.lock, each with its holder; `owner` is the thread that has the sleep lock. */
module SleepLock {
  import opened Common

  // ----- The process table -----

  datatype ProcState = UNUSED | EMBRYO | SLEEPING | RUNNABLE | RUNNING | ZOMBIE | SEM_SLEEPING

  datatype Proc = Proc(state: ProcState, chan: nat, pid: int, killed: bool)

  class ProcTable {
    const proc: array<Proc>

    constructor (n: nat)
      ensures proc.Length == n && fresh(proc)
      ensures forall i | 0 <= i < n :: proc[i] == Proc(UNUSED, 0, 0, false)
    {
      proc := new Proc[n](_ => Proc(UNUSED, 0, 0, false));
    }

    /** wakeup1: exactly the processes asleep on the channel become runnable. */
    method Wakeup1(chan: nat)
      modifies proc
      ensures forall i | 0 <= i < proc.Length ::
                proc[i] == if old(proc[i]).state == SLEEPING && old(proc[i]).chan == chan then old(proc[i]).(state := RUNNABLE) else old(proc[i])
    {
      var p := 0;
      while p < proc.Length
        invariant p <= proc.Length
        invariant forall i | 0 <= i < p ::
                    proc[i] == if old(proc[i]).state == SLEEPING && old(proc[i]).chan == chan then old(proc[i]).(state := RUNNABLE) else old(proc[i])
        invariant forall i | p <= i < proc.Length :: proc[i] == old(proc[i])
      {
        if proc[p].state == SLEEPING && proc[p].chan == chan {
          proc[p] := proc[p].(state := RUNNABLE);
        }
        p := p + 1;
      }
    }

    /** kill: the first process with the pid is marked, and woken whatever it sleeps on; semaphore sleepers are not. */
    method Kill(pid: int) returns (r: int)
      modifies proc
      ensures r == 0 ==> exists k | 0 <= k < proc.Length ::
                && old(proc[k]).pid == pid && (forall i | 0 <= i < k :: old(proc[i]).pid != pid)
                && proc[k] == old(proc[k]).(killed := true, state := if old(proc[k]).state == SLEEPING then RUNNABLE else old(proc[k]).state)
                && (forall i | 0 <= i < proc.Length && i != k :: proc[i] == old(proc[i]))
      ensures r != 0 ==> r == -1 && (forall i | 0 <= i < proc.Length :: proc[i] == old(proc[i]) && proc[i].pid != pid)
    {
      var p := 0;
      while p < proc.Length
        invariant p <= proc.Length
        invariant forall i | 0 <= i < proc.Length :: proc[i] == old(proc[i])
        invariant forall i | 0 <= i < p :: proc[i].pid != pid
      {
        if proc[p].pid == pid {
          proc[p] := proc[p].(killed := true);
          if proc[p].state == SLEEPING {
            proc[p] := proc[p].(state := RUNNABLE);
          }
          return 0;
        }
        p := p + 1;
      }
      r := -1;
    }
  }

  // ----- The protocol -----

  /** Where a thread is. In acquiresleep: before and after the acquire, with both locks on the way to sleep, the inner
      lock given up, asleep, made runnable, back from sched, before the second acquire, before the release. Has is
      between the two calls. In releasesleep: before and after the acquire, after `locked` is cleared (without and
      with ptable.lock), after the wakeup, before the release. */
  datatype Pc =
    | Idle
    | AcqEnter | AcqTest | SleepBoth | SleepDrop | Asleep | Woken | Resumed | AcqAgain | AcqExit
    | Has
    | RelEnter | RelClear | RelWake | RelWakeP | RelWoke | RelExit

  datatype State = State(locked: bool, owner: Option<nat>, inner: Option<nat>, ptlock: Option<nat>, pc: map<nat, Pc>)

  /** What happens next: a thread goes on, or it is killed and with that woken. */
  datatype Event = Go(t: nat) | Kill(t: nat)

  function Start(threads: set<nat>): State {
    State(false, None, None, None, map t | t in threads :: Idle)
  }

  predicate Enabled(s: State, e: Event) {
    && e.t in s.pc
    && match e
       case Kill(t) => s.ptlock == None
       case Go(t) =>
         match s.pc[t]
         case AcqEnter | AcqAgain | RelEnter => s.inner == None
         case Woken | RelWake => s.ptlock == None
         case AcqTest => !s.locked || s.ptlock == None
         case Asleep => false
         case _ => true
  }

  function WakeAll(pc: map<nat, Pc>): map<nat, Pc> {
    map t | t in pc :: if pc[t].Asleep? then Woken else pc[t]
  }

  function Step(s: State, e: Event): State
    requires Enabled(s, e)
  {
    var t := e.t;
    if e.Kill? then s.(pc := s.pc[t := if s.pc[t].Asleep? then Woken else s.pc[t]])
    else
      match s.pc[t]
      case Idle => s.(pc := s.pc[t := AcqEnter])
      case AcqEnter | AcqAgain => s.(pc := s.pc[t := AcqTest], inner := Some(t))
      case AcqTest =>
        if s.locked then s.(pc := s.pc[t := SleepBoth], ptlock := Some(t))
        else s.(pc := s.pc[t := AcqExit], locked := true, owner := Some(t))
      case SleepBoth => s.(pc := s.pc[t := SleepDrop], inner := None)
      case SleepDrop => s.(pc := s.pc[t := Asleep], ptlock := None)
      case Asleep => s
      case Woken => s.(pc := s.pc[t := Resumed], ptlock := Some(t))
      case Resumed => s.(pc := s.pc[t := AcqAgain], ptlock := None)
      case AcqExit => s.(pc := s.pc[t := Has], inner := None)
      case Has => s.(pc := s.pc[t := RelEnter])
      case RelEnter => s.(pc := s.pc[t := RelClear], inner := Some(t))
      case RelClear => s.(pc := s.pc[t := RelWake], locked := false, owner := None)
      case RelWake => s.(pc := s.pc[t := RelWakeP], ptlock := Some(t))
      case RelWakeP => s.(pc := WakeAll(s.pc)[t := RelWoke])
      case RelWoke => s.(pc := s.pc[t := RelExit], ptlock := None)
      case RelExit => s.(pc := s.pc[t := Idle], inner := None)
  }

  predicate HoldsInner(p: Pc) {
    p.AcqTest? || p.SleepBoth? || p.AcqExit? || p.RelClear? || p.RelWake? || p.RelWakeP? || p.RelWoke? || p.RelExit?
  }

  predicate HoldsPtLock(p: Pc) {
    p.SleepBoth? || p.SleepDrop? || p.Resumed? || p.RelWakeP? || p.RelWoke?
  }

  predicate Owns(p: Pc) {
    p.AcqExit? || p.Has? || p.RelEnter? || p.RelClear?
  }

  predicate GoesToSleep(p: Pc) {
    p.SleepBoth? || p.SleepDrop? || p.Asleep?
  }

  /** Somebody has cleared `locked` and has yet to wake the sleepers. */
  predicate WakeDue(s: State) {
    s.inner.Some? && s.inner.value in s.pc && (s.pc[s.inner.value].RelWake? || s.pc[s.inner.value].RelWakeP?)
  }

  predicate ThreadOk(s: State, t: nat)
    requires t in s.pc
  {
    && (HoldsInner(s.pc[t]) <==> s.inner == Some(t))
    && (HoldsPtLock(s.pc[t]) <==> s.ptlock == Some(t))
    && (Owns(s.pc[t]) <==> s.owner == Some(t))
    && (GoesToSleep(s.pc[t]) ==> s.locked || WakeDue(s))
  }

  ghost predicate Inv(s: State) {
    && (forall t | t in s.pc :: ThreadOk(s, t))
    && (s.locked <==> s.owner.Some?)
    && (s.inner.Some? ==> s.inner.value in s.pc) && (s.ptlock.Some? ==> s.ptlock.value in s.pc)
  }

  lemma {:induction false} StepThread(s: State, e: Event, u: nat)
    requires Enabled(s, e) && u in s.pc && ThreadOk(s, e.t) && ThreadOk(s, u)
    requires s.inner.Some? ==> s.inner.value in s.pc && ThreadOk(s, s.inner.value)
    requires s.locked <==> s.owner.Some?
    ensures u in Step(s, e).pc && ThreadOk(Step(s, e), u)
  {
  }

  lemma {:induction false} StepRest(s: State, e: Event)
    requires Enabled(s, e) && ThreadOk(s, e.t) && (s.locked <==> s.owner.Some?)
    ensures var s' := Step(s, e);
      && s'.pc.Keys == s.pc.Keys && (s'.locked <==> s'.owner.Some?)
      && (s'.inner == s.inner || s'.inner == None || s'.inner == Some(e.t))
      && (s'.ptlock == s.ptlock || s'.ptlock == None || s'.ptlock == Some(e.t))
  {
  }

  lemma {:induction false} StepInv(s: State, e: Event)
    requires Inv(s) && Enabled(s, e)
    ensures Inv(Step(s, e)) && Step(s, e).pc.Keys == s.pc.Keys
  {
    hide Step, ThreadOk;
    StepRest(s, e);
    var s' := Step(s, e);
    forall u | u in s'.pc
      ensures ThreadOk(s', u)
    {
      StepThread(s, e, u);
    }
  }

  function Run(s: State, events: seq<Event>, k: nat): State
    requires k <= |events|
  {
    if k == 0 then s
    else
      var r := Run(s, events, k - 1);
      if Enabled(r, events[k - 1]) then Step(r, events[k - 1]) else r
  }

  lemma {:induction false} RunInv(threads: set<nat>, events: seq<Event>, k: nat)
    requires k <= |events|
    ensures Inv(Run(Start(threads), events, k))
  {
    hide Step, Enabled;
    if k > 0 {
      RunInv(threads, events, k - 1);
      var r := Run(Start(threads), events, k - 1);
      if Enabled(r, events[k - 1]) {
        StepInv(r, events[k - 1]);
      }
    }
  }

  /** In every run, kills included, at most one thread has the sleep lock. */
  lemma {:induction false} AtMostOneOwner(threads: set<nat>, events: seq<Event>, k: nat, t: nat, u: nat)
    requires k <= |events|
    ensures var s := Run(Start(threads), events, k);
      t in s.pc && u in s.pc && Owns(s.pc[t]) && Owns(s.pc[u]) ==> t == u
  {
    hide Run, Start;
    RunInv(threads, events, k);
    var s := Run(Start(threads), events, k);
    assert t in s.pc ==> ThreadOk(s, t);
    assert u in s.pc ==> ThreadOk(s, u);
    hide Inv;
  }

  /** No wakeup is lost: in every run, kills included, while the inner lock is free a sleeping thread means that some
      thread has the sleep lock and will wake it. */
  lemma {:induction false} SleepersHaveAnOwner(threads: set<nat>, events: seq<Event>, k: nat, t: nat)
    requires k <= |events|
    ensures var s := Run(Start(threads), events, k);
      t in s.pc && s.pc[t] == Asleep && s.inner == None ==> s.locked && s.owner.Some?
  {
    hide Run, Start;
    RunInv(threads, events, k);
    var s := Run(Start(threads), events, k);
    assert t in s.pc ==> ThreadOk(s, t);
  }

  /** The wakeup of releasesleep leaves nobody asleep or on the way to sleep. */
  lemma {:induction false} ReleaseWakesAll(threads: set<nat>, events: seq<Event>, k: nat, t: nat, u: nat)
    requires k <= |events|
    ensures var s := Run(Start(threads), events, k);
      t in s.pc && s.pc[t] == RelWakeP && u in s.pc ==> !GoesToSleep(Step(s, Go(t)).pc[u])
  {
    hide Run, Start;
    RunInv(threads, events, k);
    var s := Run(Start(threads), events, k);
    assert t in s.pc ==> ThreadOk(s, t);
    assert u in s.pc ==> ThreadOk(s, u);
    hide Inv;
  }
}
