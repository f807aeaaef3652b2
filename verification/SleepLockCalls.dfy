/** acquiresleep and releasesleep in a run of SleepLock, followed thread by thread: where each call ends, whatever the other
    threads do, and that somebody can always go on. */
module SleepLockCalls {
  import opened Common
  import opened SleepLock

  /** How many steps thread t takes in the events from k to n. */
  function Own(threads: set<nat>, events: seq<Event>, k: nat, n: nat, t: nat): nat
    requires k <= n <= |events|
    decreases n - k
  {
    if k == n then 0
    else Own(threads, events, k, n - 1, t) + if events[n - 1] == Go(t) && Enabled(Run(Start(threads), events, n - 1), Go(t)) then 1 else 0
  }

  /** releasesleep, from the lock held to the return. */
  function WayOut(m: nat): Pc {
    if m == 0 then Has else if m == 1 then RelEnter else if m == 2 then RelClear else if m == 3 then RelWake
    else if m == 4 then RelWakeP else if m == 5 then RelWoke else if m == 6 then RelExit else Idle
  }

  /** acquiresleep, from the wakeup to the next test. */
  function WayBack(m: nat): Pc {
    if m == 0 then Woken else if m == 1 then Resumed else if m == 2 then AcqAgain else AcqTest
  }

  /** acquiresleep from the test that finds the lock free. */
  function WayIn(m: nat): Pc {
    if m == 0 then AcqExit else Has
  }

  lemma {:induction false} OwnStep(s: State, t: nat, m: nat)
    requires Enabled(s, Go(t))
    ensures m < 7 && s.pc[t] == WayOut(m) ==> t in Step(s, Go(t)).pc && Step(s, Go(t)).pc[t] == WayOut(m + 1)
    ensures m < 3 && s.pc[t] == WayBack(m) ==> t in Step(s, Go(t)).pc && Step(s, Go(t)).pc[t] == WayBack(m + 1)
    ensures s.pc[t] == AcqExit ==> t in Step(s, Go(t)).pc && Step(s, Go(t)).pc[t] == Has
    ensures s.pc[t] == Idle ==> t in Step(s, Go(t)).pc && Step(s, Go(t)).pc[t] == AcqEnter
    ensures s.pc[t] == AcqEnter ==> t in Step(s, Go(t)).pc && Step(s, Go(t)).pc[t] == AcqTest
    ensures s.pc[t] == AcqTest && !s.locked ==>
              t in Step(s, Go(t)).pc && Step(s, Go(t)).pc[t] == AcqExit && Step(s, Go(t)).owner == Some(t) && Step(s, Go(t)).locked
  {
  }

  lemma {:induction false} OtherStep(s: State, e: Event, t: nat)
    requires Enabled(s, e) && e != Go(t) && t in s.pc && s.pc[t] != Asleep
    ensures t in Step(s, e).pc && Step(s, e).pc[t] == s.pc[t]
  {
  }

  lemma {:induction false} Next(threads: set<nat>, events: seq<Event>, n: nat)
    requires n < |events|
    ensures var s := Run(Start(threads), events, n);
      Run(Start(threads), events, n + 1) == if Enabled(s, events[n]) then Step(s, events[n]) else s
  {
  }

  /** Whatever the other threads do, kills included, a thread that has the lock and goes on is out of releasesleep after
      seven steps of its own. */
  lemma {:induction false} ReleaseReturns(threads: set<nat>, events: seq<Event>, k: nat, n: nat, t: nat)
    requires k <= n <= |events| && t in Run(Start(threads), events, k).pc && Run(Start(threads), events, k).pc[t] == Has
    requires k == n || Own(threads, events, k, n - 1, t) < 7
    ensures var s := Run(Start(threads), events, n);
      t in s.pc && s.pc[t] == WayOut(Own(threads, events, k, n, t))
    decreases n - k
  {
    hide Step, Enabled, Run;
    if k < n {
      ReleaseReturns(threads, events, k, n - 1, t);
      Next(threads, events, n - 1);
      var s, e := Run(Start(threads), events, n - 1), events[n - 1];
      if Enabled(s, e) {
        if e == Go(t) {
          OwnStep(s, t, Own(threads, events, k, n - 1, t));
        } else {
          OtherStep(s, e, t);
        }
      }
    }
  }

  /** A thread that is woken is back at its test after three steps of its own. */
  lemma {:induction false} WokenTests(threads: set<nat>, events: seq<Event>, k: nat, n: nat, t: nat)
    requires k <= n <= |events| && t in Run(Start(threads), events, k).pc && Run(Start(threads), events, k).pc[t] == Woken
    requires k == n || Own(threads, events, k, n - 1, t) < 3
    ensures var s := Run(Start(threads), events, n);
      t in s.pc && s.pc[t] == WayBack(Own(threads, events, k, n, t))
    decreases n - k
  {
    hide Step, Enabled, Run;
    if k < n {
      WokenTests(threads, events, k, n - 1, t);
      Next(threads, events, n - 1);
      var s, e := Run(Start(threads), events, n - 1), events[n - 1];
      if Enabled(s, e) {
        if e == Go(t) {
          OwnStep(s, t, Own(threads, events, k, n - 1, t));
        } else {
          OtherStep(s, e, t);
        }
      }
    }
  }

  /** A thread whose test finds the lock free has it, and after one more step of its own has returned with it; until it
      goes on it keeps it. */
  lemma {:induction false} AcquireReturns(threads: set<nat>, events: seq<Event>, k: nat, n: nat, t: nat)
    requires k < n <= |events| && events[k] == Go(t) && Enabled(Run(Start(threads), events, k), Go(t))
    requires Run(Start(threads), events, k).pc[t] == AcqTest && !Run(Start(threads), events, k).locked
    requires n == k + 1 || Own(threads, events, k + 1, n - 1, t) < 1
    ensures var s := Run(Start(threads), events, n);
      t in s.pc && s.pc[t] == WayIn(Own(threads, events, k + 1, n, t)) && s.locked && s.owner == Some(t)
    decreases n - k
  {
    hide Step, Enabled, Run, Inv;
    if n == k + 1 {
      Next(threads, events, k);
      OwnStep(Run(Start(threads), events, k), t, 0);
    } else {
      AcquireReturns(threads, events, k, n - 1, t);
      Next(threads, events, n - 1);
      RunInv(threads, events, n);
      var s, e := Run(Start(threads), events, n - 1), events[n - 1];
      if Enabled(s, e) {
        if e == Go(t) {
          OwnStep(s, t, 0);
        } else {
          OtherStep(s, e, t);
        }
      }
      OwnerHas(Run(Start(threads), events, n), t);
    }
  }

  lemma {:induction false} OwnerHas(s: State, t: nat)
    requires Inv(s) && t in s.pc && Owns(s.pc[t])
    ensures s.locked && s.owner == Some(t)
  {
    assert ThreadOk(s, t);
  }

  /** A kill wakes a sleeper as soon as ptable.lock is free, and gives nobody the lock. */
  lemma {:induction false} KillWakes(threads: set<nat>, events: seq<Event>, k: nat, t: nat)
    requires k < |events| && events[k] == Kill(t) && t in Run(Start(threads), events, k).pc && Run(Start(threads), events, k).ptlock == None
    ensures var s, s' := Run(Start(threads), events, k), Run(Start(threads), events, k + 1);
      && t in s'.pc && s'.pc[t] == (if s.pc[t] == Asleep then Woken else s.pc[t])
      && s'.locked == s.locked && s'.owner == s.owner
  {
    Next(threads, events, k);
  }

  /** In every run in which some thread is inside a call and not asleep, some thread inside a call can take a step. A
      sleeper waits for the owner, which is not asleep. */
  lemma {:induction false} SomebodyMoves(threads: set<nat>, events: seq<Event>, k: nat, t: nat) returns (u: nat)
    requires k <= |events| && t in Run(Start(threads), events, k).pc
    requires var p := Run(Start(threads), events, k).pc[t]; p != Idle && p != Has && p != Asleep
    ensures var s := Run(Start(threads), events, k);
      Enabled(s, Go(u)) && s.pc[u] != Idle && s.pc[u] != Has && s.pc[u] != Asleep
  {
    hide Run, Start;
    RunInv(threads, events, k);
    var s := Run(Start(threads), events, k);
    u := if s.ptlock.Some? then s.ptlock.value else if s.inner.Some? then s.inner.value else t;
    assert ThreadOk(s, u);
    assert ThreadOk(s, t);
  }
}
