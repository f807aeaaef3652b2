/** Readers and writers of one pipe (pipe.c:59-121) as a state machine. A step is one stay inside the pipe's lock: it ends
    with the release or with the sleep. `buffer` is what Pipe.Ring holds, and WriteSome and ReadSome are the copying
    done here. Whoever is inside a call still has its end of the pipe open. */
module PipeProtocol {
  import opened Common
  import opened FileBlocks
  import opened Pipe

  datatype Pc = Idle | Writing(src: seq<Byte>, i: nat) | WriteSleep(src: seq<Byte>, i: nat) | Reading(n: nat) | ReadSleep(n: nat)

  datatype State = State(
    buffer: seq<Byte>, accepted: seq<Byte>, delivered: seq<Byte>, readopen: bool, writeopen: bool,
    killed: set<nat>, pc: map<nat, Pc>)

  /** LateKill comes between a thread's test of its killed flag and its sleep: it sets the flag and wakes nobody. */
  datatype Event = CallWrite(t: nat, src: seq<Byte>) | CallRead(t: nat, n: nat) | Go(t: nat) | Kill(t: nat) | LateKill(t: nat) | CloseRead | CloseWrite

  function Start(threads: set<nat>): State {
    State([], [], [], true, true, {}, map t | t in threads :: Idle)
  }

  ghost predicate Enabled(s: State, e: Event) {
    match e
    case CallWrite(t, _) => t in s.pc && s.pc[t].Idle? && s.writeopen
    case CallRead(t, _) => t in s.pc && s.pc[t].Idle? && s.readopen
    case Go(t) => t in s.pc && (s.pc[t].Writing? || s.pc[t].Reading?)
    case Kill(t) => t in s.pc
    case LateKill(t) => t in s.pc && (s.pc[t].ReadSleep? || s.pc[t].WriteSleep?)
    case CloseRead => s.readopen && forall t | t in s.pc :: !s.pc[t].Reading? && !s.pc[t].ReadSleep?
    case CloseWrite => s.writeopen && forall t | t in s.pc :: !s.pc[t].Writing? && !s.pc[t].WriteSleep?
  }

  /** A thread that is woken goes round its loop again. */
  function Awake(p: Pc): Pc {
    match p
    case WriteSleep(src, i) => Writing(src, i)
    case ReadSleep(n) => Reading(n)
    case _ => p
  }

  function WakeReaders(pc: map<nat, Pc>): map<nat, Pc> {
    map t | t in pc :: if pc[t].ReadSleep? then Awake(pc[t]) else pc[t]
  }

  function WakeWriters(pc: map<nat, Pc>): map<nat, Pc> {
    map t | t in pc :: if pc[t].WriteSleep? then Awake(pc[t]) else pc[t]
  }

  /** How far a writer at byte i gets. */
  function Reach(s: State, src: seq<Byte>, i: nat): nat {
    if |s.buffer| <= PIPESIZE then Min(|src|, i + (PIPESIZE - |s.buffer|)) else i
  }

  /** A writer finds the buffer full and gives up: nobody reads any more, or it was killed. */
  predicate GivesUp(s: State, t: nat) {
    t in s.pc && s.pc[t].Writing? && Reach(s, s.pc[t].src, s.pc[t].i) < |s.pc[t].src| && (!s.readopen || t in s.killed)
  }

  function WriteStep(s: State, t: nat, src: seq<Byte>, i: nat): State
    requires i <= |src|
  {
    var j := Reach(s, src, i);
    var part := if i <= j <= |src| then src[i..j] else [];
    var s1 := s.(buffer := s.buffer + part, accepted := s.accepted + part);
    if j >= |src| then s1.(pc := WakeReaders(s.pc)[t := Idle])
    else if !s.readopen || t in s.killed then s1.(pc := s.pc[t := Idle])
    else s1.(pc := WakeReaders(s.pc)[t := WriteSleep(src, j)])
  }

  function ReadStep(s: State, t: nat, n: nat): State {
    if s.buffer == [] && s.writeopen then s.(pc := s.pc[t := if t in s.killed then Idle else ReadSleep(n)])
    else
      var k := Min(n, |s.buffer|);
      s.(buffer := s.buffer[k..], delivered := s.delivered + s.buffer[..k], pc := WakeWriters(s.pc)[t := Idle])
  }

  function Step(s: State, e: Event): State {
    match e
    case CallWrite(t, src) => s.(pc := s.pc[t := Writing(src, 0)])
    case CallRead(t, n) => s.(pc := s.pc[t := Reading(n)])
    case Go(t) =>
      if t !in s.pc then s
      else (match s.pc[t]
        case Writing(src, i) => if i <= |src| then WriteStep(s, t, src, i) else s
        case Reading(n) => ReadStep(s, t, n)
        case _ => s)
    case Kill(t) => if t in s.pc then s.(killed := s.killed + {t}, pc := s.pc[t := Awake(s.pc[t])]) else s
    case LateKill(t) => s.(killed := s.killed + {t})
    case CloseRead => s.(readopen := false, pc := WakeWriters(s.pc))
    case CloseWrite => s.(writeopen := false, pc := WakeReaders(s.pc))
  }

  /** Bytes: what was delivered, then what is buffered, is what was accepted. */
  predicate Data(s: State) {
    |s.buffer| <= PIPESIZE && s.accepted == s.delivered + s.buffer
  }

  predicate ThreadOk(s: State, t: nat)
    requires t in s.pc
  {
    match s.pc[t]
    case Idle => true
    case Writing(src, i) => i <= |src| && s.writeopen
    case WriteSleep(src, i) => i <= |src| && s.writeopen
    case Reading(_) => s.readopen
    case ReadSleep(_) => s.readopen
  }

  /** A sleeping reader means that the buffer is empty, a sleeping writer that it is full. */
  predicate SleepOk(s: State, t: nat)
    requires t in s.pc
  {
    && (s.pc[t].ReadSleep? ==> s.buffer == [] && s.writeopen)
    && (s.pc[t].WriteSleep? ==> |s.buffer| == PIPESIZE && s.readopen)
  }

  ghost predicate Open(s: State) {
    forall t | t in s.pc :: ThreadOk(s, t)
  }

  ghost predicate Sleeping(s: State) {
    forall t | t in s.pc :: SleepOk(s, t)
  }

  lemma {:induction false} StepData(s: State, e: Event)
    requires Data(s) && Enabled(s, e) && Open(s)
    ensures Data(Step(s, e))
  {
    if e.Go? {
      assert ThreadOk(s, e.t);
      hide Open;
      match s.pc[e.t]
      case Writing(src, i) =>
        var j := Reach(s, src, i);
        assert s.delivered + (s.buffer + src[i..j]) == (s.delivered + s.buffer) + src[i..j];
      case Reading(n) =>
        var k := Min(n, |s.buffer|);
        assert s.buffer == s.buffer[..k] + s.buffer[k..];
        assert s.delivered + s.buffer == (s.delivered + s.buffer[..k]) + s.buffer[k..];
    }
  }

  lemma {:induction false} StepThread(s: State, e: Event, u: nat)
    requires Data(s) && Enabled(s, e) && u in s.pc && ThreadOk(s, u) && (e.Go? ==> ThreadOk(s, e.t))
    ensures u in Step(s, e).pc && ThreadOk(Step(s, e), u)
  {
  }

  lemma {:induction false} StepKeys(s: State, e: Event)
    requires Enabled(s, e)
    ensures Step(s, e).pc.Keys == s.pc.Keys
  {
  }

  lemma {:induction false} StepSleep(s: State, e: Event, u: nat)
    requires Data(s) && Enabled(s, e) && u in s.pc && ThreadOk(s, u) && SleepOk(s, u) && (e.Go? ==> ThreadOk(s, e.t))
    requires !(e.Go? && GivesUp(s, e.t) && s.readopen && s.pc[u].ReadSleep?)
    ensures u in Step(s, e).pc && SleepOk(Step(s, e), u)
  {
  }

  lemma {:induction false} StepOpen(s: State, e: Event)
    requires Data(s) && Open(s) && Enabled(s, e)
    ensures Data(Step(s, e)) && Open(Step(s, e))
  {
    hide Step, ThreadOk, Enabled, Data;
    StepData(s, e);
    StepKeys(s, e);
    var s' := Step(s, e);
    forall u | u in s'.pc
      ensures ThreadOk(s', u)
    {
      GoThere(s, e);
      StepThread(s, e, u);
    }
  }

  lemma {:induction false} GoThere(s: State, e: Event)
    requires Enabled(s, e)
    ensures e.Go? ==> e.t in s.pc
  {
  }

  /** The sleeping invariant survives every step but one: a killed writer that gives up on a full buffer while a reader
      sleeps. */
  lemma {:induction false} StepSleeping(s: State, e: Event)
    requires Data(s) && Open(s) && Sleeping(s) && Enabled(s, e)
    requires !(e.Go? && GivesUp(s, e.t) && ReaderSleeps(s))
    ensures Sleeping(Step(s, e))
  {
    hide Step, ThreadOk, Enabled, Data, SleepOk, GivesUp;
    StepKeys(s, e);
    GoThere(s, e);
    var s' := Step(s, e);
    forall u | u in s'.pc
      ensures SleepOk(s', u)
    {
      StepSleep(s, e, u);
    }
  }

  ghost predicate ReaderSleeps(s: State) {
    exists t :: t in s.pc && s.pc[t].ReadSleep?
  }

  /** When a killed writer gives up, the sleeping invariant survives if and only if no reader sleeps. */
  lemma {:induction false} GiveUpExact(s: State, t: nat)
    requires Data(s) && Open(s) && Sleeping(s) && Enabled(s, Go(t)) && GivesUp(s, t)
    ensures Sleeping(Step(s, Go(t))) <==> !ReaderSleeps(s)
  {
    if ReaderSleeps(s) {
      var u :| u in s.pc && s.pc[u].ReadSleep?;
      assert SleepOk(s, u) && ThreadOk(s, t) && ThreadOk(s, u);
      assert !SleepOk(Step(s, Go(t)), u);
    } else {
      StepSleeping(s, Go(t));
    }
  }

  // ----- Runs -----

  ghost function Run(s: State, events: seq<Event>, k: nat): State
    requires k <= |events|
  {
    if k == 0 then s
    else
      var r := Run(s, events, k - 1);
      if Enabled(r, events[k - 1]) then Step(r, events[k - 1]) else r
  }

  lemma {:induction false} RunData(threads: set<nat>, events: seq<Event>, k: nat)
    requires k <= |events|
    ensures Data(Run(Start(threads), events, k)) && Open(Run(Start(threads), events, k))
  {
    hide Step, Enabled;
    if k > 0 {
      RunData(threads, events, k - 1);
      var r := Run(Start(threads), events, k - 1);
      if Enabled(r, events[k - 1]) {
        StepOpen(r, events[k - 1]);
      }
    }
  }

  /** In every run, kills included, the bytes delivered are a prefix of the bytes accepted, and at most PIPESIZE bytes are
      in between. */
  lemma {:induction false} DeliveredIsPrefix(threads: set<nat>, events: seq<Event>, k: nat)
    requires k <= |events|
    ensures var s := Run(Start(threads), events, k);
      s.delivered <= s.accepted && |s.accepted| - |s.delivered| <= PIPESIZE
  {
    hide Run;
    RunData(threads, events, k);
  }

  lemma {:induction false} RunSleeping(threads: set<nat>, events: seq<Event>, k: nat)
    requires k <= |events| && forall j | 0 <= j < |events| :: !events[j].Kill? && !events[j].LateKill?
    ensures Sleeping(Run(Start(threads), events, k)) && Run(Start(threads), events, k).killed == {}
  {
    hide Step, Enabled;
    if k > 0 {
      RunSleeping(threads, events, k - 1);
      RunData(threads, events, k - 1);
      var r := Run(Start(threads), events, k - 1);
      if Enabled(r, events[k - 1]) {
        NobodyReads(r, events[k - 1]);
        StepSleeping(r, events[k - 1]);
        StepKilled(r, events[k - 1]);
      }
    }
  }

  lemma {:induction false} StepKilled(s: State, e: Event)
    requires !e.Kill? && !e.LateKill?
    ensures Step(s, e).killed == s.killed
  {
  }

  /** Without kills a writer gives up only when the read end is closed, and then nobody reads. */
  lemma {:induction false} NobodyReads(s: State, e: Event)
    requires s.killed == {} && Open(s)
    ensures !(e.Go? && GivesUp(s, e.t) && ReaderSleeps(s))
  {
    if u :| u in s.pc && s.pc[u].ReadSleep? {
      assert ThreadOk(s, u);
    }
  }

  // ----- With kills -----

  /** A killed writer gives up on a full buffer while a reader sleeps. */
  ghost predicate Breaks(s: State, e: Event) {
    Enabled(s, e) && e.Go? && GivesUp(s, e.t) && ReaderSleeps(s)
  }

  ghost predicate UnbrokenTo(threads: set<nat>, events: seq<Event>, k: nat)
    requires k <= |events|
  {
    forall j: nat | j < k :: !Breaks(Run(Start(threads), events, j), events[j])
  }

  lemma {:induction false} UnbrokenSleeping(threads: set<nat>, events: seq<Event>, k: nat)
    requires k <= |events| && UnbrokenTo(threads, events, k)
    ensures Sleeping(Run(Start(threads), events, k))
  {
    hide Step, Enabled;
    if k > 0 {
      UnbrokenSleeping(threads, events, k - 1);
      RunData(threads, events, k - 1);
      var r := Run(Start(threads), events, k - 1);
      assert !Breaks(r, events[k - 1]);
      if Enabled(r, events[k - 1]) {
        StepSleeping(r, events[k - 1]);
      }
    }
  }

  /** In any run, kills included, sleeping readers mean an empty buffer and sleeping writers a full one at every moment
      if and only if no writer gives up on a full buffer while a reader sleeps. */
  lemma {:induction false} SleepersExact(threads: set<nat>, events: seq<Event>)
    ensures (forall k: nat | k <= |events| :: Sleeping(Run(Start(threads), events, k))) <==> UnbrokenTo(threads, events, |events|)
  {
    hide Step, Enabled, Sleeping, GivesUp, Run;
    if UnbrokenTo(threads, events, |events|) {
      forall k: nat | k <= |events| ensures Sleeping(Run(Start(threads), events, k)) {
        UnbrokenSleeping(threads, events, k);
      }
    } else {
      var j: nat :| j < |events| && Breaks(Run(Start(threads), events, j), events[j]);
      BrokenOnce(threads, events, j);
    }
  }

  lemma {:induction false} BrokenOnce(threads: set<nat>, events: seq<Event>, j: nat)
    requires j < |events| && Breaks(Run(Start(threads), events, j), events[j])
    ensures !Sleeping(Run(Start(threads), events, j)) || !Sleeping(Run(Start(threads), events, j + 1))
  {
    hide Step, Enabled, Sleeping, GivesUp, Run;
    RunData(threads, events, j);
    RunNext(threads, events, j);
    assert events[j] == Go(events[j].t);
    if Sleeping(Run(Start(threads), events, j)) {
      GiveUpExact(Run(Start(threads), events, j), events[j].t);
    }
  }

  lemma {:induction false} RunNext(threads: set<nat>, events: seq<Event>, j: nat)
    requires j < |events| && Enabled(Run(Start(threads), events, j), events[j])
    ensures Run(Start(threads), events, j + 1) == Step(Run(Start(threads), events, j), events[j])
  {
  }

  /** Such a run: a reader sleeps on the empty pipe, and a killed writer fills it and goes away without waking it. */
  lemma {:induction false} LostWakeup(threads: set<nat>, t: nat, u: nat, src: seq<Byte>) returns (events: seq<Event>)
    requires t in threads && u in threads && t != u && |src| > PIPESIZE
    ensures var s := Run(Start(threads), events, |events|);
      t in s.pc && s.pc[t].ReadSleep? && |s.buffer| == PIPESIZE && u in s.pc && s.pc[u].Idle?
  {
    events := [CallRead(t, 1), Go(t), CallWrite(u, src), Kill(u), Go(u)];
    RunNext(threads, events, 0);
    RunNext(threads, events, 1);
    RunNext(threads, events, 2);
    RunNext(threads, events, 3);
    RunNext(threads, events, 4);
  }

  /** What kills cannot break: a sleeping writer means a full buffer. */
  predicate WriterOk(s: State, t: nat)
    requires t in s.pc
  {
    (s.pc[t].WriteSleep? ==> |s.buffer| == PIPESIZE && s.readopen) && (s.pc[t].ReadSleep? ==> s.writeopen)
  }

  predicate NotBoth(s: State, t: nat, u: nat)
    requires t in s.pc && u in s.pc
  {
    !(s.pc[t].ReadSleep? && s.pc[u].WriteSleep?)
  }

  ghost predicate Live(s: State) {
    && (forall t | t in s.pc :: WriterOk(s, t))
    && (forall t, u | t in s.pc && u in s.pc :: NotBoth(s, t, u))
  }

  lemma {:induction false} StepPair(s: State, e: Event, t: nat, u: nat)
    requires Data(s) && Enabled(s, e) && t in s.pc && u in s.pc && ThreadOk(s, t) && ThreadOk(s, u) && (e.Go? ==> ThreadOk(s, e.t))
    requires WriterOk(s, t) && WriterOk(s, u) && NotBoth(s, t, u)
    ensures t in Step(s, e).pc && u in Step(s, e).pc && WriterOk(Step(s, e), t) && NotBoth(Step(s, e), t, u)
  {
  }

  lemma {:induction false} StepLive(s: State, e: Event)
    requires Data(s) && Open(s) && Live(s) && Enabled(s, e)
    ensures Live(Step(s, e))
  {
    hide Step, ThreadOk, Enabled, Data, WriterOk, NotBoth;
    StepKeys(s, e);
    GoThere(s, e);
    var s' := Step(s, e);
    forall t, u | t in s'.pc && u in s'.pc
      ensures WriterOk(s', t) && NotBoth(s', t, u)
    {
      StepPair(s, e, t, u);
    }
  }

  lemma {:induction false} RunLive(threads: set<nat>, events: seq<Event>, k: nat)
    requires k <= |events|
    ensures Live(Run(Start(threads), events, k))
  {
    hide Step, Enabled;
    if k > 0 {
      RunLive(threads, events, k - 1);
      RunData(threads, events, k - 1);
      var r := Run(Start(threads), events, k - 1);
      if Enabled(r, events[k - 1]) {
        StepLive(r, events[k - 1]);
      }
    }
  }

  /** In every run, kills included, while the lock is free, sleeping writers mean a full buffer, and the two sides never
      sleep at once. */
  lemma {:induction false} NeverBothAsleep(threads: set<nat>, events: seq<Event>, k: nat, t: nat, u: nat)
    requires k <= |events|
    ensures var s := Run(Start(threads), events, k);
      && (u in s.pc && s.pc[u].WriteSleep? ==> |s.buffer| == PIPESIZE && s.readopen)
      && (t in s.pc && s.pc[t].ReadSleep? ==> s.writeopen)
      && !(t in s.pc && u in s.pc && s.pc[t].ReadSleep? && s.pc[u].WriteSleep?)
  {
    hide Run;
    RunLive(threads, events, k);
    var s := Run(Start(threads), events, k);
    assert t in s.pc ==> WriterOk(s, t);
    assert u in s.pc ==> WriterOk(s, u);
    assert t in s.pc && u in s.pc ==> NotBoth(s, t, u);
    hide Live;
  }

  /** Without kills a sleeping reader means an empty buffer in every run. */
  lemma {:induction false} ReadersSleepOnEmpty(threads: set<nat>, events: seq<Event>, k: nat, t: nat)
    requires k <= |events| && forall j | 0 <= j < |events| :: !events[j].Kill? && !events[j].LateKill?
    ensures var s := Run(Start(threads), events, k);
      t in s.pc && s.pc[t].ReadSleep? ==> s.buffer == [] && s.writeopen
  {
    hide Run;
    RunSleeping(threads, events, k);
    var s := Run(Start(threads), events, k);
    assert t in s.pc ==> SleepOk(s, t);
    hide Sleeping;
  }
}
