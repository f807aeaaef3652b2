/** The calls of pipewrite and piperead in a run of PipeProtocol, seen from outside: which of the accepted bytes came from
    which call, what a reader gets, and that the ring buffer's copying is the protocol's. */
module PipeCalls {
  import opened Common
  import FileBlocks
  import opened Pipe
  import opened PipeProtocol

  /** The k-th event of the run happens. */
  ghost predicate Happens(threads: set<nat>, events: seq<Event>, k: nat)
    requires k < |events|
  {
    Enabled(Run(Start(threads), events, k), events[k])
  }

  /** The event in which thread t last called pipewrite, -1 if it has not. */
  ghost function LastCall(threads: set<nat>, events: seq<Event>, k: nat, t: nat): int
    requires k <= |events|
  {
    if k == 0 then -1
    else if events[k - 1].CallWrite? && events[k - 1].t == t && Happens(threads, events, k - 1) then k - 1
    else LastCall(threads, events, k - 1, t)
  }

  ghost function Accepted(threads: set<nat>, events: seq<Event>, k: nat): seq<FileBlocks.Byte>
    requires k <= |events|
  {
    Run(Start(threads), events, k).accepted
  }

  /** For each accepted byte the call that its thread was in. */
  ghost function Calls(threads: set<nat>, events: seq<Event>, k: nat): seq<int>
    requires k <= |events|
  {
    if k == 0 then []
    else
      var more := |Accepted(threads, events, k)| - |Accepted(threads, events, k - 1)|;
      Calls(threads, events, k - 1) + Repeat(if events[k - 1].Go? then LastCall(threads, events, k - 1, events[k - 1].t) else -1, more)
  }

  function Repeat(c: int, n: int): (r: seq<int>)
    ensures |r| == if n < 0 then 0 else n
    ensures forall i | 0 <= i < |r| :: r[i] == c
  {
    if n <= 0 then [] else seq(n, _ => c)
  }

  /** The bytes of one call, in order. */
  function Of(bytes: seq<FileBlocks.Byte>, calls: seq<int>, c: int): seq<FileBlocks.Byte>
    requires |bytes| == |calls|
  {
    if bytes == [] then []
    else
      var n := |bytes| - 1;
      Of(bytes[..n], calls[..n], c) + if calls[n] == c then [bytes[n]] else []
  }

  lemma {:induction false} OfMore(bytes: seq<FileBlocks.Byte>, calls: seq<int>, part: seq<FileBlocks.Byte>, c: int, d: int)
    requires |bytes| == |calls|
    ensures |bytes + part| == |calls + Repeat(c, |part|)|
    ensures Of(bytes + part, calls + Repeat(c, |part|), d) == Of(bytes, calls, d) + if c == d then part else []
  {
    if part == [] {
      assert bytes + part == bytes && calls + Repeat(c, |part|) == calls;
    } else {
      var n := |part| - 1;
      OfMore(bytes, calls, part[..n], c, d);
      var all, tags := bytes + part, calls + Repeat(c, |part|);
      assert all[..|all| - 1] == bytes + part[..n] && tags[..|all| - 1] == calls + Repeat(c, n);
      assert part == part[..n] + [part[n]];
    }
  }

  lemma {:induction false} OfNone(bytes: seq<FileBlocks.Byte>, calls: seq<int>, c: int)
    requires |bytes| == |calls| && c !in calls
    ensures Of(bytes, calls, c) == []
  {
    if bytes != [] {
      OfNone(bytes[..|bytes| - 1], calls[..|bytes| - 1], c);
    }
  }

  /** Event c is a call of pipewrite that happened before k. */
  ghost predicate IsCall(threads: set<nat>, events: seq<Event>, k: nat, c: int)
    requires k <= |events|
  {
    0 <= c < k && events[c].CallWrite? && Happens(threads, events, c)
  }

  lemma {:induction false} LastIsCall(threads: set<nat>, events: seq<Event>, k: nat, t: nat)
    requires k <= |events|
    ensures var c := LastCall(threads, events, k, t);
      c >= 0 ==> IsCall(threads, events, k, c) && events[c].t == t
  {
    if k > 0 {
      LastIsCall(threads, events, k - 1, t);
    }
  }

  /** Thread t is at byte i of src. */
  predicate At(p: Pc, src: seq<FileBlocks.Byte>, i: nat) {
    (p.Writing? || p.WriteSleep?) && p.src == src && p.i == i
  }

  /** What a writer has sent is what its place says. */
  ghost predicate WriterOk(threads: set<nat>, events: seq<Event>, k: nat, t: nat)
    requires k <= |events| && |Accepted(threads, events, k)| == |Calls(threads, events, k)|
  {
    var s, c := Run(Start(threads), events, k), LastCall(threads, events, k, t);
    t in s.pc && (s.pc[t].Writing? || s.pc[t].WriteSleep?) ==>
      && 0 <= c < k && s.pc[t].i <= |s.pc[t].src| && events[c] == CallWrite(t, s.pc[t].src)
      && Of(Accepted(threads, events, k), Calls(threads, events, k), c) == s.pc[t].src[..s.pc[t].i]
  }

  // ----- One event -----

  /** What an event does to the bytes accepted, and to a writer's place. */
  lemma {:induction false} EventEffect(s: State, e: Event, t: nat)
    requires Enabled(s, e) && Data(s) && (e.Go? ==> ThreadOk(s, e.t)) && t in s.pc
    ensures var s' := Step(s, e);
      && t in s'.pc
      && (if e.Go? && s.pc[e.t].Writing? then
            var j := Reach(s, s.pc[e.t].src, s.pc[e.t].i);
            && s.pc[e.t].i <= j <= |s.pc[e.t].src| && s'.accepted == s.accepted + s.pc[e.t].src[s.pc[e.t].i..j]
            && (t == e.t ==> s'.pc[t] == Idle || At(s'.pc[t], s.pc[t].src, j))
          else s'.accepted == s.accepted)
      && (e.CallWrite? && t == e.t ==> s'.pc[t] == Writing(e.src, 0))
      && (!(e.CallWrite? && t == e.t) && !(e.Go? && t == e.t) && (s'.pc[t].Writing? || s'.pc[t].WriteSleep?) ==>
            At(s.pc[t], s'.pc[t].src, s'.pc[t].i))
      && (e.Go? && t == e.t && !s.pc[t].Writing? ==> !s'.pc[t].Writing? && !s'.pc[t].WriteSleep?)
  {
  }

  lemma {:induction false} RunStep(threads: set<nat>, events: seq<Event>, k: nat)
    requires k < |events|
    ensures var s, s' := Run(Start(threads), events, k), Run(Start(threads), events, k + 1);
      s' == if Happens(threads, events, k) then Step(s, events[k]) else s
    ensures Happens(threads, events, k) && events[k].Go? ==> events[k].t in Run(Start(threads), events, k).pc
  {
    hide Step;
  }

  /** The bytes that an event adds, and the call they come from. */
  lemma {:induction false} Adds(threads: set<nat>, events: seq<Event>, k: nat) returns (part: seq<FileBlocks.Byte>, c: int)
    requires k < |events|
    ensures Accepted(threads, events, k + 1) == Accepted(threads, events, k) + part
    ensures Calls(threads, events, k + 1) == Calls(threads, events, k) + Repeat(c, |part|)
    ensures part != [] ==> Happens(threads, events, k) && GoesOn(threads, events, k) && c == LastCall(threads, events, k, events[k].t)
    ensures Happens(threads, events, k) && GoesOn(threads, events, k) ==> var s := Run(Start(threads), events, k);
      var p := s.pc[events[k].t];
      && c == LastCall(threads, events, k, events[k].t) && p.i <= Reach(s, p.src, p.i) <= |p.src| && part == p.src[p.i..Reach(s, p.src, p.i)]
  {
    hide Step, Enabled, LastCall, Reach;
    var s, e := Run(Start(threads), events, k), events[k];
    RunData(threads, events, k);
    RunStep(threads, events, k);
    part, c := [], if e.Go? then LastCall(threads, events, k, e.t) else -1;
    if Happens(threads, events, k) {
      if e.Go? {
        assert ThreadOk(s, e.t);
        EventEffect(s, e, e.t);
        if GoesOn(threads, events, k) {
          part := s.pc[e.t].src[s.pc[e.t].i..Reach(s, s.pc[e.t].src, s.pc[e.t].i)];
        }
      } else {
        QuietEvent(s, e);
      }
    }
  }

  /** A writer goes on in event k. */
  ghost predicate GoesOn(threads: set<nat>, events: seq<Event>, k: nat)
    requires k < |events|
  {
    var s, e := Run(Start(threads), events, k), events[k];
    e.Go? && e.t in s.pc && s.pc[e.t].Writing?
  }

  lemma {:induction false} QuietEvent(s: State, e: Event)
    requires !e.Go?
    ensures Step(s, e).accepted == s.accepted
  {
  }

  /** Every accepted byte belongs to a call, and each writer has sent what its place says. */
  ghost predicate CallsOk(threads: set<nat>, events: seq<Event>, k: nat)
    requires k <= |events|
  {
    && |Calls(threads, events, k)| == |Accepted(threads, events, k)|
    && (forall c | c in Calls(threads, events, k) :: IsCall(threads, events, k, c))
    && (forall t: nat :: WriterOk(threads, events, k, t))
  }

  lemma {:induction false} NextWriter(threads: set<nat>, events: seq<Event>, k: nat, t: nat)
    requires k < |events| && CallsOk(threads, events, k) && |Calls(threads, events, k + 1)| == |Accepted(threads, events, k + 1)|
    ensures WriterOk(threads, events, k + 1, t)
  {
    hide Step, Enabled, Accepted, Calls, IsCall, Reach, Of;
    var part, d := Adds(threads, events, k);
    var s, s', e := Run(Start(threads), events, k), Run(Start(threads), events, k + 1), events[k];
    RunData(threads, events, k);
    RunStep(threads, events, k);
    RunThreads(threads, events, k);
    RunThreads(threads, events, k + 1);
    var c := LastCall(threads, events, k + 1, t);
    OfMore(Accepted(threads, events, k), Calls(threads, events, k), part, d, c);
    assert WriterOk(threads, events, k, t);
    if t in s'.pc && (s'.pc[t].Writing? || s'.pc[t].WriteSleep?) && Happens(threads, events, k) {
      if e.Go? {
        assert ThreadOk(s, e.t);
      }
      EventEffect(s, e, t);
      if e.CallWrite? && e.t == t {
        NoneYet(threads, events, k);
      } else if e.Go? && e.t == t {
        var p := s.pc[t];
        assert p.src[..p.i] + p.src[p.i..Reach(s, p.src, p.i)] == p.src[..Reach(s, p.src, p.i)];
      } else if part != [] {
        LastIsCall(threads, events, k, e.t);
        OtherCall(threads, events, k, c, d);
      }
    }
  }

  lemma {:induction false} NoneYet(threads: set<nat>, events: seq<Event>, k: nat)
    requires k < |events| && CallsOk(threads, events, k)
    ensures Of(Accepted(threads, events, k), Calls(threads, events, k), k) == []
  {
    hide Calls, Accepted, WriterOk, Of;
    OfNone(Accepted(threads, events, k), Calls(threads, events, k), k);
  }

  lemma {:induction false} OtherCall(threads: set<nat>, events: seq<Event>, k: nat, c: int, d: int)
    requires k < |events| && 0 <= c < k && events[c].CallWrite? && events[k].Go? && events[c].t != events[k].t
    requires d >= 0 ==> IsCall(threads, events, k, d) && events[d].t == events[k].t
    ensures c != d
  {
  }

  lemma {:induction false} RunThreads(threads: set<nat>, events: seq<Event>, k: nat)
    requires k <= |events|
    ensures Run(Start(threads), events, k).pc.Keys == threads
  {
    hide Step, Enabled;
    if k > 0 {
      RunThreads(threads, events, k - 1);
      if Enabled(Run(Start(threads), events, k - 1), events[k - 1]) {
        StepKeys(Run(Start(threads), events, k - 1), events[k - 1]);
      }
    }
  }

  lemma {:induction false} RunCalls(threads: set<nat>, events: seq<Event>, k: nat)
    requires k <= |events|
    ensures CallsOk(threads, events, k)
  {
    hide WriterOk;
    if k == 0 {
      StartCalls(threads, events);
    } else {
      hide CallsOk;
      RunCalls(threads, events, k - 1);
      NextCalls(threads, events, k - 1);
    }
  }

  lemma {:induction false} StartCalls(threads: set<nat>, events: seq<Event>)
    ensures CallsOk(threads, events, 0)
  {
  }

  lemma {:induction false} NextCalls(threads: set<nat>, events: seq<Event>, k: nat)
    requires k < |events| && CallsOk(threads, events, k)
    ensures CallsOk(threads, events, k + 1)
  {
    hide Step, Enabled, Accepted, Calls, Reach, Of, Run, Happens, WriterOk;
    var part, d := Adds(threads, events, k);
    if part != [] {
      SenderOk(threads, events, k);
    }
    var n, calls := k + 1, Calls(threads, events, k + 1);
    forall c | c in calls
      ensures IsCall(threads, events, n, c)
    {
      assert c in Calls(threads, events, k) || c in Repeat(d, |part|);
    }
    forall t: nat
      ensures WriterOk(threads, events, n, t)
    {
      NextWriter(threads, events, k, t);
    }
  }

  lemma {:induction false} SenderOk(threads: set<nat>, events: seq<Event>, k: nat)
    requires k < |events| && CallsOk(threads, events, k) && GoesOn(threads, events, k)
    ensures IsCall(threads, events, k, LastCall(threads, events, k, events[k].t))
  {
    hide Step, Enabled, Accepted, Calls, Of, Run;
    assert WriterOk(threads, events, k, events[k].t);
    LastIsCall(threads, events, k, events[k].t);
  }

  // ----- What is proved -----

  /** In every run each accepted byte belongs to one call of pipewrite. */
  lemma {:induction false} EveryByteHasACall(threads: set<nat>, events: seq<Event>, k: nat, b: nat)
    requires k <= |events| && b < |Run(Start(threads), events, k).accepted|
    ensures |Calls(threads, events, k)| == |Run(Start(threads), events, k).accepted|
    ensures IsCall(threads, events, k, Calls(threads, events, k)[b])
  {
    hide Run, Calls, Of, WriterOk;
    RunCalls(threads, events, k);
    assert Calls(threads, events, k)[b] in Calls(threads, events, k);
  }

  /** The bytes accepted from call c. */
  ghost function Sent(threads: set<nat>, events: seq<Event>, k: nat, c: int): seq<FileBlocks.Byte>
    requires k <= |events|
  {
    RunCalls(threads, events, k);
    Of(Accepted(threads, events, k), Calls(threads, events, k), c)
  }

  /** In every run the bytes accepted from a writer's call are exactly those in front of its place, in order, across any
      number of sleeps. */
  lemma {:induction false} WriterSent(threads: set<nat>, events: seq<Event>, k: nat, t: nat)
    requires k <= |events| && t in Run(Start(threads), events, k).pc
    requires Run(Start(threads), events, k).pc[t].Writing? || Run(Start(threads), events, k).pc[t].WriteSleep?
    ensures var p, c := Run(Start(threads), events, k).pc[t], LastCall(threads, events, k, t);
      && 0 <= c < k && events[c] == CallWrite(t, p.src) && p.i <= |p.src|
      && Sent(threads, events, k, c) == p.src[..p.i]
  {
    hide Run, Calls, Of, IsCall;
    RunCalls(threads, events, k);
    assert WriterOk(threads, events, k, t);
  }

  /** Thread t is in no call of pipewrite. */
  predicate Outside(s: State, t: nat) {
    t in s.pc && !s.pc[t].Writing? && !s.pc[t].WriteSleep?
  }

  /** Call c is over. */
  ghost predicate Over(threads: set<nat>, events: seq<Event>, k: nat, c: int)
    requires k <= |events|
  {
    && IsCall(threads, events, k, c)
    && (LastCall(threads, events, k, events[c].t) == c ==> Outside(Run(Start(threads), events, k), events[c].t))
  }

  /** A call that returns without giving up has sent all its bytes, and one that gives up fewer. */
  lemma {:induction false} WriteReturns(threads: set<nat>, events: seq<Event>, k: nat)
    requires k < |events| && Happens(threads, events, k) && GoesOn(threads, events, k)
    requires Outside(Run(Start(threads), events, k + 1), events[k].t)
    ensures var s, t, c := Run(Start(threads), events, k), events[k].t, LastCall(threads, events, k, events[k].t);
      && IsCall(threads, events, k, c) && events[c] == CallWrite(t, s.pc[t].src) && Over(threads, events, k + 1, c)
      && (!GivesUp(s, t) ==> Sent(threads, events, k + 1, c) == events[c].src)
      && (GivesUp(s, t) ==> Sent(threads, events, k + 1, c) < events[c].src)
  {
    hide Calls, Accepted, Of;
    var part, d := Adds(threads, events, k);
    var s, t := Run(Start(threads), events, k), events[k].t;
    RunStep(threads, events, k);
    hide Run;
    RunCalls(threads, events, k);
    RunCalls(threads, events, k + 1);
    assert WriterOk(threads, events, k, t);
    SenderOk(threads, events, k);
    OfMore(Accepted(threads, events, k), Calls(threads, events, k), part, d, d);
    var p := s.pc[t];
    assert p.src[..p.i] + p.src[p.i..Reach(s, p.src, p.i)] == p.src[..Reach(s, p.src, p.i)];
  }

  lemma {:induction false} OverNext(threads: set<nat>, events: seq<Event>, k: nat, c: int)
    requires k < |events| && Over(threads, events, k, c)
    ensures Over(threads, events, k + 1, c) && Sent(threads, events, k + 1, c) == Sent(threads, events, k, c)
  {
    hide Calls, Accepted, Of, Step, Enabled, Reach;
    var part, d := Adds(threads, events, k);
    RunCalls(threads, events, k);
    RunCalls(threads, events, k + 1);
    OfMore(Accepted(threads, events, k), Calls(threads, events, k), part, d, c);
    var s, e, t := Run(Start(threads), events, k), events[k], events[c].t;
    RunStep(threads, events, k);
    RunData(threads, events, k);
    RunThreads(threads, events, k);
    hide CallsOk;
    if part != [] {
      LastIsCall(threads, events, k, e.t);
    }
    if Happens(threads, events, k) && LastCall(threads, events, k + 1, t) == c {
      if e.Go? {
        assert ThreadOk(s, e.t);
      }
      EventEffect(s, e, t);
    }
  }

  /** A call that is over gets no more bytes accepted. */
  lemma {:induction false} OverStays(threads: set<nat>, events: seq<Event>, k: nat, n: nat, c: int)
    requires k <= n <= |events| && Over(threads, events, k, c)
    ensures Over(threads, events, n, c) && Sent(threads, events, n, c) == Sent(threads, events, k, c)
    decreases n - k
  {
    hide Over, Sent;
    if k < n {
      OverStays(threads, events, k, n - 1, c);
      OverNext(threads, events, n - 1, c);
    }
  }

  /** A reader sleeps exactly while the pipe is empty, has a writer and the reader has not been killed. Else it returns,
      with as many of the first buffered bytes as it asked for; with none only for an empty pipe or if it asked for none. */
  lemma {:induction false} ReadReturns(threads: set<nat>, events: seq<Event>, k: nat, t: nat, n: nat) returns (got: seq<FileBlocks.Byte>)
    requires k < |events| && events[k] == Go(t) && t in Run(Start(threads), events, k).pc && Run(Start(threads), events, k).pc[t] == Reading(n)
    ensures var s, s' := Run(Start(threads), events, k), Run(Start(threads), events, k + 1);
      && t in s'.pc && (s'.pc[t] == ReadSleep(n) <==> s.buffer == [] && s.writeopen && t !in s.killed)
      && (s'.pc[t] != ReadSleep(n) ==> s'.pc[t] == Idle)
      && s.buffer == got + s'.buffer && s'.delivered == s.delivered + got && s'.accepted == s.accepted
      && |got| == Min(n, |s.buffer|)
  {
    var s := Run(Start(threads), events, k);
    got := s.buffer[..Min(n, |s.buffer|)];
  }

  /** Event e happened before k. */
  ghost predicate Happened(threads: set<nat>, events: seq<Event>, k: nat, e: Event)
    requires k <= |events|
  {
    exists j: nat :: j < k && events[j] == e && Happens(threads, events, j)
  }

  lemma {:induction false} HappenedNext(threads: set<nat>, events: seq<Event>, k: nat, e: Event)
    requires k < |events|
    ensures Happened(threads, events, k + 1, e) <==> Happened(threads, events, k, e) || (events[k] == e && Happens(threads, events, k))
  {
    hide Happens;
    if Happened(threads, events, k + 1, e) {
      var j: nat :| j < k + 1 && events[j] == e && Happens(threads, events, j);
      assert j < k ==> Happened(threads, events, k, e);
    }
  }

  /** In every run an end of the pipe is open exactly as long as it has not been closed, and a thread is marked as killed
      exactly from the moment it was. With ReadReturns: after the last writer has closed, readers get what is buffered and
      then nothing, without sleeping. */
  lemma {:induction false} FlagsExact(threads: set<nat>, events: seq<Event>, k: nat, t: nat)
    requires k <= |events|
    ensures var s := Run(Start(threads), events, k);
      && (s.readopen <==> !Happened(threads, events, k, CloseRead))
      && (s.writeopen <==> !Happened(threads, events, k, CloseWrite))
      && (t in s.killed <==> Happened(threads, events, k, Kill(t)) || Happened(threads, events, k, LateKill(t)))
  {
    hide Step, Enabled;
    if k > 0 {
      FlagsExact(threads, events, k - 1, t);
      HappenedNext(threads, events, k - 1, CloseRead);
      HappenedNext(threads, events, k - 1, CloseWrite);
      HappenedNext(threads, events, k - 1, Kill(t));
      HappenedNext(threads, events, k - 1, LateKill(t));
      RunStep(threads, events, k - 1);
      hide Happened;
      FlagStep(Run(Start(threads), events, k - 1), events[k - 1], t);
    }
  }

  lemma {:induction false} FlagStep(s: State, e: Event, t: nat)
    ensures Enabled(s, e) ==> var s' := Step(s, e);
      && s'.readopen == (s.readopen && e != CloseRead) && s'.writeopen == (s.writeopen && e != CloseWrite)
      && (t in s'.killed <==> t in s.killed || e == Kill(t) || e == LateKill(t))
  {
  }

  // ----- The ring buffer does the protocol's copying -----

  /** The ring holds the protocol's buffer. */
  ghost predicate Holds(ring: Ring, s: State)
    reads ring, ring.data
  {
    ring.Valid() && ring.Contents() == s.buffer && ring.accepted == s.accepted && ring.delivered == s.delivered
  }

  datatype Turn = Return(r: int) | Sleep(i: nat)

  /** pipewrite from the acquire, or from a wakeup, to the next sleep or the return (pipe.c:82-97): what the protocol's step
      does to the buffer and to the thread. */
  method WriteTurn(ring: Ring, src: seq<FileBlocks.Byte>, i: nat, readopen: bool, killed: bool, ghost s: State, ghost t: nat) returns (turn: Turn)
    requires Holds(ring, s) && Data(s) && t in s.pc && s.pc[t] == Writing(src, i) && i <= |src|
    requires readopen == s.readopen && (killed <==> t in s.killed)
    modifies ring, ring.data
    ensures Holds(ring, Step(s, Go(t)))
    ensures Step(s, Go(t)).pc[t] == match turn case Return(_) => Idle case Sleep(j) => WriteSleep(src, j)
    ensures turn.Return? ==> turn.r == if GivesUp(s, t) then -1 else |src|
  {
    var j := ring.WriteSome(src, i);
    assert j == Reach(s, src, i);
    if j == |src| {
      return Return(|src|);
    }
    if !readopen || killed {
      return Return(-1);
    }
    return Sleep(j);
  }

  /** piperead likewise (pipe.c:105-120). */
  method ReadTurn(ring: Ring, n: nat, writeopen: bool, killed: bool, ghost s: State, ghost t: nat) returns (turn: Turn, dst: seq<FileBlocks.Byte>)
    requires Holds(ring, s) && Data(s) && t in s.pc && s.pc[t] == Reading(n)
    requires writeopen == s.writeopen && (killed <==> t in s.killed)
    modifies ring, ring.data
    ensures Holds(ring, Step(s, Go(t))) && s.buffer == dst + Step(s, Go(t)).buffer
    ensures Step(s, Go(t)).pc[t] == match turn case Return(_) => Idle case Sleep(_) => ReadSleep(n)
    ensures turn.Return? ==> turn.r == if s.buffer == [] && s.writeopen then -1 else |dst|
  {
    FullOrEmpty(ring.nread, ring.nwrite);
    if ring.nread == ring.nwrite && writeopen {
      return if killed then Return(-1) else Sleep(0), [];
    }
    dst := ring.ReadSome(n);
    turn := Return(|dst|);
  }
}
