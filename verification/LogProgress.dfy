/** What end_op promises: the last operation to end starts a commit, a commit ends, and then everything logged by ended
    operations is durable. No begin_op waits for nothing. */
module LogProgress {
  import opened Common
  import opened DiskModel
  import opened RedoLog
  import opened CommitMachine
  import opened GroupCommit
  import opened LogLimits
  import opened LogRefinement

  /** Writes that have not committed are in the log of operations still open, or of the commit that has begun. */
  predicate Owed(s: State) {
    match s.phase
    case Idle => (s.open == [] ==> s.lh == []) && (s.lh == [] ==> s.cut == |s.hist|)
    case LogBlock(_) => true
    case _ => s.cut == |s.hist|
  }

  lemma {:induction false} StepOwed(c: Config, s: State, step: Step)
    requires Basic(c, s) && Owed(s) && Do(c, s, step).Ok?
    ensures Owed(Do(c, s, step).s)
  {
    hide HeaderOk, Homes, Distinct, NoBuffer, View, HeaderOf, HeadNos, CountOk, Unsplit, OpOk, SameBlocks, Taken;
    match step
    case EndOp(k) => assert |s.open[..k] + s.open[k + 1..]| == |s.open| - 1;
    case _ =>
  }

  lemma {:induction false} RunOwed(c: Config, steps: seq<Step>)
    requires GoodConfig(c) && Run(c, steps).Ok?
    ensures Owed(Run(c, steps).s)
  {
    if steps != [] {
      hide Basic, Do, Owed;
      var init, step := steps[..|steps| - 1], steps[|steps| - 1];
      RunOwed(c, init);
      RunBasic(c, init);
      StepOwed(c, Run(c, init).s, step);
    }
  }

  /** In every run, whenever no operation is open and no commit or recovery runs, every write is committed and the log is
      empty: the last end_op does not return before it has started the commit. */
  lemma {:induction false} IdleIsCommitted(c: Config, steps: seq<Step>)
    requires GoodConfig(c) && Run(c, steps).Ok?
    ensures var s := Run(c, steps).s;
      s.phase == Idle && s.open == [] ==> s.lh == [] && s.cut == |s.hist|
  {
    hide Run;
    RunOwed(c, steps);
  }

  /** And then recovery from the disk as it is would yield every write of every operation that ever ended. */
  lemma {:induction false} EndedIsDurable(c: Config, steps: seq<Step>)
    requires Safe(c) && Run(c, steps).Ok? && Run(c, steps).s.phase == Idle && Run(c, steps).s.open == []
    ensures Layout(c, Run(c, steps).s) && GoodHead(Run(c, steps).s.disk, c.area)
    ensures SameHome(Recovered(Run(c, steps).s.disk, c.area), Current(c, Run(c, steps).s), c.area)
  {
    hide Run;
    RunsAreAtomic(c, steps);
    IdleIsCommitted(c, steps);
  }

  // ----- Commits and recoveries end -----

  /** How many steps a commit or a recovery still needs. */
  function Left(s: State): nat {
    match s.phase
    case Idle => 0
    case Done => 1
    case LogBlock(t) => if t <= |s.lh| then 2 * |s.lh| - t + 3 else 0
    case Install(t) => if t <= |s.lh| then |s.lh| - t + 2 else 0
    case Boot => LOGSIZE + 3
    case Redo(t) => if t <= |s.lh| then |s.lh| - t + 1 else 0
  }

  lemma {:induction false} LogFits(c: Config, s: State)
    requires Safe(c) && Basic(c, s) && s.phase.LogBlock?
    ensures 0 < |s.lh| <= LOGSIZE && s.phase.tail <= |s.lh| && (s.phase.tail < |s.lh| ==> OnDevice(c, s, s.phase.tail))
  {
    hide HeaderOk, Distinct, OpsOk, Unsplit, Passes;
    if s.phase.tail == 0 {
      LogWithinBuffers(s);
    }
  }

  lemma {:induction false} InstallFits(c: Config, s: State)
    requires Inv(c, s) && (s.phase.Install? || s.phase.Redo?)
    ensures s.phase.tail <= |s.lh| < LOGSIZE && (s.phase.tail < |s.lh| ==> OnDevice(c, s, s.phase.tail))
  {
    hide HeaderOk, Distinct, OpsOk, Unsplit, Passes, CountOk, Durable, Fresh, Clean, HeadNos;
  }

  lemma {:induction false} CommitPhase(c: Config, s: State)
    requires Inv(c, s) && s.committing
    ensures s.phase.LogBlock? || s.phase.Install? || s.phase.Done?
  {
    hide HeaderOk, Distinct, Unsplit, Passes, View, HeaderOf, NoBuffer, CountOk, SameBlocks, Durable, Memory, Fresh, Clean, HeadNos;
  }

  /** While a commit runs its next step is there to be taken, and brings it one step nearer to its end. */
  lemma {:induction false} CommitMoves(c: Config, s: State)
    requires Inv(c, s) && s.committing
    ensures !DoCommit(c, s).Blocked? && Left(s) > 0
    ensures DoCommit(c, s).Ok? ==> Left(DoCommit(c, s).s) == Left(s) - 1
  {
    hide HeaderOk, Distinct, OpsOk, Unsplit, Passes, View, HeaderOf, NoBuffer, CountOk, SameBlocks, Durable, Memory, Fresh, Clean, HeadNos;
    CommitPhase(c, s);
    if s.phase.LogBlock? {
      LogFits(c, s);
    } else if s.phase.Install? {
      InstallFits(c, s);
    }
  }

  /** Likewise a recovery, which besides cannot panic. */
  lemma {:induction false} RecoveryMoves(c: Config, s: State)
    requires Inv(c, s) && (s.phase.Boot? || s.phase.Redo?)
    ensures DoRecover(c, s).Ok? && Left(DoRecover(c, s).s) < Left(s)
  {
    hide Distinct, Unsplit, View, HeaderOf, NoBuffer, CountOk, SameBlocks, Durable, Memory;
    RecoveryNeverPanics(c, s);
    if s.phase.Redo? {
      InstallFits(c, s);
    } else {
      BootBasic(c, s);
    }
  }

  /** Nobody else holds a commit or a recovery up, or sets it back, short of a crash. */
  lemma {:induction false} OthersKeepLeft(c: Config, s: State, step: Step)
    requires Inv(c, s) && !s.phase.Idle? && Do(c, s, step).Ok? && !step.CommitStep? && !step.RecoverStep? && !step.Crash?
    ensures Left(Do(c, s, step).s) == Left(s) && Do(c, s, step).s.phase == s.phase
  {
    hide HeaderOk, Distinct, Unsplit, NoBuffer, CountOk, SameBlocks, Durable, Memory, Taken;
  }

  /** A commit under way in s0, whatever other threads do short of a crash, has ended once it has taken Left(s0) steps of
      its own, and not before. */
  lemma {:induction false} CommitsEnd(c: Config, s0: State, steps: seq<Step>)
    requires Inv(c, s0) && s0.committing && From(c, s0, steps).Ok? && Crash !in steps && NotPast(steps, CommitStep, Left(s0) - 1)
    ensures Times(steps, CommitStep) <= Left(s0) && Inv(c, From(c, s0, steps).s)
    ensures Left(From(c, s0, steps).s) == Left(s0) - Times(steps, CommitStep)
    ensures From(c, s0, steps).s.committing <==> Times(steps, CommitStep) < Left(s0)
    ensures From(c, s0, steps).s.phase == Idle <==> Times(steps, CommitStep) == Left(s0)
  {
    hide Inv, Do, Left;
    CommitMoves(c, s0);
    if steps == [] {
      LeftZero(c, s0);
    } else {
      var init, step := steps[..|steps| - 1], steps[|steps| - 1];
      CommitsEnd(c, s0, init);
      var s := From(c, s0, init).s;
      StepInv(c, s, step);
      CommitTurn(c, s, step);
    }
  }

  lemma {:induction false} LeftZero(c: Config, s: State)
    requires Inv(c, s)
    ensures s.committing <==> Running(s.phase)
    ensures Running(s.phase) || s.phase == Idle ==> (Left(s) == 0 <==> s.phase == Idle)
  {
    hide HeaderOk, Distinct, Unsplit, CountOk, SameBlocks, Durable, Memory, OpOk;
  }

  lemma {:induction false} CommitPhases(c: Config, s: State)
    requires DoCommit(c, s).Ok?
    ensures Running(s.phase) && (Running(DoCommit(c, s).s.phase) || DoCommit(c, s).s.phase == Idle)
  {
    hide NoBuffer, View, HeaderOf;
  }

  lemma {:induction false} CommitTurn(c: Config, s: State, step: Step)
    requires Inv(c, s) && s.committing && Do(c, s, step).Ok? && !step.Crash? && Inv(c, Do(c, s, step).s)
    ensures var t := Do(c, s, step).s;
      Left(t) == Left(s) - (if step.CommitStep? then 1 else 0) && (t.phase == Idle <==> Left(t) == 0) && (t.phase != Idle <==> t.committing)
  {
    hide Inv, DoCommit, DoHold, DoRelease, DoRecycle, DoEndOp, DoLogAppend, DoLogTest, DoBeginOp, Left;
    LeftZero(c, s);
    LeftZero(c, Do(c, s, step).s);
    if step.CommitStep? {
      CommitMoves(c, s);
      CommitPhases(c, s);
    } else {
      OthersKeepLeft(c, s, step);
    }
  }

  /** An operation that is open can always go on: into the locked part of log_write, or to its end. */
  ghost predicate OperationMoves(c: Config, s: State) {
    exists k: nat, data: Block :: !Do(c, s, LogAppend(k, data)).Blocked? || !Do(c, s, EndOp(k)).Blocked?
  }

  /** In every run a begin_op that sleeps waits for somebody who can go on: a commit, a recovery or an open operation. */
  lemma {:induction false} WaitsForSomebody(c: Config, steps: seq<Step>)
    requires Safe(c) && Run(c, steps).Ok? && Do(c, Run(c, steps).s, BeginOp).Blocked?
    ensures var s := Run(c, steps).s;
      || (s.committing && !Do(c, s, CommitStep).Blocked?)
      || ((s.phase.Boot? || s.phase.Redo?) && Do(c, s, RecoverStep).Ok?)
      || OperationMoves(c, s)
  {
    hide Run, Inv, DoCommit, DoRecover, OperationMoves;
    RunInv(c, steps);
    IdleIsCommitted(c, steps);
    var s := Run(c, steps).s;
    InvPhases(c, s);
    if s.committing {
      CommitMoves(c, s);
    } else if s.phase.Boot? || s.phase.Redo? {
      RecoveryMoves(c, s);
    } else {
      FirstMoves(c, s);
    }
  }

  lemma {:induction false} InvPhases(c: Config, s: State)
    requires Inv(c, s)
    ensures s.committing <==> Running(s.phase)
    ensures |s.open| == s.outstanding && c.disk0 != []
  {
    hide HeaderOk, Distinct, Unsplit, CountOk, Durable, Memory;
  }

  lemma {:induction false} FirstMoves(c: Config, s: State)
    requires s.open != [] && |s.open| == s.outstanding && c.disk0 != []
    ensures OperationMoves(c, s)
  {
    hide View;
    var data := c.disk0[0];
    assert !Do(c, s, LogAppend(0, data)).Blocked? || !Do(c, s, EndOp(0)).Blocked?;
  }
}
