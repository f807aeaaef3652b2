/** What the sizes allow: which panics the log can reach, when operations within their budget always find room in it, and
    which sizes of the log area keep commits atomic although log_write makes its tests before it takes the lock. */
module LogLimits {
  import opened Common
  import opened DiskModel
  import opened RedoLog
  import opened CommitMachine
  import opened GroupCommit

  // ----- The budget -----

  /** The operation keeps to the MAXOPBLOCKS distinct blocks that begin_op reserved for it. */
  predicate Budgeted(s: State, step: Step) {
    step.LogTest? && step.k < |s.open| ==>
      step.b in s.open[step.k].logged || |s.open[step.k].logged| < MAXOPBLOCKS
  }

  /** A run in which every operation keeps to its budget. */
  ghost predicate InBudget(c: Config, steps: seq<Step>) {
    steps == [] ||
    (var init := steps[..|steps| - 1];
     InBudget(c, init) && (Run(c, init).Ok? ==> Budgeted(Run(c, init).s, steps[|steps| - 1])))
  }

  /** Blocks that open operations may still add to the log. */
  function Slack(open: seq<Op>): int {
    if open == [] then 0
    else Slack(open[..|open| - 1]) + MAXOPBLOCKS - |open[|open| - 1].logged|
  }

  lemma {:induction false} SlackBound(open: seq<Op>)
    ensures Slack(open) <= |open| * MAXOPBLOCKS
  {
    if open != [] {
      SlackBound(open[..|open| - 1]);
    }
  }

  lemma {:induction false} SlackUpdate(open: seq<Op>, k: nat, op: Op)
    requires k < |open|
    ensures Slack(open[k := op]) == Slack(open) + |open[k].logged| - |op.logged|
  {
    var init := open[..|open| - 1];
    if k == |open| - 1 {
      assert open[k := op][..k] == init;
    } else {
      SlackUpdate(init, k, op);
      assert open[k := op][..|open| - 1] == init[k := op];
    }
  }

  lemma {:induction false} SlackRemove(open: seq<Op>, k: nat)
    requires k < |open|
    ensures Slack(open[..k] + open[k + 1..]) == Slack(open) - MAXOPBLOCKS + |open[k].logged|
  {
    var init, last := open[..|open| - 1], open[|open| - 1];
    if k == |open| - 1 {
      assert open[..k] + open[k + 1..] == init;
    } else {
      SlackRemove(init, k);
      var rest := open[..k] + open[k + 1..];
      assert rest[..|rest| - 1] == init[..k] + init[k + 1..];
    }
  }

  lemma {:induction false} SlackNonNegative(open: seq<Op>)
    requires forall i | 0 <= i < |open| :: |open[i].logged| <= MAXOPBLOCKS
    ensures Slack(open) >= 0
  {
    if open != [] {
      SlackNonNegative(open[..|open| - 1]);
    }
  }

  lemma {:induction false} SlackCovers(open: seq<Op>, k: nat)
    requires k < |open| && forall i | 0 <= i < |open| :: |open[i].logged| <= MAXOPBLOCKS
    ensures Slack(open) >= MAXOPBLOCKS - |open[k].logged|
  {
    if k < |open| - 1 {
      SlackCovers(open[..|open| - 1], k);
    } else {
      SlackNonNegative(open[..|open| - 1]);
    }
  }

  predicate OpBudget(op: Op, lh: seq<Word>) {
    && |op.logged| <= MAXOPBLOCKS && (forall b | b in op.logged :: b in lh)
    && (op.passed.Some? ==> op.passed.value in op.logged || |op.logged| < MAXOPBLOCKS)
  }

  /** The log has room for all that the open operations may still log. */
  predicate Reserved(s: State) {
    && (forall k | 0 <= k < |s.open| :: OpBudget(s.open[k], s.lh))
    && (s.phase.Idle? ==> |s.lh| + Slack(s.open) <= LOGSIZE)
  }

  lemma {:induction false} BeginOpReserved(s: State)
    requires Reserved(s) && s.phase.Idle? && |s.open| == s.outstanding && DoBeginOp(s).Ok?
    ensures Reserved(DoBeginOp(s).s)
  {
    SlackBound(s.open);
    var t := DoBeginOp(s).s;
    assert t.open[..|t.open| - 1] == s.open;
  }

  lemma {:induction false} LogTestReserved(c: Config, s: State, k: nat, b: Word)
    requires Reserved(s) && DoLogTest(c, s, k, b).Ok? && Budgeted(s, LogTest(k, b))
    ensures Reserved(DoLogTest(c, s, k, b).s)
  {
    SlackUpdate(s.open, k, s.open[k].(passed := Some(b)));
  }

  lemma {:induction false} LogAppendReserved(s: State, k: nat, data: Block)
    requires Reserved(s) && DoLogAppend(s, k, data).Ok?
    ensures Reserved(DoLogAppend(s, k, data).s)
  {
    var t, b, was := DoLogAppend(s, k, data).s, s.open[k].passed.value, s.open[k].logged;
    SlackUpdate(s.open, k, t.open[k]);
    assert OpBudget(s.open[k], s.lh);
    if b in was {
      assert was + {b} == was;
    }
  }

  lemma {:induction false} EndOpReserved(s: State, k: nat)
    requires Reserved(s) && DoEndOp(s, k).Ok?
    ensures Reserved(DoEndOp(s, k).s)
  {
    SlackRemove(s.open, k);
    var t := DoEndOp(s, k).s;
    assert OpBudget(s.open[k], s.lh);
    hide OpBudget;
    forall j | 0 <= j < |t.open| ensures OpBudget(t.open[j], t.lh) {
      assert t.open[j] == s.open[if j < k then j else j + 1];
    }
  }

  lemma {:induction false} OpsAlone(c: Config, s: State)
    requires Basic(c, s)
    ensures |s.open| == s.outstanding && (s.open != [] ==> s.phase.Idle?) && (s.committing <==> Running(s.phase))
  {
  }

  lemma {:induction false} CommitEnds(c: Config, s: State)
    requires Basic(c, s) && DoCommit(c, s).Ok?
    ensures DoCommit(c, s).s.open == [] && (DoCommit(c, s).s.phase.Idle? ==> DoCommit(c, s).s.lh == [])
  {
    hide NoBuffer, View, HeaderOf, OpOk, HeaderOk, Homes, Distinct, Unsplit, Needs, CountOk, SameBlocks, Layout;
  }

  lemma {:induction false} RecoverEnds(c: Config, s: State)
    requires Basic(c, s) && DoRecover(c, s).Ok?
    ensures DoRecover(c, s).s.open == [] && (DoRecover(c, s).s.phase.Idle? ==> DoRecover(c, s).s.lh == [])
  {
    hide NoBuffer, View, HeaderOf, HeadNos, OpOk, HeaderOk, Homes, Distinct, Unsplit, Needs, CountOk, SameBlocks, Layout;
  }

  /** Steps of commit, recovery and crash run without open operations, and end with an empty log. */
  lemma {:induction false} QuietEnds(c: Config, s: State, step: Step)
    requires Basic(c, s) && Do(c, s, step).Ok? && (step.CommitStep? || step.RecoverStep? || step.Crash?)
    ensures Do(c, s, step).s.open == [] && (Do(c, s, step).s.phase.Idle? ==> Do(c, s, step).s.lh == [])
  {
    hide Basic, DoCommit, DoRecover;
    if step.CommitStep? {
      CommitEnds(c, s);
    } else if step.RecoverStep? {
      RecoverEnds(c, s);
    }
  }

  lemma {:induction false} QuietReserved(c: Config, s: State, step: Step)
    requires Basic(c, s) && Do(c, s, step).Ok? && (step.CommitStep? || step.RecoverStep? || step.Crash?)
    ensures Reserved(Do(c, s, step).s)
  {
    hide Basic, Do;
    QuietEnds(c, s, step);
  }

  lemma {:induction false} StepReserved(c: Config, s: State, step: Step)
    requires Basic(c, s) && Reserved(s) && Budgeted(s, step) && Do(c, s, step).Ok?
    ensures Reserved(Do(c, s, step).s)
  {
    hide Basic, DoCommit, DoRecover, DoCrash, NoBuffer;
    OpsAlone(c, s);
    match step
    case BeginOp => BeginOpReserved(s);
    case LogTest(k, b) => LogTestReserved(c, s, k, b);
    case LogAppend(k, data) => LogAppendReserved(s, k, data);
    case EndOp(k) => EndOpReserved(s, k);
    case CommitStep => QuietReserved(c, s, step);
    case RecoverStep => QuietReserved(c, s, step);
    case Crash => QuietReserved(c, s, step);
    case _ =>
  }

  lemma {:induction false} RunReserved(c: Config, steps: seq<Step>)
    requires GoodConfig(c) && Run(c, steps).Ok? && InBudget(c, steps)
    ensures Reserved(Run(c, steps).s)
  {
    if steps != [] {
      hide Reserved, Do, Budgeted;
      var init, step := steps[..|steps| - 1], steps[|steps| - 1];
      RunReserved(c, init);
      RunBasic(c, init);
      StepReserved(c, Run(c, init).s, step);
    }
  }

  /** Admission control works where the log area has room for a full header: in every run within budget a block that is
      not in the log yet finds room there. */
  lemma {:induction false} NewBlockFits(c: Config, steps: seq<Step>, k: nat, b: Word)
    requires GoodConfig(c) && Run(c, steps).Ok? && InBudget(c, steps) && Budgeted(Run(c, steps).s, LogTest(k, b))
    requires k < |Run(c, steps).s.open| && b !in Run(c, steps).s.lh
    ensures |Run(c, steps).s.lh| < LOGSIZE
    ensures c.area.size > LOGSIZE ==> !DoLogTest(c, Run(c, steps).s, k, b).Panic?
  {
    hide Run;
    var s := Run(c, steps).s;
    RunReserved(c, steps);
    RunBasic(c, steps);
    OpsAlone(c, s);
    hide Basic;
    assert OpBudget(s.open[k], s.lh);
    SlackCovers(s.open, k);
  }

  // ----- Panics -----

  /** The panics that the code can reach. log_write tests the size before it looks for the block in the log, so it refuses
      any block once the log is full. bget refuses a block when every buffer is dirty, held, or needed beside it. */
  predicate PanicsAt(c: Config, s: State, step: Step) {
    match step
    case LogTest(k, b) => MayTest(c, s, k, b) && |s.lh| >= Capacity(c.area)
    case CommitStep => NoBuffer(s, CommitUses(c, s))
    case Hold(b) => !s.phase.Boot? && !s.phase.Redo? && b < |s.disk| && b !in s.held && NoBuffer(s, {b})
    case _ => false
  }

  /** The buffers that commit takes next. */
  function CommitUses(c: Config, s: State): set<Word> {
    if (s.phase.LogBlock? || s.phase.Install?) && OnDevice(c, s, s.phase.tail) then Needs(c, s, s.phase.tail)
    else if (s.phase.LogBlock? || s.phase.Install?) && s.phase.tail == |s.lh| <= LOGSIZE && HeaderOnDevice(c, s) then {c.area.start}
    else {}
  }

  lemma {:induction false} CommitPanics(c: Config, s: State)
    requires Basic(c, s)
    ensures DoCommit(c, s).Panic? <==> PanicsAt(c, s, CommitStep)
  {
    hide View, HeaderOf, OpsOk, CountOk, HeaderOk, Homes, Distinct;
    assert s.dirty + s.held + {} == s.dirty + s.held;
  }

  lemma {:induction false} FreeBuffers(s: State, x: Word, y: Word)
    requires s.dirty == {} && s.held == {}
    ensures !NoBuffer(s, {x}) && !NoBuffer(s, {x, y})
  {
    assert s.dirty + s.held + {x} == {x};
    assert s.dirty + s.held + {x, y} == {x} + {y};
  }

  lemma {:induction false} RecoveryNeverPanics(c: Config, s: State)
    requires Basic(c, s)
    ensures !DoRecover(c, s).Panic?
  {
    hide View, HeaderOf, OpsOk, CountOk, HeaderOk, Homes, Distinct, NoBuffer, Layout, HeadNos, SameBlocks;
    if s.phase.Redo? {
      var t := s.phase.tail;
      if OnDevice(c, s, t) {
        FreeBuffers(s, c.area.start + 1 + t, s.lh[t]);
      } else if HeaderOnDevice(c, s) {
        FreeBuffers(s, c.area.start, c.area.start);
      }
    }
  }

  lemma {:induction false} TestPanics(c: Config, s: State, k: nat, b: Word)
    requires Basic(c, s)
    ensures DoLogTest(c, s, k, b).Panic? <==> PanicsAt(c, s, LogTest(k, b))
  {
    hide Taken;
    OpsAlone(c, s);
  }

  lemma {:induction false} EndOpNeverPanics(c: Config, s: State, k: nat)
    requires Basic(c, s)
    ensures !DoEndOp(s, k).Panic?
  {
    hide Basic;
    OpsAlone(c, s);
  }

  lemma {:induction false} PanicExactly(c: Config, s: State, step: Step)
    requires Basic(c, s)
    ensures (Do(c, s, step).Panic? <==> PanicsAt(c, s, step)) && !Do(c, s, step).Overrun?
  {
    hide Basic, DoCommit, DoRecover, DoLogTest, NoBuffer, CommitUses, MayTest;
    match step
    case LogTest(k, b) =>
      TestPanics(c, s, k, b);
      TestResult(c, s, k, b);
    case LogAppend(k, data) => NoOverrun(c, s, k, data);
    case EndOp(k) => EndOpNeverPanics(c, s, k);
    case CommitStep =>
      CommitPanics(c, s);
      CommitResult(c, s);
    case RecoverStep =>
      RecoveryNeverPanics(c, s);
      CommitResult(c, s);
    case _ =>
  }

  lemma {:induction false} TestResult(c: Config, s: State, k: nat, b: Word)
    ensures !DoLogTest(c, s, k, b).Overrun?
  {
  }

  lemma {:induction false} CommitResult(c: Config, s: State)
    ensures !DoCommit(c, s).Overrun? && !DoRecover(c, s).Overrun?
  {
  }

  /** In every run the panics are exactly these: end_op never finds a commit under way, recovery never runs out of
      buffers, and log_write never runs past the end of lh.block. */
  lemma {:induction false} PanicsInRuns(c: Config, steps: seq<Step>, step: Step)
    requires GoodConfig(c) && Run(c, steps).Ok?
    ensures Do(c, Run(c, steps).s, step).Panic? <==> PanicsAt(c, Run(c, steps).s, step)
    ensures !Do(c, Run(c, steps).s, step).Overrun?
  {
    hide Run, Do, PanicsAt;
    RunBasic(c, steps);
    PanicExactly(c, Run(c, steps).s, step);
  }

  lemma {:induction false} FewDirty(s: State, b: Word, need: set<Word>)
    requires Distinct(s.lh) && |s.lh| < NBUF && s.held == {} && (forall x | x in s.dirty :: x in s.lh) && forall x | x in need :: x == b || x in s.lh
    ensures !NoBuffer(s, need)
  {
    var all := Listed(s.lh, |s.lh|);
    assert s.dirty + s.held + need <= all + {b};
    hide Listed, NoBuffer;
    ListedCount(s.lh, |s.lh|);
    CardAtMost(s.dirty + s.held + need, all + {b});
  }

  /** While nobody holds a buffer, commit panics exactly when it begins with NBUF blocks. */
  lemma {:induction false} QuietCommitPanics(c: Config, s: State)
    requires Basic(c, s) && s.held == {}
    ensures DoCommit(c, s).Panic? <==> s.phase == LogBlock(0) && |s.lh| == NBUF
  {
    hide Distinct, OpsOk, HeaderOk, View, HeaderOf, NoBuffer;
    CommitPanics(c, s);
    if s.phase == LogBlock(0) && |s.lh| >= NBUF {
      LogWithinBuffers(s);
      FullLog(c, s);
    } else if s.phase.LogBlock? || s.phase.Install? {
      var t := s.phase.tail;
      assert s.phase.Install? ==> forall b | b in s.dirty :: b in s.lh[t..];
      FewDirty(s, if OnDevice(c, s, t) then c.area.start + 1 + t else c.area.start, CommitUses(c, s));
    } else {
      NoUses(s);
    }
  }

  lemma {:induction false} NoUses(s: State)
    requires |s.dirty + s.held| <= NBUF
    ensures !NoBuffer(s, {})
  {
    assert s.dirty + s.held + {} == s.dirty + s.held;
  }

  lemma {:induction false} FullLog(c: Config, s: State)
    requires Basic(c, s) && s.phase == LogBlock(0) && |s.lh| == NBUF && s.held == {}
    ensures PanicsAt(c, s, CommitStep)
  {
    hide OpsOk, HeaderOk;
    DirtyCount(s);
    assert InLog(c.area.start + 1, c.area);
    assert s.lh[0] < |s.disk|;
    assert c.area.start + 1 !in s.dirty;
    assert s.dirty + s.held + CommitUses(c, s) == s.dirty + {c.area.start + 1};
  }

  // ----- Runs that reach the limits -----

  /** There are blocks outside the log to fill it with, and one right behind it. */
  predicate Roomy(c: Config) {
    GoodConfig(c) && c.area.size + LOGSIZE <= |c.disk0| && c.area.start + c.area.size < |c.disk0|
  }

  /** The i-th block outside the log. */
  function HomeAt(c: Config, i: nat): (b: Word)
    requires Roomy(c) && i < LOGSIZE
    ensures b < |c.disk0| && !InLog(b, c.area)
  {
    if i < c.area.start then i else i + c.area.size
  }

  function Between(c: Config, a: nat, m: nat): (r: set<Word>)
    requires Roomy(c) && m <= LOGSIZE
  {
    if m <= a then {} else Between(c, a, m - 1) + {HomeAt(c, m - 1)}
  }

  lemma {:induction false} BetweenHas(c: Config, a: nat, m: nat, i: nat)
    requires Roomy(c) && m <= LOGSIZE && i < LOGSIZE
    ensures HomeAt(c, i) in Between(c, a, m) <==> a <= i < m
  {
    if m > a {
      BetweenHas(c, a, m - 1, i);
    }
  }

  lemma {:induction false} BetweenLess(c: Config, a: nat, m: nat)
    requires Roomy(c) && a < m <= LOGSIZE
    ensures Between(c, a, m) - {HomeAt(c, a)} == Between(c, a + 1, m)
  {
    if m > a + 1 {
      BetweenLess(c, a, m - 1);
    } else {
      assert Between(c, a, m - 1) == {} && Between(c, a + 1, m) == {};
    }
  }

  /** The block that operation q logs next, when the first a blocks are logged: the operations take turns. */
  function Turn(q: nat, a: nat): nat {
    a + (q + 3 - a % 3) % 3
  }

  predicate OpAt(c: Config, op: Op, q: nat, a: nat, m: nat)
    requires Roomy(c) && m <= LOGSIZE
  {
    && 3 * |op.logged| <= a + 2 - q
    && op.passed == if Turn(q, a) < m then Some(HomeAt(c, Turn(q, a))) else None
  }

  /** Three operations take turns. Blocks below a are logged; those from a to m have passed log_write's tests. */
  predicate Racing(c: Config, s: State, a: nat, m: nat)
    requires Roomy(c) && a <= m <= LOGSIZE
  {
    && s.phase.Idle? && !s.committing && s.outstanding == 3 == |s.open| && |s.disk| == |c.disk0| && s.cut == 0
    && s.disk[c.area.start].words[0] == 0
    && |s.lh| == a && (forall i: nat | i < a :: s.lh[i] == HomeAt(c, i))
    && s.held == Between(c, a, m)
    && (forall q: nat | q < 3 :: OpAt(c, s.open[q], q, a, m))
    && (a > 0 ==> HomeAt(c, 0) in s.open[0].logged)
  }

  /** A run within budget, one step longer. */
  lemma {:induction false} Extend(c: Config, steps: seq<Step>, step: Step)
    requires Run(c, steps).Ok? && InBudget(c, steps) && Budgeted(Run(c, steps).s, step)
    ensures InBudget(c, steps + [step]) && Run(c, steps + [step]) == Do(c, Run(c, steps).s, step)
  {
    assert (steps + [step])[..|steps|] == steps;
  }

  lemma {:induction false} Booted(c: Config) returns (steps: seq<Step>)
    requires GoodConfig(c)
    ensures Run(c, steps).Ok? && InBudget(c, steps)
    ensures var s := Run(c, steps).s;
      && s.phase.Idle? && s.lh == [] && s.open == [] && s.outstanding == 0 && !s.committing && s.held == {} && s.cut == 0
      && |s.disk| == |c.disk0| && s.disk[c.area.start].words[0] == 0
  {
    assert HeadNos(c.disk0[c.area.start]) == [];
    steps := [];
    assert Run(c, steps) == Ok(Init(c));
    hide Run;
    Extend(c, steps, RecoverStep);
    steps := steps + [RecoverStep];
    RecoveryOfNothing(c, Run(c, steps).s);
    Extend(c, steps, RecoverStep);
    steps := steps + [RecoverStep];
  }

  lemma {:induction false} RecoveryOfNothing(c: Config, s: State)
    requires Fits(s.disk, c.area) && s.phase == Redo(0) && s.lh == [] && s.dirty == {} && s.held == {}
    ensures DoRecover(c, s).Ok? && DoRecover(c, s).s.phase.Idle? && DoRecover(c, s).s.disk[c.area.start].words[0] == 0
  {
    assert s.dirty + s.held + {c.area.start} == {c.area.start};
  }

  lemma {:induction false} RaceStart(c: Config) returns (steps: seq<Step>)
    requires Roomy(c)
    ensures Run(c, steps).Ok? && InBudget(c, steps) && Racing(c, Run(c, steps).s, 0, 0)
  {
    hide Run;
    steps := Booted(c);
    Extend(c, steps, BeginOp);
    steps := steps + [BeginOp];
    Extend(c, steps, BeginOp);
    steps := steps + [BeginOp];
    Extend(c, steps, BeginOp);
    steps := steps + [BeginOp];
  }

  lemma {:induction false} BetweenCount(c: Config, m: nat)
    requires Roomy(c) && m <= LOGSIZE
    ensures |Between(c, 0, m)| <= m
  {
    if m > 0 {
      BetweenCount(c, m - 1);
    }
  }

  lemma {:induction false} BetweenWithin(c: Config, a: nat, m: nat)
    requires Roomy(c) && a <= m <= LOGSIZE
    ensures Between(c, a, m) <= Between(c, 0, m)
  {
    if a < m {
      BetweenWithin(c, a, m - 1);
    }
  }

  lemma {:induction false} RaceDirty(c: Config, s: State, a: nat, m: nat)
    requires Basic(c, s) && Roomy(c) && a <= m <= LOGSIZE && Racing(c, s, a, m)
    ensures s.dirty <= Between(c, 0, m)
  {
    hide Between, OpsOk, CountOk, HeaderOk, Homes, Distinct, Layout, OpAt, HomeAt;
    forall b | b in s.dirty ensures b in Between(c, 0, m) {
      assert b in s.lh;
      var i: nat :| i < |s.lh| && s.lh[i] == b;
      BetweenHas(c, 0, m, i);
    }
  }

  lemma {:induction false} RaceBuffers(c: Config, s: State, a: nat, m: nat)
    requires Basic(c, s) && Roomy(c) && a <= m < LOGSIZE && Racing(c, s, a, m)
    ensures DoHold(s, HomeAt(c, m)).Ok?
  {
    hide Basic, OpAt, HomeAt;
    RaceDirty(c, s, a, m);
    BetweenHas(c, a, m, m);
    BetweenWithin(c, a, m);
    BetweenCount(c, m);
    hide Between;
    UseOneMore(s, Between(c, 0, m), HomeAt(c, m), m);
  }

  lemma {:induction false} UseOneMore(s: State, all: set<Word>, b: Word, m: nat)
    requires s.dirty <= all && s.held <= all && |all| <= m < NBUF
    ensures !NoBuffer(s, {b})
  {
    CardAtMost(s.dirty + s.held + {b}, all + {b});
  }

  lemma {:induction false} HomeAtInjective(c: Config, i: nat, j: nat)
    requires Roomy(c) && i < LOGSIZE && j < LOGSIZE && HomeAt(c, i) == HomeAt(c, j)
    ensures i == j
  {
  }

  lemma {:induction false} TurnAt(q: nat, a: nat, m: nat)
    requires q < 3 && a <= m < a + 3
    ensures Turn(q, a) == m <==> q == m % 3
  {
  }

  /** One more operation passes log_write's tests. */
  lemma {:induction false} RaceTestStep(c: Config, s: State, t: State, a: nat, m: nat)
    requires Roomy(c) && a <= m < LOGSIZE && m < a + 3 && a < Capacity(c.area) && Racing(c, s, a, m)
    requires DoHold(s, HomeAt(c, m)).Ok? && t == DoHold(s, HomeAt(c, m)).s
    ensures Budgeted(t, LogTest(m % 3, HomeAt(c, m))) && DoLogTest(c, t, m % 3, HomeAt(c, m)).Ok?
    ensures Racing(c, DoLogTest(c, t, m % 3, HomeAt(c, m)).s, a, m + 1)
  {
    var b := HomeAt(c, m);
    forall q: nat | q < 3 ensures t.open[q].passed != Some(b) && (Turn(q, a) == m <==> q == m % 3) {
      assert OpAt(c, s.open[q], q, a, m);
      TurnAt(q, a, m);
      if Turn(q, a) < m && HomeAt(c, Turn(q, a)) == b {
        HomeAtInjective(c, Turn(q, a), m);
      }
    }
    hide HomeAt, Turn, NoBuffer;
    assert OpAt(c, s.open[m % 3], m % 3, a, m);
    var u := DoLogTest(c, t, m % 3, b).s;
    forall q: nat | q < 3 ensures OpAt(c, u.open[q], q, a, m + 1) {
      assert OpAt(c, s.open[q], q, a, m);
    }
  }

  lemma {:induction false} AppendOpAt(c: Config, op: Op, q: nat, a: nat, m: nat, b: Word)
    requires Roomy(c) && a < m <= LOGSIZE && m <= a + 3 && q < 3 && OpAt(c, op, q, a, m) && b == HomeAt(c, a)
    ensures q == a % 3 ==> op.passed == Some(b) && OpAt(c, Op(op.id, op.logged + {b}, None), q, a + 1, m)
    ensures q != a % 3 ==> op.passed != Some(b) && OpAt(c, op, q, a + 1, m)
  {
    TurnNext(q, a);
    TurnAt(q, a, a);
    if q == a % 3 {
      AppendCount(op.logged, b, q, a);
    } else if Turn(q, a) < m && HomeAt(c, Turn(q, a)) == b {
      HomeAtInjective(c, Turn(q, a), a);
    }
    hide Turn, HomeAt;
  }

  lemma {:induction false} AppendCount(logged: set<Word>, b: Word, q: nat, a: nat)
    requires q == a % 3 && 3 * |logged| <= a + 2 - q
    ensures 3 * |logged + {b}| <= a + 3 - q
  {
    assert |logged + {b}| <= |logged| + 1;
  }

  lemma {:induction false} NewHome(c: Config, s: State, a: nat, m: nat)
    requires Roomy(c) && a < m <= LOGSIZE && Racing(c, s, a, m)
    ensures HomeAt(c, a) !in s.lh && HomeAt(c, a) in s.held && s.held - {HomeAt(c, a)} == Between(c, a + 1, m)
  {
    hide OpAt;
    BetweenHas(c, a, m, a);
    BetweenLess(c, a, m);
    if HomeAt(c, a) in s.lh {
      var i: nat :| i < |s.lh| && s.lh[i] == HomeAt(c, a);
      HomeAtInjective(c, i, a);
    }
  }

  /** The first of them takes the lock and appends. */
  lemma {:induction false} RaceAppendStep(c: Config, s: State, t: State, a: nat, m: nat, data: Block)
    requires Roomy(c) && a < m <= LOGSIZE && m <= a + 3 && Racing(c, s, a, m)
    requires DoLogAppend(s, a % 3, data).Ok? && t == DoLogAppend(s, a % 3, data).s
    ensures DoRelease(t, HomeAt(c, a)).Ok? && Racing(c, DoRelease(t, HomeAt(c, a)).s, a + 1, m)
    ensures HomeAt(c, a) in t.cache && t.cache[HomeAt(c, a)] == data
  {
    hide HomeAt, Turn, OpAt, Between;
    var k, b := a % 3, HomeAt(c, a);
    NewHome(c, s, a, m);
    AppendOpAt(c, s.open[k], k, a, m, b);
    assert t.open[k] == Op(s.open[k].id, s.open[k].logged + {b}, None);
    forall q: nat | q < 3 ensures t.open[q].passed != Some(b) && OpAt(c, t.open[q], q, a + 1, m) {
      AppendOpAt(c, s.open[q], q, a, m, b);
    }
  }

  lemma {:induction false} RaceAppends(c: Config, s: State, a: nat, m: nat, data: Block)
    requires Roomy(c) && a < m <= LOGSIZE && m <= a + 3 && Racing(c, s, a, m)
    ensures DoLogAppend(s, a % 3, data).Ok?
  {
    hide HomeAt, Turn, OpAt, Between;
    AppendOpAt(c, s.open[a % 3], a % 3, a, m, HomeAt(c, a));
  }

  lemma {:induction false} TurnNext(q: nat, a: nat)
    requires q < 3
    ensures Turn(q, a + 1) == if q == a % 3 then a + 3 else Turn(q, a)
    ensures q != a % 3 ==> Turn(q, a) != a
  {
  }

  ghost predicate RunTo(c: Config, steps: seq<Step>, a: nat, m: nat)
    requires Roomy(c) && a <= m <= LOGSIZE
  {
    Run(c, steps).Ok? && InBudget(c, steps) && Racing(c, Run(c, steps).s, a, m)
  }

  lemma {:induction false} TestOne(c: Config, was: seq<Step>, a: nat, m: nat) returns (steps: seq<Step>)
    requires Roomy(c) && a <= m < LOGSIZE && m < a + 3 && a < Capacity(c.area) && RunTo(c, was, a, m)
    ensures RunTo(c, steps, a, m + 1)
  {
    hide Run, InBudget, Racing, HomeAt, DoHold, DoLogTest, Capacity;
    var s, b := Run(c, was).s, HomeAt(c, m);
    RunBasic(c, was);
    RaceBuffers(c, s, a, m);
    Extend(c, was, Hold(b));
    var t := DoHold(s, b).s;
    RaceTestStep(c, s, t, a, m);
    Extend(c, was + [Hold(b)], LogTest(m % 3, b));
    steps := was + [Hold(b)] + [LogTest(m % 3, b)];
  }

  lemma {:induction false} AppendOne(c: Config, was: seq<Step>, a: nat, m: nat, data: Block) returns (steps: seq<Step>)
    requires Roomy(c) && a < m <= LOGSIZE && m <= a + 3 && RunTo(c, was, a, m)
    ensures RunTo(c, steps, a + 1, m) && HomeAt(c, a) in Run(c, steps).s.cache && Run(c, steps).s.cache[HomeAt(c, a)] == data
  {
    hide Run, InBudget, Racing, HomeAt, DoLogAppend;
    var s, b := Run(c, was).s, HomeAt(c, a);
    RaceAppends(c, s, a, m, data);
    Extend(c, was, LogAppend(a % 3, data));
    var t := DoLogAppend(s, a % 3, data).s;
    RaceAppendStep(c, s, t, a, m, data);
    Extend(c, was + [LogAppend(a % 3, data)], Release(b));
    steps := was + [LogAppend(a % 3, data)] + [Release(b)];
  }

  /** The log is filled with j blocks, one after the other. */
  lemma {:induction false} FillTo(c: Config, j: nat) returns (steps: seq<Step>)
    requires Roomy(c) && j <= Capacity(c.area)
    ensures RunTo(c, steps, j, j)
  {
    if j == 0 {
      steps := RaceStart(c);
    } else {
      hide Run, InBudget, Racing;
      steps := FillTo(c, j - 1);
      steps := TestOne(c, steps, j - 1, j - 1);
      steps := AppendOne(c, steps, j - 1, j, c.disk0[c.area.start]);
    }
  }

  /** With j blocks logged and room for one, n operations pass the tests before any of them appends. */
  lemma {:induction false} RaceTo(c: Config, j: nat, n: nat, data: Block) returns (steps: seq<Step>)
    requires Roomy(c) && j < Capacity(c.area) && 2 <= n <= 3 && j + n <= LOGSIZE
    ensures RunTo(c, steps, j + n, j + n)
    ensures HomeAt(c, j + n - 1) in Run(c, steps).s.cache && Run(c, steps).s.cache[HomeAt(c, j + n - 1)] == data
  {
    hide Run, InBudget, Racing, RunTo, HomeAt, Capacity;
    steps := FillTo(c, j);
    steps := TestOne(c, steps, j, j);
    steps := TestOne(c, steps, j, j + 1);
    if n == 3 {
      steps := TestOne(c, steps, j, j + 2);
    }
    steps := AppendOne(c, steps, j, j + n, data);
    steps := AppendOne(c, steps, j + 1, j + n, data);
    if n == 3 {
      steps := AppendOne(c, steps, j + 2, j + n, data);
    }
  }

  // ----- A refused block -----

  /** A block new to the log is refused although all operations are within budget. */
  ghost predicate NewBlockRefused(c: Config, steps: seq<Step>, step: Step) {
    && Run(c, steps).Ok? && InBudget(c, steps) && Budgeted(Run(c, steps).s, step)
    && step.LogTest? && step.b !in Run(c, steps).s.lh && Do(c, Run(c, steps).s, step).Panic?
  }

  /** In a log area too small for a full header the first block past it is refused. */
  lemma {:induction false} NewBlockPanics(c: Config) returns (steps: seq<Step>, step: Step)
    requires Roomy(c) && c.area.size <= LOGSIZE
    ensures NewBlockRefused(c, steps, step) && |Run(c, steps).s.lh| == c.area.size - 1
  {
    hide Run, InBudget, HomeAt, Racing, Basic, DoHold, DoLogTest;
    var n := Capacity(c.area);
    steps := FillTo(c, n);
    var s, b := Run(c, steps).s, HomeAt(c, n);
    RunBasic(c, steps);
    RaceBuffers(c, s, n, n);
    RefusedAt(c, s, n);
    Extend(c, steps, Hold(b));
    steps, step := steps + [Hold(b)], LogTest(n % 3, b);
  }

  lemma {:induction false} RefusedAt(c: Config, s: State, n: nat)
    requires Roomy(c) && n == Capacity(c.area) < LOGSIZE && Racing(c, s, n, n) && DoHold(s, HomeAt(c, n)).Ok?
    ensures var t := DoHold(s, HomeAt(c, n)).s;
      |t.lh| == n && HomeAt(c, n) !in t.lh && Budgeted(t, LogTest(n % 3, HomeAt(c, n))) && DoLogTest(c, t, n % 3, HomeAt(c, n)).Panic?
  {
    if HomeAt(c, n) in s.lh {
      var i: nat :| i < |s.lh| && s.lh[i] == HomeAt(c, n);
      HomeAtInjective(c, i, n);
    }
    forall q: nat | q < 3 ensures s.open[q].passed == None {
      assert OpAt(c, s.open[q], q, n, n);
    }
    assert OpAt(c, s.open[n % 3], n % 3, n, n);
    hide HomeAt, NoBuffer;
  }

  /** mkfs makes such an area: on its disk the thirtieth block of three operations within budget is refused. */
  lemma {:induction false} MkfsLog(c: Config) returns (steps: seq<Step>, step: Step)
    requires c.area == LogArea(2, LOGSIZE) && |c.disk0| == FSSIZE && c.disk0[2].words[0] == 0
    ensures NewBlockRefused(c, steps, step) && |Run(c, steps).s.lh| == 29
  {
    steps, step := NewBlockPanics(c);
  }

  /** The size panic is reachable also on a block that is in the log already. */
  lemma {:induction false} RelogPanics(c: Config) returns (steps: seq<Step>, again: Step)
    requires Roomy(c) && c.area.size > 1
    ensures Run(c, steps).Ok? && InBudget(c, steps) && Budgeted(Run(c, steps).s, again)
    ensures again.LogTest? && again.b in Run(c, steps).s.lh && Do(c, Run(c, steps).s, again).Panic?
  {
    hide Run, InBudget;
    var n := Capacity(c.area);
    steps := FillTo(c, n);
    var s, b := Run(c, steps).s, HomeAt(c, 0);
    RunBasic(c, steps);
    RelogAt(c, s, n);
    Extend(c, steps, Hold(b));
    steps, again := steps + [Hold(b)], LogTest(0, b);
  }

  lemma {:induction false} RelogAt(c: Config, s: State, n: nat)
    requires Basic(c, s) && Roomy(c) && 0 < n == Capacity(c.area) && Racing(c, s, n, n)
    ensures var b := HomeAt(c, 0);
      && DoHold(s, b).Ok? && b in DoHold(s, b).s.lh && Budgeted(DoHold(s, b).s, LogTest(0, b)) && DoLogTest(c, DoHold(s, b).s, 0, b).Panic?
  {
    forall q: nat | q < 3 ensures s.open[q].passed == None {
      assert OpAt(c, s.open[q], q, n, n);
    }
    assert s.lh[0] == HomeAt(c, 0) && s.lh[0] in s.dirty;
    hide Distinct, HeaderOk, OpsOk, HomeAt;
    assert s.held == {};
    assert s.dirty + s.held + {HomeAt(c, 0)} == s.dirty + s.held;
  }

  // ----- A commit without buffers -----

  /** A commit is about to make its write number t; nothing has been committed before. */
  predicate Marching(c: Config, s: State, n: nat, t: nat)
    requires Roomy(c) && n <= LOGSIZE
  {
    && s.phase == LogBlock(t) && |s.lh| == n && (forall i: nat | i < n :: s.lh[i] == HomeAt(c, i)) && s.held == {}
    && s.cut == 0 && |s.disk| == |c.disk0| && s.disk[c.area.start].words[0] == 0
  }

  lemma {:induction false} AllPassed(c: Config, s: State, n: nat)
    requires Roomy(c) && n <= LOGSIZE && Racing(c, s, n, n)
    ensures forall q | 0 <= q < 3 :: s.open[q].passed == None
  {
    forall q: nat | q < 3 ensures s.open[q].passed == None {
      assert OpAt(c, s.open[q], q, n, n);
    }
  }

  /** The operations end, and the last of them begins to commit. */
  lemma {:induction false} EndAll(c: Config, was: seq<Step>, n: nat) returns (steps: seq<Step>)
    requires Roomy(c) && 0 < n <= LOGSIZE && RunTo(c, was, n, n)
    ensures Run(c, steps).Ok? && InBudget(c, steps) && Marching(c, Run(c, steps).s, n, 0) && Run(c, steps).s.cache == Run(c, was).s.cache
  {
    hide Run, InBudget, HomeAt, OpAt;
    AllPassed(c, Run(c, was).s, n);
    steps := was;
    Extend(c, steps, EndOp(0));
    steps := steps + [EndOp(0)];
    Extend(c, steps, EndOp(0));
    steps := steps + [EndOp(0)];
    Extend(c, steps, EndOp(0));
    steps := steps + [EndOp(0)];
  }

  /** Commit finds no buffer, although nobody holds one. */
  ghost predicate CommitStuck(c: Config, steps: seq<Step>) {
    Run(c, steps).Ok? && Run(c, steps).s.held == {} && Do(c, Run(c, steps).s, CommitStep).Panic?
  }

  lemma {:induction false} FullCommitPanics(c: Config) returns (steps: seq<Step>)
    requires Roomy(c) && c.area.size >= LOGSIZE - 1
    ensures CommitStuck(c, steps) && InBudget(c, steps)
  {
    hide Run, InBudget, HomeAt;
    steps := RaceTo(c, 27, 3, c.disk0[c.area.start]);
    steps := EndAll(c, steps, 30);
    RunBasic(c, steps);
    QuietCommitPanics(c, Run(c, steps).s);
  }

  lemma {:induction false} StuckIsLarge(c: Config, steps: seq<Step>)
    requires GoodConfig(c) && CommitStuck(c, steps)
    ensures c.area.size >= LOGSIZE - 1
  {
    hide Run;
    RunBasic(c, steps);
    QuietCommitPanics(c, Run(c, steps).s);
  }

  /** No log size serves. In some run an operation within budget is refused a new block if and only if the area holds at
      most LOGSIZE blocks; in some run, and then in one within budget, commit runs out of buffers that nobody holds if
      and only if it holds at least LOGSIZE - 1. */
  lemma {:induction false} LogSizes(c: Config)
    requires Roomy(c)
    ensures (exists steps, step :: NewBlockRefused(c, steps, step)) <==> c.area.size <= LOGSIZE
    ensures (exists steps :: CommitStuck(c, steps)) <==> c.area.size >= LOGSIZE - 1
    ensures (exists steps :: CommitStuck(c, steps)) <==> (exists steps :: CommitStuck(c, steps) && InBudget(c, steps))
  {
    hide Run, InBudget, Do;
    forall steps, step | NewBlockRefused(c, steps, step) ensures c.area.size <= LOGSIZE {
      RefusedIsSmall(c, steps, step);
    }
    forall steps | CommitStuck(c, steps) ensures c.area.size >= LOGSIZE - 1 {
      StuckIsLarge(c, steps);
    }
    if c.area.size <= LOGSIZE {
      var steps, step := NewBlockPanics(c);
      assert NewBlockRefused(c, steps, step);
    }
    if c.area.size >= LOGSIZE - 1 {
      var steps := FullCommitPanics(c);
      assert CommitStuck(c, steps) && InBudget(c, steps);
    }
  }

  lemma {:induction false} RefusedIsSmall(c: Config, steps: seq<Step>, step: Step)
    requires GoodConfig(c) && NewBlockRefused(c, steps, step)
    ensures c.area.size <= LOGSIZE
  {
    hide Run, InBudget;
    PanicsInRuns(c, steps, step);
    NewBlockFits(c, steps, step.k, step.b);
  }

  // ----- A home block overwritten -----

  /** Some other contents than these. */
  function Other(b: Block): (r: Block)
    ensures r != b
  {
    var w: Word := if b.words[0] == 0 then 1 else 0;
    var r: Block := RawBlock(b.words[0 := w]);
    assert r.words[0] != b.words[0];
    r
  }

  /** A log block inside the area. */
  lemma {:induction false} MarchOn(c: Config, s: State, n: nat, t: nat)
    requires Roomy(c) && Basic(c, s) && n == c.area.size < LOGSIZE && t < n && Marching(c, s, n, t)
    ensures c.area.start + 1 + t < |s.disk| && |s.lh| == n && s.lh[t] < |s.disk|
    ensures DoCommit(c, s).Ok? && DoCommit(c, s).s == BlockWrite(s, c.area.start + 1 + t, View(s, s.lh[t])).(phase := LogBlock(t + 1))
  {
    hide HomeAt, OpsOk, HeaderOk, Distinct, NoBuffer;
    QuietCommitPanics(c, s);
    assert s.lh[t] == HomeAt(c, t);
  }

  predicate HasLast(c: Config, s: State, n: nat, data: Block)
    requires Roomy(c) && 0 < n <= LOGSIZE
  {
    HomeAt(c, n - 1) in s.cache && s.cache[HomeAt(c, n - 1)] == data
  }

  lemma {:induction false} MarchKeeps(c: Config, s: State, t: nat, n: nat, data: Block, b: Word, v: Block)
    requires Roomy(c) && 2 <= n <= LOGSIZE && Marching(c, s, n, t) && HasLast(c, s, n, data)
    requires InLog(b, c.area) && b != c.area.start && b < |s.disk|
    ensures var u := BlockWrite(s, b, v).(phase := LogBlock(t + 1)); Marching(c, u, n, t + 1) && HasLast(c, u, n, data)
  {
    assert !InLog(HomeAt(c, n - 1), c.area);
    hide HomeAt, InLog;
  }

  lemma {:induction false} MarchTo(c: Config, was: seq<Step>, n: nat, t: nat, data: Block) returns (steps: seq<Step>)
    requires Roomy(c) && 2 <= n == c.area.size < LOGSIZE && t < n
    requires Run(c, was).Ok? && InBudget(c, was) && Marching(c, Run(c, was).s, n, 0) && HasLast(c, Run(c, was).s, n, data)
    ensures Run(c, steps).Ok? && InBudget(c, steps) && Marching(c, Run(c, steps).s, n, t) && HasLast(c, Run(c, steps).s, n, data)
  {
    hide Run, InBudget, Marching, HasLast, HomeAt;
    if t == 0 {
      steps := was;
    } else {
      steps := MarchTo(c, was, n, t - 1, data);
      RunBasic(c, steps);
      var s := Run(c, steps).s;
      hide Basic, DoCommit;
      MarchOn(c, s, n, t - 1);
      MarchKeeps(c, s, t - 1, n, data, c.area.start + t, View(s, s.lh[t - 1]));
      Extend(c, steps, CommitStep);
      steps := steps + [CommitStep];
    }
  }

  /** In an area of two to LOGSIZE - 1 blocks two racing operations can take the last log block outside: commit writes it
      over the block behind the log, before the header. */
  lemma {:induction false} SmallAreaBreaks(c: Config) returns (steps: seq<Step>)
    requires Roomy(c) && 2 <= c.area.size < LOGSIZE
    ensures Run(c, steps).Ok? && InBudget(c, steps) && !Atomic(c, Run(c, steps).s)
  {
    hide Run, InBudget, Atomic;
    var n, x: Word := c.area.size, c.area.start + c.area.size;
    var data := Other(c.disk0[x]);
    steps := RaceTo(c, n - 2, 2, data);
    steps := EndAll(c, steps, n);
    steps := MarchTo(c, steps, n, n - 1, data);
    var s := Run(c, steps).s;
    RunBasic(c, steps);
    MarchOn(c, s, n, n - 1);
    Extend(c, steps, CommitStep);
    steps := steps + [CommitStep];
    RunBasic(c, steps);
    Overwritten(c, Run(c, steps).s, x);
  }

  lemma {:induction false} Overwritten(c: Config, s: State, x: Word)
    requires Basic(c, s) && x < |s.disk| && !InLog(x, c.area) && s.cut == 0 && s.disk[c.area.start].words[0] == 0 && s.disk[x] != c.disk0[x]
    ensures !Atomic(c, s)
  {
    hide DirtyOk, OpsOk, CountOk, HeaderOk, Recovered;
    EmptyLogRecovers(s.disk, c.area);
    assert Committed(c, s) == c.disk0;
  }

  ghost predicate AtomicRun(c: Config, steps: seq<Step>) {
    Run(c, steps).Ok? ==> Atomic(c, Run(c, steps).s)
  }

  /** Every run is atomic if and only if the log area has at least LOGSIZE blocks, or only its header. */
  lemma {:induction false} AtomicSizes(c: Config)
    requires Roomy(c)
    ensures (forall steps :: AtomicRun(c, steps)) <==> Safe(c)
  {
    hide Run, InBudget, Atomic;
    if Safe(c) {
      forall steps ensures AtomicRun(c, steps) {
        if Run(c, steps).Ok? {
          RunsAreAtomic(c, steps);
        }
      }
    } else {
      var steps := SmallAreaBreaks(c);
      assert !AtomicRun(c, steps);
    }
  }
}
