/** The log under concurrency: file-system operations, the commit that the last of them starts, cache traffic, crashes
    and recoveries. A step is what a thread does between two points at which another can get in: one lock-protected
    action, one block write, or one of the tests that log_write makes before it takes the lock. What holds in every run,
    whatever the size of the log area, is proved here; GroupCommit adds the data and LogLimits the panics. */
module CommitMachine {
  import opened Common
  import opened DiskModel
  import opened RedoLog

  /** What commit or recovery does next. LogBlock(t) writes log block t, or the header once t
      reaches lh.n; Install(t) and Redo(t) write home block t, or clear the header. */
  datatype Phase = Idle | LogBlock(tail: nat) | Install(tail: nat) | Done | Boot | Redo(tail: nat)

  /** An operation between begin_op and end_op: the blocks it has logged, and the one for which log_write has made its
      tests and has yet to take the lock. */
  datatype Op = Op(id: nat, logged: set<Word>, passed: Option<Word>)

  /** The device at mkfs time, and where the log lies. */
  datatype Config = Config(area: LogArea, disk0: Disk)

  datatype State = State(
    disk: Disk,
    cache: map<Word, Block>,  // contents of valid buffers
    dirty: set<Word>,         // buffers marked B_DIRTY
    held: set<Word>,          // buffers that a thread has a reference to
    lh: seq<Word>,            // log.lh.block[..log.lh.n]
    outstanding: nat,
    committing: bool,
    phase: Phase,
    open: seq<Op>,
    nextId: nat,
    // Every logged write since mkfs that a crash has not undone, the operation that made each,
    // how many of them are committed, and the next operation number at that commit.
    hist: seq<Write>,
    author: seq<nat>,
    cut: nat,
    epoch: nat)

  datatype Step =
    | BeginOp
    | LogTest(k: nat, b: Word)        // log_write up to its acquire, by the k-th open operation
    | LogAppend(k: nat, data: Block)  // the rest of it; data is what the operation put in the buffer
    | EndOp(k: nat)
    | CommitStep
    | Hold(b: Word)                   // bread
    | Release(b: Word)                // brelse
    | Recycle(b: Word)
    | Crash
    | RecoverStep

  /** Blocked: the caller sleeps, or the step is not one the code can take here. Overrun: the code writes past the end of
      lh.block. */
  datatype Outcome = Ok(s: State) | Blocked | Panic | Overrun

  // ----- Steps -----

  function View(s: State, b: Word): Block
    requires b < |s.disk|
  {
    if b in s.cache then s.cache[b] else s.disk[b]
  }

  /** bget panics: every one of the NBUF buffers is dirty or held, or holds another block of `need`. */
  predicate NoBuffer(s: State, need: set<Word>) {
    |s.dirty + s.held + need| > NBUF
  }

  /** An operation is inside log_write with this block. */
  predicate Taken(s: State, b: Word) {
    exists k :: 0 <= k < |s.open| && s.open[k].passed == Some(b)
  }

  function DoBeginOp(s: State): Outcome {
    if s.phase.Boot? || s.phase.Redo? then Blocked
    else if s.committing then Blocked
    else if |s.lh| + (s.outstanding + 1) * MAXOPBLOCKS > LOGSIZE then Blocked
    else Ok(s.(outstanding := s.outstanding + 1, open := s.open + [Op(s.nextId, {}, None)], nextId := s.nextId + 1))
  }

  /** Operation k, which has the buffer locked, may call log_write on it. */
  predicate MayTest(c: Config, s: State, k: nat, b: Word) {
    && k < |s.open| && s.open[k].passed.None?
    && b < |s.disk| && !InLog(b, c.area) && b in s.held && !Taken(s, b)
  }

  function DoLogTest(c: Config, s: State, k: nat, b: Word): Outcome {
    if !MayTest(c, s, k, b) then Blocked
    else if |s.lh| >= LOGSIZE || |s.lh| >= c.area.size - 1 then Panic
    else if s.outstanding < 1 then Panic
    else Ok(s.(open := s.open[k := s.open[k].(passed := Some(b))]))
  }

  function DoLogAppend(s: State, k: nat, data: Block): Outcome {
    if k >= |s.open| || s.open[k].passed.None? then Blocked
    else
      var b := s.open[k].passed.value;
      if b !in s.lh && |s.lh| >= LOGSIZE then Overrun
      else Ok(s.(
        cache := s.cache[b := data],
        dirty := s.dirty + {b},
        lh := if b in s.lh then s.lh else s.lh + [b],
        open := s.open[k := Op(s.open[k].id, s.open[k].logged + {b}, None)],
        hist := s.hist + [Write(b, data)],
        author := s.author + [s.open[k].id]))
  }

  function DoEndOp(s: State, k: nat): Outcome {
    if k >= |s.open| || s.outstanding == 0 || s.open[k].passed.Some? then Blocked
    else if s.committing then Panic
    else
      var t := s.(outstanding := s.outstanding - 1, open := s.open[..k] + s.open[k + 1..]);
      if t.outstanding == 0
      then Ok(t.(committing := true, phase := if |s.lh| > 0 then LogBlock(0) else Done))
      else Ok(t)
  }

  /** bwrite: the disk and the buffer both hold the data, and the buffer is clean. */
  function BlockWrite(s: State, b: Word, data: Block): State
    requires b < |s.disk|
  {
    s.(disk := s.disk[b := data], cache := s.cache[b := data], dirty := s.dirty - {b})
  }

  predicate OnDevice(c: Config, s: State, t: nat) {
    c.area.start + 1 + t < |s.disk| <= 0x1_0000_0000 && t < |s.lh| && s.lh[t] < |s.disk|
  }

  predicate HeaderOnDevice(c: Config, s: State) {
    c.area.start < |s.disk| <= 0x1_0000_0000
  }

  /** The buffers that commit or recovery uses next. */
  function Needs(c: Config, s: State, t: nat): set<Word>
    requires t <= |s.lh| && (if t < |s.lh| then OnDevice(c, s, t) else HeaderOnDevice(c, s))
  {
    if t < |s.lh| then {c.area.start + 1 + t, s.lh[t]} else {c.area.start}
  }

  /** The code waits for the lock of a buffer that somebody else has; here it need not, which allows more runs. */
  function DoCommit(c: Config, s: State): Outcome {
    match s.phase
    case LogBlock(t) =>
      if OnDevice(c, s, t) then
        if NoBuffer(s, Needs(c, s, t)) then Panic
        else Ok(BlockWrite(s, c.area.start + 1 + t, View(s, s.lh[t])).(phase := LogBlock(t + 1)))
      else if t == |s.lh| <= LOGSIZE && HeaderOnDevice(c, s) then
        if NoBuffer(s, Needs(c, s, t)) then Panic
        else Ok(BlockWrite(s, c.area.start, HeaderOf(View(s, c.area.start), s.lh))
                .(phase := Install(0), cut := |s.hist|, epoch := s.nextId))
      else Blocked
    case Install(t) =>
      if OnDevice(c, s, t) then
        if NoBuffer(s, Needs(c, s, t)) then Panic
        else Ok(BlockWrite(s, s.lh[t], View(s, c.area.start + 1 + t)).(phase := Install(t + 1)))
      else if t == |s.lh| && HeaderOnDevice(c, s) then
        if NoBuffer(s, Needs(c, s, t)) then Panic
        else Ok(BlockWrite(s, c.area.start, HeaderOf(View(s, c.area.start), [])).(phase := Done, lh := []))
      else Blocked
    case Done => Ok(s.(committing := false, phase := Idle))
    case _ => Blocked
  }

  /** Nobody but recovery reads before recovery is over. */
  function DoHold(s: State, b: Word): Outcome {
    if s.phase.Boot? || s.phase.Redo? || b >= |s.disk| || b in s.held then Blocked
    else if NoBuffer(s, {b}) then Panic
    else Ok(s.(held := s.held + {b}, cache := if b in s.cache then s.cache else s.cache[b := s.disk[b]]))
  }

  function DoRelease(s: State, b: Word): Outcome {
    if b in s.held && !Taken(s, b) then Ok(s.(held := s.held - {b})) else Blocked
  }

  /** bget never takes a dirty or referenced buffer for another block. */
  function DoRecycle(s: State, b: Word): Outcome {
    if b in s.cache && b !in s.dirty && b !in s.held then Ok(s.(cache := s.cache - {b})) else Blocked
  }

  /** Power fails: memory is gone, and with it every write not yet committed. */
  function DoCrash(s: State): Outcome {
    if s.cut <= |s.hist| && |s.author| == |s.hist|
    then Ok(s.(cache := map[], dirty := {}, held := {}, lh := [], outstanding := 0, committing := false, phase := Boot,
               open := [], hist := s.hist[..s.cut], author := s.author[..s.cut]))
    else Blocked
  }

  function DoRecover(c: Config, s: State): Outcome {
    match s.phase
    case Boot =>
      if c.area.start < |s.disk| && s.disk[c.area.start].words[0] <= LOGSIZE
      then Ok(s.(lh := HeadNos(s.disk[c.area.start]), phase := Redo(0)))
      else Blocked
    case Redo(t) =>
      if OnDevice(c, s, t) then
        if NoBuffer(s, Needs(c, s, t)) then Panic
        else Ok(BlockWrite(s, s.lh[t], View(s, c.area.start + 1 + t)).(phase := Redo(t + 1)))
      else if t == |s.lh| && HeaderOnDevice(c, s) then
        if NoBuffer(s, Needs(c, s, t)) then Panic
        else Ok(BlockWrite(s, c.area.start, HeaderOf(View(s, c.area.start), [])).(phase := Idle, lh := []))
      else Blocked
    case _ => Blocked
  }

  function Do(c: Config, s: State, step: Step): Outcome {
    match step
    case BeginOp => DoBeginOp(s)
    case LogTest(k, b) => DoLogTest(c, s, k, b)
    case LogAppend(k, data) => DoLogAppend(s, k, data)
    case EndOp(k) => DoEndOp(s, k)
    case CommitStep => DoCommit(c, s)
    case Hold(b) => DoHold(s, b)
    case Release(b) => DoRelease(s, b)
    case Recycle(b) => DoRecycle(s, b)
    case Crash => DoCrash(s)
    case RecoverStep => DoRecover(c, s)
  }

  /** The machine boots on a freshly made file system. */
  function Init(c: Config): State {
    State(c.disk0, map[], {}, {}, [], 0, false, Boot, [], 0, [], [], 0, 0)
  }

  predicate GoodConfig(c: Config) {
    Fits(c.disk0, c.area) && c.disk0[c.area.start].words[0] == 0
  }

  /** The outcome of a whole run from boot. */
  function Run(c: Config, steps: seq<Step>): Outcome {
    if steps == [] then Ok(Init(c))
    else
      var step := steps[|steps| - 1];
      match Run(c, steps[..|steps| - 1])
      case Ok(s) => Do(c, s, step)
      case o => o
  }

  lemma {:induction false} RunLastStep(c: Config, steps: seq<Step>, step: Step)
    requires Run(c, steps + [step]).Ok?
    ensures Run(c, steps).Ok? && Run(c, steps + [step]) == Do(c, Run(c, steps).s, step)
  {
    assert (steps + [step])[..|steps|] == steps;
  }

  // ----- What holds whatever the size of the log -----

  predicate Layout(c: Config, s: State) {
    && GoodConfig(c) && |s.disk| == |c.disk0|
    && |s.author| == |s.hist| && s.cut <= |s.hist|
    && (forall i | 0 <= i < |s.hist| :: s.hist[i].block < |c.disk0| && !InLog(s.hist[i].block, c.area))
  }

  predicate Homes(nos: seq<Word>, size: nat, area: LogArea) {
    forall i | 0 <= i < |nos| :: nos[i] < size && !InLog(nos[i], area)
  }

  predicate SameBlocks(s: State) {
    (forall b | b in s.dirty :: b in s.lh) && (forall b | b in s.lh :: b in s.dirty)
  }

  /** The dirty buffers hold logged blocks, all of them until a commit begins to write. */
  predicate DirtyOk(s: State) {
    match s.phase
    case Idle => SameBlocks(s)
    case LogBlock(t) => t <= |s.lh| && 0 < |s.lh| && if t == 0 then SameBlocks(s) else |s.lh| < NBUF && forall b | b in s.dirty :: b in s.lh
    case Install(t) => t <= |s.lh| < NBUF && forall b | b in s.dirty :: b in s.lh[t..]
    case Done => s.lh == [] && s.dirty == {}
    case Boot => s.lh == [] && s.dirty == {} && s.held == {}
    case Redo(t) => t <= |s.lh| < NBUF && s.dirty == {} && s.held == {}
  }

  /** The header on disk names home blocks, fewer than there are buffers. */
  predicate HeaderOk(c: Config, d: Disk)
    requires Fits(d, c.area)
  {
    && d[c.area.start].words[0] < NBUF
    && Homes(HeadNos(d[c.area.start]), |d|, c.area) && Distinct(HeadNos(d[c.area.start]))
  }

  /** Committed writes are by operations numbered below the epoch, uncommitted ones by operations
      from the epoch on: no operation has writes on both sides. */
  predicate Unsplit(s: State) {
    && (forall i | 0 <= i < |s.author| && i < s.cut :: s.author[i] < s.epoch)
    && (forall i | 0 <= i < |s.author| && i >= s.cut :: s.epoch <= s.author[i] < s.nextId)
  }

  predicate Running(p: Phase) {
    p.LogBlock? || p.Install? || p.Done?
  }

  /** begin_op lets in three operations at most. */
  predicate OpsOk(c: Config, s: State) {
    && |s.open| == s.outstanding <= LOGSIZE / MAXOPBLOCKS && s.epoch <= s.nextId
    && (s.committing <==> Running(s.phase))
    && (!s.phase.Idle? ==> s.open == [])
    && (forall k | 0 <= k < |s.open| :: OpOk(c, s, s.open[k]))
    && Unsplit(s)
  }

  predicate OpOk(c: Config, s: State, op: Op) {
    s.epoch <= op.id < s.nextId && PassedOk(c, s, op.passed)
  }

  predicate PassedOk(c: Config, s: State, b: Option<Word>) {
    b.Some? ==> b.value < |s.disk| && !InLog(b.value, c.area) && b.value in s.held
  }

  /** How many operations are inside log_write. */
  function Passes(open: seq<Op>): nat {
    if open == [] then 0
    else Passes(open[..|open| - 1]) + if open[|open| - 1].passed.Some? then 1 else 0
  }

  /** Operations that test before the others append can take the log past its capacity, but not further than by two. */
  predicate CountOk(c: Config, s: State) {
    s.phase.Idle? || s.phase.LogBlock? ==>
      && |s.lh| + Passes(s.open) <= Capacity(c.area) + 2
      && (Capacity(c.area) == 0 ==> s.lh == [] && Passes(s.open) == 0)
  }

  predicate Basic(c: Config, s: State) {
    && Layout(c, s) && Homes(s.lh, |s.disk|, c.area) && Distinct(s.lh) && HeaderOk(c, s.disk)
    && DirtyOk(s) && |s.dirty + s.held| <= NBUF && OpsOk(c, s) && CountOk(c, s)
  }

  lemma {:induction false} InitBasic(c: Config)
    requires GoodConfig(c)
    ensures Basic(c, Init(c))
  {
    assert HeadNos(c.disk0[c.area.start]) == [];
  }

  // ----- Counting -----

  lemma {:induction false} PassesAtMost(open: seq<Op>)
    ensures Passes(open) <= |open|
  {
    if open != [] {
      PassesAtMost(open[..|open| - 1]);
    }
  }

  lemma {:induction false} PassesUpdate(open: seq<Op>, k: nat, op: Op)
    requires k < |open|
    ensures Passes(open[k := op]) == Passes(open) - (if open[k].passed.Some? then 1 else 0) + if op.passed.Some? then 1 else 0
  {
    var init := open[..|open| - 1];
    if k == |open| - 1 {
      assert open[k := op][..k] == init;
    } else {
      PassesUpdate(init, k, op);
      assert open[k := op][..|open| - 1] == init[k := op];
    }
  }

  lemma {:induction false} PassesRemove(open: seq<Op>, k: nat)
    requires k < |open| && open[k].passed.None?
    ensures Passes(open[..k] + open[k + 1..]) == Passes(open)
  {
    var init, last := open[..|open| - 1], open[|open| - 1];
    if k == |open| - 1 {
      assert open[..k] + open[k + 1..] == init;
    } else {
      PassesRemove(init, k);
      var rest := open[..k] + open[k + 1..];
      assert rest[..|rest| - 1] == init[..k] + init[k + 1..];
    }
  }

  lemma {:induction false} SomePasses(open: seq<Op>, k: nat)
    requires k < |open| && open[k].passed.Some?
    ensures Passes(open) >= 1
  {
    if k < |open| - 1 {
      SomePasses(open[..|open| - 1], k);
    }
  }

  function Listed(nos: seq<Word>, k: nat): (r: set<Word>)
    requires k <= |nos|
    ensures forall b :: b in r <==> b in nos[..k]
  {
    if k == 0 then {} else Listed(nos, k - 1) + {nos[k - 1]}
  }

  lemma {:induction false} ListedCount(nos: seq<Word>, k: nat)
    requires k <= |nos| && DistinctTo(nos, k)
    ensures |Listed(nos, k)| == k
  {
    if k > 0 {
      ListedCount(nos, k - 1);
    }
  }

  lemma {:induction false} DirtyCount(s: State)
    requires SameBlocks(s) && Distinct(s.lh)
    ensures |s.dirty| == |s.lh|
  {
    ListedCount(s.lh, |s.lh|);
    assert s.dirty == Listed(s.lh, |s.lh|);
  }

  /** No more blocks are logged than there are buffers. */
  lemma {:induction false} LogWithinBuffers(s: State)
    requires SameBlocks(s) && Distinct(s.lh) && |s.dirty + s.held| <= NBUF
    ensures |s.lh| <= NBUF
  {
    DirtyCount(s);
    CardAtMost(s.dirty, s.dirty + s.held);
  }

  /** A held block that is not logged leaves room for itself in lh.block. */
  lemma {:induction false} AppendFits(s: State, b: Word)
    requires SameBlocks(s) && Distinct(s.lh) && |s.dirty + s.held| <= NBUF && b in s.held && b !in s.lh
    ensures |s.lh| < LOGSIZE
  {
    DirtyCount(s);
    CardAtMost(s.dirty + {b}, s.dirty + s.held);
  }

  // ----- Each step keeps it -----

  lemma {:induction false} BeginOpBasic(c: Config, s: State)
    requires Basic(c, s) && DoBeginOp(s).Ok?
    ensures Basic(c, DoBeginOp(s).s)
  {
    var t := DoBeginOp(s).s;
    assert t.open[..|t.open| - 1] == s.open;
    hide HeaderOk, Homes, Distinct;
  }

  lemma {:induction false} LogTestBasic(c: Config, s: State, k: nat, b: Word)
    requires Basic(c, s) && DoLogTest(c, s, k, b).Ok?
    ensures Basic(c, DoLogTest(c, s, k, b).s)
  {
    hide HeaderOk, Homes, Distinct;
    var t := DoLogTest(c, s, k, b).s;
    PassesUpdate(s.open, k, t.open[k]);
    PassesAtMost(t.open);
  }

  lemma {:induction false} AppendList(s: State, b: Word, size: nat, area: LogArea, lh: seq<Word>)
    requires Homes(s.lh, size, area) && Distinct(s.lh) && b < size && !InLog(b, area) && lh == if b in s.lh then s.lh else s.lh + [b]
    ensures Homes(lh, size, area) && Distinct(lh)
  {
    if b !in s.lh {
      DistinctPrefix(s.lh, lh, |s.lh|);
    }
  }

  /** log_write's locked part never writes past the end of lh.block. */
  lemma {:induction false} NoOverrun(c: Config, s: State, k: nat, data: Block)
    requires Basic(c, s)
    ensures !DoLogAppend(s, k, data).Overrun?
    ensures DoLogAppend(s, k, data).Ok? ==> |DoLogAppend(s, k, data).s.lh| <= LOGSIZE
  {
    if k < |s.open| && s.open[k].passed.Some? {
      LogWithinBuffers(s);
      assert OpOk(c, s, s.open[k]);
      if s.open[k].passed.value !in s.lh {
        AppendFits(s, s.open[k].passed.value);
      }
    }
  }

  lemma {:induction false} LogAppendBasic(c: Config, s: State, k: nat, data: Block)
    requires Basic(c, s) && DoLogAppend(s, k, data).Ok?
    ensures Basic(c, DoLogAppend(s, k, data).s)
  {
    hide HeaderOk, Homes, Distinct, OpOk;
    var t := DoLogAppend(s, k, data).s;
    var b := s.open[k].passed.value;
    AppendOps(c, s, t, k);
    AppendList(s, b, |s.disk|, c.area, t.lh);
    PassesUpdate(s.open, k, t.open[k]);
    SomePasses(s.open, k);
    assert t.dirty + t.held == s.dirty + s.held;
  }

  lemma {:induction false} AppendOps(c: Config, s: State, t: State, k: nat)
    requires k < |s.open| == |t.open| && (forall j | 0 <= j < |s.open| :: OpOk(c, s, s.open[j])) && s.open[k].passed.Some?
    requires t.open == s.open[k := Op(s.open[k].id, t.open[k].logged, None)] && t.epoch == s.epoch && t.nextId == s.nextId
    requires t.disk == s.disk && t.held == s.held
    ensures (forall j | 0 <= j < |t.open| :: OpOk(c, t, t.open[j])) && PassedOk(c, s, s.open[k].passed) && s.epoch <= s.open[k].id < s.nextId
  {
  }

  lemma {:induction false} WithoutOp(c: Config, s: State, k: nat, open: seq<Op>)
    requires k < |s.open| && open == s.open[..k] + s.open[k + 1..] && forall j | 0 <= j < |s.open| :: OpOk(c, s, s.open[j])
    ensures |open| == |s.open| - 1 && forall j | 0 <= j < |open| :: OpOk(c, s, open[j])
  {
    hide OpOk;
    forall j | 0 <= j < |open| ensures OpOk(c, s, open[j]) {
      assert open[j] == s.open[if j < k then j else j + 1];
    }
  }

  lemma {:induction false} EndOpBasic(c: Config, s: State, k: nat)
    requires Basic(c, s) && DoEndOp(s, k).Ok?
    ensures Basic(c, DoEndOp(s, k).s)
  {
    hide HeaderOk, Homes, Distinct, OpOk;
    PassesRemove(s.open, k);
    var t := DoEndOp(s, k).s;
    WithoutOp(c, s, k, t.open);
    forall j | 0 <= j < |t.open| ensures OpOk(c, t, t.open[j]) {
      SameOpOk(c, s, t, t.open[j]);
    }
  }

  lemma {:induction false} SameOpOk(c: Config, s: State, t: State, op: Op)
    requires OpOk(c, s, op) && t.epoch == s.epoch && s.nextId <= t.nextId && t.disk == s.disk && t.held == s.held
    ensures OpOk(c, t, op)
  {
  }

  /** A block write outside the header, by commit or recovery. */
  lemma {:induction false} WriteHeader(c: Config, d: Disk, b: Word, data: Block)
    requires Fits(d, c.area) && HeaderOk(c, d) && b < |d| && b != c.area.start
    ensures HeaderOk(c, d[b := data])
  {
  }

  lemma {:induction false} NewHeader(c: Config, d: Disk, was: Block, nos: seq<Word>)
    requires Fits(d, c.area) && |nos| < NBUF && Homes(nos, |d|, c.area) && Distinct(nos)
    ensures HeaderOk(c, d[c.area.start := HeaderOf(was, nos)])
  {
  }

  /** A commit that finds a buffer for the log has fewer logged blocks than there are buffers. */
  lemma {:induction false} CommitFits(c: Config, s: State)
    requires Basic(c, s) && s.phase.LogBlock? && DoCommit(c, s).Ok?
    ensures |s.lh| < NBUF
  {
    var t := s.phase.tail;
    if t == 0 {
      DirtyCount(s);
      assert InLog(c.area.start + 1, c.area);
      CardAtMost(s.dirty + {c.area.start + 1}, s.dirty + s.held + Needs(c, s, 0));
    }
  }

  /** While a commit or a recovery runs there are no open operations. */
  lemma {:induction false} QuietOps(c: Config, s: State, t: State)
    requires OpsOk(c, s) && !s.phase.Idle? && t.open == s.open && t.outstanding == s.outstanding
    requires t.author == s.author && t.nextId == s.nextId
    requires (t.cut == s.cut && t.epoch == s.epoch) || (t.cut == |t.author| && t.epoch == t.nextId)
    requires t.committing == if Running(s.phase) == Running(t.phase) then s.committing else Running(t.phase)
    ensures OpsOk(c, t) && t.open == []
  {
  }

  /** A step of commit or recovery: what it may change. */
  lemma {:induction false} QuietBasic(c: Config, s: State, t: State)
    requires Basic(c, s) && !s.phase.Idle? && t.open == s.open && t.outstanding == s.outstanding
    requires t.author == s.author && t.nextId == s.nextId && t.hist == s.hist
    requires (t.cut == s.cut && t.epoch == s.epoch) || (t.cut == |t.author| && t.epoch == t.nextId)
    requires t.committing == if Running(s.phase) == Running(t.phase) then s.committing else Running(t.phase)
    requires |t.disk| == |s.disk| && HeaderOk(c, t.disk) && t.held == s.held && t.dirty <= s.dirty && DirtyOk(t)
    requires t.lh == [] || (t.lh == s.lh && (t.phase.LogBlock? ==> s.phase.LogBlock?) && !t.phase.Idle?)
    ensures Basic(c, t)
  {
    hide HeaderOk, DirtyOk, OpsOk;
    QuietOps(c, s, t);
    CardAtMost(t.dirty + t.held, s.dirty + s.held);
  }

  lemma {:induction false} LogBlockBasic(c: Config, s: State)
    requires Basic(c, s) && s.phase.LogBlock? && s.phase.tail < |s.lh| && DoCommit(c, s).Ok?
    ensures Basic(c, DoCommit(c, s).s)
  {
    hide HeaderOk, Homes, Distinct, NoBuffer, View, OpsOk, CountOk;
    CommitFits(c, s);
    var t, b := DoCommit(c, s).s, c.area.start + 1 + s.phase.tail;
    WriteHeader(c, s.disk, b, t.disk[b]);
    assert DirtyOk(t);
    QuietBasic(c, s, t);
  }

  lemma {:induction false} WriteHeaderBasic(c: Config, s: State)
    requires Basic(c, s) && s.phase.LogBlock? && s.phase.tail == |s.lh| && DoCommit(c, s).Ok?
    ensures Basic(c, DoCommit(c, s).s)
  {
    hide HeaderOk, Homes, Distinct, NoBuffer, View, HeaderOf, OpsOk, CountOk;
    CommitFits(c, s);
    var t := DoCommit(c, s).s;
    NewHeader(c, s.disk, View(s, c.area.start), s.lh);
    assert s.lh[0..] == s.lh;
    assert DirtyOk(t);
    QuietBasic(c, s, t);
  }

  lemma {:induction false} HomeOf(c: Config, s: State, i: nat)
    requires Homes(s.lh, |s.disk|, c.area) && i < |s.lh| && Fits(s.disk, c.area)
    ensures s.lh[i] < |s.disk| && s.lh[i] != c.area.start
  {
    assert InLog(c.area.start, c.area);
  }

  lemma {:induction false} InstallBasic(c: Config, s: State)
    requires Basic(c, s) && s.phase.Install? && s.phase.tail < |s.lh| && DoCommit(c, s).Ok?
    ensures Basic(c, DoCommit(c, s).s)
  {
    hide HeaderOk, Homes, Distinct, NoBuffer, View, OpsOk, CountOk;
    var t, b := DoCommit(c, s).s, s.lh[s.phase.tail];
    HomeOf(c, s, s.phase.tail);
    WriteHeader(c, s.disk, b, t.disk[b]);
    assert s.lh[s.phase.tail..] == [b] + s.lh[s.phase.tail + 1..];
    assert DirtyOk(t);
    QuietBasic(c, s, t);
  }

  lemma {:induction false} ClearBasic(c: Config, s: State)
    requires Basic(c, s) && s.phase.Install? && s.phase.tail == |s.lh| && DoCommit(c, s).Ok?
    ensures Basic(c, DoCommit(c, s).s)
  {
    hide HeaderOk, NoBuffer, View, HeaderOf, OpsOk, CountOk;
    var t := DoCommit(c, s).s;
    NewHeader(c, s.disk, View(s, c.area.start), []);
    assert DirtyOk(t);
    QuietBasic(c, s, t);
  }

  lemma {:induction false} CommitBasic(c: Config, s: State)
    requires Basic(c, s) && DoCommit(c, s).Ok?
    ensures Basic(c, DoCommit(c, s).s)
  {
    match s.phase
    case LogBlock(t) =>
      if t < |s.lh| { LogBlockBasic(c, s); } else { WriteHeaderBasic(c, s); }
    case Install(t) =>
      if t < |s.lh| { InstallBasic(c, s); } else { ClearBasic(c, s); }
    case Done =>
      hide HeaderOk, OpsOk;
      QuietBasic(c, s, DoCommit(c, s).s);
    case _ =>
  }

  /** Buffers come and go. */
  lemma {:induction false} BuffersBasic(c: Config, s: State, t: State)
    requires Basic(c, s) && t == s.(held := t.held, cache := t.cache) && |t.dirty + t.held| <= NBUF
    requires s.phase.Boot? || s.phase.Redo? ==> t.held == {}
    requires forall k | 0 <= k < |s.open| :: OpOk(c, t, t.open[k])
    ensures Basic(c, t)
  {
    hide HeaderOk, Homes, Distinct, OpOk, Capacity, Passes;
  }

  lemma {:induction false} HoldBasic(c: Config, s: State, b: Word)
    requires Basic(c, s) && DoHold(s, b).Ok?
    ensures Basic(c, DoHold(s, b).s)
  {
    var t := DoHold(s, b).s;
    assert s.dirty + t.held == s.dirty + s.held + {b};
    forall k | 0 <= k < |s.open| ensures OpOk(c, t, t.open[k]) {
      assert OpOk(c, s, s.open[k]);
    }
    hide Basic;
    BuffersBasic(c, s, t);
  }

  lemma {:induction false} ReleaseBasic(c: Config, s: State, b: Word)
    requires Basic(c, s) && DoRelease(s, b).Ok?
    ensures Basic(c, DoRelease(s, b).s)
  {
    hide OpOk, HeaderOk, Homes, Distinct, CountOk, Unsplit;
    var t := DoRelease(s, b).s;
    forall k | 0 <= k < |s.open| ensures OpOk(c, t, t.open[k]) {
      ReleaseOp(c, s, t, k, b);
    }
    hide Basic, Taken;
    CardAtMost(s.dirty + t.held, s.dirty + s.held);
    BuffersBasic(c, s, t);
  }

  lemma {:induction false} ReleaseOp(c: Config, s: State, t: State, k: nat, b: Word)
    requires k < |s.open| && OpOk(c, s, s.open[k]) && !Taken(s, b) && t == s.(held := s.held - {b})
    ensures OpOk(c, t, t.open[k])
  {
  }

  lemma {:induction false} CrashBasic(c: Config, s: State)
    requires Basic(c, s)
    ensures DoCrash(s).Ok? && Basic(c, DoCrash(s).s)
  {
    hide HeaderOk;
  }

  lemma {:induction false} BootBasic(c: Config, s: State)
    requires Basic(c, s) && s.phase.Boot?
    ensures DoRecover(c, s).Ok? && Basic(c, DoRecover(c, s).s)
  {
    hide OpsOk;
    QuietOps(c, s, DoRecover(c, s).s);
  }

  lemma {:induction false} RedoBasic(c: Config, s: State)
    requires Basic(c, s) && s.phase.Redo? && s.phase.tail < |s.lh| && DoRecover(c, s).Ok?
    ensures Basic(c, DoRecover(c, s).s)
  {
    hide HeaderOk, Homes, Distinct, NoBuffer, View, OpsOk, CountOk;
    var t, b := DoRecover(c, s).s, s.lh[s.phase.tail];
    HomeOf(c, s, s.phase.tail);
    WriteHeader(c, s.disk, b, t.disk[b]);
    assert DirtyOk(t);
    QuietBasic(c, s, t);
  }

  lemma {:induction false} RedoEndsBasic(c: Config, s: State)
    requires Basic(c, s) && s.phase.Redo? && s.phase.tail == |s.lh| && DoRecover(c, s).Ok?
    ensures Basic(c, DoRecover(c, s).s)
  {
    hide HeaderOk, NoBuffer, View, HeaderOf, OpsOk, CountOk;
    var t := DoRecover(c, s).s;
    NewHeader(c, s.disk, View(s, c.area.start), []);
    assert DirtyOk(t);
    NotCommitting(c, s);
    QuietBasic(c, s, t);
  }

  lemma {:induction false} NotCommitting(c: Config, s: State)
    requires OpsOk(c, s) && !Running(s.phase)
    ensures !s.committing
  {
  }

  lemma {:induction false} RecoverBasic(c: Config, s: State)
    requires Basic(c, s) && DoRecover(c, s).Ok?
    ensures Basic(c, DoRecover(c, s).s)
  {
    match s.phase
    case Boot => BootBasic(c, s);
    case Redo(t) =>
      if t < |s.lh| { RedoBasic(c, s); } else { RedoEndsBasic(c, s); }
    case _ =>
  }

  lemma {:induction false} StepBasic(c: Config, s: State, step: Step)
    requires Basic(c, s) && Do(c, s, step).Ok?
    ensures Basic(c, Do(c, s, step).s)
  {
    hide Basic;
    match step
    case BeginOp => BeginOpBasic(c, s);
    case LogTest(k, b) => LogTestBasic(c, s, k, b);
    case LogAppend(k, data) => LogAppendBasic(c, s, k, data);
    case EndOp(k) => EndOpBasic(c, s, k);
    case CommitStep => CommitBasic(c, s);
    case Hold(b) => HoldBasic(c, s, b);
    case Release(b) => ReleaseBasic(c, s, b);
    case Recycle(b) => RecycleBasic(c, s, b);
    case Crash => CrashBasic(c, s);
    case RecoverStep => RecoverBasic(c, s);
  }

  lemma {:induction false} RecycleBasic(c: Config, s: State, b: Word)
    requires Basic(c, s) && DoRecycle(s, b).Ok?
    ensures Basic(c, DoRecycle(s, b).s)
  {
    hide HeaderOk, Homes, Distinct, CountOk, Unsplit;
    var t := DoRecycle(s, b).s;
    forall k | 0 <= k < |s.open| ensures OpOk(c, t, t.open[k]) {
      assert OpOk(c, s, s.open[k]);
    }
    BuffersBasic(c, s, t);
  }

  lemma {:induction false} RunBasic(c: Config, steps: seq<Step>)
    requires GoodConfig(c) && Run(c, steps).Ok?
    ensures Basic(c, Run(c, steps).s)
  {
    if steps == [] {
      InitBasic(c);
    } else {
      hide Basic, Do;
      var init, step := steps[..|steps| - 1], steps[|steps| - 1];
      RunBasic(c, init);
      StepBasic(c, Run(c, init).s, step);
    }
  }
}
