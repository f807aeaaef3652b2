/** Group commit: in every run of CommitMachine, what recovery would make of the disk is the committed writes, and reads
    see the latest write, as long as the log area is not too small for what racing operations can put in it. */
module GroupCommit {
  import opened Common
  import opened DiskModel
  import opened RedoLog
  import opened CommitMachine

  /** Sizes of the log area that keep log blocks inside it. With fewer than LOGSIZE blocks, racing operations can log as
      many blocks as the area has, header included (LogLimits.AtomicSizes); with one, nothing is ever logged. */
  predicate Safe(c: Config) {
    GoodConfig(c) && (c.area.size >= LOGSIZE || c.area.size == 1)
  }

  /** All writes made so far. */
  function Current(c: Config, s: State): Disk
    requires Layout(c, s)
  {
    Play(c.disk0, s.hist, |s.hist|)
  }

  /** The writes that have committed. */
  function Committed(c: Config, s: State): Disk
    requires Layout(c, s)
  {
    Play(c.disk0, s.hist, s.cut)
  }

  /** What recovery would make of the disk, right now, is the committed state. */
  predicate Durable(c: Config, s: State)
    requires Layout(c, s)
  {
    && GoodHead(s.disk, c.area) && Distinct(HeadNos(s.disk[c.area.start]))
    && SameHome(Recovered(s.disk, c.area), Committed(c, s), c.area)
  }

  /** Buffers not marked dirty agree with the disk; dirty ones hold a logged block. */
  predicate Clean(s: State) {
    && (forall b | b in s.cache && b !in s.dirty :: b < |s.disk| && s.cache[b] == s.disk[b])
    && (forall b | b in s.dirty :: b in s.cache && b in s.lh)
  }

  /** Every block outside the log reads as its latest write. */
  predicate Fresh(c: Config, s: State)
    requires Layout(c, s)
  {
    forall b | 0 <= b < |s.disk| && !InLog(b, c.area) :: View(s, b) == Current(c, s)[b]
  }

  /** While operations run and until the header is written, with t blocks in the log. */
  predicate Gathering(c: Config, s: State, t: nat)
    requires Layout(c, s)
  {
    && s.disk[c.area.start].words[0] == 0
    && Homes(s.lh, |s.disk|, c.area) && Distinct(s.lh) && t <= |s.lh|
    && Clean(s) && Fresh(c, s)
    && (forall i | 0 <= i < |s.lh| :: s.lh[i] in s.dirty)
    && (forall i | 0 <= i < t :: c.area.start + 1 + i < |s.disk| && s.disk[c.area.start + 1 + i] == View(s, s.lh[i]))
  }

  /** After the header is written, or after it was read back: t blocks are home again. */
  predicate Installing(c: Config, s: State, t: nat)
    requires Layout(c, s)
  {
    && GoodHead(s.disk, c.area) && s.lh == HeadNos(s.disk[c.area.start]) && t <= |s.lh|
    && s.cut == |s.hist| && Clean(s)
    && (forall i | 0 <= i < t :: s.disk[s.lh[i]] == s.disk[c.area.start + 1 + i] && s.lh[i] !in s.dirty)
  }

  predicate Memory(c: Config, s: State)
    requires Layout(c, s)
  {
    match s.phase
    case Idle => Gathering(c, s, 0)
    case LogBlock(t) => Gathering(c, s, t)
    case Install(t) => Installing(c, s, t) && Fresh(c, s)
    case Done => s.lh == [] && Gathering(c, s, 0)
    case Boot => s.lh == [] && s.cut == |s.hist| && Clean(s)
    case Redo(t) => Installing(c, s, t)
  }

  predicate Inv(c: Config, s: State) {
    Safe(c) && Basic(c, s) && Durable(c, s) && Memory(c, s)
  }

  lemma {:induction false} InitInv(c: Config)
    requires Safe(c)
    ensures Inv(c, Init(c))
  {
    InitBasic(c);
    EmptyLogRecovers(c.disk0, c.area);
  }

  /** The log has room for what a commit writes. */
  lemma {:induction false} SafeFits(c: Config, s: State)
    requires Safe(c) && Basic(c, s) && s.phase.LogBlock? && DoCommit(c, s).Ok?
    ensures AllHome(s.lh, |s.disk|, c.area)
  {
    CommitFits(c, s);
  }

  // ----- Operations -----

  /** Nothing about the data depends on which operations are open. */
  lemma {:induction false} SameData(c: Config, s: State, t: State)
    requires Layout(c, s) && Durable(c, s) && Gathering(c, s, 0)
    requires t.disk == s.disk && t.cache == s.cache && t.dirty == s.dirty && t.lh == s.lh
    requires t.hist == s.hist && t.author == s.author && t.cut == s.cut
    ensures Layout(c, t) && Durable(c, t) && Gathering(c, t, 0)
  {
  }

  lemma {:induction false} SameInv(c: Config, s: State, t: State)
    requires Inv(c, s) && s.phase.Idle? && Basic(c, t) && (t.phase.Idle? || t.phase == LogBlock(0) || (t.phase.Done? && s.lh == []))
    requires t.disk == s.disk && t.cache == s.cache && t.dirty == s.dirty && t.lh == s.lh
    requires t.hist == s.hist && t.author == s.author && t.cut == s.cut
    ensures Inv(c, t)
  {
    hide Basic, Gathering, Durable;
    BasicLayout(c, t);
    SameData(c, s, t);
  }

  lemma {:induction false} BasicLayout(c: Config, s: State)
    requires Basic(c, s)
    ensures Layout(c, s)
  {
  }

  /** A logged write becomes the newest write, and moves nothing that is committed. */
  lemma {:induction false} LogWriteHistory(c: Config, s: State, t: State, w: Write)
    requires Layout(c, s) && Durable(c, s) && w.block < |s.disk| && !InLog(w.block, c.area)
    requires t.disk == s.disk && t.hist == s.hist + [w] && |t.author| == |t.hist| && t.cut == s.cut
    ensures Layout(c, t) && Durable(c, t) && Current(c, t) == Current(c, s)[w.block := w.data]
  {
    PlayPrefix(c.disk0, s.hist, t.hist, |s.hist|);
    PlayPrefix(c.disk0, s.hist, t.hist, s.cut);
  }

  lemma {:induction false} LogWriteClean(s: State, t: State, w: Write)
    requires Clean(s) && t.disk == s.disk && t.dirty == s.dirty + {w.block} && t.cache == s.cache[w.block := w.data]
    requires t.lh == if w.block in s.lh then s.lh else s.lh + [w.block]
    requires forall i | 0 <= i < |s.lh| :: s.lh[i] in s.dirty
    ensures Clean(t) && forall i | 0 <= i < |t.lh| :: t.lh[i] in t.dirty
  {
  }

  /** The block enters the log list and the cache, if it was not there, and reads as written. */
  lemma {:induction false} LogWriteData(c: Config, s: State, t: State, w: Write)
    requires Layout(c, s) && Layout(c, t) && Gathering(c, s, 0) && w.block < |s.disk| && !InLog(w.block, c.area)
    requires t.disk == s.disk && t.dirty == s.dirty + {w.block}
    requires t.cache == s.cache[w.block := w.data]
    requires t.lh == if w.block in s.lh then s.lh else s.lh + [w.block]
    requires Current(c, t) == Current(c, s)[w.block := w.data]
    ensures Gathering(c, t, 0)
  {
    AppendList(s, w.block, |s.disk|, c.area, t.lh);
    LogWriteClean(s, t, w);
  }

  lemma {:induction false} LogAppendInv(c: Config, s: State, k: nat, data: Block)
    requires Inv(c, s) && DoLogAppend(s, k, data).Ok?
    ensures Inv(c, DoLogAppend(s, k, data).s)
  {
    LogAppendBasic(c, s, k, data);
    var t, b := DoLogAppend(s, k, data).s, s.open[k].passed.value;
    assert OpOk(c, s, s.open[k]);
    hide Basic;
    LogWriteHistory(c, s, t, Write(b, data));
    LogWriteData(c, s, t, Write(b, data));
  }

  lemma {:induction false} BeginOpInv(c: Config, s: State)
    requires Inv(c, s) && DoBeginOp(s).Ok?
    ensures Inv(c, DoBeginOp(s).s)
  {
    BeginOpBasic(c, s);
    SameInv(c, s, DoBeginOp(s).s);
  }

  lemma {:induction false} LogTestInv(c: Config, s: State, k: nat, b: Word)
    requires Inv(c, s) && DoLogTest(c, s, k, b).Ok?
    ensures Inv(c, DoLogTest(c, s, k, b).s)
  {
    LogTestBasic(c, s, k, b);
    SameInv(c, s, DoLogTest(c, s, k, b).s);
  }

  lemma {:induction false} OpenIsIdle(c: Config, s: State)
    requires Basic(c, s) && s.open != []
    ensures s.phase.Idle?
  {
  }

  lemma {:induction false} EndOpInv(c: Config, s: State, k: nat)
    requires Inv(c, s) && DoEndOp(s, k).Ok?
    ensures Inv(c, DoEndOp(s, k).s)
  {
    hide Inv, Basic;
    InvBasic(c, s);
    OpenIsIdle(c, s);
    EndOpBasic(c, s, k);
    SameInv(c, s, DoEndOp(s, k).s);
  }

  lemma {:induction false} InvBasic(c: Config, s: State)
    requires Inv(c, s)
    ensures Basic(c, s)
  {
  }

  // ----- Commit -----

  /** Writing in the log while the header says it is empty does not change what is durable. */
  lemma {:induction false} LogBlockDurable(c: Config, s: State, t: State, i: nat, b: Word, data: Block)
    requires Layout(c, s) && Durable(c, s) && Gathering(c, s, i)
    requires c.area.start < b < c.area.start + c.area.size && t.disk == s.disk[b := data]
    requires t.hist == s.hist && t.author == s.author && t.cut == s.cut
    ensures Layout(c, t) && Durable(c, t)
  {
    hide Clean, Fresh, Distinct;
    EmptyLogRecovers(s.disk, c.area);
    EmptyLogRecovers(t.disk, c.area);
  }

  lemma {:induction false} LogAreaWrite(c: Config, s: State, t: State, b: Word, data: Block)
    requires Layout(c, s) && Clean(s) && Homes(s.lh, |s.disk|, c.area) && InLog(b, c.area)
    requires t.disk == s.disk[b := data] && t.cache == s.cache[b := data] && t.dirty == s.dirty - {b} && t.lh == s.lh
    ensures Clean(t) && t.dirty == s.dirty
    ensures forall x: Word | x < |s.disk| && !InLog(x, c.area) :: View(t, x) == View(s, x)
  {
  }

  /** A write inside the log area, past its header, disturbs nothing being gathered. */
  lemma {:induction false} LogBlockGathering(c: Config, s: State, t: State, i: nat)
    requires Layout(c, s) && Gathering(c, s, i) && i < |s.lh| <= Capacity(c.area) && Layout(c, t)
    requires t.disk == s.disk[c.area.start + 1 + i := View(s, s.lh[i])]
    requires t.cache == s.cache[c.area.start + 1 + i := View(s, s.lh[i])]
    requires t.dirty == s.dirty - {c.area.start + 1 + i} && t.lh == s.lh && t.hist == s.hist
    ensures Gathering(c, t, i + 1)
  {
    hide Play, Distinct, Clean;
    LogAreaWrite(c, s, t, c.area.start + 1 + i, View(s, s.lh[i]));
    assert !InLog(s.lh[i], c.area);
  }

  lemma {:induction false} LogBlockInv(c: Config, s: State)
    requires Inv(c, s) && s.phase.LogBlock? && s.phase.tail < |s.lh| && DoCommit(c, s).Ok?
    ensures Inv(c, DoCommit(c, s).s)
  {
    hide Basic, Durable, Gathering, NoBuffer;
    SafeFits(c, s);
    LogBlockBasic(c, s);
    BasicLayout(c, s);
    var i := s.phase.tail;
    var t := DoCommit(c, s).s;
    LogBlockDurable(c, s, t, i, c.area.start + 1 + i, View(s, s.lh[i]));
    LogBlockGathering(c, s, t, i);
  }

  /** The header and the log blocks are never dirty, so bread finds in them what the disk holds. */
  lemma {:induction false} LogReadsDisk(c: Config, s: State, b: Word)
    requires Layout(c, s) && Clean(s) && Homes(s.lh, |s.disk|, c.area) && InLog(b, c.area)
    ensures b < |s.disk| && View(s, b) == s.disk[b] && b !in s.dirty
  {
  }

  /** The commit point: with the header written, recovery yields every write so far. */
  lemma {:induction false} WriteHeaderDurable(c: Config, s: State, t: State)
    requires Layout(c, s) && Gathering(c, s, |s.lh|) && AllHome(s.lh, |s.disk|, c.area)
    requires t.disk == s.disk[c.area.start := HeaderOf(s.disk[c.area.start], s.lh)]
    requires t.hist == s.hist && t.author == s.author && t.cut == |s.hist|
    ensures Layout(c, t) && Durable(c, t) && HeadNos(t.disk[c.area.start]) == s.lh
  {
    HeaderMakesDurable(s.disk, c.area, s.lh, Current(c, s));
  }

  lemma {:induction false} WriteHeaderMemory(c: Config, s: State, t: State)
    requires Layout(c, s) && Layout(c, t) && Gathering(c, s, |s.lh|)
    requires t.disk == s.disk[c.area.start := t.disk[c.area.start]] && t.cache == s.cache[c.area.start := t.disk[c.area.start]]
    requires GoodHead(t.disk, c.area) && HeadNos(t.disk[c.area.start]) == s.lh == t.lh && t.dirty == s.dirty - {c.area.start}
    requires t.hist == s.hist && t.cut == |t.hist|
    ensures Installing(c, t, 0) && Fresh(c, t)
  {
    hide GoodHead, HeadNos, Distinct, Play;
    LogReadsDisk(c, s, c.area.start);
    assert InLog(c.area.start, c.area);
    LogAreaWrite(c, s, t, c.area.start, t.disk[c.area.start]);
  }

  lemma {:induction false} WriteHeaderInv(c: Config, s: State)
    requires Inv(c, s) && s.phase.LogBlock? && s.phase.tail == |s.lh| && DoCommit(c, s).Ok?
    ensures Inv(c, DoCommit(c, s).s)
  {
    hide Clean, Fresh, Distinct, Recovered, Play, SameHome, NoBuffer, HeaderOk, OpsOk, CountOk;
    SafeFits(c, s);
    WriteHeaderBasic(c, s);
    LogReadsDisk(c, s, c.area.start);
    var t := DoCommit(c, s).s;
    WriteHeaderDurable(c, s, t);
    WriteHeaderMemory(c, s, t);
  }

  // ----- Installing, in commit and in recovery -----

  lemma {:induction false} InstallClean(s: State, t: State, i: nat, data: Block)
    requires Clean(s) && i < |s.lh| && s.lh[i] < |s.disk| && t.lh == s.lh
    requires t.disk == s.disk[s.lh[i] := data] && t.cache == s.cache[s.lh[i] := data] && t.dirty == s.dirty - {s.lh[i]}
    ensures Clean(t)
  {
  }

  /** Copying one more log block home keeps the durable state and extends what is home. */
  lemma {:induction false} InstallBlock(c: Config, s: State, t: State, i: nat)
    requires Layout(c, s) && Durable(c, s) && Installing(c, s, i) && i < |s.lh|
    requires t.disk == s.disk[s.lh[i] := s.disk[c.area.start + 1 + i]]
    requires t.cache == s.cache[s.lh[i] := s.disk[c.area.start + 1 + i]] && t.dirty == s.dirty - {s.lh[i]} && t.lh == s.lh
    requires t.hist == s.hist && t.author == s.author && t.cut == s.cut
    ensures Layout(c, t) && Durable(c, t) && Installing(c, t, i + 1)
  {
    hide Recovered, Play, Clean;
    InstallOneMore(s.disk, c.area, i);
    InstallClean(s, t, i, s.disk[c.area.start + 1 + i]);
    forall j | 0 <= j < i ensures s.lh[j] != s.lh[i] {
      DistinctAt(s.lh, |s.lh|, j, i);
    }
  }

  /** A log block holds the current contents of the block it is for. */
  lemma {:induction false} LogHoldsCurrent(c: Config, s: State, t: nat, i: nat)
    requires Layout(c, s) && Durable(c, s) && Installing(c, s, t) && i < |s.lh|
    ensures s.disk[c.area.start + 1 + i] == Current(c, s)[s.lh[i]]
  {
    RecoveredNamed(s.disk, c.area, s.lh, i);
  }

  /** Writing a home block with its current contents shows readers nothing new. */
  lemma {:induction false} HomeWriteFresh(c: Config, s: State, t: State, b: Word)
    requires Layout(c, s) && Fresh(c, s) && b < |s.disk| && !InLog(b, c.area)
    requires t == BlockWrite(s, b, Current(c, s)[b]).(phase := t.phase)
    ensures Layout(c, t) && Fresh(c, t)
  {
  }

  lemma {:induction false} InstallInv(c: Config, s: State)
    requires Inv(c, s) && s.phase.Install? && s.phase.tail < |s.lh| && DoCommit(c, s).Ok?
    ensures Inv(c, DoCommit(c, s).s)
  {
    hide Clean, Fresh, Distinct, Recovered, Play, SameHome, NoBuffer, HeadNos, HeaderOk, OpsOk, CountOk;
    InstallBasic(c, s);
    var i := s.phase.tail;
    LogReadsDisk(c, s, c.area.start + 1 + i);
    LogHoldsCurrent(c, s, i, i);
    var t := DoCommit(c, s).s;
    InstallBlock(c, s, t, i);
    HomeWriteFresh(c, s, t, s.lh[i]);
  }

  /** With every block home, clearing the header keeps the durable state. */
  lemma {:induction false} ClearDurable(c: Config, s: State, t: State)
    requires Layout(c, s) && Durable(c, s) && Installing(c, s, |s.lh|)
    requires t.disk == s.disk[c.area.start := HeaderOf(s.disk[c.area.start], [])]
    requires t.hist == s.hist && t.author == s.author && t.cut == s.cut
    ensures Layout(c, t) && Durable(c, t) && t.disk[c.area.start].words[0] == 0
    ensures SameHome(t.disk, Current(c, s), c.area)
  {
    AllInstalled(s.disk, c.area);
    EmptyLogRecovers(t.disk, c.area);
  }

  lemma {:induction false} ClearMemory(c: Config, s: State, t: State)
    requires Layout(c, s) && Layout(c, t) && Installing(c, s, |s.lh|) && SameHome(t.disk, Current(c, s), c.area)
    requires t.disk == s.disk[c.area.start := t.disk[c.area.start]] && t.cache == s.cache[c.area.start := t.disk[c.area.start]]
    requires t.dirty == s.dirty - {c.area.start} && t.lh == [] && t.hist == s.hist
    requires t.disk[c.area.start].words[0] == 0
    ensures Gathering(c, t, 0)
  {
    assert s.dirty == {};
  }

  lemma {:induction false} ClearInv(c: Config, s: State)
    requires Inv(c, s) && s.phase.Install? && s.phase.tail == |s.lh| && DoCommit(c, s).Ok?
    ensures Inv(c, DoCommit(c, s).s)
  {
    hide Clean, Fresh, Distinct, Recovered, Play, SameHome, NoBuffer, HeaderOk, OpsOk, CountOk;
    ClearBasic(c, s);
    LogReadsDisk(c, s, c.area.start);
    var t := DoCommit(c, s).s;
    ClearDurable(c, s, t);
    ClearMemory(c, s, t);
  }

  lemma {:induction false} CommitStepInv(c: Config, s: State)
    requires Inv(c, s) && DoCommit(c, s).Ok?
    ensures Inv(c, DoCommit(c, s).s)
  {
    match s.phase
    case LogBlock(t) =>
      if t < |s.lh| { LogBlockInv(c, s); } else { WriteHeaderInv(c, s); }
    case Install(t) =>
      if t < |s.lh| { InstallInv(c, s); } else { ClearInv(c, s); }
    case Done =>
      CommitBasic(c, s);
      SameData(c, s, DoCommit(c, s).s);
    case _ =>
  }

  // ----- Cache traffic, crash and recovery -----

  lemma {:induction false} CleanBufferView(s: State, t: State, b: Word)
    requires b < |s.disk| && b !in s.dirty && Clean(s) && t == s.(cache := t.cache, held := t.held)
    requires t.cache == s.cache[b := s.disk[b]] || t.cache == s.cache - {b}
    ensures Clean(t) && forall x: Word | x < |s.disk| :: View(t, x) == View(s, x)
  {
  }

  /** Adding or dropping a buffer that agrees with the disk changes nothing a reader can see. */
  lemma {:induction false} CleanBufferMemory(c: Config, s: State, t: State, b: Word)
    requires Layout(c, s) && Memory(c, s) && b < |s.disk| && b !in s.dirty && t == s.(cache := t.cache, held := t.held)
    requires t.cache == s.cache[b := s.disk[b]] || t.cache == s.cache - {b}
    ensures Layout(c, t) && Memory(c, t)
  {
    hide Clean, Play, Distinct, HeadNos, AllHome, GoodHead;
    CleanBufferView(s, t, b);
  }

  lemma {:induction false} CleanBufferInv(c: Config, s: State, t: State, b: Word)
    requires Inv(c, s) && Basic(c, t) && b < |s.disk| && b !in s.dirty && t == s.(cache := t.cache, held := t.held)
    requires t.cache == s.cache[b := s.disk[b]] || t.cache == s.cache - {b}
    ensures Inv(c, t)
  {
    hide Basic, Memory;
    BasicLayout(c, s);
    CleanBufferMemory(c, s, t, b);
  }

  /** Who holds which buffer does not matter to the data. */
  lemma {:induction false} HeldInv(c: Config, s: State, t: State)
    requires Inv(c, s) && Basic(c, t) && t == s.(held := t.held)
    ensures Inv(c, t)
  {
    hide Basic;
    BasicLayout(c, s);
    BasicLayout(c, t);
    HeldMemory(c, s, t);
  }

  lemma {:induction false} HeldMemory(c: Config, s: State, t: State)
    requires Layout(c, s) && Layout(c, t) && Memory(c, s) && t == s.(held := t.held)
    ensures Memory(c, t)
  {
    hide Gathering, Installing, Fresh;
    match s.phase
    case Idle => HeldGathering(c, s, t, 0);
    case LogBlock(i) => HeldGathering(c, s, t, i);
    case Install(i) =>
      HeldInstalling(c, s, t, i);
      HeldFresh(c, s, t);
    case Done => HeldGathering(c, s, t, 0);
    case Boot =>
    case Redo(i) => HeldInstalling(c, s, t, i);
  }

  lemma {:induction false} HeldFresh(c: Config, s: State, t: State)
    requires Layout(c, s) && Layout(c, t) && Fresh(c, s) && t == s.(held := t.held)
    ensures Fresh(c, t)
  {
    hide Play;
  }

  lemma {:induction false} HeldGathering(c: Config, s: State, t: State, i: nat)
    requires Layout(c, s) && Layout(c, t) && Gathering(c, s, i) && t == s.(held := t.held)
    ensures Gathering(c, t, i)
  {
    hide Fresh, Distinct, Homes;
    HeldFresh(c, s, t);
  }

  lemma {:induction false} HeldInstalling(c: Config, s: State, t: State, i: nat)
    requires Layout(c, s) && Layout(c, t) && Installing(c, s, i) && t == s.(held := t.held)
    ensures Installing(c, t, i)
  {
    hide GoodHead, HeadNos;
  }

  lemma {:induction false} HoldInv(c: Config, s: State, b: Word)
    requires Inv(c, s) && DoHold(s, b).Ok?
    ensures Inv(c, DoHold(s, b).s)
  {
    HoldBasic(c, s, b);
    var t := DoHold(s, b).s;
    if b in s.cache {
      HeldInv(c, s, t);
    } else {
      AlwaysClean(c, s);
      CleanBufferInv(c, s, t, b);
    }
  }

  lemma {:induction false} AlwaysClean(c: Config, s: State)
    requires Inv(c, s)
    ensures Clean(s)
  {
    hide Fresh, Clean, Durable, Basic;
    BasicLayout(c, s);
  }

  lemma {:induction false} CrashInv(c: Config, s: State)
    requires Inv(c, s)
    ensures DoCrash(s).Ok? && Inv(c, DoCrash(s).s)
  {
    hide Fresh, OpsOk, CountOk;
    CrashBasic(c, s);
    PlayPrefix(c.disk0, s.hist, DoCrash(s).s.hist, s.cut);
  }

  lemma {:induction false} BootInv(c: Config, s: State)
    requires Inv(c, s) && s.phase.Boot?
    ensures DoRecover(c, s).Ok? && Inv(c, DoRecover(c, s).s)
  {
    hide OpsOk, CountOk;
    BootBasic(c, s);
  }

  lemma {:induction false} RedoInv(c: Config, s: State)
    requires Inv(c, s) && s.phase.Redo? && s.phase.tail < |s.lh| && DoRecover(c, s).Ok?
    ensures Inv(c, DoRecover(c, s).s)
  {
    hide Clean, Fresh, Distinct, Recovered, Play, SameHome, NoBuffer, HeadNos, HeaderOk, OpsOk, CountOk;
    RedoBasic(c, s);
    var i := s.phase.tail;
    LogReadsDisk(c, s, c.area.start + 1 + i);
    var t := DoRecover(c, s).s;
    InstallBlock(c, s, t, i);
  }

  lemma {:induction false} RecoveryEndsInv(c: Config, s: State)
    requires Inv(c, s) && s.phase.Redo? && s.phase.tail == |s.lh| && DoRecover(c, s).Ok?
    ensures Inv(c, DoRecover(c, s).s)
  {
    hide Clean, Fresh, Distinct, Recovered, Play, SameHome, NoBuffer, HeaderOk, OpsOk, CountOk;
    RedoEndsBasic(c, s);
    LogReadsDisk(c, s, c.area.start);
    var t := DoRecover(c, s).s;
    ClearDurable(c, s, t);
    ClearMemory(c, s, t);
  }

  lemma {:induction false} RecoverStepInv(c: Config, s: State)
    requires Inv(c, s) && DoRecover(c, s).Ok?
    ensures Inv(c, DoRecover(c, s).s)
  {
    match s.phase
    case Boot => BootInv(c, s);
    case Redo(t) =>
      if t < |s.lh| { RedoInv(c, s); } else { RecoveryEndsInv(c, s); }
    case _ =>
  }

  // ----- Whole runs -----

  lemma {:induction false} StepInv(c: Config, s: State, step: Step)
    requires Inv(c, s) && Do(c, s, step).Ok?
    ensures Inv(c, Do(c, s, step).s)
  {
    hide Inv;
    match step
    case BeginOp => BeginOpInv(c, s);
    case LogTest(k, b) => LogTestInv(c, s, k, b);
    case LogAppend(k, data) => LogAppendInv(c, s, k, data);
    case EndOp(k) => EndOpInv(c, s, k);
    case CommitStep => CommitStepInv(c, s);
    case Hold(b) => HoldInv(c, s, b);
    case Release(b) => ReleaseInv(c, s, b);
    case Recycle(b) => RecycleInv(c, s, b);
    case Crash => CrashInv(c, s);
    case RecoverStep => RecoverStepInv(c, s);
  }

  lemma {:induction false} ReleaseInv(c: Config, s: State, b: Word)
    requires Inv(c, s) && DoRelease(s, b).Ok?
    ensures Inv(c, DoRelease(s, b).s)
  {
    ReleaseBasic(c, s, b);
    HeldInv(c, s, DoRelease(s, b).s);
  }

  lemma {:induction false} RecycleInv(c: Config, s: State, b: Word)
    requires Inv(c, s) && DoRecycle(s, b).Ok?
    ensures Inv(c, DoRecycle(s, b).s)
  {
    RecycleBasic(c, s, b);
    AlwaysClean(c, s);
    CleanBufferInv(c, s, DoRecycle(s, b).s, b);
  }

  lemma {:induction false} RunInv(c: Config, steps: seq<Step>)
    requires Safe(c) && Run(c, steps).Ok?
    ensures Inv(c, Run(c, steps).s)
  {
    if steps == [] {
      InitInv(c);
    } else {
      hide Inv, Do;
      var init, step := steps[..|steps| - 1], steps[|steps| - 1];
      RunInv(c, init);
      StepInv(c, Run(c, init).s, step);
    }
  }

  /** What recovery would make of the disk at this moment is exactly the writes up to the last commit. */
  predicate Atomic(c: Config, s: State) {
    && Layout(c, s) && GoodHead(s.disk, c.area)
    && SameHome(Recovered(s.disk, c.area), Committed(c, s), c.area)
  }

  /** In every interleaving with any crashes the disk is Atomic. */
  lemma {:induction false} RunsAreAtomic(c: Config, steps: seq<Step>)
    requires Safe(c) && Run(c, steps).Ok?
    ensures Atomic(c, Run(c, steps).s)
  {
    hide Run;
    RunInv(c, steps);
  }

  /** In every run no operation has writes on both sides of the last commit, and none is open while a commit runs. */
  lemma {:induction false} CommitsAreWhole(c: Config, steps: seq<Step>)
    requires GoodConfig(c) && Run(c, steps).Ok?
    ensures var s := Run(c, steps).s;
            && (forall i, j | 0 <= i < s.cut <= j < |s.author| :: s.author[i] != s.author[j])
            && (s.committing ==> s.outstanding == 0 && s.open == [])
  {
    hide Run;
    RunBasic(c, steps);
  }

  /** Once operations run again after a boot, every read sees the latest write. */
  lemma {:induction false} ReadsSeeLatestWrite(c: Config, steps: seq<Step>, b: Word)
    requires Safe(c) && Run(c, steps).Ok? && b < |c.disk0| && !InLog(b, c.area)
    requires !Run(c, steps).s.phase.Boot? && !Run(c, steps).s.phase.Redo?
    ensures Layout(c, Run(c, steps).s)
    ensures View(Run(c, steps).s, b) == Current(c, Run(c, steps).s)[b]
  {
    hide Run;
    RunInv(c, steps);
  }

  /** In every run the committed state moves only at the header write, and then to everything
      written so far by operations that have all ended. */
  lemma {:induction false} CommitPoint(c: Config, steps: seq<Step>, step: Step)
    requires GoodConfig(c) && Run(c, steps).Ok? && Do(c, Run(c, steps).s, step).Ok?
    requires Do(c, Run(c, steps).s, step).s.cut != Run(c, steps).s.cut
    ensures var s := Run(c, steps).s;
            && step.CommitStep? && s.phase == LogBlock(|s.lh|) && s.open == []
            && Do(c, s, step).s.cut == |s.hist|
            && c.area.start < |Do(c, s, step).s.disk| && Do(c, s, step).s.disk[c.area.start].words[0] == |s.lh|
  {
    hide Run;
    RunBasic(c, steps);
  }

  lemma {:induction false} LogAreaIn(c: Config, s: State)
    requires Inv(c, s) && (s.phase.LogBlock? ==> DoCommit(c, s).Ok?)
    ensures InLog(c.area.start, c.area)
    ensures s.phase.LogBlock? && s.phase.tail < |s.lh| ==> InLog(c.area.start + 1 + s.phase.tail, c.area)
  {
    hide DoCommit, Durable, Memory;
    BasicLayout(c, s);
    if s.phase.LogBlock? {
      SafeFits(c, s);
    }
  }

  lemma {:induction false} CommitWritesHome(c: Config, s: State, b: Word)
    requires Inv(c, s) && DoCommit(c, s).Ok? && b < |s.disk| && !InLog(b, c.area)
    ensures |DoCommit(c, s).s.disk| == |s.disk|
    ensures DoCommit(c, s).s.disk[b] == s.disk[b] || (s.phase.Install? && b in s.lh)
  {
    hide Inv, HeaderOf, NoBuffer, View, InLog, Needs;
    LogAreaIn(c, s);
  }

  lemma {:induction false} RecoverWritesHome(c: Config, s: State, b: Word)
    requires Inv(c, s) && DoRecover(c, s).Ok? && b < |s.disk| && !InLog(b, c.area)
    ensures |DoRecover(c, s).s.disk| == |s.disk|
    ensures DoRecover(c, s).s.disk[b] == s.disk[b] || (s.phase.Redo? && b in s.lh)
  {
    hide Inv, HeaderOf, NoBuffer, View, InLog, Needs, HeadNos;
    if !s.phase.LogBlock? {
      LogAreaIn(c, s);
    }
  }

  lemma {:induction false} OtherStepsWriteNothing(c: Config, s: State, step: Step)
    requires !step.CommitStep? && !step.RecoverStep? && Do(c, s, step).Ok?
    ensures Do(c, s, step).s.disk == s.disk
  {
    hide NoBuffer, MayTest, Taken;
  }

  lemma {:induction false} StepWritesHome(c: Config, s: State, step: Step, b: Word)
    requires Inv(c, s) && Do(c, s, step).Ok? && b < |s.disk| && !InLog(b, c.area)
    ensures |Do(c, s, step).s.disk| == |s.disk|
    ensures Do(c, s, step).s.disk[b] == s.disk[b] || ((s.phase.Install? || s.phase.Redo?) && b in s.lh)
  {
    hide Inv, DoCommit, DoRecover, InLog;
    if step.CommitStep? {
      CommitWritesHome(c, s, b);
    } else if step.RecoverStep? {
      RecoverWritesHome(c, s, b);
    } else {
      OtherStepsWriteNothing(c, s, step);
    }
  }

  lemma {:induction false} InstallingNow(c: Config, s: State)
    requires Inv(c, s)
    ensures |s.disk| == |c.disk0| && GoodHead(s.disk, c.area) && (s.phase.Install? || s.phase.Redo? ==> s.lh == HeadNos(s.disk[c.area.start]))
  {
    hide Basic, Clean, Fresh, GoodHead, HeadNos;
    BasicLayout(c, s);
  }

  /** In every run no home block changes on disk until the header naming it is written. */
  lemma {:induction false} HomeWaitsForHeader(c: Config, steps: seq<Step>, step: Step, b: Word)
    requires Safe(c) && Run(c, steps).Ok? && Do(c, Run(c, steps).s, step).Ok?
    requires b < |c.disk0| && !InLog(b, c.area)
    ensures var s, t := Run(c, steps).s, Do(c, Run(c, steps).s, step).s;
            && |t.disk| == |s.disk| == |c.disk0| && GoodHead(s.disk, c.area)
            && (t.disk[b] != s.disk[b] ==> (s.phase.Install? || s.phase.Redo?) && b in HeadNos(s.disk[c.area.start]))
  {
    hide Run, Do, Inv;
    RunInv(c, steps);
    var s := Run(c, steps).s;
    InstallingNow(c, s);
    StepWritesHome(c, s, step, b);
  }

  function CommittedWrites(s: State): seq<Write> {
    if s.cut <= |s.hist| then s.hist[..s.cut] else []
  }

  lemma {:induction false} CommittedStaysOneMore(c: Config, steps: seq<Step>, step: Step)
    requires GoodConfig(c) && Run(c, steps + [step]).Ok?
    ensures Run(c, steps).Ok?
    ensures CommittedWrites(Run(c, steps).s) <= CommittedWrites(Run(c, steps + [step]).s)
  {
    RunLastStep(c, steps, step);
    RunBasic(c, steps);
    CommittedStaysOneStep(c, Run(c, steps).s, step);
  }

  lemma {:induction false} CommittedStaysOneStep(c: Config, s: State, step: Step)
    requires Layout(c, s) && Do(c, s, step).Ok?
    ensures CommittedWrites(s) <= CommittedWrites(Do(c, s, step).s)
  {
  }

  /** What has committed is never lost, whatever happens later. */
  lemma {:induction false} CommittedStays(c: Config, steps: seq<Step>, more: seq<Step>)
    requires GoodConfig(c) && Run(c, steps + more).Ok?
    ensures Run(c, steps).Ok?
    ensures CommittedWrites(Run(c, steps).s) <= CommittedWrites(Run(c, steps + more).s)
    decreases |more|
  {
    if more == [] {
      assert steps + more == steps;
    } else {
      var init, step := more[..|more| - 1], more[|more| - 1];
      assert steps + more == (steps + init) + [step];
      CommittedStaysOneMore(c, steps + init, step);
      CommittedStays(c, steps, init);
    }
  }
}
