/** The commits and recoveries of CommitMachine's runs, one block write a step and whatever readers do in between, make the
    writes that RedoLog lists and Log's methods make, in the same order. */
module LogRefinement {
  import opened DiskModel
  import opened RedoLog
  import opened CommitMachine
  import opened GroupCommit

  // ----- What each step writes -----

  /** The step changes the disk by one write, and of the rest only buffers and the phase. */
  ghost predicate Writes(c: Config, s: State, o: Outcome, w: Write, phase: Phase) {
    && o.Ok? && Inv(c, o.s) && w.block < |s.disk| && o.s.disk == s.disk[w.block := w.data]
    && o.s.phase == phase && o.s.hist == s.hist
  }

  lemma {:induction false} LogEffect(c: Config, s: State, t: nat)
    requires Inv(c, s) && s.phase == LogBlock(t) && t < |s.lh| && DoCommit(c, s).Ok?
    ensures Layout(c, s) && s.lh[t] < |s.disk| && c.area.start + 1 + t < 0x1_0000_0000
    ensures Writes(c, s, DoCommit(c, s), Write(c.area.start + 1 + t, Current(c, s)[s.lh[t]]), LogBlock(t + 1))
    ensures DoCommit(c, s).s.lh == s.lh
  {
    hide Basic, Durable, Clean, Fresh, Distinct, NoBuffer;
    BasicLayout(c, s);
    SafeFits(c, s);
    LoggedView(c, s, t);
    LogBlockInv(c, s);
    hide Inv, Current, View;
  }

  lemma {:induction false} LoggedView(c: Config, s: State, t: nat)
    requires Layout(c, s) && Gathering(c, s, t) && t < |s.lh| && AllHome(s.lh, |s.disk|, c.area)
    ensures s.lh[t] < |s.disk| && View(s, s.lh[t]) == Current(c, s)[s.lh[t]] && OnDevice(c, s, t)
  {
    hide Clean, Distinct, Play;
  }

  lemma {:induction false} HeaderEffect(c: Config, s: State)
    requires Inv(c, s) && s.phase == LogBlock(|s.lh|) && DoCommit(c, s).Ok?
    ensures c.area.start < |s.disk| <= 0x1_0000_0000 && |s.lh| <= LOGSIZE
    ensures Writes(c, s, DoCommit(c, s), Write(c.area.start, HeaderOf(s.disk[c.area.start], s.lh)), Install(0))
    ensures DoCommit(c, s).s.lh == s.lh
  {
    hide Durable, Fresh, Distinct, NoBuffer, OpsOk, HeaderOk, CountOk;
    SafeFits(c, s);
    LogReadsDisk(c, s, c.area.start);
    WriteHeaderInv(c, s);
    hide Inv, Basic, View, HeaderOf;
  }

  lemma {:induction false} InstallFacts(c: Config, s: State, t: nat)
    requires Inv(c, s) && s.phase == Install(t) && t < |s.lh|
    ensures Layout(c, s) && c.area.start + 1 + t < |s.disk| <= 0x1_0000_0000 && s.lh[t] < |s.disk|
    ensures View(s, c.area.start + 1 + t) == Current(c, s)[s.lh[t]]
  {
    hide Clean, Fresh, Distinct, HeadNos, Current, OpsOk, HeaderOk, CountOk;
    LogReadsDisk(c, s, c.area.start + 1 + t);
    LogHoldsCurrent(c, s, t, t);
  }

  lemma {:induction false} InstallEffect(c: Config, s: State, t: nat)
    requires Inv(c, s) && s.phase == Install(t) && t < |s.lh| && DoCommit(c, s).Ok?
    ensures Layout(c, s) && s.lh[t] < |s.disk|
    ensures Writes(c, s, DoCommit(c, s), Write(s.lh[t], Current(c, s)[s.lh[t]]), Install(t + 1))
    ensures DoCommit(c, s).s.lh == s.lh
  {
    hide Inv, View, NoBuffer, Current, Layout;
    InstallFacts(c, s, t);
    InstallInv(c, s);
  }

  lemma {:induction false} ClearEffect(c: Config, s: State)
    requires Inv(c, s) && s.phase == Install(|s.lh|) && DoCommit(c, s).Ok?
    ensures c.area.start < |s.disk| <= 0x1_0000_0000
    ensures Writes(c, s, DoCommit(c, s), Write(c.area.start, HeaderOf(s.disk[c.area.start], [])), Done)
  {
    hide Durable, Fresh, Distinct, NoBuffer, OpsOk, HeaderOk, CountOk;
    LogReadsDisk(c, s, c.area.start);
    ClearInv(c, s);
    hide Inv, Basic, View, HeaderOf;
  }

  lemma {:induction false} RedoEffect(c: Config, s: State, t: nat)
    requires Inv(c, s) && s.phase == Redo(t) && t < |s.lh| && DoRecover(c, s).Ok?
    ensures c.area.start + 1 + t < |s.disk|
    ensures Writes(c, s, DoRecover(c, s), Write(s.lh[t], s.disk[c.area.start + 1 + t]), Redo(t + 1))
    ensures DoRecover(c, s).s.lh == s.lh
  {
    hide Clean, Fresh, Distinct, Recovered, Play, SameHome, HeadNos, NoBuffer, OpsOk, HeaderOk, CountOk;
    LogReadsDisk(c, s, c.area.start + 1 + t);
    RedoInv(c, s);
    hide Inv, Basic, View;
  }

  lemma {:induction false} RedoClearEffect(c: Config, s: State)
    requires Inv(c, s) && s.phase == Redo(|s.lh|) && DoRecover(c, s).Ok?
    ensures c.area.start < |s.disk| <= 0x1_0000_0000
    ensures Writes(c, s, DoRecover(c, s), Write(c.area.start, HeaderOf(s.disk[c.area.start], [])), Idle)
  {
    hide Durable, Fresh, Distinct, NoBuffer, OpsOk, HeaderOk, CountOk;
    LogReadsDisk(c, s, c.area.start);
    RecoveryEndsInv(c, s);
    hide Inv, Basic, View, HeaderOf;
  }

  // ----- Commit -----

  /** What commit does next once it has made k writes for n logged blocks. */
  function PhaseAt(k: nat, n: nat): Phase {
    if k <= n then LogBlock(k) else if k <= 2 * n + 1 then Install(k - n - 1) else Done
  }

  lemma {:induction false} CommitWriteAt(h: Block, area: LogArea, nos: seq<Word>, vals: seq<Block>, k: nat)
    requires |nos| == |vals| <= Capacity(area) && Addressable(area) && k < 2 * |nos| + 2
    ensures CommitWrites(h, area, nos, vals)[k] ==
              if k < |nos| then Write(area.start + 1 + k, vals[k])
              else if k == |nos| then Write(area.start, HeaderOf(h, nos))
              else if k <= 2 * |nos| then Write(nos[k - |nos| - 1], vals[k - |nos| - 1])
              else Write(area.start, HeaderOf(HeaderOf(h, nos), []))
  {
    hide HeaderOf;
  }

  /** A commit begins in s0, where the logged blocks read as vals. */
  ghost predicate Begins(c: Config, s0: State, vals: seq<Block>) {
    && Inv(c, s0) && s0.phase == LogBlock(0) && |s0.lh| < NBUF && |vals| == |s0.lh|
    && forall i | 0 <= i < |s0.lh| :: s0.lh[i] < |s0.disk| && vals[i] == View(s0, s0.lh[i])
  }

  /** The state after steps taken from s. */
  function From(c: Config, s: State, steps: seq<Step>): Outcome {
    if steps == [] then Ok(s)
    else match From(c, s, steps[..|steps| - 1])
      case Ok(r) => Do(c, r, steps[|steps| - 1])
      case o => o
  }

  /** How many of the steps are this one. */
  function Times(steps: seq<Step>, step: Step): nat {
    if steps == [] then 0 else Times(steps[..|steps| - 1], step) + if steps[|steps| - 1] == step then 1 else 0
  }

  /** Before the last of the steps there are at most n of these. */
  predicate NotPast(steps: seq<Step>, step: Step, n: nat) {
    steps != [] ==> Times(steps[..|steps| - 1], step) <= n
  }

  /** The header while it is being replaced. */
  predicate HeaderAt(d: Disk, d0: Disk, area: LogArea, nos: seq<Word>, k: nat) {
    && |d| == |d0| && area.start < |d| && |nos| <= LOGSIZE
    && d[area.start] == if k <= |nos| then d0[area.start] else HeaderOf(d0[area.start], nos)
  }

  ghost predicate Committing(c: Config, s0: State, vals: seq<Block>, s: State, k: nat, ws: seq<Write>) {
    && Inv(c, s) && s.phase == PhaseAt(k, |s0.lh|) && s.hist == s0.hist && OnDisk(ws, |s0.disk|) && k <= |ws| == 2 * |s0.lh| + 2
    && s.disk == Play(s0.disk, ws, k)
    && (k <= 2 * |s0.lh| + 1 ==> s.lh == s0.lh && HeaderAt(s.disk, s0.disk, c.area, s0.lh, k))
  }

  lemma {:induction false} BeginFacts(c: Config, s0: State, vals: seq<Block>)
    requires Begins(c, s0, vals)
    ensures Layout(c, s0) && Fits(s0.disk, c.area) && AllHome(s0.lh, |s0.disk|, c.area)
    ensures forall i | 0 <= i < |s0.lh| :: vals[i] == Current(c, s0)[s0.lh[i]]
  {
    hide Durable, OpsOk, Play, Clean, Distinct, HeaderOk;
  }

  lemma {:induction false} PlayNext(d: Disk, ws: seq<Write>, k: nat, w: Write)
    requires OnDisk(ws, |d|) && k < |ws| && ws[k] == w
    ensures w.block < |d| && Play(d, ws, k + 1) == Play(d, ws, k)[w.block := w.data]
  {
  }

  /** One write more; the header is replaced by the write numbered |lh|, and by none before the last. */
  lemma {:induction false} Advance(c: Config, s0: State, vals: seq<Block>, s: State, k: nat, ws: seq<Write>, o: Outcome, w: Write)
    requires Committing(c, s0, vals, s, k, ws) && k < 2 * |s0.lh| + 2 && ws[k] == w && Writes(c, s, o, w, PhaseAt(k + 1, |s0.lh|))
    requires k <= 2 * |s0.lh| ==> o.s.lh == s.lh && (w.block == c.area.start <==> k == |s0.lh|)
    requires k == |s0.lh| && |s0.lh| <= LOGSIZE && c.area.start < |s0.disk| ==> w.data == HeaderOf(s0.disk[c.area.start], s0.lh)
    ensures Committing(c, s0, vals, o.s, k + 1, ws)
  {
    hide Inv, OnDisk, Play, HeaderOf;
    PlayNext(s0.disk, ws, k, w);
  }

  lemma {:induction false} HomeNotHeader(d: Disk, area: LogArea, nos: seq<Word>, i: nat)
    requires Fits(d, area) && AllHome(nos, |d|, area) && i < |nos|
    ensures nos[i] != area.start
  {
    assert InLog(area.start, area);
  }

  lemma {:induction false} AdvanceLog(c: Config, s0: State, vals: seq<Block>, s: State, k: nat, ws: seq<Write>)
    requires Committing(c, s0, vals, s, k, ws) && DoCommit(c, s).Ok? && k < |s0.lh| && |vals| == |s0.lh| && Layout(c, s) && s0.lh[k] < |c.disk0|
    requires vals[k] == Current(c, s)[s0.lh[k]] && c.area.start + 1 + k < 0x1_0000_0000 && ws[k] == Write(c.area.start + 1 + k, vals[k])
    ensures Committing(c, s0, vals, DoCommit(c, s).s, k + 1, ws)
  {
    hide Inv, DoCommit, HeaderOf, Current, OnDisk, Play, Layout, HeaderAt;
    LogEffect(c, s, k);
    Advance(c, s0, vals, s, k, ws, DoCommit(c, s), ws[k]);
  }

  lemma {:induction false} AdvanceHeader(c: Config, s0: State, vals: seq<Block>, s: State, ws: seq<Write>)
    requires Committing(c, s0, vals, s, |s0.lh|, ws) && DoCommit(c, s).Ok? && |s0.lh| <= LOGSIZE && c.area.start < |s0.disk| <= 0x1_0000_0000
    requires ws[|s0.lh|] == Write(c.area.start, HeaderOf(s0.disk[c.area.start], s0.lh))
    ensures Committing(c, s0, vals, DoCommit(c, s).s, |s0.lh| + 1, ws)
  {
    hide Inv, DoCommit, HeaderOf, OnDisk, Play;
    HeaderEffect(c, s);
    Advance(c, s0, vals, s, |s0.lh|, ws, DoCommit(c, s), ws[|s0.lh|]);
  }

  lemma {:induction false} AdvanceInstall(c: Config, s0: State, vals: seq<Block>, s: State, t: nat, ws: seq<Write>)
    requires Committing(c, s0, vals, s, |s0.lh| + 1 + t, ws) && DoCommit(c, s).Ok? && t < |s0.lh| == |vals| && Layout(c, s) && s0.lh[t] < |c.disk0|
    requires vals[t] == Current(c, s)[s0.lh[t]] && ws[|s0.lh| + 1 + t] == Write(s0.lh[t], vals[t]) && s0.lh[t] != c.area.start
    ensures Committing(c, s0, vals, DoCommit(c, s).s, |s0.lh| + 2 + t, ws)
  {
    hide Inv, DoCommit, HeaderOf, Current, OnDisk, Play, Layout, HeaderAt;
    InstallEffect(c, s, t);
    Advance(c, s0, vals, s, |s0.lh| + 1 + t, ws, DoCommit(c, s), ws[|s0.lh| + 1 + t]);
  }

  lemma {:induction false} AdvanceClear(c: Config, s0: State, vals: seq<Block>, s: State, ws: seq<Write>)
    requires Committing(c, s0, vals, s, 2 * |s0.lh| + 1, ws) && DoCommit(c, s).Ok? && c.area.start < |s0.disk| <= 0x1_0000_0000 && |s0.lh| <= LOGSIZE
    requires ws[2 * |s0.lh| + 1] == Write(c.area.start, HeaderOf(HeaderOf(s0.disk[c.area.start], s0.lh), []))
    ensures Committing(c, s0, vals, DoCommit(c, s).s, 2 * |s0.lh| + 2, ws)
  {
    hide Inv, DoCommit, HeaderOf, OnDisk, Play;
    ClearEffect(c, s);
    Advance(c, s0, vals, s, 2 * |s0.lh| + 1, ws, DoCommit(c, s), ws[2 * |s0.lh| + 1]);
  }

  /** Commit's next step is the next of the writes. */
  lemma {:induction false} CommitOneMore(c: Config, s0: State, vals: seq<Block>, s: State, k: nat, ws: seq<Write>)
    requires Begins(c, s0, vals) && Fits(s0.disk, c.area) && AllHome(s0.lh, |s0.disk|, c.area)
    requires ws == CommitWrites(s0.disk[c.area.start], c.area, s0.lh, vals) && Committing(c, s0, vals, s, k, ws) && k < 2 * |s0.lh| + 2 && DoCommit(c, s).Ok?
    ensures Committing(c, s0, vals, DoCommit(c, s).s, k + 1, ws)
  {
    hide Inv, DoCommit, HeaderOf, CommitWrites, Current, OnDisk, Play, HeaderAt, PhaseAt;
    var n := |s0.lh|;
    BeginFacts(c, s0, vals);
    CommitWriteAt(s0.disk[c.area.start], c.area, s0.lh, vals, k);
    SameCurrent(c, s0, s);
    if k < n {
      AdvanceLog(c, s0, vals, s, k, ws);
    } else if k == n {
      AdvanceHeader(c, s0, vals, s, ws);
    } else if k <= 2 * n {
      HomeNotHeader(s0.disk, c.area, s0.lh, k - n - 1);
      AdvanceInstall(c, s0, vals, s, k - n - 1, ws);
    } else {
      AdvanceClear(c, s0, vals, s, ws);
    }
  }

  lemma {:induction false} SameCurrent(c: Config, s: State, t: State)
    requires Layout(c, s) && Inv(c, t) && t.hist == s.hist
    ensures Layout(c, t) && Current(c, t) == Current(c, s)
  {
    hide Durable, Memory, OpsOk, CountOk, HeaderOk, DirtyOk, Play;
  }

  /** What anybody else does meanwhile writes nothing. */
  lemma {:induction false} CommitMeanwhile(c: Config, s0: State, vals: seq<Block>, s: State, k: nat, ws: seq<Write>, step: Step)
    requires Committing(c, s0, vals, s, k, ws) && k < 2 * |s0.lh| + 2 && Do(c, s, step).Ok? && !step.CommitStep? && !step.Crash?
    ensures Committing(c, s0, vals, Do(c, s, step).s, k, ws)
  {
    StepInv(c, s, step);
    OnlyBuffers(c, s, step);
    hide Inv, Do, Play, OnDisk, HeaderOf;
  }

  /** While a commit runs, other steps change only which buffers are held and cached. */
  lemma {:induction false} OnlyBuffers(c: Config, s: State, step: Step)
    requires Inv(c, s) && Running(s.phase) && Do(c, s, step).Ok? && !step.CommitStep? && !step.Crash?
    ensures var t := Do(c, s, step).s; t == s.(held := t.held, cache := t.cache)
  {
    hide NoBuffer, Taken, Durable, Memory, HeaderOk, Homes, Distinct, CountOk, OpOk, Unsplit;
  }

  /** From any state of a run in which a commit begins with fewer than NBUF blocks, and whatever else happens but a crash,
      the commit makes exactly commit's writes, in order, one a step. */
  lemma {:induction false} CommitMakesTheWrites(c: Config, s0: State, vals: seq<Block>, steps: seq<Step>)
    requires Begins(c, s0, vals) && From(c, s0, steps).Ok? && Crash !in steps && NotPast(steps, CommitStep, 2 * |s0.lh| + 1)
    ensures Fits(s0.disk, c.area) && AllHome(s0.lh, |s0.disk|, c.area)
    ensures var ws := CommitWrites(s0.disk[c.area.start], c.area, s0.lh, vals);
      OnDisk(ws, |s0.disk|) && Committing(c, s0, vals, From(c, s0, steps).s, Times(steps, CommitStep), ws)
  {
    hide Inv, Do, HeaderOf, CommitWrites, Committing, OnDisk;
    BeginFacts(c, s0, vals);
    CommitStarts(c, s0, vals);
    if steps != [] {
      var init, step := steps[..|steps| - 1], steps[|steps| - 1];
      CommitMakesTheWrites(c, s0, vals, init);
      var ws := CommitWrites(s0.disk[c.area.start], c.area, s0.lh, vals);
      if step == CommitStep {
        CommitDo(c, From(c, s0, init).s);
        CommitOneMore(c, s0, vals, From(c, s0, init).s, Times(init, CommitStep), ws);
      } else {
        CommitMeanwhile(c, s0, vals, From(c, s0, init).s, Times(init, CommitStep), ws, step);
      }
    }
  }

  lemma {:induction false} CommitDo(c: Config, s: State)
    ensures Do(c, s, CommitStep) == DoCommit(c, s) && Do(c, s, RecoverStep) == DoRecover(c, s)
  {
  }

  lemma {:induction false} CommitStarts(c: Config, s0: State, vals: seq<Block>)
    requires Begins(c, s0, vals) && Fits(s0.disk, c.area) && AllHome(s0.lh, |s0.disk|, c.area)
    ensures var ws := CommitWrites(s0.disk[c.area.start], c.area, s0.lh, vals);
      OnDisk(ws, |s0.disk|) && Committing(c, s0, vals, s0, 0, ws)
  {
    hide Inv, HeaderOf;
    CommitEndsAsRecovery(s0.disk, c.area, s0.lh, vals);
  }

  // ----- Recovery -----

  ghost predicate Recovering(c: Config, s0: State, s: State, k: nat, ws: seq<Write>) {
    && Inv(c, s) && s.phase == (if k <= |s0.lh| then Redo(k) else Idle) && OnDisk(ws, |s0.disk|) && k <= |ws| == |s0.lh| + 1
    && s.disk == Play(s0.disk, ws, k)
    && (k <= |s0.lh| ==> s.lh == s0.lh && HeaderAt(s.disk, s0.disk, c.area, s0.lh, 0))
    && (k <= |s0.lh| ==> forall b | 0 <= b < |s0.disk| && InLog(b, c.area) :: s.disk[b] == s0.disk[b])
  }

  lemma {:induction false} RecoveryWriteAt(d: Disk, area: LogArea, nos: seq<Word>, k: nat)
    requires GoodHead(d, area) && nos == HeadNos(d[area.start]) && k <= |nos|
    ensures |RecoveryWrites(d, area)| == |nos| + 1 && AllHome(nos, |d|, area)
    ensures RecoveryWrites(d, area)[k] == if k < |nos| then Write(nos[k], d[area.start + 1 + k]) else Write(area.start, HeaderOf(d[area.start], []))
  {
    hide HeaderOf, HeadNos;
  }

  lemma {:induction false} RecoverOneMore(c: Config, s0: State, s: State, k: nat, ws: seq<Write>)
    requires GoodHead(s0.disk, c.area) && s0.lh == HeadNos(s0.disk[c.area.start])
    requires ws == RecoveryWrites(s0.disk, c.area) && Recovering(c, s0, s, k, ws) && k <= |s0.lh| && DoRecover(c, s).Ok?
    ensures Recovering(c, s0, DoRecover(c, s).s, k + 1, ws)
  {
    hide Inv, DoRecover, HeaderOf, HeadNos, OnDisk, Play, RecoveryWrites;
    RecoveryWriteAt(s0.disk, c.area, s0.lh, k);
    if k < |s0.lh| {
      RedoEffect(c, s, k);
      assert InLog(c.area.start + 1 + k, c.area) && !InLog(s0.lh[k], c.area);
    } else {
      RedoClearEffect(c, s);
    }
    PlayNext(s0.disk, ws, k, ws[k]);
  }

  lemma {:induction false} RecoverMeanwhile(c: Config, s0: State, s: State, k: nat, ws: seq<Write>, step: Step)
    requires Recovering(c, s0, s, k, ws) && k <= |s0.lh| && Do(c, s, step).Ok? && !step.RecoverStep? && !step.Crash?
    ensures Recovering(c, s0, Do(c, s, step).s, k, ws)
  {
    StepInv(c, s, step);
    OnlyCache(c, s, step);
    hide Inv, Do, Play, OnDisk, HeaderOf;
  }

  lemma {:induction false} OnlyCache(c: Config, s: State, step: Step)
    requires Inv(c, s) && s.phase.Redo? && Do(c, s, step).Ok? && !step.RecoverStep? && !step.Crash?
    ensures var t := Do(c, s, step).s; t == s.(held := t.held, cache := t.cache)
  {
    hide NoBuffer, Taken, Durable, Memory, HeaderOk, Homes, Distinct, CountOk, OpOk, Unsplit;
  }

  /** Likewise a recovery makes exactly recovery's writes. */
  lemma {:induction false} RecoveryMakesTheWrites(c: Config, s0: State, steps: seq<Step>)
    requires Inv(c, s0) && s0.phase == Redo(0) && From(c, s0, steps).Ok? && Crash !in steps && NotPast(steps, RecoverStep, |s0.lh|)
    ensures GoodHead(s0.disk, c.area) && s0.lh == HeadNos(s0.disk[c.area.start])
    ensures Recovering(c, s0, From(c, s0, steps).s, Times(steps, RecoverStep), RecoveryWrites(s0.disk, c.area))
  {
    hide Inv, Do, HeaderOf, HeadNos, Recovering, RecoveryWrites;
    RecoveryFacts(c, s0);
    if steps == [] {
      RecoveryStarts(c, s0);
    } else {
      var init, step := steps[..|steps| - 1], steps[|steps| - 1];
      RecoveryMakesTheWrites(c, s0, init);
      if step == RecoverStep {
        CommitDo(c, From(c, s0, init).s);
        RecoverOneMore(c, s0, From(c, s0, init).s, Times(init, RecoverStep), RecoveryWrites(s0.disk, c.area));
      } else {
        RecoverMeanwhile(c, s0, From(c, s0, init).s, Times(init, RecoverStep), RecoveryWrites(s0.disk, c.area), step);
      }
    }
  }

  lemma {:induction false} RecoveryFacts(c: Config, s: State)
    requires Inv(c, s) && s.phase == Redo(0)
    ensures GoodHead(s.disk, c.area) && s.lh == HeadNos(s.disk[c.area.start])
  {
    hide HeadNos, Clean, Recovered, Play, Distinct, OpsOk, CountOk, HeaderOk;
  }

  lemma {:induction false} RecoveryStarts(c: Config, s: State)
    requires Inv(c, s) && s.phase == Redo(0) && GoodHead(s.disk, c.area) && s.lh == HeadNos(s.disk[c.area.start])
    ensures Recovering(c, s, s, 0, RecoveryWrites(s.disk, c.area))
  {
    hide Inv, RecoveryWrites, OnDisk;
  }
}
