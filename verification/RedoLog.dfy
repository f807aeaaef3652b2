/** The physical redo log of log.c: the block writes one commit and one recovery make, in order,
    and why a crash between any two of them is harmless. */
module RedoLog {
  import opened DiskModel

  // ----- Layout -----

  /** The log: its header is block `start` and the blocks after it, up to `size` in all, hold logged data. */
  datatype LogArea = LogArea(start: nat, size: nat)

  predicate Addressable(area: LogArea) {
    area.size >= 1 && area.start + area.size <= 0x1_0000_0000
  }

  predicate Fits(d: Disk, area: LogArea) {
    Addressable(area) && area.start + area.size <= |d| <= 0x1_0000_0000
  }

  predicate InLog(b: nat, area: LogArea) {
    area.start <= b < area.start + area.size
  }

  /** How many blocks log_write lets into the log: as many as the header can name and the area can hold. */
  function Capacity(area: LogArea): nat {
    if area.size == 0 then 0 else if area.size - 1 < LOGSIZE then area.size - 1 else LOGSIZE
  }

  /** Every number in `nos` is a block of the device outside the log, and they fit in the log. */
  predicate AllHome(nos: seq<Word>, size: nat, area: LogArea) {
    |nos| <= Capacity(area) && forall i | 0 <= i < |nos| :: nos[i] < size && !InLog(nos[i], area)
  }

  /** No number occurs twice among the first k. */
  predicate DistinctTo(nos: seq<Word>, k: nat)
    requires k <= |nos|
  {
    k > 0 ==> DistinctTo(nos, k - 1) && forall i | 0 <= i < k - 1 :: nos[i] != nos[k - 1]
  }

  predicate Distinct(nos: seq<Word>) {
    DistinctTo(nos, |nos|)
  }

  lemma {:induction false} DistinctAt(nos: seq<Word>, k: nat, i: nat, j: nat)
    requires i < j < k <= |nos| && DistinctTo(nos, k)
    ensures nos[i] != nos[j]
  {
    if j < k - 1 {
      DistinctAt(nos, k - 1, i, j);
    }
  }

  lemma {:induction false} DistinctPrefix(nos: seq<Word>, more: seq<Word>, k: nat)
    requires k <= |nos| && nos <= more && DistinctTo(nos, k)
    ensures DistinctTo(more, k)
  {
    if k > 0 {
      DistinctPrefix(nos, more, k - 1);
    }
  }

  /** The block numbers a header block announces. */
  function HeadNos(h: Block): seq<Word>
    requires h.words[0] <= LOGSIZE
  {
    h.words[1..1 + h.words[0]]
  }

  predicate GoodHead(d: Disk, area: LogArea) {
    && Fits(d, area)
    && d[area.start].words[0] <= Capacity(area)
    && AllHome(HeadNos(d[area.start]), |d|, area)
  }

  /** The header block that write_head leaves: entries past the new count keep their old words. */
  function HeaderOf(was: Block, nos: seq<Word>): (h: Block)
    requires |nos| <= LOGSIZE
    ensures h.words[0] == |nos| && HeadNos(h) == nos
  {
    RawBlock(seq(WORDS_PER_BLOCK, i requires 0 <= i < WORDS_PER_BLOCK =>
      if i == 0 then |nos| else if i <= |nos| then nos[i - 1] else was.words[i]))
  }

  /** The two disks hold the same data outside the log. */
  predicate SameHome(d: Disk, e: Disk, area: LogArea) {
    |d| == |e| && forall b | 0 <= b < |d| && !InLog(b, area) :: d[b] == e[b]
  }

  /** `r` is `d` with block nos[i] holding vals[i], for every i at once, and nothing else changed. */
  predicate HasTransaction(r: Disk, d: Disk, area: LogArea, nos: seq<Word>, vals: seq<Block>)
    requires |nos| == |vals| && AllHome(nos, |d|, area)
  {
    && |r| == |d|
    && (forall i | 0 <= i < |nos| :: r[nos[i]] == vals[i])
    && (forall b | 0 <= b < |d| && !InLog(b, area) && b !in nos :: r[b] == d[b])
  }

  // ----- Block writes -----

  datatype Write = Write(block: Word, data: Block)

  predicate OnDisk(ws: seq<Write>, size: nat) {
    forall i | 0 <= i < |ws| :: ws[i].block < size
  }

  /** The disk after the first k of the writes `ws`. */
  function Play(d: Disk, ws: seq<Write>, k: nat): (r: Disk)
    requires OnDisk(ws, |d|) && k <= |ws|
    ensures |r| == |d|
  {
    if k == 0 then d else Play(d, ws, k - 1)[ws[k - 1].block := ws[k - 1].data]
  }

  lemma {:induction false} PlayElsewhere(d: Disk, ws: seq<Write>, k: nat, b: nat)
    requires OnDisk(ws, |d|) && k <= |ws| && b < |d|
    requires forall i | 0 <= i < k :: ws[i].block != b
    ensures Play(d, ws, k)[b] == d[b]
  {
    if k > 0 {
      PlayElsewhere(d, ws, k - 1, b);
    }
  }

  /** A block holds the last data written to it. */
  lemma {:induction false} PlayLast(d: Disk, ws: seq<Write>, k: nat, i: nat)
    requires OnDisk(ws, |d|) && i < k <= |ws|
    requires forall j | i < j < k :: ws[j].block != ws[i].block
    ensures Play(d, ws, k)[ws[i].block] == ws[i].data
  {
    if i < k - 1 {
      PlayLast(d, ws, k - 1, i);
    }
  }

  /** A block on which two disks agree, or which is overwritten, comes out the same from both. */
  lemma {:induction false} PlayAgree(d: Disk, e: Disk, ws: seq<Write>, k: nat, b: nat)
    requires OnDisk(ws, |d|) && |d| == |e| && k <= |ws| && b < |d|
    requires d[b] == e[b] || exists i :: 0 <= i < k && ws[i].block == b
    ensures Play(d, ws, k)[b] == Play(e, ws, k)[b]
  {
    if k > 0 && ws[k - 1].block != b {
      PlayAgree(d, e, ws, k - 1, b);
    }
  }

  /** Only the writes played matter. */
  lemma {:induction false} PlayPrefix(d: Disk, ws: seq<Write>, vs: seq<Write>, k: nat)
    requires OnDisk(ws, |d|) && OnDisk(vs, |d|) && k <= |ws| && k <= |vs|
    requires forall i | 0 <= i < k :: ws[i] == vs[i]
    ensures Play(d, ws, k) == Play(d, vs, k)
  {
    if k > 0 {
      PlayPrefix(d, ws, vs, k - 1);
    }
  }

  lemma {:induction false} PlayAppend(d: Disk, v: seq<Write>, w: seq<Write>, k: nat)
    requires OnDisk(v, |d|) && OnDisk(w, |d|) && k <= |w|
    ensures OnDisk(v + w, |d|)
    ensures Play(d, v + w, |v| + k) == Play(Play(d, v, |v|), w, k)
  {
    if k == 0 {
      PlayPrefix(d, v, v + w, |v|);
    } else {
      PlayAppend(d, v, w, k - 1);
    }
  }

  // ----- The writes of recovery and of commit -----

  /** install_trans: copy each log block to the home block that nos names. */
  function InstallWrites(d: Disk, area: LogArea, nos: seq<Word>): (ws: seq<Write>)
    requires Fits(d, area) && AllHome(nos, |d|, area)
    ensures |ws| == |nos| && OnDisk(ws, |d|)
  {
    seq(|nos|, i requires 0 <= i < |nos| => Write(nos[i], d[area.start + 1 + i]))
  }

  /** recover_from_log */
  function RecoveryWrites(d: Disk, area: LogArea): (ws: seq<Write>)
    requires GoodHead(d, area)
    ensures |ws| == d[area.start].words[0] + 1 && OnDisk(ws, |d|)
  {
    InstallWrites(d, area, HeadNos(d[area.start])) + [Write(area.start, HeaderOf(d[area.start], []))]
  }

  /** The disk that a completed recovery leaves. */
  function Recovered(d: Disk, area: LogArea): (r: Disk)
    requires GoodHead(d, area)
    ensures |r| == |d|
  {
    Play(d, RecoveryWrites(d, area), d[area.start].words[0] + 1)
  }

  /** write_log: put each value in the log. */
  function LogWrites(area: LogArea, vals: seq<Block>): (ws: seq<Write>)
    requires |vals| <= Capacity(area) && Addressable(area)
    ensures |ws| == |vals|
  {
    seq(|vals|, i requires 0 <= i < |vals| => Write(area.start + 1 + i, vals[i]))
  }

  /** write_log followed by the header write that commits. */
  function LoggingWrites(h: Block, area: LogArea, nos: seq<Word>, vals: seq<Block>): (ws: seq<Write>)
    requires |nos| == |vals| <= Capacity(area) && Addressable(area)
    ensures |ws| == |nos| + 1
  {
    LogWrites(area, vals) + [Write(area.start, HeaderOf(h, nos))]
  }

  /** Put each value in its home block. */
  function HomeWrites(nos: seq<Word>, vals: seq<Block>): (ws: seq<Write>)
    requires |nos| == |vals|
    ensures |ws| == |nos|
  {
    seq(|nos|, i requires 0 <= i < |nos| => Write(nos[i], vals[i]))
  }

  /** commit: the log, the header, the home blocks, the cleared header. */
  function CommitWrites(h: Block, area: LogArea, nos: seq<Word>, vals: seq<Block>): (ws: seq<Write>)
    requires |nos| == |vals| <= Capacity(area) && Addressable(area)
    ensures |ws| == 2 * |nos| + 2
  {
    LoggingWrites(h, area, nos, vals)
    + (HomeWrites(nos, vals) + [Write(area.start, HeaderOf(HeaderOf(h, nos), []))])
  }

  // ----- Recovery -----

  /** Part of a recovery leaves the log, header included, as it was. */
  lemma {:induction false} InstallKeepsLog(d: Disk, area: LogArea, j: nat, b: nat)
    requires GoodHead(d, area) && j <= d[area.start].words[0] && b < |d| && InLog(b, area)
    ensures Play(d, RecoveryWrites(d, area), j)[b] == d[b]
  {
    PlayElsewhere(d, RecoveryWrites(d, area), j, b);
  }

  /** A completed recovery leaves an empty log, so recovering again changes nothing. */
  lemma {:induction false} RecoveredIsClean(d: Disk, area: LogArea)
    requires GoodHead(d, area)
    ensures var r := Recovered(d, area);
            r[area.start] == HeaderOf(d[area.start], []) && GoodHead(r, area) && Recovered(r, area) == r
  {
    var ws := RecoveryWrites(d, area);
    PlayLast(d, ws, |ws|, |ws| - 1);
    var r := Recovered(d, area);
    var h := r[area.start];
    assert HeaderOf(h, []) == h;
    assert RecoveryWrites(r, area) == [Write(area.start, h)];
    assert Play(r, [Write(area.start, h)], 1) == Play(r, [Write(area.start, h)], 0)[area.start := h] == r;
  }

  /** A recovery interrupted after any number of writes and then redone gives the same disk. */
  lemma {:induction false} RecoveryRestarts(d: Disk, area: LogArea, j: nat)
    requires GoodHead(d, area) && j <= |RecoveryWrites(d, area)|
    ensures GoodHead(Play(d, RecoveryWrites(d, area), j), area)
    ensures Recovered(Play(d, RecoveryWrites(d, area), j), area) == Recovered(d, area)
  {
    var ws := RecoveryWrites(d, area);
    if j == |ws| {
      RecoveredIsClean(d, area);
    } else {
      var e := Play(d, ws, j);
      forall b | 0 <= b < |d| && InLog(b, area) ensures e[b] == d[b] {
        InstallKeepsLog(d, area, j, b);
      }
      assert InLog(area.start, area);
      assert RecoveryWrites(e, area) == ws;
      forall b | 0 <= b < |d| ensures Play(d, ws, |ws|)[b] == Play(e, ws, |ws|)[b] {
        if forall i | 0 <= i < j :: ws[i].block != b {
          PlayElsewhere(d, ws, j, b);
        }
        PlayAgree(d, e, ws, |ws|, b);
      }
      assert Play(d, ws, |ws|) == Play(e, ws, |ws|);
    }
  }

  /** Recovery gives every block named once its log block. */
  lemma {:induction false} RecoveredNamed(d: Disk, area: LogArea, nos: seq<Word>, i: nat)
    requires GoodHead(d, area) && nos == HeadNos(d[area.start]) && Distinct(nos) && i < |nos|
    ensures Recovered(d, area)[nos[i]] == d[area.start + 1 + i]
  {
    forall j | i < j < |nos| ensures nos[j] != nos[i] {
      DistinctAt(nos, |nos|, i, j);
    }
    PlayLast(d, RecoveryWrites(d, area), |nos| + 1, i);
  }

  /** Recovery leaves blocks the header does not name alone. */
  lemma {:induction false} RecoveredUnnamed(d: Disk, area: LogArea, nos: seq<Word>, b: nat)
    requires GoodHead(d, area) && nos == HeadNos(d[area.start])
    requires b < |d| && b != area.start && b !in nos
    ensures Recovered(d, area)[b] == d[b]
  {
    PlayElsewhere(d, RecoveryWrites(d, area), |nos| + 1, b);
  }

  /** With an empty log on disk, recovery keeps every home block. */
  lemma {:induction false} EmptyLogRecovers(d: Disk, area: LogArea)
    requires Fits(d, area) && d[area.start].words[0] == 0
    ensures GoodHead(d, area) && HeadNos(d[area.start]) == [] && SameHome(Recovered(d, area), d, area)
  {
    forall b | 0 <= b < |d| && !InLog(b, area) ensures Recovered(d, area)[b] == d[b] {
      RecoveredUnnamed(d, area, [], b);
    }
  }

  /** Installing one more block does not change what recovery yields. */
  lemma {:induction false} InstallOneMore(d: Disk, area: LogArea, i: nat)
    requires GoodHead(d, area) && i < d[area.start].words[0]
    ensures var e := d[HeadNos(d[area.start])[i] := d[area.start + 1 + i]];
            GoodHead(e, area) && e[area.start] == d[area.start] && Recovered(e, area) == Recovered(d, area)
  {
    var ws := RecoveryWrites(d, area);
    var e := d[ws[i].block := ws[i].data];
    assert RecoveryWrites(e, area) == ws;
    forall b | 0 <= b < |d| ensures Play(d, ws, |ws|)[b] == Play(e, ws, |ws|)[b] {
      assert ws[i].block == b || d[b] == e[b];
      PlayAgree(d, e, ws, |ws|, b);
    }
    assert Play(d, ws, |ws|) == Play(e, ws, |ws|);
  }

  /** Once every logged block is home, recovery would change no home block. */
  lemma {:induction false} AllInstalled(d: Disk, area: LogArea)
    requires GoodHead(d, area) && Distinct(HeadNos(d[area.start]))
    requires forall i | 0 <= i < d[area.start].words[0] :: d[HeadNos(d[area.start])[i]] == d[area.start + 1 + i]
    ensures SameHome(d, Recovered(d, area), area)
  {
    var nos := HeadNos(d[area.start]);
    forall b | 0 <= b < |d| && !InLog(b, area) ensures d[b] == Recovered(d, area)[b] {
      if b in nos {
        var i :| 0 <= i < |nos| && nos[i] == b;
        RecoveredNamed(d, area, nos, i);
      } else {
        RecoveredUnnamed(d, area, nos, b);
      }
    }
  }

  /** Writing a header that names exactly the blocks where the disk lags behind `cur`, when the log
      holds their contents, makes `cur` the recovered state. */
  lemma {:induction false} HeaderMakesDurable(d: Disk, area: LogArea, nos: seq<Word>, cur: Disk)
    requires Fits(d, area) && AllHome(nos, |d|, area) && Distinct(nos) && |cur| == |d|
    requires forall i | 0 <= i < |nos| :: d[area.start + 1 + i] == cur[nos[i]]
    requires forall b | 0 <= b < |d| && !InLog(b, area) && b !in nos :: d[b] == cur[b]
    ensures var e := d[area.start := HeaderOf(d[area.start], nos)];
            GoodHead(e, area) && HeadNos(e[area.start]) == nos && SameHome(Recovered(e, area), cur, area)
  {
    var e := d[area.start := HeaderOf(d[area.start], nos)];
    forall b | 0 <= b < |d| && !InLog(b, area) ensures Recovered(e, area)[b] == cur[b] {
      if b in nos {
        var i :| 0 <= i < |nos| && nos[i] == b;
        RecoveredNamed(e, area, nos, i);
      } else {
        RecoveredUnnamed(e, area, nos, b);
      }
    }
  }

  // ----- Crash atomicity -----

  /** Recovering `e` gives the whole transaction if `committed`, and none of it otherwise. */
  predicate RecoversTo(e: Disk, d: Disk, area: LogArea, nos: seq<Word>, vals: seq<Block>, committed: bool)
    requires |nos| == |vals| && AllHome(nos, |d|, area)
  {
    && GoodHead(e, area)
    && if committed then HasTransaction(Recovered(e, area), d, area, nos, vals)
       else SameHome(Recovered(e, area), d, area)
  }

  /** The disk right after the header write: a full log in front of untouched home blocks. */
  lemma {:induction false} HeaderWritten(d: Disk, area: LogArea, nos: seq<Word>, vals: seq<Block>)
    requires Fits(d, area) && AllHome(nos, |d|, area) && |nos| == |vals|
    ensures OnDisk(LoggingWrites(d[area.start], area, nos, vals), |d|)
    ensures var w := Play(d, LoggingWrites(d[area.start], area, nos, vals), |nos| + 1);
            && w[area.start] == HeaderOf(d[area.start], nos)
            && SameHome(w, d, area)
            && (forall i | 0 <= i < |nos| :: w[area.start + 1 + i] == vals[i])
  {
    var ws, n := LoggingWrites(d[area.start], area, nos, vals), |nos|;
    PlayLast(d, ws, n + 1, n);
    forall i | 0 <= i < n ensures Play(d, ws, n + 1)[area.start + 1 + i] == vals[i] {
      PlayLast(d, ws, n + 1, i);
    }
    forall b | 0 <= b < |d| && !InLog(b, area) ensures Play(d, ws, n + 1)[b] == d[b] {
      PlayElsewhere(d, ws, n + 1, b);
    }
  }

  /** Past its header write, commit makes the very writes a recovery would make. */
  lemma {:induction false} CommitEndsAsRecovery(d: Disk, area: LogArea, nos: seq<Word>, vals: seq<Block>)
    requires Fits(d, area) && AllHome(nos, |d|, area) && |nos| == |vals|
    ensures OnDisk(LoggingWrites(d[area.start], area, nos, vals), |d|)
    ensures var w := Play(d, LoggingWrites(d[area.start], area, nos, vals), |nos| + 1);
            && GoodHead(w, area)
            && CommitWrites(d[area.start], area, nos, vals)
               == LoggingWrites(d[area.start], area, nos, vals) + RecoveryWrites(w, area)
  {
    HeaderWritten(d, area, nos, vals);
    var w := Play(d, LoggingWrites(d[area.start], area, nos, vals), |nos| + 1);
    assert HomeWrites(nos, vals) == InstallWrites(w, area, nos);
  }

  /** Once the header is written, recovery yields the whole transaction. */
  lemma {:induction false} CommittedRecovers(d: Disk, area: LogArea, nos: seq<Word>, vals: seq<Block>)
    requires Fits(d, area) && AllHome(nos, |d|, area) && Distinct(nos) && |nos| == |vals|
    ensures OnDisk(LoggingWrites(d[area.start], area, nos, vals), |d|)
    ensures RecoversTo(Play(d, LoggingWrites(d[area.start], area, nos, vals), |nos| + 1), d, area, nos, vals, true)
  {
    HeaderWritten(d, area, nos, vals);
    var w := Play(d, LoggingWrites(d[area.start], area, nos, vals), |nos| + 1);
    forall i | 0 <= i < |nos| ensures Recovered(w, area)[nos[i]] == vals[i] {
      RecoveredNamed(w, area, nos, i);
    }
    forall b | 0 <= b < |d| && !InLog(b, area) && b !in nos ensures Recovered(w, area)[b] == d[b] {
      RecoveredUnnamed(w, area, nos, b);
    }
  }

  /** Cut off before the header write, commit has changed nothing that recovery would look at. */
  lemma {:induction false} CutBeforeHeader(d: Disk, area: LogArea, nos: seq<Word>, vals: seq<Block>, ws: seq<Write>, j: nat)
    requires Fits(d, area) && d[area.start].words[0] == 0
    requires AllHome(nos, |d|, area) && |nos| == |vals| && j <= |nos|
    requires ws == CommitWrites(d[area.start], area, nos, vals) && OnDisk(ws, |d|)
    ensures RecoversTo(Play(d, ws, j), d, area, nos, vals, false)
  {
    forall i | 0 <= i < j ensures ws[i].block == area.start + 1 + i {
      assert ws[i] == LogWrites(area, vals)[i];
    }
    PlayElsewhere(d, ws, j, area.start);
    EmptyLogRecovers(Play(d, ws, j), area);
    forall b | 0 <= b < |d| && !InLog(b, area) ensures Play(d, ws, j)[b] == d[b] {
      PlayElsewhere(d, ws, j, b);
    }
  }

  lemma {:induction false} TransactionCarriesOver(e: Disk, w: Disk, d: Disk, area: LogArea, nos: seq<Word>, vals: seq<Block>)
    requires |nos| == |vals| && AllHome(nos, |d|, area)
    requires RecoversTo(w, d, area, nos, vals, true)
    requires GoodHead(e, area) && Recovered(e, area) == Recovered(w, area)
    ensures RecoversTo(e, d, area, nos, vals, true)
  {
  }

  lemma {:induction false} CutInRecovery(d: Disk, area: LogArea, head: seq<Write>, w: Disk, ws: seq<Write>, k: nat)
    requires OnDisk(head, |d|) && w == Play(d, head, |head|) && GoodHead(w, area)
    requires ws == head + RecoveryWrites(w, area) && OnDisk(ws, |d|) && k <= |RecoveryWrites(w, area)|
    ensures GoodHead(Play(d, ws, |head| + k), area)
    ensures Recovered(Play(d, ws, |head| + k), area) == Recovered(w, area)
  {
    PlayAppend(d, head, RecoveryWrites(w, area), k);
    RecoveryRestarts(w, area, k);
  }

  /** Cut off later, a commit that logged with the writes `head` is at some point of a recovery. */
  lemma {:induction false} CutAfterHead(d: Disk, area: LogArea, nos: seq<Word>, vals: seq<Block>,
                                        head: seq<Write>, w: Disk, ws: seq<Write>, k: nat)
    requires |nos| == |vals| && AllHome(nos, |d|, area)
    requires OnDisk(head, |d|) && w == Play(d, head, |head|) && RecoversTo(w, d, area, nos, vals, true)
    requires ws == head + RecoveryWrites(w, area) && OnDisk(ws, |d|) && k <= |RecoveryWrites(w, area)|
    ensures RecoversTo(Play(d, ws, |head| + k), d, area, nos, vals, true)
  {
    CutInRecovery(d, area, head, w, ws, k);
    TransactionCarriesOver(Play(d, ws, |head| + k), w, d, area, nos, vals);
  }

  lemma {:induction false} CutAfterHeader(d: Disk, area: LogArea, nos: seq<Word>, vals: seq<Block>, ws: seq<Write>, j: nat)
    requires Fits(d, area)
    requires AllHome(nos, |d|, area) && Distinct(nos) && |nos| == |vals| && |nos| < j <= 2 * |nos| + 2
    requires ws == CommitWrites(d[area.start], area, nos, vals) && OnDisk(ws, |d|)
    ensures RecoversTo(Play(d, ws, j), d, area, nos, vals, true)
  {
    var head := LoggingWrites(d[area.start], area, nos, vals);
    CommitEndsAsRecovery(d, area, nos, vals);
    CommittedRecovers(d, area, nos, vals);
    CutAfterHead(d, area, nos, vals, head, Play(d, head, |nos| + 1), ws, j - |head|);
  }

  /** Each disk of the chain is what a crash in the middle of recovering the one before leaves. */
  ghost predicate CrashChain(chain: seq<Disk>, area: LogArea)
    requires |chain| > 0
  {
    && GoodHead(chain[0], area)
    && (|chain| > 1 ==> Interrupted(chain[0], chain[1], area) && CrashChain(chain[1..], area))
  }

  ghost predicate Interrupted(d: Disk, e: Disk, area: LogArea)
    requires GoodHead(d, area)
  {
    exists j: nat | j <= |RecoveryWrites(d, area)| :: e == Play(d, RecoveryWrites(d, area), j)
  }

  lemma {:induction false} ChainRecovers(chain: seq<Disk>, area: LogArea)
    requires |chain| > 0 && CrashChain(chain, area)
    ensures GoodHead(chain[|chain| - 1], area)
    ensures Recovered(chain[|chain| - 1], area) == Recovered(chain[0], area)
  {
    if |chain| > 1 {
      ChainRecovers(chain[1..], area);
      var j: nat :| j <= |RecoveryWrites(chain[0], area)|
                 && chain[1] == Play(chain[0], RecoveryWrites(chain[0], area), j);
      RecoveryRestarts(chain[0], area, j);
    }
  }

  /** Crash atomicity: commit is cut off after any number j of its writes, any number of recoveries
      are themselves cut off anywhere, then one recovery completes. It yields the whole
      transaction if the header was written, and none of it otherwise. */
  lemma {:induction false} CrashAtomicity(d: Disk, area: LogArea, nos: seq<Word>, vals: seq<Block>, j: nat, chain: seq<Disk>)
    requires Fits(d, area) && d[area.start].words[0] == 0
    requires AllHome(nos, |d|, area) && Distinct(nos) && |nos| == |vals| && j <= 2 * |nos| + 2
    requires OnDisk(CommitWrites(d[area.start], area, nos, vals), |d|)
    requires |chain| > 0 && CrashChain(chain, area)
    requires chain[0] == Play(d, CommitWrites(d[area.start], area, nos, vals), j)
    ensures GoodHead(chain[|chain| - 1], area)
    ensures j <= |nos| ==> SameHome(Recovered(chain[|chain| - 1], area), d, area)
    ensures j > |nos| ==> HasTransaction(Recovered(chain[|chain| - 1], area), d, area, nos, vals)
    ensures Recovered(chain[|chain| - 1], area)[area.start].words[0] == 0
  {
    if j <= |nos| {
      CutBeforeHeader(d, area, nos, vals, CommitWrites(d[area.start], area, nos, vals), j);
    } else {
      CutAfterHeader(d, area, nos, vals, CommitWrites(d[area.start], area, nos, vals), j);
    }
    ChainRecovers(chain, area);
    RecoveredIsClean(chain[0], area);
  }
}
