/** log.c as it runs: the in-memory header, the cached buffers it reads and writes through, and
    the loops of commit and recovery. `writes` records every block write in order, so a crash
    after k more of them leaves what Play gives. */
module Log {
  import opened DiskModel
  import opened RedoLog

  lemma {:induction false} LoggingPlays(d: Disk, area: LogArea, nos: seq<Word>, vals: seq<Block>)
    requires Fits(d, area) && |nos| == |vals| <= Capacity(area)
    ensures OnDisk(LogWrites(area, vals), |d|) && OnDisk(LoggingWrites(d[area.start], area, nos, vals), |d|)
    ensures Play(d, LoggingWrites(d[area.start], area, nos, vals), |nos| + 1)
         == Play(d, LogWrites(area, vals), |nos|)[area.start := HeaderOf(d[area.start], nos)]
  {
    PlayPrefix(d, LogWrites(area, vals), LoggingWrites(d[area.start], area, nos, vals), |nos|);
  }

  /** Recovery is the installing writes and then the cleared header. */
  lemma {:induction false} ClearingPlays(d: Disk, area: LogArea, nos: seq<Word>)
    requires GoodHead(d, area) && nos == HeadNos(d[area.start])
    ensures Recovered(d, area) == Play(d, InstallWrites(d, area, nos), |nos|)[area.start := HeaderOf(d[area.start], [])]
    ensures RecoveryWrites(d, area) == InstallWrites(d, area, nos) + [Write(area.start, HeaderOf(d[area.start], []))]
  {
    PlayPrefix(d, InstallWrites(d, area, nos), RecoveryWrites(d, area), |nos|);
  }

  /** The disk at the commit point, and what is left to do from there. */
  lemma {:induction false} CommitFacts(d: Disk, area: LogArea, nos: seq<Word>, vals: seq<Block>, head: seq<Write>)
    requires Fits(d, area) && AllHome(nos, |d|, area) && Distinct(nos) && |nos| == |vals|
    requires head == LoggingWrites(d[area.start], area, nos, vals)
    ensures OnDisk(head, |d|)
    ensures var w := Play(d, head, |nos| + 1);
            && GoodHead(w, area) && w[area.start].words[0] == |nos| && HeadNos(w[area.start]) == nos
            && HasTransaction(Recovered(w, area), d, area, nos, vals)
            && CommitWrites(d[area.start], area, nos, vals) == head + RecoveryWrites(w, area)
  {
    CommitEndsAsRecovery(d, area, nos, vals);
    HeaderWritten(d, area, nos, vals);
    CommittedRecovers(d, area, nos, vals);
  }

  /** Every cached block agrees with the disk, except perhaps entries i, i + 1, ... of nos. */
  ghost predicate CleanFrom(cache: map<Word, Block>, disk: Disk, nos: seq<Word>, i: nat) {
    forall b | b in cache && (b < |disk| ==> cache[b] != disk[b]) :: exists j :: i <= j < |nos| && nos[j] == b
  }

  /** Copying a block that agrees with the disk to entry i makes that entry agree. */
  lemma {:induction false} CleanNext(cache: map<Word, Block>, disk: Disk, nos: seq<Word>, i: nat, src: Word)
    requires CleanFrom(cache, disk, nos, i) && i < |nos| && nos[i] < |disk| && src < |disk| && src != nos[i]
    requires src in cache ==> cache[src] == disk[src]
    ensures CleanFrom(cache[src := disk[src]][nos[i] := disk[src]], disk[nos[i] := disk[src]], nos, i + 1)
  {
    var cache', disk' := cache[src := disk[src]][nos[i] := disk[src]], disk[nos[i] := disk[src]];
    forall b | b in cache' && (b < |disk'| ==> cache'[b] != disk'[b])
      ensures exists j :: i + 1 <= j < |nos| && nos[j] == b
    {
      assert b in cache && (b < |disk| ==> cache[b] != disk[b]);
    }
  }

  /** Copying a listed block's cached contents to a block outside the list keeps the rest as it is. */
  lemma {:induction false} CleanCopy(cache: map<Word, Block>, disk: Disk, nos: seq<Word>, i: nat, src: Word, dst: Word)
    requires CleanFrom(cache, disk, nos, i) && src in cache && dst < |disk| && dst !in nos
    ensures CleanFrom(cache[src := cache[src]][dst := cache[src]], disk[dst := cache[src]], nos, i)
  {
    var cache', disk' := cache[src := cache[src]][dst := cache[src]], disk[dst := cache[src]];
    forall b | b in cache' && (b < |disk'| ==> cache'[b] != disk'[b])
      ensures exists j :: i <= j < |nos| && nos[j] == b
    {
      assert b in cache && (b < |disk| ==> cache[b] != disk[b]);
    }
  }

  /** A block outside the list agrees with the disk if it is cached. */
  lemma {:induction false} CleanOutside(cache: map<Word, Block>, disk: Disk, nos: seq<Word>, i: nat, b: Word)
    requires CleanFrom(cache, disk, nos, i) && b < |disk| && b !in nos && b in cache
    ensures cache[b] == disk[b]
  {
  }

  datatype LogWriteResult = Logged | TooBig | OutsideTransaction

  class RedoLogger {
    const area: LogArea            // log.start and log.size
    const block: array<Word>       // log.lh.block
    var n: nat                     // log.lh.n
    var outstanding: nat           // log.outstanding
    var disk: Disk
    var cache: map<Word, Block>    // contents of the valid buffers
    ghost var nos: seq<Word>       // block[..n]
    ghost var writes: seq<Write>   // every block write so far

    ghost predicate Shape()
      reads this, block
    {
      && block.Length == LOGSIZE && n <= LOGSIZE && nos == block[..n]
      && Fits(disk, area)
      && AllHome(nos, |disk|, area)
    }

    /** Every cached block agrees with the disk, except perhaps entries i, i + 1, ... of the log list. */
    ghost predicate CleanBut(i: nat)
      reads this
    {
      CleanFrom(cache, disk, nos, i)
    }

    /** Between commits: the log on disk is empty, and the logged blocks stay cached. */
    ghost predicate Valid()
      reads this, block
    {
      && Shape() && disk[area.start].words[0] == 0
      && Distinct(nos)
      && (forall i | 0 <= i < |nos| :: nos[i] in cache)
      && CleanBut(0)
    }

    /** What bread would return. */
    ghost function View(b: Word): Block
      reads this
      requires b < |disk|
    {
      if b in cache then cache[b] else disk[b]
    }

    /** vals are the current contents of the logged blocks, in header order. */
    ghost predicate Pending(vals: seq<Block>)
      reads this
    {
      |vals| == |nos| && forall i | 0 <= i < |nos| :: nos[i] in cache && vals[i] == cache[nos[i]]
    }

    /** The first k of the writes `ws` have been made on disk d. */
    ghost predicate Made(d: Disk, ws: seq<Write>, k: nat, before: seq<Write>)
      reads this
    {
      k <= |ws| && OnDisk(ws, |d|) && disk == Play(d, ws, k) && writes == before + ws[..k]
    }

    /** initlog before it recovers: nothing cached and nothing logged. */
    constructor (area: LogArea, disk: Disk)
      ensures this.area == area && this.disk == disk
      ensures block.Length == LOGSIZE && nos == [] && n == 0 && outstanding == 0 && CleanBut(0)
    {
      this.area, this.disk := area, disk;
      block := new Word[LOGSIZE](_ => 0);
      n, outstanding, cache, nos, writes := 0, 0, map[], [], [];
    }

    method Bread(b: Word) returns (v: Block)
      requires b < |disk|
      modifies `cache
      ensures v == old(View(b)) && cache == old(cache)[b := v]
    {
      if b !in cache {
        cache := cache[b := disk[b]];
      }
      v := cache[b];
    }

    method Bwrite(b: Word, v: Block)
      requires b < |disk|
      modifies `cache, `disk, `writes
      ensures disk == old(disk)[b := v] && cache == old(cache)[b := v]
      ensures writes == old(writes) + [Write(b, v)]
    {
      disk := disk[b := v];
      cache := cache[b := v];
      writes := writes + [Write(b, v)];
    }

    /** The body of both copying loops: read two buffers, copy one to the other, write it out. */
    method CopyBlock(src: Word, dst: Word)
      requires src < |disk| && dst < |disk|
      modifies `cache, `disk, `writes
      ensures disk == old(disk)[dst := old(View(src))]
      ensures cache == old(cache)[src := old(View(src))][dst := old(View(src))]
      ensures writes == old(writes) + [Write(dst, old(View(src)))]
    {
      var from := Bread(src);
      var to := Bread(dst);
      to := from;
      Bwrite(dst, to);
    }

    ghost predicate Installing(d: Disk, tail: nat, before: seq<Write>)
      reads this
    {
      && Fits(d, area) && AllHome(nos, |d|, area) && tail <= |nos|
      && Made(d, InstallWrites(d, area, nos), tail, before)
      && CleanBut(tail)
      && (forall b | 0 <= b < |d| && InLog(b, area) :: disk[b] == d[b])
    }

    method InstallOne(tail: nat, ghost d: Disk, ghost before: seq<Write>)
      requires Shape() && Installing(d, tail, before) && tail < n
      modifies `cache, `disk, `writes
      ensures Installing(d, tail + 1, before)
    {
      hide OnDisk, CleanFrom;
      var src: Word := area.start + tail + 1;
      assert InLog(src, area) && block[tail] == nos[tail];
      if src in cache {
        CleanOutside(cache, disk, nos, tail, src);
      }
      CleanNext(cache, disk, nos, tail, src);
      CopyBlock(src, block[tail]);
    }

    /** install_trans */
    method InstallTrans()
      requires Shape() && CleanBut(0)
      modifies `cache, `disk, `writes
      ensures Shape() && Installing(old(disk), n, old(writes))
    {
      hide CleanFrom;
      ghost var d, before := disk, writes;
      for tail := 0 to n
        invariant Shape() && Installing(d, tail, before)
      {
        InstallOne(tail, d, before);
      }
    }

    /** read_head */
    method ReadHead()
      requires block.Length == LOGSIZE && GoodHead(disk, area) && nos == [] && CleanBut(0)
      modifies `cache, `n, `nos, block
      ensures Shape() && CleanBut(|nos|)
      ensures n == disk[area.start].words[0] && nos == HeadNos(disk[area.start])
    {
      var buf := Bread(area.start);
      n := buf.words[0];
      for i := 0 to n
        modifies block
        invariant block[..i] == buf.words[1..1 + i]
      {
        block[i] := buf.words[i + 1];
      }
      assert forall b | b in cache :: b < |disk| && cache[b] == disk[b];
      nos := block[..n];
    }

    /** write_head */
    method WriteHead()
      requires Shape() && (area.start in cache ==> cache[area.start] == disk[area.start])
      modifies `cache, `disk, `writes
      ensures disk == old(disk)[area.start := HeaderOf(old(disk)[area.start], nos)]
      ensures cache == old(cache)[area.start := disk[area.start]]
      ensures writes == old(writes) + [Write(area.start, disk[area.start])]
    {
      var was := Bread(area.start);
      var hb := was.words[0 := n];
      for i := 0 to n
        invariant |hb| == WORDS_PER_BLOCK && hb[0] == n
        invariant forall j | 1 <= j < WORDS_PER_BLOCK :: hb[j] == if j <= i then block[j - 1] else was.words[j]
      {
        hb := hb[i + 1 := block[i]];
      }
      assert hb == HeaderOf(was, nos).words;
      Bwrite(area.start, RawBlock(hb));
    }

    /** Finish a recovery, or a commit whose header is written: install, then clear the header. */
    method InstallAndClear()
      requires Shape() && CleanBut(0)
      requires GoodHead(disk, area) && n == disk[area.start].words[0] && nos == HeadNos(disk[area.start])
      modifies `cache, `disk, `writes, `n, `nos
      ensures Valid() && n == 0
      ensures disk == Recovered(old(disk), area)
      ensures writes == old(writes) + RecoveryWrites(old(disk), area)
    {
      hide OnDisk, Play, Recovered, RecoveryWrites, InstallWrites;
      ghost var d, ws, k := disk, InstallWrites(disk, area, nos), n;
      ClearingPlays(d, area, nos);
      InstallTrans();
      assert ws[..k] == ws && InLog(area.start, area);
      n, nos := 0, [];
      WriteHead();
    }

    /** recover_from_log: makes exactly the recovery's writes and leaves the recovered disk. */
    method RecoverFromLog()
      requires block.Length == LOGSIZE && GoodHead(disk, area) && nos == [] && CleanBut(0)
      modifies `cache, `disk, `writes, `n, `nos, block
      ensures Valid() && n == 0
      ensures disk == Recovered(old(disk), area)
      ensures writes == old(writes) + RecoveryWrites(old(disk), area)
    {
      ReadHead();
      InstallAndClear();
    }

    ghost predicate Logging(d: Disk, vals: seq<Block>, tail: nat, before: seq<Write>)
      reads this, block
    {
      && Valid() && Pending(vals) && |d| == |disk| && disk[area.start] == d[area.start]
      && Made(d, LogWrites(area, vals), tail, before)
    }

    method LogOne(tail: nat, ghost d: Disk, ghost vals: seq<Block>, ghost before: seq<Write>)
      requires Logging(d, vals, tail, before) && tail < n
      modifies `cache, `disk, `writes
      ensures Logging(d, vals, tail + 1, before)
    {
      hide Distinct, OnDisk, CleanFrom;
      var dst: Word := area.start + tail + 1;
      assert InLog(dst, area) && block[tail] == nos[tail];
      CleanCopy(cache, disk, nos, 0, block[tail], dst);
      CopyBlock(block[tail], dst);
    }

    /** write_log */
    method WriteLog(ghost vals: seq<Block>)
      requires Valid() && Pending(vals)
      modifies `cache, `disk, `writes
      ensures Shape() && CleanBut(0) && |disk| == |old(disk)| && disk[area.start] == old(disk)[area.start]
      ensures OnDisk(LogWrites(area, vals), |old(disk)|)
      ensures disk == Play(old(disk), LogWrites(area, vals), n)
      ensures writes == old(writes) + LogWrites(area, vals)
    {
      hide CleanFrom, Distinct;
      ghost var d, before := disk, writes;
      for tail := 0 to n
        invariant Logging(d, vals, tail, before)
      {
        LogOne(tail, d, vals, before);
      }
      assert LogWrites(area, vals)[..n] == LogWrites(area, vals);
    }

    /** The part of commit up to and including its commit point. */
    method LogAndWriteHead(ghost vals: seq<Block>)
      requires Valid() && Pending(vals)
      modifies `cache, `disk, `writes
      ensures Shape() && CleanBut(0)
      ensures OnDisk(LoggingWrites(old(disk)[area.start], area, nos, vals), |old(disk)|)
      ensures disk == Play(old(disk), LoggingWrites(old(disk)[area.start], area, nos, vals), n + 1)
      ensures writes == old(writes) + LoggingWrites(old(disk)[area.start], area, nos, vals)
    {
      LoggingPlays(disk, area, nos, vals);
      WriteLog(vals);
      assert InLog(area.start, area);
      WriteHead();
    }

    /** commit: makes exactly the writes CommitWrites lists, in order. */
    method Commit(ghost vals: seq<Block>)
      requires Valid() && Pending(vals)
      modifies `cache, `disk, `writes, `n, `nos
      ensures Valid() && n == 0
      ensures old(n) == 0 ==> disk == old(disk) && writes == old(writes)
      ensures old(n) > 0 ==>
                && writes == old(writes) + CommitWrites(old(disk)[area.start], area, old(nos), vals)
                && HasTransaction(disk, old(disk), area, old(nos), vals)
    {
      hide Play, Recovered, LoggingWrites, RecoveryWrites, CommitWrites, HasTransaction, OnDisk, HeadNos;
      if n > 0 {
        ghost var head := LoggingWrites(disk[area.start], area, nos, vals);
        CommitFacts(disk, area, nos, vals, head);
        LogAndWriteHead(vals);
        InstallAndClear();
      }
    }

    /** A file-system operation changes the buffer of block b and calls log_write on it. */
    method LogWrite(b: Word, data: Block) returns (r: LogWriteResult)
      requires Valid() && b < |disk| && !InLog(b, area)
      modifies `cache, `n, `nos, block
      ensures r.TooBig? <==> old(n) >= LOGSIZE || old(n) >= area.size - 1
      ensures r.OutsideTransaction? <==> !r.TooBig? && outstanding < 1
      ensures r.Logged? ==>
                && Valid()
                && cache == old(cache)[b := data]
                && nos == if b in old(nos) then old(nos) else old(nos) + [b]
    {
      if n >= LOGSIZE || n >= area.size - 1 {
        return TooBig;
      }
      if outstanding < 1 {
        return OutsideTransaction;
      }
      var i := 0;
      while i < n && block[i] != b
        invariant 0 <= i <= n
        invariant b !in block[..i]
      {
        i := i + 1;
      }
      block[i] := b;
      if i == n {
        n := n + 1;
      }
      cache := cache[b := data];
      nos := block[..n];
      assert nos == if b in old(nos) then old(nos) else old(nos) + [b];
      if i == old(n) {
        DistinctPrefix(old(nos), nos, i);
        assert nos[i] == b;
      }
      return LogWriteResult.Logged;
    }
  }
}
