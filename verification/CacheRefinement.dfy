/** The buffer cache of bio.c under the log: what BufferCache does to its NBUF buffers is what CommitMachine's steps do to
    the map of cached blocks and the sets of dirty and held ones, and bget panics exactly where Hold does. */
module CacheRefinement {
  import opened DiskModel
  import B = BufferCache
  import M = CommitMachine

  const DEV: Word := 1   // ROOTDEV

  /** A buffer that somebody has and that is yet to be filled stands for what the disk holds. */
  predicate Shown(buf: B.Buf) {
    buf.valid || buf.refcnt > 0
  }

  /** Block b is cached, dirty, held and on disk in s as it is in the buffers. */
  predicate At(bufs: seq<B.Buf>, disk: map<B.Key, Block>, s: M.State, b: Word) {
    var i := B.Find(bufs, (DEV, b));
    && b < |s.disk| && (DEV, b) in disk && disk[(DEV, b)] == s.disk[b]
    && (b in s.cache <==> i < |bufs| && Shown(bufs[i]))
    && (b in s.cache && i < |bufs| ==> s.cache[b] == if bufs[i].valid then bufs[i].data else s.disk[b])
    && (b in s.dirty <==> i < |bufs| && bufs[i].dirty)
    && (b in s.held <==> i < |bufs| && bufs[i].refcnt > 0)
  }

  ghost predicate Shows(bufs: seq<B.Buf>, disk: map<B.Key, Block>, s: M.State) {
    && (forall b: Word | b < |s.disk| :: At(bufs, disk, s, b))
    && (forall b | b in s.cache || b in s.dirty || b in s.held :: b < |s.disk|)
  }

  /** Readers of the buffers see what readers of s see. */
  lemma {:induction false} ViewAgrees(bufs: seq<B.Buf>, disk: map<B.Key, Block>, s: M.State, b: Word)
    requires Shows(bufs, disk, s) && b < |s.disk|
    ensures (DEV, b) in disk && B.View(bufs, disk, (DEV, b)) == M.View(s, b)
  {
    assert At(bufs, disk, s, b);
  }

  // ----- Where a block is found -----

  lemma {:induction false} FindFirst(bufs: seq<B.Buf>, key: B.Key, i: nat)
    requires i <= |bufs| && (i < |bufs| ==> B.KeyOf(bufs[i]) == key) && forall j | 0 <= j < i :: B.KeyOf(bufs[j]) != key
    ensures B.Find(bufs, key) == i
  {
  }

  lemma {:induction false} FindKept(bufs: seq<B.Buf>, i: nat, buf: B.Buf, key: B.Key)
    requires i < |bufs| && B.KeyOf(buf) == B.KeyOf(bufs[i])
    ensures B.Find(bufs[i := buf], key) == B.Find(bufs, key)
  {
    FindFirst(bufs[i := buf], key, B.Find(bufs, key));
  }

  lemma {:induction false} FindRecycled(bufs: seq<B.Buf>, i: nat, buf: B.Buf, b: Word)
    requires B.UniqueKeys(bufs) && i < |bufs| && B.Find(bufs, B.KeyOf(buf)) == |bufs|
    ensures B.Find(bufs[i := buf], (DEV, b)) ==
              if B.KeyOf(buf) == (DEV, b) then i else if B.KeyOf(bufs[i]) == (DEV, b) then |bufs| else B.Find(bufs, (DEV, b))
  {
    var j := B.Find(bufs, (DEV, b));
    if B.KeyOf(buf) == (DEV, b) {
      FindFirst(bufs[i := buf], (DEV, b), i);
    } else if B.KeyOf(bufs[i]) == (DEV, b) {
      B.FindIs(bufs, i);
      FindFirst(bufs[i := buf], (DEV, b), |bufs|);
    } else {
      FindFirst(bufs[i := buf], (DEV, b), j);
    }
  }

  /** Where buffer i's block is found. */
  lemma {:induction false} FoundAt(bufs: seq<B.Buf>, disk: map<B.Key, Block>, s: M.State, i: nat)
    requires Shows(bufs, disk, s) && B.UniqueKeys(bufs) && i < |bufs| && bufs[i].dev == DEV && bufs[i].blockno < |s.disk|
    ensures At(bufs, disk, s, bufs[i].blockno) && B.Find(bufs, (DEV, bufs[i].blockno)) == i
  {
    B.FindIs(bufs, i);
  }

  // ----- Steps -----

  /** A change of one buffer that keeps its block. */
  lemma {:induction false} ChangeShown(bufs: seq<B.Buf>, disk: map<B.Key, Block>, s: M.State, i: nat, buf: B.Buf, disk': map<B.Key, Block>, s': M.State)
    requires Shows(bufs, disk, s) && B.UniqueKeys(bufs) && i < |bufs| && bufs[i].dev == DEV && bufs[i].blockno < |s.disk|
    requires B.KeyOf(buf) == B.KeyOf(bufs[i]) && Shown(buf)
    requires |s'.disk| == |s.disk| && s'.disk == s.disk[buf.blockno := s'.disk[buf.blockno]]
    requires disk' == disk[(DEV, buf.blockno) := s'.disk[buf.blockno]]
    requires s'.cache == s.cache[buf.blockno := if buf.valid then buf.data else s'.disk[buf.blockno]]
    requires s'.dirty == if buf.dirty then s.dirty + {buf.blockno} else s.dirty - {buf.blockno}
    requires s'.held == if buf.refcnt > 0 then s.held + {buf.blockno} else s.held - {buf.blockno}
    ensures Shows(bufs[i := buf], disk', s')
  {
    var bufs' := bufs[i := buf];
    forall b: Word | b < |s'.disk|
      ensures At(bufs', disk', s', b)
    {
      assert At(bufs, disk, s, b);
      FindKept(bufs, i, buf, (DEV, b));
      FoundAt(bufs, disk, s, i);
    }
  }

  /** The disk is as before. */
  lemma {:induction false} SameDisk(disk: map<B.Key, Block>, d: Disk, b: Word)
    requires b < |d| && (DEV, b) in disk && disk[(DEV, b)] == d[b]
    ensures d == d[b := d[b]] && disk == disk[(DEV, b) := d[b]]
  {
  }

  /** Waiting references and sleep locks are not seen, nor is the filling of a buffer that somebody has. */
  lemma {:induction false} HoldingIsUnseen(bufs: seq<B.Buf>, disk: map<B.Key, Block>, s: M.State, i: nat, buf: B.Buf)
    requires Shows(bufs, disk, s) && B.UniqueKeys(bufs) && i < |bufs| && bufs[i].dev == DEV && bufs[i].blockno < |s.disk|
    requires buf == bufs[i].(refcnt := buf.refcnt, locked := buf.locked, valid := buf.valid, data := buf.data)
    requires bufs[i].refcnt > 0 && buf.refcnt > 0
    requires (buf.valid == bufs[i].valid && buf.data == bufs[i].data) || (!bufs[i].valid && buf.valid && buf.data == s.disk[buf.blockno])
    ensures Shows(bufs[i := buf], disk, s)
  {
    FoundAt(bufs, disk, s, i);
    SameDisk(disk, s.disk, buf.blockno);
    var b := buf.blockno;
    assert s.cache == s.cache[b := if buf.valid then buf.data else s.disk[b]];
    assert s.held == s.held + {b} && s.dirty == if buf.dirty then s.dirty + {b} else s.dirty - {b};
    ChangeShown(bufs, disk, s, i, buf, disk, s);
  }

  /** bget finds the block in a buffer that nobody has. */
  lemma {:induction false} FindingIsHold(bufs: seq<B.Buf>, disk: map<B.Key, Block>, s: M.State, i: nat)
    requires Shows(bufs, disk, s) && B.UniqueKeys(bufs) && |bufs| == NBUF && Used(bufs, s)
    requires i < |bufs| && bufs[i].dev == DEV && bufs[i].blockno < |s.disk| && bufs[i].refcnt == 0 && !s.phase.Boot? && !s.phase.Redo?
    ensures M.DoHold(s, bufs[i].blockno).Ok?
    ensures Shows(bufs[i := bufs[i].(refcnt := 1)], disk, M.DoHold(s, bufs[i].blockno).s)
  {
    var b := bufs[i].blockno;
    FoundAt(bufs, disk, s, i);
    PanicIsNoBuffer(bufs, disk, s, b);
    SameDisk(disk, s.disk, b);
    hide M.NoBuffer;
    var s' := M.DoHold(s, b).s;
    assert s'.cache == s.cache[b := if bufs[i].valid then bufs[i].data else s.disk[b]];
    assert s.dirty == if bufs[i].dirty then s.dirty + {b} else s.dirty - {b};
    ChangeShown(bufs, disk, s, i, bufs[i].(refcnt := 1), disk, s');
  }

  /** bget gives a free buffer to another block: the block that it held, if any, leaves the cache. */
  lemma {:induction false} RecyclingIsRecycle(bufs: seq<B.Buf>, disk: map<B.Key, Block>, s: M.State, i: nat, buf: B.Buf)
    requires Shows(bufs, disk, s) && B.UniqueKeys(bufs) && i < |bufs| && B.Free(bufs[i]) && !Shown(buf) && !buf.dirty
    requires B.Find(bufs, B.KeyOf(buf)) == |bufs|
    ensures var was := bufs[i];
      if was.dev == DEV && was.valid && was.blockno < |s.disk|
      then M.DoRecycle(s, was.blockno).Ok? && Shows(bufs[i := buf], disk, M.DoRecycle(s, was.blockno).s)
      else Shows(bufs[i := buf], disk, s)
  {
    var was := bufs[i];
    var leaves := was.dev == DEV && was.valid && was.blockno < |s.disk|;
    if leaves {
      FoundAt(bufs, disk, s, i);
    }
    var s' := if leaves then M.DoRecycle(s, was.blockno).s else s;
    var bufs' := bufs[i := buf];
    forall b: Word | b < |s'.disk|
      ensures At(bufs', disk, s', b)
    {
      assert At(bufs, disk, s, b);
      FindRecycled(bufs, i, buf, b);
      if B.KeyOf(was) == (DEV, b) {
        FoundAt(bufs, disk, s, i);
      }
    }
  }

  /** After the recycling, if the buffer held a block. */
  function Recycled(s: M.State, was: B.Buf): M.State {
    if was.dev == DEV && was.valid && was.blockno < |s.disk| && M.DoRecycle(s, was.blockno).Ok? then M.DoRecycle(s, was.blockno).s else s
  }

  /** bget on a block that is not cached: a Recycle, if the victim held a block, and then a Hold. */
  lemma {:induction false} MissingIsHold(bufs: seq<B.Buf>, disk: map<B.Key, Block>, s: M.State, i: nat, buf: B.Buf)
    requires Shows(bufs, disk, s) && B.UniqueKeys(bufs) && |bufs| == NBUF && Used(bufs, s) && !s.phase.Boot? && !s.phase.Redo?
    requires i < |bufs| && B.Free(bufs[i]) && !buf.valid && !buf.dirty && buf.refcnt == 1
    requires buf.dev == DEV && buf.blockno < |s.disk| && B.Find(bufs, B.KeyOf(buf)) == |bufs|
    ensures M.DoHold(Recycled(s, bufs[i]), buf.blockno).Ok?
    ensures Shows(bufs[i := buf], disk, M.DoHold(Recycled(s, bufs[i]), buf.blockno).s)
  {
    var buf0 := buf.(refcnt := 0);
    RecyclingIsRecycle(bufs, disk, s, i, buf0);
    B.KeysRecycled(bufs, i, buf0);
    var s1, bufs1 := Recycled(s, bufs[i]), bufs[i := buf0];
    assert bufs1[i := bufs1[i].(refcnt := 1)] == bufs[i := buf];
    hide Shows, B.UniqueKeys, M.NoBuffer;
    FindingIsHold(bufs1, disk, s1, i);
  }

  /** A holder changes a buffer and log_write pins it: the cache and the dirty set change as at LogAppend. */
  lemma {:induction false} LoggingIsLogAppend(bufs: seq<B.Buf>, disk: map<B.Key, Block>, s: M.State, i: nat, k: nat, data: Block)
    requires Shows(bufs, disk, s) && B.UniqueKeys(bufs) && i < |bufs| && bufs[i].dev == DEV && bufs[i].valid && bufs[i].blockno < |s.disk|
    requires M.DoLogAppend(s, k, data).Ok? && s.open[k].passed.value == bufs[i].blockno
    ensures Shows(bufs[i := bufs[i].(data := data, dirty := true)], disk, M.DoLogAppend(s, k, data).s)
  {
    var b := bufs[i].blockno;
    FoundAt(bufs, disk, s, i);
    SameDisk(disk, s.disk, b);
    assert s.held == if bufs[i].refcnt > 0 then s.held + {b} else s.held - {b};
    ChangeShown(bufs, disk, s, i, bufs[i].(data := data, dirty := true), disk, M.DoLogAppend(s, k, data).s);
  }

  /** A holder changes a buffer and bwrite writes it: a block write. */
  lemma {:induction false} WritingIsBlockWrite(bufs: seq<B.Buf>, disk: map<B.Key, Block>, s: M.State, i: nat, data: Block)
    requires Shows(bufs, disk, s) && B.UniqueKeys(bufs) && i < |bufs| && bufs[i].dev == DEV && bufs[i].valid && bufs[i].blockno < |s.disk|
    ensures Shows(bufs[i := bufs[i].(data := data, dirty := false)], disk[(DEV, bufs[i].blockno) := data],
                  M.BlockWrite(s, bufs[i].blockno, data))
  {
    var b := bufs[i].blockno;
    FoundAt(bufs, disk, s, i);
    assert s.held == if bufs[i].refcnt > 0 then s.held + {b} else s.held - {b};
    ChangeShown(bufs, disk, s, i, bufs[i].(data := data, dirty := false), disk[(DEV, b) := data], M.BlockWrite(s, b, data));
  }

  /** brelse drops the last reference. */
  lemma {:induction false} UnrefIsRelease(bufs: seq<B.Buf>, disk: map<B.Key, Block>, s: M.State, i: nat)
    requires Shows(bufs, disk, s) && B.UniqueKeys(bufs) && i < |bufs| && bufs[i].dev == DEV && bufs[i].valid && bufs[i].blockno < |s.disk|
    requires bufs[i].refcnt == 1 && !M.Taken(s, bufs[i].blockno)
    ensures M.DoRelease(s, bufs[i].blockno).Ok?
    ensures Shows(bufs[i := bufs[i].(refcnt := 0)], disk, M.DoRelease(s, bufs[i].blockno).s)
  {
    var b := bufs[i].blockno;
    FoundAt(bufs, disk, s, i);
    SameDisk(disk, s.disk, b);
    assert s.cache == s.cache[b := bufs[i].data] && s.dirty == if bufs[i].dirty then s.dirty + {b} else s.dirty - {b};
    ChangeShown(bufs, disk, s, i, bufs[i].(refcnt := 0), disk, M.DoRelease(s, b).s);
  }

  // ----- No buffers -----

  /** Only blocks of the one disk are ever dirty or held. */
  predicate Used(bufs: seq<B.Buf>, s: M.State) {
    forall i | 0 <= i < |bufs| && !B.Free(bufs[i]) :: bufs[i].dev == DEV && bufs[i].blockno < |s.disk|
  }

  function UsedBlocks(bufs: seq<B.Buf>, k: nat): (r: set<Word>)
    requires k <= |bufs|
    ensures |r| <= k
  {
    if k == 0 then {}
    else if B.Free(bufs[k - 1]) then UsedBlocks(bufs, k - 1)
    else UsedBlocks(bufs, k - 1) + {bufs[k - 1].blockno}
  }

  lemma {:induction false} UsedAt(bufs: seq<B.Buf>, k: nat, i: nat)
    requires i < k <= |bufs| && !B.Free(bufs[i])
    ensures bufs[i].blockno in UsedBlocks(bufs, k)
  {
    if i < k - 1 {
      UsedAt(bufs, k - 1, i);
    }
  }

  lemma {:induction false} UsedFrom(bufs: seq<B.Buf>, k: nat, b: Word) returns (i: nat)
    requires k <= |bufs| && b in UsedBlocks(bufs, k)
    ensures i < k && !B.Free(bufs[i]) && bufs[i].blockno == b
  {
    if !B.Free(bufs[k - 1]) && bufs[k - 1].blockno == b {
      i := k - 1;
    } else {
      i := UsedFrom(bufs, k - 1, b);
    }
  }

  lemma {:induction false} UsedAre(bufs: seq<B.Buf>, disk: map<B.Key, Block>, s: M.State)
    requires Shows(bufs, disk, s) && B.UniqueKeys(bufs) && Used(bufs, s)
    ensures s.dirty + s.held == UsedBlocks(bufs, |bufs|)
  {
    forall b: Word
      ensures b in s.dirty + s.held <==> b in UsedBlocks(bufs, |bufs|)
    {
      if b in s.dirty + s.held {
        assert At(bufs, disk, s, b);
        UsedAt(bufs, |bufs|, B.Find(bufs, (DEV, b)));
      }
      if b in UsedBlocks(bufs, |bufs|) {
        var i := UsedFrom(bufs, |bufs|, b);
        FoundAt(bufs, disk, s, i);
      }
    }
  }

  lemma {:induction false} NotAllUsed(bufs: seq<B.Buf>, k: nat, i: nat)
    requires i < k <= |bufs| && B.Free(bufs[i])
    ensures |UsedBlocks(bufs, k)| < k
  {
    if i < k - 1 {
      NotAllUsed(bufs, k - 1, i);
    }
  }

  lemma {:induction false} KeysDiffer(bufs: seq<B.Buf>, i: nat, j: nat)
    requires B.UniqueKeys(bufs) && i < j < |bufs| && bufs[i].dev != 0
    ensures B.KeyOf(bufs[i]) != B.KeyOf(bufs[j])
  {
  }

  lemma {:induction false} AllUsed(bufs: seq<B.Buf>, k: nat)
    requires k <= |bufs| && B.UniqueKeys(bufs) && forall i | 0 <= i < k :: !B.Free(bufs[i]) && bufs[i].dev == DEV
    ensures |UsedBlocks(bufs, k)| == k
  {
    hide B.UniqueKeys;
    if k > 0 {
      AllUsed(bufs, k - 1);
      if bufs[k - 1].blockno in UsedBlocks(bufs, k - 1) {
        var i := UsedFrom(bufs, k - 1, bufs[k - 1].blockno);
        KeysDiffer(bufs, i, k - 1);
        assert false;
      }
    }
  }

  /** bget panics on a block if and only if there is no buffer for it in s. */
  lemma {:induction false} PanicIsNoBuffer(bufs: seq<B.Buf>, disk: map<B.Key, Block>, s: M.State, b: Word)
    requires Shows(bufs, disk, s) && B.UniqueKeys(bufs) && |bufs| == NBUF && Used(bufs, s) && b < |s.disk|
    ensures M.NoBuffer(s, {b}) <==> B.Find(bufs, (DEV, b)) == NBUF && forall i | 0 <= i < NBUF :: !B.Free(bufs[i])
  {
    UsedAre(bufs, disk, s);
    assert At(bufs, disk, s, b);
    if b in s.dirty + s.held {
      assert s.dirty + s.held + {b} == s.dirty + s.held;
    }
    if i :| 0 <= i < NBUF && B.Free(bufs[i]) {
      NotAllUsed(bufs, NBUF, i);
    } else {
      AllUsed(bufs, NBUF);
    }
  }
}
