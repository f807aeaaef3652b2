/** file.c: reading and writing an open file. filewrite splits the bytes into chunks, one transaction each. */
module File {
  import opened Common
  import opened DiskModel
  import opened FileBlocks
  import opened Bitmap
  import opened BlockOwners
  import opened FileMap
  import opened FileSystem

  /** The largest chunk (file.c:133). */
  const MAX_CHUNK: nat := (MAXOPBLOCKS - 1 - 1 - 2) / 2 * 512

  /** A chunk logs at most MAXOPBLOCKS blocks wherever it starts. */
  lemma {:induction false} ChunkBudget(offset: nat, n: nat)
    requires n <= MAX_CHUNK
    ensures Budget(offset, n) <= MAXOPBLOCKS
  {
    if n > 0 {
      assert (offset + n - 1) / BSIZE <= offset / BSIZE + 3;
      assert offset % BSIZE == 0 ==> (offset + n - 1) / BSIZE <= offset / BSIZE + 2;
    }
  }

  /** How many chunks n bytes make. */
  function Chunks(n: nat): nat {
    if n == 0 then 0 else if n <= MAX_CHUNK then 1 else Chunks(n - MAX_CHUNK) + 1
  }

  lemma {:induction false} ChunksAt(k: nat, n: nat)
    requires 0 < n <= MAX_CHUNK
    ensures Chunks(k * MAX_CHUNK + n) == k + 1
  {
    if k > 0 {
      ChunksAt(k - 1, n);
    }
  }

  /** How many of n bytes filewrite lays over a file: none past its end, all if they fit in the largest file, or else as many
      whole chunks as do. */
  function Accepted(size: nat, off: nat, n: nat): nat {
    if off > size || off > MAXFILE * BSIZE then 0
    else if off + n <= MAXFILE * BSIZE then n
    else (MAXFILE * BSIZE - off) / MAX_CHUNK * MAX_CHUNK
  }

  lemma {:induction false} AllAccepted(size: nat, off: nat, n: nat)
    requires if off <= size then off + n <= MAXFILE * BSIZE else n == 0
    ensures Accepted(size, off, n) == n
  {
  }

  lemma {:induction false} WholeChunks(m: nat, k: nat)
    ensures k * MAX_CHUNK <= m < k * MAX_CHUNK + MAX_CHUNK ==> m / MAX_CHUNK * MAX_CHUNK == k * MAX_CHUNK
    ensures k * MAX_CHUNK + MAX_CHUNK <= m ==> k * MAX_CHUNK + MAX_CHUNK <= m / MAX_CHUNK * MAX_CHUNK
  {
    assert MAX_CHUNK == 1536;
    assert k * MAX_CHUNK == k * 1536 && m / MAX_CHUNK == m / 1536 && m / MAX_CHUNK * MAX_CHUNK == m / 1536 * 1536;
  }

  /** With the first i bytes written, in whole chunks, and n1 bytes next: they are taken or they are the first to be refused. */
  lemma {:induction false} NextChunk(size: nat, size1: nat, off: nat, n: nat, k: nat, i: nat, n1: nat)
    requires i == k * MAX_CHUNK && i < n && n1 == (if n - i > MAX_CHUNK then MAX_CHUNK else n - i)
    requires (off <= size <==> off + i <= size1) && (off > size ==> i == 0) && (off <= size ==> off + i <= MAXFILE * BSIZE)
    ensures Refused(size1, off + i, n1) ==> Accepted(size, off, n) == i
    ensures !Refused(size1, off + i, n1) ==> off <= size && i + n1 <= Accepted(size, off, n) && off + i + n1 <= MAXFILE * BSIZE
  {
    if off <= size {
      WholeChunks(MAXFILE * BSIZE - off, k);
    }
  }

  lemma {:induction false} LargestFile(inodes: seq<Inode>, data: seq<Data>, i: nat)
    requires i < |inodes| && NoHoles(inodes, data, i, inodes[i].size)
    ensures inodes[i].size <= MAXFILE * BSIZE
  {
    assert !Mapped(inodes, data, i, MAXFILE * BSIZE);
  }

  lemma {:induction false} ChunksNone()
    ensures Chunks(0) == 0
  {
  }

  /** Two adjacent patches are one. */
  lemma {:induction false} PatchedTwice(s: seq<Byte>, off: nat, a: seq<Byte>, b: seq<Byte>)
    requires off <= |s|
    ensures off + |a| <= |Patched(s, off, a)|
    ensures Patched(Patched(s, off, a), off + |a|, b) == Patched(s, off, a + b)
  {
  }

  // ----- Free blocks over several chunks -----

  lemma {:induction false} MissingJoin(inodes: seq<Inode>, data: seq<Data>, i: nat, lo: nat, n: nat, m: nat)
    ensures Missing(inodes, data, i, lo, n + m) == Missing(inodes, data, i, lo, n) + Missing(inodes, data, i, lo + n, m)
  {
    hide BlockOf;
    if m > 0 {
      MissingJoin(inodes, data, i, lo, n, m - 1);
    }
  }

  lemma {:induction false} MissingSame(inodes: seq<Inode>, data: seq<Data>, inodes': seq<Inode>, data': seq<Data>, i: nat, lo: nat, n: nat)
    requires forall bn: nat | lo <= bn :: BlockOf(inodes', data', i, bn) == BlockOf(inodes, data, i, bn)
    ensures Missing(inodes', data', i, lo, n) == Missing(inodes, data, i, lo, n)
  {
    hide BlockOf;
    if n > 0 {
      MissingSame(inodes, data, inodes', data', i, lo, n - 1);
    }
  }

  /** Where the next chunk begins: at the next block, or in the last one. */
  predicate Follows(lo: nat, n: nat, lo': nat) {
    lo' == lo + n || (n > 0 && lo' == lo + n - 1)
  }

  /** The cost of the next chunk now is what it adds to the cost of the whole. */
  lemma {:induction false} CostJoin(inodes: seq<Inode>, data: seq<Data>, inodes1: seq<Inode>, data1: seq<Data>, i: nat, lo: nat, n: nat, lo': nat, n': nat)
    requires Reached(inodes, data, inodes1, data1, i, lo, n) && Follows(lo, n, lo') && n' > 0
    ensures i < |inodes| && i < |inodes1| && lo' + n' >= lo + n
    ensures Cost(inodes, data, i, lo, lo' + n' - lo) == Cost(inodes, data, i, lo, n) + Cost(inodes1, data1, i, lo', n')
  {
    hide BlockOf, OthersMapped;
    var more := lo' + n' - lo - n;
    MissingJoin(inodes, data, i, lo, n, more);
    MissingSame(inodes, data, inodes1, data1, i, lo + n, more);
    if lo' < lo + n {
      MissingJoin(inodes1, data1, i, lo', 1, more);
      assert Missing(inodes1, data1, i, lo', 1) == Missing(inodes1, data1, i, lo', 0) + if BlockOf(inodes1, data1, i, lo') == 0 then 1 else 0;
    }
  }

  lemma {:induction false} ReachedJoin(inodes: seq<Inode>, data: seq<Data>, inodes1: seq<Inode>, data1: seq<Data>, inodes2: seq<Inode>, data2: seq<Data>,
                                       i: nat, lo: nat, n: nat, lo': nat, n': nat)
    requires Reached(inodes, data, inodes1, data1, i, lo, n) && Reached(inodes1, data1, inodes2, data2, i, lo', n') && Follows(lo, n, lo') && n' > 0
    ensures Reached(inodes, data, inodes2, data2, i, lo, lo' + n' - lo)
  {
    hide BlockOf, Addr;
  }

  /** The chunks up to byte tot are written and paid for. */
  ghost predicate Bought(inodes: seq<Inode>, data: seq<Data>, stock: int, inodes': seq<Inode>, data': seq<Data>, stock': int, i: nat, off: nat, tot: nat) {
    && Reached(inodes, data, inodes', data', i, off / BSIZE, Blocks(off, tot)) && i < |inodes|
    && stock' == stock - Cost(inodes, data, i, off / BSIZE, Blocks(off, tot))
  }

  lemma {:induction false} BoughtNone(inodes: seq<Inode>, data: seq<Data>, stock: int, i: nat, off: nat)
    requires i < |inodes|
    ensures Bought(inodes, data, stock, inodes, data, stock, i, off, 0)
  {
    ReachStart(inodes, data, i, off / BSIZE);
  }

  lemma {:induction false} BlocksFollow(off: nat, tot: nat, n: nat)
    requires n > 0
    ensures Follows(off / BSIZE, Blocks(off, tot), (off + tot) / BSIZE) && Blocks(off + tot, n) > 0
    ensures (off + tot) / BSIZE + Blocks(off + tot, n) - off / BSIZE == Blocks(off, tot + n)
  {
  }

  lemma {:induction false} BoughtFails(inodes: seq<Inode>, data: seq<Data>, stock: int, inodes1: seq<Inode>, data1: seq<Data>, stock1: int,
                                       i: nat, off: nat, tot: nat, n: nat, all: nat)
    requires Bought(inodes, data, stock, inodes1, data1, stock1, i, off, tot) && i < |inodes1| && 0 < n && tot + n <= all
    requires stock1 < Cost(inodes1, data1, i, (off + tot) / BSIZE, Blocks(off + tot, n))
    ensures i < |inodes| && stock < Cost(inodes, data, i, off / BSIZE, Blocks(off, all))
  {
    hide Cost, Reached, Blocks;
    BlocksFollow(off, tot, n);
    CostJoin(inodes, data, inodes1, data1, i, off / BSIZE, Blocks(off, tot), (off + tot) / BSIZE, Blocks(off + tot, n));
    BlocksMore(off, tot + n, all);
    CostMore(inodes, data, i, off / BSIZE, Blocks(off, tot + n), Blocks(off, all));
  }

  lemma {:induction false} BoughtMore(inodes: seq<Inode>, data: seq<Data>, stock: int, inodes1: seq<Inode>, data1: seq<Data>, stock1: int,
                                      inodes2: seq<Inode>, data2: seq<Data>, stock2: int, i: nat, off: nat, tot: nat, n: nat)
    requires Bought(inodes, data, stock, inodes1, data1, stock1, i, off, tot) && i < |inodes1| && 0 < n
    requires Reached(inodes1, data1, inodes2, data2, i, (off + tot) / BSIZE, Blocks(off + tot, n))
    requires stock2 == stock1 - Cost(inodes1, data1, i, (off + tot) / BSIZE, Blocks(off + tot, n))
    ensures Bought(inodes, data, stock, inodes2, data2, stock2, i, off, tot + n)
  {
    hide Cost, Reached, Blocks;
    BlocksFollow(off, tot, n);
    CostJoin(inodes, data, inodes1, data1, i, off / BSIZE, Blocks(off, tot), (off + tot) / BSIZE, Blocks(off + tot, n));
    ReachedJoin(inodes, data, inodes1, data1, inodes2, data2, i, off / BSIZE, Blocks(off, tot), (off + tot) / BSIZE, Blocks(off + tot, n));
  }

  lemma {:induction false} BoughtAll(inodes: seq<Inode>, data: seq<Data>, stock: int, inodes': seq<Inode>, data': seq<Data>, stock': int,
                                     i: nat, off: nat, tot: nat)
    requires Bought(inodes, data, stock, inodes', data', stock', i, off, tot)
    ensures i < |inodes| && stock' == stock - Cost(inodes, data, i, off / BSIZE, Blocks(off, tot))
  {
    hide Cost, Reached, Blocks;
  }

  class OpenFile {
    const fs: Fs
    const ip: nat
    var off: Word

    constructor (fs: Fs, ip: nat)
      ensures this.fs == fs && this.ip == ip && off == 0
    {
      this.fs, this.ip, off := fs, ip, 0;
    }

    /** fileread: the bytes from the file offset on, which moves past them. */
    method Fileread(n: Word) returns (r: int, dst: seq<Byte>)
      requires fs.Valid() && fs.Sound(ip) && fs.inodes[ip].kind != T_DEV
      modifies this, fs
      ensures fs.Valid() && fs.Sound(ip) && fs.inodes == old(fs.inodes) && fs.data == old(fs.data) && fs.logged == old(fs.logged)
      ensures old(off) <= fs.inodes[ip].size && old(off) + n < 0x1_0000_0000 ==>
                r == |dst| && old(off) + r == off <= fs.inodes[ip].size && dst == Contents(fs.inodes, fs.data, ip)[old(off)..off]
      ensures !(old(off) <= fs.inodes[ip].size && old(off) + n < 0x1_0000_0000) ==> r == -1 && off == old(off)
    {
      r, dst := fs.Readi(ip, off, n, None);
      if r > 0 {
        off := off + r;
      }
    }

    /** filewrite: done bytes of src are laid over the file at the offset, which moves past them; all of src unless
        a chunk is refused, and none if the offset is past the end. The disk gets there through the transactions txs,
        one for each chunk, none of which logs more than MAXOPBLOCKS blocks. The panic of a short write is unreachable. Bytes
        that fit in a file are written if and only if there are free blocks for them. */
    method Filewrite(src: seq<Byte>) returns (ok: bool, r: int, ghost done: nat, ghost txs: seq<Transaction>)
      requires fs.Valid() && fs.Sound(ip) && fs.inodes[ip].kind != T_DEV && |src| < 0x8000_0000
      modifies this, fs
      ensures ok <==> old(fs.Stock()) >= old(fs.Price(ip, off, Accepted(fs.inodes[ip].size, off, |src|)))
      ensures ok ==> done == old(Accepted(fs.inodes[ip].size, off, |src|)) && fs.Stock() == old(fs.Stock()) - old(fs.Price(ip, off, done))
      ensures ok ==> fs.Valid() && fs.Sound(ip) && done <= |src| && off == old(off) + done
      ensures ok ==> r == if done == |src| then |src| else -1
      ensures ok ==> fs.journal.past == old(fs.journal.past) + txs && Chained(txs, old(fs.Now()), fs.Now(), fs.bmapStart, fs.inodeStart)
      ensures ok ==> |txs| == Chunks(done) + if done == |src| then 0 else 1
      ensures ok && old(off) <= old(fs.inodes[ip].size) ==>
                Contents(fs.inodes, fs.data, ip) == Patched(old(Contents(fs.inodes, fs.data, ip)), old(off), src[..done])
      ensures ok && old(off) > old(fs.inodes[ip].size) ==>
                Contents(fs.inodes, fs.data, ip) == old(Contents(fs.inodes, fs.data, ip))
    {
      hide Contents, Patched, Budget, NoHoles, Owned, Marked, AllLogged, Chained, Cost, Reached, Spare, Blocks, Bought, Chunks, Refused, Accepted;
      ok, txs := true, [];
      assert Chunks(0) == 0 by { ChunksNone(); }
      var i: nat := 0;
      ghost var before, size, inside := Contents(fs.inodes, fs.data, ip), fs.inodes[ip].size, off <= fs.inodes[ip].size;
      LargestFile(fs.inodes, fs.data, ip);
      if inside {
        PatchedNone(before, off);
      }
      ChainedNone(fs.Now(), fs.bmapStart, fs.inodeStart);
      BoughtNone(fs.inodes, fs.data, fs.Stock(), ip, off);
      while i < |src|
        invariant i <= |src| && off == old(off) + i && ok && (i < |src| ==> i == |txs| * MAX_CHUNK) && |txs| == Chunks(i)
        invariant fs.Valid() && fs.Sound(ip) && fs.inodes[ip].kind != T_DEV && (inside <==> off <= fs.inodes[ip].size)
        invariant inside ==> off <= MAXFILE * BSIZE
        invariant Bought(old(fs.inodes), old(fs.data), old(fs.Stock()), fs.inodes, fs.data, fs.Stock(), ip, old(off), i)
        invariant inside ==> Contents(fs.inodes, fs.data, ip) == Patched(before, old(off), src[..i])
        invariant !inside ==> i == 0 && Contents(fs.inodes, fs.data, ip) == before
        invariant fs.journal.past == old(fs.journal.past) + txs && Chained(txs, old(fs.Now()), fs.Now(), fs.bmapStart, fs.inodeStart)
      {
        var n1 := |src| - i;
        if n1 > MAX_CHUNK {
          n1 := MAX_CHUNK;
        }
        done := i;
        ghost var t;
        ghost var inodes1, data1, stock1 := fs.inodes, fs.data, fs.Stock();
        NextChunk(size, fs.inodes[ip].size, old(off), |src|, |txs|, i, n1);
        ok, r, t := WriteChunk(src[i..i + n1], txs, old(fs.Now()));
        if !ok {
          BoughtFails(old(fs.inodes), old(fs.data), old(fs.Stock()), inodes1, data1, stock1, ip, old(off), i, n1, Accepted(size, old(off), |src|));
          return;
        }
        ChunksAt(|txs|, n1);
        txs := txs + [t];
        if r < 0 {
          break;
        }
        BoughtMore(old(fs.inodes), old(fs.data), old(fs.Stock()), inodes1, data1, stock1, fs.inodes, fs.data, fs.Stock(), ip, old(off), i, n1);
        PatchedTwice(before, old(off), src[..i], src[i..i + n1]);
        assert src[..i] + src[i..i + n1] == src[..i + n1];
        i := i + r;
      }
      done := i;
      r := if i == |src| then |src| else -1;
      if i == |src| {
        AllAccepted(size, old(off), |src|);
      }
      StockLeft(fs.bitmap, fs.size, fs.dataStart, fs.owner.Keys);
      BoughtAll(old(fs.inodes), old(fs.data), old(fs.Stock()), fs.inodes, fs.data, fs.Stock(), ip, old(off), i);
    }

    /** One turn of filewrite's loop (file.c:141-146): one transaction, which joins those before it. */
    method WriteChunk(part: seq<Byte>, ghost txs: seq<Transaction>, ghost from: Image) returns (ok: bool, r: int, ghost t: Transaction)
      requires fs.Valid() && fs.Sound(ip) && fs.inodes[ip].kind != T_DEV && |part| <= MAX_CHUNK
      requires Chained(txs, from, fs.Now(), fs.bmapStart, fs.inodeStart)
      modifies this, fs
      ensures !ok <==> !Refused(old(fs.inodes[ip].size), old(off), |part|) && old(fs.Stock()) < old(fs.Price(ip, off, |part|))
      ensures ok && r >= 0 ==> fs.Stock() == old(fs.Stock()) - old(fs.Price(ip, off, |part|))
      ensures ok && r >= 0 ==> Reached(old(fs.inodes), old(fs.data), fs.inodes, fs.data, ip, old(off) / BSIZE, Blocks(old(off), |part|))
      ensures ok && r < 0 ==> fs.Stock() == old(fs.Stock())
      ensures ok ==> fs.Valid() && fs.Sound(ip) && fs.inodes[ip].kind == old(fs.inodes[ip].kind)
      ensures ok ==> (r < 0 <==> Refused(old(fs.inodes[ip].size), old(off), |part|))
      ensures ok && r < 0 ==> off == old(off) && fs.inodes == old(fs.inodes) && fs.data == old(fs.data)
      ensures ok && r >= 0 ==> r == |part| && off == old(off) + r <= fs.inodes[ip].size
      ensures ok && r >= 0 ==> Contents(fs.inodes, fs.data, ip) == Patched(old(Contents(fs.inodes, fs.data, ip)), old(off), part)
      ensures ok ==> fs.journal.past == old(fs.journal.past) + [t] && Chained(txs + [t], from, fs.Now(), fs.bmapStart, fs.inodeStart)
    {
      hide Contents, Patched, Budget, NoHoles, Owned, Marked, AllLogged, Chained, Cost, Reached, Spare, Blocks;
      fs.BeginOp();
      ghost var wrote;
      ok, r, wrote := fs.Writei(ip, part, off, None);
      t := Transaction(fs.journal.base, fs.Now(), fs.logged);
      if !ok {
        return;
      }
      ChunkBudget(off, |part|);
      if r > 0 {
        off := off + r;
      }
      fs.EndOp();
      ChainedMore(txs, from, t, fs.bmapStart, fs.inodeStart);
    }
  }

  lemma {:induction false} ChainedNone(at: Image, bmapStart: nat, inodeStart: nat)
    ensures Chained([], at, at, bmapStart, inodeStart)
  {
  }

  lemma {:induction false} ChainedMore(txs: seq<Transaction>, from: Image, t: Transaction, bmapStart: nat, inodeStart: nat)
    requires Chained(txs, from, t.before, bmapStart, inodeStart) && |t.logged| <= MAXOPBLOCKS
    requires AllLogged(t.before, t.after.data, t.after.bitmap, t.after.disk, t.logged, bmapStart, inodeStart)
    ensures Chained(txs + [t], from, t.after, bmapStart, inodeStart)
  {
    hide AllLogged;
    assert (txs + [t])[..|txs|] == txs;
  }

  lemma {:induction false} PatchedNone(s: seq<Byte>, off: nat)
    requires off <= |s|
    ensures Patched(s, off, []) == s
  {
  }
}
