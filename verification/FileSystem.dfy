/** fs.c: block allocation, the block map, truncation and byte-range reads and writes. `inodes` is the
    inode cache, `disk` the inodes on disk; `logged` collects the blocks passed to log_write. A method that
    returns ok == false has panicked: the machine has halted and nothing is said of its state. */
module FileSystem {
  import opened Common
  import opened DiskModel
  import opened FileBlocks
  import opened Bitmap
  import opened BlockOwners
  import opened FileMap

  const IPB: nat := 8   // inodes per block
  const T_DEV := 3

  class Fs {
    const size: nat        // blocks on the disk
    const dataStart: nat   // first block that files may use
    const bmapStart: nat
    const inodeStart: nat
    var bitmap: seq<MapBlock>
    var data: seq<Data>
    var inodes: seq<Inode>
    var disk: seq<Inode>
    ghost var owner: map<nat, Slot>
    ghost var logged: set<nat>
    ghost var journal: Journal   // the operation under way and the ended ones

    /** Every block that differs from what was there when the operation began has been logged. */
    ghost predicate Journaled()
      reads this
    {
      AllLogged(journal.base, data, bitmap, disk, logged, bmapStart, inodeStart)
    }

    /** Every block past the system area is marked in use exactly when one slot owns it. */
    ghost predicate Valid()
      reads this
    {
      && 0 < dataStart <= |data| == size <= 0x1_0000_0000 && |inodes| == |disk|
      && Marked(bitmap, size, dataStart, owner.Keys)
      && Owned(inodes, data, owner)
      && Journaled()
    }

    /** A file system without files: only the system's own blocks are marked. */
    constructor (size: nat, dataStart: nat, bmapStart: nat, inodeStart: nat, bitmap: seq<MapBlock>, ninodes: nat)
      requires 0 < dataStart <= size <= 0x1_0000_0000 && Marked(bitmap, size, dataStart, {})
      ensures Valid() && owner == map[] && |inodes| == ninodes && this.size == size && this.dataStart == dataStart
      ensures forall i: nat | i < ninodes :: Sound(i) && inodes[i].size == 0
    {
      this.size, this.dataStart, this.bmapStart, this.inodeStart := size, dataStart, bmapStart, inodeStart;
      this.bitmap := bitmap;
      data := seq(size, _ => ZeroData());
      inodes := seq(ninodes, _ => Inode(0, 0, 0, NoAddrs()));
      disk := seq(ninodes, _ => Inode(0, 0, 0, NoAddrs()));
      owner, logged := map[], {};
      journal := Journal(Image(seq(size, _ => ZeroData()), bitmap, seq(ninodes, _ => Inode(0, 0, 0, NoAddrs()))), []);
    }

    /** What is on disk once the log is installed. */
    ghost function Now(): Image
      reads this
    {
      Image(data, bitmap, disk)
    }

    /** begin_op: a new set of logged blocks. */
    ghost method BeginOp()
      requires Valid()
      modifies `logged, `journal
      ensures Valid() && logged == {} && journal == old(journal).(base := Now())
    {
      journal, logged := journal.(base := Now()), {};
    }

    /** end_op: the operation joins the ended ones. */
    ghost method EndOp()
      requires Valid()
      modifies `journal
      ensures Valid() && journal == old(journal).(past := old(journal).past + [Transaction(old(journal).base, Now(), logged)])
    {
      journal := journal.(past := journal.past + [Transaction(journal.base, Now(), logged)]);
    }

    /** The file has no holes and its disk inode is current. */
    ghost predicate Sound(i: nat)
      reads this
    {
      i < |inodes| == |disk| && NoHoles(inodes, data, i, inodes[i].size) && disk[i] == inodes[i]
    }

    function MapBlockOf(b: nat): nat {
      b / BPB + bmapStart
    }

    /** How many bitmap blocks there are. */
    function MapCount(): nat {
      (size + BPB - 1) / BPB
    }

    ghost function MapBlocks(): set<nat> {
      MapArea(bmapStart, MapCount())
    }

    function InodeBlockOf(i: nat): nat {
      i / IPB + inodeStart
    }

    /** How many data blocks are free. */
    ghost function Stock(): int
      reads this
    {
      Spare(size, dataStart, owner.Keys)
    }

    /** What a write of n bytes at offset to inode i needs in free blocks. */
    ghost function Price(i: nat, offset: nat, n: nat): nat
      requires i < |inodes|
      reads this
    {
      Cost(inodes, data, i, offset / BSIZE, Blocks(offset, n))
    }

    /** balloc: the first block whose bit is clear, now marked and zeroed; panics exactly when there is none. */
    method Balloc() returns (ok: bool, b: Word)
      requires Valid()
      modifies `bitmap, `data, `logged
      ensures !ok <==> Stock() == 0
      ensures ok ==> 0 < b < size && b !in owner && forall c: nat | dataStart <= c < b :: c in owner
      ensures ok ==> Marked(bitmap, size, dataStart, owner.Keys + {b as nat})
      ensures ok ==> data == old(data)[b := ZeroData()] && logged == old(logged) + {b as nat, MapBlockOf(b)}
      ensures Journaled()
    {
      hide AllLogged, Spare, Marked, Owned;
      AllCovered(bitmap, size, dataStart, owner.Keys);
      var f := FirstClear(bitmap, size);
      SetBits(bitmap, size, dataStart, owner.Keys, f);
      if f == size {
        AllOwned(bitmap, size, dataStart, owner.Keys);
        ok, b := false, 0;
        return;
      }
      ok, b := true, f;
      assert Covers(bitmap, b);
      MarkedSet(bitmap, size, dataStart, owner.Keys, b);
      MapLogged(journal.base, data, bitmap, disk, logged, bmapStart, inodeStart, b / BPB, SetIn(bitmap[b / BPB], b % BPB));
      bitmap := Set(bitmap, b);
      StockLeft(bitmap, size, dataStart, owner.Keys + {b as nat});
      OneLess(size, dataStart, owner.Keys, b);
      logged := logged + {MapBlockOf(b)};
      DataLogged(journal.base, data, bitmap, disk, logged, bmapStart, inodeStart, b, ZeroData());
      data := data[b := ZeroData()];
      logged := logged + {b as nat};
    }

    /** bfree: clears the bit of b; panics exactly when it is already clear. */
    method Bfree(b: nat) returns (ok: bool)
      requires Covers(bitmap, b) && Journaled()
      modifies `bitmap, `logged
      ensures Journaled()
      ensures ok == Bit(old(bitmap), b)
      ensures ok ==> bitmap == Clear(old(bitmap), b) && logged == old(logged) + {MapBlockOf(b)}
      ensures !ok ==> bitmap == old(bitmap)
    {
      hide AllLogged;
      if bitmap[b / BPB][b % BPB / 8] & Mask(b % BPB % 8) == 0 {
        return false;
      }
      MapLogged(journal.base, data, bitmap, disk, logged, bmapStart, inodeStart, b / BPB, ClearIn(bitmap[b / BPB], b % BPB));
      bitmap := Clear(bitmap, b);
      logged := logged + {MapBlockOf(b)};
      ok := true;
    }

    /** A block for an empty direct or indirect slot (fs.c:379-380, 387-388). */
    method AllocDirect(i: nat, k: nat) returns (ok: bool, b: Word)
      requires Valid() && i < |inodes| && k <= NDIRECT && inodes[i].addrs[k] == 0
      modifies this
      ensures journal == old(journal)
      ensures !ok ==> old(Stock()) == 0
      ensures ok ==> Valid() && Extends(old(data), old(owner), data, owner) && Stock() == old(Stock()) - 1
      ensures ok ==> Gained(old(inodes), old(data), inodes, data, Slot(i, k), b)
      ensures ok ==> 0 < b < size && inodes == SetAddr(old(inodes), i, k, b) && disk == old(disk) && owner == old(owner)[b := Slot(i, k)]
      ensures ok ==> logged == old(logged) + {b as nat, MapBlockOf(b)}
    {
      hide Spare, AllLogged, Marked, Owned, Gained, Extends;
      ok, b := Balloc();
      if ok {
        OneLess(size, dataStart, owner.Keys, b);
        DirectOwned(inodes, old(data), owner, i, k, b);
        inodes := SetAddr(inodes, i, k, b);
        owner := owner[b := Slot(i, k)];
        assert owner.Keys == old(owner).Keys + {b as nat};
      }
    }

    /** A block for an empty entry of the indirect block (fs.c:391-393). */
    method AllocListed(i: nat, j: nat) returns (ok: bool, b: Word)
      requires Valid() && i < |inodes| && j < NINDIRECT && inodes[i].addrs[NDIRECT] != 0
      requires Addr(inodes, data, Slot(i, 13 + j)) == 0
      modifies this
      ensures journal == old(journal)
      ensures !ok ==> old(Stock()) == 0
      ensures ok ==> Valid() && Extends(old(data), old(owner), data, owner) && Stock() == old(Stock()) - 1
      ensures ok ==> Gained(old(inodes), old(data), inodes, data, Slot(i, 13 + j), b)
      ensures ok ==> 0 < b < size && inodes == old(inodes) && disk == old(disk) && owner == old(owner)[b := Slot(i, 13 + j)]
      ensures ok ==> logged == old(logged) + {b as nat, MapBlockOf(b), inodes[i].addrs[NDIRECT] as nat}
    {
      hide GetWord, Marked, AllLogged, Owned, Addr, Extends, Spare, Gained;
      var ind := inodes[i].addrs[NDIRECT];
      IndirectIn(inodes, data, owner, i);
      ok, b := Balloc();
      if ok {
        OneLess(size, dataStart, owner.Keys, b);
        ListedOwned(inodes, old(data), owner, i, j, b);
        DataLogged(journal.base, data, bitmap, disk, logged, bmapStart, inodeStart, ind, SetWord(data[ind], j, b));
        data := data[ind := SetWord(data[ind], j, b)];
        logged := logged + {ind as nat};
        owner := owner[b := Slot(i, 13 + j)];
        assert owner.Keys == old(owner).Keys + {b as nat};
      }
    }

    /** A direct block (fs.c:378-382). */
    method BmapDirect(i: nat, bn: nat) returns (ok: bool, addr: Word, ghost bits: set<nat>)
      requires Valid() && i < |inodes| && bn < NDIRECT
      modifies this
      ensures journal == old(journal)
      ensures !ok ==> old(BlockOf(inodes, data, i, bn)) == 0 && old(Stock()) == 0
      ensures ok ==> Stock() == old(Stock()) - (if old(BlockOf(inodes, data, i, bn)) == 0 then 1 else 0)
      ensures ok ==> OnlyBlock(old(inodes), old(data), inodes, data, i, bn)
      ensures ok ==> Valid() && addr == BlockOf(inodes, data, i, bn) != 0 && disk == old(disk)
      ensures ok ==> Grew(old(inodes), old(data), old(owner), inodes, data, owner, i)
      ensures old(BlockOf(inodes, data, i, bn)) != 0 ==> ok && bits == {} && Unchanged(old(bitmap), old(data), old(inodes), old(owner), old(logged))
      ensures ok ==> logged <= old(logged) + bits + {addr as nat} && |bits| <= 1 && bits <= MapBlocks()
      ensures ok ==> inodes[i].addrs[NDIRECT] == old(inodes)[i].addrs[NDIRECT]
    {
      hide Owned, Marked, AllLogged, Spare, Gained, OnlyBlock, Addr, BlockOf, MapArea;
      OnlySelf(inodes, data, i, bn);
      DirectAt(inodes, data, i, bn);
      ok, addr, bits := true, inodes[i].addrs[bn], {};
      if addr == 0 {
        ok, addr := AllocDirect(i, bn);
        if ok {
          GainedBlock(old(inodes), old(data), inodes, data, i, bn, addr);
        }
        bits := {MapBlockOf(addr)};
        MapBlockIn(bmapStart, size, addr);
      }
    }

    /** The indirect block, allocated if there is none (fs.c:387-388). */
    method Indirect(i: nat) returns (ok: bool, ghost bits: set<nat>)
      requires Valid() && i < |inodes|
      modifies this
      ensures journal == old(journal)
      ensures !ok ==> old(inodes)[i].addrs[NDIRECT] == 0 && old(Stock()) == 0
      ensures ok ==> Stock() == old(Stock()) - (if old(inodes)[i].addrs[NDIRECT] == 0 then 1 else 0)
      ensures ok ==> OnlyIndirect(old(inodes), old(data), inodes, data, i)
      ensures ok ==> Grew(old(inodes), old(data), old(owner), inodes, data, owner, i)
      ensures ok ==> Valid() && inodes[i].addrs[NDIRECT] != 0 && disk == old(disk)
      ensures old(inodes)[i].addrs[NDIRECT] != 0 ==> ok && bits == {} && Unchanged(old(bitmap), old(data), old(inodes), old(owner), old(logged))
      ensures ok ==> logged <= old(logged) + bits + {inodes[i].addrs[NDIRECT] as nat} && |bits| <= 1 && bits <= MapBlocks()
    {
      hide Owned, Marked, AllLogged, Spare, Gained, OnlyIndirect;
      OnlySelf(inodes, data, i, 0);
      ok, bits := true, {};
      if inodes[i].addrs[NDIRECT] == 0 {
        var ind: Word;
        ok, ind := AllocDirect(i, NDIRECT);
        if ok {
          GainedIndirect(old(inodes), old(data), inodes, data, i, ind);
        }
        bits := {MapBlockOf(ind)};
        MapBlockIn(bmapStart, size, ind);
      }
    }

    /** A block listed in the indirect block (fs.c:389-396). */
    method BmapListed(i: nat, j: nat) returns (ok: bool, addr: Word, ghost bits: set<nat>)
      requires Valid() && i < |inodes| && j < NINDIRECT && inodes[i].addrs[NDIRECT] != 0
      modifies this
      ensures journal == old(journal)
      ensures !ok ==> old(BlockOf(inodes, data, i, j + NDIRECT)) == 0 && old(Stock()) == 0
      ensures ok ==> Stock() == old(Stock()) - (if old(BlockOf(inodes, data, i, j + NDIRECT)) == 0 then 1 else 0)
      ensures ok ==> OnlyBlock(old(inodes), old(data), inodes, data, i, j + NDIRECT)
      ensures ok ==> Valid() && addr == BlockOf(inodes, data, i, j + NDIRECT) != 0 && disk == old(disk)
      ensures ok ==> inodes == old(inodes) && Grew(old(inodes), old(data), old(owner), inodes, data, owner, i)
      ensures old(BlockOf(inodes, data, i, j + NDIRECT)) != 0 ==> ok && bits == {} && Unchanged(old(bitmap), old(data), old(inodes), old(owner), old(logged))
      ensures ok ==> logged <= old(logged) + bits + {addr as nat, inodes[i].addrs[NDIRECT] as nat} && |bits| <= 1 && bits <= MapBlocks()
    {
      hide GetWord, Marked, AllLogged, Spare, Gained, OnlyBlock, Owned, Addr, BlockOf, MapArea;
      OnlySelf(inodes, data, i, j + NDIRECT);
      ListedAt(inodes, data, owner, i, j);
      ok, addr, bits := true, GetWord(data[inodes[i].addrs[NDIRECT]], j), {};
      if addr == 0 {
        ok, addr := AllocListed(i, j);
        bits := {MapBlockOf(addr)};
        MapBlockIn(bmapStart, size, addr);
        if ok {
          GainedBlock(old(inodes), old(data), inodes, data, i, j + NDIRECT, addr);
        }
      }
    }

    /** A block past the direct ones (fs.c:385-398). */
    method BmapFar(i: nat, bn: nat) returns (ok: bool, addr: Word, ghost bits: set<nat>)
      requires Valid() && i < |inodes| && NDIRECT <= bn < MAXFILE
      modifies this
      ensures journal == old(journal)
      ensures ok <==> old(Stock()) >= old(Cost(inodes, data, i, bn, 1))
      ensures ok ==> Stock() == old(Stock()) - old(Cost(inodes, data, i, bn, 1))
      ensures ok ==> OnlyBlock(old(inodes), old(data), inodes, data, i, bn)
      ensures ok ==> Valid() && addr == BlockOf(inodes, data, i, bn) != 0 && disk == old(disk)
      ensures ok ==> Grew(old(inodes), old(data), old(owner), inodes, data, owner, i)
      ensures old(BlockOf(inodes, data, i, bn)) != 0 ==> ok && bits == {} && Unchanged(old(bitmap), old(data), old(inodes), old(owner), old(logged))
      ensures ok ==> logged <= old(logged) + bits + {addr as nat} + IndirectOf(inodes[i]) && bits <= MapBlocks()
      ensures ok ==> |bits| <= 1 + (if old(inodes)[i].addrs[NDIRECT] == 0 then 1 else 0) && inodes[i].addrs[NDIRECT] != 0
    {
      hide GetWord, Marked, Owned, Extends, AllLogged, Spare, Addr, BlockOf, Missing, OnlyBlock, OnlyIndirect, Cost, MapArea, IndirectOf, Grew;
      CostOne(inodes, data, i, bn);
      if BlockOf(inodes, data, i, bn) != 0 {
        ListedThere(inodes, data, i, bn);
      }
      addr := 0;
      ok, bits := Indirect(i);
      if ok {
        ghost var inodes1, data1, owner1, logged1, more := inodes, data, owner, logged, {};
        StockLeft(bitmap, size, dataStart, owner.Keys);
        SameBlock(old(inodes), old(data), inodes, data, i, bn);
        ok, addr, more := BmapListed(i, bn - NDIRECT);
        if ok {
          StockLeft(bitmap, size, dataStart, owner.Keys);
          ThenBlock(old(inodes), old(data), inodes1, data1, inodes, data, i, bn);
          GrewTwice(old(inodes), old(data), old(owner), inodes1, data1, owner1, inodes, data, owner, i);
          FarLogs(old(logged), logged1, logged, bits, more, addr, inodes[i]);
        }
        bits := bits + more;
      }
    }

    /** bmap: the block of file block bn, allocated if there is none; panics exactly past the last file block and when
        there are too few free blocks. `bits` are the bitmap blocks it logged. */
    method Bmap(i: nat, bn: nat) returns (ok: bool, addr: Word, ghost bits: set<nat>)
      requires Valid() && i < |inodes|
      modifies this
      ensures journal == old(journal)
      ensures ok <==> bn < MAXFILE && old(Stock()) >= old(Cost(inodes, data, i, bn, 1))
      ensures ok ==> Stock() == old(Stock()) - old(Cost(inodes, data, i, bn, 1))
      ensures ok ==> OnlyBlock(old(inodes), old(data), inodes, data, i, bn)
      ensures ok ==> Valid() && addr == BlockOf(inodes, data, i, bn) != 0 && disk == old(disk)
      ensures ok ==> Grew(old(inodes), old(data), old(owner), inodes, data, owner, i)
      ensures old(BlockOf(inodes, data, i, bn)) != 0 ==> ok && bits == {} && Unchanged(old(bitmap), old(data), old(inodes), old(owner), old(logged))
      ensures ok ==> logged <= old(logged) + bits + {addr as nat} + IndirectOf(inodes[i]) && bits <= MapBlocks()
      ensures ok ==> |bits| <= 1 + (if old(inodes)[i].addrs[NDIRECT] == 0 && inodes[i].addrs[NDIRECT] != 0 then 1 else 0)
      ensures ok ==> (inodes[i].addrs[NDIRECT] == 0 <==> old(inodes)[i].addrs[NDIRECT] == 0 && bn < NDIRECT)
    {
      hide GetWord, Marked, Owned, Extends, AllLogged, Spare, Addr, BlockOf, Missing, OnlyBlock, Cost;
      CostOne(inodes, data, i, bn);
      if bn < NDIRECT {
        ok, addr, bits := BmapDirect(i, bn);
        if ok {
          StockLeft(bitmap, size, dataStart, owner.Keys);
        }
        return;
      }
      if bn - NDIRECT < NINDIRECT {
        ok, addr, bits := BmapFar(i, bn);
        return;
      }
      NoBlockPast(inodes, data, i, bn);
      ok, addr, bits := false, 0, {};
    }

    /** iupdate: the disk inode becomes the cached one. */
    method Iupdate(i: nat)
      requires i < |inodes| == |disk| && Journaled()
      modifies `disk, `logged
      ensures Journaled()
      ensures disk == old(disk)[i := inodes[i]] && logged == old(logged) + {InodeBlockOf(i)}
    {
      hide AllLogged;
      InodeLogged(journal.base, data, bitmap, disk, logged, bmapStart, inodeStart, i, inodes[i]);
      disk := disk[i := inodes[i]];
      logged := logged + {InodeBlockOf(i)};
    }

    /** Freeing the block of one slot, if it has one. The bit is set, so bfree does not panic. */
    method Release(s: Slot, b: Word, ghost inodes0: seq<Inode>, ghost owner0: map<nat, Slot>)
      requires s.k < NSLOTS && Owned(inodes0, data, owner0) && b == Addr(inodes0, data, s)
      requires owner == Released(owner0, s.inum, Rank(s.k)) && Marked(bitmap, size, dataStart, owner.Keys) && Journaled()
      modifies `bitmap, `logged, `owner
      ensures Journaled() && MapLogs(logged, old(logged), bmapStart, MapCount())
      ensures owner == Released(owner0, s.inum, Rank(s.k) + 1) && Marked(bitmap, size, dataStart, owner.Keys)
    {
      hide Owned, Addr, AllLogged;
      ReleaseOne(inodes0, data, owner0, s.inum, s);
      if b != 0 {
        MarkedClear(bitmap, size, dataStart, owner.Keys, b);
        MapBlockIn(bmapStart, size, b);
        var ok := Bfree(b);
        assert ok;
        owner := owner - {b as nat};
      }
    }

    /** The direct blocks (fs.c:414-419). */
    method TruncDirect(i: nat)
      requires Valid() && i < |inodes|
      modifies `bitmap, `inodes, `logged, `owner
      ensures Marked(bitmap, size, dataStart, owner.Keys) && owner == Released(old(owner), i, NDIRECT) && Journaled()
      ensures |inodes| == |old(inodes)| && (forall j: nat | j < |inodes| && j != i :: inodes[j] == old(inodes)[j])
      ensures inodes[i] == old(inodes)[i].(addrs := inodes[i].addrs) && inodes[i].addrs[NDIRECT] == old(inodes)[i].addrs[NDIRECT]
      ensures forall k: nat | k < NDIRECT :: inodes[i].addrs[k] == 0
      ensures MapLogs(logged, old(logged), bmapStart, MapCount())
    {
      hide Owned, Marked, AllLogged, MapLogs;
      ghost var inodes0, owner0 := inodes, owner;
      ReleasedNone(owner0, i);
      MapLogsNone(logged, bmapStart, MapCount());
      var k := 0;
      while k < NDIRECT
        invariant k <= NDIRECT
        invariant Marked(bitmap, size, dataStart, owner.Keys) && owner == Released(owner0, i, k) && Journaled()
        invariant |inodes| == |inodes0| && (forall j: nat | j < |inodes| && j != i :: inodes[j] == inodes0[j])
        invariant inodes[i] == inodes0[i].(addrs := inodes[i].addrs)
        invariant forall c: nat | c < k :: inodes[i].addrs[c] == 0
        invariant MapLogs(logged, old(logged), bmapStart, MapCount())
        invariant forall c: nat | k <= c <= NDIRECT :: inodes[i].addrs[c] == inodes0[i].addrs[c]
      {
        if inodes[i].addrs[k] != 0 {
          ghost var logged1 := logged;
          Release(Slot(i, k), inodes[i].addrs[k], inodes0, owner0);
          MapLogsTwice(old(logged), logged1, logged, bmapStart, MapCount());
          inodes := SetAddr(inodes, i, k, 0);
        } else {
          ReleaseOne(inodes0, data, owner0, i, Slot(i, k));
        }
        k := k + 1;
      }
    }

    /** The blocks listed in the indirect block, and the indirect block itself (fs.c:421-431). */
    method TruncIndirect(i: nat, ghost inodes0: seq<Inode>, ghost owner0: map<nat, Slot>)
      requires i < |inodes| == |inodes0| && Owned(inodes0, data, owner0) && inodes[i].addrs[NDIRECT] == inodes0[i].addrs[NDIRECT]
      requires Marked(bitmap, size, dataStart, owner.Keys) && owner == Released(owner0, i, NDIRECT) && Journaled()
      modifies `bitmap, `inodes, `logged, `owner
      ensures Marked(bitmap, size, dataStart, owner.Keys) && owner == Released(owner0, i, NSLOTS) && Journaled()
      ensures inodes == SetAddr(old(inodes), i, NDIRECT, 0)
      ensures MapLogs(logged, old(logged), bmapStart, MapCount())
    {
      hide Marked, AllLogged, MapLogs;
      MapLogsNone(logged, bmapStart, MapCount());
      var ind := inodes[i].addrs[NDIRECT];
      assert Addr(inodes0, data, Slot(i, NDIRECT)) == ind;
      if ind != 0 {
        var j := 0;
        while j < NINDIRECT
          invariant j <= NINDIRECT && inodes == old(inodes)
          invariant MapLogs(logged, old(logged), bmapStart, MapCount())
          invariant Marked(bitmap, size, dataStart, owner.Keys) && owner == Released(owner0, i, NDIRECT + j) && Journaled()
        {
          ghost var logged1 := logged;
          Release(Slot(i, 13 + j), GetWord(data[ind], j), inodes0, owner0);
          MapLogsTwice(old(logged), logged1, logged, bmapStart, MapCount());
          j := j + 1;
        }
        ghost var logged2 := logged;
        Release(Slot(i, NDIRECT), ind, inodes0, owner0);
        MapLogsTwice(old(logged), logged2, logged, bmapStart, MapCount());
        inodes := SetAddr(inodes, i, NDIRECT, 0);
      } else {
        NoneListed(inodes0, data, owner0, i);
        assert inodes[i].addrs[NDIRECT := 0] == inodes[i].addrs;
        assert inodes == SetAddr(inodes, i, NDIRECT, 0);
      }
    }

    /** itrunc: frees every block of the inode exactly once and nothing else, and logs at most the bitmap and the block of
        the inode. */
    method Itrunc(i: nat)
      requires Valid() && i < |inodes|
      modifies this
      ensures journal == old(journal)
      ensures Valid() && owner == Released(old(owner), i, NSLOTS)
      ensures inodes == Truncated(old(inodes), i) && disk == old(disk)[i := inodes[i]] && data == old(data)
      ensures |logged - old(logged)| <= MapCount() + 1 && logged <= old(logged) + MapBlocks() + {InodeBlockOf(i)}
    {
      hide Owned, Marked, AllLogged, MapLogs;
      TruncDirect(i);
      ghost var logged1 := logged;
      TruncIndirect(i, old(inodes), old(owner));
      MapLogsTwice(old(logged), logged1, logged, bmapStart, MapCount());
      ghost var logged2 := logged;
      TruncatedOwned(old(inodes), data, old(owner), i);
      inodes := inodes[i := inodes[i].(size := 0)];
      assert inodes[i].addrs == NoAddrs();
      assert inodes == Truncated(old(inodes), i);
      Iupdate(i);
      MapLogsBound(old(logged), logged2, logged, bmapStart, MapCount(), InodeBlockOf(i));
    }

    /** One turn of readi's loop (fs.c:470-473): the bytes from off to the end of the block, at most max of them. */
    method ReadPart(i: nat, off: nat, max: nat) returns (part: seq<Byte>)
      requires Valid() && i < |inodes| && Mapped(inodes, data, i, off) && max > 0
      modifies this
      ensures journal == old(journal)
      ensures Valid() && Unchanged(old(bitmap), old(data), old(inodes), old(owner), old(logged)) && disk == old(disk)
      ensures 0 < |part| <= max && forall k: nat | k < |part| :: part[k] == ByteAt(inodes, data, i, off + k)
    {
      hide Owned, Marked, BlockOf, AllLogged, ByteAt;
      var ok, addr, bits := Bmap(i, off / BSIZE);
      var m := Min(max, BSIZE - off % BSIZE);
      BlockInRange(inodes, data, owner, i, off / BSIZE);
      ByteRun(inodes, data, i, off, m);
      part := data[addr][off % BSIZE..off % BSIZE + m];
    }

    /** readi: what the device answers, if the inode is one, and -1 if there is no such device. On a file: -1 when the
        range starts past the end or wraps, else the exact slice; it allocates nothing, logs nothing and never panics. */
    method Readi(i: nat, offset: Word, count: Word, dev: Option<(int, seq<Byte>)>) returns (r: int, dst: seq<Byte>)
      requires Valid() && i < |inodes| && (inodes[i].kind != T_DEV ==> NoHoles(inodes, data, i, inodes[i].size))
      modifies this
      ensures journal == old(journal)
      ensures Valid() && Unchanged(old(bitmap), old(data), old(inodes), old(owner), old(logged)) && disk == old(disk)
      ensures inodes[i].kind == T_DEV ==> (r, dst) == if dev.Some? then dev.value else (-1, [])
      ensures inodes[i].kind != T_DEV && (offset > inodes[i].size || offset + count >= 0x1_0000_0000) ==> r == -1 && dst == []
      ensures inodes[i].kind != T_DEV && offset <= inodes[i].size && offset + count < 0x1_0000_0000 ==>
                && r == Min(count, inodes[i].size - offset)
                && dst == Contents(inodes, data, i)[offset..offset + r]
    {
      hide Owned, Marked, BlockOf, AllLogged, ByteAt, Mapped;
      dst := [];
      if inodes[i].kind == T_DEV {
        if dev == None {
          return -1, [];
        }
        return dev.value.0, dev.value.1;
      }
      if offset > inodes[i].size || (offset + count) % 0x1_0000_0000 < offset {
        return -1, [];
      }
      var n: nat := count;
      if offset + count > inodes[i].size {
        n := inodes[i].size - offset;
      }
      var tot: nat, off: nat := 0, offset;
      while tot < n
        invariant tot <= n && off == offset + tot && |dst| == tot
        invariant forall k: nat | k < tot :: dst[k] == ByteAt(inodes, data, i, offset + k)
        invariant Valid() && Unchanged(old(bitmap), old(data), old(inodes), old(owner), old(logged)) && disk == old(disk) && journal == old(journal)
      {
        assert Mapped(inodes, data, i, off);
        var part := ReadPart(i, off, n - tot);
        dst := dst + part;
        tot, off := tot + |part|, off + |part|;
      }
      r := n;
    }

    /** One turn of writei's loop (fs.c:499-503): bytes from..to of src, which fall in one block. `bits` are the
        bitmap blocks logged and `addr` the block written. */
    method WritePart(i: nat, offset: nat, src: seq<Byte>, from: nat, to: nat)
      returns (ok: bool, addr: Word, ghost bits: set<nat>)
      requires Valid() && i < |inodes| && from < to <= |src| && (offset + from) % BSIZE + (to - from) <= BSIZE
      requires offset + |src| <= MAXFILE * BSIZE
      modifies this
      ensures journal == old(journal)
      ensures ok <==> old(Stock()) >= old(Cost(inodes, data, i, (offset + from) / BSIZE, 1))
      ensures ok ==> Stock() == old(Stock()) - old(Cost(inodes, data, i, (offset + from) / BSIZE, 1))
      ensures ok ==> OnlyBlock(old(inodes), old(data), inodes, data, i, (offset + from) / BSIZE)
      ensures ok ==> Valid() && disk == old(disk)
      ensures ok ==> Written(old(inodes), old(data), inodes, data, i, offset, src, from, to)
      ensures ok ==> SameInodes(old(inodes), inodes, i)
      ensures ok ==> (inodes[i].addrs[NDIRECT] == 0 <==> old(inodes)[i].addrs[NDIRECT] == 0 && (offset + from) / BSIZE < NDIRECT)
      ensures old(Mapped(inodes, data, i, offset + from)) ==> ok && bits == {} && inodes == old(inodes)
      ensures ok ==> Logs(logged, old(logged), {addr as nat}, bits, inodes[i], 1) && |bits| <= 1 + NewIndirect(old(inodes), inodes, i)
      ensures ok ==> bits <= MapBlocks()
    {
      hide Owned, Marked, Extends, BlockOf, Overlay, Written, AllLogged, Spare, Cost, OnlyBlock, SameAddrs;
      ok, addr, bits := Bmap(i, (offset + from) / BSIZE);
      if ok {
        ExtendsWritten(old(inodes), old(data), old(owner), inodes, data, owner, i, offset, src, from);
        IndirectKept(old(inodes), old(data), old(owner), inodes, data, owner, i);
        BlockInRange(inodes, data, owner, i, (offset + from) / BSIZE);
        ghost var data1 := data;
        WriteOwned(inodes, data, owner, addr, Overlay(data[addr], (offset + from) % BSIZE, src[from..to]));
        DataLogged(journal.base, data, bitmap, disk, logged, bmapStart, inodeStart, addr, Overlay(data[addr], (offset + from) % BSIZE, src[from..to]));
        data := data[addr := Overlay(data[addr], (offset + from) % BSIZE, src[from..to])];
        logged := logged + {addr as nat};
        ThenSame(old(inodes), old(data), inodes, data1, data, i, (offset + from) / BSIZE);
        StoreWritten(inodes, data1, owner, i, offset, src, from, to, addr, data);
        WrittenTwice(old(inodes), old(data), inodes, data1, inodes, data, i, offset, src, from, from, to);
      }
    }

    /** writei: what the device answers, if the inode is one. On a file: -1 and nothing done when the range starts past the end, wraps or passes the largest
        file; else src is laid over the contents, no hole appears, the disk inode is current again, every other
        file is as it was, and at most Budget blocks were logged. It panics exactly when there are fewer free blocks than it needs. */
    method Writei(i: nat, src: seq<Byte>, offset: Word, dev: Option<int>) returns (ok: bool, r: int, ghost wrote: set<nat>)
      requires Valid() && Sound(i) && |src| < 0x1_0000_0000
      modifies this
      ensures journal == old(journal)
      ensures !ok <==> old(inodes)[i].kind != T_DEV && !Refused(old(inodes)[i].size, offset, |src|) &&
                       old(Stock()) < old(Cost(inodes, data, i, offset / BSIZE, Blocks(offset, |src|)))
      ensures ok && old(inodes)[i].kind != T_DEV && !Refused(old(inodes)[i].size, offset, |src|) ==>
                Stock() == old(Stock()) - old(Cost(inodes, data, i, offset / BSIZE, Blocks(offset, |src|)))
      ensures ok ==> OthersMapped(old(inodes), old(data), inodes, data, i)
      ensures ok && old(inodes)[i].kind != T_DEV && !Refused(old(inodes)[i].size, offset, |src|) ==>
                Reached(old(inodes), old(data), inodes, data, i, offset / BSIZE, Blocks(offset, |src|))
      ensures old(inodes)[i].kind == T_DEV ==> ok && r == if dev.Some? then dev.value else -1
      ensures old(inodes)[i].kind != T_DEV && Refused(old(inodes)[i].size, offset, |src|) ==> ok && r == -1
      ensures old(inodes)[i].kind == T_DEV || Refused(old(inodes)[i].size, offset, |src|) ==>
                Unchanged(old(bitmap), old(data), old(inodes), old(owner), old(logged)) && disk == old(disk)
      ensures ok ==> Valid() && Sound(i)
      ensures ok ==> inodes[i].kind == old(inodes)[i].kind && inodes[i].nlink == old(inodes)[i].nlink
      ensures ok && old(inodes)[i].kind != T_DEV && !Refused(old(inodes)[i].size, offset, |src|) ==>
                r == |src| && offset + |src| <= inodes[i].size && Contents(inodes, data, i) == Patched(old(Contents(inodes, data, i)), offset, src)
      ensures ok ==> |inodes| == |old(inodes)| && forall j: nat | j != i && old(Sound(j)) ::
                Sound(j) && inodes[j] == old(inodes)[j] && Contents(inodes, data, j) == old(Contents(inodes, data, j))
      ensures ok ==> |logged - old(logged)| <= Budget(offset, |src|)
      ensures ok ==> |wrote| <= Blocks(offset, |src|) && logged <= old(logged) + wrote + MapBlocks() + IndirectOf(inodes[i]) + {InodeBlockOf(i)}
      ensures ok && old(inodes)[i].addrs[NDIRECT] != 0 ==> inodes[i].addrs[NDIRECT] == old(inodes)[i].addrs[NDIRECT]
    {
      hide Owned, Marked, Extends, BlockOf, Written, Contents, Patched, Blocks, NoHoles, AllLogged, Logs, Cost, OthersMapped, Spare, Along, Reached, MapArea;
      BudgetBound(offset, |src|);
      OthersSelf(inodes, data, i);
      wrote := {};
      if inodes[i].kind == T_DEV {
        return true, if dev == None then -1 else dev.value, {};
      }
      if offset > inodes[i].size || (offset + |src|) % 0x1_0000_0000 < offset {
        return true, -1, {};
      }
      if offset + |src| > MAXFILE * BSIZE {
        return true, -1, {};
      }
      ghost var blocks, bits;
      ok, blocks, bits := WriteLoop(i, src, offset);
      r := |src|;
      if ok {
        AlongEnds(old(inodes), old(data), old(logged), old(Stock()), inodes, data, logged, Stock(), i, offset, src, blocks, bits, MapBlocks());
        ghost var inodes1, logged1 := inodes, logged;
        ghost var size' := if |src| > 0 && offset + |src| > inodes[i].size then offset + |src| else inodes[i].size;
        if |src| > 0 && offset + |src| > inodes[i].size {
          inodes := inodes[i := inodes[i].(size := offset + |src|)];
          Iupdate(i);
        }
        assert inodes == inodes1[i := inodes1[i].(size := size')];
        ResizedOthers(old(inodes), old(data), inodes1, data, i, size', offset / BSIZE, Blocks(offset, |src|));
        ResizeKeeps(inodes1, inodes, i, size', data, owner, old(inodes), old(data), offset, src);
        WrittenContents(old(inodes), old(data), inodes, data, i, offset, src);
        forall j: nat | j != i && old(Sound(j))
          ensures Sound(j) && inodes[j] == old(inodes)[j] && Contents(inodes, data, j) == old(Contents(inodes, data, j))
        {
          WrittenOthers(old(inodes), old(data), inodes, data, i, offset, src, j);
        }
        wrote := blocks;
        LoggedIn(logged, logged1, old(logged), blocks, bits, inodes1[i], InodeBlockOf(i), Blocks(offset, |src|), MapBlocks());
        LoggedBound(logged, logged1, old(logged), blocks, bits, inodes1[i], InodeBlockOf(i), Blocks(offset, |src|));
      }
    }

    /** The loop of writei (fs.c:498-504); `blocks` and `bits` are the data and bitmap blocks it logged. */
    method WriteLoop(i: nat, src: seq<Byte>, offset: nat) returns (ok: bool, ghost blocks: set<nat>, ghost bits: set<nat>)
      requires Valid() && Sound(i) && offset <= inodes[i].size && offset + |src| <= MAXFILE * BSIZE
      modifies this
      ensures journal == old(journal)
      ensures ok <==> old(Stock()) >= old(Cost(inodes, data, i, offset / BSIZE, Blocks(offset, |src|)))
      ensures ok ==> Valid() && disk == old(disk)
      ensures ok ==> Along(old(inodes), old(data), old(logged), old(Stock()), inodes, data, logged, Stock(), i, offset, src, |src|, blocks, bits, MapBlocks())
    {
      hide Owned, Marked, Extends, BlockOf, Written, Mapped, NoHoles, AllLogged, SameInodes, Blocks, Logs, Cost, OnlyBlock, Spare, Along;
      ok, blocks, bits := true, {}, {};
      AlongNone(inodes, data, logged, Stock(), i, offset, src, MapBlocks());
      var tot: nat := 0;
      while tot < |src|
        invariant tot <= |src| && (tot < |src| && tot > 0 ==> (offset + tot) % BSIZE == 0)
        invariant Valid() && disk == old(disk) && journal == old(journal)
        invariant Along(old(inodes), old(data), old(logged), old(Stock()), inodes, data, logged, Stock(), i, offset, src, tot, blocks, bits, MapBlocks())
      {
        var m := Min(|src| - tot, BSIZE - (offset + tot) % BSIZE);
        ghost var inodes1, data1, stock1, logged1, addr, more := inodes, data, Stock(), logged, 0, {};
        AlongSize(old(inodes), old(data), old(logged), old(Stock()), inodes, data, logged, Stock(), i, offset, src, tot, blocks, bits, MapBlocks());
        ok, addr, more := WritePart(i, offset, src, tot, tot + m);
        if !ok {
          AlongFails(old(inodes), old(data), old(logged), old(Stock()), inodes1, data1, logged1, stock1, i, offset, src, tot, m, blocks, bits, MapBlocks());
          return;
        }
        AlongStep(old(inodes), old(data), old(logged), old(Stock()), inodes1, data1, logged1, stock1, inodes, data, logged, Stock(),
                  i, offset, src, tot, m, blocks, bits, addr, more, MapBlocks());
        blocks, bits := blocks + {addr as nat}, bits + more;
        tot := tot + m;
      }
      StockLeft(bitmap, size, dataStart, owner.Keys);
      AlongPaid(old(inodes), old(data), old(logged), old(Stock()), inodes, data, logged, Stock(), i, offset, src, |src|, blocks, bits, MapBlocks());
    }

    ghost predicate Unchanged(bitmap0: seq<MapBlock>, data0: seq<Data>, inodes0: seq<Inode>, owner0: map<nat, Slot>, logged0: set<nat>)
      reads this
    {
      bitmap == bitmap0 && data == data0 && inodes == inodes0 && owner == owner0 && logged == logged0
    }
  }

  /** The blocks of the file system at one moment. */
  datatype Image = Image(data: seq<Data>, bitmap: seq<MapBlock>, disk: seq<Inode>)

  /** An operation that has ended. */
  datatype Transaction = Transaction(before: Image, after: Image, logged: set<nat>)

  /** What was there when the operation under way began, and the operations before it. */
  datatype Journal = Journal(base: Image, past: seq<Transaction>)

  /** The operations lead from one image to the other; each has logged every block it changed, and no more than
      MAXOPBLOCKS of them. */
  ghost predicate Chained(txs: seq<Transaction>, from: Image, to: Image, bmapStart: nat, inodeStart: nat) {
    if txs == [] then from == to
    else
      var t := txs[|txs| - 1];
      && t.after == to && |t.logged| <= MAXOPBLOCKS
      && AllLogged(t.before, to.data, to.bitmap, to.disk, t.logged, bmapStart, inodeStart)
      && Chained(txs[..|txs| - 1], from, t.before, bmapStart, inodeStart)
  }

  /** Nothing but bitmap blocks was logged since. */
  ghost predicate MapLogs(logged: set<nat>, logged0: set<nat>, bmapStart: nat, n: nat) {
    logged <= logged0 + MapArea(bmapStart, n)
  }

  lemma {:induction false} MapLogsTwice(logged0: set<nat>, logged1: set<nat>, logged2: set<nat>, bmapStart: nat, n: nat)
    requires MapLogs(logged1, logged0, bmapStart, n) && MapLogs(logged2, logged1, bmapStart, n)
    ensures MapLogs(logged2, logged0, bmapStart, n)
  {
  }

  lemma {:induction false} MapLogsNone(logged: set<nat>, bmapStart: nat, n: nat)
    ensures MapLogs(logged, logged, bmapStart, n)
  {
  }

  lemma {:induction false} MapLogsBound(logged0: set<nat>, logged1: set<nat>, logged2: set<nat>, bmapStart: nat, n: nat, inode: nat)
    requires MapLogs(logged1, logged0, bmapStart, n) && logged2 == logged1 + {inode}
    ensures |logged2 - logged0| <= n + 1 && logged2 <= logged0 + MapArea(bmapStart, n) + {inode}
  {
    CardAtMost(logged2 - logged0, MapArea(bmapStart, n) + {inode});
  }

  /** The n bitmap blocks. */
  ghost function MapArea(bmapStart: nat, n: nat): (r: set<nat>)
    ensures |r| == n && forall b: nat :: b in r <==> bmapStart <= b < bmapStart + n
  {
    if n == 0 then {} else MapArea(bmapStart, n - 1) + {bmapStart + n - 1}
  }

  /** Every data block, bitmap block and inode that differs from the image is in a logged block. */
  ghost predicate AllLogged(base: Image, data: seq<Data>, bitmap: seq<MapBlock>, disk: seq<Inode>, logged: set<nat>,
                            bmapStart: nat, inodeStart: nat)
  {
    && |base.data| == |data| && |base.bitmap| == |bitmap| && |base.disk| == |disk|
    && (forall b: nat | b < |data| && data[b] != base.data[b] :: b in logged)
    && (forall m: nat | m < |bitmap| && bitmap[m] != base.bitmap[m] :: m + bmapStart in logged)
    && (forall i: nat | i < |disk| && disk[i] != base.disk[i] :: i / IPB + inodeStart in logged)
  }

  lemma {:induction false} DataLogged(base: Image, data: seq<Data>, bitmap: seq<MapBlock>, disk: seq<Inode>, logged: set<nat>,
                                      bmapStart: nat, inodeStart: nat, b: nat, d: Data)
    requires AllLogged(base, data, bitmap, disk, logged, bmapStart, inodeStart) && b < |data|
    ensures AllLogged(base, data[b := d], bitmap, disk, logged + {b}, bmapStart, inodeStart)
  {
  }

  lemma {:induction false} MapLogged(base: Image, data: seq<Data>, bitmap: seq<MapBlock>, disk: seq<Inode>, logged: set<nat>,
                                     bmapStart: nat, inodeStart: nat, m: nat, block: MapBlock)
    requires AllLogged(base, data, bitmap, disk, logged, bmapStart, inodeStart) && m < |bitmap|
    ensures AllLogged(base, data, bitmap[m := block], disk, logged + {m + bmapStart}, bmapStart, inodeStart)
  {
  }

  lemma {:induction false} InodeLogged(base: Image, data: seq<Data>, bitmap: seq<MapBlock>, disk: seq<Inode>, logged: set<nat>,
                                       bmapStart: nat, inodeStart: nat, i: nat, inode: Inode)
    requires AllLogged(base, data, bitmap, disk, logged, bmapStart, inodeStart) && i < |disk|
    ensures AllLogged(base, data, bitmap, disk[i := inode], logged + {i / IPB + inodeStart}, bmapStart, inodeStart)
  {
  }

  /** Only the block numbers of inode i may differ, and its indirect block stays once it is there. */
  ghost predicate SameInodes(inodes: seq<Inode>, inodes': seq<Inode>, i: nat) {
    && |inodes'| == |inodes|
    && (forall j: nat | j < |inodes| && j != i :: inodes'[j] == inodes[j])
    && i < |inodes| && inodes'[i] == inodes[i].(addrs := inodes'[i].addrs)
    && (inodes[i].addrs[NDIRECT] != 0 ==> inodes'[i].addrs[NDIRECT] == inodes[i].addrs[NDIRECT])
  }

  function IndirectOf(inode: Inode): (s: set<nat>)
    ensures |s| <= 1
  {
    if inode.addrs[NDIRECT] == 0 then {} else {inode.addrs[NDIRECT]}
  }

  function NewIndirect(inodes: seq<Inode>, inodes': seq<Inode>, i: nat): nat
    requires i < |inodes| && i < |inodes'|
  {
    if inodes[i].addrs[NDIRECT] == 0 && inodes'[i].addrs[NDIRECT] != 0 then 1 else 0
  }

  lemma {:induction false} IndirectKept(inodes: seq<Inode>, data: seq<Data>, owner: map<nat, Slot>,
                                        inodes': seq<Inode>, data': seq<Data>, owner': map<nat, Slot>, i: nat)
    requires Owned(inodes, data, owner) && Owned(inodes', data', owner') && Grew(inodes, data, owner, inodes', data', owner', i)
    requires i < |inodes|
    ensures SameInodes(inodes, inodes', i)
  {
    var ind := inodes[i].addrs[NDIRECT];
    assert Addr(inodes, data, Slot(i, NDIRECT)) == ind;
    if ind != 0 {
      assert Addr(inodes', data', owner'[ind]) == ind;
    }
  }

  ghost function Spare(size: nat, dataStart: nat, keys: set<nat>): int {
    size - dataStart - |keys|
  }

  lemma {:induction false} OneLess(size: nat, dataStart: nat, keys: set<nat>, b: nat)
    requires b !in keys
    ensures Spare(size, dataStart, keys + {b}) == Spare(size, dataStart, keys) - 1
  {
  }

  /** Nothing but the block of file block bn, and perhaps the indirect block of inode i, is new. */
  ghost predicate OnlyBlock(inodes: seq<Inode>, data: seq<Data>, inodes': seq<Inode>, data': seq<Data>, i: nat, bn: nat) {
    forall s: Slot | s.inum != i || (s.k != FileSlot(bn) && s.k != NDIRECT) :: Addr(inodes', data', s) == Addr(inodes, data, s)
  }

  /** Nothing but the indirect block of inode i is new. */
  ghost predicate OnlyIndirect(inodes: seq<Inode>, data: seq<Data>, inodes': seq<Inode>, data': seq<Data>, i: nat) {
    forall s | s != Slot(i, NDIRECT) :: Addr(inodes', data', s) == Addr(inodes, data, s)
  }

  lemma {:induction false} OnlySelf(inodes: seq<Inode>, data: seq<Data>, i: nat, bn: nat)
    ensures OnlyBlock(inodes, data, inodes, data, i, bn) && OnlyIndirect(inodes, data, inodes, data, i)
  {
  }

  lemma {:induction false} GainedBlock(inodes: seq<Inode>, data: seq<Data>, inodes': seq<Inode>, data': seq<Data>, i: nat, bn: nat, b: Word)
    requires Gained(inodes, data, inodes', data', Slot(i, FileSlot(bn)), b)
    ensures OnlyBlock(inodes, data, inodes', data', i, bn) && BlockOf(inodes', data', i, bn) == b
  {
    hide Addr;
  }

  lemma {:induction false} FarLogs(logged: set<nat>, logged1: set<nat>, logged2: set<nat>, bits: set<nat>, more: set<nat>, addr: nat, inode: Inode)
    requires inode.addrs[NDIRECT] != 0 && logged1 <= logged + bits + {inode.addrs[NDIRECT] as nat}
    requires logged2 <= logged1 + more + {addr, inode.addrs[NDIRECT] as nat}
    ensures logged2 <= logged + (bits + more) + {addr} + IndirectOf(inode) && |bits + more| <= |bits| + |more|
  {
  }

  lemma {:induction false} DirectAt(inodes: seq<Inode>, data: seq<Data>, i: nat, bn: nat)
    requires i < |inodes| && bn < NDIRECT
    ensures BlockOf(inodes, data, i, bn) == inodes[i].addrs[bn]
  {
  }

  lemma {:induction false} ListedAt(inodes: seq<Inode>, data: seq<Data>, owner: map<nat, Slot>, i: nat, j: nat)
    requires Owned(inodes, data, owner) && i < |inodes| && j < NINDIRECT && inodes[i].addrs[NDIRECT] != 0
    ensures inodes[i].addrs[NDIRECT] < |data|
    ensures GetWord(data[inodes[i].addrs[NDIRECT]], j) == BlockOf(inodes, data, i, j + NDIRECT) == Addr(inodes, data, Slot(i, 13 + j))
  {
    IndirectIn(inodes, data, owner, i);
  }

  lemma {:induction false} GainedIndirect(inodes: seq<Inode>, data: seq<Data>, inodes': seq<Inode>, data': seq<Data>, i: nat, b: Word)
    requires Gained(inodes, data, inodes', data', Slot(i, NDIRECT), b)
    ensures OnlyIndirect(inodes, data, inodes', data', i)
  {
    hide Addr;
  }

  lemma {:induction false} SameBlock(inodes: seq<Inode>, data: seq<Data>, inodes': seq<Inode>, data': seq<Data>, i: nat, bn: nat)
    requires OnlyIndirect(inodes, data, inodes', data', i)
    ensures BlockOf(inodes', data', i, bn) == BlockOf(inodes, data, i, bn)
  {
    hide Addr;
  }

  lemma {:induction false} ThenBlock(inodes: seq<Inode>, data: seq<Data>, inodes1: seq<Inode>, data1: seq<Data>,
                                     inodes2: seq<Inode>, data2: seq<Data>, i: nat, bn: nat)
    requires OnlyIndirect(inodes, data, inodes1, data1, i) && OnlyBlock(inodes1, data1, inodes2, data2, i, bn)
    ensures OnlyBlock(inodes, data, inodes2, data2, i, bn)
  {
    hide Addr;
  }

  lemma {:induction false} ThenSame(inodes: seq<Inode>, data: seq<Data>, inodes1: seq<Inode>, data1: seq<Data>, data2: seq<Data>, i: nat, bn: nat)
    requires OnlyBlock(inodes, data, inodes1, data1, i, bn) && SameAddrs(inodes1, data1, data2)
    ensures OnlyBlock(inodes, data, inodes1, data2, i, bn)
  {
    hide Addr;
  }

  lemma {:induction false} NoBlockPast(inodes: seq<Inode>, data: seq<Data>, i: nat, bn: nat)
    requires bn >= MAXFILE
    ensures BlockOf(inodes, data, i, bn) == 0
  {
  }

  lemma {:induction false} ListedThere(inodes: seq<Inode>, data: seq<Data>, i: nat, bn: nat)
    requires i < |inodes| && bn >= NDIRECT && BlockOf(inodes, data, i, bn) != 0
    ensures inodes[i].addrs[NDIRECT] != 0
  {
  }

  lemma {:induction false} CostOne(inodes: seq<Inode>, data: seq<Data>, i: nat, bn: nat)
    requires i < |inodes|
    ensures Cost(inodes, data, i, bn, 1) ==
              (if BlockOf(inodes, data, i, bn) == 0 then 1 else 0) + if bn >= NDIRECT && inodes[i].addrs[NDIRECT] == 0 then 1 else 0
  {
    hide BlockOf;
    assert Missing(inodes, data, i, bn, 0) == 0;
  }

  /** How many of the n file blocks from lo on have no block. */
  function Missing(inodes: seq<Inode>, data: seq<Data>, i: nat, lo: nat, n: nat): nat {
    if n == 0 then 0 else Missing(inodes, data, i, lo, n - 1) + if BlockOf(inodes, data, i, lo + n - 1) == 0 then 1 else 0
  }

  /** How many blocks it takes to give all of them one: those, and the indirect block if it is needed and not there. */
  function Cost(inodes: seq<Inode>, data: seq<Data>, i: nat, lo: nat, n: nat): nat
    requires i < |inodes|
  {
    Missing(inodes, data, i, lo, n) + if n > 0 && lo + n > NDIRECT && inodes[i].addrs[NDIRECT] == 0 then 1 else 0
  }

  lemma {:induction false} AllCovered(bm: seq<MapBlock>, size: nat, dataStart: nat, keys: set<nat>)
    requires Marked(bm, size, dataStart, keys)
    ensures forall b: nat | b < size :: Covers(bm, b)
  {
  }

  lemma {:induction false} SetBits(bm: seq<MapBlock>, size: nat, dataStart: nat, keys: set<nat>, f: nat)
    requires Marked(bm, size, dataStart, keys) && f <= size && forall b: nat | b < f :: Bit(bm, b)
    ensures forall c: nat | dataStart <= c < f :: c in keys
  {
  }

  lemma {:induction false} AllOwned(bm: seq<MapBlock>, size: nat, dataStart: nat, keys: set<nat>)
    requires Marked(bm, size, dataStart, keys) && dataStart <= size && forall b: nat | b < size :: Bit(bm, b)
    ensures Spare(size, dataStart, keys) == 0
  {
    assert keys == MapArea(dataStart, size - dataStart);
  }

  lemma {:induction false} StockLeft(bm: seq<MapBlock>, size: nat, dataStart: nat, keys: set<nat>)
    requires Marked(bm, size, dataStart, keys) && dataStart <= size
    ensures Spare(size, dataStart, keys) >= 0
  {
    CardAtMost(keys, MapArea(dataStart, size - dataStart));
  }

  lemma {:induction false} CostMore(inodes: seq<Inode>, data: seq<Data>, i: nat, lo: nat, n: nat, m: nat)
    requires i < |inodes| && n <= m
    ensures Cost(inodes, data, i, lo, n) <= Cost(inodes, data, i, lo, m)
    decreases m - n
  {
    if n < m {
      CostMore(inodes, data, i, lo, n, m - 1);
    }
  }

  /** No slot of another inode has changed. */
  ghost predicate OthersMapped(inodes: seq<Inode>, data: seq<Data>, inodes': seq<Inode>, data': seq<Data>, i: nat) {
    forall s: Slot | s.inum != i :: Addr(inodes', data', s) == Addr(inodes, data, s)
  }

  /** A write to inode i that has come past n file blocks from lo on: the blocks ahead and behind are as they were, and the indirect
      block is there if one was needed. */
  ghost predicate Reaching(inodes: seq<Inode>, data: seq<Data>, inodes': seq<Inode>, data': seq<Data>, i: nat, lo: nat, n: nat) {
    && OthersMapped(inodes, data, inodes', data', i) && i < |inodes| == |inodes'|
    && (forall bn: nat | bn < lo || lo + n <= bn :: BlockOf(inodes', data', i, bn) == BlockOf(inodes, data, i, bn))
    && (inodes'[i].addrs[NDIRECT] == 0 <==> inodes[i].addrs[NDIRECT] == 0 && !(n > 0 && lo + n > NDIRECT))
  }

  lemma {:induction false} OthersSelf(inodes: seq<Inode>, data: seq<Data>, i: nat)
    ensures OthersMapped(inodes, data, inodes, data, i)
  {
  }

  lemma {:induction false} ReachStart(inodes: seq<Inode>, data: seq<Data>, i: nat, lo: nat)
    requires i < |inodes|
    ensures Reaching(inodes, data, inodes, data, i, lo, 0) && Cost(inodes, data, i, lo, 0) == 0
  {
  }

  /** What the next file block costs now is what it adds to the cost of the whole. */
  lemma {:induction false} CostStep(inodes: seq<Inode>, data: seq<Data>, inodes1: seq<Inode>, data1: seq<Data>, i: nat, lo: nat, n: nat)
    requires Reaching(inodes, data, inodes1, data1, i, lo, n)
    ensures Cost(inodes, data, i, lo, n + 1) == Cost(inodes, data, i, lo, n) + Cost(inodes1, data1, i, lo + n, 1)
  {
    hide BlockOf, OthersMapped;
    assert Missing(inodes1, data1, i, lo + n, 0) == 0;
    assert BlockOf(inodes1, data1, i, lo + n) == BlockOf(inodes, data, i, lo + n);
  }

  lemma {:induction false} ReachStep(inodes: seq<Inode>, data: seq<Data>, inodes1: seq<Inode>, data1: seq<Data>,
                                     inodes2: seq<Inode>, data2: seq<Data>, i: nat, lo: nat, n: nat)
    requires Reaching(inodes, data, inodes1, data1, i, lo, n) && OnlyBlock(inodes1, data1, inodes2, data2, i, lo + n) && |inodes2| == |inodes|
    requires inodes2[i].addrs[NDIRECT] == 0 <==> inodes1[i].addrs[NDIRECT] == 0 && lo + n < NDIRECT
    ensures Reaching(inodes, data, inodes2, data2, i, lo, n + 1)
  {
    hide Addr;
    forall bn: nat | bn < lo || lo + n + 1 <= bn
      ensures BlockOf(inodes2, data2, i, bn) == BlockOf(inodes, data, i, bn)
    {
      assert FileSlot(bn) != FileSlot(lo + n) && FileSlot(bn) != NDIRECT;
      assert BlockOf(inodes1, data1, i, bn) == BlockOf(inodes, data, i, bn);
    }
  }

  /** And the blocks that it took so far are what the way costs. */
  ghost predicate Paid(inodes: seq<Inode>, data: seq<Data>, stock: int, inodes': seq<Inode>, data': seq<Data>, stock': int, i: nat, lo: nat, n: nat) {
    Reaching(inodes, data, inodes', data', i, lo, n) && stock' == stock - Cost(inodes, data, i, lo, n)
  }

  lemma {:induction false} PaidNone(inodes: seq<Inode>, data: seq<Data>, stock: int, i: nat, lo: nat)
    requires i < |inodes|
    ensures Paid(inodes, data, stock, inodes, data, stock, i, lo, 0)
  {
    ReachStart(inodes, data, i, lo);
  }

  lemma {:induction false} PayMore(inodes: seq<Inode>, data: seq<Data>, stock: int, inodes1: seq<Inode>, data1: seq<Data>, stock1: int,
                                   inodes2: seq<Inode>, data2: seq<Data>, stock2: int, i: nat, lo: nat, n: nat)
    requires Paid(inodes, data, stock, inodes1, data1, stock1, i, lo, n)
    requires OnlyBlock(inodes1, data1, inodes2, data2, i, lo + n) && i < |inodes1| == |inodes2| == |inodes|
    requires inodes2[i].addrs[NDIRECT] == 0 <==> inodes1[i].addrs[NDIRECT] == 0 && lo + n < NDIRECT
    requires stock2 == stock1 - Cost(inodes1, data1, i, lo + n, 1)
    ensures Paid(inodes, data, stock, inodes2, data2, stock2, i, lo, n + 1)
  {
    hide Reaching, Cost, OnlyBlock;
    CostStep(inodes, data, inodes1, data1, i, lo, n);
    ReachStep(inodes, data, inodes1, data1, inodes2, data2, i, lo, n);
  }

  lemma {:induction false} PayFails(inodes: seq<Inode>, data: seq<Data>, stock: int, inodes1: seq<Inode>, data1: seq<Data>, stock1: int,
                                    i: nat, lo: nat, n: nat, m: nat)
    requires i < |inodes1| && Paid(inodes, data, stock, inodes1, data1, stock1, i, lo, n) && n < m
    requires stock1 < Cost(inodes1, data1, i, lo + n, 1)
    ensures i < |inodes| && stock < Cost(inodes, data, i, lo, m)
  {
    hide Cost;
    CostStep(inodes, data, inodes1, data1, i, lo, n);
    CostMore(inodes, data, i, lo, n + 1, m);
  }

  lemma {:induction false} PaidAll(inodes: seq<Inode>, data: seq<Data>, stock: int, inodes': seq<Inode>, data': seq<Data>, stock': int,
                                   i: nat, lo: nat, n: nat)
    requires Paid(inodes, data, stock, inodes', data', stock', i, lo, n)
    ensures Reaching(inodes, data, inodes', data', i, lo, n) && i < |inodes| && stock' == stock - Cost(inodes, data, i, lo, n)
  {
    hide Cost, OthersMapped;
  }

  /** writei's loop has come to byte tot of src: what it has stored, logged and taken. */
  ghost predicate Along(inodes: seq<Inode>, data: seq<Data>, logged: set<nat>, stock: int,
                          inodes': seq<Inode>, data': seq<Data>, logged': set<nat>, stock': int,
                          i: nat, offset: nat, src: seq<Byte>, tot: nat, blocks: set<nat>, bits: set<nat>, area: set<nat>)
    requires tot <= |src|
  {
    && i < |inodes| == |inodes'| && SameInodes(inodes, inodes', i)
    && Written(inodes, data, inodes', data', i, offset, src, 0, tot)
    && (inodes'[i] == inodes[i] || offset + tot > inodes[i].size)
    && Logs(logged', logged, blocks, bits, inodes'[i], Blocks(offset, tot))
    && |bits| <= Fresh(offset, tot) + NewIndirect(inodes, inodes', i) && bits <= area
    && Paid(inodes, data, stock, inodes', data', stock', i, offset / BSIZE, Blocks(offset, tot))
  }

  lemma {:induction false} AlongNone(inodes: seq<Inode>, data: seq<Data>, logged: set<nat>, stock: int, i: nat, offset: nat, src: seq<Byte>, area: set<nat>)
    requires i < |inodes|
    ensures Along(inodes, data, logged, stock, inodes, data, logged, stock, i, offset, src, 0, {}, {}, area)
  {
    hide Written, Logs, Paid, SameInodes;
    SameSelf(inodes, i);
    LogsNothing(logged, inodes[i], Blocks(offset, 0));
    WrittenNothing(inodes, data, i, offset, src);
    PaidNone(inodes, data, stock, i, offset / BSIZE);
  }

  lemma {:induction false} AlongSize(inodes: seq<Inode>, data: seq<Data>, logged: set<nat>, stock: int,
                          inodes': seq<Inode>, data': seq<Data>, logged': set<nat>, stock': int,
                          i: nat, offset: nat, src: seq<Byte>, tot: nat, blocks: set<nat>, bits: set<nat>, area: set<nat>)
    requires tot <= |src| && Along(inodes, data, logged, stock, inodes', data', logged', stock', i, offset, src, tot, blocks, bits, area)
    ensures i < |inodes| == |inodes'|
  {
    hide Written, Logs, Paid, SameInodes, Blocks, Fresh, NewIndirect;
  }

  lemma {:induction false} AlongPaid(inodes: seq<Inode>, data: seq<Data>, logged: set<nat>, stock: int,
                          inodes': seq<Inode>, data': seq<Data>, logged': set<nat>, stock': int,
                          i: nat, offset: nat, src: seq<Byte>, tot: nat, blocks: set<nat>, bits: set<nat>, area: set<nat>)
    requires tot <= |src| && Along(inodes, data, logged, stock, inodes', data', logged', stock', i, offset, src, tot, blocks, bits, area)
    ensures i < |inodes| && stock' == stock - Cost(inodes, data, i, offset / BSIZE, Blocks(offset, tot))
  {
    hide Written, Logs, Paid, SameInodes, Blocks, Fresh, NewIndirect, Reaching;
    PaidAll(inodes, data, stock, inodes', data', stock', i, offset / BSIZE, Blocks(offset, tot));
  }

  lemma {:induction false} AlongEnds(inodes: seq<Inode>, data: seq<Data>, logged: set<nat>, stock: int,
                          inodes': seq<Inode>, data': seq<Data>, logged': set<nat>, stock': int,
                          i: nat, offset: nat, src: seq<Byte>, blocks: set<nat>, bits: set<nat>, area: set<nat>)
    requires Along(inodes, data, logged, stock, inodes', data', logged', stock', i, offset, src, |src|, blocks, bits, area)
    ensures i < |inodes| == |inodes'| && SameInodes(inodes, inodes', i)
    ensures Reached(inodes, data, inodes', data', i, offset / BSIZE, Blocks(offset, |src|))
    ensures Written(inodes, data, inodes', data', i, offset, src, 0, |src|)
    ensures inodes'[i] == inodes[i] || offset + |src| > inodes[i].size
    ensures Logs(logged', logged, blocks, bits, inodes'[i], Blocks(offset, |src|)) && |bits| <= Fresh(offset, |src|) + 1 && bits <= area
    ensures stock' == stock - Cost(inodes, data, i, offset / BSIZE, Blocks(offset, |src|))
  {
    hide Written, Logs, Paid, SameInodes, Blocks, Fresh, Cost, Reaching, Reached;
    PaidAll(inodes, data, stock, inodes', data', stock', i, offset / BSIZE, Blocks(offset, |src|));
    WrittenReaches(inodes, data, inodes', data', i, offset, src);
  }

  lemma {:induction false} AlongFails(inodes: seq<Inode>, data: seq<Data>, logged: set<nat>, stock: int,
                          inodes1: seq<Inode>, data1: seq<Data>, logged1: set<nat>, stock1: int,
                          i: nat, offset: nat, src: seq<Byte>, tot: nat, m: nat, blocks: set<nat>, bits: set<nat>, area: set<nat>)
    requires m > 0 && tot + m <= |src| && (offset + tot) % BSIZE + m <= BSIZE && (tot > 0 ==> (offset + tot) % BSIZE == 0)
    requires Along(inodes, data, logged, stock, inodes1, data1, logged1, stock1, i, offset, src, tot, blocks, bits, area)
    requires i < |inodes1| && stock1 < Cost(inodes1, data1, i, (offset + tot) / BSIZE, 1)
    ensures i < |inodes| && stock < Cost(inodes, data, i, offset / BSIZE, Blocks(offset, |src|))
  {
    hide Written, Logs, Paid, SameInodes, Blocks, Fresh, NewIndirect, Cost;
    BlocksAt(offset, tot);
    BlocksStep(offset, tot, m);
    BlocksMore(offset, tot + m, |src|);
    PayFails(inodes, data, stock, inodes1, data1, stock1, i, offset / BSIZE, Blocks(offset, tot), Blocks(offset, |src|));
  }

  lemma {:induction false} AlongStep(inodes: seq<Inode>, data: seq<Data>, logged: set<nat>, stock: int,
                          inodes1: seq<Inode>, data1: seq<Data>, logged1: set<nat>, stock1: int,
                          inodes2: seq<Inode>, data2: seq<Data>, logged2: set<nat>, stock2: int,
                          i: nat, offset: nat, src: seq<Byte>, tot: nat, m: nat, blocks: set<nat>, bits: set<nat>,
                          addr: nat, more: set<nat>, area: set<nat>)
    requires m > 0 && tot + m <= |src| && (offset + tot) % BSIZE + m <= BSIZE && (tot > 0 ==> (offset + tot) % BSIZE == 0)
    requires Along(inodes, data, logged, stock, inodes1, data1, logged1, stock1, i, offset, src, tot, blocks, bits, area)
    requires i < |inodes| == |inodes1| == |inodes2| && NoHoles(inodes, data, i, inodes[i].size) && offset <= inodes[i].size
    requires stock2 == stock1 - Cost(inodes1, data1, i, (offset + tot) / BSIZE, 1)
    requires OnlyBlock(inodes1, data1, inodes2, data2, i, (offset + tot) / BSIZE) && SameInodes(inodes1, inodes2, i)
    requires inodes2[i].addrs[NDIRECT] == 0 <==> inodes1[i].addrs[NDIRECT] == 0 && (offset + tot) / BSIZE < NDIRECT
    requires Written(inodes1, data1, inodes2, data2, i, offset, src, tot, tot + m)
    requires Mapped(inodes1, data1, i, offset + tot) ==> more == {} && inodes2 == inodes1
    requires Logs(logged2, logged1, {addr}, more, inodes2[i], 1) && |more| <= 1 + NewIndirect(inodes1, inodes2, i) && more <= area
    ensures Along(inodes, data, logged, stock, inodes2, data2, logged2, stock2, i, offset, src, tot + m, blocks + {addr}, bits + more, area)
  {
    hide Written, Logs, Paid, SameInodes, Blocks, Cost, OnlyBlock, NoHoles, Mapped;
    StillMapped(inodes, data, inodes1, data1, i, offset, src, tot);
    WrittenTwice(inodes, data, inodes1, data1, inodes2, data2, i, offset, src, 0, tot, tot + m);
    BlocksAt(offset, tot);
    BlocksStep(offset, tot, m);
    SameTwice(inodes, inodes1, inodes2, i);
    LogsTwice(logged, logged1, logged2, blocks, bits, inodes1[i], inodes2[i], addr, more, Blocks(offset, tot));
    PayMore(inodes, data, stock, inodes1, data1, stock1, inodes2, data2, stock2, i, offset / BSIZE, Blocks(offset, tot));
  }

  /** The write is past the n file blocks, and all of them are there. */
  ghost predicate Reached(inodes: seq<Inode>, data: seq<Data>, inodes': seq<Inode>, data': seq<Data>, i: nat, lo: nat, n: nat) {
    Reaching(inodes, data, inodes', data', i, lo, n) && forall bn: nat | lo <= bn < lo + n :: BlockOf(inodes', data', i, bn) != 0
  }

  lemma {:induction false} WrittenReaches(inodes: seq<Inode>, data: seq<Data>, inodes': seq<Inode>, data': seq<Data>, i: nat, offset: nat, src: seq<Byte>)
    requires Reaching(inodes, data, inodes', data', i, offset / BSIZE, Blocks(offset, |src|))
    requires Written(inodes, data, inodes', data', i, offset, src, 0, |src|)
    ensures Reached(inodes, data, inodes', data', i, offset / BSIZE, Blocks(offset, |src|))
  {
    hide BlockOf, Reaching, ByteAt;
    forall bn: nat | offset / BSIZE <= bn < offset / BSIZE + Blocks(offset, |src|)
      ensures BlockOf(inodes', data', i, bn) != 0
    {
      var o := if bn * BSIZE < offset then offset else bn * BSIZE;
      assert o / BSIZE == bn && offset <= o < offset + |src|;
      assert Mapped(inodes', data', i, o);
    }
  }

  lemma {:induction false} ResizedOthers(inodes: seq<Inode>, data: seq<Data>, inodes1: seq<Inode>, data1: seq<Data>, i: nat, size: Word, lo: nat, n: nat)
    requires Reached(inodes, data, inodes1, data1, i, lo, n)
    ensures i < |inodes1| && Reached(inodes, data, inodes1[i := inodes1[i].(size := size)], data1, i, lo, n)
    ensures OthersMapped(inodes, data, inodes1[i := inodes1[i].(size := size)], data1, i)
  {
    var inodes2 := inodes1[i := inodes1[i].(size := size)];
    forall s: Slot
      ensures Addr(inodes2, data1, s) == Addr(inodes1, data1, s)
    {
    }
    hide Addr;
    forall bn: nat
      ensures BlockOf(inodes2, data1, i, bn) == BlockOf(inodes1, data1, i, bn)
    {
    }
    hide BlockOf;
  }

  lemma {:induction false} BlocksAt(offset: nat, tot: nat)
    requires tot > 0 ==> (offset + tot) % BSIZE == 0
    ensures (offset + tot) / BSIZE == offset / BSIZE + Blocks(offset, tot)
  {
  }

  lemma {:induction false} BlocksMore(offset: nat, n: nat, m: nat)
    requires n <= m
    ensures Blocks(offset, n) <= Blocks(offset, m)
  {
  }

  predicate Refused(size: nat, offset: nat, n: nat) {
    offset > size || offset + n >= 0x1_0000_0000 || offset + n > MAXFILE * BSIZE
  }

  /** The blocks that n bytes at offset fall in. */
  function Blocks(offset: nat, n: nat): nat {
    if n == 0 then 0 else (offset + n - 1) / BSIZE - offset / BSIZE + 1
  }

  /** The blocks of a write that starts inside a block, where the first is never new. */
  function Fresh(offset: nat, n: nat): int {
    Blocks(offset, n) - (if n > 0 && offset % BSIZE != 0 then 1 else 0)
  }

  /** Data blocks, a bitmap block for each new one and for the indirect block, the indirect block, the inode. */
  function Budget(offset: nat, n: nat): int {
    Blocks(offset, n) + Fresh(offset, n) + 3
  }

  lemma {:induction false} WrittenNothing(inodes: seq<Inode>, data: seq<Data>, i: nat, off: nat, src: seq<Byte>)
    ensures Written(inodes, data, inodes, data, i, off, src, 0, 0)
  {
  }

  /** Where the next byte goes was allocated from the start if it lies inside the old file or inside a block. */
  lemma {:induction false} StillMapped(inodes: seq<Inode>, data: seq<Data>, inodes': seq<Inode>, data': seq<Data>,
                                       i: nat, off: nat, src: seq<Byte>, tot: nat)
    requires i < |inodes| && NoHoles(inodes, data, i, inodes[i].size) && off <= inodes[i].size && tot < |src|
    requires Written(inodes, data, inodes', data', i, off, src, 0, tot)
    ensures off + tot < inodes[i].size || (tot == 0 && off % BSIZE != 0) ==> Mapped(inodes', data', i, off + tot)
  {
    hide Mapped, ByteAt;
    if tot == 0 && off % BSIZE != 0 {
      UnalignedMapped(inodes, data, i, off);
    }
  }

  lemma {:induction false} BudgetBound(offset: nat, n: nat)
    ensures Budget(offset, n) >= 0
  {
  }

  /** Each turn of the loop covers exactly one more block. */
  lemma {:induction false} BlocksStep(offset: nat, tot: nat, m: nat)
    requires m > 0 && (offset + tot) % BSIZE + m <= BSIZE && (tot > 0 ==> (offset + tot) % BSIZE == 0)
    ensures Blocks(offset, tot + m) == Blocks(offset, tot) + 1
  {
    assert (offset + tot + m - 1) / BSIZE == (offset + tot) / BSIZE;
    if tot > 0 {
      assert (offset + tot - 1) / BSIZE == (offset + tot) / BSIZE - 1;
    }
  }

  lemma {:induction false} SameSelf(inodes: seq<Inode>, i: nat)
    requires i < |inodes|
    ensures SameInodes(inodes, inodes, i)
  {
  }

  lemma {:induction false} SameTwice(inodes: seq<Inode>, inodes1: seq<Inode>, inodes2: seq<Inode>, i: nat)
    requires SameInodes(inodes, inodes1, i) && SameInodes(inodes1, inodes2, i)
    ensures SameInodes(inodes, inodes2, i) && NewIndirect(inodes, inodes2, i) == NewIndirect(inodes, inodes1, i) + NewIndirect(inodes1, inodes2, i)
    ensures IndirectOf(inodes1[i]) <= IndirectOf(inodes2[i])
  {
  }

  /** Blocks logged since logged0: at most n data blocks, the bitmap blocks `bits` and the indirect block. */
  ghost predicate Logs(logged: set<nat>, logged0: set<nat>, blocks: set<nat>, bits: set<nat>, inode: Inode, n: nat) {
    logged <= logged0 + blocks + bits + IndirectOf(inode) && |blocks| <= n
  }

  lemma {:induction false} LogsNothing(logged: set<nat>, inode: Inode, n: nat)
    ensures Logs(logged, logged, {}, {}, inode, n)
  {
  }

  lemma {:induction false} LogsTwice(logged0: set<nat>, logged1: set<nat>, logged2: set<nat>, blocks: set<nat>, bits: set<nat>,
                                     inode1: Inode, inode2: Inode, addr: nat, more: set<nat>, n: nat)
    requires Logs(logged1, logged0, blocks, bits, inode1, n) && IndirectOf(inode1) <= IndirectOf(inode2)
    requires Logs(logged2, logged1, {addr}, more, inode2, 1)
    ensures Logs(logged2, logged0, blocks + {addr}, bits + more, inode2, n + 1) && |bits + more| <= |bits| + |more|
  {
    hide IndirectOf;
  }

  lemma {:induction false} LoggedIn(logged: set<nat>, logged1: set<nat>, logged0: set<nat>, blocks: set<nat>, bits: set<nat>, node: Inode, inode: nat,
                                    n: nat, area: set<nat>)
    requires Logs(logged1, logged0, blocks, bits, node, n) && logged <= logged1 + {inode} && bits <= area
    ensures |blocks| <= n && logged <= logged0 + blocks + area + IndirectOf(node) + {inode}
  {
    hide IndirectOf;
  }

  lemma {:induction false} MapBlockIn(bmapStart: nat, size: nat, b: nat)
    ensures b < size ==> b / BPB + bmapStart in MapArea(bmapStart, (size + BPB - 1) / BPB)
  {
    assert b < size ==> b / BPB < (size + BPB - 1) / BPB;
  }

  lemma {:induction false} LoggedBound(logged: set<nat>, logged1: set<nat>, logged0: set<nat>, blocks: set<nat>, bits: set<nat>, node: Inode, inode: nat,
                                       n: nat)
    requires Logs(logged1, logged0, blocks, bits, node, n) && logged <= logged1 + {inode}
    ensures |logged - logged0| <= n + |bits| + 2
  {
    var all := blocks + bits + IndirectOf(node) + {inode};
    assert logged - logged0 <= all;
    CardAtMost(logged - logged0, all);
  }

  lemma {:induction false} IndirectIn(inodes: seq<Inode>, data: seq<Data>, owner: map<nat, Slot>, i: nat)
    requires Owned(inodes, data, owner) && i < |inodes| && inodes[i].addrs[NDIRECT] != 0
    ensures inodes[i].addrs[NDIRECT] as nat in owner && inodes[i].addrs[NDIRECT] < |data|
  {
    assert Addr(inodes, data, Slot(i, NDIRECT)) == inodes[i].addrs[NDIRECT];
  }

  lemma {:induction false} BlockInRange(inodes: seq<Inode>, data: seq<Data>, owner: map<nat, Slot>, i: nat, bn: nat)
    requires Owned(inodes, data, owner) && BlockOf(inodes, data, i, bn) != 0
    ensures BlockOf(inodes, data, i, bn) < |data| && BlockOf(inodes, data, i, bn) in owner
    ensures owner[BlockOf(inodes, data, i, bn)] == Slot(i, FileSlot(bn))
  {
  }

  /** A run of bytes within one block. */
  lemma {:induction false} ByteRun(inodes: seq<Inode>, data: seq<Data>, i: nat, off: nat, m: nat)
    requires off % BSIZE + m <= BSIZE && BlockOf(inodes, data, i, off / BSIZE) < |data|
    ensures forall k: nat | off <= k < off + m ::
              ByteAt(inodes, data, i, k) == data[BlockOf(inodes, data, i, off / BSIZE)][off % BSIZE + (k - off)]
  {
    hide BlockOf;
    forall k: nat | off <= k < off + m
      ensures k / BSIZE == off / BSIZE && k % BSIZE == off % BSIZE + (k - off)
    {
    }
  }

  /** Inode i may have gained blocks; nothing else that can be read through an inode has changed. */
  ghost predicate Grew(inodes: seq<Inode>, data: seq<Data>, owner: map<nat, Slot>,
                       inodes': seq<Inode>, data': seq<Data>, owner': map<nat, Slot>, i: nat)
  {
    && Extends(data, owner, data', owner')
    && |inodes'| == |inodes|
    && (forall j: nat | j < |inodes| && j != i :: inodes'[j] == inodes[j])
    && (i < |inodes| ==> inodes'[i] == inodes[i].(addrs := inodes'[i].addrs))
  }

  lemma {:induction false} GrewTwice(inodes: seq<Inode>, data: seq<Data>, owner: map<nat, Slot>,
                                     inodes1: seq<Inode>, data1: seq<Data>, owner1: map<nat, Slot>,
                                     inodes2: seq<Inode>, data2: seq<Data>, owner2: map<nat, Slot>, i: nat)
    requires Grew(inodes, data, owner, inodes1, data1, owner1, i) && Grew(inodes1, data1, owner1, inodes2, data2, owner2, i)
    ensures Grew(inodes, data, owner, inodes2, data2, owner2, i)
  {
  }
}
