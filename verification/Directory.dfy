/** dirlookup and dirlink (fs.c:524-580) over file contents: a directory is a file of entries, read by readi and written by
    writei. Namespace's directories are what Entries makes of these files. */
module Directory {
  import opened Common
  import opened DiskModel
  import opened FileBlocks
  import opened Bitmap
  import opened BlockOwners
  import opened FileMap
  import opened File
  import opened FileSystem
  import opened Links
  import opened Namespace
  import opened DirBytes

  /** A directory without holes whose size is a whole number of entries. */
  ghost predicate IsDirectory(fs: Fs, d: nat)
    reads fs
  {
    fs.Sound(d) && fs.inodes[d].kind == T_DIR && fs.inodes[d].size % ENTRY == 0
  }

  ghost function Ents(fs: Fs, d: nat): seq<Dirent>
    requires IsDirectory(fs, d)
    reads fs
  {
    Entries(Contents(fs.inodes, fs.data, d))
  }

  /** Entry k as readi delivers it. */
  method ReadEntry(fs: Fs, d: nat, k: nat) returns (de: seq<Byte>)
    requires fs.Valid() && IsDirectory(fs, d) && ENTRY * k < fs.inodes[d].size
    modifies fs
    ensures fs.Valid() && fs.Unchanged(old(fs.bitmap), old(fs.data), old(fs.inodes), old(fs.owner), old(fs.logged))
    ensures fs.disk == old(fs.disk) && fs.journal == old(fs.journal)
    ensures IsDirectory(fs, d) && |de| == ENTRY && k < |Ents(fs, d)| && Entry(de) == Ents(fs, d)[k]
  {
    hide NoHoles, Contents, Owned, Marked, AllLogged, Entry;
    assert fs.inodes[d].size == ENTRY * (fs.inodes[d].size / ENTRY);
    assert ENTRY * k + ENTRY <= fs.inodes[d].size;
    var r;
    r, de := fs.Readi(d, ENTRY * k, ENTRY, None);
    assert de == Slice(Contents(fs.inodes, fs.data, d), k);
  }

  /** dirlookup: the first entry in use whose name agrees in its first DIRSIZ characters; it changes nothing. */
  method Dirlookup(fs: Fs, d: nat, name: string) returns (found: bool, inum: nat, k: nat)
    requires fs.Valid() && IsDirectory(fs, d) && Nameable(name)
    modifies fs
    ensures fs.Valid() && fs.Unchanged(old(fs.bitmap), old(fs.data), old(fs.inodes), old(fs.owner), old(fs.logged))
    ensures fs.disk == old(fs.disk) && fs.journal == old(fs.journal) && IsDirectory(fs, d)
    ensures found <==> HasName(Ents(fs, d), Short(name))
    ensures found ==> FirstBears(Ents(fs, d), k, Short(name)) && inum == Ents(fs, d)[k].inum
  {
    hide NoHoles, Contents, Owned, Marked, AllLogged, Entry, Entries;
    k := 0;
    while ENTRY * k < fs.inodes[d].size
      invariant fs.Valid() && fs.Unchanged(old(fs.bitmap), old(fs.data), old(fs.inodes), old(fs.owner), old(fs.logged))
      invariant fs.disk == old(fs.disk) && fs.journal == old(fs.journal) && IsDirectory(fs, d) && k <= |Ents(fs, d)|
      invariant forall j: nat | j < k :: !Bears(Ents(fs, d), j, Short(name))
      decreases fs.inodes[d].size - k
    {
      var de := ReadEntry(fs, d, k);
      EntryFields(de);
      inum := Number(de);
      if inum != 0 {
        var c := Namecmp(name, de[2..]);
        if c == 0 {
          assert Bears(Ents(fs, d), k, Short(name));
          return true, inum, k;
        }
      }
      k := k + 1;
    }
    assert k == |Ents(fs, d)|;
    found, inum := false, 0;
  }

  /** de.inum */
  function Number(de: seq<Byte>): nat
    requires |de| == ENTRY
  {
    var lo: int, hi: int := de[0], de[1];
    lo + 0x100 * hi
  }

  lemma {:induction false} EntryFields(de: seq<Byte>)
    requires |de| == ENTRY
    ensures Entry(de) == Dirent(Number(de), CString(de[2..]))
  {
  }

  /** dirlink's search (fs.c:564-570): the first empty entry, or the end. */
  method FindEmpty(fs: Fs, d: nat) returns (k: nat)
    requires fs.Valid() && IsDirectory(fs, d)
    modifies fs
    ensures fs.Valid() && fs.Unchanged(old(fs.bitmap), old(fs.data), old(fs.inodes), old(fs.owner), old(fs.logged))
    ensures fs.disk == old(fs.disk) && fs.journal == old(fs.journal) && IsDirectory(fs, d)
    ensures k <= |Ents(fs, d)| && (k < |Ents(fs, d)| ==> Ents(fs, d)[k].inum == 0)
    ensures forall j: nat | j < k :: Ents(fs, d)[j].inum != 0
  {
    hide NoHoles, Contents, Owned, Marked, AllLogged, Entry, Entries;
    k := 0;
    while ENTRY * k < fs.inodes[d].size
      invariant fs.Valid() && fs.Unchanged(old(fs.bitmap), old(fs.data), old(fs.inodes), old(fs.owner), old(fs.logged))
      invariant fs.disk == old(fs.disk) && fs.journal == old(fs.journal) && IsDirectory(fs, d) && k <= |Ents(fs, d)|
      invariant forall j: nat | j < k :: Ents(fs, d)[j].inum != 0
      decreases fs.inodes[d].size - k
    {
      var de := ReadEntry(fs, d, k);
      EntryFields(de);
      if Number(de) == 0 {
        return;
      }
      k := k + 1;
    }
  }

  /** isdirempty (sysfile.c:169-181) */
  method Isdirempty(fs: Fs, d: nat) returns (empty: bool)
    requires fs.Valid() && IsDirectory(fs, d)
    modifies fs
    ensures fs.Valid() && fs.Unchanged(old(fs.bitmap), old(fs.data), old(fs.inodes), old(fs.owner), old(fs.logged))
    ensures fs.disk == old(fs.disk) && fs.journal == old(fs.journal) && IsDirectory(fs, d)
    ensures empty <==> EmptyDir(Ents(fs, d))
  {
    hide NoHoles, Contents, Owned, Marked, AllLogged, Entry, Entries;
    ghost var es := Ents(fs, d);
    var k := 2;
    while ENTRY * k < fs.inodes[d].size
      invariant fs.Valid() && fs.Unchanged(old(fs.bitmap), old(fs.data), old(fs.inodes), old(fs.owner), old(fs.logged))
      invariant fs.disk == old(fs.disk) && fs.journal == old(fs.journal) && IsDirectory(fs, d) && Ents(fs, d) == es && k >= 2
      invariant forall j: nat | 2 <= j < k && j < |es| :: es[j].inum == 0
      decreases fs.inodes[d].size - k
    {
      var de := ReadEntry(fs, d, k);
      EntryFields(de);
      if Number(de) != 0 {
        return false;
      }
      k := k + 1;
    }
    empty := true;
  }

  // ----- Blocks logged -----

  /** At most n blocks were logged in between, besides the known ones. */
  ghost predicate Spends(logged0: set<nat>, logged: set<nat>, n: nat, known: set<nat>) {
    |logged - logged0 - known| <= n
  }

  lemma {:induction false} SpendsIn(logged0: set<nat>, logged: set<nat>, wrote: set<nat>, n: nat, known: set<nat>)
    requires logged <= logged0 + wrote + known && |wrote| <= n
    ensures Spends(logged0, logged, n, known)
  {
    CardAtMost(logged - logged0 - known, wrote);
  }

  lemma {:induction false} SpendsMore(logged0: set<nat>, logged1: set<nat>, logged2: set<nat>, n: nat, m: nat,
                                      known1: set<nat>, known2: set<nat>, known: set<nat>)
    requires Spends(logged0, logged1, n, known1) && Spends(logged1, logged2, m, known2) && known1 <= known && known2 <= known
    ensures Spends(logged0, logged2, n + m, known)
  {
    var a, b := logged1 - logged0 - known1, logged2 - logged1 - known2;
    CardAtMost(logged2 - logged0 - known, a + b);
  }

  lemma {:induction false} SpendsTotal(logged: set<nat>, n: nat, known: set<nat>)
    requires Spends({}, logged, n, known)
    ensures |logged| <= n + |known|
  {
    assert logged - {} - known == logged - known;
    CardAtMost(logged, (logged - known) + known);
  }

  // ----- Writing -----

  /** The file has no holes and its disk inode is current. */
  ghost predicate SoundIn(inodes: seq<Inode>, disk: seq<Inode>, data: seq<Data>, i: nat) {
    i < |inodes| == |disk| && NoHoles(inodes, data, i, inodes[i].size) && disk[i] == inodes[i]
  }

  /** Every file but d is as it was. */
  ghost predicate OthersKept(inodes: seq<Inode>, disk: seq<Inode>, data: seq<Data>,
                             inodes': seq<Inode>, disk': seq<Inode>, data': seq<Data>, d: nat)
  {
    && |inodes'| == |inodes|
    && forall j: nat | j != d && SoundIn(inodes, disk, data, j) ::
         SoundIn(inodes', disk', data', j) && inodes'[j] == inodes[j] && Contents(inodes', data', j) == Contents(inodes, data, j)
  }

  /** writei of one entry: exactly that entry is replaced or added. Besides bitmap blocks and the directory's inode it
      logs at most its data block and its indirect block. Only adding an entry can panic, and does exactly
      when it needs a block and there is none or the directory is as long as it can be. */
  method WriteEntry(fs: Fs, d: nat, k: nat, de: seq<Byte>) returns (ok: bool)
    requires fs.Valid() && IsDirectory(fs, d) && |de| == ENTRY && k <= |Ents(fs, d)|
    modifies fs
    ensures !ok <==> k == |old(Ents(fs, d))| && (ENTRY * k >= MAXFILE * BSIZE || old(fs.Stock()) < old(fs.Price(d, ENTRY * k, ENTRY)))
    ensures ok ==> fs.Stock() == old(fs.Stock()) - if k < |old(Ents(fs, d))| then 0 else old(fs.Price(d, ENTRY * k, ENTRY))
    ensures ok ==> OthersMapped(old(fs.inodes), old(fs.data), fs.inodes, fs.data, d)
    ensures ok ==> fs.Valid() && IsDirectory(fs, d) && Ents(fs, d) == Put(old(Ents(fs, d)), k, Entry(de))
    ensures ok ==> OthersKept(old(fs.inodes), old(fs.disk), old(fs.data), fs.inodes, fs.disk, fs.data, d)
    ensures ok ==> fs.inodes[d].nlink == old(fs.inodes[d]).nlink && fs.journal == old(fs.journal)
    ensures ok ==> Spends(old(fs.logged), fs.logged, 2, fs.MapBlocks() + {fs.InodeBlockOf(d)})
  {
    hide NoHoles, Contents, Owned, Marked, AllLogged, Entry, Entries, Patched, Spends, Cost, Spare, OthersMapped, Reached;
    assert fs.inodes[d].size == ENTRY * (fs.inodes[d].size / ENTRY) && ENTRY * k <= fs.inodes[d].size;
    LargestFile(fs.inodes, fs.data, d);
    EntriesPatched(Contents(fs.inodes, fs.data, d), k, de);
    OneBlock(k);
    StockLeft(fs.bitmap, fs.size, fs.dataStart, fs.owner.Keys);
    if ENTRY * k < fs.inodes[d].size {
      EntryThere(fs.inodes, fs.data, d, k);
    }
    var r;
    ghost var wrote;
    ok, r, wrote := fs.Writei(d, de, ENTRY * k, None);
    if ok && r < 0 {
      ok := false;
    }
    if ok {
      forall j: nat | j != d && SoundIn(old(fs.inodes), old(fs.disk), old(fs.data), j)
        ensures SoundIn(fs.inodes, fs.disk, fs.data, j) && fs.inodes[j] == old(fs.inodes)[j]
        ensures Contents(fs.inodes, fs.data, j) == old(Contents(fs.inodes, fs.data, j))
      {
        assert old(fs.Sound(j));
      }
      ghost var extra := wrote + IndirectOf(fs.inodes[d]);
      SpendsIn(old(fs.logged), fs.logged, extra, 2, fs.MapBlocks() + {fs.InodeBlockOf(d)});
    }
  }

  /** An entry that is there needs no block. */
  lemma {:induction false} EntryThere(inodes: seq<Inode>, data: seq<Data>, d: nat, k: nat)
    requires d < |inodes| && NoHoles(inodes, data, d, inodes[d].size) && ENTRY * k < inodes[d].size
    ensures Cost(inodes, data, d, ENTRY * k / BSIZE, Blocks(ENTRY * k, ENTRY)) == 0
  {
    hide BlockOf, Cost;
    OneBlock(k);
    var bn := ENTRY * k / BSIZE;
    assert Mapped(inodes, data, d, ENTRY * k);
    CostOne(inodes, data, d, bn);
    if bn >= NDIRECT {
      ListedThere(inodes, data, d, bn);
    }
  }

  lemma {:induction false} OneBlock(k: nat)
    ensures Blocks(ENTRY * k, ENTRY) == 1
  {
    assert (ENTRY * k + ENTRY - 1) / BSIZE == ENTRY * k / BSIZE;
  }

  /** The first place for a new entry: an empty one, or the end. */
  predicate FirstEmpty(es: seq<Dirent>, k: nat) {
    k <= |es| && (k < |es| ==> es[k].inum == 0) && forall j: nat | j < k :: es[j].inum != 0
  }

  /** Every entry is in use, and there is no block for another or the directory is as long as it can be. */
  predicate Crowded(es: seq<Dirent>, stock: int, price: int) {
    (forall j: nat | j < |es| :: es[j].inum != 0) && (ENTRY * |es| >= MAXFILE * BSIZE || stock < price)
  }

  /** What one more entry in directory d needs in free blocks. */
  ghost function EntryPrice(fs: Fs, d: nat): nat
    requires IsDirectory(fs, d)
    reads fs
  {
    fs.Price(d, ENTRY * |Ents(fs, d)|, ENTRY)
  }

  /** dirlink: -1 and nothing done for a name that is taken, else the entry is in the first empty place, with the name
      cut off at DIRSIZ. The reference that the lookup took is dropped without effect. It panics exactly when the name is
      new, no entry is empty and the directory cannot grow. */
  method Dirlink(fs: Fs, d: nat, name: string, inum: nat) returns (ok: bool, r: int, ghost k: nat)
    requires fs.Valid() && IsDirectory(fs, d) && Nameable(name)
    modifies fs
    ensures !ok <==> !old(HasName(Ents(fs, d), Short(name))) && old(Crowded(Ents(fs, d), fs.Stock(), EntryPrice(fs, d)))
    ensures ok && r == 0 ==> fs.Stock() == old(fs.Stock()) - old(if k < |Ents(fs, d)| then 0 else EntryPrice(fs, d))
    ensures ok ==> OthersMapped(old(fs.inodes), old(fs.data), fs.inodes, fs.data, d) && (r == -1 ==> fs.Stock() == old(fs.Stock()))
    ensures ok ==> r == if old(HasName(Ents(fs, d), Short(name))) then -1 else 0
    ensures ok ==> fs.Valid() && IsDirectory(fs, d) && fs.journal == old(fs.journal)
    ensures ok ==> OthersKept(old(fs.inodes), old(fs.disk), old(fs.data), fs.inodes, fs.disk, fs.data, d)
    ensures ok ==> fs.inodes[d].nlink == old(fs.inodes[d]).nlink
    ensures ok && r == -1 ==> Ents(fs, d) == old(Ents(fs, d)) && fs.logged == old(fs.logged)
    ensures ok && r == 0 ==> FirstEmpty(old(Ents(fs, d)), k)
    ensures ok && r == 0 ==> Ents(fs, d) == Put(old(Ents(fs, d)), k, Dirent(inum % 0x1_0000, Short(name)))
    ensures ok ==> Spends(old(fs.logged), fs.logged, 2, fs.MapBlocks() + {fs.InodeBlockOf(d)})
  {
    hide NoHoles, Contents, Owned, Marked, AllLogged, Entry, Entries, Encoded, Spends, HasName, Cost, Spare, OthersMapped, MapArea;
    OthersSelf(fs.inodes, fs.data, d);
    SpendsIn(fs.logged, fs.logged, {}, 2, fs.MapBlocks() + {fs.InodeBlockOf(d)});
    var found, ip, k1 := Dirlookup(fs, d, name);
    if found {
      return true, -1, k1;
    }
    k1 := FindEmpty(fs, d);
    EntryEncoded(inum, name);
    r, k := 0, k1;
    ok := WriteEntry(fs, d, k1, Encoded(inum, name));
  }
}
