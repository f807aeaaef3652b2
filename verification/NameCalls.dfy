/** link, unlink, create and the last iput as code over inodes and blocks (sysfile.c:118-283, fs.c:326-349): each makes on
    disk exactly the change that Links describes on nodes, keeps every file's bytes, and is one transaction that fits the
    log. Path lookup is a parameter, and no other call runs in between. */
module NameCalls {
  import opened Common
  import opened DiskModel
  import opened FileBlocks
  import opened Bitmap
  import opened BlockOwners
  import opened FileMap
  import opened FileSystem
  import opened File
  import opened Links
  import opened Namespace
  import opened DirBytes
  import opened Directory

  /** Inode i is what the node says: a directory holds the node's entries, a file holds these bytes, a free inode
      has nothing. */
  ghost predicate ShowsAt(inodes: seq<Inode>, disk: seq<Inode>, data: seq<Data>, i: nat, node: Node, file: seq<Byte>) {
    && i < |inodes| == |disk| && NoHoles(inodes, data, i, inodes[i].size) && disk[i] == inodes[i]
    && inodes[i].kind == node.kind && inodes[i].nlink == node.nlink
    && (node.kind == T_DIR ==> inodes[i].size % ENTRY == 0 && Entries(Contents(inodes, data, i)) == node.ents)
    && (node.kind != T_DIR ==> node.ents == [])
    && (node.kind != T_DIR && node.kind != T_FREE ==> Contents(inodes, data, i) == file)
    && (node.kind == T_FREE ==> inodes[i] == Inode(T_FREE, 0, 0, NoAddrs()))
  }

  ghost predicate ShowsAll(inodes: seq<Inode>, disk: seq<Inode>, data: seq<Data>, nodes: seq<Node>, files: seq<seq<Byte>>) {
    && |nodes| == |inodes| == |disk| == |files| <= 0x1_0000
    && forall i: nat | i < |nodes| :: ShowsAt(inodes, disk, data, i, nodes[i], files[i])
  }

  ghost predicate Shows(fs: Fs, nodes: seq<Node>, files: seq<seq<Byte>>)
    reads fs
  {
    fs.Valid() && ShowsAll(fs.inodes, fs.disk, fs.data, nodes, files)
  }

  lemma {:induction false} DirectoryShown(fs: Fs, nodes: seq<Node>, files: seq<seq<Byte>>, d: nat)
    requires Shows(fs, nodes, files) && d < |nodes| && nodes[d].kind == T_DIR
    ensures IsDirectory(fs, d) && Ents(fs, d) == nodes[d].ents && fs.inodes[d].nlink == nodes[d].nlink
    ensures |files| == |nodes| <= 0x1_0000
  {
    hide NoHoles, Contents, Owned, Marked, AllLogged, Entries;
    assert ShowsAt(fs.inodes, fs.disk, fs.data, d, nodes[d], files[d]);
  }

  /** Contents depend on an inode's size and block numbers only. */
  lemma {:induction false} SameMap(inodes: seq<Inode>, inodes': seq<Inode>, data: seq<Data>, j: nat)
    requires j < |inodes| == |inodes'| && inodes'[j].addrs == inodes[j].addrs && inodes'[j].size == inodes[j].size
    ensures Contents(inodes', data, j) == Contents(inodes, data, j)
    ensures NoHoles(inodes', data, j, inodes[j].size) == NoHoles(inodes, data, j, inodes[j].size)
  {
    assert forall o: nat :: BlockOf(inodes', data, j, o / BSIZE) == BlockOf(inodes, data, j, o / BSIZE);
    assert forall o: nat :: Mapped(inodes', data, j, o) == Mapped(inodes, data, j, o);
  }

  lemma {:induction false} SameOwned(inodes: seq<Inode>, inodes': seq<Inode>, data: seq<Data>, owner: map<nat, Slot>)
    requires Owned(inodes, data, owner) && |inodes'| == |inodes| && forall j: nat | j < |inodes| :: inodes'[j].addrs == inodes[j].addrs
    ensures Owned(inodes', data, owner)
  {
    assert forall s :: Addr(inodes', data, s) == Addr(inodes, data, s);
  }

  /** With the blocks as they were, an inode that did not change shows what it did. */
  lemma {:induction false} ShowsAtSame(inodes: seq<Inode>, disk: seq<Inode>, inodes': seq<Inode>, disk': seq<Inode>, data: seq<Data>,
                                       i: nat, node: Node, file: seq<Byte>)
    requires ShowsAt(inodes, disk, data, i, node, file) && |inodes'| == |disk'| == |inodes| && inodes'[i] == inodes[i] == disk'[i]
    ensures ShowsAt(inodes', disk', data, i, node, file)
  {
    hide NoHoles, Contents, Entries;
    SameMap(inodes, inodes', data, i);
  }

  /** One inode replaced, the blocks as they were. */
  lemma {:induction false} ShowsInode(inodes: seq<Inode>, disk: seq<Inode>, data: seq<Data>, nodes: seq<Node>, files: seq<seq<Byte>>,
                                      i: nat, inode: Inode, node: Node, file: seq<Byte>)
    requires ShowsAll(inodes, disk, data, nodes, files) && i < |nodes|
    requires ShowsAt(inodes[i := inode], disk[i := inode], data, i, node, file)
    ensures ShowsAll(inodes[i := inode], disk[i := inode], data, nodes[i := node], files[i := file])
  {
    hide ShowsAt;
    var inodes', disk', nodes', files' := inodes[i := inode], disk[i := inode], nodes[i := node], files[i := file];
    forall j: nat | j < |nodes|
      ensures ShowsAt(inodes', disk', data, j, nodes'[j], files'[j])
    {
      if j != i {
        assert ShowsAt(inodes, disk, data, j, nodes[j], files[j]);
        InodeOnDisk(inodes, disk, data, j, nodes[j], files[j]);
        ShowsAtSame(inodes, disk, inodes', disk', data, j, nodes[j], files[j]);
      }
    }
  }

  lemma {:induction false} InodeOnDisk(inodes: seq<Inode>, disk: seq<Inode>, data: seq<Data>, i: nat, node: Node, file: seq<Byte>)
    requires ShowsAt(inodes, disk, data, i, node, file)
    ensures i < |inodes| == |disk| && disk[i] == inodes[i] && inodes[i].kind == node.kind && inodes[i].nlink == node.nlink
  {
    hide NoHoles, Contents, Entries;
  }

  /** One directory written: its entries are new, every other inode shows what it did. */
  lemma {:induction false} ShowsWritten(inodes: seq<Inode>, disk: seq<Inode>, data: seq<Data>,
                                        inodes': seq<Inode>, disk': seq<Inode>, data': seq<Data>,
                                        nodes: seq<Node>, files: seq<seq<Byte>>, d: nat, node: Node)
    requires ShowsAll(inodes, disk, data, nodes, files) && d < |nodes| && OthersKept(inodes, disk, data, inodes', disk', data', d)
    requires ShowsAt(inodes', disk', data', d, node, files[d])
    ensures ShowsAll(inodes', disk', data', nodes[d := node], files)
  {
    hide NoHoles, Contents, Entries;
    forall j: nat | j < |nodes|
      ensures ShowsAt(inodes', disk', data', j, nodes[d := node][j], files[j])
    {
      if j != d {
        assert ShowsAt(inodes, disk, data, j, nodes[j], files[j]);
        assert SoundIn(inodes, disk, data, j);
      }
    }
  }

  lemma {:induction false} DirectoryShows(fs: Fs, d: nat, node: Node, file: seq<Byte>)
    requires fs.Valid() && IsDirectory(fs, d) && node.kind == T_DIR && node.nlink == fs.inodes[d].nlink && node.ents == Ents(fs, d)
    ensures ShowsAt(fs.inodes, fs.disk, fs.data, d, node, file)
  {
    hide NoHoles, Contents, Owned, Marked, AllLogged, Entries;
  }

  // ----- Free blocks -----

  /** What entry n of directory d needs in free blocks. */
  function Toll(inodes: seq<Inode>, data: seq<Data>, d: nat, n: nat): nat {
    if d < |inodes| then Cost(inodes, data, d, ENTRY * n / BSIZE, Blocks(ENTRY * n, ENTRY)) else 0
  }

  /** No slot of an inode other than c has changed. */
  ghost predicate KeptBut(inodes: seq<Inode>, data: seq<Data>, inodes': seq<Inode>, data': seq<Data>, c: int) {
    |inodes'| == |inodes| && forall s: Slot | s.inum != c :: Addr(inodes', data', s) == Addr(inodes, data, s)
  }

  lemma {:induction false} TollKept(inodes: seq<Inode>, data: seq<Data>, inodes': seq<Inode>, data': seq<Data>, c: int, d: nat, n: nat)
    requires KeptBut(inodes, data, inodes', data', c) && d != c
    ensures Toll(inodes', data', d, n) == Toll(inodes, data, d, n)
  {
    if d < |inodes| {
      assert Addr(inodes, data, Slot(d, NDIRECT)) == inodes[d].addrs[NDIRECT] && Addr(inodes', data', Slot(d, NDIRECT)) == inodes'[d].addrs[NDIRECT];
      hide Addr;
      forall bn: nat
        ensures BlockOf(inodes', data', d, bn) == BlockOf(inodes, data, d, bn)
      {
      }
      MissingSame(inodes, data, inodes', data', d, ENTRY * n / BSIZE, Blocks(ENTRY * n, ENTRY));
    }
  }

  lemma {:induction false} KeptTwice(inodes: seq<Inode>, data: seq<Data>, inodes1: seq<Inode>, data1: seq<Data>, inodes2: seq<Inode>, data2: seq<Data>, c: int)
    requires KeptBut(inodes, data, inodes1, data1, c) || KeptBut(inodes, data, inodes1, data1, -1)
    requires KeptBut(inodes1, data1, inodes2, data2, c) || KeptBut(inodes1, data1, inodes2, data2, -1)
    ensures KeptBut(inodes, data, inodes2, data2, c)
  {
    hide Addr;
  }

  lemma {:induction false} KeptInode(inodes: seq<Inode>, data: seq<Data>, i: nat, inode: Inode)
    requires i < |inodes| && inode.addrs == inodes[i].addrs
    ensures KeptBut(inodes, data, inodes[i := inode], data, -1)
  {
  }

  lemma {:induction false} KeptOthers(inodes: seq<Inode>, disk: seq<Inode>, data: seq<Data>, inodes': seq<Inode>, disk': seq<Inode>, data': seq<Data>,
                                      d: nat)
    requires OthersMapped(inodes, data, inodes', data', d) && OthersKept(inodes, disk, data, inodes', disk', data', d)
    ensures KeptBut(inodes, data, inodes', data', d)
  {
    hide Addr, Contents;
  }

  /** The first entry of a directory needs a block, and the second has it. */
  lemma {:induction false} FirstToll(inodes: seq<Inode>, data: seq<Data>, c: nat)
    requires c < |inodes| && inodes[c].addrs == NoAddrs()
    ensures Toll(inodes, data, c, 0) == 1
  {
    assert Blocks(ENTRY * 0, ENTRY) == 1;
    CostOne(inodes, data, c, 0);
  }

  lemma {:induction false} SecondToll(fs: Fs, nodes: seq<Node>, files: seq<seq<Byte>>, c: nat)
    requires Shows(fs, nodes, files) && c < |nodes| && nodes[c].kind == T_DIR && |nodes[c].ents| == 1
    ensures Toll(fs.inodes, fs.data, c, 1) == 0
  {
    hide BlockOf, Cost, Owned, Marked, AllLogged;
    assert Blocks(ENTRY * 1, ENTRY) == 1;
    assert ShowsAt(fs.inodes, fs.disk, fs.data, c, nodes[c], files[c]);
    assert Mapped(fs.inodes, fs.data, c, 0);
    CostOne(fs.inodes, fs.data, c, 0);
  }

  lemma {:induction false} StockNat(fs: Fs, nodes: seq<Node>, files: seq<seq<Byte>>)
    requires Shows(fs, nodes, files)
    ensures fs.Stock() >= 0
  {
    hide Spare, Owned, Marked, AllLogged, ShowsAll;
    StockLeft(fs.bitmap, fs.size, fs.dataStart, fs.owner.Keys);
  }

  // ----- The steps of the calls: each keeps count of the blocks logged since the transaction began -----

  /** The locked inode. */
  method Locked(fs: Fs, i: nat, ghost nodes: seq<Node>, ghost files: seq<seq<Byte>>) returns (inode: Inode)
    requires Shows(fs, nodes, files) && i < |nodes|
    ensures inode.kind == nodes[i].kind && inode.nlink == nodes[i].nlink
  {
    hide NoHoles, Contents, Owned, Marked, AllLogged, Entries;
    assert ShowsAt(fs.inodes, fs.disk, fs.data, i, nodes[i], files[i]);
    inode := fs.inodes[i];
  }

  /** nlink changed in memory and by iupdate on disk. */
  method SetLinks(fs: Fs, i: nat, nlink: int, ghost nodes: seq<Node>, ghost files: seq<seq<Byte>>, ghost n: nat, ghost known: set<nat>)
    requires Shows(fs, nodes, files) && i < |nodes| && nodes[i].kind != T_FREE
    requires Spends({}, fs.logged, n, known) && fs.InodeBlockOf(i) in known
    modifies fs
    ensures Shows(fs, nodes[i := nodes[i].(nlink := nlink)], files)
    ensures fs.journal == old(fs.journal) && Spends({}, fs.logged, n, known)
    ensures fs.Stock() == old(fs.Stock()) && KeptBut(old(fs.inodes), old(fs.data), fs.inodes, fs.data, -1)
    ensures |fs.inodes| == |old(fs.inodes)| && forall j: nat | j < |fs.inodes| :: fs.inodes[j].addrs == old(fs.inodes)[j].addrs
  {
    hide NoHoles, Contents, Owned, Marked, AllLogged, Entries, Spends;
    assert ShowsAt(fs.inodes, fs.disk, fs.data, i, nodes[i], files[i]);
    ghost var inode := fs.inodes[i].(nlink := nlink);
    SameMap(fs.inodes, fs.inodes[i := inode], fs.data, i);
    SameOwned(fs.inodes, fs.inodes[i := inode], fs.data, fs.owner);
    KeptInode(fs.inodes, fs.data, i, inode);
    ShowsInode(fs.inodes, fs.disk, fs.data, nodes, files, i, inode, nodes[i].(nlink := nlink), files[i]);
    hide ShowsAll, ShowsAt, KeptBut, Spare;
    fs.inodes := fs.inodes[i := fs.inodes[i].(nlink := nlink)];
    fs.Iupdate(i);
    assert files[i := files[i]] == files;
    SpendsKnown(old(fs.logged), fs.logged, n, {fs.InodeBlockOf(i)}, known);
  }

  lemma {:induction false} SpendsKnown(logged1: set<nat>, logged2: set<nat>, n: nat, more: set<nat>, known: set<nat>)
    requires Spends({}, logged1, n, known) && logged2 <= logged1 + more && more <= known
    ensures Spends({}, logged2, n, known)
  {
    CardAtMost(logged2 - {} - known, logged1 - {} - known);
  }

  lemma {:induction false} SpendsWider(logged: set<nat>, n: nat, m: nat, known: set<nat>)
    requires Spends({}, logged, n, known) && n <= m
    ensures Spends({}, logged, m, known)
  {
  }

  /** iput after the reference was counted: the last one to an inode without links truncates and frees it. */
  method Iput(fs: Fs, i: nat, last: bool, ghost nodes: seq<Node>, ghost files: seq<seq<Byte>>, ghost n: nat, ghost known: set<nat>)
    requires Shows(fs, nodes, files) && i < |nodes| && nodes[i].kind != T_FREE
    requires Spends({}, fs.logged, n, known) && fs.MapBlocks() + {fs.InodeBlockOf(i)} <= known
    modifies fs
    ensures Shows(fs, if last && nodes[i].nlink == 0 then nodes[i := Node(T_FREE, 0, 0, [])] else nodes, files)
    ensures fs.journal == old(fs.journal) && Spends({}, fs.logged, n, known)
  {
    hide Shows, Spends, MapArea;
    var inode := Locked(fs, i, nodes, files);
    if last && inode.nlink == 0 {
      Ifree(fs, i, nodes, files);
      SpendsKnown(old(fs.logged), fs.logged, n, fs.MapBlocks() + {fs.InodeBlockOf(i)}, known);
    }
  }

  /** itrunc, the type cleared, iupdate (fs.c:341-343). */
  method Ifree(fs: Fs, i: nat, ghost nodes: seq<Node>, ghost files: seq<seq<Byte>>)
    requires Shows(fs, nodes, files) && i < |nodes| && nodes[i].nlink == 0
    modifies fs
    ensures Shows(fs, nodes[i := Node(T_FREE, 0, 0, [])], files)
    ensures fs.journal == old(fs.journal) && fs.logged <= old(fs.logged) + (fs.MapBlocks() + {fs.InodeBlockOf(i)})
  {
    hide NoHoles, Contents, Owned, Marked, AllLogged, Entries, ShowsAt, MapArea;
    assert ShowsAt(fs.inodes, fs.disk, fs.data, i, nodes[i], files[i]);
    InodeOnDisk(fs.inodes, fs.disk, fs.data, i, nodes[i], files[i]);
    ghost var inode := Inode(T_FREE, 0, 0, NoAddrs());
    FreeShown(fs.inodes[i := inode], fs.disk[i := inode], fs.data, i, files[i]);
    ShowsInode(fs.inodes, fs.disk, fs.data, nodes, files, i, inode, Node(T_FREE, 0, 0, []), files[i]);
    assert files[i := files[i]] == files;
    fs.Itrunc(i);
    SameOwned(fs.inodes, fs.inodes[i := inode], fs.data, fs.owner);
    assert fs.inodes[i := inode] == old(fs.inodes)[i := inode] && fs.disk[i := inode] == old(fs.disk)[i := inode];
    hide ShowsAll;
    fs.inodes := fs.inodes[i := fs.inodes[i].(kind := T_FREE)];
    fs.Iupdate(i);
  }

  lemma {:induction false} FreeShown(inodes: seq<Inode>, disk: seq<Inode>, data: seq<Data>, i: nat, file: seq<Byte>)
    requires i < |inodes| == |disk| && inodes[i] == disk[i] == Inode(T_FREE, 0, 0, NoAddrs())
    ensures ShowsAt(inodes, disk, data, i, Node(T_FREE, 0, 0, []), file)
  {
    hide Contents, Entries;
  }

  /** ialloc (fs.c:201-213) and the ilock that reads the inode in. It panics exactly without free inodes. */
  method Ialloc(fs: Fs, kind: int, ghost nodes: seq<Node>, ghost files: seq<seq<Byte>>) returns (ok: bool, c: nat)
    requires Shows(fs, nodes, files) && kind != T_FREE && fs.logged == {}
    modifies fs
    ensures !ok <==> forall i: nat | 0 < i < |nodes| :: nodes[i].kind != T_FREE
    ensures ok ==> 0 < c < |nodes| && nodes[c].kind == T_FREE && forall i: nat | 0 < i < c :: nodes[i].kind != T_FREE
    ensures ok ==> Shows(fs, nodes[c := Node(kind, 0, 1, [])], files[c := []])
    ensures ok ==> fs.journal == old(fs.journal) && fs.logged == {fs.InodeBlockOf(c)}
    ensures ok ==> fs.Stock() == old(fs.Stock()) && KeptBut(old(fs.inodes), old(fs.data), fs.inodes, fs.data, -1)
    ensures ok ==> c < |fs.inodes| && fs.inodes[c].addrs == NoAddrs()
  {
    hide NoHoles, Contents, Owned, Marked, AllLogged, Entries, ShowsAt, Spare, KeptBut;
    c := 1;
    while c < |fs.disk|
      invariant c >= 1 && fs.Unchanged(old(fs.bitmap), old(fs.data), old(fs.inodes), old(fs.owner), old(fs.logged))
      invariant fs.disk == old(fs.disk) && fs.journal == old(fs.journal)
      invariant forall i: nat | 0 < i < c && i < |nodes| :: nodes[i].kind != T_FREE
    {
      assert ShowsAt(fs.inodes, fs.disk, fs.data, c, nodes[c], files[c]);
      InodeOnDisk(fs.inodes, fs.disk, fs.data, c, nodes[c], files[c]);
      if fs.disk[c].kind == T_FREE {
        ghost var inode := Inode(kind, 0, 0, NoAddrs());
        FreeInode(fs.inodes, fs.disk, fs.data, c, nodes[c], files[c]);
        NewShown(fs.inodes[c := inode], fs.disk[c := inode], fs.data, c, kind);
        ShowsInode(fs.inodes, fs.disk, fs.data, nodes, files, c, inode, Node(kind, 0, 1, []), []);
        SameOwned(fs.inodes, fs.inodes[c := inode], fs.data, fs.owner);
        KeptInode(fs.inodes, fs.data, c, inode);
        InodeLogged(fs.journal.base, fs.data, fs.bitmap, fs.disk, fs.logged, fs.bmapStart, fs.inodeStart, c, inode);
        fs.disk := fs.disk[c := Inode(kind, 0, 0, NoAddrs())];
        fs.logged := fs.logged + {fs.InodeBlockOf(c)};
        fs.inodes := fs.inodes[c := fs.disk[c]];
        return true, c;
      }
      c := c + 1;
    }
    ok := false;
  }

  lemma {:induction false} FreeInode(inodes: seq<Inode>, disk: seq<Inode>, data: seq<Data>, i: nat, node: Node, file: seq<Byte>)
    requires ShowsAt(inodes, disk, data, i, node, file) && node.kind == T_FREE
    ensures inodes[i] == Inode(T_FREE, 0, 0, NoAddrs())
  {
    hide NoHoles, Contents, Entries;
  }

  lemma {:induction false} NewShown(inodes: seq<Inode>, disk: seq<Inode>, data: seq<Data>, i: nat, kind: int)
    requires i < |inodes| == |disk| && inodes[i] == disk[i] == Inode(kind, 0, 0, NoAddrs()) && kind != T_FREE
    ensures ShowsAt(inodes, disk, data, i, Node(kind, 0, 1, []), [])
  {
    assert Contents(inodes, data, i) == [] && Entries([]) == [];
  }

  /** dirlink over the tables. */
  method Enter(fs: Fs, d: nat, name: string, inum: nat, ghost nodes: seq<Node>, ghost files: seq<seq<Byte>>, ghost n: nat, ghost known: set<nat>)
    returns (ok: bool, r: int, ghost k: nat)
    requires Shows(fs, nodes, files) && d < |nodes| && nodes[d].kind == T_DIR && Nameable(name) && inum < |nodes|
    requires Spends({}, fs.logged, n, known) && fs.MapBlocks() + {fs.InodeBlockOf(d)} <= known
    modifies fs
    ensures !ok <==> !HasName(nodes[d].ents, Short(name)) &&
                     Crowded(nodes[d].ents, old(fs.Stock()), Toll(old(fs.inodes), old(fs.data), d, |nodes[d].ents|))
    ensures ok ==> r == if HasName(nodes[d].ents, Short(name)) then -1 else 0
    ensures ok ==> KeptBut(old(fs.inodes), old(fs.data), fs.inodes, fs.data, d)
    ensures ok && r == 0 ==>
              fs.Stock() == old(fs.Stock()) - if k < |nodes[d].ents| then 0 else Toll(old(fs.inodes), old(fs.data), d, |nodes[d].ents|)
    ensures ok && r == -1 ==> Shows(fs, nodes, files)
    ensures ok && r == 0 ==> FirstEmpty(nodes[d].ents, k)
    ensures ok && r == 0 ==> Shows(fs, nodes[d := nodes[d].(ents := Put(nodes[d].ents, k, Dirent(inum, Short(name))))], files)
    ensures ok ==> fs.journal == old(fs.journal) && Spends({}, fs.logged, n + 2, known)
  {
    hide NoHoles, Contents, Owned, Marked, AllLogged, Entries, Spends, ShowsAll, ShowsAt, HasName, OthersKept, Crowded, MapArea, Short,
      Cost, Spare, OthersMapped, KeptBut;
    DirectoryShown(fs, nodes, files, d);
    ok, r, k := Dirlink(fs, d, name, inum);
    if ok {
      ghost var node := nodes[d].(ents := Ents(fs, d));
      DirectoryShows(fs, d, node, files[d]);
      ShowsWritten(old(fs.inodes), old(fs.disk), old(fs.data), fs.inodes, fs.disk, fs.data, nodes, files, d, node);
      assert r == -1 ==> nodes[d := node] == nodes;
      KeptOthers(old(fs.inodes), old(fs.disk), old(fs.data), fs.inodes, fs.disk, fs.data, d);
      SpendsMore({}, old(fs.logged), fs.logged, n, 2, known, fs.MapBlocks() + {fs.InodeBlockOf(d)}, known);
    }
  }

  /** unlink's writei of a zeroed entry, which cannot panic. */
  method Erase(fs: Fs, d: nat, k: nat, ghost nodes: seq<Node>, ghost files: seq<seq<Byte>>, ghost n: nat, ghost known: set<nat>)
    requires Shows(fs, nodes, files) && d < |nodes| && nodes[d].kind == T_DIR && k < |nodes[d].ents|
    requires Spends({}, fs.logged, n, known) && fs.MapBlocks() + {fs.InodeBlockOf(d)} <= known
    modifies fs
    ensures Shows(fs, nodes[d := nodes[d].(ents := Put(nodes[d].ents, k, Dirent(0, "")))], files)
    ensures fs.journal == old(fs.journal) && Spends({}, fs.logged, n + 2, known)
  {
    hide NoHoles, Contents, Owned, Marked, AllLogged, Entries, Spends, ShowsAll, ShowsAt, Zeros, OthersKept;
    DirectoryShown(fs, nodes, files, d);
    EntryZero();
    var ok := WriteEntry(fs, d, k, Zeros());
    ghost var node := nodes[d].(ents := Ents(fs, d));
    DirectoryShows(fs, d, node, files[d]);
    ShowsWritten(old(fs.inodes), old(fs.disk), old(fs.data), fs.inodes, fs.disk, fs.data, nodes, files, d, node);
    SpendsMore({}, old(fs.logged), fs.logged, n, 2, known, fs.MapBlocks() + {fs.InodeBlockOf(d)}, known);
  }

  // ----- The calls -----

  /** The counts that the inode cache keeps of references held outside the call. */
  predicate Refs(refs: seq<nat>, nodes: seq<Node>) {
    |refs| == |nodes| && forall i: nat | i < |nodes| :: refs[i] == nodes[i].refs
  }

  /** The call was one transaction, which logged every block it changed and at most n more than there are bitmap blocks.
      With one bitmap block, as on a disk of FSSIZE blocks, it fits the log. */
  ghost predicate OneTransaction(fs: Fs, past: seq<Transaction>, before: Image, n: nat)
    reads fs
  {
    var t := Transaction(before, fs.Now(), fs.logged);
    && fs.journal.past == past + [t] && |t.logged| <= fs.MapCount() + n
    && (fs.size <= BPB ==> Chained([t], before, fs.Now(), fs.bmapStart, fs.inodeStart))
  }

  /** begin_op */
  ghost method Begin(fs: Fs, nodes: seq<Node>, files: seq<seq<Byte>>)
    requires Shows(fs, nodes, files)
    modifies fs`logged, fs`journal
    ensures Shows(fs, nodes, files) && fs.logged == {} && fs.journal.past == old(fs.journal.past) && fs.journal.base == old(fs.Now())
  {
    hide NoHoles, Contents, Owned, Marked, AllLogged, ShowsAll;
    fs.BeginOp();
  }

  /** end_op */
  ghost method Finish(fs: Fs, nodes: seq<Node>, files: seq<seq<Byte>>, n: nat, i: nat, d: nat)
    requires Shows(fs, nodes, files) && n <= 7 && Spends({}, fs.logged, n, Known(fs, i, d))
    modifies fs`journal
    ensures Shows(fs, nodes, files) && OneTransaction(fs, old(fs.journal.past), old(fs.journal.base), n + 2)
  {
    hide NoHoles, Contents, Owned, Marked, AllLogged, ShowsAll, Chained, MapArea;
    SpendsTotal(fs.logged, n, Known(fs, i, d));
    assert |{fs.InodeBlockOf(i), fs.InodeBlockOf(d)}| <= 2;
    ghost var t := Transaction(fs.journal.base, fs.Now(), fs.logged);
    if fs.size <= BPB {
      ChainedNone(fs.journal.base, fs.bmapStart, fs.inodeStart);
      ChainedMore([], fs.journal.base, t, fs.bmapStart, fs.inodeStart);
      assert [] + [t] == [t];
    }
    fs.EndOp();
  }

  /** The bitmap and the blocks of two inodes. */
  ghost function Known(fs: Fs, i: nat, d: nat): set<nat> {
    fs.MapBlocks() + {fs.InodeBlockOf(i), fs.InodeBlockOf(d)}
  }

  lemma {:induction false} TableSizes(fs: Fs, nodes: seq<Node>, files: seq<seq<Byte>>)
    requires Shows(fs, nodes, files)
    ensures |files| == |nodes|
  {
  }

  // iput

  /** The transaction around the iput of a file that is closed (file.c:76-78). */
  method Close(fs: Fs, i: nat, refs: seq<nat>, ghost nodes: seq<Node>, ghost files: seq<seq<Byte>>)
    requires Shows(fs, nodes, files) && Refs(refs, nodes) && i < |nodes| && nodes[i].kind != T_FREE
    modifies fs
    ensures Shows(fs, Settled(nodes, i), files) && OneTransaction(fs, old(fs.journal.past), old(fs.Now()), 2)
  {
    hide Shows, Spends, OneTransaction, MapArea;
    Begin(fs, nodes, files);
    SpendsIn({}, {}, {}, 0, Known(fs, i, i));
    Iput(fs, i, refs[i] == 0, nodes, files, 0, Known(fs, i, i));
    Finish(fs, Settled(nodes, i), files, 0, i, i);
  }

  // link

  /** The nodes after link, with its references to the file and the directory dropped. */
  function LinkDid(nodes: seq<Node>, i: nat, d: Option<nat>, k: nat, name: string, r: int): seq<Node>
    requires i < |nodes| && (d.Some? ==> d.value < |nodes|) && (r == 0 ==> d.Some? && k <= |nodes[d.value].ents|)
  {
    if nodes[i].kind == T_DIR || d == None then Settled(nodes, i)
    else Settled(Settled(if r == 0 then Adopted(Nudged(nodes, i, 1), d.value, k, i, name, 0) else nodes, d.value), i)
  }

  /** link (sysfile.c:127-164), `d` being what nameiparent found: for a directory, a parent that is not there or a name
      that is taken nothing changes but the references that are dropped; else the count goes up and the entry is in. */
  method Link(fs: Fs, i: nat, d: Option<nat>, name: string, refs: seq<nat>, ghost nodes: seq<Node>, ghost files: seq<seq<Byte>>)
    returns (ok: bool, r: int, ghost k: nat)
    requires Shows(fs, nodes, files) && Refs(refs, nodes) && i < |nodes| && nodes[i].kind != T_FREE && Nameable(name)
    requires d.Some? ==> d.value < |nodes| && nodes[d.value].kind == T_DIR
    modifies fs
    ensures !ok <==> nodes[i].kind != T_DIR && d.Some? && !HasName(nodes[d.value].ents, Short(name)) &&
                     Crowded(nodes[d.value].ents, old(fs.Stock()), Toll(old(fs.inodes), old(fs.data), d.value, |nodes[d.value].ents|))
    ensures ok ==> r == if nodes[i].kind == T_DIR || d == None || HasName(nodes[d.value].ents, Short(name)) then -1 else 0
    ensures ok && r == 0 ==> FirstEmpty(nodes[d.value].ents, k)
    ensures ok ==> Shows(fs, LinkDid(nodes, i, d, k, Short(name), r), files)
    ensures ok ==> OneTransaction(fs, old(fs.journal.past), old(fs.Now()), 4)
  {
    hide Shows, Spends, HasName, OneTransaction, Crowded, MapArea, LinkDid, Spare, Toll;
    Begin(fs, nodes, files);
    ghost var at := if d.Some? then d.value else i;
    SpendsIn({}, {}, {}, 0, Known(fs, i, at));
    ok, r, k := LinkBody(fs, i, d, name, refs, nodes, files, Known(fs, i, at));
    if ok {
      Finish(fs, LinkDid(nodes, i, d, k, Short(name), r), files, 2, i, at);
    }
  }

  method LinkBody(fs: Fs, i: nat, d: Option<nat>, name: string, refs: seq<nat>,
                  ghost nodes: seq<Node>, ghost files: seq<seq<Byte>>, ghost known: set<nat>)
    returns (ok: bool, r: int, ghost k: nat)
    requires Shows(fs, nodes, files) && Refs(refs, nodes) && i < |nodes| && nodes[i].kind != T_FREE && Nameable(name)
    requires d.Some? ==> d.value < |nodes| && nodes[d.value].kind == T_DIR && fs.InodeBlockOf(d.value) in known
    requires Spends({}, fs.logged, 0, known) && fs.MapBlocks() + {fs.InodeBlockOf(i)} <= known
    modifies fs
    ensures !ok <==> nodes[i].kind != T_DIR && d.Some? && !HasName(nodes[d.value].ents, Short(name)) &&
                     Crowded(nodes[d.value].ents, old(fs.Stock()), Toll(old(fs.inodes), old(fs.data), d.value, |nodes[d.value].ents|))
    ensures ok ==> r == if nodes[i].kind == T_DIR || d == None || HasName(nodes[d.value].ents, Short(name)) then -1 else 0
    ensures ok && r == 0 ==> FirstEmpty(nodes[d.value].ents, k)
    ensures ok ==> Shows(fs, LinkDid(nodes, i, d, k, Short(name), r), files)
    ensures ok ==> fs.journal == old(fs.journal) && Spends({}, fs.logged, 2, known)
  {
    hide Shows, Spends, HasName, Crowded, MapArea, Spare, Toll, KeptBut;
    var inode := Locked(fs, i, nodes, files);
    SpendsWider(fs.logged, 0, 2, known);
    if inode.kind == T_DIR {
      Iput(fs, i, refs[i] == 0, nodes, files, 2, known);
      return true, -1, 0;
    }
    SetLinks(fs, i, inode.nlink + 1, nodes, files, 0, known);
    ghost var n1 := Nudged(nodes, i, 1);
    if d == None {
      SpendsWider(fs.logged, 0, 2, known);
      SetLinks(fs, i, inode.nlink, n1, files, 2, known);
      assert n1[i := n1[i].(nlink := inode.nlink)] == nodes;
      Iput(fs, i, refs[i] == 0, nodes, files, 2, known);
      return true, -1, 0;
    }
    TollKept(old(fs.inodes), old(fs.data), fs.inodes, fs.data, -1, d.value, |nodes[d.value].ents|);
    ok, r, k := LinkInto(fs, i, d.value, name, inode.nlink, refs, nodes, files, known);
  }

  /** The second half of link (sysfile.c:144-163). */
  method LinkInto(fs: Fs, i: nat, d: nat, name: string, nlink: int, refs: seq<nat>,
                  ghost nodes: seq<Node>, ghost files: seq<seq<Byte>>, ghost known: set<nat>)
    returns (ok: bool, r: int, ghost k: nat)
    requires i < |nodes| && Shows(fs, Nudged(nodes, i, 1), files) && Refs(refs, nodes) && nodes[i].kind !in {T_FREE, T_DIR} && Nameable(name)
    requires d < |nodes| && nodes[d].kind == T_DIR && nlink == nodes[i].nlink
    requires Spends({}, fs.logged, 0, known) && fs.MapBlocks() + {fs.InodeBlockOf(i), fs.InodeBlockOf(d)} <= known
    modifies fs
    ensures !ok <==> !HasName(nodes[d].ents, Short(name)) &&
                     Crowded(nodes[d].ents, old(fs.Stock()), Toll(old(fs.inodes), old(fs.data), d, |nodes[d].ents|))
    ensures ok ==> r == if HasName(nodes[d].ents, Short(name)) then -1 else 0
    ensures ok && r == 0 ==> FirstEmpty(nodes[d].ents, k)
    ensures ok ==> Shows(fs, LinkDid(nodes, i, Some(d), k, Short(name), r), files)
    ensures ok ==> fs.journal == old(fs.journal) && Spends({}, fs.logged, 2, known)
  {
    hide Shows, Spends, HasName, Crowded, MapArea, Spare, Toll, KeptBut;
    ghost var n1 := Nudged(nodes, i, 1);
    ok, r, k := Enter(fs, d, name, i, n1, files, 0, known);
    if ok {
      ghost var n2 := if r < 0 then n1 else Adopted(n1, d, k, i, Short(name), 0);
      Iput(fs, d, refs[d] == 0, n2, files, 2, known);
      ghost var n3 := Settled(n2, d);
      if r < 0 {
        SetLinks(fs, i, nlink, n3, files, 2, known);
        n3 := n3[i := n3[i].(nlink := nlink)];
        assert n3 == Settled(nodes, d);
      }
      Iput(fs, i, refs[i] == 0, n3, files, 2, known);
    }
  }

  // unlink

  /** An entry past the dots names another inode, which is allocated and counts it. */
  lemma {:induction false} ChildElsewhere(nodes: seq<Node>, home: map<nat, nat>, depth: map<nat, nat>, pending: multiset<nat>, d: nat, k: nat, c: nat)
    requires Tree(nodes, home, depth) && Counted(nodes, pending) && Names(nodes, d, k, c) && k >= 2 && c > 0
    ensures c < |nodes| && c != d && nodes[c].kind != T_FREE && nodes[c].nlink >= 1
  {
    hide GoodDirs, Homes, OnlyHomes, Counted, NamesOf;
    NamedEntry(nodes, d, k, c);
    InNamesOf(nodes, d, k, c);
    CardAtMost({(d, k)}, NamesOf(nodes, c));
    CountOf(nodes, pending, c);
    if c == d {
      OnlyHome(nodes, home, d, k, c);
      HomeOf(nodes, home, depth, c);
      assert false;
    }
  }

  /** The directories form a tree and every link count is exact. */
  ghost predicate Exact(nodes: seq<Node>, home: map<nat, nat>, depth: map<nat, nat>, pending: multiset<nat>) {
    Tree(nodes, home, depth) && Counted(nodes, pending)
  }

  lemma {:induction false} SettledKeeps(nodes: seq<Node>, home: map<nat, nat>, depth: map<nat, nat>, pending: multiset<nat>, c: nat)
    requires Exact(nodes, home, depth, pending) && 0 < c < |nodes|
    ensures Exact(Settled(nodes, c), home, depth, pending)
  {
    hide Tree, Counted, NamesOf;
    if nodes[c].nlink == 0 && nodes[c].refs == 0 {
      FreedCounted(nodes, pending, c);
      FreedTree(nodes, home, depth, c);
    }
  }

  lemma {:induction false} UnlinkKeeps(nodes: seq<Node>, home: map<nat, nat>, depth: map<nat, nat>, pending: multiset<nat>,
                                       d: nat, k: nat, c: nat)
    requires Exact(nodes, home, depth, pending) && MayUnlink(nodes, d, k, c) && c != d
    ensures Exact(Settled(Unlinked(nodes, d, k, c), c), home, depth, pending)
  {
    hide Tree, Counted, Unlinked;
    UnlinkFacts(nodes, home, depth, pending, d, k, c);
    DirHasDots(nodes, home, depth, c);
    UnlinkedTree(nodes, home, depth, d, k, c);
    UnlinkedCounted(nodes, pending, d, k, c);
    SettledKeeps(Unlinked(nodes, d, k, c), home, depth, pending, c);
  }

  /** unlink (sysfile.c:194-238): refused exactly for the dots, a missing name and a directory that is not empty, and then nothing
      changes but the reference that is dropped; else the entry is zeroed, the counts go down, and the inode is freed if
      that was its last link and nobody holds it. The tree and the counts stay exact. None of its panics is reachable. */
  method Unlink(fs: Fs, d: nat, name: string, refs: seq<nat>, ghost nodes: seq<Node>, ghost files: seq<seq<Byte>>,
                ghost home: map<nat, nat>, ghost depth: map<nat, nat>, ghost pending: multiset<nat>)
    returns (r: int, ghost k: nat, ghost c: nat)
    requires Shows(fs, nodes, files) && Refs(refs, nodes) && 0 < d < |nodes| && nodes[d].kind == T_DIR && Nameable(name)
    requires Exact(nodes, home, depth, pending)
    modifies fs
    ensures !Dots(name) && HasName(nodes[d].ents, Short(name)) ==> FirstBears(nodes[d].ents, k, Short(name))
    ensures r == if Dots(name) || !HasName(nodes[d].ents, Short(name)) || Occupied(nodes, d, k) then -1 else 0
    ensures r == -1 ==> Shows(fs, Settled(nodes, d), files)
    ensures r == 0 ==> MayUnlink(nodes, d, k, c) && c != d && Shows(fs, Settled(Unlinked(nodes, d, k, c), c), files)
    ensures Exact(if r == -1 then Settled(nodes, d) else Settled(Unlinked(nodes, d, k, c), c), home, depth, pending)
    ensures OneTransaction(fs, old(fs.journal.past), old(fs.Now()), 4)
  {
    hide Shows, Spends, HasName, OneTransaction, MapArea, Tree, Counted, Occupied, Unlinked;
    Begin(fs, nodes, files);
    r, k, c := UnlinkBody(fs, d, name, refs, nodes, files, home, depth, pending);
    if r == 0 {
      UnlinkKeeps(nodes, home, depth, pending, d, k, c);
    } else {
      SettledKeeps(nodes, home, depth, pending, d);
    }
    Finish(fs, if r == 0 then Settled(Unlinked(nodes, d, k, c), c) else Settled(nodes, d), files, 2, c, d);
  }

  method UnlinkBody(fs: Fs, d: nat, name: string, refs: seq<nat>, ghost nodes: seq<Node>, ghost files: seq<seq<Byte>>,
                    ghost home: map<nat, nat>, ghost depth: map<nat, nat>, ghost pending: multiset<nat>)
    returns (r: int, ghost k: nat, ghost c: nat)
    requires Shows(fs, nodes, files) && Refs(refs, nodes) && 0 < d < |nodes| && nodes[d].kind == T_DIR && Nameable(name)
    requires Tree(nodes, home, depth) && Counted(nodes, pending) && fs.logged == {}
    modifies fs
    ensures !Dots(name) && HasName(nodes[d].ents, Short(name)) ==> FirstBears(nodes[d].ents, k, Short(name))
    ensures r == if Dots(name) || !HasName(nodes[d].ents, Short(name)) || Occupied(nodes, d, k) then -1 else 0
    ensures r == -1 ==> Shows(fs, Settled(nodes, d), files)
    ensures r == 0 ==> MayUnlink(nodes, d, k, c) && c != d && Shows(fs, Settled(Unlinked(nodes, d, k, c), c), files)
    ensures fs.journal == old(fs.journal) && Spends({}, fs.logged, 2, Known(fs, c, d))
  {
    hide Shows, Spends, HasName, MapArea, Tree, Counted;
    k, c := 0, d;
    SpendsIn({}, {}, {}, 2, Known(fs, d, d));
    if Dots(name) {
      Iput(fs, d, refs[d] == 0, nodes, files, 2, Known(fs, d, d));
      return -1, 0, d;
    }
    var found, ip, off := Find(fs, d, name, nodes, files);
    if !found {
      Iput(fs, d, refs[d] == 0, nodes, files, 2, Known(fs, d, d));
      return -1, 0, d;
    }
    k := off;
    DotsShort(name);
    PastDots(nodes, home, depth, d, off, Short(name));
    ChildElsewhere(nodes, home, depth, pending, d, off, ip);
    var inode := Locked(fs, ip, nodes, files);
    if inode.kind == T_DIR {
      var empty := IsEmpty(fs, ip, nodes, files);
      if !empty {
        Iput(fs, d, refs[d] == 0, nodes, files, 2, Known(fs, d, d));
        return -1, off, d;
      }
    }
    c := ip;
    UnlinkFacts(nodes, home, depth, pending, d, off, ip);
    Remove(fs, d, off, ip, refs, nodes, files);
    r := 0;
  }

  lemma {:induction false} DotsShort(name: string)
    requires !Dots(name)
    ensures !Dots(Short(name))
  {
  }

  /** dirlookup over the tables. */
  method Find(fs: Fs, d: nat, name: string, ghost nodes: seq<Node>, ghost files: seq<seq<Byte>>) returns (found: bool, inum: nat, k: nat)
    requires Shows(fs, nodes, files) && d < |nodes| && nodes[d].kind == T_DIR && Nameable(name)
    modifies fs
    ensures Shows(fs, nodes, files) && fs.journal == old(fs.journal) && fs.logged == old(fs.logged)
    ensures fs.Stock() == old(fs.Stock()) && fs.inodes == old(fs.inodes) && fs.data == old(fs.data)
    ensures found <==> HasName(nodes[d].ents, Short(name))
    ensures found ==> FirstBears(nodes[d].ents, k, Short(name)) && inum == nodes[d].ents[k].inum
  {
    hide NoHoles, Contents, Owned, Marked, AllLogged, Entries, ShowsAll, Spare;
    DirectoryShown(fs, nodes, files, d);
    found, inum, k := Dirlookup(fs, d, name);
  }

  method IsEmpty(fs: Fs, d: nat, ghost nodes: seq<Node>, ghost files: seq<seq<Byte>>) returns (empty: bool)
    requires Shows(fs, nodes, files) && d < |nodes| && nodes[d].kind == T_DIR
    modifies fs
    ensures Shows(fs, nodes, files) && fs.journal == old(fs.journal) && fs.logged == old(fs.logged)
    ensures empty <==> EmptyDir(nodes[d].ents)
  {
    hide NoHoles, Contents, Owned, Marked, AllLogged, Entries, ShowsAll;
    DirectoryShown(fs, nodes, files, d);
    empty := Isdirempty(fs, d);
  }

  /** The rest of unlink (sysfile.c:221-234). */
  method Remove(fs: Fs, d: nat, k: nat, c: nat, refs: seq<nat>, ghost nodes: seq<Node>, ghost files: seq<seq<Byte>>)
    requires Shows(fs, nodes, files) && Refs(refs, nodes) && d < |nodes| && nodes[d].kind == T_DIR && k < |nodes[d].ents|
    requires c < |nodes| && c != d && nodes[c].kind != T_FREE && nodes[d].nlink >= (if nodes[c].kind == T_DIR then 2 else 1) && fs.logged == {}
    modifies fs
    ensures Shows(fs, Settled(Unlinked(nodes, d, k, c), c), files)
    ensures fs.journal == old(fs.journal) && Spends({}, fs.logged, 2, Known(fs, c, d))
  {
    hide Shows, Spends, MapArea, Spare, KeptBut;
    ghost var known := Known(fs, c, d);
    SpendsIn({}, {}, {}, 0, known);
    Erase(fs, d, k, nodes, files, 0, known);
    ghost var n := nodes[d := nodes[d].(ents := Put(nodes[d].ents, k, Dirent(0, "")))];
    var dp := Locked(fs, d, n, files);
    var ip := Locked(fs, c, n, files);
    if ip.kind == T_DIR {
      SetLinks(fs, d, dp.nlink - 1, n, files, 2, known);
      n := n[d := n[d].(nlink := dp.nlink - 1)];
    }
    Iput(fs, d, refs[d] == 0, n, files, 2, known);
    SetLinks(fs, c, ip.nlink - 1, n, files, 2, known);
    n := n[c := n[c].(nlink := ip.nlink - 1)];
    assert n == Unlinked(nodes, d, k, c);
    Iput(fs, c, refs[c] == 0, n, files, 2, known);
  }

  // create

  /** The nodes after create, with the references that it does not return dropped: entry k names ip, or is new. */
  function CreateShown(nodes: seq<Node>, d: nat, k: nat, name: string, kind: int, r: nat, found: bool): seq<Node>
    requires d < |nodes| && (found ==> k < |nodes[d].ents| && nodes[d].ents[k].inum < |nodes|)
    requires !found ==> r < |nodes| && r != d && k <= |nodes[d].ents|
  {
    if !found then Settled(Created(nodes, d, k, r, name, kind), d)
    else if r != 0 then Settled(nodes, d)
    else Settled(Settled(nodes, d), nodes[d].ents[k].inum)
  }

  /** Where the name is taken: by a file for T_FILE, which is returned, or by anything else, for which create fails. */
  predicate Reopens(nodes: seq<Node>, d: nat, k: nat, kind: int)
    requires d < |nodes| && k < |nodes[d].ents| && nodes[d].ents[k].inum < |nodes|
  {
    kind == T_FILE && nodes[nodes[d].ents[k].inum].kind == T_FILE
  }

  /** The name stands for an inode that has been freed. */
  ghost predicate NamesFreed(nodes: seq<Node>, d: nat, name: string)
    requires d < |nodes|
  {
    exists k: nat :: FirstBears(nodes[d].ents, k, name) && nodes[d].ents[k].inum < |nodes| && nodes[nodes[d].ents[k].inum].kind == T_FREE
  }

  /** Then it is the ".." of a removed directory. */
  lemma {:induction false} FreedIsDotDot(nodes: seq<Node>, home: map<nat, nat>, depth: map<nat, nat>, d: nat, name: string)
    requires Tree(nodes, home, depth) && d < |nodes| && nodes[d].kind == T_DIR && NamesFreed(nodes, d, name)
    ensures name == ".." && nodes[d].nlink < 1
  {
    hide Tree;
    var k: nat :| FirstBears(nodes[d].ents, k, name) && nodes[d].ents[k].inum < |nodes| && nodes[nodes[d].ents[k].inum].kind == T_FREE;
    InTable(nodes, home, depth, d, k);
  }

  predicate NoInode(nodes: seq<Node>) {
    forall i: nat | 0 < i < |nodes| :: nodes[i].kind != T_FREE
  }

  /** When create panics, given the free blocks and what an entry in d needs of them: the name stands for a freed inode, or
      it is new and there is no free inode, no free block for the dots of a new directory, or no room for the entry. */
  ghost predicate CreatePanics(nodes: seq<Node>, d: nat, name: string, kind: int, stock: int, price: int)
    requires d < |nodes|
  {
    if HasName(nodes[d].ents, name) then NamesFreed(nodes, d, name)
    else NoInode(nodes) || (kind == T_DIR && stock < 1) || Crowded(nodes[d].ents, stock - DotsBlock(kind), price)
  }

  /** The block that the dots of a new directory take. */
  function DotsBlock(kind: int): int {
    if kind == T_DIR then 1 else 0
  }

  /** create (sysfile.c:241-283) as open, mkdir and mknod call it. */
  method Create(fs: Fs, d: nat, name: string, kind: int, refs: seq<nat>, ghost nodes: seq<Node>, ghost files: seq<seq<Byte>>,
                ghost home: map<nat, nat>, ghost depth: map<nat, nat>)
    returns (ok: bool, r: nat, ghost k: nat)
    requires Shows(fs, nodes, files) && Refs(refs, nodes) && 0 < d < |nodes| && nodes[d].kind == T_DIR && Nameable(name)
    requires Tree(nodes, home, depth) && kind != T_FREE
    modifies fs
    ensures !ok <==> CreatePanics(nodes, d, Short(name), kind, old(fs.Stock()), Toll(old(fs.inodes), old(fs.data), d, |nodes[d].ents|))
    ensures ok && HasName(nodes[d].ents, Short(name)) ==> FirstBears(nodes[d].ents, k, Short(name)) && nodes[d].ents[k].inum < |nodes|
    ensures ok && HasName(nodes[d].ents, Short(name)) ==> r == if Reopens(nodes, d, k, kind) then nodes[d].ents[k].inum else 0
    ensures ok && HasName(nodes[d].ents, Short(name)) ==> Shows(fs, CreateShown(nodes, d, k, Short(name), kind, r, true), files)
    ensures ok && !HasName(nodes[d].ents, Short(name)) ==> MayEnter(nodes, d, k, r, Short(name), kind)
    ensures ok && !HasName(nodes[d].ents, Short(name)) ==> Shows(fs, CreateShown(nodes, d, k, Short(name), kind, r, false), files[r := []])
    ensures ok ==> OneTransaction(fs, old(fs.journal.past), old(fs.Now()), 8)
  {
    hide Shows, Spends, HasName, OneTransaction, MapArea, Tree, NamesFreed, Spare, Toll, Crowded;
    TableSizes(fs, nodes, files);
    Begin(fs, nodes, files);
    var found, ip, off := Find(fs, d, name, nodes, files);
    k := off;
    if found {
      InTable(nodes, home, depth, d, off);
      OneFirst(nodes, d, Short(name), off);
      ok, r := Reopen(fs, d, kind, ip, refs, k, Short(name), nodes, files);
      if ok {
        Finish(fs, CreateShown(nodes, d, k, Short(name), kind, r, true), files, 6, ip, d);
      }
    } else {
      ok, r, k := MakeNew(fs, d, name, kind, refs, nodes, files, home, depth);
      if ok {
        Finish(fs, CreateShown(nodes, d, k, Short(name), kind, r, false), files[r := []], 6, r, d);
      }
    }
  }

  lemma {:induction false} OneFirst(nodes: seq<Node>, d: nat, name: string, k: nat)
    requires d < |nodes| && FirstBears(nodes[d].ents, k, name) && nodes[d].ents[k].inum < |nodes|
    ensures HasName(nodes[d].ents, name) && (NamesFreed(nodes, d, name) <==> nodes[nodes[d].ents[k].inum].kind == T_FREE)
  {
    if NamesFreed(nodes, d, name) {
      var j: nat :| FirstBears(nodes[d].ents, j, name) && nodes[d].ents[j].inum < |nodes| && nodes[nodes[d].ents[j].inum].kind == T_FREE;
      assert !(j < k) && !(k < j);
    }
  }

  lemma {:induction false} InTable(nodes: seq<Node>, home: map<nat, nat>, depth: map<nat, nat>, d: nat, k: nat)
    requires Tree(nodes, home, depth) && d < |nodes| && nodes[d].kind == T_DIR && k < |nodes[d].ents|
    ensures nodes[d].ents[k].inum < |nodes|
    ensures nodes[d].ents[k].inum != 0 && nodes[nodes[d].ents[k].inum].kind == T_FREE ==>
              nodes[d].nlink < 1 && nodes[d].ents[k].name == ".." && nodes[d].ents[k].inum == Parent(nodes[d])
  {
    assert GoodDir(nodes, d);
    hide GoodDirs, Homes, OnlyHomes;
  }

  /** create for a name that exists (sysfile.c:252-259). */
  method Reopen(fs: Fs, d: nat, kind: int, ip: nat, refs: seq<nat>,
                ghost k: nat, ghost name: string, ghost nodes: seq<Node>, ghost files: seq<seq<Byte>>)
    returns (ok: bool, r: nat)
    requires Shows(fs, nodes, files) && Refs(refs, nodes) && d < |nodes| && nodes[d].kind == T_DIR
    requires k < |nodes[d].ents| && 0 < ip == nodes[d].ents[k].inum < |nodes| && fs.logged == {}
    modifies fs
    ensures ok <==> nodes[ip].kind != T_FREE
    ensures ok ==> r == if Reopens(nodes, d, k, kind) then ip else 0
    ensures ok ==> Shows(fs, CreateShown(nodes, d, k, name, kind, r, true), files)
    ensures ok ==> fs.journal == old(fs.journal) && Spends({}, fs.logged, 6, Known(fs, ip, d))
  {
    hide Shows, Spends, MapArea;
    ghost var known := Known(fs, ip, d);
    SpendsIn({}, {}, {}, 6, known);
    Iput(fs, d, refs[d] == 0 && ip != d, nodes, files, 6, known);
    ghost var n := if ip != d then Settled(nodes, d) else nodes;
    var inode := Locked(fs, ip, n, files);
    if inode.kind == T_FREE {
      return false, 0;
    }
    if kind == T_FILE && inode.kind == T_FILE {
      return true, ip;
    }
    Iput(fs, ip, refs[ip] == 0, n, files, 6, known);
    SettledTwice(nodes, d);
    return true, 0;
  }

  lemma {:induction false} SettledTwice(nodes: seq<Node>, d: nat)
    requires d < |nodes|
    ensures Settled(Settled(nodes, d), d) == Settled(nodes, d)
  {
  }

  /** create for a new name (sysfile.c:261-282). */
  method MakeNew(fs: Fs, d: nat, name: string, kind: int, refs: seq<nat>, ghost nodes: seq<Node>, ghost files: seq<seq<Byte>>,
                 ghost home: map<nat, nat>, ghost depth: map<nat, nat>)
    returns (ok: bool, c: nat, ghost k: nat)
    requires Shows(fs, nodes, files) && Refs(refs, nodes) && 0 < d < |nodes| && nodes[d].kind == T_DIR && Nameable(name)
    requires Tree(nodes, home, depth) && kind != T_FREE && fs.logged == {} && !HasName(nodes[d].ents, Short(name))
    modifies fs
    ensures !ok <==> CreatePanics(nodes, d, Short(name), kind, old(fs.Stock()), Toll(old(fs.inodes), old(fs.data), d, |nodes[d].ents|))
    ensures ok ==> MayEnter(nodes, d, k, c, Short(name), kind)
    ensures ok ==> Shows(fs, CreateShown(nodes, d, k, Short(name), kind, c, false), files[c := []])
    ensures ok ==> fs.journal == old(fs.journal) && Spends({}, fs.logged, 6, Known(fs, c, d))
  {
    hide Shows, Spends, MapArea, Tree, HasName, Spare, KeptBut, Toll, Crowded;
    TableSizes(fs, nodes, files);
    NotDots(nodes, home, depth, d, Short(name));
    k := 0;
    ok, c := SetUp(fs, d, kind, nodes, files);
    if ok {
      ghost var n := Parented(nodes, d, c, kind);
      ghost var known := Known(fs, c, d);
      TollKept(old(fs.inodes), old(fs.data), fs.inodes, fs.data, c, d, |nodes[d].ents|);
      var r;
      ok, r, k := Enter(fs, d, name, c, n, files[c := []], 4, known);
      if ok {
        EmptyIsFree(nodes, home, depth, d, k);
        n := n[d := n[d].(ents := Put(n[d].ents, k, Dirent(c, Short(name))))];
        assert n == Created(nodes, d, k, c, Short(name), kind);
        Iput(fs, d, refs[d] == 0, n, files[c := []], 6, known);
      }
    }
  }

  /** The new inode c, and d with the link from its "..". */
  function Parented(nodes: seq<Node>, d: nat, c: nat, kind: int): seq<Node>
    requires d < |nodes| && c < |nodes|
  {
    nodes[d := nodes[d].(nlink := nodes[d].nlink + if kind == T_DIR then 1 else 0)][c := Born(kind, c, d)]
  }

  /** create up to the entry in d (sysfile.c:261-275). */
  method SetUp(fs: Fs, d: nat, kind: int, ghost nodes: seq<Node>, ghost files: seq<seq<Byte>>) returns (ok: bool, c: nat)
    requires Shows(fs, nodes, files) && 0 < d < |nodes| == |files| && nodes[d].kind == T_DIR && kind != T_FREE && fs.logged == {}
    modifies fs
    ensures !ok <==> NoInode(nodes) || (kind == T_DIR && old(fs.Stock()) < 1)
    ensures ok ==> fs.Stock() == old(fs.Stock()) - DotsBlock(kind) && KeptBut(old(fs.inodes), old(fs.data), fs.inodes, fs.data, c)
    ensures ok ==> 0 < c < |nodes| && nodes[c].kind == T_FREE && Shows(fs, Parented(nodes, d, c, kind), files[c := []])
    ensures ok ==> fs.journal == old(fs.journal) && Spends({}, fs.logged, 4, Known(fs, c, d))
  {
    hide Shows, Spends, MapArea, Spare, KeptBut;
    ok, c := Ialloc(fs, kind, nodes, files);
    if ok {
      ghost var known, n := Known(fs, c, d), nodes[c := Node(kind, 0, 1, [])];
      SpendsIn({}, fs.logged, {}, 0, known);
      ghost var inodes, data := fs.inodes, fs.data;
      SetLinks(fs, c, 1, n, files[c := []], 0, known);
      KeptTwice(old(fs.inodes), old(fs.data), inodes, data, fs.inodes, fs.data, c);
      inodes, data := fs.inodes, fs.data;
      n := n[c := n[c].(nlink := 1)];
      if kind == T_DIR {
        ok := MakeDots(fs, c, d, n, files[c := []], known);
        if ok {
          KeptTwice(old(fs.inodes), old(fs.data), inodes, data, fs.inodes, fs.data, c);
        }
        n := n[d := n[d].(nlink := n[d].nlink + 1)][c := Born(T_DIR, c, d)];
      } else {
        SpendsWider(fs.logged, 0, 4, known);
      }
      assert n == Parented(nodes, d, c, kind);
    }
  }

  lemma {:induction false} EmptyIsFree(nodes: seq<Node>, home: map<nat, nat>, depth: map<nat, nat>, d: nat, k: nat)
    requires Tree(nodes, home, depth) && 0 < d < |nodes| && nodes[d].kind == T_DIR && FirstEmpty(nodes[d].ents, k)
    ensures FreeSlot(nodes[d].ents, k)
  {
    DotsInUse(nodes, home, depth, d);
    hide Tree;
  }

  /** "." and ".." of a new directory (sysfile.c:269-275). */
  method MakeDots(fs: Fs, c: nat, d: nat, ghost nodes: seq<Node>, ghost files: seq<seq<Byte>>, ghost known: set<nat>) returns (ok: bool)
    requires Shows(fs, nodes, files) && c < |nodes| && d < |nodes| && c != d && 0 < c && 0 < d
    requires nodes[c] == Node(T_DIR, 1, 1, []) && nodes[d].kind == T_DIR
    requires Spends({}, fs.logged, 0, known) && Known(fs, c, d) <= known && c < |fs.inodes| && fs.inodes[c].addrs == NoAddrs()
    modifies fs
    ensures !ok <==> old(fs.Stock()) < 1
    ensures ok ==> fs.Stock() == old(fs.Stock()) - 1 && KeptBut(old(fs.inodes), old(fs.data), fs.inodes, fs.data, c)
    ensures ok ==> Shows(fs, nodes[d := nodes[d].(nlink := nodes[d].nlink + 1)][c := Born(T_DIR, c, d)], files)
    ensures ok ==> fs.journal == old(fs.journal) && Spends({}, fs.logged, 4, known)
  {
    hide Shows, Spends, MapArea, Spare, KeptBut, Toll;
    var dp := Locked(fs, d, nodes, files);
    SetLinks(fs, d, dp.nlink + 1, nodes, files, 0, known);
    ghost var n := nodes[d := nodes[d].(nlink := dp.nlink + 1)];
    ghost var inodes, data := fs.inodes, fs.data;
    FirstToll(inodes, data, c);
    var r;
    ghost var k;
    ok, r, k := Enter(fs, c, ".", c, n, files, 0, known);
    if ok {
      assert Put([], 0, Dirent(c, ".")) == [Dirent(c, ".")];
      n := n[c := n[c].(ents := [Dirent(c, ".")])];
      assert !HasName(n[c].ents, "..");
      KeptTwice(old(fs.inodes), old(fs.data), inodes, data, fs.inodes, fs.data, c);
      inodes, data := fs.inodes, fs.data;
      StockNat(fs, n, files);
      SecondToll(fs, n, files, c);
      ok, r, k := Enter(fs, c, "..", d, n, files, 2, known);
      KeptTwice(old(fs.inodes), old(fs.data), inodes, data, fs.inodes, fs.data, c);
      assert Put([Dirent(c, ".")], 1, Dirent(d, "..")) == [Dirent(c, "."), Dirent(d, "..")];
      n := n[c := Born(T_DIR, c, d)];
      assert n == nodes[d := nodes[d].(nlink := nodes[d].nlink + 1)][c := Born(T_DIR, c, d)];
    }
  }
}
