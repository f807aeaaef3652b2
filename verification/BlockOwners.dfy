/** Who owns a disk block: the slots of the inodes (direct blocks, the indirect block, and the blocks it
    lists) against `owner`, the inverse map from blocks to slots. */
module BlockOwners {
  import opened DiskModel
  import opened FileBlocks

  const NDIRECT: nat := 12
  const MAXFILE: nat := 140
  const NSLOTS: nat := 141

  type Addrs = s: seq<Word> | |s| == NDIRECT + 1 witness seq(NDIRECT + 1, _ => 0)

  function NoAddrs(): Addrs {
    seq(NDIRECT + 1, _ => 0)
  }

  datatype Inode = Inode(kind: int, nlink: int, size: Word, addrs: Addrs)

  /** Slot k of an inode: k < 12 a direct block, 12 the indirect block, 13 + j entry j of the indirect block. */
  datatype Slot = Slot(inum: nat, k: nat)

  /** The block number in a slot, 0 when there is none. */
  function Addr(inodes: seq<Inode>, data: seq<Data>, s: Slot): Word {
    if s.inum >= |inodes| || s.k >= NSLOTS then 0
    else if s.k <= NDIRECT then inodes[s.inum].addrs[s.k]
    else Listed(data, inodes[s.inum].addrs[NDIRECT], s.k - 13)
  }

  function Listed(data: seq<Data>, indirect: Word, j: nat): Word
    requires j < NINDIRECT
  {
    if indirect == 0 || indirect >= |data| then 0 else GetWord(data[indirect], j)
  }

  /** Each block number in a slot is owned by that slot alone, and each owned block is in its slot. */
  ghost predicate Owned(inodes: seq<Inode>, data: seq<Data>, owner: map<nat, Slot>) {
    && (forall s :: Addr(inodes, data, s) != 0 ==> Addr(inodes, data, s) in owner && owner[Addr(inodes, data, s)] == s)
    && (forall b | b in owner :: 0 < b < |data| && Addr(inodes, data, owner[b]) == b)
  }

  /** No block is in two slots. */
  lemma {:induction false} SlotsDisjoint(inodes: seq<Inode>, data: seq<Data>, owner: map<nat, Slot>, s: Slot, t: Slot)
    requires Owned(inodes, data, owner) && Addr(inodes, data, s) == Addr(inodes, data, t) != 0
    ensures s == t
  {
  }

  /** Blocks keep their owner, and blocks that are not indirect blocks keep their bytes. */
  ghost predicate Extends(data: seq<Data>, owner: map<nat, Slot>, data': seq<Data>, owner': map<nat, Slot>) {
    && |data'| == |data|
    && (forall b | b in owner :: b in owner' && owner'[b] == owner[b])
    && (forall b | b in owner && b < |data| && owner[b].k != NDIRECT :: data'[b] == data[b])
  }

  function SetAddr(inodes: seq<Inode>, i: nat, k: nat, b: Word): (r: seq<Inode>)
    requires i < |inodes| && k <= NDIRECT
    ensures |r| == |inodes| && r[i] == inodes[i].(addrs := inodes[i].addrs[k := b])
    ensures forall j: nat | j < |inodes| && j != i :: r[j] == inodes[j]
  {
    inodes[i := inodes[i].(addrs := inodes[i].addrs[k := b])]
  }

  /** Slot s0 got block b, and no other slot changed. */
  ghost predicate Gained(inodes: seq<Inode>, data: seq<Data>, inodes': seq<Inode>, data': seq<Data>, s0: Slot, b: Word) {
    forall s :: Addr(inodes', data', s) == if s == s0 then b else Addr(inodes, data, s)
  }

  ghost predicate SameAddrs(inodes: seq<Inode>, data: seq<Data>, data': seq<Data>) {
    forall s :: Addr(inodes, data', s) == Addr(inodes, data, s)
  }

  lemma {:induction false} AddrTaken(inodes: seq<Inode>, data: seq<Data>, owner: map<nat, Slot>, i: nat, b: nat)
    requires Owned(inodes, data, owner) && b !in owner && i < |inodes|
    ensures inodes[i].addrs[NDIRECT] == 0 || inodes[i].addrs[NDIRECT] != b
  {
    var s := Slot(i, NDIRECT);
    assert Addr(inodes, data, s) == inodes[i].addrs[NDIRECT];
  }

  lemma {:induction false} DirectAddr(inodes: seq<Inode>, data: seq<Data>, owner: map<nat, Slot>, i: nat, k: nat, b: Word, s: Slot)
    requires Owned(inodes, data, owner) && b !in owner && 0 < b < |data|
    requires i < |inodes| && k <= NDIRECT && inodes[i].addrs[k] == 0
    ensures Addr(SetAddr(inodes, i, k, b), data[b := ZeroData()], s) == if s == Slot(i, k) then b else Addr(inodes, data, s)
  {
    hide GetWord;
    if s.inum < |inodes| && s.k < NSLOTS {
      AddrTaken(inodes, data, owner, s.inum, b);
      if NDIRECT < s.k {
        ZeroWord(s.k - 13);
        var now := SetAddr(inodes, i, k, b)[s.inum].addrs[NDIRECT];
        assert now == if s.inum == i && k == NDIRECT then b else inodes[s.inum].addrs[NDIRECT];
      }
    }
  }

  /** A zeroed free block put into an empty direct or indirect slot. */
  lemma {:induction false} DirectOwned(inodes: seq<Inode>, data: seq<Data>, owner: map<nat, Slot>, i: nat, k: nat, b: Word)
    requires Owned(inodes, data, owner) && b !in owner && 0 < b < |data|
    requires i < |inodes| && k <= NDIRECT && inodes[i].addrs[k] == 0
    ensures Owned(SetAddr(inodes, i, k, b), data[b := ZeroData()], owner[b := Slot(i, k)])
    ensures Extends(data, owner, data[b := ZeroData()], owner[b := Slot(i, k)])
    ensures Gained(inodes, data, SetAddr(inodes, i, k, b), data[b := ZeroData()], Slot(i, k), b)
  {
    hide GetWord;
    var inodes', data' := SetAddr(inodes, i, k, b), data[b := ZeroData()];
    forall s
      ensures Addr(inodes', data', s) == if s == Slot(i, k) then b else Addr(inodes, data, s)
    {
      DirectAddr(inodes, data, owner, i, k, b, s);
    }
  }

  function AddListed(data: seq<Data>, indirect: nat, j: nat, b: Word): seq<Data>
    requires b < |data| && indirect < |data| && j < NINDIRECT
  {
    var zeroed := data[b := ZeroData()];
    zeroed[indirect := SetWord(zeroed[indirect], j, b)]
  }

  lemma {:induction false} ListedAddr(inodes: seq<Inode>, data: seq<Data>, owner: map<nat, Slot>, i: nat, j: nat, b: Word, s: Slot)
    requires Owned(inodes, data, owner) && b !in owner && 0 < b < |data|
    requires i < |inodes| && j < NINDIRECT && inodes[i].addrs[NDIRECT] != 0
    ensures Slot(i, NDIRECT) in owner.Values && inodes[i].addrs[NDIRECT] < |data|
    ensures Addr(inodes, AddListed(data, inodes[i].addrs[NDIRECT], j, b), s) == if s == Slot(i, 13 + j) then b else Addr(inodes, data, s)
  {
    hide GetWord;
    var ind := inodes[i].addrs[NDIRECT];
    assert Addr(inodes, data, Slot(i, NDIRECT)) == ind;
    if s.inum < |inodes| {
      AddrTaken(inodes, data, owner, s.inum, b);
      assert Addr(inodes, data, Slot(s.inum, NDIRECT)) == inodes[s.inum].addrs[NDIRECT];
      if NDIRECT < s.k < NSLOTS && s.inum == i {
        WordSet(data[ind], j, b, s.k - 13);
      }
    }
  }

  /** A zeroed free block put into an empty entry of an indirect block. */
  lemma {:induction false} ListedOwned(inodes: seq<Inode>, data: seq<Data>, owner: map<nat, Slot>, i: nat, j: nat, b: Word)
    requires Owned(inodes, data, owner) && b !in owner && 0 < b < |data|
    requires i < |inodes| && j < NINDIRECT && inodes[i].addrs[NDIRECT] != 0 && Addr(inodes, data, Slot(i, 13 + j)) == 0
    ensures inodes[i].addrs[NDIRECT] < |data|
    ensures Owned(inodes, AddListed(data, inodes[i].addrs[NDIRECT], j, b), owner[b := Slot(i, 13 + j)])
    ensures Extends(data, owner, AddListed(data, inodes[i].addrs[NDIRECT], j, b), owner[b := Slot(i, 13 + j)])
    ensures Gained(inodes, data, inodes, AddListed(data, inodes[i].addrs[NDIRECT], j, b), Slot(i, 13 + j), b)
  {
    hide GetWord;
    ListedAddr(inodes, data, owner, i, j, b, Slot(i, 13 + j));
    var data' := AddListed(data, inodes[i].addrs[NDIRECT], j, b);
    forall s
      ensures Addr(inodes, data', s) == if s == Slot(i, 13 + j) then b else Addr(inodes, data, s)
    {
      ListedAddr(inodes, data, owner, i, j, b, s);
    }
    assert Addr(inodes, data, Slot(i, NDIRECT)) == inodes[i].addrs[NDIRECT];
  }

  /** Writing bytes into a block that is not an indirect block. */
  lemma {:induction false} WriteOwned(inodes: seq<Inode>, data: seq<Data>, owner: map<nat, Slot>, b: nat, d: Data)
    requires Owned(inodes, data, owner) && b in owner && owner[b].k != NDIRECT
    ensures Owned(inodes, data[b := d], owner) && SameAddrs(inodes, data, data[b := d])
  {
    hide GetWord;
    var data' := data[b := d];
    forall s
      ensures Addr(inodes, data', s) == Addr(inodes, data, s)
    {
      assert s.inum < |inodes| ==> Addr(inodes, data, Slot(s.inum, NDIRECT)) == inodes[s.inum].addrs[NDIRECT];
    }
  }

  // ----- Truncation -----

  /** The place of slot k in the order in which itrunc frees. */
  function Rank(k: nat): nat {
    if k < NDIRECT then k else if k == NDIRECT then 140 else k - 1
  }

  /** The owners left when itrunc has freed inode i's slots of rank below `stage`. */
  function Released(owner: map<nat, Slot>, i: nat, stage: nat): map<nat, Slot> {
    map b | b in owner && !(owner[b].inum == i && Rank(owner[b].k) < stage) :: owner[b]
  }

  /** One slot's block leaves, and only that block. */
  lemma {:induction false} ReleaseOne(inodes: seq<Inode>, data: seq<Data>, owner: map<nat, Slot>, i: nat, s: Slot)
    requires Owned(inodes, data, owner) && s.inum == i && s.k < NSLOTS
    ensures Addr(inodes, data, s) == 0 ==> Released(owner, i, Rank(s.k) + 1) == Released(owner, i, Rank(s.k))
    ensures Addr(inodes, data, s) != 0 ==> Addr(inodes, data, s) in Released(owner, i, Rank(s.k))
    ensures Addr(inodes, data, s) != 0 ==>
              Released(owner, i, Rank(s.k) + 1) == Released(owner, i, Rank(s.k)) - {Addr(inodes, data, s) as nat}
  {
    hide GetWord;
    var r := Rank(s.k);
    forall b | b in owner && owner[b].inum == i && Rank(owner[b].k) == r
      ensures b == Addr(inodes, data, s)
    {
      assert Addr(inodes, data, owner[b]) == b;
      assert owner[b] == s;
    }
  }

  lemma {:induction false} ReleasedNone(owner: map<nat, Slot>, i: nat)
    ensures Released(owner, i, 0) == owner
  {
  }

  /** Without an indirect block no block has a rank from 12 on. */
  lemma {:induction false} NoneListed(inodes: seq<Inode>, data: seq<Data>, owner: map<nat, Slot>, i: nat)
    requires Owned(inodes, data, owner) && i < |inodes| && inodes[i].addrs[NDIRECT] == 0
    ensures Released(owner, i, NDIRECT) == Released(owner, i, NSLOTS)
  {
    forall b | b in owner && owner[b].inum == i
      ensures Rank(owner[b].k) < NDIRECT
    {
      assert Addr(inodes, data, owner[b]) == b;
    }
  }

  function Truncated(inodes: seq<Inode>, i: nat): (r: seq<Inode>)
    requires i < |inodes|
  {
    inodes[i := inodes[i].(addrs := NoAddrs(), size := 0)]
  }

  /** With every slot of the inode empty the remaining owners are exact again. */
  lemma {:induction false} TruncatedOwned(inodes: seq<Inode>, data: seq<Data>, owner: map<nat, Slot>, i: nat)
    requires Owned(inodes, data, owner) && i < |inodes|
    ensures Owned(Truncated(inodes, i), data, Released(owner, i, NSLOTS))
  {
    hide GetWord;
    forall s
      ensures Addr(Truncated(inodes, i), data, s) == if s.inum == i then 0 else Addr(inodes, data, s)
    {
    }
    forall b | b in owner && owner[b].inum == i
      ensures Rank(owner[b].k) < NSLOTS
    {
      assert Addr(inodes, data, owner[b]) == b;
    }
  }
}
