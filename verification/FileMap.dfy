/** File contents over the block map: byte o of a file is byte o % 512 of its block o / 512. */
module FileMap {
  import opened DiskModel
  import opened FileBlocks
  import opened BlockOwners

  /** The slot of file block bn (fs.c:378-396). */
  function FileSlot(bn: nat): nat {
    if bn < NDIRECT then bn else bn + 1
  }

  function BlockOf(inodes: seq<Inode>, data: seq<Data>, i: nat, bn: nat): Word {
    Addr(inodes, data, Slot(i, FileSlot(bn)))
  }

  predicate Mapped(inodes: seq<Inode>, data: seq<Data>, i: nat, o: nat) {
    BlockOf(inodes, data, i, o / BSIZE) != 0
  }

  function ByteAt(inodes: seq<Inode>, data: seq<Data>, i: nat, o: nat): Byte {
    var b := BlockOf(inodes, data, i, o / BSIZE);
    if b < |data| then data[b][o % BSIZE] else 0
  }

  /** Every block below ceil(upto / BSIZE) is allocated. */
  ghost predicate NoHoles(inodes: seq<Inode>, data: seq<Data>, i: nat, upto: nat) {
    forall o: nat | o < upto :: Mapped(inodes, data, i, o)
  }

  /** The file as a byte sequence. */
  function Contents(inodes: seq<Inode>, data: seq<Data>, i: nat): (s: seq<Byte>)
    requires i < |inodes|
    ensures |s| == inodes[i].size
  {
    seq(inodes[i].size, o requires 0 <= o < inodes[i].size => ByteAt(inodes, data, i, o))
  }

  /** Between two states, bytes from..to of src have been stored at off + from .. off + to of file i, and every
      other mapped byte of every file is as before. */
  ghost predicate Written(inodes: seq<Inode>, data: seq<Data>, inodes': seq<Inode>, data': seq<Data>,
                          i: nat, off: nat, src: seq<Byte>, from: nat, to: nat)
    requires to <= |src|
  {
    && (forall j: nat, o: nat | Mapped(inodes, data, j, o) && !(j == i && off + from <= o < off + to) ::
          Mapped(inodes', data', j, o) && ByteAt(inodes', data', j, o) == ByteAt(inodes, data, j, o))
    && (forall o: nat | off + from <= o < off + to ::
          Mapped(inodes', data', i, o) && ByteAt(inodes', data', i, o) == src[o - off])
  }

  lemma {:induction false} WrittenTwice(inodes: seq<Inode>, data: seq<Data>, inodes1: seq<Inode>, data1: seq<Data>,
                                        inodes2: seq<Inode>, data2: seq<Data>,
                                        i: nat, off: nat, src: seq<Byte>, from: nat, mid: nat, to: nat)
    requires from <= mid <= to <= |src|
    requires Written(inodes, data, inodes1, data1, i, off, src, from, mid)
    requires Written(inodes1, data1, inodes2, data2, i, off, src, mid, to)
    ensures Written(inodes, data, inodes2, data2, i, off, src, from, to)
  {
    hide Mapped;
    hide ByteAt;
  }

  /** Blocks that keep owner and bytes keep every mapped byte of every file. */
  lemma {:induction false} ExtendsKeeps(inodes: seq<Inode>, data: seq<Data>, owner: map<nat, Slot>,
                                        inodes': seq<Inode>, data': seq<Data>, owner': map<nat, Slot>, j: nat, o: nat)
    requires Owned(inodes, data, owner) && Owned(inodes', data', owner') && Extends(data, owner, data', owner')
    requires Mapped(inodes, data, j, o)
    ensures BlockOf(inodes', data', j, o / BSIZE) == BlockOf(inodes, data, j, o / BSIZE)
    ensures Mapped(inodes', data', j, o) && ByteAt(inodes', data', j, o) == ByteAt(inodes, data, j, o)
  {
    hide Addr;
    var s := Slot(j, FileSlot(o / BSIZE));
    var b := Addr(inodes, data, s);
    assert owner[b] == s && Addr(inodes', data', owner'[b]) == b;
  }

  /** Storing `part` into the block of file i at offset off. */
  lemma {:induction false} StoreKeeps(inodes: seq<Inode>, data: seq<Data>, owner: map<nat, Slot>, i: nat, off: nat, part: seq<Byte>,
                                      data': seq<Data>, j: nat, o: nat)
    requires Owned(inodes, data, owner) && Mapped(inodes, data, i, off) && off % BSIZE + |part| <= BSIZE
    requires BlockOf(inodes, data, i, off / BSIZE) < |data|
    requires var b := BlockOf(inodes, data, i, off / BSIZE); data' == data[b := Overlay(data[b], off % BSIZE, part)]
    requires Owned(inodes, data', owner) && Mapped(inodes, data, j, o)
    ensures Mapped(inodes, data', j, o)
    ensures ByteAt(inodes, data', j, o) ==
            if j == i && off <= o < off + |part| then part[o - off] else ByteAt(inodes, data, j, o)
  {
    hide Addr;
    assert off <= o < off + |part| ==> o / BSIZE == off / BSIZE;
    var s, t := Slot(i, FileSlot(off / BSIZE)), Slot(j, FileSlot(o / BSIZE));
    var b, c := Addr(inodes, data, s), Addr(inodes, data, t);
    assert owner[c] == t && Addr(inodes, data', owner[c]) == c;
    if b == c {
      SlotsDisjoint(inodes, data, owner, s, t);
      assert o / BSIZE == off / BSIZE;
      assert o == o / BSIZE * BSIZE + o % BSIZE && off == off / BSIZE * BSIZE + off % BSIZE;
    }
  }

  lemma {:induction false} ExtendsWritten(inodes: seq<Inode>, data: seq<Data>, owner: map<nat, Slot>,
                                          inodes': seq<Inode>, data': seq<Data>, owner': map<nat, Slot>,
                                          i: nat, off: nat, src: seq<Byte>, at: nat)
    requires Owned(inodes, data, owner) && Owned(inodes', data', owner') && Extends(data, owner, data', owner') && at <= |src|
    ensures Written(inodes, data, inodes', data', i, off, src, at, at)
  {
    hide Owned, Extends, Mapped, ByteAt;
    forall j: nat, o: nat | Mapped(inodes, data, j, o)
      ensures Mapped(inodes', data', j, o) && ByteAt(inodes', data', j, o) == ByteAt(inodes, data, j, o)
    {
      ExtendsKeeps(inodes, data, owner, inodes', data', owner', j, o);
    }
  }

  lemma {:induction false} StoreWritten(inodes: seq<Inode>, data: seq<Data>, owner: map<nat, Slot>, i: nat, off: nat, src: seq<Byte>,
                                        from: nat, to: nat, b: nat, data': seq<Data>)
    requires Owned(inodes, data, owner) && Mapped(inodes, data, i, off + from) && from <= to <= |src|
    requires (off + from) % BSIZE + (to - from) <= BSIZE && b == BlockOf(inodes, data, i, (off + from) / BSIZE) < |data|
    requires data' == data[b := Overlay(data[b], (off + from) % BSIZE, src[from..to])] && Owned(inodes, data', owner)
    ensures Written(inodes, data, inodes, data', i, off, src, from, to)
  {
    hide Owned, ByteAt, BlockOf;
    forall j: nat, o: nat | Mapped(inodes, data, j, o)
      ensures Mapped(inodes, data', j, o)
      ensures ByteAt(inodes, data', j, o) ==
              if j == i && off + from <= o < off + to then src[o - off] else ByteAt(inodes, data, j, o)
    {
      StoreKeeps(inodes, data, owner, i, off + from, src[from..to], data', j, o);
    }
    forall o: nat | off + from <= o < off + to
      ensures Mapped(inodes, data, i, o)
    {
      assert o / BSIZE == (off + from) / BSIZE;
    }
  }

  /** A change of size alone moves no block. */
  lemma {:induction false} ResizeKeeps(inodes: seq<Inode>, inodes': seq<Inode>, i: nat, size: Word, data: seq<Data>, owner: map<nat, Slot>,
                                       inodes0: seq<Inode>, data0: seq<Data>, off: nat, src: seq<Byte>)
    requires i < |inodes| && inodes' == inodes[i := inodes[i].(size := size)] && Owned(inodes, data, owner)
    requires Written(inodes0, data0, inodes, data, i, off, src, 0, |src|)
    ensures Owned(inodes', data, owner) && Written(inodes0, data0, inodes', data, i, off, src, 0, |src|)
  {
    hide Listed;
    forall s
      ensures Addr(inodes', data, s) == Addr(inodes, data, s)
    {
    }
    hide Addr;
    forall j: nat, o: nat
      ensures Mapped(inodes', data, j, o) == Mapped(inodes, data, j, o)
      ensures ByteAt(inodes', data, j, o) == ByteAt(inodes, data, j, o)
    {
    }
  }

  /** A write that starts inside a block starts in an allocated block. */
  lemma {:induction false} UnalignedMapped(inodes: seq<Inode>, data: seq<Data>, i: nat, off: nat)
    requires i < |inodes| && NoHoles(inodes, data, i, inodes[i].size) && off <= inodes[i].size && off % BSIZE != 0
    ensures Mapped(inodes, data, i, off)
  {
    assert Mapped(inodes, data, i, off - 1) && (off - 1) / BSIZE == off / BSIZE;
  }

  /** writei's meaning on a byte sequence: src laid over the old contents from off on. */
  function Patched(s: seq<Byte>, off: nat, src: seq<Byte>): seq<Byte>
    requires off <= |s|
  {
    s[..off] + src + (if off + |src| < |s| then s[off + |src|..] else [])
  }

  /** The bytes written and kept make up the patched file. */
  lemma {:induction false} WrittenContents(inodes: seq<Inode>, data: seq<Data>, inodes': seq<Inode>, data': seq<Data>,
                                           i: nat, off: nat, src: seq<Byte>)
    requires Written(inodes, data, inodes', data', i, off, src, 0, |src|)
    requires i < |inodes| == |inodes'| && off <= inodes[i].size && NoHoles(inodes, data, i, inodes[i].size)
    requires inodes'[i].size == if off + |src| > inodes[i].size then off + |src| else inodes[i].size
    ensures Contents(inodes', data', i) == Patched(Contents(inodes, data, i), off, src)
    ensures NoHoles(inodes', data', i, inodes'[i].size)
  {
    hide Mapped;
    hide ByteAt;
  }

  /** Every other file without holes reads as before. */
  lemma {:induction false} WrittenOthers(inodes: seq<Inode>, data: seq<Data>, inodes': seq<Inode>, data': seq<Data>,
                                         i: nat, off: nat, src: seq<Byte>, j: nat)
    requires Written(inodes, data, inodes', data', i, off, src, 0, |src|) && j != i
    requires j < |inodes| == |inodes'| && inodes'[j] == inodes[j] && NoHoles(inodes, data, j, inodes[j].size)
    ensures Contents(inodes', data', j) == Contents(inodes, data, j) && NoHoles(inodes', data', j, inodes'[j].size)
  {
    hide Mapped;
    hide ByteAt;
  }
}
