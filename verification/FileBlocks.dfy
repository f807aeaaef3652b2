/** Blocks of the data area: 512 bytes, or 128 little-endian block numbers when read as an indirect block. */
module FileBlocks {
  import opened DiskModel

  const NINDIRECT: nat := 128

  type Byte = x: int | 0 <= x < 256

  type Data = s: seq<Byte> | |s| == BSIZE witness seq(BSIZE, _ => 0)

  function ZeroData(): Data {
    seq(BSIZE, _ => 0)
  }

  function LittleEndian(b0: int, b1: int, b2: int, b3: int): int {
    b0 + 0x100 * b1 + 0x1_0000 * b2 + 0x100_0000 * b3
  }

  function GetWord(d: Data, j: nat): Word
    requires j < NINDIRECT
  {
    LittleEndian(d[4 * j], d[4 * j + 1], d[4 * j + 2], d[4 * j + 3])
  }

  lemma {:induction false} ZeroWord(j: nat)
    requires j < NINDIRECT
    ensures GetWord(ZeroData(), j) == 0
  {
  }

  function SetWord(d: Data, j: nat, w: Word): Data
    requires j < NINDIRECT
  {
    d[4 * j := w % 0x100][4 * j + 1 := w / 0x100 % 0x100][4 * j + 2 := w / 0x1_0000 % 0x100][4 * j + 3 := w / 0x100_0000]
  }

  lemma {:induction false} Reassembled(w: Word)
    ensures LittleEndian(w % 0x100, w / 0x100 % 0x100, w / 0x1_0000 % 0x100, w / 0x100_0000) == w
  {
    assert w / 0x1_0000 == w / 0x100 / 0x100 && w / 0x100_0000 == w / 0x100 / 0x100 / 0x100;
  }

  /** Storing a block number changes that entry and no other. */
  lemma {:induction false} WordSet(d: Data, j: nat, w: Word, k: nat)
    requires j < NINDIRECT && k < NINDIRECT
    ensures GetWord(SetWord(d, j, w), k) == if k == j then w else GetWord(d, k)
  {
    Reassembled(w);
    var e := SetWord(d, j, w);
    if k != j {
      assert e[4 * k] == d[4 * k] && e[4 * k + 1] == d[4 * k + 1] && e[4 * k + 2] == d[4 * k + 2] && e[4 * k + 3] == d[4 * k + 3];
    }
  }

  /** memmove of `s` into the block at `at`. */
  function Overlay(d: Data, at: nat, s: seq<Byte>): (r: Data)
    requires at + |s| <= BSIZE
    ensures forall k: nat | k < BSIZE :: r[k] == if at <= k < at + |s| then s[k - at] else d[k]
  {
    d[..at] + s + d[at + |s|..]
  }
}
