/** The free map of fs.c: one bit per disk block, 4096 bits per bitmap block. */
module Bitmap {

  const BPB: nat := 4096

  /** One bitmap block: 512 bytes. */
  type MapBlock = s: seq<bv8> | |s| == 512 witness seq(512, _ => 0)

  /** 1 << k */
  function Mask(k: nat): bv8
    requires k < 8
  {
    if k == 0 then 1 else if k == 1 then 2 else if k == 2 then 4 else if k == 3 then 8
    else if k == 4 then 16 else if k == 5 then 32 else if k == 6 then 64 else 128
  }

  lemma {:induction false} MaskIs(k: nat)
    requires k < 8
    ensures Mask(k) == (1 as bv8) << k
  {
  }

  predicate BitIn(m: MapBlock, bi: nat)
    requires bi < BPB
  {
    m[bi / 8] & Mask(bi % 8) != 0
  }

  function SetIn(m: MapBlock, bi: nat): MapBlock
    requires bi < BPB
  {
    m[bi / 8 := m[bi / 8] | Mask(bi % 8)]
  }

  function ClearIn(m: MapBlock, bi: nat): MapBlock
    requires bi < BPB
  {
    m[bi / 8 := m[bi / 8] & !Mask(bi % 8)]
  }

  /** The map covers block b. */
  predicate Covers(bm: seq<MapBlock>, b: nat) {
    b / BPB < |bm|
  }

  predicate Bit(bm: seq<MapBlock>, b: nat) {
    Covers(bm, b) && BitIn(bm[b / BPB], b % BPB)
  }

  lemma {:induction false} MaskOr(x: bv8, j: nat, k: nat)
    requires j < 8 && k < 8
    ensures (x | Mask(k)) & Mask(j) != 0 <==> j == k || x & Mask(j) != 0
  {
  }

  lemma {:induction false} MaskAnd(x: bv8, j: nat, k: nat)
    requires j < 8 && k < 8
    ensures (x & !Mask(k)) & Mask(j) != 0 <==> j != k && x & Mask(j) != 0
  {
  }

  /** Setting a bit changes that bit and no other. */
  lemma {:induction false} SetOne(m: MapBlock, bi: nat, c: nat)
    requires bi < BPB && c < BPB
    ensures BitIn(SetIn(m, bi), c) <==> c == bi || BitIn(m, c)
  {
    if c / 8 == bi / 8 {
      MaskOr(m[c / 8], c % 8, bi % 8);
    }
  }

  lemma {:induction false} ClearOne(m: MapBlock, bi: nat, c: nat)
    requires bi < BPB && c < BPB
    ensures BitIn(ClearIn(m, bi), c) <==> c != bi && BitIn(m, c)
  {
    if c / 8 == bi / 8 {
      MaskAnd(m[c / 8], c % 8, bi % 8);
    }
  }

  function Set(bm: seq<MapBlock>, b: nat): seq<MapBlock>
    requires Covers(bm, b)
  {
    bm[b / BPB := SetIn(bm[b / BPB], b % BPB)]
  }

  function Clear(bm: seq<MapBlock>, b: nat): seq<MapBlock>
    requires Covers(bm, b)
  {
    bm[b / BPB := ClearIn(bm[b / BPB], b % BPB)]
  }

  lemma {:induction false} SetBit(bm: seq<MapBlock>, b: nat, c: nat)
    requires Covers(bm, b)
    ensures Bit(Set(bm, b), c) <==> c == b || Bit(bm, c)
  {
    if Covers(bm, c) && c / BPB == b / BPB {
      SetOne(bm[b / BPB], b % BPB, c % BPB);
    }
  }

  lemma {:induction false} ClearBit(bm: seq<MapBlock>, b: nat, c: nat)
    requires Covers(bm, b)
    ensures Bit(Clear(bm, b), c) <==> c != b && Bit(bm, c)
  {
    if Covers(bm, c) && c / BPB == b / BPB {
      ClearOne(bm[b / BPB], b % BPB, c % BPB);
    }
  }

  /** The bits below size are set exactly for the system's own blocks and the blocks of `keys`. */
  ghost predicate Marked(bm: seq<MapBlock>, size: nat, dataStart: nat, keys: set<nat>) {
    && (forall b: nat | b < size :: Covers(bm, b) && (Bit(bm, b) <==> b < dataStart || b in keys))
    && (forall b | b in keys :: dataStart <= b < size)
  }

  lemma {:induction false} MarkedSet(bm: seq<MapBlock>, size: nat, dataStart: nat, keys: set<nat>, b: nat)
    requires Marked(bm, size, dataStart, keys) && b < size && !Bit(bm, b)
    ensures Marked(Set(bm, b), size, dataStart, keys + {b}) && dataStart <= b && b !in keys
  {
    forall c: nat | c < size
      ensures Bit(Set(bm, b), c) <==> c == b || Bit(bm, c)
      ensures Covers(Set(bm, b), c)
    {
      assert Covers(bm, c);
      SetBit(bm, b, c);
    }
  }

  lemma {:induction false} MarkedClear(bm: seq<MapBlock>, size: nat, dataStart: nat, keys: set<nat>, b: nat)
    requires Marked(bm, size, dataStart, keys) && b in keys
    ensures Bit(bm, b) && Marked(Clear(bm, b), size, dataStart, keys - {b})
  {
    forall c: nat | c < size
      ensures Bit(Clear(bm, b), c) <==> c != b && Bit(bm, c)
      ensures Covers(Clear(bm, b), c)
    {
      assert Covers(bm, c);
      ClearBit(bm, b, c);
    }
  }

  /** The search of balloc (fs.c:63-76): the first block whose bit is clear, or size when there is none. */
  method FirstClear(bm: seq<MapBlock>, size: nat) returns (r: nat)
    requires forall b: nat | b < size :: Covers(bm, b)
    ensures r <= size && (r < size ==> !Bit(bm, r))
    ensures forall b: nat | b < r :: Bit(bm, b)
  {
    var b := 0;
    while b < size
      invariant b % BPB == 0
      invariant forall c: nat | c < b && c < size :: Bit(bm, c)
    {
      assert Covers(bm, b);
      var bi := 0;
      while bi < BPB && b + bi < size
        invariant bi <= BPB
        invariant forall c: nat | c < b + bi && c < size :: Bit(bm, c)
      {
        assert (b + bi) / BPB == b / BPB && (bi < BPB ==> (b + bi) % BPB == bi);
        if bm[b / BPB][bi / 8] & Mask(bi % 8) == 0 {
          return b + bi;
        }
        assert Bit(bm, b + bi);
        bi := bi + 1;
      }
      b := b + BPB;
    }
    r := size;
  }
}
