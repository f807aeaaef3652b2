/** The ring buffer of a pipe (pipe.c:78-121), with its 32-bit counters that are never reset. */
module Pipe {
  import opened Common
  import opened DiskModel
  import opened FileBlocks

  const PIPESIZE: nat := 512
  const WORDS: nat := 0x1_0000_0000

  /** nwrite - nread in 32 bits. */
  function Used(nread: Word, nwrite: Word): nat {
    (nwrite - nread) % WORDS
  }

  /** The place of the k-th byte after the one with number n. */
  function Slot(n: nat, k: nat): (r: nat)
    ensures r < PIPESIZE
  {
    (n + k) % PIPESIZE
  }

  /** The bytes written and not yet read, in order. */
  function Buffered(data: seq<Byte>, nread: Word, nwrite: Word): (s: seq<Byte>)
    requires |data| == PIPESIZE
    ensures |s| == Used(nread, nwrite)
    ensures forall k: nat | k < |s| :: s[k] == data[Slot(nread, k)]
  {
    seq(Used(nread, nwrite), k requires 0 <= k < Used(nread, nwrite) => data[Slot(nread, k)])
  }

  /** The counters wrap at a multiple of the buffer's size, so a slot is found from a counter as if it did not wrap. */
  lemma {:induction false} SlotOf(nread: Word, nwrite: Word, k: nat)
    requires nwrite == (nread + k) % WORDS
    ensures Slot(nwrite, 0) == Slot(nread, k)
  {
    var q := (nread + k) / WORDS;
    assert nread + k == q * WORDS + nwrite;
    assert q * WORDS == q * 0x80_0000 * PIPESIZE;
  }

  lemma {:induction false} SlotsDiffer(a: nat, j: nat, k: nat)
    requires j < k < j + PIPESIZE
    ensures Slot(a, j) != Slot(a, k)
  {
  }

  /** A byte stored at nwrite goes to the end. */
  lemma {:induction false} PutBuffers(data: seq<Byte>, nread: Word, nwrite: Word, b: Byte)
    requires |data| == PIPESIZE && Used(nread, nwrite) < PIPESIZE
    ensures Used(nread, (nwrite + 1) % WORDS) == Used(nread, nwrite) + 1
    ensures Buffered(data[Slot(nwrite, 0) := b], nread, (nwrite + 1) % WORDS) == Buffered(data, nread, nwrite) + [b]
  {
    hide Slot, Used;
    var n := Used(nread, nwrite);
    UsedIs(nread, nwrite);
    SlotOf(nread, nwrite, n);
    UsedMore(nread, nwrite);
    forall k: nat | k < n
      ensures Slot(nread, k) != Slot(nwrite, 0)
    {
      SlotsDiffer(nread, k, n);
    }
  }

  lemma {:induction false} UsedIs(nread: Word, nwrite: Word)
    ensures nwrite == (nread + Used(nread, nwrite)) % WORDS
  {
  }

  lemma {:induction false} UsedMore(nread: Word, nwrite: Word)
    requires Used(nread, nwrite) < PIPESIZE
    ensures Used(nread, (nwrite + 1) % WORDS) == Used(nread, nwrite) + 1
  {
  }

  lemma {:induction false} UsedLess(nread: Word, nwrite: Word)
    requires Used(nread, nwrite) > 0
    ensures Used((nread + 1) % WORDS, nwrite) == Used(nread, nwrite) - 1
  {
  }

  /** The tests for a full and for an empty buffer (pipe.c:85, 106). */
  lemma {:induction false} FullOrEmpty(nread: Word, nwrite: Word)
    requires Used(nread, nwrite) <= PIPESIZE
    ensures nwrite == (nread + PIPESIZE) % WORDS <==> Used(nread, nwrite) == PIPESIZE
    ensures nread == nwrite <==> Used(nread, nwrite) == 0
  {
  }

  /** Moving nread past a byte takes it off the front. */
  lemma {:induction false} TakeBuffers(data: seq<Byte>, nread: Word, nwrite: Word)
    requires |data| == PIPESIZE && 0 < Used(nread, nwrite)
    ensures Used((nread + 1) % WORDS, nwrite) == Used(nread, nwrite) - 1
    ensures Buffered(data, nread, nwrite) == [data[Slot(nread, 0)]] + Buffered(data, (nread + 1) % WORDS, nwrite)
  {
    hide Slot, Used;
    var next: Word := (nread + 1) % WORDS;
    UsedLess(nread, nwrite);
    forall k: nat | k < Used(next, nwrite)
      ensures Slot(next, k) == Slot(nread, k + 1)
    {
      NextSlot(nread, next, k);
    }
  }

  lemma {:induction false} NextSlot(nread: Word, next: Word, k: nat)
    requires next == (nread + 1) % WORDS
    ensures Slot(next, k) == Slot(nread, k + 1)
  {
    if nread + 1 == WORDS {
      assert nread + (k + 1) == k + 0x80_0000 * PIPESIZE;
    }
  }

  lemma {:induction false} Shift(a: seq<Byte>, b: Byte, rest: seq<Byte>)
    ensures a + ([b] + rest) == (a + [b]) + rest
  {
  }

  class Ring {
    const data: array<Byte>
    var nread: Word
    var nwrite: Word
    ghost var accepted: seq<Byte>
    ghost var delivered: seq<Byte>

    ghost function Contents(): seq<Byte>
      reads this, data
      requires data.Length == PIPESIZE
    {
      Buffered(data[..], nread, nwrite)
    }

    /** What has been delivered and what is buffered make up what has been accepted. */
    ghost predicate Valid()
      reads this, data
    {
      data.Length == PIPESIZE && Used(nread, nwrite) <= PIPESIZE && accepted == delivered + Contents()
    }

    constructor ()
      ensures Valid() && Contents() == [] && accepted == [] && fresh(data)
    {
      data := new Byte[PIPESIZE];
      nread, nwrite := 0, 0;
      accepted, delivered := [], [];
    }

    /** pipewrite's copying between two sleeps (pipe.c:84-94): as much of src from `from` on as there is room for. */
    method WriteSome(src: seq<Byte>, from: nat) returns (i: nat)
      requires Valid() && from <= |src|
      modifies this, data
      ensures Valid() && i == Min(|src|, from + (PIPESIZE - old(|Contents()|)))
      ensures Contents() == old(Contents()) + src[from..i] && accepted == old(accepted) + src[from..i] && delivered == old(delivered)
    {
      hide Slot, Used;
      i := from;
      FullOrEmpty(nread, nwrite);
      while i < |src| && nwrite != (nread + PIPESIZE) % WORDS
        invariant nwrite == (nread + PIPESIZE) % WORDS <==> Used(nread, nwrite) == PIPESIZE
        invariant from <= i <= |src| && Valid() && delivered == old(delivered)
        invariant Contents() == old(Contents()) + src[from..i] && accepted == old(accepted) + src[from..i]
      {
        PutBuffers(data[..], nread, nwrite, src[i]);
        ghost var before := data[..];
        data[Slot(nwrite, 0)] := src[i];
        assert data[..] == before[Slot(nwrite, 0) := src[i]];
        nwrite := (nwrite + 1) % WORDS;
        accepted := accepted + [src[i]];
        i := i + 1;
        FullOrEmpty(nread, nwrite);
        assert src[from..i] == src[from..i - 1] + [src[i - 1]];
      }
    }

    /** piperead's copying (pipe.c:113-117): the first n buffered bytes, or all of them. */
    method ReadSome(n: nat) returns (dst: seq<Byte>)
      requires Valid()
      modifies this
      ensures Valid() && |dst| == Min(n, old(|Contents()|))
      ensures old(Contents()) == dst + Contents() && delivered == old(delivered) + dst && accepted == old(accepted)
    {
      hide Slot, Used, Buffered;
      dst := [];
      var i := 0;
      while i < n
        invariant i <= n && |dst| == i && Valid() && accepted == old(accepted)
        invariant old(Contents()) == dst + Contents() && delivered == old(delivered) + dst
      {
        FullOrEmpty(nread, nwrite);
        if nread == nwrite {
          break;
        }
        TakeBuffers(data[..], nread, nwrite);
        ghost var rest := Buffered(data[..], (nread + 1) % WORDS, nwrite);
        var b := data[Slot(nread, 0)];
        Shift(dst, b, rest);
        Shift(delivered, b, rest);
        dst := dst + [b];
        delivered := delivered + [b];
        nread := (nread + 1) % WORDS;
        i := i + 1;
      }
    }
  }
}
