/** The buffer cache of bio.c. Its methods are the actions that a lock makes atomic: looking a
    block up under bcache.lock, taking a buffer's sleep lock, filling, changing, writing and
    marking a locked buffer, unlocking it and dropping the reference. Every interleaving of processes is
    some sequence of them. */
module BufferCache {
  import opened DiskModel
  import opened BufferRing

  datatype Buf = Buf(dev: Word, blockno: Word, valid: bool, dirty: bool, refcnt: nat, locked: bool, data: Block)

  type Key = (Word, Word)

  function KeyOf(b: Buf): Key {
    (b.dev, b.blockno)
  }

  // ----- What the cache shows -----

  /** The first buffer holding the block, or |bufs|. */
  function Find(bufs: seq<Buf>, key: Key): (i: nat)
    ensures i <= |bufs|
    ensures i < |bufs| ==> KeyOf(bufs[i]) == key
    ensures forall j | 0 <= j < i :: KeyOf(bufs[j]) != key
  {
    if bufs == [] then 0
    else
      var i := Find(bufs[..|bufs| - 1], key);
      if i < |bufs| - 1 then i
      else if KeyOf(bufs[|bufs| - 1]) == key then |bufs| - 1 else |bufs|
  }

  /** The contents a reader of the block would get. */
  function View(bufs: seq<Buf>, disk: map<Key, Block>, key: Key): Block
    requires key in disk
  {
    var i := Find(bufs, key);
    if i < |bufs| && bufs[i].valid then bufs[i].data else disk[key]
  }

  /** No two buffers hold the same block of a real device; all start as block 0 of device 0. */
  predicate UniqueKeys(bufs: seq<Buf>) {
    forall i, j | 0 <= i < j < |bufs| :: bufs[i].dev != 0 ==> KeyOf(bufs[i]) != KeyOf(bufs[j])
  }

  /** An unlocked buffer that is not dirty agrees with the disk; a lock is held through a reference. */
  predicate Coherent(bufs: seq<Buf>, disk: map<Key, Block>) {
    forall i | 0 <= i < |bufs| ::
      && (bufs[i].locked ==> bufs[i].refcnt > 0)
      && (bufs[i].valid && !bufs[i].dirty && !bufs[i].locked && KeyOf(bufs[i]) in disk ==>
            bufs[i].data == disk[KeyOf(bufs[i])])
      && (bufs[i].dirty ==> bufs[i].valid)
  }

  /** The buffer was changed and neither logged nor written. */
  predicate Unlogged(b: Buf, disk: map<Key, Block>) {
    b.valid && !b.dirty && KeyOf(b) in disk && b.data != disk[KeyOf(b)]
  }

  lemma {:induction false} ReleasedCoherent(bufs: seq<Buf>, disk: map<Key, Block>, i: nat, b: Buf)
    requires Coherent(bufs, disk) && i < |bufs| && b == bufs[i].(locked := false, refcnt := b.refcnt)
    ensures Coherent(bufs[i := b], disk) <==> !Unlogged(b, disk)
  {
    assert bufs[i := b][i] == b;
  }

  lemma {:induction false} SameView(bufs: seq<Buf>, disk: map<Key, Block>, i: nat, b: Buf)
    requires UniqueKeys(bufs) && i < |bufs| && b == bufs[i].(locked := b.locked, refcnt := b.refcnt)
    ensures forall k | k in disk && k.0 != 0 :: View(bufs[i := b], disk, k) == View(bufs, disk, k)
  {
    var bufs' := bufs[i := b];
    forall k | k in disk && k.0 != 0
      ensures View(bufs', disk, k) == View(bufs, disk, k)
    {
      ViewUpdate(bufs, disk, i, b, k);
      ViewUpdate(bufs, disk, i, bufs[i], k);
      assert bufs[i := bufs[i]] == bufs;
    }
  }

  /** Giving a free buffer away shows readers of its block nothing new if and only if it was logged or agreed with the
      disk. */
  lemma {:induction false} RecycleExact(bufs: seq<Buf>, disk: map<Key, Block>, i: nat, b: Buf)
    requires UniqueKeys(bufs) && i < |bufs| && Free(bufs[i]) && bufs[i].dev != 0 && KeyOf(bufs[i]) in disk
    requires !b.valid && Find(bufs, KeyOf(b)) == |bufs|
    ensures View(bufs[i := b], disk, KeyOf(bufs[i])) == View(bufs, disk, KeyOf(bufs[i])) <==> !Unlogged(bufs[i], disk)
  {
    FindIs(bufs, i);
    var more, key := bufs[i := b], KeyOf(bufs[i]);
    assert forall m | 0 <= m < |more| :: KeyOf(more[m]) != key;
  }

  predicate Free(b: Buf) {
    b.refcnt == 0 && !b.dirty
  }

  lemma {:induction false} FindIs(bufs: seq<Buf>, i: nat)
    requires UniqueKeys(bufs) && i < |bufs| && bufs[i].dev != 0
    ensures Find(bufs, KeyOf(bufs[i])) == i
  {
  }

  /** Changing a buffer without changing its key moves no other block. */
  lemma {:induction false} ViewUpdate(bufs: seq<Buf>, disk: map<Key, Block>, i: nat, b: Buf, key: Key)
    requires UniqueKeys(bufs) && i < |bufs| && KeyOf(b) == KeyOf(bufs[i]) && key in disk && key.0 != 0
    ensures UniqueKeys(bufs[i := b])
    ensures View(bufs[i := b], disk, key)
         == if key == KeyOf(b) then (if b.valid then b.data else disk[key]) else View(bufs, disk, key)
  {
    var more := bufs[i := b];
    if key == KeyOf(b) {
      FindIs(more, i);
    } else {
      var j := Find(bufs, key);
      if j < |bufs| { FindIs(more, j); }
    }
  }

  /** Giving a free buffer to a block that no buffer holds changes what no reader sees. */
  lemma {:induction false} ViewRecycle(bufs: seq<Buf>, disk: map<Key, Block>, i: nat, b: Buf, key: Key)
    requires UniqueKeys(bufs) && Coherent(bufs, disk) && i < |bufs| && Free(bufs[i])
    requires !b.valid && Find(bufs, KeyOf(b)) == |bufs| && key in disk && key.0 != 0
    ensures UniqueKeys(bufs[i := b])
    ensures View(bufs[i := b], disk, key) == View(bufs, disk, key)
  {
    var more := bufs[i := b];
    var j, k := Find(bufs, key), Find(more, key);
    if j == i {
      assert bufs[i].valid ==> bufs[i].data == disk[key];
      assert forall m | 0 <= m < |more| :: KeyOf(more[m]) != key;
    } else if j < |bufs| {
      FindIs(more, j);
    } else {
      assert forall m | 0 <= m < |more| && m != i :: more[m] == bufs[m];
    }
  }

  lemma {:induction false} KeysKept(bufs: seq<Buf>, i: nat, b: Buf)
    requires UniqueKeys(bufs) && i < |bufs| && KeyOf(b) == KeyOf(bufs[i])
    ensures UniqueKeys(bufs[i := b])
  {
  }

  lemma {:induction false} KeysRecycled(bufs: seq<Buf>, i: nat, b: Buf)
    requires UniqueKeys(bufs) && i < |bufs| && Find(bufs, KeyOf(b)) == |bufs|
    ensures UniqueKeys(bufs[i := b])
  {
  }

  // ----- Victims -----

  /** The first free buffer along the list. */
  function FirstFree(bufs: seq<Buf>, o: Order): (r: nat)
    requires |bufs| == NBUF && Buffers(o)
    ensures r <= NBUF && (r < NBUF ==> r in Members(o) && Free(bufs[r]))
    ensures r == NBUF ==> forall b | b in Members(o) && b < NBUF :: !Free(bufs[b])
  {
    match o
    case End => NBUF
    case Then(b, rest) => if Free(bufs[b]) then b else FirstFree(bufs, rest)
  }

  /** What bget recycles: the least recently used buffer that is free. */
  function Victim(bufs: seq<Buf>, o: Order): nat
    requires |bufs| == NBUF && Buffers(o)
  {
    RevOntoMembers(o, End);
    FirstFree(bufs, RevOnto(o, End))
  }

  /** The buffers behind b in the list: those used less recently. */
  function Behind(o: Order, b: nat): set<nat> {
    match o
    case End => {}
    case Then(c, rest) => if c == b then Members(rest) else Behind(rest, b)
  }

  function LastFree(bufs: seq<Buf>, o: Order): (r: nat)
    requires |bufs| == NBUF && Buffers(o)
    ensures r < NBUF ==> r in Members(o) && Free(bufs[r])
    ensures r >= NBUF ==> forall b | b in Members(o) && b < NBUF :: !Free(bufs[b])
  {
    match o
    case End => NBUF
    case Then(b, rest) =>
      var r := LastFree(bufs, rest);
      if r < NBUF then r else if Free(bufs[b]) then b else NBUF
  }

  lemma {:induction false} FirstFreeReversed(bufs: seq<Buf>, o: Order, done: Order)
    requires |bufs| == NBUF && Buffers(o) && Buffers(done)
    ensures Buffers(RevOnto(o, done))
    ensures FirstFree(bufs, RevOnto(o, done))
         == if LastFree(bufs, o) < NBUF then LastFree(bufs, o) else FirstFree(bufs, done)
    decreases o
  {
    match o
    case End =>
    case Then(b, rest) => FirstFreeReversed(bufs, rest, Then(b, done));
  }

  lemma {:induction false} LastFreeBehind(bufs: seq<Buf>, o: Order)
    requires |bufs| == NBUF && Buffers(o) && NoRepeats(o) && LastFree(bufs, o) < NBUF
    ensures forall c | c in Behind(o, LastFree(bufs, o)) && c < NBUF :: !Free(bufs[c])
  {
    match o
    case End =>
    case Then(b, rest) =>
      if LastFree(bufs, rest) < NBUF {
        LastFreeBehind(bufs, rest);
      }
  }

  /** bget recycles the least recently used free buffer: one that is neither referenced nor dirty,
      while every buffer used less recently is. */
  lemma {:induction false} VictimIsLeastRecent(bufs: seq<Buf>, o: Order)
    requires |bufs| == NBUF && Buffers(o) && NoRepeats(o)
    ensures Victim(bufs, o) < NBUF ==>
              && Victim(bufs, o) in Members(o) && Free(bufs[Victim(bufs, o)])
              && forall c | c in Behind(o, Victim(bufs, o)) && c < NBUF :: !Free(bufs[c])
    ensures Victim(bufs, o) >= NBUF ==> forall b | b in Members(o) && b < NBUF :: !Free(bufs[b])
  {
    FirstFreeReversed(bufs, o, End);
    if LastFree(bufs, o) < NBUF {
      LastFreeBehind(bufs, o);
    }
  }

  // ----- The cache -----

  /** The list holds exactly the buffers below k. */
  ghost predicate Below(o: Order, k: nat) {
    forall b: nat :: b in Members(o) <==> b < k
  }

  class Bcache {
    var buf: seq<Buf>
    var next: Links
    var prev: Links
    var disk: map<Key, Block>
    ghost var order: Order

    ghost predicate Shape()
      reads this
    {
      |buf| == NBUF && Ring(next, prev, order) && Below(order, NBUF) && UniqueKeys(buf)
    }

    ghost predicate Valid()
      reads this
    {
      Shape() && Coherent(buf, disk)
    }

    /** binit: every buffer is block 0 of device 0, with nothing in it. */
    constructor (disk: map<Key, Block>, junk: seq<Block>)
      requires |junk| == NBUF
      ensures Valid() && this.disk == disk
      ensures forall i | 0 <= i < NBUF :: !buf[i].valid && buf[i].refcnt == 0
    {
      this.disk := disk;
      buf := seq(NBUF, i requires 0 <= i < NBUF => Buf(0, 0, false, false, 0, false, junk[i]));
      next := seq(NBUF + 1, i => HEAD);
      prev := seq(NBUF + 1, i => HEAD);
      order := End;
      new;
      for b := 0 to NBUF
        modifies `next, `prev, `order
        invariant Ring(next, prev, order) && Below(order, b)
      {
        PushKeepsRing(next, prev, order, b);
        var first := next[HEAD];
        next := next[b := first];
        prev := prev[b := HEAD];
        prev := prev[first := b];
        next := next[HEAD := b];
        order := Then(b, order);
      }
    }

    /** The first loop of bget: is the block cached? */
    method Lookup(key: Key) returns (r: nat)
      requires Valid()
      ensures r <= NBUF
      ensures r < NBUF ==> KeyOf(buf[r]) == key
      ensures r == NBUF ==> Find(buf, key) == NBUF
    {
      var b := next[HEAD];
      ghost var a: nat, rest := HEAD, order;
      while b != HEAD
        invariant a <= NBUF && Buffers(rest) && Path(next, prev, a, rest) && b == next[a] && b <= NBUF
        invariant forall x | 0 <= x < NBUF && x !in Members(rest) :: KeyOf(buf[x]) != key
        decreases rest
      {
        if KeyOf(buf[b]) == key {
          return b;
        }
        a, rest := b, rest.rest;
        b := next[b];
      }
      return NBUF;
    }

    /** The second loop of bget: the least recently used buffer nobody holds or has logged. */
    method FindVictim() returns (r: nat)
      requires Valid()
      ensures r == Victim(buf, order) && r <= NBUF
    {
      RingBackwards(next, prev, order);
      var b := prev[HEAD];
      ghost var a: nat, rest := HEAD, RevOnto(order, End);
      while b != HEAD
        invariant a <= NBUF && Buffers(rest) && BackPath(prev, a, rest) && b == prev[a] && b <= NBUF
        invariant FirstFree(buf, rest) == Victim(buf, order)
        decreases rest
      {
        if buf[b].refcnt == 0 && !buf[b].dirty {
          return b;
        }
        a, rest := b, rest.rest;
        b := prev[b];
      }
      return NBUF;
    }

    /** bget up to the point where it waits for the buffer's sleep lock; NBUF stands for its panic. */
    method Bget(key: Key) returns (r: nat)
      requires Valid()
      modifies `buf
      ensures Valid() && r <= NBUF && |old(buf)| == NBUF
      ensures r == NBUF ==>
                && buf == old(buf) && Find(buf, key) == NBUF
                && forall i | 0 <= i < NBUF :: !Free(buf[i])
      ensures r < NBUF ==>
                && KeyOf(buf[r]) == key && buf[r].refcnt == old(buf)[r].refcnt + 1
                && buf == old(buf)[r := buf[r]]
      ensures r < NBUF && Find(old(buf), key) < NBUF ==>
                buf[r] == old(buf)[r].(refcnt := buf[r].refcnt)
      ensures r < NBUF && Find(old(buf), key) == NBUF ==>
                r == Victim(old(buf), order) && Free(old(buf)[r]) && !buf[r].valid && !buf[r].dirty && !buf[r].locked
      ensures forall k | k in disk && k.0 != 0 :: View(buf, disk, k) == View(old(buf), disk, k)
    {
      r := Lookup(key);
      ghost var was := buf;
      if r < NBUF {
        buf := buf[r := buf[r].(refcnt := buf[r].refcnt + 1)];
        assert Find(was, key) < NBUF;
        forall k | k in disk && k.0 != 0 ensures View(buf, disk, k) == View(was, disk, k) {
          ViewUpdate(was, disk, r, buf[r], k);
        }
        KeysKept(was, r, buf[r]);
        return;
      }
      r := FindVictim();
      RingBackwards(next, prev, order);
      if r < NBUF {
        buf := buf[r := Buf(key.0, key.1, false, false, 1, buf[r].locked, buf[r].data)];
        forall k | k in disk && k.0 != 0 ensures View(buf, disk, k) == View(was, disk, k) {
          ViewRecycle(was, disk, r, buf[r], k);
        }
        KeysRecycled(was, r, buf[r]);
      }
    }

    /** acquiresleep, once the lock is free. The caller holds a reference from bget. */
    method Lock(b: nat)
      requires Valid() && b < NBUF && !buf[b].locked && buf[b].refcnt > 0
      modifies `buf
      ensures Valid() && buf == old(buf)[b := old(buf)[b].(locked := true)]
      ensures forall k | k in disk && k.0 != 0 :: View(buf, disk, k) == View(old(buf), disk, k)
    {
      Update(b, buf[b].(locked := true));
    }

    /** The rest of bread: fill an empty buffer from the disk. */
    method Fill(b: nat)
      requires Valid() && b < NBUF && buf[b].locked && KeyOf(buf[b]) in disk && buf[b].dev != 0
      modifies `buf
      ensures Valid() && buf == old(buf)[b := old(buf)[b].(valid := true, data := buf[b].data)]
      ensures buf[b].data == View(old(buf), disk, KeyOf(buf[b]))
      ensures forall k | k in disk && k.0 != 0 :: View(buf, disk, k) == View(old(buf), disk, k)
    {
      FindIs(buf, b);
      if !buf[b].valid {
        Update(b, buf[b].(valid := true, data := disk[KeyOf(buf[b])]));
      }
    }

    /** The holder of a locked buffer changes its contents. */
    method Modify(b: nat, data: Block)
      requires Valid() && b < NBUF && buf[b].locked && buf[b].valid && buf[b].dev != 0
      modifies `buf
      ensures Valid() && buf == old(buf)[b := old(buf)[b].(data := data)]
      ensures forall k | k in disk && k.0 != 0 ::
                View(buf, disk, k) == if k == KeyOf(old(buf)[b]) then data else View(old(buf), disk, k)
    {
      Update(b, buf[b].(data := data));
    }

    /** log_write's effect here: pin the buffer. */
    method Pin(b: nat)
      requires Valid() && b < NBUF && buf[b].locked && buf[b].valid
      modifies `buf
      ensures Valid() && buf == old(buf)[b := old(buf)[b].(dirty := true)]
      ensures forall k | k in disk && k.0 != 0 :: View(buf, disk, k) == View(old(buf), disk, k)
    {
      Update(b, buf[b].(dirty := true));
    }

    /** bwrite: the disk takes the buffer's contents, and readers notice nothing. */
    method Bwrite(b: nat)
      requires Valid() && b < NBUF && buf[b].locked && buf[b].valid && KeyOf(buf[b]) in disk && buf[b].dev != 0
      modifies `buf, `disk
      ensures Valid() && buf == old(buf)[b := old(buf)[b].(dirty := false)]
      ensures disk == old(disk)[KeyOf(buf[b]) := buf[b].data]
      ensures forall k | k in disk && k.0 != 0 :: View(buf, disk, k) == View(old(buf), old(disk), k)
    {
      ghost var was, d := buf, disk;
      buf := buf[b := buf[b].(dirty := false)];
      disk := disk[KeyOf(buf[b]) := buf[b].data];
      KeysKept(was, b, buf[b]);
      forall k | k in disk && k.0 != 0 ensures View(buf, disk, k) == View(was, d, k) {
        ViewUpdate(was, d, b, buf[b], k);
        FindIs(was, b);
        FindIs(buf, b);
      }
    }

    /** The first half of brelse, releasesleep. The cache stays coherent if and only if the holder has done its duty:
        contents that differ from the disk have been logged. */
    method Unlock(b: nat)
      requires Valid() && b < NBUF && buf[b].locked
      modifies `buf
      ensures buf == old(buf)[b := old(buf)[b].(locked := false)]
      ensures forall k | k in disk && k.0 != 0 :: View(buf, disk, k) == View(old(buf), disk, k)
      ensures Shape() && (Valid() <==> !Unlogged(old(buf)[b], disk))
    {
      var released := buf[b].(locked := false);
      KeysKept(buf, b, released);
      ReleasedCoherent(buf, disk, b, released);
      SameView(buf, disk, b, released);
      buf := buf[b := released];
    }

    /** The second half, under bcache.lock: the reference goes, and a buffer without any becomes the most recently used.
        Somebody else may have locked the buffer since, through a reference of its own. */
    method Unref(b: nat)
      requires Valid() && b < NBUF && buf[b].refcnt > (if buf[b].locked then 1 else 0)
      modifies `buf, `next, `prev, `order
      ensures Valid() && buf == old(buf)[b := old(buf)[b].(refcnt := old(buf)[b].refcnt - 1)]
      ensures order == if buf[b].refcnt == 0 then Then(b, Without(old(order), b)) else old(order)
      ensures forall k | k in disk && k.0 != 0 :: View(buf, disk, k) == View(old(buf), disk, k)
    {
      Update(b, buf[b].(refcnt := buf[b].refcnt - 1));
      if buf[b].refcnt == 0 {
        MoveToFront(b);
      }
    }

    /** The list surgery of brelse. */
    method MoveToFront(b: nat)
      requires Shape() && b < NBUF
      modifies `next, `prev, `order
      ensures Shape() && order == Then(b, Without(old(order), b))
    {
      UnlinkKeepsRing(next, prev, order, b);
      WithoutMembers(order, b);
      var after, before := next[b], prev[b];
      prev := prev[after := before];
      next := next[before := after];
      order := Without(order, b);
      PushKeepsRing(next, prev, order, b);
      var first := next[HEAD];
      next := next[b := first];
      prev := prev[b := HEAD];
      prev := prev[first := b];
      next := next[HEAD := b];
      order := Then(b, order);
    }

    /** Replaces a buffer's record without changing the block it is for. */
    method Update(i: nat, b: Buf)
      requires Valid() && i < NBUF && KeyOf(b) == KeyOf(buf[i])
      requires b.locked ==> b.refcnt > 0
      requires b.dirty ==> b.valid
      requires b.valid && !b.dirty && !b.locked && KeyOf(b) in disk ==> b.data == disk[KeyOf(b)]
      modifies `buf
      ensures Valid() && buf == old(buf)[i := b]
      ensures forall k | k in disk && k.0 != 0 ::
                View(buf, disk, k)
                == if k == KeyOf(b) then (if b.valid then b.data else disk[k]) else View(old(buf), disk, k)
    {
      KeysKept(buf, i, b);
      forall k | k in disk && k.0 != 0
        ensures View(buf[i := b], disk, k)
             == if k == KeyOf(b) then (if b.valid then b.data else disk[k]) else View(buf, disk, k)
      {
        ViewUpdate(buf, disk, i, b, k);
      }
      buf := buf[i := b];
    }
  }
}
