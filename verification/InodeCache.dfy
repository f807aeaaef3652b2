/** The inode cache (fs.c:166-352): NINODE entries with reference counts. `held` is the references that callers hold, by
    device and inode number. */
module InodeCache {

  const NINODE: nat := 50

  datatype Entry = Entry(ref: int, dev: nat, inum: nat, valid: bool)

  function Key(e: Entry): (nat, nat) {
    (e.dev, e.inum)
  }

  /** An entry in use counts exactly the references held to its inode. */
  predicate EntryOk(e: Entry, held: multiset<(nat, nat)>) {
    e.ref >= 0 && (e.ref > 0 ==> e.ref == held[Key(e)])
  }

  predicate Live(es: seq<Entry>, i: nat) {
    i < |es| && es[i].ref > 0
  }

  /** An inode has at most one entry in use. */
  ghost predicate Unique(es: seq<Entry>) {
    forall i: nat, j: nat | Live(es, i) && Live(es, j) && Key(es[i]) == Key(es[j]) :: i == j
  }

  /** Every inode that is held has an entry. */
  ghost predicate Present(es: seq<Entry>, held: multiset<(nat, nat)>) {
    forall k | k in held :: exists i: nat :: Live(es, i) && Key(es[i]) == k
  }

  ghost predicate Consistent(es: seq<Entry>, held: multiset<(nat, nat)>) {
    && (forall i: nat | i < |es| :: EntryOk(es[i], held))
    && Unique(es) && Present(es, held)
  }

  /** One more reference to an entry in use. */
  lemma {:induction false} Raised(es: seq<Entry>, held: multiset<(nat, nat)>, i: nat)
    requires Consistent(es, held) && Live(es, i)
    ensures Consistent(es[i := es[i].(ref := es[i].ref + 1)], held + multiset{Key(es[i])})
  {
    var es', held' := es[i := es[i].(ref := es[i].ref + 1)], held + multiset{Key(es[i])};
    forall j: nat | j < |es'|
      ensures EntryOk(es'[j], held')
    {
      assert EntryOk(es[j], held) && (j != i && Live(es, j) ==> Key(es[j]) != Key(es[i]));
    }
    forall k | k in held'
      ensures exists j: nat :: Live(es', j) && Key(es'[j]) == k
    {
      if k == Key(es[i]) {
        assert Live(es', i) && Key(es'[i]) == k;
      } else {
        assert k in held;
        var j: nat :| Live(es, j) && Key(es[j]) == k;
        assert Live(es', j) && Key(es'[j]) == k;
      }
    }
  }

  /** A free entry taken for an inode that has none. */
  lemma {:induction false} Taken(es: seq<Entry>, held: multiset<(nat, nat)>, i: nat, dev: nat, inum: nat)
    requires Consistent(es, held) && i < |es| && es[i].ref == 0
    requires forall j: nat | Live(es, j) :: Key(es[j]) != (dev, inum)
    ensures Consistent(es[i := Entry(1, dev, inum, false)], held + multiset{(dev, inum)})
  {
    var es', held' := es[i := Entry(1, dev, inum, false)], held + multiset{(dev, inum)};
    assert (dev, inum) !in held;
    forall j: nat | j < |es'|
      ensures EntryOk(es'[j], held')
    {
      assert EntryOk(es[j], held) && (Live(es, j) ==> Key(es[j]) != (dev, inum));
    }
    forall k | k in held'
      ensures exists j: nat :: Live(es', j) && Key(es'[j]) == k
    {
      if k == (dev, inum) {
        assert Live(es', i) && Key(es'[i]) == k;
      } else {
        assert k in held;
        var j: nat :| Live(es, j) && Key(es[j]) == k;
        assert Live(es', j) && Key(es'[j]) == k;
      }
    }
  }

  /** One reference less. */
  lemma {:induction false} Dropped(es: seq<Entry>, held: multiset<(nat, nat)>, i: nat, valid: bool)
    requires Consistent(es, held) && Live(es, i)
    ensures Consistent(es[i := es[i].(ref := es[i].ref - 1, valid := valid)], held - multiset{Key(es[i])})
  {
    var es', held' := es[i := es[i].(ref := es[i].ref - 1, valid := valid)], held - multiset{Key(es[i])};
    assert EntryOk(es[i], held);
    forall j: nat | j < |es'|
      ensures EntryOk(es'[j], held')
    {
      assert EntryOk(es[j], held) && (j != i && Live(es, j) ==> Key(es[j]) != Key(es[i]));
    }
    forall k | k in held'
      ensures exists j: nat :: Live(es', j) && Key(es'[j]) == k
    {
      assert k in held;
      var j: nat :| Live(es, j) && Key(es[j]) == k;
      assert j == i ==> es[i].ref > 1;
      assert Live(es', j) && Key(es'[j]) == k;
    }
  }

  lemma {:induction false} EntryAt(es: seq<Entry>, held: multiset<(nat, nat)>, i: nat)
    requires Consistent(es, held) && i < |es|
    ensures EntryOk(es[i], held)
  {
  }

  lemma {:induction false} InUse(es: seq<Entry>, held: multiset<(nat, nat)>, i: nat)
    requires Consistent(es, held) && Live(es, i)
    ensures Key(es[i]) in held
  {
    EntryAt(es, held, i);
  }

  lemma {:induction false} NotHeld(es: seq<Entry>, held: multiset<(nat, nat)>, k: (nat, nat))
    requires Consistent(es, held) && forall j: nat | Live(es, j) :: Key(es[j]) != k
    ensures k !in held
  {
  }

  class Icache {
    const inode: array<Entry>
    ghost var held: multiset<(nat, nat)>

    ghost predicate Valid()
      reads this, inode
    {
      inode.Length == NINODE && Consistent(inode[..], held)
    }

    constructor ()
      ensures Valid() && held == multiset{}
    {
      inode := new Entry[NINODE](_ => Entry(0, 0, 0, false));
      held := multiset{};
    }

    /** iget: the one entry of the inode, with a reference more, and not yet read in if nobody had one; panics exactly when the
        inode has no entry and every entry is in use. */
    method Iget(dev: nat, inum: nat) returns (ok: bool, ip: nat)
      requires Valid()
      modifies this, inode
      ensures Valid()
      ensures !ok <==> (dev, inum) !in old(held) && forall i | 0 <= i < NINODE :: old(inode[i].ref) > 0
      ensures !ok ==> held == old(held)
      ensures ok ==> ip < NINODE && Live(inode[..], ip) && Key(inode[ip]) == (dev, inum) && held == old(held) + multiset{(dev, inum)}
      ensures ok ==> inode[ip].valid == ((dev, inum) in old(held) && old(inode[ip].valid))
      ensures forall j | 0 <= j < NINODE && !(ok && j == ip) :: inode[j] == old(inode[j])
    {
      hide Consistent;
      var i: nat, empty: nat := 0, NINODE;
      while i < NINODE
        invariant i <= NINODE && Valid() && held == old(held) && inode[..] == old(inode[..])
        invariant forall j: nat | j < i && inode[j].ref > 0 :: Key(inode[j]) != (dev, inum)
        invariant empty == NINODE || (empty < NINODE && inode[empty].ref == 0)
        invariant empty == NINODE ==> forall j | 0 <= j < i :: inode[j].ref > 0
      {
        EntryAt(inode[..], held, i);
        if inode[i].ref > 0 && inode[i].dev == dev && inode[i].inum == inum {
          Raised(inode[..], held, i);
          InUse(inode[..], held, i);
          ghost var before := inode[..];
          inode[i] := inode[i].(ref := inode[i].ref + 1);
          held := held + multiset{(dev, inum)};
          assert inode[..] == before[i := inode[i]];
          return true, i;
        }
        if empty == NINODE && inode[i].ref == 0 {
          empty := i;
        }
        i := i + 1;
      }
      assert forall j: nat | Live(inode[..], j) :: Key(inode[..][j]) != (dev, inum);
      if empty == NINODE {
        NotHeld(inode[..], held, (dev, inum));
        return false, 0;
      }
      Taken(inode[..], held, empty, dev, inum);
      NotHeld(inode[..], held, (dev, inum));
      ghost var before := inode[..];
      inode[empty] := Entry(1, dev, inum, false);
      held := held + multiset{(dev, inum)};
      assert inode[..] == before[empty := inode[empty]];
      return true, empty;
    }

    /** iput, given the link count in the entry: the reference goes, and the inode with it exactly when the entry was
        read in, no link is left and nobody else holds the inode. */
    method Iput(ip: nat, nlink: nat) returns (freed: bool)
      requires Valid() && ip < NINODE && Live(inode[..], ip)
      modifies this, inode
      ensures Valid() && held == old(held) - multiset{old(Key(inode[ip]))}
      ensures freed <==> old(inode[ip].valid) && nlink == 0 && old(Key(inode[ip])) !in held
      ensures inode[ip].valid <==> old(inode[ip].valid) && !freed
      ensures Key(inode[ip]) == old(Key(inode[ip])) && forall j | 0 <= j < NINODE && j != ip :: inode[j] == old(inode[j])
    {
      hide Consistent;
      ghost var before := inode[..];
      EntryAt(before, held, ip);
      freed := inode[ip].valid && nlink == 0 && inode[ip].ref == 1;
      Dropped(before, held, ip, inode[ip].valid && !freed);
      held := held - multiset{Key(inode[ip])};
      inode[ip] := inode[ip].(ref := inode[ip].ref - 1, valid := inode[ip].valid && !freed);
      assert inode[..] == before[ip := inode[ip]];
    }
  }
}
