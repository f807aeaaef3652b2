/** The system calls that change names (sysfile.c:118-283), with dirlookup, dirlink, isdirempty and iput. Path
    lookup is a parameter: each call is given the directory it found. A link in progress is in `pending`. */
module Namespace {
  import opened Common
  import opened Links

  /** Entry k is in use under this name. */
  predicate Bears(es: seq<Dirent>, k: nat, name: string) {
    k < |es| && es[k].inum != 0 && es[k].name == name
  }

  ghost predicate HasName(es: seq<Dirent>, name: string) {
    exists k: nat :: Bears(es, k, name)
  }

  /** Entry k is the first that bears the name. */
  predicate FirstBears(es: seq<Dirent>, k: nat, name: string) {
    Bears(es, k, name) && forall j: nat | j < k :: !Bears(es, j, name)
  }

  /** Every entry in front of k is in use. */
  predicate AllUsed(es: seq<Dirent>, k: nat) {
    forall j: nat | j < k && j < |es| :: es[j].inum != 0
  }

  class Tables {
    var nodes: seq<Node>
    ghost var home: map<nat, nat>
    ghost var depth: map<nat, nat>
    ghost var pending: multiset<nat>

    /** The directories form a tree and every nlink is exact. */
    ghost predicate Valid()
      reads this
    {
      Tree(nodes, home, depth) && Counted(nodes, pending)
    }

    /** What mkfs leaves (mkfs.c:117-151): the root and a file for each name, among n inodes. */
    constructor (names: seq<string>, n: nat)
      requires |names| + 2 <= n && forall j | 0 <= j < |names| :: !Dots(names[j])
      ensures nodes == Made(names, n) && pending == multiset{}
      ensures Valid()
    {
      hide Tree, Counted, Made;
      nodes := Made(names, n);
      home, depth, pending := map[], map[ROOT := 0], multiset{};
      MadeTree(names, n);
      MadeCounted(names, n);
    }

    predicate IsDir(d: nat)
      reads this
    {
      0 < d < |nodes| && nodes[d].kind == T_DIR
    }

    /** dirlookup: the first entry in use with that name (fs.c:533-547). */
    method Dirlookup(d: nat, name: string) returns (found: bool, k: nat)
      requires d < |nodes|
      ensures found <==> HasName(nodes[d].ents, name)
      ensures found ==> FirstBears(nodes[d].ents, k, name)
    {
      k := 0;
      while k < |nodes[d].ents|
        invariant k <= |nodes[d].ents| && forall j: nat | j < k :: !Bears(nodes[d].ents, j, name)
      {
        if nodes[d].ents[k].inum != 0 && nodes[d].ents[k].name == name {
          assert Bears(nodes[d].ents, k, name);
          return true, k;
        }
        k := k + 1;
      }
      found := false;
    }

    /** dirlink's search for an empty entry (fs.c:565-570): never one of the dots. */
    method EmptyEntry(d: nat) returns (k: nat)
      requires IsDir(d) && Valid()
      ensures FreeSlot(nodes[d].ents, k) && AllUsed(nodes[d].ents, k)
    {
      hide Tree, Counted;
      DotsInUse(nodes, home, depth, d);
      k := 0;
      while k < |nodes[d].ents|
        invariant k <= |nodes[d].ents|
        invariant forall j: nat | j < k :: nodes[d].ents[j].inum != 0
      {
        if nodes[d].ents[k].inum == 0 {
          break;
        }
        k := k + 1;
      }
    }

    /** isdirempty (sysfile.c:169-181). */
    method Isdirempty(d: nat) returns (empty: bool)
      requires d < |nodes|
      ensures empty <==> EmptyDir(nodes[d].ents)
    {
      var k := 2;
      while k < |nodes[d].ents|
        invariant k >= 2
        invariant forall j: nat | 2 <= j < k && j < |nodes[d].ents| :: nodes[d].ents[j].inum == 0
      {
        if nodes[d].ents[k].inum != 0 {
          return false;
        }
        k := k + 1;
      }
      empty := true;
    }

    /** ialloc (fs.c:201-213): the first free inode; panics when there is none. */
    method Ialloc() returns (ok: bool, c: nat)
      ensures ok ==> 0 < c < |nodes| && nodes[c].kind == T_FREE && forall i: nat | 0 < i < c :: nodes[i].kind != T_FREE
      ensures !ok <==> forall i: nat | 0 < i < |nodes| :: nodes[i].kind != T_FREE
    {
      c := 1;
      while c < |nodes|
        invariant c >= 1 && forall i: nat | 0 < i < c && i < |nodes| :: nodes[i].kind != T_FREE
      {
        if nodes[c].kind == T_FREE {
          return true, c;
        }
        c := c + 1;
      }
      ok := false;
    }

    method Iget(i: nat)
      requires i < |nodes| && Valid()
      modifies `nodes
      ensures Valid() && nodes == Referenced(old(nodes), i, old(nodes)[i].refs + 1)
    {
      hide Tree, Counted;
      ReferencedInv(nodes, home, depth, pending, i, nodes[i].refs + 1);
      nodes := Referenced(nodes, i, nodes[i].refs + 1);
    }

    /** iput: drops a reference; the last one to an inode without links frees it. Nothing in the tree names it then.
        `valid` says whether the cached copy had been read in. */
    method Iput(i: nat, valid: bool)
      requires 0 < i < |nodes| && nodes[i].refs >= 1 && Valid()
      modifies `nodes
      ensures valid && old(nodes)[i].nlink == 0 && old(nodes)[i].refs == 1 ==>
                NamesOf(old(nodes), i) == {} && nodes == Freed(old(nodes), i)[i := Node(T_FREE, 0, 0, [])]
      ensures !(valid && old(nodes)[i].nlink == 0 && old(nodes)[i].refs == 1) ==>
                nodes == Referenced(old(nodes), i, old(nodes)[i].refs - 1)
      ensures forall j: nat :: NamesOf(nodes, j) == NamesOf(old(nodes), j)
      ensures Valid()
    {
      hide Tree, Counted, NamesOf;
      if valid && nodes[i].nlink == 0 && nodes[i].refs == 1 {
        FreedCounted(nodes, pending, i);
        FreedTree(nodes, home, depth, i);
        FreedSame(nodes, i);
        nodes := Freed(nodes, i);
      }
      ReferencedInv(nodes, home, depth, pending, i, nodes[i].refs - 1);
      ReferencedSame(nodes, i, nodes[i].refs - 1);
      nodes := Referenced(nodes, i, nodes[i].refs - 1);
    }

    /** The first half of link (sysfile.c:133-142): refused for a directory, else the count goes up at once. */
    method LinkStart(i: nat) returns (r: int)
      requires 0 < i < |nodes| && nodes[i].kind != T_FREE && Valid()
      modifies `nodes, `pending
      ensures r == if old(nodes)[i].kind == T_DIR then -1 else 0
      ensures r == -1 ==> nodes == old(nodes) && pending == old(pending)
      ensures r == 0 ==> nodes == Nudged(old(nodes), i, 1) && pending == old(pending) + multiset{i}
      ensures Valid()
    {
      hide Tree, Counted;
      if nodes[i].kind == T_DIR {
        return -1;
      }
      NudgedTree(nodes, home, depth, i, 1);
      NudgedCounted(nodes, pending, i, 1, pending + multiset{i});
      nodes := Nudged(nodes, i, 1);
      pending := pending + multiset{i};
      r := 0;
    }

    /** The undo path of link (sysfile.c:158-163). */
    method LinkUndo(i: nat)
      requires 0 < i < |nodes| && i in pending && nodes[i].kind != T_FREE && nodes[i].kind != T_DIR && Valid()
      modifies `nodes, `pending
      ensures Valid() && nodes == Nudged(old(nodes), i, -1) && pending == old(pending) - multiset{i}
    {
      hide Tree, Counted;
      NudgedTree(nodes, home, depth, i, -1);
      NudgedCounted(nodes, pending, i, -1, pending - multiset{i});
      nodes := Nudged(nodes, i, -1);
      pending := pending - multiset{i};
    }

    /** The second half of link (sysfile.c:146-151): dirlink into d, or the undo path when the name is taken. Other
        calls may have run since the first half. In a directory that has no link left the new name breaks the counts. */
    method LinkFinish(i: nat, d: nat, name: string) returns (r: int)
      requires i in pending && IsDir(d) && Valid()
      modifies `nodes, `pending
      ensures r == if HasName(old(nodes)[d].ents, name) then -1 else 0
      ensures r == -1 ==> nodes == Nudged(old(nodes), i, -1)
      ensures r == 0 ==> exists k: nat ::
                FreeSlot(old(nodes)[d].ents, k) && AllUsed(old(nodes)[d].ents, k) && nodes == Adopted(old(nodes), d, k, i, name, 0)
      ensures pending == old(pending) - multiset{i} && (Valid() <==> r == -1 || old(nodes)[d].nlink >= 1)
    {
      hide Tree, Counted;
      PendingFacts(nodes, home, depth, pending, i);
      var found, k := Dirlookup(d, name);
      if found {
        LinkUndo(i);
        return -1;
      }
      k := EmptyEntry(d);
      NotDots(nodes, home, depth, d, name);
      LinkExact(nodes, home, depth, pending, d, k, i, name);
      if nodes[d].nlink >= 1 {
        LinkedTree(nodes, home, depth, d, k, i, name);
      }
      nodes := Adopted(nodes, d, k, i, name, 0);
      pending := pending - multiset{i};
      r := 0;
    }

    /** create (sysfile.c:249-282): an existing file is returned for T_FILE with a reference more, any other existing name
        refused; else a new inode is allocated, given its dots if it is a directory, and entered. Panics only without
        free inodes. In a directory that has no link left the new name breaks the counts. */
    method Create(d: nat, name: string, kind: int) returns (ok: bool, r: nat, ghost k: nat)
      requires IsDir(d) && kind != T_FREE && Valid()
      modifies this
      ensures !ok <==> !HasName(old(nodes)[d].ents, name) && forall i: nat | 0 < i < |old(nodes)| :: old(nodes)[i].kind != T_FREE
      ensures ok ==> pending == old(pending) && CreateDid(old(nodes), nodes, d, k, name, kind, r)
      ensures ok ==> (Valid() <==> HasName(old(nodes)[d].ents, name) || old(nodes)[d].nlink >= 1)
    {
      hide Tree, Counted, Created, MayEnter;
      var found, at := Dirlookup(d, name);
      k := at;
      if found {
        var ip := nodes[d].ents[at].inum;
        r := 0;
        if kind == T_FILE && ip < |nodes| && nodes[ip].kind == T_FILE {
          Iget(ip);
          r := ip;
        }
        return true, r, at;
      }
      NotDots(nodes, home, depth, d, name);
      ok, r := Ialloc();
      if !ok {
        return;
      }
      at := EmptyEntry(d);
      k := at;
      Enter(d, at, r, name, kind);
    }

    /** The second half of create (sysfile.c:263-278): inode r, free so far, is set up and entered. */
    method Enter(d: nat, k: nat, r: nat, name: string, kind: int)
      requires IsDir(d) && 0 < r < |nodes| && nodes[r].kind == T_FREE && kind != T_FREE
      requires FreeSlot(nodes[d].ents, k) && !Dots(name) && Valid()
      modifies this
      ensures MayEnter(old(nodes), d, k, r, name, kind) && nodes == Created(old(nodes), d, k, r, name, kind)
      ensures pending == old(pending) && (Valid() <==> old(nodes)[d].nlink >= 1)
    {
      hide Tree, Counted, Created;
      CreateExact(nodes, home, depth, pending, d, k, r, name, kind);
      EnteredIs(nodes, d, k, r, name, kind);
      if nodes[d].nlink >= 1 {
        CreatedCounted(nodes, pending, d, k, r, name, kind);
        CreatedTree(nodes, home, depth, d, k, r, name, kind);
        home, depth := home[r := k], depth[r := depth[d] + 1];
      }
      nodes := nodes[r := Node(kind, 1, 1, [])];
      if kind == T_DIR {
        nodes := nodes[d := nodes[d].(nlink := nodes[d].nlink + 1)];
        nodes := nodes[r := nodes[r].(ents := [Dirent(r, "."), Dirent(d, "..")])];
      }
      nodes := nodes[d := nodes[d].(ents := Put(nodes[d].ents, k, Dirent(r, name)))];
    }

    /** unlink (sysfile.c:201-238): refused exactly for the dots, for a missing name and for a name that stands for a
        directory that is not empty; else the entry goes and the counts with it. The panic for a count below one is unreachable. */
    method Unlink(d: nat, name: string) returns (r: int, ip: nat, ghost k: nat, ghost c: nat)
      requires IsDir(d) && Valid()
      modifies `nodes
      ensures !Dots(name) && HasName(old(nodes)[d].ents, name) ==> FirstBears(old(nodes)[d].ents, k, name)
      ensures r == if Dots(name) || !HasName(old(nodes)[d].ents, name) || Occupied(old(nodes), d, k) then -1 else 0
      ensures r == -1 ==> nodes == old(nodes)
      ensures r == 0 ==> MayUnlink(old(nodes), d, k, c) && c != d && nodes == Unlinked(old(nodes), d, k, c) && ip == c
      ensures Valid()
    {
      hide Tree, Counted;
      k, c, ip := 0, 0, 0;
      if Dots(name) {
        return -1, 0, 0, 0;
      }
      var found, off := Dirlookup(d, name);
      if !found {
        return -1, 0, 0, 0;
      }
      PastDots(nodes, home, depth, d, off, name);
      ip := nodes[d].ents[off].inum;
      k, c := off, ip;
      if nodes[ip].kind == T_DIR {
        var empty := Isdirempty(ip);
        if !empty {
          return -1, ip, k, c;
        }
      }
      UnlinkFacts(nodes, home, depth, pending, d, k, c);
      assert nodes[ip].nlink >= 1;
      DirHasDots(nodes, home, depth, c);
      UnlinkedTree(nodes, home, depth, d, k, c);
      UnlinkedCounted(nodes, pending, d, k, c);
      nodes := nodes[d := nodes[d].(ents := Put(nodes[d].ents, off, Dirent(0, "")))];
      if nodes[ip].kind == T_DIR {
        nodes := nodes[d := nodes[d].(nlink := nodes[d].nlink - 1)];
      }
      nodes := nodes[ip := nodes[ip].(nlink := nodes[ip].nlink - 1)];
      assert nodes == Unlinked(old(nodes), d, k, c);
      r := 0;
    }

    /** The whole of unlink: the reference taken by the lookup is dropped at the end, and with it, if there is no other and
        no link is left, the inode. */
    method SysUnlink(d: nat, name: string) returns (r: int, ghost k: nat, ghost c: nat)
      requires IsDir(d) && Valid()
      modifies `nodes
      ensures !Dots(name) && HasName(old(nodes)[d].ents, name) ==> FirstBears(old(nodes)[d].ents, k, name)
      ensures r == if Dots(name) || !HasName(old(nodes)[d].ents, name) || Occupied(old(nodes), d, k) then -1 else 0
      ensures r == -1 ==> nodes == old(nodes)
      ensures r == 0 ==> MayUnlink(old(nodes), d, k, c) && c != d && nodes == Settled(Unlinked(old(nodes), d, k, c), c)
      ensures Valid()
    {
      hide Tree, Counted, NamesOf, Unlinked, Settled, Occupied, HasName;
      var ip;
      r, ip, k, c := Unlink(d, name);
      if r == 0 {
        PutBack(ip);
      }
    }

    /** A reference taken and dropped. */
    method PutBack(ip: nat)
      requires 0 < ip < |nodes| && Valid()
      modifies `nodes
      ensures Valid() && nodes == Settled(old(nodes), ip)
    {
      hide Tree, Counted, NamesOf;
      Iget(ip);
      Iput(ip, true);
    }
  }

  /** An inode without links and references is freed. */
  function Settled(nodes: seq<Node>, c: nat): seq<Node>
    requires c < |nodes|
  {
    if nodes[c].nlink == 0 && nodes[c].refs == 0 then nodes[c := Node(T_FREE, 0, 0, [])] else nodes
  }

  /** The updates of create, one after the other. */
  lemma {:induction false} EnteredIs(nodes: seq<Node>, d: nat, k: nat, r: nat, name: string, kind: int)
    requires d < |nodes| && r < |nodes| && d != r && k <= |nodes[d].ents|
    ensures var n1 := nodes[r := Node(kind, 1, 1, [])];
            var n2 := n1[d := n1[d].(nlink := n1[d].nlink + 1)];
            var n3 := n2[r := n2[r].(ents := [Dirent(r, "."), Dirent(d, "..")])];
            && (kind != T_DIR ==> n1[d := n1[d].(ents := Put(n1[d].ents, k, Dirent(r, name)))] == Created(nodes, d, k, r, name, kind))
            && (kind == T_DIR ==> n3[d := n3[d].(ents := Put(n3[d].ents, k, Dirent(r, name)))] == Created(nodes, d, k, r, name, kind))
  {
  }

  predicate MayEnter(nodes: seq<Node>, d: nat, k: nat, c: nat, name: string, kind: int) {
    && d < |nodes| && 0 < c < |nodes| && c != d && nodes[d].kind == T_DIR && nodes[c].kind == T_FREE && kind != T_FREE
    && FreeSlot(nodes[d].ents, k) && !Dots(name)
  }

  /** What create does: for a name that exists, in entry k first, what FoundBy says; else a new inode r in entry k. */
  ghost predicate CreateDid(nodes: seq<Node>, nodes': seq<Node>, d: nat, k: nat, name: string, kind: int, r: nat)
    requires d < |nodes|
  {
    if HasName(nodes[d].ents, name) then
      && FirstBears(nodes[d].ents, k, name)
      && FoundBy(nodes, nodes', nodes[d].ents[k].inum, kind, r)
    else MayEnter(nodes, d, k, r, name, kind) && AllUsed(nodes[d].ents, k) && nodes' == Created(nodes, d, k, r, name, kind)
  }

  /** What create returns for a name that exists. */
  predicate FoundBy(nodes: seq<Node>, nodes': seq<Node>, ip: nat, kind: int, r: nat) {
    if kind == T_FILE && ip < |nodes| && nodes[ip].kind == T_FILE then r == ip && nodes' == Referenced(nodes, ip, nodes[ip].refs + 1)
    else r == 0 && nodes' == nodes
  }

  /** Entry k names a directory that is not empty. */
  predicate Occupied(nodes: seq<Node>, d: nat, k: nat)
    requires d < |nodes|
  {
    && k < |nodes[d].ents| && nodes[d].ents[k].inum < |nodes|
    && nodes[nodes[d].ents[k].inum].kind == T_DIR && !EmptyDir(nodes[nodes[d].ents[k].inum].ents)
  }

  lemma {:induction false} DotsInUse(nodes: seq<Node>, home: map<nat, nat>, depth: map<nat, nat>, d: nat)
    requires Tree(nodes, home, depth) && 0 < d < |nodes| && nodes[d].kind == T_DIR
    ensures |nodes[d].ents| >= 2 && nodes[d].ents[0] == Dirent(d, ".")
    ensures nodes[d].ents[1].inum != 0 && nodes[d].ents[1].name == ".."
  {
    assert GoodDir(nodes, d);
  }

  lemma {:induction false} DirHasDots(nodes: seq<Node>, home: map<nat, nat>, depth: map<nat, nat>, d: nat)
    requires Tree(nodes, home, depth) && d < |nodes|
    ensures nodes[d].kind == T_DIR ==> |nodes[d].ents| >= 2
  {
    assert nodes[d].kind == T_DIR ==> GoodDir(nodes, d);
  }

  lemma {:induction false} NotDots(nodes: seq<Node>, home: map<nat, nat>, depth: map<nat, nat>, d: nat, name: string)
    requires Tree(nodes, home, depth) && 0 < d < |nodes| && nodes[d].kind == T_DIR
    requires !HasName(nodes[d].ents, name)
    ensures !Dots(name)
  {
    DotsInUse(nodes, home, depth, d);
    hide Tree;
    assert !Bears(nodes[d].ents, 0, name) && !Bears(nodes[d].ents, 1, name);
  }

  lemma {:induction false} PastDots(nodes: seq<Node>, home: map<nat, nat>, depth: map<nat, nat>, d: nat, k: nat, name: string)
    requires Tree(nodes, home, depth) && 0 < d < |nodes| && nodes[d].kind == T_DIR
    requires k < |nodes[d].ents| && nodes[d].ents[k].inum != 0 && nodes[d].ents[k].name == name && !Dots(name)
    ensures k >= 2 && Linked(nodes[d]) && 0 < nodes[d].ents[k].inum < |nodes|
  {
    DotsInUse(nodes, home, depth, d);
    assert GoodDir(nodes, d);
    hide GoodDirs, Homes, OnlyHomes;
  }

  lemma {:induction false} PendingFacts(nodes: seq<Node>, home: map<nat, nat>, depth: map<nat, nat>, pending: multiset<nat>, i: nat)
    requires Tree(nodes, home, depth) && Counted(nodes, pending) && i in pending
    ensures 0 < i < |nodes| && nodes[i].kind != T_DIR && nodes[i].kind != T_FREE && i != ROOT
  {
    hide GoodDirs, Homes, OnlyHomes, NamesOf;
  }

  lemma {:induction false} FreedSame(nodes: seq<Node>, i: nat)
    requires i < |nodes| && nodes[i].nlink == 0
    ensures forall j: nat :: NamesOf(Freed(nodes, i), j) == NamesOf(nodes, j)
  {
    forall j: nat
      ensures NamesOf(Freed(nodes, i), j) == NamesOf(nodes, j)
    {
      forall x: nat, y: nat
        ensures Names(Freed(nodes, i), x, y, j) == Names(nodes, x, y, j)
      {
        FreedNames(nodes, i, x, y, j);
      }
    }
  }

  lemma {:induction false} ReferencedSame(nodes: seq<Node>, i: nat, refs: nat)
    requires i < |nodes|
    ensures forall j: nat :: NamesOf(Referenced(nodes, i, refs), j) == NamesOf(nodes, j)
  {
    hide NamesOf;
    forall j: nat
      ensures NamesOf(Referenced(nodes, i, refs), j) == NamesOf(nodes, j)
    {
      SameDirsNamesOf(nodes, Referenced(nodes, i, refs), j);
    }
  }

  // ----- When counts stay exact -----

  /** A new name keeps the counts exact if and only if the directory is still part of the tree: in a removed
      directory, such as a working directory that was unlinked, create breaks them. */
  lemma {:induction false} CreateExact(nodes: seq<Node>, home: map<nat, nat>, depth: map<nat, nat>, pending: multiset<nat>,
                                       d: nat, k: nat, c: nat, name: string, kind: int)
    requires Tree(nodes, home, depth) && Counted(nodes, pending)
    requires 0 < d < |nodes| && nodes[d].kind == T_DIR && 0 < c < |nodes| && nodes[c].kind == T_FREE && kind != T_FREE
    requires FreeSlot(nodes[d].ents, k) && !Dots(name)
    ensures Counted(Created(nodes, d, k, c, name, kind), pending) <==> nodes[d].nlink >= 1
  {
    hide Tree, Counted, NamesOf;
    var nodes' := Created(nodes, d, k, c, name, kind);
    if nodes[d].nlink >= 1 {
      CreatedCounted(nodes, pending, d, k, c, name, kind);
    } else if kind == T_DIR {
      RevivedParent(nodes, home, depth, pending, d, k, c, name);
    } else {
      CountOf(nodes, pending, c);
      FreeUnlinked(nodes, pending, c);
      forall x: nat, y: nat | Names(nodes', x, y, c)
        ensures Names(nodes, x, y, c)
      {
      }
      MorePlaces(nodes', nodes, c);
      if Counted(nodes', pending) {
        CountOf(nodes', pending, c);
      }
    }
  }

  lemma {:induction false} MorePlaces(nodes: seq<Node>, nodes': seq<Node>, i: nat)
    requires forall x: nat, y: nat | Names(nodes, x, y, i) :: Names(nodes', x, y, i)
    ensures |NamesOf(nodes, i)| <= |NamesOf(nodes', i)|
  {
    CardAtMost(NamesOf(nodes, i), NamesOf(nodes', i));
  }

  lemma {:induction false} OneMorePlace(nodes: seq<Node>, nodes': seq<Node>, i: nat, x: nat, y: nat)
    requires forall x: nat, y: nat | Names(nodes, x, y, i) :: Names(nodes', x, y, i)
    requires Names(nodes', x, y, i) && !Names(nodes, x, y, i)
    ensures |NamesOf(nodes, i)| < |NamesOf(nodes', i)|
  {
    CardAtMost(NamesOf(nodes, i) + {(x, y)}, NamesOf(nodes', i));
  }

  /** A subdirectory made in a removed directory gives that directory a link again, and its ".." counts once more
      for a parent that has dropped it. */
  lemma {:induction false} RevivedParent(nodes: seq<Node>, home: map<nat, nat>, depth: map<nat, nat>, pending: multiset<nat>,
                                         d: nat, k: nat, c: nat, name: string)
    requires Tree(nodes, home, depth) && Counted(nodes, pending)
    requires 0 < d < |nodes| && nodes[d].kind == T_DIR && 0 < c < |nodes| && nodes[c].kind == T_FREE
    requires FreeSlot(nodes[d].ents, k) && !Dots(name) && nodes[d].nlink < 1
    ensures !Counted(Created(nodes, d, k, c, name, T_DIR), pending)
  {
    hide Tree, Counted, NamesOf;
    var nodes' := Created(nodes, d, k, c, name, T_DIR);
    var p := Parent(nodes[d]);
    ParentElsewhere(nodes, home, depth, d);
    CountOf(nodes, pending, d);
    CountOf(nodes, pending, p);
    RevivedNames(nodes, d, k, c, name, p);
    if Counted(nodes', pending) {
      CountOf(nodes', pending, p);
      if p == c {
        FreeUnlinked(nodes, pending, c);
        TwoPlaces(nodes', c, d, 1, d, k);
      } else {
        OneMorePlace(nodes, nodes', p, d, 1);
      }
    }
  }

  lemma {:induction false} TwoPlaces(nodes: seq<Node>, i: nat, x: nat, y: nat, u: nat, v: nat)
    requires Names(nodes, x, y, i) && Names(nodes, u, v, i) && (x, y) != (u, v)
    ensures |NamesOf(nodes, i)| >= 2
  {
    CardAtMost({(x, y), (u, v)}, NamesOf(nodes, i));
  }

  lemma {:induction false} ParentElsewhere(nodes: seq<Node>, home: map<nat, nat>, depth: map<nat, nat>, d: nat)
    requires Tree(nodes, home, depth) && 0 < d < |nodes| && nodes[d].kind == T_DIR && nodes[d].nlink < 1
    ensures 0 < Parent(nodes[d]) < |nodes| && Parent(nodes[d]) != d && |nodes[d].ents| >= 2
  {
    assert GoodDir(nodes, d);
    hide GoodDirs, Homes, OnlyHomes;
  }

  lemma {:induction false} RevivedNames(nodes: seq<Node>, d: nat, k: nat, c: nat, name: string, p: nat)
    requires 0 < d < |nodes| && nodes[d].kind == T_DIR && nodes[d].nlink == 0 && 0 < c < |nodes| && nodes[c].kind == T_FREE
    requires FreeSlot(nodes[d].ents, k) && 0 < p == Parent(nodes[d]) != d && |nodes[d].ents| >= 2
    ensures var nodes' := Created(nodes, d, k, c, name, T_DIR);
      && Names(nodes', d, 1, p) && !Names(nodes, d, 1, p) && (p == c ==> Names(nodes', d, k, p))
      && (forall x: nat, y: nat | Names(nodes, x, y, p) :: Names(nodes', x, y, p))
  {
  }

  /** The same for link: its entry must go into a directory of the tree. */
  lemma {:induction false} LinkExact(nodes: seq<Node>, home: map<nat, nat>, depth: map<nat, nat>, pending: multiset<nat>,
                                     d: nat, k: nat, i: nat, name: string)
    requires Tree(nodes, home, depth) && Counted(nodes, pending) && i in pending
    requires 0 < d < |nodes| && nodes[d].kind == T_DIR && FreeSlot(nodes[d].ents, k) && !Dots(name)
    ensures Counted(Adopted(nodes, d, k, i, name, 0), pending - multiset{i}) <==> nodes[d].nlink >= 1
  {
    hide Tree, Counted, NamesOf;
    PendingFacts(nodes, home, depth, pending, i);
    var nodes', pending' := Adopted(nodes, d, k, i, name, 0), pending - multiset{i};
    if nodes[d].nlink >= 1 {
      LinkedCounted(nodes, pending, d, k, i, name);
    } else if Counted(nodes', pending') {
      CountOf(nodes, pending, i);
      CountOf(nodes', pending', i);
      forall x: nat, y: nat | Names(nodes', x, y, i)
        ensures Names(nodes, x, y, i)
      {
      }
      MorePlaces(nodes', nodes, i);
    }
  }

  /** A root, a removed directory 2 that is still somebody's working directory, and one inode that no directory names. */
  function RemovedDir(third: Node): seq<Node> {
    [Node(T_FREE, 0, 0, []),
     Node(T_DIR, 1, 1, [Dirent(1, "."), Dirent(1, "..")]),
     Node(T_DIR, 0, 1, [Dirent(2, "."), Dirent(1, "..")]),
     third]
  }

  lemma {:induction false} RemovedDirNames(third: Node, i: nat)
    requires third.kind != T_DIR
    ensures NamesOf(RemovedDir(third), i) == if i == 1 then {(1, 1)} else {}
  {
    forall x: nat, y: nat
      ensures Names(RemovedDir(third), x, y, i) <==> x == 1 && y == 1 && i == 1
    {
    }
    SamePlaces(RemovedDir(third), i, if i == 1 then {(1, 1)} else {});
  }

  lemma {:induction false} RemovedDirGood(third: Node, d: nat)
    requires d == 1 || d == 2
    ensures GoodDir(RemovedDir(third), d)
  {
  }

  lemma {:induction false} RemovedDirTree(third: Node)
    requires third.kind != T_DIR
    ensures Tree(RemovedDir(third), map[], map[ROOT := 0])
  {
    hide GoodDir;
    var nodes := RemovedDir(third);
    RemovedDirGood(third, 1);
    RemovedDirGood(third, 2);
    forall x: nat, y: nat, i: nat
      ensures !(Names(nodes, x, y, i) && y >= 2)
    {
    }
    hide Names;
  }

  lemma {:induction false} RemovedDirCounted(third: Node, pending: multiset<nat>)
    requires (third == Node(T_FREE, 0, 0, []) && pending == multiset{}) || (third == Node(T_FILE, 1, 1, []) && pending == multiset{3})
    ensures Counted(RemovedDir(third), pending)
  {
    hide NamesOf;
    RemovedDirNames(third, 1);
    RemovedDirNames(third, 2);
    RemovedDirNames(third, 3);
  }

  /** With inode 3 free all counts are exact, and no name created in directory 2 leaves them so. */
  lemma {:induction false} RemovedDirExample(name: string, kind: int)
    requires !Dots(name) && kind != T_FREE
    ensures !Counted(Created(RemovedDir(Node(T_FREE, 0, 0, [])), 2, 2, 3, name, kind), multiset{})
    ensures Tree(RemovedDir(Node(T_FREE, 0, 0, [])), map[], map[ROOT := 0]) && Counted(RemovedDir(Node(T_FREE, 0, 0, [])), multiset{})
  {
    hide Tree, Counted;
    var third := Node(T_FREE, 0, 0, []);
    RemovedDirTree(third);
    RemovedDirCounted(third, multiset{});
    CreateExact(RemovedDir(third), map[], map[ROOT := 0], multiset{}, 2, 2, 3, name, kind);
  }

  /** With a link to file 3 in progress all counts are exact, and entering it in directory 2 does not leave them so. */
  lemma {:induction false} RemovedDirLink(name: string)
    requires !Dots(name)
    ensures !Counted(Adopted(RemovedDir(Node(T_FILE, 1, 1, [])), 2, 2, 3, name, 0), multiset{})
    ensures Tree(RemovedDir(Node(T_FILE, 1, 1, [])), map[], map[ROOT := 0]) && Counted(RemovedDir(Node(T_FILE, 1, 1, [])), multiset{3})
  {
    hide Tree, Counted;
    var third := Node(T_FILE, 1, 1, []);
    RemovedDirTree(third);
    RemovedDirCounted(third, multiset{3});
    LinkExact(RemovedDir(third), map[], map[ROOT := 0], multiset{3}, 2, 2, 3, name);
    assert multiset{3} - multiset{3} == multiset{};
  }

  // ----- The tree that mkfs makes -----

  function RootEnts(names: seq<string>): seq<Dirent> {
    [Dirent(ROOT, "."), Dirent(ROOT, "..")] + seq(|names|, j requires 0 <= j < |names| => Dirent(j + 2, names[j]))
  }

  function Made(names: seq<string>, n: nat): (r: seq<Node>)
    requires |names| + 2 <= n
    ensures |r| == n
  {
    seq(n, i => if i == ROOT then Node(T_DIR, 1, 0, RootEnts(names))
                else if 2 <= i < |names| + 2 then Node(T_FILE, 1, 0, []) else Node(T_FREE, 0, 0, []))
  }

  lemma {:induction false} MadeNames(names: seq<string>, n: nat, i: nat)
    requires |names| + 2 <= n && i > 0
    ensures NamesOf(Made(names, n), i) == if i == ROOT then {(1, 1)} else if i < |names| + 2 then {(1, i)} else {}
  {
    var places := if i == ROOT then {(1, 1)} else if i < |names| + 2 then {(1, i)} else {};
    forall x: nat, y: nat
      ensures Names(Made(names, n), x, y, i) <==> (x, y) in places
    {
    }
    SamePlaces(Made(names, n), i, places);
  }

  lemma {:induction false} MadeTree(names: seq<string>, n: nat)
    requires |names| + 2 <= n && forall j | 0 <= j < |names| :: !Dots(names[j])
    ensures Tree(Made(names, n), map[], map[ROOT := 0])
  {
    var nodes := Made(names, n);
    assert GoodDir(nodes, ROOT);
    forall x: nat, y: nat, i: nat | Names(nodes, x, y, i) && y >= 2
      ensures i < n ==> nodes[i].kind != T_DIR
    {
    }
    hide GoodDir;
  }

  lemma {:induction false} MadeCounted(names: seq<string>, n: nat)
    requires |names| + 2 <= n
    ensures Counted(Made(names, n), multiset{})
  {
    hide NamesOf;
    forall i: nat | 0 < i < n
      ensures Made(names, n)[i].nlink == |NamesOf(Made(names, n), i)|
    {
      MadeNames(names, n, i);
    }
  }
}
