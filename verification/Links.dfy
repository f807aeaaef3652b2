/** Link counts: sysfile.c's link, unlink and create, and fs.c's iput, over inodes and directory entries. */
module Links {
  import opened Common

  const ROOT: nat := 1
  const T_FREE := 0
  const T_DIR := 1
  const T_FILE := 2

  datatype Dirent = Dirent(inum: nat, name: string)

  /** An inode: type, link count, references held in memory, and its entries if it is a directory. */
  datatype Node = Node(kind: int, nlink: int, refs: nat, ents: seq<Dirent>)

  predicate Dots(name: string) {
    name == "." || name == ".."
  }

  /** A directory that is still part of the tree. */
  predicate Linked(node: Node) {
    node.kind == T_DIR && node.nlink >= 1
  }

  /** Entry j of linked directory d names i; entry 0 is "." and does not count. */
  predicate Names(nodes: seq<Node>, d: nat, j: nat, i: nat) {
    d < |nodes| && Linked(nodes[d]) && 1 <= j < |nodes[d].ents| && nodes[d].ents[j].inum == i
  }

  /** Where i is named. */
  function NamesOf(nodes: seq<Node>, i: nat): set<(nat, nat)> {
    set d: nat, j: nat | d < |nodes| && j < |nodes[d].ents| && Names(nodes, d, j, i) :: (d, j)
  }

  /** The directory that ".." names. */
  function Parent(node: Node): nat {
    if |node.ents| >= 2 then node.ents[1].inum else 0
  }

  /** "." and ".." first; after them only entries that are empty or name an allocated inode other than the root
      under a proper name. A directory out of the tree has nothing but its dots. */
  predicate GoodDir(nodes: seq<Node>, d: nat)
    requires d < |nodes|
  {
    && |nodes[d].ents| >= 2 && nodes[d].ents[0] == Dirent(d, ".") && nodes[d].ents[1].name == ".."
    && 0 < Parent(nodes[d]) < |nodes| && (d != ROOT ==> Parent(nodes[d]) != d)
    && (Linked(nodes[d]) ==> Linked(nodes[Parent(nodes[d])]))
    && forall k | 2 <= k < |nodes[d].ents| && nodes[d].ents[k].inum != 0 :: Linked(nodes[d]) && GoodEntry(nodes, nodes[d].ents[k])
  }

  predicate GoodEntry(nodes: seq<Node>, e: Dirent) {
    e.inum < |nodes| && e.inum != ROOT && nodes[e.inum].kind != T_FREE && !Dots(e.name)
  }

  /** The one place that names a directory below the root is entry home[c] of its parent, which is less deep. */
  predicate AtHome(nodes: seq<Node>, home: map<nat, nat>, depth: map<nat, nat>, c: nat)
    requires c < |nodes|
  {
    var p := Parent(nodes[c]);
    && c in home && home[c] >= 2 && Names(nodes, p, home[c], c)
    && c in depth && p in depth && depth[p] < depth[c]
  }

  ghost predicate GoodDirs(nodes: seq<Node>) {
    forall d: nat | d < |nodes| && nodes[d].kind == T_DIR :: GoodDir(nodes, d)
  }

  ghost predicate Homes(nodes: seq<Node>, home: map<nat, nat>, depth: map<nat, nat>) {
    forall c: nat | c < |nodes| && Linked(nodes[c]) && c != ROOT :: AtHome(nodes, home, depth, c)
  }

  /** Nothing else names a directory, apart from the dots. */
  ghost predicate OnlyHomes(nodes: seq<Node>, home: map<nat, nat>) {
    forall d: nat, k: nat, c: nat | Names(nodes, d, k, c) && k >= 2 && c < |nodes| && nodes[c].kind == T_DIR ::
      Linked(nodes[c]) && Parent(nodes[c]) == d && c in home && home[c] == k
  }

  predicate RootGood(nodes: seq<Node>, depth: map<nat, nat>) {
    ROOT < |nodes| && Linked(nodes[ROOT]) && Parent(nodes[ROOT]) == ROOT && ROOT in depth && nodes[0].kind == T_FREE
  }

  ghost predicate Tree(nodes: seq<Node>, home: map<nat, nat>, depth: map<nat, nat>) {
    GoodDirs(nodes) && Homes(nodes, home, depth) && OnlyHomes(nodes, home) && RootGood(nodes, depth)
  }

  /** nlink is the number of places that name the inode, plus the links being made to it. */
  ghost predicate Counted(nodes: seq<Node>, pending: multiset<nat>) {
    && (forall i: nat | 0 < i < |nodes| :: nodes[i].nlink == |NamesOf(nodes, i)| + pending[i])
    && (forall i: nat | 0 < i < |nodes| && nodes[i].kind == T_FREE :: nodes[i].nlink == 0)
    && (forall i | i in pending :: 0 < i < |nodes| && nodes[i].kind != T_DIR && nodes[i].kind != T_FREE)
  }

  lemma {:induction false} LinkedParent(nodes: seq<Node>, d: nat)
    requires GoodDirs(nodes) && d < |nodes| && Linked(nodes[d])
    ensures |nodes[d].ents| >= 2 && Parent(nodes[d]) < |nodes| && Linked(nodes[Parent(nodes[d])]) && Names(nodes, d, 1, Parent(nodes[d]))
  {
    assert GoodDir(nodes, d);
  }

  lemma {:induction false} NamedEntry(nodes: seq<Node>, d: nat, k: nat, c: nat)
    requires GoodDirs(nodes) && Names(nodes, d, k, c) && k >= 2 && c > 0
    ensures GoodEntry(nodes, nodes[d].ents[k])
  {
    assert GoodDir(nodes, d);
  }

  lemma {:induction false} HomeOf(nodes: seq<Node>, home: map<nat, nat>, depth: map<nat, nat>, c: nat)
    requires Homes(nodes, home, depth) && c < |nodes| && Linked(nodes[c]) && c != ROOT
    ensures AtHome(nodes, home, depth, c)
  {
  }

  lemma {:induction false} OnlyHome(nodes: seq<Node>, home: map<nat, nat>, d: nat, k: nat, c: nat)
    requires OnlyHomes(nodes, home) && Names(nodes, d, k, c) && k >= 2 && c < |nodes| && nodes[c].kind == T_DIR
    ensures Linked(nodes[c]) && Parent(nodes[c]) == d && c in home && home[c] == k
  {
  }

  lemma {:induction false} CountOf(nodes: seq<Node>, pending: multiset<nat>, i: nat)
    requires Counted(nodes, pending) && 0 < i < |nodes|
    ensures nodes[i].nlink == |NamesOf(nodes, i)| + pending[i] && (nodes[i].kind == T_DIR ==> pending[i] == 0)
  {
    hide NamesOf;
  }

  lemma {:induction false} InNamesOf(nodes: seq<Node>, x: nat, y: nat, i: nat)
    ensures (x, y) in NamesOf(nodes, i) <==> Names(nodes, x, y, i)
  {
  }

  // ----- Adding an entry -----

  function Put(es: seq<Dirent>, k: nat, e: Dirent): (r: seq<Dirent>)
    requires k <= |es|
    ensures |r| == if k == |es| then k + 1 else |es|
    ensures forall j: nat | j < |r| :: r[j] == if j == k then e else es[j]
  {
    if k < |es| then es[k := e] else es + [e]
  }

  /** A slot that dirlink may use. */
  predicate FreeSlot(es: seq<Dirent>, k: nat) {
    2 <= k <= |es| && (k < |es| ==> es[k].inum == 0)
  }

  /** Directory d with an entry for c; a subdirectory's ".." adds a link to d. */
  function Adopted(nodes: seq<Node>, d: nat, k: nat, c: nat, name: string, links: int): (r: seq<Node>)
    requires d < |nodes| && k <= |nodes[d].ents|
    ensures |r| == |nodes|
  {
    nodes[d := nodes[d].(ents := Put(nodes[d].ents, k, Dirent(c, name)), nlink := nodes[d].nlink + links)]
  }

  /** A new inode, linked once; a directory holds its dots. */
  function Born(kind: int, c: nat, d: nat): Node {
    Node(kind, 1, 1, if kind == T_DIR then [Dirent(c, "."), Dirent(d, "..")] else [])
  }

  function Created(nodes: seq<Node>, d: nat, k: nat, c: nat, name: string, kind: int): (r: seq<Node>)
    requires d < |nodes| && c < |nodes| && k <= |nodes[d].ents| && c != d
    ensures |r| == |nodes|
  {
    Adopted(nodes[c := Born(kind, c, d)], d, k, c, name, if kind == T_DIR then 1 else 0)
  }

  predicate MayCreate(nodes: seq<Node>, d: nat, k: nat, c: nat, name: string, kind: int) {
    && d < |nodes| && 0 < c < |nodes| && Linked(nodes[d]) && nodes[c].kind == T_FREE && kind != T_FREE
    && FreeSlot(nodes[d].ents, k) && !Dots(name)
  }

  lemma {:induction false} CreatedNames(nodes: seq<Node>, d: nat, k: nat, c: nat, name: string, kind: int, x: nat, y: nat, i: nat)
    requires MayCreate(nodes, d, k, c, name, kind) && i > 0
    ensures Names(Created(nodes, d, k, c, name, kind), x, y, i) <==>
              Names(nodes, x, y, i) || (x == d && y == k && i == c) || (kind == T_DIR && x == c && y == 1 && i == d)
  {
  }

  /** A change that keeps what was allocated allocated and what was linked linked keeps entries good. */
  ghost predicate Keeps(nodes: seq<Node>, nodes': seq<Node>) {
    && |nodes'| == |nodes|
    && (forall x: nat | x < |nodes| && nodes[x].kind != T_FREE :: nodes'[x].kind == nodes[x].kind)
    && (forall x: nat | x < |nodes| && Linked(nodes[x]) :: Linked(nodes'[x]) && Parent(nodes'[x]) == Parent(nodes[x]))
  }

  lemma {:induction false} CreatedKeeps(nodes: seq<Node>, d: nat, k: nat, c: nat, name: string, kind: int)
    requires MayCreate(nodes, d, k, c, name, kind)
    ensures Keeps(nodes, Created(nodes, d, k, c, name, kind))
  {
  }

  lemma {:induction false} CreatedGoodDir(nodes: seq<Node>, d: nat, k: nat, c: nat, name: string, kind: int, x: nat)
    requires GoodDirs(nodes) && MayCreate(nodes, d, k, c, name, kind) && x < |nodes| && c != ROOT && nodes[0].kind == T_FREE
    requires Created(nodes, d, k, c, name, kind)[x].kind == T_DIR
    ensures GoodDir(Created(nodes, d, k, c, name, kind), x)
  {
    CreatedKeeps(nodes, d, k, c, name, kind);
    var nodes' := Created(nodes, d, k, c, name, kind);
    if x != c {
      assert GoodDir(nodes, x);
      forall j | 2 <= j < |nodes'[x].ents| && nodes'[x].ents[j].inum != 0
        ensures GoodEntry(nodes', nodes'[x].ents[j])
      {
        if !(x == d && j == k) {
          EntryKept(nodes, nodes', nodes[x].ents[j]);
        }
      }
      hide GoodEntry;
    }
  }

  lemma {:induction false} EntryKept(nodes: seq<Node>, nodes': seq<Node>, e: Dirent)
    requires Keeps(nodes, nodes') && GoodEntry(nodes, e)
    ensures GoodEntry(nodes', e)
  {
  }

  lemma {:induction false} CreatedTree(nodes: seq<Node>, home: map<nat, nat>, depth: map<nat, nat>,
                                       d: nat, k: nat, c: nat, name: string, kind: int)
    requires Tree(nodes, home, depth) && MayCreate(nodes, d, k, c, name, kind) && NamesOf(nodes, c) == {}
    ensures d in depth
    ensures Tree(Created(nodes, d, k, c, name, kind), home[c := k], depth[c := depth[d] + 1])
  {
    assert d == ROOT || AtHome(nodes, home, depth, d);
    var nodes', home', depth' := Created(nodes, d, k, c, name, kind), home[c := k], depth[c := depth[d] + 1];
    forall x: nat | x < |nodes| && nodes'[x].kind == T_DIR
      ensures GoodDir(nodes', x)
    {
      CreatedGoodDir(nodes, d, k, c, name, kind, x);
    }
    CreatedHomes(nodes, home, depth, d, k, c, name, kind);
    CreatedOnly(nodes, home, depth, d, k, c, name, kind);
  }

  lemma {:induction false} CreatedHomes(nodes: seq<Node>, home: map<nat, nat>, depth: map<nat, nat>,
                                        d: nat, k: nat, c: nat, name: string, kind: int)
    requires Homes(nodes, home, depth) && MayCreate(nodes, d, k, c, name, kind) && d in depth && nodes[0].kind == T_FREE
    ensures Homes(Created(nodes, d, k, c, name, kind), home[c := k], depth[c := depth[d] + 1])
  {
    hide GoodDir;
    CreatedKeeps(nodes, d, k, c, name, kind);
    var nodes', home', depth' := Created(nodes, d, k, c, name, kind), home[c := k], depth[c := depth[d] + 1];
    forall x: nat | x < |nodes| && Linked(nodes'[x]) && x != ROOT
      ensures AtHome(nodes', home', depth', x)
    {
      if x == c {
        CreatedNames(nodes, d, k, c, name, kind, d, k, c);
      } else {
        assert AtHome(nodes, home, depth, x);
        CreatedNames(nodes, d, k, c, name, kind, Parent(nodes[x]), home[x], x);
      }
    }
  }

  lemma {:induction false} CreatedOnly(nodes: seq<Node>, home: map<nat, nat>, depth: map<nat, nat>,
                                       d: nat, k: nat, c: nat, name: string, kind: int)
    requires OnlyHomes(nodes, home) && MayCreate(nodes, d, k, c, name, kind) && NamesOf(nodes, c) == {} && nodes[0].kind == T_FREE
    ensures OnlyHomes(Created(nodes, d, k, c, name, kind), home[c := k])
  {
    hide GoodDir;
    CreatedKeeps(nodes, d, k, c, name, kind);
    var nodes', home' := Created(nodes, d, k, c, name, kind), home[c := k];
    forall x: nat, y: nat, i: nat | Names(nodes', x, y, i) && y >= 2 && i < |nodes'| && nodes'[i].kind == T_DIR
      ensures Linked(nodes'[i]) && Parent(nodes'[i]) == x && i in home' && home'[i] == y
    {
      CreatedNames(nodes, d, k, c, name, kind, x, y, i);
      if i == c {
        assert (x, y) !in NamesOf(nodes, c);
      }
    }
  }

  lemma {:induction false} CreatedPlaces(nodes: seq<Node>, d: nat, k: nat, c: nat, name: string, kind: int, i: nat)
    requires MayCreate(nodes, d, k, c, name, kind) && i > 0
    ensures NamesOf(Created(nodes, d, k, c, name, kind), i) ==
            NamesOf(nodes, i) + (if i == c then {(d, k)} else {}) + (if kind == T_DIR && i == d then {(c, 1)} else {})
  {
    hide Created, MayCreate;
    var nodes' := CreatedAs(nodes, d, k, c, name, kind);
    forall x: nat, y: nat
      ensures Names(nodes', x, y, i) <==>
              Names(nodes, x, y, i) || (x == d && y == k && i == c) || (kind == T_DIR && x == c && y == 1 && i == d)
    {
      CreatedNames(nodes, d, k, c, name, kind, x, y, i);
    }
    SamePlaces(nodes', i, NamesOf(nodes, i) + (if i == c then {(d, k)} else {}) + (if kind == T_DIR && i == d then {(c, 1)} else {}));
  }

  lemma {:induction false} CreatedAs(nodes: seq<Node>, d: nat, k: nat, c: nat, name: string, kind: int) returns (nodes': seq<Node>)
    requires MayCreate(nodes, d, k, c, name, kind)
    ensures d < |nodes| && c < |nodes| && k <= |nodes[d].ents| && c != d && nodes' == Created(nodes, d, k, c, name, kind)
  {
    nodes' := Created(nodes, d, k, c, name, kind);
  }

  lemma {:induction false} SamePlaces(nodes: seq<Node>, i: nat, s: set<(nat, nat)>)
    requires forall x: nat, y: nat :: Names(nodes, x, y, i) <==> (x, y) in s
    ensures NamesOf(nodes, i) == s
  {
    forall p
      ensures p in NamesOf(nodes, i) <==> p in s
    {
      InNamesOf(nodes, p.0, p.1, i);
    }
  }

  lemma {:induction false} CreatedNamesOf(nodes: seq<Node>, d: nat, k: nat, c: nat, name: string, kind: int, i: nat)
    requires MayCreate(nodes, d, k, c, name, kind) && i > 0
    ensures |NamesOf(Created(nodes, d, k, c, name, kind), i)| ==
            |NamesOf(nodes, i)| + (if i == c then 1 else 0) + (if kind == T_DIR && i == d then 1 else 0)
  {
    hide Created, NamesOf;
    CreatedPlaces(nodes, d, k, c, name, kind, i);
    InNamesOf(nodes, d, k, i);
    InNamesOf(nodes, c, 1, i);
  }

  /** create keeps the link counts exact. */
  lemma {:induction false} CreatedCounted(nodes: seq<Node>, pending: multiset<nat>, d: nat, k: nat, c: nat, name: string, kind: int)
    requires Counted(nodes, pending) && MayCreate(nodes, d, k, c, name, kind)
    ensures NamesOf(nodes, c) == {} && Counted(Created(nodes, d, k, c, name, kind), pending)
  {
    hide NamesOf, Names;
    var nodes' := Created(nodes, d, k, c, name, kind);
    forall i: nat | 0 < i < |nodes'|
      ensures nodes'[i].nlink == |NamesOf(nodes', i)| + pending[i]
    {
      CreatedNamesOf(nodes, d, k, c, name, kind, i);
    }
    CreatedKeeps(nodes, d, k, c, name, kind);
  }

  // ----- link -----

  function Nudged(nodes: seq<Node>, i: nat, n: int): (r: seq<Node>)
    requires i < |nodes|
    ensures |r| == |nodes|
  {
    nodes[i := nodes[i].(nlink := nodes[i].nlink + n)]
  }

  /** The count of a plain file may move without touching the tree. */
  lemma {:induction false} NudgedTree(nodes: seq<Node>, home: map<nat, nat>, depth: map<nat, nat>, i: nat, n: int)
    requires Tree(nodes, home, depth) && i < |nodes| && nodes[i].kind != T_DIR
    ensures Tree(Nudged(nodes, i, n), home, depth)
  {
    SameDirsTree(nodes, Nudged(nodes, i, n), home, depth);
  }

  /** The tree depends only on the types and, for directories, on everything but references. */
  ghost predicate SameDirs(nodes: seq<Node>, nodes': seq<Node>) {
    && |nodes'| == |nodes|
    && (forall x: nat | x < |nodes| :: nodes'[x].kind == nodes[x].kind)
    && (forall x: nat | x < |nodes| && nodes[x].kind == T_DIR :: nodes'[x].nlink == nodes[x].nlink && nodes'[x].ents == nodes[x].ents)
  }

  lemma {:induction false} SameDirsNames(nodes: seq<Node>, nodes': seq<Node>, x: nat, y: nat, i: nat)
    requires SameDirs(nodes, nodes')
    ensures Names(nodes', x, y, i) == Names(nodes, x, y, i)
  {
  }

  lemma {:induction false} SameDirsNamesOf(nodes: seq<Node>, nodes': seq<Node>, i: nat)
    requires SameDirs(nodes, nodes')
    ensures NamesOf(nodes', i) == NamesOf(nodes, i)
  {
    forall x: nat, y: nat
      ensures Names(nodes', x, y, i) == Names(nodes, x, y, i)
    {
      SameDirsNames(nodes, nodes', x, y, i);
    }
  }

  lemma {:induction false} SameDirsGoodDir(nodes: seq<Node>, nodes': seq<Node>, x: nat)
    requires GoodDirs(nodes) && SameDirs(nodes, nodes') && x < |nodes| && nodes[x].kind == T_DIR
    ensures GoodDir(nodes', x)
  {
    assert GoodDir(nodes, x);
    hide GoodDirs;
  }

  lemma {:induction false} SameDirsHome(nodes: seq<Node>, nodes': seq<Node>, home: map<nat, nat>, depth: map<nat, nat>, x: nat)
    requires Homes(nodes, home, depth) && SameDirs(nodes, nodes') && x < |nodes| && Linked(nodes[x]) && x != ROOT
    ensures AtHome(nodes', home, depth, x)
  {
    hide Homes;
    HomeOf(nodes, home, depth, x);
    SameDirsNames(nodes, nodes', Parent(nodes[x]), home[x], x);
  }

  lemma {:induction false} SameDirsTree(nodes: seq<Node>, nodes': seq<Node>, home: map<nat, nat>, depth: map<nat, nat>)
    requires Tree(nodes, home, depth) && SameDirs(nodes, nodes')
    ensures Tree(nodes', home, depth)
  {
    hide GoodDir, AtHome, Names;
    forall x: nat | x < |nodes| && nodes'[x].kind == T_DIR
      ensures GoodDir(nodes', x)
    {
      SameDirsGoodDir(nodes, nodes', x);
    }
    forall x: nat | x < |nodes| && Linked(nodes'[x]) && x != ROOT
      ensures AtHome(nodes', home, depth, x)
    {
      SameDirsHome(nodes, nodes', home, depth, x);
    }
    forall x: nat, y: nat, c: nat | Names(nodes', x, y, c) && y >= 2 && c < |nodes'| && nodes'[c].kind == T_DIR
      ensures Linked(nodes'[c]) && Parent(nodes'[c]) == x && c in home && home[c] == y
    {
      SameDirsNames(nodes, nodes', x, y, c);
      OnlyHome(nodes, home, x, y, c);
    }
  }

  lemma {:induction false} NudgedCounted(nodes: seq<Node>, pending: multiset<nat>, i: nat, n: int, pending': multiset<nat>)
    requires Counted(nodes, pending) && 0 < i < |nodes| && nodes[i].kind != T_DIR && nodes[i].kind != T_FREE
    requires pending'[i] == pending[i] + n && forall j | j != i :: pending'[j] == pending[j]
    ensures Counted(Nudged(nodes, i, n), pending')
  {
    hide NamesOf;
    var nodes' := Nudged(nodes, i, n);
    forall j: nat | 0 < j < |nodes'|
      ensures NamesOf(nodes', j) == NamesOf(nodes, j)
    {
      SameDirsNamesOf(nodes, nodes', j);
    }
  }

  /** Taking or dropping a reference. */
  function Referenced(nodes: seq<Node>, i: nat, refs: nat): (r: seq<Node>)
    requires i < |nodes|
    ensures |r| == |nodes|
  {
    nodes[i := nodes[i].(refs := refs)]
  }

  lemma {:induction false} ReferencedInv(nodes: seq<Node>, home: map<nat, nat>, depth: map<nat, nat>, pending: multiset<nat>, i: nat, refs: nat)
    requires Tree(nodes, home, depth) && Counted(nodes, pending) && i < |nodes|
    ensures Tree(Referenced(nodes, i, refs), home, depth) && Counted(Referenced(nodes, i, refs), pending)
  {
    hide Tree, NamesOf;
    var nodes' := Referenced(nodes, i, refs);
    SameDirsTree(nodes, nodes', home, depth);
    forall j: nat
      ensures NamesOf(nodes', j) == NamesOf(nodes, j)
    {
      SameDirsNamesOf(nodes, nodes', j);
    }
  }

  predicate MayLink(nodes: seq<Node>, d: nat, k: nat, i: nat, name: string) {
    && d < |nodes| && 0 < i < |nodes| && Linked(nodes[d]) && nodes[i].kind != T_FREE && nodes[i].kind != T_DIR && i != ROOT
    && FreeSlot(nodes[d].ents, k) && !Dots(name)
  }

  lemma {:induction false} LinkedNames(nodes: seq<Node>, d: nat, k: nat, i: nat, name: string, x: nat, y: nat, j: nat)
    requires MayLink(nodes, d, k, i, name) && j > 0
    ensures Names(Adopted(nodes, d, k, i, name, 0), x, y, j) <==> Names(nodes, x, y, j) || (x == d && y == k && j == i)
  {
  }

  lemma {:induction false} LinkedGoodDir(nodes: seq<Node>, d: nat, k: nat, i: nat, name: string, x: nat)
    requires GoodDirs(nodes) && MayLink(nodes, d, k, i, name) && x < |nodes| && nodes[x].kind == T_DIR
    ensures GoodDir(Adopted(nodes, d, k, i, name, 0), x)
  {
    var nodes' := Adopted(nodes, d, k, i, name, 0);
    assert GoodDir(nodes, x);
    assert Keeps(nodes, nodes');
    forall j | 2 <= j < |nodes'[x].ents| && nodes'[x].ents[j].inum != 0
      ensures GoodEntry(nodes', nodes'[x].ents[j])
    {
      if !(x == d && j == k) {
        EntryKept(nodes, nodes', nodes[x].ents[j]);
      }
    }
    hide GoodEntry;
  }

  lemma {:induction false} LinkedTree(nodes: seq<Node>, home: map<nat, nat>, depth: map<nat, nat>, d: nat, k: nat, i: nat, name: string)
    requires Tree(nodes, home, depth) && MayLink(nodes, d, k, i, name)
    ensures Tree(Adopted(nodes, d, k, i, name, 0), home, depth)
  {
    hide GoodDir, Names, AtHome;
    var nodes' := Adopted(nodes, d, k, i, name, 0);
    forall x: nat | x < |nodes| && nodes'[x].kind == T_DIR
      ensures GoodDir(nodes', x)
    {
      LinkedGoodDir(nodes, d, k, i, name, x);
    }
    forall x: nat | x < |nodes| && Linked(nodes'[x]) && x != ROOT
      ensures AtHome(nodes', home, depth, x)
    {
      LinkedHome(nodes, home, depth, d, k, i, name, x);
    }
    forall x: nat, y: nat, c: nat | Names(nodes', x, y, c) && y >= 2 && c < |nodes'| && nodes'[c].kind == T_DIR
      ensures Linked(nodes'[c]) && Parent(nodes'[c]) == x && c in home && home[c] == y
    {
      LinkedNames(nodes, d, k, i, name, x, y, c);
      OnlyHome(nodes, home, x, y, c);
    }
  }

  lemma {:induction false} LinkedHome(nodes: seq<Node>, home: map<nat, nat>, depth: map<nat, nat>, d: nat, k: nat, i: nat, name: string, x: nat)
    requires Tree(nodes, home, depth) && MayLink(nodes, d, k, i, name) && x < |nodes| && Linked(nodes[x]) && x != ROOT
    ensures AtHome(Adopted(nodes, d, k, i, name, 0), home, depth, x)
  {
    hide GoodDirs, Homes, OnlyHomes, Names;
    HomeOf(nodes, home, depth, x);
    LinkedNames(nodes, d, k, i, name, Parent(nodes[x]), home[x], x);
  }

  lemma {:induction false} LinkedNamesOf(nodes: seq<Node>, d: nat, k: nat, i: nat, name: string, j: nat)
    requires MayLink(nodes, d, k, i, name) && j > 0
    ensures |NamesOf(Adopted(nodes, d, k, i, name, 0), j)| == |NamesOf(nodes, j)| + (if j == i then 1 else 0)
  {
    var nodes' := Adopted(nodes, d, k, i, name, 0);
    forall x: nat, y: nat
      ensures Names(nodes', x, y, j) <==> Names(nodes, x, y, j) || (x == d && y == k && j == i)
    {
      LinkedNames(nodes, d, k, i, name, x, y, j);
    }
    hide Adopted;
    assert NamesOf(nodes', j) == NamesOf(nodes, j) + (if j == i then {(d, k)} else {});
  }

  /** The entry takes over from the link being made. */
  lemma {:induction false} LinkedCounted(nodes: seq<Node>, pending: multiset<nat>, d: nat, k: nat, i: nat, name: string)
    requires Counted(nodes, pending) && MayLink(nodes, d, k, i, name) && i in pending
    ensures Counted(Adopted(nodes, d, k, i, name, 0), pending - multiset{i})
  {
    hide NamesOf, Names;
    var nodes' := Adopted(nodes, d, k, i, name, 0);
    forall j: nat | 0 < j < |nodes'|
      ensures |NamesOf(nodes', j)| == |NamesOf(nodes, j)| + (if j == i then 1 else 0)
    {
      LinkedNamesOf(nodes, d, k, i, name, j);
    }
  }

  // ----- unlink -----

  /** Entry k of d erased and c's count dropped; a subdirectory's ".." no longer counts for d. */
  function Unlinked(nodes: seq<Node>, d: nat, k: nat, c: nat): (r: seq<Node>)
    requires d < |nodes| && c < |nodes| && k < |nodes[d].ents| && c != d
    ensures |r| == |nodes|
  {
    var links := if nodes[c].kind == T_DIR then -1 else 0;
    Nudged(Adopted(nodes, d, k, 0, "", links), c, -1)
  }

  predicate EmptyDir(es: seq<Dirent>) {
    forall k | 2 <= k < |es| :: es[k].inum == 0
  }

  /** Entry k of d, past the dots, names c, which is a file or an empty directory. */
  predicate MayUnlink(nodes: seq<Node>, d: nat, k: nat, c: nat) {
    && d < |nodes| && 0 < c < |nodes| && k >= 2 && Names(nodes, d, k, c)
    && (nodes[c].kind == T_DIR ==> EmptyDir(nodes[c].ents))
  }

  /** An empty directory is named once, and a directory that holds another is named at least twice. */
  lemma {:induction false} UnlinkFacts(nodes: seq<Node>, home: map<nat, nat>, depth: map<nat, nat>, pending: multiset<nat>,
                                       d: nat, k: nat, c: nat)
    requires Tree(nodes, home, depth) && Counted(nodes, pending) && MayUnlink(nodes, d, k, c)
    ensures c != d && c != ROOT && d > 0 && nodes[c].kind != T_FREE && nodes[c].nlink >= 1
    ensures nodes[c].kind == T_DIR ==> nodes[c].nlink == 1 && nodes[d].nlink >= 2 && Parent(nodes[c]) == d
  {
    hide GoodDirs, Homes, OnlyHomes, Counted, NamesOf;
    NamedEntry(nodes, d, k, c);
    InNamesOf(nodes, d, k, c);
    CardAtMost({(d, k)}, NamesOf(nodes, c));
    CountOf(nodes, pending, c);
    if nodes[c].kind == T_DIR {
      OnlyHome(nodes, home, d, k, c);
      HomeOf(nodes, home, depth, c);
      EmptyNamedOnce(nodes, home, depth, d, k, c);
      UnlinkParent(nodes, home, depth, pending, d, c);
    }
  }

  lemma {:induction false} EmptyNamedOnce(nodes: seq<Node>, home: map<nat, nat>, depth: map<nat, nat>, d: nat, k: nat, c: nat)
    requires Tree(nodes, home, depth) && MayUnlink(nodes, d, k, c) && Linked(nodes[c]) && c != ROOT
    ensures NamesOf(nodes, c) == {(d, k)}
  {
    hide GoodDirs, Homes, OnlyHomes;
    forall x: nat, y: nat
      ensures Names(nodes, x, y, c) <==> x == d && y == k
    {
      if Names(nodes, x, y, c) {
        NamedHere(nodes, home, depth, d, k, c, x, y);
      }
    }
  }

  lemma {:induction false} NamedHere(nodes: seq<Node>, home: map<nat, nat>, depth: map<nat, nat>, d: nat, k: nat, c: nat, x: nat, y: nat)
    requires Tree(nodes, home, depth) && MayUnlink(nodes, d, k, c) && Linked(nodes[c]) && c != ROOT && Names(nodes, x, y, c)
    ensures x == d && y == k
  {
    hide GoodDirs, Homes, OnlyHomes;
    OnlyHome(nodes, home, d, k, c);
    if y >= 2 {
      OnlyHome(nodes, home, x, y, c);
    } else {
      LinkedParent(nodes, x);
      HomeOf(nodes, home, depth, x);
      assert false;
    }
  }

  lemma {:induction false} UnlinkParent(nodes: seq<Node>, home: map<nat, nat>, depth: map<nat, nat>, pending: multiset<nat>, d: nat, c: nat)
    requires Tree(nodes, home, depth) && Counted(nodes, pending) && 0 < c < |nodes| && Linked(nodes[c]) && c != ROOT
    requires 0 < d < |nodes| && Parent(nodes[c]) == d && Linked(nodes[d])
    ensures nodes[d].nlink >= 2
  {
    hide GoodDirs, Homes, OnlyHomes, Counted, NamesOf;
    LinkedParent(nodes, c);
    var other: (nat, nat) := (ROOT, 1);
    if d != ROOT {
      HomeOf(nodes, home, depth, d);
      other := (Parent(nodes[d]), home[d]);
    } else {
      LinkedParent(nodes, ROOT);
    }
    InNamesOf(nodes, c, 1, d);
    InNamesOf(nodes, other.0, other.1, d);
    CardAtMost({(c, 1), other}, NamesOf(nodes, d));
    CountOf(nodes, pending, d);
  }

  lemma {:induction false} UnlinkedAt(nodes: seq<Node>, d: nat, k: nat, c: nat, x: nat)
    requires d < |nodes| && c < |nodes| && k < |nodes[d].ents| && c != d && x < |nodes|
    ensures var n, m := nodes[x], Unlinked(nodes, d, k, c)[x];
      && m.kind == n.kind && |m.ents| == |n.ents| && (x != d ==> m.ents == n.ents)
      && m.nlink == n.nlink - (if x == c then 1 else 0) - (if x == d && nodes[c].kind == T_DIR then 1 else 0)
      && (forall j: nat | j < |n.ents| :: m.ents[j] == if x == d && j == k then Dirent(0, "") else n.ents[j])
  {
  }

  lemma {:induction false} UnlinkedNames(nodes: seq<Node>, d: nat, k: nat, c: nat, x: nat, y: nat, i: nat)
    requires MayUnlink(nodes, d, k, c) && c != d && i > 0
    requires nodes[c].kind == T_DIR ==> nodes[c].nlink == 1 && nodes[d].nlink >= 2
    ensures Names(Unlinked(nodes, d, k, c), x, y, i) <==>
              Names(nodes, x, y, i) && !(x == d && y == k) && !(nodes[c].kind == T_DIR && x == c && y == 1)
  {
  }

  lemma {:induction false} UnlinkedEntry(nodes: seq<Node>, d: nat, k: nat, c: nat, e: Dirent)
    requires d < |nodes| && c < |nodes| && k < |nodes[d].ents| && c != d && GoodEntry(nodes, e)
    ensures GoodEntry(Unlinked(nodes, d, k, c), e)
  {
    hide Unlinked;
    UnlinkedAt(nodes, d, k, c, e.inum);
  }

  /** The directory that ".." names stays linked. */
  lemma {:induction false} UnlinkedDotDot(nodes: seq<Node>, home: map<nat, nat>, depth: map<nat, nat>, d: nat, k: nat, c: nat, x: nat)
    requires Tree(nodes, home, depth) && MayUnlink(nodes, d, k, c) && c != d && c != ROOT
    requires nodes[c].kind == T_DIR ==> nodes[c].nlink == 1 && nodes[d].nlink >= 2
    requires x < |nodes| && Linked(nodes[x])
    ensures Parent(nodes[x]) < |nodes| && Linked(Unlinked(nodes, d, k, c)[Parent(nodes[x])])
  {
    hide GoodDirs, Homes, OnlyHomes, Unlinked;
    LinkedParent(nodes, x);
    UnlinkedAt(nodes, d, k, c, Parent(nodes[x]));
    if nodes[c].kind == T_DIR && Parent(nodes[x]) == c {
      NamedHere(nodes, home, depth, d, k, c, x, 1);
      assert false;
    }
  }

  lemma {:induction false} UnlinkedGoodDir(nodes: seq<Node>, home: map<nat, nat>, depth: map<nat, nat>, d: nat, k: nat, c: nat, x: nat)
    requires Tree(nodes, home, depth) && MayUnlink(nodes, d, k, c) && c != d && c != ROOT
    requires nodes[c].kind == T_DIR ==> nodes[c].nlink == 1 && nodes[d].nlink >= 2
    requires x < |nodes| && nodes[x].kind == T_DIR
    ensures GoodDir(Unlinked(nodes, d, k, c), x)
  {
    hide Homes, OnlyHomes, Unlinked, GoodEntry, NamesOf;
    assert GoodDir(nodes, x);
    UnlinkedAt(nodes, d, k, c, x);
    if x == c {
      hide GoodDirs;
    } else {
      if Linked(nodes[x]) {
        UnlinkedDotDot(nodes, home, depth, d, k, c, x);
      }
      UnlinkedEntries(nodes, d, k, c, x);
    }
  }

  lemma {:induction false} UnlinkedEntries(nodes: seq<Node>, d: nat, k: nat, c: nat, x: nat)
    requires d < |nodes| && c < |nodes| && 2 <= k < |nodes[d].ents| && c != d && x != c
    requires x < |nodes| && GoodDir(nodes, x) && (nodes[c].kind == T_DIR ==> nodes[d].nlink >= 2)
    requires Linked(nodes[x]) ==> Parent(nodes[x]) < |nodes| && Linked(Unlinked(nodes, d, k, c)[Parent(nodes[x])])
    ensures GoodDir(Unlinked(nodes, d, k, c), x)
  {
    hide Unlinked, GoodEntry;
    var nodes' := Unlinked(nodes, d, k, c);
    UnlinkedAt(nodes, d, k, c, x);
    forall j | 2 <= j < |nodes'[x].ents| && nodes'[x].ents[j].inum != 0
      ensures GoodEntry(nodes', nodes'[x].ents[j])
    {
      UnlinkedEntry(nodes, d, k, c, nodes[x].ents[j]);
    }
  }

  lemma {:induction false} UnlinkedHome(nodes: seq<Node>, home: map<nat, nat>, depth: map<nat, nat>, d: nat, k: nat, c: nat, x: nat)
    requires Tree(nodes, home, depth) && MayUnlink(nodes, d, k, c) && c != d
    requires nodes[c].kind == T_DIR ==> nodes[c].nlink == 1 && nodes[d].nlink >= 2
    requires x < |nodes| && Linked(Unlinked(nodes, d, k, c)[x]) && x != ROOT
    ensures AtHome(Unlinked(nodes, d, k, c), home, depth, x)
  {
    hide GoodDirs, Homes, OnlyHomes;
    UnlinkedAt(nodes, d, k, c, x);
    HomeOf(nodes, home, depth, x);
    UnlinkedNames(nodes, d, k, c, Parent(nodes[x]), home[x], x);
  }

  lemma {:induction false} UnlinkBounds(nodes: seq<Node>, d: nat, k: nat, c: nat)
    requires MayUnlink(nodes, d, k, c)
    ensures 0 < c < |nodes| && d < |nodes| && k < |nodes[d].ents| && 2 <= k && Linked(nodes[d])
  {
  }

  lemma {:induction false} UnlinkedGoodDirs(nodes: seq<Node>, home: map<nat, nat>, depth: map<nat, nat>, d: nat, k: nat, c: nat)
    requires Tree(nodes, home, depth) && MayUnlink(nodes, d, k, c) && c != d && c != ROOT
    requires nodes[c].kind == T_DIR ==> nodes[c].nlink == 1 && nodes[d].nlink >= 2
    ensures GoodDirs(Unlinked(nodes, d, k, c))
  {
    hide GoodDir, MayUnlink, Unlinked, Tree;
    UnlinkBounds(nodes, d, k, c);
    var nodes' := Unlinked(nodes, d, k, c);
    forall x: nat | x < |nodes| && nodes'[x].kind == T_DIR
      ensures GoodDir(nodes', x)
    {
      UnlinkedLinks(nodes, d, k, c, x);
      UnlinkedGoodDir(nodes, home, depth, d, k, c, x);
    }
  }

  lemma {:induction false} UnlinkedHomes(nodes: seq<Node>, home: map<nat, nat>, depth: map<nat, nat>, d: nat, k: nat, c: nat)
    requires Tree(nodes, home, depth) && MayUnlink(nodes, d, k, c) && c != d && c != ROOT
    requires nodes[c].kind == T_DIR ==> nodes[c].nlink == 1 && nodes[d].nlink >= 2
    ensures Homes(Unlinked(nodes, d, k, c), home, depth)
  {
    hide AtHome, MayUnlink, Unlinked, Tree, Linked;
    UnlinkBounds(nodes, d, k, c);
    var nodes' := Unlinked(nodes, d, k, c);
    forall x: nat | x < |nodes| && Linked(nodes'[x]) && x != ROOT
      ensures AtHome(nodes', home, depth, x)
    {
      UnlinkedHome(nodes, home, depth, d, k, c, x);
    }
  }

  lemma {:induction false} UnlinkedTree(nodes: seq<Node>, home: map<nat, nat>, depth: map<nat, nat>, d: nat, k: nat, c: nat)
    requires Tree(nodes, home, depth) && MayUnlink(nodes, d, k, c) && c != d && c != ROOT
    requires nodes[c].kind == T_DIR ==> nodes[c].nlink == 1 && nodes[d].nlink >= 2
    ensures Tree(Unlinked(nodes, d, k, c), home, depth)
  {
    hide GoodDirs, Homes, Names, MayUnlink, Unlinked;
    UnlinkBounds(nodes, d, k, c);
    UnlinkedGoodDirs(nodes, home, depth, d, k, c);
    UnlinkedHomes(nodes, home, depth, d, k, c);
    UnlinkedAt(nodes, d, k, c, ROOT);
    UnlinkedAt(nodes, d, k, c, 0);
    var nodes' := Unlinked(nodes, d, k, c);
    forall x: nat, y: nat, i: nat | Names(nodes', x, y, i) && y >= 2 && i < |nodes'| && nodes'[i].kind == T_DIR
      ensures Linked(nodes'[i]) && Parent(nodes'[i]) == x && i in home && home[i] == y
    {
      UnlinkedLinks(nodes, d, k, c, i);
      UnlinkedOnly(nodes, home, depth, d, k, c, x, y, i);
    }
  }

  lemma {:induction false} UnlinkedOnly(nodes: seq<Node>, home: map<nat, nat>, depth: map<nat, nat>, d: nat, k: nat, c: nat, x: nat, y: nat, i: nat)
    requires Tree(nodes, home, depth) && MayUnlink(nodes, d, k, c) && c != d
    requires nodes[c].kind == T_DIR ==> nodes[c].nlink == 1 && nodes[d].nlink >= 2
    requires Names(Unlinked(nodes, d, k, c), x, y, i) && y >= 2 && i < |nodes| && nodes[i].kind == T_DIR
    ensures Linked(Unlinked(nodes, d, k, c)[i]) && Parent(Unlinked(nodes, d, k, c)[i]) == x && i in home && home[i] == y
  {
    hide GoodDirs, Homes, OnlyHomes;
    UnlinkedNames(nodes, d, k, c, x, y, i);
    OnlyHome(nodes, home, x, y, i);
    OnlyNonZero(nodes, home, d, k, c);
  }

  lemma {:induction false} OnlyNonZero(nodes: seq<Node>, home: map<nat, nat>, d: nat, k: nat, c: nat)
    requires OnlyHomes(nodes, home) && MayUnlink(nodes, d, k, c)
    ensures nodes[c].kind == T_DIR ==> Parent(nodes[c]) == d && c in home && home[c] == k
  {
    if nodes[c].kind == T_DIR {
      OnlyHome(nodes, home, d, k, c);
    }
  }

  lemma {:induction false} UnlinkedNamesOf(nodes: seq<Node>, d: nat, k: nat, c: nat, i: nat)
    requires MayUnlink(nodes, d, k, c) && c != d && i > 0
    requires nodes[c].kind == T_DIR ==> nodes[c].nlink == 1 && nodes[d].nlink >= 2 && Parent(nodes[c]) == d && |nodes[c].ents| >= 2
    ensures |NamesOf(Unlinked(nodes, d, k, c), i)| ==
            |NamesOf(nodes, i)| - (if i == c then 1 else 0) - (if nodes[c].kind == T_DIR && i == d then 1 else 0)
  {
    hide Unlinked;
    UnlinkedPlaces(nodes, d, k, c, i);
    InNamesOf(nodes, d, k, i);
    InNamesOf(nodes, c, 1, i);
    hide NamesOf;
  }

  lemma {:induction false} UnlinkedPlaces(nodes: seq<Node>, d: nat, k: nat, c: nat, i: nat)
    requires MayUnlink(nodes, d, k, c) && c != d && i > 0
    requires nodes[c].kind == T_DIR ==> nodes[c].nlink == 1 && nodes[d].nlink >= 2
    ensures NamesOf(Unlinked(nodes, d, k, c), i) == NamesOf(nodes, i) - {(d, k)} - (if nodes[c].kind == T_DIR then {(c, 1)} else {})
  {
    var nodes' := Unlinked(nodes, d, k, c);
    forall x: nat, y: nat
      ensures Names(nodes', x, y, i) <==> Names(nodes, x, y, i) && !(x == d && y == k) && !(nodes[c].kind == T_DIR && x == c && y == 1)
    {
      UnlinkedNames(nodes, d, k, c, x, y, i);
    }
    hide Unlinked;
  }

  lemma {:induction false} UnlinkedLinks(nodes: seq<Node>, d: nat, k: nat, c: nat, x: nat)
    requires d < |nodes| && c < |nodes| && k < |nodes[d].ents| && c != d && x < |nodes|
    ensures Unlinked(nodes, d, k, c)[x].kind == nodes[x].kind
    ensures Unlinked(nodes, d, k, c)[x].nlink ==
            nodes[x].nlink - (if x == c then 1 else 0) - (if x == d && nodes[c].kind == T_DIR then 1 else 0)
  {
    UnlinkedAt(nodes, d, k, c, x);
  }

  lemma {:induction false} UnlinkedCount(nodes: seq<Node>, pending: multiset<nat>, d: nat, k: nat, c: nat, i: nat)
    requires Counted(nodes, pending) && MayUnlink(nodes, d, k, c) && c != d && 0 < i < |nodes|
    requires nodes[c].kind == T_DIR ==> nodes[c].nlink == 1 && nodes[d].nlink >= 2 && Parent(nodes[c]) == d && |nodes[c].ents| >= 2
    ensures Unlinked(nodes, d, k, c)[i].nlink == |NamesOf(Unlinked(nodes, d, k, c), i)| + pending[i]
  {
    hide NamesOf, Counted, Unlinked;
    CountOf(nodes, pending, i);
    UnlinkedLinks(nodes, d, k, c, i);
    UnlinkedNamesOf(nodes, d, k, c, i);
  }

  lemma {:induction false} FreeUnlinked(nodes: seq<Node>, pending: multiset<nat>, i: nat)
    requires Counted(nodes, pending) && 0 < i < |nodes| && nodes[i].kind == T_FREE
    ensures nodes[i].nlink == 0
  {
    hide NamesOf;
  }

  /** unlink keeps the link counts exact. */
  lemma {:induction false} UnlinkedCounted(nodes: seq<Node>, pending: multiset<nat>, d: nat, k: nat, c: nat)
    requires Counted(nodes, pending) && MayUnlink(nodes, d, k, c) && c != d && nodes[c].kind != T_FREE
    requires nodes[c].kind == T_DIR ==> nodes[c].nlink == 1 && nodes[d].nlink >= 2 && Parent(nodes[c]) == d && |nodes[c].ents| >= 2
    ensures Counted(Unlinked(nodes, d, k, c), pending)
  {
    hide NamesOf, Unlinked;
    var nodes' := Unlinked(nodes, d, k, c);
    forall i: nat | 0 < i < |nodes'|
      ensures nodes'[i].nlink == |NamesOf(nodes', i)| + pending[i]
    {
      UnlinkedCount(nodes, pending, d, k, c, i);
    }
    forall i: nat | 0 < i < |nodes'|
      ensures nodes'[i].kind == nodes[i].kind && (nodes[i].kind == T_FREE ==> nodes'[i].nlink == 0)
    {
      hide Counted;
      UnlinkedLinks(nodes, d, k, c, i);
      if nodes[i].kind == T_FREE {
        FreeUnlinked(nodes, pending, i);
      }
    }
    hide Names, MayUnlink;
  }

  // ----- iput -----

  /** itrunc and the free mark on an inode without links. */
  function Freed(nodes: seq<Node>, i: nat): (r: seq<Node>)
    requires i < |nodes|
    ensures |r| == |nodes|
  {
    nodes[i := Node(T_FREE, nodes[i].nlink, nodes[i].refs, [])]
  }

  lemma {:induction false} FreedNames(nodes: seq<Node>, i: nat, x: nat, y: nat, j: nat)
    requires i < |nodes| && nodes[i].nlink == 0
    ensures Names(Freed(nodes, i), x, y, j) == Names(nodes, x, y, j)
  {
  }

  lemma {:induction false} FreedTree(nodes: seq<Node>, home: map<nat, nat>, depth: map<nat, nat>, i: nat)
    requires Tree(nodes, home, depth) && 0 < i < |nodes| && nodes[i].nlink == 0 && NamesOf(nodes, i) == {}
    ensures Tree(Freed(nodes, i), home, depth)
  {
    var nodes' := Freed(nodes, i);
    forall x: nat, y: nat, j: nat
      ensures Names(nodes', x, y, j) == Names(nodes, x, y, j)
    {
      FreedNames(nodes, i, x, y, j);
    }
    hide Names, GoodDir;
    forall x: nat | x < |nodes| && nodes'[x].kind == T_DIR
      ensures GoodDir(nodes', x)
    {
      FreedGoodDir(nodes, i, x);
    }
    forall x: nat | x < |nodes| && Linked(nodes'[x]) && x != ROOT
      ensures AtHome(nodes', home, depth, x)
    {
      HomeOf(nodes, home, depth, x);
    }
  }

  lemma {:induction false} FreedGoodDir(nodes: seq<Node>, i: nat, x: nat)
    requires GoodDirs(nodes) && 0 < i < |nodes| && nodes[i].nlink == 0 && NamesOf(nodes, i) == {}
    requires x < |nodes| && x != i && nodes[x].kind == T_DIR
    ensures GoodDir(Freed(nodes, i), x)
  {
    var nodes' := Freed(nodes, i);
    assert GoodDir(nodes, x);
    hide GoodDirs;
    forall j | 2 <= j < |nodes'[x].ents| && nodes'[x].ents[j].inum != 0
      ensures GoodEntry(nodes', nodes'[x].ents[j])
    {
      InNamesOf(nodes, x, j, i);
    }
  }

  lemma {:induction false} FreedCounted(nodes: seq<Node>, pending: multiset<nat>, i: nat)
    requires Counted(nodes, pending) && 0 < i < |nodes| && nodes[i].nlink == 0
    ensures NamesOf(nodes, i) == {} && Counted(Freed(nodes, i), pending)
  {
    var nodes' := Freed(nodes, i);
    forall j: nat
      ensures NamesOf(nodes', j) == NamesOf(nodes, j)
    {
      forall x: nat, y: nat
        ensures Names(nodes', x, y, j) == Names(nodes, x, y, j)
      {
        FreedNames(nodes, i, x, y, j);
      }
    }
    hide NamesOf;
  }
}
