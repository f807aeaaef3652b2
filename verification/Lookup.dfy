/** What names stand for: lookups after link, create and unlink, and that no directory gets a name twice. */
module Lookup {
  import opened Common
  import opened Links
  import opened Namespace

  /** The inode that dirlookup finds from entry k on, 0 if there is none. */
  function FindFrom(es: seq<Dirent>, k: nat, name: string): nat
    decreases |es| - k
  {
    if k >= |es| then 0 else if es[k].inum != 0 && es[k].name == name then es[k].inum else FindFrom(es, k + 1, name)
  }

  function Find(es: seq<Dirent>, name: string): nat {
    FindFrom(es, 0, name)
  }

  lemma {:induction false} FindFromIs(es: seq<Dirent>, k: nat, name: string, i: nat)
    requires k <= i && Bears(es, i, name) && forall j: nat | k <= j < i :: !Bears(es, j, name)
    ensures FindFrom(es, k, name) == es[i].inum
    decreases i - k
  {
    if k < i {
      assert !Bears(es, k, name);
      FindFromIs(es, k + 1, name, i);
    }
  }

  lemma {:induction false} FindFromNone(es: seq<Dirent>, k: nat, name: string)
    requires forall j: nat | k <= j :: !Bears(es, j, name)
    ensures FindFrom(es, k, name) == 0
    decreases |es| - k
  {
    if k < |es| {
      assert !Bears(es, k, name);
      FindFromNone(es, k + 1, name);
    }
  }

  /** dirlookup finds this inode. */
  lemma {:induction false} FindIs(es: seq<Dirent>, name: string)
    ensures HasName(es, name) <==> Find(es, name) != 0
    ensures forall k: nat | FirstBears(es, k, name) :: Find(es, name) == es[k].inum
  {
    if HasName(es, name) {
      var k := FirstOf(es, name);
      FindFromIs(es, 0, name, k);
    } else {
      FindFromNone(es, 0, name);
    }
    forall k: nat | FirstBears(es, k, name)
      ensures Find(es, name) == es[k].inum
    {
      FindFromIs(es, 0, name, k);
    }
  }

  lemma {:induction false} FirstOf(es: seq<Dirent>, name: string) returns (k: nat)
    requires HasName(es, name)
    ensures FirstBears(es, k, name)
  {
    k := 0;
    while !Bears(es, k, name)
      invariant forall j: nat | j < k :: !Bears(es, j, name)
      decreases |es| - k
    {
      k := k + 1;
    }
  }

  // ----- One directory -----

  /** No name is in use twice. */
  ghost predicate UniqueNames(es: seq<Dirent>) {
    forall i: nat, j: nat, name: string | Bears(es, i, name) && Bears(es, j, name) :: i == j
  }

  /** An entry for a name that was not there, put in a place not in use, is found under that name; all other names stand
      for what they did. */
  lemma {:induction false} FindPut(es: seq<Dirent>, k: nat, c: nat, name: string, other: string)
    requires k <= |es| && (k < |es| ==> es[k].inum == 0) && !HasName(es, name) && c != 0
    ensures Find(Put(es, k, Dirent(c, name)), other) == if other == name then c else Find(es, other)
    ensures UniqueNames(es) ==> UniqueNames(Put(es, k, Dirent(c, name)))
  {
    var es' := Put(es, k, Dirent(c, name));
    forall j: nat, n: string
      ensures Bears(es', j, n) <==> if j == k then n == name else Bears(es, j, n)
    {
    }
    assert forall j: nat :: !Bears(es, j, name);
    hide Bears;
    SameFind(es, es', other, name, c, k);
  }

  lemma {:induction false} SameFind(es: seq<Dirent>, es': seq<Dirent>, other: string, name: string, c: nat, k: nat)
    requires forall j: nat :: Bears(es', j, other) <==> if j == k then other == name else Bears(es, j, other)
    requires !HasName(es, name) && k < |es'| && es'[k].inum == c && !Bears(es, k, other)
    requires forall j: nat | Bears(es, j, other) :: j < |es| && j < |es'| && es'[j] == es[j]
    ensures Find(es', other) == if other == name then c else Find(es, other)
  {
    FindIs(es, other);
    FindIs(es', other);
    hide Find;
    if other == name {
      assert forall j: nat :: !Bears(es, j, name);
      assert FirstBears(es', k, other);
    } else if HasName(es, other) {
      var i := FirstOf(es, other);
      assert FirstBears(es', i, other);
    } else {
      assert forall j: nat :: !Bears(es', j, other);
    }
  }

  /** Where no name is in use twice, zeroing an entry takes its name away and no other. */
  lemma {:induction false} FindErased(es: seq<Dirent>, k: nat, name: string, other: string)
    requires UniqueNames(es) && Bears(es, k, name)
    ensures Find(Put(es, k, Dirent(0, "")), other) == if other == name then 0 else Find(es, other)
    ensures UniqueNames(Put(es, k, Dirent(0, "")))
  {
    var es' := Put(es, k, Dirent(0, ""));
    forall j: nat, n: string
      ensures Bears(es', j, n) <==> j != k && Bears(es, j, n)
    {
    }
    FindIs(es, other);
    FindIs(es', other);
    assert forall n: string :: Bears(es, k, n) ==> n == name;
    assert forall j: nat | Bears(es', j, other) :: es'[j] == es[j];
    hide Bears, Find;
    if other == name {
      assert forall j: nat :: !Bears(es', j, other);
    } else if HasName(es, other) {
      var i := FirstOf(es, other);
      assert FirstBears(es', i, other);
    } else {
      assert forall j: nat :: !Bears(es', j, other);
    }
  }

  // ----- The calls -----

  ghost predicate Unique(nodes: seq<Node>) {
    forall d: nat | d < |nodes| :: UniqueNames(nodes[d].ents)
  }

  /** After link the new name stands for the file, and no other name in any directory changes. */
  lemma {:induction false} LinkResolves(nodes: seq<Node>, d: nat, k: nat, i: nat, name: string, x: nat, other: string)
    requires d < |nodes| && FreeSlot(nodes[d].ents, k) && !HasName(nodes[d].ents, name) && i != 0 && x < |nodes|
    ensures Find(Adopted(nodes, d, k, i, name, 0)[x].ents, other) == if x == d && other == name then i else Find(nodes[x].ents, other)
    ensures Unique(nodes) ==> Unique(Adopted(nodes, d, k, i, name, 0))
  {
    hide Find, UniqueNames;
    FindPut(nodes[d].ents, k, i, name, other);
    hide HasName;
  }

  /** After create the new name stands for the new inode, which as a directory has its dots; no other name changes. */
  lemma {:induction false} CreateResolves(nodes: seq<Node>, d: nat, k: nat, c: nat, name: string, kind: int, x: nat, other: string)
    requires MayEnter(nodes, d, k, c, name, kind) && !HasName(nodes[d].ents, name) && d > 0 && x < |nodes|
    ensures var found := Find(Created(nodes, d, k, c, name, kind)[x].ents, other);
      if x == d && other == name then found == c
      else if x != c then found == Find(nodes[x].ents, other)
      else found == if kind != T_DIR then 0 else if other == "." then c else if other == ".." then d else 0
    ensures Unique(nodes) ==> Unique(Created(nodes, d, k, c, name, kind))
  {
    FindPut(nodes[d].ents, k, c, name, other);
    BornNames(kind, c, d, other);
    hide HasName, UniqueNames, Find, Born;
  }

  lemma {:induction false} BornNames(kind: int, c: nat, d: nat, other: string)
    requires c > 0 && d > 0
    ensures UniqueNames(Born(kind, c, d).ents)
    ensures Find(Born(kind, c, d).ents, other) == if kind != T_DIR then 0 else if other == "." then c else if other == ".." then d else 0
  {
    var es := Born(kind, c, d).ents;
    assert FindFrom(es, 2, other) == 0;
    assert kind == T_DIR ==> FindFrom(es, 1, other) == if other == ".." then d else 0;
  }

  /** After unlink the name is gone, and no other name in any directory changes. */
  lemma {:induction false} UnlinkResolves(nodes: seq<Node>, d: nat, k: nat, c: nat, name: string, x: nat, other: string)
    requires MayUnlink(nodes, d, k, c) && c != d && nodes[d].ents[k].name == name && Unique(nodes) && x < |nodes|
    ensures Find(Unlinked(nodes, d, k, c)[x].ents, other) == if x == d && other == name then 0 else Find(nodes[x].ents, other)
    ensures Unique(Unlinked(nodes, d, k, c))
  {
    hide Find, UniqueNames;
    FindErased(nodes[d].ents, k, name, other);
  }

  /** On the disk that mkfs makes of differently named files no name is there twice. */
  lemma {:induction false} MadeUnique(names: seq<string>, n: nat)
    requires |names| + 2 <= n && forall j | 0 <= j < |names| :: !Dots(names[j])
    requires forall i, j | 0 <= i < j < |names| :: names[i] != names[j]
    ensures Unique(Made(names, n))
  {
    var es := RootEnts(names);
    forall i: nat, j: nat, name: string | Bears(es, i, name) && Bears(es, j, name)
      ensures i == j
    {
      assert i >= 2 ==> es[i].name == names[i - 2];
      assert j >= 2 ==> es[j].name == names[j - 2];
    }
  }
}
