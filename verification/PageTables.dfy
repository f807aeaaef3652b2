/** Two-level page tables of 32-bit paging in physical memory, and who uses each frame. Frames and virtual pages
    are numbered by address / 4096; an address space is named by the frame of its page directory. */
module PageTables {
  import opened DiskModel

  const NPT: nat := 1024             // entries in a directory or table
  const NPAGES: nat := 0x10_0000     // pages in the 32-bit address space
  const USER_PAGES: nat := 0x8_0000  // pages below KERNBASE

  const DIR_FLAGS: nat := 7          // PTE_P | PTE_W | PTE_U

  type Table = s: seq<Word> | |s| == NPT witness seq(NPT, _ => 0)

  function ZeroTable(): Table {
    seq(NPT, _ => 0)
  }

  predicate Present(w: Word) {
    w % 2 == 1
  }

  /** PTE_ADDR, as a frame number. */
  function FrameOf(w: Word): nat {
    w / 0x1000
  }

  function FlagsOf(w: Word): nat {
    w % 0x1000
  }

  /** pa | perm | PTE_P */
  function Entry(frame: nat, perm: nat): (w: Word)
    requires frame < NPAGES && perm < 0x1000
    ensures Present(w) && FrameOf(w) == frame && FlagsOf(w) == perm / 2 * 2 + 1
  {
    frame * 0x1000 + perm / 2 * 2 + 1
  }

  /** What a frame is used for: a page directory, the i-th page table of a space, or its user page v. */
  datatype Use = Dir | Tab(s: nat, i: nat) | Page(s: nat, v: nat)

  predicate IsDir(used: map<nat, Use>, s: nat) {
    s in used && used[s] == Dir
  }

  function Pde(tabs: map<nat, Table>, s: nat, i: nat): Word {
    if s in tabs && i < NPT then tabs[s][i] else 0
  }

  /** The flat map: the entry of page v, 0 where there is no table. */
  function Pte(tabs: map<nat, Table>, s: nat, v: nat): Word {
    var d := Pde(tabs, s, v / NPT);
    if Present(d) then Pde(tabs, FrameOf(d), v % NPT) else 0
  }

  /** A frame is where its use says. */
  predicate InPlace(tabs: map<nat, Table>, used: map<nat, Use>, f: nat)
    requires f in used
  {
    match used[f]
    case Dir => f in tabs
    case Tab(s, i) => IsDir(used, s) && f in tabs && Present(Pde(tabs, s, i)) && FrameOf(Pde(tabs, s, i)) == f
    case Page(s, v) => IsDir(used, s) && v < USER_PAGES && Present(Pte(tabs, s, v)) && FrameOf(Pte(tabs, s, v)) == f
  }

  ghost predicate TablesOwned(tabs: map<nat, Table>, used: map<nat, Use>) {
    forall s: nat, i: nat | IsDir(used, s) && Present(Pde(tabs, s, i)) ::
      FrameOf(Pde(tabs, s, i)) in used && used[FrameOf(Pde(tabs, s, i))] == Tab(s, i) && FlagsOf(Pde(tabs, s, i)) == DIR_FLAGS
  }

  ghost predicate PagesOwned(tabs: map<nat, Table>, used: map<nat, Use>) {
    forall s: nat, v: nat | IsDir(used, s) && v < USER_PAGES && Present(Pte(tabs, s, v)) ::
      FrameOf(Pte(tabs, s, v)) in used && used[FrameOf(Pte(tabs, s, v))] == Page(s, v)
  }

  ghost predicate UsesExact(tabs: map<nat, Table>, used: map<nat, Use>) {
    forall f | f in used :: InPlace(tabs, used, f)
  }

  /** Every table and every user page of every address space is in a frame of its own, and every used frame is in
      its place. Directory entries allow everything, so what a page allows is what its own entry says. */
  ghost predicate Owned(tabs: map<nat, Table>, used: map<nat, Use>) {
    TablesOwned(tabs, used) && PagesOwned(tabs, used) && UsesExact(tabs, used)
  }

  lemma {:induction false} TableOf(tabs: map<nat, Table>, used: map<nat, Use>, s: nat, i: nat)
    requires Owned(tabs, used) && IsDir(used, s) && Present(Pde(tabs, s, i))
    ensures var f := FrameOf(Pde(tabs, s, i)); f in used && used[f] == Tab(s, i) && f in tabs && f != s && s in tabs
  {
    var f := FrameOf(Pde(tabs, s, i));
    assert InPlace(tabs, used, f) && InPlace(tabs, used, s);
  }

  /** No frame backs two user pages. */
  lemma {:induction false} PagesDisjoint(tabs: map<nat, Table>, used: map<nat, Use>, s: nat, v: nat, s': nat, v': nat)
    requires Owned(tabs, used) && IsDir(used, s) && IsDir(used, s') && v < USER_PAGES && v' < USER_PAGES
    requires Present(Pte(tabs, s, v)) && Present(Pte(tabs, s', v')) && FrameOf(Pte(tabs, s, v)) == FrameOf(Pte(tabs, s', v'))
    ensures s == s' && v == v'
  {
  }

  // ----- A new page table -----

  function WithTable(tabs: map<nat, Table>, s: nat, i: nat, f: nat): map<nat, Table>
    requires s in tabs && i < NPT && f < NPAGES
  {
    tabs[f := ZeroTable()][s := tabs[s][i := Entry(f, 7)]]
  }

  predicate MayAddTable(tabs: map<nat, Table>, used: map<nat, Use>, s: nat, i: nat, f: nat) {
    IsDir(used, s) && s in tabs && i < NPT && f < NPAGES && f !in used && !Present(Pde(tabs, s, i))
  }

  lemma {:induction false} WithTablePde(tabs: map<nat, Table>, used: map<nat, Use>, s: nat, i: nat, f: nat, x: nat, j: nat)
    requires MayAddTable(tabs, used, s, i, f) && x in used
    ensures Pde(WithTable(tabs, s, i, f), x, j) == if x == s && j == i then Entry(f, 7) else Pde(tabs, x, j)
  {
  }

  lemma {:induction false} WithTablePte(tabs: map<nat, Table>, used: map<nat, Use>, s: nat, i: nat, f: nat, x: nat, v: nat)
    requires Owned(tabs, used) && MayAddTable(tabs, used, s, i, f) && IsDir(used, x)
    ensures Pte(WithTable(tabs, s, i, f), x, v) == Pte(tabs, x, v)
  {
    hide Owned, WithTable;
    WithTablePde(tabs, used, s, i, f, x, v / NPT);
    if x == s && v / NPT == i {
      NewTableZero(tabs, s, i, f, v % NPT);
    } else if Present(Pde(tabs, x, v / NPT)) {
      TableOf(tabs, used, x, v / NPT);
      WithTablePde(tabs, used, s, i, f, FrameOf(Pde(tabs, x, v / NPT)), v % NPT);
    }
  }

  lemma {:induction false} NewTableZero(tabs: map<nat, Table>, s: nat, i: nat, f: nat, j: nat)
    requires s in tabs && i < NPT && f < NPAGES && f != s
    ensures Pde(WithTable(tabs, s, i, f), f, j) == 0
  {
  }

  /** A new, empty table changes nothing in the flat map of any space. */
  lemma {:induction false} WithTableOwned(tabs: map<nat, Table>, used: map<nat, Use>, s: nat, i: nat, f: nat)
    requires Owned(tabs, used) && MayAddTable(tabs, used, s, i, f)
    ensures Owned(WithTable(tabs, s, i, f), used[f := Tab(s, i)])
  {
    hide WithTable, Pte, Pde, Entry;
    var tabs', used' := WithTable(tabs, s, i, f), used[f := Tab(s, i)];
    forall x: nat, j: nat | x in used
      ensures Pde(tabs', x, j) == if x == s && j == i then Entry(f, 7) else Pde(tabs, x, j)
    {
      WithTablePde(tabs, used, s, i, f, x, j);
    }
    forall x: nat, v: nat | IsDir(used, x)
      ensures Pte(tabs', x, v) == Pte(tabs, x, v)
    {
      WithTablePte(tabs, used, s, i, f, x, v);
    }
    forall g | g in used'
      ensures InPlace(tabs', used', g)
    {
      WithTableKeys(tabs, s, i, f, g);
      if g != f {
        assert InPlace(tabs, used, g);
      }
    }
  }

  lemma {:induction false} WithTableKeys(tabs: map<nat, Table>, s: nat, i: nat, f: nat, g: nat)
    requires s in tabs && i < NPT && f < NPAGES
    ensures g in WithTable(tabs, s, i, f) <==> g in tabs || g == f
  {
  }

  /** A zeroed page directory in a frame that was not in use: an empty space. */
  lemma {:induction false} NewDirOwned(tabs: map<nat, Table>, used: map<nat, Use>, d: nat)
    requires Owned(tabs, used) && d !in used
    ensures var tabs', used' := tabs[d := ZeroTable()], used[d := Dir];
      && Owned(tabs', used') && Others(used', d) == used
      && (forall u: nat :: Pte(tabs', d, u) == 0)
      && (forall x: nat, u: nat | IsDir(used, x) :: Pte(tabs', x, u) == Pte(tabs, x, u))
  {
    var tabs', used' := tabs[d := ZeroTable()], used[d := Dir];
    forall x: nat, j: nat | x in used
      ensures Pde(tabs', x, j) == Pde(tabs, x, j)
    {
    }
    forall j: nat
      ensures Pde(tabs', d, j) == 0
    {
    }
    forall x: nat, u: nat | IsDir(used, x)
      ensures Pte(tabs', x, u) == Pte(tabs, x, u)
    {
      if Present(Pde(tabs, x, u / NPT)) {
        TableOf(tabs, used, x, u / NPT);
      }
    }
    forall u: nat
      ensures Pte(tabs', d, u) == 0
    {
    }
    hide Pde, Pte;
    forall g | g in used
      ensures InPlace(tabs', used', g) && SpaceOf(used, g) != d
    {
      assert InPlace(tabs, used, g);
    }
  }

  // ----- Writing one entry -----

  function WithPte(tabs: map<nat, Table>, s: nat, v: nat, w: Word): map<nat, Table> {
    var t := FrameOf(Pde(tabs, s, v / NPT));
    if t in tabs then tabs[t := tabs[t][v % NPT := w]] else tabs
  }

  /** There is a table for page v of space s. */
  predicate HasTable(tabs: map<nat, Table>, used: map<nat, Use>, s: nat, v: nat) {
    IsDir(used, s) && v < NPAGES && Present(Pde(tabs, s, v / NPT))
  }

  lemma {:induction false} WithPtePde(tabs: map<nat, Table>, used: map<nat, Use>, s: nat, v: nat, w: Word, x: nat, j: nat)
    requires Owned(tabs, used) && HasTable(tabs, used, s, v) && IsDir(used, x)
    ensures Pde(WithPte(tabs, s, v, w), x, j) == Pde(tabs, x, j)
  {
    hide Owned;
    TableOf(tabs, used, s, v / NPT);
  }

  lemma {:induction false} WithPtePte(tabs: map<nat, Table>, used: map<nat, Use>, s: nat, v: nat, w: Word, x: nat, u: nat)
    requires Owned(tabs, used) && HasTable(tabs, used, s, v) && IsDir(used, x)
    ensures Pte(WithPte(tabs, s, v, w), x, u) == if x == s && u == v then w else Pte(tabs, x, u)
  {
    hide Owned;
    TableOf(tabs, used, s, v / NPT);
    WithPtePde(tabs, used, s, v, w, x, u / NPT);
    if Present(Pde(tabs, x, u / NPT)) {
      TableOf(tabs, used, x, u / NPT);
    }
  }

  lemma {:induction false} WithPteKeys(tabs: map<nat, Table>, s: nat, v: nat, w: Word, g: nat)
    ensures g in WithPte(tabs, s, v, w) <==> g in tabs
  {
  }

  /** What a write to page v of s does: the flat maps change there alone, the directories not at all. */
  ghost predicate Wrote(tabs: map<nat, Table>, used: map<nat, Use>, tabs': map<nat, Table>, s: nat, v: nat, w: Word) {
    && (forall x: nat, j: nat | IsDir(used, x) :: Pde(tabs', x, j) == Pde(tabs, x, j))
    && (forall x: nat, u: nat | IsDir(used, x) :: Pte(tabs', x, u) == if x == s && u == v then w else Pte(tabs, x, u))
    && tabs'.Keys == tabs.Keys
  }

  lemma {:induction false} WithPteWrote(tabs: map<nat, Table>, used: map<nat, Use>, s: nat, v: nat, w: Word)
    requires Owned(tabs, used) && HasTable(tabs, used, s, v)
    ensures Wrote(tabs, used, WithPte(tabs, s, v, w), s, v, w)
  {
    hide Owned, WithPte, Pde, Pte, HasTable;
    var tabs' := WithPte(tabs, s, v, w);
    forall x: nat, j: nat | IsDir(used, x)
      ensures Pde(tabs', x, j) == Pde(tabs, x, j)
    {
      WithPtePde(tabs, used, s, v, w, x, j);
    }
    forall x: nat, u: nat | IsDir(used, x)
      ensures Pte(tabs', x, u) == if x == s && u == v then w else Pte(tabs, x, u)
    {
      WithPtePte(tabs, used, s, v, w, x, u);
    }
    forall g
      ensures g in tabs' <==> g in tabs
    {
      WithPteKeys(tabs, s, v, w, g);
    }
  }

  /** Mapping a user page to a frame that was not in use. */
  lemma {:induction false} MapOwned(tabs: map<nat, Table>, used: map<nat, Use>, tabs': map<nat, Table>, s: nat, v: nat, f: nat, w: Word)
    requires Owned(tabs, used) && IsDir(used, s) && v < USER_PAGES && f !in used && Wrote(tabs, used, tabs', s, v, w)
    requires Present(w) && FrameOf(w) == f && !Present(Pte(tabs, s, v))
    ensures Owned(tabs', used[f := Page(s, v)])
  {
    hide Pde, Pte, Present, FrameOf;
    var used' := used[f := Page(s, v)];
    forall g | g in used'
      ensures InPlace(tabs', used', g)
    {
      if g != f {
        assert InPlace(tabs, used, g);
      }
    }
  }

  /** Mapping a page of the kernel's half uses no frame. */
  lemma {:induction false} KernelMapOwned(tabs: map<nat, Table>, used: map<nat, Use>, tabs': map<nat, Table>, s: nat, v: nat, w: Word)
    requires Owned(tabs, used) && IsDir(used, s) && v >= USER_PAGES && Wrote(tabs, used, tabs', s, v, w)
    ensures Owned(tabs', used)
  {
    hide Pde, Pte, Present, FrameOf;
    forall g | g in used
      ensures InPlace(tabs', used, g)
    {
      assert InPlace(tabs, used, g);
    }
  }

  /** Clearing the entry of a user page gives up its frame. */
  lemma {:induction false} UnmapOwned(tabs: map<nat, Table>, used: map<nat, Use>, tabs': map<nat, Table>, s: nat, v: nat, f: nat)
    requires Owned(tabs, used) && IsDir(used, s) && v < USER_PAGES && Wrote(tabs, used, tabs', s, v, 0)
    requires Present(Pte(tabs, s, v)) && f == FrameOf(Pte(tabs, s, v))
    ensures f in used && used[f] == Page(s, v) && Owned(tabs', used - {f})
  {
    hide Pde, Pte, FrameOf;
    var used' := used - {f};
    forall g | g in used'
      ensures InPlace(tabs', used', g)
    {
      assert InPlace(tabs, used, g);
    }
  }

  // ----- Giving up a whole space -----

  function SpaceOf(used: map<nat, Use>, f: nat): nat
    requires f in used
  {
    match used[f]
    case Dir => f
    case Tab(s, _) => s
    case Page(s, _) => s
  }

  /** The frames of all the other spaces. */
  function Others(used: map<nat, Use>, s: nat): map<nat, Use> {
    map f | f in used && SpaceOf(used, f) != s :: used[f]
  }

  lemma {:induction false} OthersOwned(tabs: map<nat, Table>, used: map<nat, Use>, s: nat)
    requires Owned(tabs, used)
    ensures Owned(tabs, Others(used, s))
  {
    hide Pte, Pde;
    var used' := Others(used, s);
    forall g | g in used'
      ensures InPlace(tabs, used', g)
    {
      assert InPlace(tabs, used, g);
    }
  }

  lemma {:induction false} OthersAdd(used: map<nat, Use>, s: nat, f: nat, u: Use)
    requires f !in used && !u.Dir? && u.s == s
    ensures Others(used[f := u], s) == Others(used, s)
  {
  }

  // ----- Counting page tables -----

  /** The tables that space s has. */
  function TableSet(tabs: map<nat, Table>, s: nat): set<nat> {
    set i: nat | i < NPT && Present(Pde(tabs, s, i))
  }

  lemma {:induction false} HasTableSet(tabs: map<nat, Table>, used: map<nat, Use>, s: nat, v: nat)
    requires IsDir(used, s) && v < NPAGES
    ensures HasTable(tabs, used, s, v) <==> v / NPT in TableSet(tabs, s)
  {
  }

  lemma {:induction false} WithTableSet(tabs: map<nat, Table>, used: map<nat, Use>, s: nat, i: nat, f: nat)
    requires MayAddTable(tabs, used, s, i, f)
    ensures i !in TableSet(tabs, s) && TableSet(WithTable(tabs, s, i, f), s) == TableSet(tabs, s) + {i}
  {
    hide WithTable;
    forall j: nat
      ensures j in TableSet(WithTable(tabs, s, i, f), s) <==> j in TableSet(tabs, s) + {i}
    {
      WithTablePde(tabs, used, s, i, f, s, j);
    }
  }

  function Count(frames: set<nat>): nat {
    |frames|
  }

  /** Free frames and the tables of space s, counted together. */
  function Stock(free: set<nat>, tabs: map<nat, Table>, s: nat): nat {
    Count(free) + Count(TableSet(tabs, s))
  }

  /** A frame that becomes a table. */
  lemma {:induction false} StockTable(free: set<nat>, tabs: map<nat, Table>, used: map<nat, Use>, s: nat, i: nat, f: nat)
    requires MayAddTable(tabs, used, s, i, f) && f in free
    ensures Stock(free - {f}, WithTable(tabs, s, i, f), s) == Stock(free, tabs, s)
  {
    hide WithTable, TableSet;
    WithTableSet(tabs, used, s, i, f);
  }

  lemma {:induction false} WroteSet(tabs: map<nat, Table>, used: map<nat, Use>, tabs': map<nat, Table>, s: nat, v: nat, w: Word)
    requires IsDir(used, s) && Wrote(tabs, used, tabs', s, v, w)
    ensures TableSet(tabs', s) == TableSet(tabs, s) && forall free :: Stock(free, tabs', s) == Stock(free, tabs, s)
  {
    hide Pde, Pte;
  }

  /** The tables that the n pages from v on need. */
  function Span(v: nat, n: nat): set<nat> {
    if n == 0 then {} else Span(v, n - 1) + {(v + n - 1) / NPT}
  }

  lemma {:induction false} SpanHas(v: nat, n: nat, i: nat)
    ensures i in Span(v, n) <==> n > 0 && v / NPT <= i <= (v + n - 1) / NPT
  {
    if n > 0 {
      SpanHas(v, n - 1, i);
    }
  }

  lemma {:induction false} SpanJoin(v: nat, a: nat, b: nat)
    ensures Span(v, a) + Span(v + a, b) == Span(v, a + b)
  {
    if b > 0 {
      SpanJoin(v, a, b - 1);
    }
  }

  lemma {:induction false} SpanMore(v: nat, n: nat, m: nat)
    requires n < m
    ensures Span(v, n) <= Span(v, m) && (v + n) / NPT in Span(v, m)
  {
    SpanJoin(v, n, m - n);
    SpanHas(v, m, (v + n) / NPT);
  }

  /** n pages from a table's first page on need as many tables as n rounded up says. */
  lemma {:induction false} SpanSize(t: nat, n: nat)
    ensures Count(Span(t * NPT, n)) == TablesFor(n)
    decreases n
  {
    if n > 0 {
      SpanSize(t, n - 1);
      var v := t * NPT;
      SpanHas(v, n - 1, (v + n - 1) / NPT);
      assert (v + n - 1) / NPT == t + (n - 1) / NPT;
      if n > 1 {
        assert (v + n - 2) / NPT == t + (n - 2) / NPT;
      }
    }
  }

  function TablesFor(n: nat): nat {
    (n + NPT - 1) / NPT
  }
}
