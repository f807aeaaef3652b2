/** vm.c over kalloc.c: building, growing, shrinking, copying and freeing address spaces. A method that returns
    ok == false has panicked: the machine has halted and nothing is said of its state. */
module Vm {
  import opened Common
  import opened DiskModel
  import opened FileBlocks
  import opened PageTables

  const PGSIZE: nat := 0x1000

  type PageBytes = s: seq<Byte> | |s| == PGSIZE witness seq(PGSIZE, _ => 0)

  function ZeroPage(): PageBytes {
    seq(PGSIZE, _ => 0)
  }

  // ----- The free list of kalloc.c -----

  datatype Frames = NoFrames | More(f: nat, rest: Frames)

  /** The run structs in the free pages, from p on, are the frames of l. */
  predicate Runs(next: map<nat, nat>, p: nat, l: Frames)
    decreases l
  {
    match l
    case NoFrames => p == 0
    case More(f, rest) => p == f != 0 && f in next && Runs(next, next[f], rest)
  }

  function FrameSet(l: Frames): set<nat> {
    match l
    case NoFrames => {}
    case More(f, rest) => {f} + FrameSet(rest)
  }

  predicate Distinct(l: Frames) {
    match l
    case NoFrames => true
    case More(f, rest) => f !in FrameSet(rest) && Distinct(rest)
  }

  lemma {:induction false} RunsFrame(next: map<nat, nat>, next': map<nat, nat>, p: nat, l: Frames)
    requires Runs(next, p, l) && forall f | f in FrameSet(l) && f in next :: f in next' && next'[f] == next[f]
    ensures Runs(next', p, l)
    decreases l
  {
    match l
    case NoFrames =>
    case More(f, rest) => RunsFrame(next, next', next[f], rest);
  }

  function Length(l: Frames): nat {
    match l
    case NoFrames => 0
    case More(_, rest) => Length(rest) + 1
  }

  /** A walk that starts on the old list comes to f, which kfree has made point back. */
  lemma {:induction false} ComesBack(next: map<nat, nat>, next': map<nat, nat>, p: nat, l: Frames, l': Frames, f: nat) returns (rest: Frames)
    requires Runs(next, p, l) && f in FrameSet(l) && Runs(next', p, l') && forall g | g in next && g != f :: g in next' && next'[g] == next[g]
    ensures Runs(next', f, rest) && Length(rest) <= Length(l')
    decreases l
  {
    if p == f {
      rest := l';
    } else {
      rest := ComesBack(next, next', next[p], l.rest, l'.rest, f);
    }
  }

  lemma {:induction false} NoList(next: map<nat, nat>, p: nat, l: Frames, f: nat, l': Frames)
    requires Runs(next, p, l) && f in FrameSet(l) && f != 0
    ensures !Runs(next[f := p], f, l')
    decreases Length(l')
  {
    if Runs(next[f := p], f, l') {
      var rest := ComesBack(next, next[f := p], p, l, l'.rest, f);
      NoList(next, p, l, f, rest);
    }
  }

  ghost predicate Listable(next: map<nat, nat>, p: nat) {
    exists l :: Runs(next, p, l)
  }

  /** After kfree(f) the free list is a list if and only if f was not on it. */
  lemma {:induction false} DoubleFree(next: map<nat, nat>, p: nat, l: Frames, f: nat)
    requires Runs(next, p, l) && f != 0
    ensures Listable(next[f := p], f) <==> f !in FrameSet(l)
  {
    var next' := next[f := p];
    if f in FrameSet(l) {
      forall l' ensures !Runs(next', f, l') {
        NoList(next, p, l, f, l');
      }
    } else {
      RunsFrame(next, next', p, l);
      assert Runs(next', f, More(f, l));
    }
  }

  class Memory {
    const lo: nat   // the first frame past the kernel image
    const hi: nat   // PHYSTOP
    var next: map<nat, nat>
    var freelist: nat
    var tabs: map<nat, Table>
    var bytes: map<nat, PageBytes>
    ghost var list: Frames
    ghost var free: set<nat>
    ghost var used: map<nat, Use>

    ghost predicate FreeList()
      reads this
    {
      Runs(next, freelist, list) && Distinct(list) && free == FrameSet(list)
    }

    ghost predicate Apart()
      reads this
    {
      && 0 < lo <= hi <= NPAGES && free !! used.Keys
      && (forall f | f in free || f in used :: lo <= f < hi)
      && (forall f | f in used && used[f].Page? :: f in bytes)
    }

    ghost predicate Valid()
      reads this
    {
      FreeList() && Apart() && Owned(tabs, used)
    }

    /** Every frame the memory manager accounts for. */
    ghost function Total(): set<nat>
      reads this
    {
      free + used.Keys
    }

    /** Before kinit1 no frame is free and none is in use. */
    constructor (lo: nat, hi: nat)
      requires 0 < lo <= hi <= NPAGES
      ensures Valid() && free == {} && used == map[] && this.lo == lo && this.hi == hi
    {
      this.lo, this.hi, freelist := lo, hi, 0;
      next, tabs, bytes := map[], map[], map[];
      list, free, used := NoFrames, {}, map[];
    }

    /** freerange: every whole page of [vstart, vend) becomes free (kalloc.c:46-53). */
    method Freerange(vstart: nat, vend: nat)
      requires Valid() && lo <= RoundUp(vstart) && vend / PGSIZE <= hi
      requires forall f: nat | RoundUp(vstart) <= f < vend / PGSIZE :: f !in Total()
      modifies `freelist, `next, `list, `free
      ensures Valid() && used == old(used)
      ensures forall f: nat :: f in free <==> f in old(free) || RoundUp(vstart) <= f < vend / PGSIZE
    {
      hide Owned, Runs, Distinct, FrameSet;
      var p := RoundUp(vstart) * PGSIZE;
      while p + PGSIZE <= vend
        invariant p % PGSIZE == 0 && RoundUp(vstart) <= p / PGSIZE && Valid()
        invariant p / PGSIZE <= vend / PGSIZE || p / PGSIZE == RoundUp(vstart)
        invariant forall f: nat :: f in free <==> f in old(free) || RoundUp(vstart) <= f < p / PGSIZE
        decreases vend - p
      {
        assert p / PGSIZE < vend / PGSIZE && p / PGSIZE !in old(Total());
        var ok := Kfree(p / PGSIZE);
        assert ok;
        p := p + PGSIZE;
      }
    }

    /** kalloc: the frame at the head of the list, 0 when the list is empty. */
    method Kalloc() returns (f: nat)
      requires FreeList()
      modifies `freelist, `list, `free
      ensures FreeList()
      ensures old(free) == {} ==> f == 0 && free == {}
      ensures old(free) != {} ==> f in old(free) && free == old(free) - {f} && f != 0
    {
      f := freelist;
      if f != 0 {
        freelist := next[f];
        free := free - {f};
        list := list.rest;
      }
    }

    /** kfree: panics outside the managed frames, else the frame becomes the head of the list. The caller does not free a
        frame that is free already; DoubleFree says what happens then. */
    method Kfree(f: nat) returns (ok: bool)
      requires FreeList() && f !in free && 0 < lo
      modifies `freelist, `next, `list, `free
      ensures ok <==> lo <= f < hi
      ensures FreeList() && free == if ok then old(free) + {f} else old(free)
    {
      if f < lo || f >= hi {
        return false;
      }
      RunsFrame(next, next[f := freelist], freelist, list);
      next := next[f := freelist];
      freelist := f;
      list := More(f, list);
      free := {f} + free;
      ok := true;
    }

    /** walkpgdir: the table for page v is there, or is made if `alloc`; r says whether there is one now. */
    method Walkpgdir(s: nat, v: nat, alloc: bool) returns (r: bool)
      requires Valid() && IsDir(used, s) && v < NPAGES
      modifies `freelist, `list, `free, `tabs, `used
      ensures Valid() && IsDir(used, s) && Total() == old(Total()) && free <= old(free)
      ensures r <==> HasTable(tabs, used, s, v)
      ensures !r ==> tabs == old(tabs) && used == old(used) && free == old(free) && (alloc ==> free == {})
      ensures r && !old(HasTable(tabs, used, s, v)) ==> old(free) != {}
      ensures old(HasTable(tabs, used, s, v)) || !alloc ==> tabs == old(tabs) && used == old(used) && free == old(free)
      ensures SameMaps(old(tabs), old(used), tabs, used)
      ensures Others(used, s) == old(Others(used, s))
      ensures Stock(free, tabs, s) == old(Stock(free, tabs, s))
      ensures TableSet(tabs, s) == old(TableSet(tabs, s)) + if r then {v / NPT} else {}
    {
      hide Owned, Pte, Entry, Runs, Distinct, FrameSet, Others, TableSet, Stock, Count;
      DirThere(tabs, used, s);
      HasTableSet(tabs, used, s, v);
      if Present(tabs[s][v / NPT]) {
        return true;
      }
      if !alloc {
        return false;
      }
      var f := Kalloc();
      if f == 0 {
        return false;
      }
      WithTableOwned(tabs, used, s, v / NPT, f);
      WithTableSame(tabs, used, s, v / NPT, f);
      WithTableSet(tabs, used, s, v / NPT, f);
      StockTable(old(free), tabs, used, s, v / NPT, f);
      OthersAdd(used, s, f, Tab(s, v / NPT));
      tabs := tabs[f := ZeroTable()];
      tabs := tabs[s := tabs[s][v / NPT := Entry(f, 7)]];
      used := used[f := Tab(s, v / NPT)];
      r := true;
    }

    /** Filling in an entry that is not present (vm.c:73); `own` says that the page takes over frame f. */
    method SetPte(s: nat, v: nat, f: nat, perm: nat, ghost own: bool)
      requires Valid() && HasTable(tabs, used, s, v) && f < NPAGES && perm < 0x1000 && !Present(Pte(tabs, s, v))
      requires if own then v < USER_PAGES && f !in Total() && lo <= f < hi && f in bytes else v >= USER_PAGES
      modifies `tabs, `used
      ensures Valid() && IsDir(used, s) && Others(used, s) == old(Others(used, s))
      ensures Wrote(old(tabs), old(used), tabs, s, v, Entry(f, perm)) && used == if own then old(used)[f := Page(s, v)] else old(used)
      ensures TableSet(tabs, s) == old(TableSet(tabs, s)) && forall fs :: Stock(fs, tabs, s) == old(Stock(fs, tabs, s))
    {
      hide Owned, Pte, Pde, Entry, Runs, Distinct, FrameSet, Others, Wrote, WithPte, TableSet, Stock;
      PteIs(tabs, used, s, v);
      var t := FrameOf(tabs[s][v / NPT]);
      var w := Entry(f, perm);
      WithPteWrote(tabs, used, s, v, w);
      WroteSet(tabs, used, WithPte(tabs, s, v, w), s, v, w);
      if own {
        MapOwned(tabs, used, WithPte(tabs, s, v, w), s, v, f, w);
        OthersAdd(used, s, f, Page(s, v));
      } else {
        KernelMapOwned(tabs, used, WithPte(tabs, s, v, w), s, v, w);
      }
      tabs := tabs[t := tabs[t][v % NPT := w]];
      if own {
        used := used[f := Page(s, v)];
      }
    }

    /** One page of mappages (vm.c:69-73). */
    method MapOne(s: nat, v: nat, f: nat, perm: nat, ghost own: bool) returns (ok: bool, r: bool)
      requires Valid() && IsDir(used, s) && v < NPAGES && f < NPAGES && perm < 0x1000
      requires if own then v < USER_PAGES && f !in Total() && lo <= f < hi && f in bytes else v >= USER_PAGES
      modifies `freelist, `list, `free, `tabs, `used
      ensures !ok ==> Present(old(Pte(tabs, s, v)))
      ensures ok ==> Valid() && IsDir(used, s) && !Present(old(Pte(tabs, s, v))) && Others(used, s) == old(Others(used, s)) && free <= old(free)
      ensures ok && r ==> Maps(old(tabs), old(used), tabs, used, s, v, 1, f, perm)
      ensures ok && r ==> Total() == old(Total()) + (if own then {f} else {})
      ensures ok && r && own ==> f in used
      ensures ok && r && !old(HasTable(tabs, used, s, v)) ==> old(free) != {}
      ensures ok && !r ==> tabs == old(tabs) && used == old(used) && !HasTable(tabs, used, s, v)
      ensures ok && !r ==> SameMaps(old(tabs), old(used), tabs, used) && Total() == old(Total()) && free == {}
      ensures ok ==> Stock(free, tabs, s) == old(Stock(free, tabs, s))
      ensures ok ==> TableSet(tabs, s) == old(TableSet(tabs, s)) + if r then {v / NPT} else {}
    {
      hide Owned, Pte, Pde, Entry, Runs, Distinct, FrameSet, Others, Maps, SameMaps, Wrote, TableSet, Stock, Count;
      r := Walkpgdir(s, v, true);
      if !r {
        NoTableNoPage(tabs, s, v);
        return true, false;
      }
      SameAt(old(tabs), old(used), tabs, used, s, v);
      PteIs(tabs, used, s, v);
      if Present(tabs[FrameOf(tabs[s][v / NPT])][v % NPT]) {
        return false, true;
      }
      ghost var tabs1, used1 := tabs, used;
      SetPte(s, v, f, perm, own);
      SameThenWrote(old(tabs), old(used), tabs1, used1, tabs, used, s, v, f, perm);
      ok := true;
    }

    /** mappages: the pages that [va, va + size) touches lead to the frames from pa on, 0; or a table was missing and
        only the first `done` do, -1. Panics only if one of them is mapped already. The range may end at the top of
        the address space. */
    method Mappages(s: nat, va: Word, size: Word, pa: Word, perm: nat, ghost own: bool) returns (ok: bool, r: int, ghost done: nat)
      requires Valid() && IsDir(used, s) && perm < 0x1000 && size > 0 && va + size <= 0x1_0000_0000
      requires pa % PGSIZE == 0 && pa / PGSIZE + PageCount(va, size) <= NPAGES
      requires if own then PageCount(va, size) == 1 && va / PGSIZE < USER_PAGES && pa / PGSIZE !in Total() && lo <= pa / PGSIZE < hi && pa / PGSIZE in bytes
               else va / PGSIZE >= USER_PAGES
      modifies `freelist, `list, `free, `tabs, `used
      ensures ok ==> free <= old(free)
      ensures !ok ==> exists u: nat :: va / PGSIZE <= u < va / PGSIZE + PageCount(va, size) && Present(old(Pte(tabs, s, u)))
      ensures ok ==> Others(used, s) == old(Others(used, s)) && IsDir(used, s)
      ensures ok ==> Valid() && done <= PageCount(va, size) && r == (if done == PageCount(va, size) then 0 else -1)
      ensures ok ==> Maps(old(tabs), old(used), tabs, used, s, va / PGSIZE, done, pa / PGSIZE, perm)
      ensures ok ==> Total() == old(Total()) + (if own && r == 0 then {pa / PGSIZE} else {})
      ensures ok && r == -1 ==> free == {} && (va / PGSIZE + done) / NPT !in TableSet(tabs, s)
      ensures ok ==> Stock(free, tabs, s) == old(Stock(free, tabs, s))
      ensures ok ==> TableSet(tabs, s) == old(TableSet(tabs, s)) + Span(va / PGSIZE, done)
    {
      hide Owned, Pte, Pde, Entry, Maps, Runs, Distinct, FrameSet, Others, TableSet, Stock, Span, Count;
      var a: nat := va / PGSIZE;
      var last: nat := (va + size - 1) % 0x1_0000_0000 / PGSIZE;
      var f: nat := pa / PGSIZE;
      done := 0;
      MapsNone(tabs, used, s, a, f, perm);
      SpanStart(TableSet(tabs, s), a);
      while true
        invariant va / PGSIZE <= a <= last && done == a - va / PGSIZE && f == pa / PGSIZE + done
        invariant Valid() && Maps(old(tabs), old(used), tabs, used, s, va / PGSIZE, done, pa / PGSIZE, perm)
        invariant IsDir(used, s) && Total() == old(Total()) && Others(used, s) == old(Others(used, s)) && free <= old(free)
        invariant Stock(free, tabs, s) == old(Stock(free, tabs, s))
        invariant TableSet(tabs, s) == old(TableSet(tabs, s)) + Span(va / PGSIZE, done)
        decreases last - a
      {
        ghost var tabs1, used1 := tabs, used;
        HasTableSet(tabs, used, s, a);
        MapsKept(old(tabs), old(used), tabs, used, s, va / PGSIZE, done, pa / PGSIZE, perm, a);
        var there;
        ok, there := MapOne(s, a, f, perm, own);
        if !ok {
          r := -1;
          return;
        }
        if !there {
          MapsThenSame(old(tabs), old(used), tabs1, used1, tabs, used, s, va / PGSIZE, done, pa / PGSIZE, perm);
          r := -1;
          return;
        }
        MapsMore(old(tabs), old(used), tabs1, used1, tabs, used, s, va / PGSIZE, done, pa / PGSIZE, perm);
        SpanStep(old(TableSet(tabs, s)), va / PGSIZE, done);
        done := done + 1;
        if a == last {
          r := 0;
          return;
        }
        a, f := a + 1, f + 1;
      }
    }

    /** One page of deallocuvm (vm.c:269-276). */
    method Drop(s: nat, v: nat)
      requires Valid() && HasTable(tabs, used, s, v) && v < USER_PAGES && Present(Pte(tabs, s, v))
      modifies `freelist, `next, `list, `free, `tabs, `used
      ensures Valid() && IsDir(used, s) && Total() == old(Total()) && Cleared(old(tabs), old(used), tabs, used, s, v, v + 1)
    {
      hide Owned, Pte, Pde, Cleared, Runs, Distinct, FrameSet, Others;
      DropCleared(tabs, used, s, v);
      PteIs(tabs, used, s, v);
      WithPteWrote(tabs, used, s, v, 0);
      UnmapOwned(tabs, used, WithPte(tabs, s, v, 0), s, v, FrameOf(Pte(tabs, s, v)));
      var t := FrameOf(tabs[s][v / NPT]);
      var f := FrameOf(tabs[t][v % NPT]);
      var ok := Kfree(f);
      assert ok && f != 0;
      tabs := tabs[t := tabs[t][v % NPT := 0]];
      used := used - {f};
    }

    /** A page with a table in deallocuvm (vm.c:269-276): dropped if it is there. */
    method DropIfThere(s: nat, v: nat)
      requires Valid() && HasTable(tabs, used, s, v) && v < USER_PAGES
      modifies `freelist, `next, `list, `free, `tabs, `used
      ensures Valid() && IsDir(used, s) && Total() == old(Total()) && Cleared(old(tabs), old(used), tabs, used, s, v, v + 1)
    {
      hide Owned, Pte, Pde, Cleared, Runs, Distinct, FrameSet, Others;
      PteIs(tabs, used, s, v);
      if Present(tabs[FrameOf(tabs[s][v / NPT])][v % NPT]) {
        Drop(s, v);
      } else {
        ClearedNone(tabs, used, s, v);
        AbsentCleared(tabs, used, tabs, used, s, v, v, v + 1);
      }
    }

    /** One turn of deallocuvm's loop (vm.c:265-277), from page address a to the next. */
    method DeallocAt(s: nat, a: Word, oldsz: Word) returns (next: Word)
      requires Valid() && IsDir(used, s) && a % PGSIZE == 0 && a < oldsz <= KERNBASE
      modifies `freelist, `next, `list, `free, `tabs, `used
      ensures Valid() && IsDir(used, s) && Total() == old(Total()) && next > a && next % PGSIZE == 0
      ensures Cleared(old(tabs), old(used), tabs, used, s, a / PGSIZE, UpTo(next, oldsz))
    {
      hide Owned, Pte, Pde, Cleared, Runs, Distinct, FrameSet, Others, SkipTo, UpTo, SameMaps, RoundUp, TableSet, Stock;
      PlanSkip(a, oldsz);
      PlanStep(a, oldsz);
      next := a;
      var v := a / PGSIZE;
      var there := Walkpgdir(s, v, false);
      if !there {
        ClearedNone(tabs, used, s, v);
        NoTable(tabs, s, v, UpTo(SkipTo(a) + PGSIZE, oldsz));
        AbsentCleared(tabs, used, tabs, used, s, v, v, UpTo(SkipTo(a) + PGSIZE, oldsz));
        next := SkipTo(a);
      } else {
        DropIfThere(s, v);
      }
      next := (next + PGSIZE) % 0x1_0000_0000;
    }

    /** deallocuvm: exactly the mapped pages from newsz up to oldsz go, and their frames with them; the panics are
        unreachable, and the skip over an absent table ends. */
    method Deallocuvm(s: nat, oldsz: Word, newsz: Word) returns (r: Word)
      requires Valid() && IsDir(used, s) && oldsz <= KERNBASE
      modifies `freelist, `next, `list, `free, `tabs, `used
      ensures Valid() && IsDir(used, s) && Total() == old(Total()) && r == (if newsz >= oldsz then oldsz else newsz)
      ensures Others(used, s) == old(Others(used, s))
      ensures newsz >= oldsz ==> tabs == old(tabs) && used == old(used) && free == old(free)
      ensures newsz < oldsz ==> Cleared(old(tabs), old(used), tabs, used, s, RoundUp(newsz), RoundUp(oldsz))
    {
      hide Owned, Pte, Pde, Cleared, Runs, Distinct, FrameSet, Others;
      if newsz >= oldsz {
        return oldsz;
      }
      var a: Word := RoundUp(newsz) * PGSIZE;
      ClearedNone(tabs, used, s, RoundUp(newsz));
      while a < oldsz
        invariant a % PGSIZE == 0 && RoundUp(newsz) <= a / PGSIZE
        invariant Valid() && IsDir(used, s) && Total() == old(Total())
        invariant Cleared(old(tabs), old(used), tabs, used, s, RoundUp(newsz), UpTo(a, oldsz))
        decreases 0x1_0000_0000 - a
      {
        ghost var tabs1, used1, a1 := tabs, used, a;
        a := DeallocAt(s, a, oldsz);
        ClearedTwice(old(tabs), old(used), tabs1, used1, tabs, used, s, RoundUp(newsz), a1 / PGSIZE, UpTo(a, oldsz));
      }
      ClearedOthers(old(tabs), old(used), tabs, used, s, RoundUp(newsz), UpTo(a, oldsz));
      r := newsz;
    }

    /** The page tables of a space without user pages (vm.c:291-296). */
    method FreeTables(s: nat, ghost used0: map<nat, Use>)
      requires Valid() && IsDir(used, s) && used0 == used && NoPages(used, s)
      modifies `freelist, `next, `list, `free, `used
      ensures FreeList() && Apart() && Total() == old(Total()) && used == WithoutTables(used0, s, NPT)
    {
      hide Owned, Pte, Pde, Runs, Distinct, FrameSet;
      DirThere(tabs, used, s);
      WithoutNone(used0, s);
      var i := 0;
      while i < NPT
        invariant i <= NPT && FreeList() && Apart() && Total() == old(Total()) && used == WithoutTables(used0, s, i)
      {
        WithoutOne(tabs, used0, s, i);
        if Present(tabs[s][i]) {
          var f := FrameOf(tabs[s][i]);
          var ok := Kfree(f);
          assert ok;
          used := used - {f};
        }
        i := i + 1;
      }
    }

    /** The tables and the directory of a space without user pages (vm.c:291-297). */
    method FreeSpace(s: nat)
      requires Valid() && IsDir(used, s) && NoPages(used, s)
      modifies `freelist, `next, `list, `free, `used
      ensures Valid() && Total() == old(Total()) && used == Others(old(used), s)
    {
      hide Owned, Pte, Pde, Runs, Distinct, FrameSet, Others, WithoutTables, NoPages;
      WithoutAll(tabs, used, s);
      OthersOwned(tabs, used, s);
      FreeTables(s, used);
      var ok := Kfree(s);
      assert ok;
      used := used - {s};
    }

    /** freevm: every frame of the space goes back to the free list, once; the other spaces keep theirs. */
    method Freevm(s: nat)
      requires Valid() && IsDir(used, s)
      modifies `freelist, `next, `list, `free, `tabs, `used
      ensures Valid() && Total() == old(Total()) && used == Others(old(used), s)
      ensures SameElse(old(tabs), old(used), tabs, used, s)
    {
      hide Owned, Pte, Pde, Runs, Distinct, FrameSet, Others, Cleared, SameElse, NoPages;
      var r := Deallocuvm(s, KERNBASE, 0);
      ClearedAll(old(tabs), old(used), tabs, used, s);
      OthersSame(old(tabs), old(used), tabs, used, s);
      FreeSpace(s);
    }

    /** A zeroed page directory, or 0 (vm.c:124-126). */
    method NewDir() returns (d: nat)
      requires Valid()
      modifies `freelist, `list, `free, `tabs, `used
      ensures Valid() && Total() == old(Total())
      ensures d == 0 ==> used == old(used) && tabs == old(tabs) && old(free) == {}
      ensures d != 0 ==> TableSet(tabs, d) == {} && Count(old(free)) == Count(free) + 1
      ensures d != 0 ==> d !in old(used) && used == old(used)[d := Dir] && Others(used, d) == old(used)
      ensures d != 0 ==> free <= old(free) && forall u: nat :: Pte(tabs, d, u) == 0
      ensures SameMaps(old(tabs), old(used), tabs, used)
    {
      hide Owned, Pte, Pde, Runs, Distinct, FrameSet, TableSet, Count;
      d := Kalloc();
      if d != 0 {
        NewDirOwned(tabs, used, d);
        NewDirSet(tabs, d);
        CountLess(old(free), d);
        tabs := tabs[d := ZeroTable()];
        used := used[d := Dir];
      }
    }

    /** One row of the kernel map, which continues what is built up to page k. */
    method MapKernel(d: nat, va: Word, size: Word, pa: Word, perm: nat, ghost data: nat, ghost k: nat) returns (r: int)
      requires Valid() && IsDir(used, d) && perm < 0x1000 && size > 0 && va + size <= 0x1_0000_0000 && va >= KERNBASE
      requires va % PGSIZE == 0 && size % PGSIZE == 0 && pa % PGSIZE == 0 && pa + size <= 0x1_0000_0000
      requires BuiltTo(tabs, d, data, k) && KernelRow(data, k, va / PGSIZE, size / PGSIZE, pa / PGSIZE, perm)
      requires TableSet(tabs, d) + Span(va / PGSIZE, size / PGSIZE) <= KernelTables()
      modifies `freelist, `list, `free, `tabs, `used
      ensures Valid() && IsDir(used, d) && Total() == old(Total()) && Others(used, d) == old(Others(used, d))
      ensures (r == 0 && BuiltTo(tabs, d, data, (va + size) / PGSIZE)) || r == -1
      ensures free <= old(free) && Stock(free, tabs, d) == old(Stock(free, tabs, d))
      ensures r == 0 ==> TableSet(tabs, d) == old(TableSet(tabs, d)) + Span(va / PGSIZE, size / PGSIZE)
      ensures r == -1 ==> free == {} && TableSet(tabs, d) < KernelTables()
      ensures SameElse(old(tabs), old(used), tabs, used, d)
    {
      hide Owned, Pte, Pde, Entry, Runs, Distinct, FrameSet, Others, Maps, SameElse, KernelPte, TableSet, Span, Stock;
      assert PageCount(va, size) == size / PGSIZE && (va + size) / PGSIZE == va / PGSIZE + size / PGSIZE;
      var ok, r', done := Mappages(d, va, size, pa, perm, false);
      assert ok;
      r := r';
      MapsElse(old(tabs), old(used), tabs, used, d, va / PGSIZE, done, pa / PGSIZE, perm);
      if r == 0 {
        BuiltRow(old(tabs), old(used), tabs, used, d, data, k, va / PGSIZE, done, pa / PGSIZE, perm);
      } else {
        SpanMore(va / PGSIZE, done, size / PGSIZE);
        assert (va / PGSIZE + done) / NPT in KernelTables();
      }
    }

    /** setupkvm: a space with exactly the kernel's map, or 0 and every frame back on the free list. The frame of the
        kernel's data is where its read-only part ends. */
    method Setupkvm(data: nat) returns (d: nat)
      requires Valid() && EXTMEM_PAGES < data < PHYSTOP_PAGES
      modifies `freelist, `next, `list, `free, `tabs, `used
      ensures Valid() && Total() == old(Total())
      ensures d == 0 <==> Count(old(free)) < KERNEL_FRAMES
      ensures d == 0 ==> used == old(used)
      ensures d != 0 ==> d !in old(used) && IsDir(used, d) && Others(used, d) == old(used)
      ensures d != 0 ==> KernelMap(tabs, d, data) && free <= old(free)
      ensures d != 0 ==> TableSet(tabs, d) == KernelTables() && Count(old(free)) == Count(free) + KERNEL_FRAMES
      ensures SameMaps(old(tabs), old(used), tabs, used)
    {
      hide Owned, Pte, Pde, Entry, Runs, Distinct, FrameSet, Others, SameElse, SameMaps, TableSet, KernelTables,
           Stock, Count;
      KernelTablesCount();
      CountNone();
      d := NewDir();
      if d == 0 {
        return;
      }
      ghost var tabs0, used0 := tabs, used;
      StockIs(free, tabs, d);
      var r := BuildKernel(d, data);
      StockIs(free, tabs, d);
      if r < 0 {
        FewerTables(TableSet(tabs, d));
        ghost var tabs1, used1 := tabs, used;
        Freevm(d);
        ElseTwice(tabs0, used0, tabs1, used1, tabs, used, d);
        NewThenElse(old(tabs), old(used), tabs0, used0, tabs, used, d);
        return 0;
      }
      NewThenElse(old(tabs), old(used), tabs0, used0, tabs, used, d);
    }

    /** The rows of the kernel map, in order (vm.c:129-131). */
    method BuildKernel(d: nat, data: nat) returns (r: int)
      requires Valid() && IsDir(used, d) && EXTMEM_PAGES < data < PHYSTOP_PAGES && forall u: nat :: Pte(tabs, d, u) == 0
      requires TableSet(tabs, d) == {}
      modifies `freelist, `list, `free, `tabs, `used
      ensures Valid() && IsDir(used, d) && Total() == old(Total()) && Others(used, d) == old(Others(used, d))
      ensures (r == 0 && KernelMap(tabs, d, data)) || r == -1
      ensures free <= old(free) && Stock(free, tabs, d) == old(Stock(free, tabs, d))
      ensures r == 0 ==> TableSet(tabs, d) == KernelTables()
      ensures r == -1 ==> free == {} && TableSet(tabs, d) < KernelTables()
      ensures SameElse(old(tabs), old(used), tabs, used, d)
    {
      hide Owned, Pte, Pde, Entry, Runs, Distinct, FrameSet, Others, SameElse, BuiltTo, KernelRow, TableSet, Span,
           KernelTables, KernelUpTo, Stock;
      ghost var tabs0, used0 := tabs, used;
      BuiltNone(tabs, d, data);
      KernelSpans(data);
      KernelRows(data);
      r := MapKernel(d, KERNBASE, 0x10_0000, 0, 2, data, USER_PAGES);
      if r < 0 {
        return;
      }
      ghost var tabs1, used1 := tabs, used;
      r := MapKernel(d, KERNBASE + 0x10_0000, data * PGSIZE - 0x10_0000, 0x10_0000, 0, data, 0x8_0100);
      ElseTwice(tabs0, used0, tabs1, used1, tabs, used, d);
      if r < 0 {
        return;
      }
      tabs1, used1 := tabs, used;
      r := MapKernel(d, KERNBASE + data * PGSIZE, (PHYSTOP_PAGES - data) * PGSIZE, data * PGSIZE, 2, data, USER_PAGES + data);
      ElseTwice(tabs0, used0, tabs1, used1, tabs, used, d);
      if r < 0 {
        return;
      }
      tabs1, used1 := tabs, used;
      r := MapKernel(d, 0xFE00_0000, 0x200_0000, 0xFE00_0000, 2, data, 0x8_E000);
      ElseTwice(tabs0, used0, tabs1, used1, tabs, used, d);
      if r == 0 {
        BuiltAll(tabs, d, data);
      }
    }

    /** A frame from kalloc, filled. */
    method TakeFrame(content: PageBytes) returns (mem: nat)
      requires Valid()
      modifies `freelist, `list, `free, `bytes
      ensures Valid()
      ensures mem == 0 ==> old(free) == {} && free == {} && bytes == old(bytes)
      ensures mem != 0 ==> mem in old(free) && free == old(free) - {mem}
      ensures mem != 0 ==> mem !in Total() && Total() + {mem} == old(Total()) && lo <= mem < hi && bytes == old(bytes)[mem := content]
    {
      hide Owned, Runs, Distinct, FrameSet;
      mem := Kalloc();
      if mem != 0 {
        bytes := bytes[mem := content];
      }
    }

    /** kalloc, fill and map one user page (vm.c:234-241, 332-335). r is 0 when it is there, 1 when there was no frame
        for it, 2 when there was none for its table; in the last case the caller still holds `mem`. */
    method AddPage(s: nat, v: nat, content: PageBytes, perm: nat) returns (ok: bool, r: nat, mem: nat)
      requires Valid() && IsDir(used, s) && v < USER_PAGES && perm < 0x1000
      modifies `freelist, `list, `free, `tabs, `used, `bytes
      ensures !ok ==> Present(old(Pte(tabs, s, v)))
      ensures ok ==> Valid() && IsDir(used, s) && Others(used, s) == old(Others(used, s)) && r <= 2 && free <= old(free)
      ensures ok && r == 1 ==> old(free) == {} && tabs == old(tabs) && used == old(used) && free == {} && bytes == old(bytes)
      ensures ok && r != 1 ==> mem in old(free) && mem !in free && lo <= mem < hi && bytes == old(bytes)[mem := content] && !Present(old(Pte(tabs, s, v)))
      ensures ok && r == 2 ==> SameMaps(old(tabs), old(used), tabs, used) && mem !in Total() && Total() + {mem} == old(Total()) && free == {}
      ensures ok && r == 2 ==> tabs == old(tabs) && used == old(used) && !HasTable(tabs, used, s, v)
      ensures ok && r == 0 ==> Maps(old(tabs), old(used), tabs, used, s, v, 1, mem, perm) && Total() == old(Total()) && mem in used
      ensures ok && r == 0 && !old(HasTable(tabs, used, s, v)) ==> old(free) != {mem}
      ensures ok && r == 0 ==> TableSet(tabs, s) == old(TableSet(tabs, s)) + {v / NPT} && Stock(free, tabs, s) + 1 == old(Stock(free, tabs, s))
      ensures ok && r == 1 ==> Count(old(free)) == 0
      ensures ok && r == 2 ==> Count(old(free)) == 1 && v / NPT !in TableSet(tabs, s)
    {
      hide Owned, Pte, Pde, Entry, Runs, Distinct, FrameSet, Others, Maps, SameMaps, TableSet, Stock, Count;
      CountNone();
      mem := TakeFrame(content);
      if mem == 0 {
        return true, 1, 0;
      }
      StockLess(old(free), tabs, s, mem);
      HasTableSet(tabs, used, s, v);
      var there;
      ok, there := MapOne(s, v, mem, perm, true);
      r := if there then 0 else 2;
    }

    /** The failure path of allocuvm (vm.c:237, 243-244): `held` says that frame mem is still to be freed. */
    method AllocFailed(s: nat, oldsz: Word, newsz: Word, held: bool, mem: nat)
      requires Valid() && IsDir(used, s) && oldsz < newsz < KERNBASE && (held ==> mem !in Total() && lo <= mem < hi)
      modifies `freelist, `next, `list, `free, `tabs, `used
      ensures Valid() && IsDir(used, s) && Others(used, s) == old(Others(used, s))
      ensures Total() == old(Total()) + (if held then {mem} else {})
      ensures Cleared(old(tabs), old(used), tabs, used, s, RoundUp(oldsz), RoundUp(newsz))
    {
      hide Owned, Pte, Pde, Runs, Distinct, FrameSet, Others, Cleared;
      var r := Deallocuvm(s, newsz, oldsz);
      if held {
        var ok := Kfree(mem);
      }
    }

    /** allocuvm: refused at KERNBASE; else each page from oldsz to newsz gets a zeroed frame of its own, or memory runs
        out and no page of that range is mapped any more. Panics only if one of them was mapped before. */
    method Allocuvm(s: nat, oldsz: Word, newsz: Word) returns (ok: bool, r: Word)
      requires Valid() && IsDir(used, s)
      modifies `freelist, `next, `list, `free, `tabs, `used, `bytes
      ensures !ok ==> newsz < KERNBASE && exists u: nat :: RoundUp(oldsz) <= u < RoundUp(newsz) && Present(old(Pte(tabs, s, u)))
      ensures ok ==> Valid() && IsDir(used, s) && Total() == old(Total()) && Others(used, s) == old(Others(used, s))
      ensures ok && (newsz >= KERNBASE || newsz < oldsz) ==>
                r == (if newsz >= KERNBASE then 0 else oldsz) && tabs == old(tabs) && used == old(used) && free == old(free) && bytes == old(bytes)
      ensures ok && oldsz <= newsz < KERNBASE && r == newsz ==>
                Grown(old(tabs), old(used), old(free), tabs, used, bytes, s, RoundUp(oldsz), RoundUp(newsz))
      ensures ok && oldsz <= newsz < KERNBASE && r != newsz ==>
                r == 0 && Emptied(old(tabs), old(used), tabs, used, s, RoundUp(oldsz), RoundUp(newsz))
      ensures ok && oldsz <= newsz < KERNBASE ==>
                (r == newsz <==> Count(old(free)) >= GrowFrames(old(TableSet(tabs, s)), RoundUp(oldsz), RoundUp(newsz) - RoundUp(oldsz)))
    {
      hide Owned, Pte, Pde, Entry, Runs, Distinct, FrameSet, Others, Maps, Grown, Cleared, Emptied, SameMaps,
           TableSet, Stock, Span, Count, GrowFrames;
      if newsz >= KERNBASE {
        return true, 0;
      }
      if newsz < oldsz {
        return true, oldsz;
      }
      var a: nat := RoundUp(oldsz) * PGSIZE;
      ghost var first := RoundUp(oldsz);
      GrownNone(tabs, used, free, bytes, s, first);
      SpanStart(TableSet(tabs, s), first);
      while a < newsz
        invariant a % PGSIZE == 0 && first <= a / PGSIZE && (a / PGSIZE <= RoundUp(newsz) || a / PGSIZE == first)
        invariant Valid() && IsDir(used, s) && Total() == old(Total()) && free <= old(free) && Others(used, s) == old(Others(used, s))
        invariant Grown(old(tabs), old(used), old(free), tabs, used, bytes, s, first, a / PGSIZE)
        invariant TableSet(tabs, s) == old(TableSet(tabs, s)) + Span(first, a / PGSIZE - first)
        invariant Stock(free, tabs, s) + (a / PGSIZE - first) == old(Stock(free, tabs, s))
        decreases newsz - a
      {
        GrowStock(old(free), old(tabs), free, tabs, s, first, a / PGSIZE - first, RoundUp(newsz) - first);
        ghost var tabs1, used1, bytes1 := tabs, used, bytes;
        GrownKept(old(tabs), old(used), old(free), tabs, used, bytes, s, first, a / PGSIZE);
        var code, mem;
        ok, code, mem := AddPage(s, a / PGSIZE, ZeroPage(), 6);
        if !ok {
          r := 0;
          return;
        }
        if code != 0 {
          AllocFailed(s, oldsz, newsz, code == 2, mem);
          GrownThenCleared(old(tabs), old(used), old(free), tabs1, used1, bytes1, tabs, used, s, first, a / PGSIZE, RoundUp(newsz));
          r := 0;
          return;
        }
        GrownMore(old(tabs), old(used), old(free), tabs1, used1, bytes1, tabs, used, bytes, s, first, a / PGSIZE, mem);
        SpanStep(old(TableSet(tabs, s)), first, a / PGSIZE - first);
        a := a + PGSIZE;
      }
      GrowStock(old(free), old(tabs), free, tabs, s, first, a / PGSIZE - first, RoundUp(newsz) - first);
      ok, r := true, newsz;
    }

    /** Building a space, growing it and freeing it leaves every frame where it was, whether or not memory ran out on the
        way. When it did not, the space had a fresh page for each page of its size, as tabs1 and bytes1 were then. */
    method Lifetime(data: nat, size: Word) returns (d: nat, r: Word, ghost tabs1: map<nat, Table>, ghost bytes1: map<nat, PageBytes>)
      requires Valid() && EXTMEM_PAGES < data < PHYSTOP_PAGES
      modifies `freelist, `next, `list, `free, `tabs, `used, `bytes
      ensures Valid() && used == old(used) && free == old(free)
      ensures size >= KERNBASE || d == 0 ==> r == 0
      ensures size < KERNBASE ==> (d != 0 && r == size <==> Count(old(free)) >= KERNEL_FRAMES + ImageFrames(RoundUp(size)))
      ensures d != 0 && r == size < KERNBASE ==> forall u: nat | u < RoundUp(size) :: Fresh(tabs1, bytes1, old(free), d, u)
      ensures r == size || r == 0
    {
      hide Owned, Pte, Pde, Runs, Distinct, FrameSet, Others, KernelMap, SameMaps, SameElse, Grown, Emptied, Fresh,
           TableSet, KernelTables, Count, ImageFrames, GrowFrames;
      r, tabs1, bytes1 := 0, tabs, bytes;
      d := Setupkvm(data);
      if d == 0 {
        return;
      }
      ghost var tabs0, used0, free0 := tabs, used, free;
      NoUserPages(tabs, d, data);
      if size < KERNBASE {
        GrowFromKernel(RoundUp(size));
      }
      var ok;
      ok, r := Allocuvm(d, 0, size);
      tabs1, bytes1 := tabs, bytes;
      if r == size < KERNBASE {
        GrownPages(tabs0, used0, free0, tabs, used, bytes, old(free), d, RoundUp(size));
      }
      Freevm(d);
    }

    /** One page of copyuvm (vm.c:326-335, 342-351): page `from` of s copied to a frame of its own at page `to` of d. The
        codes are AddPage's. */
    method CopyPage(s: nat, d: nat, from: nat, to: nat) returns (ok: bool, r: nat, mem: nat)
      requires Valid() && IsDir(used, s) && IsDir(used, d) && s != d && from < USER_PAGES && to < USER_PAGES
      modifies `freelist, `list, `free, `tabs, `used, `bytes
      ensures !ok ==> !Present(old(Pte(tabs, s, from))) || Present(old(Pte(tabs, d, to)))
      ensures ok ==> Valid() && IsDir(used, d) && Others(used, d) == old(Others(used, d)) && r <= 2 && free <= old(free)
      ensures ok ==> SameElse(old(tabs), old(used), tabs, used, d) && BytesKept(old(used), old(bytes), used, bytes)
      ensures ok && r != 2 ==> Total() == old(Total())
      ensures ok && r == 1 ==> old(free) == {}
      ensures ok && r == 2 ==> mem in old(free) && mem !in Total() && lo <= mem < hi && Total() + {mem} == old(Total()) && free == {} && used == old(used)
      ensures ok && r == 2 ==> !old(HasTable(tabs, used, d, to))
      ensures ok && r == 0 ==> Copied(tabs, bytes, old(free), s, d, from, to) && !Present(old(Pte(tabs, d, to)))
      ensures ok && r == 0 ==> mem in old(free) && (!old(HasTable(tabs, used, d, to)) ==> old(free) != {mem})
      ensures ok ==> forall u: nat | u != to || r != 0 :: Pte(tabs, d, u) == old(Pte(tabs, d, u))
      ensures ok && r == 0 ==> TableSet(tabs, d) == old(TableSet(tabs, d)) + {to / NPT} && Stock(free, tabs, d) + 1 == old(Stock(free, tabs, d))
      ensures ok && r == 1 ==> Count(old(free)) == 0
      ensures ok && r == 2 ==> Count(old(free)) == 1 && to / NPT !in old(TableSet(tabs, d))
    {
      hide Owned, Pte, Pde, Entry, Runs, Distinct, FrameSet, Others, Maps, SameMaps, SameElse, Copied, BytesKept,
           TableSet, Stock, Count;
      var there := Walkpgdir(s, from, false);
      if !there {
        NoTableNoPage(tabs, s, from);
        return false, 0, 0;
      }
      PteIs(tabs, used, s, from);
      var pte := tabs[FrameOf(tabs[s][from / NPT])][from % NPT];
      if !Present(pte) {
        return false, 0, 0;
      }
      PageUsed(tabs, used, s, from);
      ok, r, mem := AddPage(d, to, bytes[FrameOf(pte)], FlagsOf(pte));
      if ok {
        assert forall f | f in old(used) :: f in old(Total()) && f !in old(free);
        BytesAdded(old(used), old(bytes), used, bytes, mem);
        if r == 0 {
          MapsElse(old(tabs), old(used), tabs, used, d, to, 1, mem, FlagsOf(pte));
          MapsCopied(old(tabs), old(used), old(bytes), old(free), tabs, used, bytes, s, d, from, to, mem);
        } else {
          StillElse(old(tabs), old(used), tabs, used, d);
        }
      }
    }

    /** The image of copyuvm (vm.c:325-339): every page below sz, or memory runs out and r is false. */
    method CopyImage(s: nat, d: nat, sz: Word) returns (ok: bool, r: bool)
      requires Valid() && IsDir(used, s) && IsDir(used, d) && s != d && sz <= KERNBASE
      requires (forall u: nat | u < USER_PAGES :: !Present(Pte(tabs, d, u))) && TableSet(tabs, d) == KernelTables()
      modifies `freelist, `next, `list, `free, `tabs, `used, `bytes
      ensures !ok ==> exists u: nat :: u < RoundUp(sz) && !Present(old(Pte(tabs, s, u)))
      ensures ok ==> Valid() && IsDir(used, d) && Others(used, d) == old(Others(used, d)) && Total() == old(Total())
      ensures ok ==> SameElse(old(tabs), old(used), tabs, used, d) && BytesKept(old(used), old(bytes), used, bytes)
      ensures ok && r ==> Image(tabs, bytes, old(free), s, d, RoundUp(sz)) && free <= old(free)
      ensures ok ==> (r <==> Count(old(free)) >= ImageFrames(RoundUp(sz)))
      ensures ok && r ==> TableSet(tabs, d) == KernelTables() + Span(0, RoundUp(sz)) && Count(old(free)) == Count(free) + ImageFrames(RoundUp(sz))
    {
      hide Owned, Pte, Pde, Entry, Runs, Distinct, FrameSet, Others, SameElse, Image, BytesKept, Copied, TableSet,
           Stock, Span, KernelTables, Count, ImageFrames;
      ImageNone(tabs, bytes, free, s, d);
      KeptNone(tabs, used, bytes, d);
      SpanNone();
      var i: nat := 0;
      while i < sz
        invariant i % PGSIZE == 0 && i / PGSIZE <= RoundUp(sz)
        invariant Valid() && IsDir(used, d) && IsDir(used, s) && Others(used, d) == old(Others(used, d)) && Total() == old(Total()) && free <= old(free)
        invariant SameElse(old(tabs), old(used), tabs, used, d) && BytesKept(old(used), old(bytes), used, bytes)
        invariant Image(tabs, bytes, old(free), s, d, i / PGSIZE)
        invariant TableSet(tabs, d) == KernelTables() + Span(0, i / PGSIZE) && Stock(free, tabs, d) + i / PGSIZE == old(Stock(free, tabs, d))
      {
        ghost var tabs1, used1, bytes1, free1 := tabs, used, bytes, free;
        ElseAt(old(tabs), old(used), tabs, used, d, s, i / PGSIZE);
        ImageAbsent(tabs, bytes, old(free), s, d, i / PGSIZE);
        var code, mem;
        ok, code, mem := CopyPage(s, d, i / PGSIZE, i / PGSIZE);
        if !ok {
          r := false;
          return;
        }
        ImageStock(old(free), old(tabs), free1, tabs1, d, i / PGSIZE, RoundUp(sz));
        ElseTwice(old(tabs), old(used), tabs1, used1, tabs, used, d);
        KeptTwice(old(used), old(bytes), used1, bytes1, used, bytes);
        if code != 0 {
          if code == 2 {
            ok := Kfree(mem);
          }
          return true, false;
        }
        ElseDir(old(tabs), old(used), tabs, used, d, s);
        ImageMore(tabs1, used1, bytes1, free1, tabs, used, bytes, old(free), s, d, i / PGSIZE);
        SpanNext(i / PGSIZE);
        i := i + PGSIZE;
      }
      ImageStock(old(free), old(tabs), free, tabs, d, i / PGSIZE, RoundUp(sz));
      ok, r := true, true;
    }

    /** The stack page of copyuvm (vm.c:341-352). When there is a frame for the page but none for its table, the page's
        frame is lost: nothing frees it. That happens if and only if one frame was left and the table was missing. */
    method CopyStack(s: nat, d: nat, slindex: nat) returns (ok: bool, r: bool, ghost leak: set<nat>)
      requires Valid() && IsDir(used, s) && IsDir(used, d) && s != d && 2 * slindex <= STACK_PAGE
      modifies `freelist, `list, `free, `tabs, `used, `bytes
      ensures !ok ==> !Present(old(Pte(tabs, s, STACK_PAGE - 2 * slindex))) || Present(old(Pte(tabs, d, STACK_PAGE)))
      ensures ok ==> Valid() && IsDir(used, d) && Others(used, d) == old(Others(used, d))
      ensures ok ==> SameElse(old(tabs), old(used), tabs, used, d) && BytesKept(old(used), old(bytes), used, bytes)
      ensures ok ==> Total() + leak == old(Total()) && leak !! Total() && (leak != {} ==> !r)
      ensures ok ==> (leak != {} <==> Count(old(free)) == 1 && STACK_PAGE / NPT !in old(TableSet(tabs, d)))
      ensures ok ==> (r <==> Count(old(free)) >= (if STACK_PAGE / NPT in old(TableSet(tabs, d)) then 1 else 2))
      ensures ok && r ==> Copied(tabs, bytes, old(free), s, d, STACK_PAGE - 2 * slindex, STACK_PAGE) && !Present(old(Pte(tabs, d, STACK_PAGE)))
      ensures ok && r ==> forall u: nat | u != STACK_PAGE :: Pte(tabs, d, u) == old(Pte(tabs, d, u))
    {
      hide Owned, Pte, Pde, Entry, Runs, Distinct, FrameSet, Others, SameElse, BytesKept, Copied, TableSet, Stock,
           Count;
      var code, mem;
      ok, code, mem := CopyPage(s, d, STACK_PAGE - 2 * slindex, STACK_PAGE);
      r := code == 0;
      leak := if ok && code == 2 then {mem} else {};
      if ok && r {
        StockStack(old(free), old(tabs), free, tabs, d);
      }
    }

    /** The image and the stack page, into an empty space d (vm.c:325-352). */
    method CopyInto(s: nat, d: nat, sz: Word, slindex: nat) returns (ok: bool, done: bool, ghost leak: set<nat>)
      requires Valid() && IsDir(used, s) && IsDir(used, d) && s != d && sz <= KERNBASE && 2 * slindex <= STACK_PAGE
      requires (forall u: nat | u < USER_PAGES :: !Present(Pte(tabs, d, u))) && TableSet(tabs, d) == KernelTables()
      modifies `freelist, `next, `list, `free, `tabs, `used, `bytes
      ensures !ok ==> Unready(old(tabs), s, sz, slindex)
      ensures ok ==> Valid() && IsDir(used, d) && Others(used, d) == old(Others(used, d))
      ensures ok ==> SameElse(old(tabs), old(used), tabs, used, d) && BytesKept(old(used), old(bytes), used, bytes)
      ensures ok ==> Total() + leak == old(Total()) && leak !! Total() && (leak != {} ==> !done)
      ensures ok && done ==> Forked(tabs, bytes, old(free), s, d, RoundUp(sz), slindex)
      ensures ok ==> (done <==> Count(old(free)) >= ForkFrames(RoundUp(sz)))
      ensures ok ==> (leak != {} <==> Count(old(free)) + 1 == ForkFrames(RoundUp(sz)) && !StackTabled(RoundUp(sz)))
    {
      hide Owned, Pte, Pde, Entry, Runs, Distinct, FrameSet, Others, SameElse, Image, BytesKept, Copied, Forked,
           Unready, TableSet, Span, KernelTables, Count, ImageFrames, StackTabled;
      leak := {};
      ok, done := CopyImage(s, d, sz);
      if !ok {
        UnreadyPage(old(tabs), s, sz, slindex);
        return;
      }
      if !done {
        return;
      }
      ghost var tabs1, used1, bytes1, free1 := tabs, used, bytes, free;
      StackTable(RoundUp(sz));
      ElseDir(old(tabs), old(used), tabs, used, d, s);
      ElseAt(old(tabs), old(used), tabs, used, d, s, STACK_PAGE - 2 * slindex);
      ok, done, leak := CopyStack(s, d, slindex);
      if !ok {
        UnreadyStack(old(tabs), tabs1, bytes1, old(free), s, d, sz, slindex);
        return;
      }
      ElseTwice(old(tabs), old(used), tabs1, used1, tabs, used, d);
      KeptTwice(old(used), old(bytes), used1, bytes1, used, bytes);
      if done {
        ForkedAll(tabs1, used1, bytes1, tabs, used, bytes, old(free), free1, s, d, RoundUp(sz), slindex);
      }
    }

    /** copyuvm: a space whose pages below sz, and one stack page, copy those of s in frames of their own; or 0 with
        every frame back, except for `leak`. It succeeds if and only if there are frames enough, and loses one if and
        only if there is one too few and the stack page needs a table of its own. */
    method Copyuvm(s: nat, sz: Word, slindex: nat, data: nat) returns (ok: bool, d: nat, ghost leak: set<nat>)
      requires Valid() && IsDir(used, s) && sz <= KERNBASE && 2 * slindex <= STACK_PAGE && EXTMEM_PAGES < data < PHYSTOP_PAGES
      modifies `freelist, `next, `list, `free, `tabs, `used, `bytes
      ensures !ok ==> Unready(old(tabs), s, sz, slindex)
      ensures ok ==> Valid() && SameMaps(old(tabs), old(used), tabs, used) && BytesKept(old(used), old(bytes), used, bytes)
      ensures ok ==> Total() + leak == old(Total()) && leak !! Total()
      ensures ok && d != 0 ==> leak == {} && d !in old(used) && IsDir(used, d) && Others(used, d) == old(used)
      ensures ok && d != 0 ==> Forked(tabs, bytes, old(free), s, d, RoundUp(sz), slindex)
      ensures ok && d == 0 ==> used == old(used)
      ensures ok ==> (d != 0 <==> Count(old(free)) >= KERNEL_FRAMES + ForkFrames(RoundUp(sz)))
      ensures ok ==> (leak != {} <==> Count(old(free)) + 1 == KERNEL_FRAMES + ForkFrames(RoundUp(sz)) && !StackTabled(RoundUp(sz)))
    {
      ForkFramesBound(RoundUp(sz));
      hide Owned, Pte, Pde, Runs, Distinct, FrameSet, Others, SameElse, SameMaps, KernelMap, BytesKept, Forked,
           Unready, TableSet, KernelTables, Count, ForkFrames, StackTabled;
      leak := {};
      d := Setupkvm(data);
      if d == 0 {
        KeptNone(tabs, used, bytes, 0);
        return true, 0, {};
      }
      ghost var tabs0, used0, free0 := tabs, used, free;
      FreshSpace(old(tabs), old(used), tabs, used, d, s, data);
      var done;
      ok, done, leak := CopyInto(s, d, sz, slindex);
      if !ok {
        UnreadySame(old(tabs), tabs0, s, sz, slindex);
        return;
      }
      KeptLess(old(used), used0, old(bytes), used, bytes, d);
      if done {
        ForkedFrom(tabs, bytes, free0, old(free), s, d, RoundUp(sz), slindex);
        NewThenElse(old(tabs), old(used), tabs0, used0, tabs, used, d);
      } else {
        ghost var tabs1, used1 := tabs, used;
        Freevm(d);
        ElseTwice(tabs0, used0, tabs1, used1, tabs, used, d);
        NewThenElse(old(tabs), old(used), tabs0, used0, tabs, used, d);
        KeptBack(old(used), old(bytes), used1, bytes);
        d := 0;
      }
    }
  }

  /** Such a run, with 133 frames: a space with one page, its stack, takes 67 of them and leaves one too few for a copy.
      Afterwards a frame is neither free nor in use. */
  method LostFrame() returns (m: Memory, ghost f: nat)
    ensures m.Valid() && 0x400 <= f < 0x400 + 133 && f !in m.free && f !in m.used
  {
    hide Owned, Pte, Pde, Entry, Runs, Distinct, FrameSet, Others, SameMaps, KernelMap, Maps, BytesKept, Forked, Copied,
         TableSet, Stock, Span, KernelTables, Count, ImageFrames;
    m := new Memory(0x400, PHYSTOP_PAGES);
    m.Freerange(0x400 * PGSIZE, (0x400 + 133) * PGSIZE);
    RangeCount(m.free, 0x400, 133);
    var s := m.Setupkvm(EXTMEM_PAGES + 1);
    NoUserPages(m.tabs, s, EXTMEM_PAGES + 1);
    ghost var tabs0, used0, free0 := m.tabs, m.used, m.free;
    var ok, r, mem := m.AddPage(s, STACK_PAGE, ZeroPage(), 6);
    NotKernel(STACK_PAGE / NPT);
    StackAdded(tabs0, used0, free0, m.tabs, m.used, m.free, s, mem);
    var d;
    ghost var leak;
    ok, d, leak := m.Copyuvm(s, 0, 0, EXTMEM_PAGES + 1);
    ForkNothing();
    f :| f in leak;
  }

  lemma {:induction false} RangeCount(free: set<nat>, a: nat, n: nat)
    requires forall f: nat :: f in free <==> a <= f < a + n
    ensures Count(free) == n
  {
    if n == 0 {
      assert free == {};
    } else {
      RangeCount(free - {a + n - 1}, a, n - 1);
    }
  }

  lemma {:induction false} StackAdded(tabs: map<nat, Table>, used: map<nat, Use>, free: set<nat>, tabs': map<nat, Table>, used': map<nat, Use>,
                                      free': set<nat>, s: nat, mem: nat)
    requires mem < NPAGES && Maps(tabs, used, tabs', used', s, STACK_PAGE, 1, mem, 6) && STACK_PAGE / NPT !in TableSet(tabs, s)
    requires TableSet(tabs', s) == TableSet(tabs, s) + {STACK_PAGE / NPT} && Stock(free', tabs', s) + 1 == Stock(free, tabs, s)
    ensures Count(free) == Count(free') + 2 && !Unready(tabs', s, 0, 0)
  {
    hide TableSet, Pte;
  }

  lemma {:induction false} ForkNothing()
    ensures ForkFrames(RoundUp(0)) == 2 && !StackTabled(RoundUp(0))
  {
  }

  /** A page that copyuvm needs is missing, or the image reaches up to the child's stack page. */
  ghost predicate Unready(tabs: map<nat, Table>, s: nat, sz: nat, slindex: nat)
    requires 2 * slindex <= STACK_PAGE
  {
    || (exists u: nat :: u < RoundUp(sz) && !Present(Pte(tabs, s, u)))
    || !Present(Pte(tabs, s, STACK_PAGE - 2 * slindex))
    || STACK_PAGE < RoundUp(sz)
  }

  /** The child's pages: the image, the stack page moved up to the first slot, and no other. */
  ghost predicate Forked(tabs: map<nat, Table>, bytes: map<nat, PageBytes>, free: set<nat>, s: nat, d: nat, n: nat, slindex: nat)
    requires 2 * slindex <= STACK_PAGE
  {
    && (forall u: nat | u < n :: Copied(tabs, bytes, free, s, d, u, u))
    && Copied(tabs, bytes, free, s, d, STACK_PAGE - 2 * slindex, STACK_PAGE)
    && (forall u: nat | n <= u < USER_PAGES && u != STACK_PAGE :: !Present(Pte(tabs, d, u)))
  }

  /** Frames for an image of n pages and its tables. */
  function ImageFrames(n: nat): nat {
    n + TablesFor(n)
  }

  /** The image needs the table that the stack page lies in. */
  predicate StackTabled(n: nat) {
    n > STACK_PAGE / NPT * NPT
  }

  /** Frames that copyuvm takes besides the kernel's. */
  function ForkFrames(n: nat): nat {
    ImageFrames(n) + (if StackTabled(n) then 1 else 2)
  }

  lemma {:induction false} ForkFramesBound(n: nat)
    ensures ForkFrames(n) >= 1 && (!StackTabled(n) ==> ForkFrames(n) >= 2)
  {
  }

  /** Frames for n pages from v on in a space with the tables ts. */
  function GrowFrames(ts: set<nat>, v: nat, n: nat): nat {
    n + Count(Span(v, n) - ts)
  }

  lemma {:induction false} SpanStart(ts: set<nat>, v: nat)
    ensures ts + Span(v, 0) == ts
  {
  }

  lemma {:induction false} SpanStep(ts: set<nat>, v: nat, n: nat)
    ensures ts + Span(v, n) + {(v + n) / NPT} == ts + Span(v, n + 1)
  {
  }

  /** What is left after k pages of n. */
  lemma {:induction false} GrowStock(free: set<nat>, tabs: map<nat, Table>, free': set<nat>, tabs': map<nat, Table>, s: nat, v: nat, k: nat, n: nat)
    requires k <= n && TableSet(tabs', s) == TableSet(tabs, s) + Span(v, k)
    requires Stock(free', tabs', s) + k == Stock(free, tabs, s)
    ensures Count(free) == Count(free') + GrowFrames(TableSet(tabs, s), v, k)
    ensures k < n ==> GrowFrames(TableSet(tabs, s), v, k) + (if (v + k) / NPT in TableSet(tabs', s) then 1 else 2) <= GrowFrames(TableSet(tabs, s), v, n)
  {
    hide TableSet, Span;
    var ts := TableSet(tabs, s);
    assert ts + Span(v, k) == ts + (Span(v, k) - ts);
    if k < n {
      SpanMore(v, k, n);
      GrowMore(ts, Span(v, k), Span(v, n), (v + k) / NPT);
    }
  }

  lemma {:induction false} GrowMore(ts: set<nat>, a: set<nat>, b: set<nat>, i: nat)
    requires a <= b && i in b
    ensures |a - ts| + (if i in ts + a then 0 else 1) <= |b - ts|
  {
    if i in ts + a {
      CardAtMost(a - ts, b - ts);
    } else {
      CardAtMost((a - ts) + {i}, b - ts);
    }
  }

  lemma {:induction false} GrowFromKernel(n: nat)
    requires n <= USER_PAGES
    ensures GrowFrames(KernelTables(), 0, n) == ImageFrames(n)
  {
    hide KernelTables;
    forall i: nat | i in Span(0, n)
      ensures i !in KernelTables()
    {
      SpanHas(0, n, i);
      NotKernel(i);
    }
    hide Span;
    assert Span(0, n) - KernelTables() == Span(0, n);
    SpanSize(0, n);
  }

  lemma {:induction false} SpanNone()
    ensures Span(0, 0) == {} && KernelTables() + Span(0, 0) == KernelTables()
  {
    hide KernelTables;
  }

  lemma {:induction false} SpanNext(n: nat)
    ensures KernelTables() + Span(0, n) + {n / NPT} == KernelTables() + Span(0, n + 1)
  {
    hide KernelTables;
  }

  /** The user's tables and the kernel's are different ones. */
  lemma {:induction false} BothTables(n: nat)
    requires n <= USER_PAGES
    ensures Count(KernelTables() + Span(0, n)) == KERNEL_FRAMES - 1 + TablesFor(n)
  {
    hide KernelTables;
    forall i: nat | i in Span(0, n)
      ensures i !in KernelTables()
    {
      SpanHas(0, n, i);
      NotKernel(i);
    }
    hide Span;
    KernelTablesCount();
    SpanSize(0, n);
  }

  lemma {:induction false} NotKernel(i: nat)
    requires i < USER_PAGES / NPT
    ensures i !in KernelTables()
  {
    hide Span;
    SpanHas(USER_PAGES, PHYSTOP_PAGES, i);
    SpanHas(DEVSPACE_PAGE, NPAGES - DEVSPACE_PAGE, i);
  }

  /** What is left after k pages of an image of n. */
  lemma {:induction false} ImageStock(free: set<nat>, tabs: map<nat, Table>, free': set<nat>, tabs': map<nat, Table>, d: nat, k: nat, n: nat)
    requires k <= n <= USER_PAGES && TableSet(tabs, d) == KernelTables() && TableSet(tabs', d) == KernelTables() + Span(0, k)
    requires Stock(free', tabs', d) + k == Stock(free, tabs, d)
    ensures Count(free) == Count(free') + ImageFrames(k)
    ensures k < n && k / NPT in TableSet(tabs', d) ==> ImageFrames(k) + 1 <= ImageFrames(n)
    ensures k < n && k / NPT !in TableSet(tabs', d) ==> ImageFrames(k) + 2 <= ImageFrames(n)
    ensures k < n ==> ImageFrames(k) + 1 <= ImageFrames(n)
  {
    hide KernelTables, Span, TableSet, Count, TablesFor;
    BothTables(k);
    KernelTablesCount();
    if k < n {
      ImageFramesGrow(k, n);
      SpanHas(0, k, k / NPT);
    }
  }

  lemma {:induction false} ImageFramesGrow(k: nat, n: nat)
    requires k < n
    ensures TablesFor(k) <= TablesFor(n)
    ensures !(k > 0 && k / NPT <= (k - 1) / NPT) ==> TablesFor(k) + 1 <= TablesFor(n)
  {
  }

  lemma {:induction false} StackTable(n: nat)
    requires n <= USER_PAGES
    ensures STACK_PAGE / NPT in KernelTables() + Span(0, n) <==> StackTabled(n)
  {
    hide KernelTables, Span;
    SpanHas(0, n, STACK_PAGE / NPT);
    NotKernel(STACK_PAGE / NPT);
  }

  lemma {:induction false} StockStack(free: set<nat>, tabs: map<nat, Table>, free': set<nat>, tabs': map<nat, Table>, d: nat)
    requires TableSet(tabs', d) == TableSet(tabs, d) + {STACK_PAGE / NPT} && Stock(free', tabs', d) + 1 == Stock(free, tabs, d)
    ensures Count(free) >= if STACK_PAGE / NPT in TableSet(tabs, d) then 1 else 2
  {
    hide TableSet;
    if STACK_PAGE / NPT in TableSet(tabs, d) {
      assert TableSet(tabs', d) == TableSet(tabs, d);
    }
  }

  lemma {:induction false} StockLess(free: set<nat>, tabs: map<nat, Table>, s: nat, f: nat)
    requires f in free
    ensures Stock(free - {f}, tabs, s) + 1 == Stock(free, tabs, s) && Count(free) == Count(free - {f}) + 1
  {
    hide TableSet;
  }

  const STACK_PAGE: nat := 0x7_FFFE   // (STACKBOTTOM - PGSIZE) / PGSIZE

  /** The first n pages of d copy those of s, and d has no other user page. */
  ghost predicate Image(tabs: map<nat, Table>, bytes: map<nat, PageBytes>, free: set<nat>, s: nat, d: nat, n: nat) {
    && (forall u: nat | u < n :: Copied(tabs, bytes, free, s, d, u, u))
    && (forall u: nat | n <= u < USER_PAGES :: !Present(Pte(tabs, d, u)))
  }

  lemma {:induction false} ImageNone(tabs: map<nat, Table>, bytes: map<nat, PageBytes>, free: set<nat>, s: nat, d: nat)
    requires forall u: nat | u < USER_PAGES :: !Present(Pte(tabs, d, u))
    ensures Image(tabs, bytes, free, s, d, 0)
  {
  }

  lemma {:induction false} ImageAbsent(tabs: map<nat, Table>, bytes: map<nat, PageBytes>, free: set<nat>, s: nat, d: nat, n: nat)
    requires Image(tabs, bytes, free, s, d, n) && n < USER_PAGES
    ensures !Present(Pte(tabs, d, n))
  {
    hide Pte, Copied;
  }

  lemma {:induction false} KeptNone(tabs: map<nat, Table>, used: map<nat, Use>, bytes: map<nat, PageBytes>, d: nat)
    ensures SameElse(tabs, used, tabs, used, d) && BytesKept(used, bytes, used, bytes)
  {
  }

  lemma {:induction false} KeptTwice(used: map<nat, Use>, bytes: map<nat, PageBytes>, used1: map<nat, Use>, bytes1: map<nat, PageBytes>,
                                     used2: map<nat, Use>, bytes2: map<nat, PageBytes>)
    requires BytesKept(used, bytes, used1, bytes1) && BytesKept(used1, bytes1, used2, bytes2)
    ensures BytesKept(used, bytes, used2, bytes2)
  {
  }

  lemma {:induction false} ElseDir(tabs: map<nat, Table>, used: map<nat, Use>, tabs': map<nat, Table>, used': map<nat, Use>, d: nat, x: nat)
    requires SameElse(tabs, used, tabs', used', d) && IsDir(used, x) && x != d
    ensures IsDir(used', x)
  {
    hide Pte;
  }

  lemma {:induction false} ElseAt(tabs: map<nat, Table>, used: map<nat, Use>, tabs': map<nat, Table>, used': map<nat, Use>, d: nat, x: nat, u: nat)
    requires SameElse(tabs, used, tabs', used', d) && IsDir(used, x) && x != d
    ensures Pte(tabs', x, u) == Pte(tabs, x, u)
  {
    hide Pte;
  }

  /** A page that was copied stays copied while other pages of d are filled in. */
  lemma {:induction false} CopiedStays(tabs: map<nat, Table>, used: map<nat, Use>, bytes: map<nat, PageBytes>,
                                       tabs': map<nat, Table>, used': map<nat, Use>, bytes': map<nat, PageBytes>,
                                       free: set<nat>, s: nat, d: nat, from: nat, to: nat)
    requires Owned(tabs, used) && IsDir(used, s) && IsDir(used, d) && s != d && from < USER_PAGES && to < USER_PAGES
    requires SameElse(tabs, used, tabs', used', d) && BytesKept(used, bytes, used', bytes') && Pte(tabs', d, to) == Pte(tabs, d, to)
    requires Copied(tabs, bytes, free, s, d, from, to)
    ensures Copied(tabs', bytes', free, s, d, from, to)
  {
    hide Owned, Pte, BytesKept, SameElse;
    PageUsed(tabs, used, s, from);
    PageUsed(tabs, used, d, to);
    ElseAt(tabs, used, tabs', used', d, s, from);
    KeptAt(used, bytes, used', bytes', FrameOf(Pte(tabs, s, from)));
    KeptAt(used, bytes, used', bytes', FrameOf(Pte(tabs, d, to)));
  }

  lemma {:induction false} KeptAt(used: map<nat, Use>, bytes: map<nat, PageBytes>, used': map<nat, Use>, bytes': map<nat, PageBytes>, f: nat)
    requires BytesKept(used, bytes, used', bytes') && f in used && f in bytes
    ensures f in bytes' && bytes'[f] == bytes[f]
  {
  }

  lemma {:induction false} CopiedFrom(tabs: map<nat, Table>, bytes: map<nat, PageBytes>, free: set<nat>, free': set<nat>, s: nat, d: nat, from: nat, to: nat)
    requires Copied(tabs, bytes, free, s, d, from, to) && free <= free'
    ensures Copied(tabs, bytes, free', s, d, from, to)
  {
    hide Pte;
  }

  lemma {:induction false} ImageMore(tabs: map<nat, Table>, used: map<nat, Use>, bytes: map<nat, PageBytes>, free1: set<nat>,
                                     tabs': map<nat, Table>, used': map<nat, Use>, bytes': map<nat, PageBytes>,
                                     free: set<nat>, s: nat, d: nat, n: nat)
    requires Image(tabs, bytes, free, s, d, n) && n < USER_PAGES && free1 <= free && Copied(tabs', bytes', free1, s, d, n, n)
    requires Owned(tabs, used) && IsDir(used, s) && IsDir(used, d) && s != d
    requires SameElse(tabs, used, tabs', used', d) && BytesKept(used, bytes, used', bytes')
    requires forall u: nat | u != n :: Pte(tabs', d, u) == Pte(tabs, d, u)
    ensures Image(tabs', bytes', free, s, d, n + 1)
  {
    hide Owned, Pte, BytesKept, SameElse, Copied;
    CopiedFrom(tabs', bytes', free1, free, s, d, n, n);
    forall u: nat | u < n
      ensures Copied(tabs', bytes', free, s, d, u, u)
    {
      CopiedStays(tabs, used, bytes, tabs', used', bytes', free, s, d, u, u);
    }
  }

  /** Page `to` of d has the flags and bytes of page `from` of s, in a frame out of `free`. */
  predicate Copied(tabs: map<nat, Table>, bytes: map<nat, PageBytes>, free: set<nat>, s: nat, d: nat, from: nat, to: nat) {
    var p, q := Pte(tabs, s, from), Pte(tabs, d, to);
    && Present(p) && Present(q) && FlagsOf(q) == FlagsOf(p) && FrameOf(q) in free
    && FrameOf(p) in bytes && FrameOf(q) in bytes && bytes[FrameOf(q)] == bytes[FrameOf(p)]
  }

  /** The frames in use keep their use and their bytes. */
  ghost predicate BytesKept(used: map<nat, Use>, bytes: map<nat, PageBytes>, used': map<nat, Use>, bytes': map<nat, PageBytes>) {
    forall f | f in used && f in bytes :: f in used' && f in bytes' && bytes'[f] == bytes[f]
  }

  lemma {:induction false} PageUsed(tabs: map<nat, Table>, used: map<nat, Use>, s: nat, v: nat)
    requires Owned(tabs, used) && IsDir(used, s) && v < USER_PAGES && Present(Pte(tabs, s, v))
    ensures FrameOf(Pte(tabs, s, v)) in used && used[FrameOf(Pte(tabs, s, v))] == Page(s, v)
  {
    hide Pte;
  }

  lemma {:induction false} BytesAdded(used: map<nat, Use>, bytes: map<nat, PageBytes>, used': map<nat, Use>, bytes': map<nat, PageBytes>, mem: nat)
    requires forall f | f in used :: f in used'
    requires forall f | f in used && f in bytes :: f in bytes' && bytes'[f] == bytes[f]
    ensures BytesKept(used, bytes, used', bytes')
  {
  }

  lemma {:induction false} StillElse(tabs: map<nat, Table>, used: map<nat, Use>, tabs': map<nat, Table>, used': map<nat, Use>, d: nat)
    requires SameMaps(tabs, used, tabs', used')
    ensures SameElse(tabs, used, tabs', used', d)
  {
    hide Pte;
  }

  lemma {:induction false} MapsCopied(tabs: map<nat, Table>, used: map<nat, Use>, bytes: map<nat, PageBytes>, free: set<nat>,
                                      tabs': map<nat, Table>, used': map<nat, Use>, bytes': map<nat, PageBytes>,
                                      s: nat, d: nat, from: nat, to: nat, mem: nat)
    requires IsDir(used, s) && IsDir(used, d) && s != d && Present(Pte(tabs, s, from)) && mem in free && mem < NPAGES
    requires Maps(tabs, used, tabs', used', d, to, 1, mem, FlagsOf(Pte(tabs, s, from)))
    requires FrameOf(Pte(tabs, s, from)) in bytes && FrameOf(Pte(tabs, s, from)) != mem
    requires bytes' == bytes[mem := bytes[FrameOf(Pte(tabs, s, from))]]
    ensures Copied(tabs', bytes', free, s, d, from, to)
    ensures forall u: nat | u != to :: Pte(tabs', d, u) == Pte(tabs, d, u)
  {
    hide Pte;
  }

  /** Pages first .. last of s each have a frame of their own from `free`, zeroed and writable by the user; nothing else
      has changed in any flat map. */
  ghost predicate Grown(tabs: map<nat, Table>, used: map<nat, Use>, free: set<nat>, tabs': map<nat, Table>, used': map<nat, Use>,
                        bytes': map<nat, PageBytes>, s: nat, first: nat, last: nat)
  {
    && (forall x: nat | IsDir(used, x) :: IsDir(used', x))
    && (forall x: nat, u: nat | IsDir(used, x) && !(x == s && first <= u < last) :: Pte(tabs', x, u) == Pte(tabs, x, u))
    && (forall u: nat | first <= u < last :: Fresh(tabs', bytes', free, s, u))
  }

  /** A user page with flags P, W and U and a zeroed frame out of `free`. */
  predicate Fresh(tabs: map<nat, Table>, bytes: map<nat, PageBytes>, free: set<nat>, s: nat, u: nat) {
    var w := Pte(tabs, s, u);
    Present(w) && FlagsOf(w) == 7 && FrameOf(w) in free && FrameOf(w) in bytes && bytes[FrameOf(w)] == ZeroPage()
  }

  /** Pages first .. last of s are absent; nothing else has changed. If they were absent before, nothing has. */
  ghost predicate Emptied(tabs: map<nat, Table>, used: map<nat, Use>, tabs': map<nat, Table>, used': map<nat, Use>, s: nat, first: nat, last: nat) {
    && (forall x: nat | IsDir(used, x) :: IsDir(used', x))
    && (forall x: nat, u: nat | IsDir(used, x) && !(x == s && first <= u < last) :: Pte(tabs', x, u) == Pte(tabs, x, u))
    && (forall u: nat | first <= u < last :: !Present(Pte(tabs', s, u)))
  }

  /** A failed allocuvm has restored the space's mapping if and only if the range was unmapped before. */
  lemma {:induction false} EmptiedRestores(tabs: map<nat, Table>, used: map<nat, Use>, tabs': map<nat, Table>, used': map<nat, Use>,
                                           s: nat, first: nat, last: nat)
    requires Emptied(tabs, used, tabs', used', s, first, last) && IsDir(used, s)
    ensures (forall u: nat :: Present(Pte(tabs', s, u)) == Present(Pte(tabs, s, u)))
            <==> (forall u: nat | first <= u < last :: !Present(Pte(tabs, s, u)))
  {
    hide Pte;
  }

  lemma {:induction false} GrownNone(tabs: map<nat, Table>, used: map<nat, Use>, free: set<nat>, bytes: map<nat, PageBytes>, s: nat, v: nat)
    ensures Grown(tabs, used, free, tabs, used, bytes, s, v, v)
  {
  }

  lemma {:induction false} GrownKept(tabs: map<nat, Table>, used: map<nat, Use>, free: set<nat>, tabs': map<nat, Table>, used': map<nat, Use>,
                                     bytes': map<nat, PageBytes>, s: nat, first: nat, v: nat)
    requires Grown(tabs, used, free, tabs', used', bytes', s, first, v) && IsDir(used, s)
    ensures Pte(tabs', s, v) == Pte(tabs, s, v)
  {
    hide Pte, Fresh;
  }

  lemma {:induction false} GrownMore(tabs: map<nat, Table>, used: map<nat, Use>, free: set<nat>,
                                     tabs1: map<nat, Table>, used1: map<nat, Use>, bytes1: map<nat, PageBytes>,
                                     tabs2: map<nat, Table>, used2: map<nat, Use>, bytes2: map<nat, PageBytes>, s: nat, first: nat, v: nat, mem: nat)
    requires Grown(tabs, used, free, tabs1, used1, bytes1, s, first, v) && IsDir(used, s) && first <= v < USER_PAGES
    requires Owned(tabs1, used1) && mem !in used1 && mem in free && mem < NPAGES
    requires Maps(tabs1, used1, tabs2, used2, s, v, 1, mem, 6) && bytes2 == bytes1[mem := ZeroPage()]
    ensures Grown(tabs, used, free, tabs2, used2, bytes2, s, first, v + 1)
  {
    hide Pte, Entry, ZeroPage;
    forall u: nat | first <= u < v + 1
      ensures Fresh(tabs2, bytes2, free, s, u)
    {
      if u < v {
        assert Fresh(tabs1, bytes1, free, s, u);
        assert FrameOf(Pte(tabs1, s, u)) in used1;
      }
    }
    hide Owned, Fresh;
  }

  lemma {:induction false} GrownThenCleared(tabs: map<nat, Table>, used: map<nat, Use>, free: set<nat>,
                                            tabs1: map<nat, Table>, used1: map<nat, Use>, bytes1: map<nat, PageBytes>,
                                            tabs2: map<nat, Table>, used2: map<nat, Use>, s: nat, first: nat, v: nat, last: nat)
    requires Grown(tabs, used, free, tabs1, used1, bytes1, s, first, v) && IsDir(used, s) && first <= v <= last
    requires Cleared(tabs1, used1, tabs2, used2, s, first, last)
    ensures Emptied(tabs, used, tabs2, used2, s, first, last)
  {
    hide Pte, Fresh;
  }

  /** Space d has the kernel's map below page k and nothing from there on. */
  ghost predicate BuiltTo(tabs: map<nat, Table>, d: nat, data: nat, k: nat) {
    forall u: nat | u < NPAGES :: Pte(tabs, d, u) == if u < k then KernelPte(data, u) else 0
  }

  /** A row of n pages at v for frames from f on, with nothing between it and page k. */
  ghost predicate KernelRow(data: nat, k: nat, v: nat, n: nat, f: nat, perm: nat) {
    && k <= v && f + n <= NPAGES && perm < 0x1000
    && (forall u: nat | k <= u < v :: KernelPte(data, u) == 0)
    && (forall u: nat | v <= u < v + n :: KernelPte(data, u) == Entry(f + (u - v), perm))
  }

  lemma {:induction false} KernelRows(data: nat)
    requires EXTMEM_PAGES < data < PHYSTOP_PAGES
    ensures KernelRow(data, USER_PAGES, 0x8_0000, 0x100, 0, 2)
    ensures KernelRow(data, 0x8_0100, 0x8_0100, data - 0x100, 0x100, 0)
    ensures KernelRow(data, USER_PAGES + data, USER_PAGES + data, PHYSTOP_PAGES - data, data, 2)
    ensures KernelRow(data, 0x8_E000, 0xF_E000, 0x2000, 0xF_E000, 2)
  {
    hide Entry;
  }

  lemma {:induction false} BuiltNone(tabs: map<nat, Table>, d: nat, data: nat)
    requires forall u: nat :: Pte(tabs, d, u) == 0
    ensures BuiltTo(tabs, d, data, USER_PAGES)
  {
    hide Pte;
  }

  lemma {:induction false} BuiltAll(tabs: map<nat, Table>, d: nat, data: nat)
    requires BuiltTo(tabs, d, data, NPAGES)
    ensures KernelMap(tabs, d, data)
  {
    hide Pte, KernelPte;
  }

  lemma {:induction false} BuiltRow(tabs: map<nat, Table>, used: map<nat, Use>, tabs': map<nat, Table>, used': map<nat, Use>,
                                    d: nat, data: nat, k: nat, v: nat, n: nat, f: nat, perm: nat)
    requires BuiltTo(tabs, d, data, k) && KernelRow(data, k, v, n, f, perm) && IsDir(used, d)
    requires Maps(tabs, used, tabs', used', d, v, n, f, perm)
    ensures BuiltTo(tabs', d, data, v + n)
  {
    hide Pte, KernelPte, Entry;
  }

  lemma {:induction false} MapsElse(tabs: map<nat, Table>, used: map<nat, Use>, tabs': map<nat, Table>, used': map<nat, Use>,
                                    s: nat, v: nat, n: nat, f: nat, perm: nat)
    requires f + n <= NPAGES && perm < 0x1000 && Maps(tabs, used, tabs', used', s, v, n, f, perm)
    ensures SameElse(tabs, used, tabs', used', s)
  {
    hide Pte, Entry;
  }

  lemma {:induction false} SameAt(tabs: map<nat, Table>, used: map<nat, Use>, tabs': map<nat, Table>, used': map<nat, Use>, s: nat, v: nat)
    requires SameMaps(tabs, used, tabs', used') && IsDir(used, s)
    ensures Pte(tabs', s, v) == Pte(tabs, s, v)
  {
    hide Pte;
  }

  lemma {:induction false} SameThenWrote(tabs: map<nat, Table>, used: map<nat, Use>, tabs1: map<nat, Table>, used1: map<nat, Use>,
                                         tabs2: map<nat, Table>, used2: map<nat, Use>, s: nat, v: nat, f: nat, perm: nat)
    requires SameMaps(tabs, used, tabs1, used1) && f < NPAGES && perm < 0x1000 && Wrote(tabs1, used1, tabs2, s, v, Entry(f, perm))
    requires IsDir(used1, s) && forall x: nat | IsDir(used1, x) :: IsDir(used2, x)
    ensures Maps(tabs, used, tabs2, used2, s, v, 1, f, perm)
  {
    hide Pte, Pde, Entry;
  }

  /** Space d has the kernel's map and no user page. */
  ghost predicate KernelMap(tabs: map<nat, Table>, d: nat, data: nat) {
    forall u: nat | u < NPAGES :: Pte(tabs, d, u) == KernelPte(data, u)
  }

  /** All spaces but d keep their flat maps; d may be gone. */
  ghost predicate SameElse(tabs: map<nat, Table>, used: map<nat, Use>, tabs': map<nat, Table>, used': map<nat, Use>, d: nat) {
    && (forall x: nat | IsDir(used, x) && x != d :: IsDir(used', x))
    && (forall x: nat, u: nat | IsDir(used, x) && x != d :: Pte(tabs', x, u) == Pte(tabs, x, u))
  }

  lemma {:induction false} ElseTwice(tabs: map<nat, Table>, used: map<nat, Use>, tabs1: map<nat, Table>, used1: map<nat, Use>,
                                     tabs2: map<nat, Table>, used2: map<nat, Use>, d: nat)
    requires SameElse(tabs, used, tabs1, used1, d) && SameElse(tabs1, used1, tabs2, used2, d)
    ensures SameElse(tabs, used, tabs2, used2, d)
  {
    hide Pte;
  }

  lemma {:induction false} NewThenElse(tabs: map<nat, Table>, used: map<nat, Use>, tabs1: map<nat, Table>, used1: map<nat, Use>,
                                       tabs2: map<nat, Table>, used2: map<nat, Use>, d: nat)
    requires SameMaps(tabs, used, tabs1, used1) && d !in used && SameElse(tabs1, used1, tabs2, used2, d)
    ensures SameMaps(tabs, used, tabs2, used2)
  {
    hide Pte;
  }

  lemma {:induction false} OthersSame(tabs: map<nat, Table>, used: map<nat, Use>, tabs': map<nat, Table>, used': map<nat, Use>, s: nat)
    requires Others(used', s) == Others(used, s)
    requires forall x: nat, u: nat | IsDir(used, x) && x != s :: Pte(tabs', x, u) == Pte(tabs, x, u)
    ensures SameElse(tabs, used, tabs', Others(used', s), s)
  {
    hide Pte;
    forall x: nat | IsDir(used, x) && x != s
      ensures IsDir(Others(used, s), x)
    {
    }
  }

  /** The tables of the kernel's map: physical memory at KERNBASE, and the devices at the top. */
  function KernelTables(): set<nat> {
    Span(USER_PAGES, PHYSTOP_PAGES) + Span(DEVSPACE_PAGE, NPAGES - DEVSPACE_PAGE)
  }

  const KERNEL_FRAMES: nat := 65   // a directory and the kernel's tables

  lemma {:induction false} KernelTablesCount()
    ensures Count(KernelTables()) == KERNEL_FRAMES - 1
  {
    SpanSize(512, PHYSTOP_PAGES);
    SpanSize(1016, NPAGES - DEVSPACE_PAGE);
    forall i: nat | i in Span(USER_PAGES, PHYSTOP_PAGES)
      ensures i !in Span(DEVSPACE_PAGE, NPAGES - DEVSPACE_PAGE)
    {
      SpanHas(USER_PAGES, PHYSTOP_PAGES, i);
      SpanHas(DEVSPACE_PAGE, NPAGES - DEVSPACE_PAGE, i);
    }
    hide Span;
  }

  lemma {:induction false} FewerTables(ts: set<nat>)
    requires ts < KernelTables()
    ensures Count(ts) < KERNEL_FRAMES - 1
  {
    hide KernelTables;
    KernelTablesCount();
    var i :| i in KernelTables() && i !in ts;
    CardAtMost(ts + {i}, KernelTables());
  }

  /** The tables of the first j rows of the kernel map. */
  function KernelUpTo(data: nat, j: nat): set<nat>
    requires EXTMEM_PAGES < data < PHYSTOP_PAGES
  {
    if j == 0 then {}
    else if j == 1 then Span(0x8_0000, 0x100)
    else if j == 2 then Span(0x8_0000, data)
    else if j == 3 then Span(0x8_0000, PHYSTOP_PAGES)
    else KernelTables()
  }

  lemma {:induction false} KernelSpans(data: nat)
    requires EXTMEM_PAGES < data < PHYSTOP_PAGES
    ensures KernelUpTo(data, 0) == {} && KernelUpTo(data, 4) == KernelTables()
    ensures KernelUpTo(data, 0) + Span(0x8_0000, 0x100) == KernelUpTo(data, 1) <= KernelTables()
    ensures KernelUpTo(data, 1) + Span(0x8_0100, data - 0x100) == KernelUpTo(data, 2) <= KernelTables()
    ensures KernelUpTo(data, 2) + Span(0x8_0000 + data, PHYSTOP_PAGES - data) == KernelUpTo(data, 3) <= KernelTables()
    ensures KernelUpTo(data, 3) + Span(0xF_E000, 0x2000) == KernelUpTo(data, 4) <= KernelTables()
  {
    hide Span;
    SpanJoin(0x8_0000, 0x100, data - 0x100);
    SpanJoin(0x8_0000, data, PHYSTOP_PAGES - data);
  }

  lemma {:induction false} CountLess(free: set<nat>, f: nat)
    requires f in free
    ensures Count(free) == Count(free - {f}) + 1
  {
  }

  lemma {:induction false} CountNone()
    ensures Count({}) == 0
  {
  }

  lemma {:induction false} StockIs(free: set<nat>, tabs: map<nat, Table>, d: nat)
    ensures Stock(free, tabs, d) == Count(free) + Count(TableSet(tabs, d))
  {
  }

  lemma {:induction false} NewDirSet(tabs: map<nat, Table>, d: nat)
    ensures TableSet(tabs[d := ZeroTable()], d) == {}
  {
  }

  const EXTMEM_PAGES: nat := 0x100
  const PHYSTOP_PAGES: nat := 0xE000
  const DEVSPACE_PAGE: nat := 0xF_E000

  /** The kernel's map (vm.c:110-115): physical memory from KERNBASE on, read-only up to `data` past the first
      megabyte, and the devices at the top. */
  function KernelPte(data: nat, u: nat): Word {
    if USER_PAGES <= u < USER_PAGES + PHYSTOP_PAGES then
      Entry(u - USER_PAGES, if EXTMEM_PAGES <= u - USER_PAGES < data then 0 else 2)
    else if DEVSPACE_PAGE <= u < NPAGES then Entry(u, 2)
    else 0
  }

  /** The space has no user pages. */
  ghost predicate NoPages(used: map<nat, Use>, s: nat) {
    forall f | f in used && used[f].Page? :: used[f].s != s
  }

  function WithoutTables(used: map<nat, Use>, s: nat, i: nat): map<nat, Use> {
    map f | f in used && !(used[f].Tab? && used[f].s == s && used[f].i < i) :: used[f]
  }

  lemma {:induction false} WithoutNone(used: map<nat, Use>, s: nat)
    ensures WithoutTables(used, s, 0) == used
  {
  }

  lemma {:induction false} WithoutOne(tabs: map<nat, Table>, used: map<nat, Use>, s: nat, i: nat)
    requires Owned(tabs, used) && IsDir(used, s) && s in tabs && i < NPT
    ensures !Present(tabs[s][i]) ==> WithoutTables(used, s, i + 1) == WithoutTables(used, s, i)
    ensures Present(tabs[s][i]) ==> FrameOf(tabs[s][i]) in WithoutTables(used, s, i)
    ensures Present(tabs[s][i]) ==> WithoutTables(used, s, i + 1) == WithoutTables(used, s, i) - {FrameOf(tabs[s][i])}
  {
    hide Pte;
    assert Pde(tabs, s, i) == tabs[s][i];
    forall f | f in used && used[f] == Tab(s, i)
      ensures Present(tabs[s][i]) && f == FrameOf(tabs[s][i])
    {
      assert InPlace(tabs, used, f);
    }
    assert Present(tabs[s][i]) ==> used[FrameOf(tabs[s][i])] == Tab(s, i);
    hide Owned;
  }

  lemma {:induction false} WithoutAll(tabs: map<nat, Table>, used: map<nat, Use>, s: nat)
    requires Owned(tabs, used) && IsDir(used, s) && NoPages(used, s)
    ensures s in WithoutTables(used, s, NPT) && WithoutTables(used, s, NPT) - {s} == Others(used, s)
  {
    hide Pte;
    forall f | f in used && used[f].Tab?
      ensures used[f].i < NPT
    {
      assert InPlace(tabs, used, f);
    }
    hide Owned;
  }

  lemma {:induction false} ClearedAll(tabs: map<nat, Table>, used: map<nat, Use>, tabs': map<nat, Table>, used': map<nat, Use>, s: nat)
    requires Cleared(tabs, used, tabs', used', s, 0, USER_PAGES) && Owned(tabs, used)
    ensures NoPages(used', s) && Others(used', s) == Others(used, s)
    ensures forall x: nat, u: nat | IsDir(used, x) && x != s :: Pte(tabs', x, u) == Pte(tabs, x, u)
  {
    hide Pte;
    forall f | f in used && used[f].Page?
      ensures used[f].v < USER_PAGES
    {
      assert InPlace(tabs, used, f);
    }
    hide Owned;
  }

  const KERNBASE: nat := 0x8000_0000

  /** PGROUNDUP, as a page number. */
  function RoundUp(a: nat): nat {
    (a + PGSIZE - 1) / PGSIZE
  }

  /** The page just before the next table: PGADDR(PDX(a) + 1, 0, 0) - PGSIZE in 32 bits (vm.c:268). */
  function SkipTo(a: nat): nat {
    ((a / 0x40_0000 + 1) * 0x40_0000 - PGSIZE) % 0x1_0000_0000
  }

  /** The skip and the step after it land on the first page of the next table if and only if there is one: in the
      last table of the address space they would wrap to address 0 and start over. */
  lemma {:induction false} SkipForward(a: nat)
    requires a < 0x1_0000_0000 && a % PGSIZE == 0
    ensures SkipTo(a) % PGSIZE == 0 && SkipTo(a) >= a && (SkipTo(a) + PGSIZE) / PGSIZE % NPT == 0
    ensures (SkipTo(a) + PGSIZE) / PGSIZE / NPT == a / PGSIZE / NPT + 1
    ensures (SkipTo(a) + PGSIZE) % 0x1_0000_0000 > a <==> a < 0xFFC0_0000
  {
    var q := a / 0x40_0000;
    assert a / PGSIZE / NPT == q && q < 1024 && SkipTo(a) == q * 0x40_0000 + 0x3F_F000;
    assert a == q * 0x40_0000 + a % 0x40_0000 && a % 0x40_0000 <= 0x3F_F000;
  }

  /** The pages below a, or below the end of the range. */
  function UpTo(a: nat, oldsz: nat): nat {
    if a / PGSIZE < RoundUp(oldsz) then a / PGSIZE else RoundUp(oldsz)
  }

  /** Where the skip leads: past no page of the range that has a table. */
  lemma {:induction false} PlanSkip(a: Word, oldsz: Word)
    requires a % PGSIZE == 0 && a < oldsz <= KERNBASE
    ensures a < SkipTo(a) + PGSIZE < 0x1_0000_0000 && SkipTo(a) % PGSIZE == 0
    ensures a / PGSIZE <= UpTo(SkipTo(a) + PGSIZE, oldsz) <= USER_PAGES
    ensures UpTo(SkipTo(a) + PGSIZE, oldsz) <= (a / PGSIZE / NPT + 1) * NPT
  {
    SkipForward(a);
  }

  lemma {:induction false} PlanStep(a: Word, oldsz: Word)
    requires a % PGSIZE == 0 && a < oldsz <= KERNBASE
    ensures a / PGSIZE < USER_PAGES && a + PGSIZE < 0x1_0000_0000 && UpTo(a + PGSIZE, oldsz) == a / PGSIZE + 1
  {
  }

  /** The user pages first .. last of s are gone with their frames; nothing else has changed. */
  ghost predicate Cleared(tabs: map<nat, Table>, used: map<nat, Use>, tabs': map<nat, Table>, used': map<nat, Use>,
                          s: nat, first: nat, last: nat)
  {
    && (forall x: nat | IsDir(used, x) :: IsDir(used', x))
    && (forall x: nat, u: nat | IsDir(used, x) && !(x == s && first <= u < last) :: Pte(tabs', x, u) == Pte(tabs, x, u))
    && (forall u: nat | first <= u < last :: !Present(Pte(tabs', s, u)))
    && (forall f :: f in used' <==> f in used && !(used[f].Page? && used[f].s == s && first <= used[f].v < last))
    && (forall f | f in used' && f in used :: used'[f] == used[f])
  }

  lemma {:induction false} ClearedNone(tabs: map<nat, Table>, used: map<nat, Use>, s: nat, v: nat)
    ensures Cleared(tabs, used, tabs, used, s, v, v)
  {
  }

  lemma {:induction false} ClearedOthers(tabs: map<nat, Table>, used: map<nat, Use>, tabs': map<nat, Table>, used': map<nat, Use>, s: nat, first: nat, last: nat)
    requires Cleared(tabs, used, tabs', used', s, first, last)
    ensures Others(used', s) == Others(used, s)
  {
    hide Pte;
  }

  lemma {:induction false} ClearedTwice(tabs: map<nat, Table>, used: map<nat, Use>, tabs1: map<nat, Table>, used1: map<nat, Use>,
                                        tabs2: map<nat, Table>, used2: map<nat, Use>, s: nat, first: nat, mid: nat, last: nat)
    requires first <= mid <= last && IsDir(used, s)
    requires Cleared(tabs, used, tabs1, used1, s, first, mid) && Cleared(tabs1, used1, tabs2, used2, s, mid, last)
    ensures Cleared(tabs, used, tabs2, used2, s, first, last)
  {
    hide Pte;
  }

  /** Pages that are absent need no clearing. */
  lemma {:induction false} AbsentCleared(tabs: map<nat, Table>, used: map<nat, Use>, tabs': map<nat, Table>, used': map<nat, Use>,
                                         s: nat, first: nat, mid: nat, last: nat)
    requires first <= mid <= last <= USER_PAGES && Cleared(tabs, used, tabs', used', s, first, mid) && Owned(tabs', used')
    requires forall u: nat | mid <= u < last :: !Present(Pte(tabs', s, u))
    ensures Cleared(tabs, used, tabs', used', s, first, last)
  {
    hide Pte;
    forall f | f in used'
      ensures !(used'[f].Page? && used'[f].s == s && mid <= used'[f].v < last)
    {
      assert InPlace(tabs', used', f);
    }
    hide Owned;
  }

  lemma {:induction false} DropCleared(tabs: map<nat, Table>, used: map<nat, Use>, s: nat, v: nat)
    requires Owned(tabs, used) && HasTable(tabs, used, s, v) && v < USER_PAGES && Present(Pte(tabs, s, v))
    ensures Cleared(tabs, used, WithPte(tabs, s, v, 0), used - {FrameOf(Pte(tabs, s, v))}, s, v, v + 1)
  {
    hide Pte, Pde, WithPte;
    WithPteWrote(tabs, used, s, v, 0);
    var f := FrameOf(Pte(tabs, s, v));
    assert used[f] == Page(s, v);
    forall g | g in used && used[g] == Page(s, v)
      ensures g == f
    {
      assert InPlace(tabs, used, g);
    }
    hide Owned;
  }

  lemma {:induction false} NoTable(tabs: map<nat, Table>, s: nat, v: nat, last: nat)
    requires !Present(Pde(tabs, s, v / NPT)) && last <= (v / NPT + 1) * NPT
    ensures forall u: nat | v <= u < last :: !Present(Pte(tabs, s, u))
  {
    forall u: nat | v <= u < last
      ensures !Present(Pte(tabs, s, u))
    {
      assert u / NPT == v / NPT;
      NoTableNoPage(tabs, s, u);
    }
  }

  /** The pages that [va, va + size) touches. */
  function PageCount(va: nat, size: nat): nat
    requires size > 0
  {
    (va + size - 1) / PGSIZE - va / PGSIZE + 1
  }

  lemma {:induction false} MapsNone(tabs: map<nat, Table>, used: map<nat, Use>, s: nat, v: nat, f: nat, perm: nat)
    requires f <= NPAGES && perm < 0x1000
    ensures Maps(tabs, used, tabs, used, s, v, 0, f, perm)
  {
  }

  lemma {:induction false} MapsKept(tabs: map<nat, Table>, used: map<nat, Use>, tabs': map<nat, Table>, used': map<nat, Use>,
                                    s: nat, v: nat, n: nat, f: nat, perm: nat, u: nat)
    requires f + n <= NPAGES && perm < 0x1000 && Maps(tabs, used, tabs', used', s, v, n, f, perm) && IsDir(used, s)
    ensures IsDir(used', s) && (!(v <= u < v + n) ==> Pte(tabs', s, u) == Pte(tabs, s, u))
  {
    hide Pte;
  }

  lemma {:induction false} MapsMore(tabs: map<nat, Table>, used: map<nat, Use>, tabs1: map<nat, Table>, used1: map<nat, Use>,
                                    tabs2: map<nat, Table>, used2: map<nat, Use>, s: nat, v: nat, n: nat, f: nat, perm: nat)
    requires f + n + 1 <= NPAGES && perm < 0x1000 && IsDir(used, s)
    requires Maps(tabs, used, tabs1, used1, s, v, n, f, perm) && Maps(tabs1, used1, tabs2, used2, s, v + n, 1, f + n, perm)
    ensures Maps(tabs, used, tabs2, used2, s, v, n + 1, f, perm)
  {
    hide Pte, Entry;
  }

  lemma {:induction false} MapsThenSame(tabs: map<nat, Table>, used: map<nat, Use>, tabs1: map<nat, Table>, used1: map<nat, Use>,
                                        tabs2: map<nat, Table>, used2: map<nat, Use>, s: nat, v: nat, n: nat, f: nat, perm: nat)
    requires f + n <= NPAGES && perm < 0x1000 && IsDir(used, s)
    requires Maps(tabs, used, tabs1, used1, s, v, n, f, perm) && SameMaps(tabs1, used1, tabs2, used2)
    ensures Maps(tabs, used, tabs2, used2, s, v, n, f, perm)
  {
    hide Pte, Entry;
  }

  /** The spaces of `used` keep their flat maps. */
  ghost predicate SameMaps(tabs: map<nat, Table>, used: map<nat, Use>, tabs': map<nat, Table>, used': map<nat, Use>) {
    && (forall x: nat | IsDir(used, x) :: IsDir(used', x))
    && (forall x: nat, u: nat | IsDir(used, x) :: Pte(tabs', x, u) == Pte(tabs, x, u))
  }

  /** Pages v .. v + n of space s now lead to frames f .. f + n, and nothing else has changed in any flat map. */
  ghost predicate Maps(tabs: map<nat, Table>, used: map<nat, Use>, tabs': map<nat, Table>, used': map<nat, Use>,
                       s: nat, v: nat, n: nat, f: nat, perm: nat)
    requires f + n <= NPAGES && perm < 0x1000
  {
    && (forall x: nat | IsDir(used, x) :: IsDir(used', x))
    && (forall x: nat, u: nat | IsDir(used, x) && !(x == s && v <= u < v + n) :: Pte(tabs', x, u) == Pte(tabs, x, u))
    && (forall u: nat | v <= u < v + n :: Pte(tabs', s, u) == Entry(f + (u - v), perm))
  }

  lemma {:induction false} PteIs(tabs: map<nat, Table>, used: map<nat, Use>, s: nat, v: nat)
    requires Owned(tabs, used) && HasTable(tabs, used, s, v)
    ensures s in tabs && FrameOf(tabs[s][v / NPT]) in tabs && FrameOf(tabs[s][v / NPT]) == FrameOf(Pde(tabs, s, v / NPT))
    ensures Pte(tabs, s, v) == tabs[FrameOf(tabs[s][v / NPT])][v % NPT]
    ensures forall w: Word :: WithPte(tabs, s, v, w) == tabs[FrameOf(tabs[s][v / NPT]) := tabs[FrameOf(tabs[s][v / NPT])][v % NPT := w]]
  {
    hide Owned;
    TableOf(tabs, used, s, v / NPT);
  }

  lemma {:induction false} NoTableNoPage(tabs: map<nat, Table>, s: nat, v: nat)
    requires !Present(Pde(tabs, s, v / NPT))
    ensures Pte(tabs, s, v) == 0
  {
  }

  lemma {:induction false} DirThere(tabs: map<nat, Table>, used: map<nat, Use>, s: nat)
    requires Owned(tabs, used) && IsDir(used, s)
    ensures s in tabs
  {
    assert InPlace(tabs, used, s);
  }

  lemma {:induction false} WithTableSame(tabs: map<nat, Table>, used: map<nat, Use>, s: nat, i: nat, f: nat)
    requires Owned(tabs, used) && MayAddTable(tabs, used, s, i, f)
    ensures SameMaps(tabs, used, WithTable(tabs, s, i, f), used[f := Tab(s, i)])
    ensures Present(Pde(WithTable(tabs, s, i, f), s, i))
  {
    hide Owned, WithTable, Pte, Entry;
    WithTablePde(tabs, used, s, i, f, s, i);
    forall x: nat, u: nat | IsDir(used, x)
      ensures Pte(WithTable(tabs, s, i, f), x, u) == Pte(tabs, x, u)
    {
      WithTablePte(tabs, used, s, i, f, x, u);
    }
  }

  // ----- Fork -----

  lemma {:induction false} FreshSpace(tabs: map<nat, Table>, used: map<nat, Use>, tabs': map<nat, Table>, used': map<nat, Use>, d: nat, s: nat, data: nat)
    requires SameMaps(tabs, used, tabs', used') && KernelMap(tabs', d, data) && IsDir(used, s) && d !in used
    ensures IsDir(used', s) && (forall u: nat | u < USER_PAGES :: !Present(Pte(tabs', d, u)))
    ensures forall u: nat :: Pte(tabs', s, u) == Pte(tabs, s, u)
  {
    hide Pte;
    forall u: nat | u < USER_PAGES
      ensures Pte(tabs', d, u) == 0
    {
      assert KernelPte(data, u) == 0;
    }
  }

  lemma {:induction false} GrownPages(tabs: map<nat, Table>, used: map<nat, Use>, free: set<nat>, tabs': map<nat, Table>, used': map<nat, Use>,
                                      bytes': map<nat, PageBytes>, free': set<nat>, d: nat, n: nat)
    requires Grown(tabs, used, free, tabs', used', bytes', d, 0, n) && free <= free'
    ensures forall u: nat | u < n :: Fresh(tabs', bytes', free', d, u)
  {
    hide Pte;
    forall u: nat | u < n ensures Fresh(tabs', bytes', free', d, u) {
      assert Fresh(tabs', bytes', free, d, u);
    }
  }

  lemma {:induction false} NoUserPages(tabs: map<nat, Table>, d: nat, data: nat)
    requires KernelMap(tabs, d, data)
    ensures forall u: nat | u < USER_PAGES :: !Present(Pte(tabs, d, u))
  {
    hide Pte;
    forall u: nat | u < USER_PAGES ensures !Present(Pte(tabs, d, u)) {
      assert KernelPte(data, u) == 0;
    }
  }

  lemma {:induction false} UnreadyPage(tabs: map<nat, Table>, s: nat, sz: nat, slindex: nat)
    requires 2 * slindex <= STACK_PAGE && exists u: nat :: u < RoundUp(sz) && !Present(Pte(tabs, s, u))
    ensures Unready(tabs, s, sz, slindex)
  {
    hide Pte;
  }

  lemma {:induction false} UnreadySame(tabs: map<nat, Table>, tabs': map<nat, Table>, s: nat, sz: nat, slindex: nat)
    requires 2 * slindex <= STACK_PAGE && Unready(tabs', s, sz, slindex)
    requires forall u: nat :: Pte(tabs', s, u) == Pte(tabs, s, u)
    ensures Unready(tabs, s, sz, slindex)
  {
    hide Pte;
    if u: nat :| u < RoundUp(sz) && !Present(Pte(tabs', s, u)) {
      assert !Present(Pte(tabs, s, u));
    }
  }

  /** The parent's frames keep their bytes through what happens to a larger set of frames. */
  lemma {:induction false} KeptLess(used: map<nat, Use>, used0: map<nat, Use>, bytes: map<nat, PageBytes>,
                                    used': map<nat, Use>, bytes': map<nat, PageBytes>, d: nat)
    requires Others(used0, d) == used && BytesKept(used0, bytes, used', bytes')
    ensures BytesKept(used, bytes, used', bytes')
  {
    assert forall f | f in used :: f in used0;
    hide Others;
  }

  lemma {:induction false} KeptBack(used: map<nat, Use>, bytes: map<nat, PageBytes>, used': map<nat, Use>, bytes': map<nat, PageBytes>)
    requires BytesKept(used, bytes, used', bytes')
    ensures BytesKept(used, bytes, used, bytes')
  {
  }

  lemma {:induction false} ForkedFrom(tabs: map<nat, Table>, bytes: map<nat, PageBytes>, free: set<nat>, free': set<nat>, s: nat, d: nat, n: nat, slindex: nat)
    requires 2 * slindex <= STACK_PAGE && Forked(tabs, bytes, free, s, d, n, slindex) && free <= free'
    ensures Forked(tabs, bytes, free', s, d, n, slindex)
  {
    hide Pte, Copied;
    CopiedFrom(tabs, bytes, free, free', s, d, STACK_PAGE - 2 * slindex, STACK_PAGE);
    forall u: nat | u < n
      ensures Copied(tabs, bytes, free', s, d, u, u)
    {
      CopiedFrom(tabs, bytes, free, free', s, d, u, u);
    }
  }

  lemma {:induction false} UnreadyStack(tabs: map<nat, Table>, tabs': map<nat, Table>, bytes': map<nat, PageBytes>, free: set<nat>,
                                        s: nat, d: nat, sz: nat, slindex: nat)
    requires 2 * slindex <= STACK_PAGE && Image(tabs', bytes', free, s, d, RoundUp(sz))
    requires Pte(tabs', s, STACK_PAGE - 2 * slindex) == Pte(tabs, s, STACK_PAGE - 2 * slindex)
    requires !Present(Pte(tabs', s, STACK_PAGE - 2 * slindex)) || Present(Pte(tabs', d, STACK_PAGE))
    ensures Unready(tabs, s, sz, slindex)
  {
    hide Pte, Copied;
  }

  lemma {:induction false} ForkedAll(tabs: map<nat, Table>, used: map<nat, Use>, bytes: map<nat, PageBytes>,
                                     tabs': map<nat, Table>, used': map<nat, Use>, bytes': map<nat, PageBytes>,
                                     free: set<nat>, free1: set<nat>, s: nat, d: nat, n: nat, slindex: nat)
    requires Image(tabs, bytes, free, s, d, n) && n <= USER_PAGES && 2 * slindex <= STACK_PAGE && free1 <= free
    requires Owned(tabs, used) && IsDir(used, s) && IsDir(used, d) && s != d
    requires SameElse(tabs, used, tabs', used', d) && BytesKept(used, bytes, used', bytes')
    requires Copied(tabs', bytes', free1, s, d, STACK_PAGE - 2 * slindex, STACK_PAGE)
    requires forall u: nat | u != STACK_PAGE :: Pte(tabs', d, u) == Pte(tabs, d, u)
    requires !Present(Pte(tabs, d, STACK_PAGE))
    ensures Forked(tabs', bytes', free, s, d, n, slindex)
  {
    ImageBelow(tabs, bytes, free, s, d, n);
    hide Owned, Pte, BytesKept, SameElse, Copied;
    CopiedFrom(tabs', bytes', free1, free, s, d, STACK_PAGE - 2 * slindex, STACK_PAGE);
    forall u: nat | u < n
      ensures Copied(tabs', bytes', free, s, d, u, u)
    {
      CopiedStays(tabs, used, bytes, tabs', used', bytes', free, s, d, u, u);
    }
  }

  lemma {:induction false} ImageBelow(tabs: map<nat, Table>, bytes: map<nat, PageBytes>, free: set<nat>, s: nat, d: nat, n: nat)
    requires Image(tabs, bytes, free, s, d, n) && !Present(Pte(tabs, d, STACK_PAGE))
    ensures n <= STACK_PAGE
  {
    hide Pte;
    assert STACK_PAGE < n ==> Copied(tabs, bytes, free, s, d, STACK_PAGE, STACK_PAGE);
  }

  /** The byte at user address a. */
  function UserByte(tabs: map<nat, Table>, bytes: map<nat, PageBytes>, s: nat, a: nat): Byte {
    var f := FrameOf(Pte(tabs, s, a / PGSIZE));
    if f in bytes then bytes[f][a % PGSIZE] else 0
  }

  /** The child's stack pointer (proc.c:313). */
  function ChildEsp(esp: Word, slindex: nat): Word {
    (esp + slindex * 2 * PGSIZE) % 0x1_0000_0000
  }

  /** What fork promises of memory: the image reads the same, with the same flags, at every address below sz, and every byte of the parent
      thread's stack page is found at its address plus the distance by which the stack pointer moves. */
  lemma {:induction false} ForkMemory(tabs: map<nat, Table>, bytes: map<nat, PageBytes>, free: set<nat>, s: nat, d: nat, sz: nat, slindex: nat, a: Word)
    requires 2 * slindex <= STACK_PAGE && Forked(tabs, bytes, free, s, d, RoundUp(sz), slindex)
    ensures a < sz ==> UserByte(tabs, bytes, d, a) == UserByte(tabs, bytes, s, a)
    ensures a < sz ==> FlagsOf(Pte(tabs, d, a / PGSIZE)) == FlagsOf(Pte(tabs, s, a / PGSIZE))
    ensures a / PGSIZE == STACK_PAGE - 2 * slindex ==> UserByte(tabs, bytes, d, ChildEsp(a, slindex)) == UserByte(tabs, bytes, s, a)
    ensures a / PGSIZE == STACK_PAGE - 2 * slindex ==> ChildEsp(a, slindex) / PGSIZE == STACK_PAGE
  {
    hide Pte;
    if a < sz {
      assert Copied(tabs, bytes, free, s, d, a / PGSIZE, a / PGSIZE);
    }
    if a / PGSIZE == STACK_PAGE - 2 * slindex {
      EspMoves(a, slindex);
    }
  }

  lemma {:induction false} EspMoves(a: Word, slindex: nat)
    requires 2 * slindex <= STACK_PAGE && a / PGSIZE == STACK_PAGE - 2 * slindex
    ensures ChildEsp(a, slindex) / PGSIZE == STACK_PAGE && ChildEsp(a, slindex) % PGSIZE == a % PGSIZE
  {
    var b := a + slindex * 2 * PGSIZE;
    assert a == (STACK_PAGE - 2 * slindex) * PGSIZE + a % PGSIZE;
    assert b == STACK_PAGE * PGSIZE + a % PGSIZE;
  }
}
