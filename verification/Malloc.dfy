/** umalloc.c as an object: the static `base` and `freep`, the headers in memory, and malloc, free
    and morecore. `base` lies below the heap; the break is where sbrk would extend it. */
module Malloc {
  import opened Common
  import opened FreeLists
  import opened Heap
  import opened DiskModel

  const MIN_GROW: nat := 4096
  const NULL: nat := 0

  /** The request in units, with the 32-bit wrap of umalloc.c:69: the data rounded up, plus a header. */
  function NUnits(nbytes: Word): (n: nat)
    ensures 0 < n <= 0x2000_0000
  {
    (nbytes + 7) % 0x1_0000_0000 / 8 + 1
  }

  function GrowUnits(nu: nat): nat {
    if nu < MIN_GROW then MIN_GROW else nu
  }

  /** The byte count handed to sbrk, read as the 32-bit int that sbrk takes. */
  function SbrkArg(nu: nat): int {
    var w := nu * 8 % 0x1_0000_0000;
    if w < 0x8000_0000 then w else w - 0x1_0000_0000
  }

  /** The block holds the request and sbrk is asked for exactly its bytes if and only if the request is at
      most 2^31 - 16 bytes; above that one of the two 32-bit computations wraps. */
  lemma {:induction false} RequestServed(nbytes: Word)
    ensures (8 * (NUnits(nbytes) - 1) >= nbytes && SbrkArg(GrowUnits(NUnits(nbytes))) == 8 * GrowUnits(NUnits(nbytes)))
            <==> nbytes <= 0x7FFF_FFF0
  {
    var n := NUnits(nbytes);
    if nbytes + 7 < 0x1_0000_0000 {
      assert 8 * (n - 1) >= nbytes && (n < 0x1000_0000 <==> nbytes <= 0x7FFF_FFF0);
    } else {
      assert n == 1;
    }
  }

  function Len(l: FreeList): nat {
    match l
    case Nil => 0
    case Blk(_, _, rest) => 1 + Len(rest)
  }

  /** The accounts of the heap: a coalesced free list, live blocks that hold their units, nothing lost. */
  ghost predicate Books(base: nat, brk: nat, size: map<nat, nat>, free: FreeList, live: map<nat, nat>,
                        holder: map<nat, nat>, owned: set<nat>)
  {
    && Coalesced(free, base)
    && Held(size, live, holder)
    && Split(base, brk, Units(free), holder.Keys, owned)
  }

  class Allocator {
    const base: nat
    var ptr: map<nat, nat>
    var size: map<nat, nat>
    var freep: nat
    var brk: nat
    ghost var free: FreeList
    ghost var live: map<nat, nat>
    ghost var holder: map<nat, nat>
    ghost var owned: set<nat>

    ghost predicate Valid()
      reads this
    {
      && NULL < base < brk
      && Coalesced(free, base)
      && Books(base, brk, size, free, live, holder, owned)
      && (freep == NULL ==> free == Nil && live == map[])
      && (freep != NULL ==> Ready())
    }

    /** The list threaded through memory is `free`, from the zero-size base and back, and freep is on it. */
    ghost predicate Ready()
      reads this
    {
      Chain(ptr, size, base, base, free) && size[base] == 0 && (freep == base || freep in Sizes(free))
    }

    constructor (base: nat, brk: nat)
      requires NULL < base < brk
      ensures Valid() && live == map[] && owned == {} && freep == NULL
    {
      this.base, this.brk, freep := base, brk, NULL;
      ptr, size := map[], map[];
      free, live, holder, owned := Nil, map[], map[], {};
    }

    /** The scan of free (umalloc.c:30-32) ends at the block before bp. */
    method FindPred(bp: nat) returns (p: nat, ghost here: FreeList)
      requires Ready() && Coalesced(free, base) && base < bp && bp !in Sizes(free)
      ensures At(free, base, p, here) && p < bp && (here.Blk? ==> bp < here.a)
      ensures p == Pred(free, base, bp) && base <= p
    {
      p := freep;
      here := Locate(free, base, freep);
      ChainAt(ptr, size, base, base, free, p, here);
      AtOrder(free, base, p, here, base);
      while !(bp > p && bp < ptr[p])
        invariant At(free, base, p, here) && Chain(ptr, size, base, p, here)
        invariant base <= p && (p == base || p in Sizes(free)) && Coalesced(here, p)
        decreases p > bp, Len(here)
      {
        if p >= ptr[p] && (bp > p || bp < ptr[p]) {
          break;
        }
        if here.Blk? {
          AtNext(free, base, p, here);
        }
        p, here := ptr[p], if here.Nil? then free else here.rest;
        ChainAt(ptr, size, base, base, free, p, here);
        AtOrder(free, base, p, here, base);
      }
      AtPred(free, base, p, here, base, bp);
    }

    /** bp takes over what follows p, joined with it if they touch (umalloc.c:33-37). */
    method LinkRight(bp: nat, p: nat, ghost here: FreeList)
      requires Chain(ptr, size, base, p, here) && Coalesced(here, bp) && base < bp && p != bp
      requires bp in size && size[bp] > 0
      modifies `ptr, `size
      ensures bp in size && Chain(ptr, size, base, bp, JoinRight(bp, old(size)[bp], here).rest)
      ensures size == old(size)[bp := JoinRight(bp, old(size)[bp], here).n]
      ensures bp in ptr && ptr == old(ptr)[bp := ptr[bp]]
    {
      if bp + size[bp] == ptr[p] {
        size, ptr := size[bp := size[bp] + size[ptr[p]]], ptr[bp := ptr[ptr[p]]];
      } else {
        ptr := ptr[bp := ptr[p]];
      }
      RightChain(old(ptr), old(size), base, p, here, bp, old(size)[bp], ptr, size);
    }

    /** Linking bp in after p and joining what touches (umalloc.c:33-43). */
    method Splice(bp: nat, p: nat, ghost here: FreeList)
      requires Ready() && Coalesced(free, base) && bp in size && size[bp] > 0
      requires At(free, base, p, here) && p < bp && (here.Blk? ==> bp < here.a) && p == Pred(free, base, bp)
      modifies `ptr, `size, `freep
      ensures Chain(ptr, size, base, base, Insert(free, bp, old(size)[bp])) && size[base] == 0
      ensures forall a | a in old(size) && a !in Sizes(free) && a != bp :: a in size && size[a] == old(size)[a]
      ensures freep == p
    {
      hide Insert, At, Pred, Sizes;
      ghost var n := size[bp];
      ghost var r := JoinRight(bp, n, here);
      AtOrder(free, base, p, here, base);
      ChainAt(ptr, size, base, base, free, p, here);
      LinkRight(bp, p, here);
      ghost var ptr1, size1, left := ptr, size, p + size[p] == bp;
      if p + size[p] == bp {
        size, ptr := size[p := size[p] + size[bp]], ptr[p := ptr[bp]];
      } else {
        ptr := ptr[p := bp];
      }
      RelinkChain(ptr1, size1, base, p, bp, r, left, ptr, size);
      InsertChain(old(ptr), old(size), base, base, free, base, p, here, bp, n, left, ptr, size);
      freep := p;
    }

    /** free: exactly the block's units come back, joined with any free neighbour they touch. */
    method Free(bp: nat)
      requires Valid() && bp in live
      modifies this
      ensures Valid() && freep != NULL
      ensures free == Insert(old(free), bp, old(live)[bp]) && freep == Pred(old(free), base, bp)
      ensures Units(free) == old(Units(free)) + Span(bp, old(live)[bp])
      ensures live == old(live) - {bp} && holder == old(holder) - Span(bp, old(live)[bp])
      ensures owned == old(owned) && brk == old(brk)
    {
      ghost var n := live[bp];
      FreeFacts(base, brk, size, free, live, holder, owned, bp);
      var p: nat;
      ghost var here;
      p, here := FindPred(bp);
      Splice(bp, p, here);
      InsertKeeps(free, bp, n, base);
      FreeBooks(base, brk, old(size), free, live, holder, owned, bp, size);
      live, holder := live - {bp}, holder - Span(bp, n);
      free := Insert(free, bp, n);
    }

    /** The header of fresh memory (umalloc.c:57-58). */
    method Grow(hp: nat, nu: nat)
      requires Valid() && freep != NULL && brk <= hp && nu > 0
      modifies this
      ensures Valid() && freep == old(freep) && free == old(free)
      ensures hp !in old(live) && Span(hp, nu) !! old(owned) && Span(hp, nu) !! old(holder).Keys && brk == hp + nu
      ensures live == old(live)[hp := nu] && holder == Owner(old(holder), hp, nu) && owned == old(owned) + Span(hp, nu)
    {
      hide Books, Span, Owner, Coalesced;
      GrowFacts(base, brk, ptr, size, free, live, holder, owned, hp, nu);
      size := size[hp := nu];
      live, holder, owned, brk := live[hp := nu], Owner(holder, hp, nu), owned + Span(hp, nu), hp + nu;
    }

    /** morecore: what sbrk hands over becomes one live block and is freed at once. */
    method Morecore(nunits: nat, got: Option<nat>) returns (p: nat)
      requires Valid() && freep != NULL && (got.Some? ==> brk <= got.value)
      modifies this
      ensures Valid() && freep != NULL && live == old(live) && holder == old(holder)
      ensures got.None? ==> p == NULL && free == old(free) && owned == old(owned) && freep == old(freep)
      ensures got.Some? ==> p == freep && Fits(free, nunits)
      ensures got.Some? ==> owned == old(owned) + Span(got.value, GrowUnits(nunits))
    {
      var nu := GrowUnits(nunits);
      if got.None? {
        return NULL;
      }
      var hp := got.value;
      Grow(hp, nu);
      Free(hp);
      GrantUndone(old(live), old(holder), hp, nu);
      GrownFits(old(free), base, hp, nunits, free);
      p := freep;
    }

    /** Cutting k units off block p, which follows prevp (umalloc.c:76-82). */
    method Cut(prevp: nat, p: nat, k: nat, ghost here: FreeList) returns (a: nat)
      requires Ready() && Coalesced(free, base) && At(free, base, prevp, here)
      requires here.Blk? && p == here.a && 0 < k <= here.n
      modifies `ptr, `size
      ensures p in Sizes(free) && Sizes(free)[p] == here.n && p > base && a == p + here.n - k
      ensures Chain(ptr, size, base, base, Carve(free, p, k)) && size[base] == 0 && a in size && size[a] == k
      ensures forall b | b in old(size) && b != p && b != a :: b in size && size[b] == old(size)[b]
    {
      AtOrder(free, base, prevp, here, base);
      AtSize(free, base, prevp, here, base);
      ChainAt(ptr, size, base, base, free, prevp, here);
      a := p;
      if size[p] == k {
        ptr := ptr[prevp := ptr[p]];
        UnlinkChain(old(ptr), size, base, base, free, base, prevp, here, ptr);
      } else {
        size := size[p := size[p] - k];
        a := p + size[p];
        size := size[a := k];
        ShrinkChain(ptr, old(size), base, base, free, base, p, k, size);
      }
    }

    /** Taking k units from block p, which follows prevp (umalloc.c:76-84). */
    method Take(prevp: nat, p: nat, k: nat, ghost here: FreeList) returns (a: nat)
      requires Valid() && freep != NULL && At(free, base, prevp, here)
      requires here.Blk? && p == here.a && 0 < k <= here.n
      modifies this
      ensures Valid() && freep == prevp && a == p + here.n - k
      ensures free == Carve(old(free), p, k) && Units(free) == old(Units(free)) - Span(a, k)
      ensures a !in old(live) && live == old(live)[a := k] && Span(a, k) <= old(Units(free))
      ensures owned == old(owned) && brk == old(brk)
    {
      hide Books, Carve, Units, Span, Coalesced, Chain;
      AtOrder(free, base, prevp, here, base);
      a := Cut(prevp, p, k, here);
      TakeBooks(base, brk, old(size), free, live, holder, owned, p, k, a, size);
      if prevp != base {
        CarveKeeps(free, p, k, prevp);
      }
      freep := prevp;
      live, holder := live[a := k], Owner(holder, a, k);
      free := Carve(free, p, k);
    }

    /** The first call makes base a list of its own (umalloc.c:70-73). */
    method Start()
      requires Valid()
      modifies `ptr, `size, `freep
      ensures Valid() && freep != NULL
    {
      if freep == NULL {
        freep := base;
        ptr, size := ptr[base := base], size[base := 0];
      }
    }

    /** malloc: a block of fresh or free units for the caller alone, or 0; sbrk is asked at most once, and
        only when no free block is large enough. */
    method Malloc(nbytes: Word, got: Option<nat>) returns (r: nat)
      requires Valid() && (got.Some? ==> brk <= got.value)
      requires got.Some? ==> SbrkArg(GrowUnits(NUnits(nbytes))) == 8 * GrowUnits(NUnits(nbytes))
      modifies this
      ensures Valid()
      ensures r == NULL ==> live == old(live) && free == old(free) && got.None?
      ensures r != NULL ==> r - 1 !in old(live) && live == old(live)[r - 1 := NUnits(nbytes)]
      ensures Fits(old(free), NUnits(nbytes)) ==> r != NULL && owned == old(owned)
      ensures r != NULL && !Fits(old(free), NUnits(nbytes)) ==>
                got.Some? && owned == old(owned) + Span(got.value, GrowUnits(NUnits(nbytes)))
    {
      hide Books, Carve, Sizes, Fits, TooSmall, Passed, Span;
      var nunits := NUnits(nbytes);
      Start();
      var prevp: nat := freep;
      ghost var here := Locate(free, base, freep);
      ghost var grown := false;
      NonePassed(free, freep, nunits);
      ChainAt(ptr, size, base, base, free, prevp, here);
      var p: nat := ptr[prevp];
      while true
        invariant Valid() && freep != NULL && live == old(live)
        invariant At(free, base, prevp, here) && Chain(ptr, size, base, prevp, here) && p == ptr[prevp]
        invariant TooSmall(free, freep, prevp, nunits)
        invariant !grown ==> free == old(free) && owned == old(owned) && brk == old(brk)
        invariant grown ==> got.Some? && owned == old(owned) + Span(got.value, GrowUnits(nunits))
        invariant grown ==> !Fits(old(free), nunits) && Fits(free, nunits)
        decreases !grown, prevp >= freep, Len(here)
      {
        if size[p] >= nunits {
          AtFits(free, base, prevp, here, base, nunits);
          var a := Take(prevp, p, nunits, here);
          return a + 1;
        }
        if p == freep {
          NothingFits(free, base, prevp, here, freep, nunits);
          p := Morecore(nunits, got);
          if p == NULL {
            return NULL;
          }
          grown := true;
          here := Locate(free, base, p);
          NonePassed(free, freep, nunits);
        } else {
          here := Advance(free, base, prevp, here, freep, nunits);
        }
        ChainAt(ptr, size, base, base, free, p, here);
        prevp, p := p, ptr[p];
      }
    }
  }

  /** Some block of the list has at least k units. */
  ghost predicate Fits(l: FreeList, k: nat) {
    exists a :: a in Sizes(l) && Sizes(l)[a] >= k
  }

  /** The scan that started after freep and has come to prevp has passed block a. */
  predicate Passed(a: nat, freep: nat, prevp: nat) {
    if prevp >= freep then freep < a <= prevp else a > freep || a <= prevp
  }

  ghost predicate TooSmall(l: FreeList, freep: nat, prevp: nat, k: nat) {
    forall a | a in Sizes(l) && Passed(a, freep, prevp) :: Sizes(l)[a] < k
  }

  lemma {:induction false} NonePassed(l: FreeList, freep: nat, k: nat)
    ensures TooSmall(l, freep, freep, k)
  {
  }

  function Next(base: nat, here: FreeList): nat {
    if here.Blk? then here.a else base
  }

  lemma {:induction false} AtSize(l: FreeList, x: nat, p: nat, here: FreeList, end: nat)
    requires At(l, x, p, here) && Coalesced(l, end) && x <= end && here.Blk?
    ensures here.a in Sizes(l) && Sizes(l)[here.a] == here.n
    decreases l
  {
    UnitsAbove(l.rest, l.a + l.n);
    if !(p == x && here == l) {
      AtSize(l.rest, l.a, p, here, l.a + l.n);
    }
  }

  lemma {:induction false} AtFits(l: FreeList, base: nat, p: nat, here: FreeList, end: nat, k: nat)
    requires At(l, base, p, here) && Coalesced(l, end) && base <= end && here.Blk? && here.n >= k
    ensures Fits(l, k)
  {
    AtSize(l, base, p, here, end);
  }

  /** Back at freep, the whole list has been passed. */
  lemma {:induction false} NothingFits(l: FreeList, base: nat, prevp: nat, here: FreeList, freep: nat, k: nat)
    requires At(l, base, prevp, here) && Coalesced(l, base) && TooSmall(l, freep, prevp, k)
    requires freep == Next(base, here) && (here.Blk? ==> here.n < k)
    ensures !Fits(l, k)
  {
    AtOrder(l, base, prevp, here, base);
    forall a | a in Sizes(l)
      ensures Sizes(l)[a] < k
    {
      AtGap(l, base, prevp, here, base, a);
      UnitsAbove(l, base);
      if here.Blk? {
        AtSize(l, base, prevp, here, base);
      }
      assert a != freep ==> Passed(a, freep, prevp);
    }
  }

  /** One step of the scan passes exactly the next block. */
  lemma {:induction false} Advance(l: FreeList, base: nat, prevp: nat, here: FreeList, freep: nat, k: nat)
    returns (there: FreeList)
    requires At(l, base, prevp, here) && Coalesced(l, base) && TooSmall(l, freep, prevp, k)
    requires (freep == base || freep in Sizes(l)) && freep != Next(base, here) && (here.Blk? ==> here.n < k)
    ensures At(l, base, Next(base, here), there) && TooSmall(l, freep, Next(base, here), k)
    ensures (prevp >= freep && Next(base, here) < freep) || ((prevp >= freep) == (Next(base, here) >= freep) && Len(there) < Len(here))
  {
    AtOrder(l, base, prevp, here, base);
    UnitsAbove(l, base);
    if here.Blk? {
      AtNext(l, base, prevp, here);
      AtSize(l, base, prevp, here, base);
      there := here.rest;
    } else {
      there := l;
    }
    if freep != base {
      AtGap(l, base, prevp, here, base, freep);
    }
    forall a | a in Sizes(l) && Passed(a, freep, Next(base, here))
      ensures Sizes(l)[a] < k
    {
      AtGap(l, base, prevp, here, base, a);
      assert a != Next(base, here) ==> Passed(a, freep, prevp);
    }
  }

  lemma {:induction false} GrownFits(l: FreeList, base: nat, hp: nat, k: nat, grown: FreeList)
    requires grown == Insert(l, hp, GrowUnits(k)) && Coalesced(grown, base)
    ensures Fits(grown, k)
  {
    var b := InsertBig(l, hp, GrowUnits(k), base);
  }

  lemma {:induction false} SplitTake(base: nat, brk: nat, free: set<nat>, held: set<nat>, owned: set<nat>, taken: set<nat>)
    requires Split(base, brk, free, held, owned) && taken <= free
    ensures Split(base, brk, free - taken, held + taken, owned) && taken !! held
  {
  }

  lemma {:induction false} OwnerKeys(holder: map<nat, nat>, a: nat, n: nat)
    ensures Owner(holder, a, n).Keys == holder.Keys + Span(a, n)
  {
  }

  lemma {:induction false} TakeHeld(free: FreeList, size: map<nat, nat>, live: map<nat, nat>, holder: map<nat, nat>,
                                    p: nat, k: nat, a: nat, size': map<nat, nat>)
    requires Held(size, live, holder) && Units(free) !! holder.Keys && p in Units(free) && k > 0 && Span(a, k) <= Units(free)
    requires a in size' && size'[a] == k
    requires forall b | b in size && b != p && b != a :: b in size' && size'[b] == size[b]
    ensures a !in live && Held(size', live[a := k], Owner(holder, a, k))
  {
    assert InSpan(a, a, k) && a in Span(a, k);
    forall b | b in live
      ensures b != p && b != a && b in size
    {
      HeldHeader(size, live, holder, b);
    }
    hide Units;
    HeldGrant(size, live, holder, a, k, size');
  }

  lemma {:induction false} TakeBooks(base: nat, brk: nat, size: map<nat, nat>, free: FreeList, live: map<nat, nat>,
                                     holder: map<nat, nat>, owned: set<nat>, p: nat, k: nat, a: nat, size': map<nat, nat>)
    requires Books(base, brk, size, free, live, holder, owned)
    requires p in Sizes(free) && 0 < k <= Sizes(free)[p] && a == p + Sizes(free)[p] - k
    requires a in size' && size'[a] == k
    requires forall b | b in size && b != p && b != a :: b in size' && size'[b] == size[b]
    ensures a !in live && Span(a, k) <= Units(free) && Units(Carve(free, p, k)) == Units(free) - Span(a, k)
    ensures Coalesced(Carve(free, p, k), base)
    ensures Books(base, brk, size', Carve(free, p, k), live[a := k], Owner(holder, a, k), owned)
  {
    hide Held, Units, Span, Carve, Sizes;
    CarveUnits(free, p, k, base);
    SplitTake(base, brk, Units(free), holder.Keys, owned, Span(a, k));
    OwnerKeys(holder, a, k);
    SizesWithin(free, p, base);
    TakeHeld(free, size, live, holder, p, k, a, size');
  }

  lemma {:induction false} FreeFacts(base: nat, brk: nat, size: map<nat, nat>, free: FreeList, live: map<nat, nat>,
                                     holder: map<nat, nat>, owned: set<nat>, bp: nat)
    requires Books(base, brk, size, free, live, holder, owned) && bp in live
    ensures base < bp && Coalesced(free, base) && bp in size && size[bp] == live[bp] > 0
    ensures forall a | a in live :: a !in Sizes(free) && a in size
  {
    HeldHeader(size, live, holder, bp);
    forall a | a in live
      ensures a !in Sizes(free)
    {
      HeldHeader(size, live, holder, a);
      if a in Sizes(free) {
        SizesWithin(free, a, base);
        assert false;
      }
    }
  }

  lemma {:induction false} FreeBooks(base: nat, brk: nat, size: map<nat, nat>, free: FreeList, live: map<nat, nat>,
                                     holder: map<nat, nat>, owned: set<nat>, bp: nat, size': map<nat, nat>)
    requires Books(base, brk, size, free, live, holder, owned) && bp in live
    requires forall a | a in live && a != bp :: a in size' && size'[a] == size[a]
    ensures Books(base, brk, size', Insert(free, bp, live[bp]), live - {bp}, holder - Span(bp, live[bp]), owned)
    ensures Units(Insert(free, bp, live[bp])) == Units(free) + Span(bp, live[bp])
  {
    HeldHeader(size, live, holder, bp);
    InsertUnits(free, bp, live[bp], base);
    HeldRelease(size, live, holder, bp, size');
  }

  lemma {:induction false} GrantUndone(live: map<nat, nat>, holder: map<nat, nat>, a: nat, k: nat)
    requires a !in live && Span(a, k) !! holder.Keys
    ensures live[a := k] - {a} == live && Owner(holder, a, k) - Span(a, k) == holder
  {
  }

  lemma {:induction false} SizesWithin(l: FreeList, a: nat, end: nat)
    requires Coalesced(l, end) && a in Sizes(l)
    ensures a in Units(l)
  {
    UnitsAbove(l, end);
    BlockUnits(l, a);
    assert a in Span(a, Sizes(l)[a]);
  }

  lemma {:induction false} GrowFacts(base: nat, brk: nat, ptr: map<nat, nat>, size: map<nat, nat>, free: FreeList,
                                     live: map<nat, nat>, holder: map<nat, nat>, owned: set<nat>, hp: nat, nu: nat)
    requires Books(base, brk, size, free, live, holder, owned)
    requires Chain(ptr, size, base, base, free) && base < brk <= hp && nu > 0
    ensures hp !in live && Span(hp, nu) !! owned && Span(hp, nu) !! holder.Keys
    ensures Books(base, hp + nu, size[hp := nu], free, live[hp := nu], Owner(holder, hp, nu), owned + Span(hp, nu))
    ensures Chain(ptr, size[hp := nu], base, base, free)
  {
    assert Span(hp, nu) !! owned;
    forall a | a in live
      ensures a != hp
    {
      HeldHeader(size, live, holder, a);
    }
    HeldGrant(size, live, holder, hp, nu, size[hp := nu]);
    forall a | a in Sizes(free)
      ensures a != hp
    {
      SizesWithin(free, a, base);
    }
    ChainFrame(ptr, size, ptr, size[hp := nu], base, base, free);
  }

  /** Hanging the joined block behind p (umalloc.c:38-42). */
  lemma {:induction false} RelinkChain(ptr: map<nat, nat>, size: map<nat, nat>, base: nat, p: nat, bp: nat, r: FreeList,
                                       left: bool, ptr': map<nat, nat>, size': map<nat, nat>)
    requires r.Blk? && r.a == bp && p < bp && p in ptr && p in size
    requires Chain(ptr, size, base, bp, r.rest) && size[bp] == r.n && Coalesced(r.rest, bp)
    requires if left then ptr' == ptr[p := ptr[bp]] && size' == size[p := size[p] + size[bp]]
             else ptr' == ptr[p := bp] && size' == size
    ensures Chain(ptr', size', base, p, Behind(left, r))
  {
    UnitsAbove(r.rest, bp);
    ChainFrame(ptr, size, ptr', size', base, bp, r.rest);
  }
}
