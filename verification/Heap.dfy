/** umalloc.c: the headers in memory, threaded into a circular list through the static `base`, and
    the loops of malloc, free and morecore over them. */
module Heap {
  import opened FreeLists

  /** From x the ptr fields lead through the blocks of l, whose headers hold their sizes, to base. */
  predicate Chain(ptr: map<nat, nat>, size: map<nat, nat>, base: nat, x: nat, l: FreeList)
    decreases l
  {
    && x in ptr && x in size
    && match l
       case Nil => ptr[x] == base
       case Blk(a, n, rest) => ptr[x] == a && a in size && size[a] == n && Chain(ptr, size, base, a, rest)
  }

  /** p is x or a block of l, and `here` is what follows it. */
  predicate At(l: FreeList, x: nat, p: nat, here: FreeList)
    decreases l
  {
    (p == x && here == l) || (l.Blk? && At(l.rest, l.a, p, here))
  }

  lemma {:induction false} ChainFrame(ptr: map<nat, nat>, size: map<nat, nat>, p: map<nat, nat>, z: map<nat, nat>,
                                      base: nat, x: nat, l: FreeList)
    requires Chain(ptr, size, base, x, l)
    requires x in p && x in z && p[x] == ptr[x]
    requires forall a | a in Sizes(l) && a in ptr && a in size :: a in p && a in z && p[a] == ptr[a] && z[a] == size[a]
    ensures Chain(p, z, base, x, l)
    decreases l
  {
    match l
    case Nil =>
    case Blk(a, n, rest) =>
      assert a in Sizes(l);
      ChainFrame(ptr, size, p, z, base, a, rest);
  }

  lemma {:induction false} ChainAt(ptr: map<nat, nat>, size: map<nat, nat>, base: nat, x: nat, l: FreeList,
                                   p: nat, here: FreeList)
    requires Chain(ptr, size, base, x, l) && At(l, x, p, here)
    ensures Chain(ptr, size, base, p, here)
    decreases l
  {
    if !(p == x && here == l) {
      ChainAt(ptr, size, base, l.a, l.rest, p, here);
    }
  }

  lemma {:induction false} AtNext(l: FreeList, x: nat, p: nat, here: FreeList)
    requires At(l, x, p, here) && here.Blk?
    ensures At(l, x, here.a, here.rest)
    decreases l
  {
    if !(p == x && here == l) {
      AtNext(l.rest, l.a, p, here);
    }
  }

  /** What follows a position lies above it, and the position is base or a block with its size. */
  lemma {:induction false} AtOrder(l: FreeList, x: nat, p: nat, here: FreeList, end: nat)
    requires At(l, x, p, here) && Coalesced(l, end) && x <= end
    ensures x <= p && Coalesced(here, p) && (p == x ==> here == l)
    ensures p == x || (p in Sizes(l) && Coalesced(here, p + Sizes(l)[p]))
    decreases l
  {
    if !(p == x && here == l) {
      AtOrder(l.rest, l.a, p, here, l.a + l.n);
      UnitsAbove(l.rest, l.a + l.n);
    } else {
      CoalescedEarlier(l, end, x);
    }
  }

  /** The scan of free stops exactly at the predecessor. */
  lemma {:induction false} AtPred(l: FreeList, x: nat, p: nat, here: FreeList, end: nat, bp: nat)
    requires At(l, x, p, here) && Coalesced(l, end) && x <= end && x < bp
    requires p < bp && (here.Blk? ==> bp < here.a)
    ensures p == Pred(l, x, bp)
    decreases l
  {
    if p == x && here == l {
    } else {
      AtOrder(l.rest, l.a, p, here, l.a + l.n);
      AtPred(l.rest, l.a, p, here, l.a + l.n, bp);
    }
  }

  /** No block lies strictly between a position and the next one. */
  lemma {:induction false} AtGap(l: FreeList, x: nat, p: nat, here: FreeList, end: nat, b: nat)
    requires At(l, x, p, here) && Coalesced(l, end) && x <= end && b in Sizes(l)
    ensures b <= p || (here.Blk? && here.a <= b)
    decreases l
  {
    UnitsAbove(l.rest, l.a + l.n);
    if !(p == x && here == l) {
      AtOrder(l.rest, l.a, p, here, l.a + l.n);
      if b != l.a {
        AtGap(l.rest, l.a, p, here, l.a + l.n, b);
      }
    }
  }

  /** Every block is a position. */
  lemma {:induction false} Locate(l: FreeList, x: nat, b: nat) returns (here: FreeList)
    requires b == x || b in Sizes(l)
    ensures At(l, x, b, here)
    decreases l
  {
    if b == x {
      here := l;
    } else if b == l.a {
      here := l.rest;
    } else {
      here := Locate(l.rest, l.a, b);
    }
  }

  // ----- The pointer updates of free -----

  /** Joining bp with the block after it (umalloc.c:33-37) puts JoinRight's list behind bp. */
  lemma {:induction false} RightChain(ptr: map<nat, nat>, size: map<nat, nat>, base: nat, p: nat, here: FreeList,
                                      bp: nat, n: nat, ptr': map<nat, nat>, size': map<nat, nat>)
    requires Chain(ptr, size, base, p, here) && Coalesced(here, bp) && base < bp && n > 0
    requires if bp + n == ptr[p]
             then ptr[p] in size && ptr[p] in ptr &&
                  ptr' == ptr[bp := ptr[ptr[p]]] && size' == size[bp := n + size[ptr[p]]]
             else ptr' == ptr[bp := ptr[p]] && size' == size[bp := n]
    ensures Chain(ptr', size', base, bp, JoinRight(bp, n, here).rest) && size'[bp] == JoinRight(bp, n, here).n
  {
    UnitsAbove(here, bp);
    if here.Blk? {
      UnitsAbove(here.rest, here.a + here.n);
      ChainFrame(ptr, size, ptr', size', base, here.a, here.rest);
    }
    var r := JoinRight(bp, n, here);
    match r.rest
    case Nil =>
    case Blk(a, m, rest) =>
      assert a in Sizes(here) && a in Sizes(r.rest);
      if here == r.rest {
      } else {
        UnitsAbove(rest, a + m);
        ChainFrame(ptr, size, ptr', size', base, a, rest);
      }
  }

  /** The list that free leaves behind the predecessor. */
  function Behind(left: bool, r: FreeList): FreeList
    requires r.Blk?
  {
    if left then r.rest else r
  }

  /** The blocks before the predecessor are untouched, so the whole chain is Insert's list. */
  lemma {:induction false} InsertChain(ptr: map<nat, nat>, size: map<nat, nat>, base: nat, x: nat, l: FreeList, end: nat,
                                       p: nat, here: FreeList, bp: nat, n: nat, left: bool,
                                       ptr': map<nat, nat>, size': map<nat, nat>)
    requires Chain(ptr, size, base, x, l) && At(l, x, p, here) && Coalesced(l, end) && x <= end
    requires p < bp && (here.Blk? ==> bp < here.a)
    requires forall a | a in ptr && a < p :: a in ptr' && ptr'[a] == ptr[a]
    requires forall a | a in size && a < p :: a in size' && size'[a] == size[a]
    requires Chain(ptr', size', base, p, Behind(left, JoinRight(bp, n, here)))
    requires p in size && left == (p + size[p] == bp) && (p == x ==> !left)
    requires size'[p] == if left then size[p] + JoinRight(bp, n, here).n else size[p]
    ensures Chain(ptr', size', base, x, Insert(l, bp, n))
    decreases l
  {
    AtOrder(l, x, p, here, end);
    if p == x {
      assert Insert(l, bp, n) == JoinRight(bp, n, l);
    } else {
      UnitsAbove(l.rest, l.a + l.n);
      if l.a == p {
        AtOrder(l.rest, l.a, p, here, l.a + l.n);
        assert Insert(l, bp, n) == JoinLeft(l.a, l.n, bp, n, l.rest);
      } else {
        AtOrder(l.rest, l.a, p, here, l.a + l.n);
        AtOrder(l.rest.rest, l.rest.a, p, here, l.rest.a + l.rest.n);
        InsertChain(ptr, size, base, l.a, l.rest, l.a + l.n, p, here, bp, n, left, ptr', size');
      }
    }
  }

  // ----- The pointer updates of malloc -----

  /** Unlinking a block that fits exactly (umalloc.c:77). */
  lemma {:induction false} UnlinkChain(ptr: map<nat, nat>, size: map<nat, nat>, base: nat, x: nat, l: FreeList, end: nat,
                                       p: nat, here: FreeList, ptr': map<nat, nat>)
    requires Chain(ptr, size, base, x, l) && At(l, x, p, here) && Coalesced(l, end) && x <= end && here.Blk?
    requires here.a in ptr && ptr' == ptr[p := ptr[here.a]]
    ensures Chain(ptr', size, base, x, Carve(l, here.a, here.n))
    decreases l
  {
    AtOrder(l, x, p, here, end);
    UnitsAbove(l.rest, l.a + l.n);
    if p == x {
      if here.rest.Blk? {
        UnitsAbove(here.rest.rest, here.rest.a + here.rest.n);
        ChainFrame(ptr, size, ptr', size, base, here.rest.a, here.rest.rest);
      }
    } else {
      UnlinkChain(ptr, size, base, l.a, l.rest, l.a + l.n, p, here, ptr');
      AtOrder(l.rest, l.a, p, here, l.a + l.n);
    }
  }

  /** Shrinking a larger block and writing the header of its tail (umalloc.c:79-81). */
  lemma {:induction false} ShrinkChain(ptr: map<nat, nat>, size: map<nat, nat>, base: nat, x: nat, l: FreeList, end: nat,
                                       a: nat, k: nat, size': map<nat, nat>)
    requires Chain(ptr, size, base, x, l) && Coalesced(l, end) && x <= end
    requires a in Sizes(l) && 0 < k < Sizes(l)[a]
    requires size' == size[a := Sizes(l)[a] - k][a + Sizes(l)[a] - k := k]
    ensures Chain(ptr, size', base, x, Carve(l, a, k))
    decreases l
  {
    UnitsAbove(l.rest, l.a + l.n);
    if a == l.a {
      ChainFrame(ptr, size, ptr, size', base, l.a, l.rest);
    } else {
      ShrinkChain(ptr, size, base, l.a, l.rest, l.a + l.n, a, k, size');
    }
  }

  lemma {:induction false} CarveKeeps(l: FreeList, a: nat, k: nat, b: nat)
    requires b in Sizes(l) && b != a
    ensures b in Sizes(Carve(l, a, k))
  {
    if b != l.a && l.a != a {
      CarveKeeps(l.rest, a, k, b);
    }
  }

  lemma {:induction false} InsertKeeps(l: FreeList, bp: nat, n: nat, x: nat)
    ensures Pred(l, x, bp) == x || Pred(l, x, bp) in Sizes(Insert(l, bp, n))
  {
    match l
    case Nil =>
    case Blk(a, m, rest) => InsertKeeps(rest, bp, n, a);
  }

  /** The block that takes in bp is at least as large as bp. */
  lemma {:induction false} InsertBig(l: FreeList, bp: nat, n: nat, end: nat) returns (b: nat)
    requires Coalesced(Insert(l, bp, n), end)
    ensures b in Sizes(Insert(l, bp, n)) && Sizes(Insert(l, bp, n))[b] >= n
  {
    match l
    case Nil => b := bp;
    case Blk(a, m, rest) =>
      if bp < a {
        b := bp;
      } else if rest.Nil? || bp < rest.a {
        b := if a + m == bp then a else bp;
      } else {
        b := InsertBig(rest, bp, n, a + m);
        UnitsAbove(Insert(rest, bp, n), a + m);
      }
  }

  // ----- Who holds which unit -----

  /** Every live block has a header with its size and holds its own units; every held unit lies in its live block. */
  ghost predicate Held(size: map<nat, nat>, live: map<nat, nat>, holder: map<nat, nat>) {
    && (forall a | a in live :: live[a] > 0 && a in size && size[a] == live[a])
    && (forall a, u: nat | a in live && InSpan(u, a, live[a]) :: u in holder && holder[u] == a)
    && (forall u | u in holder :: holder[u] in live && InSpan(u, holder[u], live[holder[u]]))
  }

  /** Every unit ever obtained is free or held by a live block, never both. */
  ghost predicate Split(base: nat, brk: nat, free: set<nat>, held: set<nat>, owned: set<nat>) {
    owned == free + held && free !! held && forall u | u in owned :: base < u < brk
  }

  function Owner(holder: map<nat, nat>, a: nat, n: nat): map<nat, nat> {
    holder + map u | u in Span(a, n) :: a
  }

  lemma {:induction false} HeldHeader(size: map<nat, nat>, live: map<nat, nat>, holder: map<nat, nat>, a: nat)
    requires Held(size, live, holder) && a in live
    ensures a in holder && Span(a, live[a]) <= holder.Keys
  {
    assert InSpan(a, a, live[a]);
  }

  lemma {:induction false} HeldRelease(size: map<nat, nat>, live: map<nat, nat>, holder: map<nat, nat>, bp: nat,
                                       size': map<nat, nat>)
    requires Held(size, live, holder) && bp in live
    requires forall a | a in live && a != bp :: a in size' && size'[a] == size[a]
    ensures Held(size', live - {bp}, holder - Span(bp, live[bp]))
  {
    var holder' := holder - Span(bp, live[bp]);
    forall a, u: nat | a in live - {bp} && InSpan(u, a, live[a])
      ensures u in holder' && holder'[u] == a
    {
      assert holder[u] == a;
    }
  }

  lemma {:induction false} HeldGrant(size: map<nat, nat>, live: map<nat, nat>, holder: map<nat, nat>, a: nat, k: nat,
                                     size': map<nat, nat>)
    requires Held(size, live, holder) && k > 0 && Span(a, k) !! holder.Keys
    requires a in size' && size'[a] == k
    requires forall b | b in live :: b in size' && size'[b] == size[b]
    ensures a !in live && Held(size', live[a := k], Owner(holder, a, k))
  {
    assert a in Span(a, k);
    if a in live {
      HeldHeader(size, live, holder, a);
      assert false;
    }
    var live', holder' := live[a := k], Owner(holder, a, k);
    forall b, u: nat | b in live' && InSpan(u, b, live'[b])
      ensures u in holder' && holder'[u] == b
    {
      assert b != a ==> u in holder && holder[u] == b;
    }
  }

  /** Live blocks never overlap. */
  lemma {:induction false} LiveDisjoint(size: map<nat, nat>, live: map<nat, nat>, holder: map<nat, nat>, a: nat, b: nat)
    requires Held(size, live, holder) && a in live && b in live && a != b
    ensures Span(a, live[a]) !! Span(b, live[b])
  {
    forall u: nat | InSpan(u, a, live[a])
      ensures !InSpan(u, b, live[b])
    {
      assert holder[u] == a;
    }
  }
}
