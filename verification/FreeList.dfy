/** The free list of umalloc.c as a value: the free blocks in address order. Addresses and sizes
    count units of sizeof(Header). */
module FreeLists {

  datatype FreeList = Nil | Blk(a: nat, n: nat, rest: FreeList)

  /** The units of one block. */
  function Span(a: nat, n: nat): set<nat> {
    set x: nat | x < a + n && InSpan(x, a, n)
  }

  predicate InSpan(x: nat, a: nat, n: nat) {
    a <= x < a + n
  }

  function Units(l: FreeList): set<nat> {
    match l
    case Nil => {}
    case Blk(a, n, rest) => Span(a, n) + Units(rest)
  }

  /** Address order past `end`, no empty block, and no two blocks that touch. */
  predicate Coalesced(l: FreeList, end: nat) {
    match l
    case Nil => true
    case Blk(a, n, rest) => end < a && n > 0 && Coalesced(rest, a + n)
  }

  /** The sizes of the blocks by address. */
  function Sizes(l: FreeList): map<nat, nat> {
    match l
    case Nil => map[]
    case Blk(a, n, rest) => Sizes(rest)[a := n]
  }

  lemma {:induction false} UnitsAbove(l: FreeList, end: nat)
    requires Coalesced(l, end)
    ensures forall u | u in Units(l) :: u > end
    ensures forall a | a in Sizes(l) :: a > end && Sizes(l)[a] > 0
  {
    match l
    case Nil =>
    case Blk(a, n, rest) => UnitsAbove(rest, a + n);
  }

  lemma {:induction false} BlockUnits(l: FreeList, a: nat)
    requires a in Sizes(l)
    ensures Span(a, Sizes(l)[a]) <= Units(l)
  {
    if a != l.a {
      BlockUnits(l.rest, a);
    }
  }

  // ----- Freeing a block -----

  /** The last of x and the blocks of l that lies before bp. */
  function Pred(l: FreeList, x: nat, bp: nat): nat {
    match l
    case Nil => x
    case Blk(a, n, rest) => if bp < a then x else Pred(rest, a, bp)
  }

  /** Block bp in front of l, joined with the first block if they touch. */
  function JoinRight(bp: nat, n: nat, l: FreeList): FreeList {
    if l.Blk? && bp + n == l.a then Blk(bp, n + l.n, l.rest) else Blk(bp, n, l)
  }

  /** Block bp in its place after block (a, m), joined with either neighbour it touches. */
  function JoinLeft(a: nat, m: nat, bp: nat, n: nat, l: FreeList): FreeList {
    var r := JoinRight(bp, n, l);
    if a + m == bp then Blk(a, m + r.n, r.rest) else Blk(a, m, r)
  }

  function Insert(l: FreeList, bp: nat, n: nat): FreeList {
    match l
    case Nil => Blk(bp, n, Nil)
    case Blk(a, m, rest) =>
      if bp < a then JoinRight(bp, n, l)
      else if rest.Nil? || bp < rest.a then JoinLeft(a, m, bp, n, rest)
      else Blk(a, m, Insert(rest, bp, n))
  }

  lemma {:induction false} JoinRightUnits(bp: nat, n: nat, l: FreeList, end: nat)
    requires Coalesced(l, end) && end < bp && n > 0 && Span(bp, n) !! Units(l) && (l.Blk? ==> bp < l.a)
    ensures Coalesced(JoinRight(bp, n, l), end) && Units(JoinRight(bp, n, l)) == Units(l) + Span(bp, n)
  {
    if l.Blk? {
      assert l.a in Span(l.a, l.n);
      assert l.a !in Span(bp, n);
      if bp + n == l.a {
        assert Span(bp, n + l.n) == Span(bp, n) + Span(l.a, l.n);
      }
    }
  }

  lemma {:induction false} JoinLeftUnits(a: nat, m: nat, bp: nat, n: nat, l: FreeList, end: nat)
    requires Coalesced(Blk(a, m, l), end) && a < bp && n > 0 && (l.Blk? ==> bp < l.a)
    requires Span(bp, n) !! Units(Blk(a, m, l))
    ensures Coalesced(JoinLeft(a, m, bp, n, l), end)
    ensures Units(JoinLeft(a, m, bp, n, l)) == Units(Blk(a, m, l)) + Span(bp, n)
  {
    assert bp in Span(bp, n) && bp !in Span(a, m);
    var r := JoinRight(bp, n, l);
    if a + m == bp {
      JoinRightUnits(bp, n, l, bp - 1);
      assert Span(a, m + r.n) == Span(a, m) + Span(bp, r.n);
    } else {
      JoinRightUnits(bp, n, l, a + m);
    }
  }

  /** Freeing adds exactly the block's units and leaves the list ordered and fully coalesced. */
  lemma {:induction false} InsertUnits(l: FreeList, bp: nat, n: nat, end: nat)
    requires Coalesced(l, end) && end < bp && n > 0 && Span(bp, n) !! Units(l)
    ensures Coalesced(Insert(l, bp, n), end) && Units(Insert(l, bp, n)) == Units(l) + Span(bp, n)
  {
    match l
    case Nil =>
    case Blk(a, m, rest) =>
      if bp < a {
        JoinRightUnits(bp, n, l, end);
      } else {
        assert a in Span(a, m) && bp in Span(bp, n);
        if rest.Nil? || bp < rest.a {
          JoinLeftUnits(a, m, bp, n, rest, end);
        } else {
          InsertUnits(rest, bp, n, a + m);
        }
      }
  }

  // ----- Allocating from a block -----

  /** Take k units off the end of block a, or the whole block. */
  function Carve(l: FreeList, a: nat, k: nat): FreeList {
    match l
    case Nil => Nil
    case Blk(b, n, rest) =>
      if b != a then Blk(b, n, Carve(rest, a, k))
      else if n <= k then rest else Blk(b, n - k, rest)
  }

  lemma {:induction false} CoalescedEarlier(l: FreeList, end: nat, e: nat)
    requires Coalesced(l, end) && e <= end
    ensures Coalesced(l, e)
  {
  }

  /** Allocation takes exactly the returned units out of the list and keeps its shape. */
  lemma {:induction false} CarveUnits(l: FreeList, a: nat, k: nat, end: nat)
    requires Coalesced(l, end) && a in Sizes(l) && 0 < k <= Sizes(l)[a]
    ensures Coalesced(Carve(l, a, k), end)
    ensures Units(Carve(l, a, k)) == Units(l) - Span(a + Sizes(l)[a] - k, k)
    ensures Span(a + Sizes(l)[a] - k, k) <= Units(l)
  {
    var b, n, rest := l.a, l.n, l.rest;
    UnitsAbove(rest, b + n);
    if b != a {
      CarveUnits(rest, a, k, b + n);
      assert forall u | u in Span(a + Sizes(l)[a] - k, k) :: u in Units(rest);
    } else {
      assert Span(b, n) == Span(b, n - k) + Span(b + n - k, k);
      assert Span(b, n - k) !! Span(b + n - k, k);
      CoalescedEarlier(rest, b + n, b + n - k);
      CoalescedEarlier(rest, b + n, end);
    }
  }
}
