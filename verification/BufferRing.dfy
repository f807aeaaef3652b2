/** The doubly linked MRU list of bio.c: buffers 0..NBUF-1 and a sentinel head, threaded through
    prev and next. An Order lists the buffers from most to least recently used. */
module BufferRing {
  import opened DiskModel

  const HEAD := NBUF

  type Links = s: seq<nat> | |s| == NBUF + 1 witness seq(NBUF + 1, i => 0)

  datatype Order = End | Then(b: nat, rest: Order)

  function Members(o: Order): set<nat> {
    match o
    case End => {}
    case Then(b, rest) => {b} + Members(rest)
  }

  predicate NoRepeats(o: Order) {
    match o
    case End => true
    case Then(b, rest) => b !in Members(rest) && NoRepeats(rest)
  }

  predicate Buffers(o: Order) {
    match o
    case End => true
    case Then(b, rest) => b < NBUF && Buffers(rest)
  }

  /** From a, the links lead through `o` to the head, consistently in both directions. */
  predicate Path(next: Links, prev: Links, a: nat, o: Order)
    requires a <= NBUF && Buffers(o)
    decreases o
  {
    match o
    case End => next[a] == HEAD && prev[HEAD] == a
    case Then(b, rest) => next[a] == b && prev[b] == a && Path(next, prev, b, rest)
  }

  /** One cycle through the head and `o`. */
  predicate Ring(next: Links, prev: Links, o: Order) {
    Buffers(o) && NoRepeats(o) && Path(next, prev, HEAD, o)
  }

  function Without(o: Order, b: nat): Order {
    match o
    case End => End
    case Then(c, rest) => if c == b then rest else Then(c, Without(rest, b))
  }

  lemma {:induction false} WithoutMembers(o: Order, b: nat)
    requires NoRepeats(o) && Buffers(o)
    ensures NoRepeats(Without(o, b)) && Buffers(Without(o, b)) && Members(Without(o, b)) == Members(o) - {b}
  {
    match o
    case End =>
    case Then(c, rest) =>
      if c != b {
        WithoutMembers(rest, b);
      }
  }

  lemma {:induction false} MembersAreBuffers(o: Order, b: nat)
    requires Buffers(o) && b in Members(o)
    ensures b < NBUF
  {
    if b != o.b {
      MembersAreBuffers(o.rest, b);
    }
  }

  // ----- Links that a change does not touch -----

  lemma {:induction false} PathFrame(next: Links, prev: Links, n: Links, p: Links, a: nat, o: Order)
    requires a <= NBUF && Buffers(o) && Path(next, prev, a, o)
    requires n[a] == next[a] && p[HEAD] == prev[HEAD]
    requires forall b | b in Members(o) && b < NBUF :: n[b] == next[b] && p[b] == prev[b]
    ensures Path(n, p, a, o)
    decreases o
  {
    match o
    case End =>
    case Then(b, rest) =>
      assert b in Members(o);
      PathFrame(next, prev, n, p, b, rest);
  }

  // ----- Unlinking -----

  /** The two assignments of brelse that take b out of the list. */
  function UnlinkNext(next: Links, prev: Links, b: nat): Links
    requires b < NBUF && prev[b] <= NBUF
  {
    next[prev[b] := next[b]]
  }

  function UnlinkPrev(next: Links, prev: Links, b: nat): Links
    requires b < NBUF && next[b] <= NBUF
  {
    prev[next[b] := prev[b]]
  }

  /** The neighbours of an element of a path. */
  lemma {:induction false} Neighbours(next: Links, prev: Links, a: nat, o: Order, b: nat)
    requires a <= NBUF && Buffers(o) && NoRepeats(o) && a !in Members(o) && b in Members(o)
    requires Path(next, prev, a, o)
    ensures b < NBUF && next[b] <= NBUF && prev[b] <= NBUF && next[b] != o.b && prev[b] != b && next[b] != b
    ensures next[b] == HEAD || next[b] in Members(o)
    ensures prev[b] == a || prev[b] in Members(o)
    ensures b == o.b <==> prev[b] == a
    decreases o
  {
    MembersAreBuffers(o, b);
    var c, rest := o.b, o.rest;
    if b != c {
      Neighbours(next, prev, c, rest, b);
    } else if rest.Then? {
      assert rest.b in Members(rest);
    }
  }

  lemma {:induction false} UnlinkPath(next: Links, prev: Links, a: nat, o: Order, b: nat)
    requires a <= NBUF && Buffers(o) && NoRepeats(o) && a !in Members(o) && b in Members(o)
    requires Path(next, prev, a, o)
    ensures b < NBUF && next[b] <= NBUF && prev[b] <= NBUF && Buffers(Without(o, b))
    ensures Path(UnlinkNext(next, prev, b), UnlinkPrev(next, prev, b), a, Without(o, b))
    decreases o
  {
    Neighbours(next, prev, a, o, b);
    WithoutMembers(o, b);
    var n, p := UnlinkNext(next, prev, b), UnlinkPrev(next, prev, b);
    var rest := o.rest;
    if b != o.b {
      UnlinkPath(next, prev, o.b, rest, b);
    } else if rest.Then? {
      assert rest.b in Members(rest);
      PathFrame(next, prev, n, p, rest.b, rest.rest);
    }
  }

  /** Taking a buffer out leaves one consistent cycle through the others. */
  lemma {:induction false} UnlinkKeepsRing(next: Links, prev: Links, o: Order, b: nat)
    requires Ring(next, prev, o) && b in Members(o)
    ensures b < NBUF && next[b] <= NBUF && prev[b] <= NBUF
    ensures Ring(UnlinkNext(next, prev, b), UnlinkPrev(next, prev, b), Without(o, b))
  {
    HeadIsNoBuffer(o);
    UnlinkPath(next, prev, HEAD, o, b);
    WithoutMembers(o, b);
  }

  lemma {:induction false} HeadIsNoBuffer(o: Order)
    requires Buffers(o)
    ensures HEAD !in Members(o)
  {
    if HEAD in Members(o) {
      MembersAreBuffers(o, HEAD);
    }
  }

  // ----- Linking in at the front -----

  function PushNext(next: Links, b: nat): Links
    requires b < NBUF
  {
    next[b := next[HEAD]][HEAD := b]
  }

  function PushPrev(next: Links, prev: Links, b: nat): Links
    requires b < NBUF && next[HEAD] <= NBUF
  {
    prev[b := HEAD][next[HEAD] := b]
  }

  /** Linking a buffer in behind the head makes it the most recently used. */
  lemma {:induction false} PushKeepsRing(next: Links, prev: Links, o: Order, b: nat)
    requires Ring(next, prev, o) && b < NBUF && b !in Members(o)
    ensures next[HEAD] <= NBUF
    ensures Ring(PushNext(next, b), PushPrev(next, prev, b), Then(b, o))
  {
    if o.Then? {
      assert o.b in Members(o);
      HeadIsNoBuffer(o);
      PathFrame(next, prev, PushNext(next, b), PushPrev(next, prev, b), o.b, o.rest);
    }
  }

  // ----- Walking the list backwards -----

  /** Reverses `o` in front of `done`. */
  function RevOnto(o: Order, done: Order): Order {
    match o
    case End => done
    case Then(b, rest) => RevOnto(rest, Then(b, done))
  }

  /** From a, the prev links lead through `o` to the head. */
  predicate BackPath(prev: Links, a: nat, o: Order)
    requires a <= NBUF && Buffers(o)
    decreases o
  {
    match o
    case End => prev[a] == HEAD
    case Then(b, rest) => prev[a] == b && BackPath(prev, b, rest)
  }

  lemma {:induction false} RevOntoMembers(o: Order, done: Order)
    requires Buffers(o) && Buffers(done)
    ensures Buffers(RevOnto(o, done)) && Members(RevOnto(o, done)) == Members(o) + Members(done)
    decreases o
  {
    match o
    case End =>
    case Then(b, rest) => RevOntoMembers(rest, Then(b, done));
  }

  lemma {:induction false} PathBackwards(next: Links, prev: Links, a: nat, o: Order, done: Order)
    requires a <= NBUF && Buffers(o) && Buffers(done) && Path(next, prev, a, o)
    requires match done
             case End => a == HEAD
             case Then(b, rest) => a == b && BackPath(prev, a, rest)
    ensures Buffers(RevOnto(o, done)) && BackPath(prev, HEAD, RevOnto(o, done))
    decreases o
  {
    match o
    case End =>
    case Then(b, rest) => PathBackwards(next, prev, b, rest, Then(b, done));
  }

  /** Followed backwards, the ring visits the buffers from least to most recently used. */
  lemma {:induction false} RingBackwards(next: Links, prev: Links, o: Order)
    requires Ring(next, prev, o)
    ensures Buffers(RevOnto(o, End)) && BackPath(prev, HEAD, RevOnto(o, End))
    ensures Members(RevOnto(o, End)) == Members(o)
  {
    PathBackwards(next, prev, HEAD, o, End);
    RevOntoMembers(o, End);
  }
}
