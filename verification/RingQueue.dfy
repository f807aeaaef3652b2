/** The sleeping queue of a semaphore (proc.c:1003-1053): a ring of MAXQ slots. */
module RingQueue {

  const MAXQ: nat := 7

  /** What push_back means: the entry goes to the end, or is dropped when the queue is full. */
  function Pushed<T>(q: seq<T>, x: T): seq<T> {
    if |q| == MAXQ then q else q + [x]
  }

  /** The slot that a position up to two turns of the ring stands for. */
  function Wrap(i: int): int {
    if i < MAXQ then i else i - MAXQ
  }

  /** The entries of a ring in queue order. */
  function Unrolled<T>(slots: seq<T>, front: nat, count: nat): (s: seq<T>)
    requires |slots| == MAXQ && front < MAXQ && count <= MAXQ
    ensures |s| == count
    ensures forall k: nat | k < count :: s[k] == slots[Wrap(front + k)]
  {
    seq(count, k requires 0 <= k < count => slots[Wrap(front + k)])
  }

  /** Writing the slot after the last entry adds it at the end. */
  lemma {:induction false} PushUnrolls<T>(slots: seq<T>, front: nat, count: nat, x: T)
    requires |slots| == MAXQ && front < MAXQ && count < MAXQ
    ensures Unrolled(slots[Wrap(front + count) := x], front, count + 1) == Unrolled(slots, front, count) + [x]
  {
  }

  /** Moving the front past an entry takes it off. */
  lemma {:induction false} PopUnrolls<T>(slots: seq<T>, front: nat, count: nat)
    requires |slots| == MAXQ && front < MAXQ && 0 < count <= MAXQ
    ensures Unrolled(slots, Wrap(front + 1), count - 1) == Unrolled(slots, front, count)[1..]
  {
    var a, b := Unrolled(slots, Wrap(front + 1), count - 1), Unrolled(slots, front, count);
    forall k: nat | k < count - 1
      ensures a[k] == b[1..][k]
    {
      assert Wrap(Wrap(front + 1) + k) == Wrap(front + (k + 1));
    }
  }

  class Queue<T(0)> {
    const q: array<T>
    var front: int
    var back: int
    var count: int

    /** back is the slot before the one after the last entry, with -1 standing for the slot before the first. */
    ghost predicate Valid()
      reads this, q
    {
      && q.Length == MAXQ && 0 <= count <= MAXQ && 0 <= front < MAXQ && -1 <= back < MAXQ
      && Wrap(back + 1) == Wrap(front + count)
    }

    ghost function Contents(): seq<T>
      requires Valid()
      reads this, q
    {
      Unrolled(q[..], front, count)
    }

    constructor ()
      ensures Valid() && Contents() == [] && fresh(q)
    {
      q := new T[MAXQ];
      front, back, count := 0, -1, 0;
    }

    method PushBack(x: T)
      requires Valid()
      modifies this, q
      ensures Valid() && Contents() == Pushed(old(Contents()), x)
    {
      if count != MAXQ {
        PushUnrolls(q[..], front, count, x);
        if back == MAXQ - 1 {
          back := -1;
        }
        back := back + 1;
        q[back] := x;
        count := count + 1;
        assert q[..] == old(q[..])[Wrap(front + old(count)) := x];
      }
    }

    /** The first entry, or none when the queue is empty. */
    method PopFront() returns (found: bool, x: T)
      requires Valid()
      modifies this
      ensures Valid() && found == (old(Contents()) != [])
      ensures found ==> x == old(Contents())[0] && Contents() == old(Contents())[1..]
      ensures !found ==> Contents() == []
    {
      x := q[0];
      if count == 0 {
        return false, x;
      }
      PopUnrolls(q[..], front, count);
      x := q[front];
      front := front + 1;
      if front == MAXQ {
        front := 0;
      }
      count := count - 1;
      found := true;
    }
  }
}
