/** pushcli and popcli (spinlock.c:104-125): nested disabling of interrupts on one CPU. */
module Interrupts {
  import opened Common

  datatype Cpu = Cpu(ncli: int, intena: bool, iflag: bool)

  function Push(c: Cpu): Cpu {
    Cpu(c.ncli + 1, if c.ncli == 0 then c.iflag else c.intena, false)
  }

  /** None is a panic. */
  function Pop(c: Cpu): Option<Cpu> {
    if c.iflag || c.ncli - 1 < 0 then None
    else Some(Cpu(c.ncli - 1, c.intena, c.iflag || (c.ncli - 1 == 0 && c.intena)))
  }

  class Processor {
    var ncli: int
    var intena: bool
    var iflag: bool

    function State(): Cpu
      reads this
    {
      Cpu(ncli, intena, iflag)
    }

    method Pushcli()
      modifies this
      ensures State() == Push(old(State()))
    {
      var eflags := iflag;
      iflag := false;
      if ncli == 0 {
        intena := eflags;
      }
      ncli := ncli + 1;
    }

    method Popcli() returns (ok: bool)
      modifies this
      ensures ok <==> Pop(old(State())).Some?
      ensures ok ==> State() == Pop(old(State())).value
    {
      if iflag {
        return false;
      }
      ncli := ncli - 1;
      if ncli < 0 {
        return false;
      }
      if ncli == 0 && intena {
        iflag := true;
      }
      ok := true;
    }
  }

  /** Pushes (true) and pops (false) in order. */
  function Exec(c: Cpu, ops: seq<bool>, k: nat): Option<Cpu>
    requires k <= |ops|
  {
    if k == 0 then Some(c)
    else match Exec(c, ops, k - 1)
      case None => None
      case Some(d) => if ops[k - 1] then Some(Push(d)) else Pop(d)
  }

  /** The depth after k calls, as if nothing panicked. */
  function Depth(ops: seq<bool>, k: nat): int
    requires k <= |ops|
  {
    if k == 0 then 0 else Depth(ops, k - 1) + (if ops[k - 1] then 1 else -1)
  }

  /** Matched calls nest: starting at depth 0, interrupts are off exactly while the depth is positive and are back as they
      were whenever it is 0 again; and a panic comes exactly with the first pop that has no push. */
  lemma {:induction false} Nesting(c: Cpu, ops: seq<bool>, k: nat)
    requires c.ncli == 0 && k <= |ops|
    ensures Exec(c, ops, k).Some? <==> forall j: nat | j <= k :: Depth(ops, j) >= 0
    ensures Exec(c, ops, k).Some? ==>
              var d := Exec(c, ops, k).value;
              && d.ncli == Depth(ops, k)
              && d.iflag == (d.ncli == 0 && c.iflag)
              && (d.ncli > 0 ==> d.intena == c.iflag)
  {
    if k > 0 {
      Nesting(c, ops, k - 1);
      assert (forall j: nat | j <= k :: Depth(ops, j) >= 0) <==> (forall j: nat | j <= k - 1 :: Depth(ops, j) >= 0) && Depth(ops, k) >= 0;
    }
  }
}
