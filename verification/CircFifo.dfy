/**
  The circular allocator behind a DCE session. Both indices run modulo twice
  the number of buffers, so that full and empty are told apart although the
  buffer positions coincide.
 */
module CircFifo {
  /** Remainders of sums that stay below three times the divisor. */
  lemma Wrap(x: nat, n: nat)
    requires 0 < n && x < 3 * n
    ensures x % n == (if x < n then x else if x < 2 * n then x - n else x - 2 * n)
  {
    var q := x / n;
    assert x == n * q + x % n;
    ThreeLaps(n, q);
    if q == 0 {
    } else if q == 1 {
    } else {
      assert q == 2;
    }
  }

  lemma ThreeLaps(n: nat, q: nat)
    ensures q >= 3 ==> n * q >= 3 * n
  {
    if q >= 3 { assert n * q == n * 3 + n * (q - 3); }
  }

  /** The buffer `k` positions after the head, for `k` up to one lap. */
  function At(n: nat, freer: nat, k: nat): nat {
    var x := freer + k;
    if x < n then x else if x < 2 * n then x - n else x - 2 * n
  }

  ghost predicate InLap(n: nat, freer: nat, count: int) {
    0 < n && freer < 2 * n && 0 <= count <= n
  }

  /** The allocated window of the memory, oldest buffer first. */
  function Lap<T>(mem: seq<T>, freer: nat, count: nat): (w: seq<T>)
    requires InLap(|mem|, freer, count)
    ensures |w| == count
  {
    seq(count, k requires 0 <= k < count => mem[At(|mem|, freer, k)])
  }

  lemma LapAppend<T>(mem: seq<T>, freer: nat, count: nat, x: T)
    requires InLap(|mem|, freer, count) && count < |mem|
    ensures Lap(mem[At(|mem|, freer, count) := x], freer, count + 1) == Lap(mem, freer, count) + [x]
    ensures Lap(mem[At(|mem|, freer, count) := x], freer, count) == Lap(mem, freer, count)
  {
  }

  lemma LapUpdate<T>(mem: seq<T>, freer: nat, count: nat, k: nat, x: T)
    requires InLap(|mem|, freer, count) && k < count
    ensures Lap(mem[At(|mem|, freer, k) := x], freer, count) == Lap(mem, freer, count)[k := x]
  {
  }

  lemma LapDrop<T>(mem: seq<T>, freer: nat, next: nat, count: nat)
    requires InLap(|mem|, freer, count) && count > 0
    requires next == (if freer + 1 == 2 * |mem| then 0 else freer + 1)
    ensures Lap(mem, next, count - 1) == Lap(mem, freer, count)[1..]
  {
  }

  /** Within one lap, positions and buffers are in bijection. */
  lemma AtIsOnto(n: nat, freer: nat, i: nat) returns (k: nat)
    requires InLap(n, freer, 0) && i < n
    ensures k < n && At(n, freer, k) == i
    ensures forall j: nat :: j < n && At(n, freer, j) == i ==> j == k
  {
    var h := At(n, freer, 0);
    k := if i >= h then i - h else i + n - h;
  }

  class CircFifo {
    const numBufs: nat
    var allocer: nat
    var freer: nat

    constructor (numBufs: nat)
      requires numBufs > 0
      ensures Valid() && Count() == 0 && this.numBufs == numBufs
    {
      this.numBufs := numBufs;
      allocer, freer := 0, 0;
    }

    ghost predicate Valid()
      reads this
    {
      allocer < 2 * numBufs && InLap(numBufs, freer, Count())
    }

    /** circ_fifo_num_alloc */
    function Count(): int
      reads this
    {
      if allocer >= freer then allocer - freer else allocer + 2 * numBufs - freer
    }

    /** circ_fifo_head and circ_fifo_head_seek; readable even when empty. */
    method HeadSeek(seek: nat) returns (buf: nat)
      requires Valid() && seek <= numBufs
      ensures buf == At(numBufs, freer, seek) < numBufs
    {
      Wrap(freer + seek, numBufs);
      buf := (freer + seek) % numBufs;
    }

    method Full() returns (full: bool)
      requires Valid()
      ensures full <==> Count() == numBufs
    {
      Wrap(allocer, numBufs);
      Wrap(freer, numBufs);
      full := allocer % numBufs == freer % numBufs && allocer != freer;
    }

    /** circ_fifo_alloc: the buffer after the newest one, or nothing when full. */
    method Alloc() returns (ok: bool, buf: nat)
      requires Valid()
      modifies this`allocer
      ensures Valid()
      ensures ok <==> old(Count()) < numBufs
      ensures ok ==> Count() == old(Count()) + 1 && buf == At(numBufs, freer, old(Count())) < numBufs
      ensures !ok ==> allocer == old(allocer)
    {
      buf := 0;
      var full := Full();
      ok := !full;
      if ok {
        Wrap(allocer, numBufs);
        buf := allocer % numBufs;
        Wrap(allocer + 1, 2 * numBufs);
        allocer := (allocer + 1) % (2 * numBufs);
      }
    }

    /** circ_fifo_alloc_undo: exactly the inverse of a successful Alloc. */
    method AllocUndo()
      requires Valid() && Count() > 0
      modifies this`allocer
      ensures Valid() && Count() == old(Count()) - 1
      ensures old(allocer) == (allocer + 1) % (2 * numBufs)
    {
      allocer := if allocer > 0 then allocer - 1 else numBufs * 2 - 1;
      Wrap(allocer + 1, 2 * numBufs);
    }

    /** circ_fifo_free: every position moves one closer to the head. */
    method FreeHead()
      requires Valid() && Count() > 0
      modifies this`freer
      ensures Valid() && Count() == old(Count()) - 1
      ensures freer == (if old(freer) + 1 == 2 * numBufs then 0 else old(freer) + 1)
    {
      Wrap(freer + 1, 2 * numBufs);
      freer := (freer + 1) % (2 * numBufs);
    }
  }
}
