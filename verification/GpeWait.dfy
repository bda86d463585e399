/** The polling loops of the GPE utilities (gpe_util.c). */
module GpeWait {
  import opened MachineWords

  const STUCK_POLLS: nat := 33

  /** `ticks(i)` is the true, unbounded timebase at the i-th poll; the code only ever
      sees its low 32 bits. */
  type Clock = nat -> nat

  /** Between two polls the clock never runs backwards and moves by at most `step`. */
  ghost predicate MovesAtMost(ticks: Clock, step: int) {
    forall i: nat :: 0 <= Move(ticks, i) <= step
  }

  function Move(ticks: Clock, i: nat): int {
    ticks(i + 1) - ticks(i)
  }

  /** The difference of two timebase readings in 32-bit arithmetic. */
  function Elapsed32(current: Word32, first: Word32): Word32 {
    Add32(current, (TWO_32 - first) % TWO_32)
  }

  /** How many comparisons in a row, ending at poll `i`, saw an unchanged timebase. */
  function Unchanged(ticks: Clock, i: nat): (n: nat)
    ensures n <= i
  {
    if i == 0 || Low32(ticks(i - 1)) != Low32(ticks(i)) then 0 else Unchanged(ticks, i - 1) + 1
  }

  /** 32-bit subtraction measures true elapsed time as long as it is below 2^32. */
  lemma ElapsedIsTrue(now: nat, start: nat)
    requires start <= now < start + TWO_32
    ensures Elapsed32(Low32(now), Low32(start)) == now - start
  {
    var a, b := now / TWO_32, start / TWO_32;
    assert now == TWO_32 * a + now % TWO_32;
    assert start == TWO_32 * b + start % TWO_32;
    assert a == b || a == b + 1;
  }

  /** The wait is over at poll `i`: the 32-bit elapsed time reaches the request, or the
      timebase has been seen unchanged too often. */
  predicate Over(ticks: Clock, endCount: Word32, i: nat) {
    Elapsed32(Low32(ticks(i)), Low32(ticks(0))) >= endCount || Unchanged(ticks, i) >= STUCK_POLLS
  }

  /** Returns the index of the last poll, which is the first one at which the wait is over.
      There must be one: otherwise the wait never returns. */
  method BusyWait(ticks: Clock, endCount: Word32) returns (polls: nat)
    requires exists n: nat :: Over(ticks, endCount, n)
    ensures Over(ticks, endCount, polls)
    ensures forall i :: 0 <= i < polls ==> !Over(ticks, endCount, i)
  {
    ghost var n: nat :| Over(ticks, endCount, n);
    polls := 0;
    var first := Low32(ticks(0));
    var current := first;
    var changeTimeout := 0;
    while Elapsed32(current, first) < endCount
      invariant current == Low32(ticks(polls))
      invariant changeTimeout == Unchanged(ticks, polls) < STUCK_POLLS
      invariant forall i :: 0 <= i < polls ==> !Over(ticks, endCount, i)
      decreases n - polls
    {
      assert !Over(ticks, endCount, polls);
      var prev := current;
      polls := polls + 1;
      current := Low32(ticks(polls));
      if prev == current {
        changeTimeout := changeTimeout + 1;
        if changeTimeout >= STUCK_POLLS {
          break;
        }
      } else {
        changeTimeout := 0;
      }
    }
  }

  /** A clock that is slow enough per poll ends every wait. The measure is the ticks still to
      pass, then the unchanged polls still allowed. */
  lemma SlowClockEnds(ticks: Clock, endCount: Word32, i: nat) returns (n: nat)
    requires MovesAtMost(ticks, TWO_32 - endCount) && 0 <= ticks(i) - ticks(0) < TWO_32
    ensures Over(ticks, endCount, n)
    decreases if ticks(i) - ticks(0) < endCount then endCount - (ticks(i) - ticks(0)) else 0,
              STUCK_POLLS - Unchanged(ticks, i)
  {
    ElapsedIsTrue(ticks(i), ticks(0));
    if Over(ticks, endCount, i) {
      n := i;
    } else {
      assert 0 <= Move(ticks, i) <= TWO_32 - endCount;
      SameLow(ticks(i), ticks(i + 1));
      n := SlowClockEnds(ticks, endCount, i + 1);
    }
  }

  /** Less than 2^32 apart, only equal times have equal low halves. */
  lemma SameLow(a: nat, b: nat)
    requires a <= b < a + TWO_32
    ensures Low32(a) == Low32(b) <==> a == b
  {
    ElapsedIsTrue(b, a);
    ElapsedIsTrue(a, a);
  }

  /** The last `n` comparisons before poll `i` each saw the same low 32 bits twice. */
  ghost predicate Stuck(ticks: Clock, i: nat, n: nat) {
    n <= i && forall j: nat :: i - n <= j < i ==> ticks(j) % 0x1_0000_0000 == ticks(j + 1) % 0x1_0000_0000
  }

  lemma {:induction false} UnchangedMeansStuck(ticks: Clock, i: nat, n: nat)
    ensures Unchanged(ticks, i) >= n <==> Stuck(ticks, i, n)
  {
    if n > 0 && i > 0 {
      UnchangedMeansStuck(ticks, i - 1, n - 1);
      assert Stuck(ticks, i, n) ==> ticks(i - 1) % 0x1_0000_0000 == ticks((i - 1) + 1) % 0x1_0000_0000;
    }
  }

  /** For such a clock the poll at which the wait ends is the first at which the true,
      unbounded elapsed time reaches the request or 33 comparisons in a row were equal. */
  lemma {:induction false} WaitMeasuresTrueTime(ticks: Clock, endCount: Word32, polls: nat)
    requires MovesAtMost(ticks, TWO_32 - endCount) && forall i :: 0 <= i < polls ==> !Over(ticks, endCount, i)
    ensures 0 <= ticks(polls) - ticks(0) < TWO_32
    ensures Over(ticks, endCount, polls) <==>
              ticks(polls) - ticks(0) >= endCount || Stuck(ticks, polls, 33)
  {
    UnchangedMeansStuck(ticks, polls, 33);
    if polls > 0 {
      WaitMeasuresTrueTime(ticks, endCount, polls - 1);
      assert 0 <= Move(ticks, polls - 1) <= TWO_32 - endCount;
      assert !Over(ticks, endCount, polls - 1);
    }
    ElapsedIsTrue(ticks(polls), ticks(0));
  }

  /** A clock that advances by one per poll until just before the request, then jumps to
      where the low 32 bits were when the wait began. */
  function Rewinding(endCount: Word32): Clock
    requires endCount >= 2
  {
    (i: nat) => i / endCount * TWO_32 + i % endCount
  }

  /** The bound on slow clocks is sharp: a clock allowed to move one tick more per poll can
      keep the wait going for ever. */
  lemma OneTickMoreNeverReturns(endCount: Word32, i: nat)
    requires endCount >= 2
    ensures 0 <= Move(Rewinding(endCount), i) <= TWO_32 - endCount + 1
    ensures !Over(Rewinding(endCount), endCount, i) && Unchanged(Rewinding(endCount), i) == 0
  {
    hide Elapsed32, Low32;
    RewindMoves(endCount, i);
    RewindAt(endCount, i);
    RewindAt(endCount, 0);
    SmallElapsed(i % endCount);
    if i > 0 {
      RewindMoves(endCount, i - 1);
      RewindAt(endCount, i - 1);
    }
  }

  lemma SmallElapsed(n: Word32)
    ensures Elapsed32(n, 0) == n
  {
  }

  lemma RewindMoves(endCount: Word32, i: nat)
    requires endCount >= 2
    ensures 0 <= Move(Rewinding(endCount), i) <= TWO_32 - endCount + 1
    ensures i % endCount != (i + 1) % endCount
  {
    OneMore(i, endCount);
    assert Rewinding(endCount)(i) == i / endCount * TWO_32 + i % endCount;
    assert Rewinding(endCount)(i + 1) == (i + 1) / endCount * TWO_32 + (i + 1) % endCount;
  }

  lemma RewindAt(endCount: Word32, i: nat)
    requires endCount >= 2
    ensures Low32(Rewinding(endCount)(i)) == i % endCount
  {
    LowIs(i / endCount * TWO_32 + i % endCount, i / endCount, i % endCount);
    assert Rewinding(endCount)(i) == i / endCount * TWO_32 + i % endCount;
  }

  // ---------- wait_spi_completion ----------

  datatype StatusRead = Failed | Read(ongoing: bool)
  datatype WaitRc = Success | InvalidReg | ScomGetFailed | SpiTimeout

  function NumReads(timeout: Word32): nat {
    if timeout >= 10 then timeout / 10 else 1
  }

  /** The k-th read is the first one that is not "still ongoing". */
  predicate DecidedAt(status: nat -> StatusRead, k: nat) {
    status(k) != Read(true) && forall i :: 0 <= i < k ==> status(i) == Read(true)
  }

  /** Success exactly when the first deciding read comes in time and shows the transfer
      done; there is one read for every whole 10 us of the time-out, and at least one. A register
      that is not one of the two status registers ends as a time-out: the loop counter and the
      read count are both zero when they are compared. */
  method WaitSpiCompletion(validRegister: bool, status: nat -> StatusRead, timeout: Word32) returns (rc: WaitRc)
    ensures !validRegister ==> rc == SpiTimeout
    ensures validRegister ==>
              && (rc == Success <==>
                    exists k: nat :: (k == 0 || 10 * (k + 1) <= timeout)
                                     && DecidedAt(status, k) && status(k) == Read(false))
              && (rc == ScomGetFailed <==>
                    exists k: nat :: (k == 0 || 10 * (k + 1) <= timeout)
                                     && DecidedAt(status, k) && status(k) == Failed)
              && (rc == SpiTimeout <==>
                    forall k: nat :: k == 0 || 10 * (k + 1) <= timeout ==> status(k) == Read(true))
  {
    var i := 0;
    var numReads := 0;
    rc := Success;
    if !validRegister {
      rc := InvalidReg;
    } else {
      numReads := NumReads(timeout);
      while i < numReads
        invariant 0 <= i <= numReads
        invariant forall j :: 0 <= j < i ==> status(j) == Read(true)
      {
        match status(i) {
          case Failed =>
            rc := ScomGetFailed;
            assert DecidedAt(status, i);
            break;
          case Read(ongoing) =>
            if !ongoing {
              rc := Success;
              assert DecidedAt(status, i);
              break;
            }
        }
        i := i + 1;
      }
    }
    if i >= numReads {
      rc := SpiTimeout;
    }
  }
}
