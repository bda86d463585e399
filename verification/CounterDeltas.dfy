/** Turning readings of free-running, wrapping counters into accumulated counts
    (gpe1_24x7.c, get_mba_event and get_phb_event). */
module CounterDeltas {
  import opened MachineWords

  const MAX_32: Word64 := 4294967295
  const MAX_48: Word64 := 281474976710655

  /** The increment between two readings; a wrap is taken to have added MAX - prev + cur. */
  function WrapDelta(max: Word64, cur: Word64, prev: Word64): (d: Word64)
    requires cur <= max && prev <= max
    ensures d <= max
  {
    if cur >= prev then cur - prev else (max - prev) + cur
  }

  function GetMbaEvent(cur: Word64, prev: Word64): (d: Word64)
    requires cur <= MAX_32 && prev <= MAX_32
    ensures d <= MAX_32
  {
    WrapDelta(MAX_32, cur, prev)
  }

  function GetPhbEvent(cur: Word64, prev: Word64): (d: Word64)
    requires cur <= MAX_48 && prev <= MAX_48
    ensures d <= MAX_48
  {
    WrapDelta(MAX_48, cur, prev)
  }

  predicate Bounded(max: Word64, readings: seq<Word64>) {
    forall i :: 0 <= i < |readings| ==> readings[i] <= max
  }

  /** The sum of the increments over consecutive readings whose earlier reading is not
      zero: zero is the mark for "no earlier reading". */
  function Accumulated(max: Word64, readings: seq<Word64>): nat
    requires Bounded(max, readings)
  {
    if |readings| < 2 then 0
    else
      var n := |readings|;
      Accumulated(max, readings[..n - 1])
      + if readings[n - 2] != 0 then WrapDelta(max, readings[n - 1], readings[n - 2]) else 0
  }

  /** A counter of `max + 1` values as the true count shows in it. */
  function Shown(max: Word64, truth: seq<nat>): (r: seq<Word64>)
    requires max > 0
    ensures |r| == |truth| && Bounded(max, r)
  {
    seq(|truth|, (i: int) requires 0 <= i < |truth| => truth[i] % (max + 1))
  }

  /** The true count never falls, and moves by less than a full turn between readings. */
  ghost predicate Advances(max: Word64, truth: seq<nat>) {
    forall i, j :: 0 <= i && j == i + 1 && j < |truth| ==> truth[i] <= truth[j] <= truth[i] + max
  }

  /** What is counted while a reading of zero stands as the earlier one. */
  function Suppressed(max: Word64, truth: seq<nat>): int
    requires max > 0
  {
    if |truth| < 2 then 0
    else
      var n := |truth|;
      Suppressed(max, truth[..n - 1])
      + if truth[n - 2] % (max + 1) == 0 then truth[n - 1] as int - truth[n - 2] else 0
  }

  /** Conservation, for every counter width and every run of readings: what is accumulated
      is the true increment minus one for every wrap, minus what zero readings hide. */
  lemma {:induction false} AccumulatedIsTrueMinusWraps(max: Word64, truth: seq<nat>)
    requires max > 0 && |truth| > 0 && Advances(max, truth)
    ensures Accumulated(max, Shown(max, truth))
         == truth[|truth| - 1] - truth[0]
            - (truth[|truth| - 1] / (max + 1) - truth[0] / (max + 1))
            - Suppressed(max, truth)
  {
    var n := |truth|;
    if n > 1 {
      var before := truth[..n - 1];
      AccumulatedIsTrueMinusWraps(max, before);
      assert Shown(max, truth)[..n - 1] == Shown(max, before);
      OneStep(max, truth[n - 2], truth[n - 1]);
    }
  }

  /** One pair of readings loses exactly its wraps. */
  lemma OneStep(max: Word64, a: nat, b: nat)
    requires max > 0 && a <= b <= a + max
    ensures a % (max + 1) <= max && b % (max + 1) <= max
    ensures WrapDelta(max, b % (max + 1), a % (max + 1)) == b - a - (b / (max + 1) - a / (max + 1))
    ensures a % (max + 1) == 0 ==> b / (max + 1) == a / (max + 1)
  {
    var m := max + 1;
    var q, r := a / m, a % m + (b - a);
    assert a == q * m + a % m;
    if r < m {
      Quotient(b, m, q, r);
    } else {
      assert (q + 1) * m == q * m + m;
      Quotient(b, m, q + 1, r - m);
    }
  }

  /** If no reading is zero, nothing is hidden. */
  lemma {:induction false} NothingSuppressed(max: Word64, truth: seq<nat>)
    requires max > 0 && forall i :: 0 <= i < |truth| ==> truth[i] % (max + 1) != 0
    ensures Suppressed(max, truth) == 0
  {
    if |truth| > 1 {
      NothingSuppressed(max, truth[..|truth| - 1]);
    }
  }
}
