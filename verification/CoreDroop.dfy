/** Droop-event bookkeeping of the core data collection (core_data.c). The hardware bits
    of a quad are cleared by any read, so what a read sees about the three cores that
    are not being polled has to be remembered for them. */
module CoreDroop {
  import opened MachineWords

  const CORES: nat := 24
  const QUADS: nat := 6
  const CORES_PER_QUAD: nat := 4
  const SIBRC_ADDRESS_ERROR: nat := 4

  const CACHE_VDM_LARGE_DROOP: bv64 := 0x04000000
  const CORE0_VDM_SMALL_DROOP: bv64 := 0x00200000
  const CORE1_VDM_SMALL_DROOP: bv64 := 0x00020000
  const CORE2_VDM_SMALL_DROOP: bv64 := 0x00002000
  const CORE3_VDM_SMALL_DROOP: bv64 := 0x00000200

  /** What one read of the droop register says; an event bit of 0 means it happened. */
  datatype Sighting = Sighting(large: bool, small0: bool, small1: bool, small2: bool, small3: bool) {
    predicate Small(k: int) {
      if k == 0 then small0 else if k == 1 then small1 else if k == 2 then small2 else small3
    }
  }

  function DecodeVdsr(value: bv64): Sighting {
    Sighting(value & CACHE_VDM_LARGE_DROOP == 0, value & CORE0_VDM_SMALL_DROOP == 0,
             value & CORE1_VDM_SMALL_DROOP == 0, value & CORE2_VDM_SMALL_DROOP == 0,
             value & CORE3_VDM_SMALL_DROOP == 0)
  }

  type CoreId = c: nat | c < CORES
  type QuadId = q: nat | q < QUADS

  function QuadOf(core: CoreId): QuadId {
    core / CORES_PER_QUAD
  }

  /** The two arrays of event counts kept between calls. */
  datatype Counts = Counts(large: seq<Word32>, small: seq<Word32>) {
    predicate Valid() {
      |large| == QUADS && |small| == CORES
    }
  }

  /** A count after one more read of its register; the counts are 32-bit. */
  function Bumped(count: Word32, seen: bool): Word32 {
    if seen then Add32(count, 1) else count
  }

  function BumpedSmall(c: Counts, quad: QuadId, s: Sighting, core: CoreId): Word32
    requires c.Valid()
  {
    Bumped(c.small[core], QuadOf(core) == quad && s.Small(core % CORES_PER_QUAD))
  }

  /** The counts after a successful read made on behalf of `core`: what it saw is added,
      and the two counts that are reported are cleared. */
  function AfterRead(c: Counts, core: CoreId, s: Sighting): (r: Counts)
    requires c.Valid()
    ensures r.Valid()
  {
    Counts(c.large[QuadOf(core) := 0],
           seq(CORES, (i: int) requires 0 <= i < CORES =>
             if i == core then 0 else BumpedSmall(c, QuadOf(core), s, i)))
  }

  datatype Report = Report(rc: nat, largeEvent: bool, smallEvent: bool)

  /** Return codes of the reads a call makes, with the droop register's value. */
  datatype Scoms = Scoms(dtsQuadRc: nat, dtsCoreRc: nat, vdsrRc: nat, vdsr: bv64, empathRc: nat) {
    predicate ReachesVdsr() {
      dtsQuadRc == 0 && dtsCoreRc == 0
    }

    predicate ReadsVdsr() {
      ReachesVdsr() && vdsrRc == 0
    }
  }

  class CoreData {
    const large: array<Word32>
    const small: array<Word32>

    constructor ()
      ensures Valid() && fresh(large) && fresh(small)
      ensures CountsNow() == Counts(seq(QUADS, _ => 0), seq(CORES, _ => 0))
    {
      large := new Word32[QUADS](_ => 0);
      small := new Word32[CORES](_ => 0);
    }

    ghost predicate Valid()
      reads this
    {
      large != small && large.Length == QUADS && small.Length == CORES
    }

    ghost function CountsNow(): Counts
      reads this, large, small
    {
      Counts(large[..], small[..])
    }

    /** Adds what a read saw to the counts of its quad and of the quad's cores. */
    method CountEvents(quad: QuadId, s: Sighting)
      requires Valid()
      modifies large, small
      ensures large[..] == old(large[..])[quad := Bumped(old(large[quad]), s.large)]
      ensures forall i :: 0 <= i < CORES ==> small[i] == BumpedSmall(old(CountsNow()), quad, s, i)
    {
      var idx := quad * CORES_PER_QUAD;
      if s.large {
        large[quad] := Add32(large[quad], 1);
      }
      if s.small0 {
        small[idx] := Add32(small[idx], 1);
      }
      if s.small1 {
        small[idx + 1] := Add32(small[idx + 1], 1);
      }
      if s.small2 {
        small[idx + 2] := Add32(small[idx + 2], 1);
      }
      if s.small3 {
        small[idx + 3] := Add32(small[idx + 3], 1);
      }
    }

    /** Polls one core. A failed read of the droop register leaves the counts alone and
        is not an error; a failed temperature read is. */
    method GetCoreData(core: CoreId, scoms: Scoms) returns (o: Report)
      requires Valid()
      modifies large, small
      ensures Valid()
      ensures scoms.ReadsVdsr() ==>
                && CountsNow() == AfterRead(old(CountsNow()), core, DecodeVdsr(scoms.vdsr))
                && (o.smallEvent <==> BumpedSmall(old(CountsNow()), QuadOf(core), DecodeVdsr(scoms.vdsr), core) != 0)
                && (o.largeEvent <==> Bumped(old(large[QuadOf(core)]), DecodeVdsr(scoms.vdsr).large) != 0)
      ensures !scoms.ReadsVdsr() ==> CountsNow() == old(CountsNow()) && !o.smallEvent && !o.largeEvent
      ensures o.rc == 0 <==> scoms.ReachesVdsr() && scoms.empathRc in {0, SIBRC_ADDRESS_ERROR}
    {
      o := Report(scoms.dtsQuadRc, false, false);
      if o.rc != 0 {
        return;
      }
      o := o.(rc := scoms.dtsCoreRc);
      if o.rc != 0 {
        return;
      }
      if scoms.vdsrRc == 0 {
        var s := DecodeVdsr(scoms.vdsr);
        var quad := QuadOf(core);
        ghost var before := CountsNow();
        CountEvents(quad, s);
        if large[quad] != 0 {
          o := o.(largeEvent := true);
          large[quad] := 0;
        }
        if small[core] != 0 {
          o := o.(smallEvent := true);
          small[core] := 0;
        }
        assert small[..] == AfterRead(before, core, s).small;
        assert large[..] == AfterRead(before, core, s).large;
      }
      o := o.(rc := if scoms.empathRc == SIBRC_ADDRESS_ERROR then 0 else scoms.empathRc);
    }
  }

  // ---------- The bits of the droop register ----------

  predicate Clear(word: bv64, mask: bv64) {
    word & mask == 0
  }

  const SMALL_BITS: seq<bv64> := [0x0020_0000, 0x0002_0000, 0x0000_2000, 0x0000_0200]

  /** Bit 5 of the low word is for the quad, and bits 10, 14, 18 and 22 are for its cores, counted
      from the left; a bit of zero is an event. */
  lemma VdsrBits(word: bv64, k: nat)
    requires k < 4
    ensures DecodeVdsr(word).large <==> Clear(word, 0x0400_0000)
    ensures DecodeVdsr(word).Small(k) <==> Clear(word, SMALL_BITS[k])
  {
  }

  // ---------- Runs, with the hardware latches ----------

  /** A droop in hardware, or a poll whose droop read succeeds or not. */
  datatype Event = SmallDroop(core: CoreId) | LargeDroop(quad: QuadId) | Poll(poller: CoreId, readOk: bool)

  datatype System = System(latchedLarge: seq<bool>, latchedSmall: seq<bool>, counts: Counts) {
    predicate Valid() {
      |latchedLarge| == QUADS && |latchedSmall| == CORES && counts.Valid()
    }

    /** The register of a quad as a read finds it. */
    function Register(quad: QuadId): Sighting
      requires Valid()
    {
      var idx := quad * CORES_PER_QUAD;
      Sighting(latchedLarge[quad], latchedSmall[idx], latchedSmall[idx + 1],
               latchedSmall[idx + 2], latchedSmall[idx + 3])
    }

    /** A read sets the event bits of its quad back to "no event". */
    function SmallLatchesAfterRead(quad: QuadId): (r: seq<bool>)
      requires Valid()
      ensures |r| == CORES
    {
      seq(CORES, (i: int) requires 0 <= i < CORES => QuadOf(i) != quad && latchedSmall[i])
    }

    function Next(e: Event): (s: System)
      requires Valid()
      ensures s.Valid()
    {
      match e
      case SmallDroop(c) => this.(latchedSmall := latchedSmall[c := true])
      case LargeDroop(q) => this.(latchedLarge := latchedLarge[q := true])
      case Poll(c, ok) =>
        if !ok then this
        else System(latchedLarge[QuadOf(c) := false], SmallLatchesAfterRead(QuadOf(c)),
                    AfterRead(counts, c, Register(QuadOf(c))))
    }

    predicate ReportsSmall(c: CoreId)
      requires Valid()
    {
      BumpedSmall(counts, QuadOf(c), Register(QuadOf(c)), c) != 0
    }

    predicate ReportsLarge(c: CoreId)
      requires Valid()
    {
      Bumped(counts.large[QuadOf(c)], latchedLarge[QuadOf(c)]) != 0
    }
  }

  function PowerOn(): (s: System)
    ensures s.Valid()
  {
    System(seq(QUADS, _ => false), seq(CORES, _ => false), Counts(seq(QUADS, _ => 0), seq(CORES, _ => 0)))
  }

  function After(run: seq<Event>): (s: System)
    ensures s.Valid()
  {
    if run == [] then PowerOn() else After(run[..|run| - 1]).Next(run[|run| - 1])
  }

  /** A register word shows the latches of a quad. */
  predicate Shows(word: bv64, s: System, quad: QuadId)
    requires s.Valid()
  {
    && (Clear(word, 0x0400_0000) <==> s.latchedLarge[quad])
    && forall k :: 0 <= k < 4 ==> (Clear(word, SMALL_BITS[k]) <==> s.latchedSmall[4 * quad + k])
  }

  /** What GetCoreData does with such a word is what a poll does in a run. */
  lemma ReadIsPoll(s: System, core: CoreId, word: bv64)
    requires s.Valid() && Shows(word, s, core / 4)
    ensures AfterRead(s.counts, core, DecodeVdsr(word)) == s.Next(Poll(core, true)).counts
    ensures BumpedSmall(s.counts, QuadOf(core), DecodeVdsr(word), core) != 0 <==> s.ReportsSmall(core)
    ensures Bumped(s.counts.large[QuadOf(core)], DecodeVdsr(word).large) != 0 <==> s.ReportsLarge(core)
  {
    hide Clear, DecodeVdsr, AfterRead;
    VdsrBits(word, 0);
    VdsrBits(word, 1);
    VdsrBits(word, 2);
    VdsrBits(word, 3);
    assert DecodeVdsr(word) == s.Register(core / 4);
  }

  /** A small droop of the core happened after the core was last reported on. */
  predicate OwedSmall(run: seq<Event>, c: CoreId) {
    run != [] &&
    match run[|run| - 1]
    case SmallDroop(d) => d == c || OwedSmall(run[..|run| - 1], c)
    case LargeDroop(_) => OwedSmall(run[..|run| - 1], c)
    case Poll(d, ok) => !(ok && d == c) && OwedSmall(run[..|run| - 1], c)
  }

  /** A large droop of the quad happened after the last successful read of the quad. */
  predicate OwedLarge(run: seq<Event>, q: QuadId) {
    run != [] &&
    match run[|run| - 1]
    case SmallDroop(_) => OwedLarge(run[..|run| - 1], q)
    case LargeDroop(d) => d == q || OwedLarge(run[..|run| - 1], q)
    case Poll(d, ok) => !(ok && QuadOf(d) == q) && OwedLarge(run[..|run| - 1], q)
  }

  /** How many reads made for other cores have seen the core's bit since its last report. */
  function Sightings(run: seq<Event>, c: CoreId): (n: nat)
    ensures n <= |run|
  {
    if run == [] then 0
    else
      var before := run[..|run| - 1];
      match run[|run| - 1]
      case Poll(d, true) =>
        if d == c then 0
        else if QuadOf(d) == QuadOf(c) && After(before).latchedSmall[c] then Sightings(before, c) + 1
        else Sightings(before, c)
      case _ => Sightings(before, c)
  }

  /** Between calls a core's count is the number of sightings modulo 2^32, and what is
      owed to it is latched in hardware or counted. */
  lemma {:induction false} SmallRunInvariant(run: seq<Event>, c: CoreId)
    ensures After(run).counts.small[c] == Low32(Sightings(run, c))
    ensures OwedSmall(run, c) <==> After(run).latchedSmall[c] || Sightings(run, c) > 0
  {
    hide AfterRead, Low32;
    LowIs(0, 0, 0);
    if run != [] {
      var before, e := run[..|run| - 1], run[|run| - 1];
      SmallRunInvariant(before, c);
      if e.Poll? && e.readOk {
        if QuadOf(e.poller) == QuadOf(c) {
          ReadOfQuad(After(before), e.poller, c, Sightings(before, c));
        } else {
          ReadElsewhere(After(before), e.poller, c);
        }
      }
    }
  }

  /** Between calls a quad's count is zero, and what is owed is latched in hardware. */
  lemma {:induction false} LargeRunInvariant(run: seq<Event>, q: QuadId)
    ensures After(run).counts.large[q] == 0
    ensures After(run).latchedLarge[q] <==> OwedLarge(run, q)
  {
    if run != [] {
      LargeRunInvariant(run[..|run| - 1], q);
    }
  }

  lemma ReadElsewhere(s: System, poller: CoreId, c: CoreId)
    requires s.Valid() && QuadOf(poller) != QuadOf(c)
    ensures var s' := s.Next(Poll(poller, true));
            s'.counts.small[c] == s.counts.small[c] && s'.latchedSmall[c] == s.latchedSmall[c]
  {
  }

  /** One successful read of the core's quad. */
  lemma ReadOfQuad(s: System, poller: CoreId, c: CoreId, seen: nat)
    requires s.Valid() && QuadOf(poller) == QuadOf(c) && s.counts.small[c] == Low32(seen)
    ensures s.ReportsSmall(c) <==> Low32(seen + if s.latchedSmall[c] then 1 else 0) != 0
    ensures var s' := s.Next(Poll(poller, true));
            && s'.counts.small[c] == (if c == poller then 0 else Low32(seen + if s.latchedSmall[c] then 1 else 0))
            && !s'.latchedSmall[c]
  {
    RegisterShowsLatch(s, QuadOf(c), c);
    AddLow(seen, 1);
  }

  lemma RegisterShowsLatch(s: System, quad: QuadId, c: CoreId)
    requires s.Valid() && QuadOf(c) == quad
    ensures s.Register(quad).Small(c % CORES_PER_QUAD) == s.latchedSmall[c]
  {
    assert c == quad * CORES_PER_QUAD + c % CORES_PER_QUAD;
  }

  /** In any run of fewer than 2^32 events, a successful poll flags a small droop of its
      core exactly when one is owed to it. */
  lemma SmallDroopReportedExactly(run: seq<Event>, s: System, c: CoreId)
    requires s == After(run) && |run| < TWO_32 - 1
    ensures s.ReportsSmall(c) <==> OwedSmall(run, c)
  {
    SmallRunInvariant(run, c);
    ReportIsExact(s, c, Sightings(run, c));
  }

  /** Without the bound: the flag is missed exactly when the reads that saw the event,
      the poll's own included, number a multiple of 2^32. */
  lemma SmallDroopMissedOnlyByWrap(run: seq<Event>, s: System, c: CoreId)
    requires s == After(run) && OwedSmall(run, c)
    ensures !s.ReportsSmall(c) <==> Low32(Sightings(run, c) + if s.latchedSmall[c] then 1 else 0) == 0
  {
    SmallRunInvariant(run, c);
    ReportIsExact(s, c, Sightings(run, c));
  }

  lemma ReportIsExact(s: System, c: CoreId, seen: nat)
    requires s.Valid() && s.counts.small[c] == Low32(seen)
    ensures s.ReportsSmall(c) <==> Low32(seen + if s.latchedSmall[c] then 1 else 0) != 0
    ensures seen < TWO_32 - 1 ==> (s.ReportsSmall(c) <==> s.latchedSmall[c] || seen > 0)
  {
    ReadOfQuad(s, c, c, seen);
    var sightings := seen + if s.latchedSmall[c] then 1 else 0;
    if sightings < TWO_32 {
      LowIs(sightings, 0, sightings);
    }
  }

  /** A large droop is reported to the poller of the next successful read of the quad,
      and after that read to nobody until it happens again. */
  lemma LargeDroopReportedOnce(run: seq<Event>, c: CoreId, d: CoreId)
    requires QuadOf(c) == QuadOf(d)
    ensures After(run).ReportsLarge(c) <==> OwedLarge(run, QuadOf(c))
    ensures !After(run + [Poll(c, true)]).ReportsLarge(d)
  {
    LargeRunInvariant(run, QuadOf(c));
    var longer := run + [Poll(c, true)];
    assert longer[..|longer| - 1] == run;
    LargeRunInvariant(longer, QuadOf(d));
  }
}
