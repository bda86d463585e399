/** The wrapping counters in terms of their registers: a PHB register has 48 bits of count above
    16 others, a memory buffer's two 32-bit counters, or its cycles above 32 other bits. */
module PmuWideCounters {
  import opened MachineWords
  import opened CounterDeltas
  import opened PmuLayout
  import opened PmuLedger
  import opened Pmu24x7
  import opened Pmu24x7Runs
  import opened PmuRegisters

  const PHB_REGISTERS: seq<nat> := [
    0xd010918, 0xd010919, 0xd01091a, 0xd01091b, 0xe010918, 0xe010919, 0xe01091a, 0xe01091b,
    0xe010958, 0xe010959, 0xe01095a, 0xe01095b, 0xf010918, 0xf010919, 0xf01091a, 0xf01091b,
    0xf010958, 0xf010959, 0xf01095a, 0xf01095b, 0xf010998, 0xf010999, 0xf01099a, 0xf01099b]
  const PHB_UNITS: seq<bv64> := [0x200000000, 0x100000000, 0x80000000, 0x40000000, 0x20000000, 0x10000000]

  /** Per memory buffer: the register with two event counters, and the one with its cycles. */
  const MBA_REGISTERS: seq<nat> := [
    0x7010937, 0x7010939, 0x7010977, 0x7010979, 0x70109b7, 0x70109b9, 0x70109f7, 0x70109f9,
    0x8010937, 0x8010939, 0x8010977, 0x8010979, 0x80109b7, 0x80109b9, 0x80109f7, 0x80109f9]
  const MBA_UNITS: seq<bv64> := [
    0x40000000000000, 0x20000000000000, 0x10000000000000, 0x8000000000000,
    0x4000000000000, 0x2000000000000, 0x1000000000000, 0x800000000000]

  type Count32 = n: int | 0 <= n < 0x1_0000_0000
  type Count48 = n: int | 0 <= n < 0x1_0000_0000_0000

  /** What is counted between two readings; a wrap loses one. */
  function Moved(max: nat, now: nat, before: nat): int {
    if now >= before then now - before else max - before + now
  }

  /** The slots that a group-4 posting reads, if their unit is there. */
  predicate Reads(start: nat, k: nat, uav: bv64)
    requires k < 24
  {
    start <= k < start + 8 && Bit(uav, PHB_UNITS[k / 4])
  }

  // ---------- One posting ----------

  lemma PhbRegister(k: Slot)
    ensures PhbScom(k / 4, k % 4) == PHB_REGISTERS[k]
  {
  }

  lemma PhbUnit(u: nat)
    requires u < 6
    ensures MaskPhb(u) == PHB_UNITS[u]
  {
  }

  lemma HighOf(w: Word64, count: Count48, rest: nat)
    requires rest < 0x1_0000 && w == count * 0x1_0000 + rest
    ensures High48(w) == count
  {
    Quotient(w, 0x1_0000, count, rest);
  }

  lemma ReadsIs(start: nat, k: Slot, uav: bv64)
    ensures Reads(start, k, uav) <==> start <= k < start + 8 && Has(uav, MaskPhb(k / 4))
  {
    hide MaskPhb, Has, Bit;
    PhbUnit(k / 4);
    HasIs(uav, PHB_UNITS[k / 4]);
  }

  /** A PHB slot as a counter: what its register reads, and when it is visited. */
  lemma PhbReads(b: Banks, x: Context, k: Slot, count: Count48, rest: nat)
    requires b.Valid() && rest < 0x1_0000 && x.scom(PHB_REGISTERS[k]) == count * 0x1_0000 + rest
    ensures var c := Phb(k);
            && c.Cell() == 103 + k && c.Last(b) == b.phb[k] && c.Reading(x.scom) == count
            && Gain(c, b, x.scom) == if b.phb[k] != 0 then Moved(281474976710655, count, b.phb[k]) else 0
  {
    hide PhbScom, High48;
    PhbRegister(k);
    HighOf(x.scom(PHB_REGISTERS[k]), count, rest);
  }

  lemma PhbIsRead(b: Banks, x: Context, k: Slot)
    requires b.Valid()
    ensures Phb(k).Visited(G4, b, x) <==> Reads(if b.phbEvents == 24 then 0 else b.phbEvents, k, x.uav)
  {
    hide Has, MaskPhb, Reads;
    ReadsIs(if b.phbEvents == 24 then 0 else b.phbEvents, k, x.uav);
  }

  lemma PhbLast(b: Banks, k: Slot)
    requires b.Valid()
    ensures Phb(k).Last(b) == b.phb[k]
  {
  }

  /** A PHB slot: what the register's upper 48 bits say is remembered, and what they moved by
      since the last reading, if there is one, is added. */
  lemma PhbSlotIsRead(b: Banks, x: Context, k: Slot, count: Count48, rest: nat)
    requires b.Valid() && rest < 0x1_0000 && x.scom(PHB_REGISTERS[k]) == count * 0x1_0000 + rest
    ensures var b', last := Post(G4, b, x), b.phb[k];
            var read := Reads(if b.phbEvents == 24 then 0 else b.phbEvents, k, x.uav);
            && b'.phb[k] == (if read then count else last)
            && b'.cells[103 + k]
               == (b.cells[103 + k] + if read && last != 0 then Moved(281474976710655, count, last) else 0)
                  % 0x1_0000_0000_0000_0000
  {
    hide Post, Reads, Moved, Gain, Counter.Last, Counter.Visited, Counter.Reading, Counter.Cell;
    PhbReads(b, x, k, count, rest);
    PhbIsRead(b, x, k);
    PostMoves(Phb(k), G4, b, x);
    PhbLast(Post(G4, b, x), k);
  }

  lemma MbaRegisters(m: nat)
    requires m < 8
    ensures MbaScom(m, false) == MBA_REGISTERS[2 * m] && MbaScom(m, true) == MBA_REGISTERS[2 * m + 1]
  {
  }

  lemma MbaUnit(m: nat)
    requires m < 8
    ensures MaskMba(m) == MBA_UNITS[m]
  {
  }

  lemma HalvesOf(w: Word64, upper: Count32, lower: Count32)
    requires w == upper * 0x1_0000_0000 + lower
    ensures High32(w) == upper && Low32(w) == lower
  {
    Quotient(w, 0x1_0000_0000, upper, lower);
  }

  /** The register of a memory buffer's slot k, and where its count is in it. */
  function MbaRegister(k: Slot): nat {
    MBA_REGISTERS[if k % 3 == 2 then 2 * (k / 3) + 1 else 2 * (k / 3)]
  }

  function MbaWord(k: Slot, count: Count32, rest: Count32): (w: Word64) {
    if k % 3 == 1 then rest * 0x1_0000_0000 + count else count * 0x1_0000_0000 + rest
  }

  lemma MbaReads(b: Banks, x: Context, k: Slot, count: Count32, rest: Count32)
    requires b.Valid() && x.scom(MbaRegister(k)) == MbaWord(k, count, rest)
    ensures var c := Mba(k);
            && c.Cell() == (if k < 12 then 137 + k else 159 + k) && c.Last(b) == b.mba[k] && c.Reading(x.scom) == count
            && Gain(c, b, x.scom)
               == if b.mba[k] != 0 then Moved(4294967295, count, b.mba[k]) * (if k % 3 == 2 then 2 else 1) else 0
  {
    hide MbaScom, High32, Low32;
    MbaRegisters(k / 3);
    if k % 3 == 1 {
      HalvesOf(x.scom(MbaRegister(k)), rest, count);
    } else {
      HalvesOf(x.scom(MbaRegister(k)), count, rest);
    }
  }

  lemma MbaIsRead(g: Group, b: Banks, x: Context, k: Slot)
    requires b.Valid()
    ensures Mba(k).Visited(g, b, x) <==> g == (if k < 12 then G5 else G6) && Bit(x.uav, MBA_UNITS[k / 3])
  {
    hide Has, Bit, MaskMba;
    MbaUnit(k / 3);
    HasIs(x.uav, MBA_UNITS[k / 3]);
  }

  lemma MbaLast(b: Banks, k: Slot)
    requires b.Valid()
    ensures Mba(k).Last(b) == b.mba[k]
  {
  }

  /** A memory buffer's slot: its 32 bits of the register are remembered, and what they moved by
      since the last reading, if there is one, is added; cycles count double. */
  lemma MbaSlotIsRead(b: Banks, x: Context, k: Slot, count: Count32, rest: Count32)
    requires b.Valid() && x.scom(MbaRegister(k)) == MbaWord(k, count, rest)
    ensures var b', last := Post(if k < 12 then G5 else G6, b, x), b.mba[k];
            var read, cell := Bit(x.uav, MBA_UNITS[k / 3]), if k < 12 then 137 + k else 159 + k;
            var moved := if read && last != 0 then Moved(4294967295, count, last) else 0;
            && b'.mba[k] == (if read then count else last)
            && b'.cells[cell] == (b.cells[cell] + if k % 3 == 2 then 2 * moved else moved) % 0x1_0000_0000_0000_0000
  {
    hide Post, Bit, Moved, Gain, MbaRegister, MbaWord, Counter.Last, Counter.Visited, Counter.Reading, Counter.Cell;
    var g := if k < 12 then G5 else G6;
    MbaReads(b, x, k, count, rest);
    MbaIsRead(g, b, x, k);
    PostMoves(Mba(k), g, b, x);
    MbaLast(Post(g, b, x), k);
  }

  /** Only a counter's own group changes its last reading. */
  lemma OtherReadings(g: Group, b: Banks, x: Context, k: Slot)
    requires b.Valid()
    ensures g != G4 ==> Post(g, b, x).phb[k] == b.phb[k]
    ensures g != (if k < 12 then G5 else G6) ==> Post(g, b, x).mba[k] == b.mba[k]
  {
    hide CellsAfter, Has;
  }

  // ---------- Runs ----------

  function EpochOf(b: Banks): nat {
    if b.phbEvents == 24 then 0 else b.phbEvents
  }

  /** The words of slot k's register that the postings of a run read: those of group 4 whose
      turn it is, while the unit is there. */
  function PhbWords(k: Slot, start: nat, trace: seq<Event>): seq<Word64> {
    var n := |trace|;
    if n == 0 then []
    else
      PhbWords(k, start, trace[..n - 1])
      + match trace[n - 1]
        case Posted(g, x) =>
          if g == G4 && Reads((start + 8 * Postings(G4, trace[..n - 1])) % 24, k, x.uav) then [x.scom(PHB_REGISTERS[k])]
          else []
        case _ => []
  }

  function MbaWords(k: Slot, trace: seq<Event>): seq<Word64> {
    var n := |trace|;
    if n == 0 then []
    else
      MbaWords(k, trace[..n - 1])
      + match trace[n - 1]
        case Posted(g, x) =>
          if g == (if k < 12 then G5 else G6) && Bit(x.uav, MBA_UNITS[k / 3]) then [x.scom(MbaRegister(k))] else []
        case _ => []
  }

  /** A run's words, with the counts that they show. */
  predicate PhbShow(words: seq<Word64>, truth: seq<nat>, rest: seq<nat>) {
    && |truth| == |words| + 1 && |rest| == |words|
    && forall i :: 0 <= i < |words| ==>
         rest[i] < 0x1_0000 && words[i] == truth[i + 1] % 0x1_0000_0000_0000 * 0x1_0000 + rest[i]
  }

  predicate MbaShow(k: Slot, words: seq<Word64>, truth: seq<nat>, rest: seq<Count32>) {
    && |truth| == |words| + 1 && |rest| == |words|
    && forall i :: 0 <= i < |words| ==> words[i] == MbaWord(k, truth[i + 1] % 0x1_0000_0000, rest[i])
  }

  lemma PhbVisitedWhen(b: Banks, trace: seq<Event>, g: Group, x: Context, k: Slot)
    requires b.Valid()
    ensures Phb(k).Visited(g, Replay(b, trace), x)
       <==> g == G4 && Reads((EpochOf(b) + 8 * Postings(G4, trace)) % 24, k, x.uav)
  {
    hide Has, Reads, Replay, MaskPhb;
    CursorCountsPostings(b, trace);
    if g == G4 {
      PhbIsRead(Replay(b, trace), x, k);
    }
  }

  /** The readings of a PHB slot in a run of postings are the upper 48 bits of those words. */
  lemma {:induction false} PhbHistory(b: Banks, trace: seq<Event>, k: Slot)
    requires b.Valid() && Uninterrupted(trace)
    ensures var current, words := HistoryOf(Phb(k), b, trace).current, PhbWords(k, EpochOf(b), trace);
            && |current| == |words| + 1 && current[0] == b.phb[k]
            && forall i :: 0 <= i < |words| ==> current[i + 1] == High48(words[i])
  {
    hide Replay, Reads, Counter.Visited, High48, EpochOf, PhbScom;
    var n := |trace|;
    if n > 0 {
      PhbHistory(b, trace[..n - 1], k);
      PhbVisitedWhen(b, trace[..n - 1], trace[n - 1].g, trace[n - 1].x, k);
      PhbRegister(k);
    }
  }

  lemma PhbShown(current: seq<Word64>, words: seq<Word64>, truth: seq<nat>, rest: seq<nat>)
    requires PhbShow(words, truth, rest) && |current| == |words| + 1 && current[0] == truth[0] % 0x1_0000_0000_0000
    requires forall i :: 0 <= i < |words| ==> current[i + 1] == High48(words[i])
    ensures current == Shown(281474976710655, truth)
  {
    hide High48;
    forall j | 0 <= j < |current| ensures current[j] == truth[j] % 0x1_0000_0000_0000 {
      if j > 0 {
        assert current[(j - 1) + 1] == High48(words[j - 1]);
        HighOf(words[j - 1], truth[j] % 0x1_0000_0000_0000, rest[j - 1]);
      }
    }
  }

  /** Conservation by the registers of a PHB: over a run that neither pauses nor wipes, the cell of
      slot k gains what the 48-bit count in its register truly moved by, less one for every wrap
      and less what readings of zero hide. */
  lemma PhbCellGainsCount(t: Tables, s: Collection, calls: seq<Input>, k: Slot, truth: seq<nat>, rest: seq<nat>)
    requires t.Valid() && s.Valid() && Uninterrupted(Trace(t, s, calls))
    requires PhbShow(PhbWords(k, EpochOf(s.banks), Trace(t, s, calls)), truth, rest)
    requires s.banks.phb[k] == truth[0] % 0x1_0000_0000_0000 && Advances(281474976710655, truth)
    ensures var last := truth[|truth| - 1];
            Run(t, s, calls).banks.cells[103 + k]
            == (s.banks.cells[103 + k] + (last - truth[0])
                - (last / 0x1_0000_0000_0000 - truth[0] / 0x1_0000_0000_0000)
                - Suppressed(281474976710655, truth)) % 0x1_0000_0000_0000_0000
  {
    hide Run, Trace, PhbWords, PhbShow, Shown, Uninterrupted, Tables.Valid, HistoryOf, Suppressed, Advances, High48;
    PhbHistory(s.banks, Trace(t, s, calls), k);
    PhbShown(HistoryOf(Phb(k), s.banks, Trace(t, s, calls)).current,
             PhbWords(k, EpochOf(s.banks), Trace(t, s, calls)), truth, rest);
    RunGainsTrueCount(t, s, calls, Phb(k), truth);
  }

  /** The half of its register that a memory buffer's slot is. */
  function MbaHalf(k: Slot, w: Word64): Word32 {
    if k % 3 == 1 then Low32(w) else High32(w)
  }

  lemma MbaHalfOf(k: Slot, count: Count32, rest: Count32)
    ensures MbaHalf(k, MbaWord(k, count, rest)) == count
  {
    hide High32, Low32;
    if k % 3 == 1 {
      HalvesOf(MbaWord(k, count, rest), rest, count);
    } else {
      HalvesOf(MbaWord(k, count, rest), count, rest);
    }
  }

  lemma MbaReadingIs(scom: Scom, k: Slot)
    ensures MbaReading(scom, k) == MbaHalf(k, scom(MbaRegister(k)))
  {
    hide High32, Low32, MbaScom;
    MbaRegisters(k / 3);
  }

  lemma {:induction false} MbaHistory(b: Banks, trace: seq<Event>, k: Slot)
    requires b.Valid() && Uninterrupted(trace)
    ensures var current, words := HistoryOf(Mba(k), b, trace).current, MbaWords(k, trace);
            && |current| == |words| + 1 && current[0] == b.mba[k]
            && forall i :: 0 <= i < |words| ==> current[i + 1] == MbaHalf(k, words[i])
  {
    hide Replay, Bit, Counter.Visited, High32, Low32, MbaScom, MbaRegister;
    var n := |trace|;
    if n > 0 {
      var e := trace[n - 1];
      MbaHistory(b, trace[..n - 1], k);
      MbaIsRead(e.g, Replay(b, trace[..n - 1]), e.x, k);
      MbaReadingIs(e.x.scom, k);
    }
  }

  lemma MbaShown(k: Slot, current: seq<Word64>, words: seq<Word64>, truth: seq<nat>, rest: seq<Count32>)
    requires MbaShow(k, words, truth, rest) && |current| == |words| + 1 && current[0] == truth[0] % 0x1_0000_0000
    requires forall i :: 0 <= i < |words| ==> current[i + 1] == MbaHalf(k, words[i])
    ensures current == Shown(4294967295, truth)
  {
    hide MbaHalf, MbaWord;
    forall j | 0 <= j < |current| ensures current[j] == truth[j] % 0x1_0000_0000 {
      if j > 0 {
        assert current[(j - 1) + 1] == MbaHalf(k, words[j - 1]);
        MbaHalfOf(k, truth[j] % 0x1_0000_0000, rest[j - 1]);
      }
    }
  }

  /** Likewise for the slots of the memory buffers, twice that for cycles. */
  lemma MbaCellGainsCount(t: Tables, s: Collection, calls: seq<Input>, k: Slot, truth: seq<nat>, rest: seq<Count32>)
    requires t.Valid() && s.Valid() && Uninterrupted(Trace(t, s, calls))
    requires MbaShow(k, MbaWords(k, Trace(t, s, calls)), truth, rest)
    requires s.banks.mba[k] == truth[0] % 0x1_0000_0000 && Advances(4294967295, truth)
    ensures var last, cell := truth[|truth| - 1], if k < 12 then 137 + k else 159 + k;
            var moved := last - truth[0] - (last / 0x1_0000_0000 - truth[0] / 0x1_0000_0000)
                         - Suppressed(4294967295, truth);
            Run(t, s, calls).banks.cells[cell]
            == (s.banks.cells[cell] + if k % 3 == 2 then 2 * moved else moved) % 0x1_0000_0000_0000_0000
  {
    hide Run, Trace, MbaWords, MbaShow, Shown, Uninterrupted, Tables.Valid, HistoryOf, Suppressed, Advances, MbaHalf;
    MbaHistory(s.banks, Trace(t, s, calls), k);
    MbaShown(k, HistoryOf(Mba(k), s.banks, Trace(t, s, calls)).current, MbaWords(k, Trace(t, s, calls)), truth, rest);
    RunGainsTrueCount(t, s, calls, Mba(k), truth);
  }
}
