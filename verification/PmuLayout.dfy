/** Which counter belongs in which cell of the posting area (gpe1_24x7.h), and what one
    posting of a group adds to every cell. */
module PmuLayout {
  import opened MachineWords
  import opened CounterDeltas

  // The posting area is 238 cells of 8 bytes; the area of the debug mode, 34 cells, follows
  // it in this numbering.
  const TOTAL_POSTINGS: nat := 238
  const DEBUG_START: nat := 238
  const CELLS: nat := 272

  const CNTL_MODE_MONITOR: Word64 := 0
  const CNTL_MODE_DEBUG1: Word64 := 1

  // First cells of the groups' headers, units and trailers.
  const G1H: nat := 0
  const G1T: nat := 33
  const G2H: nat := 34
  const G2_1: nat := 35
  const G2T: nat := 67
  const G3H: nat := 68
  const G3_1: nat := 69
  const G3_7: nat := 93
  const G3T: nat := 101
  const G4H: nat := 102
  const G4A: nat := 103
  const G4T: nat := 135
  const G5H: nat := 136
  const G5_1: nat := 137
  const G2_A0: nat := 149
  const G5T: nat := 169
  const G6H: nat := 170
  const G6_1: nat := 171
  const G2_A2: nat := 183
  const G6T: nat := 203
  const G7H: nat := 204
  const G7_1: nat := 205
  const G7_4: nat := 217
  const G7_6: nat := 233
  const G7T: nat := 237

  const TOD_VALUE_REG: nat := 0x00040020

  datatype Group = G1 | G2 | G3 | G4 | G5 | G6 | G7

  // ---------- Units ----------

  /** A unit is available when its bit is set in the unit availability vector. */
  predicate Has(uav: bv64, mask: bv64) {
    uav & mask != 0
  }

  function MaskMba(m: nat): bv64 {
    if m == 0 then 0x40000000000000 else if m == 1 then 0x20000000000000 else if m == 2 then 0x10000000000000
    else if m == 3 then 0x8000000000000 else if m == 4 then 0x4000000000000 else if m == 5 then 0x2000000000000
    else if m == 6 then 0x1000000000000 else 0x800000000000
  }

  /** The three X links and the NX unit. */
  function MaskLink(u: nat): bv64 {
    if u == 0 then 0x4000000000 else if u == 1 then 0x2000000000 else if u == 2 then 0x1000000000 else 0x8000000
  }

  function MaskPhb(u: nat): bv64 {
    if u == 0 then 0x200000000 else if u == 1 then 0x100000000 else if u == 2 then 0x80000000
    else if u == 3 then 0x40000000 else if u == 4 then 0x20000000 else 0x10000000
  }

  function MaskCapp(u: nat): bv64 {
    if u == 0 then 0x4000000 else 0x2000000
  }

  function MaskAlink(u: nat): bv64 {
    if u == 0 then 0x400000 else if u == 1 then 0x200000 else if u == 2 then 0x100000 else 0x80000
  }

  function MaskNvlink(u: nat): bv64 {
    if u == 0 then 0x40000 else if u == 1 then 0x20000 else if u == 2 then 0x10000
    else if u == 3 then 0x8000 else if u == 4 then 0x4000 else 0x2000
  }

  predicate AnyNvlink(uav: bv64) {
    Has(uav, MaskNvlink(0)) || Has(uav, MaskNvlink(1)) || Has(uav, MaskNvlink(2)) ||
    Has(uav, MaskNvlink(3)) || Has(uav, MaskNvlink(4)) || Has(uav, MaskNvlink(5))
  }

  // ---------- Counter registers ----------

  function CnpmScom(i: nat): nat {
    0x5011c1a + i
  }

  function LinkScom(i: nat): nat {
    if i < 6 then 0x501341b + i else if i == 6 then 0x20110a7 else 0x20110aa
  }

  function AlinkScom(i: nat): nat {
    0x501381b + i
  }

  function NvlinkScom(i: nat): nat {
    if i == 0 then 0x501111f else if i == 1 then 0x501113f else if i == 2 then 0x501131f
    else if i == 3 then 0x501133f else if i == 4 then 0x501151f else if i == 5 then 0x501153f
    else if i == 6 then 0x5011601 else 0x5011648
  }

  function PhbScom(unit: nat, i: nat): nat {
    i + if unit == 0 then 0xd010918 else if unit == 1 then 0xe010918 else if unit == 2 then 0xe010958
        else if unit == 3 then 0xf010918 else if unit == 4 then 0xf010958 else 0xf010998
  }

  /** The register with two 32-bit counters of a memory buffer, and the one with its cycles. */
  function MbaScom(m: nat, cycles: bool): nat {
    (if m < 4 then 0x7010937 + 0x40 * m else 0x8010937 + 0x40 * (m - 4)) + if cycles then 2 else 0
  }

  function NpcqScom(u: nat): nat {
    0x50110c6 + 0x200 * u
  }

  function CappScom(i: nat): nat {
    if i == 0 then 0x2010815 else if i == 1 then 0x2010825 else if i == 2 then 0x4010815 else 0x4010825
  }

  // ---------- Readings ----------

  /** What every register reads during one call. */
  type Scom = nat -> Word64

  type Word48 = x: int | 0 <= x < TWO_48

  /** The j-th of the four 16-bit counters of a register, most significant first. */
  function Field16(w: Word64, j: int): Word64 {
    if j == 0 then w / 0x1_0000_0000_0000 else if j == 1 then w / 0x1_0000_0000 % 0x1_0000
    else if j == 2 then w / 0x1_0000 % 0x1_0000 else w % 0x1_0000
  }

  function High32(w: Word64): Word32 {
    w / TWO_32
  }

  /** The 48-bit counter of a PHB register. */
  function High48(w: Word64): Word48 {
    w / TWO_16
  }

  const SLOTS: nat := 24

  type Slot = k: nat | k < SLOTS

  /** The reading of an MBA slot: unit k/3 with two event counters and a cycle counter. */
  function MbaReading(scom: Scom, k: Slot): Word32 {
    if k % 3 == 0 then High32(scom(MbaScom(k / 3, false)))
    else if k % 3 == 1 then Low32(scom(MbaScom(k / 3, false)))
    else High32(scom(MbaScom(k / 3, true)))
  }

  /** The reading of a PHB slot: unit k/4, counter k%4. */
  function PhbReading(scom: Scom, k: Slot): Word48 {
    High48(scom(PhbScom(k / 4, k % 4)))
  }

  /** The posting cell of an MBA slot and of a PHB slot. */
  function MbaCell(k: Slot): nat {
    if k < 12 then G5_1 + k else G6_1 + (k - 12)
  }

  function PhbCell(k: Slot): nat {
    G4A + k
  }

  // ---------- What is kept between postings ----------

  /** The posting cells, the last readings of the wrapping counters, the PHB cursor and
      whose turn it is in group 2. */
  datatype Banks = Banks(cells: seq<Word64>, mba: seq<Word32>, phb: seq<Word48>, phbEvents: nat, xTurn: bool) {
    predicate Valid() {
      |cells| == CELLS && |mba| == SLOTS && |phb| == SLOTS && phbEvents in {0, 8, 16, 24}
    }

    /** The first slot of the epoch that the next group-4 posting reads. */
    function EpochStart(): nat
      requires Valid()
    {
      if phbEvents > 23 then 0 else phbEvents
    }
  }

  /** The current availability vector and mode, and the registers. */
  datatype Context = Context(uav: bv64, mode: Word64, scom: Scom)

  predicate MbaVisited(g: Group, x: Context, k: Slot) {
    (if k < 12 then g == G5 else g == G6) && Has(x.uav, MaskMba(k / 3))
  }

  predicate PhbVisited(g: Group, b: Banks, x: Context, k: Slot)
    requires b.Valid()
  {
    g == G4 && b.EpochStart() <= k < b.EpochStart() + 8 && Has(x.uav, MaskPhb(k / 4))
  }

  /** What a reading adds: nothing without an earlier reading; cycles count double. */
  function MbaIncrement(b: Banks, x: Context, k: Slot): Word64
    requires b.Valid()
  {
    if b.mba[k] == 0 then 0
    else GetMbaEvent(MbaReading(x.scom, k), b.mba[k]) * if k % 3 == 2 then 2 else 1
  }

  function PhbIncrement(b: Banks, x: Context, k: Slot): Word64
    requires b.Valid()
  {
    if b.phb[k] == 0 then 0 else GetPhbEvent(PhbReading(x.scom, k), b.phb[k])
  }

  /** The posting area zeroed; the debug area is not part of it. */
  function Wiped(cells: seq<Word64>): (w: seq<Word64>)
    requires |cells| == CELLS
    ensures |w| == CELLS
  {
    seq(CELLS, (c: int) requires 0 <= c < CELLS => if c < TOTAL_POSTINGS then 0 else cells[c])
  }

  // ---------- What one posting adds to a cell ----------

  function G1Increment(x: Context, c: nat): Word64 {
    var off: int := if x.mode == CNTL_MODE_DEBUG1 then c - DEBUG_START else c;
    if off == G1H || off == G1T then 1
    else if G1H < off < G1T then Field16(x.scom(CnpmScom((off - 1) / 4)), (off - 1) % 4)
    else 0
  }

  function XlinkIncrement(x: Context, c: nat): Word64 {
    if c == G2H || c == G2T then 1
    else if G2_1 <= c < G2T && Has(x.uav, MaskLink((c - G2_1) / 8)) then
      Field16(x.scom(LinkScom((c - G2_1) / 4)), (c - G2_1) % 4)
    else 0
  }

  function AlinkIncrement(x: Context, c: nat): Word64 {
    if G2_A0 <= c < G2_A0 + 16 && Has(x.uav, MaskAlink((c - G2_A0) / 8)) then
      Field16(x.scom(AlinkScom((c - G2_A0) / 4)), (c - G2_A0) % 4)
    else if G2_A2 <= c < G2_A2 + 16 && Has(x.uav, MaskAlink(2 + (c - G2_A2) / 8)) then
      Field16(x.scom(AlinkScom(4 + (c - G2_A2) / 4)), (c - G2_A2) % 4)
    else 0
  }

  function G3Increment(x: Context, c: nat): Word64 {
    if c == G3H || c == G3T then 1
    else if G3_1 <= c < G3_7 && Has(x.uav, MaskNvlink((c - G3_1) / 4)) then
      Field16(x.scom(NvlinkScom((c - G3_1) / 4)), (c - G3_1) % 4)
    else if G3_7 <= c < G3T && AnyNvlink(x.uav) then
      Field16(x.scom(NvlinkScom(6 + (c - G3_7) / 4)), (c - G3_7) % 4)
    else 0
  }

  function G4Increment(b: Banks, x: Context, c: nat): Word64
    requires b.Valid()
  {
    if c == G4H || c == G4T then 1
    else if G4A <= c < G4A + SLOTS && PhbVisited(G4, b, x, c - G4A) then PhbIncrement(b, x, c - G4A)
    else 0
  }

  function G5Increment(b: Banks, x: Context, c: nat): Word64
    requires b.Valid()
  {
    if c == G5H || c == G5T then 1
    else if G5_1 <= c < G5_1 + 12 && MbaVisited(G5, x, c - G5_1) then MbaIncrement(b, x, c - G5_1)
    else 0
  }

  function G6Increment(b: Banks, x: Context, c: nat): Word64
    requires b.Valid()
  {
    if c == G6H || c == G6T then 1
    else if G6_1 <= c < G6_1 + 12 && MbaVisited(G6, x, c - G6_1 + 12) then MbaIncrement(b, x, c - G6_1 + 12)
    else 0
  }

  /** Group 7 counts its start in the header of group 6. */
  function G7Increment(x: Context, c: nat): Word64 {
    if c == G6H || c == G7T then 1
    else if G7_1 <= c < G7_4
            && (Has(x.uav, MaskNvlink((c - G7_1) / 4 * 2)) || Has(x.uav, MaskNvlink((c - G7_1) / 4 * 2 + 1))) then
      Field16(x.scom(NpcqScom((c - G7_1) / 4)), (c - G7_1) % 4)
    else if G7_4 <= c < G7_6 && Has(x.uav, MaskCapp((c - G7_4) / 8)) then
      Field16(x.scom(CappScom((c - G7_4) / 4)), (c - G7_4) % 4)
    else 0
  }

  function Increment(g: Group, b: Banks, x: Context, c: nat): Word64
    requires b.Valid()
  {
    match g
    case G1 => G1Increment(x, c)
    case G2 => if b.xTurn then XlinkIncrement(x, c) else AlinkIncrement(x, c)
    case G3 => G3Increment(x, c)
    case G4 => G4Increment(b, x, c)
    case G5 => G5Increment(b, x, c)
    case G6 => G6Increment(b, x, c)
    case G7 => G7Increment(x, c)
  }

  /** A cell after a posting: every cell is added to, except that the time of day is stored. */
  function CellAfter(g: Group, b: Banks, x: Context, c: nat): Word64
    requires b.Valid() && c < CELLS
  {
    if g == G7 && c == G7_6 then x.scom(TOD_VALUE_REG) else Add64(b.cells[c], Increment(g, b, x, c))
  }

  function MbaAfter(g: Group, b: Banks, x: Context, k: Slot): Word32
    requires b.Valid()
  {
    if MbaVisited(g, x, k) then MbaReading(x.scom, k) else b.mba[k]
  }

  function PhbAfter(g: Group, b: Banks, x: Context, k: Slot): Word48
    requires b.Valid()
  {
    if PhbVisited(g, b, x, k) then PhbReading(x.scom, k) else b.phb[k]
  }

  function CellsAfter(g: Group, b: Banks, x: Context): (s: seq<Word64>)
    requires b.Valid()
    ensures |s| == CELLS
  {
    seq(CELLS, (c: int) requires 0 <= c < CELLS => CellAfter(g, b, x, c))
  }

  function MbasAfter(g: Group, b: Banks, x: Context): (s: seq<Word32>)
    requires b.Valid()
    ensures |s| == SLOTS
  {
    seq(SLOTS, (k: int) requires 0 <= k < SLOTS => MbaAfter(g, b, x, k))
  }

  function PhbsAfter(g: Group, b: Banks, x: Context): (s: seq<Word48>)
    requires b.Valid()
    ensures |s| == SLOTS
  {
    seq(SLOTS, (k: int) requires 0 <= k < SLOTS => PhbAfter(g, b, x, k))
  }

  /** One posting of a group. */
  function Post(g: Group, b: Banks, x: Context): (b': Banks)
    requires b.Valid()
    ensures b'.Valid()
  {
    Banks(CellsAfter(g, b, x), MbasAfter(g, b, x), PhbsAfter(g, b, x),
          if g == G4 then b.EpochStart() + 8 else b.phbEvents,
          if g == G2 then !b.xTurn else b.xTurn)
  }
}
