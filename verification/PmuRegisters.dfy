/** The posting area in terms of the counter registers: which register's bits each cell gains,
    with the addresses and unit masks listed as the firmware lists them (gpe1_24x7.h). */
module PmuRegisters {
  import opened MachineWords
  import opened CounterDeltas
  import opened PmuLayout
  import opened PmuLedger
  import opened Pmu24x7
  import opened Pmu24x7Runs

  const LINK_REGISTERS: seq<nat> := [
    0x501341b, 0x501341c, 0x501341d, 0x501341e, 0x501341f, 0x5013420, 0x20110a7, 0x20110aa]
  const LINK_UNITS: seq<bv64> := [0x4000000000, 0x2000000000, 0x1000000000, 0x8000000]

  const ALINK_REGISTERS: seq<nat> := [
    0x501381b, 0x501381c, 0x501381d, 0x501381e, 0x501381f, 0x5013820, 0x5013821, 0x5013822]
  const ALINK_UNITS: seq<bv64> := [0x400000, 0x200000, 0x100000, 0x80000]
  const ALINK_CELLS: seq<nat> := [149, 153, 157, 161, 183, 187, 191, 195]

  const NVLINK_REGISTERS: seq<nat> := [0x501111f, 0x501113f, 0x501131f, 0x501133f, 0x501151f, 0x501153f]
  const NVLINK_UNITS: seq<bv64> := [0x40000, 0x20000, 0x10000, 0x8000, 0x4000, 0x2000]

  const NPCQ_REGISTERS: seq<nat> := [0x50110c6, 0x50112c6, 0x50114c6]
  const NPCQ_UNITS: seq<bv64> := [0x60000, 0x18000, 0x6000]
  const CAPP_REGISTERS: seq<nat> := [0x2010815, 0x2010825, 0x4010815, 0x4010825]
  const CAPP_UNITS: seq<bv64> := [0x4000000, 0x2000000]

  predicate Bit(uav: bv64, mask: bv64) {
    uav & mask != 0
  }

  // ---------- The 16-bit counters ----------

  type Count16 = n: int | 0 <= n < 0x1_0000

  /** A register with four 16-bit counters. */
  function Quad(a: Count16, b: Count16, c: Count16, d: Count16): (w: Word64) {
    a * 0x1_0000_0000_0000 + b * 0x1_0000_0000 + c * 0x1_0000 + d
  }

  /** Four consecutive cells each gain a count. */
  predicate Gained(before: seq<Word64>, after: seq<Word64>, cell: nat, a: nat, b: nat, c: nat, d: nat)
    requires |before| == |after| == CELLS && cell + 4 <= CELLS
  {
    && after[cell] == (before[cell] + a) % 0x1_0000_0000_0000_0000
    && after[cell + 1] == (before[cell + 1] + b) % 0x1_0000_0000_0000_0000
    && after[cell + 2] == (before[cell + 2] + c) % 0x1_0000_0000_0000_0000
    && after[cell + 3] == (before[cell + 3] + d) % 0x1_0000_0000_0000_0000
  }

  lemma Fields(a: Count16, b: Count16, c: Count16, d: Count16)
    ensures var w := Quad(a, b, c, d);
            Field16(w, 0) == a && Field16(w, 1) == b && Field16(w, 2) == c && Field16(w, 3) == d
  {
    var w := Quad(a, b, c, d);
    Quotient(w, 0x1_0000_0000_0000, a, b * 0x1_0000_0000 + c * 0x1_0000 + d);
    Quotient(w, 0x1_0000_0000, a * 0x1_0000 + b, c * 0x1_0000 + d);
    Quotient(a * 0x1_0000 + b, 0x1_0000, a, b);
    Quotient(w, 0x1_0000, a * 0x1_0000_0000 + b * 0x1_0000 + c, d);
    Quotient(a * 0x1_0000_0000 + b * 0x1_0000 + c, 0x1_0000, a * 0x1_0000 + b, c);
  }

  /** The cells of a posting are those of the per-cell specification. */
  lemma CellOf(g: Group, b: Banks, x: Context, c: nat)
    requires b.Valid() && c < CELLS && !(g == G7 && c == G7_6)
    ensures Post(g, b, x).cells[c] == (b.cells[c] + Increment(g, b, x, c)) % 0x1_0000_0000_0000_0000
  {
    hide Increment;
  }

  /** Four cells that a posting adds the fields of a register to, if the unit is there. */
  lemma FourFields(g: Group, b: Banks, x: Context, cell: nat, there: bool, w: Word64,
                   p: Count16, q: Count16, r: Count16, s: Count16)
    requires b.Valid() && cell + 4 <= CELLS && !(g == G7 && cell <= G7_6 < cell + 4) && w == Quad(p, q, r, s)
    requires Increment(g, b, x, cell) == if there then Field16(w, 0) else 0
    requires Increment(g, b, x, cell + 1) == if there then Field16(w, 1) else 0
    requires Increment(g, b, x, cell + 2) == if there then Field16(w, 2) else 0
    requires Increment(g, b, x, cell + 3) == if there then Field16(w, 3) else 0
    ensures if there then Gained(b.cells, Post(g, b, x).cells, cell, p, q, r, s)
            else Gained(b.cells, Post(g, b, x).cells, cell, 0, 0, 0, 0)
  {
    hide Increment, Field16, Quad, Post;
    Fields(p, q, r, s);
    CellOf(g, b, x, cell);
    CellOf(g, b, x, cell + 1);
    CellOf(g, b, x, cell + 2);
    CellOf(g, b, x, cell + 3);
  }

  lemma HasIs(uav: bv64, mask: bv64)
    ensures Has(uav, mask) <==> Bit(uav, mask)
  {
  }

  /** Group 1: the eight nest registers, always, in the main area or that of the debug mode. */
  lemma NestCounters(b: Banks, x: Context, i: nat, p: Count16, q: Count16, r: Count16, s: Count16)
    requires b.Valid() && i < 8 && x.scom(0x5011c1a + i) == Quad(p, q, r, s)
    ensures Gained(b.cells, Post(G1, b, x).cells, (if x.mode == 1 then 239 else 1) + 4 * i, p, q, r, s)
  {
    hide Quad, Field16, Post;
    FourFields(G1, b, x, (if x.mode == 1 then 239 else 1) + 4 * i, true, x.scom(0x5011c1a + i), p, q, r, s);
  }

  lemma LinkCell(b: Banks, x: Context, i: nat, j: nat)
    requires b.Valid() && b.xTurn && i < 8 && j < 4
    ensures Increment(G2, b, x, 35 + 4 * i + j)
         == if Has(x.uav, MaskLink(i / 2)) then Field16(x.scom(LinkScom(i)), j) else 0
  {
    hide Has, MaskLink, LinkScom, Field16;
  }

  lemma LinkRegister(i: nat)
    requires i < 8
    ensures LinkScom(i) == LINK_REGISTERS[i]
  {
  }

  lemma LinkUnit(u: nat)
    requires u < 4
    ensures MaskLink(u) == LINK_UNITS[u]
  {
  }

  /** Group 2, in the turn of the X links: links 0 to 2 and the NX unit, two registers each. */
  lemma LinkCounters(b: Banks, x: Context, i: nat, p: Count16, q: Count16, r: Count16, s: Count16)
    requires b.Valid() && b.xTurn && i < 8 && x.scom(LINK_REGISTERS[i]) == Quad(p, q, r, s)
    ensures if Bit(x.uav, LINK_UNITS[i / 2]) then Gained(b.cells, Post(G2, b, x).cells, 35 + 4 * i, p, q, r, s)
            else Gained(b.cells, Post(G2, b, x).cells, 35 + 4 * i, 0, 0, 0, 0)
  {
    hide Quad, Field16, Post, Has, Bit, Increment, MaskLink, LinkScom;
    LinkRegister(i);
    LinkUnit(i / 2);
    HasIs(x.uav, LINK_UNITS[i / 2]);
    LinkCell(b, x, i, 0);
    LinkCell(b, x, i, 1);
    LinkCell(b, x, i, 2);
    LinkCell(b, x, i, 3);
    FourFields(G2, b, x, 35 + 4 * i, Bit(x.uav, LINK_UNITS[i / 2]), x.scom(LINK_REGISTERS[i]), p, q, r, s);
  }

  lemma AlinkCell(b: Banks, x: Context, i: nat, j: nat)
    requires b.Valid() && !b.xTurn && i < 8 && j < 4
    ensures Increment(G2, b, x, ALINK_CELLS[i] + j)
         == if Has(x.uav, MaskAlink(i / 2)) then Field16(x.scom(AlinkScom(i)), j) else 0
  {
    hide Has, MaskAlink, AlinkScom, Field16;
  }

  lemma AlinkRegister(i: nat)
    requires i < 8
    ensures AlinkScom(i) == ALINK_REGISTERS[i]
  {
  }

  lemma AlinkUnit(u: nat)
    requires u < 4
    ensures MaskAlink(u) == ALINK_UNITS[u]
  {
  }

  /** Group 2, in the turn of the A links. */
  lemma AlinkCounters(b: Banks, x: Context, i: nat, p: Count16, q: Count16, r: Count16, s: Count16)
    requires b.Valid() && !b.xTurn && i < 8 && x.scom(ALINK_REGISTERS[i]) == Quad(p, q, r, s)
    ensures if Bit(x.uav, ALINK_UNITS[i / 2]) then Gained(b.cells, Post(G2, b, x).cells, ALINK_CELLS[i], p, q, r, s)
            else Gained(b.cells, Post(G2, b, x).cells, ALINK_CELLS[i], 0, 0, 0, 0)
  {
    hide Quad, Field16, Post, Has, Bit, Increment, MaskAlink, AlinkScom;
    AlinkRegister(i);
    AlinkUnit(i / 2);
    HasIs(x.uav, ALINK_UNITS[i / 2]);
    AlinkCell(b, x, i, 0);
    AlinkCell(b, x, i, 1);
    AlinkCell(b, x, i, 2);
    AlinkCell(b, x, i, 3);
    FourFields(G2, b, x, ALINK_CELLS[i], Bit(x.uav, ALINK_UNITS[i / 2]), x.scom(ALINK_REGISTERS[i]), p, q, r, s);
  }

  lemma NvlinkCell(b: Banks, x: Context, i: nat, j: nat)
    requires b.Valid() && i < 6 && j < 4
    ensures Increment(G3, b, x, 69 + 4 * i + j)
         == if Has(x.uav, MaskNvlink(i)) then Field16(x.scom(NvlinkScom(i)), j) else 0
  {
    hide Has, MaskNvlink, NvlinkScom, Field16;
  }

  lemma NvlinkRegister(i: nat)
    requires i < 6
    ensures NvlinkScom(i) == NVLINK_REGISTERS[i]
  {
  }

  lemma NvlinkUnit(u: nat)
    requires u < 6
    ensures MaskNvlink(u) == NVLINK_UNITS[u]
  {
  }

  /** Group 3: one register for each NV link. */
  lemma NvlinkCounters(b: Banks, x: Context, i: nat, p: Count16, q: Count16, r: Count16, s: Count16)
    requires b.Valid() && i < 6 && x.scom(NVLINK_REGISTERS[i]) == Quad(p, q, r, s)
    ensures if Bit(x.uav, NVLINK_UNITS[i]) then Gained(b.cells, Post(G3, b, x).cells, 69 + 4 * i, p, q, r, s)
            else Gained(b.cells, Post(G3, b, x).cells, 69 + 4 * i, 0, 0, 0, 0)
  {
    hide Quad, Field16, Post, Has, Bit, Increment, MaskNvlink, NvlinkScom;
    NvlinkRegister(i);
    NvlinkUnit(i);
    HasIs(x.uav, NVLINK_UNITS[i]);
    NvlinkCell(b, x, i, 0);
    NvlinkCell(b, x, i, 1);
    NvlinkCell(b, x, i, 2);
    NvlinkCell(b, x, i, 3);
    FourFields(G3, b, x, 69 + 4 * i, Bit(x.uav, NVLINK_UNITS[i]), x.scom(NVLINK_REGISTERS[i]), p, q, r, s);
  }

  /** Group 3: ATS and XTS, when any NV link is there. */
  lemma SharedNvlinkCounters(b: Banks, x: Context, xts: bool, p: Count16, q: Count16, r: Count16, s: Count16)
    requires b.Valid() && x.scom(if xts then 0x5011648 else 0x5011601) == Quad(p, q, r, s)
    ensures var cell := if xts then 97 else 93;
            if Bit(x.uav, 0x7e000) then Gained(b.cells, Post(G3, b, x).cells, cell, p, q, r, s)
            else Gained(b.cells, Post(G3, b, x).cells, cell, 0, 0, 0, 0)
  {
    hide Quad, Field16, Post, Has, Bit, AnyNvlink;
    AnyNvlinkIs(x.uav);
    var register := if xts then 0x5011648 else 0x5011601;
    FourFields(G3, b, x, if xts then 97 else 93, Bit(x.uav, 0x7e000), x.scom(register), p, q, r, s);
  }

  lemma AnyNvlinkIs(uav: bv64)
    ensures AnyNvlink(uav) <==> Bit(uav, 0x7e000)
  {
  }

  lemma NpcqCell(b: Banks, x: Context, i: nat, j: nat)
    requires b.Valid() && i < 3 && j < 4
    ensures Increment(G7, b, x, 205 + 4 * i + j)
         == if Has(x.uav, MaskNvlink(2 * i)) || Has(x.uav, MaskNvlink(2 * i + 1)) then Field16(x.scom(NpcqScom(i)), j)
            else 0
  {
    hide Has, MaskNvlink, NpcqScom, Field16;
    assert (4 * i + j) / 4 == i;
  }

  lemma NpcqRegister(i: nat)
    requires i < 3
    ensures NpcqScom(i) == NPCQ_REGISTERS[i]
  {
  }

  lemma EitherNvlinkIs(uav: bv64, u: nat)
    requires u < 3
    ensures Has(uav, MaskNvlink(2 * u)) || Has(uav, MaskNvlink(2 * u + 1)) <==> Bit(uav, NPCQ_UNITS[u])
  {
  }

  /** Group 7: each NPCQ, when either of its two NV links is there. */
  lemma NpcqCounters(b: Banks, x: Context, i: nat, p: Count16, q: Count16, r: Count16, s: Count16)
    requires b.Valid() && i < 3 && x.scom(NPCQ_REGISTERS[i]) == Quad(p, q, r, s)
    ensures if Bit(x.uav, NPCQ_UNITS[i]) then Gained(b.cells, Post(G7, b, x).cells, 205 + 4 * i, p, q, r, s)
            else Gained(b.cells, Post(G7, b, x).cells, 205 + 4 * i, 0, 0, 0, 0)
  {
    hide Quad, Field16, Post, Has, Bit, Increment, MaskNvlink, NpcqScom;
    NpcqRegister(i);
    EitherNvlinkIs(x.uav, i);
    NpcqCell(b, x, i, 0);
    NpcqCell(b, x, i, 1);
    NpcqCell(b, x, i, 2);
    NpcqCell(b, x, i, 3);
    FourFields(G7, b, x, 205 + 4 * i, Bit(x.uav, NPCQ_UNITS[i]), x.scom(NPCQ_REGISTERS[i]), p, q, r, s);
  }

  lemma CappCell(b: Banks, x: Context, i: nat, j: nat)
    requires b.Valid() && i < 4 && j < 4
    ensures Increment(G7, b, x, 217 + 4 * i + j)
         == if Has(x.uav, MaskCapp(i / 2)) then Field16(x.scom(CappScom(i)), j) else 0
  {
    hide Has, MaskCapp, CappScom, Field16;
  }

  lemma CappRegister(i: nat)
    requires i < 4
    ensures CappScom(i) == CAPP_REGISTERS[i]
  {
  }

  lemma CappUnit(u: nat)
    requires u < 2
    ensures MaskCapp(u) == CAPP_UNITS[u]
  {
  }

  /** Group 7: the two registers of each CAPP. */
  lemma CappCounters(b: Banks, x: Context, i: nat, p: Count16, q: Count16, r: Count16, s: Count16)
    requires b.Valid() && i < 4 && x.scom(CAPP_REGISTERS[i]) == Quad(p, q, r, s)
    ensures if Bit(x.uav, CAPP_UNITS[i / 2]) then Gained(b.cells, Post(G7, b, x).cells, 217 + 4 * i, p, q, r, s)
            else Gained(b.cells, Post(G7, b, x).cells, 217 + 4 * i, 0, 0, 0, 0)
  {
    hide Quad, Field16, Post, Has, Bit, Increment, MaskCapp, CappScom;
    CappRegister(i);
    CappUnit(i / 2);
    HasIs(x.uav, CAPP_UNITS[i / 2]);
    CappCell(b, x, i, 0);
    CappCell(b, x, i, 1);
    CappCell(b, x, i, 2);
    CappCell(b, x, i, 3);
    FourFields(G7, b, x, 217 + 4 * i, Bit(x.uav, CAPP_UNITS[i / 2]), x.scom(CAPP_REGISTERS[i]), p, q, r, s);
  }

  // ---------- Headers, the time of day, and cells that nothing is added to ----------

  /** The cells of a group; group 7 starts in the header of group 6. */
  predicate Owns(g: Group, debug: bool, xTurn: bool, c: nat) {
    match g
    case G1 => if debug then 238 <= c < 272 else c < 34
    case G2 => if xTurn then 34 <= c < 68 else 149 <= c < 165 || 183 <= c < 199
    case G3 => 68 <= c < 102
    case G4 => 102 <= c < 127 || c == 135
    case G5 => 136 <= c < 149 || c == 169
    case G6 => 170 <= c < 183 || c == 203
    case G7 => c == 170 || 205 <= c < 234 || c == 237
  }

  lemma NothingElse(g: Group, b: Banks, x: Context, c: nat)
    requires b.Valid() && c < 272 && !Owns(g, x.mode == 1, b.xTurn, c)
    ensures Increment(g, b, x, c) == 0
  {
    hide Field16, Has, AnyNvlink, MbaIncrement, PhbIncrement, MbaVisited, PhbVisited,
         CnpmScom, LinkScom, AlinkScom, NvlinkScom, NpcqScom, CappScom;
  }

  lemma CountsOne(g: Group, b: Banks, x: Context, c: nat)
    requires b.Valid() && c in {0, 33, 34, 67, 68, 101, 102, 135, 136, 169, 170, 203, 237, 238, 271}
    requires Owns(g, x.mode == 1, b.xTurn, c)
    ensures Increment(g, b, x, c) == 1
  {
    hide Field16, Has, AnyNvlink, MbaIncrement, PhbIncrement, MbaVisited, PhbVisited,
         CnpmScom, LinkScom, AlinkScom, NvlinkScom, NpcqScom, CappScom;
  }

  /** Every other cell is left alone; a header and a trailer count one, and the time is stored. */
  lemma OtherCells(g: Group, b: Banks, x: Context, c: nat)
    requires b.Valid() && c < 272
    ensures !Owns(g, x.mode == 1, b.xTurn, c) ==> Post(g, b, x).cells[c] == b.cells[c]
    ensures c in {0, 33, 34, 67, 68, 101, 102, 135, 136, 169, 170, 203, 237, 238, 271}
            && Owns(g, x.mode == 1, b.xTurn, c) ==>
              Post(g, b, x).cells[c] == (b.cells[c] as int + 1) % 0x1_0000_0000_0000_0000
    ensures g == G7 && c == 233 ==> Post(g, b, x).cells[c] == x.scom(0x40020)
    ensures Post(g, b, x).xTurn == (if g == G2 then !b.xTurn else b.xTurn)
  {
    hide Increment;
    if !Owns(g, x.mode == 1, b.xTurn, c) {
      NothingElse(g, b, x, c);
    } else if c in {0, 33, 34, 67, 68, 101, 102, 135, 136, 169, 170, 203, 237, 238, 271} {
      CountsOne(g, b, x, c);
    }
  }

  /** Which group's postings a header or trailer counts. */
  predicate CountsFor(c: nat, g: Group) {
    match g
    case G3 => c in {68, 101}
    case G4 => c in {102, 135}
    case G5 => c in {136, 169}
    case G6 => c in {170, 203}
    case G7 => c in {170, 237}
    case _ => false
  }

  lemma OneHeader(b: Banks, e: Event, c: nat)
    requires b.Valid() && c in {68, 101, 102, 135, 136, 169, 170, 203, 237} && e != Wipe
    ensures After(b, e).cells[c]
         == (b.cells[c] as int + if e.Posted? && CountsFor(c, e.g) then 1 else 0) % 0x1_0000_0000_0000_0000
  {
    hide Post;
    if e.Posted? {
      OtherCells(e.g, b, e.x, c);
    }
  }

  /** What a header or trailer counts over a run. */
  function Counted(c: nat, trace: seq<Event>): nat {
    if c in {68, 101} then Postings(G3, trace)
    else if c in {102, 135} then Postings(G4, trace)
    else if c in {136, 169} then Postings(G5, trace)
    else if c == 203 then Postings(G6, trace)
    else if c == 237 then Postings(G7, trace)
    else Postings(G6, trace) + Postings(G7, trace)
  }

  lemma OneMoreCounted(c: nat, trace: seq<Event>)
    requires c in {68, 101, 102, 135, 136, 169, 170, 203, 237}
    ensures var n := |trace|;
            Counted(c, trace)
            == if n == 0 then 0
               else Counted(c, trace[..n - 1]) + if trace[n - 1].Posted? && CountsFor(c, trace[n - 1].g) then 1 else 0
  {
  }

  /** Over any run without a wipe, header and trailer of groups 3 to 7 count that group's
      postings; the header of group 6 those of group 7 as well. */
  lemma {:induction false} HeadersCountPostings(b: Banks, trace: seq<Event>, c: nat)
    requires b.Valid() && Wipe !in trace && c in {68, 101, 102, 135, 136, 169, 170, 203, 237}
    ensures Replay(b, trace).cells[c] == (b.cells[c] + Counted(c, trace)) % 0x1_0000_0000_0000_0000
  {
    hide After, Counted, CountsFor;
    var n := |trace|;
    OneMoreCounted(c, trace);
    if n > 0 {
      var most, e := trace[..n - 1], trace[n - 1];
      HeadersCountPostings(b, most, c);
      OneHeader(Replay(b, most), e, c);
      AddModulo64(b.cells[c] + Counted(c, most), if e.Posted? && CountsFor(c, e.g) then 1 else 0);
    }
  }

  lemma OneTurn(b: Banks, e: Event, c: nat)
    requires b.Valid() && c in {34, 67} && e != Wipe
    ensures After(b, e).cells[c]
         == (b.cells[c] as int + if e.Posted? && e.g == G2 && b.xTurn then 1 else 0) % 0x1_0000_0000_0000_0000
    ensures After(b, e).xTurn == (b.xTurn != (e.Posted? && e.g == G2))
  {
    hide Post;
    if e.Posted? {
      OtherCells(e.g, b, e.x, c);
    }
  }

  /** X and A links take turns over any run without a wipe, and header and trailer of group 2
      count every other posting of it. */
  lemma {:induction false} TurnsAlternate(b: Banks, trace: seq<Event>, c: nat)
    requires b.Valid() && Wipe !in trace && c in {34, 67}
    ensures Replay(b, trace).xTurn == (b.xTurn == (Postings(G2, trace) % 2 == 0))
    ensures Replay(b, trace).cells[c]
         == (b.cells[c] + (Postings(G2, trace) + if b.xTurn then 1 else 0) / 2) % 0x1_0000_0000_0000_0000
  {
    hide After;
    var n := |trace|;
    if n > 0 {
      var most, e := trace[..n - 1], trace[n - 1];
      TurnsAlternate(b, most, c);
      OneTurn(Replay(b, most), e, c);
      var p := Postings(G2, most) + if b.xTurn then 1 else 0;
      AddModulo64(b.cells[c] + p / 2, if e.Posted? && e.g == G2 && p % 2 == 1 then 1 else 0);
    }
  }

  /** Between the counters of groups 4 to 7 lie cells for which there is no unit. */
  predicate NoUnit(c: nat) {
    127 <= c < 135 || 165 <= c < 169 || 199 <= c < 203 || c == 204 || 234 <= c < 237
  }

  lemma {:induction false} NoUnitNoCount(b: Banks, trace: seq<Event>, c: nat)
    requires b.Valid() && NoUnit(c) && (b.cells[c] == 0 || Wipe in trace)
    ensures Replay(b, trace).cells[c] == 0
  {
    hide After;
    var n := |trace|;
    if n > 0 {
      var most, e := trace[..n - 1], trace[n - 1];
      assert Wipe in trace ==> Wipe in most || e == Wipe;
      if b.cells[c] == 0 || Wipe in most {
        NoUnitNoCount(b, most, c);
      }
      NoUnitAfter(Replay(b, most), e, c);
    }
  }

  lemma NoUnitAfter(b: Banks, e: Event, c: nat)
    requires b.Valid() && NoUnit(c)
    ensures After(b, e).cells[c] == if e == Wipe then 0 else b.cells[c]
  {
    hide Post;
    if e.Posted? {
      OtherCells(e.g, b, e.x, c);
    }
  }

  /** In every run from the first call on they are zero. */
  lemma NoUnitStaysZero(t: Tables, s: Collection, calls: seq<Input>, c: nat)
    requires t.Valid() && s.Valid() && |calls| > 0 && calls[0].ticks == 0 && NoUnit(c)
    ensures Run(t, s, calls).banks.cells[c] == 0
  {
    hide Run, Trace, Tables.Valid, Replay;
    FirstCallWipes(t, s, calls);
    RunReplays(t, s, calls);
    NoUnitNoCount(s.banks, Trace(t, s, calls), c);
  }
}
