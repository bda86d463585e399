/** Posting the counters of a group to main memory (gpe1_24x7.c, post_pmu_events). Main
    memory is written through a PBA slave that either stores or atomically adds. */
module PmuPostings {
  import opened MachineWords
  import opened CounterDeltas
  import opened PmuLayout

  datatype PbaMode = SetDma | SetAtomic

  class Postings {
    var pba: PbaMode
    var cells: seq<Word64>
    const mba: array<Word32>
    const phb: array<Word48>
    var phbEvents: nat
    var xALinksFlag: bool

    constructor (initial: seq<Word64>)
      requires |initial| == CELLS
      ensures Valid() && fresh(mba) && fresh(phb)
      ensures Contents() == Banks(initial, seq(SLOTS, _ => 0), seq(SLOTS, _ => 0), 0, false)
    {
      pba, cells, phbEvents, xALinksFlag := SetDma, initial, 0, false;
      mba := new Word32[SLOTS](_ => 0);
      phb := new Word48[SLOTS](_ => 0);
    }

    ghost predicate Valid()
      reads this`cells, this`phbEvents
    {
      |cells| == CELLS && mba.Length == SLOTS && phb.Length == SLOTS && phbEvents in {0, 8, 16, 24}
    }

    ghost function Contents(): Banks
      reads this`cells, this`phbEvents, this`xALinksFlag, mba, phb
    {
      Banks(cells, mba[..], phb[..], phbEvents, xALinksFlag)
    }

    /** A write to a cell, as the PBA slave carries it out. */
    method Write(cell: nat, v: Word64)
      requires cell < |cells|
      modifies this`cells
      ensures cells == old(cells)[cell := if pba == SetAtomic then Add64(old(cells[cell]), v) else v]
    {
      cells := cells[cell := if pba == SetAtomic then Add64(cells[cell], v) else v];
    }

    /** Zeroes the posting area. */
    method InitializePostings()
      requires |cells| == CELLS
      modifies this`cells, this`pba
      ensures cells == Wiped(old(cells)) && pba == SetDma
    {
      pba := SetDma;
      var i := 0;
      while i < TOTAL_POSTINGS
        invariant 0 <= i <= TOTAL_POSTINGS && |cells| == CELLS && pba == SetDma
        invariant forall c :: 0 <= c < CELLS ==> cells[c] == if c < i then 0 else old(cells[c])
      {
        Write(i, 0);
        i := i + 1;
      }
      assert cells == Wiped(old(cells));
    }

    /** PAUSE forgets every last reading. */
    method ForgetReadings()
      requires Valid()
      modifies mba, phb
      ensures mba[..] == seq(SLOTS, _ => 0) && phb[..] == seq(SLOTS, _ => 0)
    {
      var iter := 0;
      while iter < SLOTS
        invariant 0 <= iter <= SLOTS
        invariant forall k :: 0 <= k < iter ==> mba[k] == 0 && phb[k] == 0
      {
        phb[iter] := 0;
        mba[iter] := 0;
        iter := iter + 1;
      }
    }

    // ---------- Writing cells in ascending order ----------

    /** The cells below `upto` are as the posting leaves them, the others as it found them. */
    ghost predicate Applied(g: Group, b: Banks, x: Context, upto: int)
      requires b.Valid()
      reads this
    {
      |cells| == CELLS
      && forall c :: 0 <= c < CELLS ==> cells[c] == if c < upto then CellAfter(g, b, x, c) else b.cells[c]
    }

    /** Nothing is to be added to the cells of a stretch. */
    ghost predicate Untouched(g: Group, b: Banks, x: Context, from: int, to: int)
      requires b.Valid()
    {
      forall c: nat :: from <= c < to && c < CELLS ==> CellAfter(g, b, x, c) == b.cells[c]
    }

    /** Moves on to a cell, over a stretch that is left alone, and adds to it. */
    method PostCell(ghost g: Group, ghost b: Banks, ghost x: Context, ghost from: int, cell: nat, v: Word64)
      requires b.Valid() && Applied(g, b, x, from) && from <= cell < CELLS && Untouched(g, b, x, from, cell)
      requires pba == SetAtomic && CellAfter(g, b, x, cell) == Add64(b.cells[cell], v)
      modifies this`cells
      ensures Applied(g, b, x, cell + 1)
    {
      hide CellAfter;
      Write(cell, v);
    }

    /** Posts the four 16-bit counters of a register to consecutive cells. */
    method PostRegister(ghost g: Group, ghost b: Banks, ghost x: Context, ghost from: int, cell: nat, pmulet: Word64)
      requires b.Valid() && Applied(g, b, x, from) && from <= cell && cell + 4 <= CELLS
      requires Untouched(g, b, x, from, cell)
      requires pba == SetAtomic
      requires forall j :: 0 <= j < 4 ==> CellAfter(g, b, x, cell + j) == Add64(b.cells[cell + j], Field16(pmulet, j))
      modifies this`cells
      ensures Applied(g, b, x, cell + 4)
    {
      hide CellAfter, Field16, Add64;
      PostCell(g, b, x, from, cell, Field16(pmulet, 0));
      var j := 1;
      while j < 4
        invariant 1 <= j <= 4 && Applied(g, b, x, cell + j)
      {
        PostCell(g, b, x, cell + j, cell + j, Field16(pmulet, j));
        j := j + 1;
      }
    }

    /** Marks the unit in a debug cell, which is a plain store, and goes back to adding. */
    method SelectUnit()
      modifies this`pba
      ensures pba == SetAtomic
    {
      pba := SetDma;
      pba := SetAtomic;
    }

    /** A stretch that is left alone counts as done. */
    lemma Extend(g: Group, b: Banks, x: Context, from: int, to: int)
      requires b.Valid() && Applied(g, b, x, from) && from <= to && Untouched(g, b, x, from, to)
      ensures Applied(g, b, x, to)
    {
      hide CellAfter;
    }

    /** A cell with no increment keeps its value. */
    lemma ZeroAdds(g: Group, b: Banks, x: Context)
      requires b.Valid()
      ensures forall c: nat :: c < CELLS && Increment(g, b, x, c) == 0 && !(g == G7 && c == G7_6) ==>
                CellAfter(g, b, x, c) == b.cells[c]
    {
      hide Increment;
    }

    /** With nothing left to add the cells are those of the specification. */
    lemma Finish(g: Group, b: Banks, x: Context, from: int)
      requires b.Valid() && Applied(g, b, x, from) && Untouched(g, b, x, from, CELLS)
      ensures cells == CellsAfter(g, b, x)
    {
      hide CellAfter;
      assert forall c: nat :: c < CELLS ==> cells[c] == CellsAfter(g, b, x)[c];
    }

    // ---------- Group 1: always present ----------

    method PostG1(x: Context, ghost b: Banks)
      requires Valid() && b == Contents()
      modifies this`cells, this`pba
      ensures cells == CellsAfter(G1, b, x)
    {
      hide CellAfter, Field16, Add64;
      var base := G1Base(x.mode);
      pba := SetAtomic;
      G1Marks(b, x);
      PostCell(G1, b, x, 0, base + G1H, 1);
      var i := 0;
      while i < 8
        invariant 0 <= i <= 8 && pba == SetAtomic && Applied(G1, b, x, base + 1 + 4 * i)
      {
        CnpmCells(b, x, i);
        PostRegister(G1, b, x, base + 1 + 4 * i, base + 1 + 4 * i, x.scom(CnpmScom(i)));
        i := i + 1;
      }
      PostCell(G1, b, x, base + G1T, base + G1T, 1);
      Finish(G1, b, x, base + G1T + 1);
    }

    /** In debug mode the group goes to the debug area; any other mode uses the main one. */
    static function G1Base(mode: Word64): nat {
      if mode == CNTL_MODE_DEBUG1 then DEBUG_START else 0
    }

    lemma G1Marks(b: Banks, x: Context)
      requires b.Valid()
      ensures var base := G1Base(x.mode);
              && Untouched(G1, b, x, 0, base + G1H) && Untouched(G1, b, x, base + G1T + 1, CELLS)
              && CellAfter(G1, b, x, base + G1H) == Add64(b.cells[base + G1H], 1)
              && CellAfter(G1, b, x, base + G1T) == Add64(b.cells[base + G1T], 1)
    {
      hide Field16, Add64;
      ZeroAdds(G1, b, x);
    }

    lemma CnpmCells(b: Banks, x: Context, i: nat)
      requires b.Valid() && i < 8
      ensures var cell := G1Base(x.mode) + 1 + 4 * i;
              forall j :: 0 <= j < 4 ==>
                CellAfter(G1, b, x, cell + j) == Add64(b.cells[cell + j], Field16(x.scom(CnpmScom(i)), j))
    {
      hide Field16, Add64, CnpmScom;
    }

    // ---------- Group 2: X links and NX, or A links, in turn ----------

    method PostG2(x: Context, ghost b: Banks)
      requires Valid() && b == Contents()
      modifies this`cells, this`pba, this`xALinksFlag
      ensures cells == CellsAfter(G2, b, x) && xALinksFlag == !b.xTurn
    {
      hide Field16, Add64, Has;
      ZeroAdds(G2, b, x);
      if xALinksFlag {
        xALinksFlag := false;
        pba := SetAtomic;
        PostG2Cell(x, b, 0, G2H);
        PostXlink(x, b, 0);
        PostXlink(x, b, 1);
        PostXlink(x, b, 2);
        PostXlink(x, b, 3);
        PostG2Cell(x, b, G2T, G2T);
        Finish(G2, b, x, G2T + 1);
      } else {
        xALinksFlag := true;
        Extend(G2, b, x, 0, G2_A0);
        PostAlink(x, b, 0, G2_A0);
        PostAlink(x, b, 1, G2_A0 + 8);
        Extend(G2, b, x, G2_A0 + 16, G2_A2);
        PostAlink(x, b, 2, G2_A2);
        PostAlink(x, b, 3, G2_A2 + 8);
        Finish(G2, b, x, G2_A2 + 16);
      }
    }

    method PostG2Cell(ghost x: Context, ghost b: Banks, ghost from: int, cell: nat)
      requires b.Valid() && b.xTurn && cell in {G2H, G2T} && from <= cell && pba == SetAtomic
      requires Applied(G2, b, x, from) && Untouched(G2, b, x, from, cell)
      modifies this`cells
      ensures Applied(G2, b, x, cell + 1)
    {
      PostCell(G2, b, x, from, cell, 1);
    }

    method PostXlink(x: Context, ghost b: Banks, u: nat)
      requires b.Valid() && b.xTurn && u < 4 && pba == SetAtomic && Applied(G2, b, x, G2_1 + 8 * u)
      modifies this`cells, this`pba
      ensures pba == SetAtomic && Applied(G2, b, x, G2_1 + 8 * (u + 1))
    {
      hide Field16, Add64, Has;
      var cell := G2_1 + 8 * u;
      if Has(x.uav, MaskLink(u)) {
        SelectUnit();
        PostRegister(G2, b, x, cell, cell, x.scom(LinkScom(2 * u)));
        PostRegister(G2, b, x, cell + 4, cell + 4, x.scom(LinkScom(2 * u + 1)));
      } else {
        ZeroAdds(G2, b, x);
        Extend(G2, b, x, cell, cell + 8);
      }
    }

    method PostAlink(x: Context, ghost b: Banks, u: nat, cell: nat)
      requires b.Valid() && !b.xTurn && u < 4 && cell == (if u < 2 then G2_A0 + 8 * u else G2_A2 + 8 * (u - 2))
      requires Applied(G2, b, x, cell)
      modifies this`cells, this`pba
      ensures Applied(G2, b, x, cell + 8)
    {
      hide Field16, Add64, Has;
      if Has(x.uav, MaskAlink(u)) {
        SelectUnit();
        PostRegister(G2, b, x, cell, cell, x.scom(AlinkScom(2 * u)));
        PostRegister(G2, b, x, cell + 4, cell + 4, x.scom(AlinkScom(2 * u + 1)));
      } else {
        ZeroAdds(G2, b, x);
        Extend(G2, b, x, cell, cell + 8);
      }
    }

    // ---------- Group 3: NV links ----------

    method PostG3(x: Context, ghost b: Banks)
      requires Valid() && b == Contents()
      modifies this`cells, this`pba
      ensures cells == CellsAfter(G3, b, x)
    {
      hide Field16, Has, AnyNvlink, Add64;
      ZeroAdds(G3, b, x);
      pba := SetAtomic;
      PostG3Cell(x, b, 0, G3H);
      PostNvlink(x, b, 0);
      PostNvlink(x, b, 1);
      PostNvlink(x, b, 2);
      PostNvlink(x, b, 3);
      PostNvlink(x, b, 4);
      PostNvlink(x, b, 5);
      PostSharedNvlink(x, b);
      PostG3Cell(x, b, G3T, G3T);
      Finish(G3, b, x, G3T + 1);
    }

    /** The ATS and XTS counters, read when any NV link is there. */
    method PostSharedNvlink(x: Context, ghost b: Banks)
      requires b.Valid() && pba == SetAtomic && Applied(G3, b, x, G3_7)
      modifies this`cells, this`pba
      ensures pba == SetAtomic && Applied(G3, b, x, G3T)
    {
      hide Field16, Has, AnyNvlink, Add64;
      if AnyNvlink(x.uav) {
        SelectUnit();
        PostRegister(G3, b, x, G3_7, G3_7, x.scom(NvlinkScom(6)));
        PostRegister(G3, b, x, G3_7 + 4, G3_7 + 4, x.scom(NvlinkScom(7)));
      } else {
        ZeroAdds(G3, b, x);
        Extend(G3, b, x, G3_7, G3T);
      }
    }

    method PostG3Cell(ghost x: Context, ghost b: Banks, ghost from: int, cell: nat)
      requires b.Valid() && cell in {G3H, G3T} && from <= cell && pba == SetAtomic
      requires Applied(G3, b, x, from) && Untouched(G3, b, x, from, cell)
      modifies this`cells
      ensures Applied(G3, b, x, cell + 1)
    {
      PostCell(G3, b, x, from, cell, 1);
    }

    method PostNvlink(x: Context, ghost b: Banks, u: nat)
      requires b.Valid() && u < 6 && pba == SetAtomic && Applied(G3, b, x, G3_1 + 4 * u)
      modifies this`cells, this`pba
      ensures pba == SetAtomic && Applied(G3, b, x, G3_1 + 4 * (u + 1))
    {
      hide Field16, Add64, Has;
      var cell := G3_1 + 4 * u;
      if Has(x.uav, MaskNvlink(u)) {
        SelectUnit();
        PostRegister(G3, b, x, cell, cell, x.scom(NvlinkScom(u)));
      } else {
        ZeroAdds(G3, b, x);
        Extend(G3, b, x, cell, cell + 4);
      }
    }

    // ---------- Group 4: eight of the 24 PHB counters ----------

    /** The baselines below `upto` are as the posting leaves them. */
    ghost predicate PhbsApplied(b: Banks, x: Context, upto: int)
      requires b.Valid() && phb.Length == SLOTS
      reads this, phb
    {
      forall k: Slot :: phb[k] == if k < upto then PhbAfter(G4, b, x, k) else b.phb[k]
    }

    method PostG4(x: Context, ghost b: Banks)
      requires Valid() && b == Contents()
      modifies this`cells, this`pba, this`phbEvents, phb
      ensures cells == CellsAfter(G4, b, x) && phb[..] == PhbsAfter(G4, b, x) && phbEvents == b.EpochStart() + 8
    {
      hide Has, PhbIncrement, Add64;
      ZeroAdds(G4, b, x);
      pba := SetAtomic;
      PostG4Cell(x, b, 0, G4H);
      if phbEvents > 23 {
        phbEvents := 0;
      }
      var epoch := phbEvents / 8;
      Extend(G4, b, x, G4A, G4A + phbEvents);
      PostPhb(x, b, 2 * epoch);
      PostPhb(x, b, 2 * epoch + 1);
      PostG4Cell(x, b, G4A + phbEvents, G4T);
      Finish(G4, b, x, G4T + 1);
      assert phb[..] == PhbsAfter(G4, b, x);
    }

    method PostG4Cell(ghost x: Context, ghost b: Banks, ghost from: int, cell: nat)
      requires b.Valid() && cell in {G4H, G4T} && from <= cell && pba == SetAtomic
      requires Applied(G4, b, x, from) && Untouched(G4, b, x, from, cell)
      modifies this`cells
      ensures Applied(G4, b, x, cell + 1)
    {
      PostCell(G4, b, x, from, cell, 1);
    }

    /** One PHB: its four counters, each against its own last reading. */
    method PostPhb(x: Context, ghost b: Banks, unit: nat)
      requires b.Valid() && unit < 6 && phb.Length == SLOTS && pba == SetAtomic
      requires phbEvents == 4 * unit && b.EpochStart() <= 4 * unit < b.EpochStart() + 8
      requires Applied(G4, b, x, G4A + phbEvents) && PhbsApplied(b, x, phbEvents)
      modifies this`cells, this`pba, this`phbEvents, phb
      ensures phbEvents == 4 * unit + 4 && pba == SetAtomic
      ensures Applied(G4, b, x, G4A + phbEvents) && PhbsApplied(b, x, phbEvents)
    {
      hide Add64, Has, PhbReading, PhbVisited, CellAfter, PhbAfter;
      if Has(x.uav, MaskPhb(unit)) {
        SelectUnit();
        var i := 0;
        while i < 4
          invariant 0 <= i <= 4 && phbEvents == 4 * unit + i && pba == SetAtomic
          invariant Applied(G4, b, x, G4A + phbEvents) && PhbsApplied(b, x, phbEvents)
        {
          PhbSlot(b, x, unit, i);
          PostPhbSlot(x, b, phbEvents, High48(x.scom(PhbScom(unit, i))));
          phbEvents := phbEvents + 1;
          i := i + 1;
        }
      } else {
        SkipPhb(x, b, unit);
        phbEvents := phbEvents + 4;
      }
    }

    /** The four slots of a PHB. */
    lemma PhbSlot(b: Banks, x: Context, unit: nat, i: nat)
      requires b.Valid() && unit < 6 && i < 4 && b.EpochStart() <= 4 * unit < b.EpochStart() + 8
      ensures PhbVisited(G4, b, x, 4 * unit + i) <==> Has(x.uav, MaskPhb(unit))
      ensures PhbReading(x.scom, 4 * unit + i) == High48(x.scom(PhbScom(unit, i)))
    {
      hide Has, High48, MaskPhb, PhbScom;
      assert (4 * unit + i) / 4 == unit && (4 * unit + i) % 4 == i;
    }

    lemma SkipPhb(x: Context, b: Banks, unit: nat)
      requires b.Valid() && unit < 6 && phb.Length == SLOTS && !Has(x.uav, MaskPhb(unit))
      requires Applied(G4, b, x, G4A + 4 * unit) && PhbsApplied(b, x, 4 * unit)
      ensures Applied(G4, b, x, G4A + 4 * unit + 4) && PhbsApplied(b, x, 4 * unit + 4)
    {
      hide Has, PhbReading, Add64, PhbIncrement;
      ZeroAdds(G4, b, x);
      Extend(G4, b, x, G4A + 4 * unit, G4A + 4 * unit + 4);
    }

    method PostPhbSlot(ghost x: Context, ghost b: Banks, slot: Slot, reading: Word48)
      requires b.Valid() && phb.Length == SLOTS && pba == SetAtomic
      requires PhbVisited(G4, b, x, slot) && reading == PhbReading(x.scom, slot)
      requires Applied(G4, b, x, G4A + slot) && PhbsApplied(b, x, slot)
      modifies this`cells, phb
      ensures Applied(G4, b, x, G4A + slot + 1) && PhbsApplied(b, x, slot + 1)
    {
      hide Has, High48, GetPhbEvent;
      var delta := GetPhbEvent(reading, phb[slot]);
      if phb[slot] != 0 {
        PostCell(G4, b, x, PhbCell(slot), PhbCell(slot), delta);
      } else {
        ZeroAdds(G4, b, x);
        Extend(G4, b, x, PhbCell(slot), PhbCell(slot) + 1);
      }
      phb[slot] := reading;
    }

    // ---------- Groups 5 and 6: the memory buffers ----------

    ghost predicate MbasApplied(g: Group, b: Banks, x: Context, upto: int)
      requires b.Valid() && mba.Length == SLOTS
      reads this, mba
    {
      forall k: Slot :: mba[k] == if k < upto then MbaAfter(g, b, x, k) else b.mba[k]
    }

    method PostG5(x: Context, ghost b: Banks)
      requires Valid() && b == Contents()
      modifies this`cells, this`pba, mba
      ensures cells == CellsAfter(G5, b, x) && mba[..] == MbasAfter(G5, b, x)
    {
      hide Has, MbaIncrement, MbaReading, Add64;
      ZeroAdds(G5, b, x);
      pba := SetAtomic;
      PostMbaCell(G5, x, b, 0, G5H);
      PostMba(G5, x, b, 0);
      PostMba(G5, x, b, 1);
      PostMba(G5, x, b, 2);
      PostMba(G5, x, b, 3);
      PostMbaCell(G5, x, b, G5_1 + 12, G5T);
      Finish(G5, b, x, G5T + 1);
      assert mba[..] == MbasAfter(G5, b, x);
    }

    method PostG6(x: Context, ghost b: Banks)
      requires Valid() && b == Contents()
      modifies this`cells, this`pba, mba
      ensures cells == CellsAfter(G6, b, x) && mba[..] == MbasAfter(G6, b, x)
    {
      hide Has, MbaIncrement, MbaReading, Add64;
      ZeroAdds(G6, b, x);
      pba := SetAtomic;
      PostMbaCell(G6, x, b, 0, G6H);
      PostMba(G6, x, b, 4);
      PostMba(G6, x, b, 5);
      PostMba(G6, x, b, 6);
      PostMba(G6, x, b, 7);
      PostMbaCell(G6, x, b, G6_1 + 12, G6T);
      Finish(G6, b, x, G6T + 1);
      assert mba[..] == MbasAfter(G6, b, x);
    }

    method PostMbaCell(ghost g: Group, ghost x: Context, ghost b: Banks, ghost from: int, cell: nat)
      requires b.Valid() && (if g == G5 then cell in {G5H, G5T} else g == G6 && cell in {G6H, G6T})
      requires from <= cell && pba == SetAtomic
      requires Applied(g, b, x, from) && Untouched(g, b, x, from, cell)
      modifies this`cells
      ensures Applied(g, b, x, cell + 1)
    {
      PostCell(g, b, x, from, cell, 1);
    }

    /** One memory buffer: two 32-bit counters and its cycles, which count double. */
    method PostMba(ghost g: Group, x: Context, ghost b: Banks, m: nat)
      requires b.Valid() && m < 8 && g == (if m < 4 then G5 else G6) && mba.Length == SLOTS && pba == SetAtomic
      requires Applied(g, b, x, MbaCell(3 * m)) && MbasApplied(g, b, x, 3 * m)
      modifies this`cells, this`pba, mba
      ensures pba == SetAtomic
      ensures Applied(g, b, x, MbaCell(3 * m) + 3) && MbasApplied(g, b, x, 3 * m + 3)
    {
      hide Add64, Has, MbaReading, MbaVisited, CellAfter, MbaAfter, MbaCell;
      MbaSlot(g, x, m, 3 * m);
      MbaSlot(g, x, m, 3 * m + 1);
      MbaSlot(g, x, m, 3 * m + 2);
      if Has(x.uav, MaskMba(m)) {
        SelectUnit();
        var pmulet := x.scom(MbaScom(m, false));
        PostMbaSlot(g, x, b, 3 * m, High32(pmulet));
        PostMbaSlot(g, x, b, 3 * m + 1, Low32(pmulet));
        pmulet := x.scom(MbaScom(m, true));
        PostMbaSlot(g, x, b, 3 * m + 2, High32(pmulet));
      } else {
        SkipMba(g, x, b, m);
      }
    }

    /** The slots of a memory buffer are in consecutive cells. */
    lemma MbaSlot(g: Group, x: Context, m: nat, slot: Slot)
      requires m < 8 && g == (if m < 4 then G5 else G6) && 3 * m <= slot < 3 * m + 3
      ensures MbaVisited(g, x, slot) <==> Has(x.uav, MaskMba(m))
      ensures MbaCell(slot) == MbaCell(3 * m) + (slot - 3 * m)
      ensures MbaReading(x.scom, slot) ==
              if slot == 3 * m then High32(x.scom(MbaScom(m, false)))
              else if slot == 3 * m + 1 then Low32(x.scom(MbaScom(m, false)))
              else High32(x.scom(MbaScom(m, true)))
    {
      hide Has, High32, Low32, MaskMba, MbaScom;
      assert slot / 3 == m;
    }

    lemma SkipMba(g: Group, x: Context, b: Banks, m: nat)
      requires b.Valid() && m < 8 && g == (if m < 4 then G5 else G6) && mba.Length == SLOTS
      requires !Has(x.uav, MaskMba(m))
      requires Applied(g, b, x, MbaCell(3 * m)) && MbasApplied(g, b, x, 3 * m)
      ensures Applied(g, b, x, MbaCell(3 * m) + 3) && MbasApplied(g, b, x, 3 * m + 3)
    {
      hide Has, MbaReading, Add64, MbaIncrement;
      ZeroAdds(g, b, x);
      Extend(g, b, x, MbaCell(3 * m), MbaCell(3 * m) + 3);
    }

    method PostMbaSlot(ghost g: Group, ghost x: Context, ghost b: Banks, slot: Slot, reading: Word32)
      requires b.Valid() && mba.Length == SLOTS && pba == SetAtomic
      requires MbaVisited(g, x, slot) && reading == MbaReading(x.scom, slot)
      requires Applied(g, b, x, MbaCell(slot)) && MbasApplied(g, b, x, slot)
      modifies this`cells, mba
      ensures Applied(g, b, x, MbaCell(slot) + 1) && MbasApplied(g, b, x, slot + 1)
    {
      hide Has, MbaReading, GetMbaEvent;
      var delta := GetMbaEvent(reading, mba[slot]);
      if mba[slot] != 0 {
        PostCell(g, b, x, MbaCell(slot), MbaCell(slot), if slot % 3 == 2 then delta * 2 else delta);
      } else {
        ZeroAdds(g, b, x);
        Extend(g, b, x, MbaCell(slot), MbaCell(slot) + 1);
      }
      mba[slot] := reading;
    }

    // ---------- Group 7: NPCQs, CAPPs and the time of day ----------

    method PostG7(x: Context, ghost b: Banks)
      requires Valid() && b == Contents()
      modifies this`cells, this`pba
      ensures cells == CellsAfter(G7, b, x)
    {
      hide Field16, Has, Add64;
      ZeroAdds(G7, b, x);
      pba := SetAtomic;
      PostG7Cell(x, b, 0, G6H);
      Extend(G7, b, x, G6H + 1, G7_1);
      PostNpcq(x, b, 0);
      PostNpcq(x, b, 1);
      PostNpcq(x, b, 2);
      PostCapp(x, b, 0);
      PostCapp(x, b, 1);
      pba := SetDma;
      Write(G7_6, x.scom(TOD_VALUE_REG));
      assert Applied(G7, b, x, G7_6 + 1);
      pba := SetAtomic;
      PostG7Cell(x, b, G7_6 + 1, G7T);
      Finish(G7, b, x, G7T + 1);
    }

    method PostG7Cell(ghost x: Context, ghost b: Banks, ghost from: int, cell: nat)
      requires b.Valid() && cell in {G6H, G7T} && from <= cell && pba == SetAtomic
      requires Applied(G7, b, x, from) && Untouched(G7, b, x, from, cell)
      modifies this`cells
      ensures Applied(G7, b, x, cell + 1)
    {
      PostCell(G7, b, x, from, cell, 1);
    }

    method PostNpcq(x: Context, ghost b: Banks, u: nat)
      requires b.Valid() && u < 3 && pba == SetAtomic && Applied(G7, b, x, G7_1 + 4 * u)
      modifies this`cells, this`pba
      ensures pba == SetAtomic && Applied(G7, b, x, G7_1 + 4 * (u + 1))
    {
      hide Field16, Add64, Has;
      var cell := G7_1 + 4 * u;
      if Has(x.uav, MaskNvlink(2 * u)) || Has(x.uav, MaskNvlink(2 * u + 1)) {
        SelectUnit();
        PostRegister(G7, b, x, cell, cell, x.scom(NpcqScom(u)));
      } else {
        ZeroAdds(G7, b, x);
        Extend(G7, b, x, cell, cell + 4);
      }
    }

    method PostCapp(x: Context, ghost b: Banks, u: nat)
      requires b.Valid() && u < 2 && pba == SetAtomic && Applied(G7, b, x, G7_4 + 8 * u)
      modifies this`cells, this`pba
      ensures pba == SetAtomic && Applied(G7, b, x, G7_4 + 8 * (u + 1))
    {
      hide Field16, Add64, Has, CellAfter, CappScom;
      var cell := G7_4 + 8 * u;
      if Has(x.uav, MaskCapp(u)) {
        SelectUnit();
        CappCells(b, x, 2 * u);
        PostRegister(G7, b, x, cell, cell, x.scom(CappScom(2 * u)));
        CappCells(b, x, 2 * u + 1);
        PostRegister(G7, b, x, cell + 4, cell + 4, x.scom(CappScom(2 * u + 1)));
      } else {
        CappAbsent(b, x, u);
        Extend(G7, b, x, cell, cell + 8);
      }
    }

    /** The four cells of a CAPP register. */
    lemma CappCells(b: Banks, x: Context, i: nat)
      requires b.Valid() && i < 4 && Has(x.uav, MaskCapp(i / 2))
      ensures var cell := G7_4 + 4 * i;
              forall j :: 0 <= j < 4 ==>
                CellAfter(G7, b, x, cell + j) == Add64(b.cells[cell + j], Field16(x.scom(CappScom(i)), j))
    {
      hide Field16, Add64, Has, CappScom, MaskCapp;
    }

    lemma CappAbsent(b: Banks, x: Context, u: nat)
      requires b.Valid() && u < 2 && !Has(x.uav, MaskCapp(u))
      ensures Untouched(G7, b, x, G7_4 + 8 * u, G7_4 + 8 * u + 8)
    {
      hide Field16, Add64, Has, CappScom, MaskCapp;
      ZeroAdds(G7, b, x);
    }

    // ---------- post_pmu_events ----------

    method PostPmuEvents(g: Group, x: Context)
      requires Valid()
      modifies this`cells, this`pba, this`phbEvents, this`xALinksFlag, mba, phb
      ensures Valid() && Contents() == Post(g, old(Contents()), x)
    {
      ghost var b := Contents();
      pba := SetDma;
      match g {
        case G1 => PostG1(x, b);
        case G2 => PostG2(x, b);
        case G3 => PostG3(x, b);
        case G4 => PostG4(x, b);
        case G5 => PostG5(x, b);
        case G6 => PostG6(x, b);
        case G7 => PostG7(x, b);
      }
      OtherBanks(g, b, x);
    }

    /** The baselines of the counters that a group does not read stay. */
    lemma OtherBanks(g: Group, b: Banks, x: Context)
      requires b.Valid()
      ensures g != G5 && g != G6 ==> MbasAfter(g, b, x) == b.mba
      ensures g != G4 ==> PhbsAfter(g, b, x) == b.phb
    {
    }
  }
}
