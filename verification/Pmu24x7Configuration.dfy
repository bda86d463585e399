/** What the 24x7 collector configures, and when: the pass over the configuration table that
    is split over four calls, and pausing (gpe1_24x7.c). */
module Pmu24x7Configuration {
  import opened MachineWords
  import opened CounterDeltas
  import opened PmuLayout
  import opened PmuLedger
  import opened Pmu24x7
  import opened Pmu24x7Runs
  import PmuPostings

  // ---------- What a pass over the table writes ----------

  /** The entries that are not skipped, in order. */
  function Available(lo: nat, hi: nat, uav: bv64): seq<nat>
    requires lo <= hi
    decreases hi - lo
  {
    if lo == hi then [] else Available(lo, hi - 1, uav) + if Skipped(hi - 1, uav) then [] else [hi - 1]
  }

  function Indices(ws: seq<ConfigWrite>): (s: seq<nat>)
    ensures |s| == |ws|
  {
    seq(|ws|, (j: int) requires 0 <= j < |ws| => ws[j].index)
  }

  predicate Ascending(s: seq<nat>) {
    forall j, k :: 0 <= j < k < |s| ==> s[j] < s[k]
  }

  /** Exactly the available entries, each once and in ascending order. */
  lemma {:induction false} AvailableExactly(lo: nat, hi: nat, uav: bv64)
    requires lo <= hi
    ensures forall i: nat :: i in Available(lo, hi, uav) <==> lo <= i < hi && !Skipped(i, uav)
    ensures Ascending(Available(lo, hi, uav))
    decreases hi - lo
  {
    hide Skipped;
    if lo < hi {
      AvailableExactly(lo, hi - 1, uav);
      var a := Available(lo, hi - 1, uav);
      assert forall j :: 0 <= j < |a| ==> a[j] in a;
    }
  }

  lemma {:induction false} AvailableJoin(lo: nat, mid: nat, hi: nat, uav: bv64)
    requires lo <= mid <= hi
    ensures Available(lo, mid, uav) + Available(mid, hi, uav) == Available(lo, hi, uav)
    decreases hi - mid
  {
    hide Skipped;
    if mid < hi {
      AvailableJoin(lo, mid, hi - 1, uav);
    }
  }

  lemma IndicesJoin(v: seq<ConfigWrite>, w: seq<ConfigWrite>)
    ensures Indices(v + w) == Indices(v) + Indices(w)
  {
  }

  lemma {:induction false} WritesAreAvailable(t: Tables, lo: nat, hi: nat, uav: bv64, speed: Word64, scom: Scom)
    requires t.Valid() && lo <= hi <= TOTAL_CONFIGS
    ensures Indices(ConfigWrites(t, lo, hi, uav, speed, scom)) == Available(lo, hi, uav)
    decreases hi - lo
  {
    hide Skipped, Tables.Valid;
    if lo < hi {
      WritesAreAvailable(t, lo, hi - 1, uav, speed, scom);
      IndicesJoin(ConfigWrites(t, lo, hi - 1, uav, speed, scom),
                  if Skipped(hi - 1, uav) then [] else [WriteOf(t, hi - 1, speed, scom)]);
    }
  }

  /** A write puts the value that the firmware lists for the speed in the register it lists: the
      8-bit prescale table is for the four shortest periods. The XTS register keeps the low 16 bits
      that it reads. */
  ghost predicate FromTable(t: Tables, w: ConfigWrite, speed: Word64, scom: Scom)
    requires t.Valid()
  {
    w.index < 61
    && var e := if speed in {0, 1, 2, 3} then t.prescale8[w.index] else t.prescale16[w.index];
       && w.address == e.address
       && if e.address == 0x5011645 then w.data / 65536 == e.data / 65536 && w.data % 65536 == scom(0x5011645) % 65536
          else w.data == e.data
  }

  ghost predicate AllFromTable(t: Tables, ws: seq<ConfigWrite>, speed: Word64, scom: Scom)
    requires t.Valid()
  {
    forall j :: 0 <= j < |ws| ==> FromTable(t, ws[j], speed, scom)
  }

  lemma WriteIsFromTable(t: Tables, i: nat, speed: Word64, scom: Scom)
    requires t.Valid() && i < TOTAL_CONFIGS
    ensures FromTable(t, WriteOf(t, i, speed, scom), speed, scom)
  {
    var e := t.Entry(i, speed);
    if e.address == XTS_CONFIG2 {
      KeepsLowBits(e.data, scom(e.address));
    }
  }

  lemma KeepsLowBits(data: Word64, found: Word64)
    requires data % 65536 == 0
    ensures (data + found % 65536) / 65536 == data / 65536 && (data + found % 65536) % 65536 == found % 65536
  {
    Quotient(data + found % 65536, 65536, data / 65536, found % 65536);
  }

  predicate IndicesWithin(ws: seq<ConfigWrite>, lo: nat, hi: nat) {
    forall j :: 0 <= j < |ws| ==> lo <= ws[j].index < hi
  }

  lemma {:induction false} WritesAreFromTable(t: Tables, lo: nat, hi: nat, uav: bv64, speed: Word64, scom: Scom)
    requires t.Valid() && lo <= hi <= TOTAL_CONFIGS
    ensures AllFromTable(t, ConfigWrites(t, lo, hi, uav, speed, scom), speed, scom)
    ensures IndicesWithin(ConfigWrites(t, lo, hi, uav, speed, scom), lo, hi)
    decreases hi - lo
  {
    hide Skipped, Tables.Valid, FromTable, WriteOf;
    if lo < hi {
      WritesAreFromTable(t, lo, hi - 1, uav, speed, scom);
      WriteIsFromTable(t, hi - 1, speed, scom);
      assert WriteOf(t, hi - 1, speed, scom).index == hi - 1 by { IndexOfWrite(t, hi - 1, speed, scom); }
    }
  }

  lemma IndexOfWrite(t: Tables, i: nat, speed: Word64, scom: Scom)
    requires t.Valid() && i < TOTAL_CONFIGS
    ensures WriteOf(t, i, speed, scom).index == i
  {
  }

  // ---------- Four calls ----------

  /** A call in a configuring phase, given its first part. */
  lemma ConfiguringCall(t: Tables, s: Collection, i: Input)
    requires t.Valid() && s.Valid() && Begin(s, i).st.configure && Begin(s, i).st.phase <= CONFIG_STATES
    ensures var b, s' := Begin(s, i), Step(t, s, i);
            && s'.log == s.log + SliceOf(t, b, i.scom) && s'.banks == b.banks
            && s'.st.phase == b.st.phase + 1
            && s'.st.curUav == b.st.curUav && s'.st.curSpeed == b.st.curSpeed && s'.st.curMode == b.st.curMode
            && (b.st.phase < CONFIG_STATES || b.st.dontRun ==>
                  s'.st.configure && s'.st.prevStatus == b.st.prevStatus && s'.st.dontRun == b.st.dontRun)
            && (b.st.phase == CONFIG_STATES && !b.st.dontRun ==> !s'.st.configure && Settled(s', b.st.prevStatus))
  {
    hide Decide, SliceWrites, Tables.Valid, Wiped, UavSeen, Command;
    assert s.log + [] == s.log;
  }

  function SliceOf(t: Tables, b: Collection, scom: Scom): seq<ConfigWrite>
    requires t.Valid() && b.Valid() && b.st.phase <= CONFIG_STATES
  {
    if b.st.dontRun then [] else SliceWrites(t, b.st.phase, b.st.curUav, b.st.curSpeed, scom)
  }

  /** After the last slice: running, unless the status saved by a mode change was PAUSE. */
  predicate Settled(s: Collection, saved: Word64) {
    && s.st.dontRun == (saved == CNTL_STATUS_PAUSE)
    && s.control.status == (if saved == CNTL_STATUS_PAUSE then CNTL_STATUS_PAUSE else CNTL_STATUS_RUN)
    && s.control.modeState == s.st.curMode
  }

  /** A call that asks for nothing new goes on with the settings in force. */
  lemma NothingNew(s: Collection, i: Input)
    requires s.Valid() && !Decide(s, i).reinit
    ensures var b := Begin(s, i);
            && b.st.phase == s.st.phase && b.st.configure == s.st.configure && b.st.prevStatus == s.st.prevStatus
            && b.st.curUav == s.st.curUav && b.st.curSpeed == s.st.curSpeed && b.st.curMode == s.st.curMode
            && b.banks.cells == s.banks.cells && (!b.st.dontRun ==> b.banks == s.banks)
            && b.control.modeState == s.control.modeState
  {
    hide Wiped, Written;
  }

  /** The state before the k-th call of a run. */
  function StateAt(t: Tables, s: Collection, calls: seq<Input>, k: nat): (s': Collection)
    requires t.Valid() && s.Valid() && k <= |calls|
    ensures s'.Valid()
  {
    Run(t, s, calls[..k])
  }

  lemma StateAtNext(t: Tables, s: Collection, calls: seq<Input>, k: nat)
    requires t.Valid() && s.Valid() && k < |calls|
    ensures StateAt(t, s, calls, k + 1) == Step(t, StateAt(t, s, calls, k), calls[k])
    ensures StateAt(t, s, calls, 0) == s
  {
    hide Step, Tables.Valid;
    assert calls[..k + 1][..k] == calls[..k];
  }

  /** The first part of the k-th call. */
  function BeginAt(t: Tables, s: Collection, calls: seq<Input>, k: nat): (b: Collection)
    requires t.Valid() && s.Valid() && k < |calls|
    ensures b.Valid()
  {
    Begin(StateAt(t, s, calls, k), calls[k])
  }

  /** The call starts a pass over the table: it re-initialises, or the rota has come round to
      the first phase with the table still to be written. */
  predicate Opens(s: Collection, i: Input)
    requires s.Valid()
  {
    Begin(s, i).st.configure && Begin(s, i).st.phase == 1
  }

  lemma ReinitialisingOpens(s: Collection, i: Input)
    requires s.Valid() && Decide(s, i).reinit
    ensures Opens(s, i)
  {
    hide Decide, Wiped;
  }

  /** A call that starts a pass, and three more that ask for nothing new. */
  predicate Pass(t: Tables, s: Collection, calls: seq<Input>)
    requires t.Valid() && s.Valid() && |calls| == CONFIG_STATES
  {
    Opens(s, calls[0])
    && forall k :: 1 <= k < CONFIG_STATES ==> !Decide(StateAt(t, s, calls, k), calls[k]).reinit
  }

  predicate Stopped(t: Tables, s: Collection, calls: seq<Input>, k: nat)
    requires t.Valid() && s.Valid() && k < |calls|
  {
    BeginAt(t, s, calls, k).st.dontRun
  }

  /** The writes of the first `k` calls of a pass. */
  function PassWrites(t: Tables, s: Collection, calls: seq<Input>, k: nat): seq<ConfigWrite>
    requires t.Valid() && s.Valid() && k <= |calls| == CONFIG_STATES
  {
    if k == 0 then []
    else
      PassWrites(t, s, calls, k - 1)
      + if Stopped(t, s, calls, k - 1) then []
        else SliceWrites(t, k, UavSeen(calls[0]), calls[0].host.speed, calls[k - 1].scom)
  }

  /** Where a pass stands after `k` calls. */
  predicate Progress(t: Tables, s: Collection, calls: seq<Input>, k: nat)
    requires t.Valid() && s.Valid() && 1 <= k <= |calls| == CONFIG_STATES
  {
    var sk, first := StateAt(t, s, calls, k), calls[0];
    && sk.st.phase == k + 1
    && sk.st.curUav == UavSeen(first) && sk.st.curSpeed == first.host.speed && sk.st.curMode == first.host.mode
    && sk.log == s.log + PassWrites(t, s, calls, k)
    && sk.banks.cells == BeginAt(t, s, calls, 0).banks.cells
    && (if k == CONFIG_STATES && !Stopped(t, s, calls, k - 1)
        then !sk.st.configure && Settled(sk, Decide(s, first).prevStatus)
        else sk.st.configure && sk.st.prevStatus == Decide(s, first).prevStatus)
  }

  lemma PassStarts(t: Tables, s: Collection, calls: seq<Input>)
    requires t.Valid() && s.Valid() && |calls| == CONFIG_STATES && Pass(t, s, calls)
    ensures Progress(t, s, calls, 1)
  {
    hide Decide, Step, SliceWrites, Settled, Tables.Valid, UavSeen, Wiped, Command, StateAt;
    StateAtNext(t, s, calls, 0);
    ConfiguringCall(t, s, calls[0]);
    var slice := SliceOf(t, BeginAt(t, s, calls, 0), calls[0].scom);
    assert PassWrites(t, s, calls, 1) == [] + slice;
    assert s.log + ([] + slice) == s.log + slice;
  }

  lemma PassGoesOn(t: Tables, s: Collection, calls: seq<Input>, k: nat)
    requires t.Valid() && s.Valid() && |calls| == CONFIG_STATES && Pass(t, s, calls)
    requires 1 <= k < CONFIG_STATES && Progress(t, s, calls, k)
    ensures Progress(t, s, calls, k + 1)
  {
    hide Decide, Step, Begin, SliceWrites, Settled, Tables.Valid, UavSeen, StateAt;
    var sk := StateAt(t, s, calls, k);
    StateAtNext(t, s, calls, k);
    NothingNew(sk, calls[k]);
    ConfiguringCall(t, sk, calls[k]);
    var more := SliceOf(t, BeginAt(t, s, calls, k), calls[k].scom);
    assert s.log + PassWrites(t, s, calls, k) + more == s.log + (PassWrites(t, s, calls, k) + more);
  }

  lemma PassEnds(t: Tables, s: Collection, calls: seq<Input>)
    requires t.Valid() && s.Valid() && |calls| == CONFIG_STATES && Pass(t, s, calls)
    ensures Progress(t, s, calls, CONFIG_STATES)
  {
    hide Progress, Pass, Tables.Valid;
    PassStarts(t, s, calls);
    PassGoesOn(t, s, calls, 1);
    PassGoesOn(t, s, calls, 2);
    PassGoesOn(t, s, calls, 3);
  }

  // ---------- Coverage ----------

  /** The entries a call of the pass is for. */
  function Share(k: nat, uav: bv64): seq<nat>
    requires k < CONFIG_STATES
  {
    Available(SliceStart(k + 1), SliceEnd(k + 1), uav)
  }

  function SharesWritten(t: Tables, s: Collection, calls: seq<Input>, k: nat): seq<nat>
    requires t.Valid() && s.Valid() && k <= |calls| == CONFIG_STATES
  {
    if k == 0 then []
    else SharesWritten(t, s, calls, k - 1)
         + if Stopped(t, s, calls, k - 1) then [] else Share(k - 1, UavSeen(calls[0]))
  }

  /** The writes of a pass: sixteen entries of the table for each of the four calls. */
  ghost predicate PassFromTable(t: Tables, ws: seq<ConfigWrite>, calls: seq<Input>)
    requires t.Valid() && |calls| == 4
  {
    forall j :: 0 <= j < |ws| ==>
      ws[j].index < 61 && FromTable(t, ws[j], calls[0].host.speed, calls[ws[j].index / 16].scom)
  }

  lemma SliceFromTable(t: Tables, calls: seq<Input>, k: nat, uav: bv64)
    requires t.Valid() && |calls| == CONFIG_STATES && 1 <= k <= CONFIG_STATES
    ensures PassFromTable(t, SliceWrites(t, k, uav, calls[0].host.speed, calls[k - 1].scom), calls)
  {
    hide ConfigWrites, Tables.Valid, FromTable;
    WritesAreFromTable(t, SliceStart(k), SliceEnd(k), uav, calls[0].host.speed, calls[k - 1].scom);
    assert forall i :: SliceStart(k) <= i < SliceEnd(k) ==> i / 16 == k - 1;
  }

  lemma {:induction false} PassIndices(t: Tables, s: Collection, calls: seq<Input>, k: nat)
    requires t.Valid() && s.Valid() && k <= |calls| == CONFIG_STATES
    ensures Indices(PassWrites(t, s, calls, k)) == SharesWritten(t, s, calls, k)
    ensures PassFromTable(t, PassWrites(t, s, calls, k), calls)
  {
    hide Stopped, UavSeen, ConfigWrites, Available, Tables.Valid, FromTable;
    if k > 0 {
      var uav, speed, scom := UavSeen(calls[0]), calls[0].host.speed, calls[k - 1].scom;
      PassIndices(t, s, calls, k - 1);
      WritesAreAvailable(t, SliceStart(k), SliceEnd(k), uav, speed, scom);
      SliceFromTable(t, calls, k, uav);
      IndicesJoin(PassWrites(t, s, calls, k - 1),
                  if Stopped(t, s, calls, k - 1) then [] else SliceWrites(t, k, uav, speed, scom));
    }
  }

  lemma SharesMakeTheTable(uav: bv64)
    ensures Share(0, uav) + Share(1, uav) + Share(2, uav) + Share(3, uav) == Available(0, TOTAL_CONFIGS, uav)
  {
    hide Available;
    AvailableJoin(0, 16, 32, uav);
    AvailableJoin(0, 32, 48, uav);
    AvailableJoin(0, 48, TOTAL_CONFIGS, uav);
  }

  lemma FourShares(t: Tables, s: Collection, calls: seq<Input>)
    requires t.Valid() && s.Valid() && |calls| == CONFIG_STATES
    ensures SharesWritten(t, s, calls, CONFIG_STATES)
         == WrittenShare(t, s, calls, 0) + WrittenShare(t, s, calls, 1)
            + WrittenShare(t, s, calls, 2) + WrittenShare(t, s, calls, 3)
  {
    hide Stopped, Share, Tables.Valid;
    assert [] + WrittenShare(t, s, calls, 0) == WrittenShare(t, s, calls, 0);
    assert SharesWritten(t, s, calls, 1) == WrittenShare(t, s, calls, 0);
    assert SharesWritten(t, s, calls, 2) == WrittenShare(t, s, calls, 0) + WrittenShare(t, s, calls, 1);
    assert SharesWritten(t, s, calls, 3)
        == WrittenShare(t, s, calls, 0) + WrittenShare(t, s, calls, 1) + WrittenShare(t, s, calls, 2);
  }

  function WrittenShare(t: Tables, s: Collection, calls: seq<Input>, k: nat): seq<nat>
    requires t.Valid() && s.Valid() && k < |calls| == CONFIG_STATES
  {
    if Stopped(t, s, calls, k) then [] else Share(k, UavSeen(calls[0]))
  }

  /** Coverage: from a call that starts a pass, the next three going on undisturbed, the
      available entries of the whole table are written, each once and in order, with the
      values for the speed, exactly if no call with something to write is stopped. */
  lemma ConfigurationCoverage(t: Tables, s: Collection, calls: seq<Input>)
    requires t.Valid() && s.Valid() && |calls| == CONFIG_STATES && Pass(t, s, calls)
    ensures var s', uav := Run(t, s, calls), UavSeen(calls[0]);
            && |s'.log| >= |s.log| && s'.log[..|s.log|] == s.log
            && PassFromTable(t, s'.log[|s.log|..], calls)
            && (Indices(s'.log[|s.log|..]) == Available(0, TOTAL_CONFIGS, uav)
                <==> forall k :: 0 <= k < CONFIG_STATES && Stopped(t, s, calls, k) ==> Share(k, uav) == [])
  {
    hide Stopped, Share, Pass, UavSeen, Tables.Valid, Settled, PassWrites, PassFromTable, Indices;
    PassEnds(t, s, calls);
    assert calls[..CONFIG_STATES] == calls;
    var growth := PassWrites(t, s, calls, CONFIG_STATES);
    assert (s.log + growth)[|s.log|..] == growth;
    PassIndices(t, s, calls, CONFIG_STATES);
    FourShares(t, s, calls);
    SharesMakeTheTable(UavSeen(calls[0]));
    MissingShares(t, s, calls);
  }

  lemma MissingShares(t: Tables, s: Collection, calls: seq<Input>)
    requires t.Valid() && s.Valid() && |calls| == CONFIG_STATES
    ensures var uav := UavSeen(calls[0]);
            WrittenShare(t, s, calls, 0) + WrittenShare(t, s, calls, 1)
            + WrittenShare(t, s, calls, 2) + WrittenShare(t, s, calls, 3)
            == Share(0, uav) + Share(1, uav) + Share(2, uav) + Share(3, uav)
            <==> forall k :: 0 <= k < CONFIG_STATES && Stopped(t, s, calls, k) ==> Share(k, uav) == []
  {
    hide Stopped, Share, UavSeen, Tables.Valid;
    var uav := UavSeen(calls[0]);
    assert forall k :: 0 <= k < CONFIG_STATES ==> |WrittenShare(t, s, calls, k)| <= |Share(k, uav)|;
    if forall k :: 0 <= k < CONFIG_STATES && Stopped(t, s, calls, k) ==> Share(k, uav) == [] {
      assert forall k :: 0 <= k < CONFIG_STATES ==> WrittenShare(t, s, calls, k) == Share(k, uav);
    } else {
      var k :| 0 <= k < CONFIG_STATES && Stopped(t, s, calls, k) && Share(k, uav) != [];
      assert |WrittenShare(t, s, calls, k)| < |Share(k, uav)|;
    }
  }

  /** A pass that is not stopped posts nothing, keeps the posting area but for the wipe of its
      first call, and ends running, or paused when the status saved by a mode change was PAUSE. */
  lemma PassSettles(t: Tables, s: Collection, calls: seq<Input>)
    requires t.Valid() && s.Valid() && |calls| == CONFIG_STATES && Pass(t, s, calls) && !Stopped(t, s, calls, 3)
    ensures var s' := Run(t, s, calls);
            && s'.st.phase == 5 && !s'.st.configure && Settled(s', Decide(s, calls[0]).prevStatus)
            && s'.banks.cells
               == if calls[0].ticks == 0 || Decide(s, calls[0]).wipe then Wiped(s.banks.cells) else s.banks.cells
  {
    hide Stopped, Pass, UavSeen, Tables.Valid, Settled, Decide, PassWrites, Wiped;
    PassEnds(t, s, calls);
    assert calls[..CONFIG_STATES] == calls;
    StateAtNext(t, s, calls, 0);
  }

  /** The first and the last share always hold something, so stopping there always costs. */
  lemma OuterSharesNeverEmpty(uav: bv64)
    ensures 0 in Share(0, uav) && 60 in Share(3, uav)
  {
    assert !Skipped(0, uav) && !Skipped(60, uav);
    hide Skipped, Available;
    AvailableExactly(SliceStart(1), SliceEnd(1), uav);
    AvailableExactly(SliceStart(4), SliceEnd(4), uav);
  }

  // ---------- Slices that are lost, and passes that are tried again ----------

  /** A part of the table is lost for good, that is, left unwritten with configuration over,
      exactly if the last call of the pass runs and an earlier one with something to write is
      stopped. */
  lemma SliceLostExactly(t: Tables, s: Collection, calls: seq<Input>)
    requires t.Valid() && s.Valid() && |calls| == CONFIG_STATES && Pass(t, s, calls)
    ensures var s', uav := Run(t, s, calls), UavSeen(calls[0]);
            && |s'.log| >= |s.log|
            && (!s'.st.configure && Indices(s'.log[|s.log|..]) != Available(0, TOTAL_CONFIGS, uav)
                <==> !Stopped(t, s, calls, 3)
                     && exists k :: 0 <= k < 3 && Stopped(t, s, calls, k) && Share(k, uav) != [])
  {
    hide Stopped, Share, Pass, UavSeen, Tables.Valid, Indices, Run, Available, Collection.Valid, PassFromTable;
    PassLeavesPending(t, s, calls);
    ConfigurationCoverage(t, s, calls);
    var uav := UavSeen(calls[0]);
    if !Stopped(t, s, calls, 3)
       && exists k :: 0 <= k < CONFIG_STATES && Stopped(t, s, calls, k) && Share(k, uav) != [] {
      var k :| 0 <= k < CONFIG_STATES && Stopped(t, s, calls, k) && Share(k, uav) != [];
      assert k < 3;
    }
  }

  lemma PassLeavesPending(t: Tables, s: Collection, calls: seq<Input>)
    requires t.Valid() && s.Valid() && |calls| == CONFIG_STATES && Pass(t, s, calls)
    ensures Run(t, s, calls).st.configure <==> Stopped(t, s, calls, 3)
    ensures Run(t, s, calls).st.phase == 5
  {
    hide Stopped, Pass, UavSeen, Tables.Valid, Settled, PassWrites;
    PassEnds(t, s, calls);
    assert calls[..CONFIG_STATES] == calls;
  }

  /** No call of the run asks for anything new. */
  predicate Undisturbed(t: Tables, s: Collection, calls: seq<Input>)
    requires t.Valid() && s.Valid()
  {
    |calls| == 0
    || (Undisturbed(t, s, calls[..|calls| - 1]) && !Decide(Run(t, s, calls[..|calls| - 1]), calls[|calls| - 1]).reinit)
  }

  /** Once configuration is over nothing is written until something new is asked for. */
  lemma {:induction false} NothingMoreIsWritten(t: Tables, s: Collection, calls: seq<Input>)
    requires t.Valid() && s.Valid() && !s.st.configure && Undisturbed(t, s, calls)
    ensures !Run(t, s, calls).st.configure && Run(t, s, calls).log == s.log
  {
    hide Step, Begin, Decide, Tables.Valid;
    if |calls| > 0 {
      var before, last := Run(t, s, calls[..|calls| - 1]), calls[|calls| - 1];
      NothingMoreIsWritten(t, s, calls[..|calls| - 1]);
      NothingNew(before, last);
      OutsideConfiguration(t, before, last);
    }
  }

  /** A call outside the configuring phases keeps the configuration pending or over. */
  lemma OutsideConfiguration(t: Tables, s: Collection, i: Input)
    requires t.Valid() && s.Valid() && (!Begin(s, i).st.configure || Begin(s, i).st.phase > CONFIG_STATES)
    ensures var b, s' := Begin(s, i), Step(t, s, i);
            && s'.log == b.log && s'.st.configure == b.st.configure && s'.st.phase == NextPhase(b.st.phase)
            && b.log == s.log
  {
    hide Decide, Post, Tables.Valid, SliceWrites, Wiped, Reload;
  }

  /** The four phases in which nothing is configured. */
  lemma {:induction false} SecondHalf(t: Tables, s: Collection, calls: seq<Input>)
    requires t.Valid() && s.Valid() && s.st.configure && s.st.phase == 5 && |calls| <= 4 && Undisturbed(t, s, calls)
    ensures var s' := Run(t, s, calls);
            s'.st.configure && s'.log == s.log && s'.st.phase == if |calls| == 4 then 1 else 5 + |calls|
  {
    hide Step, Begin, Decide, Tables.Valid;
    if |calls| > 0 {
      var before, last := Run(t, s, calls[..|calls| - 1]), calls[|calls| - 1];
      SecondHalf(t, s, calls[..|calls| - 1]);
      NothingNew(before, last);
      OutsideConfiguration(t, before, last);
    }
  }

  /** If the last call of a pass is stopped, nothing is lost for good: four undisturbed calls
      later another undisturbed call starts the pass again, for the whole table. */
  lemma StoppedPassIsTriedAgain(t: Tables, s: Collection, calls: seq<Input>, rest: seq<Input>, next: Input)
    requires t.Valid() && s.Valid() && |calls| == CONFIG_STATES && Pass(t, s, calls) && Stopped(t, s, calls, 3)
    requires |rest| == 4 && Undisturbed(t, Run(t, s, calls), rest)
    requires !Decide(Run(t, Run(t, s, calls), rest), next).reinit
    ensures Opens(Run(t, Run(t, s, calls), rest), next)
  {
    hide Step, Begin, Decide, Tables.Valid, Pass, Stopped, Undisturbed, Run;
    PassLeavesPending(t, s, calls);
    SecondHalf(t, Run(t, s, calls), rest);
    NothingNew(Run(t, Run(t, s, calls), rest), next);
  }

  /** A command other than CLEAR, with the settings in force. */
  function Sends(cmd: Word64): Input {
    Input(1, HostBlock(cmd, 0, CNTL_UAV_TEMP, CNTL_MODE_MONITOR), PmuPostings.SetDma, _ => 0)
  }

  predicate DefaultSettings(s: Collection) {
    && s.st.curSpeed == 0 && s.st.curUav == CNTL_UAV_TEMP && s.st.curMode == CNTL_MODE_MONITOR
    && s.control.status != CNTL_STATUS_ERR1 && s.control.status != CNTL_STATUS_ERR2
  }

  /** CLEAR, then a pause of one call. */
  function PausedPassCalls(): seq<Input> {
    [Sends(CNTL_CMD_CLEAR), Sends(CNTL_CMD_PAUSE), Sends(CNTL_CMD_RESUME), Sends(CNTL_CMD_NOP)]
  }

  lemma CommandSent(s: Collection, cmd: Word64)
    requires s.Valid() && DefaultSettings(s) && cmd <= CNTL_CMD_PAUSE
    ensures var i, b := Sends(cmd), Begin(s, Sends(cmd));
            && !Decide(s, i).reinit
            && b.st.dontRun == (cmd == CNTL_CMD_PAUSE || (cmd == CNTL_CMD_NOP && s.st.dontRun)) && DefaultSettings(b)
  {
    hide Wiped;
  }

  lemma ClearSent(s: Collection)
    requires s.Valid() && DefaultSettings(s)
    ensures var i, b := Sends(CNTL_CMD_CLEAR), Begin(s, Sends(CNTL_CMD_CLEAR));
            Decide(s, i).reinit && !b.st.dontRun && DefaultSettings(b)
  {
    hide Wiped;
  }

  /** The calls of that pass: only the second is stopped. */
  lemma PausedPassStops(t: Tables, s: Collection)
    requires t.Valid() && s.Valid() && DefaultSettings(s)
    ensures Pass(t, s, PausedPassCalls())
    ensures forall k :: 0 <= k < CONFIG_STATES ==> (Stopped(t, s, PausedPassCalls(), k) <==> k == 1)
  {
    hide Step, Begin, Decide, StateAt, Tables.Valid, DefaultSettings, Sends;
    var calls := PausedPassCalls();
    StateAtNext(t, s, calls, 0);
    StateAtNext(t, s, calls, 1);
    StateAtNext(t, s, calls, 2);
    ClearSent(s);
    ReinitialisingOpens(s, calls[0]);
    SettingsKept(t, s, calls[0]);
    var s1 := StateAt(t, s, calls, 1);
    CommandSent(s1, CNTL_CMD_PAUSE);
    NothingNew(s1, calls[1]);
    SettingsKept(t, s1, calls[1]);
    var s2 := StateAt(t, s, calls, 2);
    CommandSent(s2, CNTL_CMD_RESUME);
    NothingNew(s2, calls[2]);
    SettingsKept(t, s2, calls[2]);
    CommandSent(StateAt(t, s, calls, 3), CNTL_CMD_NOP);
  }

  /** The configuring phases before the last keep settings and status. */
  lemma SettingsKept(t: Tables, s: Collection, i: Input)
    requires t.Valid() && s.Valid() && Begin(s, i).st.configure && Begin(s, i).st.phase < CONFIG_STATES
    requires DefaultSettings(Begin(s, i))
    ensures var b, s' := Begin(s, i), Step(t, s, i);
            && DefaultSettings(s') && s'.st.configure && s'.st.phase == b.st.phase + 1 && s'.st.dontRun == b.st.dontRun
  {
    hide Begin, SliceWrites, Tables.Valid;
  }

  /** For example, that pause of one call after CLEAR loses the second slice: configuration is
      over, entry 16 is for an available unit, and it has not been written. */
  lemma OneCallPauseLosesSlice(t: Tables, s: Collection)
    requires t.Valid() && s.Valid() && DefaultSettings(s)
    ensures var s' := Run(t, s, PausedPassCalls());
            && !s'.st.configure && |s'.log| >= |s.log|
            && !Skipped(16, CNTL_UAV_TEMP)
            && Indices(s'.log[|s.log|..]) != Available(0, TOTAL_CONFIGS, CNTL_UAV_TEMP)
  {
    hide Step, Begin, Decide, StateAt, Stopped, Run, Pass, Tables.Valid, DefaultSettings, Available, Indices, Share;
    PausedPassStops(t, s);
    SecondShareHasSixteen();
    PassLeavesPending(t, s, PausedPassCalls());
    SliceLostExactly(t, s, PausedPassCalls());
  }

  lemma SecondShareHasSixteen()
    ensures !Skipped(16, CNTL_UAV_TEMP) && 16 in Share(1, CNTL_UAV_TEMP)
  {
    assert !Skipped(16, CNTL_UAV_TEMP);
    hide Skipped, Available;
    AvailableExactly(SliceStart(2), SliceEnd(2), CNTL_UAV_TEMP);
  }

  // ---------- Pausing ----------

  /** What else arrives with a command: a new speed alone wipes the posting area. */
  predicate OnlySpeedChanges(s: Collection, i: Input) {
    i.host.speed != s.st.curSpeed && i.host.uav == s.st.curUav && i.host.mode == s.st.curMode
  }

  /** PAUSE forgets every reading, whatever arrives with it, and nothing is posted: either
      collection stops, or a legal new mode makes the call the first of a pass. */
  lemma PauseForgets(t: Tables, s: Collection, i: Input)
    requires t.Valid() && s.Valid() && Command(i) == CNTL_CMD_PAUSE
    ensures var s' := Step(t, s, i);
            && s'.banks == (if OnlySpeedChanges(s, i) then WipeAll(ForgetAll(s.banks)) else ForgetAll(s.banks))
            && s'.control.cmd == CNTL_CMD_NOP
            && (s'.st.dontRun
                <==> i.host.mode == s.st.curMode || !LegalMode(i.host.mode)
                     || (i.host.speed != s.st.curSpeed && !LegalSpeed(s.st.curSpeed)))
            && (i.host.speed == s.st.curSpeed && i.host.uav == s.st.curUav && i.host.mode == s.st.curMode ==>
                  s'.control.status == if LegalMode(i.host.mode) then CNTL_STATUS_PAUSE else CNTL_STATUS_ERR2)
  {
    hide Step, Begin, Wiped, Tables.Valid, SliceWrites;
    PauseBegins(s, i);
    PauseBanks(s, i);
    PausedPhase(t, s, i);
  }

  /** What PAUSE decides. */
  lemma PauseBegins(s: Collection, i: Input)
    requires s.Valid() && Command(i) == CNTL_CMD_PAUSE
    ensures var b := Begin(s, i);
            && b.control.cmd == CNTL_CMD_NOP
            && (b.st.dontRun
                <==> i.host.mode == s.st.curMode || !LegalMode(i.host.mode)
                     || (i.host.speed != s.st.curSpeed && !LegalSpeed(s.st.curSpeed)))
            && (!b.st.dontRun ==> b.st.configure && b.st.phase == 1)
            && (i.host.speed == s.st.curSpeed && i.host.uav == s.st.curUav && i.host.mode == s.st.curMode ==>
                  b.control.status == if LegalMode(i.host.mode) then CNTL_STATUS_PAUSE else CNTL_STATUS_ERR2)
  {
    hide Wiped;
  }

  lemma PauseBanks(s: Collection, i: Input)
    requires s.Valid() && Command(i) == CNTL_CMD_PAUSE
    ensures Begin(s, i).banks == if OnlySpeedChanges(s, i) then WipeAll(ForgetAll(s.banks)) else ForgetAll(s.banks)
  {
    hide Wiped, Written, LegalMode;
    assert Begin(s, i).banks.mba == ForgetAll(s.banks).mba;
    assert Begin(s, i).banks.phb == ForgetAll(s.banks).phb;
  }

  /** A call that is stopped, or the first of a pass, posts nothing and leaves the command,
      the status and whether it is stopped as its first part decided. */
  lemma PausedPhase(t: Tables, s: Collection, i: Input)
    requires t.Valid() && s.Valid()
    requires Begin(s, i).st.dontRun || (Begin(s, i).st.configure && Begin(s, i).st.phase == 1)
    ensures var b, s' := Begin(s, i), Step(t, s, i);
            && s'.banks == b.banks && s'.control == b.control && s'.st.dontRun == b.st.dontRun
  {
    hide Begin, SliceWrites, Tables.Valid;
  }

  /** Nothing is posted and nothing forgotten while collection stays stopped. */
  lemma {:induction false} StoppedPostsNothing(t: Tables, s: Collection, calls: seq<Input>)
    requires t.Valid() && s.Valid() && s.st.dontRun && QuietRun(t, s, calls)
    ensures var s' := Run(t, s, calls);
            && s'.banks == s.banks && s'.log == s.log && s'.control.status == s.control.status
            && s'.st == s.st.(phase := PhaseAfter(s.st.phase, |calls|))
            && Trace(t, s, calls) == []
  {
    hide Begin, Quiet, BeginEvents, Tables.Valid, Visit, Configure, PhaseAfter;
    if |calls| == 0 {
      NoCalls(G1, s.st.phase, 0, 0);
    } else {
      var most, last := calls[..|calls| - 1], calls[|calls| - 1];
      StoppedPostsNothing(t, s, most);
      QuietBegins(Run(t, s, most), last);
      NextInRota(s.st.phase, |most|);
    }
  }

  /** Counts made while paused are never posted: from a PAUSE on, over any calls that pause
      and wipe no more, a cell gains the increments between readings taken after the pause;
      what the counter did before the first of them is in no cell. */
  lemma PausedCountsNeverPosted(t: Tables, s: Collection, i: Input, calls: seq<Input>, c: Counter)
    requires t.Valid() && s.Valid() && Command(i) == CNTL_CMD_PAUSE
    requires Uninterrupted(Trace(t, Step(t, s, i), calls))
    ensures var paused := Step(t, s, i);
            var readings := HistoryOf(c, paused.banks, Trace(t, paused, calls)).current[1..];
            && paused.banks.cells[c.Cell()] == (if OnlySpeedChanges(s, i) then 0 else s.banks.cells[c.Cell()])
            && Run(t, paused, calls).banks.cells[c.Cell()]
               == (paused.banks.cells[c.Cell()] + c.Weight() * Accumulated(c.Max(), readings)) % TWO_64
  {
    hide Step, Decide, Trace, Run, Uninterrupted, Tables.Valid, HistoryOf, Replay, Accumulated, ForgetAll, WipeAll,
         Counter.Cell, Counter.Weight, Counter.Max, Counter.Last, OnlySpeedChanges;
    PauseForgets(t, s, i);
    ForgetMoves(c, s.banks);
    WipeMoves(c, ForgetAll(s.banks));
    var paused := Step(t, s, i);
    RunReplays(t, paused, calls);
    PausedCountsAreNeverPosted(c, paused.banks, Trace(t, paused, calls));
  }

  /** The host changes only the mode, and to a legal one. */
  predicate OnlyModeChanges(s: Collection, i: Input) {
    && i.ticks != 0 && i.host.cmd == CNTL_CMD_NOP && i.host.speed == s.st.curSpeed && i.host.uav == s.st.curUav
    && i.host.mode != s.st.curMode && LegalMode(i.host.mode) && LegalSpeed(i.host.speed)
  }

  lemma ModeChangeBegins(s: Collection, i: Input)
    requires s.Valid() && s.control.status == CNTL_STATUS_PAUSE && OnlyModeChanges(s, i)
    ensures var d, b := Decide(s, i), Begin(s, i);
            && Opens(s, i) && !d.wipe && d.prevStatus == CNTL_STATUS_PAUSE && b.banks == s.banks
            && !b.st.dontRun && b.control.status == CNTL_STATUS_INIT
  {
  }

  /** A call like the one before, while a slice is still to come. */
  lemma SameAgain(s: Collection, i: Input)
    requires s.Valid() && i.ticks != 0 && i.host.cmd == CNTL_CMD_NOP && LegalMode(i.host.mode)
    requires i.host.speed == s.st.curSpeed && i.host.uav == s.st.curUav && i.host.mode == s.st.curMode
    requires !s.st.dontRun && s.control.status == CNTL_STATUS_INIT
    ensures !Decide(s, i).reinit && Begin(s, i).st == s.st && Begin(s, i).banks == s.banks
    ensures Begin(s, i).control.status == CNTL_STATUS_INIT
  {
  }

  /** The k-th state of an undisturbed pass that began while paused in state `s`. */
  predicate MidPass(sk: Collection, s: Collection, host: HostBlock, k: nat)
    requires sk.Valid()
  {
    && sk.st.configure && sk.st.phase == k + 1 && !sk.st.dontRun && sk.control.status == CNTL_STATUS_INIT
    && sk.st.curSpeed == host.speed && sk.st.curUav == host.uav && sk.st.curMode == host.mode && sk.banks == s.banks
  }

  lemma SliceKeepsStatus(t: Tables, s: Collection, i: Input)
    requires t.Valid() && s.Valid()
    ensures var b, s' := Begin(s, i), Step(t, s, i);
            b.st.configure && b.st.phase < CONFIG_STATES && !b.st.dontRun ==> s'.control.status == b.control.status
  {
    hide Begin, SliceWrites, Tables.Valid;
  }

  lemma PausedPassStarts(t: Tables, s: Collection, i: Input)
    requires t.Valid() && s.Valid() && s.control.status == CNTL_STATUS_PAUSE && OnlyModeChanges(s, i)
    ensures MidPass(Step(t, s, i), s, i.host, 1) && !Begin(s, i).st.dontRun
  {
    hide Step, Decide, Checked, SliceWrites, Tables.Valid, Wiped;
    ModeChangeBegins(s, i);
    ConfiguringCall(t, s, i);
    SliceKeepsStatus(t, s, i);
  }

  lemma PausedPassGoesOn(t: Tables, sk: Collection, s: Collection, i: Input, k: nat)
    requires t.Valid() && sk.Valid() && 1 <= k < CONFIG_STATES && MidPass(sk, s, i.host, k)
    requires i.ticks != 0 && i.host.cmd == CNTL_CMD_NOP && LegalMode(i.host.mode)
    ensures !Decide(sk, i).reinit && !Begin(sk, i).st.dontRun && Step(t, sk, i).banks == s.banks
    ensures k < CONFIG_STATES - 1 ==> MidPass(Step(t, sk, i), s, i.host, k + 1)
  {
    hide Step, Begin, Decide, SliceWrites, Tables.Valid;
    SameAgain(sk, i);
    ConfiguringCall(t, sk, i);
    SliceKeepsStatus(t, sk, i);
  }

  /** A mode change and three more calls, as a pass. */
  lemma PausedPass(t: Tables, s: Collection, calls: seq<Input>)
    requires t.Valid() && s.Valid() && |calls| == CONFIG_STATES
    requires s.control.status == CNTL_STATUS_PAUSE && OnlyModeChanges(s, calls[0])
    requires forall k :: 1 <= k < CONFIG_STATES ==> calls[k].ticks != 0 && calls[k].host == calls[0].host
    ensures Pass(t, s, calls) && StateAt(t, s, calls, CONFIG_STATES).banks == s.banks
    ensures forall k :: 0 <= k < CONFIG_STATES ==> !Stopped(t, s, calls, k)
  {
    hide Step, Begin, Decide, StateAt, MidPass, Tables.Valid;
    ModeChangeBegins(s, calls[0]);
    StateAtNext(t, s, calls, 0);
    StateAtNext(t, s, calls, 1);
    StateAtNext(t, s, calls, 2);
    StateAtNext(t, s, calls, 3);
    PausedPassStarts(t, s, calls[0]);
    PausedPassGoesOn(t, StateAt(t, s, calls, 1), s, calls[1], 1);
    PausedPassGoesOn(t, StateAt(t, s, calls, 2), s, calls[2], 2);
    PausedPassGoesOn(t, StateAt(t, s, calls, 3), s, calls[3], 3);
  }

  /** While paused, a change to another legal mode and nothing else keeps every posting and
      every reading, configures all available units in four calls, and ends paused in the
      new mode. */
  lemma PausedModeChange(t: Tables, s: Collection, calls: seq<Input>)
    requires t.Valid() && s.Valid() && |calls| == CONFIG_STATES
    requires s.control.status == CNTL_STATUS_PAUSE && OnlyModeChanges(s, calls[0])
    requires forall k :: 1 <= k < CONFIG_STATES ==> calls[k].ticks != 0 && calls[k].host == calls[0].host
    ensures var s' := Run(t, s, calls);
            && s'.banks == s.banks && s.log <= s'.log
            && Indices(s'.log[|s.log|..]) == Available(0, TOTAL_CONFIGS, s.st.curUav)
            && s'.control.status == CNTL_STATUS_PAUSE && s'.st.dontRun && !s'.st.configure
            && s'.control.modeState == calls[0].host.mode
  {
    hide Stopped, Share, Pass, Tables.Valid, Decide, PassWrites, Begin, Step, Available, Indices;
    PausedPass(t, s, calls);
    assert calls[..CONFIG_STATES] == calls;
    ConfigurationCoverage(t, s, calls);
    ModeChangeBegins(s, calls[0]);
    PassEnds(t, s, calls);
  }

  // ---------- The status word ----------

  /** The host keeps asking for the mode in force, which is illegal, and for nothing else. */
  predicate KeepsIllegalMode(s: Collection, i: Input, pba: PmuPostings.PbaMode) {
    && i.ticks == 1 && i.host.cmd == CNTL_CMD_NOP && i.afterReset == pba
    && i.host.speed == s.st.curSpeed && i.host.uav == s.st.curUav
    && i.host.mode == s.st.curMode && !LegalMode(i.host.mode)
  }

  predicate AllKeepIllegalMode(s: Collection, calls: seq<Input>, pba: PmuPostings.PbaMode) {
    forall k :: 0 <= k < |calls| ==> KeepsIllegalMode(s, calls[k], pba)
  }

  lemma IllegalModeCall(t: Tables, s: Collection, i: Input, pba: PmuPostings.PbaMode)
    requires t.Valid() && s.Valid() && s.st.dontRun && KeepsIllegalMode(s, i, pba)
    ensures var s' := Step(t, s, i);
            && s'.control.status == Written(pba, s.control.status, CNTL_STATUS_ERR2)
            && s'.st == s.st.(phase := NextPhase(s.st.phase)) && s'.banks == s.banks
  {
    hide Written, Wiped, Tables.Valid, NextPhase;
  }

  /** The call that brings an illegal mode reports INIT. From then on the status is ERR2 if the
      slave reset leaves the PBA storing; if it leaves it adding, ERR2 is added at every call,
      so that the status reads ERR2 only after the first. Nothing is posted either way. */
  lemma {:induction false} IllegalModeStatus(t: Tables, s: Collection, calls: seq<Input>, pba: PmuPostings.PbaMode)
    requires t.Valid() && s.Valid() && s.st.dontRun && AllKeepIllegalMode(s, calls, pba) && |calls| > 0
    ensures var s' := Run(t, s, calls);
            && s'.control.status == (if pba == PmuPostings.SetDma then CNTL_STATUS_ERR2
                                     else (s.control.status + CNTL_STATUS_ERR2 * |calls|) % TWO_64)
            && s'.st == s.st.(phase := s'.st.phase) && s'.banks == s.banks
  {
    hide Step, Tables.Valid, LegalMode, NextPhase;
    var n := |calls|;
    var most := calls[..n - 1];
    if n > 1 {
      IllegalModeStatus(t, s, most, pba);
      AddModulo64(s.control.status + CNTL_STATUS_ERR2 * (n - 1), CNTL_STATUS_ERR2);
    }
    var before := Run(t, s, most);
    assert KeepsIllegalMode(s, calls[n - 1], pba);
    IllegalModeCall(t, before, calls[n - 1], pba);
  }

  /** The status word that a call finds when it comes to check the mode, if the PBA adds and
      there is no command: an illegal speed that is being replaced has been added to it. */
  function StatusFound(s: Collection, i: Input): Word64 {
    if i.host.speed != s.st.curSpeed && !LegalSpeed(s.st.curSpeed) then Add64(s.control.status, CNTL_STATUS_ERR1)
    else s.control.status
  }

  /** The call that brings an illegal mode reports INIT, or a bad speed. It stops collection exactly if the
      status it wrote on the way reads back as an error: always when the PBA is storing, which
      it is unless the call comes in time, without a command and after a reset that left it
      adding; and then only if the sum happens to be an error code. */
  lemma IllegalModeStopsExactly(t: Tables, s: Collection, i: Input)
    requires t.Valid() && s.Valid() && i.host.mode != s.st.curMode && !LegalMode(i.host.mode)
    ensures var s' := Step(t, s, i);
            && s'.control.status == (if LegalSpeed(i.host.speed) then CNTL_STATUS_INIT else CNTL_STATUS_ERR1)
            && (s'.st.dontRun
                <==> i.ticks != 1 || i.host.cmd != CNTL_CMD_NOP || i.afterReset == PmuPostings.SetDma
                     || Add64(StatusFound(s, i), CNTL_STATUS_ERR2) in {CNTL_STATUS_ERR1, CNTL_STATUS_ERR2})
  {
    hide Wiped, SliceWrites, Tables.Valid, Add64;
  }
}
