/** The settings and commands of the host in the 24x7 collector: what is in force after any
    run of calls, and what each command does to it (gpe1_24x7.c). */
module Pmu24x7Settings {
  import opened MachineWords
  import opened PmuLayout
  import opened PmuLedger
  import opened Pmu24x7
  import opened Pmu24x7Runs
  import opened Pmu24x7Configuration
  import opened PmuRegisters
  import opened PmuWideCounters

  // ---------- Settings ----------

  /** The delay is that of the speed in force, if that is one of the twelve legal ones. */
  predicate DelayOfSpeed(s: Collection) {
    s.st.curSpeed <= 11 ==> s.st.curDelay == s.st.curSpeed
  }

  predicate InForce(s: Collection, i: Input) {
    && s.st.curSpeed == i.host.speed && s.st.curMode == i.host.mode
    && s.st.curUav == if i.ticks == 0 && i.host.uav == 0 then 0xFFFF_8073_F007_E000 else i.host.uav
  }

  lemma BeginSettings(s: Collection, i: Input)
    requires s.Valid()
    ensures InForce(Begin(s, i), i)
    ensures i.ticks == 0 || DelayOfSpeed(s) ==> DelayOfSpeed(Begin(s, i))
  {
    hide Wiped, Written;
  }

  lemma StepSettings(t: Tables, s: Collection, i: Input)
    requires t.Valid() && s.Valid()
    ensures InForce(Step(t, s, i), i)
    ensures i.ticks == 0 || DelayOfSpeed(s) ==> DelayOfSpeed(Step(t, s, i))
  {
    hide Begin, Post, SliceWrites, Tables.Valid, Reload, UavSeen;
    BeginSettings(s, i);
  }

  /** After any run that starts with the first call, whatever the host did in it, the settings
      in force are those of the last call; with no unit given at start-up the default ones are
      available; and a legal speed is the delay. */
  lemma {:induction false} SettingsInForce(t: Tables, s: Collection, calls: seq<Input>)
    requires t.Valid() && s.Valid() && |calls| > 0 && calls[0].ticks == 0
    ensures InForce(Run(t, s, calls), calls[|calls| - 1]) && DelayOfSpeed(Run(t, s, calls))
  {
    hide Step, InForce, DelayOfSpeed, Tables.Valid;
    var most, last := calls[..|calls| - 1], calls[|calls| - 1];
    StepSettings(t, Run(t, s, most), last);
    if |calls| > 1 {
      SettingsInForce(t, s, most);
    }
  }

  lemma SettingsGive(s: Collection, i: Input)
    requires InForce(s, i) && DelayOfSpeed(s) && i.host.speed <= 11
    ensures s.st.curDelay == i.host.speed
  {
  }

  /** From start-up on, while the last speed that the host has set is a legal one and nothing new
      is asked for, that speed is the period of each group whose countdown is within it. */
  lemma SpeedIsPeriod(t: Tables, s: Collection, before: seq<Input>, calls: seq<Input>, g: Group, periods: nat)
    requires t.Valid() && s.Valid() && |before| > 0 && before[0].ticks == 0 && before[|before| - 1].host.speed <= 11
    requires var s1 := Run(t, s, before); QuietRun(t, s1, calls) && !s1.st.dontRun && !s1.st.configure
    requires var speed := before[|before| - 1].host.speed;
             && Run(t, s, before).st.delay[GroupIndex(g)] <= (if g in {G1, G2, G3} then speed else speed / 8)
             && |calls| == periods * if g in {G1, G2, G3} then 2 * (speed + 1) else 8 * (speed / 8 + 1)
    ensures Postings(g, Trace(t, Run(t, s, before), calls)) == periods
  {
    hide *;
    SettingsInForce(t, s, before);
    SettingsGive(Run(t, s, before), before[|before| - 1]);
    OncePerPeriod(t, Run(t, s, before), calls, g, periods);
  }

  // ---------- What a call starts with ----------

  /** The host asks for other settings than those in force. */
  predicate NewSettings(s: Collection, i: Input) {
    i.host.speed != s.st.curSpeed || i.host.uav != s.st.curUav || i.host.mode != s.st.curMode
  }

  /** When a call wipes the posting area, forgets the readings, and starts to configure: the first
      call does, and later a CLEAR or new settings; but a new availability or mode keeps the
      postings. Only PAUSE forgets. */
  lemma WipesExactly(s: Collection, i: Input)
    requires s.Valid() && i.ticks != 0
    ensures Wipe in StepEvents(s, i) <==>
              && (i.host.cmd == 3 || i.host.speed != s.st.curSpeed)
              && i.host.uav == s.st.curUav && i.host.mode == s.st.curMode
    ensures Forget in StepEvents(s, i) <==> i.host.cmd == 2
    ensures Decide(s, i).reinit <==> i.host.cmd == 3 || NewSettings(s, i)
  {
    hide Begin, Visit, Written, Posts;
  }

  lemma FirstCallStarts(s: Collection, i: Input)
    requires s.Valid() && i.ticks == 0
    ensures Wipe in StepEvents(s, i) && Forget !in StepEvents(s, i) && Decide(s, i).reinit && Opens(s, i)
    ensures var b := Begin(s, i);
            && b.control.cmd == 0 && (b.control.status == 0 <==> i.host.speed <= 11) && b.control.status in {0, 3}
            && (i.host.mode <= 1 && i.host.speed <= 11 && !s.st.dontRun && i.host.mode == s.st.curMode ==>
                  !b.st.dontRun)
  {
    hide Visit, Wiped, Posts;
  }

  // ---------- Commands ----------

  /** A command that arrives with the settings in force. */
  predicate OnlyCommands(s: Collection, i: Input, cmd: Word64) {
    i.ticks != 0 && i.host.cmd == cmd && !NewSettings(s, i) && i.host.mode <= 1
  }

  lemma PauseStops(t: Tables, s: Collection, i: Input)
    requires t.Valid() && s.Valid() && OnlyCommands(s, i, 2)
    ensures var s' := Step(t, s, i);
            && s'.st == s.st.(dontRun := true, phase := s'.st.phase) && s'.st.phase == s.st.phase % 8 + 1
            && s'.control.status == 2 && s'.control.cmd == 0 && s'.log == s.log
            && s'.banks.cells == s.banks.cells && (forall k: Slot :: s'.banks.mba[k] == 0 && s'.banks.phb[k] == 0)
            && s'.banks.phbEvents == s.banks.phbEvents && s'.banks.xTurn == s.banks.xTurn
  {
    hide Wiped, Tables.Valid, SliceWrites, Post;
  }

  lemma ResumeRuns(s: Collection, i: Input)
    requires s.Valid() && OnlyCommands(s, i, 1)
    ensures var b := Begin(s, i);
            && b.st == s.st.(dontRun := false) && b.control.status == 1 && b.control.cmd == 0
            && b.banks == s.banks && b.log == s.log
  {
    hide Wiped;
  }

  /** A pause of any length, and what the RESUME that ends it goes on with: PAUSE stops, whatever
      was going on; any number of quiet calls pass; RESUME finds every cell, countdown and setting
      as before the PAUSE, the readings forgotten, and the phase as many calls further on. */
  lemma PauseThenResume(t: Tables, s: Collection, pause: Input, calls: seq<Input>, resume: Input)
    requires t.Valid() && s.Valid() && OnlyCommands(s, pause, 2)
    requires QuietRun(t, Step(t, s, pause), calls)
    requires OnlyCommands(Run(t, Step(t, s, pause), calls), resume, 1)
    ensures var b := Begin(Run(t, Step(t, s, pause), calls), resume);
            && b.st == s.st.(dontRun := false, phase := PhaseAfter(s.st.phase, |calls| + 1))
            && b.control.status == 1 && b.control.cmd == 0 && b.log == s.log
            && b.banks.cells == s.banks.cells && (forall k: Slot :: b.banks.mba[k] == 0 && b.banks.phb[k] == 0)
            && b.banks.phbEvents == s.banks.phbEvents && b.banks.xTurn == s.banks.xTurn
  {
    hide Step, Run, Begin, QuietRun, Tables.Valid, OnlyCommands, PhaseAfter;
    PauseStops(t, s, pause);
    var paused := Step(t, s, pause);
    StoppedPostsNothing(t, paused, calls);
    ResumeRuns(Run(t, paused, calls), resume);
    OnePhaseOn(s.st.phase, |calls|);
  }

  lemma OnePhaseOn(phase: nat, n: nat)
    requires 1 <= phase <= 8
    ensures PhaseAfter(phase % 8 + 1, n) == PhaseAfter(phase, n + 1)
  {
    if phase == 8 {
      assert 7 + (n + 1) == n + 8;
      assert (n + 8) % 8 == n % 8;
    }
  }

  /** CLEAR runs again from a zeroed area and configures from the first phase on. */
  lemma ClearStarts(s: Collection, i: Input)
    requires s.Valid() && OnlyCommands(s, i, 3) && s.control.status !in {3, 4}
    ensures var b := Begin(s, i);
            && b.st == s.st.(dontRun := false, phase := 1, configure := true,
                             curDelay := if s.st.curSpeed <= 11 then s.st.curSpeed else s.st.curDelay)
            && b.control.status == (if s.st.curSpeed <= 11 then 0 else 3) && b.control.cmd == 0
            && (forall c :: 0 <= c < 272 ==> b.banks.cells[c] == if c < 238 then 0 else s.banks.cells[c])
            && b.banks.mba == s.banks.mba && b.banks.phb == s.banks.phb
  {
  }

  /** New settings without a command, all legal: the call starts to configure from the first phase
      with them; a new mode also saves the status, for the pass to restore a pause by, and lets
      collection go on. */
  lemma NewSettingsConfigure(s: Collection, i: Input)
    requires s.Valid() && i.ticks != 0 && i.host.cmd == 0 && NewSettings(s, i)
    requires i.host.mode <= 1 && i.host.speed <= 11 && s.st.curSpeed <= 11 && s.control.status !in {3, 4}
    ensures var b, newMode := Begin(s, i), i.host.mode != s.st.curMode;
            && b.st == s.st.(phase := 1, configure := true, curDelay := i.host.speed, curSpeed := i.host.speed,
                             curUav := i.host.uav, curMode := i.host.mode,
                             prevStatus := if newMode then s.control.status else s.st.prevStatus,
                             dontRun := !newMode && s.st.dontRun)
            && b.control.status == 0 && b.banks.mba == s.banks.mba && b.banks.phb == s.banks.phb
  {
    hide Wiped;
  }

  /** Any other command stays in the control block and changes nothing. */
  lemma UnknownCommandStays(s: Collection, i: Input)
    requires s.Valid() && OnlyCommands(s, i, i.host.cmd) && (i.host.cmd == 0 || i.host.cmd > 3)
    requires s.control.status !in {3, 4}
    ensures var b := Begin(s, i);
            b.st == s.st && b.banks == s.banks && b.control.status == s.control.status && b.control.cmd == i.host.cmd
  {
    hide Wiped;
  }

  /** What a call with an illegal speed, and the next one, start with. */
  lemma BadSpeedBegins(s: Collection, i: Input)
    requires s.Valid() && i.ticks != 0 && i.host.cmd == 0 && i.host.speed > 11
    requires i.host.uav == s.st.curUav && i.host.mode == s.st.curMode && i.host.mode <= 1
    ensures var b := Begin(s, i);
            && b.log == s.log
            && b.st.curUav == i.host.uav && b.st.curSpeed == i.host.speed && b.st.curMode == i.host.mode
            && (i.host.speed != s.st.curSpeed && s.st.curSpeed <= 11 && s.control.status !in {3, 4} && !s.st.dontRun ==>
                  b.control.status == 3 && !b.st.dontRun && b.st.configure && b.st.phase == 1)
            && (i.host.speed == s.st.curSpeed && s.control.status == 3 ==> b.control.status == 3 && b.st.dontRun)
  {
    hide Wiped;
  }

  /** An illegal speed is reported at once but stops collection only with the next call: the first
      slice of the table is written before that, with the values for long periods. */
  lemma IllegalSpeedStopsLate(t: Tables, s: Collection, i: Input, next: Input)
    requires t.Valid() && s.Valid() && !s.st.dontRun && s.st.curSpeed <= 11 && s.control.status !in {3, 4}
    requires i.ticks != 0 && i.host.cmd == 0 && i.host.speed > 11
    requires i.host.uav == s.st.curUav && i.host.mode == s.st.curMode && i.host.mode <= 1
    requires next.ticks != 0 && next.host == i.host
    ensures var s1 := Step(t, s, i);
            && s1.control.status == 3 && !s1.st.dontRun
            && s1.log == s.log + SliceWrites(t, 1, i.host.uav, i.host.speed, i.scom)
            && AllFromTable(t, SliceWrites(t, 1, i.host.uav, i.host.speed, i.scom), i.host.speed, i.scom)
            && Step(t, s1, next).control.status == 3 && Step(t, s1, next).st.dontRun && Step(t, s1, next).log == s1.log
  {
    hide Begin, Tables.Valid, FromTable, ConfigWrites, Post, Reload;
    WritesAreFromTable(t, 0, 16, i.host.uav, i.host.speed, i.scom);
    BadSpeedBegins(s, i);
    var s1 := Step(t, s, i);
    ConfiguringCall(t, s, i);
    SliceKeepsStatus(t, s, i);
    BadSpeedBegins(s1, next);
  }

  // ---------- Units and table entries ----------

  /** The entries that are written for an availability vector: by memory buffer, X link, NX, NV link,
      PHB, pair of NV links and CAPP; the first four and the last three always. */
  predicate Wanted(i: nat, uav: bv64) {
    if i < 4 || i >= 58 then true
    else if i < 8 then Bit(uav, MBA_UNITS[i])
    else if i < 12 then Bit(uav, 0x6000000000000)
    else if i < 16 then Bit(uav, 0x1800000000000)
    else if i < 20 then Bit(uav, MBA_UNITS[i - 16])
    else if i < 24 then Bit(uav, 0x60000000000000)
    else if i < 28 then Bit(uav, 0x18000000000000)
    else if i == 28 then Bit(uav, 0x7000000000)
    else if i < 33 then Bit(uav, 0x8000000)
    else if i < 39 then Bit(uav, NVLINK_UNITS[i - 33])
    else if i < 41 then Bit(uav, 0x7e000)
    else if i < 47 then Bit(uav, PHB_UNITS[i - 41])
    else if i < 50 then Bit(uav, NPCQ_UNITS[i - 47])
    else if i < 54 then Bit(uav, 0x4000000)
    else Bit(uav, 0x2000000)
  }

  lemma BufferPairs(uav: bv64)
    ensures Has(uav, MaskMba(4)) || Has(uav, MaskMba(5)) <==> Bit(uav, 0x6000000000000)
    ensures Has(uav, MaskMba(6)) || Has(uav, MaskMba(7)) <==> Bit(uav, 0x1800000000000)
    ensures Has(uav, MaskMba(0)) || Has(uav, MaskMba(1)) <==> Bit(uav, 0x60000000000000)
    ensures Has(uav, MaskMba(2)) || Has(uav, MaskMba(3)) <==> Bit(uav, 0x18000000000000)
  {
  }

  lemma LinksAndCapps(uav: bv64)
    ensures Has(uav, MaskLink(0)) || Has(uav, MaskLink(1)) || Has(uav, MaskLink(2)) <==> Bit(uav, 0x7000000000)
    ensures Has(uav, MaskLink(3)) <==> Bit(uav, 0x8000000)
    ensures Has(uav, MaskCapp(0)) <==> Bit(uav, 0x4000000)
    ensures Has(uav, MaskCapp(1)) <==> Bit(uav, 0x2000000)
  {
  }

  lemma MbaThere(uav: bv64, u: nat)
    requires u < 8
    ensures Has(uav, MaskMba(u)) <==> Bit(uav, MBA_UNITS[u])
  {
    hide Has, Bit, MaskMba;
    MbaUnit(u);
    HasIs(uav, MBA_UNITS[u]);
  }

  lemma NvlinkThere(uav: bv64, u: nat)
    requires u < 6
    ensures Has(uav, MaskNvlink(u)) <==> Bit(uav, NVLINK_UNITS[u])
  {
    hide Has, Bit, MaskNvlink;
    NvlinkUnit(u);
    HasIs(uav, NVLINK_UNITS[u]);
  }

  lemma PhbThere(uav: bv64, u: nat)
    requires u < 6
    ensures Has(uav, MaskPhb(u)) <==> Bit(uav, PHB_UNITS[u])
  {
    hide Has, Bit, MaskPhb;
    PhbUnit(u);
    HasIs(uav, PHB_UNITS[u]);
  }

  lemma BufferEntries(i: nat, uav: bv64)
    requires 4 <= i < 8 || 16 <= i < 20
    ensures Skipped(i, uav) <==> !Wanted(i, uav)
  {
    hide Has, Bit, AnyNvlink, MaskMba, MaskLink, MaskNvlink, MaskPhb, MaskCapp;
    MbaThere(uav, (if i < 8 then i else i - 16));
  }

  lemma BufferPairEntries(i: nat, uav: bv64)
    requires 8 <= i < 16 || 20 <= i < 28
    ensures Skipped(i, uav) <==> !Wanted(i, uav)
  {
    hide Has, Bit, AnyNvlink, MaskMba, MaskLink, MaskNvlink, MaskPhb, MaskCapp;
    BufferPairs(uav);
  }

  lemma LinkEntries(i: nat, uav: bv64)
    requires 28 <= i < 33 || 50 <= i < 58
    ensures Skipped(i, uav) <==> !Wanted(i, uav)
  {
    hide Has, Bit, AnyNvlink, MaskMba, MaskLink, MaskNvlink, MaskPhb, MaskCapp;
    LinksAndCapps(uav);
  }

  lemma NvlinkEntries(i: nat, uav: bv64)
    requires 33 <= i < 39
    ensures Skipped(i, uav) <==> !Wanted(i, uav)
  {
    hide Has, Bit, AnyNvlink, MaskMba, MaskLink, MaskNvlink, MaskPhb, MaskCapp;
    NvlinkThere(uav, i - 33);
  }

  lemma PhbEntries(i: nat, uav: bv64)
    requires 41 <= i < 47
    ensures Skipped(i, uav) <==> !Wanted(i, uav)
  {
    hide Has, Bit, AnyNvlink, MaskMba, MaskLink, MaskNvlink, MaskPhb, MaskCapp;
    PhbThere(uav, i - 41);
  }

  lemma SharedEntries(i: nat, uav: bv64)
    requires 39 <= i < 41 || 47 <= i < 50
    ensures Skipped(i, uav) <==> !Wanted(i, uav)
  {
    hide Has, Bit, AnyNvlink, MaskMba, MaskLink, MaskNvlink, MaskPhb, MaskCapp;
    AnyNvlinkIs(uav);
    if i >= 47 {
      EitherNvlinkIs(uav, i - 47);
    }
  }

  lemma SkippedUnlessWanted(i: nat, uav: bv64)
    ensures Skipped(i, uav) <==> !Wanted(i, uav)
  {
    if i < 4 || i >= 58 {
    } else {
      hide Skipped, Wanted;
      if i < 8 || 16 <= i < 20 {
        BufferEntries(i, uav);
      } else if i < 28 {
        BufferPairEntries(i, uav);
      } else if i < 33 || i >= 50 {
        LinkEntries(i, uav);
      } else if i < 39 {
        NvlinkEntries(i, uav);
      } else if 41 <= i < 47 {
        PhbEntries(i, uav);
      } else {
        SharedEntries(i, uav);
      }
    }
  }

  /** A call that starts a pass and three more that ask for nothing new, none of them stopped, write
      exactly the entries of the units that the host has made available, in ascending order. */
  lemma PassWritesWanted(t: Tables, s: Collection, calls: seq<Input>)
    requires t.Valid() && s.Valid() && |calls| == 4 && Pass(t, s, calls)
    requires forall k :: 0 <= k < 4 ==> !Stopped(t, s, calls, k)
    ensures var s', first := Run(t, s, calls), calls[0];
            var uav := if first.ticks == 0 && first.host.uav == 0 then 0xFFFF_8073_F007_E000 else first.host.uav;
            && |s'.log| >= |s.log| && Ascending(Indices(s'.log[|s.log|..]))
            && forall i: nat :: i in Indices(s'.log[|s.log|..]) <==> i < 61 && Wanted(i, uav)
  {
    hide Run, Pass, Stopped, Share, Indices, Skipped, Wanted, Tables.Valid, PassFromTable, Available, Ascending;
    ConfigurationCoverage(t, s, calls);
    var uav := UavSeen(calls[0]);
    AvailableExactly(0, 61, uav);
    forall i: nat ensures Skipped(i, uav) <==> !Wanted(i, uav) {
      SkippedUnlessWanted(i, uav);
    }
  }
}
