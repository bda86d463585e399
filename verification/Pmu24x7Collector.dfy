/** The 24x7 collector as it runs: the statics of gpe1_24x7.c and the control block as
    fields, and one step method. */
module Pmu24x7Collector {
  import opened MachineWords
  import opened PmuLayout
  import opened PmuPostings
  import opened Pmu24x7

  class Collector {
    const tables: Tables
    const postings: Postings

    // The control block.
    var status: Word64
    var cmd: Word64
    var speed: Word64
    var uav: bv64
    var mode: Word64
    var modeState: Word64

    // The statics of the step function.
    var currentState: nat
    var delay: seq<nat>
    var curDelay: nat
    var curSpeed: Word64
    var prevStatus: Word64
    var configure: bool
    var dontRun: bool
    var init: bool
    var partInit: bool
    var curUav: bv64
    var curMode: Word64

    // Configuration register writes so far.
    var configWrites: seq<ConfigWrite>

    constructor (t: Tables, memory: seq<Word64>)
      requires t.Valid() && |memory| == CELLS
      ensures Valid() && tables == t && fresh(postings)
      ensures Contents().st == Statics(1, seq(8, _ => 0), 0, 0, 0, false, false, 0, 0)
      ensures Contents().banks == Banks(memory, seq(SLOTS, _ => 0), seq(SLOTS, _ => 0), 0, false)
    {
      tables := t;
      postings := new Postings(memory);
      status, cmd, speed, uav, mode, modeState := 0, 0, 0, 0, 0, 0;
      currentState, delay, curDelay, curSpeed, prevStatus := 1, seq(8, _ => 0), 0, 0, 0;
      configure, dontRun, init, partInit, curUav, curMode := false, false, false, false, 0, 0;
      configWrites := [];
    }

    ghost function Contents(): Collection
      reads this, postings`cells, postings`phbEvents, postings`xALinksFlag, postings.mba, postings.phb
    {
      Collection(Control(status, cmd, speed, uav, mode, modeState),
                 Statics(currentState, delay, curDelay, curSpeed, prevStatus, configure, dontRun, curUav, curMode),
                 postings.Contents(), configWrites)
    }

    ghost predicate Valid()
      reads this, postings`cells, postings`phbEvents, postings`xALinksFlag, postings.mba, postings.phb
    {
      tables.Valid() && postings.Valid() && Contents().Valid() && !init && !partInit
    }

    /** A store to the status word, which the PBA slave turns into an add in atomic mode. */
    method WriteStatus(v: Word64)
      modifies this`status
      ensures status == Written(postings.pba, old(status), v)
    {
      status := if postings.pba == SetAtomic then Add64(status, v) else v;
    }

    /** The delay of a legal speed is its own number; any other speed is an error. */
    method SetSpeed(newSpeed: Word64)
      modifies this`curDelay, this`status
      ensures LegalSpeed(newSpeed) ==> curDelay == newSpeed && status == old(status)
      ensures !LegalSpeed(newSpeed) ==>
                curDelay == old(curDelay) && status == Written(postings.pba, old(status), CNTL_STATUS_ERR1)
    {
      if newSpeed <= CNTL_SPEED_2048MS {
        curDelay := newSpeed;
      } else {
        WriteStatus(CNTL_STATUS_ERR1);
      }
    }

    /** Writes the configuration registers of a state's slice. */
    method ConfigurePmu(state: nat, forSpeed: Word64, scom: Scom)
      requires tables.Valid() && 1 <= state <= CONFIG_STATES
      modifies this`configWrites, postings`pba
      ensures configWrites == old(configWrites) + SliceWrites(tables, state, curUav, forSpeed, scom)
      ensures postings.pba == SetDma
    {
      hide Skipped, WriteOf, Tables.Valid, ConfigWrites;
      ghost var log := configWrites;
      var start := (state - 1) * CONFIGS_PER_STATE;
      var end := state * CONFIGS_PER_STATE;
      postings.pba := SetDma;
      if end > TOTAL_CONFIGS {
        end := TOTAL_CONFIGS;
      }
      var i := start;
      NothingWritten(log, start, forSpeed, scom);
      while i < end
        invariant start <= i <= end && postings.pba == SetDma
        invariant configWrites == log + ConfigWrites(tables, start, i, curUav, forSpeed, scom)
      {
        OneMoreEntry(log, start, i, forSpeed, scom);
        if !Skipped(i, curUav) {
          configWrites := configWrites + [WriteOf(tables, i, forSpeed, scom)];
        }
        i := i + 1;
      }
    }

    lemma NothingWritten(log: seq<ConfigWrite>, lo: nat, forSpeed: Word64, scom: Scom)
      requires tables.Valid() && lo <= TOTAL_CONFIGS
      ensures log + ConfigWrites(tables, lo, lo, curUav, forSpeed, scom) == log
    {
    }

    lemma OneMoreEntry(log: seq<ConfigWrite>, lo: nat, i: nat, forSpeed: Word64, scom: Scom)
      requires tables.Valid() && lo <= i < TOTAL_CONFIGS
      ensures log + ConfigWrites(tables, lo, i + 1, curUav, forSpeed, scom)
           == log + ConfigWrites(tables, lo, i, curUav, forSpeed, scom)
              + if Skipped(i, curUav) then [] else [WriteOf(tables, i, forSpeed, scom)]
    {
      hide Skipped, WriteOf, Tables.Valid;
    }

    /** The first call since the OCC started: zeroes the posting area and reads the speed. */
    method FirstCall()
      requires |postings.cells| == CELLS
      modifies this`configure, this`init, this`status, this`cmd, this`uav, this`curSpeed, this`curDelay, this`dontRun
      modifies postings`pba, postings`cells
      ensures init && configure && cmd == CNTL_CMD_NOP && curSpeed == speed && postings.pba == SetDma
      ensures postings.cells == Wiped(old(postings.cells))
      ensures uav == if old(uav) == 0 then CNTL_UAV_TEMP else old(uav)
      ensures curDelay == if LegalSpeed(speed) then speed else old(curDelay)
      ensures status == if !LegalMode(mode) then CNTL_STATUS_ERR2
                        else if !LegalSpeed(speed) then CNTL_STATUS_ERR1 else CNTL_STATUS_INIT
      ensures dontRun <==> old(dontRun) || !LegalMode(mode) || !LegalSpeed(speed)
    {
      hide Wiped;
      configure := true;
      init := true;
      postings.InitializePostings();
      postings.pba := SetDma;
      status := CNTL_STATUS_INIT;
      cmd := CNTL_CMD_NOP;
      if uav == 0 {
        uav := CNTL_UAV_TEMP;
      }
      curSpeed := speed;
      SetSpeed(curSpeed);
      if mode != CNTL_MODE_MONITOR && mode != CNTL_MODE_DEBUG1 {
        WriteStatus(CNTL_STATUS_ERR2);
      }
      if status == CNTL_STATUS_ERR1 || status == CNTL_STATUS_ERR2 {
        dontRun := true;
      }
    }

    /** Lines 170 to 199: the host's command. An unknown command stays where it is. */
    method TakeCommand()
      requires postings.Valid()
      modifies this`cmd, this`status, this`dontRun, this`init, postings`pba, postings.mba, postings.phb
      ensures postings.pba == if old(cmd) == CNTL_CMD_NOP then old(postings.pba) else SetDma
      ensures cmd == if old(cmd) <= CNTL_CMD_CLEAR then CNTL_CMD_NOP else old(cmd)
      ensures status == if old(cmd) == CNTL_CMD_PAUSE then CNTL_STATUS_PAUSE
                        else if old(cmd) == CNTL_CMD_RESUME then CNTL_STATUS_RUN else old(status)
      ensures dontRun == (old(cmd) == CNTL_CMD_PAUSE
                          || (old(cmd) != CNTL_CMD_RESUME && old(cmd) != CNTL_CMD_CLEAR && old(dontRun)))
      ensures init == (old(init) || old(cmd) == CNTL_CMD_CLEAR)
      ensures postings.mba[..] == if old(cmd) == CNTL_CMD_PAUSE then seq(SLOTS, _ => 0) else old(postings.mba[..])
      ensures postings.phb[..] == if old(cmd) == CNTL_CMD_PAUSE then seq(SLOTS, _ => 0) else old(postings.phb[..])
    {
      if cmd != CNTL_CMD_NOP {
        postings.pba := SetDma;
        if cmd == CNTL_CMD_PAUSE {
          dontRun := true;
          status := CNTL_STATUS_PAUSE;
          cmd := CNTL_CMD_NOP;
          postings.ForgetReadings();
        } else if cmd == CNTL_CMD_RESUME {
          dontRun := false;
          status := CNTL_STATUS_RUN;
          cmd := CNTL_CMD_NOP;
        } else if cmd == CNTL_CMD_CLEAR {
          dontRun := false;
          init := true;
          cmd := CNTL_CMD_NOP;
        }
      }
    }

    /** A new speed asks for a re-initialisation; the delay is set from the old one. */
    method CheckSpeed()
      modifies this`init, this`curDelay, this`status
      ensures init <==> old(init) || speed != curSpeed
      ensures curDelay == if speed != curSpeed && LegalSpeed(curSpeed) then curSpeed else old(curDelay)
      ensures status == if speed != curSpeed && !LegalSpeed(curSpeed)
                        then Written(postings.pba, old(status), CNTL_STATUS_ERR1) else old(status)
    {
      hide Written;
      if speed != curSpeed {
        init := true;
        SetSpeed(curSpeed);
      }
    }

    /** New availability or mode; a new mode saves the status and lets collection go on. */
    method CheckUavAndMode()
      requires !partInit
      modifies this`init, this`partInit, this`prevStatus, this`dontRun
      ensures init <==> old(init) || uav != curUav || mode != curMode
      ensures partInit <==> uav != curUav || mode != curMode
      ensures prevStatus == if mode != curMode then status else old(prevStatus)
      ensures dontRun <==> mode == curMode && old(dontRun)
    {
      if uav != curUav {
        init := true;
        partInit := true;
      }
      if mode != curMode {
        init := true;
        prevStatus := status;
        partInit := true;
        dontRun := false;
      }
    }

    /** An illegal mode is an error, and an error stops collection. */
    method CheckLegal()
      modifies this`status, this`dontRun
      ensures status == if !LegalMode(mode) then Written(postings.pba, old(status), CNTL_STATUS_ERR2) else old(status)
      ensures dontRun <==> old(dontRun) || status == CNTL_STATUS_ERR1 || status == CNTL_STATUS_ERR2
    {
      if mode != CNTL_MODE_MONITOR && mode != CNTL_MODE_DEBUG1 {
        WriteStatus(CNTL_STATUS_ERR2);
      }
      if status == CNTL_STATUS_ERR1 || status == CNTL_STATUS_ERR2 {
        dontRun := true;
      }
    }

    /** Starts over with the current settings; the posting area is zeroed unless only
        availability or mode changed. */
    method Reinitialise()
      requires |postings.cells| == CELLS
      modifies this`status, this`partInit, this`configure, this`curSpeed, this`curUav, this`curMode, this`curDelay
      modifies this`currentState, this`init, postings`pba, postings`cells
      ensures !init && !partInit && configure && currentState == 1
      ensures curSpeed == speed && curUav == uav && curMode == mode
      ensures status == if LegalSpeed(speed) then CNTL_STATUS_INIT else CNTL_STATUS_ERR1
      ensures curDelay == if LegalSpeed(speed) then speed else old(curDelay)
      ensures postings.cells == if old(partInit) then old(postings.cells) else Wiped(old(postings.cells))
    {
      hide Wiped;
      postings.pba := SetDma;
      status := CNTL_STATUS_INIT;
      if partInit {
        partInit := false;
      } else {
        postings.InitializePostings();
      }
      configure := true;
      curSpeed := speed;
      curUav := uav;
      curMode := mode;
      SetSpeed(curSpeed);
      currentState := 1;
      init := false;
    }

    /** Posts a group or counts it down. */
    method VisitGroup(g: Group, scom: Scom)
      requires Valid()
      modifies this`delay, postings, postings.mba, postings.phb
      ensures Valid() && Contents() == Visit(g, old(Contents()), scom)
    {
      hide Post, Tables.Valid;
      var k := GroupIndex(g);
      if delay[k] == 0 {
        postings.PostPmuEvents(g, Context(curUav, curMode, scom));
        delay := delay[k := if k <= 3 then curDelay else curDelay / 8];
      } else {
        delay := delay[k := delay[k] - 1];
      }
    }

    /** Lines 266 to 457: a slice of the configuration, or the two groups of the state. */
    method RunState(scom: Scom)
      requires Valid()
      modifies this, postings, postings.mba, postings.phb
      ensures Valid() && Contents() == RunPhase(tables, old(Contents()), scom)
    {
      if !dontRun {
        postings.pba := SetDma;
        if configure && currentState <= CONFIG_STATES {
          ConfigureState(scom);
        } else if currentState % 2 == 1 {
          VisitGroup(G1, scom);
          VisitGroup(G2, scom);
        } else {
          VisitGroup(G3, scom);
          if currentState == 2 {
            VisitGroup(G4, scom);
          } else if currentState == 4 {
            VisitGroup(G5, scom);
          } else if currentState == 6 {
            VisitGroup(G6, scom);
          } else {
            VisitGroup(G7, scom);
          }
        }
      }
    }

    /** A configuring state; the last one also takes the collector out of configuration. */
    method ConfigureState(scom: Scom)
      requires Valid() && configure && !dontRun && currentState <= CONFIG_STATES
      modifies this`configWrites, this`configure, this`status, this`dontRun, this`modeState, this`prevStatus
      modifies postings`pba
      ensures Valid() && Contents() == Configure(tables, old(Contents()), scom)
    {
      hide SliceWrites, Tables.Valid, Banks.Valid;
      ghost var s := Contents();
      ConfigureSlice(scom);
      ghost var s' := Contents();
      assert s'.banks == s.banks;
      assert s' == Configure(tables, s, scom) by {
        assert s'.st == Configure(tables, s, scom).st;
        assert s'.control == Configure(tables, s, scom).control;
        assert s'.log == Configure(tables, s, scom).log;
      }
    }

    method ConfigureSlice(scom: Scom)
      requires tables.Valid() && 1 <= currentState <= CONFIG_STATES && !dontRun
      modifies this`configWrites, this`configure, this`status, this`dontRun, this`modeState, this`prevStatus
      modifies postings`pba
      ensures configWrites == old(configWrites) + SliceWrites(tables, currentState, curUav, curSpeed, scom)
      ensures currentState < CONFIG_STATES ==>
                configure == old(configure) && status == old(status) && !dontRun && modeState == old(modeState)
                && prevStatus == old(prevStatus)
      ensures currentState == CONFIG_STATES ==>
                !configure && dontRun == (old(prevStatus) == CNTL_STATUS_PAUSE) && modeState == curMode
                && prevStatus == 0 && status == (if dontRun then CNTL_STATUS_PAUSE else CNTL_STATUS_RUN)
    {
      hide SliceWrites, Tables.Valid;
      ConfigurePmu(currentState, curSpeed, scom);
      if currentState == CONFIG_STATES {
        FinishConfiguration();
      }
    }

    /** Back to running, or to the PAUSE that a mode change saved. */
    method FinishConfiguration()
      requires !dontRun
      modifies this`configure, this`status, this`dontRun, this`modeState, this`prevStatus
      ensures !configure && dontRun == (old(prevStatus) == CNTL_STATUS_PAUSE) && modeState == curMode
      ensures prevStatus == 0 && status == if dontRun then CNTL_STATUS_PAUSE else CNTL_STATUS_RUN
    {
      configure := false;
      status := CNTL_STATUS_RUN;
      if prevStatus == CNTL_STATUS_PAUSE {
        dontRun := true;
        status := prevStatus;
      }
      modeState := curMode;
      prevStatus := 0;
    }

    /** One call of gpe_24x7. */
    method Gpe24x7(i: Input)
      requires Valid()
      modifies this, postings, postings.mba, postings.phb
      ensures Valid() && Contents() == Step(tables, old(Contents()), i)
    {
      BeginCall(i);
      RunState(i.scom);
      currentState := if currentState == MAX_24X7_STATES then 1 else currentState + 1;
    }

    /** The slave reset, what the first call initialises, and the host's command. */
    method EnterAndCommand(i: Input)
      requires |postings.cells| == CELLS && postings.Valid() && !init
      modifies this`configure, this`init, this`status, this`cmd, this`curSpeed, this`curDelay, this`dontRun
      modifies this`speed, this`uav, this`mode, postings`pba, postings`cells, postings.mba, postings.phb
      ensures speed == i.host.speed && mode == i.host.mode && uav == UavSeen(i)
      ensures cmd == if Command(i) <= CNTL_CMD_CLEAR then CNTL_CMD_NOP else Command(i)
      ensures postings.Valid() && postings.pba == EarlyMode(i)
      ensures postings.cells == if i.ticks == 0 then Wiped(old(postings.cells)) else old(postings.cells)
      ensures postings.mba[..] == if Command(i) == CNTL_CMD_PAUSE then seq(SLOTS, _ => 0) else old(postings.mba[..])
      ensures postings.phb[..] == if Command(i) == CNTL_CMD_PAUSE then seq(SLOTS, _ => 0) else old(postings.phb[..])
      ensures status == StatusAfterCommand(old(status), i)
      ensures dontRun == StoppedAfterCommand(old(dontRun), i)
      ensures init == (i.ticks == 0 || Command(i) == CNTL_CMD_CLEAR)
      ensures configure == (old(configure) || i.ticks == 0)
      ensures curSpeed == KnownSpeed(old(curSpeed), i)
      ensures curDelay == if i.ticks == 0 && LegalSpeed(i.host.speed) then i.host.speed else old(curDelay)
    {
      hide Wiped, LegalSpeed, LegalMode;
      cmd, speed, uav, mode := i.host.cmd, i.host.speed, i.host.uav, i.host.mode;
      postings.pba := i.afterReset;
      if i.ticks == 0 {
        FirstCall();
      } else if i.ticks > 1 {
        postings.pba := SetDma;
      }
      TakeCommand();
    }

    /** The comparison with the host's settings, and the re-initialisation it asks for. */
    method CheckChanges()
      requires |postings.cells| == CELLS && !partInit
      modifies this`status, this`prevStatus, this`dontRun, this`curDelay, this`configure, this`currentState
      modifies this`init, this`partInit, this`curSpeed, this`curUav, this`curMode, postings`pba, postings`cells
      ensures curSpeed == speed && curUav == uav && curMode == mode && !init && !partInit
      ensures var e := Entered(old(status), old(dontRun), old(init), old(curSpeed), old(curDelay), old(postings.pba));
              var d := Checked(e, old(prevStatus), old(curUav), old(curMode), speed, uav, mode);
              && status == d.status && prevStatus == d.prevStatus && dontRun == d.dontRun && curDelay == d.curDelay
              && configure == (old(configure) || d.reinit)
              && currentState == (if d.reinit then 1 else old(currentState))
              && postings.cells == (if d.wipe then Wiped(old(postings.cells)) else old(postings.cells))
    {
      hide Wiped, LegalSpeed, StatusAfterSpeed, StatusAfterMode, DelayAfterSpeed;
      CompareSettings();
      if init {
        Reinitialise();
      }
    }

    /** The three checks; each leaves its mark for the re-initialisation. */
    method CompareSettings()
      requires !partInit
      modifies this`status, this`prevStatus, this`dontRun, this`curDelay, this`init, this`partInit
      ensures var e := Entered(old(status), old(dontRun), old(init), old(curSpeed), old(curDelay), postings.pba);
              && status == StatusAfterMode(e, speed, mode) && curDelay == DelayAfterSpeed(e, speed)
              && prevStatus == (if mode != curMode then StatusAfterSpeed(e, speed) else old(prevStatus))
      ensures dontRun <==>
                (mode == curMode && old(dontRun)) || status == CNTL_STATUS_ERR1 || status == CNTL_STATUS_ERR2
      ensures init <==> old(init) || speed != curSpeed || uav != curUav || mode != curMode
      ensures partInit <==> uav != curUav || mode != curMode
    {
      hide Written, LegalMode, LegalSpeed;
      CheckSpeed();
      CheckUavAndMode();
      CheckLegal();
    }

    /** The checks after the command, and the re-initialisation they ask for. */
    method CheckAndReinitialise(i: Input)
      requires Valid()
      modifies this`status, this`cmd, this`speed, this`uav, this`mode, this`prevStatus, this`dontRun, this`curDelay
      modifies this`configure, this`currentState, this`init, this`partInit, this`curSpeed, this`curUav, this`curMode
      modifies postings`pba, postings`cells, postings.mba, postings.phb
      ensures var d := Decide(old(Contents()), i);
              && status == d.status && prevStatus == d.prevStatus && dontRun == d.dontRun && curDelay == d.curDelay
              && configure == (old(configure) || d.reinit)
              && currentState == (if d.reinit then 1 else old(currentState))
              && postings.cells == (if i.ticks == 0 || d.wipe then Wiped(old(postings.cells)) else old(postings.cells))
              && postings.mba[..]
                 == (if Command(i) == CNTL_CMD_PAUSE then seq(SLOTS, _ => 0) else old(postings.mba[..]))
              && postings.phb[..]
                 == (if Command(i) == CNTL_CMD_PAUSE then seq(SLOTS, _ => 0) else old(postings.phb[..]))
      ensures cmd == (if Command(i) <= CNTL_CMD_CLEAR then CNTL_CMD_NOP else Command(i))
      ensures speed == curSpeed == i.host.speed && uav == curUav == UavSeen(i) && mode == curMode == i.host.mode
      ensures !init && !partInit
    {
      hide Checked, Wiped, Tables.Valid, LegalSpeed, StatusAfterCommand, StoppedAfterCommand, EarlyMode, UavSeen,
           Command, KnownSpeed;
      WipedTwice(postings.cells);
      EnterAndCommand(i);
      CheckChanges();
    }

    static lemma WipedTwice(cells: seq<Word64>)
      requires |cells| == CELLS
      ensures Wiped(Wiped(cells)) == Wiped(cells)
    {
    }

    /** The first part of a call, up to line 258. */
    method BeginCall(i: Input)
      requires Valid()
      modifies this, postings, postings.mba, postings.phb
      ensures Valid() && Contents() == Begin(old(Contents()), i)
    {
      hide Wiped, Tables.Valid, Decide, UavSeen, Command;
      ghost var s := Contents();
      CheckAndReinitialise(i);
      ghost var s' := Contents();
      assert s'.banks == Begin(s, i).banks;
      assert s'.st == Begin(s, i).st;
      assert s'.control == Begin(s, i).control;
    }
  }
}
