/** The 24x7 collector (gpe1_24x7.c): what one call does, as a function of the state before
    it and of what it sees of the host and the hardware. */
module Pmu24x7 {
  import opened MachineWords
  import opened PmuLayout
  import PmuPostings

  const CNTL_STATUS_INIT: Word64 := 0
  const CNTL_STATUS_RUN: Word64 := 1
  const CNTL_STATUS_PAUSE: Word64 := 2
  const CNTL_STATUS_ERR1: Word64 := 3
  const CNTL_STATUS_ERR2: Word64 := 4

  const CNTL_CMD_NOP: Word64 := 0
  const CNTL_CMD_RESUME: Word64 := 1
  const CNTL_CMD_PAUSE: Word64 := 2
  const CNTL_CMD_CLEAR: Word64 := 3

  const CNTL_SPEED_8MS: Word64 := 3
  const CNTL_SPEED_2048MS: Word64 := 11
  const CNTL_UAV_TEMP: bv64 := 0xFFFF8073F007E000

  const MAX_24X7_STATES: nat := 8
  const CONFIG_STATES: nat := 4
  const TOTAL_CONFIGS: nat := 61
  const CONFIGS_PER_STATE: nat := 16
  const XTS_CONFIG2: nat := 0x5011645

  // ---------- Configuration ----------

  datatype ConfigEntry = ConfigEntry(address: nat, data: Word64)

  /** The XTS entry leaves the low 16 bits of its register alone. */
  ghost predicate SparesLowBits(table: seq<ConfigEntry>)
    requires |table| == TOTAL_CONFIGS
  {
    forall i :: 0 <= i < TOTAL_CONFIGS && table[i].address == XTS_CONFIG2 ==> table[i].data % TWO_16 == 0
  }

  /** The two configuration tables, for 8-bit and 16-bit prescale. */
  datatype Tables = Tables(prescale8: seq<ConfigEntry>, prescale16: seq<ConfigEntry>) {
    ghost predicate Valid() {
      && |prescale8| == |prescale16| == TOTAL_CONFIGS
      && SparesLowBits(prescale8) && SparesLowBits(prescale16)
    }

    function Entry(i: nat, speed: Word64): ConfigEntry
      requires |prescale8| == |prescale16| == TOTAL_CONFIGS && i < TOTAL_CONFIGS
    {
      if speed <= CNTL_SPEED_8MS then prescale8[i] else prescale16[i]
    }
  }

  /** The availability gate: entry i is skipped when the unit it is gated by is absent.
      Entry 54 is gated by the second CAPP although it belongs to the first; the first
      four entries and the last three are never skipped. */
  predicate Skipped(i: nat, uav: bv64) {
    if 4 <= i < 8 then !Has(uav, MaskMba(i))
    else if 8 <= i < 12 then !Has(uav, MaskMba(4)) && !Has(uav, MaskMba(5))
    else if 12 <= i < 16 then !Has(uav, MaskMba(6)) && !Has(uav, MaskMba(7))
    else if 16 <= i < 20 then !Has(uav, MaskMba(i - 16))
    else if 20 <= i < 24 then !Has(uav, MaskMba(0)) && !Has(uav, MaskMba(1))
    else if 24 <= i < 28 then !Has(uav, MaskMba(2)) && !Has(uav, MaskMba(3))
    else if i == 28 then !Has(uav, MaskLink(0)) && !Has(uav, MaskLink(1)) && !Has(uav, MaskLink(2))
    else if 29 <= i < 33 then !Has(uav, MaskLink(3))
    else if 33 <= i < 39 then !Has(uav, MaskNvlink(i - 33))
    else if 39 <= i < 41 then !AnyNvlink(uav)
    else if 41 <= i < 47 then !Has(uav, MaskPhb(i - 41))
    else if 47 <= i < 50 then !Has(uav, MaskNvlink(2 * (i - 47))) && !Has(uav, MaskNvlink(2 * (i - 47) + 1))
    else if 50 <= i < 54 then !Has(uav, MaskCapp(0))
    else if 54 <= i < 58 then !Has(uav, MaskCapp(1))
    else false
  }

  /** A configuration register write, with the index of the entry it comes from. */
  datatype ConfigWrite = ConfigWrite(index: nat, address: nat, data: Word64)

  function WriteOf(t: Tables, i: nat, speed: Word64, scom: Scom): ConfigWrite
    requires t.Valid() && i < TOTAL_CONFIGS
  {
    var e := t.Entry(i, speed);
    ConfigWrite(i, e.address, if e.address == XTS_CONFIG2 then e.data + scom(e.address) % TWO_16 else e.data)
  }

  /** The writes for the entries from `lo` up to `hi`, in order. */
  function ConfigWrites(t: Tables, lo: nat, hi: nat, uav: bv64, speed: Word64, scom: Scom): seq<ConfigWrite>
    requires t.Valid() && lo <= hi <= TOTAL_CONFIGS
    decreases hi - lo
  {
    if lo == hi then []
    else ConfigWrites(t, lo, hi - 1, uav, speed, scom)
         + if Skipped(hi - 1, uav) then [] else [WriteOf(t, hi - 1, speed, scom)]
  }

  function SliceStart(phase: nat): nat
    requires 1 <= phase <= CONFIG_STATES
  {
    (phase - 1) * CONFIGS_PER_STATE
  }

  function SliceEnd(phase: nat): (end: nat)
    requires 1 <= phase <= CONFIG_STATES
    ensures SliceStart(phase) <= end <= TOTAL_CONFIGS
  {
    if phase * CONFIGS_PER_STATE > TOTAL_CONFIGS then TOTAL_CONFIGS else phase * CONFIGS_PER_STATE
  }

  /** The writes of a configuring state, in order. */
  function SliceWrites(t: Tables, phase: nat, uav: bv64, speed: Word64, scom: Scom): seq<ConfigWrite>
    requires t.Valid() && 1 <= phase <= CONFIG_STATES
  {
    ConfigWrites(t, SliceStart(phase), SliceEnd(phase), uav, speed, scom)
  }

  // ---------- State ----------

  /** The control block; the host writes command, speed, availability and mode. */
  datatype Control = Control(status: Word64, cmd: Word64, speed: Word64, uav: bv64, mode: Word64, modeState: Word64)

  /** The statics of the step function. `delay[g]` is the countdown of group g, 1 to 7. */
  datatype Statics = Statics(phase: nat, delay: seq<nat>, curDelay: nat, curSpeed: Word64, prevStatus: Word64,
                             configure: bool, dontRun: bool, curUav: bv64, curMode: Word64)
  {
    predicate Valid() {
      1 <= phase <= MAX_24X7_STATES && |delay| == 8 && curDelay <= 11
    }
  }

  datatype Collection = Collection(control: Control, st: Statics, banks: Banks, log: seq<ConfigWrite>) {
    predicate Valid() {
      st.Valid() && banks.Valid()
    }

    function Context(scom: Scom): Context {
      PmuLayout.Context(st.curUav, st.curMode, scom)
    }
  }

  datatype HostBlock = HostBlock(cmd: Word64, speed: Word64, uav: bv64, mode: Word64)

  /** What one call sees: the ticks since the last call, the host's part of the control
      block, the PBA write mode that the slave reset leaves behind, and the registers. */
  datatype Input = Input(ticks: nat, host: HostBlock, afterReset: PmuPostings.PbaMode, scom: Scom)

  // ---------- The first part of a call: commands and changes ----------

  predicate LegalSpeed(speed: Word64) {
    speed <= CNTL_SPEED_2048MS
  }

  predicate LegalMode(mode: Word64) {
    mode == CNTL_MODE_MONITOR || mode == CNTL_MODE_DEBUG1
  }

  /** A control block word after a write in the given mode. */
  function Written(pba: PmuPostings.PbaMode, before: Word64, v: Word64): Word64 {
    if pba == PmuPostings.SetAtomic then Add64(before, v) else v
  }

  /** Everything the first part of a call decides. */
  datatype Decision = Decision(
    status: Word64,      // the status after the checks
    prevStatus: Word64,  // the status saved by a mode change
    dontRun: bool,
    wipe: bool,          // zero the posting area
    reinit: bool,        // reconfigure, starting in this call
    curDelay: nat)

  function UavSeen(i: Input): bv64 {
    if i.ticks == 0 && i.host.uav == 0 then CNTL_UAV_TEMP else i.host.uav
  }

  /** The first call ignores the command. */
  function Command(i: Input): Word64 {
    if i.ticks == 0 then CNTL_CMD_NOP else i.host.cmd
  }

  /** The write mode when the status may be written before anything selects stores. */
  function EarlyMode(i: Input): PmuPostings.PbaMode {
    if i.ticks != 1 || i.host.cmd != CNTL_CMD_NOP then PmuPostings.SetDma else i.afterReset
  }

  /** The speed in force before the host's is compared with it. */
  function KnownSpeed(curSpeed: Word64, i: Input): Word64 {
    if i.ticks == 0 then i.host.speed else curSpeed
  }

  /** The status once the command is taken; the first call starts from its own checks. */
  function StatusAfterCommand(status: Word64, i: Input): Word64 {
    if Command(i) == CNTL_CMD_PAUSE then CNTL_STATUS_PAUSE
    else if Command(i) == CNTL_CMD_RESUME then CNTL_STATUS_RUN
    else if i.ticks != 0 then status
    else if !LegalMode(i.host.mode) then CNTL_STATUS_ERR2
    else if !LegalSpeed(i.host.speed) then CNTL_STATUS_ERR1
    else CNTL_STATUS_INIT
  }

  /** Whether collection is stopped once the command is taken. */
  function StoppedAfterCommand(dontRun: bool, i: Input): bool {
    if Command(i) == CNTL_CMD_PAUSE then true
    else if Command(i) == CNTL_CMD_RESUME || Command(i) == CNTL_CMD_CLEAR then false
    else dontRun || (i.ticks == 0 && (!LegalMode(i.host.mode) || !LegalSpeed(i.host.speed)))
  }

  /** What the checks find: the state once the command is taken, and the write mode then. */
  datatype Entered = Entered(status: Word64, dontRun: bool, init: bool, curSpeed: Word64, curDelay: nat,
                             pba: PmuPostings.PbaMode)

  function Enter(s: Collection, i: Input): Entered {
    Entered(StatusAfterCommand(s.control.status, i), StoppedAfterCommand(s.st.dontRun, i),
            i.ticks == 0 || Command(i) == CNTL_CMD_CLEAR,
            KnownSpeed(s.st.curSpeed, i),
            if i.ticks == 0 && LegalSpeed(i.host.speed) then i.host.speed else s.st.curDelay, EarlyMode(i))
  }

  /** The status once a new speed has been seen, and once the mode has been checked. */
  function StatusAfterSpeed(e: Entered, speed: Word64): Word64 {
    if speed != e.curSpeed && !LegalSpeed(e.curSpeed) then Written(e.pba, e.status, CNTL_STATUS_ERR1) else e.status
  }

  function StatusAfterMode(e: Entered, speed: Word64, mode: Word64): Word64 {
    if LegalMode(mode) then StatusAfterSpeed(e, speed)
    else Written(e.pba, StatusAfterSpeed(e, speed), CNTL_STATUS_ERR2)
  }

  /** The delay once a new speed has been seen: it is still that of the old speed. */
  function DelayAfterSpeed(e: Entered, speed: Word64): nat {
    if speed != e.curSpeed && LegalSpeed(e.curSpeed) then e.curSpeed else e.curDelay
  }

  /** The checks against the host's speed, availability and mode, on statics that hold the
      last ones seen. */
  function Checked(e: Entered, prevStatus: Word64, curUav: bv64, curMode: Word64,
                   speed: Word64, uav: bv64, mode: Word64): (d: Decision)
    ensures e.init ==> d.reinit
  {
    var status := StatusAfterMode(e, speed, mode);
    var reinit := e.init || speed != e.curSpeed || uav != curUav || mode != curMode;
    Decision(
      if !reinit then status else if LegalSpeed(speed) then CNTL_STATUS_INIT else CNTL_STATUS_ERR1,
      if mode != curMode then StatusAfterSpeed(e, speed) else prevStatus,
      (mode == curMode && e.dontRun) || status == CNTL_STATUS_ERR1 || status == CNTL_STATUS_ERR2,
      reinit && uav == curUav && mode == curMode,
      reinit,
      if reinit && LegalSpeed(speed) then speed else DelayAfterSpeed(e, speed))
  }

  function Decide(s: Collection, i: Input): Decision {
    Checked(Enter(s, i), s.st.prevStatus, s.st.curUav, s.st.curMode, i.host.speed, UavSeen(i), i.host.mode)
  }

  function Begin(s: Collection, i: Input): (s': Collection)
    requires s.Valid()
    ensures s'.Valid()
  {
    var d := Decide(s, i);
    var wipe, forget := i.ticks == 0 || d.wipe, Command(i) == CNTL_CMD_PAUSE;
    var cmd := if Command(i) <= CNTL_CMD_CLEAR then CNTL_CMD_NOP else Command(i);
    Collection(
      Control(d.status, cmd, i.host.speed, UavSeen(i), i.host.mode, s.control.modeState),
      s.st.(phase := if d.reinit then 1 else s.st.phase,
            curDelay := d.curDelay,
            curSpeed := i.host.speed,
            prevStatus := d.prevStatus,
            configure := s.st.configure || d.reinit,
            dontRun := d.dontRun,
            curUav := UavSeen(i),
            curMode := i.host.mode),
      s.banks.(cells := if wipe then Wiped(s.banks.cells) else s.banks.cells,
               mba := if forget then seq(SLOTS, _ => 0) else s.banks.mba,
               phb := if forget then seq(SLOTS, _ => 0) else s.banks.phb),
      s.log)
  }

  // ---------- The second part: configuration or postings ----------

  function GroupIndex(g: Group): nat {
    match g case G1 => 1 case G2 => 2 case G3 => 3 case G4 => 4 case G5 => 5 case G6 => 6 case G7 => 7
  }

  /** The two groups a phase is for. */
  function FirstGroup(phase: nat): Group {
    if phase % 2 == 1 then G1 else G3
  }

  function SecondGroup(phase: nat): Group {
    if phase % 2 == 1 then G2
    else if phase == 2 then G4 else if phase == 4 then G5 else if phase == 6 then G6 else G7
  }

  /** The countdown that a posting starts again. */
  function Reload(g: Group, curDelay: nat): nat {
    if GroupIndex(g) <= 3 then curDelay else curDelay / 8
  }

  /** Posts a group when its countdown is over, or counts down. */
  function Visit(g: Group, s: Collection, scom: Scom): (s': Collection)
    requires s.Valid()
    ensures s'.Valid()
  {
    var k := GroupIndex(g);
    if s.st.delay[k] == 0 then
      s.(banks := Post(g, s.banks, s.Context(scom)),
         st := s.st.(delay := s.st.delay[k := Reload(g, s.st.curDelay)]))
    else
      s.(st := s.st.(delay := s.st.delay[k := s.st.delay[k] - 1]))
  }

  function Configure(t: Tables, s: Collection, scom: Scom): (s': Collection)
    requires t.Valid() && s.Valid() && s.st.phase <= CONFIG_STATES
    ensures s'.Valid()
  {
    var phase := s.st.phase;
    var configured := s.(log := s.log + SliceWrites(t, phase, s.st.curUav, s.st.curSpeed, scom));
    if phase < CONFIG_STATES then configured
    else
      var paused := s.st.prevStatus == CNTL_STATUS_PAUSE;
      configured.(
        control := s.control.(status := if paused then CNTL_STATUS_PAUSE else CNTL_STATUS_RUN,
                              modeState := s.st.curMode),
        st := s.st.(configure := false, dontRun := paused, prevStatus := 0))
  }

  function RunPhase(t: Tables, s: Collection, scom: Scom): (s': Collection)
    requires t.Valid() && s.Valid()
    ensures s'.Valid()
  {
    if s.st.dontRun then s
    else if s.st.configure && s.st.phase <= CONFIG_STATES then Configure(t, s, scom)
    else Visit(SecondGroup(s.st.phase), Visit(FirstGroup(s.st.phase), s, scom), scom)
  }

  function NextPhase(phase: nat): nat {
    if phase == MAX_24X7_STATES then 1 else phase + 1
  }

  /** One call. */
  function Step(t: Tables, s: Collection, i: Input): (s': Collection)
    requires t.Valid() && s.Valid()
    ensures s'.Valid()
  {
    var r := RunPhase(t, Begin(s, i), i.scom);
    r.(st := r.st.(phase := NextPhase(r.st.phase)))
  }
}
